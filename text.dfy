/** Strings as the ledger's keys use them: lexicographic order by character code
    point (equal to JavaScript's UTF-16 code-unit order, and so to what
    `localeCompare` and the default `Array.prototype.sort` amount to, on keys made
    of ASCII digits and '-'), `startsWith`, `split`, and decimal digit strings
    (`String(n)`, `padStart(2, "0")`, `Number(s)`). */
module Text {

  datatype Option<T> = None | Some(value: T)

  // ---------------------------------------------------------------------------
  // Lexicographic order
  // ---------------------------------------------------------------------------

  /** a sorts strictly before b, comparing character codes from the left; a proper
      prefix sorts before the longer string. */
  predicate StrLt(a: string, b: string)
  {
    |b| > 0 && (|a| == 0 || a[0] < b[0] || (a[0] == b[0] && StrLt(a[1..], b[1..])))
  }

  lemma {:induction false} StrLtIrreflexive(a: string)
    ensures !StrLt(a, a)
  {
    if |a| > 0 {
      StrLtIrreflexive(a[1..]);
    }
  }

  lemma {:induction false} StrLtTransitive(a: string, b: string, c: string)
    requires StrLt(a, b) && StrLt(b, c)
    ensures StrLt(a, c)
  {
    if |a| > 0 && a[0] == b[0] && b[0] == c[0] {
      StrLtTransitive(a[1..], b[1..], c[1..]);
    }
  }

  lemma {:induction false} StrLtTotal(a: string, b: string)
    ensures a == b || StrLt(a, b) || StrLt(b, a)
  {
    if |a| > 0 && |b| > 0 && a[0] == b[0] {
      StrLtTotal(a[1..], b[1..]);
      if a[1..] == b[1..] {
        assert a == [a[0]] + a[1..] && b == [b[0]] + b[1..];
      }
    }
  }

  lemma {:induction false} StrLtAsymmetric(a: string, b: string)
    requires StrLt(a, b)
    ensures !StrLt(b, a)
  {
    if |a| > 0 && a[0] == b[0] {
      StrLtAsymmetric(a[1..], b[1..]);
    }
  }

  /** Comparing two strings that start with pieces of the same length: the first
      pieces decide unless they are equal. */
  lemma {:induction false} StrLtConcat(a1: string, a2: string, b1: string, b2: string)
    requires |a1| == |b1|
    ensures StrLt(a1 + a2, b1 + b2) <==> StrLt(a1, b1) || (a1 == b1 && StrLt(a2, b2))
  {
    if |a1| > 0 {
      assert (a1 + a2)[0] == a1[0] && (b1 + b2)[0] == b1[0];
      assert (a1 + a2)[1..] == a1[1..] + a2 && (b1 + b2)[1..] == b1[1..] + b2;
      StrLtConcat(a1[1..], a2, b1[1..], b2);
      if a1[0] == b1[0] && a1[1..] == b1[1..] {
        assert a1 == [a1[0]] + a1[1..] && b1 == [b1[0]] + b1[1..];
      }
    } else {
      assert a1 + a2 == a2 && b1 + b2 == b2;
    }
  }

  // ---------------------------------------------------------------------------
  // startsWith and split
  // ---------------------------------------------------------------------------

  predicate StartsWith(s: string, prefix: string)
  {
    |prefix| <= |s| && s[..|prefix|] == prefix
  }

  /** `s.split(sep)` for a one-character separator: the pieces between separators,
      an empty piece at either end when s starts or ends with sep. */
  function Split(s: string, sep: char): (parts: seq<string>)
    ensures |parts| >= 1
    ensures forall i :: 0 <= i < |parts| ==> sep !in parts[i]
    decreases |s|
  {
    if |s| == 0 then [""]
    else
      var rest := Split(s[1..], sep);
      if s[0] == sep then [""] + rest
      else [[s[0]] + rest[0]] + rest[1..]
  }

  /** The inverse of Split: the pieces joined back with the separator. */
  function Join(parts: seq<string>, sep: char): string
    requires |parts| >= 1
  {
    if |parts| == 1 then parts[0] else parts[0] + [sep] + Join(parts[1..], sep)
  }

  lemma {:induction false} JoinSplit(s: string, sep: char)
    ensures Join(Split(s, sep), sep) == s
    decreases |s|
  {
    if |s| > 0 {
      var rest := Split(s[1..], sep);
      JoinSplit(s[1..], sep);
      if s[0] == sep {
        assert Split(s, sep)[1..] == rest;
        assert s == [sep] + s[1..];
      } else {
        var parts := Split(s, sep);
        assert parts[1..] == rest[1..];
        if |rest| == 1 {
          assert s == [s[0]] + rest[0];
        } else {
          assert rest == [rest[0]] + rest[1..];
          assert s == [s[0]] + (rest[0] + [sep] + Join(rest[1..], sep));
        }
      }
    }
  }

  /** The first piece of a + [sep] + b, where a holds no separator, is a. */
  lemma {:induction false} SplitAfterPiece(a: string, sep: char, b: string)
    requires sep !in a
    ensures Split(a + [sep] + b, sep) == [a] + Split(b, sep)
    decreases |a|
  {
    if |a| == 0 {
      assert a + [sep] + b == [sep] + b;
      assert ([sep] + b)[1..] == b;
    } else {
      assert (a + [sep] + b)[1..] == a[1..] + [sep] + b;
      SplitAfterPiece(a[1..], sep, b);
      assert [a[0]] + a[1..] == a;
    }
  }

  lemma {:induction false} SplitWithoutSeparator(a: string, sep: char)
    requires sep !in a
    ensures Split(a, sep) == [a]
    decreases |a|
  {
    if |a| > 0 {
      SplitWithoutSeparator(a[1..], sep);
      assert [a[0]] + a[1..] == a;
    }
  }

  // ---------------------------------------------------------------------------
  // Decimal digits
  // ---------------------------------------------------------------------------

  predicate IsDigit(c: char)
  {
    '0' <= c <= '9'
  }

  predicate AllDigits(s: string)
  {
    forall i :: 0 <= i < |s| ==> IsDigit(s[i])
  }

  function DigitChar(n: nat): (c: char)
    requires n < 10
    ensures IsDigit(c)
  {
    (48 + n) as char
  }

  function DigitValue(c: char): (n: nat)
    requires IsDigit(c)
    ensures n < 10 && DigitChar(n) == c
  {
    (c as int - 48) as nat
  }

  /** `String(n)` for a non-negative integer: shortest decimal form, "0" for zero. */
  function NatToDecimal(n: nat): (s: string)
    ensures |s| >= 1 && AllDigits(s)
  {
    if n < 10 then [DigitChar(n)] else NatToDecimal(n / 10) + [DigitChar(n % 10)]
  }

  /** `s.padStart(2, "0")`. */
  function PadStart2(s: string): (r: string)
    ensures |r| == if |s| >= 2 then |s| else 2
    ensures |s| >= 2 ==> r == s
    ensures |s| == 1 ==> r == "0" + s
    ensures |s| == 0 ==> r == "00"
  {
    if |s| >= 2 then s else seq(2 - |s|, _ => '0') + s
  }

  /** The value of a string of decimal digits; the empty string is 0. */
  function DecimalValue(s: string): nat
    requires AllDigits(s)
  {
    if |s| == 0 then 0 else DecimalValue(s[..|s| - 1]) * 10 + DigitValue(s[|s| - 1])
  }

  /** `Number(s)` restricted to what date keys contain: a digit string (the empty
      one included) gives its value, anything else NaN (None). */
  function NumberOf(s: string): (r: Option<nat>)
    ensures r.Some? <==> AllDigits(s)
  {
    if AllDigits(s) then Some(DecimalValue(s)) else None
  }

  lemma {:induction false} DecimalRoundTrip(n: nat)
    ensures DecimalValue(NatToDecimal(n)) == n
  {
    if n >= 10 {
      var s := NatToDecimal(n);
      assert s[..|s| - 1] == NatToDecimal(n / 10);
      DecimalRoundTrip(n / 10);
    }
  }

  lemma {:induction false} LeadingZero(s: string)
    requires AllDigits(s)
    ensures AllDigits("0" + s) && DecimalValue("0" + s) == DecimalValue(s)
    decreases |s|
  {
    if |s| > 0 {
      var t := "0" + s;
      assert t[..|t| - 1] == "0" + s[..|s| - 1];
      LeadingZero(s[..|s| - 1]);
    }
  }

  /** `Number(String(n).padStart(2, "0")) == n`. */
  lemma PaddedRoundTrip(n: nat)
    ensures AllDigits(PadStart2(NatToDecimal(n)))
    ensures DecimalValue(PadStart2(NatToDecimal(n))) == n
  {
    DecimalRoundTrip(n);
    if n < 10 {
      assert PadStart2(NatToDecimal(n)) == "0" + NatToDecimal(n);
      LeadingZero(NatToDecimal(n));
    }
  }

  // ---------------------------------------------------------------------------
  // Fixed-width decimal forms and their order
  // ---------------------------------------------------------------------------

  function Pow10(w: nat): (p: nat)
    ensures p >= 1
  {
    if w == 0 then 1 else 10 * Pow10(w - 1)
  }

  /** The last w decimal digits of n, most significant first. */
  function FixedDigits(n: nat, w: nat): (s: string)
    ensures |s| == w
  {
    if w == 0 then [] else FixedDigits(n / 10, w - 1) + [DigitChar(n % 10)]
  }

  /** `String(n)` is the fixed-width form when n has exactly w digits. */
  lemma {:induction false} DecimalIsFixed(n: nat, w: nat)
    requires w >= 1 && Pow10(w - 1) <= n < Pow10(w)
    ensures NatToDecimal(n) == FixedDigits(n, w)
  {
    if w == 1 {
      assert FixedDigits(n / 10, 0) == [];
    } else {
      DecimalIsFixed(n / 10, w - 1);
    }
  }

  /** `String(n).padStart(2, "0")` is the two-digit form for n below 100. */
  lemma PaddedIsFixed(n: nat)
    requires n < 100
    ensures PadStart2(NatToDecimal(n)) == FixedDigits(n, 2)
  {
    if n < 10 {
      assert FixedDigits(n / 10, 1) == FixedDigits(0, 0) + [DigitChar(0)];
    } else {
      DecimalIsFixed(n, 2);
    }
  }

  /** On fixed-width forms of numbers that fit, string order is numeric order and
      equal strings mean equal numbers. */
  lemma {:induction false} FixedDigitsOrder(n: nat, m: nat, w: nat)
    requires n < Pow10(w) && m < Pow10(w)
    ensures StrLt(FixedDigits(n, w), FixedDigits(m, w)) <==> n < m
    ensures FixedDigits(n, w) == FixedDigits(m, w) <==> n == m
  {
    if w > 0 {
      FixedDigitsOrder(n / 10, m / 10, w - 1);
      var a, b := FixedDigits(n / 10, w - 1), FixedDigits(m / 10, w - 1);
      StrLtConcat(a, [DigitChar(n % 10)], b, [DigitChar(m % 10)]);
      if a + [DigitChar(n % 10)] == b + [DigitChar(m % 10)] {
        assert a == (a + [DigitChar(n % 10)])[..w - 1];
        assert DigitChar(n % 10) == (a + [DigitChar(n % 10)])[w - 1];
      }
    }
  }
}
