/** Sorting a set of keys. `Object.keys(o).sort()` and
    `Object.keys(o).sort((a, b) => b.localeCompare(a))` both yield the one strictly
    ordered listing of the keys; SortAsc is that listing in ascending order and
    Reverse turns it into the descending one. */
module Sorting {
  import opened Text

  ghost predicate StrictlyAscending(r: seq<string>)
  {
    forall i, j :: 0 <= i < j < |r| ==> StrLt(r[i], r[j])
  }

  ghost predicate StrictlyDescending(r: seq<string>)
  {
    forall i, j :: 0 <= i < j < |r| ==> StrLt(r[j], r[i])
  }

  /** Inserts x into its place in an ascending sequence that does not hold it. */
  function Insert(x: string, r: seq<string>): (q: seq<string>)
    requires StrictlyAscending(r) && x !in r
    ensures StrictlyAscending(q)
    ensures |q| == |r| + 1
    ensures forall y :: y in q <==> y == x || y in r
  {
    if r == [] then [x]
    else if StrLt(x, r[0]) then
      assert forall j :: 0 < j < |r| ==> StrLt(x, r[j]) by {
        forall j | 0 < j < |r| ensures StrLt(x, r[j]) {
          StrLtTransitive(x, r[0], r[j]);
        }
      }
      [x] + r
    else
      StrLtTotal(x, r[0]);
      var t := Insert(x, r[1..]);
      assert forall y :: y in r[1..] ==> StrLt(r[0], y);
      [r[0]] + t
  }

  /** The keys of s in strictly ascending order. */
  ghost function SortAsc(s: set<string>): (r: seq<string>)
    ensures StrictlyAscending(r)
    ensures |r| == |s|
    ensures forall y :: y in r <==> y in s
    decreases |s|
  {
    if s == {} then []
    else
      var x :| x in s;
      Insert(x, SortAsc(s - {x}))
  }

  function Reverse(r: seq<string>): (q: seq<string>)
    ensures |q| == |r|
    ensures forall i :: 0 <= i < |r| ==> q[i] == r[|r| - 1 - i]
  {
    if r == [] then [] else Reverse(r[1..]) + [r[0]]
  }

  lemma ReverseAscending(r: seq<string>)
    requires StrictlyAscending(r)
    ensures StrictlyDescending(Reverse(r))
    ensures forall y :: y in Reverse(r) <==> y in r
  {
    var q := Reverse(r);
    forall y | y in r ensures y in q {
      var i :| 0 <= i < |r| && r[i] == y;
      assert q[|r| - 1 - i] == y;
    }
  }

  /** The keys of s in strictly descending order. */
  ghost function SortDesc(s: set<string>): (r: seq<string>)
    ensures StrictlyDescending(r)
    ensures |r| == |s|
    ensures forall y :: y in r <==> y in s
  {
    ReverseAscending(SortAsc(s));
    Reverse(SortAsc(s))
  }

  /** A strictly ordered listing of a set is unique: any strictly ascending
      sequence holding exactly the elements of s is SortAsc(s). */
  lemma {:induction false} AscendingUnique(r: seq<string>, q: seq<string>)
    requires StrictlyAscending(r) && StrictlyAscending(q)
    requires forall y :: y in r <==> y in q
    ensures r == q
  {
    assert r != [] ==> r[0] in q;
    assert q != [] ==> q[0] in r;
    if r != [] && q != [] {
      var i :| 0 <= i < |r| && r[i] == q[0];
      var j :| 0 <= j < |q| && q[j] == r[0];
      if i > 0 && j > 0 {
        StrLtAsymmetric(r[0], r[i]);
      }
      assert r[0] == q[0];
      assert r == [r[0]] + r[1..] && q == [q[0]] + q[1..];
      StrLtIrreflexive(r[0]);
      forall y ensures y in r[1..] <==> y in q[1..] {
        if y in r[1..] {
          var k :| 0 <= k < |r[1..]| && r[1..][k] == y;
          assert StrLt(r[0], r[k + 1]);
          assert y in q && y != q[0];
        }
        if y in q[1..] {
          var k :| 0 <= k < |q[1..]| && q[1..][k] == y;
          assert StrLt(q[0], q[k + 1]);
          assert y in r && y != r[0];
        }
      }
      AscendingUnique(r[1..], q[1..]);
      assert r == [r[0]] + r[1..] && q == [q[0]] + q[1..];
    }
  }
}
