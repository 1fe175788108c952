/** Calendar dates and the string keys the ledger files them under:
    `dateToLocalString` gives the day key "YYYY-MM-DD", the month key "YYYY-MM" is
    built from the same fields in `handleAddOne`, and `parseLocalDate` reads a day
    key back into a date. A date is the (year, month, day) triple of local calendar
    fields that a JS `Date` exposes through getFullYear, getMonth + 1 and getDate. */
module DateKeys {
  import opened Text

  datatype Date = Date(year: nat, month: nat, day: nat)
  {
    /** A real calendar date of the proleptic Gregorian calendar. */
    predicate Valid()
    {
      1 <= month <= 12 && 1 <= day <= DaysInMonth(year, month)
    }
  }

  predicate IsLeapYear(y: nat)
  {
    y % 4 == 0 && (y % 100 != 0 || y % 400 == 0)
  }

  function DaysInMonth(y: nat, m: nat): nat
  {
    if m == 2 then (if IsLeapYear(y) then 29 else 28)
    else if m == 4 || m == 6 || m == 9 || m == 11 then 30
    else 31
  }

  /** Chronological order of calendar dates. */
  predicate Before(a: Date, b: Date)
  {
    a.year < b.year
    || (a.year == b.year && a.month < b.month)
    || (a.year == b.year && a.month == b.month && a.day < b.day)
  }

  /** The calendar day before a valid date of year 1 or later. */
  function PrevDay(d: Date): (p: Date)
    requires d.Valid() && d.year >= 1
    ensures p.Valid() && Before(p, d)
    ensures forall e: Date :: e.Valid() && Before(e, d) ==> !Before(p, e)
  {
    if d.day > 1 then Date(d.year, d.month, d.day - 1)
    else if d.month > 1 then Date(d.year, d.month - 1, DaysInMonth(d.year, d.month - 1))
    else Date(d.year - 1, 12, 31)
  }

  /** The local calendar date of `new Date(dateStr)` for a day key: a date-only
      ISO string (four-digit year) is read as midnight UTC, so a zone whose offset
      from UTC is negative (west of Greenwich) sees the day before. Offsets are in
      minutes, less than a day either way. */
  function LocalDateOfDayKey(d: Date, utcOffsetMinutes: int): (local: Date)
    requires d.Valid() && 1000 <= d.year <= 9999
    requires -1440 < utcOffsetMinutes < 1440
    ensures local.Valid()
    ensures utcOffsetMinutes >= 0 ==> local == d
    ensures utcOffsetMinutes < 0 ==>
      Before(local, d) && forall e: Date :: e.Valid() && Before(e, d) ==> !Before(local, e)
  {
    if utcOffsetMinutes < 0 then PrevDay(d) else d
  }

  /** The month key `${getFullYear()}-${String(getMonth() + 1).padStart(2, "0")}`. */
  function MonthKeyOf(d: Date): (k: string)
    ensures StartsWith(k, NatToDecimal(d.year) + "-")
    ensures |k| == |NatToDecimal(d.year)| + 1 + |PadStart2(NatToDecimal(d.month))|
  {
    var y := NatToDecimal(d.year);
    var k := y + "-" + PadStart2(NatToDecimal(d.month));
    assert k[..|y + "-"|] == y + "-";
    k
  }

  /** `dateToLocalString`: the month key, a dash and the day padded to two digits. */
  function DayKeyOf(d: Date): (k: string)
    ensures StartsWith(k, MonthKeyOf(d) + "-")
    ensures |k| == |MonthKeyOf(d)| + 1 + |PadStart2(NatToDecimal(d.day))|
  {
    var k := MonthKeyOf(d) + "-" + PadStart2(NatToDecimal(d.day));
    assert k[..|MonthKeyOf(d) + "-"|] == MonthKeyOf(d) + "-";
    k
  }

  /** `parseLocalDate`: split on '-', convert the first three pieces with `Number`
      (a missing piece is `undefined`, hence NaN) and build `new Date(y, m - 1, d)`.
      NaN anywhere gives an invalid date (None). The JS constructor reads a year in
      0..99 as 1900 + year. Fields outside the calendar give None here. */
  function ParseLocalDate(s: string): (r: Option<Date>)
    ensures r.Some? ==> r.value.Valid() && r.value.year >= 100
    ensures r.Some? ==> |Split(s, '-')| >= 3 && NumberOf(Split(s, '-')[0]).Some?
  {
    var parts := Split(s, '-');
    var y := NumberOf(parts[0]);
    var m := if |parts| > 1 then NumberOf(parts[1]) else None;
    var d := if |parts| > 2 then NumberOf(parts[2]) else None;
    if y.None? || m.None? || d.None? then None
    else
      var year := if y.value <= 99 then 1900 + y.value else y.value;
      var date := Date(year, m.value, d.value);
      if date.Valid() then Some(date) else None
  }

  lemma DigitsHaveNoDash(s: string)
    requires AllDigits(s)
    ensures '-' !in s
  {
  }

  /** A day key splits into the decimal year, the padded month and the padded
      day: the pieces `parseLocalDate` hands to `Number`. */
  lemma SplitDayKey(d: Date)
    ensures Split(DayKeyOf(d), '-')
      == [NatToDecimal(d.year), PadStart2(NatToDecimal(d.month)), PadStart2(NatToDecimal(d.day))]
  {
    var y, m, dd := NatToDecimal(d.year), PadStart2(NatToDecimal(d.month)), PadStart2(NatToDecimal(d.day));
    PaddedRoundTrip(d.month);
    PaddedRoundTrip(d.day);
    DigitsHaveNoDash(y);
    DigitsHaveNoDash(m);
    DigitsHaveNoDash(dd);
    assert DayKeyOf(d) == y + ['-'] + (m + ['-'] + dd);
    SplitAfterPiece(y, '-', m + ['-'] + dd);
    SplitAfterPiece(m, '-', dd);
    SplitWithoutSeparator(dd, '-');
  }

  /** The month key followed by a dash starts the day key, and the piece of the
      month key before its dash is the year. */
  lemma MonthKeyStartsDayKey(d: Date)
    ensures StartsWith(DayKeyOf(d), MonthKeyOf(d) + "-")
    ensures '-' in MonthKeyOf(d)
    ensures Split(MonthKeyOf(d), '-')[0] == NatToDecimal(d.year)
  {
    var y, m := NatToDecimal(d.year), PadStart2(NatToDecimal(d.month));
    var mk := MonthKeyOf(d);
    assert mk[|y|] == '-';
    DigitsHaveNoDash(y);
    assert mk == y + ['-'] + m;
    SplitAfterPiece(y, '-', m);
  }

  /** Round trip: parsing a valid date's day key gives the date back exactly when
      its year has at least three digits; below that the JS constructor moves the
      year into the 1900s. */
  lemma RoundTrip(d: Date)
    requires d.Valid()
    ensures ParseLocalDate(DayKeyOf(d)) == Some(d) <==> d.year >= 100
  {
    SplitDayKey(d);
    DecimalRoundTrip(d.year);
    PaddedRoundTrip(d.month);
    PaddedRoundTrip(d.day);
  }

  /** A four-digit year with a month (and day) below 100 gives keys of fixed shape. */
  lemma FixedShape(d: Date)
    requires 1000 <= d.year <= 9999 && d.month < 100 && d.day < 100
    ensures MonthKeyOf(d) == FixedDigits(d.year, 4) + ("-" + FixedDigits(d.month, 2))
    ensures DayKeyOf(d) == MonthKeyOf(d) + ("-" + FixedDigits(d.day, 2))
    ensures |MonthKeyOf(d)| == 7
  {
    assert Pow10(3) == 1000 && Pow10(4) == 10000;
    DecimalIsFixed(d.year, 4);
    PaddedIsFixed(d.month);
    PaddedIsFixed(d.day);
  }

  /** Strings that share their first character compare as their tails do. */
  lemma DashPrefixed(x: string, y: string)
    ensures StrLt("-" + x, "-" + y) <==> StrLt(x, y)
    ensures "-" + x == "-" + y <==> x == y
  {
    StrLtConcat("-", x, "-", y);
    if "-" + x == "-" + y {
      assert x == ("-" + x)[1..];
    }
  }

  /** Month keys of four-digit years compare as strings the way the months compare
      in time, and equal keys mean the same month. */
  lemma MonthKeyOrder(a: Date, b: Date)
    requires 1000 <= a.year <= 9999 && 1000 <= b.year <= 9999
    requires a.Valid() && b.Valid()
    ensures StrLt(MonthKeyOf(a), MonthKeyOf(b))
            <==> a.year < b.year || (a.year == b.year && a.month < b.month)
    ensures MonthKeyOf(a) == MonthKeyOf(b) <==> a.year == b.year && a.month == b.month
  {
    FixedShape(a);
    FixedShape(b);
    var ya, yb := FixedDigits(a.year, 4), FixedDigits(b.year, 4);
    var ma, mb := FixedDigits(a.month, 2), FixedDigits(b.month, 2);
    assert Pow10(2) == 100 && Pow10(4) == 10000;
    FixedDigitsOrder(a.year, b.year, 4);
    FixedDigitsOrder(a.month, b.month, 2);
    StrLtConcat(ya, "-" + ma, yb, "-" + mb);
    DashPrefixed(ma, mb);
    if MonthKeyOf(a) == MonthKeyOf(b) {
      assert ya == MonthKeyOf(a)[..4] && yb == MonthKeyOf(b)[..4];
      assert "-" + ma == MonthKeyOf(a)[4..] && "-" + mb == MonthKeyOf(b)[4..];
    }
  }

  /** Day keys of four-digit years compare as strings the way the dates compare in
      time, and equal keys mean the same date: sorting day keys sorts dates. */
  lemma DayKeyOrder(a: Date, b: Date)
    requires 1000 <= a.year <= 9999 && 1000 <= b.year <= 9999
    requires a.Valid() && b.Valid()
    ensures StrLt(DayKeyOf(a), DayKeyOf(b)) <==> Before(a, b)
    ensures DayKeyOf(a) == DayKeyOf(b) <==> a == b
  {
    MonthKeyOrder(a, b);
    FixedShape(a);
    FixedShape(b);
    var ma, mb := MonthKeyOf(a), MonthKeyOf(b);
    var da, db := FixedDigits(a.day, 2), FixedDigits(b.day, 2);
    assert Pow10(2) == 100;
    FixedDigitsOrder(a.day, b.day, 2);
    StrLtConcat(ma, "-" + da, mb, "-" + db);
    DashPrefixed(da, db);
    if DayKeyOf(a) == DayKeyOf(b) {
      assert ma == DayKeyOf(a)[..7] && mb == DayKeyOf(b)[..7];
      assert "-" + da == DayKeyOf(a)[7..] && "-" + db == DayKeyOf(b)[7..];
    }
  }
}
