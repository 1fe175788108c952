/** The read side of `App`, recomputed from the ledger on every render: the list of
    years for the chart's year picker, the chart series of one year, the months
    newest first with their totals, and each month's days newest first. The
    monthly summary on screen and the text export read the same data. */
module Aggregates {
  import opened Text
  import opened Sorting
  import opened Ledger

  // ---------------------------------------------------------------------------
  // Sums over listings of keys
  // ---------------------------------------------------------------------------

  function SumSeq(xs: seq<int>): int
  {
    if xs == [] then 0 else xs[0] + SumSeq(xs[1..])
  }

  /** The values of m read off along the keys ks. */
  function ValuesAt(ks: seq<string>, m: map<string, int>): (vs: seq<int>)
    requires forall k :: k in ks ==> k in m
    ensures |vs| == |ks|
    ensures forall i :: 0 <= i < |ks| ==> vs[i] == m[ks[i]]
  {
    seq(|ks|, i requires 0 <= i < |ks| => m[ks[i]])
  }

  ghost predicate Distinct(ks: seq<string>)
  {
    forall i, j :: 0 <= i < j < |ks| ==> ks[i] != ks[j]
  }

  lemma DescendingDistinct(ks: seq<string>)
    requires StrictlyDescending(ks)
    ensures Distinct(ks)
  {
    forall i, j | 0 <= i < j < |ks| ensures ks[i] != ks[j] {
      StrLtIrreflexive(ks[i]);
    }
  }

  lemma AscendingDistinct(ks: seq<string>)
    requires StrictlyAscending(ks)
    ensures Distinct(ks)
  {
    forall i, j | 0 <= i < j < |ks| ensures ks[i] != ks[j] {
      StrLtIrreflexive(ks[i]);
    }
  }

  /** Reading a map's values along any duplicate-free listing of its keys and
      adding them up gives the map's sum. */
  lemma {:induction false} SumValuesAt(ks: seq<string>, m: map<string, int>)
    requires Distinct(ks)
    requires forall k :: k in ks <==> k in m
    ensures SumSeq(ValuesAt(ks, m)) == MapSum(m)
    decreases |ks|
  {
    if ks == [] {
      assert m == map[];
    } else {
      var k := ks[0];
      var rest := m - {k};
      forall x ensures x in ks[1..] <==> x in rest {
        if x in ks[1..] {
          var i :| 0 <= i < |ks[1..]| && ks[1..][i] == x;
          assert ks[i + 1] != ks[0];
        }
        if x in rest {
          assert x in ks && x != ks[0];
          assert ks == [ks[0]] + ks[1..];
        }
      }
      SumValuesAt(ks[1..], rest);
      assert ValuesAt(ks, m)[1..] == ValuesAt(ks[1..], rest);
      MapSumRemove(m, k);
    }
  }

  // ---------------------------------------------------------------------------
  // Years (`availableYears`)
  // ---------------------------------------------------------------------------

  /** `k.split("-")[0]`: the piece of a month key before its first dash. */
  function YearOf(mk: string): (y: string)
    ensures '-' !in y
    ensures StartsWith(mk, y)
    ensures '-' in mk ==> StartsWith(mk, y + "-")
    ensures '-' !in mk ==> y == mk
  {
    var parts := Split(mk, '-');
    JoinSplit(mk, '-');
    if |parts| == 1 then
      parts[0]
    else
      assert mk == parts[0] + ['-'] + Join(parts[1..], '-');
      assert mk[..|parts[0] + "-"|] == parts[0] + "-";
      parts[0]
  }

  /** `[...new Set(Object.keys(monthlySummary).map(k => k.split("-")[0]))].sort().reverse()`:
      the distinct year pieces of the month keys, newest first. */
  ghost function AvailableYears(l: Summary): (years: seq<string>)
    ensures StrictlyDescending(years)
    ensures forall y :: y in years <==> exists mk :: mk in l && YearOf(mk) == y
    ensures forall y :: y in years ==> '-' !in y
  {
    SortDesc(set mk | mk in l :: YearOf(mk))
  }

  /** For a key holding a dash and a year without one, "the key's year is y" and
      "the key starts with y followed by a dash" say the same thing. */
  lemma YearPrefix(mk: string, y: string)
    requires '-' in mk && '-' !in y
    ensures YearOf(mk) == y <==> StartsWith(mk, y + "-")
  {
    var parts := Split(mk, '-');
    JoinSplit(mk, '-');
    assert |parts| >= 2;
    assert mk == parts[0] + ['-'] + Join(parts[1..], '-');
    assert mk[..|parts[0] + "-"|] == parts[0] + "-";
    if StartsWith(mk, y + "-") {
      assert mk == y + ['-'] + mk[|y| + 1..];
      SplitAfterPiece(y, '-', mk[|y| + 1..]);
    }
  }

  // ---------------------------------------------------------------------------
  // The chart of one year (`sortedMonthsAsc`, `chartLabels`, `chartDataValues`)
  // ---------------------------------------------------------------------------

  /** `Object.keys(monthlySummary).filter(m => m.startsWith(selectedYear + "-")).sort()`. */
  ghost function SortedMonthsAsc(l: Summary, year: string): (months: seq<string>)
    ensures StrictlyAscending(months)
    ensures forall mk :: mk in months <==> mk in l && StartsWith(mk, year + "-")
  {
    SortAsc(set mk | mk in l && StartsWith(mk, year + "-"))
  }

  datatype ChartSeries = ChartSeries(labels: seq<string>, values: seq<int>)

  /** One label (the locale month name, left abstract) and one month total per
      chart month, in the same order. */
  ghost function ChartData(l: Summary, year: string, formatMonthName: string -> string): (c: ChartSeries)
    ensures |c.labels| == |c.values| == |SortedMonthsAsc(l, year)|
  {
    var months := SortedMonthsAsc(l, year);
    ChartSeries(seq(|months|, i requires 0 <= i < |months| => formatMonthName(months[i])),
                ValuesAt(months, MonthTotals(l)))
  }

  /** The ledger cut down to the months of one year. */
  ghost function YearLedger(l: Summary, year: string): Summary
  {
    map mk | mk in l && StartsWith(mk, year + "-") :: l[mk]
  }

  /** The i-th bar is labelled with, and measures, the i-th month of the year in
      ascending order; the bars add up to the year's total, so no month of the
      year is missing or counted twice. */
  lemma ChartAligned(l: Summary, year: string, formatMonthName: string -> string)
    ensures var months := SortedMonthsAsc(l, year);
            var c := ChartData(l, year, formatMonthName);
            (forall i :: 0 <= i < |months| ==>
               c.labels[i] == formatMonthName(months[i]) && c.values[i] == MapSum(l[months[i]]))
            && SumSeq(c.values) == Total(YearLedger(l, year))
  {
    var months := SortedMonthsAsc(l, year);
    var yl := YearLedger(l, year);
    AscendingDistinct(months);
    assert ValuesAt(months, MonthTotals(l)) == ValuesAt(months, MonthTotals(yl));
    SumValuesAt(months, MonthTotals(yl));
  }

  /** A year offered by the year picker is exactly one whose chart has at least
      one month. */
  lemma ChartMatchesYears(l: Summary, year: string)
    requires FiledByMonth(l)
    requires '-' !in year
    ensures year in AvailableYears(l) <==> SortedMonthsAsc(l, year) != []
  {
    var months := SortedMonthsAsc(l, year);
    if year in AvailableYears(l) {
      var mk :| mk in l && YearOf(mk) == year;
      YearPrefix(mk, year);
      assert mk in months;
    }
    if months != [] {
      assert months[0] in l;
      YearPrefix(months[0], year);
    }
  }

  /** In a well-formed ledger every bar of the chart is at least 1. */
  lemma ChartBarsPositive(l: Summary, year: string, formatMonthName: string -> string)
    requires WellFormed(l)
    ensures forall i :: 0 <= i < |ChartData(l, year, formatMonthName).values| ==>
              ChartData(l, year, formatMonthName).values[i] >= 1
  {
    var months := SortedMonthsAsc(l, year);
    var values := ChartData(l, year, formatMonthName).values;
    forall i | 0 <= i < |values| ensures values[i] >= 1 {
      assert months[i] in l;
      MapSumAtLeastSize(l[months[i]]);
      assert l[months[i]] != map[];
    }
  }

  // ---------------------------------------------------------------------------
  // Months and days newest first (`sortedMonthsDesc`, `dayEntries`, `exportData`)
  // ---------------------------------------------------------------------------

  /** `Object.keys(monthlySummary).sort((a, b) => b.localeCompare(a))`. */
  ghost function SortedMonthsDesc(l: Summary): (months: seq<string>)
    ensures StrictlyDescending(months)
    ensures |months| == |l|
    ensures forall mk :: mk in months <==> mk in l
  {
    SortDesc(l.Keys)
  }

  datatype DayEntry = DayEntry(date: string, count: int)

  function Dates(entries: seq<DayEntry>): (dates: seq<string>)
    ensures |dates| == |entries|
    ensures forall i :: 0 <= i < |entries| ==> dates[i] == entries[i].date
  {
    seq(|entries|, i requires 0 <= i < |entries| => entries[i].date)
  }

  function Counts(entries: seq<DayEntry>): (counts: seq<int>)
    ensures |counts| == |entries|
    ensures forall i :: 0 <= i < |entries| ==> counts[i] == entries[i].count
  {
    seq(|entries|, i requires 0 <= i < |entries| => entries[i].count)
  }

  /** `Object.entries(monthData).sort((a, b) => b[0].localeCompare(a[0]))`: every
      day of the month once, newest first, with its own count. */
  ghost function DayEntriesDesc(md: MonthData): (entries: seq<DayEntry>)
    ensures |entries| == |md|
    ensures StrictlyDescending(Dates(entries))
    ensures forall dk :: dk in Dates(entries) <==> dk in md
    ensures forall i :: 0 <= i < |entries| ==> entries[i].date in md && entries[i].count == md[entries[i].date]
  {
    var keys := SortDesc(md.Keys);
    var entries := seq(|keys|, i requires 0 <= i < |keys| => DayEntry(keys[i], md[keys[i]]));
    assert Dates(entries) == keys;
    entries
  }

  /** One month of the summary and of the export: its key, `totalInMonth` and its
      days newest first. */
  datatype MonthBlock = MonthBlock(monthKey: string, total: int, days: seq<DayEntry>)

  function MonthKeys(blocks: seq<MonthBlock>): (keys: seq<string>)
    ensures |keys| == |blocks|
    ensures forall i :: 0 <= i < |blocks| ==> keys[i] == blocks[i].monthKey
  {
    seq(|blocks|, i requires 0 <= i < |blocks| => blocks[i].monthKey)
  }

  /** The data the monthly summary and the export lay out: every month once,
      newest first, each with the days filed under it. */
  ghost function ExportBlocks(l: Summary): (blocks: seq<MonthBlock>)
    ensures |blocks| == |l|
    ensures StrictlyDescending(MonthKeys(blocks))
    ensures forall mk :: mk in MonthKeys(blocks) <==> mk in l
    ensures forall i :: 0 <= i < |blocks| ==>
              blocks[i].monthKey in l
              && blocks[i].total == MapSum(l[blocks[i].monthKey])
              && blocks[i].days == DayEntriesDesc(l[blocks[i].monthKey])
  {
    var months := SortedMonthsDesc(l);
    var blocks := seq(|months|, i requires 0 <= i < |months| =>
                        MonthBlock(months[i], MapSum(l[months[i]]), DayEntriesDesc(l[months[i]])));
    assert MonthKeys(blocks) == months;
    blocks
  }

  function Totals(blocks: seq<MonthBlock>): seq<int>
  {
    seq(|blocks|, i requires 0 <= i < |blocks| => blocks[i].total)
  }

  /** The counts listed under a month add up to that month's total. */
  lemma DaysAddUp(md: MonthData)
    ensures SumSeq(Counts(DayEntriesDesc(md))) == MapSum(md)
  {
    var days := DayEntriesDesc(md);
    DescendingDistinct(Dates(days));
    assert Counts(days) == ValuesAt(Dates(days), md);
    SumValuesAt(Dates(days), md);
  }

  /** Each month's total in the summary and the export is the sum of the counts
      listed under it, and the month totals add up to the grand total. */
  lemma ExportAddsUp(l: Summary)
    ensures forall i :: 0 <= i < |ExportBlocks(l)| ==>
              SumSeq(Counts(ExportBlocks(l)[i].days)) == ExportBlocks(l)[i].total
    ensures SumSeq(Totals(ExportBlocks(l))) == Total(l)
  {
    var blocks := ExportBlocks(l);
    forall i | 0 <= i < |blocks| ensures SumSeq(Counts(blocks[i].days)) == blocks[i].total {
      DaysAddUp(l[blocks[i].monthKey]);
    }
    var months := MonthKeys(blocks);
    DescendingDistinct(months);
    assert Totals(blocks) == ValuesAt(months, MonthTotals(l));
    SumValuesAt(months, MonthTotals(l));
  }

  /** In a well-formed ledger no month of the summary or the export is empty. */
  lemma ExportBlocksNonEmpty(l: Summary)
    requires WellFormed(l)
    ensures forall i :: 0 <= i < |ExportBlocks(l)| ==>
              ExportBlocks(l)[i].total >= 1 && ExportBlocks(l)[i].days != []
  {
    var blocks := ExportBlocks(l);
    forall i | 0 <= i < |blocks| ensures blocks[i].total >= 1 && blocks[i].days != [] {
      var md := l[blocks[i].monthKey];
      MapSumAtLeastSize(md);
      assert md != map[];
    }
  }
}
