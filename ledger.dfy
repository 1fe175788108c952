/** The ledger `monthlySummary`: month key -> (day key -> count), and the two
    updater rules that `handleAddOne` and `handleRemoveOne` hand to
    `setMonthlySummary`. Counts are JS numbers, so an `int`; the source's falsy
    tests (`|| 0`, `!monthData[dateStr]`) treat a stored 0 like a missing day. */
module Ledger {
  import opened Text

  type MonthData = map<string, int>
  type Summary = map<string, MonthData>

  // ---------------------------------------------------------------------------
  // Sums over maps (`Object.values(m).reduce((a, b) => a + b, 0)`)
  // ---------------------------------------------------------------------------

  ghost function MapSum<K>(m: map<K, int>): int
    decreases |m|
  {
    if m == map[] then 0
    else
      var k :| k in m;
      m[k] + MapSum(m - {k})
  }

  /** The sum does not depend on which key is taken out first. */
  lemma {:induction false} MapSumRemove<K>(m: map<K, int>, k: K)
    requires k in m
    ensures MapSum(m) == m[k] + MapSum(m - {k})
    decreases |m|
  {
    var j :| j in m && MapSum(m) == m[j] + MapSum(m - {j});
    if j != k {
      MapSumRemove(m - {j}, k);
      MapSumRemove(m - {k}, j);
      assert m - {j} - {k} == m - {k} - {j};
    }
  }

  lemma MapSumUpdate<K>(m: map<K, int>, k: K, v: int)
    ensures MapSum(m[k := v]) == MapSum(m) - (if k in m then m[k] else 0) + v
  {
    MapSumRemove(m[k := v], k);
    if k in m {
      MapSumRemove(m, k);
      assert m[k := v] - {k} == m - {k};
    } else {
      assert m[k := v] - {k} == m;
    }
  }

  /** With every value at least 1 the sum is at least the number of keys. */
  lemma {:induction false} MapSumAtLeastSize<K>(m: map<K, int>)
    requires forall k :: k in m ==> m[k] >= 1
    ensures MapSum(m) >= |m|
    decreases |m|
  {
    if m != map[] {
      var k :| k in m;
      MapSumRemove(m, k);
      MapSumAtLeastSize(m - {k});
    }
  }

  /** A sum of non-negative values is non-negative. */
  lemma {:induction false} MapSumNonNeg<K>(m: map<K, int>)
    requires forall k :: k in m ==> m[k] >= 0
    ensures MapSum(m) >= 0
    decreases |m|
  {
    if m != map[] {
      var k :| k in m;
      MapSumRemove(m, k);
      MapSumNonNeg(m - {k});
    }
  }

  /** Per-month totals, the sum of each month's counts. */
  ghost function MonthTotals(l: Summary): map<string, int>
  {
    map mk | mk in l :: MapSum(l[mk])
  }

  /** The grand total: every count of every day of every month. */
  ghost function Total(l: Summary): (t: int)
    ensures l == map[] ==> t == 0
  {
    assert l == map[] ==> MonthTotals(l) == map[];
    MapSum(MonthTotals(l))
  }

  /** With positive counts the total is never negative, and without empty months
      it is at least the number of months. */
  lemma TotalBounds(l: Summary)
    ensures CountsPositive(l) ==> Total(l) >= 0
    ensures CountsPositive(l) && NoEmptyMonth(l) ==> Total(l) >= |l|
  {
    if CountsPositive(l) {
      forall mk | mk in l ensures MonthTotals(l)[mk] >= |l[mk]| {
        MapSumAtLeastSize(l[mk]);
      }
      MapSumNonNeg(MonthTotals(l));
      if NoEmptyMonth(l) {
        forall mk | mk in l ensures MonthTotals(l)[mk] >= 1 {
          assert |l[mk]| > 0;
        }
        MapSumAtLeastSize(MonthTotals(l));
        assert MonthTotals(l).Keys == l.Keys;
      }
    }
  }

  lemma TotalRemove(l: Summary, mk: string)
    requires mk in l
    ensures Total(l) == MapSum(l[mk]) + Total(l - {mk})
  {
    MapSumRemove(MonthTotals(l), mk);
    assert MonthTotals(l) - {mk} == MonthTotals(l - {mk});
  }

  lemma TotalUpdate(l: Summary, mk: string, md: MonthData)
    ensures Total(l[mk := md]) == Total(l) - (if mk in l then MapSum(l[mk]) else 0) + MapSum(md)
  {
    assert MonthTotals(l[mk := md]) == MonthTotals(l)[mk := MapSum(md)];
    MapSumUpdate(MonthTotals(l), mk, MapSum(md));
  }

  // ---------------------------------------------------------------------------
  // Lookup and the ledger invariants
  // ---------------------------------------------------------------------------

  /** `prev[monthKey]?.[dateStr] || 0`: the stored count, 0 when absent. */
  function Count(l: Summary, mk: string, dk: string): (c: int)
    ensures c != 0 <==> Present(l, mk, dk)
  {
    if mk in l && dk in l[mk] then l[mk][dk] else 0
  }

  /** The guard of `handleRemoveOne`: the month exists and holds a truthy
      (non-zero) count for the day. */
  predicate Present(l: Summary, mk: string, dk: string)
  {
    mk in l && dk in l[mk] && l[mk][dk] != 0
  }

  ghost predicate CountsPositive(l: Summary)
  {
    forall mk, dk :: mk in l && dk in l[mk] ==> l[mk][dk] >= 1
  }

  ghost predicate NoEmptyMonth(l: Summary)
  {
    forall mk :: mk in l ==> l[mk] != map[]
  }

  /** Every month key holds a dash and files only day keys that extend it. */
  ghost predicate FiledByMonth(l: Summary)
  {
    forall mk :: mk in l ==> '-' in mk && forall dk :: dk in l[mk] ==> StartsWith(dk, mk + "-")
  }

  ghost predicate WellFormed(l: Summary)
  {
    CountsPositive(l) && NoEmptyMonth(l) && FiledByMonth(l)
  }

  /** In a well-formed ledger the total is zero exactly when the ledger is empty. */
  lemma TotalZeroIffEmpty(l: Summary)
    requires WellFormed(l)
    ensures Total(l) == 0 <==> l == map[]
  {
    TotalBounds(l);
  }

  // ---------------------------------------------------------------------------
  // Adding one entry
  // ---------------------------------------------------------------------------

  /** The `setMonthlySummary` updater of `handleAddOne`: the day's count becomes its
      previous value (0 when absent) plus one, creating the month when needed. */
  function AddEntry(l: Summary, mk: string, dk: string): (r: Summary)
    ensures r.Keys == l.Keys + {mk}
    ensures r[mk].Keys == (if mk in l then l[mk].Keys else {}) + {dk}
    ensures Count(r, mk, dk) == Count(l, mk, dk) + 1
    ensures forall m, d :: (m != mk || d != dk) ==> Count(r, m, d) == Count(l, m, d)
    ensures forall m {:trigger r[m]} :: m in l && m != mk ==> r[m] == l[m]
    ensures forall d {:trigger r[mk][d]} :: mk in l && d in l[mk] && d != dk ==> r[mk][d] == l[mk][d]
  {
    var monthData := if mk in l then l[mk] else map[];
    l[mk := monthData[dk := Count(l, mk, dk) + 1]]
  }

  /** Adding raises the total by exactly one, whatever the ledger holds. */
  lemma AddEntryTotal(l: Summary, mk: string, dk: string)
    ensures Total(AddEntry(l, mk, dk)) == Total(l) + 1
  {
    var monthData := if mk in l then l[mk] else map[];
    TotalUpdate(l, mk, monthData[dk := Count(l, mk, dk) + 1]);
    MapSumUpdate(monthData, dk, Count(l, mk, dk) + 1);
    assert mk !in l ==> MapSum(monthData) == 0;
  }

  /** Adding keeps the ledger well formed when the day key extends the month key. */
  lemma AddEntryWellFormed(l: Summary, mk: string, dk: string)
    requires WellFormed(l)
    requires '-' in mk && StartsWith(dk, mk + "-")
    ensures WellFormed(AddEntry(l, mk, dk))
  {
    var r := AddEntry(l, mk, dk);
    forall m, d | m in r && d in r[m] ensures r[m][d] >= 1 {
      assert Count(r, m, d) == r[m][d];
    }
  }

  // ---------------------------------------------------------------------------
  // Removing one entry
  // ---------------------------------------------------------------------------

  /** The `setMonthlySummary` updater of `handleRemoveOne`: nothing happens unless
      the day is present; a count above one goes down by one, otherwise the day is
      deleted, and a month left without days is deleted too. */
  function RemoveEntry(l: Summary, mk: string, dk: string): (r: Summary)
    ensures !Present(l, mk, dk) ==> r == l
    ensures Present(l, mk, dk) ==>
      forall m, d :: (m != mk || d != dk) ==> Count(r, m, d) == Count(l, m, d)
    ensures Present(l, mk, dk) && l[mk][dk] > 1 ==>
      r.Keys == l.Keys && r[mk].Keys == l[mk].Keys && Count(r, mk, dk) == l[mk][dk] - 1
    ensures Present(l, mk, dk) && l[mk][dk] <= 1 ==>
      (mk in r <==> l[mk].Keys != {dk})
      && r.Keys - {mk} == l.Keys - {mk}
      && (mk in r ==> r[mk].Keys == l[mk].Keys - {dk})
    ensures forall m :: m in l && m != mk ==> m in r && r[m] == l[m]
  {
    if !Present(l, mk, dk) then l
    else
      var monthData := if l[mk][dk] > 1 then l[mk][dk := l[mk][dk] - 1] else l[mk] - {dk};
      assert l[mk][dk] > 1 ==> dk in monthData;
      assert l[mk].Keys != {dk} ==> monthData != map[] by {
        if l[mk].Keys != {dk} {
          var other :| other in l[mk] && other != dk;
          assert other in monthData;
        }
      }
      assert forall d :: d in l[mk] && d != dk ==> d in monthData;
      if monthData == map[] then
        assert l[mk].Keys == {dk};
        assert (l - {mk}).Keys - {mk} == l.Keys - {mk};
        l - {mk}
      else
        l[mk := monthData]
  }

  /** Removing a present entry lowers the total by exactly one when counts are
      positive; removing an absent one changes nothing. */
  lemma RemoveEntryTotal(l: Summary, mk: string, dk: string)
    requires CountsPositive(l)
    ensures Total(RemoveEntry(l, mk, dk)) == Total(l) - (if Present(l, mk, dk) then 1 else 0)
  {
    if Present(l, mk, dk) {
      var md := l[mk];
      var monthData := if md[dk] > 1 then md[dk := md[dk] - 1] else md - {dk};
      MapSumRemove(md, dk);
      if md[dk] > 1 {
        MapSumUpdate(md, dk, md[dk] - 1);
      }
      assert MapSum(monthData) == MapSum(md) - 1;
      if monthData == map[] {
        TotalRemove(l, mk);
        assert MapSum(monthData) == 0;
      } else {
        TotalUpdate(l, mk, monthData);
      }
    }
  }

  lemma RemoveEntryWellFormed(l: Summary, mk: string, dk: string)
    requires WellFormed(l)
    ensures WellFormed(RemoveEntry(l, mk, dk))
  {
    var r := RemoveEntry(l, mk, dk);
    if Present(l, mk, dk) {
      forall m, d | m in r && d in r[m] ensures r[m][d] >= 1 {
        assert Count(r, m, d) == r[m][d];
        if m == mk && d == dk {
          assert l[mk][dk] > 1;
        }
      }
      forall m | m in r ensures r[m] != map[] {
        if m != mk {
          assert r[m].Keys == l[m].Keys by {
            forall d ensures d in r[m] <==> d in l[m] {
              assert Count(r, m, d) == Count(l, m, d);
            }
          }
        }
      }
      forall m | m in r ensures '-' in m && forall d :: d in r[m] ==> StartsWith(d, m + "-") {
        forall d | d in r[m] ensures d in l[m] {
          assert Count(r, m, d) == r[m][d];
          if m == mk && d == dk {
          } else {
            assert Count(l, m, d) == r[m][d];
          }
        }
      }
    }
  }

  // ---------------------------------------------------------------------------
  // Recomputing the total
  // ---------------------------------------------------------------------------

  /** `Object.values(updated).flatMap(m => Object.values(m)).reduce((a, b) => a + b, 0)`:
      every count of every month added up. */
  method SumCounts(l: Summary) returns (t: int)
    ensures t == Total(l)
  {
    t := 0;
    var months := l;
    while months != map[]
      invariant t + Total(months) == Total(l)
      decreases |months|
    {
      var mk :| mk in months;
      TotalRemove(months, mk);
      var days := months[mk];
      months := months - {mk};
      while days != map[]
        invariant t + MapSum(days) + Total(months) == Total(l)
        decreases |days|
      {
        var dk :| dk in days;
        MapSumRemove(days, dk);
        t := t + days[dk];
        days := days - {dk};
      }
    }
  }
}
