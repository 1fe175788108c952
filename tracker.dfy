/** The state `App` keeps for the ledger — `monthlySummary`, the cached total
    `poopCount` and the anchor `startDate` — and the two handlers that change it.
    Each handler runs as one atomic step. The functions AddOne and RemoveOne state
    what one call does to the whole state; the class App performs the same steps
    imperatively on its fields. */
module Tracker {
  import opened Text
  import opened DateKeys
  import opened Ledger

  datatype State = State(summary: Summary, count: int, anchor: Date)

  /** The cached total agrees with the ledger and the ledger is well formed. */
  ghost predicate Consistent(s: State)
  {
    WellFormed(s.summary) && s.count == Total(s.summary)
  }

  /** `handleAddOne(dateStr)` for the date the day key names: the anchor moves to
      that date when the cached total is 0, the total goes up by one and the day's
      count goes up by one. */
  function AddOne(s: State, d: Date): (r: State)
    ensures r.count == s.count + 1
    ensures Total(r.summary) == Total(s.summary) + 1
    ensures Count(r.summary, MonthKeyOf(d), DayKeyOf(d)) == Count(s.summary, MonthKeyOf(d), DayKeyOf(d)) + 1
  {
    AddEntryTotal(s.summary, MonthKeyOf(d), DayKeyOf(d));
    State(AddEntry(s.summary, MonthKeyOf(d), DayKeyOf(d)),
          s.count + 1,
          if s.count == 0 then d else s.anchor)
  }

  /** `handleRemoveOne(monthKey, dateStr)`: no change when the day is not present;
      otherwise the updater's ledger and a total recomputed from it. */
  ghost function RemoveOne(s: State, mk: string, dk: string): (r: State)
    ensures r.anchor == s.anchor
    ensures !Present(s.summary, mk, dk) ==> r == s
    ensures Present(s.summary, mk, dk) ==> r.count == Total(r.summary)
    ensures CountsPositive(s.summary) ==>
      Total(r.summary) == Total(s.summary) - (if Present(s.summary, mk, dk) then 1 else 0)
  {
    assert CountsPositive(s.summary) ==>
      Total(RemoveEntry(s.summary, mk, dk)) == Total(s.summary) - (if Present(s.summary, mk, dk) then 1 else 0) by {
      if CountsPositive(s.summary) {
        RemoveEntryTotal(s.summary, mk, dk);
      }
    }
    if !Present(s.summary, mk, dk) then s
    else
      var r := RemoveEntry(s.summary, mk, dk);
      State(r, Total(r), s.anchor)
  }

  /** Adding keeps the state consistent, raises the total by one, and moves the
      anchor to the added date exactly when the ledger was empty. */
  lemma AddOneStep(s: State, d: Date)
    requires Consistent(s)
    ensures Consistent(AddOne(s, d))
    ensures AddOne(s, d).count == s.count + 1
    ensures AddOne(s, d).anchor == if s.summary == map[] then d else s.anchor
  {
    MonthKeyStartsDayKey(d);
    AddEntryWellFormed(s.summary, MonthKeyOf(d), DayKeyOf(d));
    AddEntryTotal(s.summary, MonthKeyOf(d), DayKeyOf(d));
    TotalZeroIffEmpty(s.summary);
  }

  /** Removing keeps the state consistent, lowers the total by one exactly when the
      day was present, never moves the anchor, and changes nothing otherwise. */
  lemma RemoveOneStep(s: State, mk: string, dk: string)
    requires Consistent(s)
    ensures Consistent(RemoveOne(s, mk, dk))
    ensures RemoveOne(s, mk, dk).count == s.count - (if Present(s.summary, mk, dk) then 1 else 0)
    ensures RemoveOne(s, mk, dk).anchor == s.anchor
    ensures !Present(s.summary, mk, dk) ==> RemoveOne(s, mk, dk) == s
  {
    RemoveEntryWellFormed(s.summary, mk, dk);
    RemoveEntryTotal(s.summary, mk, dk);
  }

  /** `handleAddOne(dateStr)` exactly as written: the month key and the anchor come
      from `new Date(dateStr)`, whose local date is the day before in a zone west
      of UTC, while the day key stays `dateStr`. */
  function AddOneAsWritten(s: State, d: Date, utcOffsetMinutes: int): (r: State)
    requires d.Valid() && 1000 <= d.year <= 9999
    requires -1440 < utcOffsetMinutes < 1440
    ensures utcOffsetMinutes >= 0 ==> r == AddOne(s, d)
    ensures r.count == s.count + 1
  {
    var local := LocalDateOfDayKey(d, utcOffsetMinutes);
    State(AddEntry(s.summary, MonthKeyOf(local), DayKeyOf(d)),
          s.count + 1,
          if s.count == 0 then local else s.anchor)
  }

  /** West of UTC, adding on 1 January 2024 files the day "2024-01-01" under the
      month "2023-12" and anchors the counter on 31 December 2023: the ledger is no
      longer filed by month, so the chart for 2024 misses that day. AddOne, which
      takes the month from the same fields as the day key, keeps the ledger well
      formed (AddOneStep). */
  lemma NewYearsDayMisfiled(today: Date, utcOffsetMinutes: int)
    requires -1440 < utcOffsetMinutes < 0
    ensures AddOneAsWritten(State(map[], 0, today), Date(2024, 1, 1), utcOffsetMinutes)
            == State(map["2023-12" := map["2024-01-01" := 1]], 1, Date(2023, 12, 31))
    ensures !WellFormed(AddOneAsWritten(State(map[], 0, today), Date(2024, 1, 1), utcOffsetMinutes).summary)
  {
    var dec31 := Date(2023, 12, 31);
    assert LocalDateOfDayKey(Date(2024, 1, 1), utcOffsetMinutes) == dec31;
    NewYearsKeys();
    assert Count(map[], "2023-12", "2024-01-01") == 0;
    assert AddEntry(map[], "2023-12", "2024-01-01") == map["2023-12" := map["2024-01-01" := 1]];
    MisfiledLedger();
  }

  /** A day of January filed under December breaks the filing rule. */
  lemma MisfiledLedger()
    ensures !WellFormed(map["2023-12" := map["2024-01-01" := 1]])
  {
    var r := map["2023-12" := map["2024-01-01" := 1]];
    assert !StartsWith("2024-01-01", "2023-12" + "-") by {
      assert "2024-01-01"[3] != ("2023-12" + "-")[3];
    }
    assert "2024-01-01" in r["2023-12"];
  }

  lemma NewYearsKeys()
    ensures MonthKeyOf(Date(2023, 12, 31)) == "2023-12"
    ensures DayKeyOf(Date(2024, 1, 1)) == "2024-01-01"
  {
    assert NatToDecimal(2023) == "2023" && NatToDecimal(2024) == "2024";
    assert PadStart2(NatToDecimal(12)) == "12";
    assert PadStart2(NatToDecimal(1)) == "01";
  }

  /** A user action reaching the ledger: the "+1"/"add" buttons or the "-1" button. */
  datatype Event = AddEvent(date: Date) | RemoveEvent(monthKey: string, dayKey: string)

  ghost function Apply(s: State, e: Event): State
  {
    match e
    case AddEvent(d) => AddOne(s, d)
    case RemoveEvent(mk, dk) => RemoveOne(s, mk, dk)
  }

  ghost function Replay(s: State, events: seq<Event>): State
    decreases |events|
  {
    if events == [] then s else Replay(Apply(s, events[0]), events[1..])
  }

  /** The number of adds minus the number of removes that found their day. */
  ghost function NetAdds(s: State, events: seq<Event>): int
    decreases |events|
  {
    if events == [] then 0
    else
      var e := events[0];
      (if e.AddEvent? then 1 else if Present(s.summary, e.monthKey, e.dayKey) then -1 else 0)
      + NetAdds(Apply(s, e), events[1..])
  }

  /** Any sequence of adds and removes from a consistent state leaves the cached
      total equal to the sum of the ledger, with every count positive and no empty
      month; the total moves by exactly the net number of effective events. */
  lemma {:induction false} ReplayConsistent(s: State, events: seq<Event>)
    requires Consistent(s)
    ensures Consistent(Replay(s, events))
    ensures Replay(s, events).count == s.count + NetAdds(s, events)
    decreases |events|
  {
    if events != [] {
      match events[0] {
        case AddEvent(d) => AddOneStep(s, d);
        case RemoveEvent(mk, dk) => RemoveOneStep(s, mk, dk);
      }
      ReplayConsistent(Apply(s, events[0]), events[1..]);
    }
  }

  class App {
    var monthlySummary: Summary
    var poopCount: int
    var startDate: Date

    function Snapshot(): State
      reads this
    {
      State(monthlySummary, poopCount, startDate)
    }

    ghost predicate Valid()
      reads this
    {
      Consistent(Snapshot())
    }

    /** First run: nothing stored, so an empty ledger, a zero total and today as
        the anchor. */
    constructor (today: Date)
      ensures Snapshot() == State(map[], 0, today)
      ensures Valid()
    {
      monthlySummary := map[];
      poopCount := 0;
      startDate := today;
    }

    method HandleAddOne(d: Date)
      modifies this
      ensures Snapshot() == AddOne(old(Snapshot()), d)
      ensures old(Valid()) ==> Valid()
    {
      ghost var before := Snapshot();
      var dateStr := DayKeyOf(d);
      var monthKey := MonthKeyOf(d);
      if poopCount == 0 {
        startDate := d;
      }
      poopCount := poopCount + 1;
      var monthData := if monthKey in monthlySummary then monthlySummary[monthKey] else map[];
      var previous := if dateStr in monthData && monthData[dateStr] != 0 then monthData[dateStr] else 0;
      assert previous == Count(before.summary, monthKey, dateStr);
      monthlySummary := monthlySummary[monthKey := monthData[dateStr := previous + 1]];
      assert monthlySummary == AddEntry(before.summary, monthKey, dateStr);
      if Consistent(before) {
        AddOneStep(before, d);
      }
    }

    method HandleRemoveOne(monthKey: string, dateStr: string)
      modifies this
      ensures Snapshot() == RemoveOne(old(Snapshot()), monthKey, dateStr)
      ensures old(Valid()) ==> Valid()
    {
      ghost var before := Snapshot();
      if Consistent(before) {
        RemoveOneStep(before, monthKey, dateStr);
      }
      var updated := monthlySummary;
      if monthKey !in updated || dateStr !in updated[monthKey] || updated[monthKey][dateStr] == 0 {
        return;
      }
      var monthData := updated[monthKey];
      if monthData[dateStr] > 1 {
        monthData := monthData[dateStr := monthData[dateStr] - 1];
      } else {
        monthData := monthData - {dateStr};
      }
      updated := updated[monthKey := monthData];
      if monthData == map[] {
        assert updated - {monthKey} == before.summary - {monthKey};
        updated := updated - {monthKey};
      }
      assert updated == RemoveEntry(before.summary, monthKey, dateStr);
      var totalRemaining := SumCounts(updated);
      poopCount := totalRemaining;
      monthlySummary := updated;
    }
  }
}

/** Worked examples of the handlers on concrete dates. */
module TrackerScenarios {
  import opened Text
  import opened DateKeys
  import opened Ledger
  import opened Tracker

  /** Two adds on 5 January 2024 and one on the 6th, from an empty ledger: the
      month holds 2 and 1, the total is 3, and the anchor is the first date. */
  lemma ThreeAdds(today: Date)
    ensures Replay(State(map[], 0, today),
                   [AddEvent(Date(2024, 1, 5)), AddEvent(Date(2024, 1, 5)), AddEvent(Date(2024, 1, 6))])
            == State(map["2024-01" := map["2024-01-05" := 2, "2024-01-06" := 1]], 3, Date(2024, 1, 5))
  {
    var jan5, jan6 := Date(2024, 1, 5), Date(2024, 1, 6);
    var s0 := State(map[], 0, today);
    var s1 := State(map["2024-01" := map["2024-01-05" := 1]], 1, jan5);
    var s2 := State(map["2024-01" := map["2024-01-05" := 2]], 2, jan5);
    var s3 := State(map["2024-01" := map["2024-01-05" := 2, "2024-01-06" := 1]], 3, jan5);
    var e1, e3 := AddEvent(jan5), AddEvent(jan6);
    AddSteps(today);
    ReplayStep(s0, [e1, e1, e3]);
    assert [e1, e1, e3][1..] == [e1, e3];
    ReplayStep(s1, [e1, e3]);
    assert [e1, e3][1..] == [e3];
    ReplayStep(s2, [e3]);
    assert [e3][1..] == [];
  }

  /** One step of a replay. */
  lemma ReplayStep(s: State, events: seq<Event>)
    requires events != []
    ensures Replay(s, events) == Replay(Apply(s, events[0]), events[1..])
  {
  }

  /** The three adds of ThreeAdds, one at a time: the first creates the month and
      sets the anchor, the second raises the 5th to 2, the third adds the 6th. */
  lemma AddSteps(today: Date)
    ensures AddOne(State(map[], 0, today), Date(2024, 1, 5))
            == State(map["2024-01" := map["2024-01-05" := 1]], 1, Date(2024, 1, 5))
    ensures AddOne(State(map["2024-01" := map["2024-01-05" := 1]], 1, Date(2024, 1, 5)), Date(2024, 1, 5))
            == State(map["2024-01" := map["2024-01-05" := 2]], 2, Date(2024, 1, 5))
    ensures AddOne(State(map["2024-01" := map["2024-01-05" := 2]], 2, Date(2024, 1, 5)), Date(2024, 1, 6))
            == State(map["2024-01" := map["2024-01-05" := 2, "2024-01-06" := 1]], 3, Date(2024, 1, 5))
  {
    JanuaryKeys();
    FirstAdd();
    SecondAdd();
    ThirdAdd();
  }

  lemma FirstAdd()
    ensures AddEntry(map[], "2024-01", "2024-01-05") == map["2024-01" := map["2024-01-05" := 1]]
  {
    assert Count(map[], "2024-01", "2024-01-05") == 0;
  }

  lemma SecondAdd()
    ensures AddEntry(map["2024-01" := map["2024-01-05" := 1]], "2024-01", "2024-01-05")
            == map["2024-01" := map["2024-01-05" := 2]]
  {
    assert Count(map["2024-01" := map["2024-01-05" := 1]], "2024-01", "2024-01-05") == 1;
    assert map["2024-01-05" := 1]["2024-01-05" := 2] == map["2024-01-05" := 2];
  }

  lemma ThirdAdd()
    ensures AddEntry(map["2024-01" := map["2024-01-05" := 2]], "2024-01", "2024-01-06")
            == map["2024-01" := map["2024-01-05" := 2, "2024-01-06" := 1]]
  {
    assert Count(map["2024-01" := map["2024-01-05" := 2]], "2024-01", "2024-01-06") == 0;
  }

  lemma JanuaryKeys()
    ensures MonthKeyOf(Date(2024, 1, 5)) == "2024-01" && DayKeyOf(Date(2024, 1, 5)) == "2024-01-05"
    ensures MonthKeyOf(Date(2024, 1, 6)) == "2024-01" && DayKeyOf(Date(2024, 1, 6)) == "2024-01-06"
  {
    assert NatToDecimal(2024) == "2024";
    assert PadStart2(NatToDecimal(1)) == "01";
    assert PadStart2(NatToDecimal(5)) == "05" && PadStart2(NatToDecimal(6)) == "06";
  }

  /** Then two removes on the 5th: the first lowers its count, the second deletes
      the day; the 6th and the anchor stay and the total is 1. */
  lemma TwoRemoves(anchor: Date)
    ensures Replay(State(map["2024-01" := map["2024-01-05" := 2, "2024-01-06" := 1]], 3, anchor),
                   [RemoveEvent("2024-01", "2024-01-05"), RemoveEvent("2024-01", "2024-01-05")])
            == State(map["2024-01" := map["2024-01-06" := 1]], 1, anchor)
  {
    var rm := RemoveEvent("2024-01", "2024-01-05");
    var r0 := map["2024-01" := map["2024-01-05" := 2, "2024-01-06" := 1]];
    var r1 := map["2024-01" := map["2024-01-05" := 1, "2024-01-06" := 1]];
    var r2 := map["2024-01" := map["2024-01-06" := 1]];
    assert r0["2024-01"]["2024-01-05" := 1] == r1["2024-01"];
    assert RemoveEntry(r0, "2024-01", "2024-01-05") == r1;
    assert r1["2024-01"] - {"2024-01-05"} == r2["2024-01"];
    assert "2024-01-06" in r1["2024-01"] && "2024-01-06" != "2024-01-05";
    assert r1["2024-01" := r2["2024-01"]] == r2;
    assert RemoveEntry(r1, "2024-01", "2024-01-05") == r2;
    TotalRemove(r2, "2024-01");
    MapSumRemove(r2["2024-01"], "2024-01-06");
    assert r2 - {"2024-01"} == map[];
    assert r2["2024-01"] - {"2024-01-06"} == map[];
    assert Total(r2) == 1;
    var s1 := RemoveOne(State(r0, 3, anchor), "2024-01", "2024-01-05");
    assert s1.summary == r1;
    assert Replay(s1, [rm]) == State(r2, 1, anchor);
    assert [rm, rm][1..] == [rm];
  }
}
