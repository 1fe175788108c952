# Licznik Kup — the event ledger

Licznik Kup ("poop counter") is a single-page React app. You pick a day, press
"add", and it counts one event on that day. Its state lives in the `App`
component of `src/App.js`, and this project models the part of that state the
app keeps consistent:

- `monthlySummary`, the ledger: a month key "YYYY-MM" maps to a table from day
  keys "YYYY-MM-DD" to positive counts;
- `poopCount`, the cached grand total;
- `startDate`, the anchor date: today on a first run, and the added date on
  every add made while the cached total is 0.

The model has these parts:

- the two handlers that change that state: `handleAddOne` and `handleRemoveOne`;
- the date keys: `dateToLocalString`, the month key built in `handleAddOne`, and
  `parseLocalDate`;
- the views the app recomputes from the ledger on every render: the year picker
  (`availableYears`), the chart of one year (`sortedMonthsAsc`, `chartLabels`,
  `chartDataValues`), and the monthly summary and text export, which list
  months and days newest first with month totals.

Modules, one per concern:

- `Text` (text.dfy): strings as the app uses them. `split`, `padStart(2, "0")`,
  `String(n)`, `Number(s)` on digit strings, and string order by character
  code point, which equals JavaScript's UTF-16 code-unit order on the ASCII
  digits and dashes the keys are made of.
- `Sorting` (sorting.dfy): the strictly ordered listing of a set of keys. It
  stands for `sort()` and for `sort((a, b) => b.localeCompare(a))`.
- `DateKeys` (date_keys.dfy): calendar dates, the month and day keys, and
  `parseLocalDate`.
- `Ledger` (ledger.dfy): the ledger, its sums and invariants, and the two updater
  rules the handlers hand to `setMonthlySummary`. Also the loop that recomputes
  the total.
- `Tracker` (tracker.dfy): the whole state. It has the handlers as functions on
  states, replay of any sequence of user actions, and the class `App`. `App`'s
  methods update its three fields in place.
- `TrackerScenarios` (tracker.dfy): worked examples on concrete dates.
- `Aggregates` (aggregates.dfy): the year list, the chart series, and the
  month and day listings of the summary and the export.

The invariant `Ledger.WellFormed` has three parts:

- every stored count is at least 1;
- no month is empty;
- every day key extends its month key followed by a dash.

The state invariant `Tracker.Consistent` adds that the cached total equals the
sum of all counts. Every add and every remove keeps it. So does any sequence of
them. The views built on a well-formed ledger are ordered, duplicate-free,
aligned label for value, and add up to the grand total.

## Model

| member | source | states |
|---|---|---|
| Text.Split | src/App.js:149 | `split("-")` always yields at least one piece, and no piece contains the separator; `JoinSplit` shows joining the pieces gives the string back |
| Text.NumberOf | src/App.js:149 | `Number` of a piece is a natural number exactly when the piece is all decimal digits; anything else is NaN (None) |
| Text.NatToDecimal | src/App.js:74-77 | `String(n)` of a natural number is a non-empty string of digits |
| Text.PadStart2 | src/App.js:75-76 | `padStart(2, "0")` keeps a string of two or more characters unchanged, puts one '0' before a single character and gives "00" for the empty string |
| Text.DecimalRoundTrip | src/App.js:149 | `Number(String(n)) == n` for every natural number |
| Text.PaddedRoundTrip | src/App.js:75-76 | a zero-padded month or day is all digits, and reading it back with `Number` gives the number |
| Text.FixedDigitsOrder | src/App.js:160 | fixed-width digit strings compare as strings exactly as their numbers compare, and are equal exactly when the numbers are |
| Text.StrLtTotal | src/App.js:160 | the string order used by `localeCompare` and `sort()` is total on distinct strings |
| Text.StrLtTransitive | src/App.js:208 | the string order is transitive |
| Sorting.Insert | src/App.js:206-208 | inserting a new key into a strictly ascending listing keeps it strictly ascending, one longer, with exactly the old keys plus the new one |
| Sorting.SortAsc | src/App.js:206-208 | `sort()` on a set of keys gives a strictly ascending listing of exactly those keys |
| Sorting.SortDesc | src/App.js:240 | sorting by `b.localeCompare(a)` gives a strictly descending listing of exactly those keys |
| Sorting.ReverseAscending | src/App.js:201-203 | `.sort().reverse()` turns an ascending listing into a descending one with the same keys |
| Sorting.AscendingUnique | src/App.js:206-208 | any two strictly ascending listings of the same keys are equal, so the listing does not depend on the order the keys came in |
| DateKeys.PrevDay | src/App.js:82 | the day before a valid date is a valid date, comes before it, and no valid date lies between them |
| DateKeys.LocalDateOfDayKey | src/App.js:82 | for a key with a four-digit year, the local date of `new Date(dateStr)` is the named date at or east of UTC, and exactly the day before it west of UTC |
| DateKeys.MonthKeyOf | src/App.js:83 | the month key starts with the decimal year and a dash and is the year, a dash and the padded month in length; `MonthKeyStartsDayKey` and `FixedShape` give its pieces and shape |
| DateKeys.DayKeyOf | src/App.js:73-78 | `dateToLocalString` starts with the month key and a dash and adds the padded day; `SplitDayKey` and `RoundTrip` tie it to `parseLocalDate` |
| DateKeys.ParseLocalDate | src/App.js:148-151 | a date `parseLocalDate` returns is a valid calendar date with a year of at least 100 (two-digit years land in the 1900s), read from a string with at least three pieces whose first is all digits; `RoundTrip` gives the inverse |
| DateKeys.SplitDayKey | src/App.js:73-78 | a day key splits on '-' into the decimal year, the padded month and the padded day |
| DateKeys.RoundTrip | src/App.js:148-151 | `parseLocalDate(dateToLocalString(d))` gives back a valid date `d` exactly when its year has three or more digits |
| DateKeys.MonthKeyStartsDayKey | src/App.js:73-83 | the month key plus a dash starts the day key of the same date; the month key holds a dash, and its first piece is the year |
| DateKeys.FixedShape | src/App.js:73-78 | for four-digit years the month key is "YYYY-MM" (7 characters) and the day key is the month key plus "-DD" |
| DateKeys.MonthKeyOrder | src/App.js:160 | for four-digit years, month keys compare as strings exactly as the months compare in time, and are equal exactly for the same month |
| DateKeys.DayKeyOrder | src/App.js:167 | for four-digit years, day keys compare as strings exactly as the dates compare in time, and are equal exactly for the same date |
| Ledger.Count | src/App.js:97 | the stored count, read as 0 when the month or day is missing, is non-zero exactly when the remove guard at line 107 finds the day present |
| Ledger.Total | src/App.js:119-121 | the grand total of an empty ledger is 0; `SumCounts` computes it, and `AddEntryTotal`, `RemoveEntryTotal` and `TotalBounds` say how it moves and where it lies |
| Ledger.MapSumRemove | src/App.js:119-121 | the sum of a map's values does not depend on which key is added in first |
| Ledger.MapSumAtLeastSize | src/App.js:164 | a map whose values are all at least 1 sums to at least its number of keys |
| Ledger.TotalBounds | src/App.js:119-121 | with positive counts the grand total is never negative, and with no empty month it is at least the number of months |
| Ledger.TotalZeroIffEmpty | src/App.js:85 | in a well-formed ledger the grand total is zero exactly when the ledger is empty, so the `poopCount === 0` test means an empty ledger |
| Ledger.AddEntry | src/App.js:93-99 | the add updater adds the month if needed, adds the day to that month, raises that day's count (0 when absent) by one, and leaves every other count as it was; other months keep their day tables unchanged, and so do the other days of the same month |
| Ledger.AddEntryTotal | src/App.js:91-99 | adding raises the ledger's total by exactly one |
| Ledger.AddEntryWellFormed | src/App.js:93-99 | adding a day key that extends its month key keeps the ledger well formed |
| Ledger.RemoveEntry | src/App.js:103-124 | the remove updater returns the ledger unchanged when the month is missing or the day is missing or zero. Otherwise it lowers a count above 1, or deletes the day and then the month if the month is left empty. No other count changes, and every other month keeps its day table unchanged |
| Ledger.RemoveEntryTotal | src/App.js:103-122 | with positive counts, removing lowers the total by one exactly when the day was present; otherwise the total does not change |
| Ledger.RemoveEntryWellFormed | src/App.js:109-117 | removing keeps the ledger well formed: no zero counts and no empty months are left behind |
| Ledger.SumCounts | src/App.js:119-121 | the recomputed `totalRemaining` is the sum of every count of every month |
| Tracker.AddOne | src/App.js:81-100 | one add raises the cached total and the ledger's total by one each, and the added day's count by one; `AddOneStep` gives the invariant and the anchor rule |
| Tracker.RemoveOne | src/App.js:102-126 | one remove never moves the anchor and changes nothing for an absent day. For a present day the cached total is the recomputed sum, and with positive counts the ledger's total falls by exactly one |
| Tracker.AddOneStep | src/App.js:81-100 | `handleAddOne` keeps the state consistent and raises the cached total by one. The anchor moves to the added date exactly when the ledger was empty |
| Tracker.RemoveOneStep | src/App.js:102-126 | `handleRemoveOne` keeps the state consistent and lowers the total by one exactly when the day was present. It never moves the anchor and changes nothing for an absent day |
| Tracker.ReplayConsistent | src/App.js:81-126 | from a consistent state, any sequence of adds and removes leaves the state consistent. The total ends up moved by the number of adds minus the number of removes that found their day |
| Tracker.AddOneAsWritten | src/App.js:81-100 | the handler as written agrees with AddOne east of UTC and always raises the total by one |
| Tracker.MisfiledLedger | src/App.js:83-99 | a ledger that files day "2024-01-01" under month "2023-12" is not well formed |
| Tracker.NewYearsDayMisfiled | src/App.js:82-99 | west of UTC, adding 1 January 2024 to an empty ledger files "2024-01-01" under "2023-12" and anchors on 31 December 2023, which breaks the well-formedness invariant |
| Tracker.App.constructor | src/App.js:22-42 | a first run with nothing stored starts from an empty ledger, a zero total and today as the anchor, which is a consistent state |
| Tracker.App.HandleAddOne | src/App.js:81-100 | the method updates the three fields as AddOne says and keeps the App invariant |
| Tracker.App.HandleRemoveOne | src/App.js:102-126 | the method updates the ledger as RemoveEntry says and sets the total to the recomputed sum, or changes nothing for an absent day. It keeps the App invariant |
| TrackerScenarios.AddSteps | src/App.js:85-99 | each of those three adds, one at a time: the first creates the month and sets the anchor, the second raises the count to 2, the third adds the 6th with count 1 |
| TrackerScenarios.ThreeAdds | src/App.js:81-100 | two adds on 5 January and one on 6 January from empty give counts 2 and 1 under "2024-01", a total of 3 and an anchor on 5 January |
| TrackerScenarios.TwoRemoves | src/App.js:102-126 | then two removes on 5 January lower the count and then delete the day. The 6th and the anchor stay, and the total is 1 |
| Aggregates.SumValuesAt | src/App.js:210 | reading a map's values along any duplicate-free listing of its keys and adding them up gives the map's sum |
| Aggregates.YearOf | src/App.js:202 | `k.split("-")[0]` holds no dash and starts the key; when the key holds a dash, the year and a dash start the key, and a key without a dash is its own year |
| Aggregates.AvailableYears | src/App.js:201-203 | the year list is strictly descending and holds exactly the year pieces of the month keys; no year holds a dash |
| Aggregates.YearPrefix | src/App.js:202-207 | for a month key with a dash, "its year piece is y" holds exactly when "it starts with y followed by a dash" |
| Aggregates.ChartMatchesYears | src/App.js:201-208 | in a ledger filed by month, a year is offered in the picker exactly when its chart has at least one month |
| Aggregates.SortedMonthsAsc | src/App.js:206-208 | the chart's months are strictly ascending and are exactly the ledger's month keys that start with the year and a dash |
| Aggregates.ChartData | src/App.js:209-210 | the chart has as many labels as values, one per month of the year |
| Aggregates.ChartAligned | src/App.js:206-210 | the i-th label names, and the i-th value totals, the i-th month of the year; the values add up to the year's total |
| Aggregates.ChartBarsPositive | src/App.js:210 | in a well-formed ledger every bar of the chart is at least 1 |
| Aggregates.SortedMonthsDesc | src/App.js:240 | the summary lists every month key exactly once, strictly newest first |
| Aggregates.DayEntriesDesc | src/App.js:315 | a month's day entries list every day exactly once, strictly newest first, each with its stored count |
| Aggregates.ExportBlocks | src/App.js:160-167 | the export and summary list every month once, newest first, each with its total and its days newest first |
| Aggregates.DaysAddUp | src/App.js:314-315 | the counts listed under a month add up to the month's total |
| Aggregates.ExportAddsUp | src/App.js:160-167 | each block's total is the sum of the counts listed under it, and the block totals add up to the grand total |
| Aggregates.ExportBlocksNonEmpty | src/App.js:162-168 | in a well-formed ledger every listed month has a total of at least 1 and at least one day |

## Left out

- Persistence: `localStorage` reads and writes (src/App.js:22-54) are left out. The model starts from a first run with nothing stored. A stored ledger is loaded without validation, so its invariants are only as good as what was saved.
- React scheduling: `setState` updaters are queued and batched. Here each handler is one atomic step. The total in `handleAddOne` is `prev + 1` on the cached count.
- Tracker.App.HandleAddOne: takes the date the day key names, not the string. The month key comes from that date's own fields, which is the corrected behaviour. The as-written month key from `new Date(dateStr)` is modelled separately, under Findings.
- Tracker.AddOneAsWritten: takes the zone's offset from UTC as a parameter and ignores daylight-saving changes inside the offset.
- DateKeys.LocalDateOfDayKey: covers only day keys with a four-digit year, the ISO date-only form that JavaScript reads as UTC. Keys like "999-01-01" or "10000-01-01" go through implementation-specific parsing and are not modelled.
- DateKeys.ParseLocalDate: gives None where the JS `Date` constructor would roll over (month 13, day 32, February 30). It also accepts only plain decimal digits, not the other number syntaxes `Number` accepts (sign, exponent, spaces). Years are natural numbers, so negative years are left out. It also returns a date for years beyond 275760, where the JS constructor gives an invalid date.
- Text.StrLtTotal: `localeCompare` and the default `sort()` are modelled as order by character code point. That equals JavaScript's UTF-16 code-unit order and the locale order on the ASCII digit-and-dash keys the app stores, but not on arbitrary strings.
- Aliasing: `handleRemoveOne` copies only the outer object. It decrements or deletes inside the previous state's month object in place, so the old state is mutated too. The model works on value maps, so it does not capture that sharing.
- Locale formatting: `formatMonthName`, `formatFullDate` and `toLocaleDateString("pl-PL")` are left out. Chart labels are an abstract function of the month key.
- The export text template, the `Blob`, the download link and other DOM work (src/App.js:154-198) are left out. Only the month and day listing and the totals the export prints are modelled.
- Day navigation (src/App.js:132-146), dark mode, Chart.js options and the JSX layout are left out. They do not touch the ledger.
- `poopCount === 0` in `handleAddOne` tests the cached total, and the model does the same. It is equivalent to an empty ledger only while the state is consistent (`Tracker.AddOneStep`).

## Findings

| source | as written | input that shows it | evidently intended | confidence | as-written member | corrected member |
|---|---|---|---|---|---|---|
| src/App.js:82-88 | the month key and the new anchor come from `new Date(dateStr)`, which reads a date-only string as midnight UTC, so the local date is the previous day in zones west of UTC. The anchor is then a day early for every add that sets it there, and a first-of-month date is filed under the previous month | `handleAddOne("2024-01-01")` on an empty ledger at UTC−05:00 files day "2024-01-01" under month "2023-12" and sets the anchor to 31 December 2023 | the month key and anchor come from the same year, month and day as `dateStr`, so every day is filed under its own month | high (follows from the ECMAScript date-string rules); not executed | Tracker.NewYearsDayMisfiled | Tracker.AddOneStep |
