# Electricity consumption engine

This is a Dafny model of the part of the electricity tracker that derives
consumption from meter readings. All of it lives in
`src/app/electricity/actions.ts`. A reading is a cumulative meter value taken
on a date. The engine computes four things:

- the consumption of each period between two consecutive readings of a meter;
- a year-over-year comparison of that period with the matching period a year
  earlier: the reading closest to the date one year back, within 5 days, and
  the reading immediately before it;
- a dashboard summary of a meter's latest period;
- chart data with the running total of consumption.

The model has eight modules:

| module | file | contents |
|---|---|---|
| `Wrappers` | `wrappers.dfy` | `Option` |
| `Dates` | `dates.dfy` | Civil dates, a day count, and the one-year shift done by `setFullYear(year - 1)`. |
| `Readings` | `readings.dfy` | The reading record, date order, and reversal. |
| `Matcher` | `matcher.dfy` | The two search helpers. Each is a loop proved equal to a specification function. |
| `Comparison` | `comparison.dfy` | The year-over-year block. The source has it twice; it is modelled once. |
| `Processed` | `processed.dfy` | `getProcessedElectricityReadings` after its fetches: grouping by meter, the per-meter loop, and the final sort. |
| `Dashboard` | `dashboard.dfy` | `getDashboardConsumptionData` after its fetch. |
| `Chart` | `chart.dfy` | `getElectricityConsumptionChartData` after its fetch. |

How the model represents the source's data:

- Dates are calendar dates, and distances between them are measured in whole
  days. The stored dates carry no time of day, and the host is taken to run
  in UTC, so millisecond differences are whole multiples of a day.
- A meter value is a `real`.
- A missing result (`null`) is `None`.
- Where the source fetches from the database, the model takes the fetched
  rows as parameters.

Where the code and its own comments disagree, the model follows the code.
The fetch for one meter sorts readings newest first
(`src/app/electricity/actions.ts:210`). The dashboard and the chart read that
sequence as if it were oldest first. The Findings below show what this does.
Each finding also has a corrected member that reverses the fetched readings
first.

A concrete case: readings on 2023-01-01 (100), 2024-01-03 (220) and
2024-06-01 (300). The period ending 2024-06-01 looks for a reading near
2023-06-01 and finds none. The period ending 2024-01-03 finds 2023-01-01,
which has no reading before it. Neither period gets a comparison
(`Comparison.NoComparisonExample`).

## Model

| member | source | states |
|---|---|---|
| `Dates.ShiftBackOneYearBounds` | src/app/electricity/actions.ts:117-119 | Moving a date back one year gives a valid date in the previous year, 365 or 366 days earlier. Month and day are kept, except that 29 February becomes 1 March when the previous year has no leap day. |
| `Dates.ShiftBackOneYear` | src/app/electricity/actions.ts:119 | `setFullYear(year - 1)` gives a valid date in the previous year. |
| `Comparison.LastYearTarget` | src/app/electricity/actions.ts:117-119 | The target day one year before a reading lies 365 or 366 days before it. |
| `Matcher.FindReadingClosestToDate` | src/app/electricity/actions.ts:10-27 | The tolerance defaults to 5 days. The scan returns exactly `ClosestReading`. A returned reading is within the tolerance of the target. |
| `Matcher.ClosestIndex` | src/app/electricity/actions.ts:15-25 | The index the scan holds after the whole input, if any, is an index of the input. |
| `Matcher.ClosestReading` | src/app/electricity/actions.ts:10-27 | A found reading is one of the input readings. |
| `Matcher.ClosestIndexCorrect` | src/app/electricity/actions.ts:15-25 | There is no result exactly when no reading is within tolerance. Otherwise the result is within tolerance, no reading is closer, and every earlier reading is strictly farther. |
| `Matcher.FirstClosestUnique` | src/app/electricity/actions.ts:19-23 | At most one index is the first closest reading within tolerance. |
| `Matcher.ClosestTieBreak` | src/app/electricity/actions.ts:20 | Of two equally close readings within tolerance, the later one is never chosen, because the comparison is strict. |
| `Matcher.ClosestExactWithZeroTolerance` | src/app/electricity/actions.ts:19 | With zero tolerance, a found reading lies on the target day, and a reading on the target day is always found. |
| `Matcher.FindReadingImmediatelyBefore` | src/app/electricity/actions.ts:30-43 | The loop with its `break` returns exactly `ImmediatelyBefore`. A returned reading is strictly before the date. |
| `Matcher.LeadingBefore` | src/app/electricity/actions.ts:34-40 | The length of the scanned prefix never exceeds the input length. |
| `Matcher.ImmediatelyBefore` | src/app/electricity/actions.ts:30-43 | A found reading is one of the input readings. |
| `Matcher.LeadingBeforeCorrect` | src/app/electricity/actions.ts:34-40 | The scan stops at the first reading on or after the date. On ascending input, a reading is before the date exactly when it lies in the scanned prefix. |
| `Matcher.ImmediatelyBeforeCorrect` | src/app/electricity/actions.ts:30-43 | There is no result exactly when the input is empty or its first reading is not before the date. A result is before the date. On ascending input, the result is the last reading before the date. |
| `Comparison.Classify` | src/app/electricity/actions.ts:127-156 | The difference is current minus last year, and last year's consumption and the reference date are kept. The icon is down with green when the difference is negative, up with red when it is positive, and absent with muted when it is zero. |
| `Comparison.Percentage` | src/app/electricity/actions.ts:130-133 | The percentage is 0 when last year's consumption is 0; otherwise percentage × last year = difference × 100. |
| `Comparison.ClassifyPercentage` | src/app/electricity/actions.ts:128-129 | The percentage is 0 when last year's consumption is 0. Otherwise current = last year × (1 + percentage/100). When last year's consumption is positive, the percentage has the difference's sign. |
| `Comparison.CompareToLastYear` | src/app/electricity/actions.ts:112-158 | A comparison exists only when a reading close to last year's date is found. It is dated at that reading, and its difference is the current consumption less last year's. |
| `Comparison.CompareToLastYearSound` | src/app/electricity/actions.ts:112-158 | A comparison exists only if there is a first closest reading R2' to the date one year back, and an earlier reading R1' exists. The comparison is then `Classify` of the current consumption against R2' − R1', dated at R2'. |
| `Comparison.CompareToLastYearComplete` | src/app/electricity/actions.ts:121-127 | On ascending history, a comparison exists whenever the closest reading a year back has some earlier reading. |
| `Comparison.NoComparisonForShortHistory` | src/app/electricity/actions.ts:117-127 | A history whose readings all lie less than 365 days before R2, in any order, never yields a comparison: the closest match to last year's date is never preceded by an earlier first reading. |
| `Comparison.ComparisonReferenceWindow` | src/app/electricity/actions.ts:117-121 | The last-year reference date lies 360 to 371 days before R2. |
| `Comparison.YearOverYearExample` | src/app/electricity/actions.ts:112-158 | For readings of 2022-06-01 (10), 2023-06-01 (50) and 2024-06-02 (100), the latest period compares 50 kWh with 40 kWh: +10 kWh, 25 %, up, red, dated 2023-06-01. |
| `Comparison.NoComparisonExample` | src/app/electricity/actions.ts:121-126 | Readings of 2023-01-01, 2024-01-03 and 2024-06-01 give no comparison for either period. One period has no reading near last year's date; the other has no reading before its match. |
| `Comparison.MatchWithoutPredecessor` | src/app/electricity/actions.ts:121-126 | In that example, the period ending 2024-01-03 matches 2023-01-01, which nothing precedes, so it has no comparison. |
| `Comparison.NoMatchNearTarget` | src/app/electricity/actions.ts:121-123 | In that example, the period ending 2024-06-01 finds no reading within 5 days of 2023-06-01, so it has no comparison. |
| `Comparison.ComputeComparison` | src/app/electricity/actions.ts:338-381 | The imperative block that calls both search helpers returns exactly `CompareToLastYear`. |
| `Processed.NameOf` | src/app/electricity/actions.ts:163 | The meter name is the mapped name if it is non-empty; otherwise it is the unknown-meter fallback. |
| `Processed.Group` | src/app/electricity/actions.ts:93-98 | A meter's group is no longer than the input, and every reading in it belongs to that meter. |
| `Processed.GroupCorrect` | src/app/electricity/actions.ts:93-98 | A reading is in a meter's group exactly when it is in the input with that meter id. Grouping keeps ascending input ascending. |
| `Processed.MeterOrder` | src/app/electricity/actions.ts:94-96 | There are no more keys than readings, and every key is the meter of some reading. |
| `Processed.MeterOrderCorrect` | src/app/electricity/actions.ts:94-96 | The meter keys appear once each, in order of first appearance. A meter is a key exactly when some reading has it. |
| `Processed.GroupByMeter` | src/app/electricity/actions.ts:91-98 | The `forEach` builds a map whose keys are exactly the meters in first-appearance order, with each key mapped to its meter's readings in input order. |
| `Processed.Enrich` | src/app/electricity/actions.ts:103-166 | The record of the i-th reading holds that reading and the meter's name. The first reading has difference 0 and no comparison; a later one has the difference from the reading before. |
| `Processed.EnrichGroup` | src/app/electricity/actions.ts:102-166 | Each reading of a meter gets one record holding that reading, in the group's order. |
| `Processed.EnrichGroupFields` | src/app/electricity/actions.ts:102-166 | Every record carries its reading and the meter's name. The first record has difference 0 and no comparison. Every later record has the difference from the reading before and the year-over-year comparison of that period. |
| `Processed.ProcessReading` | src/app/electricity/actions.ts:103-165 | The loop body builds exactly the `Enrich` record of the i-th reading. |
| `Processed.ProcessMeterReadings` | src/app/electricity/actions.ts:102-167 | The inner loop produces exactly `EnrichGroup` of the meter's readings. |
| `Processed.ProcessAllMeters` | src/app/electricity/actions.ts:100-168 | The two nested loops produce exactly the records of all meters in key order, before sorting. |
| `Processed.EnrichMeters` | src/app/electricity/actions.ts:100-168 | The records of all meters carry the meters' groups concatenated in key order. |
| `Processed.GroupsConcatPermutation` | src/app/electricity/actions.ts:93-100 | The concatenated groups are a permutation of the input readings. |
| `Processed.UnsortedPermutation` | src/app/electricity/actions.ts:90-168 | Before sorting, the processed records hold every input reading exactly once. |
| `Processed.Insert` | src/app/electricity/actions.ts:171 | Inserting a record adds one record and keeps every date valid. |
| `Processed.InsertMultiset` | src/app/electricity/actions.ts:171 | Inserting adds exactly the new record to the multiset of records. |
| `Processed.SortNewestFirst` | src/app/electricity/actions.ts:171 | Sorting keeps the number of records and every date valid. |
| `Processed.SortNewestFirstReadings` | src/app/electricity/actions.ts:171 | Sorting keeps the multiset of readings. |
| `Processed.SortNewestFirstSorted` | src/app/electricity/actions.ts:171 | The sorted records are ordered newest first. |
| `Processed.SortNewestFirstStable` | src/app/electricity/actions.ts:171 | Records on the same day keep their relative order. |
| `Processed.ProcessedResult` | src/app/electricity/actions.ts:90-173 | The sorted records number as many as the input readings, hold every input reading exactly once, and are ordered newest first. |
| `Processed.GetProcessedElectricityReadings` | src/app/electricity/actions.ts:77-174 | The result is the stable newest-first sort of the per-meter records. It has one record per input reading, with the same multiset of readings, in newest-first order. |
| `Dashboard.DashboardConsumptionData` | src/app/electricity/actions.ts:308-390 | The status is "no meter selected" exactly for an empty id, and "not enough data" exactly for fewer than two readings; in both cases every other field is empty. On success the summary covers R1 = second-to-last and R2 = last reading: consumption R2 − R1, start R1, end R2, and the year-over-year comparison of that period. |
| `Dashboard.DashboardOnFetchedOrder` | src/app/electricity/actions.ts:331-348 | On readings as fetched (newest first), the summary ends at the oldest reading and never has a comparison. |
| `Dashboard.NoComparisonOnDescending` | src/app/electricity/actions.ts:342-347 | On newest-first history no comparison is ever found: nothing precedes the matched reading in the scan. |
| `Dashboard.LatestPeriodSummary` | src/app/electricity/actions.ts:308-336 | With the fetched readings reversed, the statuses are as in the source, and a successful summary runs from the second-newest reading to the newest, with their difference as consumption. |
| `Dashboard.LatestPeriodSummaryCorrect` | src/app/electricity/actions.ts:308-390 | With the fetched readings reversed, the summary covers the latest period. It runs from the second-newest to the newest reading and compares over the oldest-first history. |
| `Dashboard.DashboardExampleAsWritten` | src/app/electricity/actions.ts:331-336 | For readings of 2022-06-01 (10), 2023-06-01 (50) and 2024-06-02 (100) as fetched, the summary is −40 kWh from 2023-06-01 back to 2022-06-01, with no comparison. |
| `Dashboard.DashboardExampleCorrected` | src/app/electricity/actions.ts:331-381 | For the same readings, the corrected summary is 50 kWh from 2023-06-01 to 2024-06-02, 10 kWh (25 %) more than a year earlier. |
| `Chart.ChartData` | src/app/electricity/actions.ts:445-474 | The chart is empty for an empty meter id or fewer than two readings, and otherwise has one point per consecutive pair. |
| `Chart.RunningSeries` | src/app/electricity/actions.ts:459-471 | After the first n readings, the loop has pushed n − 1 points. |
| `Chart.RunningSeriesAt` | src/app/electricity/actions.ts:459-471 | Point k is dated at reading k+1. Its consumption is reading k+1 minus reading k. Its running total is reading k+1 minus the first reading, which equals the sum of the consumptions so far. |
| `Chart.RunningSeriesCorrect` | src/app/electricity/actions.ts:459-471 | The per-point facts of `RunningSeriesAt`, for every point. |
| `Chart.GetElectricityConsumptionChartData` | src/app/electricity/actions.ts:445-474 | The result is empty for an empty meter id or fewer than two readings. Otherwise the loop returns one point per consecutive pair, with its date, its consumption and its running total. |
| `Chart.ReverseStrictlyDescending` | src/app/electricity/actions.ts:210 | Reversing a strictly newest-first list gives a strictly oldest-first list and keeps values growing with date. |
| `Chart.SeriesForward` | src/app/electricity/actions.ts:459-471 | For a meter whose value grows with date, on strictly oldest-first input the points run forward in time with non-negative consumption. |
| `Chart.SeriesBackward` | src/app/electricity/actions.ts:459-471 | For a meter whose value grows with date, on strictly newest-first input the points run backward in time with non-positive consumption. |
| `Chart.ChartOnFetchedOrder` | src/app/electricity/actions.ts:450-471 | On readings newest first with at most one reading per day (strictly descending; the fetch at line 210 does not exclude two readings on one day), the chart runs backwards in time. Its consumptions are non-positive for a growing meter, and it ends at oldest minus newest. |
| `Chart.ChartForMeter` | src/app/electricity/actions.ts:445-474 | With the fetched readings reversed, the chart has one point per consecutive pair, and its last point is dated at the newest reading. |
| `Chart.ChartForMeterCorrect` | src/app/electricity/actions.ts:445-474 | With the fetched readings reversed, the chart runs forward in time. Its consumptions are non-negative, and it ends at newest minus oldest. |
| `Chart.ChartExample` | src/app/electricity/actions.ts:459-471 | For readings of 2022-06-01 (10), 2023-06-01 (50) and 2024-06-02 (100) as fetched, the chart shows −50 and −40 kWh with running totals −50 and −90. Corrected, it shows 40 and 50 kWh with running totals 40 and 90. |

## Left out

- Database access is out of scope: the Supabase client, its queries, and their `error` results, which the source turns into thrown exceptions. The fetched rows and the meter-name map are parameters instead. No operation requires an ordering of the fetched rows. Orders appear only as hypotheses of lemmas: ascending for `Processed.GroupCorrect`'s order-preservation clause and `Comparison.CompareToLastYearComplete`, descending for one meter's readings in the dashboard and chart lemmas.
- The other actions in the file are not modelled: adding, updating and deleting meters and readings, fetching the latest reading, `revalidatePath`, and console logging. They only pass form data to the database.
- The Slovak comparison texts, `toFixed(0)` rounding and `date-fns` formatting are left out. `Comparison` keeps the difference, last year's consumption, icon, colour and reference date that the texts are built from; `Comparison.Percentage` computes the percentage from the first two. The processed list's comparison object in the source holds only text, icon and colour; the numbers it prints are the modelled ones.
- `Chart.GetElectricityConsumptionChartData`: the point's date is the reading's date, not the formatted `dd.MM.` label.
- Meter values are exact reals. Floating-point rounding of the differences and percentages is not modelled.
- The model does not cover time of day, time zones or daylight saving. It assumes a UTC host, where stored dates parse to midnight and a year shift moves whole days.
- `Processed.GetProcessedElectricityReadings`: JavaScript's stable `sort` is modelled as a stable insertion sort. The ordering of rows on the same date by the database is not modelled.
- `Processed.MeterOrderCorrect`: object keys are taken in insertion order. JavaScript lists integer-like keys first, in numeric order; meter ids are UUIDs, so this does not arise.
- `Dates.ShiftBackOneYearBounds`: years are proleptic Gregorian and unbounded. JavaScript's date range limit is not modelled.

## Findings

| source | as written | input that shows it | evidently intended | confidence | as-written member | corrected member |
|---|---|---|---|---|---|---|
| src/app/electricity/actions.ts:331-332 | The summary takes the last two readings of the fetched list, which is sorted newest first (line 210). | 2022-06-01 (10), 2023-06-01 (50), 2024-06-02 (100) gives −40 kWh from 2023-06-01 back to 2022-06-01, with no comparison. | The latest period, 2023-06-01 to 2024-06-02: 50 kWh, +10 kWh (25 %) against a year earlier. | high; not executed | `Dashboard.DashboardOnFetchedOrder` | `Dashboard.LatestPeriodSummaryCorrect` |
| src/app/electricity/actions.ts:450-463 | The chart loop assumes ascending readings, but the fetch returns them newest first. | The same readings give consumptions −50 and −40 kWh, with running totals −50 and −90. | Consumptions 40 and 50 kWh, with running totals 40 and 90, running forward in time. | high; not executed | `Chart.ChartOnFetchedOrder` | `Chart.ChartForMeterCorrect` |
