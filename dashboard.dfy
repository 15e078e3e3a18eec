/**
 * `getDashboardConsumptionData`: the consumption of the meter's latest period
 * (its last two readings) and that period's year-over-year comparison.  The
 * readings are those `getElectricityReadingsForMeter` fetches, which come
 * newest first, while the code takes the last two as the latest ones; the
 * lemmas below show what that does, and `LatestPeriodSummary` is the
 * computation on the readings put oldest first.
 */
module Dashboard {
  import opened Wrappers
  import opened Dates
  import opened Readings
  import opened Matcher
  import opened Comparison

  datatype Status = NoMeterSelected | NotEnoughData | Success

  datatype DashboardData = DashboardData(
    consumption: Option<real>,
    periodStart: Option<Date>,
    periodEnd: Option<Date>,
    comparison: Option<Comparison>,
    status: Status)

  /**
   * The summary as written: no meter for an empty id, not enough data below
   * two readings (every other field empty), and otherwise the period from the
   * second-to-last reading R1 to the last reading R2 of `allReadings`.
   */
  function DashboardConsumptionData(meterId: string, allReadings: seq<Reading>): (d: DashboardData)
    requires AllValid(allReadings)
    ensures d.status == NoMeterSelected <==> meterId == ""
    ensures d.status == NotEnoughData <==> meterId != "" && |allReadings| < 2
    ensures d.status != Success ==> d.consumption == None && d.periodStart == None && d.periodEnd == None && d.comparison == None
    ensures d.status == Success ==>
      var r1, r2 := allReadings[|allReadings| - 2], allReadings[|allReadings| - 1];
      && d.consumption == Some(r2.value - r1.value)
      && d.periodStart == Some(r1.date) && d.periodEnd == Some(r2.date)
      && d.comparison == CompareToLastYear(allReadings, r1, r2)
  {
    if meterId == "" then DashboardData(None, None, None, None, NoMeterSelected)
    else if |allReadings| < 2 then DashboardData(None, None, None, None, NotEnoughData)
    else
      var r2 := allReadings[|allReadings| - 1];
      var r1 := allReadings[|allReadings| - 2];
      DashboardData(Some(r2.value - r1.value), Some(r1.date), Some(r2.date),
                    CompareToLastYear(allReadings, r1, r2), Success)
  }

  /**
   * On readings in the order the fetch delivers them (newest first) the
   * summary describes the OLDEST period, running backwards in time, and never
   * has a comparison: the search for the reading before last year's match
   * stops at the first (newest) reading.
   */
  lemma DashboardOnFetchedOrder(meterId: string, fetched: seq<Reading>)
    requires AllValid(fetched) && Descending(fetched)
    requires meterId != "" && |fetched| >= 2
    ensures var d := DashboardConsumptionData(meterId, fetched);
      && d.status == Success
      && d.periodEnd == Some(fetched[|fetched| - 1].date)
      && d.periodStart == Some(fetched[|fetched| - 2].date)
      && (forall j :: 0 <= j < |fetched| ==> DayNumber(d.periodEnd.value) <= Day(fetched[j]))
      && d.comparison == None
  {
    NoComparisonOnDescending(fetched, fetched[|fetched| - 2], fetched[|fetched| - 1]);
  }

  /**
   * On newest-first readings no comparison is ever found: whatever reading
   * matches last year's date, no reading precedes it in the scan.
   */
  lemma NoComparisonOnDescending(history: seq<Reading>, r1: Reading, r2: Reading)
    requires AllValid(history) && Descending(history) && ValidDate(r2.date)
    ensures CompareToLastYear(history, r1, r2) == None
  {
    var index := ClosestIndex(history, LastYearTarget(r2), DefaultToleranceDays);
    if index.Some? {
      var k := index.value;
      assert Day(history[0]) >= Day(history[k]);
      assert LeadingBefore(history, Day(history[k])) == 0;
    }
  }

  /** The summary of the latest period: the fetched readings put oldest first before summarising. */
  function LatestPeriodSummary(meterId: string, fetched: seq<Reading>): (d: DashboardData)
    requires AllValid(fetched)
    ensures d.status == NoMeterSelected <==> meterId == ""
    ensures d.status == NotEnoughData <==> meterId != "" && |fetched| < 2
    ensures d.status == Success ==>
      && d.consumption == Some(fetched[0].value - fetched[1].value)
      && d.periodStart == Some(fetched[1].date) && d.periodEnd == Some(fetched[0].date)
  {
    ReverseValid(fetched);
    DashboardConsumptionData(meterId, Reverse(fetched))
  }

  /**
   * On the fetched (newest-first) readings the corrected summary covers the
   * latest period: it ends at the newest reading and starts at the one
   * before, and its comparison is taken over the oldest-first history.
   */
  lemma LatestPeriodSummaryCorrect(meterId: string, fetched: seq<Reading>)
    requires AllValid(fetched) && Descending(fetched)
    requires meterId != "" && |fetched| >= 2
    ensures AllValid(Reverse(fetched)) && Ascending(Reverse(fetched))
    ensures var d := LatestPeriodSummary(meterId, fetched);
      && d.status == Success
      && d.consumption == Some(fetched[0].value - fetched[1].value)
      && d.periodEnd == Some(fetched[0].date) && d.periodStart == Some(fetched[1].date)
      && (forall j :: 0 <= j < |fetched| ==> Day(fetched[j]) <= DayNumber(d.periodEnd.value))
      && d.comparison == CompareToLastYear(Reverse(fetched), fetched[1], fetched[0])
  {
    ReverseOfDescending(fetched);
    var h := Reverse(fetched);
    assert h[|h| - 1] == fetched[0] && h[|h| - 2] == fetched[1];
  }

  /**
   * Readings of 2022-06-01 (10 kWh), 2023-06-01 (50 kWh) and 2024-06-02
   * (100 kWh), newest first as fetched: as written the dashboard reports
   * -40 kWh from 2023-06-01 back to 2022-06-01, without comparison.
   */
  lemma DashboardExampleAsWritten()
    ensures var fetched := [Reading("c", "m", Date(2024, 6, 2), 100.0),
                            Reading("b", "m", Date(2023, 6, 1), 50.0),
                            Reading("a", "m", Date(2022, 6, 1), 10.0)];
      && AllValid(fetched)
      && DashboardConsumptionData("m", fetched)
           == DashboardData(Some(-40.0), Some(Date(2023, 6, 1)), Some(Date(2022, 6, 1)), None, Success)
  {
    var fetched := [Reading("c", "m", Date(2024, 6, 2), 100.0),
                    Reading("b", "m", Date(2023, 6, 1), 50.0),
                    Reading("a", "m", Date(2022, 6, 1), 10.0)];
    assert AllValid(fetched);
    assert Day(fetched[0]) > Day(fetched[1]) > Day(fetched[2]);
    assert Descending(fetched);
    DashboardOnFetchedOrder("m", fetched);
  }

  /**
   * The same readings: the corrected summary reports 50 kWh from 2023-06-01
   * to 2024-06-02, 10 kWh (25 %) more than in the year before.
   */
  lemma DashboardExampleCorrected()
    ensures var fetched := [Reading("c", "m", Date(2024, 6, 2), 100.0),
                            Reading("b", "m", Date(2023, 6, 1), 50.0),
                            Reading("a", "m", Date(2022, 6, 1), 10.0)];
      && AllValid(fetched)
      && LatestPeriodSummary("m", fetched)
           == DashboardData(Some(50.0), Some(Date(2023, 6, 1)), Some(Date(2024, 6, 2)),
                            Some(Comparison(10.0, 40.0, Some(Up), Red, Date(2023, 6, 1))), Success)
  {
    var a := Reading("a", "m", Date(2022, 6, 1), 10.0);
    var b := Reading("b", "m", Date(2023, 6, 1), 50.0);
    var c := Reading("c", "m", Date(2024, 6, 2), 100.0);
    var fetched := [c, b, a];
    assert Day(c) > Day(b) > Day(a);
    assert Reverse(fetched) == [a, b, c];
    LatestPeriodSummaryCorrect("m", fetched);
    YearOverYearExample();
  }
}
