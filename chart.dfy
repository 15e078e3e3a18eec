/**
 * `getElectricityConsumptionChartData`: one chart point per period between
 * consecutive readings, with the period's consumption and the running total.
 * The readings are those `getElectricityReadingsForMeter` fetches (newest
 * first), while the loop accumulates as if they came oldest first;
 * `ChartForMeter` is the computation on the readings put oldest first.
 */
module Chart {
  import opened Dates
  import opened Readings

  /** The date is the period's end; its `dd.MM.` label is presentation. */
  datatype ChartPoint = ChartPoint(date: Date, consumption: real, cumulativeConsumption: real)

  /** The points the loop has pushed once it has seen the first `n` readings. */
  function RunningSeries(readings: seq<Reading>, n: nat): (points: seq<ChartPoint>)
    requires 1 <= n <= |readings|
    ensures |points| == n - 1
  {
    if n == 1 then []
    else
      var prev := RunningSeries(readings, n - 1);
      var consumption := readings[n - 1].value - readings[n - 2].value;
      var cumulative := (if prev == [] then 0.0 else prev[|prev| - 1].cumulativeConsumption) + consumption;
      prev + [ChartPoint(readings[n - 1].date, consumption, cumulative)]
  }

  /** The chart data: empty for an empty meter id or fewer than two readings. */
  function ChartData(meterId: string, readings: seq<Reading>): (points: seq<ChartPoint>)
    ensures |points| == if meterId == "" || |readings| < 2 then 0 else |readings| - 1
  {
    if meterId == "" || |readings| < 2 then [] else RunningSeries(readings, |readings|)
  }

  /** The sum of the points' consumptions. */
  function TotalConsumption(points: seq<ChartPoint>): real {
    if points == [] then 0.0 else TotalConsumption(points[..|points| - 1]) + points[|points| - 1].consumption
  }

  /**
   * Point `k` covers readings `k` to `k + 1`; its running total is the sum
   * of the consumptions so far, which telescopes to the value of reading
   * `k + 1` less that of the first reading.
   */
  lemma {:induction false} RunningSeriesAt(readings: seq<Reading>, n: nat, k: nat)
    requires 1 <= n <= |readings| && k < n - 1
    ensures var p := RunningSeries(readings, n)[k];
      && p.date == readings[k + 1].date
      && p.consumption == readings[k + 1].value - readings[k].value
      && p.cumulativeConsumption == readings[k + 1].value - readings[0].value
      && p.cumulativeConsumption == TotalConsumption(RunningSeries(readings, n)[..k + 1])
  {
    var prev, points := RunningSeries(readings, n - 1), RunningSeries(readings, n);
    assert points == prev + [points[n - 2]];
    if k < n - 2 {
      RunningSeriesAt(readings, n - 1, k);
      assert points[k] == prev[k];
      assert points[..k + 1] == prev[..k + 1];
    } else {
      assert points[..k + 1] == points && points[..k + 1][..k] == prev;
      if k > 0 {
        RunningSeriesAt(readings, n - 1, k - 1);
        assert prev[..k] == prev;
      }
    }
  }

  lemma RunningSeriesCorrect(readings: seq<Reading>, n: nat)
    requires 1 <= n <= |readings|
    ensures forall k :: 0 <= k < n - 1 ==>
      && RunningSeries(readings, n)[k].date == readings[k + 1].date
      && RunningSeries(readings, n)[k].consumption == readings[k + 1].value - readings[k].value
      && RunningSeries(readings, n)[k].cumulativeConsumption == readings[k + 1].value - readings[0].value
  {
    forall k | 0 <= k < n - 1
      ensures && RunningSeries(readings, n)[k].date == readings[k + 1].date
              && RunningSeries(readings, n)[k].consumption == readings[k + 1].value - readings[k].value
              && RunningSeries(readings, n)[k].cumulativeConsumption == readings[k + 1].value - readings[0].value
    {
      RunningSeriesAt(readings, n, k);
    }
  }

  /** The chart loop: `cumulative` adds up each period's consumption. */
  method GetElectricityConsumptionChartData(meterId: string, readings: seq<Reading>) returns (chartData: seq<ChartPoint>)
    ensures chartData == ChartData(meterId, readings)
    ensures |chartData| == if meterId == "" || |readings| < 2 then 0 else |readings| - 1
    ensures forall k :: 0 <= k < |chartData| ==>
      && chartData[k].date == readings[k + 1].date
      && chartData[k].consumption == readings[k + 1].value - readings[k].value
      && chartData[k].cumulativeConsumption == readings[k + 1].value - readings[0].value
  {
    if meterId == "" || |readings| < 2 {
      return [];
    }
    chartData := [];
    var cumulative := 0.0;
    for i := 1 to |readings|
      invariant chartData == RunningSeries(readings, i)
      invariant cumulative == if chartData == [] then 0.0 else chartData[|chartData| - 1].cumulativeConsumption
    {
      var previousReading := readings[i - 1];
      var currentReading := readings[i];
      var consumption := currentReading.value - previousReading.value;
      cumulative := cumulative + consumption;
      chartData := chartData + [ChartPoint(currentReading.date, consumption, cumulative)];
    }
    RunningSeriesCorrect(readings, |readings|);
  }

  /** Readings whose values never fall from an earlier date to a later one. */
  predicate ValuesGrowWithDate(s: seq<Reading>)
    requires AllValid(s)
  {
    forall i, j :: 0 <= i < |s| && 0 <= j < |s| && Day(s[i]) < Day(s[j]) ==> s[i].value <= s[j].value
  }

  /** The points' dates run forward in time. */
  predicate Forward(points: seq<ChartPoint>) {
    forall i, j :: 0 <= i < j < |points| ==>
      ValidDate(points[i].date) && ValidDate(points[j].date) && DayNumber(points[i].date) < DayNumber(points[j].date)
  }

  /** The points' dates run backward in time. */
  predicate Backward(points: seq<ChartPoint>) {
    forall i, j :: 0 <= i < j < |points| ==>
      ValidDate(points[i].date) && ValidDate(points[j].date) && DayNumber(points[i].date) > DayNumber(points[j].date)
  }

  predicate StrictlyDescending(s: seq<Reading>)
    requires AllValid(s)
  {
    forall i, j :: 0 <= i < j < |s| ==> Day(s[i]) > Day(s[j])
  }

  predicate StrictlyAscending(s: seq<Reading>)
    requires AllValid(s)
  {
    forall i, j :: 0 <= i < j < |s| ==> Day(s[i]) < Day(s[j])
  }

  lemma ReverseStrictlyDescending(s: seq<Reading>)
    requires AllValid(s) && StrictlyDescending(s)
    ensures AllValid(Reverse(s)) && StrictlyAscending(Reverse(s))
    ensures ValuesGrowWithDate(s) ==> ValuesGrowWithDate(Reverse(s))
  {
    ReverseValid(s);
    var r := Reverse(s);
    forall i, j | 0 <= i < j < |r| ensures Day(r[i]) < Day(r[j]) {
      assert r[i] == s[|s| - 1 - i] && r[j] == s[|s| - 1 - j];
    }
    if ValuesGrowWithDate(s) {
      forall i, j | 0 <= i < |r| && 0 <= j < |r| && Day(r[i]) < Day(r[j]) ensures r[i].value <= r[j].value {
        assert r[i] == s[|s| - 1 - i] && r[j] == s[|s| - 1 - j];
      }
    }
  }

  /**
   * On readings oldest first the chart's points run forward in time, and for
   * a meter whose value grows each period's consumption is non-negative.
   */
  lemma SeriesForward(readings: seq<Reading>)
    requires AllValid(readings) && |readings| >= 2 && ValuesGrowWithDate(readings) && StrictlyAscending(readings)
    ensures var points := RunningSeries(readings, |readings|);
      Forward(points) && forall k :: 0 <= k < |points| ==> points[k].consumption >= 0.0
  {
    RunningSeriesCorrect(readings, |readings|);
    var points := RunningSeries(readings, |readings|);
    forall i, j | 0 <= i < j < |points|
      ensures ValidDate(points[i].date) && ValidDate(points[j].date) && DayNumber(points[i].date) < DayNumber(points[j].date)
    {
      assert Day(readings[i + 1]) < Day(readings[j + 1]);
    }
    forall k | 0 <= k < |points| ensures points[k].consumption >= 0.0 {
      assert Day(readings[k]) < Day(readings[k + 1]);
    }
  }

  /**
   * On readings newest first the chart's points run backward in time, and
   * for a meter whose value grows each period's consumption is non-positive.
   */
  lemma SeriesBackward(readings: seq<Reading>)
    requires AllValid(readings) && |readings| >= 2 && ValuesGrowWithDate(readings) && StrictlyDescending(readings)
    ensures var points := RunningSeries(readings, |readings|);
      Backward(points) && forall k :: 0 <= k < |points| ==> points[k].consumption <= 0.0
  {
    RunningSeriesCorrect(readings, |readings|);
    var points := RunningSeries(readings, |readings|);
    forall i, j | 0 <= i < j < |points|
      ensures ValidDate(points[i].date) && ValidDate(points[j].date) && DayNumber(points[i].date) > DayNumber(points[j].date)
    {
      assert Day(readings[i + 1]) > Day(readings[j + 1]);
    }
    forall k | 0 <= k < |points| ensures points[k].consumption <= 0.0 {
      assert Day(readings[k]) > Day(readings[k + 1]);
    }
  }

  /**
   * On readings in the order the fetch delivers them (newest first, one per
   * day) the chart runs backwards in time, and for a meter whose value grows
   * every period shows a non-positive consumption, ending at the oldest value
   * less the newest.
   */
  lemma ChartOnFetchedOrder(meterId: string, fetched: seq<Reading>)
    requires AllValid(fetched) && StrictlyDescending(fetched) && ValuesGrowWithDate(fetched)
    requires meterId != "" && |fetched| >= 2
    ensures var points := ChartData(meterId, fetched);
      && |points| == |fetched| - 1
      && (forall k :: 0 <= k < |points| ==> points[k].consumption <= 0.0)
      && Backward(points)
      && points[|points| - 1].cumulativeConsumption == fetched[|fetched| - 1].value - fetched[0].value
  {
    SeriesBackward(fetched);
    RunningSeriesAt(fetched, |fetched|, |fetched| - 2);
  }

  /** The chart of the fetched readings put oldest first. */
  function ChartForMeter(meterId: string, fetched: seq<Reading>): (points: seq<ChartPoint>)
    ensures |points| == if meterId == "" || |fetched| < 2 then 0 else |fetched| - 1
    ensures points != [] ==> points[|points| - 1].date == fetched[0].date
  {
    ChartData(meterId, Reverse(fetched))
  }

  /**
   * On the fetched (newest-first) readings the corrected chart runs forward
   * in time, shows each period's non-negative consumption for a meter whose
   * value grows, and ends at the newest value less the oldest.
   */
  lemma ChartForMeterCorrect(meterId: string, fetched: seq<Reading>)
    requires AllValid(fetched) && StrictlyDescending(fetched) && ValuesGrowWithDate(fetched)
    requires meterId != "" && |fetched| >= 2
    ensures var points := ChartForMeter(meterId, fetched);
      && |points| == |fetched| - 1
      && (forall k :: 0 <= k < |points| ==> points[k].consumption >= 0.0)
      && Forward(points)
      && points[|points| - 1].cumulativeConsumption == fetched[0].value - fetched[|fetched| - 1].value
  {
    var h := Reverse(fetched);
    var n := |h|;
    ReverseStrictlyDescending(fetched);
    SeriesForward(h);
    RunningSeriesAt(h, n, n - 2);
    assert h[n - 1] == fetched[0] && h[0] == fetched[n - 1];
  }

  /**
   * Readings of 2022-06-01 (10 kWh), 2023-06-01 (50 kWh) and 2024-06-02
   * (100 kWh), newest first as fetched: as written the chart shows -50 and
   * -40 kWh, ending at -90; corrected it shows 40 and 50 kWh, ending at 90.
   */
  lemma ChartExample()
    ensures var fetched := [Reading("c", "m", Date(2024, 6, 2), 100.0),
                            Reading("b", "m", Date(2023, 6, 1), 50.0),
                            Reading("a", "m", Date(2022, 6, 1), 10.0)];
      && ChartData("m", fetched) == [ChartPoint(Date(2023, 6, 1), -50.0, -50.0), ChartPoint(Date(2022, 6, 1), -40.0, -90.0)]
      && ChartForMeter("m", fetched) == [ChartPoint(Date(2023, 6, 1), 40.0, 40.0), ChartPoint(Date(2024, 6, 2), 50.0, 90.0)]
  {
    var a := Reading("a", "m", Date(2022, 6, 1), 10.0);
    var b := Reading("b", "m", Date(2023, 6, 1), 50.0);
    var c := Reading("c", "m", Date(2024, 6, 2), 100.0);
    assert RunningSeries([c, b, a], 2) == [ChartPoint(Date(2023, 6, 1), -50.0, -50.0)];
    assert Reverse([c, b, a]) == [a, b, c];
    assert RunningSeries([a, b, c], 2) == [ChartPoint(Date(2023, 6, 1), 40.0, 40.0)];
  }
}
