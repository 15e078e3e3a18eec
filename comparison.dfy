/**
 * The year-over-year comparison, written out twice in the actions file (once
 * per reading in the processed list, once for the dashboard): the consumption
 * of the period R1..R2 against the period that ends at the reading closest to
 * R2's date one year earlier.  Only the classification is modelled; the
 * localised text built from it is presentation.
 */
module Comparison {
  import opened Wrappers
  import opened Dates
  import opened Readings
  import opened Matcher

  datatype Icon = Down | Up

  /** `text-green-500`, `text-red-500` and `text-muted-foreground`. */
  datatype Colour = Green | Red | Muted

  /**
   * `diff` is this period's consumption less last year's (`lastYear`);
   * `reference` is the date of the reading that closes last year's period
   * (named in the dashboard's text).  The percentage the source stores and
   * prints is `Percentage` of these.
   */
  datatype Comparison = Comparison(diff: real, lastYear: real, icon: Option<Icon>, colour: Colour, reference: Date)

  /** `percentageDiff`: the difference relative to last year's consumption, 0 when that is 0. */
  function Percentage(c: Comparison): (p: real)
    ensures c.lastYear == 0.0 ==> p == 0.0
    ensures c.lastYear != 0.0 ==> p * c.lastYear == c.diff * 100.0
  {
    if c.lastYear != 0.0 then c.diff / c.lastYear * 100.0 else 0.0
  }

  /**
   * Classifies this period's consumption against last year's: less is
   * favourable (down, green), more unfavourable (up, red), equal is neutral.
   */
  function Classify(current: real, lastYear: real, reference: Date): (c: Comparison)
    ensures c.diff == current - lastYear && c.lastYear == lastYear
    ensures c.icon == Some(Down) <==> current < lastYear
    ensures c.icon == Some(Up) <==> current > lastYear
    ensures c.icon == None <==> current == lastYear
    ensures (c.colour == Green <==> c.icon == Some(Down)) && (c.colour == Red <==> c.icon == Some(Up))
    ensures c.reference == reference
  {
    var diff := current - lastYear;
    if diff < 0.0 then Comparison(diff, lastYear, Some(Down), Green, reference)
    else if diff > 0.0 then Comparison(diff, lastYear, Some(Up), Red, reference)
    else Comparison(diff, lastYear, None, Muted, reference)
  }

  /**
   * The percentage is 0 when last year's consumption is 0; otherwise this
   * year's consumption is last year's grown by that percentage, and when last
   * year's consumption is positive the percentage has the sign of the
   * difference.
   */
  lemma ClassifyPercentage(current: real, lastYear: real, reference: Date)
    ensures var p := Percentage(Classify(current, lastYear, reference));
      && (lastYear == 0.0 ==> p == 0.0)
      && (lastYear != 0.0 ==> current == lastYear + lastYear * p / 100.0)
      && (lastYear > 0.0 ==> (p < 0.0 <==> current < lastYear) && (p > 0.0 <==> current > lastYear))
  {
    var diff := current - lastYear;
    var p := Percentage(Classify(current, lastYear, reference));
    if lastYear != 0.0 {
      assert p == diff / lastYear * 100.0;
      assert lastYear * p / 100.0 == diff;
      if lastYear > 0.0 {
        assert p < 0.0 <==> diff < 0.0;
        assert p > 0.0 <==> diff > 0.0;
      }
    }
  }

  /** The date one year before R2's date, where last year's period should end. */
  function LastYearTarget(r2: Reading): (t: int)
    requires ValidDate(r2.date)
    ensures Day(r2) - 366 <= t <= Day(r2) - 365
  {
    ShiftBackOneYearBounds(r2.date);
    DayNumber(ShiftBackOneYear(r2.date))
  }

  /**
   * The comparison for the period R1..R2 over `history` (the meter's
   * readings): none when no reading lies within the tolerance of the target
   * date, or when no reading comes immediately before the one found.
   */
  function CompareToLastYear(history: seq<Reading>, r1: Reading, r2: Reading): (c: Option<Comparison>)
    requires AllValid(history) && ValidDate(r2.date)
    ensures c.Some? ==> ClosestReading(history, LastYearTarget(r2), DefaultToleranceDays).Some?
    ensures c.Some? ==> c.value.reference == ClosestReading(history, LastYearTarget(r2), DefaultToleranceDays).value.date
    ensures c.Some? ==> c.value.diff == (r2.value - r1.value) - c.value.lastYear
  {
    var consumptionCurrent := r2.value - r1.value;
    match ClosestReading(history, LastYearTarget(r2), DefaultToleranceDays)
    case None => None
    case Some(r2LastYear) =>
      match ImmediatelyBefore(history, Day(r2LastYear))
      case None => None
      case Some(r1LastYear) =>
        Some(Classify(consumptionCurrent, r2LastYear.value - r1LastYear.value, r2LastYear.date))
  }

  /**
   * Every comparison closes last year's period at the first of the closest
   * readings to the target date (within the tolerance), index `k`, and opens
   * it at the reading `j` that ends the run of readings dated before it; that
   * reading precedes `k` in the history and is dated earlier.
   */
  lemma CompareToLastYearSound(history: seq<Reading>, r1: Reading, r2: Reading)
    requires AllValid(history) && ValidDate(r2.date)
    ensures CompareToLastYear(history, r1, r2).Some? ==>
      && ClosestIndex(history, LastYearTarget(r2), DefaultToleranceDays).Some?
      && var k := ClosestIndex(history, LastYearTarget(r2), DefaultToleranceDays).value;
      && IsFirstClosest(history, LastYearTarget(r2), DefaultToleranceDays, k)
      && 0 < LeadingBefore(history, Day(history[k])) <= k
      && var j := LeadingBefore(history, Day(history[k])) - 1;
      && Day(history[j]) < Day(history[k])
      && CompareToLastYear(history, r1, r2) ==
           Some(Classify(r2.value - r1.value, history[k].value - history[j].value, history[k].date))
  {
    ComparisonNeedsBoth(history, r1, r2);
    if CompareToLastYear(history, r1, r2).Some? {
      var t := LastYearTarget(r2);
      var k := ClosestIndex(history, t, DefaultToleranceDays).value;
      ClosestIndexCorrect(history, t, DefaultToleranceDays);
      LeadingBeforeCorrect(history, Day(history[k]));
      ComparisonValue(history, r1, r2);
    }
  }

  /** A comparison needs a reading near last year's date and a reading dated before that one. */
  lemma ComparisonNeedsBoth(history: seq<Reading>, r1: Reading, r2: Reading)
    requires AllValid(history) && ValidDate(r2.date)
    ensures CompareToLastYear(history, r1, r2).Some? ==>
      && ClosestIndex(history, LastYearTarget(r2), DefaultToleranceDays).Some?
      && LeadingBefore(history, Day(history[ClosestIndex(history, LastYearTarget(r2), DefaultToleranceDays).value])) > 0
  {
  }

  /** The comparison once last year's closing reading `k` and the run before it are known. */
  lemma ComparisonValue(history: seq<Reading>, r1: Reading, r2: Reading)
    requires AllValid(history) && ValidDate(r2.date)
    requires ClosestIndex(history, LastYearTarget(r2), DefaultToleranceDays).Some?
    requires LeadingBefore(history, Day(history[ClosestIndex(history, LastYearTarget(r2), DefaultToleranceDays).value])) > 0
    ensures var k := ClosestIndex(history, LastYearTarget(r2), DefaultToleranceDays).value;
      var j := LeadingBefore(history, Day(history[k])) - 1;
      CompareToLastYear(history, r1, r2) ==
        Some(Classify(r2.value - r1.value, history[k].value - history[j].value, history[k].date))
  {
    var t := LastYearTarget(r2);
    var k := ClosestIndex(history, t, DefaultToleranceDays).value;
    var j := LeadingBefore(history, Day(history[k])) - 1;
    assert ClosestReading(history, t, DefaultToleranceDays) == Some(history[k]);
    assert ImmediatelyBefore(history, Day(history[k])) == Some(history[j]);
    CompareToLastYearFound(history, r1, r2, history[k], history[j]);
  }

  lemma CompareToLastYearFound(history: seq<Reading>, r1: Reading, r2: Reading, r2LastYear: Reading, r1LastYear: Reading)
    requires AllValid(history) && ValidDate(r2.date)
    requires ClosestReading(history, LastYearTarget(r2), DefaultToleranceDays) == Some(r2LastYear)
    requires ImmediatelyBefore(history, Day(r2LastYear)) == Some(r1LastYear)
    ensures CompareToLastYear(history, r1, r2)
         == Some(Classify(r2.value - r1.value, r2LastYear.value - r1LastYear.value, r2LastYear.date))
  {
  }

  /**
   * On an ascending history a comparison exists whenever some reading lies
   * within the tolerance of the target date and some reading is dated before
   * the first of the closest ones.
   */
  lemma CompareToLastYearComplete(history: seq<Reading>, r1: Reading, r2: Reading, k: int, j: int)
    requires AllValid(history) && ValidDate(r2.date) && Ascending(history)
    requires IsFirstClosest(history, LastYearTarget(r2), DefaultToleranceDays, k)
    requires 0 <= j < |history| && Day(history[j]) < Day(history[k])
    ensures CompareToLastYear(history, r1, r2).Some?
  {
    var t := LastYearTarget(r2);
    ClosestIndexCorrect(history, t, DefaultToleranceDays);
    assert WithinTolerance(history, t, DefaultToleranceDays, k);
    FirstClosestUnique(history, t, DefaultToleranceDays, k, ClosestIndex(history, t, DefaultToleranceDays).value);
    LeadingBeforeCorrect(history, Day(history[k]));
  }

  /**
   * A history spanning less than a year back from R2 gives no comparison, in
   * whatever order it is: every reading is later than last year's target, so
   * the first closest match is never preceded by an earlier first reading.
   */
  lemma NoComparisonForShortHistory(history: seq<Reading>, r1: Reading, r2: Reading)
    requires AllValid(history) && ValidDate(r2.date)
    requires forall j :: 0 <= j < |history| ==> Day(history[j]) > Day(r2) - 365
    ensures CompareToLastYear(history, r1, r2) == None
  {
    var t := LastYearTarget(r2);
    var index := ClosestIndex(history, t, DefaultToleranceDays);
    if index.Some? {
      var k := index.value;
      ClosestIndexCorrect(history, t, DefaultToleranceDays);
      assert Day(history[0]) >= Day(history[k]) by {
        if Day(history[0]) < Day(history[k]) {
          assert WithinTolerance(history, t, DefaultToleranceDays, 0);
        }
      }
      assert LeadingBefore(history, Day(history[k])) == 0;
    }
  }

  /** Whatever comparison is produced refers to a reading 360 to 371 days before R2. */
  lemma ComparisonReferenceWindow(history: seq<Reading>, r1: Reading, r2: Reading)
    requires AllValid(history) && ValidDate(r2.date)
    ensures CompareToLastYear(history, r1, r2).Some? ==>
      var c := CompareToLastYear(history, r1, r2).value;
      ValidDate(c.reference) && Day(r2) - 371 <= DayNumber(c.reference) <= Day(r2) - 360
  {
    var t := LastYearTarget(r2);
    ClosestIndexCorrect(history, t, DefaultToleranceDays);
  }

  /**
   * A meter read on 2022-06-01 (10 kWh), 2023-06-01 (50 kWh) and 2024-06-02
   * (100 kWh): this year's 50 kWh against last year's 40 kWh is 10 kWh (25 %)
   * more.
   */
  lemma YearOverYearExample()
    ensures var h := [Reading("a", "m", Date(2022, 6, 1), 10.0),
                      Reading("b", "m", Date(2023, 6, 1), 50.0),
                      Reading("c", "m", Date(2024, 6, 2), 100.0)];
      && AllValid(h)
      && CompareToLastYear(h, h[1], h[2]) == Some(Comparison(10.0, 40.0, Some(Up), Red, Date(2023, 6, 1)))
      && Percentage(CompareToLastYear(h, h[1], h[2]).value) == 25.0
  {
    var h := [Reading("a", "m", Date(2022, 6, 1), 10.0),
              Reading("b", "m", Date(2023, 6, 1), 50.0),
              Reading("c", "m", Date(2024, 6, 2), 100.0)];
    assert LastYearTarget(h[2]) == DayNumber(Date(2023, 6, 2));
    assert h[..2][..1] == h[..1] && h[..1][..0] == [];
    assert ClosestIndex(h, LastYearTarget(h[2]), DefaultToleranceDays) == Some(1);
    assert h[1..][1..] == [h[2]];
    assert LeadingBefore(h, Day(h[1])) == 1;
  }

  /**
   * A meter read on 2023-01-01, 2024-01-03 and 2024-06-01: the reading
   * closest to 2023-01-03 is the first one, which has no predecessor, so the
   * period ending 2024-01-03 has no comparison; nor has the period ending
   * 2024-06-01, since no reading lies within 5 days of 2023-06-01.
   */
  lemma NoComparisonExample()
    ensures var h := [Reading("a", "m", Date(2023, 1, 1), 100.0),
                      Reading("b", "m", Date(2024, 1, 3), 220.0),
                      Reading("c", "m", Date(2024, 6, 1), 300.0)];
      AllValid(h) && CompareToLastYear(h, h[0], h[1]) == None && CompareToLastYear(h, h[1], h[2]) == None
  {
    MatchWithoutPredecessor();
    NoMatchNearTarget();
  }

  /** The period ending 2024-01-03 matches 2023-01-01, the first reading, which nothing precedes. */
  lemma MatchWithoutPredecessor()
    ensures var h := [Reading("a", "m", Date(2023, 1, 1), 100.0),
                      Reading("b", "m", Date(2024, 1, 3), 220.0),
                      Reading("c", "m", Date(2024, 6, 1), 300.0)];
      AllValid(h) && CompareToLastYear(h, h[0], h[1]) == None
  {
    var h := [Reading("a", "m", Date(2023, 1, 1), 100.0),
              Reading("b", "m", Date(2024, 1, 3), 220.0),
              Reading("c", "m", Date(2024, 6, 1), 300.0)];
    assert h[..2][..1] == h[..1] && h[..1][..0] == [];
    assert ClosestIndex(h, LastYearTarget(h[1]), DefaultToleranceDays) == Some(0);
  }

  /** The period ending 2024-06-01 finds no reading within 5 days of 2023-06-01. */
  lemma NoMatchNearTarget()
    ensures var h := [Reading("a", "m", Date(2023, 1, 1), 100.0),
                      Reading("b", "m", Date(2024, 1, 3), 220.0),
                      Reading("c", "m", Date(2024, 6, 1), 300.0)];
      AllValid(h) && CompareToLastYear(h, h[1], h[2]) == None
  {
    var h := [Reading("a", "m", Date(2023, 1, 1), 100.0),
              Reading("b", "m", Date(2024, 1, 3), 220.0),
              Reading("c", "m", Date(2024, 6, 1), 300.0)];
    assert h[..2][..1] == h[..1] && h[..1][..0] == [];
    assert ClosestIndex(h, LastYearTarget(h[2]), DefaultToleranceDays) == None;
  }

  /** `comparisonResult` computed step by step with the two search helpers. */
  method ComputeComparison(history: seq<Reading>, r1: Reading, r2: Reading) returns (comparisonResult: Option<Comparison>)
    requires AllValid(history) && ValidDate(r2.date)
    ensures comparisonResult == CompareToLastYear(history, r1, r2)
  {
    var consumptionCurrent := r2.value - r1.value;
    var targetDateR2LastYear := ShiftBackOneYear(r2.date);
    var r2LastYear := FindReadingClosestToDate(history, targetDateR2LastYear);
    comparisonResult := None;
    if r2LastYear.Some? {
      var r1LastYear := FindReadingImmediatelyBefore(history, r2LastYear.value.date);
      if r1LastYear.Some? {
        var consumptionLastYear := r2LastYear.value.value - r1LastYear.value.value;
        comparisonResult := Some(Classify(consumptionCurrent, consumptionLastYear, r2LastYear.value.date));
      }
    }
  }
}
