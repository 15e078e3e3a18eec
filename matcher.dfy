/**
 * The two search helpers at the top of the actions file: the reading
 * closest to a target date within a tolerance, and the reading immediately
 * before a date.  Each is a loop (a method) proved equal to a recursive
 * specification function; the properties the callers rely on are lemmas
 * about the specification functions.
 */
module Matcher {
  import opened Wrappers
  import opened Dates
  import opened Readings

  /** The default tolerance of the closest-date search, in days. */
  const DefaultToleranceDays := 5

  /** Absolute distance in days between a reading and a target day. */
  function Distance(r: Reading, target: int): nat
    requires ValidDate(r.date)
  {
    if Day(r) >= target then Day(r) - target else target - Day(r)
  }

  /**
   * The index the closest-date scan has chosen after seeing all of `s`:
   * a reading is taken when it is within tolerance and strictly closer than
   * the one held so far (the first one within tolerance always is).
   */
  function ClosestIndex(s: seq<Reading>, target: int, tolerance: int): (k: Option<nat>)
    requires AllValid(s)
    ensures k.Some? ==> k.value < |s|
    decreases |s|
  {
    if s == [] then None
    else
      var prev := ClosestIndex(s[..|s| - 1], target, tolerance);
      var last := |s| - 1;
      if Distance(s[last], target) <= tolerance
         && (prev.None? || Distance(s[last], target) < Distance(s[prev.value], target))
      then Some(last)
      else prev
  }

  function ClosestReading(s: seq<Reading>, target: int, tolerance: int): (r: Option<Reading>)
    requires AllValid(s)
    ensures r.Some? ==> r.value in s && ValidDate(r.value.date)
  {
    match ClosestIndex(s, target, tolerance)
    case None => None
    case Some(k) => Some(s[k])
  }

  predicate WithinTolerance(s: seq<Reading>, target: int, tolerance: int, j: int)
    requires AllValid(s)
  {
    0 <= j < |s| && Distance(s[j], target) <= tolerance
  }

  /** Index `k` holds the first of the closest readings within tolerance. */
  ghost predicate IsFirstClosest(s: seq<Reading>, target: int, tolerance: int, k: int)
    requires AllValid(s)
  {
    && WithinTolerance(s, target, tolerance, k)
    && (forall j :: WithinTolerance(s, target, tolerance, j) ==> Distance(s[k], target) <= Distance(s[j], target))
    && (forall j :: 0 <= j < k && WithinTolerance(s, target, tolerance, j) ==> Distance(s[k], target) < Distance(s[j], target))
  }

  /**
   * The scan finds nothing exactly when no reading is within tolerance;
   * otherwise it finds the first of the closest readings within tolerance.
   */
  ghost predicate ClosestSpec(s: seq<Reading>, target: int, tolerance: int)
    requires AllValid(s)
  {
    && (ClosestIndex(s, target, tolerance).None? <==> (forall j :: !WithinTolerance(s, target, tolerance, j)))
    && (ClosestIndex(s, target, tolerance).Some? ==> IsFirstClosest(s, target, tolerance, ClosestIndex(s, target, tolerance).value))
  }

  lemma {:induction false} ClosestIndexCorrect(s: seq<Reading>, target: int, tolerance: int)
    requires AllValid(s)
    ensures ClosestIndex(s, target, tolerance).None? <==> (forall j :: !WithinTolerance(s, target, tolerance, j))
    ensures ClosestIndex(s, target, tolerance).Some? ==> IsFirstClosest(s, target, tolerance, ClosestIndex(s, target, tolerance).value)
  {
    if s != [] {
      var p := s[..|s| - 1];
      ClosestIndexCorrect(p, target, tolerance);
      var prev := ClosestIndex(p, target, tolerance);
      if ClosestIndex(s, target, tolerance) == Some(|s| - 1) {
        ClosestTakesLast(s, p, target, tolerance, prev);
      } else if prev.Some? {
        ClosestKeepsPrevious(s, target, tolerance, prev.value);
      } else {
        ClosestStaysNone(s, p, target, tolerance);
      }
    }
  }

  /** The readings before the last one are judged the same whether or not the last one is present. */
  lemma WithinPrefix(s: seq<Reading>, target: int, tolerance: int)
    requires AllValid(s) && s != []
    ensures forall j :: 0 <= j < |s| - 1 ==>
      s[..|s| - 1][j] == s[j] && (WithinTolerance(s[..|s| - 1], target, tolerance, j) <==> WithinTolerance(s, target, tolerance, j))
  {
  }

  /** A last reading within tolerance and strictly closer than every earlier one is the first closest. */
  lemma ClosestTakesLast(s: seq<Reading>, p: seq<Reading>, target: int, tolerance: int, prev: Option<nat>)
    requires AllValid(s) && s != [] && p == s[..|s| - 1] && WithinTolerance(s, target, tolerance, |s| - 1)
    requires prev.None? ==> forall j :: !WithinTolerance(p, target, tolerance, j)
    requires prev.Some? ==> IsFirstClosest(p, target, tolerance, prev.value)
                            && Distance(s[|s| - 1], target) < Distance(s[prev.value], target)
    ensures IsFirstClosest(s, target, tolerance, |s| - 1)
  {
    var last := |s| - 1;
    WithinPrefix(s, target, tolerance);
    forall j | WithinTolerance(s, target, tolerance, j) && j < last
      ensures Distance(s[last], target) < Distance(s[j], target)
    {
      assert WithinTolerance(p, target, tolerance, j);
    }
  }

  /** A last reading that is not strictly closer leaves the first closest reading of the rest in place. */
  lemma ClosestKeepsPrevious(s: seq<Reading>, target: int, tolerance: int, k: nat)
    requires AllValid(s) && s != [] && IsFirstClosest(s[..|s| - 1], target, tolerance, k)
    requires Distance(s[|s| - 1], target) <= tolerance ==> Distance(s[k], target) <= Distance(s[|s| - 1], target)
    ensures IsFirstClosest(s, target, tolerance, k)
  {
    var p, last := s[..|s| - 1], |s| - 1;
    WithinPrefix(s, target, tolerance);
    forall j | WithinTolerance(s, target, tolerance, j)
      ensures Distance(s[k], target) <= Distance(s[j], target)
    {
      if j < last { assert WithinTolerance(p, target, tolerance, j); }
    }
    forall j | 0 <= j < k && WithinTolerance(s, target, tolerance, j)
      ensures Distance(s[k], target) < Distance(s[j], target)
    {
      assert WithinTolerance(p, target, tolerance, j);
    }
  }

  /** Nothing within tolerance before a last reading that is not within tolerance either. */
  lemma ClosestStaysNone(s: seq<Reading>, p: seq<Reading>, target: int, tolerance: int)
    requires AllValid(s) && s != [] && p == s[..|s| - 1] && !WithinTolerance(s, target, tolerance, |s| - 1)
    requires forall j :: !WithinTolerance(p, target, tolerance, j)
    ensures forall j :: !WithinTolerance(s, target, tolerance, j)
  {
    WithinPrefix(s, target, tolerance);
    forall j ensures !WithinTolerance(s, target, tolerance, j) {
      if 0 <= j < |s| - 1 { assert !WithinTolerance(p, target, tolerance, j); }
    }
  }

  /** At most one index holds the first of the closest readings. */
  lemma FirstClosestUnique(s: seq<Reading>, target: int, tolerance: int, k1: int, k2: int)
    requires AllValid(s)
    requires IsFirstClosest(s, target, tolerance, k1) && IsFirstClosest(s, target, tolerance, k2)
    ensures k1 == k2
  {
  }

  /** Among equally close readings the first one in input order wins. */
  lemma ClosestTieBreak(s: seq<Reading>, target: int, tolerance: int, i: int, j: int)
    requires AllValid(s)
    requires 0 <= i < j < |s|
    requires WithinTolerance(s, target, tolerance, i)
    requires Distance(s[i], target) == Distance(s[j], target)
    ensures ClosestIndex(s, target, tolerance) != Some(j)
  {
    ClosestIndexCorrect(s, target, tolerance);
  }

  /** With tolerance 0 only a reading on the target day itself can be found. */
  lemma ClosestExactWithZeroTolerance(s: seq<Reading>, target: int)
    requires AllValid(s)
    ensures ClosestReading(s, target, 0).Some? ==> Day(ClosestReading(s, target, 0).value) == target
    ensures (exists j :: 0 <= j < |s| && Day(s[j]) == target) ==> ClosestReading(s, target, 0).Some?
  {
    ClosestIndexCorrect(s, target, 0);
    if exists j :: 0 <= j < |s| && Day(s[j]) == target {
      var j :| 0 <= j < |s| && Day(s[j]) == target;
      assert WithinTolerance(s, target, 0, j);
    }
  }

  /** `findReadingClosestToDate`: a scan keeping the closest reading seen so far. */
  method FindReadingClosestToDate(readings: seq<Reading>, targetDate: Date, toleranceDays: int := DefaultToleranceDays)
    returns (closestReading: Option<Reading>)
    requires AllValid(readings) && ValidDate(targetDate)
    ensures closestReading == ClosestReading(readings, DayNumber(targetDate), toleranceDays)
    ensures closestReading.Some? ==> Distance(closestReading.value, DayNumber(targetDate)) <= toleranceDays
  {
    var targetTime := DayNumber(targetDate);
    closestReading := None;
    var minDiff: Option<nat> := None;  // None stands for Infinity
    ghost var best: Option<nat> := None;
    for i := 0 to |readings|
      invariant best == ClosestIndex(readings[..i], targetTime, toleranceDays)
      invariant best.None? ==> closestReading.None? && minDiff.None?
      invariant best.Some? ==> best.value < i && closestReading == Some(readings[best.value])
                               && minDiff == Some(Distance(readings[best.value], targetTime))
    {
      assert readings[..i + 1][..i] == readings[..i];
      var reading := readings[i];
      var diff := Distance(reading, targetTime);
      if diff <= toleranceDays {
        if minDiff.None? || diff < minDiff.value {
          minDiff := Some(diff);
          closestReading := Some(reading);
          best := Some(i);
        }
      }
    }
    assert readings[..|readings|] == readings;
    if closestReading.Some? {
      ClosestIndexCorrect(readings, targetTime, toleranceDays);
    }
  }

  /** How many readings at the front of `s` are dated strictly before day `t`. */
  function LeadingBefore(s: seq<Reading>, t: int): (n: nat)
    requires AllValid(s)
    ensures n <= |s|
  {
    if s == [] || Day(s[0]) >= t then 0 else 1 + LeadingBefore(s[1..], t)
  }

  /** The last reading of that leading run, if the run is not empty. */
  function ImmediatelyBefore(s: seq<Reading>, t: int): (r: Option<Reading>)
    requires AllValid(s)
    ensures r.Some? ==> r.value in s && ValidDate(r.value.date)
  {
    var n := LeadingBefore(s, t);
    if n == 0 then None else Some(s[n - 1])
  }

  /** The scan's prefix holds only earlier readings and stops at the first reading not earlier. */
  lemma {:induction false} LeadingBeforeStops(s: seq<Reading>, t: int)
    requires AllValid(s)
    ensures forall j :: 0 <= j < LeadingBefore(s, t) ==> Day(s[j]) < t
    ensures LeadingBefore(s, t) < |s| ==> Day(s[LeadingBefore(s, t)]) >= t
  {
    if s != [] && Day(s[0]) < t {
      var tail := s[1..];
      LeadingBeforeStops(tail, t);
      forall j | 1 <= j < |s| ensures s[j] == tail[j - 1] { }
    }
  }

  /** The leading run is exactly the readings dated before `t`; on ascending input it is all of them. */
  lemma LeadingBeforeCorrect(s: seq<Reading>, t: int)
    requires AllValid(s)
    ensures forall j :: 0 <= j < LeadingBefore(s, t) ==> Day(s[j]) < t
    ensures LeadingBefore(s, t) < |s| ==> Day(s[LeadingBefore(s, t)]) >= t
    ensures Ascending(s) ==> forall j :: 0 <= j < |s| ==> (Day(s[j]) < t <==> j < LeadingBefore(s, t))
  {
    LeadingBeforeStops(s, t);
    if Ascending(s) {
      AscendingSplit(s, t, LeadingBefore(s, t));
    }
  }

  /** On ascending input, a split point with earlier readings before it and a later one at it separates exactly. */
  lemma AscendingSplit(s: seq<Reading>, t: int, n: nat)
    requires AllValid(s) && Ascending(s) && n <= |s|
    requires forall j :: 0 <= j < n ==> Day(s[j]) < t
    requires n < |s| ==> Day(s[n]) >= t
    ensures forall j :: 0 <= j < |s| ==> (Day(s[j]) < t <==> j < n)
  {
    forall j | n <= j < |s| ensures Day(s[j]) >= t {
      assert Day(s[n]) <= Day(s[j]);
    }
  }

  /**
   * Nothing is found for empty input or when the first reading is not
   * earlier than the date; whatever is found is earlier than the date, and on
   * ascending input it is the last reading earlier than the date.
   */
  lemma ImmediatelyBeforeCorrect(s: seq<Reading>, t: int)
    requires AllValid(s)
    ensures ImmediatelyBefore(s, t).None? <==> (s == [] || Day(s[0]) >= t)
    ensures ImmediatelyBefore(s, t).Some? ==> ImmediatelyBefore(s, t).value in s && Day(ImmediatelyBefore(s, t).value) < t
    ensures Ascending(s) && ImmediatelyBefore(s, t).Some? ==>
      exists k :: 0 <= k < |s| && ImmediatelyBefore(s, t).value == s[k] && Day(s[k]) < t
                  && forall j :: k < j < |s| ==> Day(s[j]) >= t
  {
    LeadingBeforeCorrect(s, t);
    var n := LeadingBefore(s, t);
    if Ascending(s) && n > 0 {
      assert ImmediatelyBefore(s, t).value == s[n - 1];
    }
  }

  /** `findReadingImmediatelyBefore`: a scan that stops at the first reading not earlier than the date. */
  method FindReadingImmediatelyBefore(readings: seq<Reading>, date: Date) returns (previousReading: Option<Reading>)
    requires AllValid(readings) && ValidDate(date)
    ensures previousReading == ImmediatelyBefore(readings, DayNumber(date))
    ensures previousReading.Some? ==> Day(previousReading.value) < DayNumber(date)
  {
    previousReading := None;
    var targetTime := DayNumber(date);
    var i := 0;
    while i < |readings|
      invariant 0 <= i <= |readings|
      invariant LeadingBefore(readings, targetTime) == i + LeadingBefore(readings[i..], targetTime)
      invariant previousReading == if i == 0 then None else Some(readings[i - 1])
      invariant previousReading.Some? ==> Day(previousReading.value) < targetTime
    {
      assert readings[i..][1..] == readings[i + 1..];
      if Day(readings[i]) < targetTime {
        previousReading := Some(readings[i]);
      } else {
        break;
      }
      i := i + 1;
    }
  }
}
