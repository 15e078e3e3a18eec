/**
 * `getProcessedElectricityReadings` without its fetches: the readings of all
 * meters (oldest first, as fetched) are grouped by meter, every reading gets
 * its difference to the meter's previous reading and its year-over-year
 * comparison, and the whole list is then sorted newest first.
 */
module Processed {
  import opened Wrappers
  import opened Dates
  import opened Readings
  import opened Comparison

  /** The meter's display name, or the fallback label for an unknown or unnamed meter. */
  datatype MeterName = Named(name: string) | UnknownMeter

  /** A reading with the meter name, `difference` and `comparison` fields added. */
  datatype ProcessedReading = ProcessedReading(reading: Reading, meterName: MeterName, difference: real, comparison: Option<Comparison>)

  /** `meterMap.get(id) || 'unknown'`: an empty name falls back too. */
  function NameOf(names: map<string, string>, meterId: string): (n: MeterName)
    ensures n.Named? <==> meterId in names && names[meterId] != ""
    ensures n.Named? ==> n.name == names[meterId]
  {
    if meterId in names && names[meterId] != "" then Named(names[meterId]) else UnknownMeter
  }

  // ---------------------------------------------------------------------------
  // Grouping by meter

  /** The readings of meter `m` in input order: the list `readingsByMeter[m]` that the first loop pushes to. */
  function Group(s: seq<Reading>, m: string): (g: seq<Reading>)
    ensures |g| <= |s|
    ensures AllValid(s) ==> AllValid(g)
    ensures forall i :: 0 <= i < |g| ==> g[i].meterId == m
  {
    if s == [] then []
    else
      var g := Group(s[..|s| - 1], m);
      if s[|s| - 1].meterId == m then g + [s[|s| - 1]] else g
  }

  /** The meters in order of their first reading: the key order of `readingsByMeter`. */
  function MeterOrder(s: seq<Reading>): (ms: seq<string>)
    ensures |ms| <= |s|
    ensures forall m :: m in ms ==> exists i :: 0 <= i < |s| && s[i].meterId == m
  {
    if s == [] then []
    else
      var order := MeterOrder(s[..|s| - 1]);
      if s[|s| - 1].meterId in order then order else order + [s[|s| - 1].meterId]
  }

  predicate Distinct<T(==)>(s: seq<T>) {
    forall i, j :: 0 <= i < j < |s| ==> s[i] != s[j]
  }

  /** Every meter of the input appears once in the key order, and no other. */
  lemma {:induction false} MeterOrderCorrect(s: seq<Reading>)
    ensures Distinct(MeterOrder(s))
    ensures forall m :: m in MeterOrder(s) <==> exists i :: 0 <= i < |s| && s[i].meterId == m
  {
    if s != [] {
      var p := s[..|s| - 1];
      MeterOrderCorrect(p);
      forall m ensures (exists i :: 0 <= i < |s| && s[i].meterId == m) <==> (m in MeterOrder(p) || m == s[|s| - 1].meterId) {
        if exists i :: 0 <= i < |s| && s[i].meterId == m {
          var i :| 0 <= i < |s| && s[i].meterId == m;
          if i < |p| { assert p[i].meterId == m; }
        }
        if m in MeterOrder(p) {
          var i :| 0 <= i < |p| && p[i].meterId == m;
          assert s[i].meterId == m;
        }
      }
    }
  }

  /** A meter without readings has an empty group. */
  lemma {:induction false} GroupOfAbsentMeter(s: seq<Reading>, m: string)
    requires m !in MeterOrder(s)
    ensures Group(s, m) == []
  {
    if s != [] {
      GroupOfAbsentMeter(s[..|s| - 1], m);
    }
  }

  /** A group holds exactly the meter's readings, in the order they were given. */
  lemma {:induction false} GroupCorrect(s: seq<Reading>, m: string)
    ensures forall x :: x in Group(s, m) <==> x in s && x.meterId == m
    ensures AllValid(s) && Ascending(s) ==> Ascending(Group(s, m))
  {
    GroupMembers(s, m);
    if AllValid(s) && Ascending(s) {
      GroupAscending(s, m);
    }
  }

  lemma {:induction false} GroupMembers(s: seq<Reading>, m: string)
    ensures forall x :: x in Group(s, m) <==> x in s && x.meterId == m
  {
    if s != [] {
      var p, last := s[..|s| - 1], s[|s| - 1];
      GroupMembers(p, m);
      assert s == p + [last];
    }
  }

  lemma {:induction false} GroupAscending(s: seq<Reading>, m: string)
    requires AllValid(s) && Ascending(s)
    ensures Ascending(Group(s, m))
  {
    if s != [] {
      var p, last := s[..|s| - 1], s[|s| - 1];
      assert AllValid(p) && Ascending(p);
      GroupAscending(p, m);
      GroupMembers(p, m);
      var g := Group(s, m);
      if last.meterId == m {
        assert g == Group(p, m) + [last];
        forall i | 0 <= i < |g| - 1 ensures Day(g[i]) <= Day(last) {
          assert g[i] in Group(p, m);
          var k :| 0 <= k < |p| && p[k] == g[i];
          assert s[k] == g[i];
        }
      }
    }
  }

  // ---------------------------------------------------------------------------
  // Per-meter enrichment

  /** The processed record of the `i`-th reading of one meter's group. */
  function Enrich(g: seq<Reading>, i: nat, names: map<string, string>): (r: ProcessedReading)
    requires AllValid(g) && i < |g|
    ensures r.reading == g[i] && r.meterName == NameOf(names, g[i].meterId)
    ensures i == 0 ==> r.difference == 0.0 && r.comparison == None
    ensures i > 0 ==> g[i - 1].value + r.difference == g[i].value
  {
    var difference := if i > 0 then g[i].value - g[i - 1].value else 0.0;
    var comparison := if i > 0 then CompareToLastYear(g, g[i - 1], g[i]) else None;
    ProcessedReading(g[i], NameOf(names, g[i].meterId), difference, comparison)
  }

  /** One meter's processed records: one per reading, in the group's order, named after the meter. */
  function EnrichGroup(g: seq<Reading>, names: map<string, string>): (r: seq<ProcessedReading>)
    requires AllValid(g)
    ensures |r| == |g| && ReadingsOf(r) == g
  {
    var r := seq(|g|, i requires 0 <= i < |g| => Enrich(g, i, names));
    assert ReadingsOf(r) == g by {
      assert forall i :: 0 <= i < |g| ==> r[i].reading == g[i];
    }
    r
  }

  lemma EnrichGroupAt(g: seq<Reading>, names: map<string, string>, i: nat)
    requires AllValid(g) && i < |g|
    ensures EnrichGroup(g, names)[i] == Enrich(g, i, names)
  {
  }

  /**
   * The first record of a meter has difference 0 and no comparison, every
   * later one the unclamped difference to its predecessor in the group and
   * the comparison of that period; all carry the meter's name.
   */
  lemma EnrichGroupFields(g: seq<Reading>, names: map<string, string>)
    requires AllValid(g)
    ensures var r := EnrichGroup(g, names);
      && (forall i :: 0 <= i < |g| ==> r[i].reading == g[i] && r[i].meterName == NameOf(names, g[i].meterId))
      && (|g| > 0 ==> r[0].difference == 0.0 && r[0].comparison == None)
      && (forall i :: 0 < i < |g| ==>
            r[i].difference == g[i].value - g[i - 1].value && r[i].comparison == CompareToLastYear(g, g[i - 1], g[i]))
  {
    forall i | 0 <= i < |g| ensures EnrichGroup(g, names)[i] == Enrich(g, i, names) {
      EnrichGroupAt(g, names, i);
    }
  }

  /** The original readings behind processed records. */
  function ReadingsOf(p: seq<ProcessedReading>): (s: seq<Reading>)
    ensures |s| == |p| && forall i :: 0 <= i < |p| ==> s[i] == p[i].reading
  {
    seq(|p|, i requires 0 <= i < |p| => p[i].reading)
  }

  lemma ReadingsOfConcat(a: seq<ProcessedReading>, b: seq<ProcessedReading>)
    ensures ReadingsOf(a + b) == ReadingsOf(a) + ReadingsOf(b)
  {
    assert forall i :: 0 <= i < |a + b| ==> ReadingsOf(a + b)[i] == (ReadingsOf(a) + ReadingsOf(b))[i];
  }

  /** The groups of the meters `ms`, one after the other. */
  function GroupsConcat(s: seq<Reading>, ms: seq<string>): seq<Reading> {
    if ms == [] then [] else GroupsConcat(s, ms[..|ms| - 1]) + Group(s, ms[|ms| - 1])
  }

  /** The processed records of the meters `ms`, one meter after the other: `processedReadings` before sorting. */
  function EnrichMeters(s: seq<Reading>, names: map<string, string>, ms: seq<string>): (r: seq<ProcessedReading>)
    requires AllValid(s)
    ensures ReadingsOf(r) == GroupsConcat(s, ms)
  {
    if ms == [] then []
    else
      var prev := EnrichMeters(s, names, ms[..|ms| - 1]);
      var next := EnrichGroup(Group(s, ms[|ms| - 1]), names);
      ReadingsOfConcat(prev, next);
      prev + next
  }

  /** All processed records in the order the loops produce them. */
  function Unsorted(s: seq<Reading>, names: map<string, string>): seq<ProcessedReading>
    requires AllValid(s)
  {
    EnrichMeters(s, names, MeterOrder(s))
  }

  /** Adding one reading adds it to the concatenated groups of distinct meters iff its meter is among them. */
  lemma {:induction false} GroupsConcatSnoc(s: seq<Reading>, x: Reading, ms: seq<string>)
    requires Distinct(ms)
    ensures multiset(GroupsConcat(s + [x], ms))
         == multiset(GroupsConcat(s, ms)) + (if x.meterId in ms then multiset{x} else multiset{})
  {
    if ms != [] {
      var front, m := ms[..|ms| - 1], ms[|ms| - 1];
      GroupsConcatSnoc(s, x, front);
      assert (s + [x])[..|s + [x]| - 1] == s;
      assert x.meterId in ms <==> x.meterId in front || x.meterId == m;
      assert m !in front;
    }
  }

  lemma {:induction false} GroupsConcatOfEmpty(ms: seq<string>)
    ensures GroupsConcat([], ms) == []
  {
    if ms != [] { GroupsConcatOfEmpty(ms[..|ms| - 1]); }
  }

  /** The groups of distinct meters covering every reading's meter are a permutation of the readings. */
  lemma {:induction false} GroupsConcatPermutation(s: seq<Reading>, ms: seq<string>)
    requires Distinct(ms)
    requires forall i :: 0 <= i < |s| ==> s[i].meterId in ms
    ensures multiset(GroupsConcat(s, ms)) == multiset(s)
  {
    if s == [] {
      GroupsConcatOfEmpty(ms);
    } else {
      var p, x := s[..|s| - 1], s[|s| - 1];
      GroupsConcatPermutation(p, ms);
      GroupsConcatSnoc(p, x, ms);
      assert p + [x] == s;
    }
  }

  // ---------------------------------------------------------------------------
  // Sorting newest first

  predicate AllValidProcessed(p: seq<ProcessedReading>) {
    forall i :: 0 <= i < |p| ==> ValidDate(p[i].reading.date)
  }

  function PDay(x: ProcessedReading): int
    requires ValidDate(x.reading.date)
  {
    DayNumber(x.reading.date)
  }

  predicate SortedNewestFirst(p: seq<ProcessedReading>)
    requires AllValidProcessed(p)
  {
    forall i, j :: 0 <= i < j < |p| ==> PDay(p[i]) >= PDay(p[j])
  }

  /** Inserts `x` before the first record that is not newer than it. */
  function Insert(x: ProcessedReading, t: seq<ProcessedReading>): (r: seq<ProcessedReading>)
    requires ValidDate(x.reading.date) && AllValidProcessed(t)
    ensures |r| == |t| + 1 && AllValidProcessed(r)
  {
    if t == [] || PDay(x) >= PDay(t[0]) then [x] + t
    else [t[0]] + Insert(x, t[1..])
  }

  /** Inserting adds exactly `x` to the records. */
  lemma {:induction false} InsertMultiset(x: ProcessedReading, t: seq<ProcessedReading>)
    requires ValidDate(x.reading.date) && AllValidProcessed(t)
    ensures multiset(Insert(x, t)) == multiset(t) + multiset{x}
  {
    if !(t == [] || PDay(x) >= PDay(t[0])) {
      InsertMultiset(x, t[1..]);
      assert t == [t[0]] + t[1..];
    }
  }

  lemma {:induction false} InsertReadings(x: ProcessedReading, t: seq<ProcessedReading>)
    requires ValidDate(x.reading.date) && AllValidProcessed(t)
    ensures multiset(ReadingsOf(Insert(x, t))) == multiset(ReadingsOf(t)) + multiset{x.reading}
  {
    if t == [] || PDay(x) >= PDay(t[0]) {
      ReadingsOfConcat([x], t);
      assert ReadingsOf([x]) == [x.reading];
    } else {
      var head, tail := t[0], t[1..];
      var rest := Insert(x, tail);
      InsertReadings(x, tail);
      assert t == [head] + tail;
      ReadingsOfConcat([head], tail);
      ReadingsOfConcat([head], rest);
      assert ReadingsOf([head]) == [head.reading];
      assert Insert(x, t) == [head] + rest;
    }
  }

  /**
   * `processedReadings.sort((a, b) => b - a)` on the reading dates: the
   * runtime's sort is stable, modelled here as an insertion sort that keeps
   * records of the same day in their order.
   */
  function SortNewestFirst(p: seq<ProcessedReading>): (r: seq<ProcessedReading>)
    requires AllValidProcessed(p)
    ensures |r| == |p| && AllValidProcessed(r)
  {
    if p == [] then [] else Insert(p[0], SortNewestFirst(p[1..]))
  }

  lemma ReadingsOfCons(p: seq<ProcessedReading>)
    requires p != []
    ensures multiset(ReadingsOf(p)) == multiset(ReadingsOf(p[1..])) + multiset{p[0].reading}
  {
    assert p == [p[0]] + p[1..];
    ReadingsOfConcat([p[0]], p[1..]);
    assert ReadingsOf([p[0]]) == [p[0].reading];
  }

  lemma SortNewestFirstStep(p: seq<ProcessedReading>)
    requires AllValidProcessed(p) && p != []
    ensures multiset(ReadingsOf(SortNewestFirst(p))) == multiset(ReadingsOf(SortNewestFirst(p[1..]))) + multiset{p[0].reading}
  {
    InsertReadings(p[0], SortNewestFirst(p[1..]));
  }

  /** Sorting moves records, and so the readings behind them, without adding or dropping any. */
  lemma {:induction false} SortNewestFirstReadings(p: seq<ProcessedReading>)
    requires AllValidProcessed(p)
    ensures multiset(ReadingsOf(SortNewestFirst(p))) == multiset(ReadingsOf(p))
  {
    if p != [] {
      SortNewestFirstReadings(p[1..]);
      SortNewestFirstStep(p);
      ReadingsOfCons(p);
    }
  }

  lemma SortedTail(t: seq<ProcessedReading>)
    requires AllValidProcessed(t) && SortedNewestFirst(t) && t != []
    ensures AllValidProcessed(t[1..]) && SortedNewestFirst(t[1..])
  {
    var tail := t[1..];
    forall i, j | 0 <= i < j < |tail| ensures PDay(tail[i]) >= PDay(tail[j]) {
      assert tail[i] == t[i + 1] && tail[j] == t[j + 1];
    }
  }

  /** A bound on the days of `x` and of every record of `t` bounds every record of `Insert(x, t)`. */
  lemma {:induction false} InsertBounded(x: ProcessedReading, t: seq<ProcessedReading>, b: int)
    requires ValidDate(x.reading.date) && AllValidProcessed(t)
    requires PDay(x) <= b && forall k :: 0 <= k < |t| ==> PDay(t[k]) <= b
    ensures forall j :: 0 <= j < |Insert(x, t)| ==> PDay(Insert(x, t)[j]) <= b
  {
    if !(t == [] || PDay(x) >= PDay(t[0])) {
      var tail := t[1..];
      assert forall k :: 0 <= k < |tail| ==> tail[k] == t[k + 1];
      InsertBounded(x, tail, b);
    }
  }

  lemma {:induction false} InsertSorted(x: ProcessedReading, t: seq<ProcessedReading>)
    requires ValidDate(x.reading.date) && AllValidProcessed(t) && SortedNewestFirst(t)
    ensures SortedNewestFirst(Insert(x, t))
  {
    if !(t == [] || PDay(x) >= PDay(t[0])) {
      var head, tail := t[0], t[1..];
      SortedTail(t);
      InsertSorted(x, tail);
      var rest := Insert(x, tail);
      var r := Insert(x, t);
      assert r == [head] + rest;
      assert forall k :: 0 <= k < |tail| ==> PDay(tail[k]) <= PDay(head) by {
        forall k | 0 <= k < |tail| ensures PDay(tail[k]) <= PDay(head) {
          assert tail[k] == t[k + 1];
        }
      }
      InsertBounded(x, tail, PDay(head));
      forall i, j | 0 <= i < j < |r| ensures PDay(r[i]) >= PDay(r[j]) {
        assert r[j] == rest[j - 1];
        if i > 0 {
          assert r[i] == rest[i - 1];
        }
      }
    }
  }

  /** The sorted list is newest first. */
  lemma {:induction false} SortNewestFirstSorted(p: seq<ProcessedReading>)
    requires AllValidProcessed(p)
    ensures SortedNewestFirst(SortNewestFirst(p))
  {
    if p != [] {
      SortNewestFirstSorted(p[1..]);
      InsertSorted(p[0], SortNewestFirst(p[1..]));
    }
  }

  /** The records of day `d`, in order. */
  function OnDay(p: seq<ProcessedReading>, d: int): seq<ProcessedReading>
    requires AllValidProcessed(p)
  {
    if p == [] then []
    else (if PDay(p[0]) == d then [p[0]] else []) + OnDay(p[1..], d)
  }

  lemma OnDayCons(x: ProcessedReading, p: seq<ProcessedReading>, d: int)
    requires ValidDate(x.reading.date) && AllValidProcessed(p)
    ensures AllValidProcessed([x] + p)
    ensures OnDay([x] + p, d) == (if PDay(x) == d then [x] else []) + OnDay(p, d)
  {
    assert ([x] + p)[1..] == p;
  }

  /** Inserting a record of day `d` puts it ahead of the records of that day already present. */
  lemma {:induction false} InsertOnDay(x: ProcessedReading, t: seq<ProcessedReading>, d: int)
    requires ValidDate(x.reading.date) && AllValidProcessed(t)
    ensures OnDay(Insert(x, t), d) == (if PDay(x) == d then [x] else []) + OnDay(t, d)
  {
    if t == [] || PDay(x) >= PDay(t[0]) {
      OnDayCons(x, t, d);
    } else {
      var head, tail := t[0], t[1..];
      assert t == [head] + tail;
      InsertOnDay(x, tail, d);
      OnDayCons(head, Insert(x, tail), d);
      OnDayCons(head, tail, d);
    }
  }

  /** Stability: the records of any one day keep their relative order. */
  lemma {:induction false} SortNewestFirstStable(p: seq<ProcessedReading>, d: int)
    requires AllValidProcessed(p)
    ensures OnDay(SortNewestFirst(p), d) == OnDay(p, d)
  {
    if p != [] {
      SortNewestFirstStable(p[1..], d);
      InsertOnDay(p[0], SortNewestFirst(p[1..]), d);
    }
  }

  // ---------------------------------------------------------------------------
  // The whole computation

  /** The unsorted records hold every input reading exactly once. */
  lemma UnsortedPermutation(s: seq<Reading>, names: map<string, string>)
    requires AllValid(s)
    ensures multiset(ReadingsOf(Unsorted(s, names))) == multiset(s)
    ensures AllValidProcessed(Unsorted(s, names))
  {
    MeterOrderCorrect(s);
    forall i | 0 <= i < |s| ensures s[i].meterId in MeterOrder(s) { }
    GroupsConcatPermutation(s, MeterOrder(s));
    var u := Unsorted(s, names);
    forall x | x in u ensures ValidDate(x.reading.date) {
      var i :| 0 <= i < |u| && u[i] == x;
      assert ReadingsOf(u)[i] == x.reading;
      assert x.reading in multiset(s);
    }
  }

  /** The `forEach` that pushes every reading onto its meter's list in `readingsByMeter`. */
  method GroupByMeter(allReadings: seq<Reading>) returns (readingsByMeter: map<string, seq<Reading>>, meterIds: seq<string>)
    ensures meterIds == MeterOrder(allReadings)
    ensures forall m :: m in readingsByMeter <==> m in meterIds
    ensures forall m :: m in readingsByMeter ==> readingsByMeter[m] == Group(allReadings, m)
  {
    readingsByMeter, meterIds := map[], [];
    for i := 0 to |allReadings|
      invariant meterIds == MeterOrder(allReadings[..i])
      invariant forall m :: m in readingsByMeter <==> m in meterIds
      invariant forall m :: m in readingsByMeter ==> readingsByMeter[m] == Group(allReadings[..i], m)
    {
      var reading := allReadings[i];
      assert allReadings[..i + 1][..i] == allReadings[..i];
      if reading.meterId !in readingsByMeter {
        GroupOfAbsentMeter(allReadings[..i], reading.meterId);
        readingsByMeter := readingsByMeter[reading.meterId := []];
        meterIds := meterIds + [reading.meterId];
      }
      readingsByMeter := readingsByMeter[reading.meterId := readingsByMeter[reading.meterId] + [reading]];
    }
    assert allReadings[..|allReadings|] == allReadings;
  }

  lemma PrefixStep<T>(s: seq<T>, i: nat)
    requires i < |s|
    ensures s[..i + 1] == s[..i] + [s[i]]
  {
  }

  /** The body of the inner loop: the record of the `i`-th reading of one meter. */
  method ProcessReading(meterReadings: seq<Reading>, meterNames: map<string, string>, i: nat)
    returns (record: ProcessedReading)
    requires AllValid(meterReadings) && i < |meterReadings|
    ensures record == Enrich(meterReadings, i, meterNames)
  {
    var currentReading := meterReadings[i];
    var difference := 0.0;
    var comparisonResult := None;
    if i > 0 {
      var previousReading := meterReadings[i - 1];
      difference := currentReading.value - previousReading.value;
      comparisonResult := ComputeComparison(meterReadings, previousReading, currentReading);
    }
    record := ProcessedReading(currentReading, NameOf(meterNames, currentReading.meterId), difference, comparisonResult);
  }

  /** The inner loop over one meter's readings: difference and comparison for each. */
  method ProcessMeterReadings(meterReadings: seq<Reading>, meterNames: map<string, string>)
    returns (records: seq<ProcessedReading>)
    requires AllValid(meterReadings)
    ensures records == EnrichGroup(meterReadings, meterNames)
  {
    ghost var expected := EnrichGroup(meterReadings, meterNames);
    records := [];
    for i := 0 to |meterReadings|
      invariant records == expected[..i]
    {
      var record := ProcessReading(meterReadings, meterNames, i);
      EnrichGroupAt(meterReadings, meterNames, i);
      PrefixStep(expected, i);
      records := records + [record];
    }
    assert expected[..|meterReadings|] == expected;
  }

  lemma EnrichMetersStep(s: seq<Reading>, names: map<string, string>, ms: seq<string>, k: nat)
    requires AllValid(s) && k < |ms|
    ensures EnrichMeters(s, names, ms[..k + 1]) == EnrichMeters(s, names, ms[..k]) + EnrichGroup(Group(s, ms[k]), names)
  {
    assert ms[..k + 1][..k] == ms[..k];
  }

  /** The two loops over the meters and their readings, before the sort. */
  method ProcessAllMeters(allReadings: seq<Reading>, meterNames: map<string, string>)
    returns (unsorted: seq<ProcessedReading>)
    requires AllValid(allReadings)
    ensures unsorted == Unsorted(allReadings, meterNames)
  {
    var readingsByMeter, meterIds := GroupByMeter(allReadings);
    unsorted := [];
    for k := 0 to |meterIds|
      invariant unsorted == EnrichMeters(allReadings, meterNames, meterIds[..k])
    {
      var meterId := meterIds[k];
      assert meterId in readingsByMeter && readingsByMeter[meterId] == Group(allReadings, meterId);
      EnrichMetersStep(allReadings, meterNames, meterIds, k);
      var records := ProcessMeterReadings(readingsByMeter[meterId], meterNames);
      unsorted := unsorted + records;
    }
    assert meterIds[..|meterIds|] == meterIds;
  }

  /**
   * The processed list holds one record per reading, every reading exactly
   * once, newest first.
   */
  lemma ProcessedResult(s: seq<Reading>, names: map<string, string>)
    requires AllValid(s)
    ensures AllValidProcessed(Unsorted(s, names))
    ensures var r := SortNewestFirst(Unsorted(s, names));
      && |r| == |s|
      && multiset(ReadingsOf(r)) == multiset(s)
      && AllValidProcessed(r) && SortedNewestFirst(r)
  {
    UnsortedPermutation(s, names);
    var r := SortNewestFirst(Unsorted(s, names));
    SortNewestFirstReadings(Unsorted(s, names));
    SortNewestFirstSorted(Unsorted(s, names));
    assert |r| == |ReadingsOf(r)| == |multiset(ReadingsOf(r))|;
    assert |multiset(s)| == |s|;
  }

  /**
   * `getProcessedElectricityReadings` after its fetches: `allReadings` is
   * every reading oldest first and `meterNames` maps meter ids to names.
   * Every reading appears exactly once in the result, which is newest first.
   */
  method GetProcessedElectricityReadings(allReadings: seq<Reading>, meterNames: map<string, string>)
    returns (processedReadings: seq<ProcessedReading>)
    requires AllValid(allReadings)
    ensures AllValidProcessed(Unsorted(allReadings, meterNames))
    ensures processedReadings == SortNewestFirst(Unsorted(allReadings, meterNames))
    ensures |processedReadings| == |allReadings|
    ensures multiset(ReadingsOf(processedReadings)) == multiset(allReadings)
    ensures AllValidProcessed(processedReadings) && SortedNewestFirst(processedReadings)
  {
    var unsorted := ProcessAllMeters(allReadings, meterNames);
    ProcessedResult(allReadings, meterNames);
    processedReadings := SortNewestFirst(unsorted);
  }
}
