/** A meter reading as the store returns it (a row of `electricity_readings`). */
module Readings {
  import opened Dates

  /** `value` is the cumulative meter value in kWh; the engine never assumes it grows. */
  datatype Reading = Reading(id: string, meterId: string, date: Date, value: real)

  /** Readings whose dates are real calendar dates, as the store only holds such. */
  predicate AllValid(s: seq<Reading>) {
    forall i :: 0 <= i < |s| ==> ValidDate(s[i].date)
  }

  /** The day number of a reading's date. */
  function Day(r: Reading): int
    requires ValidDate(r.date)
  {
    DayNumber(r.date)
  }

  /** Oldest first, as `.order('reading_date', { ascending: true })` delivers. */
  predicate Ascending(s: seq<Reading>)
    requires AllValid(s)
  {
    forall i, j :: 0 <= i < j < |s| ==> Day(s[i]) <= Day(s[j])
  }

  /** Newest first, as `.order('reading_date', { ascending: false })` delivers. */
  predicate Descending(s: seq<Reading>)
    requires AllValid(s)
  {
    forall i, j :: 0 <= i < j < |s| ==> Day(s[i]) >= Day(s[j])
  }

  /** The sequence in the opposite order. */
  function Reverse<T>(s: seq<T>): (r: seq<T>)
    ensures |r| == |s|
    ensures forall i :: 0 <= i < |s| ==> r[i] == s[|s| - 1 - i]
  {
    seq(|s|, i requires 0 <= i < |s| => s[|s| - 1 - i])
  }

  lemma ReverseValid(s: seq<Reading>)
    requires AllValid(s)
    ensures AllValid(Reverse(s))
  {
  }

  /** Reversing the store's newest-first order gives the oldest-first order. */
  lemma ReverseOfDescending(s: seq<Reading>)
    requires AllValid(s) && Descending(s)
    ensures AllValid(Reverse(s)) && Ascending(Reverse(s))
    ensures multiset(Reverse(s)) == multiset(s)
  {
    var r := Reverse(s);
    forall i, j | 0 <= i < j < |r| ensures Day(r[i]) <= Day(r[j]) {
      assert r[i] == s[|s| - 1 - i] && r[j] == s[|s| - 1 - j];
    }
    ReverseMultiset(s);
  }

  lemma {:induction false} ReverseMultiset<T>(s: seq<T>)
    ensures multiset(Reverse(s)) == multiset(s)
  {
    if s != [] {
      var t := s[1..];
      ReverseMultiset(t);
      assert Reverse(s) == Reverse(t) + [s[0]];
      assert s == [s[0]] + t;
    }
  }
}
