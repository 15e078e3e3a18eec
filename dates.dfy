/**
 * Calendar dates as the engine sees them: a reading's `reading_date` is a
 * calendar day, and distances between dates are whole days.  `DayNumber`
 * numbers the days of the proleptic Gregorian calendar consecutively, so the
 * millisecond timestamps of the original (`getTime()`) become day numbers.
 */
module Dates {

  datatype Date = Date(year: int, month: int, day: int)

  predicate IsLeapYear(y: int) {
    y % 4 == 0 && (y % 100 != 0 || y % 400 == 0)
  }

  function YearLength(y: int): (n: int)
    ensures n == 365 || n == 366
  {
    if IsLeapYear(y) then 366 else 365
  }

  function DaysInMonth(y: int, m: int): int
    requires 1 <= m <= 12
  {
    if m == 2 then (if IsLeapYear(y) then 29 else 28)
    else if m == 4 || m == 6 || m == 9 || m == 11 then 30
    else 31
  }

  predicate ValidDate(d: Date) {
    1 <= d.month <= 12 && 1 <= d.day <= DaysInMonth(d.year, d.month)
  }

  /** Days of the years before `y`, counted from 1 January of year 1. */
  function DaysBeforeYear(y: int): int {
    var p := y - 1;
    365 * p + p / 4 - p / 100 + p / 400
  }

  /** Days of the months of year `y` before month `m`. */
  function DaysBeforeMonth(y: int, m: int): int
    requires 1 <= m <= 12
  {
    var common :=
      if m == 1 then 0 else if m == 2 then 31 else if m == 3 then 59
      else if m == 4 then 90 else if m == 5 then 120 else if m == 6 then 151
      else if m == 7 then 181 else if m == 8 then 212 else if m == 9 then 243
      else if m == 10 then 273 else if m == 11 then 304 else 334;
    if m > 2 && IsLeapYear(y) then common + 1 else common
  }

  /** The consecutive number of a valid date; `DayNumber(d) * 86400000` is its timestamp up to a constant. */
  function DayNumber(d: Date): int
    requires ValidDate(d)
  {
    DaysBeforeYear(d.year) + DaysBeforeMonth(d.year, d.month) + d.day - 1
  }

  /** Stepping `p` by one raises `p / d` by one exactly when `p + 1` is a multiple of `d`. */
  lemma DivStep(p: int, d: int)
    requires d == 4 || d == 100 || d == 400
    ensures (p + 1) / d == p / d + (if (p + 1) % d == 0 then 1 else 0)
  {
    var q, r := p / d, p % d;
    assert p == d * q + r && 0 <= r < d;
    if r == d - 1 {
      assert p + 1 == d * (q + 1);
    } else {
      assert p + 1 == d * q + (r + 1);
    }
  }

  lemma YearStep(y: int)
    ensures DaysBeforeYear(y + 1) - DaysBeforeYear(y) == YearLength(y)
  {
    var p := y - 1;
    DivStep(p, 4);
    DivStep(p, 100);
    DivStep(p, 400);
    assert y % 400 == 0 ==> y % 100 == 0;
    assert y % 100 == 0 ==> y % 4 == 0;
  }

  /**
   * `setFullYear(getFullYear() - 1)` on a date: the same month and day one
   * year earlier, where a 29 February that does not exist in the earlier
   * year overflows into 1 March, as the platform's date arithmetic does.
   */
  function ShiftBackOneYear(d: Date): (r: Date)
    ensures ValidDate(d) ==> ValidDate(r)
    ensures r.year == d.year - 1
  {
    if d.month == 2 && d.day == 29 && !IsLeapYear(d.year - 1) then Date(d.year - 1, 3, 1)
    else Date(d.year - 1, d.month, d.day)
  }

  /** Two consecutive years are never both leap years. */
  lemma LeapYearsApart(y: int)
    ensures !(IsLeapYear(y) && IsLeapYear(y - 1))
  {
  }

  /** From a date in January or February the shift moves back by the length of the previous year. */
  lemma ShiftEarly(d: Date)
    requires ValidDate(d) && d.month <= 2 && !(d.month == 2 && d.day == 29)
    ensures ValidDate(Date(d.year - 1, d.month, d.day))
    ensures DayNumber(d) - DayNumber(Date(d.year - 1, d.month, d.day)) == YearLength(d.year - 1)
  {
    YearStep(d.year - 1);
  }

  /** From a date after February the shift moves back by the length of the current year. */
  lemma ShiftLate(d: Date)
    requires ValidDate(d) && d.month > 2
    ensures ValidDate(Date(d.year - 1, d.month, d.day))
    ensures DayNumber(d) - DayNumber(Date(d.year - 1, d.month, d.day)) == YearLength(d.year)
  {
    YearStep(d.year - 1);
    assert DaysBeforeMonth(d.year, d.month) - DaysBeforeMonth(d.year - 1, d.month)
        == (if IsLeapYear(d.year) then 1 else 0) - (if IsLeapYear(d.year - 1) then 1 else 0);
  }

  /** 29 February lands on 1 March of the previous (common) year, 365 days earlier. */
  lemma ShiftLeapDay(d: Date)
    requires ValidDate(d) && d.month == 2 && d.day == 29
    ensures !IsLeapYear(d.year - 1)
    ensures ValidDate(Date(d.year - 1, 3, 1))
    ensures DayNumber(d) - DayNumber(Date(d.year - 1, 3, 1)) == 365
  {
    LeapYearsApart(d.year);
    YearStep(d.year - 1);
  }

  /** The shifted date is valid and lies 365 or 366 days earlier; only 29 February moves to another day of the month. */
  lemma ShiftBackOneYearBounds(d: Date)
    requires ValidDate(d)
    ensures ValidDate(ShiftBackOneYear(d))
    ensures 365 <= DayNumber(d) - DayNumber(ShiftBackOneYear(d)) <= 366
    ensures ShiftBackOneYear(d).year == d.year - 1
    ensures !(d.month == 2 && d.day == 29) ==> ShiftBackOneYear(d) == Date(d.year - 1, d.month, d.day)
    ensures d.month == 2 && d.day == 29 ==> ShiftBackOneYear(d) == Date(d.year - 1, 3, 1)
  {
    if d.month == 2 && d.day == 29 {
      ShiftLeapDay(d);
    } else if d.month <= 2 {
      ShiftEarly(d);
    } else {
      ShiftLate(d);
    }
  }
}
