/**
 * The proleptic Gregorian calendar that JavaScript's Date and Python's
 * datetime.date both follow: leap years, month lengths, the carrying of
 * out-of-range months and days that `new Date(y, m, d)` performs, day
 * numbers counted from 1970-01-01, and the day of the week.
 *
 * Months are 0-based (0 = January), as JavaScript's `getMonth()` reports them.
 */
module Gregorian {

  datatype Date = Date(year: int, month: int, day: int)

  predicate IsLeapYear(y: int)
  {
    y % 4 == 0 && (y % 100 != 0 || y % 400 == 0)
  }

  function DaysInMonth(y: int, m: int): (n: int)
    requires 0 <= m < 12
    ensures 28 <= n <= 31
    ensures m == 1 ==> (n == 29 <==> IsLeapYear(y))
  {
    if m == 1 then (if IsLeapYear(y) then 29 else 28)
    else if m == 3 || m == 5 || m == 8 || m == 10 then 30
    else 31
  }

  function YearLength(y: int): int
  {
    if IsLeapYear(y) then 366 else 365
  }

  /** A real calendar date: a month in 0..11 and a day that the month has. */
  predicate Valid(d: Date)
  {
    0 <= d.month < 12 && 1 <= d.day <= DaysInMonth(d.year, d.month)
  }

  /** Strictly earlier, comparing (year, month, day) lexicographically. */
  predicate Before(a: Date, b: Date)
  {
    a.year < b.year || (a.year == b.year && (a.month < b.month || (a.month == b.month && a.day < b.day)))
  }

  function NextMonth(y: int, m: int): (r: (int, int))
    requires 0 <= m < 12
    ensures 0 <= r.1 < 12 && r.0 * 12 + r.1 == y * 12 + m + 1
  {
    if m == 11 then (y + 1, 0) else (y, m + 1)
  }

  function PrevMonth(y: int, m: int): (r: (int, int))
    requires 0 <= m < 12
    ensures 0 <= r.1 < 12 && r.0 * 12 + r.1 == y * 12 + m - 1
  {
    if m == 0 then (y - 1, 11) else (y, m - 1)
  }

  /** Carries a month outside 0..11 into the year, as JavaScript's MakeDay does. */
  function CarryMonth(y: int, m: int): (r: (int, int))
    ensures 0 <= r.1 < 12
    ensures r.0 * 12 + r.1 == y * 12 + m
  {
    (y + m / 12, m % 12)
  }

  /** A month index determines its (year, month) pair. */
  lemma MonthIndexUnique(a: (int, int), b: (int, int))
    requires 0 <= a.1 < 12 && 0 <= b.1 < 12
    requires a.0 * 12 + a.1 == b.0 * 12 + b.1
    ensures a == b
  {
  }

  lemma CarryNext(y: int, m: int)
    ensures CarryMonth(y, m + 1) == NextMonth(CarryMonth(y, m).0, CarryMonth(y, m).1)
  {
    var c := CarryMonth(y, m);
    MonthIndexUnique(CarryMonth(y, m + 1), NextMonth(c.0, c.1));
  }

  lemma CarryPrev(y: int, m: int)
    ensures CarryMonth(y, m - 1) == PrevMonth(CarryMonth(y, m).0, CarryMonth(y, m).1)
  {
    var c := CarryMonth(y, m);
    MonthIndexUnique(CarryMonth(y, m - 1), PrevMonth(c.0, c.1));
  }

  /** Moves an out-of-range day into the previous or following months. */
  function Roll(y: int, m: int, d: int): (r: Date)
    requires 0 <= m < 12
    ensures Valid(r)
    decreases if d < 1 then 32 - d else d
  {
    if d < 1 then
      var p := PrevMonth(y, m);
      Roll(p.0, p.1, d + DaysInMonth(p.0, p.1))
    else if d > DaysInMonth(y, m) then
      var n := NextMonth(y, m);
      Roll(n.0, n.1, d - DaysInMonth(y, m))
    else
      Date(y, m, d)
  }

  /**
   * The date `new Date(y, m, d)` denotes (for a year outside 0..99): the month
   * carries into the year, then the day carries into the months around it, so
   * day 0 is the last day of the month before.
   */
  function Normalize(y: int, m: int, d: int): (r: Date)
    ensures Valid(r)
  {
    var c := CarryMonth(y, m);
    Roll(c.0, c.1, d)
  }

  /** A month already in 0..11 is not carried. */
  lemma CarryInRange(y: int, m: int)
    requires 0 <= m < 12
    ensures CarryMonth(y, m) == (y, m)
  {
    MonthIndexUnique(CarryMonth(y, m), (y, m));
  }

  /** Normalizing a real date leaves it as it is. */
  lemma NormalizeValid(d: Date)
    requires Valid(d)
    ensures Normalize(d.year, d.month, d.day) == d
  {
    CarryInRange(d.year, d.month);
  }

  // ----- Day numbers -----

  /** Leap years before y, counting from year 1 (and backwards below it). */
  function LeapYearsBefore(y: int): int
  {
    (y - 1) / 4 - (y - 1) / 100 + (y - 1) / 400
  }

  function DaysBeforeYear(y: int): int
  {
    365 * (y - 1970) + LeapYearsBefore(y) - LeapYearsBefore(1970)
  }

  function DaysBeforeMonth(y: int, m: int): int
    requires 0 <= m <= 12
    decreases m
  {
    if m == 0 then 0 else DaysBeforeMonth(y, m - 1) + DaysInMonth(y, m - 1)
  }

  /** Days from 1970-01-01 (day 0) to day d of month m of year y; d may lie outside the month. */
  function DayNumber(y: int, m: int, d: int): int
    requires 0 <= m < 12
  {
    DaysBeforeYear(y) + DaysBeforeMonth(y, m) + d - 1
  }

  function DayNumberOf(date: Date): int
    requires 0 <= date.month < 12
  {
    DayNumber(date.year, date.month, date.day)
  }

  /** Day of the week, 0 = Sunday, as `getDay()` reports it; 1970-01-01 was a Thursday. */
  function Weekday(date: Date): (w: int)
    requires 0 <= date.month < 12
    ensures 0 <= w < 7
  {
    (DayNumberOf(date) + 4) % 7
  }

  /** Stepping past a multiple of k adds one to the quotient; any other step adds nothing. */
  lemma QuotientStep(y: int, k: int)
    requires k == 4 || k == 100 || k == 400
    ensures y / k - (y - 1) / k == (if y % k == 0 then 1 else 0)
  {
  }

  lemma LeapDivisors(y: int)
    ensures y % 400 == 0 ==> y % 100 == 0
    ensures y % 100 == 0 ==> y % 4 == 0
  {
  }

  lemma LeapYearsStep(y: int)
    ensures LeapYearsBefore(y + 1) == LeapYearsBefore(y) + (if IsLeapYear(y) then 1 else 0)
  {
    QuotientStep(y, 4);
    QuotientStep(y, 100);
    QuotientStep(y, 400);
    LeapDivisors(y);
  }

  lemma YearStep(y: int)
    ensures DaysBeforeYear(y + 1) == DaysBeforeYear(y) + YearLength(y)
  {
    LeapYearsStep(y);
  }

  lemma {:induction false} MonthsOfYear(y: int)
    ensures DaysBeforeMonth(y, 12) == YearLength(y)
  {
    assert DaysBeforeMonth(y, 1) == 31;
    assert DaysBeforeMonth(y, 2) == 31 + DaysInMonth(y, 1);
    assert DaysBeforeMonth(y, 3) == 62 + DaysInMonth(y, 1);
    assert DaysBeforeMonth(y, 4) == 92 + DaysInMonth(y, 1);
    assert DaysBeforeMonth(y, 5) == 123 + DaysInMonth(y, 1);
    assert DaysBeforeMonth(y, 6) == 153 + DaysInMonth(y, 1);
    assert DaysBeforeMonth(y, 7) == 184 + DaysInMonth(y, 1);
    assert DaysBeforeMonth(y, 8) == 215 + DaysInMonth(y, 1);
    assert DaysBeforeMonth(y, 9) == 245 + DaysInMonth(y, 1);
    assert DaysBeforeMonth(y, 10) == 276 + DaysInMonth(y, 1);
    assert DaysBeforeMonth(y, 11) == 306 + DaysInMonth(y, 1);
  }

  /** The first of the next month comes as many days after the first of this month as this month has. */
  lemma FirstOfNextMonth(y: int, m: int)
    requires 0 <= m < 12
    ensures DayNumber(NextMonth(y, m).0, NextMonth(y, m).1, 1) == DayNumber(y, m, 1) + DaysInMonth(y, m)
  {
    if m == 11 {
      YearStep(y);
      MonthsOfYear(y);
    }
  }

  lemma {:induction false} RollDayNumber(y: int, m: int, d: int)
    requires 0 <= m < 12
    ensures DayNumberOf(Roll(y, m, d)) == DayNumber(y, m, d)
    decreases if d < 1 then 32 - d else d
  {
    if d < 1 {
      var p := PrevMonth(y, m);
      RollDayNumber(p.0, p.1, d + DaysInMonth(p.0, p.1));
      assert NextMonth(p.0, p.1) == (y, m);
      FirstOfNextMonth(p.0, p.1);
    } else if d > DaysInMonth(y, m) {
      var n := NextMonth(y, m);
      RollDayNumber(n.0, n.1, d - DaysInMonth(y, m));
      FirstOfNextMonth(y, m);
    }
  }

  /**
   * `Normalize(y, m, d)` is the real date lying d - 1 days after the first of
   * the carried month: JavaScript's day arithmetic.
   */
  lemma NormalizeDayNumber(y: int, m: int, d: int)
    ensures DayNumberOf(Normalize(y, m, d)) == DayNumber(CarryMonth(y, m).0, CarryMonth(y, m).1, 1) + d - 1
  {
    var c := CarryMonth(y, m);
    RollDayNumber(c.0, c.1, d);
  }

  /** Day 0 of a month is the last day of the month before it. */
  lemma DayZero(y: int, m: int)
    ensures Normalize(y, m + 1, 0) == Date(CarryMonth(y, m).0, CarryMonth(y, m).1, DaysInMonth(CarryMonth(y, m).0, CarryMonth(y, m).1))
  {
    var c := CarryMonth(y, m);
    CarryNext(y, m);
    var n := NextMonth(c.0, c.1);
    assert PrevMonth(n.0, n.1) == c;
  }

  /** A day that the carried month has is not moved. */
  lemma NormalizeInMonth(y: int, m: int, d: int)
    requires 1 <= d <= DaysInMonth(CarryMonth(y, m).0, CarryMonth(y, m).1)
    ensures Normalize(y, m, d) == Date(CarryMonth(y, m).0, CarryMonth(y, m).1, d)
  {
  }

  // ----- Order -----

  lemma {:induction false} DaysBeforeMonthGrows(y: int, m1: int, m2: int)
    requires 0 <= m1 < m2 <= 12
    ensures DaysBeforeMonth(y, m1) + DaysInMonth(y, m1) <= DaysBeforeMonth(y, m2)
    decreases m2
  {
    if m2 > m1 + 1 {
      DaysBeforeMonthGrows(y, m1, m2 - 1);
    }
  }

  lemma {:induction false} DaysBeforeYearGrows(y1: int, y2: int)
    requires y1 < y2
    ensures DaysBeforeYear(y1) + YearLength(y1) <= DaysBeforeYear(y2)
    decreases y2 - y1
  {
    YearStep(y1);
    if y2 > y1 + 1 {
      DaysBeforeYearGrows(y1 + 1, y2);
      YearStep(y1 + 1);
    }
  }

  /** A real date's day number lies within its year. */
  lemma DayNumberWithinYear(d: Date)
    requires Valid(d)
    ensures DaysBeforeYear(d.year) <= DayNumberOf(d) < DaysBeforeYear(d.year) + YearLength(d.year)
  {
    MonthsOfYear(d.year);
    DaysBeforeMonthGrows(d.year, d.month, 12);
  }

  /** Day numbers order real dates the way (year, month, day) does. */
  lemma DayNumberOrder(a: Date, b: Date)
    requires Valid(a) && Valid(b)
    ensures Before(a, b) <==> DayNumberOf(a) < DayNumberOf(b)
    ensures a == b <==> DayNumberOf(a) == DayNumberOf(b)
  {
    if Before(a, b) {
      DayNumberBefore(a, b);
    } else if Before(b, a) {
      DayNumberBefore(b, a);
    }
  }

  lemma DayNumberBefore(a: Date, b: Date)
    requires Valid(a) && Valid(b) && Before(a, b)
    ensures DayNumberOf(a) < DayNumberOf(b)
  {
    if a.year < b.year {
      DayNumberWithinYear(a);
      DayNumberWithinYear(b);
      DaysBeforeYearGrows(a.year, b.year);
    } else if a.month < b.month {
      DaysBeforeMonthGrows(a.year, a.month, b.month);
    }
  }

  /** The day after a real date falls on the next weekday. */
  lemma WeekdayOfNextDay(d: Date)
    requires Valid(d)
    ensures Weekday(Normalize(d.year, d.month, d.day + 1)) == (Weekday(d) + 1) % 7
  {
    NormalizeShift(d, 1);
    SevenStep(DayNumberOf(d));
  }

  /** Adding n to the day of a date in range moves its day number by exactly n. */
  lemma NormalizeShift(d: Date, n: int)
    requires 0 <= d.month < 12
    ensures DayNumberOf(Normalize(d.year, d.month, d.day + n)) == DayNumberOf(d) + n
  {
    NormalizeDayNumber(d.year, d.month, d.day + n);
    CarryInRange(d.year, d.month);
  }

  lemma SevenStep(n: int)
    ensures (n + 1 + 4) % 7 == ((n + 4) % 7 + 1) % 7
  {
  }

  lemma EpochIsThursday()
    ensures DayNumberOf(Date(1970, 0, 1)) == 0 && Weekday(Date(1970, 0, 1)) == 4
  {
  }
}
