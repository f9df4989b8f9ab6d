/**
 * The schedule page's state: the loaded schedules, the selected date key, the
 * viewed date and the error text, with month navigation by `setMonth`, the
 * request parameters for the viewed month, and the load outcome.
 */
module SchedulePage {
  import opened Wrappers
  import opened Gregorian
  import opened Types
  import CalendarView
  import ApiClient

  // ----- Month navigation -----

  /**
   * `newDate.setMonth(newDate.getMonth() + direction)` on a copy: the month
   * carries into the year and the day of the month is kept, rolling into the
   * next month when the target month is shorter.
   */
  function ShiftMonth(d: Date, direction: int): (r: Date)
    ensures Valid(r)
  {
    Normalize(d.year, d.month + direction, d.day)
  }

  /** The (year, month) the shift aims at. */
  function Target(d: Date, direction: int): (t: (int, int))
    ensures 0 <= t.1 < 12
    ensures t.0 * 12 + t.1 == d.year * 12 + d.month + direction
  {
    CarryMonth(d.year, d.month + direction)
  }

  /** When the day fits the target month the shift lands on that day of it. */
  lemma ShiftMonthExact(d: Date, direction: int)
    requires Valid(d)
    requires d.day <= DaysInMonth(Target(d, direction).0, Target(d, direction).1)
    ensures ShiftMonth(d, direction) == Date(Target(d, direction).0, Target(d, direction).1, d.day)
  {
    NormalizeInMonth(d.year, d.month + direction, d.day);
  }

  /** When it does not, the overflow days run into the month after the target. */
  lemma ShiftMonthOverflow(d: Date, direction: int)
    requires Valid(d)
    requires d.day > DaysInMonth(Target(d, direction).0, Target(d, direction).1)
    ensures var t := Target(d, direction);
      var n := NextMonth(t.0, t.1);
      ShiftMonth(d, direction) == Date(n.0, n.1, d.day - DaysInMonth(t.0, t.1))
  {
    var t := Target(d, direction);
    var n := NextMonth(t.0, t.1);
    assert d.day - DaysInMonth(t.0, t.1) <= 3;
    assert Roll(t.0, t.1, d.day) == Roll(n.0, n.1, d.day - DaysInMonth(t.0, t.1));
  }

  /** December forward is January of the next year; January back is December of the year before. */
  lemma ShiftMonthAcrossYears(year: int, day: int)
    requires 1 <= day <= 31
    ensures ShiftMonth(Date(year, 11, day), 1) == Date(year + 1, 0, day)
    ensures ShiftMonth(Date(year, 0, day), -1) == Date(year - 1, 11, day)
  {
    assert Target(Date(year, 11, day), 1) == (year + 1, 0);
    assert Target(Date(year, 0, day), -1) == (year - 1, 11);
  }

  /** January 31st forward lands in March: on the 2nd in a leap year, the 3rd otherwise. */
  lemma ShiftFromJanuary31(year: int)
    ensures ShiftMonth(Date(year, 0, 31), 1) == Date(year, 2, if IsLeapYear(year) then 2 else 3)
  {
    ShiftMonthOverflow(Date(year, 0, 31), 1);
  }

  /** A day that fits every month (1..28) comes back when the shift is undone. */
  lemma ShiftMonthUndo(d: Date, direction: int)
    requires Valid(d) && d.day <= 28
    ensures ShiftMonth(ShiftMonth(d, direction), -direction) == d
  {
    ShiftMonthExact(d, direction);
    var e := ShiftMonth(d, direction);
    ShiftMonthExact(e, -direction);
    MonthIndexUnique(Target(e, -direction), (d.year, d.month));
  }

  // ----- The page -----

  /** What the schedule request returned: the list, or the error it was rejected with. */
  datatype LoadResult = Loaded(results: seq<Schedule>) | Failed(error: ApiClient.ErrorInfo)

  /** The page component's state. */
  class Page {
    var schedules: seq<Schedule>
    var selectedDate: string
    var currentDate: Date
    var error: string

    ghost predicate Valid()
      reads this
    {
      Gregorian.Valid(currentDate)
    }

    /** The initial state, with the clock's date passed in as `today`. */
    constructor (today: Date)
      requires Gregorian.Valid(today)
      ensures Valid()
      ensures schedules == [] && selectedDate == CalendarView.DateKey(today)
      ensures currentDate == today && error == ""
    {
      schedules := [];
      selectedDate := CalendarView.DateKey(today);
      currentDate := today;
      error := "";
    }

    /** `{ year, month }` of the request: the full year and the 1-based month. */
    function RequestParams(): (p: (int, int))
      reads this
      requires Valid()
      ensures 1 <= p.1 <= 12
      ensures p.0 == currentDate.year && p.1 - 1 == currentDate.month
    {
      (currentDate.year, currentDate.month + 1)
    }

    /** The end of `loadSchedules`: a result replaces the list and clears the error; a rejection only sets the error. */
    method LoadSchedules(response: LoadResult)
      requires Valid()
      modifies this
      ensures Valid()
      ensures response.Loaded? ==> schedules == response.results && error == ""
      ensures response.Failed? ==> schedules == old(schedules) && error == ApiClient.GetErrorMessage(response.error)
      ensures selectedDate == old(selectedDate) && currentDate == old(currentDate)
    {
      match response
      case Loaded(results) =>
        schedules := results;
        error := "";
      case Failed(e) =>
        error := ApiClient.GetErrorMessage(e);
    }

    /** `changeMonth(direction)`: the viewed date moves by `setMonth`; nothing else changes. */
    method ChangeMonth(direction: int)
      requires Valid()
      modifies this
      ensures Valid()
      ensures currentDate == ShiftMonth(old(currentDate), direction)
      ensures schedules == old(schedules) && selectedDate == old(selectedDate) && error == old(error)
    {
      currentDate := ShiftMonth(currentDate, direction);
    }

    /** `handleDateSelect(date)`: the selected key is replaced and nothing else. */
    method HandleDateSelect(date: string)
      requires Valid()
      modifies this
      ensures Valid()
      ensures selectedDate == date
      ensures schedules == old(schedules) && currentDate == old(currentDate) && error == old(error)
    {
      selectedDate := date;
    }
  }
}
