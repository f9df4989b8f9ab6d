/**
 * The month calendar component: which schedules each cell shows, the
 * three-item cap with its "+N" counter, the cell's CSS classes, what a click
 * selects, and the navigation buttons.
 */
module CalendarView {
  import opened Wrappers
  import opened Text
  import opened Gregorian
  import opened Types
  import opened DateUtils

  // ----- Date keys -----

  /** The year as `toISOString` writes it: four digits, or a sign and six digits outside 0..9999. */
  function IsoYear(y: int): string
  {
    if 0 <= y <= 9999 then PadStart(NatToDecimal(y), 4, '0')
    else if y < 0 then "-" + PadStart(NatToDecimal(-y), 6, '0')
    else "+" + PadStart(NatToDecimal(y), 6, '0')
  }

  /** `date.toISOString().split('T')[0]` for the local date `d`: `YYYY-MM-DD`. */
  function DateKey(d: Date): string
    requires Valid(d)
  {
    IsoYear(d.year) + "-" + Pad2(d.month + 1) + "-" + Pad2(d.day)
  }

  /** Fields of widths 4, 2 and 2 joined by dashes sit at positions 0..3, 5..6 and 8..9. */
  lemma DashedFields(y: string, m: string, d: string)
    requires |y| == 4 && |m| == 2 && |d| == 2
    ensures var k := y + "-" + m + "-" + d;
      |k| == 10 && k[4] == '-' && k[7] == '-' && k[..4] == y && k[5..7] == m && k[8..] == d
  {
    var k := y + "-" + m + "-" + d;
    assert k[..4] == y;
    assert k[5..7] == m;
    assert k[8..] == d;
  }

  /** For a year in 0..9999 the key is ten characters whose three digit fields read back as the date. */
  lemma DateKeyFields(d: Date)
    requires Valid(d) && 0 <= d.year <= 9999
    ensures var k := DateKey(d);
      |k| == 10 && k[4] == '-' && k[7] == '-' &&
      AllDigits(k[..4]) && DecimalValue(k[..4]) == d.year &&
      AllDigits(k[5..7]) && DecimalValue(k[5..7]) == d.month + 1 &&
      AllDigits(k[8..]) && DecimalValue(k[8..]) == d.day
  {
    IsoYearDigits(d.year);
    Pad2Digits(d.month + 1);
    Pad2Digits(d.day);
    DashedFields(IsoYear(d.year), Pad2(d.month + 1), Pad2(d.day));
  }

  /** A year in 0..9999 is written as four digits that read back as the year. */
  lemma IsoYearDigits(y: int)
    requires 0 <= y <= 9999
    ensures |IsoYear(y)| == 4 && AllDigits(IsoYear(y)) && DecimalValue(IsoYear(y)) == y
  {
    assert Pow10(4) == 10000;
    DecimalWidth(y, 4);
    DecimalRoundTrip(y);
    PadDigitsValue(NatToDecimal(y), 4);
  }

  /** Different dates in years 0..9999 have different keys. */
  lemma DateKeyInjective(a: Date, b: Date)
    requires Valid(a) && 0 <= a.year <= 9999
    requires Valid(b) && 0 <= b.year <= 9999
    requires DateKey(a) == DateKey(b)
    ensures a == b
  {
    DateKeyFields(a);
    DateKeyFields(b);
  }

  /** In years 1000..9999 the calendar's key is the string `getTodayString` gives for the same date. */
  lemma DateKeyIsTodayString(d: Date)
    requires Valid(d) && 1000 <= d.year <= 9999
    ensures DateKey(d) == TodayString(d)
  {
    assert Pow10(3) == 1000;
    DecimalWidthAtLeast(d.year, 4);
  }

  // ----- A cell's schedules -----

  /** `getSchedulesForDate`: the schedules whose date is the key, in input order. */
  function SchedulesForDate(schedules: seq<Schedule>, key: string): (r: seq<Schedule>)
    ensures |r| <= |schedules|
    ensures forall s :: s in r ==> s in schedules && s.date == key
    ensures forall s :: s in schedules && s.date == key ==> s in r
    decreases |schedules|
  {
    if schedules == [] then []
    else (if schedules[0].date == key then [schedules[0]] else []) + SchedulesForDate(schedules[1..], key)
  }

  /** Selection distributes over concatenation, so the relative order of the input is kept. */
  lemma {:induction false} SchedulesForDateConcat(a: seq<Schedule>, b: seq<Schedule>, key: string)
    ensures SchedulesForDate(a + b, key) == SchedulesForDate(a, key) + SchedulesForDate(b, key)
    decreases |a|
  {
    if a != [] {
      assert (a + b)[1..] == a[1..] + b;
      SchedulesForDateConcat(a[1..], b, key);
    } else {
      assert a + b == b;
    }
  }

  /** A date no schedule has selects nothing. */
  lemma {:induction false} SchedulesForDateNone(schedules: seq<Schedule>, key: string)
    requires forall s :: s in schedules ==> s.date != key
    ensures SchedulesForDate(schedules, key) == []
    decreases |schedules|
  {
    if schedules != [] {
      assert schedules[0] in schedules;
      SchedulesForDateNone(schedules[1..], key);
    }
  }

  /** The schedules drawn in a cell: the first three at most. */
  function Visible(daySchedules: seq<Schedule>): (r: seq<Schedule>)
    ensures |r| <= 3 && r <= daySchedules
    ensures |daySchedules| <= 3 ==> r == daySchedules
  {
    daySchedules[..if |daySchedules| < 3 then |daySchedules| else 3]
  }

  /** The "+N" counter: present only when more than three schedules fall on the cell. */
  function MoreCount(daySchedules: seq<Schedule>): Option<int>
  {
    if |daySchedules| > 3 then Some(|daySchedules| - 3) else None
  }

  /** The drawn schedules and the counter account for every schedule of the cell. */
  lemma VisiblePlusMore(daySchedules: seq<Schedule>)
    ensures |Visible(daySchedules)| + MoreCount(daySchedules).GetOr(0) == |daySchedules|
    ensures MoreCount(daySchedules).Some? <==> |daySchedules| > 3
    ensures MoreCount(daySchedules).Some? ==> MoreCount(daySchedules).value >= 1
  {
  }

  /** `getScheduleClass`: the event's CSS class, falling back to `other`. */
  function ScheduleClass(scheduleType: string): string
  {
    match scheduleType
    case "personal" => "calendar-event personal"
    case "group" => "calendar-event group"
    case "consultation" => "calendar-event consultation"
    case _ => "calendar-event other"
  }

  /** Every schedule type's class ends with its own code. */
  lemma ScheduleClassOfType(t: ScheduleType)
    ensures ScheduleClass(t.Code()) == "calendar-event " + t.Code()
  {
  }

  // ----- Clicks and flags -----

  /** `handleDateClick`: the key passed to `onDateSelect`, or nothing for a cell of another month. */
  function HandleDateClick(cell: Cell): (r: Option<string>)
    requires Valid(cell.date)
    ensures r.Some? <==> cell.isCurrentMonth
    ensures r.Some? ==> r.value == DateKey(cell.date)
  {
    if cell.isCurrentMonth then Some(DateKey(cell.date)) else None
  }

  /** The four optional classes of a cell. */
  datatype DayFlags = DayFlags(otherMonth: bool, today: bool, selected: bool, hasEvent: bool)

  /** The flags of a cell given all schedules and the selected key. */
  function FlagsFor(cell: Cell, schedules: seq<Schedule>, selectedDate: string): (f: DayFlags)
    requires Valid(cell.date)
    ensures f.hasEvent <==> exists s :: s in schedules && s.date == DateKey(cell.date)
    ensures f.selected <==> cell.isCurrentMonth && DateKey(cell.date) == selectedDate
    ensures f.otherMonth <==> !cell.isCurrentMonth
    ensures f.today == cell.isToday
  {
    var key := DateKey(cell.date);
    var daySchedules := SchedulesForDate(schedules, key);
    assert |daySchedules| > 0 ==> daySchedules[0] in daySchedules;
    DayFlags(!cell.isCurrentMonth, cell.isToday, key == selectedDate && cell.isCurrentMonth, |daySchedules| > 0)
  }

  /** `dayClasses += ' ' + name` when the flag is on. */
  function AddClass(classes: string, on: bool, name: string): string
  {
    if on then classes + " " + name else classes
  }

  /** The class attribute, built by appending each present flag in turn. */
  function DayClasses(f: DayFlags): string
  {
    var c1 := AddClass("calendar-day", f.otherMonth, "other-month");
    var c2 := AddClass(c1, f.today, "today");
    var c3 := AddClass(c2, f.selected, "selected");
    AddClass(c3, f.hasEvent, "has-event")
  }

  /** Appending a class adds one token at the end of the space-separated list. */
  lemma AddClassToken(classes: string, on: bool, name: string)
    requires ' ' !in name
    ensures Split(AddClass(classes, on, name), ' ') == Split(classes, ' ') + (if on then [name] else [])
  {
    if on {
      assert classes + " " + name == classes + [' '] + name;
      SplitAppendField(classes, name, ' ');
    } else {
      assert Split(classes, ' ') + [] == Split(classes, ' ');
    }
  }

  /** The class list, read back as space-separated tokens, is the base class and the present flags in order. */
  lemma DayClassTokens(f: DayFlags)
    ensures Split(DayClasses(f), ' ') ==
      ["calendar-day"] +
      (if f.otherMonth then ["other-month"] else []) +
      (if f.today then ["today"] else []) +
      (if f.selected then ["selected"] else []) +
      (if f.hasEvent then ["has-event"] else [])
  {
    var c1 := AddClass("calendar-day", f.otherMonth, "other-month");
    var c2 := AddClass(c1, f.today, "today");
    var c3 := AddClass(c2, f.selected, "selected");
    SplitNoSeparator("calendar-day", ' ');
    AddClassToken("calendar-day", f.otherMonth, "other-month");
    AddClassToken(c1, f.today, "today");
    AddClassToken(c2, f.selected, "selected");
    AddClassToken(c3, f.hasEvent, "has-event");
  }

  /**
   * In a grid whose viewed year is in 0..9999 at most one cell is marked
   * selected, and only a cell of the viewed month.
   */
  lemma SelectedAtMostOnce(year: int, month: int, today: Date, schedules: seq<Schedule>, selectedDate: string)
    requires 0 <= Viewed(year, month).0 <= 9999
    ensures var g := CalendarGrid(year, month, today);
      forall i, j ::
        (0 <= i < 42 && 0 <= j < 42 &&
         FlagsFor(g[i], schedules, selectedDate).selected && FlagsFor(g[j], schedules, selectedDate).selected) ==> i == j
  {
    var g := CalendarGrid(year, month, today);
    GridShape(year, month, today);
    MonthBlock(year, month, today);
    forall i, j | 0 <= i < 42 && 0 <= j < 42 &&
        FlagsFor(g[i], schedules, selectedDate).selected && FlagsFor(g[j], schedules, selectedDate).selected
      ensures i == j
    {
      DateKeyInjective(g[i].date, g[j].date);
    }
  }

  // ----- Navigation -----

  datatype NavButton = Previous | Next

  /** The direction a navigation button reports to `onMonthChange`. */
  function Direction(b: NavButton): (d: int)
    ensures d == -1 || d == 1
    ensures d == 1 <==> b == Next
  {
    match b
    case Previous => -1
    case Next => 1
  }

  /** The grid the component draws for `currentDate`: its full year and 0-based month. */
  function CalendarFor(currentDate: Date, today: Date): (g: seq<Cell>)
    ensures |g| == 42
  {
    CalendarGrid(currentDate.year, currentDate.month, today)
  }

  /** For a real date outside years 0..99, the month block of the drawn grid is `currentDate`'s month. */
  lemma CalendarForShowsCurrentMonth(currentDate: Date, today: Date)
    requires Valid(currentDate) && !(0 <= currentDate.year <= 99)
    ensures var g := CalendarFor(currentDate, today);
      forall i :: 0 <= i < 42 && g[i].isCurrentMonth ==>
        g[i].date.year == currentDate.year && g[i].date.month == currentDate.month
  {
    var y := currentDate.year;
    var m := currentDate.month;
    assert Viewed(y, m) == (y, m);
    GridShape(y, m, today);
    MonthBlock(y, m, today);
  }
}
