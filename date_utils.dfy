/**
 * The calendar and formatting helpers of the client's date utilities: the
 * 42-cell month grid, the "time ago" buckets and the zero-padded date and
 * time strings. The clock is a parameter: `today` is the local date and
 * elapsed time is given in whole seconds.
 */
module DateUtils {
  import opened Gregorian
  import opened Text

  /** One cell of the month grid: its label, the date it stands for and its two flags. */
  datatype Cell = Cell(day: int, date: Date, isCurrentMonth: bool, isToday: bool)

  /** The year `new Date(y, m, d)` uses: 0..99 stand for 1900..1999. */
  function FullYear(y: int): int
  {
    if 0 <= y <= 99 then 1900 + y else y
  }

  /** `new Date(y, m, d)`: months and days out of range carry over. */
  function MakeDate(y: int, m: int, d: int): (r: Date)
    ensures Valid(r)
  {
    Normalize(FullYear(y), m, d)
  }

  /** The (year, month) the grid for `year`/`month` shows once the month is carried. */
  function Viewed(year: int, month: int): (r: (int, int))
    ensures 0 <= r.1 < 12
  {
    CarryMonth(FullYear(year), month)
  }

  /** `firstDay.getDay()`: how many cells come before the 1st. */
  function LeadingCount(year: int, month: int): (n: int)
    ensures 0 <= n < 7
  {
    Weekday(MakeDate(year, month, 1))
  }

  /** `lastDay.getDate()` with `lastDay = new Date(year, month + 1, 0)`. */
  function MonthLength(year: int, month: int): (n: int)
    ensures 28 <= n <= 31
  {
    MakeDate(year, month + 1, 0).day
  }

  /** `prevMonth.getDate()` with `prevMonth = new Date(year, month - 1, 0)`. */
  function PrevLength(year: int, month: int): (n: int)
    ensures 28 <= n <= 31
  {
    MakeDate(year, month - 1, 0).day
  }

  /**
   * Cell `i` of a grid whose leading labels end at `last`: the leading cells
   * are labelled `last - lead + 1 .. last` and dated by `new Date(year, month - 1, label)`,
   * then come the days of the month, then `new Date(year, month + 1, k)` for k = 1, 2, ...
   */
  function CellWith(last: int, year: int, month: int, today: Date, i: int): Cell
    requires 0 <= i < 42
  {
    var lead := LeadingCount(year, month);
    var dim := MonthLength(year, month);
    if i < lead then
      var day := last - (lead - 1 - i);
      Cell(day, MakeDate(year, month - 1, day), false, false)
    else if i < lead + dim then
      var day := i - lead + 1;
      Cell(day, MakeDate(year, month, day), true, today.year == year && today.month == month && today.day == day)
    else
      var day := i - lead - dim + 1;
      Cell(day, MakeDate(year, month + 1, day), false, false)
  }

  /** The grid as `generateCalendar` builds it: the leading labels end at `PrevLength`. */
  function CalendarGrid(year: int, month: int, today: Date): (g: seq<Cell>)
    ensures |g| == 42
  {
    seq(42, i requires 0 <= i < 42 => CellWith(PrevLength(year, month), year, month, today, i))
  }

  /** `generateCalendar(year, month)` with the clock's date passed in as `today`. */
  method GenerateCalendar(year: int, month: int, today: Date) returns (calendar: seq<Cell>)
    ensures calendar == CalendarGrid(year, month, today)
  {
    var firstDay := MakeDate(year, month, 1);
    var lastDay := MakeDate(year, month + 1, 0);
    var firstDayOfWeek := Weekday(firstDay);
    var daysInMonth := lastDay.day;
    var prevMonth := MakeDate(year, month - 1, 0);
    calendar := AddLeadingDays(year, month, today, prevMonth.day, firstDayOfWeek);
    calendar := AddMonthDays(year, month, today, calendar, firstDayOfWeek, daysInMonth);
    calendar := AddTrailingDays(year, month, today, calendar);
  }

  /** The first loop of `generateCalendar`: the leading cells, labels counting up to `prevDays`. */
  method AddLeadingDays(year: int, month: int, today: Date, prevDays: int, firstDayOfWeek: int) returns (calendar: seq<Cell>)
    requires prevDays == PrevLength(year, month) && firstDayOfWeek == LeadingCount(year, month)
    ensures calendar == CalendarGrid(year, month, today)[..firstDayOfWeek]
  {
    ghost var grid := CalendarGrid(year, month, today);
    calendar := [];
    var i := firstDayOfWeek - 1;
    while i >= 0
      invariant -1 <= i < firstDayOfWeek
      invariant |calendar| == firstDayOfWeek - 1 - i
      invariant calendar == grid[..|calendar|]
    {
      var day := prevDays - i;
      LeadCell(year, month, today, |calendar|);
      assert grid[..|calendar| + 1] == grid[..|calendar|] + [grid[|calendar|]];
      calendar := calendar + [Cell(day, MakeDate(year, month - 1, day), false, false)];
      i := i - 1;
    }
  }

  /** The second loop: days 1..daysInMonth of the month, the one equal to today's marked. */
  method AddMonthDays(year: int, month: int, today: Date, cells: seq<Cell>, firstDayOfWeek: int, daysInMonth: int)
    returns (calendar: seq<Cell>)
    requires firstDayOfWeek == LeadingCount(year, month) && daysInMonth == MonthLength(year, month)
    requires cells == CalendarGrid(year, month, today)[..firstDayOfWeek]
    ensures calendar == CalendarGrid(year, month, today)[..firstDayOfWeek + daysInMonth]
  {
    ghost var grid := CalendarGrid(year, month, today);
    calendar := cells;
    var isCurrentMonth := today.year == year && today.month == month;
    var day := 1;
    while day <= daysInMonth
      invariant 1 <= day <= daysInMonth + 1
      invariant |calendar| == firstDayOfWeek + day - 1
      invariant calendar == grid[..|calendar|]
    {
      MonthCell(year, month, today, |calendar|);
      assert grid[..|calendar| + 1] == grid[..|calendar|] + [grid[|calendar|]];
      calendar := calendar + [Cell(day, MakeDate(year, month, day), true, isCurrentMonth && today.day == day)];
      day := day + 1;
    }
  }

  /** The third loop: days of the next month until the grid holds 42 cells. */
  method AddTrailingDays(year: int, month: int, today: Date, cells: seq<Cell>) returns (calendar: seq<Cell>)
    requires cells == CalendarGrid(year, month, today)[..LeadingCount(year, month) + MonthLength(year, month)]
    ensures calendar == CalendarGrid(year, month, today)
  {
    ghost var grid := CalendarGrid(year, month, today);
    calendar := cells;
    var totalCells := 42;
    var remainingCells := totalCells - |calendar|;
    var day := 1;
    while day <= remainingCells
      invariant 1 <= day <= remainingCells + 1
      invariant |calendar| == 42 - remainingCells + day - 1
      invariant calendar == grid[..|calendar|]
    {
      TrailCell(year, month, today, |calendar|);
      assert grid[..|calendar| + 1] == grid[..|calendar|] + [grid[|calendar|]];
      calendar := calendar + [Cell(day, MakeDate(year, month + 1, day), false, false)];
      day := day + 1;
    }
    assert calendar == grid[..42];
  }

  /** A trailing cell: day `i - lead - dim + 1` of the month after. */
  lemma TrailCell(year: int, month: int, today: Date, i: int)
    requires LeadingCount(year, month) + MonthLength(year, month) <= i < 42
    ensures var day := i - LeadingCount(year, month) - MonthLength(year, month) + 1;
      CalendarGrid(year, month, today)[i] == Cell(day, MakeDate(year, month + 1, day), false, false)
  {
  }

  // ----- The shape of the grid -----

  /**
   * The leading cells number the weekday of the 1st of the viewed month, the
   * month block is as long as that month, 5 to 14 trailing cells complete the
   * six weeks, and only the month block is flagged as the current month.
   */
  lemma GridShape(year: int, month: int, today: Date)
    ensures LeadingCount(year, month) == Weekday(Date(Viewed(year, month).0, Viewed(year, month).1, 1))
    ensures MonthLength(year, month) == DaysInMonth(Viewed(year, month).0, Viewed(year, month).1)
    ensures 5 <= 42 - LeadingCount(year, month) - MonthLength(year, month) <= 14
    ensures var g := CalendarGrid(year, month, today);
      forall i :: 0 <= i < 42 ==>
        (g[i].isCurrentMonth <==> LeadingCount(year, month) <= i < LeadingCount(year, month) + MonthLength(year, month))
    ensures var g := CalendarGrid(year, month, today);
      forall i :: 0 <= i < 42 && !g[i].isCurrentMonth ==> !g[i].isToday
  {
    NormalizeInMonth(FullYear(year), month, 1);
    DayZero(FullYear(year), month);
  }

  /** February has 29 days in 2024 and 28 in 2023. */
  lemma FebruaryLengths()
    ensures MonthLength(2024, 1) == 29 && MonthLength(2023, 1) == 28
  {
    assert FullYear(2024) == 2024 && FullYear(2023) == 2023;
    assert CarryMonth(2024, 1) == (2024, 1) && CarryMonth(2023, 1) == (2023, 1);
    assert IsLeapYear(2024) && !IsLeapYear(2023);
    DayZero(2024, 1);
    DayZero(2023, 1);
  }

  /** The month block holds days 1..daysInMonth of the viewed month, in order. */
  lemma MonthBlock(year: int, month: int, today: Date)
    ensures var g := CalendarGrid(year, month, today);
      var lead := LeadingCount(year, month);
      var v := Viewed(year, month);
      forall i :: lead <= i < lead + MonthLength(year, month) ==>
        g[i] == Cell(i - lead + 1, Date(v.0, v.1, i - lead + 1), true,
                     today.year == year && today.month == month && today.day == i - lead + 1)
  {
    GridShape(year, month, today);
    var v := Viewed(year, month);
    forall k | 1 <= k <= MonthLength(year, month)
      ensures MakeDate(year, month, k) == Date(v.0, v.1, k)
    {
      NormalizeInMonth(FullYear(year), month, k);
    }
  }

  /** The trailing cells are labelled 1, 2, ... and dated in the month after the viewed one. */
  lemma TrailingBlock(year: int, month: int, today: Date)
    ensures var g := CalendarGrid(year, month, today);
      var start := LeadingCount(year, month) + MonthLength(year, month);
      var v := Viewed(year, month);
      var n := NextMonth(v.0, v.1);
      forall i :: start <= i < 42 ==> g[i] == Cell(i - start + 1, Date(n.0, n.1, i - start + 1), false, false)
  {
    GridShape(year, month, today);
    CarryNext(FullYear(year), month);
    var v := Viewed(year, month);
    var n := NextMonth(v.0, v.1);
    forall k | 1 <= k <= 14
      ensures MakeDate(year, month + 1, k) == Date(n.0, n.1, k)
    {
      NormalizeInMonth(FullYear(year), month + 1, k);
    }
  }

  /**
   * The leading labels end at the length of the month two before the viewed
   * one, and each is dated by carrying that label into the month before.
   */
  lemma LeadingBlock(year: int, month: int, today: Date)
    ensures var v := Viewed(year, month);
      var p := PrevMonth(v.0, v.1);
      var q := PrevMonth(p.0, p.1);
      PrevLength(year, month) == DaysInMonth(q.0, q.1)
    ensures var g := CalendarGrid(year, month, today);
      var lead := LeadingCount(year, month);
      var v := Viewed(year, month);
      var p := PrevMonth(v.0, v.1);
      forall i :: 0 <= i < lead ==>
        g[i] == Cell(PrevLength(year, month) - lead + 1 + i, Normalize(p.0, p.1, PrevLength(year, month) - lead + 1 + i), false, false)
  {
    var y := FullYear(year);
    CarryPrev(y, month);
    CarryPrev(y, month - 1);
    DayZero(y, month - 2);
    var p := PrevMonth(Viewed(year, month).0, Viewed(year, month).1);
    assert CarryMonth(p.0, p.1) == p;
  }

  /**
   * Only a cell of the month block can be today's, and only when `today` has
   * the viewed year and month and that cell's label as its day; so at most one cell is.
   */
  lemma TodayAtMostOnce(year: int, month: int, today: Date)
    ensures var g := CalendarGrid(year, month, today);
      forall i :: 0 <= i < 42 && g[i].isToday ==>
        g[i].isCurrentMonth && today.year == year && today.month == month && g[i].day == today.day
    ensures var g := CalendarGrid(year, month, today);
      forall i, j :: 0 <= i < 42 && 0 <= j < 42 && g[i].isToday && g[j].isToday ==> i == j
  {
  }

  /** For a year outside 0..99 and a real `today` in the viewed month, today's cell is marked. */
  lemma TodayMarked(year: int, month: int, today: Date)
    requires Valid(today) && today.year == year && today.month == month
    requires !(0 <= year <= 99)
    ensures LeadingCount(year, month) + today.day - 1 < 42
    ensures CalendarGrid(year, month, today)[LeadingCount(year, month) + today.day - 1].isToday
  {
    GridShape(year, month, today);
    assert Viewed(year, month) == (year, month);
  }

  /**
   * As written, the grid for March 2024 starts with five leading cells
   * labelled 27..31 after February's predecessor, January; label 30 is
   * carried past February's 29 days to March 1, which the month block shows
   * again two cells later.
   */
  lemma LeadingDatesRepeat(today: Date)
    ensures LeadingCount(2024, 2) == 5
    ensures var g := CalendarGrid(2024, 2, today);
      g[3] == Cell(30, Date(2024, 2, 1), false, false) &&
      g[5] == Cell(1, Date(2024, 2, 1), true, today == Date(2024, 2, 1))
  {
    March2024Lead();
    March2024Labels();
    LeadCell(2024, 2, today, 3);
    MonthCell(2024, 2, today, 5);
    February30th2024();
    assert MakeDate(2024, 2, 1) == Date(2024, 2, 1) by {
      NormalizeValid(Date(2024, 2, 1));
    }
  }

  /** `new Date(2024, 1, 30)` is March 1st: February 2024 has 29 days. */
  lemma February30th2024()
    ensures MakeDate(2024, 1, 30) == Date(2024, 2, 1)
  {
    CarryInRange(2024, 1);
    assert DaysInMonth(2024, 1) == 29;
    assert Roll(2024, 1, 30) == Roll(2024, 2, 1);
  }

  /** A leading cell: its label counts back from `PrevLength`, and it is dated in the month before. */
  lemma LeadCell(year: int, month: int, today: Date, i: int)
    requires 0 <= i < LeadingCount(year, month)
    ensures var day := PrevLength(year, month) - (LeadingCount(year, month) - 1 - i);
      CalendarGrid(year, month, today)[i] == Cell(day, MakeDate(year, month - 1, day), false, false)
  {
  }

  /** A cell of the month block: day `i - lead + 1` of the viewed month. */
  lemma MonthCell(year: int, month: int, today: Date, i: int)
    requires LeadingCount(year, month) <= i < LeadingCount(year, month) + MonthLength(year, month) && i < 42
    ensures var day := i - LeadingCount(year, month) + 1;
      CalendarGrid(year, month, today)[i] ==
        Cell(day, MakeDate(year, month, day), true, today.year == year && today.month == month && today.day == day)
  {
  }

  /** March 1st, 2024 was a Friday, so the March 2024 grid has five leading cells. */
  lemma March2024Lead()
    ensures LeadingCount(2024, 2) == 5
  {
    assert MakeDate(2024, 2, 1) == Date(2024, 2, 1) by {
      NormalizeValid(Date(2024, 2, 1));
    }
    assert DayNumber(2024, 2, 1) == 19783;
  }

  /** The grid labels of March 2024 are counted back from 31, and March has 31 days. */
  lemma March2024Labels()
    ensures PrevLength(2024, 2) == 31 && MonthLength(2024, 2) == 31
  {
    DayZero(2024, 0);
    DayZero(2024, 2);
  }

  // ----- The gap-free grid the comment at the leading block describes -----

  /** The last day of the month before the viewed one: `new Date(year, month, 0)`. */
  function LastOfPrevious(year: int, month: int): (n: int)
    ensures 28 <= n <= 31
  {
    MakeDate(year, month, 0).day
  }

  /** The grid with the leading labels ending at the last day of the previous month. */
  function CorrectedGrid(year: int, month: int, today: Date): (g: seq<Cell>)
    ensures |g| == 42
  {
    seq(42, i requires 0 <= i < 42 => CellWith(LastOfPrevious(year, month), year, month, today, i))
  }

  /** The corrected grid differs from the written one only in the leading cells. */
  lemma CorrectedAgreesAfterLead(year: int, month: int, today: Date)
    ensures forall i :: LeadingCount(year, month) <= i < 42 ==>
      CorrectedGrid(year, month, today)[i] == CalendarGrid(year, month, today)[i]
  {
  }

  /** A day carried into the month before the viewed one, counted from the viewed month's 1st. */
  lemma PreviousMonthDayNumber(year: int, month: int, d: int)
    ensures DayNumberOf(MakeDate(year, month - 1, d)) ==
      DayNumber(Viewed(year, month).0, Viewed(year, month).1, 1) - LastOfPrevious(year, month) + d - 1
  {
    var y := FullYear(year);
    var v := Viewed(year, month);
    CarryPrev(y, month);
    DayZero(y, month - 1);
    var p := PrevMonth(v.0, v.1);
    assert NextMonth(p.0, p.1) == v;
    FirstOfNextMonth(p.0, p.1);
    NormalizeDayNumber(y, month - 1, d);
  }

  /** A day of the viewed month, counted from its 1st. */
  lemma ViewedMonthDayNumber(year: int, month: int, d: int)
    ensures DayNumberOf(MakeDate(year, month, d)) == DayNumber(Viewed(year, month).0, Viewed(year, month).1, 1) + d - 1
  {
    NormalizeDayNumber(FullYear(year), month, d);
  }

  /** A day carried into the month after the viewed one, counted from the viewed month's 1st. */
  lemma NextMonthDayNumber(year: int, month: int, d: int)
    ensures DayNumberOf(MakeDate(year, month + 1, d)) ==
      DayNumber(Viewed(year, month).0, Viewed(year, month).1, 1) + MonthLength(year, month) + d - 1
  {
    var y := FullYear(year);
    var v := Viewed(year, month);
    CarryNext(y, month);
    DayZero(y, month);
    FirstOfNextMonth(v.0, v.1);
    NormalizeDayNumber(y, month + 1, d);
  }

  /** Cell i of the corrected grid is `i - lead` days after the 1st of the viewed month. */
  lemma CorrectedDayNumbers(year: int, month: int, today: Date)
    ensures var g := CorrectedGrid(year, month, today);
      var v := Viewed(year, month);
      forall i :: 0 <= i < 42 ==> Valid(g[i].date) && DayNumberOf(g[i].date) == DayNumber(v.0, v.1, 1) + i - LeadingCount(year, month)
  {
    forall i | 0 <= i < 42 {
      CorrectedDayNumberAt(year, month, today, i);
    }
  }

  lemma CorrectedDayNumberAt(year: int, month: int, today: Date, i: int)
    requires 0 <= i < 42
    ensures DayNumberOf(CorrectedGrid(year, month, today)[i].date) ==
      DayNumber(Viewed(year, month).0, Viewed(year, month).1, 1) + i - LeadingCount(year, month)
  {
    var lead := LeadingCount(year, month);
    var dim := MonthLength(year, month);
    if i < lead {
      PreviousMonthDayNumber(year, month, LastOfPrevious(year, month) - (lead - 1 - i));
    } else if i < lead + dim {
      ViewedMonthDayNumber(year, month, i - lead + 1);
    } else {
      NextMonthDayNumber(year, month, i - lead - dim + 1);
    }
  }

  /** The corrected grid has no gaps: each cell is the day after the one before it. */
  lemma CorrectedGridConsecutive(year: int, month: int, today: Date)
    ensures var g := CorrectedGrid(year, month, today);
      forall i :: 0 < i < 42 ==> DayNumberOf(g[i].date) == DayNumberOf(g[i - 1].date) + 1
  {
    CorrectedDayNumbers(year, month, today);
  }

  /** Every column of the corrected grid is the weekday of its dates. */
  lemma CorrectedGridColumns(year: int, month: int, today: Date)
    ensures var g := CorrectedGrid(year, month, today);
      forall i :: 0 <= i < 42 ==> Weekday(g[i].date) == i % 7
  {
    CorrectedDayNumbers(year, month, today);
    LeadingWeekday(year, month);
    WeekdayColumns(CorrectedGrid(year, month, today), DayNumber(Viewed(year, month).0, Viewed(year, month).1, 1),
      LeadingCount(year, month));
  }

  /** Cells counted from `lead` days before a 1st whose weekday is `lead` sit in the column of their weekday. */
  lemma WeekdayColumns(g: seq<Cell>, first: int, lead: int)
    requires |g| == 42 && lead == (first + 4) % 7
    requires forall i :: 0 <= i < 42 ==> 0 <= g[i].date.month < 12
    requires forall i :: 0 <= i < 42 ==> DayNumberOf(g[i].date) == first + i - lead
    ensures forall i :: 0 <= i < 42 ==> Weekday(g[i].date) == i % 7
  {
    forall i | 0 <= i < 42
      ensures Weekday(g[i].date) == i % 7
    {
      ColumnWeekday(first, lead, i, DayNumberOf(g[i].date));
    }
  }

  /** The number of leading cells is the weekday of the viewed month's 1st. */
  lemma LeadingWeekday(year: int, month: int)
    ensures LeadingCount(year, month) == (DayNumber(Viewed(year, month).0, Viewed(year, month).1, 1) + 4) % 7
  {
    NormalizeInMonth(FullYear(year), month, 1);
  }

  /** A day `i - lead` days after a 1st whose weekday is `lead` falls in column `i % 7`. */
  lemma ColumnWeekday(first: int, lead: int, i: int, n: int)
    requires lead == (first + 4) % 7 && n == first + i - lead
    ensures (n + 4) % 7 == i % 7
  {
    var q := (first + 4) / 7;
    assert n + 4 == 7 * q + i;
  }

  // ----- "Time ago" -----

  /** How long ago something happened, as `getTimeAgo` buckets it. */
  datatype TimeAgo = JustNow | MinutesAgo(minutes: int) | HoursAgo(hours: int) | DaysAgo(days: int) | OnDate

  /** `Math.floor((now.getTime() - date.getTime()) / 1000)` on millisecond timestamps. */
  function ElapsedSeconds(nowMs: int, thenMs: int): (s: int)
    ensures s * 1000 <= nowMs - thenMs < s * 1000 + 1000
  {
    (nowMs - thenMs) / 1000
  }

  /**
   * The bucket for `s` elapsed seconds: under a minute (negative included) is
   * "just now"; then whole minutes, hours and days, each the floor of the
   * elapsed time; from a week on the date itself.
   */
  function GetTimeAgo(s: int): (r: TimeAgo)
    ensures r == JustNow <==> s < 60
    ensures r.MinutesAgo? <==> 60 <= s < 3600
    ensures r.HoursAgo? <==> 3600 <= s < 86400
    ensures r.DaysAgo? <==> 86400 <= s < 604800
    ensures r == OnDate <==> 604800 <= s
    ensures r.MinutesAgo? ==> 1 <= r.minutes <= 59 && r.minutes * 60 <= s < r.minutes * 60 + 60
    ensures r.HoursAgo? ==> 1 <= r.hours <= 23 && r.hours * 3600 <= s < r.hours * 3600 + 3600
    ensures r.DaysAgo? ==> 1 <= r.days <= 6 && r.days * 86400 <= s < r.days * 86400 + 86400
  {
    if s < 60 then JustNow
    else if s < 3600 then MinutesAgo(s / 60)
    else if s < 86400 then HoursAgo(s / 3600)
    else if s < 604800 then DaysAgo(s / 86400)
    else OnDate
  }

  /** The text shown for a bucket; `formatted` is the locale rendering of the date. */
  function TimeAgoText(t: TimeAgo, formatted: string): string
  {
    match t
    case JustNow => "방금 전"
    case MinutesAgo(m) => IntToDecimal(m) + "분 전"
    case HoursAgo(h) => IntToDecimal(h) + "시간 전"
    case DaysAgo(d) => IntToDecimal(d) + "일 전"
    case OnDate => formatted
  }

  /** Between a minute and a week, the text starts with the count, which `parseInt` reads back. */
  lemma TimeAgoTextShowsCount(s: int, formatted: string)
    requires 60 <= s < 604800
    ensures var r := GetTimeAgo(s);
      ParseInt(TimeAgoText(r, formatted)) ==
        Int(if r.MinutesAgo? then r.minutes else if r.HoursAgo? then r.hours else r.days)
  {
    var r := GetTimeAgo(s);
    var n: nat := if r.MinutesAgo? then r.minutes else if r.HoursAgo? then r.hours else r.days;
    var unit := if r.MinutesAgo? then "분 전" else if r.HoursAgo? then "시간 전" else "일 전";
    assert TimeAgoText(r, formatted) == NatToDecimal(n) + unit;
    DecimalRoundTrip(n);
    ParseIntOfNumeral(NatToDecimal(n), unit);
  }

  // ----- Formatting -----

  /** `formatTime`: the first two colon-separated fields joined by a colon. */
  function FormatTime(t: string): string
  {
    var fields := Split(t, ':');
    fields[0] + ":" + (if |fields| >= 2 then fields[1] else "undefined")
  }

  /** An "HH:MM" string is left as it is. */
  lemma FormatTimeKeepsHourMinute(h: string, m: string)
    requires ':' !in h && ':' !in m
    ensures FormatTime(h + ":" + m) == h + ":" + m
  {
    SplitAfterField(h, m, ':');
    SplitNoSeparator(m, ':');
  }

  /** The seconds field and anything after it are dropped: "09:30:00" gives "09:30". */
  lemma FormatTimeDropsSeconds(h: string, m: string, rest: string)
    requires ':' !in h && ':' !in m
    ensures FormatTime(h + ":" + m + ":" + rest) == h + ":" + m
  {
    assert h + ":" + m + ":" + rest == h + [':'] + (m + [':'] + rest);
    SplitAfterField(h, m + [':'] + rest, ':');
    SplitAfterField(m, rest, ':');
  }

  /** Without a colon the minutes are `undefined`. */
  lemma FormatTimeWithoutColon(t: string)
    requires ':' !in t
    ensures FormatTime(t) == t + ":undefined"
  {
    SplitNoSeparator(t, ':');
  }

  /** On an input with a colon, formatting twice is formatting once. */
  lemma FormatTimeIdempotent(t: string)
    requires ':' in t
    ensures FormatTime(FormatTime(t)) == FormatTime(t)
  {
    SplitJoin(t, ':');
    SplitHasSecondField(t, ':');
    var fields := Split(t, ':');
    FormatTimeKeepsHourMinute(fields[0], fields[1]);
  }

  /** `getTodayString`: the year, then the 1-based month and the day, each padded to two digits. */
  function TodayString(today: Date): string
    requires Valid(today)
  {
    IntToDecimal(today.year) + "-" + Pad2(today.month + 1) + "-" + Pad2(today.day)
  }

  /** `getCurrentTimeString`: hours and minutes, each padded to two digits. */
  function CurrentTimeString(hours: int, minutes: int): string
    requires 0 <= hours < 24 && 0 <= minutes < 60
  {
    Pad2(hours) + ":" + Pad2(minutes)
  }

  /** A numeral contains no character other than digits. */
  lemma DigitsExclude(s: string, c: char)
    requires AllDigits(s) && !IsDigit(c)
    ensures c !in s
  {
  }

  /** Today's string has three dash-separated fields: the year and two 2-digit fields that read back. */
  lemma TodayStringFields(today: Date)
    requires Valid(today) && today.year >= 0
    ensures var f := Split(TodayString(today), '-');
      |f| == 3 && f[0] == NatToDecimal(today.year) && DecimalValue(f[0]) == today.year &&
      |f[1]| == 2 && AllDigits(f[1]) && DecimalValue(f[1]) == today.month + 1 &&
      |f[2]| == 2 && AllDigits(f[2]) && DecimalValue(f[2]) == today.day
  {
    TodayStringSplit(today);
    DecimalRoundTrip(today.year);
    Pad2Digits(today.month + 1);
    Pad2Digits(today.day);
  }

  lemma TodayStringSplit(today: Date)
    requires Valid(today) && today.year >= 0
    ensures Split(TodayString(today), '-') == [NatToDecimal(today.year), Pad2(today.month + 1), Pad2(today.day)]
  {
    var y := NatToDecimal(today.year);
    var m := Pad2(today.month + 1);
    var d := Pad2(today.day);
    Pad2Digits(today.month + 1);
    Pad2Digits(today.day);
    DigitsExclude(y, '-');
    DigitsExclude(m, '-');
    DigitsExclude(d, '-');
    ThreeFields(y, m, d, '-');
  }

  /** Three separator-free fields joined by the separator split back into those fields. */
  lemma ThreeFields(a: string, b: string, c: string, sep: char)
    requires sep !in a && sep !in b && sep !in c
    ensures Split(a + [sep] + b + [sep] + c, sep) == [a, b, c]
  {
    assert a + [sep] + b + [sep] + c == a + [sep] + (b + [sep] + c);
    SplitAfterField(a, b + [sep] + c, sep);
    SplitAfterField(b, c, sep);
    SplitNoSeparator(c, sep);
  }

  /** The current time is "HH:MM": five characters whose two digit pairs read back. */
  lemma CurrentTimeStringShape(hours: int, minutes: int)
    requires 0 <= hours < 24 && 0 <= minutes < 60
    ensures var r := CurrentTimeString(hours, minutes);
      |r| == 5 && r[2] == ':' &&
      AllDigits(r[..2]) && DecimalValue(r[..2]) == hours &&
      AllDigits(r[3..]) && DecimalValue(r[3..]) == minutes
  {
    Pad2Digits(hours);
    Pad2Digits(minutes);
    ColonSplitsPairs(Pad2(hours), Pad2(minutes));
  }

  /** Two 2-character fields joined by a colon sit at positions 0..1 and 3..4. */
  lemma ColonSplitsPairs(h: string, m: string)
    requires |h| == 2 && |m| == 2
    ensures var r := h + ":" + m;
      |r| == 5 && r[2] == ':' && r[..2] == h && r[3..] == m
  {
    var r := h + ":" + m;
    assert r[..2] == h;
    assert r[3..] == m;
  }

  /** `formatTime` leaves the current time string as it is. */
  lemma CurrentTimeStringFormatted(hours: int, minutes: int)
    requires 0 <= hours < 24 && 0 <= minutes < 60
    ensures FormatTime(CurrentTimeString(hours, minutes)) == CurrentTimeString(hours, minutes)
  {
    var h := Pad2(hours);
    var m := Pad2(minutes);
    Pad2Digits(hours);
    Pad2Digits(minutes);
    DigitsExclude(h, ':');
    DigitsExclude(m, ':');
    FormatTimeKeepsHourMinute(h, m);
  }
}
