/**
 * The REST views' own logic: the schedule list's optional query filters, the
 * `today` and `upcoming` listings, the `join` action on a schedule's member
 * set, and the `is_active` filter of the member and membership lists.
 * The database is a sequence of rows; `date.today()` is a parameter.
 */
module ApiViews {
  import opened Wrappers
  import opened Text
  import opened Gregorian
  import opened Types
  import opened ScheduleModel
  import CalendarView

  // ----- Query parameters -----

  /** A parameter that is present and non-empty: the `if param:` test. */
  predicate Given(params: map<string, string>, key: string)
  {
    key in params && params[key] != ""
  }

  /** A `%d` field: one or two digits, or a space followed by one digit. */
  predicate DayField(t: string)
  {
    (1 <= |t| <= 2 && AllDigits(t)) || (|t| == 2 && t[0] == ' ' && IsDigit(t[1]))
  }

  function DayValue(t: string): nat
    requires DayField(t)
  {
    if t[0] == ' ' then DecimalValue(t[1..]) else DecimalValue(t)
  }

  /**
   * `datetime.strptime(s, '%Y-%m-%d').date()`: exactly four digits of year,
   * one or two of month, one or two of day or a space and one digit,
   * separated by dashes, naming a real date in years 1..9999; anything else
   * is a ValueError, modelled as None.
   */
  function ParseIsoDate(s: string): (r: Option<Date>)
    ensures r.Some? ==> Valid(r.value) && 1 <= r.value.year <= 9999
  {
    var f := Split(s, '-');
    if |f| == 3 && |f[0]| == 4 && AllDigits(f[0]) && 1 <= |f[1]| <= 2 && AllDigits(f[1]) && DayField(f[2])
    then
      var y := DecimalValue(f[0]);
      var m := DecimalValue(f[1]);
      var d := DayValue(f[2]);
      DecimalBelow(f[0]);
      assert Pow10(4) == 10000;
      if 1 <= y && 1 <= m <= 12 && 1 <= d <= DaysInMonth(y, m - 1) then Some(Date(y, m - 1, d)) else None
    else None
  }

  /** A dashed key of widths 4, 2 and 2 splits into its three digit fields. */
  lemma SplitDashedKey(k: string)
    requires |k| == 10 && k[4] == '-' && k[7] == '-'
    requires AllDigits(k[..4]) && AllDigits(k[5..7]) && AllDigits(k[8..])
    ensures Split(k, '-') == [k[..4], k[5..7], k[8..]]
  {
    var t := k[5..];
    assert k == k[..4] + ['-'] + t;
    assert t == k[5..7] + ['-'] + k[8..];
    assert '-' !in k[..4] by {
      assert forall i :: 0 <= i < 4 ==> IsDigit(k[..4][i]);
    }
    assert '-' !in k[5..7] by {
      assert forall i :: 0 <= i < 2 ==> IsDigit(k[5..7][i]);
    }
    assert '-' !in k[8..] by {
      assert forall i :: 0 <= i < 2 ==> IsDigit(k[8..][i]);
    }
    SplitAfterField(k[..4], t, '-');
    SplitAfterField(k[5..7], k[8..], '-');
    SplitNoSeparator(k[8..], '-');
  }

  /** The date filter reads back every key the calendar sends, for the years Python's dates cover. */
  lemma ParseIsoDateOfKey(d: Date)
    requires Valid(d) && 1 <= d.year <= 9999
    ensures ParseIsoDate(CalendarView.DateKey(d)) == Some(d)
  {
    CalendarView.DateKeyFields(d);
    ParseDashedKey(CalendarView.DateKey(d), d);
  }

  lemma ParseDashedKey(k: string, d: Date)
    requires Valid(d) && 1 <= d.year
    requires |k| == 10 && k[4] == '-' && k[7] == '-'
    requires AllDigits(k[..4]) && DecimalValue(k[..4]) == d.year
    requires AllDigits(k[5..7]) && DecimalValue(k[5..7]) == d.month + 1
    requires AllDigits(k[8..]) && DecimalValue(k[8..]) == d.day
    ensures ParseIsoDate(k) == Some(d)
  {
    SplitDashedKey(k);
    assert IsDigit(k[8..][0]);
  }

  /** A dashed key whose day field is a space and one digit parses to its date. */
  lemma ParseSpacedDayKey(k: string, d: Date)
    requires Valid(d) && 1 <= d.year
    requires |k| == 10 && k[4] == '-' && k[7] == '-' && k[8] == ' ' && IsDigit(k[9])
    requires AllDigits(k[..4]) && DecimalValue(k[..4]) == d.year
    requires AllDigits(k[5..7]) && DecimalValue(k[5..7]) == d.month + 1
    requires DecimalValue(k[9..]) == d.day
    ensures ParseIsoDate(k) == Some(d)
  {
    var t := k[5..];
    assert k == k[..4] + ['-'] + t;
    assert t == k[5..7] + ['-'] + k[8..];
    assert '-' !in k[..4] by {
      assert forall i :: 0 <= i < 4 ==> IsDigit(k[..4][i]);
    }
    assert '-' !in k[5..7] by {
      assert forall i :: 0 <= i < 2 ==> IsDigit(k[5..7][i]);
    }
    assert k[8..] == [' ', k[9]];
    SplitAfterField(k[..4], t, '-');
    SplitAfterField(k[5..7], k[8..], '-');
    SplitNoSeparator(k[8..], '-');
    assert k[8..][1..] == k[9..];
  }

  /** `%d` also reads a space-padded day: "2024-03- 5" is March 5, 2024. */
  lemma ParseIsoDateSpacedDay()
    ensures ParseIsoDate("2024-03- 5") == Some(Date(2024, 2, 5))
  {
    var k := "2024-03- 5";
    assert k[..4] == "2024" && k[5..7] == "03" && k[9..] == "5";
    assert DecimalValue("2024") == 2024 by {
      assert "2024"[..3] == "202" && "202"[..2] == "20" && "20"[..1] == "2" && "2"[..0] == [];
    }
    assert DecimalValue("03") == 3 by {
      assert "03"[..1] == "0" && "0"[..0] == [];
    }
    assert DecimalValue("5") == 5 by {
      assert "5"[..0] == [];
    }
    ParseSpacedDayKey(k, Date(2024, 2, 5));
  }

  /** A date that parses is the text of its three dash-separated fields, which read as its year, 1-based month and (possibly space-padded) day. */
  lemma ParseIsoDateFields(s: string)
    requires ParseIsoDate(s).Some?
    ensures var f := Split(s, '-');
      var d := ParseIsoDate(s).value;
      |f| == 3 && s == f[0] + "-" + f[1] + "-" + f[2] &&
      AllDigits(f[0]) && DecimalValue(f[0]) == d.year &&
      AllDigits(f[1]) && DecimalValue(f[1]) == d.month + 1 &&
      DayField(f[2]) && DayValue(f[2]) == d.day
  {
    var f := Split(s, '-');
    SplitJoin(s, '-');
    assert f[1..][1..] == [f[2]];
    assert Join(f[1..][1..], '-') == f[2];
    assert Join(f[1..], '-') == f[1] + "-" + f[2];
  }

  // ----- The schedule list's filters -----

  /** One `queryset.filter(...)` of `get_queryset`. */
  datatype Condition =
    | OnDate(date: Date)
    | InMonth(year: int, month: int)
    | ByTrainer(trainer: int)
    | OfType(code: string)
    | WithStatus(code: string)
    | Within(from: Date, to: Date)

  /** The lookup each filter performs; `date__month` is 1-based and dates compare as (year, month, day). */
  predicate Holds(c: Condition, s: ScheduleRecord)
  {
    match c
    case OnDate(d) => s.date == d
    case InMonth(y, m) => s.date.year == y && s.date.month + 1 == m
    case ByTrainer(t) => s.trainer == t
    case OfType(code) => s.scheduleType.Code() == code
    case WithStatus(code) => s.status.Code() == code
    case Within(from, to) => !Before(s.date, from) && !Before(to, s.date)
  }

  /** `queryset.filter(c)`: the rows that satisfy it, in their order. */
  function Select(rows: seq<ScheduleRecord>, c: Condition): (r: seq<ScheduleRecord>)
    ensures |r| <= |rows|
    ensures forall x :: x in r <==> x in rows && Holds(c, x)
    decreases |rows|
  {
    if rows == [] then []
    else (if Holds(c, rows[0]) then [rows[0]] else []) + Select(rows[1..], c)
  }

  /** Filters applied one after another. */
  function SelectAll(rows: seq<ScheduleRecord>, cs: seq<Condition>): (r: seq<ScheduleRecord>)
    ensures |r| <= |rows|
    ensures forall x :: x in r ==> x in rows
    decreases |cs|
  {
    if cs == [] then rows else SelectAll(Select(rows, cs[0]), cs[1..])
  }

  /**
   * The filters `get_queryset` builds from the parameters, in its order: a
   * date that parses; month and year when both are given and both are
   * integers; the trainer; the type; the status. Two ValueErrors escape the
   * view's `try` blocks and fail the request (None): a non-integer trainer,
   * and a year outside 1..9999, whose `date__year` lookup cannot build its
   * bounding dates when the query runs.
   */
  function Conditions(params: map<string, string>): (r: Option<seq<Condition>>)
    ensures r.None? <==> BadTrainer(params) || BadYear(params)
  {
    if BadTrainer(params) || BadYear(params) then None
    else Some(DateFilter(params) + MonthFilter(params) + TrainerFilter(params) + TypeFilter(params) + StatusFilter(params))
  }

  function DateFilter(params: map<string, string>): seq<Condition>
  {
    if Given(params, "date") && ParseIsoDate(params["date"]).Some?
    then [OnDate(ParseIsoDate(params["date"]).value)] else []
  }

  /** Month and year both given and both integers: the month filter is built. */
  predicate MonthUsable(params: map<string, string>)
  {
    Given(params, "month") && Given(params, "year") && PyInt(params["year"]).Some? && PyInt(params["month"]).Some?
  }

  /** A usable year that Python's `date` cannot hold. */
  predicate BadYear(params: map<string, string>)
  {
    MonthUsable(params) && !(1 <= PyInt(params["year"]).value <= 9999)
  }

  function MonthFilter(params: map<string, string>): seq<Condition>
  {
    if MonthUsable(params)
    then [InMonth(PyInt(params["year"]).value, PyInt(params["month"]).value)] else []
  }

  /** A trainer parameter that `int()` rejects. */
  predicate BadTrainer(params: map<string, string>)
  {
    Given(params, "trainer") && PyInt(params["trainer"]).None?
  }

  function TrainerFilter(params: map<string, string>): seq<Condition>
  {
    if Given(params, "trainer") && PyInt(params["trainer"]).Some? then [ByTrainer(PyInt(params["trainer"]).value)] else []
  }

  function TypeFilter(params: map<string, string>): seq<Condition>
  {
    if Given(params, "type") then [OfType(params["type"])] else []
  }

  function StatusFilter(params: map<string, string>): seq<Condition>
  {
    if Given(params, "status") then [WithStatus(params["status"])] else []
  }

  /** What a list request answers: the rows, or a server error. */
  datatype QueryResult = Rows(rows: seq<ScheduleRecord>) | ServerError

  /** `ScheduleViewSet.get_queryset` over the stored rows. */
  function GetQueryset(rows: seq<ScheduleRecord>, params: map<string, string>): (r: QueryResult)
    ensures r.ServerError? <==> BadTrainer(params) || BadYear(params)
    ensures r.Rows? ==> |r.rows| <= |rows| && forall x :: x in r.rows ==> x in rows
  {
    match Conditions(params)
    case None => ServerError
    case Some(cs) => Rows(SelectAll(rows, cs))
  }

  /** Reference reading of the filters: every given and usable parameter must match. */
  predicate Matches(params: map<string, string>, s: ScheduleRecord)
  {
    DateMatches(params, s) && MonthMatches(params, s) && TrainerMatches(params, s) &&
    TypeMatches(params, s) && StatusMatches(params, s)
  }

  predicate TrainerMatches(params: map<string, string>, s: ScheduleRecord)
  {
    Given(params, "trainer") ==> PyInt(params["trainer"]) == Some(s.trainer)
  }

  predicate TypeMatches(params: map<string, string>, s: ScheduleRecord)
  {
    Given(params, "type") ==> s.scheduleType.Code() == params["type"]
  }

  predicate StatusMatches(params: map<string, string>, s: ScheduleRecord)
  {
    Given(params, "status") ==> s.status.Code() == params["status"]
  }

  predicate DateMatches(params: map<string, string>, s: ScheduleRecord)
  {
    Given(params, "date") && ParseIsoDate(params["date"]).Some? ==> s.date == ParseIsoDate(params["date"]).value
  }

  predicate MonthMatches(params: map<string, string>, s: ScheduleRecord)
  {
    Given(params, "month") && Given(params, "year") && PyInt(params["year"]).Some? && PyInt(params["month"]).Some? ==>
      s.date.year == PyInt(params["year"]).value && s.date.month + 1 == PyInt(params["month"]).value
  }

  lemma {:induction false} SelectAllMembers(rows: seq<ScheduleRecord>, cs: seq<Condition>, x: ScheduleRecord)
    ensures x in SelectAll(rows, cs) <==> x in rows && AllHold(cs, x)
    decreases |cs|
  {
    if cs != [] {
      SelectAllMembers(Select(rows, cs[0]), cs[1..], x);
      assert forall i :: 1 <= i < |cs| ==> cs[i] == cs[1..][i - 1];
    }
  }

  /** All of a list of conditions hold exactly when the parameters match. */
  lemma ConditionsAreMatches(params: map<string, string>, x: ScheduleRecord)
    requires !BadTrainer(params) && !BadYear(params)
    ensures AllHold(Conditions(params).value, x) <==> Matches(params, x)
  {
    var a := DateFilter(params);
    var b := MonthFilter(params);
    var c := TrainerFilter(params);
    var d := TypeFilter(params);
    var e := StatusFilter(params);
    AllHoldConcat(a + b + c + d, e, x);
    AllHoldConcat(a + b + c, d, x);
    AllHoldConcat(a + b, c, x);
    AllHoldConcat(a, b, x);
    FiltersHold(params, x);
  }

  /** Each filter, present or not, holds exactly when its parameter matches. */
  lemma FiltersHold(params: map<string, string>, x: ScheduleRecord)
    requires !BadTrainer(params)
    ensures AllHold(DateFilter(params), x) <==> DateMatches(params, x)
    ensures AllHold(MonthFilter(params), x) <==> MonthMatches(params, x)
    ensures AllHold(TrainerFilter(params), x) <==> TrainerMatches(params, x)
    ensures AllHold(TypeFilter(params), x) <==> TypeMatches(params, x)
    ensures AllHold(StatusFilter(params), x) <==> StatusMatches(params, x)
  {
    DateFilterHolds(params, x);
    MonthFilterHolds(params, x);
    TrainerFilterHolds(params, x);
    TypeFilterHolds(params, x);
    StatusFilterHolds(params, x);
  }

  lemma AllHoldAtMostOne(cs: seq<Condition>, x: ScheduleRecord)
    requires |cs| <= 1
    ensures AllHold(cs, x) <==> cs == [] || Holds(cs[0], x)
  {
  }

  lemma DateFilterHolds(params: map<string, string>, x: ScheduleRecord)
    ensures AllHold(DateFilter(params), x) <==> DateMatches(params, x)
  {
    AllHoldAtMostOne(DateFilter(params), x);
  }

  lemma MonthFilterHolds(params: map<string, string>, x: ScheduleRecord)
    ensures AllHold(MonthFilter(params), x) <==> MonthMatches(params, x)
  {
    AllHoldAtMostOne(MonthFilter(params), x);
  }

  lemma TrainerFilterHolds(params: map<string, string>, x: ScheduleRecord)
    requires !BadTrainer(params)
    ensures AllHold(TrainerFilter(params), x) <==> TrainerMatches(params, x)
  {
    AllHoldAtMostOne(TrainerFilter(params), x);
  }

  lemma TypeFilterHolds(params: map<string, string>, x: ScheduleRecord)
    ensures AllHold(TypeFilter(params), x) <==> TypeMatches(params, x)
  {
    AllHoldAtMostOne(TypeFilter(params), x);
  }

  lemma StatusFilterHolds(params: map<string, string>, x: ScheduleRecord)
    ensures AllHold(StatusFilter(params), x) <==> StatusMatches(params, x)
  {
    AllHoldAtMostOne(StatusFilter(params), x);
  }

  predicate AllHold(cs: seq<Condition>, x: ScheduleRecord)
  {
    forall i :: 0 <= i < |cs| ==> Holds(cs[i], x)
  }

  lemma AllHoldConcat(a: seq<Condition>, b: seq<Condition>, x: ScheduleRecord)
    ensures AllHold(a + b, x) <==> AllHold(a, x) && AllHold(b, x)
  {
    if AllHold(a, x) && AllHold(b, x) {
      forall i | 0 <= i < |a + b|
        ensures Holds((a + b)[i], x)
      {
        if i >= |a| {
          assert (a + b)[i] == b[i - |a|];
        }
      }
    }
    if AllHold(a + b, x) {
      assert forall i :: 0 <= i < |a| ==> (a + b)[i] == a[i];
      assert forall i :: 0 <= i < |b| ==> (a + b)[|a| + i] == b[i];
    }
  }

  /**
   * The filters are conjunctive: the answer is a server error exactly when a
   * trainer is given that is not an integer or a usable month comes with a
   * year outside 1..9999, and otherwise holds exactly the rows every given
   * and usable parameter matches.
   */
  lemma QuerysetIsConjunction(rows: seq<ScheduleRecord>, params: map<string, string>)
    ensures GetQueryset(rows, params).ServerError? <==>
      (Given(params, "trainer") && PyInt(params["trainer"]).None?) ||
      (Given(params, "month") && Given(params, "year") && PyInt(params["month"]).Some? &&
       PyInt(params["year"]).Some? && !(1 <= PyInt(params["year"]).value <= 9999))
    ensures GetQueryset(rows, params).Rows? ==>
      forall x :: x in GetQueryset(rows, params).rows <==> x in rows && Matches(params, x)
  {
    if Conditions(params).Some? {
      var cs := Conditions(params).value;
      forall x
        ensures x in SelectAll(rows, cs) <==> x in rows && Matches(params, x)
      {
        SelectAllMembers(rows, cs, x);
        ConditionsAreMatches(params, x);
      }
    }
  }

  /** Without a non-empty parameter every row is listed, in stored order. */
  lemma QuerysetWithoutParams(rows: seq<ScheduleRecord>, params: map<string, string>)
    requires forall k :: k in params ==> params[k] == ""
    ensures GetQueryset(rows, params) == Rows(rows)
  {
    assert Conditions(params) == Some([]) by {
      NothingGiven(params);
      var none: seq<Condition> := [];
      assert none + none + none + none + none == none;
    }
  }

  lemma NothingGiven(params: map<string, string>)
    requires forall k :: k in params ==> params[k] == ""
    ensures DateFilter(params) == [] && MonthFilter(params) == [] && TrainerFilter(params) == []
    ensures TypeFilter(params) == [] && StatusFilter(params) == [] && !BadTrainer(params) && !BadYear(params)
  {
  }

  /** A date that does not parse is ignored: the answer is that of the request without it. */
  lemma UnparsableDateIgnored(rows: seq<ScheduleRecord>, params: map<string, string>)
    requires "date" in params && ParseIsoDate(params["date"]).None?
    ensures GetQueryset(rows, params) == GetQueryset(rows, params - {"date"})
  {
    var p := params - {"date"};
    assert forall k :: k != "date" ==> (Given(p, k) <==> Given(params, k)) && (k in p ==> p[k] == params[k]);
    assert DateFilter(params) == [] == DateFilter(p);
    assert MonthUsable(params) == MonthUsable(p) && MonthFilter(params) == MonthFilter(p);
    assert BadYear(params) == BadYear(p) && BadTrainer(params) == BadTrainer(p);
    assert TrainerFilter(params) == TrainerFilter(p);
    assert TypeFilter(params) == TypeFilter(p) && StatusFilter(params) == StatusFilter(p);
  }

  /** A month without a year, or a year or month that is not an integer, is ignored. */
  lemma UnusableMonthIgnored(rows: seq<ScheduleRecord>, params: map<string, string>)
    requires "month" in params
    requires !Given(params, "year") || PyInt(params["year"]).None? || PyInt(params["month"]).None?
    ensures GetQueryset(rows, params) == GetQueryset(rows, params - {"month"})
  {
    var p := params - {"month"};
    assert forall k :: k != "month" ==> (Given(p, k) <==> Given(params, k)) && (k in p ==> p[k] == params[k]);
    assert DateFilter(params) == DateFilter(p);
    assert !MonthUsable(params) && !MonthUsable(p) && MonthFilter(params) == [] == MonthFilter(p);
    assert !BadYear(params) && !BadYear(p) && BadTrainer(params) == BadTrainer(p);
    assert TrainerFilter(params) == TrainerFilter(p);
    assert TypeFilter(params) == TypeFilter(p) && StatusFilter(params) == StatusFilter(p);
  }

  lemma {:induction false} SelectOrdered(rows: seq<ScheduleRecord>, c: Condition)
    requires Ordered(rows)
    ensures Ordered(Select(rows, c))
    decreases |rows|
  {
    if rows != [] {
      var t := Select(rows[1..], c);
      SelectOrdered(rows[1..], c);
      if Holds(c, rows[0]) {
        var r := [rows[0]] + t;
        forall i, j | 0 <= i < j < |r|
          ensures !OrderedBefore(r[j], r[i])
        {
          if i > 0 {
            assert r[i] == t[i - 1] && r[j] == t[j - 1];
          } else {
            assert r[j] in rows[1..];
            var k :| 0 <= k < |rows[1..]| && rows[1..][k] == r[j];
            assert rows[k + 1] == r[j];
          }
        }
      }
    }
  }

  lemma {:induction false} SelectAllOrdered(rows: seq<ScheduleRecord>, cs: seq<Condition>)
    requires Ordered(rows)
    ensures Ordered(SelectAll(rows, cs))
    decreases |cs|
  {
    if cs != [] {
      SelectOrdered(rows, cs[0]);
      SelectAllOrdered(Select(rows, cs[0]), cs[1..]);
    }
  }

  /** Filtering keeps the default (date, start time) order of the stored rows. */
  lemma QuerysetKeepsOrder(rows: seq<ScheduleRecord>, params: map<string, string>)
    requires Ordered(rows)
    ensures GetQueryset(rows, params).Rows? ==> Ordered(GetQueryset(rows, params).rows)
  {
    if Conditions(params).Some? {
      SelectAllOrdered(rows, Conditions(params).value);
    }
  }

  // ----- today and upcoming -----

  /** The `today` action: the filtered rows dated `today`. */
  function TodayRows(rows: seq<ScheduleRecord>, params: map<string, string>, today: Date): (r: QueryResult)
    ensures r.ServerError? <==> GetQueryset(rows, params).ServerError?
    ensures r.Rows? ==> forall x :: x in r.rows <==> x in GetQueryset(rows, params).rows && x.date == today
  {
    match GetQueryset(rows, params)
    case ServerError => ServerError
    case Rows(r) => Rows(Select(r, OnDate(today)))
  }

  /** `today + timedelta(days=n)`. */
  function DaysAhead(today: Date, n: int): (r: Date)
    ensures Valid(r)
  {
    Normalize(today.year, today.month, today.day + n)
  }

  /** Adding days to a real date adds to its day number. */
  lemma DaysAheadDayNumber(today: Date, n: int)
    requires Valid(today)
    ensures DayNumberOf(DaysAhead(today, n)) == DayNumberOf(today) + n
  {
    NormalizeShift(today, n);
  }

  /** `date.today() + timedelta(days=7)`. */
  function WeekAhead(today: Date): Date
  {
    DaysAhead(today, 7)
  }

  /** The `upcoming` action: the filtered rows dated from today through a week ahead, both ends included. */
  function UpcomingRows(rows: seq<ScheduleRecord>, params: map<string, string>, today: Date): (r: QueryResult)
    ensures r.ServerError? <==> GetQueryset(rows, params).ServerError?
  {
    match GetQueryset(rows, params)
    case ServerError => ServerError
    case Rows(r) => Rows(Select(r, Within(today, WeekAhead(today))))
  }

  /** The window covers day numbers today through today + 7: eight days. */
  lemma UpcomingWindow(today: Date, d: Date)
    requires Valid(today) && Valid(d)
    ensures !Before(d, today) && !Before(WeekAhead(today), d) <==>
      DayNumberOf(today) <= DayNumberOf(d) <= DayNumberOf(today) + 7
  {
    DaysAheadDayNumber(today, 7);
    DayNumberOrder(d, today);
    DayNumberOrder(WeekAhead(today), d);
  }

  /** What `upcoming` lists, row by row. */
  lemma UpcomingMembers(rows: seq<ScheduleRecord>, params: map<string, string>, today: Date, x: ScheduleRecord)
    requires Valid(today) && Valid(x.date)
    requires GetQueryset(rows, params).Rows?
    ensures x in UpcomingRows(rows, params, today).rows <==>
      x in GetQueryset(rows, params).rows && DayNumberOf(today) <= DayNumberOf(x.date) <= DayNumberOf(today) + 7
  {
    UpcomingWindow(today, x.date);
  }

  /** Whatever `today` lists, `upcoming` lists too. */
  lemma TodayWithinUpcoming(rows: seq<ScheduleRecord>, params: map<string, string>, today: Date)
    requires Valid(today)
    ensures TodayRows(rows, params, today).Rows? ==>
      forall x :: x in TodayRows(rows, params, today).rows ==> x in UpcomingRows(rows, params, today).rows
  {
    forall x | TodayRows(rows, params, today).Rows? && x in TodayRows(rows, params, today).rows
      ensures x in UpcomingRows(rows, params, today).rows
    {
      UpcomingWindow(today, x.date);
    }
  }

  /** A window of today through today + 6: the seven days the action's description promises. */
  function UpcomingWeekRows(rows: seq<ScheduleRecord>, params: map<string, string>, today: Date): (r: QueryResult)
    ensures r.ServerError? <==> GetQueryset(rows, params).ServerError?
  {
    match GetQueryset(rows, params)
    case ServerError => ServerError
    case Rows(r) => Rows(Select(r, Within(today, DaysAhead(today, 6))))
  }

  /** The corrected window covers day numbers today through today + 6: seven days. */
  lemma UpcomingWeekMembers(rows: seq<ScheduleRecord>, params: map<string, string>, today: Date, x: ScheduleRecord)
    requires Valid(today) && Valid(x.date)
    requires GetQueryset(rows, params).Rows?
    ensures x in UpcomingWeekRows(rows, params, today).rows <==>
      x in GetQueryset(rows, params).rows && DayNumberOf(today) <= DayNumberOf(x.date) <= DayNumberOf(today) + 6
  {
    DaysAheadDayNumber(today, 6);
    DayNumberOrder(x.date, today);
    DayNumberOrder(DaysAhead(today, 6), x.date);
  }

  /** As written, a row a week ahead is listed as upcoming: the eighth day. */
  lemma UpcomingListsEighthDay(rows: seq<ScheduleRecord>, params: map<string, string>, today: Date, x: ScheduleRecord)
    requires Valid(today) && x.date == WeekAhead(today)
    requires GetQueryset(rows, params).Rows? && x in GetQueryset(rows, params).rows
    ensures x in UpcomingRows(rows, params, today).rows
    ensures DayNumberOf(x.date) == DayNumberOf(today) + 7
    ensures x !in UpcomingWeekRows(rows, params, today).rows
  {
    DaysAheadDayNumber(today, 7);
    UpcomingMembers(rows, params, today, x);
    UpcomingWeekMembers(rows, params, today, x);
  }

  // ----- join -----

  /**
   * The posted `member_id` as the request body carries it: absent, JSON
   * `null`, a boolean, an integer, a number with a fraction (by its integer
   * part toward zero and whether a fraction remains), a string, or an array
   * or object (by whether it is empty).
   */
  datatype PostedValue =
    | Absent
    | JsonNull
    | JsonBool(b: bool)
    | JsonInt(n: int)
    | JsonFloat(whole: int, hasFraction: bool)
    | JsonText(text: string)
    | JsonCompound(empty: bool)

  /** Python truthiness, the `if not member_id` test. */
  predicate Truthy(v: PostedValue)
  {
    match v
    case Absent => false
    case JsonNull => false
    case JsonBool(b) => b
    case JsonInt(n) => n != 0
    case JsonFloat(whole, hasFraction) => whole != 0 || hasFraction
    case JsonText(t) => t != ""
    case JsonCompound(empty) => !empty
  }

  /**
   * The id that `Member.objects.get(id=member_id)` looks up: the primary key
   * field applies `int()`, which reads booleans as 0 and 1, truncates numbers
   * and parses strings; None is its ValueError or TypeError, which the view's
   * `except Member.DoesNotExist` does not catch.
   */
  function LookupId(v: PostedValue): Option<int>
  {
    match v
    case JsonBool(b) => Some(if b then 1 else 0)
    case JsonInt(n) => Some(n)
    case JsonFloat(whole, _) => Some(whole)
    case JsonText(t) => PyInt(t)
    case _ => None
  }

  /** The five answers of `join`, checked in this order. */
  datatype JoinResponse = MissingMember | InvalidId | MemberNotFound | Full | Joined {
    function Status(): int
    {
      match this
      case Joined => 200
      case InvalidId => 500
      case MemberNotFound => 404
      case _ => 400
    }

    /** The `error` or `message` text of the answer; the uncaught ValueError of InvalidId has none. */
    function Message(): string
    {
      match this
      case MissingMember => "회원 ID가 필요합니다."
      case InvalidId => ""
      case MemberNotFound => "회원을 찾을 수 없습니다."
      case Full => "참여 인원이 가득 찼습니다."
      case Joined => "스케줄에 등록되었습니다."
    }
  }

  /**
   * Every answer but the uncaught error carries its own text, so the five
   * answers are told apart by status and text; only a join succeeds.
   */
  lemma JoinReplyTexts(a: JoinResponse, b: JoinResponse)
    ensures a.Message() == "" <==> a == InvalidId
    ensures a.Status() == 200 <==> a == Joined
    ensures a.Status() == b.Status() && a.Message() == b.Message() ==> a == b
    ensures a != InvalidId && a.Message() == b.Message() ==> a == b
  {
  }

  /**
   * `join` as a function: the answer and the schedule's new member set.
   * `posted` is the posted `member_id`; `registered` holds the ids of the
   * existing members.
   */
  function JoinOutcome(s: ScheduleRecord, posted: PostedValue, registered: set<int>): (r: (JoinResponse, set<int>))
    ensures r.0 != Joined ==> r.1 == s.members
    ensures r.0 == Joined ==> LookupId(posted).Some? && r.1 == s.members + {LookupId(posted).value}
  {
    if !Truthy(posted) then (MissingMember, s.members)
    else if LookupId(posted).None? then (InvalidId, s.members)
    else if LookupId(posted).value !in registered then (MemberNotFound, s.members)
    else if !CanRegister(s) then (Full, s.members)
    else (Joined, s.members + {LookupId(posted).value})
  }

  /** Each answer arises from exactly its own case of the ordered checks. */
  lemma JoinChecksInOrder(s: ScheduleRecord, posted: PostedValue, registered: set<int>)
    ensures var r := JoinOutcome(s, posted, registered).0;
      var id := LookupId(posted);
      (r == MissingMember <==> !Truthy(posted)) &&
      (r == InvalidId <==> Truthy(posted) && id.None?) &&
      (r == MemberNotFound <==> Truthy(posted) && id.Some? && id.value !in registered) &&
      (r == Full <==> Truthy(posted) && id.Some? && id.value in registered && ParticipantCount(s) >= s.maxParticipants) &&
      (r == Joined <==> Truthy(posted) && id.Some? && id.value in registered && ParticipantCount(s) < s.maxParticipants)
  {
  }

  /**
   * A posted string of digits is answered like the number it spells, except
   * that a zero string is truthy: it is looked up (member 0) rather than
   * refused as missing.
   */
  lemma JoinDigitText(s: ScheduleRecord, t: string, registered: set<int>)
    requires |t| >= 1 && AllDigits(t)
    ensures JoinOutcome(s, JsonText(t), registered).0 != MissingMember
    ensures DecimalValue(t) != 0 ==>
      JoinOutcome(s, JsonText(t), registered) == JoinOutcome(s, JsonInt(DecimalValue(t)), registered)
    ensures DecimalValue(t) == 0 && 0 !in registered ==> JoinOutcome(s, JsonText(t), registered).0 == MemberNotFound
  {
    LookupDigitText(t);
    var n := DecimalValue(t);
    if n != 0 {
      assert Truthy(JsonInt(n)) && LookupId(JsonInt(n)) == Some(n);
    }
  }

  /** A posted string of digits is truthy and looked up as the number it spells. */
  lemma LookupDigitText(t: string)
    requires |t| >= 1 && AllDigits(t)
    ensures Truthy(JsonText(t)) && LookupId(JsonText(t)) == Some(DecimalValue(t))
  {
    PyIntOfDigits(t);
  }

  /** A non-empty string that `int()` rejects is a server error, not a 404. */
  lemma JoinNonNumericText(s: ScheduleRecord, t: string, registered: set<int>)
    requires t != "" && PyInt(t).None?
    ensures JoinOutcome(s, JsonText(t), registered) == (InvalidId, s.members)
    ensures JoinOutcome(s, JsonText(t), registered).0.Status() == 500
  {
  }

  /** `true` and a fractional number are coerced: `true` and 1.5 both look up member 1. */
  lemma JoinCoercions(s: ScheduleRecord, registered: set<int>)
    ensures JoinOutcome(s, JsonBool(true), registered) == JoinOutcome(s, JsonInt(1), registered)
    ensures JoinOutcome(s, JsonFloat(1, true), registered) == JoinOutcome(s, JsonInt(1), registered)
    ensures JoinOutcome(s, JsonFloat(0, true), registered).0 != MissingMember
  {
  }

  /** A join adds at most one member, and only below capacity, so it never pushes the count above the maximum. */
  lemma JoinNeverOverfills(s: ScheduleRecord, posted: PostedValue, registered: set<int>)
    ensures var after := JoinOutcome(s, posted, registered).1;
      |s.members| <= |after| <= |s.members| + 1 &&
      (|after| > |s.members| ==> |s.members| < s.maxParticipants) &&
      (|s.members| <= s.maxParticipants ==> |after| <= s.maxParticipants)
  {
    var r := JoinOutcome(s, posted, registered);
    if r.0 == Joined {
      if LookupId(posted).value in s.members {
        assert r.1 == s.members;
      }
    }
  }

  /** Joining again with a member already in is answered as a success and changes nothing, unless the schedule is now full. */
  lemma JoinAgain(s: ScheduleRecord, posted: PostedValue, registered: set<int>)
    requires JoinOutcome(s, posted, registered).0 == Joined
    ensures var after := s.(members := JoinOutcome(s, posted, registered).1);
      var again := JoinOutcome(after, posted, registered);
      again.1 == after.members &&
      (again.0 == Joined <==> ParticipantCount(after) < s.maxParticipants) &&
      (again.0 != Joined ==> again.0 == Full)
  {
  }

  /** A stored schedule whose member set the `join` action updates. */
  class StoredSchedule {
    var record: ScheduleRecord

    constructor (record: ScheduleRecord)
      ensures this.record == record
    {
      this.record := record;
    }

    /** `join`: the checks in order; only a success adds the member. */
    method Join(posted: PostedValue, registered: set<int>) returns (response: JoinResponse)
      modifies this
      ensures (response, record.members) == JoinOutcome(old(record), posted, registered)
      ensures record == old(record).(members := record.members)
    {
      if !Truthy(posted) {
        return MissingMember;
      }
      var id := LookupId(posted);
      if id.None? {
        return InvalidId;
      }
      if id.value !in registered {
        return MemberNotFound;
      }
      if !CanRegister(record) {
        return Full;
      }
      record := record.(members := record.members + {id.value});
      response := Joined;
    }
  }

  // ----- is_active -----

  /** The `is_active` parameter: no filter when absent; otherwise active rows exactly when it lowercases to `true`. */
  function ActiveFilter(param: Option<string>): (r: Option<bool>)
    ensures r.None? <==> param.None?
  {
    match param
    case None => None
    case Some(v) => Some(AsciiLower(v) == "true")
  }

  /** The spellings that select active rows are `true` in any mix of cases; every other value selects inactive rows. */
  lemma ActiveSpellings(v: string)
    ensures ActiveFilter(Some(v)) == Some(true) <==>
      |v| == 4 && forall i :: 0 <= i < 4 ==> v[i] == "true"[i] || v[i] == "TRUE"[i]
    ensures ActiveFilter(Some(v)) != Some(true) ==> ActiveFilter(Some(v)) == Some(false)
  {
    var l := AsciiLower(v);
    if |v| == 4 && forall i :: 0 <= i < 4 ==> v[i] == "true"[i] || v[i] == "TRUE"[i] {
      assert forall i :: 0 <= i < 4 ==> l[i] == "true"[i];
      assert l == "true";
    }
  }

  /** The list filter shared by the member and membership views, over any row type with an active flag. */
  function FilterActive<T(!new)>(rows: seq<T>, isActive: T -> bool, param: Option<string>): (r: seq<T>)
    ensures param.None? ==> r == rows
    ensures param.Some? ==> forall x :: x in r <==> x in rows && isActive(x) == ActiveFilter(param).value
    ensures |r| <= |rows|
    decreases |rows|
  {
    if param.None? || rows == [] then rows
    else (if isActive(rows[0]) == ActiveFilter(param).value then [rows[0]] else []) + FilterActive(rows[1..], isActive, param)
  }
}
