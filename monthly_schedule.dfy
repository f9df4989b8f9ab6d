/**
 * The monthly summary: the counts per schedule type, the grouping of the
 * month's schedules by date, the ascending list of dates, and each day's list
 * sorted by start time in place.
 */
module MonthlySchedule {
  import opened Text
  import opened Types
  import CalendarView

  // ----- Counts -----

  /** `schedules.filter(s => s.schedule_type === t).length`. */
  function CountType(schedules: seq<Schedule>, t: ScheduleType): (n: nat)
    ensures n <= |schedules|
    ensures n == 0 <==> forall s :: s in schedules ==> s.scheduleType != t
    decreases |schedules|
  {
    if schedules == [] then 0
    else CountType(schedules[..|schedules| - 1], t) + (if schedules[|schedules| - 1].scheduleType == t then 1 else 0)
  }

  /** The four type counts add up to the total, so the three cards never exceed it. */
  lemma {:induction false} CountsAddUp(schedules: seq<Schedule>)
    ensures CountType(schedules, Personal) + CountType(schedules, Group) +
            CountType(schedules, Consultation) + CountType(schedules, Other) == |schedules|
    ensures CountType(schedules, Personal) + CountType(schedules, Group) + CountType(schedules, Consultation) <= |schedules|
    decreases |schedules|
  {
    if schedules != [] {
      CountsAddUp(schedules[..|schedules| - 1]);
    }
  }

  /** `getScheduleTypeLabel`. */
  function TypeLabel(scheduleType: string): string
  {
    match scheduleType
    case "personal" => "개인 PT"
    case "group" => "그룹 수업"
    case "consultation" => "상담"
    case _ => "기타"
  }

  /** `getScheduleTypeClass`. */
  function TypeClass(scheduleType: string): string
  {
    match scheduleType
    case "personal" => "event-type-personal"
    case "group" => "event-type-group"
    case "consultation" => "event-type-consultation"
    case _ => "event-type-other"
  }

  /** The three named types get labels of their own; everything else shares the fallback. */
  lemma TypeLabelsDistinguish(a: ScheduleType, b: ScheduleType, other: string)
    requires other != "personal" && other != "group" && other != "consultation"
    ensures TypeLabel(a.Code()) == TypeLabel(b.Code()) <==> a == b
    ensures TypeLabel(other) == TypeLabel(Other.Code())
    ensures TypeClass(a.Code()) == "event-type-" + a.Code()
  {
  }

  // ----- Grouping by date -----

  /** The record the `reduce` builds: each date mapped to its schedules, pushed in input order. */
  function Grouped(schedules: seq<Schedule>): map<string, seq<Schedule>>
    decreases |schedules|
  {
    if schedules == [] then map[]
    else
      var acc := Grouped(schedules[..|schedules| - 1]);
      var s := schedules[|schedules| - 1];
      acc[s.date := (if s.date in acc then acc[s.date] else []) + [s]]
  }

  /** The `reduce` over the schedules, pushing each into its date's array. */
  method GroupByDate(schedules: seq<Schedule>) returns (acc: map<string, seq<Schedule>>)
    ensures acc == Grouped(schedules)
  {
    acc := map[];
    var i := 0;
    while i < |schedules|
      invariant 0 <= i <= |schedules|
      invariant acc == Grouped(schedules[..i])
    {
      var schedule := schedules[i];
      var date := schedule.date;
      if date !in acc {
        acc := acc[date := []];
      }
      acc := acc[date := acc[date] + [schedule]];
      assert schedules[..i + 1][..i] == schedules[..i];
      i := i + 1;
    }
    assert schedules[..i] == schedules;
  }

  /** A date is a key of the record exactly when some schedule falls on it. */
  lemma {:induction false} GroupedKeys(schedules: seq<Schedule>)
    ensures forall k :: k in Grouped(schedules) <==> exists s :: s in schedules && s.date == k
    decreases |schedules|
  {
    if schedules != [] {
      var init := schedules[..|schedules| - 1];
      GroupedKeys(init);
      assert schedules == init + [schedules[|schedules| - 1]];
    }
  }

  /**
   * Each date's group is the list the calendar shows in that date's cell: the
   * schedules of that date in input order.
   */
  lemma {:induction false} GroupedIsSelection(schedules: seq<Schedule>)
    ensures forall k :: k in Grouped(schedules) ==> Grouped(schedules)[k] == CalendarView.SchedulesForDate(schedules, k)
    decreases |schedules|
  {
    if schedules != [] {
      var init := schedules[..|schedules| - 1];
      var s := schedules[|schedules| - 1];
      GroupedIsSelection(init);
      GroupedKeys(init);
      assert schedules == init + [s];
      forall k | k in Grouped(schedules)
        ensures Grouped(schedules)[k] == CalendarView.SchedulesForDate(schedules, k)
      {
        GroupedStep(init, s, k);
      }
    }
  }

  /** One step of the `reduce` keeps each group equal to its date's selection. */
  lemma GroupedStep(init: seq<Schedule>, s: Schedule, k: string)
    requires k in Grouped(init) ==> Grouped(init)[k] == CalendarView.SchedulesForDate(init, k)
    requires k in Grouped(init) <==> exists x :: x in init && x.date == k
    requires k in Grouped(init + [s])
    ensures Grouped(init + [s])[k] == CalendarView.SchedulesForDate(init + [s], k)
  {
    assert (init + [s])[..|init|] == init;
    CalendarView.SchedulesForDateConcat(init, [s], k);
    if k != s.date {
      assert Grouped(init + [s])[k] == Grouped(init)[k];
    } else if k !in Grouped(init) {
      CalendarView.SchedulesForDateNone(init, k);
    }
  }

  /** `Object.keys` of the record: each date once, in the order it was first seen. */
  function DateKeys(schedules: seq<Schedule>): (keys: seq<string>)
    ensures forall k :: k in keys <==> exists s :: s in schedules && s.date == k
    ensures Distinct(keys)
    decreases |schedules|
  {
    if schedules == [] then []
    else
      var keys := DateKeys(schedules[..|schedules| - 1]);
      var s := schedules[|schedules| - 1];
      assert forall x :: x in schedules[..|schedules| - 1] ==> x in schedules;
      if s.date in keys then keys else keys + [s.date]
  }

  predicate Distinct(keys: seq<string>)
  {
    forall i, j :: 0 <= i < j < |keys| ==> keys[i] != keys[j]
  }

  predicate StrictlyIncreasing(keys: seq<string>)
  {
    forall i, j :: 0 <= i < j < |keys| ==> LexLess(keys[i], keys[j])
  }

  /** Places a key into an increasing list of keys. */
  function InsertKey(k: string, keys: seq<string>): (r: seq<string>)
    ensures multiset(r) == multiset(keys) + multiset{k}
    decreases |keys|
  {
    if keys == [] || LexLess(k, keys[0]) then [k] + keys
    else
      assert keys == [keys[0]] + keys[1..];
      [keys[0]] + InsertKey(k, keys[1..])
  }

  lemma {:induction false} InsertKeyIncreasing(k: string, keys: seq<string>)
    requires StrictlyIncreasing(keys) && k !in keys
    ensures StrictlyIncreasing(InsertKey(k, keys))
    decreases |keys|
  {
    if keys != [] {
      if LexLess(k, keys[0]) {
        forall j | 0 < j < |keys| ensures LexLess(k, keys[j]) {
          LexLessTransitive(k, keys[0], keys[j]);
        }
      } else {
        LexLessTotal(k, keys[0]);
        InsertKeyIncreasing(k, keys[1..]);
        var rest := InsertKey(k, keys[1..]);
        forall j | 0 <= j < |rest| ensures LexLess(keys[0], rest[j]) {
          assert rest[j] in multiset(rest);
          if rest[j] != k {
            assert rest[j] in keys[1..];
          }
        }
      }
    }
  }

  /** `.sort()` on the keys. */
  function SortKeys(keys: seq<string>): (r: seq<string>)
    ensures multiset(r) == multiset(keys)
    decreases |keys|
  {
    if keys == [] then []
    else
      assert keys == keys[..|keys| - 1] + [keys[|keys| - 1]];
      InsertKey(keys[|keys| - 1], SortKeys(keys[..|keys| - 1]))
  }

  lemma {:induction false} SortKeysIncreasing(keys: seq<string>)
    requires Distinct(keys)
    ensures StrictlyIncreasing(SortKeys(keys))
    decreases |keys|
  {
    if keys != [] {
      var init := keys[..|keys| - 1];
      var last := keys[|keys| - 1];
      SortKeysIncreasing(init);
      assert last !in multiset(SortKeys(init)) by {
        assert last !in init;
      }
      InsertKeyIncreasing(last, SortKeys(init));
    }
  }

  /** `Object.keys(groupedSchedules).sort()`. */
  function SortedDates(schedules: seq<Schedule>): seq<string>
  {
    SortKeys(DateKeys(schedules))
  }

  /** The date list is ascending without repeats and names exactly the dates that have schedules. */
  lemma SortedDatesSpec(schedules: seq<Schedule>)
    ensures StrictlyIncreasing(SortedDates(schedules))
    ensures forall k :: k in SortedDates(schedules) <==> k in Grouped(schedules)
  {
    SortKeysIncreasing(DateKeys(schedules));
    GroupedKeys(schedules);
    GroupedIsSelection(schedules);
    forall k ensures k in SortedDates(schedules) <==> k in DateKeys(schedules) {
      assert k in SortedDates(schedules) <==> k in multiset(SortedDates(schedules));
      assert k in DateKeys(schedules) <==> k in multiset(DateKeys(schedules));
    }
  }

  /** The empty message shows exactly when the month has no schedules. */
  lemma EmptyIffNoSchedules(schedules: seq<Schedule>)
    ensures |SortedDates(schedules)| == 0 <==> |schedules| == 0
  {
    SortedDatesSpec(schedules);
    GroupedKeys(schedules);
    GroupedIsSelection(schedules);
    if |schedules| > 0 {
      assert schedules[0] in schedules;
    }
    if |SortedDates(schedules)| > 0 {
      assert SortedDates(schedules)[0] in SortedDates(schedules);
    }
  }

  // ----- The groups in date order form a partition -----

  /** The day lists one after the other, in the order of `keys`. */
  function Flatten(keys: seq<string>, groups: map<string, seq<Schedule>>): seq<Schedule>
    requires forall k :: k in keys ==> k in groups
    decreases |keys|
  {
    if keys == [] then [] else groups[keys[0]] + Flatten(keys[1..], groups)
  }

  /** Selecting each of the keys in turn. */
  function Selections(keys: seq<string>, schedules: seq<Schedule>): seq<Schedule>
    decreases |keys|
  {
    if keys == [] then [] else CalendarView.SchedulesForDate(schedules, keys[0]) + Selections(keys[1..], schedules)
  }

  lemma {:induction false} SelectionsOfNone(keys: seq<string>)
    ensures Selections(keys, []) == []
    decreases |keys|
  {
    if keys != [] {
      SelectionsOfNone(keys[1..]);
    }
  }

  /** One more schedule shows up once among the selections when its date is one of the distinct keys. */
  lemma {:induction false} SelectionsStep(keys: seq<string>, init: seq<Schedule>, s: Schedule)
    requires Distinct(keys)
    ensures multiset(Selections(keys, init + [s])) ==
      multiset(Selections(keys, init)) + (if s.date in keys then multiset{s} else multiset{})
    decreases |keys|
  {
    if keys != [] {
      SelectionsStep(keys[1..], init, s);
      CalendarView.SchedulesForDateConcat(init, [s], keys[0]);
      assert CalendarView.SchedulesForDate([s], keys[0]) == (if s.date == keys[0] then [s] else []) by {
        assert [s][1..] == [];
      }
      assert s.date in keys <==> s.date == keys[0] || s.date in keys[1..];
    }
  }

  /** Every schedule whose date is among distinct keys appears exactly once in the selections. */
  lemma {:induction false} SelectionsPartition(keys: seq<string>, schedules: seq<Schedule>)
    requires Distinct(keys)
    requires forall s :: s in schedules ==> s.date in keys
    ensures multiset(Selections(keys, schedules)) == multiset(schedules)
    decreases |schedules|
  {
    if schedules == [] {
      SelectionsOfNone(keys);
    } else {
      var init := schedules[..|schedules| - 1];
      var s := schedules[|schedules| - 1];
      assert schedules == init + [s];
      SelectionsPartition(keys, init);
      SelectionsStep(keys, init, s);
    }
  }

  /**
   * The day groups listed in date order hold every schedule of the month
   * exactly once, so the group sizes add up to the total.
   */
  lemma GroupsPartition(schedules: seq<Schedule>)
    ensures forall k :: k in SortedDates(schedules) ==> k in Grouped(schedules)
    ensures multiset(Flatten(SortedDates(schedules), Grouped(schedules))) == multiset(schedules)
    ensures |Flatten(SortedDates(schedules), Grouped(schedules))| == |schedules|
  {
    var keys := SortedDates(schedules);
    var groups := Grouped(schedules);
    SortedDatesSpec(schedules);
    GroupedKeys(schedules);
    GroupedIsSelection(schedules);
    FlattenIsSelections(keys, groups, schedules);
    forall i, j | 0 <= i < j < |keys| ensures keys[i] != keys[j] {
      if keys[i] == keys[j] {
        LexLessIrreflexive(keys[i]);
      }
    }
    SelectionsPartition(keys, schedules);
    assert |multiset(Flatten(keys, groups))| == |multiset(schedules)|;
  }

  lemma {:induction false} FlattenIsSelections(keys: seq<string>, groups: map<string, seq<Schedule>>, schedules: seq<Schedule>)
    requires forall k :: k in keys ==> k in groups
    requires forall k :: k in groups ==> groups[k] == CalendarView.SchedulesForDate(schedules, k)
    ensures Flatten(keys, groups) == Selections(keys, schedules)
    decreases |keys|
  {
    if keys != [] {
      FlattenIsSelections(keys[1..], groups, schedules);
    }
  }

  // ----- Each day sorted by start time -----

  /** Non-decreasing start times. */
  predicate SortedByStart(s: seq<Schedule>)
  {
    forall i :: 0 < i < |s| ==> !LexLess(s[i].startTime, s[i - 1].startTime)
  }

  /** Moves `x` back past the schedules that start strictly later: one step of a stable sort. */
  function InsertByStart(x: Schedule, s: seq<Schedule>): seq<Schedule>
    decreases |s|
  {
    if s == [] || !LexLess(x.startTime, s[|s| - 1].startTime) then s + [x]
    else InsertByStart(x, s[..|s| - 1]) + [s[|s| - 1]]
  }

  /** The stable sort `sort((a, b) => a.start_time.localeCompare(b.start_time))` computes. */
  function SortByStart(s: seq<Schedule>): seq<Schedule>
    decreases |s|
  {
    if s == [] then [] else InsertByStart(s[|s| - 1], SortByStart(s[..|s| - 1]))
  }

  /** The schedules starting at `t`, in order. */
  function StartingAt(s: seq<Schedule>, t: string): seq<Schedule>
    decreases |s|
  {
    if s == [] then []
    else StartingAt(s[..|s| - 1], t) + (if s[|s| - 1].startTime == t then [s[|s| - 1]] else [])
  }

  /** Inserting adds `x` and nothing else, and the result ends with `x` or with the old last schedule. */
  lemma {:induction false} InsertByStartFacts(x: Schedule, s: seq<Schedule>)
    ensures |InsertByStart(x, s)| == |s| + 1
    ensures multiset(InsertByStart(x, s)) == multiset(s) + multiset{x}
    ensures var r := InsertByStart(x, s); r[|r| - 1] == x || (|s| > 0 && r[|r| - 1] == s[|s| - 1])
    decreases |s|
  {
    if s != [] && LexLess(x.startTime, s[|s| - 1].startTime) {
      var init := s[..|s| - 1];
      InsertByStartFacts(x, init);
      assert s == init + [s[|s| - 1]];
    }
  }

  lemma {:induction false} InsertByStartSorted(x: Schedule, s: seq<Schedule>)
    requires SortedByStart(s)
    ensures SortedByStart(InsertByStart(x, s))
    decreases |s|
  {
    if s != [] && LexLess(x.startTime, s[|s| - 1].startTime) {
      var init := s[..|s| - 1];
      InsertByStartSorted(x, init);
      InsertByStartFacts(x, init);
      var r := InsertByStart(x, init);
      LexLessAsymmetric(x.startTime, s[|s| - 1].startTime);
      assert !LexLess(s[|s| - 1].startTime, r[|r| - 1].startTime);
    }
  }

  lemma StartingAtSnoc(s: seq<Schedule>, y: Schedule, t: string)
    ensures StartingAt(s + [y], t) == StartingAt(s, t) + (if y.startTime == t then [y] else [])
  {
    assert (s + [y])[..|s|] == s;
  }

  lemma {:induction false} InsertByStartStable(x: Schedule, s: seq<Schedule>, t: string)
    ensures StartingAt(InsertByStart(x, s), t) == StartingAt(s, t) + (if x.startTime == t then [x] else [])
    decreases |s|
  {
    if s == [] || !LexLess(x.startTime, s[|s| - 1].startTime) {
      StartingAtSnoc(s, x, t);
    } else {
      var init := s[..|s| - 1];
      var last := s[|s| - 1];
      var xs := if x.startTime == t then [x] else [];
      var ls := if last.startTime == t then [last] else [];
      assert StartingAt(InsertByStart(x, s), t) == StartingAt(init, t) + xs + ls by {
        assert InsertByStart(x, s) == InsertByStart(x, init) + [last];
        InsertByStartStable(x, init, t);
        StartingAtSnoc(InsertByStart(x, init), last, t);
      }
      assert StartingAt(s, t) == StartingAt(init, t) + ls by {
        assert s == init + [last];
        StartingAtSnoc(init, last, t);
      }
      assert xs == [] || ls == [] by {
        LexLessIrreflexive(x.startTime);
      }
    }
  }

  /** The day list comes out in start-time order, with the same schedules, keeping the input order among equal start times. */
  lemma {:induction false} SortByStartSpec(s: seq<Schedule>, t: string)
    ensures SortedByStart(SortByStart(s))
    ensures multiset(SortByStart(s)) == multiset(s)
    ensures StartingAt(SortByStart(s), t) == StartingAt(s, t)
    decreases |s|
  {
    if s != [] {
      var init := s[..|s| - 1];
      assert s == init + [s[|s| - 1]];
      SortByStartSpec(init, t);
      InsertByStartFacts(s[|s| - 1], SortByStart(init));
      InsertByStartSorted(s[|s| - 1], SortByStart(init));
      InsertByStartStable(s[|s| - 1], SortByStart(init), t);
    }
  }

  /**
   * Inserting `x` puts it right after position `j` when the schedule before
   * `j` does not start later and every one from `j` on does.
   */
  lemma {:induction false} InsertByStartAt(x: Schedule, s: seq<Schedule>, j: int)
    requires 0 <= j <= |s|
    requires j == 0 || !LexLess(x.startTime, s[j - 1].startTime)
    requires forall k :: j <= k < |s| ==> LexLess(x.startTime, s[k].startTime)
    ensures InsertByStart(x, s) == s[..j] + [x] + s[j..]
    decreases |s|
  {
    if |s| == j {
      assert s[..j] == s && s[j..] == [];
      assert InsertByStart(x, s) == s + [x];
    } else {
      var init := s[..|s| - 1];
      var last := s[|s| - 1];
      assert InsertByStart(x, s) == InsertByStart(x, init) + [last];
      InsertByStartAt(x, init, j);
      assert init[..j] == s[..j];
      assert init[j..] + [last] == s[j..];
    }
  }

  /** A sequence holding `s[..j]`, then `x`, then `s[j..]`, where `x` belongs at `j`, is the insertion of `x`. */
  lemma ShiftedIsInsert(r: seq<Schedule>, x: Schedule, s: seq<Schedule>, j: int)
    requires 0 <= j <= |s| && |r| == |s| + 1
    requires forall k :: 0 <= k < j ==> r[k] == s[k]
    requires r[j] == x
    requires forall k :: j < k < |r| ==> r[k] == s[k - 1]
    requires j == 0 || !LexLess(x.startTime, s[j - 1].startTime)
    requires forall k :: j <= k < |s| ==> LexLess(x.startTime, s[k].startTime)
    ensures r == InsertByStart(x, s)
  {
    InsertByStartAt(x, s, j);
    var t := s[..j] + [x] + s[j..];
    forall k | 0 <= k < |r|
      ensures r[k] == t[k]
    {
      if k > j {
        assert t[k] == s[j..][k - j - 1];
      }
    }
  }

  /** Sorting one more element is inserting it into the sorted prefix. */
  lemma SortByStartPrefix(s: seq<Schedule>, i: int)
    requires 0 <= i < |s|
    ensures SortByStart(s[..i + 1]) == InsertByStart(s[i], SortByStart(s[..i]))
  {
    assert s[..i + 1][..i] == s[..i];
  }

  /** One pass of the in-place sort: `a[i]` moves back past the earlier schedules that start later. */
  method InsertInPlace(a: array<Schedule>, i: int)
    requires 0 <= i < a.Length
    modifies a
    ensures a[..i + 1] == InsertByStart(old(a[i]), old(a[..i]))
    ensures forall k :: i < k < a.Length ==> a[k] == old(a[k])
  {
    ghost var sorted := a[..i];
    var x := a[i];
    var j := i;
    while j > 0 && LexLess(x.startTime, a[j - 1].startTime)
      invariant 0 <= j <= i
      invariant forall k :: 0 <= k < j ==> a[k] == sorted[k]
      invariant a[j] == x
      invariant forall k :: j < k <= i ==> a[k] == sorted[k - 1]
      invariant forall k :: i < k < a.Length ==> a[k] == old(a[k])
      invariant forall k :: j <= k < i ==> LexLess(x.startTime, sorted[k].startTime)
    {
      a[j] := a[j - 1];
      a[j - 1] := x;
      j := j - 1;
    }
    ShiftedIsInsert(a[..i + 1], x, sorted, j);
  }

  /** `groupedSchedules[date].sort(...)`: the day's array sorted in place, stably, by start time. */
  method SortDay(a: array<Schedule>)
    modifies a
    ensures a[..] == SortByStart(old(a[..]))
  {
    ghost var original := a[..];
    var i := 0;
    while i < a.Length
      invariant 0 <= i <= a.Length
      invariant a[..i] == SortByStart(original[..i])
      invariant forall k :: i <= k < a.Length ==> a[k] == original[k]
    {
      SortByStartPrefix(original, i);
      InsertInPlace(a, i);
      i := i + 1;
    }
    assert original[..a.Length] == original;
    assert a[..a.Length] == a[..];
  }
}
