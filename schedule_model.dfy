/**
 * The service's schedule record: its field defaults, the computed duration,
 * participant count and registration check, and its default ordering.
 */
module ScheduleModel {
  import opened Gregorian
  import opened Types

  /** A wall-clock time of day to the second. */
  datatype Time = Time(hour: int, minute: int, second: int)

  predicate ValidTime(t: Time)
  {
    0 <= t.hour < 24 && 0 <= t.minute < 60 && 0 <= t.second < 60
  }

  function SecondsOfDay(t: Time): int
  {
    t.hour * 3600 + t.minute * 60 + t.second
  }

  /** `(a, b)` of times compared field by field, as Python compares `time` values. */
  predicate TimeBefore(a: Time, b: Time)
  {
    a.hour < b.hour || (a.hour == b.hour && (a.minute < b.minute || (a.minute == b.minute && a.second < b.second)))
  }

  /** A stored schedule; `members` holds the ids of the joined members. */
  datatype ScheduleRecord = ScheduleRecord(
    id: int,
    title: string,
    description: string,
    scheduleType: ScheduleType,
    date: Date,
    startTime: Time,
    endTime: Time,
    trainer: int,
    members: set<int>,
    status: ScheduleStatus,
    maxParticipants: int)

  /** A schedule created with only the required fields: the type, status, capacity and members take their defaults. */
  function NewSchedule(id: int, title: string, date: Date, startTime: Time, endTime: Time, trainer: int): (s: ScheduleRecord)
    ensures s.scheduleType == Personal && s.status == Scheduled && s.maxParticipants == 1
    ensures s.description == "" && s.members == {}
  {
    ScheduleRecord(id, title, "", Personal, date, startTime, endTime, trainer, {}, Scheduled, 1)
  }

  /** `int(x)` of a float: truncation toward zero. */
  function TruncDiv(n: int, d: int): (q: int)
    requires d > 0
    ensures n >= 0 ==> q * d <= n < (q + 1) * d
    ensures n < 0 ==> (q - 1) * d < n <= q * d
  {
    if n >= 0 then n / d else -((-n) / d)
  }

  /**
   * `duration`: the minutes from start to end on the schedule's date, the
   * seconds difference divided by 60 and truncated toward zero.
   */
  function Duration(s: ScheduleRecord): (minutes: int)
    ensures var diff := SecondsOfDay(s.endTime) - SecondsOfDay(s.startTime);
      (diff >= 0 ==> 0 <= minutes * 60 <= diff < minutes * 60 + 60) &&
      (diff < 0 ==> minutes * 60 - 60 < diff <= minutes * 60 <= 0)
  {
    TruncDiv(SecondsOfDay(s.endTime) - SecondsOfDay(s.startTime), 60)
  }

  /** Whole minutes are exact; the sign follows the order of the times, except that less than a minute either way is 0. */
  lemma DurationSign(s: ScheduleRecord)
    requires ValidTime(s.startTime) && ValidTime(s.endTime)
    ensures var diff := SecondsOfDay(s.endTime) - SecondsOfDay(s.startTime);
      (diff % 60 == 0 ==> Duration(s) * 60 == diff) &&
      (Duration(s) > 0 <==> diff >= 60) &&
      (Duration(s) < 0 <==> diff <= -60) &&
      -1440 < Duration(s) < 1440
  {
  }

  /** `participant_count`: the number of joined members. */
  function ParticipantCount(s: ScheduleRecord): nat
  {
    |s.members|
  }

  /** `members.add(m)` raises the count by one for a new member and leaves it for one already joined. */
  lemma ParticipantCountOfAdd(s: ScheduleRecord, m: int)
    ensures ParticipantCount(s.(members := s.members + {m})) ==
      if m in s.members then ParticipantCount(s) else ParticipantCount(s) + 1
  {
    if m in s.members {
      assert s.members + {m} == s.members;
    } else {
      assert (s.members + {m}) - {m} == s.members;
    }
  }

  /** `can_register()`: room for one more member. */
  predicate CanRegister(s: ScheduleRecord)
  {
    ParticipantCount(s) < s.maxParticipants
  }

  /**
   * Registering while `can_register()` holds never takes the count past the
   * capacity, and a new member who takes the last place closes registration.
   */
  lemma RegisterWithinCapacity(s: ScheduleRecord, m: int)
    requires CanRegister(s)
    ensures ParticipantCount(s.(members := s.members + {m})) <= s.maxParticipants
    ensures m !in s.members && ParticipantCount(s) + 1 == s.maxParticipants ==>
      !CanRegister(s.(members := s.members + {m}))
  {
    ParticipantCountOfAdd(s, m);
  }

  /** A fresh schedule with its default capacity of one takes exactly one member. */
  lemma NewScheduleTakesOne(id: int, title: string, date: Date, startTime: Time, endTime: Time, trainer: int, member: int)
    ensures var s := NewSchedule(id, title, date, startTime, endTime, trainer);
      CanRegister(s) && !CanRegister(s.(members := {member}))
  {
    var s := NewSchedule(id, title, date, startTime, endTime, trainer);
    assert |s.(members := {member}).members| == 1;
  }

  // ----- Default ordering -----

  /** `ordering = ['date', 'start_time']`: by date, then by start time. */
  predicate OrderedBefore(a: ScheduleRecord, b: ScheduleRecord)
  {
    Before(a.date, b.date) || (a.date == b.date && TimeBefore(a.startTime, b.startTime))
  }

  /** The ordering is a strict order, and any two schedules with different keys are comparable. */
  lemma OrderingIsStrictTotal(a: ScheduleRecord, b: ScheduleRecord, c: ScheduleRecord)
    ensures !OrderedBefore(a, a)
    ensures OrderedBefore(a, b) && OrderedBefore(b, c) ==> OrderedBefore(a, c)
    ensures OrderedBefore(a, b) ==> !OrderedBefore(b, a)
    ensures (a.date, a.startTime) != (b.date, b.startTime) ==> OrderedBefore(a, b) || OrderedBefore(b, a)
  {
  }

  /** A listing in the default order. */
  predicate Ordered(rows: seq<ScheduleRecord>)
  {
    forall i, j :: 0 <= i < j < |rows| ==> !OrderedBefore(rows[j], rows[i])
  }
}
