/**
 * The schedule form: its record of fields, the effects that derive the end
 * time, the date and the capacity, the input handler, and submission with
 * its required-field check and reset.
 */
module ScheduleForm {
  import opened Wrappers
  import opened Text
  import DateUtils
  import ApiClient

  /** `CreateScheduleData` as the form holds it; the two numeric fields hold what `parseInt` gave. */
  datatype Form = Form(
    title: string,
    description: string,
    scheduleType: string,
    date: string,
    startTime: string,
    endTime: string,
    trainer: JsNumber,
    maxParticipants: JsNumber)

  /** A field's value: text, or a number for `trainer` and `max_participants`. */
  datatype Value = Text(s: string) | Number(n: JsNumber)

  predicate IsNumericField(name: string)
  {
    name == "trainer" || name == "max_participants"
  }

  predicate IsField(name: string)
  {
    name in {"title", "description", "schedule_type", "date", "start_time", "end_time", "trainer", "max_participants"}
  }

  /** The field of the record with the given input name. */
  function Get(f: Form, name: string): (v: Option<Value>)
    ensures v.Some? <==> IsField(name)
    ensures v.Some? ==> (v.value.Number? <==> IsNumericField(name))
  {
    match name
    case "title" => Some(Text(f.title))
    case "description" => Some(Text(f.description))
    case "schedule_type" => Some(Text(f.scheduleType))
    case "date" => Some(Text(f.date))
    case "start_time" => Some(Text(f.startTime))
    case "end_time" => Some(Text(f.endTime))
    case "trainer" => Some(Number(f.trainer))
    case "max_participants" => Some(Number(f.maxParticipants))
    case _ => None
  }

  /** The record after `handleInputChange` for the input `name` with `value`. */
  function WithInput(f: Form, name: string, value: string): (r: Form)
    ensures IsField(name) ==> Get(r, name) == Some(if IsNumericField(name) then Number(ParseInt(value)) else Text(value))
    ensures forall other :: other != name ==> Get(r, other) == Get(f, other)
  {
    match name
    case "title" => f.(title := value)
    case "description" => f.(description := value)
    case "schedule_type" => f.(scheduleType := value)
    case "date" => f.(date := value)
    case "start_time" => f.(startTime := value)
    case "end_time" => f.(endTime := value)
    case "trainer" => f.(trainer := ParseInt(value))
    case "max_participants" => f.(maxParticipants := ParseInt(value))
    case _ => f
  }

  // ----- Derived fields -----

  /**
   * The end time the start-time effect writes: the hour field read by
   * `parseInt`, plus one, padded to two digits, then the minutes field as it was
   * (`undefined` when the start time has no colon).
   */
  function EndTimeFor(startTime: string): string
  {
    var fields := Split(startTime, ':');
    var minutes := if |fields| >= 2 then fields[1] else "undefined";
    PadStart(ParseInt(fields[0]).Plus(1).ToString(), 2, '0') + ":" + minutes
  }

  /** The hour and minute fields of `HH:MM`. */
  lemma SplitHourMinutes(hours: nat, minutes: string)
    requires hours < 100 && ':' !in minutes
    ensures Split(Pad2(hours) + ":" + minutes, ':') == [Pad2(hours), minutes]
  {
    var h := Pad2(hours);
    assert ':' !in h by {
      Pad2Digits(hours);
      DateUtils.DigitsExclude(h, ':');
    }
    assert h + ":" + minutes == h + [':'] + minutes;
    SplitAfterField(h, minutes, ':');
    SplitNoSeparator(minutes, ':');
  }

  /** `parseInt` reads a two-digit hour field back. */
  lemma ParseHour(hours: nat)
    requires hours < 100
    ensures ParseInt(Pad2(hours)) == Int(hours)
  {
    var h := Pad2(hours);
    assert AllDigits(h) && DecimalValue(h) == hours by {
      Pad2Digits(hours);
    }
    ParseIntOfDigits(h);
  }

  /** For `HH:MM` the end time is one hour later with the same minutes, and the hour does not wrap. */
  lemma EndTimeOneHourLater(hours: nat, minutes: string)
    requires hours < 100 && ':' !in minutes
    ensures EndTimeFor(Pad2(hours) + ":" + minutes) == Pad2(hours + 1) + ":" + minutes
  {
    SplitHourMinutes(hours, minutes);
    ParseHour(hours);
    assert Int(hours).Plus(1).ToString() == NatToDecimal(hours + 1);
  }

  /** The end time derived from a clock reading `HH:MM`. */
  lemma EndTimeOfClock(hours: nat, minutes: nat)
    requires hours < 24 && minutes < 60
    ensures EndTimeFor(DateUtils.CurrentTimeString(hours, minutes)) == Pad2(hours + 1) + ":" + Pad2(minutes)
  {
    var m := Pad2(minutes);
    assert ':' !in m by {
      Pad2Digits(minutes);
      DateUtils.DigitsExclude(m, ':');
    }
    EndTimeOneHourLater(hours, m);
  }

  /** The hour field after 23 is "24". */
  lemma Pad2TwentyFour()
    ensures Pad2(24) == "24"
  {
    assert NatToDecimal(24) == NatToDecimal(2) + [DigitChar(4)];
  }

  /** A start in the last hour of the day ends in hour 24 (written "24", see `Pad2TwentyFour`): the hour does not wrap to "00". */
  lemma EndTimeNoMidnightWrap(minutes: nat)
    requires minutes < 60
    ensures EndTimeFor(DateUtils.CurrentTimeString(23, minutes)) == Pad2(24) + ":" + Pad2(minutes)
  {
    EndTimeOfClock(23, minutes);
  }

  /** The capacity the schedule-type effect sets: one for personal and consultation, ten for group, otherwise as it was. */
  function CapacityFor(scheduleType: string, current: JsNumber): (r: JsNumber)
    ensures scheduleType == "personal" || scheduleType == "consultation" ==> r == Int(1)
    ensures scheduleType == "group" ==> r == Int(10)
    ensures scheduleType != "personal" && scheduleType != "consultation" && scheduleType != "group" ==> r == current
  {
    if scheduleType == "personal" || scheduleType == "consultation" then Int(1)
    else if scheduleType == "group" then Int(10)
    else current
  }

  // ----- Effects -----

  /** The dependency values an effect pass saw: the date prop, `start_time` and `schedule_type`. */
  datatype Deps = Deps(selectedDate: string, startTime: string, scheduleType: string)

  /**
   * One commit's effects, in declaration order, each run when its dependency
   * differs from the previous pass (every one on the first pass): the date
   * follows the prop, a non-empty start time sets the end time, the type sets
   * the capacity.
   */
  function RunEffects(f: Form, last: Option<Deps>, selectedDate: string): (r: Form)
    ensures r.title == f.title && r.description == f.description && r.scheduleType == f.scheduleType
    ensures r.startTime == f.startTime && r.trainer == f.trainer
    ensures r.date == (if last.None? || last.value.selectedDate != selectedDate then selectedDate else f.date)
    ensures r.endTime ==
      (if (last.None? || last.value.startTime != f.startTime) && f.startTime != "" then EndTimeFor(f.startTime) else f.endTime)
    ensures r.maxParticipants ==
      (if last.None? || last.value.scheduleType != f.scheduleType then CapacityFor(f.scheduleType, f.maxParticipants) else f.maxParticipants)
  {
    var f1 := if last.None? || last.value.selectedDate != selectedDate then f.(date := selectedDate) else f;
    var f2 := if (last.None? || last.value.startTime != f.startTime) && f.startTime != "" then f1.(endTime := EndTimeFor(f.startTime)) else f1;
    if last.None? || last.value.scheduleType != f.scheduleType then f2.(maxParticipants := CapacityFor(f.scheduleType, f2.maxParticipants)) else f2
  }

  function DepsOf(f: Form, selectedDate: string): Deps
  {
    Deps(selectedDate, f.startTime, f.scheduleType)
  }

  /** The effects' own updates touch no dependency, so the render they cause runs no effect again. */
  lemma {:induction false} EffectsSettle(f: Form, last: Option<Deps>, selectedDate: string)
    ensures var r := RunEffects(f, last, selectedDate);
      DepsOf(r, selectedDate) == DepsOf(f, selectedDate) &&
      RunEffects(r, Some(DepsOf(r, selectedDate)), selectedDate) == r
  {
  }

  // ----- Validation and reset -----

  /** The required-field check of `handleSubmit`: title, both times and a truthy trainer (not 0, not NaN). */
  predicate CanSubmit(f: Form)
  {
    f.title != "" && f.startTime != "" && f.endTime != "" && f.trainer.Truthy()
  }

  /** The record after a created schedule: title, description and end time cleared, the start time set to now. */
  function AfterCreate(f: Form, now: string): (r: Form)
    ensures r.title == "" && r.description == "" && r.startTime == now && r.endTime == ""
    ensures r.date == f.date && r.scheduleType == f.scheduleType
    ensures r.trainer == f.trainer && r.maxParticipants == f.maxParticipants
  {
    f.(title := "", description := "", startTime := now, endTime := "")
  }

  /** A reset form cannot be sent again as it is, even once its effects have run: the title is empty. */
  lemma AfterCreateBlocksResubmit(f: Form, now: string, last: Option<Deps>, selectedDate: string)
    ensures !CanSubmit(AfterCreate(f, now))
    ensures !CanSubmit(RunEffects(AfterCreate(f, now), last, selectedDate))
  {
  }

  /** The first render's record, with the clock's time passed in as `now`. */
  function Initial(selectedDate: string, now: string): Form
  {
    Form("", "", "personal", selectedDate, now, "", Int(0), Int(1))
  }

  /** The mount effects fill in the end time one hour after now, and capacity one for a personal session. */
  lemma MountEffects(selectedDate: string, hours: nat, minutes: nat)
    requires hours < 24 && minutes < 60
    ensures var now := DateUtils.CurrentTimeString(hours, minutes);
      var r := RunEffects(Initial(selectedDate, now), None, selectedDate);
      r.date == selectedDate && r.endTime == Pad2(hours + 1) + ":" + Pad2(minutes) &&
      r.maxParticipants == Int(1) && !CanSubmit(r)
  {
    assert DateUtils.CurrentTimeString(hours, minutes) != "";
    EndTimeOfClock(hours, minutes);
  }

  const RequiredMessage := "필수 항목을 모두 입력해주세요."
  const CreatedMessage := "스케줄이 성공적으로 등록되었습니다!"

  /** The form component's state. */
  class Component {
    var form: Form
    var last: Option<Deps>
    var trainers: seq<int>
    var error: string
    var success: string

    /** The first render, before any effect. */
    constructor (selectedDate: string, hours: int, minutes: int)
      requires 0 <= hours < 24 && 0 <= minutes < 60
      ensures form == Initial(selectedDate, DateUtils.CurrentTimeString(hours, minutes))
      ensures last == None && trainers == [] && error == "" && success == ""
    {
      form := Initial(selectedDate, DateUtils.CurrentTimeString(hours, minutes));
      last := None;
      trainers := [];
      error := "";
      success := "";
    }

    /** The effects after a render with the given date prop. */
    method CommitEffects(selectedDate: string)
      modifies this
      ensures form == RunEffects(old(form), old(last), selectedDate)
      ensures last == Some(DepsOf(form, selectedDate))
      ensures trainers == old(trainers) && error == old(error) && success == old(success)
    {
      if last.None? || last.value.selectedDate != selectedDate {
        form := form.(date := selectedDate);
      }
      if (last.None? || last.value.startTime != form.startTime) && form.startTime != "" {
        form := form.(endTime := EndTimeFor(form.startTime));
      }
      if last.None? || last.value.scheduleType != form.scheduleType {
        form := form.(maxParticipants := CapacityFor(form.scheduleType, form.maxParticipants));
      }
      last := Some(DepsOf(form, selectedDate));
    }

    /** The trainer list arrived: it is kept, and the first trainer becomes the default when there is one. */
    method TrainersLoaded(ids: seq<int>)
      modifies this
      ensures trainers == ids
      ensures form == if |ids| > 0 then old(form).(trainer := Int(ids[0])) else old(form)
      ensures last == old(last) && error == old(error) && success == old(success)
    {
      trainers := ids;
      if |ids| > 0 {
        form := form.(trainer := Int(ids[0]));
      }
    }

    /** `handleInputChange`. */
    method HandleInputChange(name: string, value: string)
      modifies this
      ensures form == WithInput(old(form), name, value)
      ensures last == old(last) && trainers == old(trainers) && error == old(error) && success == old(success)
    {
      form := WithInput(form, name, value);
    }

    /**
     * `handleSubmit`: an incomplete record sets the error and sends nothing;
     * otherwise the record is sent, and `outcome` is the server's rejection, if
     * any. A created schedule resets the record with the clock's time and
     * tells the parent (`added`, the `onScheduleAdded()` call).
     */
    method HandleSubmit(outcome: Option<ApiClient.ErrorInfo>, hours: int, minutes: int)
      returns (sent: Option<Form>, added: bool)
      requires 0 <= hours < 24 && 0 <= minutes < 60
      modifies this
      ensures sent.Some? <==> CanSubmit(old(form))
      ensures sent.Some? ==> sent.value == old(form)
      ensures added <==> CanSubmit(old(form)) && outcome.None?
      ensures !CanSubmit(old(form)) ==> form == old(form) && error == RequiredMessage && success == old(success)
      ensures CanSubmit(old(form)) && outcome.None? ==>
        form == AfterCreate(old(form), DateUtils.CurrentTimeString(hours, minutes)) && error == "" && success == CreatedMessage
      ensures CanSubmit(old(form)) && outcome.Some? ==>
        form == old(form) && error == ApiClient.GetErrorMessage(outcome.value) && success == old(success)
      ensures last == old(last) && trainers == old(trainers)
    {
      if !(form.title != "" && form.startTime != "" && form.endTime != "" && form.trainer.Truthy()) {
        error := RequiredMessage;
        sent := None;
        added := false;
        return;
      }
      error := "";
      sent := Some(form);
      match outcome
      case None =>
        Created(hours, minutes);
        added := true;
      case Some(e) =>
        error := ApiClient.GetErrorMessage(e);
        added := false;
    }

    /** After a created schedule: the success text is shown and the record is reset with the clock's time. */
    method Created(hours: int, minutes: int)
      requires 0 <= hours < 24 && 0 <= minutes < 60
      modifies this
      ensures form == AfterCreate(old(form), DateUtils.CurrentTimeString(hours, minutes)) && success == CreatedMessage
      ensures error == old(error) && last == old(last) && trainers == old(trainers)
    {
      success := CreatedMessage;
      form := form.(title := "", description := "", startTime := DateUtils.CurrentTimeString(hours, minutes), endTime := "");
    }
  }
}
