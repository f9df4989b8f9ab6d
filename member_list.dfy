/**
 * The member list component: the new-member form's record, its input
 * handler, submission with the required-field check and the reset, and the
 * flags of each listed member.
 */
module MemberList {
  import opened Wrappers
  import opened Text
  import opened Gregorian
  import DateUtils
  import CalendarView
  import ApiViews
  import ApiClient
  import MemberModel

  /** `CreateMemberData` as the form holds it; `gender` and `trainer` start out undefined (None). */
  datatype MemberForm = MemberForm(
    name: string,
    phone: string,
    email: string,
    gender: Option<string>,
    birthDate: string,
    joinDate: string,
    trainer: Option<JsNumber>,
    goals: string,
    healthNotes: string,
    emergencyContact: string)

  /** The record of the first render and of every reset, with `getTodayString()` passed in. */
  function Initial(today: string): MemberForm
  {
    MemberForm("", "", "", None, "", today, None, "", "", "")
  }

  /** A field's value: text, a number (the trainer), or undefined. */
  datatype Value = Text(s: string) | Number(n: JsNumber) | Undefined

  predicate IsField(name: string)
  {
    name in {"name", "phone", "email", "gender", "birth_date", "join_date", "trainer", "goals", "health_notes", "emergency_contact"}
  }

  function Maybe(v: Option<string>): Value
  {
    if v.Some? then Text(v.value) else Undefined
  }

  /** The field of the record with the given input name. */
  function Get(f: MemberForm, name: string): (v: Option<Value>)
    ensures v.Some? <==> IsField(name)
  {
    match name
    case "name" => Some(Text(f.name))
    case "phone" => Some(Text(f.phone))
    case "email" => Some(Text(f.email))
    case "gender" => Some(Maybe(f.gender))
    case "birth_date" => Some(Text(f.birthDate))
    case "join_date" => Some(Text(f.joinDate))
    case "trainer" => Some(if f.trainer.Some? then Number(f.trainer.value) else Undefined)
    case "goals" => Some(Text(f.goals))
    case "health_notes" => Some(Text(f.healthNotes))
    case "emergency_contact" => Some(Text(f.emergencyContact))
    case _ => None
  }

  /** The trainer select's value as stored: undefined for '', `parseInt` otherwise. */
  function TrainerValue(value: string): Option<JsNumber>
  {
    if value == "" then None else Some(ParseInt(value))
  }

  /** What `handleInputChange` stores: for `trainer`, undefined for '' and `parseInt` otherwise; the raw string for any other input. */
  function Stored(name: string, value: string): Value
  {
    if name == "trainer" then (if value == "" then Undefined else Number(ParseInt(value))) else Text(value)
  }

  /** The record after `handleInputChange` for the input `name` with `value`. */
  function WithInput(f: MemberForm, name: string, value: string): (r: MemberForm)
    ensures IsField(name) ==> Get(r, name) == Some(Stored(name, value))
    ensures forall other :: other != name ==> Get(r, other) == Get(f, other)
  {
    match name
    case "name" => f.(name := value)
    case "phone" => f.(phone := value)
    case "email" => f.(email := value)
    case "gender" => f.(gender := Some(value))
    case "birth_date" => f.(birthDate := value)
    case "join_date" => f.(joinDate := value)
    case "trainer" => f.(trainer := TrainerValue(value))
    case "goals" => f.(goals := value)
    case "health_notes" => f.(healthNotes := value)
    case "emergency_contact" => f.(emergencyContact := value)
    case _ => f
  }

  /** Picking a trainer's option stores that trainer's id; picking the placeholder clears it. */
  lemma TrainerChoice(f: MemberForm, id: nat)
    ensures WithInput(f, "trainer", NatToDecimal(id)).trainer == Some(Int(id))
    ensures WithInput(f, "trainer", "").trainer == None
  {
    TrainerInput(f, NatToDecimal(id));
    TrainerInput(f, "");
    TrainerOption(id);
  }

  lemma TrainerInput(f: MemberForm, value: string)
    ensures WithInput(f, "trainer", value).trainer == TrainerValue(value)
  {
  }

  lemma TrainerOption(id: nat)
    ensures TrainerValue(NatToDecimal(id)) == Some(Int(id)) && TrainerValue("") == None
  {
    ParseIntOfDecimal(id);
  }

  /** The required-field check of `handleSubmit`: name, phone and join date non-empty, with no trimming. */
  predicate CanSubmit(f: MemberForm)
  {
    f.name != "" && f.phone != "" && f.joinDate != ""
  }

  /** Whitespace counts as an entry: a name and phone of blanks pass the check. */
  lemma BlanksPass(f: MemberForm, blanks: string)
    requires |blanks| > 0 && forall i :: 0 <= i < |blanks| ==> blanks[i] == ' '
    requires f.joinDate != ""
    ensures CanSubmit(f.(name := blanks, phone := blanks))
    ensures Trim(blanks) == ""
  {
    TrimEmptyIff(blanks);
  }

  /** A reset record is refused until a name and phone are entered. */
  lemma InitialBlocksSubmit(today: string)
    ensures !CanSubmit(Initial(today))
  {
  }

  /** The default join date is the date-only form the backend reads back as today, for years 1000..9999. */
  lemma InitialJoinDateReadsBack(today: Date)
    requires Valid(today) && 1000 <= today.year <= 9999
    ensures ApiViews.ParseIsoDate(Initial(DateUtils.TodayString(today)).joinDate) == Some(today)
  {
    CalendarView.DateKeyIsTodayString(today);
    ApiViews.ParseIsoDateOfKey(today);
  }

  const RequiredMessage := "이름, 전화번호, 가입일은 필수 입력사항입니다."

  /** The component's state. */
  class Component {
    var form: MemberForm
    var showAddForm: bool
    var error: string

    /** The first render, with today's date passed in. */
    constructor (today: Date)
      requires Valid(today)
      ensures form == Initial(DateUtils.TodayString(today))
      ensures !showAddForm && error == ""
    {
      form := Initial(DateUtils.TodayString(today));
      showAddForm := false;
      error := "";
    }

    /** The header button: opens or closes the form. */
    method ToggleForm()
      modifies this
      ensures showAddForm == !old(showAddForm)
      ensures form == old(form) && error == old(error)
    {
      showAddForm := !showAddForm;
    }

    /** `handleInputChange`. */
    method HandleInputChange(name: string, value: string)
      modifies this
      ensures form == WithInput(old(form), name, value)
      ensures showAddForm == old(showAddForm) && error == old(error)
    {
      form := WithInput(form, name, value);
    }

    /**
     * `handleSubmit`: an incomplete record sets the error and sends nothing;
     * otherwise the record is sent, and `outcome` is the server's rejection,
     * if any. A created member resets the record to the initial one for
     * `today`, closes the form and tells the parent (`added`).
     */
    method HandleSubmit(outcome: Option<ApiClient.ErrorInfo>, today: Date) returns (sent: Option<MemberForm>, added: bool)
      requires Valid(today)
      modifies this
      ensures sent.Some? <==> CanSubmit(old(form))
      ensures sent.Some? ==> sent.value == old(form)
      ensures added <==> CanSubmit(old(form)) && outcome.None?
      ensures !CanSubmit(old(form)) ==>
        form == old(form) && error == RequiredMessage && showAddForm == old(showAddForm)
      ensures CanSubmit(old(form)) && outcome.None? ==>
        form == Initial(DateUtils.TodayString(today)) && error == "" && !showAddForm
      ensures CanSubmit(old(form)) && outcome.Some? ==>
        form == old(form) && error == ApiClient.GetErrorMessage(outcome.value) && showAddForm == old(showAddForm)
    {
      if form.name == "" || form.phone == "" || form.joinDate == "" {
        error := RequiredMessage;
        return None, false;
      }
      error := "";
      sent := Some(form);
      match outcome
      case None =>
        form := MemberForm("", "", "", None, "", DateUtils.TodayString(today), None, "", "", "");
        showAddForm := false;
        added := true;
      case Some(e) =>
        error := ApiClient.GetErrorMessage(e);
        added := false;
    }
  }

  // ----- Listed members -----

  /** The item's class: `active` for the selected member. */
  function ItemClass(selectedId: Option<int>, m: MemberModel.Member): (r: string)
    ensures r == "member-item active" <==> selectedId == Some(m.id)
  {
    "member-item " + (if selectedId == Some(m.id) then "active" else "")
  }

  /** The inactive badge is shown exactly for inactive members. */
  predicate ShowsInactiveBadge(m: MemberModel.Member)
  {
    !m.isActive
  }

  /**
   * A list fetched with `?is_active=v` shows the badge on every member when
   * `v` is anything but `true` in some mix of cases, and on none otherwise.
   */
  lemma BadgeFollowsActiveQuery(rows: seq<MemberModel.Member>, v: string, m: MemberModel.Member)
    requires m in ApiViews.FilterActive(rows, (x: MemberModel.Member) => x.isActive, Some(v))
    ensures m in rows
    ensures ShowsInactiveBadge(m) <==> AsciiLower(v) != "true"
  {
  }

  /** With distinct ids, at most one listed member is marked active. */
  lemma AtMostOneActive(members: seq<MemberModel.Member>, selectedId: Option<int>, i: int, j: int)
    requires forall a, b :: 0 <= a < b < |members| ==> members[a].id != members[b].id
    requires 0 <= i < |members| && 0 <= j < |members|
    requires ItemClass(selectedId, members[i]) == "member-item active"
    requires ItemClass(selectedId, members[j]) == "member-item active"
    ensures i == j
  {
  }
}
