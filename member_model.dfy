/**
 * The gym member record: its display string and its age in full years on a
 * given day (`date.today()` is a parameter).
 */
module MemberModel {
  import opened Wrappers
  import opened Gregorian

  /** A member as stored; `birthDate` is optional. */
  datatype Member = Member(
    id: int,
    name: string,
    phone: string,
    email: string,
    gender: string,
    birthDate: Option<Date>,
    joinDate: Date,
    trainer: Option<int>,
    isActive: bool)

  /** `__str__`: the name, then the phone in parentheses; both read back from the text. */
  function Display(m: Member): (r: string)
    ensures |r| == |m.name| + |m.phone| + 3
    ensures r[..|m.name|] == m.name
    ensures r[|m.name|..|m.name| + 2] == " (" && r[|r| - 1] == ')'
    ensures r[|m.name| + 2..|r| - 1] == m.phone
  {
    m.name + " (" + m.phone + ")"
  }

  /** `(today.month, today.day) < (birth.month, birth.day)`: this year's birthday is still ahead. */
  predicate BirthdayAhead(birth: Date, today: Date)
  {
    today.month < birth.month || (today.month == birth.month && today.day < birth.day)
  }

  /** `age`: nothing without a birth date; otherwise the year difference, less one before this year's birthday. */
  function Age(birthDate: Option<Date>, today: Date): (r: Option<int>)
    ensures r.None? <==> birthDate.None?
  {
    match birthDate
    case None => None
    case Some(b) => Some(today.year - b.year - (if BirthdayAhead(b, today) then 1 else 0))
  }

  /**
   * The age counts full years: the birthday `age` years on has been reached
   * by today and the one a year later has not; no other count has both.
   */
  lemma AgeCountsFullYears(b: Date, today: Date, n: int)
    ensures var a := Age(Some(b), today).value;
      !Before(today, Date(b.year + a, b.month, b.day)) && Before(today, Date(b.year + a + 1, b.month, b.day))
    ensures !Before(today, Date(b.year + n, b.month, b.day)) && Before(today, Date(b.year + n + 1, b.month, b.day))
      ==> n == Age(Some(b), today).value
  {
  }

  /** Someone born no later than today has an age of at least 0. */
  lemma AgeNonNegative(b: Date, today: Date)
    requires !Before(today, b)
    ensures Age(Some(b), today).value >= 0
  {
  }

  /** On the birthday itself the age is the plain year difference. */
  lemma AgeOnBirthday(b: Date, today: Date)
    requires today.month == b.month && today.day == b.day
    ensures Age(Some(b), today).value == today.year - b.year
  {
  }

  /** The age never decreases as the day advances, and grows by at most one a year. */
  lemma AgeMonotone(b: Date, earlier: Date, later: Date)
    requires !Before(later, earlier)
    ensures Age(Some(b), earlier).value <= Age(Some(b), later).value
    ensures later.year == earlier.year ==> Age(Some(b), later).value <= Age(Some(b), earlier).value + 1
  {
  }
}
