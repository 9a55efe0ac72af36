/** The inmate record of the inmate service (Inmate.java): the fields the
    service's rules read or write, the entity's defaults, and its derived
    fields. "Today" is a parameter wherever the Java code reads the clock. */
module Inmates {
  import opened Wrappers
  import opened Calendar

  datatype InmateStatus =
    | Active | Released | Transferred | Deceased | Escaped | OnParole | MedicalLeave | CourtAppearance

  /** A security level, compared by its enumeration name. */
  datatype SecurityLevel = SecurityLevel(name: string)

  /** The boxed Boolean risk flags; each may be null. */
  datatype RiskFlags = RiskFlags(
    gangAffiliation: Option<bool>, violentHistory: Option<bool>, escapeRisk: Option<bool>, suicideRisk: Option<bool>)

  /** `particulars` holds, by field name, the descriptive fields (gender,
      address, case and medical details and the rest) that the service only
      copies between request and record. Timestamps are the clock readings the
      service stored. */
  datatype Inmate = Inmate(
    id: int,
    bookingNumber: string,
    firstName: string,
    lastName: string,
    middleName: Option<string>,
    dateOfBirth: Option<Date>,
    nic: Option<string>,
    sentenceStartDate: Option<Date>,
    sentenceEndDate: Option<Date>,
    securityLevel: Option<SecurityLevel>,
    currentFacility: Option<string>,
    block: Option<string>,
    cellNumber: Option<string>,
    releaseDate: Option<Date>,
    flags: RiskFlags,
    status: InmateStatus,
    particulars: map<string, string>,
    createdAt: Option<int>,
    updatedAt: Option<int>)

  /** `new Inmate()` with the identity the database assigns: status ACTIVE and
      every risk flag false; every other field unset. The names start empty. */
  function Fresh(id: int): (i: Inmate)
    ensures i.id == id && i.status == Active
    ensures i.flags.gangAffiliation == i.flags.violentHistory == i.flags.escapeRisk == i.flags.suicideRisk == Some(false)
    ensures i.releaseDate.None? && i.createdAt.None? && i.updatedAt.None?
  {
    Inmate(id, "", "", "", None, None, None, None, None, None, None, None, None, None,
           RiskFlags(Some(false), Some(false), Some(false), Some(false)), Active, map[], None, None)
  }

  /** getFullName: first, middle and last name separated by single spaces; an
      unset or empty middle name is skipped. */
  function FullName(i: Inmate): (name: string)
    ensures var hasMiddle := i.middleName.Some? && |i.middleName.value| > 0;
      && |name| == |i.firstName| + |i.lastName| + 1 + (if hasMiddle then |i.middleName.value| + 1 else 0)
      && name[..|i.firstName|] == i.firstName && name[|i.firstName|] == ' '
      && name[|name| - |i.lastName|..] == i.lastName && name[|name| - |i.lastName| - 1] == ' '
      && (hasMiddle ==> name[|i.firstName| + 1..|i.firstName| + 1 + |i.middleName.value|] == i.middleName.value)
  {
    if i.middleName.Some? && |i.middleName.value| > 0 then
      i.firstName + " " + i.middleName.value + " " + i.lastName
    else
      i.firstName + " " + i.lastName
  }

  /** getAge: the difference of the calendar years, or null without a date of birth. */
  function Age(i: Inmate, today: Date): (age: Option<int>)
    ensures age.Some? <==> i.dateOfBirth.Some?
    ensures age.Some? ==> age.value == today.year - i.dateOfBirth.value.year
  {
    match i.dateOfBirth
    case None => None
    case Some(dob) => Some(today.year - dob.year)
  }

  /** The whole years lived: the year difference, less one before the birthday. */
  function CompletedYears(dob: Date, today: Date): int
  {
    var birthdayReached := today.month > dob.month || (today.month == dob.month && today.day >= dob.day);
    today.year - dob.year - (if birthdayReached then 0 else 1)
  }

  /** The reported age counts calendar years: it is the age in whole years on
      or after the birthday and one more before it. */
  lemma AgeCountsCalendarYears(i: Inmate, today: Date)
    requires i.dateOfBirth.Some?
    ensures var dob := i.dateOfBirth.value;
      var birthdayReached := today.month > dob.month || (today.month == dob.month && today.day >= dob.day);
      && (birthdayReached ==> Age(i, today).value == CompletedYears(dob, today))
      && (!birthdayReached ==> Age(i, today).value == CompletedYears(dob, today) + 1)
  {
  }

  /** getDaysServed: days from the sentence start to the release date, or to
      today while there is none; null without a start date. */
  function DaysServed(i: Inmate, today: Date): (days: Option<int>)
    ensures days.Some? <==> i.sentenceStartDate.Some?
    ensures days.Some? ==> -0x8000_0000 <= days.value < 0x8000_0000
    ensures days.Some? ==>
              var end := if i.releaseDate.Some? then i.releaseDate.value else today;
              days.value == ToInt32(DaysBetween(i.sentenceStartDate.value, end))
  {
    match i.sentenceStartDate
    case None => None
    case Some(start) =>
      var end := if i.releaseDate.Some? then i.releaseDate.value else today;
      Some(ToInt32(DaysBetween(start, end)))
  }

  /** getDaysRemaining: days from today to the sentence end, only for an ACTIVE
      inmate with an end date; null otherwise. */
  function DaysRemaining(i: Inmate, today: Date): (days: Option<int>)
    ensures days.Some? <==> i.sentenceEndDate.Some? && i.status == Active
    ensures days.Some? ==> -0x8000_0000 <= days.value < 0x8000_0000
    ensures days.Some? ==> days.value == ToInt32(DaysBetween(today, i.sentenceEndDate.value))
  {
    if i.sentenceEndDate.Some? && i.status == Active then
      Some(ToInt32(DaysBetween(today, i.sentenceEndDate.value)))
    else
      None
  }

  /** A count of days that fits Java's int. */
  predicate FitsInt(n: int)
  {
    -0x8000_0000 <= n < 0x8000_0000
  }

  /** For an active, unreleased inmate, days served and days remaining add up
      to the sentence's length in days, whatever day it is. */
  lemma ServedPlusRemaining(i: Inmate, today: Date)
    requires i.status == Active && i.releaseDate.None?
    requires i.sentenceStartDate.Some? && i.sentenceEndDate.Some?
    requires FitsInt(DaysBetween(i.sentenceStartDate.value, today))
    requires FitsInt(DaysBetween(today, i.sentenceEndDate.value))
    ensures DaysServed(i, today).value + DaysRemaining(i, today).value
              == DaysBetween(i.sentenceStartDate.value, i.sentenceEndDate.value)
  {
  }

  /** Until release, each day adds one to the days served. */
  lemma ServedGrowsDaily(i: Inmate, today: Date)
    requires Valid(today) && i.releaseDate.None? && i.sentenceStartDate.Some?
    requires FitsInt(DaysBetween(i.sentenceStartDate.value, NextDay(today)))
    requires FitsInt(DaysBetween(i.sentenceStartDate.value, today))
    ensures DaysServed(i, NextDay(today)).value == DaysServed(i, today).value + 1
  {
    NextDayIsOneLater(today);
  }

  /** After release, the days served no longer depend on the day they are read. */
  lemma ServedFrozenAfterRelease(i: Inmate, day1: Date, day2: Date)
    requires i.releaseDate.Some?
    ensures DaysServed(i, day1) == DaysServed(i, day2)
  {
  }
}
