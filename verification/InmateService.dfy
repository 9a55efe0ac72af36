/** The inmate service's record rules (InmateService.java) over an in-memory
    registry: create with its duplicate check, update, delete, release,
    transfer, and the filter chain. The registry lists the records in the order
    the repository returns them; `nextId` is the identity the next save assigns.
    A thrown RuntimeException is a `Failure`, and the transaction it aborts
    leaves the registry as it was. */
module InmateService {
  import opened Wrappers
  import opened Calendar
  import opened Inmates
  import Lists
  import Text

  datatype Registry = Registry(inmates: seq<Inmate>, nextId: int)

  datatype Error =
    | DuplicateBookingNumber(bookingNumber: string)
    | InmateNotFound(id: int)
    | BookingNumberTaken(bookingNumber: string)
    | NullFlag

  /** The request body the create and update calls copy from. */
  datatype InmateRequest = InmateRequest(
    bookingNumber: string,
    firstName: string,
    lastName: string,
    middleName: Option<string>,
    dateOfBirth: Option<Date>,
    nic: Option<string>,
    sentenceStartDate: Option<Date>,
    sentenceEndDate: Option<Date>,
    securityLevel: Option<SecurityLevel>,
    currentFacility: Option<string>,
    block: Option<string>,
    cellNumber: Option<string>,
    flags: RiskFlags,
    status: Option<InmateStatus>,
    particulars: map<string, string>)

  /** The registry's invariant: identities and booking numbers are unique, and
      every identity was assigned before `nextId`. */
  predicate Good(reg: Registry)
  {
    && (forall k :: 0 <= k < |reg.inmates| ==> reg.inmates[k].id < reg.nextId)
    && KeysUnique(reg.inmates)
  }

  /** No two records share an identity or a booking number. */
  predicate KeysUnique(xs: seq<Inmate>)
  {
    forall j, k :: 0 <= j < k < |xs| ==> xs[j].id != xs[k].id && xs[j].bookingNumber != xs[k].bookingNumber
  }

  predicate HasId(reg: Registry, id: int)
  {
    exists k :: 0 <= k < |reg.inmates| && reg.inmates[k].id == id
  }

  predicate HasBookingNumber(reg: Registry, number: string)
  {
    exists k :: 0 <= k < |reg.inmates| && reg.inmates[k].bookingNumber == number
  }

  /** The record holds every field of the request except the status: the
      booking number, the names, the dates, the placement, the flags and the
      descriptive fields, a null wherever the request has one. */
  predicate HoldsRequest(i: Inmate, dto: InmateRequest)
  {
    && i.bookingNumber == dto.bookingNumber && i.firstName == dto.firstName && i.lastName == dto.lastName
    && i.middleName == dto.middleName && i.dateOfBirth == dto.dateOfBirth && i.nic == dto.nic
    && i.sentenceStartDate == dto.sentenceStartDate && i.sentenceEndDate == dto.sentenceEndDate
    && i.securityLevel == dto.securityLevel && i.currentFacility == dto.currentFacility
    && i.block == dto.block && i.cellNumber == dto.cellNumber && i.flags == dto.flags
    && i.particulars == dto.particulars
  }

  /** updateInmateFromDTO: every field the request carries is copied, nulls
      included; the status only when the request gives one. The identity, the
      release date and the timestamps are not touched. */
  function CopyRequest(i: Inmate, dto: InmateRequest): (r: Inmate)
    ensures HoldsRequest(r, dto)
    ensures r.status == (if dto.status.Some? then dto.status.value else i.status)
    ensures r.id == i.id && r.releaseDate == i.releaseDate && r.createdAt == i.createdAt && r.updatedAt == i.updatedAt
  {
    i.(bookingNumber := dto.bookingNumber, firstName := dto.firstName, lastName := dto.lastName,
       middleName := dto.middleName, dateOfBirth := dto.dateOfBirth, nic := dto.nic,
       sentenceStartDate := dto.sentenceStartDate, sentenceEndDate := dto.sentenceEndDate,
       securityLevel := dto.securityLevel, currentFacility := dto.currentFacility,
       block := dto.block, cellNumber := dto.cellNumber, flags := dto.flags,
       status := if dto.status.Some? then dto.status.value else i.status,
       particulars := dto.particulars)
  }

  /** Nothing of the old record survives a copy but its identity, release date,
      timestamps and (when the request gives none) its status: two records that
      agree on those become the same record. */
  lemma CopyOverwritesRecord(i: Inmate, j: Inmate, dto: InmateRequest)
    requires i.id == j.id && i.releaseDate == j.releaseDate
    requires i.createdAt == j.createdAt && i.updatedAt == j.updatedAt
    requires dto.status.Some? || i.status == j.status
    ensures CopyRequest(i, dto) == CopyRequest(j, dto)
  {
  }

  /** Copying the same request twice changes nothing more. */
  lemma CopyRequestIdempotent(i: Inmate, dto: InmateRequest)
    ensures CopyRequest(CopyRequest(i, dto), dto) == CopyRequest(i, dto)
  {
  }

  /** A request without a status keeps the record's status, and with one sets it. */
  lemma CopyRequestStatus(i: Inmate, dto: InmateRequest)
    ensures dto.status.None? ==> CopyRequest(i, dto).status == i.status
    ensures dto.status.Some? ==> CopyRequest(i, dto).status == dto.status.value
  {
  }

  /** createInmate: refused when the booking number is taken; otherwise the
      record is built from the request, made ACTIVE whatever the request said,
      stamped with `now` (the creation and the update timestamp alike, both
      generated on insert) and appended under a new identity. */
  function CreateInmate(reg: Registry, dto: InmateRequest, now: int): (r: Result<(Registry, Inmate), Error>)
    ensures r.Failure? <==> HasBookingNumber(reg, dto.bookingNumber)
    ensures r.Failure? ==> r.error == DuplicateBookingNumber(dto.bookingNumber)
    ensures r.Success? ==>
              var (reg', inmate) := r.value;
              && reg'.inmates == reg.inmates + [inmate]
              && inmate.id == reg.nextId && reg'.nextId == reg.nextId + 1
              && inmate == CopyRequest(Fresh(reg.nextId), dto).(status := Active, createdAt := Some(now), updatedAt := Some(now))
              && HoldsRequest(inmate, dto)
              && inmate.status == Active && inmate.createdAt == Some(now) && inmate.updatedAt == Some(now)
              && inmate.releaseDate.None?
  {
    if HasBookingNumber(reg, dto.bookingNumber) then Failure(DuplicateBookingNumber(dto.bookingNumber))
    else
      var inmate := CopyRequest(Fresh(reg.nextId), dto).(status := Active, createdAt := Some(now), updatedAt := Some(now));
      Success((Registry(reg.inmates + [inmate], reg.nextId + 1), inmate))
  }

  /** Creating keeps identities and booking numbers unique. */
  lemma CreateKeepsRegistryGood(reg: Registry, dto: InmateRequest, now: int)
    requires Good(reg) && CreateInmate(reg, dto, now).Success?
    ensures Good(CreateInmate(reg, dto, now).value.0)
  {
    var (reg', inmate) := CreateInmate(reg, dto, now).value;
    var n := |reg.inmates|;
    forall j, k | 0 <= j < k < |reg'.inmates|
      ensures reg'.inmates[j].id != reg'.inmates[k].id
      ensures reg'.inmates[j].bookingNumber != reg'.inmates[k].bookingNumber
    {
      if k == n {
        assert reg'.inmates[j] == reg.inmates[j];
        assert reg.inmates[j].bookingNumber != dto.bookingNumber;
      }
    }
  }

  /** findByBookingNumber, for a registry whose booking numbers are unique. */
  function FindByBookingNumber(reg: Registry, number: string): (r: Option<Inmate>)
    ensures r.Some? <==> HasBookingNumber(reg, number)
    ensures r.Some? ==> r.value in reg.inmates && r.value.bookingNumber == number
  {
    var hits := Lists.Filter(reg.inmates, (i: Inmate) => i.bookingNumber == number);
    if |hits| == 0 then None
    else
      assert hits[0] in hits;
      Some(hits[0])
  }

  /** A created inmate is found again by its booking number. */
  lemma CreatedIsFoundByBookingNumber(reg: Registry, dto: InmateRequest, now: int)
    requires Good(reg) && CreateInmate(reg, dto, now).Success?
    ensures var (reg', inmate) := CreateInmate(reg, dto, now).value;
      FindByBookingNumber(reg', dto.bookingNumber) == Some(inmate)
  {
    var (reg', inmate) := CreateInmate(reg, dto, now).value;
    CreateKeepsRegistryGood(reg, dto, now);
    var found := FindByBookingNumber(reg', dto.bookingNumber);
    assert reg'.inmates[|reg.inmates|] == inmate;
    var k :| 0 <= k < |reg'.inmates| && reg'.inmates[k] == found.value;
    assert k == |reg.inmates|;
  }

  /** The record with identity `id`, when there is one. */
  function FindById(reg: Registry, id: int): (r: Option<Inmate>)
    ensures r.Some? <==> HasId(reg, id)
    ensures r.Some? ==> r.value in reg.inmates && r.value.id == id
  {
    var hits := Lists.Filter(reg.inmates, (i: Inmate) => i.id == id);
    if |hits| == 0 then None
    else
      assert hits[0] in hits;
      Some(hits[0])
  }

  /** Saving a changed record: the record with identity `id` replaced, every
      other one kept in place. */
  function Replace(reg: Registry, id: int, changed: Inmate): (r: Registry)
    ensures |r.inmates| == |reg.inmates| && r.nextId == reg.nextId
    ensures forall k :: 0 <= k < |reg.inmates| ==>
              r.inmates[k] == (if reg.inmates[k].id == id then changed else reg.inmates[k])
  {
    Registry(seq(|reg.inmates|, k requires 0 <= k < |reg.inmates| =>
                   if reg.inmates[k].id == id then changed else reg.inmates[k]), reg.nextId)
  }

  /** releaseInmate: status RELEASED, release date today, update time now. */
  function ReleaseInmate(reg: Registry, id: int, today: Date, now: int): (r: Result<(Registry, Inmate), Error>)
    ensures r.Failure? <==> !HasId(reg, id)
    ensures r.Failure? ==> r.error == InmateNotFound(id)
    ensures r.Success? ==>
              var (reg', inmate) := r.value;
              var before := FindById(reg, id).value;
              && inmate.status == Released && inmate.releaseDate == Some(today) && inmate.updatedAt == Some(now)
              && inmate == before.(status := Released, releaseDate := Some(today), updatedAt := Some(now))
              && reg' == Replace(reg, id, inmate)
  {
    match FindById(reg, id)
    case None => Failure(InmateNotFound(id))
    case Some(before) =>
      var inmate := before.(status := Released, releaseDate := Some(today), updatedAt := Some(now));
      Success((Replace(reg, id, inmate), inmate))
  }

  /** A released inmate has no days remaining, and the days served stop at the
      release date. */
  lemma ReleaseStopsTheClock(reg: Registry, id: int, today: Date, now: int, later: Date)
    requires ReleaseInmate(reg, id, today, now).Success?
    ensures var inmate := ReleaseInmate(reg, id, today, now).value.1;
      && DaysRemaining(inmate, later).None?
      && DaysServed(inmate, later) == DaysServed(inmate, today)
  {
  }

  /** Everything but the placement fields (facility, block, cell) and the update time. */
  predicate SameExceptPlacement(a: Inmate, b: Inmate)
  {
    && a.id == b.id && a.bookingNumber == b.bookingNumber && a.firstName == b.firstName
    && a.lastName == b.lastName && a.middleName == b.middleName && a.dateOfBirth == b.dateOfBirth
    && a.nic == b.nic && a.sentenceStartDate == b.sentenceStartDate && a.sentenceEndDate == b.sentenceEndDate
    && a.securityLevel == b.securityLevel && a.releaseDate == b.releaseDate && a.flags == b.flags
    && a.status == b.status && a.particulars == b.particulars && a.createdAt == b.createdAt
  }

  /** transferInmate: the new facility, block and cell (the latter two may be
      null) and the update time; nothing else of the record changes. */
  function TransferInmate(reg: Registry, id: int, facility: string, block: Option<string>, cell: Option<string>,
                          now: int): (r: Result<(Registry, Inmate), Error>)
    ensures r.Failure? <==> !HasId(reg, id)
    ensures r.Failure? ==> r.error == InmateNotFound(id)
    ensures r.Success? ==>
              var (reg', inmate) := r.value;
              var before := FindById(reg, id).value;
              && SameExceptPlacement(inmate, before)
              && inmate.currentFacility == Some(facility) && inmate.block == block && inmate.cellNumber == cell
              && inmate.updatedAt == Some(now)
              && reg' == Replace(reg, id, inmate)
  {
    match FindById(reg, id)
    case None => Failure(InmateNotFound(id))
    case Some(before) =>
      var inmate := before.(currentFacility := Some(facility), block := block, cellNumber := cell, updatedAt := Some(now));
      Success((Replace(reg, id, inmate), inmate))
  }

  /** A transfer back to the old placement restores the record but for its update time. */
  lemma TransferBack(reg: Registry, id: int, facility: string, block: Option<string>, cell: Option<string>, now: int,
                     later: int)
    requires TransferInmate(reg, id, facility, block, cell, now).Success?
    requires FindById(reg, id).value.currentFacility.Some?
    ensures var before := FindById(reg, id).value;
      var moved := TransferInmate(reg, id, facility, block, cell, now).value.1;
      var back := moved.(currentFacility := before.currentFacility, block := before.block,
                         cellNumber := before.cellNumber, updatedAt := Some(later));
      back == before.(updatedAt := Some(later))
  {
  }

  /** updateInmate: the request copied onto the record and the update time set.
      The booking number column is unique, so the save is refused when another
      record already carries the request's booking number. */
  function UpdateInmate(reg: Registry, id: int, dto: InmateRequest, now: int): (r: Result<(Registry, Inmate), Error>)
    ensures r == Failure(InmateNotFound(id)) <==> !HasId(reg, id)
    ensures r == Failure(BookingNumberTaken(dto.bookingNumber)) <==>
              HasId(reg, id) && exists k :: 0 <= k < |reg.inmates| && reg.inmates[k].id != id
                                                && reg.inmates[k].bookingNumber == dto.bookingNumber
    ensures r.Success? ==>
              var (reg', inmate) := r.value;
              && inmate == CopyRequest(FindById(reg, id).value, dto).(updatedAt := Some(now))
              && inmate.status == (if dto.status.Some? then dto.status.value else FindById(reg, id).value.status)
              && reg' == Replace(reg, id, inmate)
  {
    match FindById(reg, id)
    case None => Failure(InmateNotFound(id))
    case Some(before) =>
      if exists k :: 0 <= k < |reg.inmates| && reg.inmates[k].id != id && reg.inmates[k].bookingNumber == dto.bookingNumber then
        Failure(BookingNumberTaken(dto.bookingNumber))
      else
        var inmate := CopyRequest(before, dto).(updatedAt := Some(now));
        Success((Replace(reg, id, inmate), inmate))
  }

  /** Updating keeps identities and booking numbers unique: the record keeps its
      identity, and its new booking number is one no other record carries. */
  lemma UpdateKeepsRegistryGood(reg: Registry, id: int, dto: InmateRequest, now: int)
    requires Good(reg) && UpdateInmate(reg, id, dto, now).Success?
    ensures Good(UpdateInmate(reg, id, dto, now).value.0)
  {
    var reg' := UpdateInmate(reg, id, dto, now).value.0;
    var inmate := UpdateInmate(reg, id, dto, now).value.1;
    assert inmate.id == id && inmate.bookingNumber == dto.bookingNumber;
    forall k | 0 <= k < |reg.inmates|
      ensures reg'.inmates[k].id == reg.inmates[k].id
      ensures reg.inmates[k].id != id ==> reg'.inmates[k] == reg.inmates[k]
      ensures reg.inmates[k].id != id ==> reg.inmates[k].bookingNumber != dto.bookingNumber
    {
    }
    forall j, k | 0 <= j < k < |reg'.inmates|
      ensures reg'.inmates[j].id != reg'.inmates[k].id
      ensures reg'.inmates[j].bookingNumber != reg'.inmates[k].bookingNumber
    {
      if reg.inmates[j].id == id {
        assert reg'.inmates[j] == inmate;
      } else if reg.inmates[k].id == id {
        assert reg'.inmates[k] == inmate;
      }
    }
  }

  /** deleteInmate: refused for an unknown identity; otherwise the record is
      removed and every other one kept, in order. */
  function DeleteInmate(reg: Registry, id: int): (r: Result<Registry, Error>)
    ensures r.Failure? <==> !HasId(reg, id)
    ensures r.Failure? ==> r.error == InmateNotFound(id)
    ensures r.Success? ==>
              && !HasId(r.value, id) && r.value.nextId == reg.nextId
              && |r.value.inmates| < |reg.inmates|
              && forall i :: i in r.value.inmates <==> i in reg.inmates && i.id != id
  {
    if !HasId(reg, id) then Failure(InmateNotFound(id))
    else
      var kept := Lists.Filter(reg.inmates, (i: Inmate) => i.id != id);
      var k :| 0 <= k < |reg.inmates| && reg.inmates[k].id == id;
      assert reg.inmates[k] in reg.inmates && reg.inmates[k] !in kept;
      FilterDropsSomething(reg.inmates, (i: Inmate) => i.id != id, k);
      Success(Registry(kept, reg.nextId))
  }

  lemma FilterDropsSomething(xs: seq<Inmate>, p: Inmate -> bool, k: int)
    requires 0 <= k < |xs| && !p(xs[k])
    ensures |Lists.Filter(xs, p)| < |xs|
  {
    var f := Lists.Filter(xs, p);
    if |xs| > 0 {
      var init := xs[..|xs| - 1];
      assert Lists.Filter(xs, p) == Lists.Filter(init, p) + (if p(xs[|xs| - 1]) then [xs[|xs| - 1]] else []);
      if k < |xs| - 1 {
        assert init[k] == xs[k];
        FilterDropsSomething(init, p, k);
      }
    }
  }

  /** Deleting keeps identities and booking numbers unique. */
  lemma DeleteKeepsRegistryGood(reg: Registry, id: int)
    requires Good(reg) && DeleteInmate(reg, id).Success?
    ensures Good(DeleteInmate(reg, id).value)
  {
    var kept := DeleteInmate(reg, id).value.inmates;
    assert kept == Lists.Filter(reg.inmates, (i: Inmate) => i.id != id);
    FilterKeepsDistinct(reg.inmates, (i: Inmate) => i.id != id);
  }

  /** A filtered registry keeps distinct identities and booking numbers. */
  lemma {:induction false} FilterKeepsDistinct(xs: seq<Inmate>, p: Inmate -> bool)
    requires KeysUnique(xs)
    ensures KeysUnique(Lists.Filter(xs, p))
  {
    if |xs| > 0 {
      var init := xs[..|xs| - 1];
      var last := xs[|xs| - 1];
      FilterKeepsDistinct(init, p);
      var fi := Lists.Filter(init, p);
      var f := Lists.Filter(xs, p);
      assert f == fi + (if p(last) then [last] else []);
      forall j | 0 <= j < |fi| ensures fi[j].id != last.id && fi[j].bookingNumber != last.bookingNumber {
        assert fi[j] in init;
        var m :| 0 <= m < |init| && init[m] == fi[j];
        assert xs[m] == init[m];
      }
      forall j, k | 0 <= j < k < |f| ensures f[j].id != f[k].id && f[j].bookingNumber != f[k].bookingNumber {
        assert f[j] == fi[j];
        if k == |fi| {
          assert f[k] == last;
        } else {
          assert f[k] == fi[k];
        }
      }
    }
  }

  /** The criteria filterInmates reads (the date ranges it carries are never read). */
  datatype InmateFilter = InmateFilter(
    searchTerm: Option<string>,
    status: Option<InmateStatus>,
    securityLevel: Option<SecurityLevel>,
    currentFacility: Option<string>,
    block: Option<string>,
    gangAffiliation: Option<bool>,
    highRisk: Option<bool>)

  /** searchInmates: the term, lower-cased, occurs in the lower-cased first
      name, last name, booking number or NIC (an unset NIC never matches). */
  predicate MatchesSearch(i: Inmate, term: string)
  {
    var t := Text.ToLower(term);
    || Text.Contains(Text.ToLower(i.firstName), t)
    || Text.Contains(Text.ToLower(i.lastName), t)
    || Text.Contains(Text.ToLower(i.bookingNumber), t)
    || (i.nic.Some? && Text.Contains(Text.ToLower(i.nic.value), t))
  }

  /** Which repository query supplies the records to filter. */
  datatype BaseQuery = BySearch(term: string) | ByStatus(status: InmateStatus)
                     | BySecurityLevel(level: SecurityLevel) | ByFacility(facility: string) | AllRecords

  /** The first criterion that is set, in the order search term (non-empty),
      status, security level, facility, decides the query. */
  function BaseQueryOf(f: InmateFilter): (q: BaseQuery)
    ensures q.BySearch? <==> f.searchTerm.Some? && |f.searchTerm.value| > 0
    ensures q.ByStatus? <==> !(f.searchTerm.Some? && |f.searchTerm.value| > 0) && f.status.Some?
    ensures q.BySecurityLevel? <==>
              !(f.searchTerm.Some? && |f.searchTerm.value| > 0) && f.status.None? && f.securityLevel.Some?
    ensures q.ByFacility? <==>
              !(f.searchTerm.Some? && |f.searchTerm.value| > 0) && f.status.None? && f.securityLevel.None?
              && f.currentFacility.Some?
  {
    if f.searchTerm.Some? && |f.searchTerm.value| > 0 then BySearch(f.searchTerm.value)
    else if f.status.Some? then ByStatus(f.status.value)
    else if f.securityLevel.Some? then BySecurityLevel(f.securityLevel.value)
    else if f.currentFacility.Some? then ByFacility(f.currentFacility.value)
    else AllRecords
  }

  predicate InBase(i: Inmate, q: BaseQuery)
  {
    match q
    case BySearch(term) => MatchesSearch(i, term)
    case ByStatus(status) => i.status == status
    case BySecurityLevel(level) => i.securityLevel == Some(level)
    case ByFacility(facility) => i.currentFacility == Some(facility)
    case AllRecords => true
  }

  /** The block and gang filters: an unset criterion passes everything; a set
      one passes the records equal to it (a null field never equals). */
  predicate PassesBlockAndGang(i: Inmate, f: InmateFilter)
  {
    && (f.block.None? || i.block == f.block)
    && (f.gangAffiliation.None? || i.flags.gangAffiliation == f.gangAffiliation)
  }

  /** Reading a boxed flag as `Boolean.TRUE.equals` would: null is false. */
  predicate IsSet(flag: Option<bool>)
  {
    flag == Some(true)
  }

  /** The high-risk filter: unset passes everything, false passes nothing, true
      passes an escape risk or a violent history. */
  predicate PassesHighRisk(i: Inmate, f: InmateFilter)
  {
    f.highRisk.None? || (f.highRisk.value && (IsSet(i.flags.escapeRisk) || IsSet(i.flags.violentHistory)))
  }

  /** The records the chain reaches the high-risk test with. */
  function Candidates(reg: Registry, f: InmateFilter): (cs: seq<Inmate>)
    ensures forall i :: i in cs <==> i in reg.inmates && InBase(i, BaseQueryOf(f)) && PassesBlockAndGang(i, f)
  {
    var q := BaseQueryOf(f);
    Lists.Filter(reg.inmates, (i: Inmate) => InBase(i, q) && PassesBlockAndGang(i, f))
  }

  /** `inmate.getEscapeRisk() || inmate.getViolentHistory()` unboxes a null:
      the escape flag is null, or it is false and the violence flag is null. */
  predicate UnboxesNull(i: Inmate)
  {
    i.flags.escapeRisk.None? || (i.flags.escapeRisk == Some(false) && i.flags.violentHistory.None?)
  }

  /** filterInmates as written: with highRisk true, any record reaching the test
      whose flags unbox a null throws a NullPointerException. */
  function FilterInmatesAsWritten(reg: Registry, f: InmateFilter): (r: Result<seq<Inmate>, Error>)
    ensures r.Failure? <==> f.highRisk == Some(true) && exists i :: i in Candidates(reg, f) && UnboxesNull(i)
    ensures r.Success? ==> r.value == FilterInmates(reg, f)
  {
    var cs := Candidates(reg, f);
    if f.highRisk == Some(true) && exists i :: i in cs && UnboxesNull(i) then Failure(NullFlag)
    else Success(FilterInmates(reg, f))
  }

  /** filterInmates with a null flag read as false, as the repository's
      high-risk query (`escapeRisk = true OR violentHistory = true`) reads it. */
  function FilterInmates(reg: Registry, f: InmateFilter): (r: seq<Inmate>)
    ensures |r| <= |reg.inmates|
    ensures forall i :: i in r <==>
              i in reg.inmates && InBase(i, BaseQueryOf(f)) && PassesBlockAndGang(i, f) && PassesHighRisk(i, f)
  {
    Lists.Filter(Candidates(reg, f), (i: Inmate) => PassesHighRisk(i, f))
  }

  /** findHighRiskInmates. */
  function HighRiskInmates(reg: Registry): (r: seq<Inmate>)
    ensures forall i :: i in r <==> i in reg.inmates && (IsSet(i.flags.escapeRisk) || IsSet(i.flags.violentHistory))
  {
    Lists.Filter(reg.inmates, (i: Inmate) => IsSet(i.flags.escapeRisk) || IsSet(i.flags.violentHistory))
  }

  const NoCriteria := InmateFilter(None, None, None, None, None, None, None)

  /** With no criteria set, the filter returns every record. */
  lemma NoCriteriaKeepsAll(reg: Registry)
    ensures forall i :: i in FilterInmates(reg, NoCriteria) <==> i in reg.inmates
    ensures FilterInmatesAsWritten(reg, NoCriteria) == Success(FilterInmates(reg, NoCriteria))
  {
  }

  /** highRisk false passes nothing at all. */
  lemma HighRiskFalseSelectsNothing(reg: Registry, f: InmateFilter)
    requires f.highRisk == Some(false)
    ensures FilterInmates(reg, f) == []
  {
  }

  /** With only highRisk true set, the filter agrees with the repository's
      high-risk query. */
  lemma HighRiskAloneMatchesQuery(reg: Registry)
    ensures forall i :: i in FilterInmates(reg, HighRiskOnly) <==> i in HighRiskInmates(reg)
  {
  }

  /** Where every flag the test reads is set, the code as written does not throw
      and agrees with the null-safe reading. */
  lemma AsWrittenAgreesWithoutNulls(reg: Registry, f: InmateFilter)
    requires forall k :: 0 <= k < |reg.inmates| ==>
               reg.inmates[k].flags.escapeRisk.Some? && reg.inmates[k].flags.violentHistory.Some?
    ensures FilterInmatesAsWritten(reg, f) == Success(FilterInmates(reg, f))
  {
    forall i | i in Candidates(reg, f) ensures !UnboxesNull(i) {
      assert i in reg.inmates;
    }
  }

  const HighRiskOnly := NoCriteria.(highRisk := Some(true))

  /** A request that leaves the flags out creates a record whose flags are null
      (the entity's false defaults are overwritten), and a high-risk filter over
      it then throws. */
  lemma NullFlagsBreakHighRiskFilter(dto: InmateRequest, now: int)
    requires dto.flags == RiskFlags(None, None, None, None)
    ensures CreateInmate(Registry([], 1), dto, now).Success?
    ensures var reg := CreateInmate(Registry([], 1), dto, now).value.0;
      && FilterInmatesAsWritten(reg, HighRiskOnly) == Failure(NullFlag)
      && FilterInmates(reg, HighRiskOnly) == []
  {
    var empty := Registry([], 1);
    assert !HasBookingNumber(empty, dto.bookingNumber);
    var created := CreateInmate(empty, dto, now);
    assert created.value.0.inmates == [] + [created.value.1];
    SingleNullRecordThrows(created.value.0, created.value.1);
  }

  /** A registry holding one record with null escape and violence flags makes
      the high-risk filter throw as written, while the null-safe reading
      selects nothing. */
  lemma SingleNullRecordThrows(reg: Registry, inmate: Inmate)
    requires reg.inmates == [inmate] && inmate.flags.escapeRisk.None? && inmate.flags.violentHistory.None?
    ensures FilterInmatesAsWritten(reg, HighRiskOnly) == Failure(NullFlag)
    ensures FilterInmates(reg, HighRiskOnly) == []
  {
    var f := HighRiskOnly;
    assert f.highRisk == Some(true) && f.block.None? && f.gangAffiliation.None?;
    HighRiskOnlyReachesAll(reg);
    assert inmate in reg.inmates;
    assert inmate in Candidates(reg, f) && UnboxesNull(inmate);
    assert !PassesHighRisk(inmate, f);
  }

  /** With only the high-risk criterion set, every record reaches the high-risk test. */
  lemma HighRiskOnlyReachesAll(reg: Registry)
    ensures forall i :: i in Candidates(reg, HighRiskOnly) <==> i in reg.inmates
  {
    assert BaseQueryOf(HighRiskOnly) == AllRecords;
  }
}
