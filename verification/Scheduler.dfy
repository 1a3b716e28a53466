/**
 The weekly duty schedule: one assignee per ISO week, chosen round-robin over
 the covered apartments, owned by majority of days, delegated to the tenant of
 the whole week.
 */
module Scheduler {
  import opened Wrappers
  import opened Calendar
  import opened Apartments

  datatype DatedPerson = DatedPerson(id: Id, apartment: Id, name: string, email: string, start: Day, end: Option<Day>)

  datatype Assignee = Assignee(id: Id, name: string, email: string)

  datatype WeekAssignment = WeekAssignment(
    year: int, isoWeek: int, start: Day, end: Day, assignee: Option<Assignee>, delegated: bool)

  /** What a schedule is computed from; the apartments are in rotation order. */
  datatype Inputs = Inputs(
    seed: int, apartments: seq<Id>, owners: seq<DatedPerson>, tenancies: seq<DatedPerson>,
    buildingOwners: seq<DatedPerson>)

  // ----- weeks -----

  const ROTATION_EPOCH: Day := DayOf(2020, 1, 6)

  /** Integer division of the source language: rounds towards zero. */
  function TruncatingDiv(a: int, b: int): int
    requires b > 0
  {
    if a < 0 then -(-a / b) else a / b
  }

  function GlobalWeekIndex(weekStart: Day): int {
    TruncatingDiv(weekStart - ROTATION_EPOCH, 7)
  }

  /** Before and after the epoch the index rises by exactly one from Monday to Monday. */
  lemma WeekIndexIsExact(weekStart: Day)
    requires Weekday(weekStart) == 0
    ensures weekStart == ROTATION_EPOCH + 7 * GlobalWeekIndex(weekStart)
    ensures GlobalWeekIndex(weekStart + 7) == GlobalWeekIndex(weekStart) + 1
  {
    assert ROTATION_EPOCH == 737430;
    MondaysApart(ROTATION_EPOCH, weekStart);
    ExactQuotient(weekStart - ROTATION_EPOCH);
    ExactQuotient(weekStart + 7 - ROTATION_EPOCH);
  }

  /** The count starts with the Monday of ISO week 2 of 2020. */
  lemma EpochIsWeekTwo()
    ensures GlobalWeekIndex(DayOf(2020, 1, 6)) == 0 && Weekday(DayOf(2020, 1, 6)) == 0
    ensures DayOf(2020, 1, 6) == Week1Monday(2020) + 7
  {
    assert DayOf(2020, 1, 6) == 737430 && YearStart(2020) == 737425;
  }

  lemma ExactQuotient(a: int)
    requires a % 7 == 0
    ensures 7 * TruncatingDiv(a, 7) == a
  {
  }

  // ----- owners and tenants of a week -----

  function OverlapDays(p: DatedPerson, weekStart: Day, weekEnd: Day): (days: int)
    ensures days >= 0
    ensures weekStart <= weekEnd ==> days <= weekEnd - weekStart + 1
  {
    var start := if p.start < weekStart then weekStart else p.start;
    var end := if p.end.Some? && p.end.value < weekEnd then p.end.value else weekEnd;
    if start > end then 0 else end - start + 1
  }

  /** The first owner with the most days, at least four. */
  function Majority(owners: seq<DatedPerson>, weekStart: Day): (r: Option<DatedPerson>)
    ensures r.Some? ==> r.value in owners && OverlapDays(r.value, weekStart, weekStart + 6) >= 4
    ensures r.Some? ==> forall p :: p in owners ==>
      OverlapDays(p, weekStart, weekStart + 6) <= OverlapDays(r.value, weekStart, weekStart + 6)
    ensures r.None? ==> forall p :: p in owners ==> OverlapDays(p, weekStart, weekStart + 6) < 4
  {
    if owners == [] then None
    else
      var front, last := owners[..|owners| - 1], owners[|owners| - 1];
      var best := Majority(front, weekStart);
      var days := OverlapDays(last, weekStart, weekStart + 6);
      assert owners == front + [last];
      if days >= 4 && (best.None? || days > OverlapDays(best.value, weekStart, weekStart + 6)) then Some(last)
      else best
  }

  /** Among owners with equally many days the earliest in the list wins. */
  lemma {:induction false} MajorityIsFirst(owners: seq<DatedPerson>, weekStart: Day) returns (i: nat)
    requires Majority(owners, weekStart).Some?
    ensures i < |owners| && Majority(owners, weekStart) == Some(owners[i])
    ensures forall j :: 0 <= j < i ==>
      OverlapDays(owners[j], weekStart, weekStart + 6) < OverlapDays(owners[i], weekStart, weekStart + 6)
  {
    var n := |owners| - 1;
    var front := owners[..n];
    var best := Majority(front, weekStart);
    if Majority(owners, weekStart) == best {
      i := MajorityIsFirst(front, weekStart);
    } else {
      i := n;
      assert forall j :: 0 <= j < n ==> owners[j] == front[j] && front[j] in front;
    }
  }

  /** `majority_owner` */
  method MajorityOwner(owners: seq<DatedPerson>, weekStart: Day, weekEnd: Day) returns (best: Option<DatedPerson>)
    requires weekEnd == weekStart + 6
    ensures best == Majority(owners, weekStart)
  {
    best := None;
    for i := 0 to |owners|
      invariant best == Majority(owners[..i], weekStart)
    {
      assert owners[..i + 1][..i] == owners[..i];
      var days := OverlapDays(owners[i], weekStart, weekEnd);
      if days >= 4 && (best.None? || days > OverlapDays(best.value, weekStart, weekEnd)) {
        best := Some(owners[i]);
      }
    }
    assert owners[..|owners|] == owners;
  }

  function OwnersOf(owners: seq<DatedPerson>, apartment: Id): (r: seq<DatedPerson>)
    ensures forall p :: p in r <==> p in owners && p.apartment == apartment
  {
    if owners == [] then []
    else
      var n := |owners| - 1;
      OwnersOf(owners[..n], apartment) + (if owners[n].apartment == apartment then [owners[n]] else [])
  }

  /** The `owners_by_apartment` map. */
  method GroupOwners(owners: seq<DatedPerson>) returns (byApartment: map<Id, seq<DatedPerson>>)
    ensures forall a :: (if a in byApartment then byApartment[a] else []) == OwnersOf(owners, a)
  {
    byApartment := map[];
    for i := 0 to |owners|
      invariant forall a :: (if a in byApartment then byApartment[a] else []) == OwnersOf(owners[..i], a)
    {
      assert owners[..i + 1][..i] == owners[..i];
      var a := owners[i].apartment;
      var group := if a in byApartment then byApartment[a] else [];
      byApartment := byApartment[a := group + [owners[i]]];
    }
    assert owners[..|owners|] == owners;
  }

  /** An apartment's own owner of the week, else the building's. */
  function OwnerFor(inp: Inputs, apartment: Id, weekStart: Day): Option<DatedPerson> {
    var own := Majority(OwnersOf(inp.owners, apartment), weekStart);
    if own.Some? then own else Majority(inp.buildingOwners, weekStart)
  }

  /** The apartments with an owner for the week, in rotation order. */
  function CoveredIn(inp: Inputs, apartments: seq<Id>, weekStart: Day): seq<(Id, DatedPerson)> {
    if apartments == [] then []
    else
      var n := |apartments| - 1;
      var owner := OwnerFor(inp, apartments[n], weekStart);
      CoveredIn(inp, apartments[..n], weekStart) +
      (if owner.Some? then [(apartments[n], owner.value)] else [])
  }

  function CoveredList(inp: Inputs, weekStart: Day): seq<(Id, DatedPerson)> {
    CoveredIn(inp, inp.apartments, weekStart)
  }

  function DutyIndex(seed: int, weekStart: Day, count: int): (i: int)
    requires count > 0
    ensures 0 <= i < count
  {
    (seed + GlobalWeekIndex(weekStart)) % count
  }

  /** The apartment on duty and its owner. */
  function Chosen(inp: Inputs, weekStart: Day): (r: Option<(Id, DatedPerson)>)
    ensures r.Some? ==> r.value in CoveredList(inp, weekStart)
  {
    var covered := CoveredList(inp, weekStart);
    if covered == [] then None else Some(covered[DutyIndex(inp.seed, weekStart, |covered|)])
  }

  predicate CoversWeek(p: DatedPerson, weekStart: Day, weekEnd: Day) {
    p.start <= weekStart && (p.end.Some? ==> p.end.value >= weekEnd)
  }

  predicate Delegates(t: DatedPerson, apartment: Id, weekStart: Day) {
    t.apartment == apartment && CoversWeek(t, weekStart, weekStart + 6)
  }

  /** The first tenancy of the apartment that covers the whole week. */
  function TenantFor(tenancies: seq<DatedPerson>, apartment: Id, weekStart: Day): (r: Option<DatedPerson>)
    ensures r.Some? ==> r.value in tenancies && Delegates(r.value, apartment, weekStart)
    ensures r.None? ==> forall t :: t in tenancies ==> !Delegates(t, apartment, weekStart)
  {
    if tenancies == [] then None
    else if Delegates(tenancies[0], apartment, weekStart) then Some(tenancies[0])
    else TenantFor(tenancies[1..], apartment, weekStart)
  }

  function AsAssignee(p: DatedPerson): Assignee {
    Assignee(p.id, p.name, p.email)
  }

  function AssignmentFor(inp: Inputs, year: int, weekStart: Day): WeekAssignment {
    var chosen := Chosen(inp, weekStart);
    if chosen.None? then
      WeekAssignment(year, IsoWeek(weekStart), weekStart, weekStart + 6, None, false)
    else
      var tenant := TenantFor(inp.tenancies, chosen.value.0, weekStart);
      var person := if tenant.Some? then tenant.value else chosen.value.1;
      WeekAssignment(year, IsoWeek(weekStart), weekStart, weekStart + 6, Some(AsAssignee(person)), tenant.Some?)
  }

  /** One assignment for each week of the ISO year. */
  function YearSchedule(inp: Inputs, year: int): (weeks: seq<WeekAssignment>)
    ensures |weeks| == WeeksIn(year)
  {
    FiftyTwoOrFiftyThree(year);
    seq(WeeksIn(year), i => AssignmentFor(inp, year, Week1Monday(year) + 7 * i))
  }

  /** The lookup in the owner map, then the fallback to the building's owner. */
  method ResolveOwner(inp: Inputs, byApartment: map<Id, seq<DatedPerson>>, a: Id, weekStart: Day, weekEnd: Day)
    returns (owner: Option<DatedPerson>)
    requires weekEnd == weekStart + 6
    requires forall b :: (if b in byApartment then byApartment[b] else []) == OwnersOf(inp.owners, b)
    ensures owner == OwnerFor(inp, a, weekStart)
  {
    var group := if a in byApartment then byApartment[a] else [];
    assert group == OwnersOf(inp.owners, a);
    owner := None;
    if a in byApartment {
      owner := MajorityOwner(group, weekStart, weekEnd);
    }
    if owner.None? {
      owner := MajorityOwner(inp.buildingOwners, weekStart, weekEnd);
    }
  }

  /** The `covered` list of one week, resolved apartment by apartment. */
  method CoveredApartments(inp: Inputs, byApartment: map<Id, seq<DatedPerson>>, weekStart: Day, weekEnd: Day)
    returns (covered: seq<(Id, DatedPerson)>)
    requires weekEnd == weekStart + 6
    requires forall a :: (if a in byApartment then byApartment[a] else []) == OwnersOf(inp.owners, a)
    ensures covered == CoveredList(inp, weekStart)
  {
    hide OwnerFor;
    covered := [];
    for i := 0 to |inp.apartments|
      invariant covered == CoveredIn(inp, inp.apartments[..i], weekStart)
    {
      assert inp.apartments[..i + 1][..i] == inp.apartments[..i];
      var a := inp.apartments[i];
      var owner := ResolveOwner(inp, byApartment, a, weekStart, weekEnd);
      if owner.Some? {
        covered := covered + [(a, owner.value)];
      }
    }
    assert inp.apartments[..|inp.apartments|] == inp.apartments;
  }

  /** One turn of the week loop. */
  method AssignWeek(inp: Inputs, byApartment: map<Id, seq<DatedPerson>>, year: int, weekStart: Day)
    returns (assignment: WeekAssignment)
    requires forall a :: (if a in byApartment then byApartment[a] else []) == OwnersOf(inp.owners, a)
    ensures assignment == AssignmentFor(inp, year, weekStart)
  {
    hide IsoWeek, GlobalWeekIndex;
    var weekEnd := weekStart + 6;
    var covered := CoveredApartments(inp, byApartment, weekStart, weekEnd);
    if covered == [] {
      return WeekAssignment(year, IsoWeek(weekStart), weekStart, weekEnd, None, false);
    }
    var (chosenApartment, chosenOwner) := covered[(inp.seed + GlobalWeekIndex(weekStart)) % |covered|];
    var delegated := TenantFor(inp.tenancies, chosenApartment, weekStart);
    match delegated
    case Some(tenant) =>
      assignment := WeekAssignment(year, IsoWeek(weekStart), weekStart, weekEnd, Some(AsAssignee(tenant)), true);
    case None =>
      assignment := WeekAssignment(year, IsoWeek(weekStart), weekStart, weekEnd, Some(AsAssignee(chosenOwner)), false);
  }

  /** `schedule_for_year`; None is the building-not-found error. */
  method ScheduleForYear(seed: Option<int>, listed: seq<Id>, t: ApartmentTable, owners: seq<DatedPerson>,
                         tenancies: seq<DatedPerson>, buildingOwners: seq<DatedPerson>, year: int)
    returns (r: Option<seq<WeekAssignment>>)
    requires NoDuplicates(listed) && forall id :: id in listed ==> id in t
    ensures r.None? <==> seed.None?
    ensures r.Some? ==>
      r.value == YearSchedule(Inputs(seed.value, RotationOrder(listed, t), owners, tenancies, buildingOwners), year)
  {
    if seed.None? {
      return None;
    }
    var inp := Inputs(seed.value, RotationOrder(listed, t), owners, tenancies, buildingOwners);
    var weeks := WeekLoop(inp, year);
    r := Some(weeks);
  }

  /** The while loop over the Mondays of the ISO year. */
  method WeekLoop(inp: Inputs, year: int) returns (weeks: seq<WeekAssignment>)
    ensures weeks == YearSchedule(inp, year)
  {
    hide IsoYear, Week1Monday, WeeksIn, AssignmentFor;
    var byApartment := GroupOwners(inp.owners);
    weeks := [];
    var weekStart := Week1Monday(year);
    NextMonday(year, 0);
    while IsoYear(weekStart) == year
      invariant weekStart == Week1Monday(year) + 7 * |weeks|
      invariant IsoYear(weekStart) == year <==> |weeks| < WeeksIn(year)
      invariant |weeks| <= WeeksIn(year)
      invariant forall i :: 0 <= i < |weeks| ==> weeks[i] == AssignmentFor(inp, year, Week1Monday(year) + 7 * i)
      decreases WeeksIn(year) - |weeks|
    {
      var assignment := AssignWeek(inp, byApartment, year, weekStart);
      weeks := weeks + [assignment];
      weekStart := weekStart + 7;
      NextMonday(year, |weeks|);
    }
  }

  lemma NextMonday(year: int, i: nat)
    requires i == 0 || i <= WeeksIn(year)
    ensures WeeksIn(year) > 0
    ensures IsoYear(Week1Monday(year) + 7 * i) == year <==> i < WeeksIn(year)
  {
    FiftyTwoOrFiftyThree(year);
    Week1Thursday(year);
    WeeksLater(Week1Monday(year), i);
    MondaysOfYear(Week1Monday(year) + 7 * i, year);
  }
}
