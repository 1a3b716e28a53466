/**
 Delegation to tenants and unassigned weeks, for every database that a run of
 transactions can reach.
 */
module Delegation {
  import opened Wrappers
  import opened Calendar
  import opened Periods
  import opened Registry
  import opened Invariants
  import opened Scheduler
  import opened Resolution
  import opened Spans
  import opened Handover
  import Apartments

  /** The tenancy row covers every day of the week. */
  ghost predicate WholeWeek(r: Row, weekStart: Day) {
    forall d :: weekStart <= d < weekStart + 7 ==> Covers(r, d)
  }

  /** The tenant found for a week is the one tenancy of the apartment that contains all seven days. */
  lemma TenantIsWholeWeekRow(people: seq<DatedPerson>, t: Table, scope: set<Id>, labels: Labels, a: Id,
                             weekStart: Day, id: Id)
    requires Lists(people, t, scope, labels) && AllDisjoint(t) && a in scope
    ensures id in t && t[id].parent == a && WholeWeek(t[id], weekStart) <==>
      id in t && TenantFor(people, a, weekStart) == Some(PersonOf(id, t[id], labels))
  {
    ListedTenantsShareNoDay(people, t, scope, labels);
    if id in t {
      var p := PersonOf(id, t[id], labels);
      TenantIsUnique(people, a, weekStart, p);
      assert forall d :: Present(p, d) <==> Covers(t[id], d);
    }
  }

  /**
   In every reachable database: a delegated week goes to the one tenant of the
   duty apartment whose tenancy contains all seven days, and a week is delegated
   whenever there is such a tenancy.
   */
  lemma DelegationIsSound(run: seq<(Op, Day)>, inp: Inputs, scope: set<Id>, labels: Labels, year: int, weekStart: Day)
    returns (tenant: Id)
    requires Lists(inp.tenancies, Run(EMPTY, run).tenancies, scope, labels)
    requires DutyApartment(inp, weekStart).Some? && DutyApartment(inp, weekStart).value in scope
    ensures var t, a := Run(EMPTY, run).tenancies, DutyApartment(inp, weekStart).value;
      var w := AssignmentFor(inp, year, weekStart);
      && (w.delegated ==> tenant in t && t[tenant].parent == a && WholeWeek(t[tenant], weekStart))
      && (w.delegated ==> w.assignee == Some(AsAssignee(PersonOf(tenant, t[tenant], labels))))
      && (w.delegated <==> exists id :: id in t && t[id].parent == a && WholeWeek(t[id], weekStart))
  {
    hide CoveredList, DutyIndex, IsoWeek, Lists, WholeWeek;
    var t, a := Run(EMPTY, run).tenancies, DutyApartment(inp, weekStart).value;
    RunIsSafe(run);
    var found := TenantFor(inp.tenancies, a, weekStart);
    forall id | id in t
      ensures t[id].parent == a && WholeWeek(t[id], weekStart) <==> found == Some(PersonOf(id, t[id], labels))
    {
      TenantIsWholeWeekRow(inp.tenancies, t, scope, labels, a, weekStart, id);
    }
    tenant := "";
    if found.Some? {
      tenant := found.value.id;
      ListedPerson(inp.tenancies, t, scope, labels, found.value);
    }
  }

  lemma ListedPerson(people: seq<DatedPerson>, t: Table, scope: set<Id>, labels: Labels, p: DatedPerson)
    requires Lists(people, t, scope, labels) && p in people
    ensures p.id in t && p == PersonOf(p.id, t[p.id], labels)
  {
  }

  lemma {:induction false} CoveredIffOwned(inp: Inputs, apartments: seq<Id>, weekStart: Day)
    ensures CoveredIn(inp, apartments, weekStart) == [] <==>
      forall a :: a in apartments ==> OwnerFor(inp, a, weekStart).None?
  {
    hide OwnerFor;
    if apartments != [] {
      var n := |apartments| - 1;
      assert apartments == apartments[..n] + [apartments[n]];
      CoveredIffOwned(inp, apartments[..n], weekStart);
    }
  }

  /** A week stays unassigned exactly when no apartment has an owner for it; otherwise whoever is assigned without
      delegation is an owner of the duty apartment with four days of the week, or, if that has none, an owner of the
      building with four days. */
  lemma UnassignedIffNoOwner(inp: Inputs, year: int, weekStart: Day)
    ensures var w := AssignmentFor(inp, year, weekStart);
      && (w.assignee.None? <==> forall a :: a in inp.apartments ==> OwnerFor(inp, a, weekStart).None?)
      && (w.assignee.Some? ==> DutyApartment(inp, weekStart).Some?)
      && (w.assignee.Some? && !w.delegated ==>
            var a := DutyApartment(inp, weekStart).value;
            exists p :: w.assignee == Some(AsAssignee(p)) && OverlapDays(p, weekStart, weekStart + 6) >= 4
              && (|| (p in inp.owners && p.apartment == a)
                  || (p in inp.buildingOwners && forall q :: q in inp.owners && q.apartment == a ==>
                        OverlapDays(q, weekStart, weekStart + 6) < 4)))
  {
    hide IsoWeek, GlobalWeekIndex, OverlapDays;
    CoveredIffOwned(inp, inp.apartments, weekStart);
    if Chosen(inp, weekStart).Some? {
      AlignedDuty(inp, inp, weekStart);
      var e := Chosen(inp, weekStart).value;
      assert OwnerFor(inp, e.0, weekStart) == Some(e.1);
      assert OverlapDays(e.1, weekStart, weekStart + 6) >= 4;
    }
  }

  // ----- who serves, from the database to the published week -----

  /** The apartments with an owner for the week, in the order given. */
  function OwnedHomes(s: State, homes: seq<Id>, weekStart: Day): seq<Id> {
    if homes == [] then []
    else
      (if homes[0] in s.apartments && OwnedFor(s, homes[0], InWeek(weekStart)) then [homes[0]] else []) +
      OwnedHomes(s, homes[1..], weekStart)
  }

  lemma {:induction false} OneMoreHome(s: State, homes: seq<Id>, a: Id, weekStart: Day)
    ensures OwnedHomes(s, homes + [a], weekStart) ==
      OwnedHomes(s, homes, weekStart) +
      (if a in s.apartments && OwnedFor(s, a, InWeek(weekStart)) then [a] else [])
  {
    hide OwnedFor;
    if homes == [] {
      assert homes + [a] == [a] && [a][1..] == [];
    } else {
      assert (homes + [a])[1..] == homes[1..] + [a];
      OneMoreHome(s, homes[1..], a, weekStart);
    }
  }

  lemma {:induction false} CoveredAreOwned(s: State, inp: Inputs, building: Id, names: Names, homes: seq<Id>,
                                           weekStart: Day)
    requires Sound(s) && Loads(inp, s, building, names) && forall a :: a in homes ==> a in inp.apartments
    ensures |CoveredIn(inp, homes, weekStart)| == |OwnedHomes(s, homes, weekStart)|
    ensures forall i :: 0 <= i < |OwnedHomes(s, homes, weekStart)| ==>
      CoveredIn(inp, homes, weekStart)[i].0 == OwnedHomes(s, homes, weekStart)[i]
  {
    hide OwnerFor, OwnedFor, Sound, Lists, OwnedHomes, Apartments.InRotationOrder;
    if homes == [] {
      NoHomes(s, weekStart);
    } else {
      var n := |homes| - 1;
      assert homes == homes[..n] + [homes[n]];
      CoveredAreOwned(s, inp, building, names, homes[..n], weekStart);
      OneMoreHome(s, homes[..n], homes[n], weekStart);
      OwnerIsStored(inp, s, building, names, homes[n], weekStart);
    }
  }

  lemma NoHomes(s: State, weekStart: Day)
    ensures OwnedHomes(s, [], weekStart) == []
  {
  }

  /** The duty apartment: of the apartments that have an owner for the week, in rotation order, the one whose turn it is
      by the seed and the weeks since Monday, January 6, 2020. */
  lemma DutyIsTurn(s: State, inp: Inputs, building: Id, names: Names, weekStart: Day)
    requires Sound(s) && Loads(inp, s, building, names) && Weekday(weekStart) == 0
    ensures var owned := OwnedHomes(s, inp.apartments, weekStart);
      DutyApartment(inp, weekStart) ==
      if owned == [] then None
      else Some(owned[(inp.seed + (weekStart - DayOf(2020, 1, 6)) / 7) % |owned|])
  {
    hide OwnedHomes, CoveredIn, OwnedFor, Sound, Loads;
    CoveredAreOwned(s, inp, building, names, inp.apartments, weekStart);
    WeekIndexIsExact(weekStart);
    var g := GlobalWeekIndex(weekStart);
    assert (weekStart - DayOf(2020, 1, 6)) / 7 == g;
  }

  /** The one row of the chain with four days of the week. */
  ghost predicate HasFourDays(c: Table, weekStart: Day, id: Id) {
    id in c && RowDays(c[id], weekStart) >= 4
  }

  /** The tenancy of the apartment contains all seven days. */
  ghost predicate HasWholeWeek(s: State, a: Id, weekStart: Day, t: Id) {
    t in s.tenancies && s.tenancies[t].parent == a && WholeWeek(s.tenancies[t], weekStart)
  }

  /** Who serves a week for an apartment: the tenant of all seven days; else the owner of the apartment with four days;
      else the owner of the building with four days. */
  ghost predicate ServesFor(s: State, names: Names, a: Id, weekStart: Day, who: Assignee, delegated: bool)
    requires a in s.apartments
  {
    var own, other := Of(s.ownerships, a), Of(s.buildingOwners, s.apartments[a].building);
    if exists t :: HasWholeWeek(s, a, weekStart, t) then
      && delegated
      && exists t :: HasWholeWeek(s, a, weekStart, t) && who == Labelled(t, names(Tenancies))
    else
      && !delegated
      && if exists o :: HasFourDays(own, weekStart, o)
         then exists o :: HasFourDays(own, weekStart, o) && who == Labelled(o, names(Ownerships))
         else exists o :: HasFourDays(other, weekStart, o) && who == Labelled(o, names(BuildingOwners))
  }

  lemma OwnerServes(s: State, inp: Inputs, building: Id, names: Names, a: Id, weekStart: Day)
    requires Sound(s) && Loads(inp, s, building, names) && a in inp.apartments && OwnerFor(inp, a, weekStart).Some?
    ensures var own, other := Of(s.ownerships, a), Of(s.buildingOwners, building);
      var who := AsAssignee(OwnerFor(inp, a, weekStart).value);
      if exists o :: HasFourDays(own, weekStart, o)
      then exists o :: HasFourDays(own, weekStart, o) && who == Labelled(o, names(Ownerships))
      else exists o :: HasFourDays(other, weekStart, o) && who == Labelled(o, names(BuildingOwners))
  {
    hide Majority, OwnersOf, Lists, RowDays, Apartments.InRotationOrder;
    WeekRow(inp.owners, s.ownerships, Apartments.IdsOf(s.apartments, building), names(Ownerships), a, weekStart);
    WeekRow(inp.buildingOwners, s.buildingOwners, {building}, names(BuildingOwners), building, weekStart);
    WholeListOfOneParent(inp.buildingOwners, s.buildingOwners, building, names(BuildingOwners), weekStart);
    var own, other := Majority(OwnersOf(inp.owners, a), weekStart), Majority(inp.buildingOwners, weekStart);
    forall o
      ensures HasFourDays(Of(s.ownerships, a), weekStart, o) <==> own.Some? && o == own.value.id
      ensures HasFourDays(Of(s.buildingOwners, building), weekStart, o) <==> other.Some? && o == other.value.id
    {
      assert HasFourDays(Of(s.ownerships, a), weekStart, o) == Holds(Of(s.ownerships, a), weekStart, o);
      assert HasFourDays(Of(s.buildingOwners, building), weekStart, o) ==
        Holds(Of(s.buildingOwners, building), weekStart, o);
    }
    if own.Some? {
      assert HasFourDays(Of(s.ownerships, a), weekStart, own.value.id);
    } else {
      assert HasFourDays(Of(s.buildingOwners, building), weekStart, other.value.id);
    }
  }

  lemma TenantServes(s: State, inp: Inputs, building: Id, names: Names, a: Id, weekStart: Day)
    requires Sound(s) && Loads(inp, s, building, names) && a in inp.apartments
    ensures var found := TenantFor(inp.tenancies, a, weekStart);
      && (found.Some? <==> exists t :: HasWholeWeek(s, a, weekStart, t))
      && (found.Some? ==>
            exists t :: HasWholeWeek(s, a, weekStart, t) && AsAssignee(found.value) == Labelled(t, names(Tenancies)))
  {
    hide WholeWeek, Lists, TenantFor, Apartments.InRotationOrder;
    var t, scope := s.tenancies, Apartments.IdsOf(s.apartments, building);
    var found := TenantFor(inp.tenancies, a, weekStart);
    forall id | id in t
      ensures t[id].parent == a && WholeWeek(t[id], weekStart) <==> found == Some(PersonOf(id, t[id], names(Tenancies)))
    {
      TenantIsWholeWeekRow(inp.tenancies, t, scope, names(Tenancies), a, weekStart, id);
    }
    if found.Some? {
      ListedPerson(inp.tenancies, t, scope, names(Tenancies), found.value);
      assert HasWholeWeek(s, a, weekStart, found.value.id);
    }
  }

  /**
   The published week, complete: unassigned when no apartment of the building
   has an owner for it; else it is the turn of one of those that have, and it is
   served by that apartment's tenant of all seven days, or by its own owner with
   four days, or by the building's owner with four days, in this order.
   */
  lemma WeekIsServed(s: State, inp: Inputs, building: Id, names: Names, year: int, weekStart: Day)
    requires Sound(s) && Loads(inp, s, building, names) && Weekday(weekStart) == 0
    ensures var owned, w := OwnedHomes(s, inp.apartments, weekStart), AssignmentFor(inp, year, weekStart);
      if owned == [] then w.assignee.None? && !w.delegated
      else
        var a := owned[(inp.seed + (weekStart - DayOf(2020, 1, 6)) / 7) % |owned|];
        && a in inp.apartments && a in s.apartments && w.assignee.Some?
        && ServesFor(s, names, a, weekStart, w.assignee.value, w.delegated)
  {
    hide OwnedHomes, CoveredList, DutyIndex, IsoWeek, Lists, Sound, HasWholeWeek, HasFourDays, TenantFor, OwnerFor;
    hide Apartments.InRotationOrder;
    DutyIsTurn(s, inp, building, names, weekStart);
    if Chosen(inp, weekStart).Some? {
      var a := Chosen(inp, weekStart).value.0;
      AlignedDuty(inp, inp, weekStart);
      assert a in Apartments.IdsOf(s.apartments, building);
      OwnerServes(s, inp, building, names, a, weekStart);
      TenantServes(s, inp, building, names, a, weekStart);
    }
  }

  /** The tenant of part of a week does not serve it: with an owner from day 1 and a tenant from Tuesday 1003, the week
      of Monday 1002 is the owner's. */
  lemma PartWeekTenantDoesNotServe()
    ensures var inp := Inputs(0, ["w"], [DatedPerson("o", "w", "O", "o@x.de", 1, None)],
        [DatedPerson("t", "w", "T", "t@x.de", 1003, None)], []);
      var w := AssignmentFor(inp, 3, 1002);
      w.assignee == Some(Assignee("o", "O", "o@x.de")) && !w.delegated
  {
    var inp := Inputs(0, ["w"], [DatedPerson("o", "w", "O", "o@x.de", 1, None)],
      [DatedPerson("t", "w", "T", "t@x.de", 1003, None)], []);
    UnassignedIffNoOwner(inp, 3, 1002);
    assert inp.owners[0] in OwnersOf(inp.owners, "w");
    assert "w" in inp.apartments && OwnerFor(inp, "w", 1002).Some?;
    DutyIsOwned(inp, 1002);
  }
}
