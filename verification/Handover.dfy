/**
 End to end: what a change of owner does to the published schedules.
 */
module Handover {
  import opened Wrappers
  import opened Calendar
  import opened Periods
  import opened Tiling
  import opened Closing
  import opened Apartments
  import opened Registry
  import opened Coverage
  import opened Scheduler
  import opened Resolution
  import opened Spans
  import opened Uncovering
  import Invariants

  /** The display name and address of each period's people, and those of all kinds of periods. */
  type Labels = Id -> (string, string)
  type Names = Kind -> Labels

  function PersonOf(id: Id, r: Row, labels: Labels): DatedPerson {
    DatedPerson(id, r.parent, labels(id).0, labels(id).1, r.start, r.end)
  }

  /** The rows of the given parents as the scheduler loads them, in any order. */
  ghost predicate Lists(people: seq<DatedPerson>, t: Table, parents: set<Id>, labels: Labels) {
    forall p :: p in people <==> p.id in t && t[p.id].parent in parents && p == PersonOf(p.id, t[p.id], labels)
  }

  lemma ListedOf(people: seq<DatedPerson>, t: Table, parents: set<Id>, labels: Labels, a: Id, p: DatedPerson)
    requires Lists(people, t, parents, labels) && a in parents
    ensures p in OwnersOf(people, a) <==> p.id in Of(t, a) && p == PersonOf(p.id, Of(t, a)[p.id], labels)
  {
  }

  lemma ListedAreOnePerDay(people: seq<DatedPerson>, t: Table, parents: set<Id>, labels: Labels, a: Id)
    requires Lists(people, t, parents, labels) && a in parents && Disjoint(Of(t, a))
    ensures OnePerDay(OwnersOf(people, a))
  {
    var own := OwnersOf(people, a);
    forall p, q, d | p in own && q in own && Present(p, d) && Present(q, d)
      ensures p == q
    {
      ListedOf(people, t, parents, labels, a, p);
      ListedOf(people, t, parents, labels, a, q);
      assert Covers(Of(t, a)[p.id], d) && Covers(Of(t, a)[q.id], d);
    }
  }

  // ----- the same rows under other names -----

  function Labelled(id: Id, labels: Labels): Assignee {
    Assignee(id, labels(id).0, labels(id).1)
  }

  function Relabelled(p: DatedPerson, labels: Labels): DatedPerson {
    p.(name := labels(p.id).0, email := labels(p.id).1)
  }

  /** Nobody on both sides, or one row read under the names before and after. */
  ghost predicate SameRow(p: Option<DatedPerson>, q: Option<DatedPerson>, before: Labels, after: Labels) {
    && (p.Some? <==> q.Some?)
    && (p.Some? ==> p.value == Relabelled(p.value, before) && q.value == Relabelled(p.value, after))
  }

  lemma SameRowMeans(p: Option<DatedPerson>, q: Option<DatedPerson>, before: Labels, after: Labels)
    requires SameRow(p, q, before, after)
    ensures p.Some? <==> q.Some?
    ensures p.Some? ==>
      AsAssignee(p.value) == Labelled(p.value.id, before) && AsAssignee(q.value) == Labelled(p.value.id, after)
  {
  }

  /** Chains that agree on an apartment's rows give it the same row in every week, whatever the order in which the
      rows are listed and whatever the people are called by then. */
  lemma SameChainSameOwner(x: seq<DatedPerson>, y: seq<DatedPerson>, t: Table, u: Table, parents: set<Id>,
                           before: Labels, after: Labels, a: Id, weekStart: Day)
    requires Lists(x, t, parents, before) && Lists(y, u, parents, after) && a in parents
    requires Of(t, a) == Of(u, a) && Disjoint(Of(t, a))
    ensures SameRow(Majority(OwnersOf(x, a), weekStart), Majority(OwnersOf(y, a), weekStart), before, after)
  {
    var own, others := OwnersOf(x, a), OwnersOf(y, a);
    ListedAreOnePerDay(x, t, parents, before, a);
    ListedAreOnePerDay(y, u, parents, after, a);
    var m, k := Majority(own, weekStart), Majority(others, weekStart);
    if m.Some? {
      ListedOf(x, t, parents, before, a, m.value);
      ListedOf(y, u, parents, after, a, Relabelled(m.value, after));
      MajorityIffFourDays(others, weekStart, Relabelled(m.value, after));
    } else if k.Some? {
      ListedOf(y, u, parents, after, a, k.value);
      ListedOf(x, t, parents, before, a, Relabelled(k.value, before));
      MajorityIffFourDays(own, weekStart, Relabelled(k.value, before));
    }
  }

  lemma ListedTenantsShareNoDay(people: seq<DatedPerson>, t: Table, parents: set<Id>, labels: Labels)
    requires Lists(people, t, parents, labels) && AllDisjoint(t)
    ensures OneTenantPerDay(people)
  {
    forall p, q, d | p in people && q in people && p.apartment == q.apartment && Present(p, d) && Present(q, d)
      ensures p == q
    {
      var c := Of(t, p.apartment);
      assert Disjoint(c);
      assert p.id in c && q.id in c && Covers(c[p.id], d) && Covers(c[q.id], d);
    }
  }

  lemma TenantUnder(x: seq<DatedPerson>, y: seq<DatedPerson>, t: Table, parents: set<Id>, before: Labels, after: Labels,
                    a: Id, weekStart: Day)
    requires Lists(x, t, parents, before) && Lists(y, t, parents, after) && AllDisjoint(t)
    ensures var m := TenantFor(x, a, weekStart);
      m.Some? ==>
        m.value == Relabelled(m.value, before) && TenantFor(y, a, weekStart) == Some(Relabelled(m.value, after))
  {
    ListedTenantsShareNoDay(x, t, parents, before);
    ListedTenantsShareNoDay(y, t, parents, after);
    var m := TenantFor(x, a, weekStart);
    if m.Some? {
      TenantIsUnique(x, a, weekStart, m.value);
      var q := Relabelled(m.value, after);
      assert q in y && forall d :: Present(q, d) <==> Present(m.value, d);
      TenantIsUnique(y, a, weekStart, q);
    }
  }

  /** The same for the tenant of a week. */
  lemma SameTenant(x: seq<DatedPerson>, y: seq<DatedPerson>, t: Table, parents: set<Id>, before: Labels, after: Labels,
                   a: Id, weekStart: Day)
    requires Lists(x, t, parents, before) && Lists(y, t, parents, after) && AllDisjoint(t)
    ensures SameRow(TenantFor(x, a, weekStart), TenantFor(y, a, weekStart), before, after)
  {
    TenantUnder(x, y, t, parents, before, after, a, weekStart);
    TenantUnder(y, x, t, parents, after, before, a, weekStart);
  }

  lemma WholeListOfOneParent(people: seq<DatedPerson>, t: Table, parent: Id, labels: Labels, weekStart: Day)
    requires Lists(people, t, {parent}, labels) && Disjoint(Of(t, parent))
    ensures Majority(people, weekStart) == Majority(OwnersOf(people, parent), weekStart)
  {
    ListedAreOnePerDay(people, t, {parent}, labels, parent);
    MajorityIgnoresOrder(OwnersOf(people, parent), people, weekStart);
  }

  // ----- tiled chains -----

  ghost predicate AllLast(c: Table, days: int) {
    forall id :: id in c && c[id].end.Some? ==> c[id].end.value - c[id].start + 1 >= days
  }

  lemma ListedPresence(people: seq<DatedPerson>, t: Table, parents: set<Id>, labels: Labels, a: Id, d: Day)
    requires Lists(people, t, parents, labels) && a in parents
    ensures SomeonePresent(OwnersOf(people, a), d) <==> Covered(Of(t, a), d)
  {
    var own, c := OwnersOf(people, a), Of(t, a);
    if SomeonePresent(own, d) {
      var p :| p in own && Present(p, d);
      ListedOf(people, t, parents, labels, a, p);
      assert Covers(c[p.id], d);
    }
    if Covered(c, d) {
      var id :| id in c && Covers(c[id], d);
      var p := PersonOf(id, c[id], labels);
      ListedOf(people, t, parents, labels, a, p);
      assert Present(p, d);
    }
  }

  /** The days of the week that the chain covers. */
  function CoveredDays(c: Table, weekStart: Day): set<Day> {
    set d | weekStart <= d < weekStart + 7 && Covered(c, d)
  }

  /** What tiling guarantees to the scheduler: an apartment whose chain is tiled by periods of at least four days
      has an owner of its own in exactly the weeks of which the chain covers at least four days. */
  lemma TiledChainResolvesWeek(people: seq<DatedPerson>, t: Table, parents: set<Id>, labels: Labels, a: Id,
                               weekStart: Day)
    requires Lists(people, t, parents, labels) && a in parents
    requires Tiled(Of(t, a)) && AllLast(Of(t, a), 4)
    ensures Majority(OwnersOf(people, a), weekStart).Some? <==> |CoveredDays(Of(t, a), weekStart)| >= 4
  {
    var own, c := OwnersOf(people, a), Of(t, a);
    forall d
      ensures SomeonePresent(own, d) <==> Covered(c, d)
    {
      ListedPresence(people, t, parents, labels, a, d);
    }
    forall p
      ensures p in own ==> LastsAtLeast(p, 4)
    {
      ListedOf(people, t, parents, labels, a, p);
    }
    ListedAreOnePerDay(people, t, parents, labels, a);
    assert Unbroken(own);
    assert DaysPresent(own, weekStart) == CoveredDays(c, weekStart);
    ResolvedIffFourDaysCovered(own, weekStart);
  }

  // ----- the covered list -----

  /** The covered list names an apartment exactly when it has an owner, so inputs that agree on which
      apartments have one agree on the whole list of apartments. */
  lemma {:induction false} CoveredAlign(x: Inputs, y: Inputs, apartments: seq<Id>, weekStart: Day)
    requires forall a :: a in apartments ==> (OwnerFor(x, a, weekStart).Some? <==> OwnerFor(y, a, weekStart).Some?)
    ensures |CoveredIn(x, apartments, weekStart)| == |CoveredIn(y, apartments, weekStart)|
    ensures forall i :: 0 <= i < |CoveredIn(x, apartments, weekStart)| ==>
      var e, f := CoveredIn(x, apartments, weekStart)[i], CoveredIn(y, apartments, weekStart)[i];
      && e.0 == f.0 && e.0 in apartments
      && OwnerFor(x, e.0, weekStart) == Some(e.1) && OwnerFor(y, e.0, weekStart) == Some(f.1)
  {
    hide OwnerFor;
    if apartments != [] {
      var n := |apartments| - 1;
      assert apartments == apartments[..n] + [apartments[n]];
      assert forall a :: a in apartments[..n] ==> a in apartments;
      CoveredAlign(x, y, apartments[..n], weekStart);
    }
  }

  function DutyApartment(inp: Inputs, weekStart: Day): Option<Id> {
    var chosen := Chosen(inp, weekStart);
    if chosen.None? then None else Some(chosen.value.0)
  }

  lemma AlignedDuty(x: Inputs, y: Inputs, weekStart: Day)
    requires x.apartments == y.apartments && x.seed == y.seed
    requires forall a :: a in x.apartments ==> (OwnerFor(x, a, weekStart).Some? <==> OwnerFor(y, a, weekStart).Some?)
    ensures DutyApartment(x, weekStart) == DutyApartment(y, weekStart)
    ensures Chosen(x, weekStart).Some? ==>
      var e, f := Chosen(x, weekStart).value, Chosen(y, weekStart).value;
      && e.0 in x.apartments
      && OwnerFor(x, e.0, weekStart) == Some(e.1) && OwnerFor(y, f.0, weekStart) == Some(f.1)
  {
    hide OwnerFor, GlobalWeekIndex;
    CoveredAlign(x, y, x.apartments, weekStart);
  }

  lemma {:induction false} SeedDoesNotCover(inp: Inputs, apartments: seq<Id>, seed: int, weekStart: Day)
    ensures CoveredIn(inp.(seed := seed), apartments, weekStart) == CoveredIn(inp, apartments, weekStart)
  {
    hide OwnerFor;
    if apartments != [] {
      SeedDoesNotCover(inp, apartments[..|apartments| - 1], seed, weekStart);
      SeedDoesNotOwn(inp, apartments[|apartments| - 1], seed, weekStart);
    }
  }

  lemma SeedDoesNotOwn(inp: Inputs, a: Id, seed: int, weekStart: Day)
    ensures OwnerFor(inp.(seed := seed), a, weekStart) == OwnerFor(inp, a, weekStart)
  {
  }

  lemma {:induction false} CoveredPlace(inp: Inputs, apartments: seq<Id>, weekStart: Day, a: Id) returns (i: nat)
    requires a in apartments && OwnerFor(inp, a, weekStart).Some?
    ensures i < |CoveredIn(inp, apartments, weekStart)| && CoveredIn(inp, apartments, weekStart)[i].0 == a
  {
    hide OwnerFor;
    var n := |apartments| - 1;
    assert apartments == apartments[..n] + [apartments[n]];
    if apartments[n] == a {
      i := |CoveredIn(inp, apartments[..n], weekStart)|;
    } else {
      i := CoveredPlace(inp, apartments[..n], weekStart, a);
    }
  }

  /** Some seed puts any given covered apartment on duty. */
  lemma SeedForApartment(inp: Inputs, weekStart: Day, a: Id) returns (seed: int)
    requires a in inp.apartments && OwnerFor(inp, a, weekStart).Some?
    ensures DutyApartment(inp.(seed := seed), weekStart) == Some(a)
  {
    hide OwnerFor, GlobalWeekIndex;
    var i := CoveredPlace(inp, inp.apartments, weekStart, a);
    seed := i - GlobalWeekIndex(weekStart);
    SeedDoesNotCover(inp, inp.apartments, seed, weekStart);
    assert DutyIndex(seed, weekStart, |CoveredList(inp, weekStart)|) == i;
  }

  /** Only an apartment with an owner is on duty. */
  lemma DutyIsOwned(inp: Inputs, weekStart: Day)
    ensures DutyApartment(inp, weekStart).Some? ==>
      var a := DutyApartment(inp, weekStart).value;
      a in inp.apartments && OwnerFor(inp, a, weekStart).Some?
  {
    hide OwnerFor, GlobalWeekIndex;
    AlignedDuty(inp, inp, weekStart);
  }

  /** For every seed the same apartment is on duty exactly when the same apartments have an owner. */
  lemma DutiesAgreeIff(x: Inputs, y: Inputs, weekStart: Day)
    requires x.apartments == y.apartments
    ensures (forall v :: DutyApartment(x.(seed := v), weekStart) == DutyApartment(y.(seed := v), weekStart)) <==>
      forall a :: a in x.apartments ==> (OwnerFor(x, a, weekStart).Some? <==> OwnerFor(y, a, weekStart).Some?)
  {
    hide OwnerFor, DutyApartment;
    if a :| a in x.apartments && OwnerFor(x, a, weekStart).Some? && OwnerFor(y, a, weekStart).None? {
      OnlyOneSide(x, y, weekStart, a);
    } else if a :| a in x.apartments && OwnerFor(y, a, weekStart).Some? && OwnerFor(x, a, weekStart).None? {
      OnlyOneSide(y, x, weekStart, a);
    } else {
      forall v
        ensures DutyApartment(x.(seed := v), weekStart) == DutyApartment(y.(seed := v), weekStart)
      {
        forall a
          ensures OwnerFor(x.(seed := v), a, weekStart) == OwnerFor(x, a, weekStart)
          ensures OwnerFor(y.(seed := v), a, weekStart) == OwnerFor(y, a, weekStart)
        {
          SeedDoesNotOwn(x, a, v, weekStart);
          SeedDoesNotOwn(y, a, v, weekStart);
        }
        AlignedDuty(x.(seed := v), y.(seed := v), weekStart);
      }
    }
  }

  lemma OnlyOneSide(x: Inputs, y: Inputs, weekStart: Day, a: Id)
    requires x.apartments == y.apartments && a in x.apartments
    requires OwnerFor(x, a, weekStart).Some? && OwnerFor(y, a, weekStart).None?
    ensures exists v :: DutyApartment(x.(seed := v), weekStart) != DutyApartment(y.(seed := v), weekStart)
  {
    hide OwnerFor, DutyApartment;
    var v := SeedForApartment(x, weekStart, a);
    DutyIsOwned(y.(seed := v), weekStart);
    SeedDoesNotOwn(y, a, v, weekStart);
    assert DutyApartment(x.(seed := v), weekStart) != DutyApartment(y.(seed := v), weekStart);
  }

  /** Tenants serve, but never decide which apartment is on duty. */
  lemma TenantsNeverShiftDuty(x: Inputs, y: Inputs, weekStart: Day)
    requires y == x.(tenancies := y.tenancies)
    ensures DutyApartment(x, weekStart) == DutyApartment(y, weekStart)
  {
    hide GlobalWeekIndex;
    AlignedDuty(x, y, weekStart);
  }

  // ----- the handover -----

  /** The handover splits a majority: the closed period had four days of the week, and neither its rest nor the new
      period has. */
  predicate Splits(r: Row, n: Row, weekStart: Day) {
    RowDays(r, weekStart) >= 4 && RowDays(Ended(r, n), weekStart) < 4 && RowDays(n, weekStart) < 4
  }

  lemma PartsOfWeek(r: Row, n: Row, weekStart: Day)
    requires Covers(r, n.start)
    ensures RowDays(Ended(r, n), weekStart) <= RowDays(r, weekStart)
    ensures n.end == r.end ==> RowDays(n, weekStart) <= RowDays(r, weekStart)
  {
  }

  /** Parts of four days or more leave no week without a majority. */
  lemma LongPartsNeverSplit(r: Row, n: Row, weekStart: Day)
    requires Covers(r, n.start) && n.end == r.end
    requires n.start - r.start >= 4 && (n.end.Some? ==> n.end.value - n.start + 1 >= 4)
    ensures !Splits(r, n, weekStart)
  {
  }

  /** The week's row of the handed-over chain is gone exactly when the handover splits its majority; otherwise it is
      the row it was, or the new one. A week without a row gains one exactly when the new period brings four days. */
  lemma HandoverRow(x: seq<DatedPerson>, y: seq<DatedPerson>, t: Table, u: Table, parents: set<Id>,
                    before: Labels, after: Labels, p: Id, id: Id, n: Row, weekStart: Day)
    requires Lists(x, t, parents, before) && Lists(y, u, parents, after) && n.parent in parents
    requires var c := Of(t, n.parent);
      && p in c && id !in c && Covers(c[p], n.start)
      && Of(u, n.parent) == c[p := Ended(c[p], n)][id := n]
      && Disjoint(c) && Disjoint(Of(u, n.parent))
    ensures var r := t[p];
      var b, e := Majority(OwnersOf(x, n.parent), weekStart), Majority(OwnersOf(y, n.parent), weekStart);
      && (Splits(r, n, weekStart) ==> b.Some? && e.None?)
      && (!Splits(r, n, weekStart) && b.Some? ==> e.Some?)
      && (b.None? ==> (e.Some? <==> RowDays(n, weekStart) >= 4))
      && (b.None? && n.end == r.end ==> e.None?)
      && (b.Some? ==> AsAssignee(b.value) == Labelled(b.value.id, before))
      && (e.Some? ==>
            || (b.Some? && AsAssignee(e.value) == Labelled(b.value.id, after))
            || (AsAssignee(e.value) == Labelled(id, after) && RowDays(n, weekStart) >= 4))
  {
    hide OverlapDays, Majority, OwnersOf, Disjoint, OnePerDay, Ended, RowDays;
    var a := n.parent;
    var c, d := Of(t, a), Of(u, a);
    var r, rest := c[p], Ended(c[p], n);
    var b, e := Majority(OwnersOf(x, a), weekStart), Majority(OwnersOf(y, a), weekStart);
    PartsOfWeek(r, n, weekStart);
    WeekRow(x, t, parents, before, a, weekStart);
    WeekRow(y, u, parents, after, a, weekStart);
    assert Holds(d, weekStart, p) <==> RowDays(rest, weekStart) >= 4;
    assert Holds(d, weekStart, id) <==> RowDays(n, weekStart) >= 4;
    assert Holds(c, weekStart, p) <==> RowDays(r, weekStart) >= 4;
    assert !Holds(c, weekStart, id);
    forall o | o != p && o != id
      ensures Holds(c, weekStart, o) <==> Holds(d, weekStart, o)
    {
      assert o in c ==> o in d && d[o] == c[o];
    }
    if b.Some? {
      assert Holds(c, weekStart, b.value.id);
    }
    if e.Some? {
      assert Holds(d, weekStart, e.value.id);
    }
  }

  /** The row has four days of the week. */
  ghost predicate Holds(c: Table, weekStart: Day, o: Id) {
    o in c && RowDays(c[o], weekStart) >= 4
  }

  lemma WeekRow(people: seq<DatedPerson>, t: Table, parents: set<Id>, labels: Labels, a: Id, weekStart: Day)
    requires Lists(people, t, parents, labels) && a in parents && Disjoint(Of(t, a))
    ensures var m := Majority(OwnersOf(people, a), weekStart);
      && (forall o :: Holds(Of(t, a), weekStart, o) <==> m.Some? && o == m.value.id)
      && (m.Some? ==> AsAssignee(m.value) == Labelled(m.value.id, labels))
  {
    hide Majority, OwnersOf, Lists, Disjoint, Of;
    forall o
      ensures var m := Majority(OwnersOf(people, a), weekStart);
        Holds(Of(t, a), weekStart, o) <==> m.Some? && o == m.value.id
    {
      RowOfWeek(people, t, parents, labels, a, weekStart, o);
    }
    RowOfWeek(people, t, parents, labels, a, weekStart, "");
  }

  /** The week's owner is the row with four days of it. */
  lemma RowOfWeek(people: seq<DatedPerson>, t: Table, parents: set<Id>, labels: Labels, a: Id, weekStart: Day, o: Id)
    requires Lists(people, t, parents, labels) && a in parents && Disjoint(Of(t, a))
    ensures var m := Majority(OwnersOf(people, a), weekStart);
      && (Holds(Of(t, a), weekStart, o) <==> m.Some? && o == m.value.id)
      && (m.Some? ==> AsAssignee(m.value) == Labelled(m.value.id, labels))
  {
    hide OverlapDays, OwnersOf;
    var own, c := OwnersOf(people, a), Of(t, a);
    var m := Majority(own, weekStart);
    ListedAreOnePerDay(people, t, parents, labels, a);
    if m.Some? {
      ListedOf(people, t, parents, labels, a, m.value);
      assert OverlapDays(m.value, weekStart, weekStart + 6) == RowDays(c[m.value.id], weekStart);
    }
    if o in c {
      var q := PersonOf(o, c[o], labels);
      ListedOf(people, t, parents, labels, a, q);
      assert OverlapDays(q, weekStart, weekStart + 6) == RowDays(c[o], weekStart);
      MajorityIffFourDays(own, weekStart, q);
    }
  }

  /** A committed handover of an apartment or a building: the period that covers the new start is closed. */
  ghost predicate HandedOver(s: State, u: State, k: Kind, p: Id, id: Id, n: Row, today: Day) {
    && Sound(s) && k != Tenancies
    && p in TableOf(s, k) && TableOf(s, k)[p].parent == n.parent && id !in TableOf(s, k)
    && Covers(TableOf(s, k)[p], n.start)
    && Exec(s, CreatePeriodClosingPrevious(k, id, n.parent, p, n.start - 1, n.start, n.end), today) == Some(u)
  }

  /** The inputs that the scheduler loads for a building: its apartments in rotation order, each other list in any
      order. */
  ghost predicate Loads(x: Inputs, s: State, building: Id, names: Names) {
    && (forall a :: a in x.apartments <==> a in IdsOf(s.apartments, building))
    && InRotationOrder(x.apartments, s.apartments)
    && Lists(x.owners, s.ownerships, IdsOf(s.apartments, building), names(Ownerships))
    && Lists(x.tenancies, s.tenancies, IdsOf(s.apartments, building), names(Tenancies))
    && Lists(x.buildingOwners, s.buildingOwners, {building}, names(BuildingOwners))
  }

  /** The schedules before and after; the transaction may also have renamed people anywhere. */
  ghost predicate Reloads(s: State, u: State, x: Inputs, y: Inputs, building: Id, before: Names, after: Names) {
    && Loads(x, s, building, before) && Loads(y, u, building, after)
    && y.seed == x.seed
  }

  /** The building has the same apartments. */
  ghost predicate SameHomes(s: State, u: State, building: Id) {
    && IdsOf(s.apartments, building) == IdsOf(u.apartments, building)
    && forall a :: a in IdsOf(s.apartments, building) ==> a in u.apartments && u.apartments[a] == s.apartments[a]
  }

  /** The rotation order is the same then. */
  lemma SameApartments(s: State, u: State, x: Inputs, y: Inputs, building: Id, before: Names, after: Names)
    requires Reloads(s, u, x, y, building, before, after) && SameHomes(s, u, building)
    ensures x.apartments == y.apartments && x.seed == y.seed
  {
    hide Lists;
    var homes := IdsOf(s.apartments, building);
    forall i, j | 0 <= i < j < |y.apartments|
      ensures y.apartments[i] in s.apartments && y.apartments[j] in s.apartments
      ensures RotatesBefore(s.apartments, y.apartments[i], y.apartments[j])
    {
      assert y.apartments[i] in y.apartments && y.apartments[j] in y.apartments;
    }
    RotationOrderIsUnique(x.apartments, y.apartments, s.apartments);
  }

  lemma HandedOverTables(s: State, u: State, k: Kind, p: Id, id: Id, n: Row, today: Day)
    requires HandedOver(s, u, k, p, id, n, today)
    ensures Sound(u) && u == WithTable(s, k, TableOf(u, k))
    ensures Of(TableOf(u, k), n.parent) == Of(TableOf(s, k), n.parent)[p := Ended(TableOf(s, k)[p], n)][id := n]
    ensures forall a :: a != n.parent ==> Of(TableOf(u, k), a) == Of(TableOf(s, k), a)
  {
    var t := TableOf(s, k);
    var closed := Ended(t[p], n);
    ClosingExec(s, k, n.parent, p, id, n, today);
    Invariants.ExecKeepsSound(s, CreatePeriodClosingPrevious(k, id, n.parent, p, n.start - 1, n.start, n.end), today);
    forall a
      ensures Of(TableOf(u, k), a) == if a == n.parent then Of(t, a)[p := closed][id := n] else Of(t, a)
    {
      Invariants.OfUpdated(t, p, closed, a);
      Invariants.OfUpdated(t[p := closed], id, n, a);
    }
  }

  lemma HandoverKeepsHomes(s: State, u: State, k: Kind, p: Id, id: Id, n: Row, today: Day, building: Id)
    requires HandedOver(s, u, k, p, id, n, today)
    ensures SameHomes(s, u, building)
  {
    HandedOverTables(s, u, k, p, id, n, today);
  }

  /** The handover takes the apartment's owner of the week away: its majority is split, and there is no owner of the
      other form to fall back on. */
  ghost predicate LosesOwner(s: State, x: Inputs, k: Kind, building: Id, p: Id, n: Row, weekStart: Day, a: Id)
    requires p in TableOf(s, k)
  {
    && Splits(TableOf(s, k)[p], n, weekStart)
    && match k
       case Ownerships => a == n.parent && Majority(x.buildingOwners, weekStart).None?
       case BuildingOwners => building == n.parent && Majority(OwnersOf(x.owners, a), weekStart).None?
       case Tenancies => false
  }

  /** The handover gives the apartment an owner of the week that it did not have: the new period lasts longer than the
      closed one would have, and brings four days. */
  ghost predicate GainsOwner(x: Inputs, k: Kind, building: Id, n: Row, weekStart: Day, a: Id) {
    PassesOn(x, k, building, n, weekStart, a) && OwnerFor(x, a, weekStart).None? && RowDays(n, weekStart) >= 4
  }

  /** The new period stands in for the closed one as owner of the apartment. */
  ghost predicate PassesOn(x: Inputs, k: Kind, building: Id, n: Row, weekStart: Day, a: Id) {
    match k
    case Ownerships => a == n.parent
    case BuildingOwners => building == n.parent && Majority(OwnersOf(x.owners, a), weekStart).None?
    case Tenancies => false
  }

  /** One row of some kind, under the names before and after. */
  ghost predicate SameServant(e: Assignee, f: Assignee, before: Names, after: Names) {
    exists j: Kind :: e == Labelled(e.id, before(j)) && f == Labelled(e.id, after(j))
  }

  /** An apartment without the new period in its chain has its own majority as before. */
  lemma OwnMajority(s: State, u: State, x: Inputs, y: Inputs, building: Id, before: Names, after: Names,
                    k: Kind, p: Id, id: Id, n: Row, today: Day, weekStart: Day, a: Id)
    requires HandedOver(s, u, k, p, id, n, today) && Reloads(s, u, x, y, building, before, after)
    requires a in x.apartments && (k == Ownerships ==> a != n.parent)
    ensures SameRow(Majority(OwnersOf(x.owners, a), weekStart), Majority(OwnersOf(y.owners, a), weekStart),
                    before(Ownerships), after(Ownerships))
  {
    hide Majority, OwnersOf, Lists, SameRow;
    HandedOverTables(s, u, k, p, id, n, today);
    SameChainSameOwner(x.owners, y.owners, s.ownerships, u.ownerships, IdsOf(s.apartments, building),
      before(Ownerships), after(Ownerships), a, weekStart);
  }

  lemma BuildingMajority(s: State, u: State, x: Inputs, y: Inputs, building: Id, before: Names, after: Names,
                         k: Kind, p: Id, id: Id, n: Row, today: Day, weekStart: Day)
    requires HandedOver(s, u, k, p, id, n, today) && Reloads(s, u, x, y, building, before, after)
    requires k == BuildingOwners ==> building != n.parent
    ensures SameRow(Majority(x.buildingOwners, weekStart), Majority(y.buildingOwners, weekStart),
                    before(BuildingOwners), after(BuildingOwners))
  {
    hide Majority, OwnersOf, Lists, SameRow;
    HandedOverTables(s, u, k, p, id, n, today);
    SameChainSameOwner(x.buildingOwners, y.buildingOwners, s.buildingOwners, u.buildingOwners, {building},
      before(BuildingOwners), after(BuildingOwners), building, weekStart);
    WholeListOfOneParent(x.buildingOwners, s.buildingOwners, building, before(BuildingOwners), weekStart);
    WholeListOfOneParent(y.buildingOwners, u.buildingOwners, building, after(BuildingOwners), weekStart);
  }

  /** Who owns an apartment for a week, before and after. */
  ghost predicate OwnerKept(b: Option<DatedPerson>, e: Option<DatedPerson>, before: Names, after: Names, k: Kind,
                            id: Id, n: Row, weekStart: Day, passes: bool) {
    && (b.Some? ==> e.Some?)
    && (e.Some? ==>
          || (b.Some? && SameServant(AsAssignee(b.value), AsAssignee(e.value), before, after))
          || (passes && AsAssignee(e.value) == Labelled(id, after(k)) && RowDays(n, weekStart) >= 4))
  }

  lemma HandoverOwners(s: State, u: State, x: Inputs, y: Inputs, building: Id, before: Names, after: Names,
                       k: Kind, p: Id, id: Id, n: Row, today: Day, weekStart: Day, a: Id)
    requires HandedOver(s, u, k, p, id, n, today) && Reloads(s, u, x, y, building, before, after)
    requires a in x.apartments
    ensures OwnerFor(y, a, weekStart).Some? <==>
      || (OwnerFor(x, a, weekStart).Some? && !LosesOwner(s, x, k, building, p, n, weekStart, a))
      || GainsOwner(x, k, building, n, weekStart, a)
    ensures n.end == TableOf(s, k)[p].end ==> !GainsOwner(x, k, building, n, weekStart, a)
    ensures !Splits(TableOf(s, k)[p], n, weekStart) ==>
      OwnerKept(OwnerFor(x, a, weekStart), OwnerFor(y, a, weekStart), before, after, k, id, n, weekStart,
                PassesOn(x, k, building, n, weekStart, a))
  {
    hide Majority, OwnersOf, Lists, SameRow, Splits, RowDays, Of, Exec;
    var b, e := Majority(OwnersOf(x.owners, a), weekStart), Majority(OwnersOf(y.owners, a), weekStart);
    var f, g := Majority(x.buildingOwners, weekStart), Majority(y.buildingOwners, weekStart);
    HandedOverTables(s, u, k, p, id, n, today);
    if k == Ownerships && a == n.parent {
      HandoverRowOf(s, u, x.owners, y.owners, IdsOf(s.apartments, building), before, after, k, p, id, n, today,
        weekStart);
      BuildingMajority(s, u, x, y, building, before, after, k, p, id, n, today, weekStart);
      SameRowMeans(f, g, before(BuildingOwners), after(BuildingOwners));
    } else {
      OwnMajority(s, u, x, y, building, before, after, k, p, id, n, today, weekStart, a);
      SameRowMeans(b, e, before(Ownerships), after(Ownerships));
      if k == BuildingOwners && building == n.parent {
        HandoverRowOf(s, u, x.buildingOwners, y.buildingOwners, {building}, before, after, k, p, id, n, today,
          weekStart);
        WholeListOfOneParent(x.buildingOwners, s.buildingOwners, building, before(k), weekStart);
        WholeListOfOneParent(y.buildingOwners, u.buildingOwners, building, after(k), weekStart);
      } else {
        BuildingMajority(s, u, x, y, building, before, after, k, p, id, n, today, weekStart);
        SameRowMeans(f, g, before(BuildingOwners), after(BuildingOwners));
      }
    }
  }

  lemma HandoverRowOf(s: State, u: State, x: seq<DatedPerson>, y: seq<DatedPerson>, parents: set<Id>,
                      before: Names, after: Names, k: Kind, p: Id, id: Id, n: Row, today: Day, weekStart: Day)
    requires HandedOver(s, u, k, p, id, n, today) && n.parent in parents
    requires Lists(x, TableOf(s, k), parents, before(k)) && Lists(y, TableOf(u, k), parents, after(k))
    ensures var b, e := Majority(OwnersOf(x, n.parent), weekStart), Majority(OwnersOf(y, n.parent), weekStart);
      && (Splits(TableOf(s, k)[p], n, weekStart) ==> b.Some? && e.None?)
      && (b.None? ==> (e.Some? <==> RowDays(n, weekStart) >= 4))
      && (b.None? && n.end == TableOf(s, k)[p].end ==> e.None?)
      && (!Splits(TableOf(s, k)[p], n, weekStart) ==>
            OwnerKept(b, e, before, after, k, id, n, weekStart, true))
  {
    hide Majority, OwnersOf, Lists, Splits, RowDays, Exec;
    HandedOverTables(s, u, k, p, id, n, today);
    HandoverRow(x, y, TableOf(s, k), TableOf(u, k), parents, before(k), after(k), p, id, n, weekStart);
  }

  /**
   When a handover shifts duties, week by week: every seed gives the same
   apartment the same week as before exactly when no apartment of the building
   loses or gains its owner of the week. One is lost where the closed period had
   four of the seven days, its rest and the new period have fewer, and no owner
   of the other form steps in; one is gained where the new period has four days
   of a week that had no owner.
   */
  lemma HandoverShiftsDutyIff(s: State, u: State, x: Inputs, y: Inputs, building: Id, before: Names, after: Names,
                              k: Kind, p: Id, id: Id, n: Row, today: Day, weekStart: Day)
    requires HandedOver(s, u, k, p, id, n, today) && Reloads(s, u, x, y, building, before, after)
    ensures (forall v :: DutyApartment(x.(seed := v), weekStart) == DutyApartment(y.(seed := v), weekStart)) <==>
      forall a :: a in x.apartments ==>
        && !LosesOwner(s, x, k, building, p, n, weekStart, a)
        && !GainsOwner(x, k, building, n, weekStart, a)
  {
    hide OwnerFor, DutyApartment, Splits, Reloads, Exec;
    assert x.apartments == y.apartments by {
      HandoverKeepsHomes(s, u, k, p, id, n, today, building);
      SameApartments(s, u, x, y, building, before, after);
    }
    forall a | a in x.apartments
      ensures OwnerFor(y, a, weekStart).Some? <==>
        || (OwnerFor(x, a, weekStart).Some? && !LosesOwner(s, x, k, building, p, n, weekStart, a))
        || GainsOwner(x, k, building, n, weekStart, a)
      ensures LosesOwner(s, x, k, building, p, n, weekStart, a) ==> OwnerFor(x, a, weekStart).Some?
    {
      HandoverOwners(s, u, x, y, building, before, after, k, p, id, n, today, weekStart, a);
      LostWasThere(s, u, x, y, building, before, after, k, p, id, n, today, weekStart, a);
    }
    DutiesAgreeIff(x, y, weekStart);
  }

  lemma LostWasThere(s: State, u: State, x: Inputs, y: Inputs, building: Id, before: Names, after: Names,
                     k: Kind, p: Id, id: Id, n: Row, today: Day, weekStart: Day, a: Id)
    requires HandedOver(s, u, k, p, id, n, today) && Reloads(s, u, x, y, building, before, after)
    requires a in x.apartments
    ensures LosesOwner(s, x, k, building, p, n, weekStart, a) ==> OwnerFor(x, a, weekStart).Some?
  {
    hide Majority, OwnersOf, Lists, Splits, RowDays, Exec;
    HandedOverTables(s, u, k, p, id, n, today);
    if k == Ownerships && a == n.parent {
      HandoverRowOf(s, u, x.owners, y.owners, IdsOf(s.apartments, building), before, after, k, p, id, n, today,
        weekStart);
    } else if k == BuildingOwners && building == n.parent {
      HandoverRowOf(s, u, x.buildingOwners, y.buildingOwners, {building}, before, after, k, p, id, n, today, weekStart);
      WholeListOfOneParent(x.buildingOwners, s.buildingOwners, building, before(k), weekStart);
    }
  }

  // ----- every owner change -----

  /** The scheduler finds an owner for the week exactly when the database has one. */
  lemma OwnerIsStored(x: Inputs, s: State, building: Id, names: Names, a: Id, weekStart: Day)
    requires Sound(s) && Loads(x, s, building, names) && a in x.apartments
    ensures a in s.apartments && (OwnerFor(x, a, weekStart).Some? <==> OwnedFor(s, a, InWeek(weekStart)))
  {
    hide Majority, OwnersOf, Lists, RowDays, InRotationOrder;
    assert a in IdsOf(s.apartments, building);
    WeekRow(x.owners, s.ownerships, IdsOf(s.apartments, building), names(Ownerships), a, weekStart);
    WeekRow(x.buildingOwners, s.buildingOwners, {building}, names(BuildingOwners), building, weekStart);
    WholeListOfOneParent(x.buildingOwners, s.buildingOwners, building, names(BuildingOwners), weekStart);
    MetInWeek(Of(s.ownerships, a), weekStart);
    MetInWeek(Of(s.buildingOwners, building), weekStart);
    var own, other := Majority(OwnersOf(x.owners, a), weekStart), Majority(x.buildingOwners, weekStart);
    if own.Some? {
      assert Holds(Of(s.ownerships, a), weekStart, own.value.id);
    }
    if other.Some? {
      assert Holds(Of(s.buildingOwners, building), weekStart, other.value.id);
    }
  }

  lemma MetInWeek(c: Table, weekStart: Day)
    ensures Met(c, InWeek(weekStart)) <==> exists o :: Holds(c, weekStart, o)
  {
    if o :| Holds(c, weekStart, o) {
      assert Meets(c[o], InWeek(weekStart));
    }
    if Met(c, InWeek(weekStart)) {
      var o :| o in c && Meets(c[o], InWeek(weekStart));
      assert Holds(c, weekStart, o);
    }
  }

  /**
   When any owner change shifts duties, week by week: an insert, an edit, a
   delete or a closing, of either form of ownership. Every seed keeps the duties
   of the week exactly when no apartment of the building loses its owner of the
   week and none that had no owner is brought one.
   */
  lemma OwnerChangeShiftsDutyIff(s: State, u: State, op: Op, today: Day, x: Inputs, y: Inputs, building: Id,
                                 before: Names, after: Names, weekStart: Day)
    requires Sound(s) && Exec(s, op, today) == Some(u)
    requires Reloads(s, u, x, y, building, before, after) && SameHomes(s, u, building)
    ensures forall a :: a in x.apartments ==> a in s.apartments
    ensures (forall v :: DutyApartment(x.(seed := v), weekStart) == DutyApartment(y.(seed := v), weekStart)) <==>
      forall a :: a in x.apartments ==>
        && !Uncovers(s, op, a, InWeek(weekStart))
        && (Brings(s, op, a, InWeek(weekStart)) ==> OwnedFor(s, a, InWeek(weekStart)))
  {
    hide OwnerFor, DutyApartment, OwnedFor, Removes, Brings, Exec, Sound, Lists, InRotationOrder;
    Invariants.ExecKeepsSound(s, op, today);
    SameApartments(s, u, x, y, building, before, after);
    forall a | a in x.apartments
      ensures a in s.apartments
      ensures (OwnerFor(x, a, weekStart).Some? <==> OwnerFor(y, a, weekStart).Some?) <==>
        && !Uncovers(s, op, a, InWeek(weekStart))
        && (Brings(s, op, a, InWeek(weekStart)) ==> OwnedFor(s, a, InWeek(weekStart)))
    {
      OwnerIsStored(x, s, building, before, a, weekStart);
      OwnerIsStored(y, u, building, after, a, weekStart);
      ExecOwnsIff(s, op, today, a, InWeek(weekStart));
      RemovedWasOwned(s, op, a, InWeek(weekStart));
    }
    DutiesAgreeIff(x, y, weekStart);
  }

  lemma RemovedWasOwned(s: State, op: Op, a: Id, span: Span)
    requires a in s.apartments
    ensures Removes(s, op, a, span) ==> OwnedFor(s, a, span)
  {
    hide Meets;
    if Removes(s, op, a, span) {
      var k := op.kind;
      var id := if op.CreatePeriodClosingPrevious? then op.previous else op.id;
      assert Carries(s, k, id, a, span);
      assert id in Of(TableOf(s, k), ChainOf(s, k, a));
    }
  }

  // ----- handovers that last -----

  /**
   A handover never shifts anyone's duty week. When an apartment or a building
   is handed on for the rest of the previous period, and both parts of that
   period last at least four days, then in every week of every year each
   building has the same apartment on duty as before, delegated or not as
   before. The week is served under the same record as before, which may bear
   another name only if its people were renamed, or else by the new owner: then
   the duty apartment was handed over, the new period holds at least four days
   of the week, and no tenant serves.
   */
  lemma HandoverNeverShiftsDuty(s: State, u: State, x: Inputs, y: Inputs, building: Id, before: Names, after: Names,
                                k: Kind, p: Id, id: Id, n: Row, today: Day, year: int, weekStart: Day)
    requires HandedOver(s, u, k, p, id, n, today) && Reloads(s, u, x, y, building, before, after)
    requires n.end == TableOf(s, k)[p].end
    requires n.start - TableOf(s, k)[p].start >= 4 && (n.end.Some? ==> n.end.value - n.start + 1 >= 4)
    ensures DutyApartment(x, weekStart) == DutyApartment(y, weekStart)
    ensures var v, w := AssignmentFor(x, year, weekStart), AssignmentFor(y, year, weekStart);
      && w == v.(assignee := w.assignee)
      && (v.assignee.Some? <==> w.assignee.Some?)
      && (v.assignee.Some? ==>
            || SameServant(v.assignee.value, w.assignee.value, before, after)
            || (PassesOn(x, k, building, n, weekStart, DutyApartment(x, weekStart).value)
                && w.assignee == Some(Labelled(id, after(k))) && RowDays(n, weekStart) >= 4 && !w.delegated))
  {
    hide OwnerFor, GlobalWeekIndex, IsoWeek, CoveredList, RowDays, Splits, Reloads, HandedOver, PassesOn, TenantFor;
    hide SameServant;
    HandoverKeepsHomes(s, u, k, p, id, n, today, building);
    SameApartments(s, u, x, y, building, before, after);
    NeverSplit(s, u, k, p, id, n, today, weekStart);
    forall a | a in x.apartments
      ensures OwnerKept(OwnerFor(x, a, weekStart), OwnerFor(y, a, weekStart), before, after, k, id, n, weekStart,
                        PassesOn(x, k, building, n, weekStart, a))
      ensures OwnerFor(y, a, weekStart).Some? ==> OwnerFor(x, a, weekStart).Some?
    {
      HandoverOwners(s, u, x, y, building, before, after, k, p, id, n, today, weekStart, a);
    }
    AlignedDuty(x, y, weekStart);
    if Chosen(x, weekStart).Some? {
      var a := Chosen(x, weekStart).value.0;
      TenantKept(s, u, x, y, building, before, after, k, p, id, n, today, weekStart, a);
    }
  }

  lemma NeverSplit(s: State, u: State, k: Kind, p: Id, id: Id, n: Row, today: Day, weekStart: Day)
    requires HandedOver(s, u, k, p, id, n, today) && n.end == TableOf(s, k)[p].end
    requires n.start - TableOf(s, k)[p].start >= 4 && (n.end.Some? ==> n.end.value - n.start + 1 >= 4)
    ensures !Splits(TableOf(s, k)[p], n, weekStart)
  {
    LongPartsNeverSplit(TableOf(s, k)[p], n, weekStart);
  }

  lemma TenantKept(s: State, u: State, x: Inputs, y: Inputs, building: Id, before: Names, after: Names,
                   k: Kind, p: Id, id: Id, n: Row, today: Day, weekStart: Day, a: Id)
    requires HandedOver(s, u, k, p, id, n, today) && Reloads(s, u, x, y, building, before, after)
    ensures var q, r := TenantFor(x.tenancies, a, weekStart), TenantFor(y.tenancies, a, weekStart);
      && (q.Some? <==> r.Some?)
      && (q.Some? ==> SameServant(AsAssignee(q.value), AsAssignee(r.value), before, after))
  {
    hide TenantFor, Lists, SameRow, Exec;
    HandedOverTables(s, u, k, p, id, n, today);
    SameTenant(x.tenancies, y.tenancies, s.tenancies, IdsOf(s.apartments, building),
      before(Tenancies), after(Tenancies), a, weekStart);
    SameRowMeans(TenantFor(x.tenancies, a, weekStart), TenantFor(y.tenancies, a, weekStart),
      before(Tenancies), after(Tenancies));
  }
}
