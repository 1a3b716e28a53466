/**
 What every run of the database keeps: at most one period per day and parent,
 seamless ownership chains, and no apartment without an owner record.
 */
module Invariants {
  import opened Wrappers
  import opened Calendar
  import opened Periods
  import opened Apartments
  import opened Tiling
  import opened Closing
  import opened Registry

  // ----- one chain of a changed table -----

  lemma OfUpdated(t: Table, id: Id, n: Row, p: Id)
    requires id in t ==> t[id].parent == n.parent
    ensures Of(t[id := n], p) == (if p == n.parent then Of(t, p)[id := n] else Of(t, p))
  {
  }

  lemma OfDeleted(t: Table, id: Id, p: Id)
    ensures Of(t - {id}, p) == Of(t, p) - {id}
  {
  }

  lemma TableUpdateKeepsDisjoint(t: Table, id: Id, n: Row)
    requires AllDisjoint(t) && (id in t ==> t[id].parent == n.parent)
    requires TenancyAccepts(Of(t, n.parent) - {id}, n)
    ensures AllDisjoint(t[id := n])
  {
    AcceptedKeepsDisjoint(Of(t, n.parent), id, n);
    var u := t[id := n];
    forall p
      ensures Dated(Of(u, p)) && Disjoint(Of(u, p))
    {
      OfUpdated(t, id, n, p);
    }
  }

  lemma TableDeleteKeepsDisjoint(t: Table, gone: set<Id>)
    requires AllDisjoint(t)
    ensures AllDisjoint(t - gone)
  {
    forall p
      ensures Dated(Of(t - gone, p)) && Disjoint(Of(t - gone, p))
    {
      var c, d := Of(t, p), Of(t - gone, p);
      assert forall o :: o in d ==> o in c && d[o] == c[o];
    }
  }

  lemma TableUpdateKeepsTiled(t: Table, id: Id, n: Row)
    requires AllTiled(t) && (id in t ==> t[id].parent == n.parent)
    requires Tiled(Of(t, n.parent)[id := n])
    ensures AllTiled(t[id := n])
  {
    var u := t[id := n];
    forall p
      ensures Tiled(Of(u, p))
    {
      OfUpdated(t, id, n, p);
    }
  }

  // ----- soundness: one row per day and parent -----

  ghost predicate TablesDisjoint(s: State) {
    AllDisjoint(s.ownerships) && AllDisjoint(s.buildingOwners) && AllDisjoint(s.tenancies)
  }

  lemma InsertKeepsDisjoint(s: State, k: Kind, id: Id, n: Row, today: Day)
    requires TablesDisjoint(s) && InsertPeriod(s, k, id, n, today).Some?
    ensures TablesDisjoint(InsertPeriod(s, k, id, n, today).value)
  {
    var t := TableOf(s, k);
    assert Of(t, n.parent) - {id} == Of(t, n.parent);
    TableUpdateKeepsDisjoint(t, id, n);
  }

  lemma UpdateKeepsDisjoint(s: State, k: Kind, id: Id, start: Day, end: Option<Day>)
    requires TablesDisjoint(s) && UpdatePeriod(s, k, id, start, end).Some?
    ensures TablesDisjoint(UpdatePeriod(s, k, id, start, end).value)
  {
    var t := TableOf(s, k);
    if id in t {
      TableUpdateKeepsDisjoint(t, id, t[id].(start := start, end := end));
    }
  }

  lemma CascadeIsDeletion(t: Table, parents: set<Id>) returns (gone: set<Id>)
    ensures Cascade(t, parents) == t - gone
    ensures forall p :: Of(t - gone, p) == (if p in parents then map[] else Of(t, p))
  {
    gone := set o | o in t && t[o].parent in parents;
  }

  lemma ApartmentCascadeKeepsDisjoint(s: State, gone: set<Id>)
    requires TablesDisjoint(s)
    ensures TablesDisjoint(WithoutApartments(s, gone))
  {
    var a := CascadeIsDeletion(s.ownerships, gone);
    var b := CascadeIsDeletion(s.tenancies, gone);
    TableDeleteKeepsDisjoint(s.ownerships, a);
    TableDeleteKeepsDisjoint(s.tenancies, b);
  }

  lemma BuildingCascadeKeepsDisjoint(s: State, building: Id)
    requires TablesDisjoint(s)
    ensures TablesDisjoint(WithoutBuilding(s, building))
  {
    ApartmentCascadeKeepsDisjoint(s, IdsOf(s.apartments, building));
    var c := CascadeIsDeletion(s.buildingOwners, {building});
    TableDeleteKeepsDisjoint(s.buildingOwners, c);
  }

  /** Every committed transaction keeps the foreign keys and, for each apartment and building and
      each of the three tables, at most one period a day. */
  lemma ExecKeepsSound(s: State, op: Op, today: Day)
    requires Sound(s) && Exec(s, op, today).Some?
    ensures Sound(Exec(s, op, today).value)
  {
    match op
    case CreateBuilding(id, owner) =>
      if owner.Some? {
        var s1 := s.(buildings := s.buildings + {id});
        InsertKeepsDisjoint(s1, BuildingOwners, owner.value.0, Row(id, owner.value.1, owner.value.2), today);
      }
    case DeleteBuilding(id) =>
      BuildingCascadeKeepsDisjoint(s, id);
    case CreateApartment(id, apartment, ownership, start, end) =>
      InsertKeepsDisjoint(s, Ownerships, ownership, Row(id, start, end), today);
    case CreateApartmentBuildingOwned(id, apartment) =>
    case DeleteApartment(id) =>
      ApartmentCascadeKeepsDisjoint(s, {id});
    case CreatePeriod(k, id, parent, start, end) =>
      InsertKeepsDisjoint(s, k, id, Row(parent, start, end), today);
    case CreatePeriodClosingPrevious(k, id, parent, previous, previousEnd, start, end) =>
      var first := if previous in TableOf(s, k) then TableOf(s, k)[previous].start else start;
      UpdateKeepsDisjoint(s, k, previous, first, Some(previousEnd));
      var s1 := UpdatePeriod(s, k, previous, first, Some(previousEnd)).value;
      InsertKeepsDisjoint(s1, k, id, Row(parent, start, end), today);
    case UpdateDates(k, id, start, end) =>
      UpdateKeepsDisjoint(s, k, id, start, end);
    case DeletePeriodOp(k, id) =>
      TableDeleteKeepsDisjoint(TableOf(s, k), {id});
  }

  // ----- seamless chains -----

  lemma InsertKeepsSeamless(s: State, k: Kind, id: Id, n: Row, today: Day)
    requires Seamless(s) && InsertPeriod(s, k, id, n, today).Some?
    ensures Seamless(InsertPeriod(s, k, id, n, today).value)
  {
    if k != Tenancies {
      var t := TableOf(s, k);
      InsertKeepsTiled(Of(t, n.parent), id, n);
      TableUpdateKeepsTiled(t, id, n);
    }
  }

  /** The update leaves a first or last row, or leaves the dates alone. */
  ghost predicate KeepsPlace(s: State, k: Kind, id: Id, start: Day, end: Option<Day>) {
    var t := TableOf(s, k);
    k != Tenancies && id in t ==>
      !Middle(Of(t, t[id].parent), id) || (t[id].start == start && t[id].end == end)
  }

  lemma UpdateKeepsSeamlessIff(s: State, k: Kind, id: Id, start: Day, end: Option<Day>)
    requires Seamless(s) && UpdatePeriod(s, k, id, start, end).Some?
    ensures Seamless(UpdatePeriod(s, k, id, start, end).value) <==> KeepsPlace(s, k, id, start, end)
  {
    var t := TableOf(s, k);
    if k != Tenancies && id in t {
      var n := t[id].(start := start, end := end);
      var c := Of(t, n.parent);
      UpdateKeepsTiledIff(c, id, n);
      OfUpdated(t, id, n, n.parent);
      if KeepsPlace(s, k, id, start, end) {
        TableUpdateKeepsTiled(t, id, n);
      } else {
        assert !Tiled(Of(t[id := n], n.parent));
      }
    }
  }

  /** Moving only the end of a row never opens a hole. */
  lemma UpdateEndKeepsSeamless(s: State, k: Kind, id: Id, start: Day, end: Option<Day>)
    requires Seamless(s) && UpdatePeriod(s, k, id, start, end).Some?
    requires id in TableOf(s, k) ==> start == TableOf(s, k)[id].start
    ensures Seamless(UpdatePeriod(s, k, id, start, end).value)
  {
    UpdateKeepsSeamlessIff(s, k, id, start, end);
    if !KeepsPlace(s, k, id, start, end) {
      var t := TableOf(s, k);
      var n := t[id].(start := start, end := end);
      var c := Of(t, n.parent);
      var p, q := MiddleNeighbours(c, id);
      MovedMiddleIsOutside(c, id, n, p, q);
      assert false;
    }
  }

  lemma DeleteKeepsSeamless(s: State, k: Kind, id: Id, today: Day)
    requires Sound(s) && Seamless(s) && DeletePeriod(s, k, id, today).Some?
    ensures Seamless(DeletePeriod(s, k, id, today).value)
  {
    var t := TableOf(s, k);
    if k != Tenancies && id in t {
      var p := t[id].parent;
      DeleteKeepsTiled(Of(t, p), id);
      forall q
        ensures Tiled(Of(t - {id}, q))
      {
        OfDeleted(t, id, q);
        assert q != p ==> Of(t, q) - {id} == Of(t, q);
      }
    }
  }

  lemma CascadeKeepsTiled(t: Table, parents: set<Id>)
    requires AllTiled(t)
    ensures AllTiled(Cascade(t, parents))
  {
    var gone := CascadeIsDeletion(t, parents);
    forall p
      ensures Tiled(Of(t - gone, p))
    {
    }
  }

  lemma CascadesKeepSeamless(s: State, gone: set<Id>, building: Id)
    requires Seamless(s)
    ensures Seamless(WithoutApartments(s, gone)) && Seamless(WithoutBuilding(s, building))
  {
    CascadeKeepsTiled(s.ownerships, gone);
    CascadeKeepsTiled(s.ownerships, IdsOf(s.apartments, building));
    CascadeKeepsTiled(s.buildingOwners, {building});
  }

  ghost predicate OpKeepsPlace(s: State, op: Op) {
    op.UpdateDates? ==> KeepsPlace(s, op.kind, op.id, op.start, op.end)
  }

  /**
   Every committed transaction keeps all ownership chains seamless, except
   exactly the update that moves a middle period to other dates.
   */
  lemma ExecKeepsSeamlessIff(s: State, op: Op, today: Day)
    requires Sound(s) && Seamless(s) && Exec(s, op, today).Some?
    ensures Seamless(Exec(s, op, today).value) <==> OpKeepsPlace(s, op)
  {
    match op
    case CreateBuilding(id, owner) =>
      if owner.Some? {
        var s1 := s.(buildings := s.buildings + {id});
        InsertKeepsSeamless(s1, BuildingOwners, owner.value.0, Row(id, owner.value.1, owner.value.2), today);
      }
    case DeleteBuilding(id) =>
      CascadesKeepSeamless(s, {}, id);
    case CreateApartment(id, apartment, ownership, start, end) =>
      InsertKeepsSeamless(s, Ownerships, ownership, Row(id, start, end), today);
    case CreateApartmentBuildingOwned(id, apartment) =>
    case DeleteApartment(id) =>
      CascadesKeepSeamless(s, {id}, id);
    case CreatePeriod(k, id, parent, start, end) =>
      InsertKeepsSeamless(s, k, id, Row(parent, start, end), today);
    case CreatePeriodClosingPrevious(k, id, parent, previous, previousEnd, start, end) =>
      var first := if previous in TableOf(s, k) then TableOf(s, k)[previous].start else start;
      UpdateEndKeepsSeamless(s, k, previous, first, Some(previousEnd));
      var s1 := UpdatePeriod(s, k, previous, first, Some(previousEnd)).value;
      InsertKeepsSeamless(s1, k, id, Row(parent, start, end), today);
    case UpdateDates(k, id, start, end) =>
      UpdateKeepsSeamlessIff(s, k, id, start, end);
    case DeletePeriodOp(k, id) =>
      DeleteKeepsSeamless(s, k, id, today);
  }

  // ----- owner records -----

  lemma InsertKeepsRecords(s: State, k: Kind, id: Id, n: Row, today: Day)
    requires NeverOwnerless(s) && InsertPeriod(s, k, id, n, today).Some?
    ensures NeverOwnerless(InsertPeriod(s, k, id, n, today).value)
  {
    UpdateKeepsRecords(s, k, id, n);
  }

  lemma UpdateKeepsRecords(s: State, k: Kind, id: Id, n: Row)
    requires NeverOwnerless(s) && (id in TableOf(s, k) ==> TableOf(s, k)[id].parent == n.parent)
    ensures NeverOwnerless(WithTable(s, k, TableOf(s, k)[id := n]))
  {
    forall p
      ensures Of(TableOf(s, k), p) != map[] ==> Of(TableOf(s, k)[id := n], p) != map[]
    {
      OfUpdated(TableOf(s, k), id, n, p);
    }
  }

  lemma SoleRow(t: Table, id: Id)
    requires id in t && Of(t, t[id].parent) - {id} == map[]
    ensures |Of(t, t[id].parent)| == 1
  {
    var c := Of(t, t[id].parent);
    assert forall o :: o in c && o != id ==> o in c - {id};
    assert c.Keys == {id};
    assert |c| == |c.Keys|;
  }

  lemma DeleteKeepsRecords(s: State, k: Kind, id: Id, today: Day)
    requires ForeignKeys(s) && NeverOwnerless(s) && DeletePeriod(s, k, id, today).Some?
    ensures NeverOwnerless(DeletePeriod(s, k, id, today).value)
  {
    if id in TableOf(s, k) {
      match k
      case Ownerships => DeleteOwnershipKeepsRecords(s, id, today);
      case BuildingOwners => DeleteBuildingOwnerKeepsRecords(s, id, today);
      case Tenancies =>
    }
  }

  lemma DeleteOwnershipKeepsRecords(s: State, id: Id, today: Day)
    requires NeverOwnerless(s) && id in s.ownerships && DeletePeriod(s, Ownerships, id, today).Some?
    ensures NeverOwnerless(s.(ownerships := s.ownerships - {id}))
  {
    var t := s.ownerships;
    forall a | a in s.apartments
      ensures Of(t - {id}, a) != map[] || Of(s.buildingOwners, s.apartments[a].building) != map[]
    {
      OfDeleted(t, id, a);
      if t[id].parent != a {
        assert Of(t, a) - {id} == Of(t, a);
      } else if Of(t, a) - {id} == map[] {
        SoleRow(t, id);
        assert OwnedThroughBuilding(s, a, today);
      }
    }
  }

  lemma DeleteBuildingOwnerKeepsRecords(s: State, id: Id, today: Day)
    requires ForeignKeys(s) && NeverOwnerless(s)
    requires id in s.buildingOwners && DeletePeriod(s, BuildingOwners, id, today).Some?
    ensures NeverOwnerless(s.(buildingOwners := s.buildingOwners - {id}))
  {
    var t := s.buildingOwners;
    forall a | a in s.apartments
      ensures Of(s.ownerships, a) != map[] || Of(t - {id}, s.apartments[a].building) != map[]
    {
      var b := s.apartments[a].building;
      OfDeleted(t, id, b);
      if t[id].parent != b {
        assert Of(t, b) - {id} == Of(t, b);
      } else if Of(t, b) - {id} == map[] {
        SoleRow(t, id);
        assert !HasDependentApartment(s, b, today);
        assert Covered(Of(s.ownerships, a), today);
      }
    }
  }

  lemma InsertApartmentKeepsRecords(s: State, id: Id, a: Apartment, today: Day)
    requires NeverOwnerless(s) && InsertApartment(s, id, a, today).Some?
    ensures NeverOwnerless(InsertApartment(s, id, a, today).value)
  {
    if o :| o in s.ownerships && s.ownerships[o].parent == id {
      assert o in Of(s.ownerships, id);
    }
  }

  lemma CascadesKeepRecords(s: State, gone: set<Id>, building: Id)
    requires NeverOwnerless(s)
    ensures NeverOwnerless(WithoutApartments(s, gone))
    ensures NeverOwnerless(WithoutBuilding(s, building))
  {
    var x := CascadeIsDeletion(s.ownerships, gone);
    var y := CascadeIsDeletion(s.ownerships, IdsOf(s.apartments, building));
    var z := CascadeIsDeletion(s.buildingOwners, {building});
  }

  /** Every committed transaction keeps an owner record for every apartment, although the guards
      compare the records with the current date, whatever that date is. */
  lemma ExecKeepsRecords(s: State, op: Op, today: Day)
    requires ForeignKeys(s) && NeverOwnerless(s) && Exec(s, op, today).Some?
    ensures NeverOwnerless(Exec(s, op, today).value)
  {
    match op
    case CreateBuilding(id, owner) =>
      if owner.Some? {
        var s1 := s.(buildings := s.buildings + {id});
        InsertKeepsRecords(s1, BuildingOwners, owner.value.0, Row(id, owner.value.1, owner.value.2), today);
      }
    case DeleteBuilding(id) =>
      CascadesKeepRecords(s, {}, id);
    case CreateApartment(id, apartment, ownership, start, end) =>
      InsertKeepsRecords(s, Ownerships, ownership, Row(id, start, end), today);
      InsertApartmentKeepsRecords(InsertPeriod(s, Ownerships, ownership, Row(id, start, end), today).value, id,
        apartment, today);
    case CreateApartmentBuildingOwned(id, apartment) =>
      InsertApartmentKeepsRecords(s, id, apartment, today);
    case DeleteApartment(id) =>
      CascadesKeepRecords(s, {id}, id);
    case CreatePeriod(k, id, parent, start, end) =>
      InsertKeepsRecords(s, k, id, Row(parent, start, end), today);
    case CreatePeriodClosingPrevious(k, id, parent, previous, previousEnd, start, end) =>
      var t := TableOf(s, k);
      var first := if previous in t then t[previous].start else start;
      if previous in t {
        UpdateKeepsRecords(s, k, previous, t[previous].(start := first, end := Some(previousEnd)));
      }
      var s1 := UpdatePeriod(s, k, previous, first, Some(previousEnd)).value;
      InsertKeepsRecords(s1, k, id, Row(parent, start, end), today);
    case UpdateDates(k, id, start, end) =>
      if id in TableOf(s, k) {
        UpdateKeepsRecords(s, k, id, TableOf(s, k)[id].(start := start, end := end));
      }
    case DeletePeriodOp(k, id) =>
      DeleteKeepsRecords(s, k, id, today);
  }

  /** A manual reorder of the display changes nothing that the invariants are about. */
  lemma ReorderKeepsInvariants(s: State, ids: seq<Id>, t: ApartmentTable)
    requires Sound(s) && NeverOwnerless(s) && Repositioned(ids, s.apartments, t)
    ensures Sound(s.(apartments := t)) && NeverOwnerless(s.(apartments := t))
    ensures Seamless(s.(apartments := t)) <==> Seamless(s)
  {
    hide AllDisjoint, AllTiled, Of;
    forall a | a in t
      ensures t[a].building == s.apartments[a].building
    {
      if a in ids {
        var i :| 0 <= i < |ids| && ids[i] == a;
      }
    }
  }

  // ----- whole runs -----

  /** After any run from the empty database, each apartment has an owner record, and no apartment or
      building has two periods of one kind on one day. */
  lemma {:induction false} RunIsSafe(run: seq<(Op, Day)>)
    ensures Sound(Run(EMPTY, run)) && NeverOwnerless(Run(EMPTY, run))
  {
    if run != [] {
      var s := Run(EMPTY, run[..|run| - 1]);
      var (op, today) := run[|run| - 1];
      RunIsSafe(run[..|run| - 1]);
      if Exec(s, op, today).Some? {
        ExecKeepsSound(s, op, today);
        ExecKeepsRecords(s, op, today);
      }
    }
  }

  /** The updates of the run that were committed left middle periods in place. */
  ghost predicate PlacesKept(run: seq<(Op, Day)>) {
    forall i :: 0 <= i < |run| && Exec(Run(EMPTY, run[..i]), run[i].0, run[i].1).Some? ==>
      OpKeepsPlace(Run(EMPTY, run[..i]), run[i].0)
  }

  /** Over any such run all ownership chains tile their timelines after every step. */
  lemma {:induction false} RunIsSeamless(run: seq<(Op, Day)>)
    requires PlacesKept(run)
    ensures Seamless(Run(EMPTY, run))
  {
    if run != [] {
      var last := |run| - 1;
      var front := run[..last];
      var s := Run(EMPTY, front);
      forall i | 0 <= i < |front|
        ensures front[..i] == run[..i] && front[i] == run[i]
      {
      }
      assert PlacesKept(front);
      RunIsSeamless(front);
      RunIsSafe(front);
      if Exec(s, run[last].0, run[last].1).Some? {
        ExecKeepsSeamlessIff(s, run[last].0, run[last].1);
      }
    }
  }
}
