/**
 The query layer: transactions that change the tables statement by statement
 and roll back on the first rejection.
 */
module Database {
  import opened Wrappers
  import opened Calendar
  import opened Periods
  import opened Apartments
  import opened Tiling
  import opened Registry

  /** `get_ownership_on`: the row covering the date. */
  function OwnerOn(c: Table, d: Day): (r: Option<Id>)
    requires Disjoint(c)
    ensures r.Some? ==> r.value in c && Covers(c[r.value], d)
    ensures r.None? <==> !Covered(c, d)
  {
    if Covered(c, d) then
      var id :| id in c && Covers(c[id], d);
      Some(id)
    else None
  }

  /** Before an uncovered start, the latest end is the last covered day. */
  lemma LastEndBefore(c: Table, n: Row)
    requires Dated(c) && !Covered(c, n.start)
    ensures EndsBefore(c, n) == {} <==> forall d :: d < n.start ==> !Covered(c, d)
    ensures EndsBefore(c, n) != {} ==>
      var last := Max(EndsBefore(c, n));
      last < n.start && Covered(c, last) && forall d :: last < d <= n.start ==> !Covered(c, d)
  {
    var ends := EndsBefore(c, n);
    forall o, d | o in c && d < n.start && Covers(c[o], d)
      ensures c[o].end.Some? && d <= c[o].end.value && c[o].end.value in ends
    {
      assert !Covers(c[o], n.start);
    }
    if ends != {} {
      var o :| o in c && c[o].end == Some(Max(ends));
      assert WellDated(c[o]) && Covers(c[o], Max(ends));
      assert Covered(c, Max(ends));
    } else {
      forall d | d < n.start
        ensures !Covered(c, d)
      {
      }
    }
  }

  /** COALESCE(MAX(position), -1) + 1: behind all apartments of the building. */
  function EndPosition(t: ApartmentTable, building: Id): (p: int)
    ensures forall id :: id in IdsOf(t, building) ==> t[id].position < p
    ensures if IdsOf(t, building) == {} then p == 0
            else exists id :: id in IdsOf(t, building) && t[id].position + 1 == p
  {
    var taken := set id | id in t && t[id].building == building :: t[id].position;
    assert forall id :: id in IdsOf(t, building) ==> t[id].position in taken;
    if taken == {} then 0
    else
      var last := Max(taken);
      assert exists id :: id in IdsOf(t, building) && t[id].position == last;
      last + 1
  }

  /** One more row takes its place. */
  lemma NextPosition(ordered: seq<Id>, index: nat, t: ApartmentTable, u: ApartmentTable)
    requires index < |ordered| && NoDuplicates(ordered) && Repositioned(ordered[..index], t, u)
    ensures ordered[index] in t ==>
      u[ordered[index]] == t[ordered[index]] &&
      Repositioned(ordered[..index + 1], t, u[ordered[index] := t[ordered[index]].(position := index)])
  {
    assert ordered[..index + 1] == ordered[..index] + [ordered[index]];
    assert ordered[index] !in ordered[..index];
  }

  class Database {
    var buildings: set<Id>
    var apartments: ApartmentTable
    var ownerships: Table
    var buildingOwners: Table
    var tenancies: Table

    ghost function View(): State
      reads this
    {
      State(buildings, apartments, ownerships, buildingOwners, tenancies)
    }

    constructor ()
      ensures View() == EMPTY
    {
      buildings, apartments, ownerships, buildingOwners, tenancies := {}, map[], map[], map[], map[];
    }

    // ----- statements -----

    method Begin() returns (saved: State)
      ensures saved == View()
    {
      saved := State(buildings, apartments, ownerships, buildingOwners, tenancies);
    }

    method Load(s: State)
      modifies this
      ensures View() == s
    {
      buildings, apartments := s.buildings, s.apartments;
      ownerships, buildingOwners, tenancies := s.ownerships, s.buildingOwners, s.tenancies;
    }

    method SetTable(k: Kind, t: Table)
      modifies this
      ensures View() == WithTable(old(View()), k, t)
    {
      match k
      case Ownerships => ownerships := t;
      case BuildingOwners => buildingOwners := t;
      case Tenancies => tenancies := t;
    }

    method InsertPeriodRow(k: Kind, id: Id, n: Row, today: Day) returns (ok: bool)
      modifies this
      ensures ok <==> InsertPeriod(old(View()), k, id, n, today).Some?
      ensures View() == if ok then InsertPeriod(old(View()), k, id, n, today).value else old(View())
    {
      var s := Begin();
      var t := TableOf(s, k);
      if id in t || ExclusionFires(s, k, n.parent, today) || !Accepts(k, Of(t, n.parent), n) {
        return false;
      }
      SetTable(k, t[id := n]);
      ok := true;
    }

    method UpdatePeriodRow(k: Kind, id: Id, start: Day, end: Option<Day>) returns (ok: bool)
      modifies this
      ensures ok <==> UpdatePeriod(old(View()), k, id, start, end).Some?
      ensures View() == if ok then UpdatePeriod(old(View()), k, id, start, end).value else old(View())
    {
      var s := Begin();
      var t := TableOf(s, k);
      if id !in t {
        return true;
      }
      var n := t[id].(start := start, end := end);
      if !Accepts(k, Of(t, n.parent) - {id}, n) {
        return false;
      }
      SetTable(k, t[id := n]);
      ok := true;
    }

    /** COMMIT: the deferred foreign keys decide, and a violation rolls back. */
    method CommitOr(saved: State) returns (ok: bool)
      modifies this
      ensures ok <==> ForeignKeys(old(View()))
      ensures View() == if ok then old(View()) else saved
    {
      var s := Begin();
      ok := ForeignKeys(s);
      if !ok {
        Load(saved);
      }
    }

    // ----- transactions -----

    /** `create_ownership`, `create_building_owner`, `create_tenancy` */
    method CreatePeriod(k: Kind, id: Id, parent: Id, start: Day, end: Option<Day>, today: Day) returns (ok: bool)
      modifies this
      ensures ok <==> Exec(old(View()), Op.CreatePeriod(k, id, parent, start, end), today).Some?
      ensures View() == Step(old(View()), Op.CreatePeriod(k, id, parent, start, end), today)
    {
      hide InsertPeriod, ForeignKeys, TableOf, WithTable;
      var saved := Begin();
      ok := InsertPeriodRow(k, id, Row(parent, start, end), today);
      if ok {
        ok := CommitOr(saved);
      }
    }

    /** `create_ownership_closing_previous` and its siblings: the UPDATE of the previous period comes
        first, and a rejected INSERT takes it back. */
    method CreatePeriodClosingPrevious(k: Kind, id: Id, parent: Id, previous: Id, previousEnd: Day,
                                       start: Day, end: Option<Day>, today: Day)
      returns (ok: bool)
      modifies this
      ensures var op := Op.CreatePeriodClosingPrevious(k, id, parent, previous, previousEnd, start, end);
        && (ok <==> Exec(old(View()), op, today).Some?)
        && View() == Step(old(View()), op, today)
    {
      hide InsertPeriod, UpdatePeriod, ForeignKeys, TableOf, WithTable;
      var saved := Begin();
      var t := TableOf(saved, k);
      var first := if previous in t then t[previous].start else start;
      ok := UpdatePeriodRow(k, previous, first, Some(previousEnd));
      if !ok {
        return;
      }
      ok := InsertPeriodRow(k, id, Row(parent, start, end), today);
      if !ok {
        Load(saved);
        return;
      }
      ok := CommitOr(saved);
    }

    /** `update_ownership`, `update_building_owner`, `update_tenancy` */
    method UpdateDates(k: Kind, id: Id, start: Day, end: Option<Day>, today: Day) returns (ok: bool)
      modifies this
      ensures ok <==> Exec(old(View()), Op.UpdateDates(k, id, start, end), today).Some?
      ensures View() == Step(old(View()), Op.UpdateDates(k, id, start, end), today)
    {
      hide UpdatePeriod, ForeignKeys, TableOf, WithTable;
      var saved := Begin();
      ok := UpdatePeriodRow(k, id, start, end);
      if ok {
        ok := CommitOr(saved);
      }
    }

    /** `delete_ownership`, `delete_building_owner`, `delete_tenancy` */
    method DeletePeriod(k: Kind, id: Id, today: Day) returns (ok: bool)
      modifies this
      ensures ok <==> Exec(old(View()), DeletePeriodOp(k, id), today).Some?
      ensures View() == Step(old(View()), DeletePeriodOp(k, id), today)
    {
      hide DeleteGuardFires, ForeignKeys, TableOf, WithTable;
      var saved := Begin();
      if id in TableOf(saved, k) {
        if DeleteGuardFires(saved, k, id, today) {
          return false;
        }
        SetTable(k, TableOf(saved, k) - {id});
      }
      ok := CommitOr(saved);
    }

    /** `create_apartment`: the first ownership goes in before its apartment. */
    method CreateApartment(id: Id, a: Apartment, ownership: Id, start: Day, end: Option<Day>, today: Day)
      returns (ok: bool)
      modifies this
      ensures ok <==> Exec(old(View()), Op.CreateApartment(id, a, ownership, start, end), today).Some?
      ensures View() == Step(old(View()), Op.CreateApartment(id, a, ownership, start, end), today)
    {
      hide InsertPeriod, ForeignKeys, TableOf, WithTable;
      var saved := Begin();
      ok := InsertPeriodRow(Ownerships, ownership, Row(id, start, end), today);
      if !ok {
        return;
      }
      var pending := Begin();
      var inserted := InsertApartment(pending, id, a, today);
      if inserted.None? {
        Load(saved);
        return false;
      }
      apartments := apartments[id := a];
      ok := CommitOr(saved);
    }

    /** `create_apartment_building_owned` */
    method CreateApartmentBuildingOwned(id: Id, a: Apartment, today: Day) returns (ok: bool)
      modifies this
      ensures ok <==> Exec(old(View()), Op.CreateApartmentBuildingOwned(id, a), today).Some?
      ensures View() == Step(old(View()), Op.CreateApartmentBuildingOwned(id, a), today)
    {
      hide ForeignKeys;
      var saved := Begin();
      if InsertApartment(saved, id, a, today).None? {
        return false;
      }
      apartments := apartments[id := a];
      ok := CommitOr(saved);
    }

    /** `create_building_impl`: the building and, for the wholly owned form, its first owner. */
    method CreateBuilding(id: Id, owner: Option<(Id, Day, Option<Day>)>, today: Day) returns (ok: bool)
      modifies this
      ensures ok <==> Exec(old(View()), Op.CreateBuilding(id, owner), today).Some?
      ensures View() == Step(old(View()), Op.CreateBuilding(id, owner), today)
    {
      hide InsertPeriod, ForeignKeys, TableOf, WithTable;
      var saved := Begin();
      if id in buildings {
        return false;
      }
      buildings := buildings + {id};
      if owner.Some? {
        var (ownerId, start, end) := owner.value;
        ok := InsertPeriodRow(BuildingOwners, ownerId, Row(id, start, end), today);
        if !ok {
          Load(saved);
          return;
        }
      }
      ok := CommitOr(saved);
    }

    /** `delete_apartment`: the foreign keys cascade to its periods, past every guard. */
    method DeleteApartment(id: Id, today: Day) returns (ok: bool)
      modifies this
      ensures ok <==> Exec(old(View()), Op.DeleteApartment(id), today).Some?
      ensures View() == Step(old(View()), Op.DeleteApartment(id), today)
    {
      hide ForeignKeys;
      var saved := Begin();
      apartments := apartments - {id};
      ownerships, tenancies := Cascade(ownerships, {id}), Cascade(tenancies, {id});
      ok := CommitOr(saved);
    }

    /** `delete_building` */
    method DeleteBuilding(id: Id, today: Day) returns (ok: bool)
      modifies this
      ensures ok <==> Exec(old(View()), Op.DeleteBuilding(id), today).Some?
      ensures View() == Step(old(View()), Op.DeleteBuilding(id), today)
    {
      hide ForeignKeys;
      var saved := Begin();
      var gone := IdsOf(apartments, id);
      buildings := buildings - {id};
      apartments := apartments - gone;
      ownerships, tenancies := Cascade(ownerships, gone), Cascade(tenancies, gone);
      buildingOwners := Cascade(buildingOwners, {id});
      ok := CommitOr(saved);
    }

    /** UPDATE apartments SET position = ? WHERE id = ? AND building_id = ?; tells whether the row was hit. */
    method UpdatePosition(id: Id, building: Id, position: nat) returns (hit: bool)
      modifies this`apartments
      ensures hit <==> id in old(apartments) && old(apartments)[id].building == building
      ensures apartments ==
        if hit then old(apartments)[id := old(apartments)[id].(position := position)] else old(apartments)
    {
      hit := id in apartments && apartments[id].building == building;
      if hit {
        apartments := apartments[id := apartments[id].(position := position)];
      }
    }

    /**
     `reorder_apartments`: accepts exactly the permutations of the building's
     apartment ids, rewrites the positions in the submitted order, and writes
     nothing otherwise.
     */
    method ReorderApartments(building: Id, ordered: seq<Id>) returns (ok: bool)
      modifies this
      ensures ok <==> IsPermutation(ordered, old(apartments), building)
      ensures View() == old(View()).(apartments := apartments)
      ensures if ok then Repositioned(ordered, old(apartments), apartments) else apartments == old(apartments)
    {
      ReorderChecksArePermutation(ordered, apartments, building);
      if |IdsOf(apartments, building)| != |ordered| {
        return false;
      }
      if |Elements(ordered)| != |ordered| {
        return false;
      }
      ElementsCardinality(ordered);
      var saved := apartments;
      for index := 0 to |ordered|
        invariant View() == old(View()).(apartments := apartments)
        invariant forall i :: 0 <= i < index ==> ordered[i] in saved && saved[ordered[i]].building == building
        invariant Repositioned(ordered[..index], saved, apartments)
      {
        NextPosition(ordered, index, saved, apartments);
        var hit := UpdatePosition(ordered[index], building, index);
        if !hit {
          apartments := saved;
          return false;
        }
      }
      assert ordered[..|ordered|] == ordered;
      ok := true;
    }
  }
}
