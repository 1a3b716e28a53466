/**
 Handovers of whole states, what the delete guards protect today, and the two
 places where the database promises less than its documentation.
 */
module Coverage {
  import opened Wrappers
  import opened Calendar
  import opened Periods
  import opened Apartments
  import opened Tiling
  import opened Closing
  import opened Registry
  import opened Invariants
  import Forms

  /**
   Closing the covering period and inserting its successor is committed exactly
   when the covering period is the last of its chain, the new start lies after
   its start, the new period does not end before it starts, and the other form
   of ownership does not apply. The new table differs in those two rows only.
   */
  lemma ClosingCommitsIff(s: State, k: Kind, previous: Id, id: Id, n: Row, today: Day)
    requires ForeignKeys(s) && k != Tenancies && Tiled(Of(TableOf(s, k), n.parent))
    requires previous in TableOf(s, k) && TableOf(s, k)[previous].parent == n.parent
    requires Covers(TableOf(s, k)[previous], n.start) && id !in TableOf(s, k)
    requires MIN_DAY <= n.start <= MAX_DAY && (n.end.Some? ==> MIN_DAY <= n.end.value <= MAX_DAY)
    ensures var t := TableOf(s, k);
      Exec(s, CreatePeriodClosingPrevious(k, id, n.parent, previous, n.start - 1, n.start, n.end), today) ==
      if && Last(Of(t, n.parent), previous)
         && t[previous].start < n.start
         && (n.end.Some? ==> n.start <= n.end.value)
         && !ExclusionFires(s, k, n.parent, today)
      then Some(WithTable(s, k, t[previous := Ended(t[previous], n)][id := n])) else None
  {
    var c := Of(TableOf(s, k), n.parent);
    assert c[previous] == TableOf(s, k)[previous];
    ClosingAcceptedIff(c, previous, n);
    ClosingExec(s, k, n.parent, previous, id, n, today);
  }

  lemma ClosingExec(s: State, k: Kind, parent: Id, previous: Id, id: Id, n: Row, today: Day)
    requires ForeignKeys(s) && k != Tenancies && id !in TableOf(s, k)
    requires previous in TableOf(s, k) && TableOf(s, k)[previous].parent == parent == n.parent
    ensures var t := TableOf(s, k);
      Exec(s, CreatePeriodClosingPrevious(k, id, parent, previous, n.start - 1, n.start, n.end), today) ==
      if ClosingAccepted(Of(t, parent), previous, n) && !ExclusionFires(s, k, parent, today)
      then Some(WithTable(s, k, t[previous := Ended(t[previous], n)][id := n])) else None
  {
    CloseStatement(s, k, parent, previous, n);
    SuccessorStatement(s, k, parent, previous, id, n, today);
    ClosingKeepsKeys(s, k, previous, Ended(TableOf(s, k)[previous], n), id, n);
  }

  lemma CloseStatement(s: State, k: Kind, parent: Id, previous: Id, n: Row)
    requires k != Tenancies && previous in TableOf(s, k) && TableOf(s, k)[previous].parent == parent
    ensures var t := TableOf(s, k);
      UpdatePeriod(s, k, previous, t[previous].start, Some(n.start - 1)) ==
      if ChainAccepts(Of(t, parent) - {previous}, Ended(t[previous], n))
      then Some(WithTable(s, k, t[previous := Ended(t[previous], n)])) else None
  {
    var t := TableOf(s, k);
    assert t[previous].(start := t[previous].start, end := Some(n.start - 1)) == Ended(t[previous], n);
  }

  lemma SuccessorStatement(s: State, k: Kind, parent: Id, previous: Id, id: Id, n: Row, today: Day)
    requires k != Tenancies && previous in TableOf(s, k) && TableOf(s, k)[previous].parent == parent == n.parent
    requires id !in TableOf(s, k)
    ensures var t := TableOf(s, k);
      var u := t[previous := Ended(t[previous], n)];
      InsertPeriod(WithTable(s, k, u), k, id, n, today) ==
      if ChainAccepts(Of(t, parent)[previous := Ended(t[previous], n)], n) && !ExclusionFires(s, k, parent, today)
      then Some(WithTable(s, k, u[id := n])) else None
  {
    var t := TableOf(s, k);
    var u := t[previous := Ended(t[previous], n)];
    OfUpdated(t, previous, Ended(t[previous], n), parent);
    assert ExclusionFires(WithTable(s, k, u), k, parent, today) == ExclusionFires(s, k, parent, today);
  }

  lemma ClosingKeepsKeys(s: State, k: Kind, previous: Id, closed: Row, id: Id, n: Row)
    requires ForeignKeys(s) && previous in TableOf(s, k)
    requires closed.parent == TableOf(s, k)[previous].parent == n.parent
    ensures ForeignKeys(WithTable(s, k, TableOf(s, k)[previous := closed][id := n]))
  {
  }

  /** The delete guards of all migrations together: no committed delete of a period uncovers an
      apartment on the day it is made. */
  lemma DeleteKeepsOwnedToday(s: State, k: Kind, id: Id, today: Day, a: Id)
    requires ForeignKeys(s) && a in s.apartments && OwnedOn(s, a, today)
    requires Exec(s, DeletePeriodOp(k, id), today).Some?
    ensures a in Exec(s, DeletePeriodOp(k, id), today).value.apartments
    ensures OwnedOn(Exec(s, DeletePeriodOp(k, id), today).value, a, today)
  {
    if k != Tenancies && id in TableOf(s, k) {
      var t := TableOf(s, k);
      var row, b := t[id], s.apartments[a].building;
      OfDeleted(t, id, a);
      OfDeleted(t, id, b);
      var p := if k == Ownerships then a else b;
      if Covered(Of(t, p), today) && !(row.parent == p && Covers(row, today)) {
        StillCovered(t, id, p, today);
      } else if k == BuildingOwners && Covered(Of(t, p), today) {
        assert !HasDependentApartment(s, row.parent, today);
      }
    }
  }

  lemma StillCovered(t: Table, id: Id, p: Id, today: Day)
    requires Covered(Of(t, p), today) && id in t && !(t[id].parent == p && Covers(t[id], today))
    ensures Covered(Of(t - {id}, p), today)
  {
    var o :| o in Of(t, p) && Covers(Of(t, p)[o], today);
    assert o in Of(t - {id}, p) && Of(t - {id}, p)[o] == t[o];
  }

  /** What the guards of the two forms look at: a committed ownership finds no building owner covering today, a
      committed building owner finds no ownership of any date. On other days the new ownership meets a building owner
      exactly when it overlaps one of the building's periods. */
  lemma InsertsExcludeOtherForm(s: State, id: Id, parent: Id, start: Day, end: Option<Day>, today: Day)
    ensures Exec(s, CreatePeriod(Ownerships, id, parent, start, end), today).Some? ==>
      parent in s.apartments && !BuildingOwned(s, s.apartments[parent].building, today)
    ensures Exec(s, CreatePeriod(BuildingOwners, id, parent, start, end), today).Some? ==>
      forall o :: o in s.ownerships && s.ownerships[o].parent in s.apartments ==>
        s.apartments[s.ownerships[o].parent].building != parent
    ensures Sound(s) && Exec(s, CreatePeriod(Ownerships, id, parent, start, end), today).Some? ==>
      var building := s.apartments[parent].building;
      (exists d :: Covers(Row(parent, start, end), d) && BuildingOwned(s, building, d)) <==>
        OverlapsSome(Of(s.buildingOwners, building), Row(parent, start, end))
  {
    hide Covered, AllDisjoint, Of, OverlapsSome;
    var n := Row(parent, start, end);
    var u := Exec(s, CreatePeriod(Ownerships, id, parent, start, end), today);
    if u.Some? {
      assert id in u.value.ownerships && u.value.ownerships[id] == n;
      if Sound(s) {
        Forms.OverlapsBuilding(s, s.apartments[parent].building, n);
      }
    }
  }

  lemma NewApartmentHasOneForm(s: State, id: Id, a: Apartment, ownership: Id, start: Day, end: Option<Day>, today: Day)
    requires ForeignKeys(s)
    ensures Exec(s, CreateApartment(id, a, ownership, start, end), today).Some? ==> !BuildingOwned(s, a.building, today)
    ensures Exec(s, CreateApartmentBuildingOwned(id, a), today).Some? ==>
      BuildingOwned(s, a.building, today) && Of(s.ownerships, id) == map[]
  {
    hide Accepts;
    var s1 := InsertPeriod(s, Ownerships, ownership, Row(id, start, end), today);
    if s1.Some? {
      assert ownership in s1.value.ownerships && s1.value.ownerships[ownership].parent == id;
      assert BuildingOwned(s1.value, a.building, today) == BuildingOwned(s, a.building, today);
    }
  }

  // ----- sharp edges -----

  /** A building with one apartment. */
  function HouseOf(t: Table): State {
    State({"h"}, map["w" := Apartment("h", "", 0, "")], t, map[], map[])
  }

  /** The same with owners of the building only. */
  function HouseOwnedBy(t: Table): State {
    State({"h"}, map["w" := Apartment("h", "", 0, "")], map[], t, map[])
  }

  /** README.markdown:25 says the two forms are mutually exclusive. The guard looks at the current date only: once
      the building owner's period has ended, an ownership that starts inside it is accepted, and both forms cover
      the same days. */
  lemma MixedFormsWitness()
    ensures var s := HouseOwnedBy(map["b" := Row("h", 10, Some(20))]);
      var u := Exec(s, CreatePeriod(Ownerships, "o", "w", 15, None), 30);
      && Sound(s) && Seamless(s) && NeverOwnerless(s)
      && Forms.FormsExclusive(s)
      && u.Some? && Covered(Of(u.value.ownerships, "w"), 18) && BuildingOwned(u.value, "h", 18)
      && !Forms.FormsExclusive(u.value)
  {
    EndedBuildingOwner();
    var n, empty: Table := Row("w", 15, None), map[];
    assert Of(empty, "w") == map[] && empty["o" := n] == map["o" := n];
    LateOwnership(map["o" := n], n);
  }

  lemma EndedBuildingOwner()
    ensures var s := HouseOwnedBy(map["b" := Row("h", 10, Some(20))]);
      Sound(s) && Seamless(s) && NeverOwnerless(s) && BuildingOwned(s, "h", 18) && !BuildingOwned(s, "h", 30)
  {
    var b := map["b" := Row("h", 10, Some(20))];
    SingletonTiled(b, "b", Row("h", 10, Some(20)));
    var c := Of(b, "h");
    assert "b" in c && c["b"] == Row("h", 10, Some(20));
    assert forall id :: id in c ==> id == "b";
  }

  lemma LateOwnership(t: Table, n: Row)
    requires n == Row("w", 15, None) && t == map["o" := n]
    ensures Covered(Of(t, "w"), 18)
  {
    assert "o" in Of(t, "w") && Covers(Of(t, "w")["o"], 18);
  }

  /** README.markdown:29 says the tiling is enforced on update. Three periods and an update of the
      middle one that is committed: its old days have no owner afterwards. */
  lemma RelocatedMiddleWitness(today: Day)
    ensures var s, u := HouseOf(ThreePeriods()), HouseOf(ThreePeriods()["b" := Row("w", 40, Some(49))]);
      && Sound(s) && Seamless(s) && OwnedOn(s, "w", 25)
      && Exec(s, UpdateDates(Ownerships, "b", 40, Some(49)), today) == Some(u)
      && !Seamless(u) && !OwnedOn(u, "w", 25)
  {
    hide Sound, Seamless, OwnedOn, ForeignKeys, UpdatePeriod, ThreePeriods;
    ThreePeriodsHouse();
    RelocatedMiddleHouse();
  }

  lemma ThreePeriodsHouse()
    ensures Sound(HouseOf(ThreePeriods())) && Seamless(HouseOf(ThreePeriods()))
    ensures OwnedOn(HouseOf(ThreePeriods()), "w", 25)
  {
    hide Tiled, Disjoint;
    var t, none: Table := ThreePeriods(), map[];
    ThreePeriodsTile();
    EmptyTiles();
    assert Of(t, "w") == t;
    forall p
      ensures Tiled(Of(t, p)) && Tiled(Of(none, p))
    {
      assert Of(none, p) == map[];
      if p != "w" {
        assert Of(t, p) == map[];
      }
    }
    TiledTablesAreDisjoint(t);
    TiledTablesAreDisjoint(none);
    assert Covers(t["b"], 25);
  }

  lemma TiledTablesAreDisjoint(t: Table)
    requires AllTiled(t)
    ensures AllDisjoint(t)
  {
  }

  lemma RelocatedMiddleHouse()
    ensures var s, n := HouseOf(ThreePeriods()), Row("w", 40, Some(49));
      var u := HouseOf(ThreePeriods()["b" := n]);
      && UpdatePeriod(s, Ownerships, "b", 40, Some(49)) == Some(u) && ForeignKeys(u)
      && !Seamless(u) && !OwnedOn(u, "w", 25)
  {
    hide ChainAccepts, GapFree, Covered;
    var t, n, none: Table := ThreePeriods(), Row("w", 40, Some(49)), map[];
    RelocatedMiddleIsAccepted();
    assert Of(t, "w") == t && Of(t["b" := n], "w") == t["b" := n];
    assert Of(none, "h") == map[];
    NothingCovered(25);
  }

  lemma NothingCovered(d: Day)
    ensures !Covered(map[], d)
  {
  }

  function ThreePeriods(): Table {
    map["a" := Row("w", 10, Some(19)), "b" := Row("w", 20, Some(29)), "c" := Row("w", 30, Some(39))]
  }

  lemma EmptyTiles()
    ensures Tiled(map[])
  {
  }

  lemma ThreePeriodsTile()
    ensures Tiled(ThreePeriods())
  {
    var c := ThreePeriods();
    forall x, y, z | x <= y <= z && Covered(c, x) && Covered(c, z)
      ensures Covered(c, y)
    {
      assert Covers(c["a"], y) || Covers(c["b"], y) || Covers(c["c"], y);
    }
  }

  lemma RelocatedMiddleIsAccepted()
    ensures var c, n := ThreePeriods(), Row("w", 40, Some(49));
      ChainAccepts(c - {"b"}, n) && !GapFree(c["b" := n]) && !Covered(c["b" := n], 25)
  {
    var c, n := ThreePeriods(), Row("w", 40, Some(49));
    var others := c - {"b"};
    assert others["c"].end.value in EndsBefore(others, n);
    assert Max(EndsBefore(others, n)) == 39;
    assert StartsAfter(others, n) == {};
    var t := c["b" := n];
    assert Covers(t["a"], 15) && Covers(t["c"], 35);
    assert Covered(t, 15) && Covered(t, 35);
    assert !Covered(t, 25);
  }

  /** An owner record is not an owner today: the sole open period may be given an end in the past. */
  lemma RecordWithoutOwnerWitness()
    ensures var s, u := HouseOf(map["o" := Row("w", 10, None)]), HouseOf(map["o" := Row("w", 10, Some(20))]);
      && Sound(s) && Seamless(s) && OwnedOn(s, "w", 30)
      && Exec(s, UpdateDates(Ownerships, "o", 10, Some(20)), 30) == Some(u)
      && NeverOwnerless(u) && Seamless(u) && !OwnedOn(u, "w", 30)
  {
    hide Exec, Sound, Seamless, NeverOwnerless, OwnedOn;
    SoleUpdate(Row("w", 10, None), Row("w", 10, Some(20)), 30);
    SoleOwner(map["o" := Row("w", 10, None)], Row("w", 10, None));
    SoleOwner(map["o" := Row("w", 10, Some(20))], Row("w", 10, Some(20)));
  }

  /** The form warns only of an edit that ends the current period before today. One that moves its start past today
      is accepted without the warning and leaves today without an owner as well. */
  lemma MovedStartWitness()
    ensures var s, u := HouseOf(map["o" := Row("w", 10, None)]), HouseOf(map["o" := Row("w", 40, None)]);
      && Sound(s) && Seamless(s) && OwnedOn(s, "w", 30)
      && !EndDropsToday(10, None, None, 30)
      && Exec(s, UpdateDates(Ownerships, "o", 40, None), 30) == Some(u) && !OwnedOn(u, "w", 30)
  {
    hide Exec, Sound, Seamless, NeverOwnerless, OwnedOn;
    SoleUpdate(Row("w", 10, None), Row("w", 40, None), 30);
    SoleOwner(map["o" := Row("w", 10, None)], Row("w", 10, None));
    SoleOwner(map["o" := Row("w", 40, None)], Row("w", 40, None));
  }

  /** The only period of an apartment may be given any dates in order. */
  lemma SoleUpdate(r: Row, n: Row, today: Day)
    requires r.parent == n.parent == "w" && WellDated(n)
    ensures Exec(HouseOf(map["o" := r]), UpdateDates(Ownerships, "o", n.start, n.end), today) ==
      Some(HouseOf(map["o" := n]))
  {
    var t := map["o" := r];
    assert Of(t, "w") - {"o"} == map[];
    assert t["o" := n] == map["o" := n];
    assert r.(start := n.start, end := n.end) == n;
  }

  lemma SoleOwner(t: Table, row: Row)
    requires row.parent == "w" && WellDated(row) && t == map["o" := row]
    ensures var s := HouseOf(t);
      Sound(s) && Seamless(s) && NeverOwnerless(s) && (OwnedOn(s, "w", 30) <==> Covers(row, 30))
  {
    SingletonTiled(t, "o", row);
    var c := Of(t, "w");
    assert "o" in c && c["o"] == row;
    assert forall id :: id in c ==> id == "o";
  }

  lemma SingletonTiled(t: Table, id: Id, row: Row)
    requires t == map[id := row] && WellDated(row)
    ensures AllTiled(t) && AllTiled(map[]) && AllDisjoint(t) && AllDisjoint(map[])
  {
    forall p
      ensures Tiled(Of(t, p))
    {
      var c := Of(t, p);
      forall x, y, z | x <= y <= z && Covered(c, x) && Covered(c, z)
        ensures Covered(c, y)
      {
        assert Covers(c[id], y);
      }
    }
    var empty: Table := map[];
    forall p
      ensures Tiled(Of(empty, p))
    {
    }
  }
}
