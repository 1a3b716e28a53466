/**
 Which transactions are committed, and with which result: for every kind of
 transaction in terms of the chain it would leave, without its guards.
 */
module Acceptance {
  import opened Wrappers
  import opened Calendar
  import opened Periods
  import opened Apartments
  import opened Tiling
  import opened Closing
  import opened Registry
  import opened Invariants

  /** Four-digit years, and no end before the start. */
  lemma WellDatedIff(r: Row)
    ensures WellDated(r) <==>
      && 0 <= YearOf(r.start) <= 9999
      && (r.end.Some? ==> 0 <= YearOf(r.end.value) <= 9999 && r.start <= r.end.value)
  {
    FourDigitYears(r.start);
    if r.end.Some? {
      FourDigitYears(r.end.value);
    }
  }

  lemma FourDigitYears(d: Day)
    ensures MIN_DAY <= d <= MAX_DAY <==> 0 <= YearOf(d) <= 9999
  {
    hide YearOf, YearFrom;
    assert MIN_DAY == YearStart(0) && MAX_DAY == YearStart(10000) - 1;
    var y := YearOf(d);
    if y < 0 && y + 1 < 0 {
      YearStartMonotone(y + 1, 0);
    } else if y > 9999 && y > 10000 {
      YearStartMonotone(10000, y);
    } else if 0 <= y <= 9999 {
      if 0 < y { YearStartMonotone(0, y); }
      if y + 1 < 10000 { YearStartMonotone(y + 1, 10000); }
    }
  }

  // ----- one chain -----

  /** A row of a tiled chain passes the triggers against the others. */
  lemma TiledRowIsAccepted(c: Table, id: Id)
    requires Tiled(c) && id in c
    ensures ChainAccepts(c - {id}, c[id])
  {
    var n, others := c[id], c - {id};
    forall o | o in others
      ensures !Overlap(n, others[o])
    {
      OverlapIsSharedDay(n, others[o]);
    }
    if EndsBefore(others, n) != {} {
      var last := Max(EndsBefore(others, n));
      assert last in EndsBefore(others, n);
      var o :| o in others && others[o].end == Some(last) && last < n.start;
      var p := Predecessor(c, id, o);
      assert p in others && others[p].end.value in EndsBefore(others, n);
    }
    if StartsAfter(others, n) != {} {
      var first := Min(StartsAfter(others, n));
      assert first in StartsAfter(others, n);
      var o :| o in others && others[o].start == first && EndOr(n) < first;
      OpenRowIsLast(c, id, o);
      var q := Successor(c, id, o);
      assert q in others && others[q].start in StartsAfter(others, n);
    }
  }

  lemma OpenRowIsLast(c: Table, id: Id, o: Id)
    requires Dated(c) && id in c && o in c && EndOr(c[id]) < c[o].start
    ensures c[id].end.Some?
  {
  }

  /** A row is accepted into a tiled chain exactly when the chain with it is tiled. */
  lemma InsertAcceptedIff(c: Table, id: Id, n: Row)
    requires Tiled(c) && id !in c
    ensures ChainAccepts(c, n) <==> Tiled(c[id := n])
  {
    if ChainAccepts(c, n) {
      InsertKeepsTiled(c, id, n);
    }
    if Tiled(c[id := n]) {
      TiledRowIsAccepted(c[id := n], id);
      assert c[id := n] - {id} == c;
    }
  }

  /** New dates are accepted exactly when the chain with them is tiled, or they put a middle row flush against one end
      of the chain. */
  lemma UpdateAcceptedIff(c: Table, id: Id, n: Row)
    requires Tiled(c) && id in c && n.parent == c[id].parent
    ensures ChainAccepts(c - {id}, n) <==>
      || Tiled(c[id := n])
      || (WellDated(n) && Middle(c, id) && (FlushAtEnd(c - {id}, n) || FlushAtStart(c - {id}, n)))
  {
    var others := c - {id};
    if ChainAccepts(others, n) && !Tiled(c[id := n]) {
      UpdateKeepsTiledIff(c, id, n);
      MovedMiddleIsFlush(c, id, n);
    }
    if Tiled(c[id := n]) {
      TiledRowIsAccepted(c[id := n], id);
      assert c[id := n] - {id} == others;
    }
    if WellDated(n) && FlushAtEnd(others, n) {
      FlushEndIsAccepted(others, n);
    }
    if WellDated(n) && FlushAtStart(others, n) {
      FlushStartIsAccepted(others, n);
    }
  }

  lemma FlushEndIsAccepted(others: Table, n: Row)
    requires Dated(others) && WellDated(n) && FlushAtEnd(others, n)
    ensures ChainAccepts(others, n)
  {
    var o :| o in others && others[o].end == Some(n.start - 1);
    assert others[o].end.value in EndsBefore(others, n);
    assert StartsAfter(others, n) == {};
  }

  lemma FlushStartIsAccepted(others: Table, n: Row)
    requires Dated(others) && WellDated(n) && FlushAtStart(others, n)
    ensures ChainAccepts(others, n)
  {
    var o :| o in others && others[o].start == n.end.value + 1;
    assert others[o].start in StartsAfter(others, n);
    assert EndsBefore(others, n) == {};
  }

  /** The middle guard protects exactly the tiling. */
  lemma RestIsTiledIff(c: Table, id: Id)
    requires Tiled(c) && id in c
    ensures Tiled(c - {id}) <==> !Middle(c, id)
  {
    if !Middle(c, id) {
      DeleteKeepsTiled(c, id);
    } else {
      var p, q := MiddleNeighbours(c, id);
      var rest, d := c - {id}, c[id].start;
      assert Covers(rest[p], d - 1) && Covers(rest[q], c[id].end.value + 1);
      assert Covered(rest, d - 1) && Covered(rest, c[id].end.value + 1);
      assert Covers(c[id], d);
      forall o | o in rest
        ensures !Covers(rest[o], d)
      {
      }
      assert !Covered(rest, d);
    }
  }

  // ----- periods -----

  /** A day with at most one row, and dates in order: what is asked of tenancies. */
  ghost predicate Separate(c: Table) {
    Dated(c) && Disjoint(c)
  }

  lemma TenancyAcceptedIff(c: Table, id: Id, n: Row)
    requires Separate(c - {id})
    ensures TenancyAccepts(c - {id}, n) <==> Separate(c[id := n])
  {
    var others, t := c - {id}, c[id := n];
    if TenancyAccepts(others, n) {
      AcceptedKeepsDisjoint(others, id, n);
      assert others - {id} == others && others[id := n] == t;
    }
    if Separate(t) {
      assert WellDated(t[id]);
      forall o | o in others
        ensures !Overlap(n, others[o])
      {
        assert t[o] == others[o] && t[id] == n;
        OverlapIsSharedDay(n, others[o]);
      }
    }
  }

  /** What an insert has to leave: the parent's chain tiled, or for a tenancy separate. */
  ghost predicate GoodChain(k: Kind, c: Table) {
    if k == Tenancies then Separate(c) else Tiled(c)
  }

  /** The parent exists. */
  predicate HasParent(s: State, k: Kind, parent: Id) {
    if k == BuildingOwners then parent in s.buildings else parent in s.apartments
  }

  /** The other form of ownership stands in the way: a building owner today, or an apartment owner of any date. */
  ghost predicate OtherFormBars(s: State, k: Kind, parent: Id, today: Day) {
    match k
    case Ownerships =>
      exists b :: b in s.buildingOwners && parent in s.apartments && Covers(s.buildingOwners[b], today)
        && s.buildingOwners[b].parent == s.apartments[parent].building
    case BuildingOwners =>
      exists o, a :: o in s.ownerships && a in s.apartments && s.ownerships[o].parent == a
        && s.apartments[a].building == parent
    case Tenancies => false
  }

  lemma ExclusionIff(s: State, k: Kind, parent: Id, today: Day)
    ensures ExclusionFires(s, k, parent, today) <==> OtherFormBars(s, k, parent, today)
  {
    match k
    case Ownerships =>
      if parent in s.apartments {
        OwnedTodayIff(s, s.apartments[parent].building, today);
      }
    case BuildingOwners =>
    case Tenancies =>
  }

  lemma OwnedTodayIff(s: State, building: Id, today: Day)
    ensures BuildingOwned(s, building, today) <==>
      exists b :: b in s.buildingOwners && s.buildingOwners[b].parent == building && Covers(s.buildingOwners[b], today)
  {
    var c := Of(s.buildingOwners, building);
    if BuildingOwned(s, building, today) {
      var b :| b in c && Covers(c[b], today);
      assert b in s.buildingOwners;
    }
    if b :| b in s.buildingOwners && s.buildingOwners[b].parent == building && Covers(s.buildingOwners[b], today) {
      assert b in c && Covers(c[b], today);
    }
  }

  /** A new period is committed exactly when its id is new, its parent exists, the parent's chain with it is tiled (for
      a tenancy: separate), and the other form does not stand in the way; nothing but the new row changes. */
  lemma CreatePeriodCommitsIff(s: State, k: Kind, id: Id, n: Row, today: Day)
    requires Sound(s) && GoodChain(k, Of(TableOf(s, k), n.parent))
    ensures var t := TableOf(s, k);
      Exec(s, CreatePeriod(k, id, n.parent, n.start, n.end), today) ==
      if && id !in t && HasParent(s, k, n.parent)
         && GoodChain(k, Of(t, n.parent)[id := n])
         && !OtherFormBars(s, k, n.parent, today)
      then Some(WithTable(s, k, t[id := n])) else None
  {
    var c := Of(TableOf(s, k), n.parent);
    assert Row(n.parent, n.start, n.end) == n;
    if id !in TableOf(s, k) {
      AcceptsIff(k, c, id, n);
      InsertKeepsKeysIff(s, k, id, n);
    }
    ExclusionIff(s, k, n.parent, today);
    CreateUnfolds(s, k, id, n, today);
  }

  lemma AcceptsIff(k: Kind, c: Table, id: Id, n: Row)
    requires GoodChain(k, c) && id !in c
    ensures Accepts(k, c, n) <==> GoodChain(k, c[id := n])
  {
    if k == Tenancies {
      assert c - {id} == c;
      TenancyAcceptedIff(c, id, n);
    } else {
      InsertAcceptedIff(c, id, n);
    }
  }

  lemma InsertKeepsKeysIff(s: State, k: Kind, id: Id, n: Row)
    requires ForeignKeys(s) && id !in TableOf(s, k)
    ensures ForeignKeys(WithTable(s, k, TableOf(s, k)[id := n])) <==> HasParent(s, k, n.parent)
  {
    var u := WithTable(s, k, TableOf(s, k)[id := n]);
    assert TableOf(u, k)[id] == n;
  }

  lemma CreateUnfolds(s: State, k: Kind, id: Id, n: Row, today: Day)
    ensures var t := TableOf(s, k);
      var u := WithTable(s, k, t[id := n]);
      Exec(s, CreatePeriod(k, id, n.parent, n.start, n.end), today) ==
      if id !in t && Accepts(k, Of(t, n.parent), n) && !ExclusionFires(s, k, n.parent, today) && ForeignKeys(u)
      then Some(u) else None
  {
    hide Accepts, ExclusionFires, ForeignKeys, Of;
    assert Row(n.parent, n.start, n.end) == n;
  }

  /** New dates are committed exactly when the chain with them is good, or when they put a middle period of a tiled
      chain flush against one of its ends. */
  lemma UpdateCommitsIff(s: State, k: Kind, id: Id, start: Day, end: Option<Day>, today: Day)
    requires Sound(s) && id in TableOf(s, k) && GoodChain(k, Of(TableOf(s, k), TableOf(s, k)[id].parent))
    ensures var t := TableOf(s, k);
      var c, n := Of(t, t[id].parent), t[id].(start := start, end := end);
      Exec(s, UpdateDates(k, id, start, end), today) ==
      if || GoodChain(k, c[id := n])
         || (k != Tenancies && WellDated(n) && Middle(c, id) && (FlushAtEnd(c - {id}, n) || FlushAtStart(c - {id}, n)))
      then Some(WithTable(s, k, t[id := n])) else None
  {
    hide FlushAtEnd, FlushAtStart, Middle, Tiled;
    var t := TableOf(s, k);
    var c, n := Of(t, t[id].parent), t[id].(start := start, end := end);
    if k == Tenancies {
      TenancyAcceptedIff(c, id, n);
    } else {
      UpdateAcceptedIff(c, id, n);
    }
    UpdateKeepsKeys(s, k, id, n);
  }

  lemma UpdateKeepsKeys(s: State, k: Kind, id: Id, n: Row)
    requires ForeignKeys(s) && id in TableOf(s, k) && TableOf(s, k)[id].parent == n.parent
    ensures ForeignKeys(WithTable(s, k, TableOf(s, k)[id := n]))
  {
  }

  /**
   An ownership is deleted exactly when the rest of its chain is tiled and the
   apartment stays owned: by the building's owner today, or by another record
   while the deleted one is not the current one.
   */
  lemma DeleteOwnershipCommitsIff(s: State, id: Id, today: Day)
    requires Sound(s) && id in s.ownerships && Tiled(Of(s.ownerships, s.ownerships[id].parent))
    ensures var row := s.ownerships[id];
      var rest := Of(s.ownerships, row.parent) - {id};
      Exec(s, DeletePeriodOp(Ownerships, id), today) ==
      if && Tiled(rest)
         && (|| BuildingOwned(s, s.apartments[row.parent].building, today)
             || (rest != map[] && !Covers(row, today)))
      then Some(s.(ownerships := s.ownerships - {id})) else None
  {
    hide Tiled, Middle, Covers, BuildingOwned;
    var c := Of(s.ownerships, s.ownerships[id].parent);
    RestIsTiledIff(c, id);
    OneRowIff(c, id);
  }

  /** A building owner is deleted exactly when the rest of the chain is tiled and no apartment needs it: every one has
      an owner of its own today, or another record remains and the deleted one is not the current one. */
  lemma DeleteBuildingOwnerCommitsIff(s: State, id: Id, today: Day)
    requires Sound(s) && id in s.buildingOwners && Tiled(Of(s.buildingOwners, s.buildingOwners[id].parent))
    ensures var row := s.buildingOwners[id];
      var rest := Of(s.buildingOwners, row.parent) - {id};
      Exec(s, DeletePeriodOp(BuildingOwners, id), today) ==
      if && Tiled(rest)
         && (|| (forall a :: a in IdsOf(s.apartments, row.parent) ==> Covered(Of(s.ownerships, a), today))
             || (rest != map[] && !Covers(row, today)))
      then Some(s.(buildingOwners := s.buildingOwners - {id})) else None
  {
    hide Tiled, Middle, Covers, Covered;
    var c := Of(s.buildingOwners, s.buildingOwners[id].parent);
    RestIsTiledIff(c, id);
    OneRowIff(c, id);
  }

  lemma OneRowIff(c: Table, id: Id)
    requires id in c
    ensures |c| >= 1
    ensures c - {id} == map[] <==> |c| == 1
  {
    assert |c| == |c.Keys| && |c - {id}| == |(c - {id}).Keys|;
    assert (c - {id}).Keys == c.Keys - {id};
  }

  /** A tenancy can always be deleted, and a period that is not there leaves everything as it is. */
  lemma DeleteOthersCommits(s: State, k: Kind, id: Id, today: Day)
    requires Sound(s) && (k == Tenancies || id !in TableOf(s, k))
    ensures Exec(s, DeletePeriodOp(k, id), today) == Some(WithTable(s, k, TableOf(s, k) - {id}))
  {
    assert id !in TableOf(s, k) ==> TableOf(s, k) - {id} == TableOf(s, k);
  }

  // ----- apartments and buildings -----

  /** An apartment with its first ownership is created exactly when both ids are new, the building exists, the dates are
      in order, and no owner of the building covers today. */
  lemma CreateApartmentCommitsIff(s: State, id: Id, a: Apartment, ownership: Id, start: Day, end: Option<Day>,
                                  today: Day)
    requires Sound(s)
    ensures Exec(s, CreateApartment(id, a, ownership, start, end), today) ==
      if && id !in s.apartments && ownership !in s.ownerships && a.building in s.buildings
         && WellDated(Row(id, start, end)) && !BuildingOwned(s, a.building, today)
      then Some(s.(apartments := s.apartments[id := a],
                   ownerships := s.ownerships[ownership := Row(id, start, end)]))
      else None
  {
    hide WellDated, Covered, AllDisjoint;
    var n := Row(id, start, end);
    if id !in s.apartments && ownership !in s.ownerships {
      assert Of(s.ownerships, id) == map[];
      NothingToTile(n);
      assert s.ownerships[ownership := n][ownership].parent == id;
    }
  }

  lemma NothingToTile(n: Row)
    ensures ChainAccepts(map[], n) <==> WellDated(n)
  {
    var c: Table := map[];
    assert EndsBefore(c, n) == {} && StartsAfter(c, n) == {};
  }

  /** One without is created exactly when its id is new and an owner of its building covers today. */
  lemma CreateDependentApartmentCommitsIff(s: State, id: Id, a: Apartment, today: Day)
    requires Sound(s)
    ensures Exec(s, CreateApartmentBuildingOwned(id, a), today) ==
      if id !in s.apartments && BuildingOwned(s, a.building, today)
      then Some(s.(apartments := s.apartments[id := a])) else None
  {
    hide AllDisjoint;
    OwnedTodayIff(s, a.building, today);
  }

  /** A building is created exactly when the ids are new and the dates of its owner, if any, are in order. */
  lemma CreateBuildingCommitsIff(s: State, id: Id, owner: Option<(Id, Day, Option<Day>)>, today: Day)
    requires Sound(s)
    ensures Exec(s, CreateBuilding(id, owner), today) ==
      if id in s.buildings then None
      else if owner.None? then Some(s.(buildings := s.buildings + {id}))
      else
        var n := Row(id, owner.value.1, owner.value.2);
        if owner.value.0 in s.buildingOwners || !WellDated(n) then None
        else Some(s.(buildings := s.buildings + {id}, buildingOwners := s.buildingOwners[owner.value.0 := n]))
  {
    hide WellDated, AllDisjoint;
    if id !in s.buildings && owner.Some? {
      var n := Row(id, owner.value.1, owner.value.2);
      assert Of(s.buildingOwners, id) == map[];
      NothingToTile(n);
    }
  }

  /** The rows that a table keeps when some parents are deleted. */
  ghost predicate KeepsOthers(t: Table, u: Table, gone: set<Id>) {
    && (forall o :: o in u <==> o in t && t[o].parent !in gone)
    && forall o :: o in u ==> u[o] == t[o]
  }

  /** An apartment can always be deleted; exactly it and its periods go. */
  lemma DeleteApartmentCommits(s: State, id: Id, today: Day)
    requires Sound(s)
    ensures var r := Exec(s, DeleteApartment(id), today);
      && r.Some? && r.value.apartments == s.apartments - {id}
      && KeepsOthers(s.ownerships, r.value.ownerships, {id}) && KeepsOthers(s.tenancies, r.value.tenancies, {id})
      && r.value.buildings == s.buildings && r.value.buildingOwners == s.buildingOwners
  {
    hide AllDisjoint;
  }

  /** A building as well; exactly it, its owners, its apartments and their periods go. */
  lemma DeleteBuildingCommits(s: State, id: Id, today: Day)
    requires Sound(s)
    ensures var r := Exec(s, DeleteBuilding(id), today);
      && r.Some? && r.value.buildings == s.buildings - {id}
      && r.value.apartments == s.apartments - IdsOf(s.apartments, id)
      && KeepsOthers(s.ownerships, r.value.ownerships, IdsOf(s.apartments, id))
      && KeepsOthers(s.tenancies, r.value.tenancies, IdsOf(s.apartments, id))
      && KeepsOthers(s.buildingOwners, r.value.buildingOwners, {id})
  {
    hide AllDisjoint;
  }
}
