/**
 The two forms of ownership: no apartment is to have, on one day, an owner of its
 own and an owner of its building. Which transactions keep that, and which are
 committed although they break it.
 */
module Forms {
  import opened Wrappers
  import opened Calendar
  import opened Periods
  import opened Apartments
  import opened Tiling
  import opened Closing
  import opened Registry
  import opened Invariants

  /** No day has both forms. */
  ghost predicate FormsExclusive(s: State) {
    forall a, d :: a in s.apartments && Covered(Of(s.ownerships, a), d) ==>
      !Covered(Of(s.buildingOwners, s.apartments[a].building), d)
  }

  /** The row overlaps no period of the other form, by the comparison that the triggers make within a form. */
  predicate Clear(s: State, k: Kind, n: Row) {
    match k
    case Ownerships =>
      n.parent in s.apartments ==> !OverlapsSome(Of(s.buildingOwners, s.apartments[n.parent].building), n)
    case BuildingOwners =>
      forall a | a in s.apartments :: s.apartments[a].building == n.parent ==> !OverlapsSome(Of(s.ownerships, a), n)
    case Tenancies => true
  }

  /** What a caller can check before the transaction. Inserting a building owner needs no check: the guard of
      migration 0010 lets it in only where no apartment has an ownership of any date. */
  predicate OpIsClear(s: State, op: Op) {
    match op
    case CreatePeriod(k, id, parent, start, end) => k == Ownerships ==> Clear(s, k, Row(parent, start, end))
    case CreateApartment(id, apartment, ownership, start, end) =>
      !OverlapsSome(Of(s.buildingOwners, apartment.building), Row(id, start, end))
    case UpdateDates(k, id, start, end) =>
      id in TableOf(s, k) ==> Clear(s, k, Row(TableOf(s, k)[id].parent, start, end))
    case CreatePeriodClosingPrevious(k, id, parent, previous, previousEnd, start, end) =>
      && (previous in TableOf(s, k) ==> Clear(s, k, TableOf(s, k)[previous].(end := Some(previousEnd))))
      && (k == Ownerships ==> Clear(s, k, Row(parent, start, end)))
    case _ => true
  }

  // ----- chains -----

  /** Overlapping a row of a chain is sharing a day with the chain. */
  lemma OverlapsSomeIff(c: Table, n: Row)
    requires Dated(c) && WellDated(n)
    ensures OverlapsSome(c, n) <==> exists d :: Covers(n, d) && Covered(c, d)
  {
    if OverlapsSome(c, n) {
      var o :| o in c && Overlap(n, c[o]);
      OverlapIsSharedDay(n, c[o]);
      var d :| Covers(n, d) && Covers(c[o], d);
      assert Covered(c, d);
    }
    if d :| Covers(n, d) && Covered(c, d) {
      var o :| o in c && Covers(c[o], d);
      OverlapIsSharedDay(n, c[o]);
    }
  }

  lemma PutCoversAtMost(t: Table, id: Id, n: Row, p: Id, d: Day)
    requires id in t ==> t[id].parent == n.parent
    ensures Covered(Of(t[id := n], p), d) ==> Covered(Of(t, p), d) || (p == n.parent && Covers(n, d))
    ensures p == n.parent && Covers(n, d) ==> Covered(Of(t[id := n], p), d)
    ensures id !in t && Covered(Of(t, p), d) ==> Covered(Of(t[id := n], p), d)
  {
    var c, u := Of(t, p), Of(t[id := n], p);
    OfUpdated(t, id, n, p);
    if Covered(u, d) {
      var o :| o in u && Covers(u[o], d);
      if o in c && c[o] == u[o] {
        assert Covered(c, d);
      }
    }
    if p == n.parent && Covers(n, d) {
      assert id in u && u[id] == n;
    }
    if id !in t && Covered(c, d) {
      var o :| o in c && Covers(c[o], d);
      assert o in u && u[o] == c[o];
    }
  }

  // ----- one statement -----

  lemma ClearMeans(s: State, k: Kind, n: Row)
    requires TablesDisjoint(s) && WellDated(n)
    ensures Clear(s, k, n) <==>
      match k
      case Ownerships => n.parent in s.apartments ==>
        forall d :: Covers(n, d) ==> !Covered(Of(s.buildingOwners, s.apartments[n.parent].building), d)
      case BuildingOwners =>
        forall a, d :: a in s.apartments && s.apartments[a].building == n.parent && Covers(n, d) ==>
          !Covered(Of(s.ownerships, a), d)
      case Tenancies => true
  {
    hide Of, Covered, Covers, OverlapsSome, WellDated;
    match k
    case Ownerships =>
      if n.parent in s.apartments {
        OverlapsSomeIff(Of(s.buildingOwners, s.apartments[n.parent].building), n);
      }
    case BuildingOwners =>
      forall a | a in s.apartments
        ensures OverlapsSome(Of(s.ownerships, a), n) <==> exists d :: Covers(n, d) && Covered(Of(s.ownerships, a), d)
      {
        OverlapsSomeIff(Of(s.ownerships, a), n);
      }
    case Tenancies =>
  }

  /** A row put into its table keeps the forms apart exactly when it is clear of the other form. */
  lemma PutKeepsExclusiveIff(s: State, k: Kind, id: Id, n: Row)
    requires TablesDisjoint(s) && FormsExclusive(s) && WellDated(n)
    requires id in TableOf(s, k) ==> TableOf(s, k)[id].parent == n.parent
    ensures FormsExclusive(WithTable(s, k, TableOf(s, k)[id := n])) <==> Clear(s, k, n)
  {
    hide Of, Covered, Covers, Clear, TablesDisjoint, WellDated;
    ClearMeans(s, k, n);
    var t, u := TableOf(s, k), WithTable(s, k, TableOf(s, k)[id := n]);
    if FormsExclusive(u) {
      forall a, d | a in s.apartments && Covers(n, d)
        ensures k == Ownerships && a == n.parent ==> !Covered(Of(s.buildingOwners, s.apartments[a].building), d)
        ensures k == BuildingOwners && s.apartments[a].building == n.parent ==> !Covered(Of(s.ownerships, a), d)
      {
        PutCoversAtMost(t, id, n, n.parent, d);
        assert a in u.apartments;
      }
    }
    if Clear(s, k, n) {
      forall a, d | a in u.apartments && Covered(Of(u.ownerships, a), d)
        ensures !Covered(Of(u.buildingOwners, u.apartments[a].building), d)
      {
        PutCoversAtMost(t, id, n, a, d);
        PutCoversAtMost(t, id, n, u.apartments[a].building, d);
      }
    }
  }

  /** One more row repairs nothing. */
  lemma PutKeepsMixed(s: State, k: Kind, id: Id, n: Row)
    requires id !in TableOf(s, k) && !FormsExclusive(s)
    ensures !FormsExclusive(WithTable(s, k, TableOf(s, k)[id := n]))
  {
    hide Of, Covered;
    var a, d :| a in s.apartments && Covered(Of(s.ownerships, a), d)
      && Covered(Of(s.buildingOwners, s.apartments[a].building), d);
    PutCoversAtMost(TableOf(s, k), id, n, a, d);
    PutCoversAtMost(TableOf(s, k), id, n, s.apartments[a].building, d);
  }

  lemma UpdateKeepsExclusiveIff(s: State, k: Kind, id: Id, start: Day, end: Option<Day>)
    requires TablesDisjoint(s) && FormsExclusive(s) && UpdatePeriod(s, k, id, start, end).Some?
    ensures FormsExclusive(UpdatePeriod(s, k, id, start, end).value) <==>
      (id in TableOf(s, k) ==> Clear(s, k, TableOf(s, k)[id].(start := start, end := end)))
  {
    hide FormsExclusive, Clear;
    if id in TableOf(s, k) {
      PutKeepsExclusiveIff(s, k, id, TableOf(s, k)[id].(start := start, end := end));
    }
  }

  lemma BuildingOwnerInsertIsClear(s: State, n: Row, today: Day)
    requires !ExclusionFires(s, BuildingOwners, n.parent, today)
    ensures Clear(s, BuildingOwners, n)
  {
    forall a | a in s.apartments && s.apartments[a].building == n.parent
      ensures !OverlapsSome(Of(s.ownerships, a), n)
    {
      assert Of(s.ownerships, a) == map[];
    }
  }

  /** An insert as the form of it has it: the building owner's needs no check. */
  lemma InsertKeepsExclusiveIff(s: State, k: Kind, id: Id, n: Row, today: Day)
    requires TablesDisjoint(s) && InsertPeriod(s, k, id, n, today).Some?
    ensures FormsExclusive(InsertPeriod(s, k, id, n, today).value) <==>
      FormsExclusive(s) && (k == Ownerships ==> Clear(s, k, n))
  {
    hide FormsExclusive, Clear, ExclusionFires;
    if !FormsExclusive(s) {
      PutKeepsMixed(s, k, id, n);
    } else {
      PutKeepsExclusiveIff(s, k, id, n);
      if k == BuildingOwners {
        BuildingOwnerInsertIsClear(s, n, today);
      } else if k == Tenancies {
        TenancyIsClear(s, n);
      }
    }
  }

  lemma TenancyIsClear(s: State, n: Row)
    ensures Clear(s, Tenancies, n)
  {
  }

  /** Fewer rows of either form mix nothing. */
  lemma FewerRowsKeepExclusive(s: State, u: State)
    requires FormsExclusive(s)
    requires forall a :: a in u.apartments ==> a in s.apartments && u.apartments[a] == s.apartments[a]
    requires forall o :: o in u.ownerships ==> o in s.ownerships && u.ownerships[o] == s.ownerships[o]
    requires forall o :: o in u.buildingOwners ==> o in s.buildingOwners && u.buildingOwners[o] == s.buildingOwners[o]
    ensures FormsExclusive(u)
  {
    forall p, d
      ensures Covered(Of(u.ownerships, p), d) ==> Covered(Of(s.ownerships, p), d)
      ensures Covered(Of(u.buildingOwners, p), d) ==> Covered(Of(s.buildingOwners, p), d)
    {
      if Covered(Of(u.ownerships, p), d) {
        var o :| o in Of(u.ownerships, p) && Covers(Of(u.ownerships, p)[o], d);
        assert o in Of(s.ownerships, p) && Of(s.ownerships, p)[o] == u.ownerships[o];
      }
      if Covered(Of(u.buildingOwners, p), d) {
        var o :| o in Of(u.buildingOwners, p) && Covers(Of(u.buildingOwners, p)[o], d);
        assert o in Of(s.buildingOwners, p) && Of(s.buildingOwners, p)[o] == u.buildingOwners[o];
      }
    }
  }

  /** A new apartment without ownerships, or with one that is clear. */
  lemma NewApartmentKeepsExclusiveIff(s: State, id: Id, a: Apartment)
    requires id !in s.apartments
    ensures FormsExclusive(s.(apartments := s.apartments[id := a])) <==>
      && FormsExclusive(s)
      && forall d :: Covered(Of(s.ownerships, id), d) ==> !Covered(Of(s.buildingOwners, a.building), d)
  {
    hide Of, Covered;
    var u := s.(apartments := s.apartments[id := a]);
    assert u.apartments[id] == a;
    if FormsExclusive(u) {
      forall b, d | b in s.apartments && Covered(Of(s.ownerships, b), d)
        ensures !Covered(Of(s.buildingOwners, s.apartments[b].building), d)
      {
        assert b in u.apartments && u.apartments[b] == s.apartments[b];
      }
    }
  }

  // ----- every transaction -----

  lemma CreateApartmentKeepsExclusiveIff(s: State, id: Id, a: Apartment, ownership: Id, start: Day, end: Option<Day>,
                                         today: Day)
    requires Sound(s) && FormsExclusive(s) && Exec(s, CreateApartment(id, a, ownership, start, end), today).Some?
    ensures FormsExclusive(Exec(s, CreateApartment(id, a, ownership, start, end), today).value) <==>
      !OverlapsSome(Of(s.buildingOwners, a.building), Row(id, start, end))
  {
    hide FormsExclusive, Clear, Covered, Of, ExclusionFires, OverlapsSome, AllDisjoint;
    var n := Row(id, start, end);
    var s1 := InsertPeriod(s, Ownerships, ownership, n, today).value;
    InsertKeepsExclusiveIff(s, Ownerships, ownership, n, today);
    assert Clear(s, Ownerships, n) by { UnknownApartmentIsClear(s, n); }
    NewApartmentKeepsExclusiveIff(s1, id, a);
    FirstOwnership(s, ownership, n);
    OverlapsBuilding(s, a.building, n);
  }

  lemma UnknownApartmentIsClear(s: State, n: Row)
    requires n.parent !in s.apartments
    ensures Clear(s, Ownerships, n)
  {
  }

  lemma FirstOwnership(s: State, ownership: Id, n: Row)
    requires ForeignKeys(s) && n.parent !in s.apartments && ownership !in s.ownerships
    ensures forall d :: Covered(Of(s.ownerships[ownership := n], n.parent), d) <==> Covers(n, d)
  {
    var c := Of(s.ownerships[ownership := n], n.parent);
    assert ownership in c && c[ownership] == n;
    assert forall o :: o in c ==> o == ownership;
  }

  lemma OverlapsBuilding(s: State, building: Id, n: Row)
    requires AllDisjoint(s.buildingOwners) && WellDated(n)
    ensures OverlapsSome(Of(s.buildingOwners, building), n) <==>
      exists d :: Covers(n, d) && Covered(Of(s.buildingOwners, building), d)
  {
    OverlapsSomeIff(Of(s.buildingOwners, building), n);
  }

  /**
   A committed transaction keeps the two forms apart exactly when its rows are
   clear of the other form: a new or redated ownership overlaps no period of the
   building's owners, past or future, and a redated building owner no ownership
   of an apartment.
   */
  lemma ExecKeepsExclusiveIff(s: State, op: Op, today: Day)
    requires Sound(s) && FormsExclusive(s) && Exec(s, op, today).Some?
    ensures FormsExclusive(Exec(s, op, today).value) <==> OpIsClear(s, op)
  {
    hide FormsExclusive, InsertPeriod, UpdatePeriod, Clear, AllDisjoint, OverlapsSome, Of;
    match op
    case CreateBuilding(id, owner) =>
      var s1 := s.(buildings := s.buildings + {id});
      FewerRowsKeepExclusive(s, s1);
      if owner.Some? {
        InsertKeepsExclusiveIff(s1, BuildingOwners, owner.value.0, Row(id, owner.value.1, owner.value.2), today);
      }
    case DeleteBuilding(id) => FewerRowsKeepExclusive(s, WithoutBuilding(s, id));
    case CreateApartment(id, apartment, ownership, start, end) =>
      CreateApartmentKeepsExclusiveIff(s, id, apartment, ownership, start, end, today);
    case CreateApartmentBuildingOwned(id, apartment) =>
      NoOwnerships(s, id);
      NewApartmentKeepsExclusiveIff(s, id, apartment);
    case DeleteApartment(id) => FewerRowsKeepExclusive(s, WithoutApartments(s, {id}));
    case CreatePeriod(k, id, parent, start, end) =>
      InsertKeepsExclusiveIff(s, k, id, Row(parent, start, end), today);
    case CreatePeriodClosingPrevious(k, id, parent, previous, previousEnd, start, end) =>
      ClosingKeepsExclusiveIff(s, k, id, parent, previous, previousEnd, start, end, today);
    case UpdateDates(k, id, start, end) =>
      UpdateKeepsExclusiveIff(s, k, id, start, end);
    case DeletePeriodOp(k, id) => FewerRowsKeepExclusive(s, Exec(s, op, today).value);
  }

  lemma NoOwnerships(s: State, id: Id)
    requires ForeignKeys(s) && id !in s.apartments
    ensures forall d :: !Covered(Of(s.ownerships, id), d)
  {
  }

  lemma ClosingKeepsExclusiveIff(s: State, k: Kind, id: Id, parent: Id, previous: Id, previousEnd: Day, start: Day,
                                 end: Option<Day>, today: Day)
    requires Sound(s) && FormsExclusive(s)
    requires Exec(s, CreatePeriodClosingPrevious(k, id, parent, previous, previousEnd, start, end), today).Some?
    ensures var op := CreatePeriodClosingPrevious(k, id, parent, previous, previousEnd, start, end);
      FormsExclusive(Exec(s, op, today).value) <==> OpIsClear(s, op)
  {
    hide FormsExclusive, InsertPeriod, Clear, AllDisjoint;
    var t := TableOf(s, k);
    var first := if previous in t then t[previous].start else start;
    UpdateKeepsDisjoint(s, k, previous, first, Some(previousEnd));
    UpdateKeepsExclusiveIff(s, k, previous, first, Some(previousEnd));
    var s1 := UpdatePeriod(s, k, previous, first, Some(previousEnd)).value;
    InsertKeepsExclusiveIff(s1, k, id, Row(parent, start, end), today);
    SameOtherForm(s, s1, k, Row(parent, start, end));
  }

  /** Whether a row is clear depends on the other form only. */
  lemma SameOtherForm(s: State, u: State, k: Kind, n: Row)
    requires u.apartments == s.apartments
    requires k != BuildingOwners ==> u.buildingOwners == s.buildingOwners
    requires k != Ownerships ==> u.ownerships == s.ownerships
    ensures Clear(s, k, n) == Clear(u, k, n)
  {
  }

  // ----- whole runs -----

  ghost predicate ClearRun(run: seq<(Op, Day)>) {
    forall i :: 0 <= i < |run| && Exec(Run(EMPTY, run[..i]), run[i].0, run[i].1).Some? ==>
      OpIsClear(Run(EMPTY, run[..i]), run[i].0)
  }

  /** The forms are apart after every step of the run. */
  ghost predicate StaysExclusive(run: seq<(Op, Day)>) {
    forall i :: 0 <= i <= |run| ==> FormsExclusive(Run(EMPTY, run[..i]))
  }

  /** Over any run, the forms are apart after every step exactly when every committed transaction was clear. */
  lemma {:induction false} RunIsExclusiveIff(run: seq<(Op, Day)>)
    ensures ClearRun(run) <==> StaysExclusive(run)
  {
    hide FormsExclusive, OpIsClear, Exec, Sound, Step, Run;
    if run == [] {
      EmptyIsExclusive();
      assert forall i :: 0 <= i <= |run| ==> run[..i] == [];
    } else {
      var last := |run| - 1;
      var front := run[..last];
      RunIsExclusiveIff(front);
      assert forall i :: 0 <= i <= last ==> front[..i] == run[..i];
      assert forall i :: 0 <= i < last ==> front[i] == run[i];
      assert run[..|run|] == run && front[..last] == front;
      LastStep(run);
    }
  }

  lemma LastStep(run: seq<(Op, Day)>)
    requires run != []
    ensures var s, op, today := Run(EMPTY, run[..|run| - 1]), run[|run| - 1].0, run[|run| - 1].1;
      FormsExclusive(s) ==>
        (FormsExclusive(Run(EMPTY, run)) <==> (Exec(s, op, today).Some? ==> OpIsClear(s, op)))
  {
    hide FormsExclusive, OpIsClear, Exec;
    var s, op, today := Run(EMPTY, run[..|run| - 1]), run[|run| - 1].0, run[|run| - 1].1;
    RunIsSafe(run[..|run| - 1]);
    if FormsExclusive(s) && Exec(s, op, today).Some? {
      ExecKeepsExclusiveIff(s, op, today);
    }
  }

  lemma EmptyIsExclusive()
    ensures FormsExclusive(EMPTY) && Run(EMPTY, []) == EMPTY
  {
  }
}
