/**
 When an apartment has an owner of a day or of a week, and when it loses or gains
 one: transaction by transaction, for both forms of ownership together.
 */
module Uncovering {
  import opened Wrappers
  import opened Calendar
  import opened Periods
  import opened Apartments
  import opened Registry
  import opened Invariants
  import opened Spans

  /** The chain of the kind that an apartment depends on: its own or its building's. */
  function ChainOf(s: State, k: Kind, a: Id): Id
    requires a in s.apartments
  {
    if k == BuildingOwners then s.apartments[a].building else a
  }

  /** The row alone gives the apartment an owner for the span: it meets the span, and the other form of ownership does
      not. */
  predicate Carries(s: State, k: Kind, id: Id, a: Id, span: Span)
    requires a in s.apartments
  {
    && id in TableOf(s, k) && TableOf(s, k)[id].parent == ChainOf(s, k, a) && Meets(TableOf(s, k)[id], span)
    && match k
       case Ownerships => !Met(Of(s.buildingOwners, s.apartments[a].building), span)
       case BuildingOwners => !Met(Of(s.ownerships, a), span)
       case Tenancies => false
  }

  /** A row of the apartment's own chain or its building's that meets the span. */
  predicate Serves(s: State, k: Kind, n: Row, a: Id, span: Span)
    requires a in s.apartments
  {
    k != Tenancies && n.parent == ChainOf(s, k, a) && Meets(n, span)
  }

  /** The transaction touches the one row that gives the apartment its owner. */
  predicate Removes(s: State, op: Op, a: Id, span: Span)
    requires a in s.apartments
  {
    match op
    case UpdateDates(k, id, _, _) => Carries(s, k, id, a, span)
    case DeletePeriodOp(k, id) => Carries(s, k, id, a, span)
    case CreatePeriodClosingPrevious(k, _, _, previous, _, _, _) => Carries(s, k, previous, a, span)
    case _ => false
  }

  /** The transaction writes a row that gives the apartment an owner. */
  predicate Brings(s: State, op: Op, a: Id, span: Span)
    requires a in s.apartments
  {
    match op
    case CreatePeriod(k, _, parent, start, end) => Serves(s, k, Row(parent, start, end), a, span)
    case UpdateDates(k, id, start, end) =>
      id in TableOf(s, k) && Serves(s, k, TableOf(s, k)[id].(start := start, end := end), a, span)
    case CreatePeriodClosingPrevious(k, _, parent, previous, previousEnd, start, end) =>
      || Serves(s, k, Row(parent, start, end), a, span)
      || (previous in TableOf(s, k) && Serves(s, k, TableOf(s, k)[previous].(end := Some(previousEnd)), a, span))
    case _ => false
  }

  /** The transaction takes the owner away and brings no other. */
  predicate Uncovers(s: State, op: Op, a: Id, span: Span)
    requires a in s.apartments
  {
    Removes(s, op, a, span) && !Brings(s, op, a, span)
  }

  // ----- one table -----

  lemma PutMeets(t: Table, id: Id, n: Row, p: Id, span: Span)
    requires AllDisjoint(t) && (id in t ==> t[id].parent == n.parent)
    ensures Met(Of(t[id := n], p), span) <==>
      || (p == n.parent && Meets(n, span))
      || (Met(Of(t, p), span) && !(id in t && t[id].parent == p && Meets(t[id], span)))
  {
    hide Meets;
    var c, u := Of(t, p), Of(t[id := n], p);
    OfUpdated(t, id, n, p);
    assert id in t && t[id].parent == p ==> id in c && c[id] == t[id];
    if Met(u, span) && !(p == n.parent && Meets(n, span)) {
      var o :| o in u && Meets(u[o], span);
      assert o in c && c[o] == u[o];
      if id in t && t[id].parent == p && Meets(t[id], span) {
        OneRowMeets(c, o, id, span);
      }
    }
    if Met(c, span) {
      var o :| o in c && Meets(c[o], span);
      assert o != id ==> o in u && u[o] == c[o];
    }
    if p == n.parent && Meets(n, span) {
      assert id in u && u[id] == n;
    }
  }

  lemma DropMeets(t: Table, id: Id, p: Id, span: Span)
    requires AllDisjoint(t) && id in t
    ensures Met(Of(t - {id}, p), span) <==> Met(Of(t, p), span) && !(t[id].parent == p && Meets(t[id], span))
  {
    hide Meets;
    var c, u := Of(t, p), Of(t - {id}, p);
    OfDeleted(t, id, p);
    assert t[id].parent == p ==> id in c && c[id] == t[id];
    if Met(u, span) {
      var o :| o in u && Meets(u[o], span);
      assert o in c && c[o] == u[o] && o != id;
      if t[id].parent == p && Meets(t[id], span) {
        OneRowMeets(c, o, id, span);
      }
    }
    if Met(c, span) {
      var o :| o in c && Meets(c[o], span);
      assert o != id ==> o in u && u[o] == c[o];
    }
  }

  // ----- one statement -----

  /** A row that is inserted or given other dates. */
  lemma PutOwns(s: State, k: Kind, id: Id, n: Row, a: Id, span: Span)
    requires TablesDisjoint(s) && a in s.apartments
    requires id in TableOf(s, k) ==> TableOf(s, k)[id].parent == n.parent
    ensures OwnedFor(WithTable(s, k, TableOf(s, k)[id := n]), a, span) <==>
      Serves(s, k, n, a, span) || (OwnedFor(s, a, span) && !Carries(s, k, id, a, span))
  {
    hide Met, Of, Meets;
    if k != Tenancies {
      PutMeets(TableOf(s, k), id, n, ChainOf(s, k, a), span);
    }
  }

  lemma UpdateOwns(s: State, k: Kind, id: Id, start: Day, end: Option<Day>, a: Id, span: Span)
    requires TablesDisjoint(s) && a in s.apartments && UpdatePeriod(s, k, id, start, end).Some?
    ensures var u := UpdatePeriod(s, k, id, start, end).value;
      && u.apartments == s.apartments
      && (OwnedFor(u, a, span) <==>
            || (id in TableOf(s, k) && Serves(s, k, TableOf(s, k)[id].(start := start, end := end), a, span))
            || (OwnedFor(s, a, span) && !Carries(s, k, id, a, span)))
  {
    hide Accepts, OwnedFor, Of, Serves;
    var t := TableOf(s, k);
    if id in t {
      PutOwns(s, k, id, t[id].(start := start, end := end), a, span);
    }
  }

  lemma InsertOwns(s: State, k: Kind, id: Id, n: Row, today: Day, a: Id, span: Span)
    requires TablesDisjoint(s) && a in s.apartments && InsertPeriod(s, k, id, n, today).Some?
    ensures var u := InsertPeriod(s, k, id, n, today).value;
      && u.apartments == s.apartments
      && (OwnedFor(u, a, span) <==> Serves(s, k, n, a, span) || OwnedFor(s, a, span))
  {
    hide Accepts, OwnedFor, Of, ExclusionFires, Serves;
    PutOwns(s, k, id, n, a, span);
  }

  lemma DeleteOwns(s: State, k: Kind, id: Id, today: Day, a: Id, span: Span)
    requires TablesDisjoint(s) && a in s.apartments && DeletePeriod(s, k, id, today).Some?
    ensures var u := DeletePeriod(s, k, id, today).value;
      && u.apartments == s.apartments
      && (OwnedFor(u, a, span) <==> OwnedFor(s, a, span) && !Carries(s, k, id, a, span))
  {
    hide DeleteGuardFires, Met, Of, Meets;
    if id in TableOf(s, k) && k != Tenancies {
      DropMeets(TableOf(s, k), id, ChainOf(s, k, a), span);
    }
  }

  lemma CascadeOwns(s: State, gone: set<Id>, building: Id, a: Id, span: Span)
    requires a in s.apartments
    ensures a !in gone ==>
      a in WithoutApartments(s, gone).apartments &&
      OwnedFor(WithoutApartments(s, gone), a, span) == OwnedFor(s, a, span)
    ensures s.apartments[a].building != building ==>
      a in WithoutBuilding(s, building).apartments &&
      OwnedFor(WithoutBuilding(s, building), a, span) == OwnedFor(s, a, span)
  {
    hide Met;
    var x := CascadeIsDeletion(s.ownerships, gone);
    var y := CascadeIsDeletion(s.ownerships, IdsOf(s.apartments, building));
    var z := CascadeIsDeletion(s.buildingOwners, {building});
  }

  lemma ClosingOwns(s: State, k: Kind, id: Id, parent: Id, previous: Id, previousEnd: Day, start: Day,
                    end: Option<Day>, today: Day, a: Id, span: Span)
    requires Sound(s) && a in s.apartments
    requires Exec(s, CreatePeriodClosingPrevious(k, id, parent, previous, previousEnd, start, end), today).Some?
    ensures var op := CreatePeriodClosingPrevious(k, id, parent, previous, previousEnd, start, end);
      && Exec(s, op, today).value.apartments == s.apartments
      && (OwnedFor(Exec(s, op, today).value, a, span) <==>
            Brings(s, op, a, span) || (OwnedFor(s, a, span) && !Removes(s, op, a, span)))
  {
    hide OwnedFor, InsertPeriod, UpdatePeriod, AllDisjoint, Carries, Meets;
    var first := if previous in TableOf(s, k) then TableOf(s, k)[previous].start else start;
    UpdateOwns(s, k, previous, first, Some(previousEnd), a, span);
    UpdateKeepsDisjoint(s, k, previous, first, Some(previousEnd));
    var s1 := UpdatePeriod(s, k, previous, first, Some(previousEnd)).value;
    InsertOwns(s1, k, id, Row(parent, start, end), today, a, span);
  }

  // ----- every transaction -----

  lemma SameTables(s: State, u: State, a: Id, span: Span)
    requires a in s.apartments && a in u.apartments && u.apartments[a] == s.apartments[a]
    requires u.ownerships == s.ownerships && u.buildingOwners == s.buildingOwners
    ensures OwnedFor(s, a, span) == OwnedFor(u, a, span)
  {
  }

  /** After a committed transaction an apartment that was there before has an owner for the span exactly when the
      transaction brings one, or leaves the one it had. */
  lemma ExecOwnsIff(s: State, op: Op, today: Day, a: Id, span: Span)
    requires Sound(s) && a in s.apartments
    requires Exec(s, op, today).Some? && a in Exec(s, op, today).value.apartments
    ensures OwnedFor(Exec(s, op, today).value, a, span) <==>
      Brings(s, op, a, span) || (OwnedFor(s, a, span) && !Removes(s, op, a, span))
  {
    hide OwnedFor, InsertPeriod, UpdatePeriod, DeletePeriod, AllDisjoint, Carries, Meets;
    match op
    case CreateBuilding(id, owner) =>
      var s1 := s.(buildings := s.buildings + {id});
      SameTables(s, s1, a, span);
      if owner.Some? {
        InsertOwns(s1, BuildingOwners, owner.value.0, Row(id, owner.value.1, owner.value.2), today, a, span);
      }
    case DeleteBuilding(id) =>
      assert a !in IdsOf(s.apartments, id);
      CascadeOwns(s, {}, id, a, span);
    case CreateApartment(id, apartment, ownership, start, end) =>
      InsertOwns(s, Ownerships, ownership, Row(id, start, end), today, a, span);
      var s1 := InsertPeriod(s, Ownerships, ownership, Row(id, start, end), today).value;
      SameTables(s1, s1.(apartments := s1.apartments[id := apartment]), a, span);
    case CreateApartmentBuildingOwned(id, apartment) =>
      SameTables(s, s.(apartments := s.apartments[id := apartment]), a, span);
    case DeleteApartment(id) =>
      CascadeOwns(s, {id}, id, a, span);
    case CreatePeriod(k, id, parent, start, end) =>
      InsertOwns(s, k, id, Row(parent, start, end), today, a, span);
    case CreatePeriodClosingPrevious(k, id, parent, previous, previousEnd, start, end) =>
      ClosingOwns(s, k, id, parent, previous, previousEnd, start, end, today, a, span);
    case UpdateDates(k, id, start, end) =>
      UpdateOwns(s, k, id, start, end, a, span);
    case DeletePeriodOp(k, id) =>
      DeleteOwns(s, k, id, today, a, span);
  }

  /**
   An apartment that has an owner for a day or a week, of either form, loses it
   in exactly these committed transactions: an update, a delete or a closing of
   the one period that gives it that owner, when neither the period's new dates
   nor the successor meet the day or week. Every other transaction leaves the
   owner, as long as it leaves the apartment.
   */
  lemma ExecUncoversIff(s: State, op: Op, today: Day, a: Id, span: Span)
    requires Sound(s) && a in s.apartments && OwnedFor(s, a, span)
    requires Exec(s, op, today).Some? && a in Exec(s, op, today).value.apartments
    ensures !OwnedFor(Exec(s, op, today).value, a, span) <==> Uncovers(s, op, a, span)
  {
    hide OwnedFor, Removes, Brings;
    ExecOwnsIff(s, op, today, a, span);
  }

  /** The delete guards close the delete case for the current date, but for no other day. */
  lemma DeleteNeverUncoversToday(s: State, k: Kind, id: Id, today: Day, a: Id)
    requires ForeignKeys(s) && a in s.apartments && Exec(s, DeletePeriodOp(k, id), today).Some?
    ensures !Uncovers(s, DeletePeriodOp(k, id), a, OnDay(today))
  {
    hide Middle, Of;
    MetOnDay(Of(s.ownerships, a), today);
    MetOnDay(Of(s.buildingOwners, s.apartments[a].building), today);
  }

  // ----- all apartments -----

  /** Every apartment has an owner for the span. */
  ghost predicate AllOwned(s: State, span: Span) {
    forall a :: a in s.apartments ==> OwnedFor(s, a, span)
  }

  /** No apartment loses its owner, and a created apartment comes with one: its first ownership meets the span, or its
      building's owner does. */
  ghost predicate KeepsOwned(s: State, op: Op, span: Span) {
    && (forall a :: a in s.apartments ==> !Uncovers(s, op, a, span))
    && match op
       case CreateApartment(id, apartment, _, start, end) =>
         Meets(Row(id, start, end), span) || Met(Of(s.buildingOwners, apartment.building), span)
       case CreateApartmentBuildingOwned(_, apartment) => Met(Of(s.buildingOwners, apartment.building), span)
       case _ => true
  }

  lemma NewApartmentOwned(s: State, op: Op, today: Day, span: Span)
    requires Sound(s) && Exec(s, op, today).Some? && (op.CreateApartment? || op.CreateApartmentBuildingOwned?)
    ensures var u := Exec(s, op, today).value;
      && op.id !in s.apartments && op.id in u.apartments
      && (OwnedFor(u, op.id, span) <==>
            || (op.CreateApartment? && Meets(Row(op.id, op.start, op.end), span))
            || Met(Of(s.buildingOwners, op.apartment.building), span))
  {
    hide Accepts, ExclusionFires, AllDisjoint, Meets;
    match op
    case CreateApartment(id, apartment, ownership, start, end) =>
      FirstOwnershipMeets(s, ownership, Row(id, start, end), span);
    case CreateApartmentBuildingOwned(id, apartment) =>
      assert Of(s.ownerships, id) == map[];
  }

  lemma FirstOwnershipMeets(s: State, ownership: Id, n: Row, span: Span)
    requires ForeignKeys(s) && n.parent !in s.apartments && ownership !in s.ownerships
    ensures Met(Of(s.ownerships[ownership := n], n.parent), span) <==> Meets(n, span)
  {
    var c := Of(s.ownerships[ownership := n], n.parent);
    assert ownership in c && c[ownership] == n;
    assert forall o :: o in c ==> o == ownership;
  }

  lemma OnlyCreationsAdd(s: State, op: Op, today: Day, a: Id)
    requires Exec(s, op, today).Some? && a in Exec(s, op, today).value.apartments && a !in s.apartments
    ensures (op.CreateApartment? || op.CreateApartmentBuildingOwned?) && a == op.id
  {
    hide Accepts, ExclusionFires, ForeignKeys, DeleteGuardFires;
  }

  lemma UncoveredStays(s: State, op: Op, today: Day, a: Id, span: Span)
    requires Exec(s, op, today).Some? && a in s.apartments && Removes(s, op, a, span)
    ensures a in Exec(s, op, today).value.apartments
  {
    hide Accepts, ExclusionFires, ForeignKeys, DeleteGuardFires, Carries;
  }

  /** A committed transaction leaves every apartment with an owner for the span exactly when it uncovers none and
      creates none without. */
  lemma ExecKeepsAllOwnedIff(s: State, op: Op, today: Day, span: Span)
    requires Sound(s) && AllOwned(s, span) && Exec(s, op, today).Some?
    ensures AllOwned(Exec(s, op, today).value, span) <==> KeepsOwned(s, op, span)
  {
    hide OwnedFor, Exec, Removes, Brings, Met, Meets, Sound;
    var u := Exec(s, op, today).value;
    forall a | a in s.apartments
      ensures Uncovers(s, op, a, span) ==> a in u.apartments
      ensures a in u.apartments ==> (!OwnedFor(u, a, span) <==> Uncovers(s, op, a, span))
    {
      if Uncovers(s, op, a, span) {
        UncoveredStays(s, op, today, a, span);
      }
      if a in u.apartments {
        ExecUncoversIff(s, op, today, a, span);
      }
    }
    forall a | a in u.apartments && a !in s.apartments
      ensures (op.CreateApartment? || op.CreateApartmentBuildingOwned?) && a == op.id
    {
      OnlyCreationsAdd(s, op, today, a);
    }
    if op.CreateApartment? || op.CreateApartmentBuildingOwned? {
      NewApartmentOwned(s, op, today, span);
    }
  }

  // ----- whole runs -----

  ghost predicate KeepingRun(run: seq<(Op, Day)>, span: Span) {
    forall i :: 0 <= i < |run| && Exec(Run(EMPTY, run[..i]), run[i].0, run[i].1).Some? ==>
      KeepsOwned(Run(EMPTY, run[..i]), run[i].0, span)
  }

  /** Every apartment has an owner for the span after every step of the run. */
  ghost predicate StaysOwned(run: seq<(Op, Day)>, span: Span) {
    forall i :: 0 <= i <= |run| ==> AllOwned(Run(EMPTY, run[..i]), span)
  }

  /** Over any run, every apartment has an owner for the span after every step exactly when every committed transaction
      kept that. */
  lemma {:induction false} RunStaysOwnedIff(run: seq<(Op, Day)>, span: Span)
    ensures KeepingRun(run, span) <==> StaysOwned(run, span)
  {
    hide AllOwned, KeepsOwned, Exec, Sound, Step, Run;
    if run == [] {
      EmptyIsOwned(span);
      assert forall i :: 0 <= i <= |run| ==> run[..i] == [];
    } else {
      var last := |run| - 1;
      var front := run[..last];
      RunStaysOwnedIff(front, span);
      assert forall i :: 0 <= i <= last ==> front[..i] == run[..i];
      assert forall i :: 0 <= i < last ==> front[i] == run[i];
      assert run[..|run|] == run && front[..last] == front;
      LastStep(run, span);
    }
  }

  lemma LastStep(run: seq<(Op, Day)>, span: Span)
    requires run != []
    ensures var s, op, today := Run(EMPTY, run[..|run| - 1]), run[|run| - 1].0, run[|run| - 1].1;
      AllOwned(s, span) ==>
        (AllOwned(Run(EMPTY, run), span) <==> (Exec(s, op, today).Some? ==> KeepsOwned(s, op, span)))
  {
    hide AllOwned, KeepsOwned, Exec;
    var s, op, today := Run(EMPTY, run[..|run| - 1]), run[|run| - 1].0, run[|run| - 1].1;
    RunIsSafe(run[..|run| - 1]);
    if AllOwned(s, span) && Exec(s, op, today).Some? {
      ExecKeepsAllOwnedIff(s, op, today, span);
    }
  }

  lemma EmptyIsOwned(span: Span)
    ensures AllOwned(EMPTY, span) && Run(EMPTY, []) == EMPTY
  {
  }

  /** An apartment may be created with a first ownership that has yet to start: the new apartment has no owner today. */
  lemma FutureOwnershipWitness()
    ensures var s := State({"h"}, map[], map[], map[], map[]);
      var a := Apartment("h", "", 0, "");
      var u := State({"h"}, map["w" := a], map["o" := Row("w", 40, None)], map[], map[]);
      && Sound(s) && AllOwned(s, OnDay(30))
      && Exec(s, CreateApartment("w", a, "o", 40, None), 30) == Some(u)
      && !OwnedOn(u, "w", 30)
  {
    hide Sound, OwnedOn, InsertPeriod, InsertApartment;
    EmptyHouseIsSound();
    FutureOwnershipInserts();
    FutureOwnershipIsNotYet();
  }

  lemma EmptyHouseIsSound()
    ensures Sound(State({"h"}, map[], map[], map[], map[]))
  {
    var none: Table := map[];
    forall p
      ensures Of(none, p) == map[]
    {
    }
  }

  lemma FutureOwnershipInserts()
    ensures var s := State({"h"}, map[], map[], map[], map[]);
      var s1, a := s.(ownerships := map["o" := Row("w", 40, None)]), Apartment("h", "", 0, "");
      && InsertPeriod(s, Ownerships, "o", Row("w", 40, None), 30) == Some(s1)
      && InsertApartment(s1, "w", a, 30) == Some(s1.(apartments := map["w" := a]))
  {
    var none: Table := map[];
    var n, t := Row("w", 40, None), map["o" := Row("w", 40, None)];
    assert Of(none, "w") == map[] && Of(none, "h") == map[] && none["o" := n] == t;
    assert "o" in t && t["o"].parent == "w";
  }

  lemma FutureOwnershipIsNotYet()
    ensures var a := Apartment("h", "", 0, "");
      !OwnedOn(State({"h"}, map["w" := a], map["o" := Row("w", 40, None)], map[], map[]), "w", 30)
  {
    var t, none: Table := map["o" := Row("w", 40, None)], map[];
    assert forall o :: o in Of(t, "w") ==> o == "o";
    assert Of(none, "h") == map[];
  }
}
