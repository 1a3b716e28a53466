/**
 The database as a guarded state machine: buildings, apartments, and the three
 tables of dated periods. Every statement runs the triggers that are in force
 after all migrations; a transaction runs its statements in order, checks the
 deferred foreign keys at commit, and is rolled back as a whole on rejection.
 */
module Registry {
  import opened Wrappers
  import opened Calendar
  import opened Periods
  import opened Apartments
  import opened Tiling
  import opened Closing

  datatype Kind = Ownerships | BuildingOwners | Tenancies

  datatype State = State(
    buildings: set<Id>,
    apartments: ApartmentTable,
    ownerships: Table,
    buildingOwners: Table,
    tenancies: Table)

  const EMPTY := State({}, map[], map[], map[], map[])

  function TableOf(s: State, k: Kind): Table {
    match k
    case Ownerships => s.ownerships
    case BuildingOwners => s.buildingOwners
    case Tenancies => s.tenancies
  }

  function WithTable(s: State, k: Kind, t: Table): State {
    match k
    case Ownerships => s.(ownerships := t)
    case BuildingOwners => s.(buildingOwners := t)
    case Tenancies => s.(tenancies := t)
  }

  // ----- conditions the triggers look up -----

  /** A building owner covers the date. */
  predicate BuildingOwned(s: State, building: Id, day: Day) {
    Covered(Of(s.buildingOwners, building), day)
  }

  /** The apartment exists and its building has an owner covering the date. */
  predicate OwnedThroughBuilding(s: State, apartment: Id, day: Day) {
    apartment in s.apartments && BuildingOwned(s, s.apartments[apartment].building, day)
  }

  /** Some apartment of the building has no ownership covering the date. */
  predicate HasDependentApartment(s: State, building: Id, day: Day) {
    exists a | a in s.apartments :: s.apartments[a].building == building && !Covered(Of(s.ownerships, a), day)
  }

  /** Some apartment of the building has an ownership record of any date. */
  predicate HasApartmentOwners(s: State, building: Id) {
    exists o | o in s.ownerships ::
      s.ownerships[o].parent in s.apartments && s.apartments[s.ownerships[o].parent].building == building
  }

  predicate Accepts(k: Kind, others: Table, n: Row) {
    if k == Tenancies then TenancyAccepts(others, n) else ChainAccepts(others, n)
  }

  /** The two forms of ownership exclude each other (migration 0010). */
  predicate ExclusionFires(s: State, k: Kind, parent: Id, today: Day) {
    match k
    case Ownerships => OwnedThroughBuilding(s, parent, today)
    case BuildingOwners => HasApartmentOwners(s, parent)
    case Tenancies => false
  }

  /** The delete guards: last row, middle row, row covering today. */
  predicate DeleteGuardFires(s: State, k: Kind, id: Id, today: Day)
    requires id in TableOf(s, k)
  {
    var row := TableOf(s, k)[id];
    var c := Of(TableOf(s, k), row.parent);
    match k
    case Ownerships =>
      row.parent in s.apartments &&
      ((|c| <= 1 && !OwnedThroughBuilding(s, row.parent, today)) ||
       Middle(c, id) ||
       (Covers(row, today) && !OwnedThroughBuilding(s, row.parent, today)))
    case BuildingOwners =>
      row.parent in s.buildings &&
      ((|c| == 1 && HasDependentApartment(s, row.parent, today)) ||
       Middle(c, id) ||
       (Covers(row, today) && HasDependentApartment(s, row.parent, today)))
    case Tenancies => false
  }

  // ----- statements -----

  function InsertPeriod(s: State, k: Kind, id: Id, n: Row, today: Day): Option<State> {
    var t := TableOf(s, k);
    if id in t || !Accepts(k, Of(t, n.parent), n) || ExclusionFires(s, k, n.parent, today) then None
    else Some(WithTable(s, k, t[id := n]))
  }

  /** An UPDATE of the dates; a missing id updates no row. */
  function UpdatePeriod(s: State, k: Kind, id: Id, start: Day, end: Option<Day>): Option<State> {
    var t := TableOf(s, k);
    if id !in t then Some(s)
    else
      var n := t[id].(start := start, end := end);
      if !Accepts(k, Of(t, n.parent) - {id}, n) then None
      else Some(WithTable(s, k, t[id := n]))
  }

  function DeletePeriod(s: State, k: Kind, id: Id, today: Day): Option<State> {
    if id !in TableOf(s, k) then Some(s)
    else if DeleteGuardFires(s, k, id, today) then None
    else Some(WithTable(s, k, TableOf(s, k) - {id}))
  }

  /** `apartments_require_ownership` and its counterpart of migration 0010. */
  function InsertApartment(s: State, id: Id, a: Apartment, today: Day): Option<State> {
    var owned := exists o | o in s.ownerships :: s.ownerships[o].parent == id;
    var buildingOwned := BuildingOwned(s, a.building, today);
    if id in s.apartments || (!owned && !buildingOwned) || (owned && buildingOwned) then None
    else Some(s.(apartments := s.apartments[id := a]))
  }

  /** ON DELETE CASCADE: the rows of deleted parents go with them. */
  function Cascade(t: Table, parents: set<Id>): Table {
    map o | o in t && t[o].parent !in parents :: t[o]
  }

  /** Deleting apartments cascades to their ownerships and tenancies. */
  function WithoutApartments(s: State, gone: set<Id>): State {
    s.(apartments := s.apartments - gone,
       ownerships := Cascade(s.ownerships, gone),
       tenancies := Cascade(s.tenancies, gone))
  }

  /** Deleting a building cascades to its owners and its apartments. */
  function WithoutBuilding(s: State, building: Id): State {
    var u := WithoutApartments(s, IdsOf(s.apartments, building));
    u.(buildings := u.buildings - {building}, buildingOwners := Cascade(u.buildingOwners, {building}))
  }

  /** The foreign keys, deferred to the commit. */
  predicate ForeignKeys(s: State) {
    && (forall a | a in s.apartments :: s.apartments[a].building in s.buildings)
    && (forall o | o in s.ownerships :: s.ownerships[o].parent in s.apartments)
    && (forall o | o in s.tenancies :: s.tenancies[o].parent in s.apartments)
    && (forall o | o in s.buildingOwners :: s.buildingOwners[o].parent in s.buildings)
  }

  function Commit(s: State): Option<State> {
    if ForeignKeys(s) then Some(s) else None
  }

  // ----- transactions -----

  datatype Op =
    | CreateBuilding(id: Id, owner: Option<(Id, Day, Option<Day>)>)
    | DeleteBuilding(id: Id)
    | CreateApartment(id: Id, apartment: Apartment, ownership: Id, start: Day, end: Option<Day>)
    | CreateApartmentBuildingOwned(id: Id, apartment: Apartment)
    | DeleteApartment(id: Id)
    | CreatePeriod(kind: Kind, id: Id, parent: Id, start: Day, end: Option<Day>)
    | CreatePeriodClosingPrevious(kind: Kind, id: Id, parent: Id, previous: Id, previousEnd: Day, start: Day,
                                  end: Option<Day>)
    | UpdateDates(kind: Kind, id: Id, start: Day, end: Option<Day>)
    | DeletePeriodOp(kind: Kind, id: Id)

  /** The committed state, or None when the transaction is rejected. */
  function Exec(s: State, op: Op, today: Day): Option<State> {
    match op
    case CreateBuilding(id, owner) =>
      if id in s.buildings then None
      else
        var s1 := s.(buildings := s.buildings + {id});
        var s2 :- if owner.None? then Some(s1)
                  else InsertPeriod(s1, BuildingOwners, owner.value.0, Row(id, owner.value.1, owner.value.2), today);
        Commit(s2)
    case DeleteBuilding(id) => Commit(WithoutBuilding(s, id))
    case CreateApartment(id, apartment, ownership, start, end) =>
      var s1 :- InsertPeriod(s, Ownerships, ownership, Row(id, start, end), today);
      var s2 :- InsertApartment(s1, id, apartment, today);
      Commit(s2)
    case CreateApartmentBuildingOwned(id, apartment) =>
      var s1 :- InsertApartment(s, id, apartment, today);
      Commit(s1)
    case DeleteApartment(id) => Commit(WithoutApartments(s, {id}))
    case CreatePeriod(k, id, parent, start, end) =>
      var s1 :- InsertPeriod(s, k, id, Row(parent, start, end), today);
      Commit(s1)
    case CreatePeriodClosingPrevious(k, id, parent, previous, previousEnd, start, end) =>
      var first := if previous in TableOf(s, k) then TableOf(s, k)[previous].start else start;
      var s1 :- UpdatePeriod(s, k, previous, first, Some(previousEnd));
      var s2 :- InsertPeriod(s1, k, id, Row(parent, start, end), today);
      Commit(s2)
    case UpdateDates(k, id, start, end) =>
      var s1 :- UpdatePeriod(s, k, id, start, end);
      Commit(s1)
    case DeletePeriodOp(k, id) =>
      var s1 :- DeletePeriod(s, k, id, today);
      Commit(s1)
  }

  /** One step: a rejected transaction leaves the state as it was. */
  function Step(s: State, op: Op, today: Day): State {
    match Exec(s, op, today)
    case Some(u) => u
    case None => s
  }

  /** A whole run; every transaction sees its own current date, in no particular order. */
  function Run(s: State, run: seq<(Op, Day)>): State {
    if run == [] then s else Step(Run(s, run[..|run| - 1]), run[|run| - 1].0, run[|run| - 1].1)
  }

  // ----- invariants -----

  /** Every chain of the table has valid dates and at most one row a day. */
  ghost predicate AllDisjoint(t: Table) {
    forall p :: Dated(Of(t, p)) && Disjoint(Of(t, p))
  }

  ghost predicate AllTiled(t: Table) {
    forall p :: Tiled(Of(t, p))
  }

  ghost predicate Sound(s: State) {
    ForeignKeys(s) && AllDisjoint(s.ownerships) && AllDisjoint(s.buildingOwners) && AllDisjoint(s.tenancies)
  }

  ghost predicate Seamless(s: State) {
    AllTiled(s.ownerships) && AllTiled(s.buildingOwners)
  }

  /** Every apartment has an ownership record, or its building has a building-owner record. */
  ghost predicate NeverOwnerless(s: State) {
    forall a :: a in s.apartments ==>
      Of(s.ownerships, a) != map[] || Of(s.buildingOwners, s.apartments[a].building) != map[]
  }

  /** The apartment has an owner on the day, its own or its building's. */
  ghost predicate OwnedOn(s: State, apartment: Id, day: Day)
    requires apartment in s.apartments
  {
    Covered(Of(s.ownerships, apartment), day) || BuildingOwned(s, s.apartments[apartment].building, day)
  }
}
