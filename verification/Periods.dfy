/**
 Dated periods and the guards the database puts on them.

 One table of periods serves for the three tables `ownerships`,
 `building_owners` and `tenancies`: a row names its parent (the apartment or
 the building) and its first and last day. A chain is the part of a table that
 belongs to one parent; the guards only ever look at one chain.
 */
module Periods {
  import opened Wrappers
  import opened Calendar

  datatype Row = Row(parent: Id, start: Day, end: Option<Day>)

  type Table = map<Id, Row>

  const MIN_DAY: Day := DayOf(0, 1, 1)
  const MAX_DAY: Day := DayOf(9999, 12, 31)

  /** The chain of one parent. */
  function Of(t: Table, parent: Id): Table {
    map id | id in t && t[id].parent == parent :: t[id]
  }

  // ----- guards -----

  /** COALESCE(end_date, '9999-12-31') */
  function EndOr(r: Row): Day {
    if r.end.Some? then r.end.value else MAX_DAY
  }

  /** The date format and date order triggers. */
  predicate WellDated(r: Row) {
    && MIN_DAY <= r.start <= MAX_DAY
    && (r.end.Some? ==> MIN_DAY <= r.end.value <= MAX_DAY && r.start <= r.end.value)
  }

  predicate Overlap(a: Row, b: Row) {
    a.start <= EndOr(b) && b.start <= EndOr(a)
  }

  predicate OverlapsSome(c: Table, n: Row) {
    exists id | id in c :: Overlap(n, c[id])
  }

  /** The end dates strictly before the new start. */
  function EndsBefore(c: Table, n: Row): set<Day> {
    set id | id in c && c[id].end.Some? && c[id].end.value < n.start :: c[id].end.value
  }

  /** The start dates strictly after the new end. */
  function StartsAfter(c: Table, n: Row): set<Day> {
    set id | id in c && EndOr(n) < c[id].start :: c[id].start
  }

  predicate GapBefore(c: Table, n: Row) {
    var ends := EndsBefore(c, n);
    ends != {} && Max(ends) + 1 != n.start
  }

  predicate GapAfter(c: Table, n: Row) {
    var starts := StartsAfter(c, n);
    starts != {} && Min(starts) - 1 != EndOr(n)
  }

  /** No overlap and no gap trigger fires for a row joining the other rows of its chain. */
  predicate ChainAccepts(others: Table, n: Row) {
    WellDated(n) && !OverlapsSome(others, n) && !GapBefore(others, n) && !GapAfter(others, n)
  }

  /** The tenancy triggers ask for no overlap only. */
  predicate TenancyAccepts(others: Table, n: Row) {
    WellDated(n) && !OverlapsSome(others, n)
  }

  /** The condition of the two `*_guard_middle` triggers. */
  predicate Middle(c: Table, id: Id)
    requires id in c
  {
    && (exists o | o in c :: o != id && c[o].end.Some? && c[o].end.value < c[id].start)
    && (exists o | o in c :: o != id && c[id].end.Some? && c[id].end.value < c[o].start)
  }

  // ----- what the guards are for -----

  predicate Covers(r: Row, d: Day) {
    r.start <= d && (r.end.Some? ==> d <= r.end.value)
  }

  predicate Covered(c: Table, d: Day) {
    exists id :: id in c && Covers(c[id], d)
  }

  ghost predicate Dated(c: Table) {
    forall id :: id in c ==> WellDated(c[id])
  }

  /** No day has two rows. */
  ghost predicate Disjoint(c: Table) {
    forall a, b, d :: a in c && b in c && Covers(c[a], d) && Covers(c[b], d) ==> a == b
  }

  /** No uncovered day lies between two covered days. */
  ghost predicate GapFree(c: Table) {
    forall x, y, z :: x <= y <= z && Covered(c, x) && Covered(c, z) ==> Covered(c, y)
  }

  /** The rows tile one stretch of days seamlessly. */
  ghost predicate Tiled(c: Table) {
    Dated(c) && Disjoint(c) && GapFree(c)
  }

  // ----- extrema -----

  lemma Pick<T>(s: set<T>) returns (y: T)
    requires s != {}
    ensures y in s
  {
    y :| y in s;
  }

  lemma {:induction false} MaxExists(s: set<Day>)
    requires s != {}
    ensures exists m :: m in s && forall x :: x in s ==> x <= m
  {
    var y := Pick(s);
    if s != {y} {
      MaxExists(s - {y});
      var m :| m in s - {y} && forall x :: x in s - {y} ==> x <= m;
      var top := if m < y then y else m;
      assert forall x :: x in s ==> x == y || x in s - {y};
      assert top in s && forall x :: x in s ==> x <= top;
    }
  }

  function Max(s: set<Day>): (m: Day)
    requires s != {}
    ensures m in s && forall x :: x in s ==> x <= m
  {
    MaxExists(s);
    var m :| m in s && forall x :: x in s ==> x <= m;
    m
  }

  lemma {:induction false} MinExists(s: set<Day>)
    requires s != {}
    ensures exists m :: m in s && forall x :: x in s ==> m <= x
  {
    var y := Pick(s);
    if s != {y} {
      MinExists(s - {y});
      var m :| m in s - {y} && forall x :: x in s - {y} ==> m <= x;
      var low := if y < m then y else m;
      assert forall x :: x in s ==> x == y || x in s - {y};
      assert low in s && forall x :: x in s ==> low <= x;
    }
  }

  function Min(s: set<Day>): (m: Day)
    requires s != {}
    ensures m in s && forall x :: x in s ==> m <= x
  {
    MinExists(s);
    var m :| m in s && forall x :: x in s ==> m <= x;
    m
  }
}
