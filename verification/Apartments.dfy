/**
 The apartments of a building: display order, rotation order, and the manual
 reordering of the display.
 */
module Apartments {
  import opened Wrappers
  import Text

  /** A row of the `apartments` table; its id is the key. */
  datatype Apartment = Apartment(building: Id, name: string, position: int, createdAt: string)

  type ApartmentTable = map<Id, Apartment>

  function IdsOf(t: ApartmentTable, building: Id): set<Id> {
    set id | id in t && t[id].building == building
  }

  ghost predicate NoDuplicates(ids: seq<Id>) {
    forall i, j :: 0 <= i < j < |ids| ==> ids[i] != ids[j]
  }

  function Elements(ids: seq<Id>): set<Id> {
    set id | id in ids
  }

  lemma HeadIsElement(ids: seq<Id>)
    ensures ids != [] ==> ids[0] in ids && ids[0] in Elements(ids)
  {
  }

  // ----- counting (the pigeonhole argument) -----

  lemma {:induction false} ElementsCardinality(ids: seq<Id>)
    ensures |Elements(ids)| <= |ids|
    ensures |Elements(ids)| == |ids| <==> NoDuplicates(ids)
  {
    if ids != [] {
      var front, last := ids[..|ids| - 1], ids[|ids| - 1];
      ElementsCardinality(front);
      assert ids == front + [last];
      assert Elements(ids) == Elements(front) + {last};
      if last in front {
        assert Elements(ids) == Elements(front);
        var i :| 0 <= i < |front| && front[i] == last;
        assert ids[i] == ids[|ids| - 1];
      } else if NoDuplicates(front) {
        assert NoDuplicates(ids);
      } else {
        var i, j :| 0 <= i < j < |front| && front[i] == front[j];
        assert ids[i] == ids[j];
      }
    }
  }

  lemma {:induction false} SubsetOfEqualSize<T>(a: set<T>, b: set<T>)
    requires a <= b && |a| == |b|
    ensures a == b
  {
    if x :| x in b && x !in a {
      SubsetSize(a, b - {x});
      assert false;
    }
  }

  lemma {:induction false} SubsetSize<T>(a: set<T>, b: set<T>)
    requires a <= b
    ensures |a| <= |b|
  {
    if x :| x in a {
      SubsetSize(a - {x}, b - {x});
    }
  }

  /** The submitted order names every apartment of the building exactly once. */
  ghost predicate IsPermutation(ids: seq<Id>, t: ApartmentTable, building: Id) {
    NoDuplicates(ids) && Elements(ids) == IdsOf(t, building)
  }

  /** The checks of `reorder_apartments`: row count, no duplicates, and every per-row update hits. */
  lemma ReorderChecksArePermutation(ids: seq<Id>, t: ApartmentTable, building: Id)
    ensures IsPermutation(ids, t, building) <==>
      && |IdsOf(t, building)| == |ids|
      && |Elements(ids)| == |ids|
      && forall i :: 0 <= i < |ids| ==> ids[i] in t && t[ids[i]].building == building
  {
    ElementsCardinality(ids);
    if forall i :: 0 <= i < |ids| ==> ids[i] in IdsOf(t, building) {
      assert Elements(ids) <= IdsOf(t, building);
      if |IdsOf(t, building)| == |ids| == |Elements(ids)| {
        SubsetOfEqualSize(Elements(ids), IdsOf(t, building));
      }
    } else {
      var i :| 0 <= i < |ids| && ids[i] !in IdsOf(t, building);
      assert ids[i] in Elements(ids);
    }
  }

  // ----- display order -----

  /** ORDER BY position, name, id */
  predicate DisplayedBefore(t: ApartmentTable, a: Id, b: Id)
    requires a in t && b in t
  {
    || t[a].position < t[b].position
    || (t[a].position == t[b].position
        && (Text.Less(t[a].name, t[b].name) || (t[a].name == t[b].name && Text.Less(a, b))))
  }

  /** The result of `list_apartments`. */
  ghost predicate IsListing(ids: seq<Id>, t: ApartmentTable, building: Id) {
    && IsPermutation(ids, t, building)
    && (forall id :: id in ids ==> id in t)
    && forall i, j :: 0 <= i < j < |ids| ==> DisplayedBefore(t, ids[i], ids[j])
  }

  /** In a listing an apartment comes first exactly by its smaller position, in one position by its smaller name, and
      under one name by its smaller id. */
  lemma ListingOrder(ids: seq<Id>, t: ApartmentTable, building: Id, i: nat, j: nat)
    requires IsListing(ids, t, building) && i < |ids| && j < |ids| && ids[i] in t && ids[j] in t
    ensures var a, b := t[ids[i]], t[ids[j]];
      i < j <==>
        || a.position < b.position
        || (a.position == b.position && Text.Less(a.name, b.name))
        || (a.position == b.position && a.name == b.name && Text.Less(ids[i], ids[j]))
  {
    var a, b := t[ids[i]], t[ids[j]];
    Text.LessIrreflexive(a.name);
    Text.LessIrreflexive(ids[i]);
    if i < j {
      assert DisplayedBefore(t, ids[i], ids[j]);
    } else if j < i {
      assert DisplayedBefore(t, ids[j], ids[i]);
      if Text.Less(b.name, a.name) { Text.LessAsymmetric(b.name, a.name); }
      if Text.Less(ids[j], ids[i]) { Text.LessAsymmetric(ids[j], ids[i]); }
    }
  }

  /** The table with the positions rewritten as 0-based indexes of the submitted order. */
  ghost predicate Repositioned(ids: seq<Id>, t: ApartmentTable, u: ApartmentTable) {
    && u.Keys == t.Keys
    && (forall i :: 0 <= i < |ids| && ids[i] in t ==> u[ids[i]] == t[ids[i]].(position := i))
    && forall id :: id in t && id !in ids ==> u[id] == t[id]
  }

  /** An order fixes the sequence of its elements. */
  lemma {:induction false} SameAscent(a: seq<Id>, b: seq<Id>, before: (Id, Id) -> bool)
    requires forall id :: id in a <==> id in b
    requires forall i, j :: 0 <= i < j < |a| ==> before(a[i], a[j])
    requires forall i, j :: 0 <= i < j < |b| ==> before(b[i], b[j])
    requires forall x, y :: before(x, y) ==> !before(y, x)
    ensures a == b
  {
    HeadIsElement(a);
    HeadIsElement(b);
    if a != [] && b != [] {
      var k :| 0 <= k < |b| && b[k] == a[0];
      var l :| 0 <= l < |a| && a[l] == b[0];
      assert a[0] == b[0];
      TailElements(a, before);
      TailElements(b, before);
      SameAscent(a[1..], b[1..], before);
      assert a == [a[0]] + a[1..] && b == [b[0]] + b[1..];
    }
  }

  lemma TailElements(a: seq<Id>, before: (Id, Id) -> bool)
    requires a != []
    requires forall i, j :: 0 <= i < j < |a| ==> before(a[i], a[j])
    requires forall x, y :: before(x, y) ==> !before(y, x)
    ensures forall id :: id in a[1..] <==> id in a && id != a[0]
  {
    assert a == [a[0]] + a[1..];
    forall i | 0 < i < |a|
      ensures a[i] != a[0]
    {
      assert before(a[0], a[i]);
    }
  }

  /** Listing the apartments after an accepted reorder returns the submitted order. */
  lemma ReorderIsListed(ids: seq<Id>, t: ApartmentTable, u: ApartmentTable, building: Id, listed: seq<Id>)
    requires IsPermutation(ids, t, building) && Repositioned(ids, t, u)
    requires IsListing(listed, u, building)
    ensures listed == ids
  {
    assert forall id :: id in Elements(ids) <==> id in ids;
    assert forall id :: id in t ==> u[id].building == t[id].building by {
      forall id | id in t
        ensures u[id].building == t[id].building
      {
        if id in ids {
          var i :| 0 <= i < |ids| && ids[i] == id;
        }
      }
    }
    assert IdsOf(u, building) == IdsOf(t, building);
    forall i | 0 <= i < |ids|
      ensures ids[i] in t && u[ids[i]].position == i
    {
      assert ids[i] in Elements(ids);
    }
    var before := (x, y) => x in u && y in u && u[x].position < u[y].position;
    forall i, j | 0 <= i < j < |listed|
      ensures before(listed[i], listed[j])
    {
      assert listed[i] in Elements(listed) && listed[j] in Elements(listed);
      assert DisplayedBefore(u, listed[i], listed[j]);
      var k :| 0 <= k < |ids| && ids[k] == listed[i];
      var l :| 0 <= l < |ids| && ids[l] == listed[j];
    }
    assert forall id :: id in Elements(listed) <==> id in listed;
    SameAscent(listed, ids, before);
  }

  // ----- rotation order -----

  /** Creation order, the id as tie-break. */
  predicate RotatesBefore(t: ApartmentTable, a: Id, b: Id)
    requires a in t && b in t
  {
    Text.Less(t[a].createdAt, t[b].createdAt) || (t[a].createdAt == t[b].createdAt && Text.Less(a, b))
  }

  lemma RotatesBeforeIsStrictTotal(t: ApartmentTable, a: Id, b: Id, c: Id)
    requires a in t && b in t && c in t
    ensures !RotatesBefore(t, a, a)
    ensures RotatesBefore(t, a, b) ==> !RotatesBefore(t, b, a)
    ensures RotatesBefore(t, a, b) && RotatesBefore(t, b, c) ==> RotatesBefore(t, a, c)
    ensures RotatesBefore(t, a, b) || a == b || RotatesBefore(t, b, a)
  {
    var x, y, z := t[a].createdAt, t[b].createdAt, t[c].createdAt;
    Text.LessIrreflexive(x);
    Text.LessIrreflexive(a);
    Text.LessTotal(x, y);
    Text.LessTotal(a, b);
    if Text.Less(x, y) { Text.LessAsymmetric(x, y); }
    if Text.Less(a, b) { Text.LessAsymmetric(a, b); }
    if Text.Less(x, y) && Text.Less(y, z) { Text.LessTransitive(x, y, z); }
    if Text.Less(a, b) && Text.Less(b, c) { Text.LessTransitive(a, b, c); }
  }

  ghost predicate InRotationOrder(ids: seq<Id>, t: ApartmentTable) {
    && (forall id :: id in ids ==> id in t)
    && forall i, j :: 0 <= i < j < |ids| ==> RotatesBefore(t, ids[i], ids[j])
  }

  lemma PrependInOrder(x: Id, ids: seq<Id>, t: ApartmentTable)
    requires x in t && InRotationOrder(ids, t)
    requires ids != [] ==> RotatesBefore(t, x, ids[0])
    ensures InRotationOrder([x] + ids, t)
  {
    forall i | 0 <= i < |ids|
      ensures ids[i] in ids && RotatesBefore(t, x, ids[i])
    {
      assert ids[0] in ids && ids[i] in ids;
      if i > 0 {
        RotatesBeforeIsStrictTotal(t, x, ids[0], ids[i]);
      }
    }
  }

  function Insert(x: Id, ids: seq<Id>, t: ApartmentTable): (r: seq<Id>)
    requires x in t && x !in ids && InRotationOrder(ids, t)
    ensures InRotationOrder(r, t) && r != []
    ensures r[0] == x || (ids != [] && r[0] == ids[0])
    ensures forall id :: id in r <==> id == x || id in ids
    ensures |r| == |ids| + 1
  {
    if ids == [] then
      PrependInOrder(x, [], t);
      assert [x] + [] == [x];
      [x]
    else if RotatesBefore(t, x, ids[0]) then
      PrependInOrder(x, ids, t);
      [x] + ids
    else
      var rest := Insert(x, ids[1..], t);
      RotatesBeforeIsStrictTotal(t, x, ids[0], x);
      assert ids[0] in t && (|ids| > 1 ==> RotatesBefore(t, ids[0], ids[1]));
      PrependInOrder(ids[0], rest, t);
      [ids[0]] + rest
  }

  /** `sort_by(created_at, id)` on the listed apartments. */
  function RotationOrder(ids: seq<Id>, t: ApartmentTable): (r: seq<Id>)
    requires NoDuplicates(ids) && forall id :: id in ids ==> id in t
    ensures InRotationOrder(r, t) && |r| == |ids|
    ensures forall id :: id in r <==> id in ids
  {
    if ids == [] then [] else Insert(ids[0], RotationOrder(ids[1..], t), t)
  }

  lemma RotationOrderIsUnique(a: seq<Id>, b: seq<Id>, t: ApartmentTable)
    requires InRotationOrder(a, t) && InRotationOrder(b, t)
    requires forall id :: id in a <==> id in b
    ensures a == b
  {
    var before := (x, y) => x in t && y in t && RotatesBefore(t, x, y);
    forall x, y | before(x, y)
      ensures !before(y, x)
    {
      RotatesBeforeIsStrictTotal(t, x, y, x);
    }
    forall i | 0 <= i < |a|
      ensures a[i] in t
    {
      assert a[i] in a;
    }
    forall i | 0 <= i < |b|
      ensures b[i] in t
    {
      assert b[i] in b;
    }
    SameAscent(a, b, before);
  }

  /** An apartment created after all others rotates last, and the others keep their places. */
  lemma NewestRotatesLast(ids: seq<Id>, x: Id, t: ApartmentTable)
    requires NoDuplicates(ids + [x]) && forall id :: id in ids + [x] ==> id in t
    requires forall id :: id in ids ==> Text.Less(t[id].createdAt, t[x].createdAt)
    ensures NoDuplicates(ids) && (forall id :: id in ids ==> id in t)
    ensures RotationOrder(ids + [x], t) == RotationOrder(ids, t) + [x]
  {
    assert forall i :: 0 <= i < |ids| ==> (ids + [x])[i] == ids[i];
    assert (ids + [x])[|ids|] == x;
    assert forall id :: id in ids ==> id in ids + [x];
    var r := RotationOrder(ids, t);
    forall i, j | 0 <= i < j < |r + [x]|
      ensures (r + [x])[i] in t && (r + [x])[j] in t && RotatesBefore(t, (r + [x])[i], (r + [x])[j])
    {
      assert r[i] in r;
      if j < |r| {
        assert r[j] in r;
      }
    }
    RotationOrderIsUnique(RotationOrder(ids + [x], t), r + [x], t);
  }

  /** Of two apartments the one created earlier is first in the rotation; of two created in the same second, the one
      with the smaller id. */
  lemma RotationFollowsCreation(ids: seq<Id>, t: ApartmentTable, i: nat, j: nat)
    requires NoDuplicates(ids) && (forall id :: id in ids ==> id in t) && i < |ids| && j < |ids|
    requires var r := RotationOrder(ids, t); r[i] in t && r[j] in t
    ensures var r := RotationOrder(ids, t);
      i < j <==>
        || Text.Less(t[r[i]].createdAt, t[r[j]].createdAt)
        || (t[r[i]].createdAt == t[r[j]].createdAt && Text.Less(r[i], r[j]))
  {
    var r := RotationOrder(ids, t);
    assert r[i] in r && r[j] in r;
    RotatesBeforeIsStrictTotal(t, r[i], r[j], r[i]);
    if i < j {
      assert RotatesBefore(t, r[i], r[j]);
    } else if j < i {
      assert RotatesBefore(t, r[j], r[i]);
    }
  }

  /**
   The display order never reaches the rotation: however the building's
   apartments are listed before and after a reorder, sorting them for the
   rotation gives the same sequence.
   */
  lemma ReorderKeepsRotation(ids: seq<Id>, t: ApartmentTable, u: ApartmentTable, building: Id,
                             before: seq<Id>, after: seq<Id>)
    requires IsPermutation(ids, t, building) && Repositioned(ids, t, u)
    requires IsPermutation(before, t, building) && IsPermutation(after, u, building)
    requires (forall id :: id in before ==> id in t) && (forall id :: id in after ==> id in u)
    ensures RotationOrder(before, t) == RotationOrder(after, u)
  {
    forall id | id in t
      ensures u[id].building == t[id].building && u[id].createdAt == t[id].createdAt
    {
      if id in ids {
        var i :| 0 <= i < |ids| && ids[i] == id;
      }
    }
    assert IdsOf(u, building) == IdsOf(t, building);
    assert forall id :: id in Elements(before) <==> id in before;
    assert forall id :: id in Elements(after) <==> id in after;
    var x, y := RotationOrder(before, t), RotationOrder(after, u);
    forall i, j | 0 <= i < j < |y|
      ensures y[i] in t && y[j] in t && RotatesBefore(t, y[i], y[j])
    {
      assert y[i] in y && y[j] in y;
    }
    RotationOrderIsUnique(x, y, t);
  }

  /** The rotation badges: each ranked apartment's 1-based place in the rotation order. */
  ghost predicate Ranked(rank: map<Id, nat>, order: seq<Id>) {
    && (forall i :: 0 <= i < |order| ==> order[i] in rank)
    && forall id :: id in rank ==> 1 <= rank[id] <= |order| && order[rank[id] - 1] == id
  }

  /** The `rank` map of `apartment_rows`. */
  method RankApartments(rotation: seq<Id>) returns (rank: map<Id, nat>)
    ensures Ranked(rank, rotation)
  {
    rank := map[];
    for i := 0 to |rotation|
      invariant forall j :: 0 <= j < i ==> rotation[j] in rank
      invariant forall id :: id in rank ==> 1 <= rank[id] <= i && rotation[rank[id] - 1] == id
    {
      rank := rank[rotation[i] := i + 1];
    }
  }

  datatype ApartmentRow = ApartmentRow(id: Id, plate: string, rotation: nat)

  /** The letter on the plate: the first character of the name in upper case. */
  function Plate(name: string, upper: char -> string): string {
    if name == "" then "" else upper(name[0])
  }

  /** `apartment_rows`: the rows in display order, each with its plate letter and rotation badge. */
  method ApartmentRows(listed: seq<Id>, t: ApartmentTable, upper: char -> string) returns (rows: seq<ApartmentRow>)
    requires NoDuplicates(listed) && forall id :: id in listed ==> id in t
    ensures |rows| == |listed|
    ensures forall i :: 0 <= i < |rows| ==> rows[i].id == listed[i] && listed[i] in t
    ensures forall i :: 0 <= i < |rows| ==>
      var name := t[listed[i]].name;
      (name == "" ==> rows[i].plate == "") && (name != "" ==> rows[i].plate == upper(name[0]))
    ensures forall i :: 0 <= i < |rows| ==>
      1 <= rows[i].rotation <= |listed| && RotationOrder(listed, t)[rows[i].rotation - 1] == listed[i]
  {
    var rotation := RotationOrder(listed, t);
    var rank := RankApartments(rotation);
    rows := AttachRanks(listed, t, upper, rank, rotation);
  }

  method AttachRanks(listed: seq<Id>, t: ApartmentTable, upper: char -> string, rank: map<Id, nat>,
                     ghost rotation: seq<Id>)
    returns (rows: seq<ApartmentRow>)
    requires Ranked(rank, rotation)
    requires forall id :: id in listed ==> id in rotation && id in t
    ensures |rows| == |listed|
    ensures forall i :: 0 <= i < |rows| ==>
      rows[i].id == listed[i] && listed[i] in t && rows[i].plate == Plate(t[listed[i]].name, upper)
    ensures forall i :: 0 <= i < |rows| ==>
      1 <= rows[i].rotation <= |rotation| && rotation[rows[i].rotation - 1] == listed[i]
  {
    hide Plate;
    rows := [];
    for i := 0 to |listed|
      invariant |rows| == i
      invariant forall j :: 0 <= j < i ==>
        rows[j].id == listed[j] && listed[j] in t && rows[j].plate == Plate(t[listed[j]].name, upper)
      invariant forall j :: 0 <= j < i ==>
        1 <= rows[j].rotation <= |rotation| && rotation[rows[j].rotation - 1] == listed[j]
    {
      var id := listed[i];
      assert id in listed && id in rotation;
      var badge := if id in rank then rank[id] else 0;
      rows := rows + [ApartmentRow(id, Plate(t[id].name, upper), badge)];
    }
  }
}
