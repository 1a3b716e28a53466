/**
 What the chain guards guarantee: which accepted insert, update and delete
 statements keep a chain tiled.
 */
module Tiling {
  import opened Wrappers
  import opened Calendar
  import opened Periods

  /**
   COALESCE(end_date, '9999-12-31') is a faithful stand-in for an open end: two
   rows overlap in the sense of the triggers exactly when they share a day.
   */
  lemma OverlapIsSharedDay(a: Row, b: Row)
    requires WellDated(a) && WellDated(b)
    ensures Overlap(a, b) <==> exists d :: Covers(a, d) && Covers(b, d)
  {
    if Overlap(a, b) {
      var d := if a.start < b.start then b.start else a.start;
      assert Covers(a, d) && Covers(b, d);
    }
  }

  lemma NoOverlapNoSharedDay(c: Table, n: Row, id: Id, d: Day)
    requires Dated(c) && WellDated(n) && !OverlapsSome(c, n)
    requires id in c && Covers(c[id], d)
    ensures !Covers(n, d)
    ensures d < n.start ==> c[id].end.Some? && c[id].end.value < n.start
    ensures n.start <= d ==> n.end.Some? && n.end.value < c[id].start
  {
    OverlapIsSharedDay(n, c[id]);
    assert !Overlap(n, c[id]);
  }

  /** A row accepted into a tiled chain (possibly an empty one) leaves a tiled chain. */
  lemma InsertKeepsTiled(c: Table, id: Id, n: Row)
    requires Tiled(c) && id !in c && ChainAccepts(c, n)
    ensures Tiled(c[id := n])
  {
    var t := c[id := n];
    forall a, b, d | a in t && b in t && Covers(t[a], d) && Covers(t[b], d)
      ensures a == b
    {
      if a == id && b != id {
        NoOverlapNoSharedDay(c, n, b, d);
      } else if a != id && b == id {
        NoOverlapNoSharedDay(c, n, a, d);
      }
    }
    forall x, y, z | x <= y <= z && Covered(t, x) && Covered(t, z)
      ensures Covered(t, y)
    {
      var a :| a in t && Covers(t[a], x);
      var b :| b in t && Covers(t[b], z);
      NoHole(c, id, n, a, x, b, z, y);
    }
  }

  lemma NoHole(c: Table, id: Id, n: Row, a: Id, x: Day, b: Id, z: Day, y: Day)
    requires Tiled(c) && id !in c && ChainAccepts(c, n)
    requires var t := c[id := n]; a in t && Covers(t[a], x) && b in t && Covers(t[b], z)
    requires x <= y <= z
    ensures Covered(c[id := n], y)
  {
    var t := c[id := n];
    if Covers(n, y) {
      assert Covers(t[id], y);
    } else if a == id && b == id {
    } else if a == id {
      NoOverlapNoSharedDay(c, n, b, z);
      assert c[b].start in StartsAfter(c, n);
      var first := Min(StartsAfter(c, n));
      var r :| r in c && c[r].start == first;
      CoveredBetween(c, r, first, b, z, y);
      Extend(c, id, n, y);
    } else if b == id {
      NoOverlapNoSharedDay(c, n, a, x);
      assert c[a].end.value in EndsBefore(c, n);
      var last := Max(EndsBefore(c, n));
      var r :| r in c && c[r].end == Some(last);
      CoveredBetween(c, a, x, r, last, y);
      Extend(c, id, n, y);
    } else {
      CoveredBetween(c, a, x, b, z, y);
      Extend(c, id, n, y);
    }
  }

  lemma CoveredBetween(c: Table, a: Id, x: Day, b: Id, z: Day, y: Day)
    requires GapFree(c) && x <= y <= z
    requires a in c && b in c && Covers(c[a], x) && Covers(c[b], z)
    ensures Covered(c, y)
  {
    assert Covered(c, x) && Covered(c, z);
  }

  lemma Extend(c: Table, id: Id, n: Row, y: Day)
    requires id !in c && Covered(c, y)
    ensures Covered(c[id := n], y)
  {
    var r :| r in c && Covers(c[r], y);
    assert r in c[id := n] && c[id := n][r] == c[r];
  }

  lemma Shrink(c: Table, id: Id, y: Day)
    requires id in c && Covered(c, y) && !Covers(c[id], y)
    ensures Covered(c - {id}, y)
  {
    var r :| r in c && Covers(c[r], y);
    assert r in c - {id};
  }

  /** Removing a row that is not in the middle leaves a tiled chain. */
  lemma DeleteKeepsTiled(c: Table, id: Id)
    requires Tiled(c) && id in c && !Middle(c, id)
    ensures Tiled(c - {id})
  {
    var t := c - {id};
    forall x, y, z | x <= y <= z && Covered(t, x) && Covered(t, z)
      ensures Covered(t, y)
    {
      var a :| a in t && Covers(t[a], x);
      var b :| b in t && Covers(t[b], z);
      CoveredBetween(c, a, x, b, z, y);
      if Covers(c[id], y) {
        assert !Covers(c[id], x) && !Covers(c[id], z);
        Neighbours(c, a, id, x);
        Neighbours(c, id, b, z);
        assert false;
      } else {
        Shrink(c, id, y);
      }
    }
  }

  /** In a disjoint chain the rows of a day outside a row lie wholly on that side of it. */
  lemma Neighbours(c: Table, a: Id, b: Id, d: Day)
    requires Dated(c) && Disjoint(c) && a in c && b in c && a != b
    requires (Covers(c[a], d) && d < c[b].start) || (Covers(c[b], d) && !Covers(c[a], d) && c[a].start <= d)
    ensures c[a].end.Some? && c[a].end.value < c[b].start
  {
    assert Covers(c[b], c[b].start);
    assert !Covers(c[a], c[b].start);
    assert Covers(c[a], c[a].start);
  }

  predicate SameDates(a: Row, b: Row) {
    a.start == b.start && a.end == b.end
  }

  /** All other rows end before the row, and one of them the day before. */
  ghost predicate FlushAtEnd(others: Table, n: Row) {
    && (forall o :: o in others ==> others[o].end.Some? && others[o].end.value < n.start)
    && (exists o :: o in others && others[o].end == Some(n.start - 1))
  }

  /** All other rows start after the row, and one of them the day after. */
  ghost predicate FlushAtStart(others: Table, n: Row) {
    && n.end.Some?
    && (forall o :: o in others ==> n.end.value < others[o].start)
    && (exists o :: o in others && others[o].start == n.end.value + 1)
  }

  /**
   An update that passes every trigger keeps the chain tiled exactly when the
   row was first or last in its chain, or keeps its dates.
   */
  lemma UpdateKeepsTiledIff(c: Table, id: Id, n: Row)
    requires Tiled(c) && id in c && n.parent == c[id].parent && ChainAccepts(c - {id}, n)
    ensures Tiled(c[id := n]) <==> !Middle(c, id) || SameDates(n, c[id])
  {
    if !Middle(c, id) {
      DeleteKeepsTiled(c, id);
      InsertKeepsTiled(c - {id}, id, n);
      assert (c - {id})[id := n] == c[id := n];
    } else if SameDates(n, c[id]) {
      assert c[id := n] == c;
    } else {
      MovedMiddleLeavesHole(c, id, n);
    }
  }

  /** The only other update of a middle row that passes the triggers moves it flush against
      one end of the chain. */
  lemma MovedMiddleIsFlush(c: Table, id: Id, n: Row)
    requires Tiled(c) && id in c && n.parent == c[id].parent && ChainAccepts(c - {id}, n)
    requires Middle(c, id) && !SameDates(n, c[id])
    ensures FlushAtEnd(c - {id}, n) || FlushAtStart(c - {id}, n)
  {
    var p, q := MiddleNeighbours(c, id);
    MovedMiddleIsOutside(c, id, n, p, q);
    var others := c - {id};
    if c[id].end.value < n.start {
      forall o | o in others
        ensures others[o].end.Some? && others[o].end.value < n.start
      {
        OverlapIsSharedDay(n, others[o]);
        if EndOr(n) < others[o].start {
          CoveredBetween(c, q, c[q].start, o, c[o].start, n.start);
          NoRowCovers(c, id, n, n.start);
          assert false;
        }
      }
      assert q in others && others[q].end.Some?;
      assert others[q].end.value in EndsBefore(others, n);
    } else {
      forall o | o in others
        ensures EndOr(n) < others[o].start
      {
        OverlapIsSharedDay(n, others[o]);
        if !(EndOr(n) < others[o].start) {
          CoveredBetween(c, o, c[o].end.value, p, c[p].end.value, n.start);
          CoveredBetween(c, o, c[o].start, p, c[p].end.value, EndOr(n));
          NoRowCovers(c, id, n, EndOr(n));
          assert false;
        }
      }
      assert p in others && others[p].start in StartsAfter(others, n);
    }
  }

  /** No other row covers a day of an accepted row. */
  lemma NoRowCovers(c: Table, id: Id, n: Row, d: Day)
    requires Dated(c) && id in c && ChainAccepts(c - {id}, n) && Covers(n, d) && !Covers(c[id], d)
    ensures !Covered(c, d)
  {
    forall r | r in c
      ensures !Covers(c[r], d)
    {
      if r != id && Covers(c[r], d) {
        NoOverlapNoSharedDay(c - {id}, n, r, d);
      }
    }
  }

  /** The rows right before and right after a middle row. */
  lemma MiddleNeighbours(c: Table, id: Id) returns (p: Id, q: Id)
    requires Tiled(c) && id in c && Middle(c, id)
    ensures p in c && p != id && c[p].end == Some(c[id].start - 1)
    ensures q in c && q != id && c[id].end.Some? && c[q].start == c[id].end.value + 1
  {
    var before :| before in c && before != id && c[before].end.Some? && c[before].end.value < c[id].start;
    var after :| after in c && after != id && c[id].end.Some? && c[id].end.value < c[after].start;
    p := Predecessor(c, id, before);
    q := Successor(c, id, after);
  }

  lemma Predecessor(c: Table, id: Id, before: Id) returns (p: Id)
    requires Tiled(c) && id in c && before in c
    requires c[before].end.Some? && c[before].end.value < c[id].start
    ensures p in c && p != id && c[p].end == Some(c[id].start - 1)
  {
    var first := c[id].start;
    CoveredBetween(c, before, c[before].end.value, id, first, first - 1);
    p :| p in c && Covers(c[p], first - 1);
    assert !Covers(c[id], first - 1) && Covers(c[id], first);
    assert !Covers(c[p], first);
  }

  lemma Successor(c: Table, id: Id, after: Id) returns (q: Id)
    requires Tiled(c) && id in c && after in c
    requires c[id].end.Some? && c[id].end.value < c[after].start
    ensures q in c && q != id && c[q].start == c[id].end.value + 1
  {
    var last := c[id].end.value;
    CoveredBetween(c, id, last, after, c[after].start, last + 1);
    q :| q in c && Covers(c[q], last + 1);
    assert !Covers(c[id], last + 1) && Covers(c[id], last);
    assert !Covers(c[q], last);
  }

  /** A middle row with new dates shares no day with its old self. */
  lemma MovedMiddleIsOutside(c: Table, id: Id, n: Row, p: Id, q: Id)
    requires Tiled(c) && id in c && n.parent == c[id].parent && ChainAccepts(c - {id}, n)
    requires !SameDates(n, c[id])
    requires p in c && p != id && c[p].end == Some(c[id].start - 1)
    requires q in c && q != id && c[id].end.Some? && c[q].start == c[id].end.value + 1
    ensures c[id].end.value < n.start || (n.end.Some? && n.end.value < c[id].start)
  {
    var others := c - {id};
    var first, last := c[id].start, c[id].end.value;
    assert Covers(c[p], first - 1) && Covers(c[q], last + 1);
    OverlapIsSharedDay(n, others[p]);
    OverlapIsSharedDay(n, others[q]);
    assert !Covers(n, first - 1) && !Covers(n, last + 1);
    if !(last < n.start) && !(EndOr(n) < first) {
      StartsRightAfter(c, id, n, p);
      EndsRightBefore(c, id, n, q);
      assert false;
    }
  }

  lemma StartsRightAfter(c: Table, id: Id, n: Row, p: Id)
    requires Dated(c) && Disjoint(c) && id in c && ChainAccepts(c - {id}, n)
    requires p in c && p != id && c[p].end == Some(c[id].start - 1)
    requires c[id].start <= n.start && (c[id].end.Some? ==> n.start <= c[id].end.value)
    ensures n.start == c[id].start
  {
    var others := c - {id};
    assert others[p].end.value in EndsBefore(others, n);
    var m := Max(EndsBefore(others, n));
    var a :| a in others && others[a].end == Some(m);
    assert Covers(c[a], m) && !Covers(c[id], m);
  }

  lemma EndsRightBefore(c: Table, id: Id, n: Row, q: Id)
    requires Dated(c) && Disjoint(c) && id in c && ChainAccepts(c - {id}, n)
    requires q in c && q != id && c[id].end.Some? && c[q].start == c[id].end.value + 1
    requires c[id].start <= EndOr(n) <= c[id].end.value
    ensures n.end == c[id].end
  {
    var others := c - {id};
    assert others[q].start in StartsAfter(others, n);
    var k := Min(StartsAfter(others, n));
    var b :| b in others && others[b].start == k;
    assert Covers(c[b], k) && !Covers(c[id], k);
  }

  /** ... so its old days are left without an owner, between days that have one. */
  lemma MovedMiddleLeavesHole(c: Table, id: Id, n: Row)
    requires Tiled(c) && id in c && n.parent == c[id].parent && ChainAccepts(c - {id}, n)
    requires Middle(c, id) && !SameDates(n, c[id])
    ensures !GapFree(c[id := n])
    ensures forall d :: Covers(c[id], d) ==> !Covered(c[id := n], d)
  {
    var p, q := MiddleNeighbours(c, id);
    MovedMiddleIsOutside(c, id, n, p, q);
    var t := c[id := n];
    forall d | Covers(c[id], d)
      ensures !Covered(t, d)
    {
      forall r | r in t
        ensures !Covers(t[r], d)
      {
      }
    }
    assert Covers(t[p], c[id].start - 1) && Covers(t[q], c[id].end.value + 1);
    assert Covered(t, c[id].start - 1) && Covered(t, c[id].end.value + 1);
    assert Covers(c[id], c[id].start);
  }
}
