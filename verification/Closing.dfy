/**
 Closing the previous period and inserting the next one, and edits that end a
 period before today.
 */
module Closing {
  import opened Wrappers
  import opened Calendar
  import opened Periods
  import opened Tiling

  /** An accepted row shares no day with the rest; this is all the tenancy triggers promise. */
  lemma AcceptedKeepsDisjoint(c: Table, id: Id, n: Row)
    requires Dated(c) && Disjoint(c) && TenancyAccepts(c - {id}, n)
    ensures Dated(c[id := n]) && Disjoint(c[id := n])
  {
    var t := c[id := n];
    forall a, b, d | a in t && b in t && Covers(t[a], d) && Covers(t[b], d)
      ensures a == b
    {
      if a == id && b != id {
        NoOverlapNoSharedDay(c - {id}, n, b, d);
      } else if a != id && b == id {
        NoOverlapNoSharedDay(c - {id}, n, a, d);
      }
    }
  }

  /** The previous row, ended on the day before the new one starts. */
  function Ended(r: Row, next: Row): Row {
    r.(end := Some(next.start - 1))
  }

  ghost predicate Last(c: Table, p: Id)
    requires p in c
  {
    forall o :: o in c ==> c[o].start <= c[p].start
  }

  /** Both statements of the transaction pass the chain and date triggers. */
  predicate ClosingAccepted(c: Table, p: Id, n: Row)
    requires p in c
  {
    ChainAccepts(c - {p}, Ended(c[p], n)) && ChainAccepts(c[p := Ended(c[p], n)], n)
  }

  lemma LastComesLast(c: Table, p: Id, o: Id)
    requires Dated(c) && Disjoint(c) && p in c && Last(c, p) && o in c && o != p
    ensures c[o].end.Some? && c[o].end.value < c[p].start
  {
    assert Covers(c[p], c[p].start);
    assert !Covers(c[o], c[p].start);
  }

  lemma ClosingLastIsAccepted(c: Table, p: Id, n: Row)
    requires Tiled(c) && p in c && Covers(c[p], n.start) && WellDated(n)
    requires Last(c, p) && c[p].start < n.start
    ensures ClosingAccepted(c, p, n)
  {
    var r, rest := Ended(c[p], n), c - {p};
    var t := c[p := r];
    forall o | o in rest
      ensures rest[o].end.Some? && rest[o].end.value < r.start && rest[o].start <= rest[o].end.value
    {
      LastComesLast(c, p, o);
    }
    assert WellDated(r);
    assert StartsAfter(rest, r) == {};
    if EndsBefore(rest, r) != {} {
      var o :| o in rest && rest[o].end == Some(Max(EndsBefore(rest, r)));
      var q := Predecessor(c, p, o);
      assert q in rest && rest[q].end.value in EndsBefore(rest, r);
    }
    assert StartsAfter(t, n) == {};
    assert t[p].end.value in EndsBefore(t, n);
  }

  lemma ClosingNeedsLast(c: Table, p: Id, n: Row)
    requires Tiled(c) && p in c && Covers(c[p], n.start)
    requires ChainAccepts(c - {p}, Ended(c[p], n))
    ensures Last(c, p) && c[p].start < n.start
  {
    var r, rest := Ended(c[p], n), c - {p};
    forall o | o in c
      ensures c[o].start <= c[p].start
    {
      if c[p].start < c[o].start {
        assert Covers(c[o], c[o].start) && !Covers(c[p], c[o].start);
        var q := Successor(c, p, o);
        assert q in rest && rest[q].start in StartsAfter(rest, r);
        var m :| m in rest && rest[m].start == Min(StartsAfter(rest, r));
        assert Covers(c[m], n.start);
        assert false;
      }
    }
  }

  /**
   Closing the period that covers the new start and inserting the new period
   passes the chain and date triggers exactly when that period is the last of
   the chain, the new start lies strictly after its start, and the new period
   does not end before it starts.
   */
  lemma ClosingAcceptedIff(c: Table, p: Id, n: Row)
    requires Tiled(c) && p in c && Covers(c[p], n.start)
    requires MIN_DAY <= n.start <= MAX_DAY && (n.end.Some? ==> MIN_DAY <= n.end.value <= MAX_DAY)
    ensures ClosingAccepted(c, p, n) <==>
      Last(c, p) && c[p].start < n.start && (n.end.Some? ==> n.start <= n.end.value)
  {
    if ClosingAccepted(c, p, n) {
      ClosingNeedsLast(c, p, n);
    }
    if Last(c, p) && c[p].start < n.start && (n.end.Some? ==> n.start <= n.end.value) {
      ClosingLastIsAccepted(c, p, n);
    }
  }

  /** After an accepted handover the chain is still tiled, every day before the new start has the
      same row as before, and from the new start on the new row is the only one. */
  lemma ClosingEffect(c: Table, p: Id, id: Id, n: Row)
    requires Tiled(c) && p in c && id !in c && Covers(c[p], n.start) && ClosingAccepted(c, p, n)
    ensures var t := c[p := Ended(c[p], n)][id := n];
      && Tiled(t)
      && (forall o, d :: o in c && d < n.start ==> (Covers(t[o], d) <==> Covers(c[o], d)))
      && (forall o, d :: o in c && n.start <= d ==> !Covers(t[o], d))
  {
    var r := Ended(c[p], n);
    var t := c[p := r];
    ClosingNeedsLast(c, p, n);
    assert !Middle(c, p);
    UpdateKeepsTiledIff(c, p, r);
    InsertKeepsTiled(t, id, n);
    var u := t[id := n];
    forall o | o in c
      ensures forall d :: n.start <= d ==> !Covers(u[o], d)
    {
      if o != p {
        LastComesLast(c, p, o);
      }
    }
  }

  // ----- edits that end the current period -----

  /** `end_drops_today_coverage` */
  predicate EndDropsToday(start: Day, end: Option<Day>, newEnd: Option<Day>, today: Day) {
    && (start <= today && (end.Some? ==> today <= end.value))
    && newEnd.Some? && newEnd.value < today
  }

  /**
   No other period takes over: an accepted edit uncovers today exactly when the
   confirmation dialogue is due or the edited period, which covered today, is
   moved to start after today.
   */
  lemma EditUncoversTodayIff(c: Table, id: Id, n: Row, today: Day)
    requires Dated(c) && Disjoint(c) && id in c && ChainAccepts(c - {id}, n)
    ensures Covered(c, today) && !Covered(c[id := n], today) <==>
      || EndDropsToday(c[id].start, c[id].end, n.end, today)
      || (Covers(c[id], today) && today < n.start)
  {
    var t := c[id := n];
    if Covers(n, today) {
      assert Covers(t[id], today);
    } else if Covers(c[id], today) {
      forall o | o in t
        ensures !Covers(t[o], today)
      {
      }
    } else if Covered(c, today) {
      var o :| o in c && Covers(c[o], today);
      assert o in t && Covers(t[o], today);
    }
  }
}
