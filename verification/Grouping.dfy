/**
 Grouping joined rows (one per period and person) into periods through an index
 of the ids seen so far.
 */
module Grouping {
  import opened Wrappers

  datatype PersonRef = PersonRef(personId: Id, name: string, displayName: Option<string>, email: string, position: int)

  datatype Header = Header(id: Id, parent: Id, start: string, end: Option<string>, createdAt: string)

  /** A joined row: the period's columns and one of its persons. */
  datatype JoinedRow = JoinedRow(header: Header, person: PersonRef)

  datatype Period = Period(header: Header, people: seq<PersonRef>)

  // ----- the reference: filtering -----

  function SeenIds(rows: seq<JoinedRow>): set<Id> {
    set r | r in rows :: r.header.id
  }

  /** The headers that introduce a new id, in order of first appearance. */
  function FirstHeaders(rows: seq<JoinedRow>): seq<Header> {
    if rows == [] then []
    else
      var front, last := rows[..|rows| - 1], rows[|rows| - 1];
      FirstHeaders(front) + (if last.header.id in SeenIds(front) then [] else [last.header])
  }

  /** The persons of one period's rows, in row order. */
  function PeopleOf(rows: seq<JoinedRow>, id: Id): seq<PersonRef> {
    if rows == [] then []
    else
      var front, last := rows[..|rows| - 1], rows[|rows| - 1];
      PeopleOf(front, id) + (if last.header.id == id then [last.person] else [])
  }

  /** One period per id, with exactly its own rows' persons. */
  function Grouped(rows: seq<JoinedRow>): seq<Period> {
    var hs := FirstHeaders(rows);
    seq(|hs|, i requires 0 <= i < |hs| => Period(hs[i], PeopleOf(rows, hs[i].id)))
  }

  // ----- one more row -----

  lemma SplitLast(rows: seq<JoinedRow>, r: JoinedRow)
    ensures (rows + [r])[..|rows|] == rows && (rows + [r])[|rows|] == r
    ensures SeenIds(rows + [r]) == SeenIds(rows) + {r.header.id}
  {
  }

  /** An id has at most one header, and has one exactly when it occurs. */
  lemma {:induction false} HeaderPlace(rows: seq<JoinedRow>, id: Id) returns (i: nat)
    ensures id in SeenIds(rows) ==> i < |FirstHeaders(rows)| && FirstHeaders(rows)[i].id == id
    ensures forall j :: 0 <= j < |FirstHeaders(rows)| && FirstHeaders(rows)[j].id == id ==>
      id in SeenIds(rows) && j == i
  {
    i := 0;
    if rows != [] {
      var front, last := rows[..|rows| - 1], rows[|rows| - 1];
      assert rows == front + [last];
      SplitLast(front, last);
      i := HeaderPlace(front, id);
      if id == last.header.id && id !in SeenIds(front) {
        i := |FirstHeaders(front)|;
      }
    }
  }

  lemma {:induction false} UnseenHasNoPeople(rows: seq<JoinedRow>, id: Id)
    requires id !in SeenIds(rows)
    ensures PeopleOf(rows, id) == []
  {
    if rows != [] {
      var front, last := rows[..|rows| - 1], rows[|rows| - 1];
      assert rows == front + [last];
      SplitLast(front, last);
      UnseenHasNoPeople(front, id);
    }
  }

  function WithPerson(p: Period, person: PersonRef): Period {
    Period(p.header, p.people + [person])
  }

  lemma StepOfSeen(rows: seq<JoinedRow>, r: JoinedRow, i: nat)
    requires i < |FirstHeaders(rows)| && FirstHeaders(rows)[i].id == r.header.id
    ensures Grouped(rows + [r]) == Grouped(rows)[i := WithPerson(Grouped(rows)[i], r.person)]
  {
    SplitLast(rows, r);
    var k := HeaderPlace(rows, r.header.id);
    var ps, next := Grouped(rows), Grouped(rows + [r]);
    assert FirstHeaders(rows + [r]) == FirstHeaders(rows);
    forall j | 0 <= j < |ps|
      ensures next[j] == ps[i := WithPerson(ps[i], r.person)][j]
    {
    }
  }

  lemma StepOfNew(rows: seq<JoinedRow>, r: JoinedRow)
    requires r.header.id !in SeenIds(rows)
    ensures Grouped(rows + [r]) == Grouped(rows) + [Period(r.header, [r.person])]
  {
    SplitLast(rows, r);
    var k := HeaderPlace(rows, r.header.id);
    UnseenHasNoPeople(rows, r.header.id);
    var ps, next := Grouped(rows), Grouped(rows + [r]);
    assert FirstHeaders(rows + [r]) == FirstHeaders(rows) + [r.header];
    assert next[|ps|].header == r.header && next[|ps|].people == [r.person];
    forall j | 0 <= j < |ps|
      ensures next[j] == ps[j]
    {
    }
    assert next == ps + [Period(r.header, [r.person])];
  }

  // ----- the loop -----

  /** The index maps each id seen so far to its period's place. */
  ghost predicate Indexes(index: map<Id, nat>, rows: seq<JoinedRow>) {
    && index.Keys == SeenIds(rows)
    && forall id :: id in index ==> index[id] < |FirstHeaders(rows)| && FirstHeaders(rows)[index[id]].id == id
  }

  lemma IndexStep(index: map<Id, nat>, rows: seq<JoinedRow>, r: JoinedRow)
    requires Indexes(index, rows)
    ensures r.header.id in index ==> Indexes(index, rows + [r])
    ensures r.header.id !in index ==> Indexes(index[r.header.id := |FirstHeaders(rows)|], rows + [r])
  {
    SplitLast(rows, r);
  }

  /** `ownerships_from_rows`, `building_owners_from_rows` */
  method PeriodsFromRows(rows: seq<JoinedRow>) returns (periods: seq<Period>)
    ensures periods == Grouped(rows)
  {
    hide FirstHeaders, PeopleOf, SeenIds;
    periods := [];
    var index: map<Id, nat> := map[];
    EmptyGrouping();
    for k := 0 to |rows|
      invariant periods == Grouped(rows[..k])
      invariant Indexes(index, rows[..k])
    {
      var row := rows[k];
      var id := row.header.id;
      assert rows[..k + 1] == rows[..k] + [row];
      IndexStep(index, rows[..k], row);
      if id in index {
        var i := index[id];
        StepOfSeen(rows[..k], row, i);
        periods := periods[i := Period(periods[i].header, periods[i].people + [row.person])];
      } else {
        StepOfNew(rows[..k], row);
        index := index[id := |periods|];
        periods := periods + [Period(row.header, [row.person])];
      }
    }
    assert rows[..|rows|] == rows;
  }

  lemma EmptyGrouping()
    ensures FirstHeaders([]) == [] && Grouped([]) == [] && SeenIds([]) == {}
  {
  }

  // ----- nothing is lost or duplicated -----

  function Persons(rows: seq<JoinedRow>): seq<PersonRef> {
    seq(|rows|, i requires 0 <= i < |rows| => rows[i].person)
  }

  function AllPeople(periods: seq<Period>): seq<PersonRef> {
    if periods == [] then [] else AllPeople(periods[..|periods| - 1]) + periods[|periods| - 1].people
  }

  lemma {:induction false} OneMorePerson(ps: seq<Period>, i: nat, p: PersonRef)
    requires i < |ps|
    ensures multiset(AllPeople(ps[i := WithPerson(ps[i], p)])) == multiset(AllPeople(ps)) + multiset{p}
  {
    var qs := ps[i := WithPerson(ps[i], p)];
    var n := |ps| - 1;
    if i == n {
      assert qs[..n] == ps[..n];
      assert AllPeople(qs) == AllPeople(ps[..n]) + (ps[n].people + [p]);
      assert AllPeople(qs) == AllPeople(ps) + [p];
    } else {
      OneMorePerson(ps[..n], i, p);
      assert qs[..n] == ps[..n][i := WithPerson(ps[i], p)];
      assert AllPeople(qs) == AllPeople(qs[..n]) + ps[n].people;
    }
  }

  lemma AppendPeriod(ps: seq<Period>, p: Period)
    ensures AllPeople(ps + [p]) == AllPeople(ps) + p.people
  {
    assert (ps + [p])[..|ps|] == ps;
  }

  /** The periods hold exactly the persons of the rows, each as often as it occurs. */
  lemma {:induction false} GroupingConserves(rows: seq<JoinedRow>)
    ensures multiset(AllPeople(Grouped(rows))) == multiset(Persons(rows))
  {
    hide FirstHeaders, PeopleOf, Grouped, AllPeople;
    if rows == [] {
      EmptyGrouping();
      NoPeople();
    } else {
      var front, last := rows[..|rows| - 1], rows[|rows| - 1];
      assert rows == front + [last];
      GroupingConserves(front);
      assert Persons(rows) == Persons(front) + [last.person];
      if last.header.id in SeenIds(front) {
        var i := HeaderPlace(front, last.header.id);
        StepOfSeen(front, last, i);
        SameLength(front);
        OneMorePerson(Grouped(front), i, last.person);
      } else {
        StepOfNew(front, last);
        AppendPeriod(Grouped(front), Period(last.header, [last.person]));
      }
    }
  }

  lemma NoPeople()
    ensures AllPeople([]) == []
  {
  }

  lemma SameLength(rows: seq<JoinedRow>)
    ensures |Grouped(rows)| == |FirstHeaders(rows)|
    ensures forall i :: 0 <= i < |Grouped(rows)| ==> Grouped(rows)[i].header == FirstHeaders(rows)[i]
  {
  }

  /** Rows of one period are adjacent, as ORDER BY start, id leaves them. */
  ghost predicate Adjacent(rows: seq<JoinedRow>) {
    forall i, j, k :: 0 <= i < j < k < |rows| && rows[i].header.id == rows[k].header.id ==>
      rows[j].header.id == rows[i].header.id
  }

  /** In query order a row whose id was seen before continues the period of the row before it. */
  lemma {:induction false} LastHeader(rows: seq<JoinedRow>)
    requires Adjacent(rows) && rows != []
    ensures FirstHeaders(rows) != []
    ensures FirstHeaders(rows)[|FirstHeaders(rows)| - 1].id == rows[|rows| - 1].header.id
  {
    var n := |rows| - 1;
    var front, last := rows[..n], rows[n];
    if last.header.id in SeenIds(front) {
      RepeatedIdIsAdjacent(rows);
      LastHeader(front);
    }
  }

  lemma RepeatedIdIsAdjacent(rows: seq<JoinedRow>)
    requires Adjacent(rows) && rows != [] && rows[|rows| - 1].header.id in SeenIds(rows[..|rows| - 1])
    ensures |rows| > 1 && rows[|rows| - 2].header.id == rows[|rows| - 1].header.id
    ensures Adjacent(rows[..|rows| - 1])
  {
    var n := |rows| - 1;
    var front := rows[..n];
    var r :| r in front && r.header.id == rows[n].header.id;
    var k :| 0 <= k < n && front[k] == r;
    assert rows[k].header.id == rows[n].header.id;
    assert k == n - 1 || rows[n - 1].header.id == rows[k].header.id;
  }

  /** Grouping rows in query order only inserts the period boundaries: read in sequence, the periods list
      the rows' persons in row order. */
  lemma {:induction false} AdjacentRowsKeepOrder(rows: seq<JoinedRow>)
    requires Adjacent(rows)
    ensures AllPeople(Grouped(rows)) == Persons(rows)
  {
    hide FirstHeaders, PeopleOf, Grouped, AllPeople;
    if rows == [] {
      EmptyGrouping();
      NoPeople();
    } else {
      var n := |rows| - 1;
      var front, last := rows[..n], rows[n];
      assert rows == front + [last];
      AdjacentRowsKeepOrder(front);
      assert Persons(rows) == Persons(front) + [last.person];
      if last.header.id in SeenIds(front) {
        ContinuesLastPeriod(front, last);
      } else {
        StepOfNew(front, last);
        AppendPeriod(Grouped(front), Period(last.header, [last.person]));
      }
    }
  }

  lemma ContinuesLastPeriod(front: seq<JoinedRow>, last: JoinedRow)
    requires Adjacent(front + [last]) && last.header.id in SeenIds(front)
    ensures AllPeople(Grouped(front + [last])) == AllPeople(Grouped(front)) + [last.person]
  {
    hide FirstHeaders, PeopleOf, Grouped;
    SplitLast(front, last);
    RepeatedIdIsAdjacent(front + [last]);
    LastHeader(front);
    SameLength(front);
    var ps := Grouped(front);
    var i := |ps| - 1;
    StepOfSeen(front, last, i);
    assert ps == ps[..i] + [ps[i]];
    assert ps[i := WithPerson(ps[i], last.person)] == ps[..i] + [WithPerson(ps[i], last.person)];
    AppendPeriod(ps[..i], ps[i]);
    AppendPeriod(ps[..i], WithPerson(ps[i], last.person));
  }
}
