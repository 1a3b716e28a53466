/**
 What the persons behind the periods have to satisfy: the foreign keys, at least
 one person for each period, and what every kind of transaction leaves of it.
 */
module Attendance {
  import opened Wrappers
  import opened Calendar
  import opened Periods
  import opened Apartments
  import opened Registry
  import opened Tiling
  import opened Invariants
  import opened People
  import D = Database

  /** The rows of the three period tables. */
  function PeriodsOf(s: State): set<PeriodRef> {
    (set id | id in s.ownerships :: PeriodRef(Ownerships, id)) +
    (set id | id in s.buildingOwners :: PeriodRef(BuildingOwners, id)) +
    (set id | id in s.tenancies :: PeriodRef(Tenancies, id))
  }

  lemma PeriodsOfMeans(s: State)
    ensures forall k, id :: PeriodRef(k, id) in PeriodsOf(s) <==> id in TableOf(s, k)
  {
  }

  datatype Contents = Contents(state: State, people: map<Id, Person>, links: Links, periods: set<PeriodRef>,
                               administrators: map<Id, Administrator>)

  /** The foreign keys to persons and periods, and the rule that each period has at least one person. */
  ghost predicate Attended(c: Contents) {
    && (forall l :: l in c.links ==> l.0 in c.periods && l.1 in c.people)
    && (forall q :: q in c.periods ==> HasPeople(c.links, q))
    && (forall a :: a in c.administrators ==> c.administrators[a].person in c.people)
  }

  ghost predicate Consistent(c: Contents) {
    && Sound(c.state) && UniqueEmails(c.people) && c.periods == PeriodsOf(c.state) && Attended(c)
    && Housed(c)
  }

  /** The cleanup's promise: no person without any reference. */
  ghost predicate AllReferenced(c: Contents) {
    forall p :: p in c.people ==> Linked(c.links, p) || p in Holders(c.administrators)
  }

  // ----- what a submission of persons leaves behind -----

  /** No two of the submitted addresses are the same. */
  predicate DistinctAddresses(submission: seq<NewPerson>) {
    forall i, j | 0 <= i < j < |submission| ::
      Lower(RustTrim(submission[i].email)) != Lower(RustTrim(submission[j].email))
  }

  /** But for white space at the ends and the case of ASCII letters. */
  lemma DistinctAddressesIff(submission: seq<NewPerson>)
    ensures DistinctAddresses(submission) <==> forall i, j :: 0 <= i < j < |submission| ==>
      !SameText(RustTrim(submission[i].email), RustTrim(submission[j].email))
  {
    hide Lower, RustTrim, SameText;
    forall i, j | 0 <= i < j < |submission|
      ensures Lower(RustTrim(submission[i].email)) == Lower(RustTrim(submission[j].email)) <==>
        SameText(RustTrim(submission[i].email), RustTrim(submission[j].email))
    {
      LowerIff(RustTrim(submission[i].email), RustTrim(submission[j].email));
    }
  }

  predicate FreshTokens(tokens: seq<Id>, submission: seq<NewPerson>, people: map<Id, Person>) {
    && |tokens| == |submission|
    && (forall i | 0 <= i < |tokens| :: tokens[i] !in people)
    && forall i, j | 0 <= i < j < |tokens| :: tokens[i] != tokens[j]
  }

  /** The i-th submitted person, with the submitted data, at position i of the period; nothing else changed. */
  ghost predicate Recorded(before: Contents, after: Contents, period: PeriodRef, submission: seq<NewPerson>,
                           ids: seq<Id>) {
    && |ids| == |submission|
    && SameElsewhere(before.links, after.links, period)
    && (forall p :: (period, p) in after.links <==> p in ids)
    && (forall i :: 0 <= i < |ids| ==> (period, ids[i]) in after.links && after.links[(period, ids[i])] == i)
    && (forall i :: 0 <= i < |ids| ==> ids[i] in after.people && Matches(after.people[ids[i]], submission[i]))
    && (forall p :: p in ids ==> LastSubmitted(after.people, ids, submission, p))
    && (forall p :: p in after.people && p !in ids ==> p in before.people && after.people[p] == before.people[p])
    && (forall p :: p in before.people ==> p in after.people && after.people[p].email == before.people[p].email)
    && after.administrators == before.administrators
  }

  lemma SameAddressSamePerson(people: map<Id, Person>, ids: seq<Id>, submission: seq<NewPerson>)
    requires UniqueEmails(people) && |ids| == |submission|
    requires forall i :: 0 <= i < |ids| ==> ids[i] in people && Matches(people[ids[i]], submission[i])
    ensures NoDuplicates(ids) <==> DistinctAddresses(submission)
  {
    hide Lower, RustTrim, SqlTrim;
    forall i, j | 0 <= i < j < |ids|
      ensures ids[i] == ids[j] <==> Lower(RustTrim(submission[i].email)) == Lower(RustTrim(submission[j].email))
    {
      assert Matches(people[ids[i]], submission[i]) && Matches(people[ids[j]], submission[j]);
    }
  }

  lemma UnknownPeriodHasNoLinks(c: Contents, period: PeriodRef, p: Id)
    requires Attended(c) && period !in c.periods
    ensures (period, p) !in c.links
  {
    assert (period, p).0 == period;
  }

  /** Being recorded is about the persons and links only. */
  lemma StillRecorded(before: Contents, then_: Contents, after: Contents, period: PeriodRef,
                      submission: seq<NewPerson>, ids: seq<Id>)
    requires Recorded(before, then_, period, submission, ids)
    requires after.people == then_.people && after.links == then_.links && after.administrators == then_.administrators
    ensures Recorded(before, after, period, submission, ids)
  {
  }

  /** New links of one period leave every other period its persons. */
  lemma LinksOfOnePeriod(before: Contents, after: Contents, period: PeriodRef, p: Id)
    requires Attended(before) && SameElsewhere(before.links, after.links, period)
    requires (period, p) in after.links && after.periods == before.periods + {period}
    ensures forall q :: q in after.periods ==> HasPeople(after.links, q)
    ensures forall l :: l in after.links ==> l.0 in after.periods && (l.0 == period || l.1 in before.people)
  {
    forall q | q in after.periods
      ensures HasPeople(after.links, q)
    {
      if q == period {
        assert (period, p).0 == period;
      } else {
        assert HasPeople(before.links, q);
        var l :| l in before.links && l.0 == q;
        assert l == (q, l.1) && l in after.links;
      }
    }
    forall l | l in after.links
      ensures l.0 in after.periods && (l.0 == period || l.1 in before.people)
    {
      assert l == (l.0, l.1);
      assert l.0 != period ==> l in before.links;
    }
  }

  /** A recorded submission keeps the foreign keys and gives the new period its persons. */
  lemma RecordedIsAttended(before: Contents, after: Contents, period: PeriodRef, submission: seq<NewPerson>,
                           ids: seq<Id>)
    requires Attended(before) && Recorded(before, after, period, submission, ids)
    requires after.periods == before.periods + {period} && submission != []
    ensures Attended(after)
  {
    hide LastSubmitted, Matches, HasPeople, SameElsewhere;
    assert ids[0] in ids;
    LinksOfOnePeriod(before, after, period, ids[0]);
    forall l | l in after.links && l.0 == period
      ensures l.1 in ids
    {
      assert l == (period, l.1);
    }
  }

  /** Exactly the submitted persons, each at the last index of its submission; whoever lost the last reference is
      gone. */
  ghost predicate Replaced(before: Contents, after: Contents, period: PeriodRef, submission: seq<NewPerson>,
                           ids: seq<Id>) {
    && |ids| == |submission|
    && SameElsewhere(before.links, after.links, period)
    && (forall p :: (period, p) in after.links <==> p in ids)
    && (forall p :: p in ids ==> IsLastIndex(ids, p, after.links[(period, p)]))
    && (forall i :: 0 <= i < |ids| ==> ids[i] in after.people && Matches(after.people[ids[i]], submission[i]))
    && (forall p :: p in ids ==> LastSubmitted(after.people, ids, submission, p))
    && (forall p :: p in after.people && p !in ids ==> p in before.people && after.people[p] == before.people[p])
    && (forall p :: p in before.people ==>
          (p !in after.people <==>
             Linked(before.links, p) && !Linked(after.links, p) && p !in Holders(before.administrators)))
    && after.administrators == before.administrators
  }

  lemma ReplacedIsAttended(before: Contents, after: Contents, period: PeriodRef, submission: seq<NewPerson>,
                           ids: seq<Id>)
    requires Attended(before) && Replaced(before, after, period, submission, ids)
    requires after.periods == before.periods && submission != [] && period in before.periods
    ensures Attended(after)
  {
    hide LastSubmitted, Matches, IsLastIndex, HasPeople, SameElsewhere;
    assert ids[0] in ids;
    LinksOfOnePeriod(before, after, period, ids[0]);
    forall l | l in after.links
      ensures Linked(after.links, l.1) && (l.0 == period ==> l.1 in ids)
    {
      assert l == (l.0, l.1);
    }
  }

  /** Deleted periods are gone with their links, deleted buildings with their administrators, and whoever lost the last
      reference thereby is gone as well. */
  ghost predicate Dropped(before: Contents, after: Contents) {
    && after.periods == PeriodsOf(after.state)
    && after.links == (map l | l in before.links && l.0 in after.periods :: before.links[l])
    && after.administrators ==
       (map a | a in before.administrators && before.administrators[a].building in after.state.buildings ::
          before.administrators[a])
    && Cleaned(before.people, after.people, before.links, after.links,
               Holders(before.administrators), Holders(after.administrators))
  }

  lemma DroppedIsConsistent(before: Contents, after: Contents)
    requires Consistent(before) && Dropped(before, after) && after.periods <= before.periods && Sound(after.state)
    ensures Consistent(after)
  {
    hide Sound, PeriodsOf, UniqueEmails, Attended;
    CleanedKeepsUnique(before.people, after.people, before.links, after.links,
      Holders(before.administrators), Holders(after.administrators));
    DroppedIsAttended(before, after);
  }

  lemma DroppedIsAttended(before: Contents, after: Contents)
    requires Attended(before) && Dropped(before, after) && after.periods <= before.periods
    ensures Attended(after)
  {
    hide PeriodsOf;
    forall l | l in after.links
      ensures l.0 in after.periods && l.1 in after.people
    {
      assert Linked(after.links, l.1) && l in before.links && l.1 in before.people;
    }
    forall a | a in after.administrators
      ensures after.administrators[a].person in after.people
    {
      assert after.administrators[a].person in Holders(after.administrators);
    }
    DroppedKeepsPeople(before, after);
  }

  lemma DroppedKeepsPeople(before: Contents, after: Contents)
    requires Attended(before) && Dropped(before, after) && after.periods <= before.periods
    ensures forall q :: q in after.periods ==> HasPeople(after.links, q)
  {
    hide PeriodsOf, Cleaned;
    forall q | q in after.periods
      ensures HasPeople(after.links, q)
    {
      assert HasPeople(before.links, q);
      var l :| l in before.links && l.0 == q;
      assert l in after.links;
    }
  }

  // ----- one person at a time -----

  /** The one person of the address has the submitted name, created or refreshed; nobody else changed. */
  ghost predicate Resolved1(before: Contents, after: Contents, n: NewPerson, p: Id) {
    && p in after.people && Matches(after.people[p], n) && after.people[p].name == RustTrim(n.name)
    && (n.displayName.Some? ==> after.people[p].displayName == Submitted(n.displayName.value))
    && (forall q :: q in before.people ==> q in after.people && after.people[q].email == before.people[q].email)
    && (forall q :: q in after.people && q != p ==> q in before.people && after.people[q] == before.people[q])
  }

  lemma ResolvedNow(before: Contents, after: Contents, n: NewPerson, p: Id)
    requires p in after.people && Matches(after.people[p], n)
    requires after.people.Keys == before.people.Keys + {p}
    requires forall q :: q in before.people && q != p ==> after.people[q] == before.people[q]
    requires forall q :: q in before.people ==> after.people[q].email == before.people[q].email
    requires after.people[p].name == RustTrim(n.name)
    requires n.displayName.Some? ==> after.people[p].displayName == Submitted(n.displayName.value)
    ensures Resolved1(before, after, n, p)
  {
  }

  lemma StillResolved(before: Contents, then_: Contents, after: Contents, n: NewPerson, p: Id)
    requires Resolved1(before, then_, n, p) && after.people == then_.people
    ensures Resolved1(before, after, n, p)
  {
  }

  lemma AppointmentIsAttended(before: Contents, after: Contents, a: Id, building: Id, n: NewPerson, p: Id)
    requires Attended(before) && Resolved1(before, after, n, p)
    requires after.links == before.links && after.periods == before.periods
    requires after.administrators == before.administrators[a := Administrator(building, p)]
    ensures Attended(after)
  {
    hide Matches, RustTrim, HasPeople, Submitted;
  }

  /** Not both fields are blank. */
  predicate Named(admin: NewPerson) {
    RustTrim(admin.name) != "" || RustTrim(admin.email) != ""
  }

  lemma NamedIff(admin: NewPerson)
    ensures Named(admin) <==>
      || (exists k :: 0 <= k < |admin.name| && !IsWhite(admin.name[k]))
      || (exists k :: 0 <= k < |admin.email| && !IsWhite(admin.email[k]))
  {
    hide Trim, IsWhite;
    TrimmedAway(admin.name, IsWhite);
    TrimmedAway(admin.email, IsWhite);
  }

  /** The submitted administrator, if any, has a row of its own. */
  ghost predicate Appointed(before: Contents, after: Contents, building: Id, admin: NewPerson, adminId: Id) {
    && after.state == before.state && after.links == before.links && after.periods == before.periods
    && if Named(admin) then
         && adminId in after.administrators
         && Resolved1(before, after, admin, after.administrators[adminId].person)
         && after.administrators ==
            before.administrators[adminId := Administrator(building, after.administrators[adminId].person)]
       else after == before
  }

  /** The tenancy has the submitted person; nobody was removed. */
  ghost predicate Retenanted(before: Contents, after: Contents, tenancy: Id, n: NewPerson, p: Id) {
    && Resolved1(before, after, n, p)
    && after.links == Reassigned(before.links, PeriodRef(Tenancies, tenancy), p)
    && after.periods == before.periods && after.administrators == before.administrators
  }

  lemma RetenantedNow(before: Contents, after: Contents, tenancy: Id, n: NewPerson, p: Id)
    requires Resolved1(before, after, n, p)
    requires after.links == Reassigned(before.links, PeriodRef(Tenancies, tenancy), p)
    requires after.periods == before.periods && after.administrators == before.administrators
    ensures Retenanted(before, after, tenancy, n, p)
  {
  }

  lemma StillRetenanted(before: Contents, then_: Contents, after: Contents, tenancy: Id, n: NewPerson, p: Id)
    requires Retenanted(before, then_, tenancy, n, p) && after == then_.(state := after.state)
    ensures Retenanted(before, after, tenancy, n, p)
  {
  }

  lemma RetenantedIsAttended(before: Contents, after: Contents, tenancy: Id, n: NewPerson, p: Id)
    requires Attended(before) && Retenanted(before, after, tenancy, n, p)
    requires PeriodRef(Tenancies, tenancy) in before.periods
    ensures Attended(after)
  {
    hide Matches, RustTrim, HasPeople;
    var period := PeriodRef(Tenancies, tenancy);
    assert (period, p) in after.links;
    assert SameElsewhere(before.links, after.links, period);
    LinksOfOnePeriod(before, after, period, p);
    assert after.periods == before.periods + {period};
  }

  lemma RetenantedIsConsistent(before: Contents, after: Contents, tenancy: Id, start: Day, end: Option<Day>,
                               n: NewPerson, p: Id, today: Day)
    requires Consistent(before) && Retenanted(before, after, tenancy, n, p) && UniqueEmails(after.people)
    requires PeriodRef(Tenancies, tenancy) in before.periods
    requires Exec(before.state, UpdateDates(Tenancies, tenancy, start, end), today) == Some(after.state)
    ensures Consistent(after)
  {
    hide UniqueEmails, Attended, Exec, Sound, PeriodsOf, Resolved1, Reassigned;
    RetenantedIsAttended(before, after, tenancy, n, p);
    StillHoused(before, after, UpdateDates(Tenancies, tenancy, start, end), today);
    ExecKeepsSound(before.state, UpdateDates(Tenancies, tenancy, start, end), today);
    CommittedCreate(before.state, UpdateDates(Tenancies, tenancy, start, end), today);
  }

  // ----- which periods a transaction leaves -----

  lemma InsertAddsPeriod(s: State, k: Kind, id: Id, n: Row, today: Day)
    requires InsertPeriod(s, k, id, n, today).Some?
    ensures PeriodsOf(InsertPeriod(s, k, id, n, today).value) ==
      PeriodsOf(s) + {PeriodRef(k, id)}
  {
    hide Accepts, ExclusionFires;
  }

  lemma UpdateKeepsPeriods(s: State, k: Kind, id: Id, start: Day, end: Option<Day>)
    requires UpdatePeriod(s, k, id, start, end).Some?
    ensures PeriodsOf(UpdatePeriod(s, k, id, start, end).value) == PeriodsOf(s)
  {
    hide Accepts;
  }

  lemma PeriodsOfTables(s: State, u: State)
    requires u.ownerships == s.ownerships && u.buildingOwners == s.buildingOwners && u.tenancies == s.tenancies
    ensures PeriodsOf(u) == PeriodsOf(s)
  {
  }

  /** The periods that a committed transaction creates. */
  function NewPeriods(op: Op): set<PeriodRef> {
    match op
    case CreateBuilding(_, owner) => if owner.Some? then {PeriodRef(BuildingOwners, owner.value.0)} else {}
    case CreateApartment(_, _, ownership, _, _) => {PeriodRef(Ownerships, ownership)}
    case CreatePeriod(k, id, _, _, _) => {PeriodRef(k, id)}
    case CreatePeriodClosingPrevious(k, id, _, _, _, _, _) => {PeriodRef(k, id)}
    case _ => {}
  }

  lemma CommittedCreate(s: State, op: Op, today: Day)
    requires Exec(s, op, today).Some? && !op.DeletePeriodOp? && !op.DeleteApartment? && !op.DeleteBuilding?
    ensures PeriodsOf(Exec(s, op, today).value) == PeriodsOf(s) + NewPeriods(op)
  {
    hide InsertPeriod, UpdatePeriod, PeriodsOf, ForeignKeys;
    match op
    case CreateBuilding(id, owner) =>
      var s1 := s.(buildings := s.buildings + {id});
      PeriodsOfTables(s, s1);
      if owner.Some? {
        InsertAddsPeriod(s1, BuildingOwners, owner.value.0, Row(id, owner.value.1, owner.value.2), today);
      }
    case CreateApartment(id, apartment, ownership, start, end) =>
      InsertAddsPeriod(s, Ownerships, ownership, Row(id, start, end), today);
      var s1 := InsertPeriod(s, Ownerships, ownership, Row(id, start, end), today).value;
      PeriodsOfTables(s1, Exec(s, op, today).value);
    case CreateApartmentBuildingOwned(id, apartment) =>
      PeriodsOfTables(s, Exec(s, op, today).value);
    case CreatePeriod(k, id, parent, start, end) =>
      InsertAddsPeriod(s, k, id, Row(parent, start, end), today);
    case CreatePeriodClosingPrevious(k, id, parent, previous, previousEnd, start, end) =>
      var first := if previous in TableOf(s, k) then TableOf(s, k)[previous].start else start;
      UpdateKeepsPeriods(s, k, previous, first, Some(previousEnd));
      InsertAddsPeriod(UpdatePeriod(s, k, previous, first, Some(previousEnd)).value, k, id, Row(parent, start, end),
        today);
    case UpdateDates(k, id, start, end) =>
      UpdateKeepsPeriods(s, k, id, start, end);
  }

  lemma CommittedDelete(s: State, op: Op, today: Day)
    requires Exec(s, op, today).Some? && (op.DeletePeriodOp? || op.DeleteApartment? || op.DeleteBuilding?)
    ensures PeriodsOf(Exec(s, op, today).value) <= PeriodsOf(s)
  {
    hide DeleteGuardFires, ForeignKeys;
  }

  lemma CommittedBuildings(s: State, op: Op, today: Day)
    requires Exec(s, op, today).Some?
    ensures op.CreateBuilding? ==> Exec(s, op, today).value.buildings == s.buildings + {op.id}
    ensures op.DeleteBuilding? ==> Exec(s, op, today).value.buildings == s.buildings - {op.id}
    ensures !op.CreateBuilding? && !op.DeleteBuilding? ==> Exec(s, op, today).value.buildings == s.buildings
  {
    hide Accepts, ExclusionFires, ForeignKeys, DeleteGuardFires;
  }

  /** A committed creation together with its recorded persons leaves everything consistent. */
  lemma CreationIsWhole(before: Contents, after: Contents, op: Op, today: Day, period: PeriodRef,
                        submission: seq<NewPerson>, ids: seq<Id>)
    requires Sound(before.state) && before.periods == PeriodsOf(before.state) && Attended(before)
    requires Exec(before.state, op, today) == Some(after.state)
    requires NewPeriods(op) == {period} && after.periods == before.periods + {period}
    requires UniqueEmails(after.people) && submission != []
    requires Recorded(before, after, period, submission, ids) && Housed(after)
    ensures Consistent(after)
  {
    hide Recorded, UniqueEmails, Attended, Exec, Sound, PeriodsOf;
    RecordedIsAttended(before, after, period, submission, ids);
    ExecKeepsSound(before.state, op, today);
    CommittedCreate(before.state, op, today);
  }

  lemma CreationIsConsistent(before: Contents, after: Contents, op: Op, today: Day, period: PeriodRef,
                             submission: seq<NewPerson>, ids: seq<Id>)
    requires Consistent(before) && Exec(before.state, op, today) == Some(after.state) && !op.DeleteBuilding?
    requires NewPeriods(op) == {period} && after.periods == before.periods + {period}
    requires UniqueEmails(after.people) && submission != []
    requires Recorded(before, after, period, submission, ids)
    ensures Consistent(after)
  {
    hide Recorded, UniqueEmails, Attended, Exec, Sound, PeriodsOf;
    RecordedAdministrators(before, after, period, submission, ids);
    StillHoused(before, after, op, today);
    CreationIsWhole(before, after, op, today, period, submission, ids);
  }

  /** The foreign key of the administrators to their buildings. */
  ghost predicate Housed(c: Contents) {
    forall a :: a in c.administrators ==> c.administrators[a].building in c.state.buildings
  }

  lemma StillHoused(before: Contents, after: Contents, op: Op, today: Day)
    requires Consistent(before) && Exec(before.state, op, today) == Some(after.state) && !op.DeleteBuilding?
    requires after.administrators == before.administrators
    ensures Housed(after)
  {
    hide Exec, Sound, UniqueEmails, Attended, PeriodsOf;
    CommittedBuildings(before.state, op, today);
  }

  lemma RecordedAdministrators(before: Contents, after: Contents, period: PeriodRef, submission: seq<NewPerson>,
                               ids: seq<Id>)
    requires Recorded(before, after, period, submission, ids)
    ensures after.administrators == before.administrators
  {
  }

  lemma ConsistentMeans(c: Contents)
    requires Consistent(c)
    ensures Sound(c.state) && UniqueEmails(c.people) && c.periods == PeriodsOf(c.state) && Attended(c) && Housed(c)
  {
  }

  lemma UpdateIsConsistent(before: Contents, after: Contents, k: Kind, id: Id, start: Day, end: Option<Day>, today: Day,
                           submission: seq<NewPerson>, ids: seq<Id>)
    requires Consistent(before) && Exec(before.state, UpdateDates(k, id, start, end), today) == Some(after.state)
    requires after.periods == before.periods && PeriodRef(k, id) in before.periods
    requires UniqueEmails(after.people) && submission != []
    requires Replaced(before, after, PeriodRef(k, id), submission, ids)
    ensures Consistent(after)
  {
    hide Replaced, UniqueEmails, Attended, Exec, Sound, PeriodsOf;
    ReplacedIsAttended(before, after, PeriodRef(k, id), submission, ids);
    assert after.administrators == before.administrators by {
      ReplacedAdministrators(before, after, PeriodRef(k, id), submission, ids);
    }
    StillHoused(before, after, UpdateDates(k, id, start, end), today);
    ExecKeepsSound(before.state, UpdateDates(k, id, start, end), today);
    CommittedCreate(before.state, UpdateDates(k, id, start, end), today);
  }

  lemma ReplacedAdministrators(before: Contents, after: Contents, period: PeriodRef, submission: seq<NewPerson>,
                               ids: seq<Id>)
    requires Replaced(before, after, period, submission, ids)
    ensures after.administrators == before.administrators
  {
  }

  lemma DeleteIsConsistent(before: Contents, after: Contents, op: Op, today: Day)
    requires Consistent(before) && Exec(before.state, op, today) == Some(after.state)
    requires op.DeletePeriodOp? || op.DeleteApartment? || op.DeleteBuilding?
    requires Dropped(before, after)
    ensures Consistent(after)
  {
    hide Exec, Sound, PeriodsOf, Cleaned, Attended, UniqueEmails;
    ExecKeepsSound(before.state, op, today);
    CommittedDelete(before.state, op, today);
    DroppedIsConsistent(before, after);
  }

  /** A missing id: the dates change nothing. */
  lemma UpdateOfMissing(s: State, k: Kind, id: Id, start: Day, end: Option<Day>, today: Day)
    requires id !in TableOf(s, k) && ForeignKeys(s)
    ensures Exec(s, UpdateDates(k, id, start, end), today) == Some(s)
  {
  }

  lemma ChainIsSound(c: Contents, apartment: Id)
    requires Consistent(c)
    ensures AllDisjoint(c.state.ownerships)
    ensures Dated(Of(c.state.ownerships, apartment)) && Disjoint(Of(c.state.ownerships, apartment))
  {
  }

  lemma CoveredStartIsRefused(s: State, id: Id, n: Row, previous: Id, today: Day)
    requires AllDisjoint(s.ownerships)
    requires previous in Of(s.ownerships, n.parent) && Covers(Of(s.ownerships, n.parent)[previous], n.start)
    ensures Exec(s, Op.CreatePeriod(Ownerships, id, n.parent, n.start, n.end), today).None?
  {
    hide ForeignKeys, ExclusionFires;
    var c := Of(s.ownerships, n.parent);
    if WellDated(n) {
      OverlapIsSharedDay(n, c[previous]);
      assert Covers(n, n.start);
      assert OverlapsSome(c, n);
    }
    assert Row(n.parent, n.start, n.end) == n;
  }

  lemma GapIsRefused(s: State, id: Id, n: Row, today: Day)
    requires GapBefore(Of(s.ownerships, n.parent), n)
    ensures Exec(s, Op.CreatePeriod(Ownerships, id, n.parent, n.start, n.end), today).None?
  {
    assert Row(n.parent, n.start, n.end) == n;
  }

  lemma CreatedApartment(s: State, id: Id, a: Apartment, ownership: Id, start: Day, end: Option<Day>, today: Day)
    requires Exec(s, Op.CreateApartment(id, a, ownership, start, end), today).Some?
    requires a.position == D.EndPosition(s.apartments, a.building)
    ensures var u := Exec(s, Op.CreateApartment(id, a, ownership, start, end), today).value.apartments;
      && id in u
      && forall b :: b in IdsOf(s.apartments, a.building) ==> b in u && DisplayedBefore(u, b, id)
  {
    hide Accepts, ExclusionFires, ForeignKeys;
  }

  /** A committed transaction that creates or deletes no period leaves the persons attending. */
  lemma SamePeopleIsConsistent(before: Contents, after: Contents, op: Op, today: Day)
    requires Consistent(before) && Exec(before.state, op, today) == Some(after.state)
    requires !op.DeletePeriodOp? && !op.DeleteApartment? && !op.DeleteBuilding? && NewPeriods(op) == {}
    requires after == before.(state := after.state)
    ensures Consistent(after)
  {
    hide Exec, Sound, PeriodsOf, UniqueEmails, Attended;
    ExecKeepsSound(before.state, op, today);
    CommittedCreate(before.state, op, today);
    assert Attended(after) by { SameAttendance(before, after); }
    StillHoused(before, after, op, today);
  }

  lemma SplitTokens(token: Id, tokens: seq<Id>, admin: NewPerson, submission: seq<NewPerson>, people: map<Id, Person>)
    requires FreshTokens([token] + tokens, [admin] + submission, people)
    ensures token !in people
    ensures forall more: map<Id, Person> :: more.Keys <= people.Keys + {token} ==> FreshTokens(tokens, submission, more)
  {
    var all := [token] + tokens;
    assert all[0] == token && forall i :: 0 <= i < |tokens| ==> all[i + 1] == tokens[i];
  }

  lemma AppointedIsHoused(before: Contents, appointed: Contents, after: Contents, building: Id, admin: NewPerson,
                          adminId: Id, op: Op, today: Day)
    requires Consistent(before) && Appointed(before, appointed, building, admin, adminId)
    requires op.CreateBuilding? && op.id == building && Exec(before.state, op, today) == Some(after.state)
    requires after.administrators == appointed.administrators
    ensures Housed(after)
  {
    hide Exec, Sound, UniqueEmails, Attended, PeriodsOf, Resolved1, RustTrim;
    CommittedBuildings(before.state, op, today);
  }

  lemma BuildingIsConsistent(before: Contents, appointed: Contents, after: Contents, admin: NewPerson, adminId: Id,
                             op: Op, today: Day)
    requires Consistent(before) && op.CreateBuilding? && op.owner.None?
    requires Appointed(before, appointed, op.id, admin, adminId)
    requires UniqueEmails(appointed.people) && Attended(appointed)
    requires Exec(before.state, op, today) == Some(after.state) && after == appointed.(state := after.state)
    ensures Consistent(after)
  {
    hide Exec, Sound, UniqueEmails, Attended, PeriodsOf, Resolved1, RustTrim;
    AppointedIsHoused(before, appointed, after, op.id, admin, adminId, op, today);
    ExecKeepsSound(before.state, op, today);
    CommittedCreate(before.state, op, today);
    assert Attended(after) by { SameAttendance(appointed, after); }
  }

  lemma KeysHold(c: Contents)
    requires Consistent(c)
    ensures ForeignKeys(c.state)
  {
  }

  lemma SameAttendance(before: Contents, after: Contents)
    requires Attended(before) && after == before.(state := after.state)
    ensures Attended(after)
  {
  }

  // ----- an edit and its commit -----

  lemma KnownPeriodHasPeople(c: Contents, period: PeriodRef)
    requires Consistent(c)
    ensures UniqueEmails(c.people)
    ensures period in c.periods <==> HasPeople(c.links, period)
    ensures c.periods == PeriodsOf(c.state) && ForeignKeys(c.state)
  {
    if l :| l in c.links && l.0 == period {
      assert l.0 in c.periods;
    }
  }

  lemma StillReplaced(before: Contents, then_: Contents, after: Contents, period: PeriodRef,
                      submission: seq<NewPerson>, ids: seq<Id>)
    requires Replaced(before, then_, period, submission, ids)
    requires after.people == then_.people && after.links == then_.links && after.administrators == then_.administrators
    ensures Replaced(before, after, period, submission, ids)
  {
  }

  lemma ReplacedNow(before: Contents, after: Contents, period: PeriodRef, submission: seq<NewPerson>, ids: seq<Id>)
    requires |ids| == |submission| && SameElsewhere(before.links, after.links, period)
    requires forall i :: 0 <= i < |ids| ==> ids[i] in after.people && Matches(after.people[ids[i]], submission[i])
    requires forall p :: (period, p) in after.links <==> p in ids
    requires forall p :: p in ids ==> IsLastIndex(ids, p, after.links[(period, p)])
    requires forall p :: p in ids ==> LastSubmitted(after.people, ids, submission, p)
    requires forall p :: p in after.people && p !in ids ==> p in before.people && after.people[p] == before.people[p]
    requires forall p :: p in before.people ==>
      (p !in after.people <==>
         Linked(before.links, p) && !Linked(after.links, p) && p !in Holders(before.administrators))
    requires after.administrators == before.administrators
    ensures Replaced(before, after, period, submission, ids)
  {
  }

  /** At the commit every link needs its period: the submission to an unknown period has none, and without one nothing
      has changed. */
  lemma LinksHaveTheirPeriods(before: Contents, after: Contents, period: PeriodRef, submission: seq<NewPerson>,
                              ids: seq<Id>)
    requires Consistent(before) && Replaced(before, after, period, submission, ids) && after.periods == before.periods
    ensures (forall l :: l in after.links ==> l.0 in after.periods) <==> submission == [] || period in before.periods
    ensures submission == [] && period !in before.periods ==>
      after.people == before.people && after.links == before.links
  {
    hide Sound, UniqueEmails, PeriodsOf, LastSubmitted, Matches, IsLastIndex, Linked, HasPeople;
    if submission != [] {
      assert ids[0] in ids && (period, ids[0]) in after.links;
      assert (period, ids[0]).0 == period;
    }
    forall l | l in after.links && l.0 != period
      ensures l.0 in after.periods
    {
      assert l == (l.0, l.1) && l in before.links;
    }
    forall l | l in after.links && l.0 == period
      ensures l.1 in ids
    {
      assert l == (l.0, l.1);
    }
    if submission == [] && period !in before.periods {
      NothingReplaced(before, after, period);
    }
  }

  lemma NothingReplaced(before: Contents, after: Contents, period: PeriodRef)
    requires Attended(before) && period !in before.periods && Replaced(before, after, period, [], [])
    ensures after.people == before.people && after.links == before.links
  {
    hide LastSubmitted, Matches, IsLastIndex, HasPeople;
    forall l
      ensures l in after.links <==> l in before.links
      ensures l in before.links ==> after.links[l] == before.links[l]
    {
      assert l == (l.0, l.1);
      assert (period, l.1) !in after.links;
      assert l in before.links ==> l.0 != period;
    }
    assert after.links == before.links;
  }

  lemma EmptyIsConsistent()
    ensures Consistent(Contents(EMPTY, map[], map[], {}, map[]))
  {
    var none: Table := map[];
    forall p
      ensures Of(none, p) == map[]
    {
    }
  }
}
