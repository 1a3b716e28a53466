/**
 Whole transactions: the persons of a period and the period itself are recorded
 together or not at all, every period has at least one person, and a person goes
 with the last reference to it.
 */
module Records {
  import opened Wrappers
  import opened Calendar
  import opened Periods
  import opened Apartments
  import opened Registry
  import opened Tiling
  import opened Invariants
  import opened People
  import opened Attendance
  import D = Database
  import Coverage

  // ----- the answer of the form for a new ownership -----

  /** The answer to "shall the previous ownership end the day before?" */
  datatype Answer = NotAsked | Yes | Declined

  datatype Response =
    | Created
    | Rejected
    | PeopleRequired
    | AskToClose(previous: Id, previousEnd: Day)
    | CannotKeepPrevious(previous: Id, previousEnd: Day)
    | GapNamed(previousEnd: Day, requiredStart: Day)

  /** The transaction that ends the previous ownership on the day before the new one. */
  function ClosingOp(apartment: Id, previous: Id, id: Id, start: Day, end: Option<Day>): Op {
    Op.CreatePeriodClosingPrevious(Ownerships, id, apartment, previous, start - 1, start, end)
  }

  class Records {
    const db: D.Database
    const persons: PeopleTables

    constructor ()
      ensures Consistent(All()) && fresh(db) && fresh(persons)
    {
      db := new D.Database();
      persons := new PeopleTables();
      new;
      EmptyIsConsistent();
    }

    ghost function All(): Contents
      reads db, persons
    {
      Contents(db.View(), persons.people, persons.links, persons.periods, persons.administrators)
    }

    // ----- persons of a new period -----

    /** `insert_period_with_people`, with the trigger that the period's INSERT runs: at least one person. */
    method InsertPeople(period: PeriodRef, submission: seq<NewPerson>, tokens: seq<Id>) returns (ok: bool, ids: seq<Id>)
      requires UniqueEmails(persons.people) && Attended(All())
      requires period !in persons.periods && FreshTokens(tokens, submission, persons.people)
      modifies persons`people, persons`links
      ensures ok <==> submission != [] && DistinctAddresses(submission)
      ensures UniqueEmails(persons.people)
      ensures ok ==> Recorded(old(All()), All(), period, submission, ids)
    {
      hide UniqueEmails, Matches, LastSubmitted, DistinctAddresses, Sound;
      forall p
        ensures (period, p) !in persons.links
      {
        UnknownPeriodHasNoLinks(All(), period, p);
      }
      ids := persons.ResolvePeople(submission, tokens);
      SameAddressSamePerson(persons.people, ids, submission);
      ok := persons.InsertLinks(period, ids);
      if ok {
        ok := HasPeople(persons.links, period);
        assert ids != [] ==> (period, ids[0]) in persons.links;
      }
    }

    method Restore(people: map<Id, Person>, links: Links, administrators: map<Id, Administrator>)
      modifies persons`people, persons`links, persons`administrators
      ensures persons.people == people && persons.links == links && persons.administrators == administrators
    {
      persons.people, persons.links, persons.administrators := people, links, administrators;
    }

    // ----- transactions -----

    /**
     `create_ownership`, `create_building_owner`, `create_tenancy`: committed
     exactly when someone is submitted, nobody twice, and the database accepts the
     period. A tenancy has one person.
     */
    method CreatePeriod(k: Kind, id: Id, parent: Id, start: Day, end: Option<Day>, submission: seq<NewPerson>,
                        tokens: seq<Id>, today: Day)
      returns (ok: bool, ids: seq<Id>)
      requires Consistent(All()) && PeriodRef(k, id) !in persons.periods
      requires k == Tenancies ==> |submission| == 1
      requires FreshTokens(tokens, submission, persons.people)
      modifies db, persons
      ensures Consistent(All())
      ensures var exec := Exec(old(db.View()), Op.CreatePeriod(k, id, parent, start, end), today);
        && (ok <==> submission != [] && DistinctAddresses(submission) && exec.Some?)
        && (ok ==> db.View() == exec.value)
      ensures if ok then Recorded(old(All()), All(), PeriodRef(k, id), submission, ids) else All() == old(All())
    {
      hide Consistent, Recorded, Exec, DistinctAddresses, FreshTokens, UniqueEmails;
      var people, links, administrators := persons.people, persons.links, persons.administrators;
      ghost var before := All();
      ConsistentMeans(before);
      ok, ids := InsertPeople(PeriodRef(k, id), submission, tokens);
      ghost var linked := All();
      if ok {
        ghost var op := Op.CreatePeriod(k, id, parent, start, end);
        ok := db.CreatePeriod(k, id, parent, start, end, today);
        if ok {
          persons.periods := persons.periods + {PeriodRef(k, id)};
          StillRecorded(before, linked, All(), PeriodRef(k, id), submission, ids);
          CreationIsConsistent(before, All(), op, today, PeriodRef(k, id), submission, ids);
          return;
        }
      }
      Restore(people, links, administrators);
    }

    /** `create_ownership_closing_previous`, `create_building_owner_closing_previous`,
        `create_tenancy_closing_previous` */
    method CreatePeriodClosingPrevious(k: Kind, id: Id, parent: Id, previous: Id, previousEnd: Day, start: Day,
                                       end: Option<Day>, submission: seq<NewPerson>, tokens: seq<Id>, today: Day)
      returns (ok: bool, ids: seq<Id>)
      requires Consistent(All()) && PeriodRef(k, id) !in persons.periods
      requires k == Tenancies ==> |submission| == 1
      requires FreshTokens(tokens, submission, persons.people)
      modifies db, persons
      ensures Consistent(All())
      ensures var op := Op.CreatePeriodClosingPrevious(k, id, parent, previous, previousEnd, start, end);
        var exec := Exec(old(db.View()), op, today);
        && (ok <==> submission != [] && DistinctAddresses(submission) && exec.Some?)
        && (ok ==> db.View() == exec.value)
      ensures if ok then Recorded(old(All()), All(), PeriodRef(k, id), submission, ids) else All() == old(All())
    {
      hide Consistent, Recorded, Exec, DistinctAddresses, FreshTokens, UniqueEmails;
      var people, links, administrators := persons.people, persons.links, persons.administrators;
      ghost var before := All();
      ConsistentMeans(before);
      ok, ids := InsertPeople(PeriodRef(k, id), submission, tokens);
      ghost var linked := All();
      if ok {
        ghost var op := Op.CreatePeriodClosingPrevious(k, id, parent, previous, previousEnd, start, end);
        ok := db.CreatePeriodClosingPrevious(k, id, parent, previous, previousEnd, start, end, today);
        if ok {
          persons.periods := persons.periods + {PeriodRef(k, id)};
          StillRecorded(before, linked, All(), PeriodRef(k, id), submission, ids);
          CreationIsConsistent(before, All(), op, today, PeriodRef(k, id), submission, ids);
          return;
        }
      }
      Restore(people, links, administrators);
    }

    /** `create_apartment`: the new apartment is displayed last. */
    method CreateApartment(id: Id, building: Id, name: string, createdAt: string, ownership: Id, start: Day,
                           end: Option<Day>, submission: seq<NewPerson>, tokens: seq<Id>, today: Day)
      returns (ok: bool, ids: seq<Id>)
      requires Consistent(All()) && PeriodRef(Ownerships, ownership) !in persons.periods
      requires FreshTokens(tokens, submission, persons.people)
      modifies db, persons
      ensures Consistent(All())
      ensures var a := Apartment(building, name, D.EndPosition(old(db.apartments), building), createdAt);
        var exec := Exec(old(db.View()), Op.CreateApartment(id, a, ownership, start, end), today);
        && (ok <==> submission != [] && DistinctAddresses(submission) && exec.Some?)
        && (ok ==> db.View() == exec.value)
      ensures if ok then Recorded(old(All()), All(), PeriodRef(Ownerships, ownership), submission, ids)
              else All() == old(All())
      ensures ok ==> id in db.apartments
      ensures ok ==> forall b :: b in IdsOf(old(db.apartments), building) ==>
        b in db.apartments && DisplayedBefore(db.apartments, b, id)
    {
      hide Consistent, Recorded, DistinctAddresses, FreshTokens, UniqueEmails, InsertPeriod, ForeignKeys;
      var people, links, administrators := persons.people, persons.links, persons.administrators;
      ghost var before := All();
      var period := PeriodRef(Ownerships, ownership);
      ConsistentMeans(before);
      ok, ids := InsertPeople(period, submission, tokens);
      ghost var linked := All();
      if ok {
        var a := Apartment(building, name, D.EndPosition(db.apartments, building), createdAt);
        ghost var op := Op.CreateApartment(id, a, ownership, start, end);
        ok := db.CreateApartment(id, a, ownership, start, end, today);
        if ok {
          persons.periods := persons.periods + {period};
          StillRecorded(before, linked, All(), period, submission, ids);
          CreationIsConsistent(before, All(), op, today, period, submission, ids);
          CreatedApartment(before.state, id, a, ownership, start, end, today);
          return;
        }
      }
      Restore(people, links, administrators);
    }

    /** `create_apartment_building_owned` */
    method CreateApartmentBuildingOwned(id: Id, building: Id, name: string, createdAt: string, today: Day)
      returns (ok: bool)
      requires Consistent(All())
      modifies db
      ensures Consistent(All())
      ensures var a := Apartment(building, name, D.EndPosition(old(db.apartments), building), createdAt);
        var exec := Exec(old(db.View()), Op.CreateApartmentBuildingOwned(id, a), today);
        && (ok <==> exec.Some?)
        && All() == if ok then old(All()).(state := exec.value) else old(All())
      ensures ok ==> BuildingOwned(old(db.View()), building, today) && id in db.apartments
      ensures ok ==> forall b :: b in IdsOf(old(db.apartments), building) ==>
        b in db.apartments && DisplayedBefore(db.apartments, b, id)
    {
      hide Consistent, ForeignKeys, BuildingOwned;
      ghost var before := All();
      var a := Apartment(building, name, D.EndPosition(db.apartments, building), createdAt);
      KeysHold(before);
      Coverage.NewApartmentHasOneForm(before.state, id, a, "", 0, None, today);
      ok := db.CreateApartmentBuildingOwned(id, a, today);
      if ok {
        SamePeopleIsConsistent(before, All(), Op.CreateApartmentBuildingOwned(id, a), today);
      }
    }

    /** The administrator of a new building: none if both fields are blank. */
    method Appoint(building: Id, admin: NewPerson, adminId: Id, token: Id)
      requires UniqueEmails(persons.people) && Attended(All())
      requires token !in persons.people && adminId !in persons.administrators
      modifies persons`people, persons`administrators
      ensures UniqueEmails(persons.people) && Attended(All())
      ensures Appointed(old(All()), All(), building, admin, adminId)
      ensures persons.people.Keys <= old(persons.people.Keys) + {token}
    {
      hide UniqueEmails, Matches, HasPeople, RustTrim, SameAddress, Submitted, Refreshed, Attended, Resolved1;
      ghost var before := All();
      if Named(admin) {
        var p := persons.ResolvePerson(admin, token);
        ResolvedNow(before, All(), admin, p);
        persons.administrators := persons.administrators[adminId := Administrator(building, p)];
        StillResolved(before, All().(administrators := before.administrators), All(), admin, p);
        AppointmentIsAttended(before, All(), adminId, building, admin, p);
      }
    }

    /**
     `create_building`, `create_building_with_owner`: the administrator first,
     then the persons of the owner, then the owner's period; all or nothing.
     */
    method CreateBuilding(id: Id, admin: NewPerson, adminId: Id, token: Id, owner: Option<(Id, Day, Option<Day>)>,
                          submission: seq<NewPerson>, tokens: seq<Id>, today: Day)
      returns (ok: bool, ids: seq<Id>, ghost appointed: Contents)
      requires Consistent(All()) && FreshTokens([token] + tokens, [admin] + submission, persons.people)
      requires adminId !in persons.administrators
      requires owner.Some? ==> PeriodRef(BuildingOwners, owner.value.0) !in persons.periods
      modifies db, persons
      ensures Consistent(All())
      ensures var exec := Exec(old(db.View()), Op.CreateBuilding(id, owner), today);
        && (ok <==> exec.Some? && (owner.Some? ==> submission != [] && DistinctAddresses(submission)))
        && (ok ==> db.View() == exec.value)
      ensures !ok ==> All() == old(All())
      ensures ok ==> Appointed(old(All()), appointed, id, admin, adminId)
      ensures ok && owner.Some? ==>
        Recorded(appointed, All(), PeriodRef(BuildingOwners, owner.value.0), submission, ids)
      ensures ok && owner.None? ==> All() == appointed.(state := db.View())
    {
      hide Consistent, Recorded, Exec, DistinctAddresses, UniqueEmails, Attended, Appointed, Housed, Sound, PeriodsOf;
      var people, links, administrators := persons.people, persons.links, persons.administrators;
      ghost var before := All();
      ghost var op := Op.CreateBuilding(id, owner);
      ConsistentMeans(before);
      SplitTokens(token, tokens, admin, submission, persons.people);
      Appoint(id, admin, adminId, token);
      appointed := All();
      if owner.None? {
        ids := [];
        ok := db.CreateBuilding(id, owner, today);
        if ok {
          BuildingIsConsistent(before, appointed, All(), admin, adminId, op, today);
          return;
        }
      } else {
        var period := PeriodRef(BuildingOwners, owner.value.0);
        ok, ids := InsertPeople(period, submission, tokens);
        ghost var linked := All();
        if ok {
          ok := db.CreateBuilding(id, owner, today);
          if ok {
            persons.periods := persons.periods + {period};
            StillRecorded(appointed, linked, All(), period, submission, ids);
            RecordedAdministrators(appointed, All(), period, submission, ids);
            AppointedIsHoused(before, appointed, All(), id, admin, adminId, op, today);
            CreationIsWhole(appointed, All(), op, today, period, submission, ids);
            return;
          }
        }
      }
      Restore(people, links, administrators);
    }

    /** `update_building`, its administrator: the existing row is given the submitted person, without cleanup. */
    method UpdateAdministrator(building: Id, existing: Option<Id>, n: NewPerson, adminId: Id, token: Id)
      returns (p: Id)
      requires Consistent(All()) && token !in persons.people && adminId !in persons.administrators
      requires building in db.buildings
      requires existing.Some? ==>
        existing.value in persons.administrators && persons.administrators[existing.value].building == building
      modifies persons`people, persons`administrators
      ensures Consistent(All())
      ensures Resolved1(old(All()), All(), n, p)
      ensures All().links == old(All()).links
      ensures var a := if existing.Some? then existing.value else adminId;
        persons.administrators == old(persons.administrators)[a := Administrator(building, p)]
    {
      hide Sound, UniqueEmails, Matches, PeriodsOf, HasPeople, RustTrim, SameAddress, Submitted, Refreshed, Attended;
      hide Resolved1;
      ghost var before := All();
      p := persons.ResolvePerson(n, token);
      ResolvedNow(before, All(), n, p);
      var a := if existing.Some? then existing.value else adminId;
      persons.administrators := persons.administrators[a := Administrator(building, p)];
      StillResolved(before, All().(administrators := before.administrators), All(), n, p);
      AppointmentIsAttended(before, All(), a, building, n, p);
    }

    /**
     `update_tenancy`: the person of the address first, then the tenancy's person
     and dates. The former tenant's row stays even without any reference.
     */
    method UpdateTenancy(id: Id, start: Day, end: Option<Day>, n: NewPerson, token: Id, today: Day)
      returns (ok: bool, p: Id)
      requires Consistent(All()) && token !in persons.people && PeriodRef(Tenancies, id) in persons.periods
      modifies db, persons
      ensures Consistent(All())
      ensures var exec := Exec(old(db.View()), UpdateDates(Tenancies, id, start, end), today);
        (ok <==> exec.Some?) && (ok ==> db.View() == exec.value)
      ensures if ok then Retenanted(old(All()), All(), id, n, p) else All() == old(All())
    {
      hide Consistent, Exec, UniqueEmails, Matches, Attended, Retenanted, RustTrim, Reassigned;
      var people, links, administrators := persons.people, persons.links, persons.administrators;
      ghost var before := All();
      ConsistentMeans(before);
      p := persons.ResolvePerson(n, token);
      persons.SetTenant(id, p);
      RetenantedNow(before, All(), id, n, p);
      ghost var retenanted := All();
      ok := db.UpdateDates(Tenancies, id, start, end, today);
      if ok {
        StillRetenanted(before, retenanted, All(), id, n, p);
        RetenantedIsConsistent(before, All(), id, start, end, n, p, today);
        return;
      }
      Restore(people, links, administrators);
    }

    /**
     `update_ownership`, `update_building_owner`: the person set first, then the
     dates. An edit may name one person twice, and must name someone. For a
     period that no longer exists the new links have nothing to refer to and the
     commit fails.
     */
    method UpdatePeriod(k: Kind, id: Id, start: Day, end: Option<Day>, submission: seq<NewPerson>, tokens: seq<Id>,
                        today: Day)
      returns (ok: bool, ids: seq<Id>)
      requires Consistent(All()) && k != Tenancies && FreshTokens(tokens, submission, persons.people)
      modifies db, persons
      ensures Consistent(All())
      ensures var exec := Exec(old(db.View()), UpdateDates(k, id, start, end), today);
        && (ok <==> exec.Some? && (submission != [] <==> id in TableOf(old(db.View()), k)))
        && (ok ==> db.View() == exec.value)
      ensures if ok && submission != [] then Replaced(old(All()), All(), PeriodRef(k, id), submission, ids)
              else All() == old(All())
    {
      hide Consistent, Replaced, Exec, UniqueEmails, Matches, LastSubmitted, IsLastIndex, Linked, SameElsewhere;
      hide HasPeople;
      hide PeriodsOf, ForeignKeys;
      var people, links, administrators := persons.people, persons.links, persons.administrators;
      ghost var before := All();
      var period := PeriodRef(k, id);
      PeriodsOfMeans(before.state);
      KnownPeriodHasPeople(before, period);
      var saved := db.Begin();
      ok, ids := persons.ReplacePeriodPeople(period, submission, tokens);
      ghost var replaced := All();
      if ok {
        ReplacedNow(before, replaced, period, submission, ids);
        ok := db.UpdateDates(k, id, start, end, today);
        if ok {
          StillReplaced(before, replaced, All(), period, submission, ids);
          LinksHaveTheirPeriods(before, All(), period, submission, ids);
          ok := forall l | l in persons.links :: l.0 in persons.periods;
          if ok {
            if submission == [] {
              UpdateOfMissing(before.state, k, id, start, end, today);
            } else {
              UpdateIsConsistent(before, All(), k, id, start, end, today, submission, ids);
            }
            return;
          }
        }
        db.Load(saved);
      }
      Restore(people, links, administrators);
    }

    // ----- deletes -----

    /** What goes with deleted rows by ON DELETE CASCADE: links, administrators, and whoever lost the last reference. */
    method DropOrphans(ghost before: Contents)
      requires All() == before.(state := db.View()) && Attended(before)
      requires PeriodsOf(db.View()) <= before.periods
      modifies persons`people, persons`links, persons`periods, persons`administrators
      ensures Dropped(before, All())
    {
      hide Cleaned, HasPeople, Linked, PeriodsOf;
      var view := db.Begin();
      persons.CascadePeriods(persons.periods - PeriodsOf(view));
      ghost var between := persons.people;
      persons.CascadeAdministrators(view.buildings);
      CleanedTwice(before.people, between, persons.people, before.links, persons.links,
        Holders(before.administrators), Holders(persons.administrators));
    }

    /** `delete_ownership`, `delete_building_owner`, `delete_tenancy` */
    method DeletePeriod(k: Kind, id: Id, today: Day) returns (ok: bool)
      requires Consistent(All())
      modifies db, persons
      ensures Consistent(All())
      ensures var exec := Exec(old(db.View()), DeletePeriodOp(k, id), today);
        (ok <==> exec.Some?) && (ok ==> db.View() == exec.value)
      ensures if ok then Dropped(old(All()), All()) else All() == old(All())
    {
      hide Exec, Dropped, Sound, PeriodsOf, UniqueEmails;
      ghost var before := All();
      ok := db.DeletePeriod(k, id, today);
      if ok {
        CommittedDelete(before.state, DeletePeriodOp(k, id), today);
        DropOrphans(before);
        DeleteIsConsistent(before, All(), DeletePeriodOp(k, id), today);
      }
    }

    /** `delete_apartment` */
    method DeleteApartment(id: Id, today: Day) returns (ok: bool)
      requires Consistent(All())
      modifies db, persons
      ensures Consistent(All())
      ensures var exec := Exec(old(db.View()), Op.DeleteApartment(id), today);
        (ok <==> exec.Some?) && (ok ==> db.View() == exec.value)
      ensures if ok then Dropped(old(All()), All()) else All() == old(All())
    {
      hide Exec, Dropped, Sound, PeriodsOf, UniqueEmails;
      ghost var before := All();
      ok := db.DeleteApartment(id, today);
      if ok {
        CommittedDelete(before.state, Op.DeleteApartment(id), today);
        DropOrphans(before);
        DeleteIsConsistent(before, All(), Op.DeleteApartment(id), today);
      }
    }

    /** `delete_building` */
    method DeleteBuilding(id: Id, today: Day) returns (ok: bool)
      requires Consistent(All())
      modifies db, persons
      ensures Consistent(All())
      ensures var exec := Exec(old(db.View()), Op.DeleteBuilding(id), today);
        (ok <==> exec.Some?) && (ok ==> db.View() == exec.value)
      ensures if ok then Dropped(old(All()), All()) else All() == old(All())
    {
      hide Exec, Dropped, Sound, PeriodsOf, UniqueEmails;
      ghost var before := All();
      ok := db.DeleteBuilding(id, today);
      if ok {
        CommittedDelete(before.state, Op.DeleteBuilding(id), today);
        DropOrphans(before);
        DeleteIsConsistent(before, All(), Op.DeleteBuilding(id), today);
      }
    }

    // ----- the form for a new ownership -----

    /**
     `ownerships_create`. The form only ever refuses, or asks, when the database
     would refuse the plain insert or nobody is submitted; it changes the
     database exactly when it reports success, and then by the one transaction
     that applies.
     */
    method OwnershipsCreate(apartment: Id, id: Id, start: Day, end: Option<Day>, answer: Answer,
                            submission: seq<NewPerson>, tokens: seq<Id>, today: Day)
      returns (r: Response)
      requires Consistent(All()) && PeriodRef(Ownerships, id) !in persons.periods
      requires FreshTokens(tokens, submission, persons.people)
      modifies db, persons
      ensures Consistent(All())
      ensures !r.Created? ==> All() == old(All())
      ensures r.Created? ==> exists ids :: Recorded(old(All()), All(), PeriodRef(Ownerships, id), submission, ids)
      ensures var c := Of(old(db.ownerships), apartment);
        && (r.AskToClose? <==> Covered(c, start) && answer == NotAsked)
        && (r.CannotKeepPrevious? <==> Covered(c, start) && answer == Declined)
        && (r.AskToClose? || r.CannotKeepPrevious? ==>
              r.previousEnd == start - 1 && r.previous in c && Covers(c[r.previous], start))
        && (r.GapNamed? <==> !Covered(c, start) && !Covered(c, start - 1) && exists d :: d < start && Covered(c, d))
        && (r.GapNamed? ==> r.requiredStart == r.previousEnd + 1 < start && Covered(c, r.previousEnd))
        && (r.GapNamed? ==> forall d :: r.previousEnd < d <= start ==> !Covered(c, d))
        && (r.PeopleRequired? <==> submission == [] && !r.AskToClose? && !r.CannotKeepPrevious? && !r.GapNamed?)
      ensures var c := Of(old(db.ownerships), apartment);
        var plain := Exec(old(db.View()), Op.CreatePeriod(Ownerships, id, apartment, start, end), today);
        var named := submission != [] && DistinctAddresses(submission);
        && (answer != Yes || !Covered(c, start) ==>
              if r.Created? then named && plain == Some(db.View()) else !named || plain.None?)
        && (answer == Yes && Covered(c, start) ==> exists p ::
              && p in c && Covers(c[p], start)
              && var closing := Exec(old(db.View()), ClosingOp(apartment, p, id, start, end), today);
                 if r.Created? then named && closing == Some(db.View()) else !named || closing.None?)
    {
      hide Consistent, Recorded, DistinctAddresses, FreshTokens, UniqueEmails, Exec;
      var c := Of(db.ownerships, apartment);
      var plainRow := Row(apartment, start, end);
      ChainIsSound(All(), apartment);
      var previous := D.OwnerOn(c, start);
      if previous.Some? {
        CoveredStartIsRefused(db.View(), id, plainRow, previous.value, today);
        var previousEnd := start - 1;
        match answer
        case NotAsked => return AskToClose(previous.value, previousEnd);
        case Yes =>
          if submission == [] {
            return PeopleRequired;
          }
          var closed, ids := CreatePeriodClosingPrevious(Ownerships, id, apartment, previous.value, previousEnd,
            start, end, submission, tokens, today);
          return if closed then Created else Rejected;
        case Declined => return CannotKeepPrevious(previous.value, previousEnd);
      }
      var ends := EndsBefore(c, plainRow);
      D.LastEndBefore(c, plainRow);
      if ends != {} {
        var previousEnd := Max(ends);
        if previousEnd + 1 != start {
          GapIsRefused(db.View(), id, plainRow, today);
          return GapNamed(previousEnd, previousEnd + 1);
        }
      }
      if submission == [] {
        return PeopleRequired;
      }
      var created, ids := CreatePeriod(Ownerships, id, apartment, start, end, submission, tokens, today);
      return if created then Created else Rejected;
    }
  }
}
