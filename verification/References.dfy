/**
 Persons without any reference: which transactions leave none behind.
 */
module References {
  import opened Wrappers
  import opened Calendar
  import opened Periods
  import opened Apartments
  import opened Registry
  import opened Tiling
  import opened Invariants
  import opened People
  import opened Attendance

  // ----- persons without any reference -----

  /** A creation leaves nobody without a reference. */
  lemma RecordedKeepsReferenced(before: Contents, after: Contents, period: PeriodRef, submission: seq<NewPerson>,
                                ids: seq<Id>)
    requires AllReferenced(before) && Recorded(before, after, period, submission, ids)
    requires forall p :: (period, p) !in before.links
    ensures AllReferenced(after)
  {
    hide Matches, LastSubmitted;
    forall p | p in after.people
      ensures Linked(after.links, p) || p in Holders(after.administrators)
    {
      if p in ids {
        assert (period, p) in after.links;
      } else if l :| l in before.links && l.1 == p {
        assert l == (l.0, p) && l in after.links;
      }
    }
  }

  /** Nor does the replacement of a period's persons, ... */
  lemma ReplacedKeepsReferenced(before: Contents, after: Contents, period: PeriodRef, submission: seq<NewPerson>,
                                ids: seq<Id>)
    requires AllReferenced(before) && Replaced(before, after, period, submission, ids)
    ensures AllReferenced(after)
  {
    hide Matches, LastSubmitted, IsLastIndex;
    forall p | p in after.people
      ensures Linked(after.links, p) || p in Holders(after.administrators)
    {
      if p in ids {
        assert (period, p) in after.links;
      }
    }
  }

  /** ... a delete with everything that cascades, ... */
  lemma DroppedKeepsReferenced(before: Contents, after: Contents)
    requires AllReferenced(before) && Dropped(before, after)
    ensures AllReferenced(after)
  {
    hide PeriodsOf, Linked;
  }

  /** ... or the appointment of an administrator. */
  lemma AppointedKeepsReferenced(before: Contents, after: Contents, building: Id, admin: NewPerson, adminId: Id)
    requires AllReferenced(before) && Appointed(before, after, building, admin, adminId)
    requires adminId !in before.administrators
    ensures AllReferenced(after)
  {
    hide Matches, RustTrim, Linked;
    if Named(admin) {
      forall q | q in Holders(before.administrators)
        ensures q in Holders(after.administrators)
      {
        var a :| a in before.administrators && before.administrators[a].person == q;
        assert after.administrators[a].person == q;
      }
      assert after.administrators[adminId].person in Holders(after.administrators);
    }
  }

  /** The row's person is no longer referred to by anything else. */
  ghost predicate SoleTenancy(c: Contents, tenancy: Id, q: Id) {
    var link := (PeriodRef(Tenancies, tenancy), q);
    link in c.links && !Linked(c.links - {link}, q) && q !in Holders(c.administrators)
  }

  /**
   migrations/0013:26-29 says that people without any reference are deleted
   automatically. The cleanup runs on deletes only: an edit of a tenancy leaves
   nobody behind exactly when the tenancy keeps its person or its former person
   has another reference.
   */
  lemma RetenantedKeepsReferencedIff(before: Contents, after: Contents, tenancy: Id, n: NewPerson, p: Id)
    requires AllReferenced(before) && Attended(before) && Retenanted(before, after, tenancy, n, p)
    ensures AllReferenced(after) <==> forall q :: SoleTenancy(before, tenancy, q) ==> q == p
  {
    hide Matches, RustTrim, HasPeople;
    var period := PeriodRef(Tenancies, tenancy);
    assert (period, p) in after.links;
    forall q | q != p && q in before.people
      ensures Linked(after.links, q) || q in Holders(after.administrators) <==> !SoleTenancy(before, tenancy, q)
    {
      LinksAfterReassignment(before.links, period, p, q);
      if q !in Holders(before.administrators) {
        assert Linked(before.links, q);
      }
    }
    forall q | SoleTenancy(before, tenancy, q)
      ensures q in before.people
    {
      assert (period, q) in before.links && (period, q).1 in before.people;
    }
  }

  lemma LinksAfterReassignment(links: Links, period: PeriodRef, p: Id, q: Id)
    requires q != p
    ensures Linked(Reassigned(links, period, p), q) <==> Linked(links - {(period, q)}, q)
  {
    var after, rest := Reassigned(links, period, p), links - {(period, q)};
    if l :| l in after && l.1 == q {
      assert l in rest;
    }
    if l :| l in rest && l.1 == q {
      assert l == (l.0, q) && l.0 != period;
      assert l in after;
    }
  }

  /** The same for the administrator of a building whose row is given another person. */
  lemma ReappointedKeepsReferencedIff(before: Contents, after: Contents, a: Id, building: Id, n: NewPerson, p: Id)
    requires AllReferenced(before) && Attended(before) && Resolved1(before, after, n, p)
    requires after.links == before.links
    requires after.administrators == before.administrators[a := Administrator(building, p)]
    ensures AllReferenced(after) <==>
      (a in before.administrators ==>
         var q := before.administrators[a].person;
         q == p || Linked(before.links, q) || q in Holders(before.administrators - {a}))
  {
    hide Matches, RustTrim, HasPeople, Linked;
    assert after.administrators[a].person == p;
    forall q | q != p
      ensures q in Holders(after.administrators) <==> q in Holders(before.administrators - {a})
    {
      if b :| b in after.administrators && after.administrators[b].person == q {
        assert b in before.administrators - {a} && (before.administrators - {a})[b].person == q;
      }
      if b :| b in before.administrators - {a} && (before.administrators - {a})[b].person == q {
        assert after.administrators[b].person == q;
      }
    }
    forall q | q in Holders(before.administrators)
      && (a in before.administrators ==> q != before.administrators[a].person)
      ensures q in Holders(before.administrators - {a})
    {
      var b :| b in before.administrators && before.administrators[b].person == q;
      assert b in before.administrators - {a} && (before.administrators - {a})[b].person == q;
    }
    if a in before.administrators {
      assert before.administrators[a].person in before.people;
    }
  }

  /** A tenancy's only person is corrected to someone with another address: the former one stays, without any
      reference. */
  lemma ForgottenTenantWitness(state: State)
    ensures var t := PeriodRef(Tenancies, "t");
      var old_, new_ := Person("A", None, "a@x.de"), Person("B", None, "b@x.de");
      var before := Contents(state, map["p" := old_], map[(t, "p") := 0], {t}, map[]);
      var after := Contents(state, map["p" := old_, "q" := new_], map[(t, "q") := 0], {t}, map[]);
      && Attended(before) && AllReferenced(before)
      && Retenanted(before, after, "t", NewPerson("B", "b@x.de", None), "q")
      && !AllReferenced(after)
  {
    hide Resolved1, Linked, HasPeople;
    var t := PeriodRef(Tenancies, "t");
    SingleLink(t, "p");
    SingleLink(t, "q");
    assert Reassigned(map[(t, "p") := 0], t, "q") == map[(t, "q") := 0] by {
      ReassignSingle(t, "p", "q");
    }
    NewcomerIsResolved(state);
  }

  lemma SingleLink(t: PeriodRef, p: Id)
    ensures var links: Links := map[(t, p) := 0];
      && HasPeople(links, t) && (forall q :: Linked(links, q) <==> q == p)
      && forall l :: l in links ==> l.0 == t && l.1 == p
  {
    var links: Links := map[(t, p) := 0];
    assert (t, p) in links && (t, p).0 == t && (t, p).1 == p;
  }

  lemma ReassignSingle(t: PeriodRef, p: Id, q: Id)
    ensures Reassigned(map[(t, p) := 0], t, q) == map[(t, q) := 0]
  {
  }

  lemma NewcomerIsResolved(state: State)
    ensures var t := PeriodRef(Tenancies, "t");
      var old_, new_ := Person("A", None, "a@x.de"), Person("B", None, "b@x.de");
      Resolved1(Contents(state, map["p" := old_], map[(t, "p") := 0], {t}, map[]),
                Contents(state, map["p" := old_, "q" := new_], map[(t, "q") := 0], {t}, map[]),
                NewPerson("B", "b@x.de", None), "q")
  {
    hide Lower, SqlTrim;
    assert RustTrim("b@x.de") == "b@x.de" && RustTrim("B") == "B";
    LookupMatchesTrigger("b@x.de");
  }
}
