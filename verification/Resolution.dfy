/**
 When a week has an owner: the majority rule on periods that share no day, and
 the whole-week rule for tenants.
 */
module Resolution {
  import opened Wrappers
  import opened Calendar
  import opened Scheduler
  import Apartments

  predicate Present(p: DatedPerson, d: Day) {
    p.start <= d && (p.end.Some? ==> d <= p.end.value)
  }

  /** No day has two of the persons. */
  ghost predicate OnePerDay(people: seq<DatedPerson>) {
    forall p, q, d :: p in people && q in people && Present(p, d) && Present(q, d) ==> p == q
  }

  predicate LastsAtLeast(p: DatedPerson, days: int) {
    p.end.Some? ==> p.end.value - p.start + 1 >= days
  }

  predicate SomeonePresent(people: seq<DatedPerson>, d: Day) {
    exists p | p in people :: Present(p, d)
  }

  ghost predicate Unbroken(people: seq<DatedPerson>) {
    forall x, y, z :: x <= y <= z && SomeonePresent(people, x) && SomeonePresent(people, z) ==>
      SomeonePresent(people, y)
  }

  /** The days of the week on which someone is present. */
  function DaysPresent(people: seq<DatedPerson>, weekStart: Day): set<Day> {
    set d | weekStart <= d < weekStart + 7 && SomeonePresent(people, d)
  }

  /** The given number of days from a first day on. */
  function Days(first: Day, count: nat): (r: set<Day>)
    ensures |r| == count
    ensures forall d :: d in r <==> first <= d < first + count
  {
    if count == 0 then {} else Days(first, count - 1) + {first + count - 1}
  }

  /** `overlap_days` counts the days of the week on which the person is present. */
  lemma OverlapDaysCounts(p: DatedPerson, weekStart: Day)
    ensures OverlapDays(p, weekStart, weekStart + 6) == |DaysPresent([p], weekStart)|
  {
    var first := if p.start < weekStart then weekStart else p.start;
    var days := DaysPresent([p], weekStart);
    assert forall d :: SomeonePresent([p], d) <==> Present(p, d) by {
      assert p in [p];
    }
    assert days == Days(first, OverlapDays(p, weekStart, weekStart + 6));
  }

  /** Four of the seven days always include the Thursday. */
  lemma FourDaysIncludeThursday(p: DatedPerson, weekStart: Day)
    requires OverlapDays(p, weekStart, weekStart + 6) >= 4
    ensures Present(p, weekStart + 3)
  {
  }

  lemma ThursdayOfLongPeriodIsMajority(p: DatedPerson, weekStart: Day)
    requires LastsAtLeast(p, 4) && Present(p, weekStart + 3)
    ensures OverlapDays(p, weekStart, weekStart + 6) >= 4
  {
  }

  /** Among persons who share no day, the week's owner is the one with four days: there is at most
      one, so neither ties nor the order of the list matter. */
  lemma MajorityIffFourDays(people: seq<DatedPerson>, weekStart: Day, p: DatedPerson)
    requires OnePerDay(people)
    ensures Majority(people, weekStart) == Some(p) <==> p in people && OverlapDays(p, weekStart, weekStart + 6) >= 4
  {
    var m := Majority(people, weekStart);
    if p in people && OverlapDays(p, weekStart, weekStart + 6) >= 4 && m.Some? {
      FourDaysIncludeThursday(p, weekStart);
      FourDaysIncludeThursday(m.value, weekStart);
    }
  }

  lemma MajorityIgnoresOrder(people: seq<DatedPerson>, others: seq<DatedPerson>, weekStart: Day)
    requires OnePerDay(people) && forall p :: p in people <==> p in others
    ensures Majority(people, weekStart) == Majority(others, weekStart)
  {
    var m := Majority(others, weekStart);
    assert OnePerDay(others);
    if m.Some? {
      MajorityIffFourDays(people, weekStart, m.value);
      MajorityIffFourDays(others, weekStart, m.value);
    }
  }

  /**
   The Thursday rule: once every period lasts at least four days, the majority
   owner of a week is exactly the owner of its Thursday.
   */
  lemma MajorityIsThursdaysOwner(people: seq<DatedPerson>, weekStart: Day, p: DatedPerson)
    requires OnePerDay(people) && forall q :: q in people ==> LastsAtLeast(q, 4)
    ensures Majority(people, weekStart) == Some(p) <==> p in people && Present(p, weekStart + 3)
  {
    MajorityIffFourDays(people, weekStart, p);
    if p in people && Present(p, weekStart + 3) {
      ThursdayOfLongPeriodIsMajority(p, weekStart);
    }
    if OverlapDays(p, weekStart, weekStart + 6) >= 4 {
      FourDaysIncludeThursday(p, weekStart);
    }
  }

  /** The sharp form of "every week is resolved": an unbroken chain of periods of at least four days
      resolves a week exactly when it covers at least four of its days. */
  lemma ResolvedIffFourDaysCovered(people: seq<DatedPerson>, weekStart: Day)
    requires OnePerDay(people) && Unbroken(people) && forall q :: q in people ==> LastsAtLeast(q, 4)
    ensures Majority(people, weekStart).Some? <==> |DaysPresent(people, weekStart)| >= 4
  {
    var days := DaysPresent(people, weekStart);
    var m := Majority(people, weekStart);
    if m.Some? {
      FourDaysInWeek(people, weekStart, m.value);
    } else {
      if SomeonePresent(people, weekStart + 3) {
        var p :| p in people && Present(p, weekStart + 3);
        MajorityIsThursdaysOwner(people, weekStart, p);
        assert false;
      }
      AtMostThreeDays(people, weekStart);
    }
  }

  lemma FourDaysInWeek(people: seq<DatedPerson>, weekStart: Day, p: DatedPerson)
    requires p in people && OverlapDays(p, weekStart, weekStart + 6) >= 4
    ensures |DaysPresent(people, weekStart)| >= 4
  {
    var first := if p.start < weekStart then weekStart else p.start;
    var four := {first, first + 1, first + 2, first + 3};
    forall d | d in four
      ensures d in DaysPresent(people, weekStart)
    {
      assert Present(p, d);
    }
    Apartments.SubsetSize(four, DaysPresent(people, weekStart));
  }

  lemma AtMostThreeDays(people: seq<DatedPerson>, weekStart: Day)
    requires Unbroken(people) && !SomeonePresent(people, weekStart + 3)
    ensures |DaysPresent(people, weekStart)| <= 3
  {
    var days := DaysPresent(people, weekStart);
    var early, late := {weekStart, weekStart + 1, weekStart + 2}, {weekStart + 4, weekStart + 5, weekStart + 6};
    if exists d :: d in days && d < weekStart + 3 {
      var x :| x in days && x < weekStart + 3;
      forall d | d in days
        ensures d in early
      {
      }
      Apartments.SubsetSize(days, early);
    } else {
      forall d | d in days
        ensures d in late
      {
      }
      Apartments.SubsetSize(days, late);
    }
  }

  /** Three days are not enough: in any week, periods of 2, 3 and 2 days leave the week unresolved
      although every day has an owner. */
  lemma ThreeDayPeriodWitness(weekStart: Day)
    ensures var people := [
        DatedPerson("a", "w", "", "", weekStart - 30, Some(weekStart + 1)),
        DatedPerson("b", "w", "", "", weekStart + 2, Some(weekStart + 4)),
        DatedPerson("c", "w", "", "", weekStart + 5, None)];
      && OnePerDay(people)
      && (forall d :: weekStart - 30 <= d ==> SomeonePresent(people, d))
      && (forall p :: p in people ==> LastsAtLeast(p, 3))
      && Majority(people, weekStart) == None
  {
    var people := [
      DatedPerson("a", "w", "", "", weekStart - 30, Some(weekStart + 1)),
      DatedPerson("b", "w", "", "", weekStart + 2, Some(weekStart + 4)),
      DatedPerson("c", "w", "", "", weekStart + 5, None)];
    forall d | weekStart - 30 <= d
      ensures SomeonePresent(people, d)
    {
      assert Present(people[0], d) || Present(people[1], d) || Present(people[2], d);
      assert people[0] in people && people[1] in people && people[2] in people;
    }
  }

  // ----- tenants -----

  /** No apartment has two tenants on one day. */
  ghost predicate OneTenantPerDay(tenancies: seq<DatedPerson>) {
    forall p, q, d :: p in tenancies && q in tenancies && p.apartment == q.apartment && Present(p, d) && Present(q, d)
      ==> p == q
  }

  /** With disjoint tenancies the tenant of a week does not depend on the row order, and is present on
      every day of the week. */
  lemma TenantIsUnique(tenancies: seq<DatedPerson>, apartment: Id, weekStart: Day, t: DatedPerson)
    requires OneTenantPerDay(tenancies)
    ensures TenantFor(tenancies, apartment, weekStart) == Some(t) <==>
      && t in tenancies && t.apartment == apartment
      && forall d :: weekStart <= d < weekStart + 7 ==> Present(t, d)
  {
    var r := TenantFor(tenancies, apartment, weekStart);
    if t in tenancies && t.apartment == apartment && forall d :: weekStart <= d < weekStart + 7 ==> Present(t, d) {
      assert Present(t, weekStart) && Present(t, weekStart + 6);
      assert Delegates(t, apartment, weekStart);
      assert Present(r.value, weekStart);
    }
  }

  lemma TenantIgnoresOrder(tenancies: seq<DatedPerson>, others: seq<DatedPerson>, apartment: Id, weekStart: Day)
    requires OneTenantPerDay(tenancies) && forall p :: p in tenancies <==> p in others
    ensures TenantFor(tenancies, apartment, weekStart) == TenantFor(others, apartment, weekStart)
  {
    var r, q := TenantFor(tenancies, apartment, weekStart), TenantFor(others, apartment, weekStart);
    assert OneTenantPerDay(others);
    if r.Some? {
      TenantIsUnique(tenancies, apartment, weekStart, r.value);
      TenantIsUnique(others, apartment, weekStart, r.value);
    }
  }
}
