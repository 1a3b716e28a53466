/**
 What a period can meet: a day, by covering it, or a week, by covering at least
 four of its days. Of the rows of a disjoint chain at most one meets either.
 */
module Spans {
  import opened Wrappers
  import opened Calendar
  import opened Periods
  import opened Apartments
  import opened Registry
  import opened Scheduler

  /** A day, or the week that starts on the day. */
  datatype Span = OnDay(day: Day) | InWeek(start: Day)

  /** How many days of the week the row covers. */
  function RowDays(r: Row, weekStart: Day): (days: int)
    ensures forall p: DatedPerson :: p.start == r.start && p.end == r.end ==>
      OverlapDays(p, weekStart, weekStart + 6) == days
  {
    OverlapDays(DatedPerson("", "", "", "", r.start, r.end), weekStart, weekStart + 6)
  }

  predicate Meets(r: Row, span: Span) {
    match span
    case OnDay(d) => Covers(r, d)
    case InWeek(m) => RowDays(r, m) >= 4
  }

  /** Some row of the chain meets the span. */
  predicate Met(c: Table, span: Span) {
    exists id | id in c :: Meets(c[id], span)
  }

  /** The apartment has an owner for the span, its own or its building's. */
  predicate OwnedFor(s: State, a: Id, span: Span)
    requires a in s.apartments
  {
    Met(Of(s.ownerships, a), span) || Met(Of(s.buildingOwners, s.apartments[a].building), span)
  }

  lemma OwnedForDay(s: State, a: Id, d: Day)
    requires a in s.apartments
    ensures OwnedFor(s, a, OnDay(d)) == OwnedOn(s, a, d)
  {
    MetOnDay(Of(s.ownerships, a), d);
    MetOnDay(Of(s.buildingOwners, s.apartments[a].building), d);
  }

  lemma MetOnDay(c: Table, d: Day)
    ensures Met(c, OnDay(d)) == Covered(c, d)
  {
    if Covered(c, d) {
      var id :| id in c && Covers(c[id], d);
      assert Meets(c[id], OnDay(d));
    }
  }

  /** Four days of a week include its Thursday, so two rows never share a week. */
  lemma OneRowMeets(c: Table, a: Id, b: Id, span: Span)
    requires Disjoint(c) && a in c && b in c && Meets(c[a], span) && Meets(c[b], span)
    ensures a == b
  {
    match span
    case OnDay(d) =>
    case InWeek(m) => assert Covers(c[a], m + 3) && Covers(c[b], m + 3);
  }
}
