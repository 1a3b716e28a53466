/**
 The rotation is fair over any stretch of weeks, and which seeds give the same
 duties.
 */
module Rotation {
  import opened Wrappers
  import opened Calendar
  import opened Apartments
  import opened Scheduler
  import opened Periods
  import opened Registry
  import opened Resolution
  import opened Spans
  import opened Handover

  // ----- how often a residue is hit -----

  /** How many of the numbers k .. k + length - 1 are congruent to j modulo n. */
  function Hits(k: int, length: nat, n: nat, j: nat): nat
    requires n > 0
  {
    if length == 0 then 0 else Hits(k, length - 1, n, j) + (if (k + length - 1) % n == j then 1 else 0)
  }

  lemma QuotientIs(a: int, n: nat, q: int, r: int)
    requires n > 0 && a == q * n + r && 0 <= r < n
    ensures a / n == q && a % n == r
  {
    var d := a / n - q;
    assert a == n * (a / n) + a % n;
    assert d * n == r - a % n;
    assert d >= 1 ==> d * n >= n;
    assert d <= -1 ==> d * n + n <= 0;
  }

  lemma QuotientStep(m: int, n: nat, j: nat)
    requires j < n
    ensures (m - j) / n - (m - 1 - j) / n == (if m % n == j then 1 else 0)
  {
    var q, r := m / n, m % n;
    assert m == q * n + r;
    if r == j {
      QuotientIs(m - j, n, q, 0);
      assert (q - 1) * n == q * n - n;
      QuotientIs(m - 1 - j, n, q - 1, n - 1);
    } else if r > j {
      QuotientIs(m - j, n, q, r - j);
      QuotientIs(m - 1 - j, n, q, r - j - 1);
    } else {
      assert (q - 1) * n == q * n - n;
      QuotientIs(m - j, n, q - 1, n + r - j);
      QuotientIs(m - 1 - j, n, q - 1, n + r - j - 1);
    }
  }

  lemma {:induction false} HitsAreQuotients(k: int, length: nat, n: nat, j: nat)
    requires j < n
    ensures Hits(k, length, n, j) == (k + length - 1 - j) / n - (k - 1 - j) / n
  {
    if length > 0 {
      HitsAreQuotients(k, length - 1, n, j);
      QuotientStep(k + length - 1, n, j);
    }
  }

  lemma SumOfQuotients(x: int, length: nat, n: nat)
    requires n > 0
    ensures length / n <= (x + length) / n - x / n <= (length + n - 1) / n
    ensures length == n ==> (x + length) / n - x / n == 1
  {
    var q, r, p, s := x / n, x % n, length / n, length % n;
    assert x == q * n + r && length == p * n + s;
    assert (q + p) * n == q * n + p * n;
    if r + s < n {
      QuotientIs(x + length, n, q + p, r + s);
    } else {
      assert (q + p + 1) * n == (q + p) * n + n;
      QuotientIs(x + length, n, q + p + 1, r + s - n);
    }
    if s == 0 {
      QuotientIs(length + n - 1, n, p, n - 1);
    } else {
      assert (p + 1) * n == p * n + n;
      QuotientIs(length + n - 1, n, p + 1, s - 1);
    }
    if length == n {
      QuotientIs(length, n, 1, 0);
      QuotientIs(x + length, n, q + 1, r);
    }
  }

  /** Of any consecutive numbers, each residue takes its share, rounded down or up; of any n of them,
      exactly one. */
  lemma HitsAreEven(k: int, length: nat, n: nat, j: nat)
    requires j < n
    ensures length / n <= Hits(k, length, n, j) <= (length + n - 1) / n
    ensures length == n ==> Hits(k, length, n, j) == 1
  {
    HitsAreQuotients(k, length, n, j);
    SumOfQuotients(k - 1 - j, length, n);
  }

  // ----- duty counts -----

  /** The apartments in the covered list of a week. */
  function CoveredIds(inp: Inputs, weekStart: Day): (ids: seq<Id>)
    ensures |ids| == |CoveredList(inp, weekStart)|
    ensures forall i :: 0 <= i < |ids| ==> ids[i] == CoveredList(inp, weekStart)[i].0
  {
    var covered := CoveredList(inp, weekStart);
    seq(|covered|, i requires 0 <= i < |covered| => covered[i].0)
  }

  /** In how many of the weeks from the given Monday on the apartment is on duty. */
  function DutyCount(inp: Inputs, first: Day, length: nat, a: Id): nat {
    if length == 0 then 0
    else DutyCount(inp, first, length - 1, a) +
         (if DutyApartment(inp, first + 7 * (length - 1)) == Some(a) then 1 else 0)
  }

  lemma {:induction false} IndexOfWeek(first: Day, i: nat)
    requires Weekday(first) == 0
    ensures GlobalWeekIndex(first + 7 * i) == GlobalWeekIndex(first) + i
  {
    hide GlobalWeekIndex;
    if i > 0 {
      IndexOfWeek(first, i - 1);
      WeeksLater(first, i - 1);
      WeekIndexIsExact(first + 7 * (i - 1));
    }
  }

  lemma DutyOfWeek(inp: Inputs, weekStart: Day, apartments: seq<Id>, j: nat)
    requires CoveredIds(inp, weekStart) == apartments && NoDuplicates(apartments) && j < |apartments|
    ensures DutyApartment(inp, weekStart) == Some(apartments[j]) <==>
      (inp.seed + GlobalWeekIndex(weekStart)) % |apartments| == j
  {
    hide GlobalWeekIndex, CoveredList;
    var k := DutyIndex(inp.seed, weekStart, |apartments|);
    assert DutyApartment(inp, weekStart) == Some(apartments[k]);
  }

  lemma {:induction false} DutiesAreHits(inp: Inputs, first: Day, length: nat, apartments: seq<Id>, j: nat)
    requires Weekday(first) == 0 && NoDuplicates(apartments) && j < |apartments|
    requires forall i: nat :: i < length ==> CoveredIds(inp, first + 7 * i) == apartments
    ensures DutyCount(inp, first, length, apartments[j]) ==
      Hits(inp.seed + GlobalWeekIndex(first), length, |apartments|, j)
  {
    hide GlobalWeekIndex, DutyApartment, CoveredIds, Weekday, NoDuplicates;
    if length > 0 {
      DutiesAreHits(inp, first, length - 1, apartments, j);
      assert CoveredIds(inp, first + 7 * (length - 1)) == apartments;
      DutyOfWeek(inp, first + 7 * (length - 1), apartments, j);
      IndexOfWeek(first, length - 1);
    }
  }

  /**
   Over any consecutive weeks, within a year or across years, in which the same
   n apartments are covered, every one of them serves its share of the weeks,
   rounded down or up, whatever the seed; over n weeks each serves exactly once.
   */
  lemma RotationIsFair(inp: Inputs, first: Day, length: nat, apartments: seq<Id>, a: Id)
    requires Weekday(first) == 0 && NoDuplicates(apartments) && a in apartments
    requires forall i: nat :: i < length ==> CoveredIds(inp, first + 7 * i) == apartments
    ensures length / |apartments| <= DutyCount(inp, first, length, a) <= (length + |apartments| - 1) / |apartments|
    ensures length == |apartments| ==> DutyCount(inp, first, length, a) == 1
  {
    hide CoveredIds, GlobalWeekIndex;
    var j :| 0 <= j < |apartments| && apartments[j] == a;
    DutiesAreHits(inp, first, length, apartments, j);
    HitsAreEven(inp.seed + GlobalWeekIndex(first), length, |apartments|, j);
  }

  // ----- from the database -----

  lemma {:induction false} AllCovered(inp: Inputs, apartments: seq<Id>, m: Day)
    requires forall a :: a in apartments ==> OwnerFor(inp, a, m).Some?
    ensures |CoveredIn(inp, apartments, m)| == |apartments|
    ensures forall i :: 0 <= i < |apartments| ==> CoveredIn(inp, apartments, m)[i].0 == apartments[i]
  {
    hide OwnerFor;
    if apartments != [] {
      var n := |apartments| - 1;
      assert apartments == apartments[..n] + [apartments[n]];
      AllCovered(inp, apartments[..n], m);
    }
  }

  lemma RotationHasNoDuplicates(ids: seq<Id>, t: ApartmentTable)
    requires InRotationOrder(ids, t)
    ensures NoDuplicates(ids)
  {
    forall i, j | 0 <= i < j < |ids|
      ensures ids[i] != ids[j]
    {
      assert ids[i] in ids && ids[j] in ids;
      RotatesBeforeIsStrictTotal(t, ids[i], ids[j], ids[i]);
    }
  }

  /** Every apartment of the building has an owner of either form for the span. */
  ghost predicate HomesOwned(s: State, building: Id, span: Span) {
    forall b :: b in IdsOf(s.apartments, building) ==> OwnedFor(s, b, span)
  }

  /** When the database has an owner of either form for every apartment of a building in each of some consecutive
      weeks, every apartment serves its share of them. */
  lemma OwnedBuildingIsFair(s: State, inp: Inputs, building: Id, names: Names, first: Day, length: nat, a: Id)
    requires Sound(s) && Loads(inp, s, building, names) && Weekday(first) == 0 && a in inp.apartments
    requires forall i: nat :: i < length ==> HomesOwned(s, building, InWeek(first + 7 * i))
    ensures var n := |inp.apartments|;
      && length / n <= DutyCount(inp, first, length, a) <= (length + n - 1) / n
      && (length == n ==> DutyCount(inp, first, length, a) == 1)
  {
    hide OwnerFor, OwnedFor, DutyCount, Weekday, Lists, Sound, CoveredIn;
    assert InRotationOrder(inp.apartments, s.apartments);
    RotationHasNoDuplicates(inp.apartments, s.apartments);
    forall i: nat | i < length
      ensures CoveredIds(inp, first + 7 * i) == inp.apartments
    {
      assert HomesOwned(s, building, InWeek(first + 7 * i));
      forall b | b in inp.apartments
        ensures OwnerFor(inp, b, first + 7 * i).Some?
      {
        OwnerIsStored(inp, s, building, names, b, first + 7 * i);
      }
      AllCovered(inp, inp.apartments, first + 7 * i);
    }
    RotationIsFair(inp, first, length, inp.apartments, a);
  }

  /** In particular when every apartment's own chain is tiled by periods of at least four days and covers the weeks. */
  lemma TiledBuildingIsFair(s: State, inp: Inputs, building: Id, names: Names, first: Day, length: nat, a: Id)
    requires Sound(s) && Loads(inp, s, building, names) && Weekday(first) == 0 && a in inp.apartments
    requires forall b :: b in inp.apartments ==>
      && Tiled(Of(s.ownerships, b)) && AllLast(Of(s.ownerships, b), 4)
      && forall d :: first <= d < first + 7 * length ==> Covered(Of(s.ownerships, b), d)
    ensures var n := |inp.apartments|;
      && length / n <= DutyCount(inp, first, length, a) <= (length + n - 1) / n
      && (length == n ==> DutyCount(inp, first, length, a) == 1)
  {
    hide OwnedFor, DutyCount, Weekday, Sound, InRotationOrder;
    forall i: nat | i < length
      ensures HomesOwned(s, building, InWeek(first + 7 * i))
    {
      forall b | b in IdsOf(s.apartments, building)
        ensures OwnedFor(s, b, InWeek(first + 7 * i))
      {
        CoveredWeekIsOwned(s, inp, building, names, b, first + 7 * i);
      }
    }
    OwnedBuildingIsFair(s, inp, building, names, first, length, a);
  }

  lemma CoveredWeekIsOwned(s: State, inp: Inputs, building: Id, names: Names, b: Id, m: Day)
    requires Sound(s) && Loads(inp, s, building, names) && b in inp.apartments
    requires Tiled(Of(s.ownerships, b)) && AllLast(Of(s.ownerships, b), 4)
    requires forall d :: m <= d < m + 7 ==> Covered(Of(s.ownerships, b), d)
    ensures b in s.apartments && OwnedFor(s, b, InWeek(m))
  {
    hide OwnedFor, Sound, InRotationOrder, Lists, Covered, Tiled, AllLast, Majority, OwnersOf;
    assert CoveredDays(Of(s.ownerships, b), m) == Days(m, 7);
    TiledChainResolvesWeek(inp.owners, s.ownerships, IdsOf(s.apartments, building), names(Ownerships), b, m);
    OwnerIsStored(inp, s, building, names, b, m);
  }

  // ----- seeds -----

  lemma CongruentShift(a: int, b: int, g: int, n: nat)
    requires n > 0
    ensures (a + g) % n == (b + g) % n <==> a % n == b % n
  {
    if a % n == b % n {
      CongruentAfterShift(a, b, g, n);
    }
    if (a + g) % n == (b + g) % n {
      CongruentAfterShift(a + g, b + g, -g, n);
    }
  }

  lemma CongruentAfterShift(a: int, b: int, g: int, n: nat)
    requires n > 0 && a % n == b % n
    ensures (a + g) % n == (b + g) % n
  {
    var q := a / n - b / n;
    assert a == b + q * n;
    var r := (b + g) / n;
    assert (r + q) * n == r * n + q * n;
    QuotientIs(a + g, n, r + q, (b + g) % n);
  }

  /** In a week in which exactly n apartments are covered, two seeds choose the same apartment exactly
      when they agree modulo n. */
  lemma SeedsAgreeInWeek(inp: Inputs, v: int, w: int, weekStart: Day)
    requires NoDuplicates(CoveredIds(inp, weekStart)) && CoveredIds(inp, weekStart) != []
    ensures DutyApartment(inp.(seed := v), weekStart) == DutyApartment(inp.(seed := w), weekStart) <==>
      v % |CoveredIds(inp, weekStart)| == w % |CoveredIds(inp, weekStart)|
  {
    hide GlobalWeekIndex;
    var ids := CoveredIds(inp, weekStart);
    SeedDoesNotCover(inp, inp.apartments, v, weekStart);
    SeedDoesNotCover(inp, inp.apartments, w, weekStart);
    var i, j := DutyIndex(v, weekStart, |ids|), DutyIndex(w, weekStart, |ids|);
    assert DutyApartment(inp.(seed := v), weekStart) == Some(ids[i]);
    assert DutyApartment(inp.(seed := w), weekStart) == Some(ids[j]);
    CongruentShift(v, w, GlobalWeekIndex(weekStart), |ids|);
  }

  /** When the same n apartments are covered in every week, the seeds modulo n are exactly the
      distinct schedules. */
  lemma SeedPhases(inp: Inputs, apartments: seq<Id>, v: int, w: int)
    requires NoDuplicates(apartments) && apartments != []
    requires forall m :: Weekday(m) == 0 ==> CoveredIds(inp, m) == apartments
    ensures (forall m :: Weekday(m) == 0 ==>
               DutyApartment(inp.(seed := v), m) == DutyApartment(inp.(seed := w), m)) <==>
      v % |apartments| == w % |apartments|
  {
    hide DutyApartment, CoveredIds, Weekday;
    forall m | Weekday(m) == 0
      ensures DutyApartment(inp.(seed := v), m) == DutyApartment(inp.(seed := w), m) <==>
        v % |apartments| == w % |apartments|
    {
      SeedsAgreeInWeek(inp, v, w, m);
    }
    DayOneIsMonday();
  }

  lemma DayOneIsMonday()
    ensures Weekday(1) == 0
  {
  }

  /** In a week that covers m apartments, the seeds v and v + n choose the same one exactly when m divides n. */
  lemma UncoveredWeekSplitsPhases(inp: Inputs, v: int, n: nat, weekStart: Day)
    requires NoDuplicates(CoveredIds(inp, weekStart)) && CoveredIds(inp, weekStart) != []
    ensures DutyApartment(inp.(seed := v), weekStart) != DutyApartment(inp.(seed := v + n), weekStart) <==>
      n % |CoveredIds(inp, weekStart)| != 0
  {
    hide CoveredIds, DutyApartment;
    var m := |CoveredIds(inp, weekStart)|;
    SeedsAgreeInWeek(inp, v, v + n, weekStart);
    CongruentShift(0, n, v, m);
    QuotientIs(0, m, 0, 0);
  }

  /** `rotation_seed_options`: the phases 0 .. n - 1 in order, and the stored seed if it is none of
      them; exactly the stored seed is selected. */
  method RotationSeedOptions(current: int, count: nat) returns (options: seq<(int, bool)>)
    ensures |options| == if 0 <= current < count then count else count + 1
    ensures forall i :: 0 <= i < count ==> options[i].0 == i
    ensures exists i :: 0 <= i < |options| && options[i] == (current, true)
    ensures forall i :: 0 <= i < |options| ==> (options[i].1 <==> options[i].0 == current)
    ensures count > 0 ==> forall v :: v % count == options[v % count].0 % count
  {
    options := [];
    for v := 0 to count
      invariant |options| == v
      invariant forall i :: 0 <= i < v ==> options[i] == (i, i == current)
    {
      options := options + [(v, v == current)];
    }
    if !(exists i | 0 <= i < |options| :: options[i].0 == current) {
      options := options + [(current, true)];
    }
    if 0 <= current < count {
      assert options[current] == (current, true);
    } else {
      assert options[count] == (current, true);
    }
    if count > 0 {
      forall v: int
        ensures v % count == options[v % count].0 % count
      {
        QuotientIs(v % count, count, 0, v % count);
      }
    }
  }

  /** Reordering the display changes no schedule: whatever the listing before and after, the same inputs
      give the same weeks. */
  lemma ReorderKeepsSchedule(ids: seq<Id>, t: ApartmentTable, u: ApartmentTable, building: Id,
                             before: seq<Id>, after: seq<Id>, inp: Inputs, year: int)
    requires IsPermutation(ids, t, building) && Repositioned(ids, t, u)
    requires IsPermutation(before, t, building) && IsPermutation(after, u, building)
    requires (forall id :: id in before ==> id in t) && (forall id :: id in after ==> id in u)
    ensures YearSchedule(inp.(apartments := RotationOrder(before, t)), year) ==
      YearSchedule(inp.(apartments := RotationOrder(after, u)), year)
  {
    ReorderKeepsRotation(ids, t, u, building, before, after);
  }
}
