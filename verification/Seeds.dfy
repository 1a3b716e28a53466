/**
 Which rotation seeds give the same duties throughout, and whether the values
 offered for a building reach every schedule.
 */
module Seeds {
  import opened Wrappers
  import opened Calendar
  import opened Apartments
  import opened Scheduler
  import opened Resolution
  import opened Handover
  import opened Rotation

  /** How many apartments are covered in the week. */
  function Count(inp: Inputs, m: Day): nat {
    |CoveredList(inp, m)|
  }

  /** The seeds put the same apartment on duty in every week. */
  ghost predicate SameDuties(inp: Inputs, v: int, w: int) {
    forall m :: Weekday(m) == 0 ==> DutyApartment(inp.(seed := v), m) == DutyApartment(inp.(seed := w), m)
  }

  /** The covered count of every week that covers anyone divides the number. */
  ghost predicate CommonMultiple(inp: Inputs, p: int) {
    forall m :: Weekday(m) == 0 && Count(inp, m) > 0 ==> p % Count(inp, m) == 0
  }

  /** The least common multiple of the covered counts. */
  ghost predicate IsCycle(inp: Inputs, l: nat) {
    && l > 0 && CommonMultiple(inp, l)
    && forall p :: 0 < p < l ==> !CommonMultiple(inp, p)
  }

  // ----- the covered list -----

  lemma {:induction false} CoveredIsSubsequence(inp: Inputs, apartments: seq<Id>, m: Day)
    requires NoDuplicates(apartments)
    ensures |CoveredIn(inp, apartments, m)| <= |apartments|
    ensures forall i :: 0 <= i < |CoveredIn(inp, apartments, m)| ==> CoveredIn(inp, apartments, m)[i].0 in apartments
    ensures forall i, j :: 0 <= i < j < |CoveredIn(inp, apartments, m)| ==>
      CoveredIn(inp, apartments, m)[i].0 != CoveredIn(inp, apartments, m)[j].0
  {
    hide OwnerFor;
    if apartments != [] {
      var n := |apartments| - 1;
      var front := apartments[..n];
      CoveredIsSubsequence(inp, front, m);
      assert apartments == front + [apartments[n]];
      assert apartments[n] !in front;
    }
  }

  lemma CoveredOnce(inp: Inputs, m: Day)
    requires NoDuplicates(inp.apartments)
    ensures NoDuplicates(CoveredIds(inp, m)) && |CoveredIds(inp, m)| == Count(inp, m) <= |inp.apartments|
  {
    CoveredIsSubsequence(inp, inp.apartments, m);
  }

  // ----- seeds -----

  lemma SameDutyIff(inp: Inputs, v: int, w: int, m: Day)
    requires NoDuplicates(inp.apartments)
    ensures DutyApartment(inp.(seed := v), m) == DutyApartment(inp.(seed := w), m) <==>
      (Count(inp, m) > 0 ==> v % Count(inp, m) == w % Count(inp, m))
  {
    hide GlobalWeekIndex, CoveredIn;
    CoveredOnce(inp, m);
    if Count(inp, m) > 0 {
      SeedsAgreeInWeek(inp, v, w, m);
    } else {
      SeedDoesNotCover(inp, inp.apartments, v, m);
      SeedDoesNotCover(inp, inp.apartments, w, m);
    }
  }

  /** Two seeds give the same duties in all weeks exactly when they agree modulo the covered count of every week
      that covers anyone. */
  lemma SameDutiesIff(inp: Inputs, v: int, w: int)
    requires NoDuplicates(inp.apartments)
    ensures SameDuties(inp, v, w) <==>
      forall m :: Weekday(m) == 0 && Count(inp, m) > 0 ==> v % Count(inp, m) == w % Count(inp, m)
  {
    hide DutyApartment, Count, Weekday;
    forall m
      ensures DutyApartment(inp.(seed := v), m) == DutyApartment(inp.(seed := w), m) <==>
        (Count(inp, m) > 0 ==> v % Count(inp, m) == w % Count(inp, m))
    {
      SameDutyIff(inp, v, w, m);
    }
  }

  lemma CongruentIffDifference(v: int, w: int, n: nat)
    requires n > 0
    ensures v % n == w % n <==> (w - v) % n == 0
  {
    CongruentShift(v, w, -v, n);
    QuotientIs(0, n, 0, 0);
    assert v + -v == 0 && w + -v == w - v;
  }

  lemma SameDutiesIffDifference(inp: Inputs, v: int, w: int)
    requires NoDuplicates(inp.apartments)
    ensures SameDuties(inp, v, w) <==> CommonMultiple(inp, w - v)
  {
    hide Count, Weekday, SameDuties;
    SameDutiesIff(inp, v, w);
    forall m | Count(inp, m) > 0
      ensures v % Count(inp, m) == w % Count(inp, m) <==> (w - v) % Count(inp, m) == 0
    {
      CongruentIffDifference(v, w, Count(inp, m));
    }
  }

  // ----- the least common multiple -----

  function Factorial(n: nat): nat {
    if n == 0 then 1 else n * Factorial(n - 1)
  }

  lemma {:induction false} FactorialIsMultiple(n: nat, c: nat)
    requires 0 < c <= n
    ensures Factorial(n) > 0 && Factorial(n) % c == 0
  {
    FactorialPositive(n - 1);
    if c == n {
      QuotientIs(n * Factorial(n - 1), n, Factorial(n - 1), 0);
    } else {
      FactorialIsMultiple(n - 1, c);
      var q := Factorial(n - 1) / c;
      assert Factorial(n) == (n * q) * c;
      QuotientIs(Factorial(n), c, n * q, 0);
    }
    assert Factorial(n) > 0;
  }

  lemma {:induction false} FactorialPositive(n: nat)
    ensures Factorial(n) > 0
  {
    if n > 0 {
      FactorialPositive(n - 1);
      assert n * Factorial(n - 1) > 0;
    }
  }

  /** Every count is at most the number of apartments, so there is a common multiple and a least one. */
  lemma CycleExists(inp: Inputs) returns (l: nat)
    requires NoDuplicates(inp.apartments)
    ensures IsCycle(inp, l)
  {
    hide Count, Factorial, CommonMultiple;
    var n := |inp.apartments|;
    FactorialPositive(n);
    assert CommonMultiple(inp, Factorial(n)) by { FactorialIsCommon(inp); }
    l := LeastBelow(inp, Factorial(n));
  }

  lemma FactorialIsCommon(inp: Inputs)
    requires NoDuplicates(inp.apartments)
    ensures CommonMultiple(inp, Factorial(|inp.apartments|))
  {
    hide Count, Factorial;
    forall m | Weekday(m) == 0 && Count(inp, m) > 0
      ensures Factorial(|inp.apartments|) % Count(inp, m) == 0
    {
      CoveredOnce(inp, m);
      FactorialIsMultiple(|inp.apartments|, Count(inp, m));
    }
  }

  lemma {:induction false} LeastBelow(inp: Inputs, p: nat) returns (l: nat)
    requires p > 0 && CommonMultiple(inp, p)
    ensures IsCycle(inp, l)
  {
    hide CommonMultiple;
    if q: nat :| 0 < q < p && CommonMultiple(inp, q) {
      l := LeastBelow(inp, q);
    } else {
      l := p;
    }
  }

  lemma RemainderIsMultiple(p: int, l: nat, c: nat)
    requires c > 0 && l > 0 && l % c == 0
    ensures p % c == (p % l) % c
  {
    var q, k := p / l, l / c;
    assert p == q * l + p % l && l == k * c;
    assert q * l == (q * k) * c;
    assert p - p % l == (q * k) * c;
    QuotientIs(p - p % l, c, q * k, 0);
    CongruentIffDifference(p % l, p, c);
  }

  /** The common multiples are the multiples of the least one. */
  lemma CommonMultipleIff(inp: Inputs, l: nat, p: int)
    requires IsCycle(inp, l)
    ensures CommonMultiple(inp, p) <==> p % l == 0
  {
    hide Count, Weekday;
    forall m | Weekday(m) == 0 && Count(inp, m) > 0
      ensures p % Count(inp, m) == (p % l) % Count(inp, m)
    {
      RemainderIsMultiple(p, l, Count(inp, m));
    }
    assert CommonMultiple(inp, p) <==> CommonMultiple(inp, p % l);
    if p % l == 0 {
      ZeroIsCommon(inp);
    }
  }

  lemma ZeroIsCommon(inp: Inputs)
    ensures CommonMultiple(inp, 0)
  {
    hide Count;
    forall m | Weekday(m) == 0 && Count(inp, m) > 0
      ensures 0 % Count(inp, m) == 0
    {
      QuotientIs(0, Count(inp, m), 0, 0);
    }
  }

  /** The different schedules of a building are the residues modulo the least common multiple of its weekly covered
      counts. */
  lemma SchedulesAreResidues(inp: Inputs, l: nat, v: int, w: int)
    requires NoDuplicates(inp.apartments) && IsCycle(inp, l)
    ensures SameDuties(inp, v, w) <==> v % l == w % l
  {
    hide SameDuties, CommonMultiple, IsCycle;
    SameDutiesIffDifference(inp, v, w);
    CommonMultipleIff(inp, l, w - v);
    CycleIsPositive(inp, l);
    CongruentIffDifference(v, w, l);
  }

  lemma CycleIsPositive(inp: Inputs, l: nat)
    requires IsCycle(inp, l)
    ensures l > 0
  {
  }

  /** One of the offered values gives the seed's schedule. */
  ghost predicate Offered(inp: Inputs, n: nat, v: int) {
    exists w :: 0 <= w < n && SameDuties(inp, v, w)
  }

  /** The offered values reach every schedule. */
  ghost predicate OffersAll(inp: Inputs, n: nat) {
    forall v :: Offered(inp, n, v)
  }

  /** No two offered values give the same schedule. */
  ghost predicate OffersOnce(inp: Inputs, n: nat) {
    forall v, w :: 0 <= v < w < n ==> !SameDuties(inp, v, w)
  }

  /**
   The values offered for n apartments are 0 .. n - 1. They reach every schedule
   exactly when the least common multiple of the covered counts is at most n;
   otherwise the seed n is one that none of them matches. They name each
   schedule once exactly when it is at least n.
   */
  lemma OfferedReachAllIff(inp: Inputs, l: nat)
    requires NoDuplicates(inp.apartments) && IsCycle(inp, l)
    ensures var n := |inp.apartments|;
      && (OffersAll(inp, n) <==> l <= n)
      && (n < l ==> !Offered(inp, n, n))
      && (OffersOnce(inp, n) <==> n <= l)
  {
    hide SameDuties, IsCycle;
    var n := |inp.apartments|;
    CycleIsPositive(inp, l);
    forall v, w
      ensures SameDuties(inp, v, w) <==> v % l == w % l
    {
      SchedulesAreResidues(inp, l, v, w);
    }
    forall w | 0 <= w < l
      ensures w % l == w
    {
      QuotientIs(w, l, 0, w);
    }
    if l <= n {
      forall v: int
        ensures Offered(inp, n, v)
      {
        assert 0 <= v % l < n && SameDuties(inp, v, v % l);
      }
    }
    if l < n {
      QuotientIs(l, l, 1, 0);
      assert SameDuties(inp, 0, l);
    }
    assert n < l ==> !Offered(inp, n, n);
  }

  // ----- a building that gains an apartment -----

  /** Two apartments from day 1 on, a third from day 701 on, a Monday as well. */
  function Growing(): Inputs {
    Inputs(0, ["a", "b", "c"],
      [DatedPerson("x", "a", "", "", 1, None), DatedPerson("y", "b", "", "", 1, None),
       DatedPerson("z", "c", "", "", 701, None)], [], [])
  }

  lemma GrowingOwners(a: Id, m: Day)
    requires a in Growing().apartments && (m == 1 || m == 701)
    ensures OwnerFor(Growing(), a, m).Some? <==> m == 701 || a != "c"
  {
    hide OwnersOf;
    var inp := Growing();
    var own := OwnersOf(inp.owners, a);
    assert inp.owners[0] in own || inp.owners[1] in own || inp.owners[2] in own;
  }

  lemma GrowingCounts()
    ensures Weekday(1) == 0 && Count(Growing(), 1) == 2
    ensures Weekday(701) == 0 && Count(Growing(), 701) == 3
  {
    hide OwnerFor;
    var inp := Growing();
    forall a, m | a in inp.apartments && (m == 1 || m == 701)
      ensures OwnerFor(inp, a, m).Some? <==> m == 701 || a != "c"
    {
      GrowingOwners(a, m);
    }
    forall m | m == 1 || m == 701
      ensures Count(inp, m) == if m == 1 then 2 else 3
    {
      assert inp.apartments[..2] == ["a", "b"] && ["a", "b"][..1] == ["a"] && ["a"][..0] == [];
      assert |CoveredIn(inp, [], m)| == 0;
      assert |CoveredIn(inp, ["a"], m)| == 1;
      assert |CoveredIn(inp, ["a", "b"], m)| == 2;
    }
  }

  /** src/web/admin.rs:903-908 says that any value beyond 0 .. n - 1 only repeats an equivalent phase. With two
      covered apartments at first and three later, the seed 3 gives duties that none of 0, 1 and 2 gives. */
  lemma UnofferedSeedWitness()
    ensures var inp := Growing();
      && !SameDuties(inp, 3, 0) && !SameDuties(inp, 3, 1) && !SameDuties(inp, 3, 2)
      && |inp.apartments| == 3 && !OffersAll(inp, 3)
  {
    hide SameDuties, Count;
    var inp := Growing();
    GrowingCounts();
    forall w | 0 <= w < 3
      ensures !SameDuties(inp, 3, w)
    {
      SameDutiesIff(inp, 3, w);
    }
    assert !Offered(inp, 3, 3);
  }
}
