/**
 Concrete handovers: one that the theorems assume, and one that leaves neither
 owner four days of a week and so moves the duty to another apartment.
 */
module HandoverEdges {
  import opened Wrappers
  import opened Calendar
  import opened Periods
  import opened Closing
  import opened Apartments
  import opened Registry
  import opened Coverage
  import opened Scheduler
  import opened Resolution
  import opened Spans
  import opened Handover
  import Invariants

  function NoNames(): Names {
    _ => _ => ("", "")
  }

  // ----- a house with two apartments -----

  /** Apartment w passes from a to b on Wednesday, day 1004; v has one owner throughout. */
  function Before(): Table {
    map["a" := Row("w", 972, Some(1003)), "b" := Row("w", 1004, None), "o" := Row("v", 972, None)]
  }

  /** On Saturday, day 1007, b hands over to c. */
  function After(): Table {
    map["a" := Row("w", 972, Some(1003)), "b" := Row("w", 1004, Some(1006)), "o" := Row("v", 972, None),
        "c" := Row("w", 1007, None)]
  }

  function House(ownerships: Table): State {
    State({"h"}, map["w" := Apartment("h", "", 0, "1"), "v" := Apartment("h", "", 1, "2")], ownerships, map[], map[])
  }

  function Plan(ownerships: Table, owners: seq<Id>, seed: int): Inputs
    requires forall id :: id in owners ==> id in ownerships
  {
    Inputs(seed, ["w", "v"], seq(|owners|, i requires 0 <= i < |owners| =>
      PersonOf(owners[i], ownerships[owners[i]], NoNames()(Ownerships))), [], [])
  }

  lemma HouseIsSound()
    ensures Sound(House(Before())) && Tiled(Of(Before(), "w"))
  {
    hide Tiled;
    var t := Before();
    var v: Table := map["o" := t["o"]];
    var none: Table := map[];
    SingletonTiled(v, "o", t["o"]);
    AdjoiningRowsTile();
    forall p
      ensures Tiled(Of(t, p))
    {
      if p == "w" {
        assert Of(t, p) == map["a" := t["a"], "b" := t["b"]];
      } else {
        assert Of(t, p) == Of(v, p);
      }
    }
    TiledTablesAreDisjoint(t);
    TiledTablesAreDisjoint(none);
  }

  lemma AdjoiningRowsTile()
    ensures Tiled(map["a" := Row("w", 972, Some(1003)), "b" := Row("w", 1004, None)])
  {
    var c := map["a" := Row("w", 972, Some(1003)), "b" := Row("w", 1004, None)];
    forall x, y, z | x <= y <= z && Covered(c, x) && Covered(c, z)
      ensures Covered(c, y)
    {
      assert Covers(c["a"], y) || Covers(c["b"], y);
    }
  }

  lemma SaturdayHandover()
    ensures HandedOver(House(Before()), House(After()), Ownerships, "b", "c", Row("w", 1007, None), 1007)
  {
    hide Sound, Tiled, ClosingAccepted, Exec, ForeignKeys;
    var s, t, n := House(Before()), Before(), Row("w", 1007, None);
    HouseIsSound();
    var c := Of(t, "w");
    assert c.Keys == {"a", "b"} && c["b"] == t["b"] && c["a"] == t["a"];
    assert Last(c, "b");
    assert ForeignKeys(s) by { SoundHasKeys(s); }
    ClosingAcceptedIff(c, "b", n);
    ClosingExec(s, Ownerships, "w", "b", "c", n, 1007);
    assert Of(s.buildingOwners, "h") == map[];
    assert t["b" := Ended(t["b"], n)]["c" := n] == After();
  }

  lemma SoundHasKeys(s: State)
    requires Sound(s)
    ensures ForeignKeys(s)
  {
  }

  lemma HouseIsLoaded(ownerships: Table, owners: seq<Id>, seed: int)
    requires forall id :: id in ownerships <==> id in owners
    requires forall id :: id in owners ==> ownerships[id].parent == "w" || ownerships[id].parent == "v"
    ensures Loads(Plan(ownerships, owners, seed), House(ownerships), "h", NoNames())
  {
    var x, s := Plan(ownerships, owners, seed), House(ownerships);
    assert IdsOf(s.apartments, "h") == {"w", "v"};
    forall p
      ensures p in x.owners <==> p.id in ownerships && p == PersonOf(p.id, ownerships[p.id], NoNames()(Ownerships))
    {
      if p.id in ownerships {
        var i :| 0 <= i < |owners| && owners[i] == p.id;
        assert x.owners[i] == PersonOf(p.id, ownerships[p.id], NoNames()(Ownerships));
      }
    }
  }

  lemma DutyOfTwo(inp: Inputs, weekStart: Day)
    requires inp.apartments == ["w", "v"] && inp.seed == -GlobalWeekIndex(weekStart)
    requires OwnerFor(inp, "v", weekStart).Some?
    ensures DutyApartment(inp, weekStart) == Some(if OwnerFor(inp, "w", weekStart).Some? then "w" else "v")
  {
    hide OwnerFor, GlobalWeekIndex;
    assert inp.apartments[..1] == ["w"] && ["w"][..0] == [];
    assert CoveredIn(inp, [], weekStart) == [];
    assert CoveredIn(inp, ["w"], weekStart) ==
      if OwnerFor(inp, "w", weekStart).Some? then [("w", OwnerFor(inp, "w", weekStart).value)] else [];
    assert CoveredList(inp, weekStart) ==
      CoveredIn(inp, ["w"], weekStart) + [("v", OwnerFor(inp, "v", weekStart).value)];
  }

  /** src/scheduler/mod.rs:179-181 says that owner changes never shift the duty weeks of other apartments. In the
      week of Monday 1002 apartment w belongs to a for two days, to b for five. The handover on Saturday leaves b
      three days and c two, so w drops out of the week's rotation and v serves instead. */
  lemma ShortHandoverShiftsDuty()
    ensures var n, seed := Row("w", 1007, None), -GlobalWeekIndex(1002);
      var x, y := Plan(Before(), ["a", "b", "o"], seed), Plan(After(), ["a", "b", "o", "c"], seed);
      && Weekday(1002) == 0
      && HandedOver(House(Before()), House(After()), Ownerships, "b", "c", n, 1007)
      && Reloads(House(Before()), House(After()), x, y, "h", NoNames(), NoNames())
      && Splits(Before()["b"], n, 1002)
      && DutyApartment(x, 1002) == Some("w")
      && DutyApartment(y, 1002) == Some("v")
  {
    hide HandedOver, Reloads, OwnerFor, DutyApartment, GlobalWeekIndex, LosesOwner;
    var n, seed := Row("w", 1007, None), -GlobalWeekIndex(1002);
    var x, y := Plan(Before(), ["a", "b", "o"], seed), Plan(After(), ["a", "b", "o", "c"], seed);
    var s, u := House(Before()), House(After());
    SaturdayHandover();
    HouseReloads(seed);
    forall a | a in x.apartments
      ensures OwnerFor(y, a, 1002).Some? <==> OwnerFor(x, a, 1002).Some? && a != "w"
    {
      HandoverOwners(s, u, x, y, "h", NoNames(), NoNames(), Ownerships, "b", "c", n, 1007, 1002, a);
      OnlyWLoses(x, a);
    }
    assert "w" in x.apartments && "v" in x.apartments;
    OwnedInWeek(x, x.owners[1]);
    OwnedInWeek(x, x.owners[2]);
    DutyOfTwo(x, 1002);
    DutyOfTwo(y, 1002);
  }

  lemma OnlyWLoses(x: Inputs, a: Id)
    requires x.buildingOwners == []
    ensures LosesOwner(House(Before()), x, Ownerships, "h", "b", Row("w", 1007, None), 1002, a) <==> a == "w"
    ensures Splits(Before()["b"], Row("w", 1007, None), 1002)
  {
  }

  lemma HouseReloads(seed: int)
    ensures Reloads(House(Before()), House(After()), Plan(Before(), ["a", "b", "o"], seed),
                    Plan(After(), ["a", "b", "o", "c"], seed), "h", NoNames(), NoNames())
  {
    hide Loads;
    HouseIsLoaded(Before(), ["a", "b", "o"], seed);
    HouseIsLoaded(After(), ["a", "b", "o", "c"], seed);
  }

  lemma OwnedInWeek(inp: Inputs, p: DatedPerson)
    requires p in inp.owners && OverlapDays(p, 1002, 1002 + 6) >= 4
    ensures OwnerFor(inp, p.apartment, 1002).Some?
  {
    hide OverlapDays;
    assert p in OwnersOf(inp.owners, p.apartment);
  }

  // ----- an edit that does the same -----

  /** On Saturday the end of b's period is set to Friday, day 1006; no one follows yet. */
  function Edited(): Table {
    map["a" := Row("w", 972, Some(1003)), "b" := Row("w", 1004, Some(1006)), "o" := Row("v", 972, None)]
  }

  lemma SaturdayEdit()
    ensures Exec(House(Before()), UpdateDates(Ownerships, "b", 1004, Some(1006)), 1007) == Some(House(Edited()))
  {
    hide ChainAccepts, Sound;
    var t, n := Before(), Row("w", 1004, Some(1006));
    EditIsAccepted();
    assert Of(t, "w") - {"b"} == map["a" := t["a"]];
    assert t["b"].(start := 1004, end := Some(1006)) == n;
    assert t["b" := n] == Edited();
  }

  lemma EditIsAccepted()
    ensures ChainAccepts(map["a" := Row("w", 972, Some(1003))], Row("w", 1004, Some(1006)))
  {
    var c, n := map["a" := Row("w", 972, Some(1003))], Row("w", 1004, Some(1006));
    assert c["a"].end.value in EndsBefore(c, n) && Max(EndsBefore(c, n)) == 1003;
    assert StartsAfter(c, n) == {};
  }

  lemma EditedWeek()
    ensures !OwnedFor(House(Edited()), "w", InWeek(1002))
  {
    var s := House(Edited());
    assert Of(s.ownerships, "w") == map["a" := Edited()["a"], "b" := Edited()["b"]];
    assert Of(s.buildingOwners, "h") == map[];
  }

  /** The comment fails for edits as well: after it w has no row with four days of the week, and v serves instead. */
  lemma EditShiftsDuty()
    ensures var seed := -GlobalWeekIndex(1002);
      var x, y := Plan(Before(), ["a", "b", "o"], seed), Plan(Edited(), ["a", "b", "o"], seed);
      && Sound(House(Before()))
      && Exec(House(Before()), UpdateDates(Ownerships, "b", 1004, Some(1006)), 1007) == Some(House(Edited()))
      && Reloads(House(Before()), House(Edited()), x, y, "h", NoNames(), NoNames())
      && DutyApartment(x, 1002) == Some("w")
      && DutyApartment(y, 1002) == Some("v")
  {
    hide OwnerFor, DutyApartment, GlobalWeekIndex, OwnedFor, Exec, Sound, Loads, PersonOf, House, NoNames;
    var seed := -GlobalWeekIndex(1002);
    var x, y := Plan(Before(), ["a", "b", "o"], seed), Plan(Edited(), ["a", "b", "o"], seed);
    HouseIsSound();
    SaturdayEdit();
    HouseIsLoaded(Before(), ["a", "b", "o"], seed);
    HouseIsLoaded(Edited(), ["a", "b", "o"], seed);
    DutyBeforeEdit(x);
    DutyAfterEdit(y);
  }

  lemma DutyBeforeEdit(x: Inputs)
    requires x == Plan(Before(), ["a", "b", "o"], -GlobalWeekIndex(1002))
    ensures DutyApartment(x, 1002) == Some("w")
  {
    hide OwnerFor, DutyApartment, GlobalWeekIndex;
    OwnedInWeek(x, x.owners[1]);
    OwnedInWeek(x, x.owners[2]);
    DutyOfTwo(x, 1002);
  }

  lemma DutyAfterEdit(y: Inputs)
    requires y == Plan(Edited(), ["a", "b", "o"], -GlobalWeekIndex(1002))
    ensures DutyApartment(y, 1002) == Some("v")
  {
    hide OwnerFor, DutyApartment, GlobalWeekIndex, OwnedFor, Exec, Sound, Loads;
    HouseIsSound();
    SaturdayEdit();
    Invariants.ExecKeepsSound(House(Before()), UpdateDates(Ownerships, "b", 1004, Some(1006)), 1007);
    HouseIsLoaded(Edited(), ["a", "b", "o"], y.seed);
    EditedWeek();
    assert "w" in y.apartments;
    OwnerIsStored(y, House(Edited()), "h", NoNames(), "w", 1002);
    OwnedInWeek(y, y.owners[2]);
    DutyOfTwo(y, 1002);
  }

  // ----- what the theorem assumes can be met -----

  /** b hands over after ten years: both parts of the period last long enough. */
  lemma HandoverWitness()
    ensures var t := map["o" := Row("w", 10, None)];
      var u := map["o" := Row("w", 10, Some(3659)), "q" := Row("w", 3660, None)];
      && HandedOver(HouseOf(t), HouseOf(u), Ownerships, "o", "q", u["q"], 3660)
      && Reloads(HouseOf(t), HouseOf(u), SolePlan(t, ["o"]), SolePlan(u, ["o", "q"]), "h", NoNames(), NoNames())
      && u["q"].start - t["o"].start >= 4 && u["q"].end == t["o"].end == None
  {
    hide Loads;
    OpenPeriodHandover();
    SoleApartmentLoads(map["o" := Row("w", 10, None)], ["o"]);
    SoleApartmentLoads(map["o" := Row("w", 10, Some(3659)), "q" := Row("w", 3660, None)], ["o", "q"]);
  }

  function SolePlan(t: Table, owners: seq<Id>): Inputs
    requires forall id :: id in owners ==> id in t
  {
    Inputs(0, ["w"],
      seq(|owners|, i requires 0 <= i < |owners| => PersonOf(owners[i], t[owners[i]], NoNames()(Ownerships))),
      [], [])
  }

  lemma SoleApartmentLoads(t: Table, owners: seq<Id>)
    requires forall id :: id in t <==> id in owners
    requires forall id :: id in owners ==> t[id].parent == "w"
    ensures Loads(SolePlan(t, owners), HouseOf(t), "h", NoNames())
  {
    var x, s := SolePlan(t, owners), HouseOf(t);
    assert IdsOf(s.apartments, "h") == {"w"};
    forall p
      ensures p in x.owners <==> p.id in t && p == PersonOf(p.id, t[p.id], NoNames()(Ownerships))
    {
      if p.id in t {
        var i :| 0 <= i < |owners| && owners[i] == p.id;
        assert x.owners[i] == PersonOf(p.id, t[p.id], NoNames()(Ownerships));
      }
    }
  }

  lemma OpenPeriodHandover()
    ensures var n := Row("w", 3660, None);
      HandedOver(HouseOf(map["o" := Row("w", 10, None)]), HouseOf(map["o" := Row("w", 10, Some(3659)), "q" := n]),
                 Ownerships, "o", "q", n, 3660)
  {
    hide Sound, Tiled;
    var t := map["o" := Row("w", 10, None)];
    var s := HouseOf(t);
    var n := Row("w", 3660, None);
    SoleOwner(t, Row("w", 10, None));
    var c := Of(t, "w");
    assert "o" in c && c["o"] == Row("w", 10, None) && forall o :: o in c ==> o == "o";
    assert Last(c, "o");
    SoundHasKeys(s);
    ClosingCommitsIff(s, Ownerships, "o", "q", n, 3660);
    assert !ExclusionFires(s, Ownerships, "w", 3660);
    assert t["o" := Ended(t["o"], n)]["q" := n] == map["o" := Row("w", 10, Some(3659)), "q" := n];
  }
}
