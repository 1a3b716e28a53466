/**
 The backup protocol: the canary row, the upload under the slot's name, and the
 alias that points to the latest upload of a slot. A run can stop after any of
 its steps.

 Times are nanoseconds since the midnight that begins day 1; the canary row and
 with it every snapshot carries whole seconds.
 */
module Backup {
  import opened Wrappers
  import opened Naming
  import opened Calendar

  type Nanos = int
  type Seconds = int

  const SECOND: Nanos := 1_000_000_000
  const HOUR_SECONDS: Seconds := 3600

  function SecondsOf(t: Nanos): Seconds {
    t / SECOND
  }

  function HourOfSeconds(s: Seconds): Hour {
    s / HOUR_SECONDS
  }

  function HourOf(t: Nanos): Hour {
    t / (HOUR_SECONDS * SECOND)
  }

  /** The stored timestamp falls into the same clock hour as the run. */
  lemma SecondsKeepHour(t: Nanos)
    ensures HourOfSeconds(SecondsOf(t)) == HourOf(t)
  {
  }

  /** What a key of the object store holds. */
  datatype Content =
    | Sealed(passphrase: string, canary: Seconds)  // an encrypted snapshot and the canary inside it
    | Pointer(target: string)                      // the text of an alias

  datatype World = World(canary: Option<Seconds>, store: map<string, Content>)

  const NEW_WORLD := World(None, map[])

  datatype Config = Config(prefix: string, passphrase: string, maxAgeHours: nat)

  /** After which step the run fails, times out or crashes. */
  datatype Stop = Never | BeforeCanary | BeforeUpload | BeforeAlias | AfterAlias

  datatype Outcome = Stored(name: string) | Skipped(slot: Slot) | Failed

  // ----- one run -----

  predicate IsSkipped(c: Config, w: World, now: Nanos) {
    w.canary.Some? && ObjectName(c.prefix, HourOfSeconds(w.canary.value)) == ObjectName(c.prefix, HourOf(now))
  }

  /** The world after a run that stops where told. */
  function AfterRun(c: Config, w: World, now: Nanos, stop: Stop): World {
    if IsSkipped(c, w, now) || stop == BeforeCanary then w
    else
      var name := ObjectName(c.prefix, HourOf(now));
      var marked := w.(canary := Some(SecondsOf(now)));
      if stop == BeforeUpload then marked
      else
        var uploaded := marked.(store := w.store[name := Sealed(c.passphrase, SecondsOf(now))]);
        if stop == BeforeAlias then uploaded
        else uploaded.(store := uploaded.store[AliasName(c.prefix, SlotOf(HourOf(now))) := Pointer(name)])
  }

  class Runner {
    const config: Config
    var canary: Option<Seconds>
    var store: map<string, Content>

    constructor (c: Config)
      ensures config == c && World(canary, store) == NEW_WORLD
    {
      config := c;
      canary, store := None, map[];
    }

    /** `write_canary`: the single row is inserted or overwritten. */
    method WriteCanary(now: Nanos)
      modifies this`canary
      ensures canary == Some(SecondsOf(now))
    {
      canary := Some(SecondsOf(now));
    }

    method Put(key: string, content: Content)
      modifies this`store
      ensures store == old(store)[key := content]
    {
      store := store[key := content];
    }

    /** `run_once`, stopped after the given step. */
    method RunOnce(now: Nanos, stop: Stop) returns (r: Outcome)
      modifies this
      ensures World(canary, store) == AfterRun(config, World(old(canary), old(store)), now, stop)
      ensures r.Skipped? <==> stop != BeforeCanary && IsSkipped(config, World(old(canary), old(store)), now)
      ensures r.Skipped? ==> r.slot == SlotOf(HourOf(now))
      ensures r.Stored? ==> stop == Never && r.name == ObjectName(config.prefix, HourOf(now))
      ensures r.Stored? ==> r.name in store && store[r.name] == Sealed(config.passphrase, SecondsOf(now))
      ensures stop == Never ==> !r.Failed?
    {
      if stop == BeforeCanary {
        return Failed;
      }
      if canary.Some? {
        if ObjectName(config.prefix, HourOfSeconds(canary.value)) == ObjectName(config.prefix, HourOf(now)) {
          return Skipped(SlotOf(HourOf(now)));
        }
      }
      WriteCanary(now);
      if stop == BeforeUpload {
        return Failed;
      }
      var ciphertext := Sealed(config.passphrase, canary.value);
      var name := ObjectName(config.prefix, HourOf(now));
      Put(name, ciphertext);
      if stop == BeforeAlias {
        return Failed;
      }
      var alias := AliasName(config.prefix, SlotOf(HourOf(now)));
      AliasIsNoObject(config.prefix, SlotOf(HourOf(now)), HourOf(now));
      Put(alias, Pointer(name));
      if stop == AfterAlias {
        return Failed;
      }
      r := Stored(name);
    }
  }

  // ----- all runs -----

  type Runs = seq<(Nanos, Stop)>

  function Replay(c: Config, runs: Runs): World {
    if runs == [] then NEW_WORLD
    else AfterRun(c, Replay(c, runs[..|runs| - 1]), runs[|runs| - 1].0, runs[|runs| - 1].1)
  }

  ghost predicate MonotoneClock(runs: Runs) {
    forall i, j :: 0 <= i < j < |runs| ==> runs[i].0 <= runs[j].0
  }

  /** The time of the last run that wrote the slot's alias. */
  function LastAliasRun(c: Config, runs: Runs, s: Slot): Option<Nanos> {
    if runs == [] then None
    else
      var front, (now, stop) := runs[..|runs| - 1], runs[|runs| - 1];
      var done := stop == Never || stop == AfterAlias;
      if !IsSkipped(c, Replay(c, front), now) && done && SlotOf(HourOf(now)) == s then Some(now)
      else LastAliasRun(c, front, s)
  }

  /** Every stored snapshot lies under the name its own canary gives it, and none is newer than the canary
      row. */
  ghost predicate SnapshotsNamed(c: Config, w: World) {
    forall k :: k in w.store && w.store[k].Sealed? ==>
      && k == ObjectName(c.prefix, HourOfSeconds(w.store[k].canary))
      && w.store[k].passphrase == c.passphrase
      && w.canary.Some? && w.store[k].canary <= w.canary.value
  }

  /** The key holds a snapshot of the slot. */
  ghost predicate HoldsSlot(c: Config, w: World, key: string, s: Slot) {
    key in w.store && w.store[key].Sealed? && SlotOf(HourOfSeconds(w.store[key].canary)) == s
  }

  /** Every pointer is a slot's alias and leads to a stored snapshot of that slot. */
  ghost predicate AliasesLead(c: Config, w: World) {
    forall k :: k in w.store && w.store[k].Pointer? ==>
      exists s :: k == AliasName(c.prefix, s) && HoldsSlot(c, w, w.store[k].target, s)
  }

  /** The slot's alias leads to a snapshot at least as new as the run that wrote the alias. */
  ghost predicate AliasFresh(c: Config, w: World, s: Slot, writtenAt: Nanos) {
    var k := AliasName(c.prefix, s);
    k in w.store && w.store[k].Pointer? && HoldsSlot(c, w, w.store[k].target, s)
    && SecondsOf(writtenAt) <= w.store[w.store[k].target].canary
  }

  ghost predicate CrashSafe(c: Config, runs: Runs) {
    var w := Replay(c, runs);
    && SnapshotsNamed(c, w)
    && AliasesLead(c, w)
    && (forall s :: LastAliasRun(c, runs, s).Some? ==> AliasFresh(c, w, s, LastAliasRun(c, runs, s).value))
    && (w.canary.Some? ==> runs != [] && w.canary.value <= SecondsOf(runs[|runs| - 1].0))
  }

  // ----- the three writes -----

  lemma MarkKeepsSafe(c: Config, w: World, now: Nanos)
    requires SnapshotsNamed(c, w) && AliasesLead(c, w)
    requires w.canary.Some? ==> w.canary.value <= SecondsOf(now)
    ensures var m := w.(canary := Some(SecondsOf(now)));
      SnapshotsNamed(c, m) && AliasesLead(c, m) &&
      forall s, t :: AliasFresh(c, w, s, t) ==> AliasFresh(c, m, s, t)
  {
    var m := w.(canary := Some(SecondsOf(now)));
    forall k | k in m.store && m.store[k].Pointer?
      ensures exists s :: k == AliasName(c.prefix, s) && HoldsSlot(c, m, m.store[k].target, s)
    {
      var s :| k == AliasName(c.prefix, s) && HoldsSlot(c, w, w.store[k].target, s);
      assert HoldsSlot(c, m, m.store[k].target, s);
    }
  }

  function Uploaded(c: Config, w: World, now: Nanos): World {
    w.(store := w.store[ObjectName(c.prefix, HourOf(now)) := Sealed(c.passphrase, SecondsOf(now))])
  }

  /** Overwriting an object under its name keeps every pointer to it good: only a snapshot of the same slot
      can have lain there. */
  lemma UploadKeepsSlot(c: Config, w: World, now: Nanos, key: string, s: Slot)
    requires SnapshotsNamed(c, w) && HoldsSlot(c, w, key, s) && w.canary == Some(SecondsOf(now))
    ensures HoldsSlot(c, Uploaded(c, w, now), key, s)
    ensures w.store[key].canary <= Uploaded(c, w, now).store[key].canary
  {
    hide ObjectName, SlotOf;
    SecondsKeepHour(now);
    if key == ObjectName(c.prefix, HourOf(now)) {
      SameNameIff(c.prefix, HourOfSeconds(w.store[key].canary), HourOf(now));
    }
  }

  lemma UploadKeepsSafe(c: Config, w: World, now: Nanos)
    requires SnapshotsNamed(c, w) && AliasesLead(c, w) && w.canary == Some(SecondsOf(now))
    ensures var u := Uploaded(c, w, now);
      SnapshotsNamed(c, u) && AliasesLead(c, u) &&
      forall s, t :: AliasFresh(c, w, s, t) ==> AliasFresh(c, u, s, t)
  {
    hide ObjectName, AliasName, SlotOf;
    var u := Uploaded(c, w, now);
    SecondsKeepHour(now);
    forall k | k in u.store && u.store[k].Pointer?
      ensures exists s :: k == AliasName(c.prefix, s) && HoldsSlot(c, u, u.store[k].target, s)
    {
      var s :| k == AliasName(c.prefix, s) && HoldsSlot(c, w, w.store[k].target, s);
      UploadKeepsSlot(c, w, now, w.store[k].target, s);
    }
    forall s, t | AliasFresh(c, w, s, t)
      ensures AliasFresh(c, u, s, t)
    {
      AliasIsNoObject(c.prefix, s, HourOf(now));
      UploadKeepsSlot(c, w, now, w.store[AliasName(c.prefix, s)].target, s);
    }
  }

  function Pointed(c: Config, w: World, now: Nanos): World {
    w.(store := w.store[AliasName(c.prefix, SlotOf(HourOf(now))) := Pointer(ObjectName(c.prefix, HourOf(now)))])
  }

  lemma PointKeepsSlot(c: Config, w: World, now: Nanos, key: string, s: Slot)
    requires SnapshotsNamed(c, w) && HoldsSlot(c, w, key, s)
    ensures HoldsSlot(c, Pointed(c, w, now), key, s)
    ensures key in w.store && Pointed(c, w, now).store[key] == w.store[key]
  {
    AliasIsNoObject(c.prefix, SlotOf(HourOf(now)), HourOfSeconds(w.store[key].canary));
  }

  lemma PointKeepsSafe(c: Config, w: World, now: Nanos)
    requires SnapshotsNamed(c, w) && AliasesLead(c, w)
    requires var name := ObjectName(c.prefix, HourOf(now));
      name in w.store && w.store[name] == Sealed(c.passphrase, SecondsOf(now))
    ensures var p := Pointed(c, w, now);
      && SnapshotsNamed(c, p) && AliasesLead(c, p)
      && AliasFresh(c, p, SlotOf(HourOf(now)), now)
      && forall s, t :: s != SlotOf(HourOf(now)) && AliasFresh(c, w, s, t) ==> AliasFresh(c, p, s, t)
  {
    hide ObjectName, AliasName, SlotOf;
    var p, slot, name := Pointed(c, w, now), SlotOf(HourOf(now)), ObjectName(c.prefix, HourOf(now));
    SecondsKeepHour(now);
    assert HoldsSlot(c, w, name, slot);
    PointKeepsSlot(c, w, now, name, slot);
    forall k | k in p.store && p.store[k].Pointer?
      ensures exists s :: k == AliasName(c.prefix, s) && HoldsSlot(c, p, p.store[k].target, s)
    {
      if k == AliasName(c.prefix, slot) {
        assert HoldsSlot(c, p, p.store[k].target, slot);
      } else {
        var s :| k == AliasName(c.prefix, s) && HoldsSlot(c, w, w.store[k].target, s);
        PointKeepsSlot(c, w, now, w.store[k].target, s);
      }
    }
    forall s, t | s != slot && AliasFresh(c, w, s, t)
      ensures AliasFresh(c, p, s, t)
    {
      if AliasName(c.prefix, s) == AliasName(c.prefix, slot) {
        AliasesDiffer(c.prefix, s, slot);
      }
      PointKeepsSlot(c, w, now, w.store[AliasName(c.prefix, s)].target, s);
    }
  }

  // ----- every run -----

  lemma FrontIsMonotone(runs: Runs)
    requires runs != [] && MonotoneClock(runs)
    ensures MonotoneClock(runs[..|runs| - 1])
    ensures |runs| > 1 ==> SecondsOf(runs[|runs| - 2].0) <= SecondsOf(runs[|runs| - 1].0)
  {
    if |runs| > 1 {
      assert runs[|runs| - 2].0 <= runs[|runs| - 1].0;
    }
  }

  lemma StepIsCrashSafe(c: Config, front: Runs, now: Nanos, stop: Stop)
    requires CrashSafe(c, front)
    requires front != [] ==> SecondsOf(front[|front| - 1].0) <= SecondsOf(now)
    ensures CrashSafe(c, front + [(now, stop)])
  {
    hide ObjectName, AliasName, SlotOf, AliasFresh, SnapshotsNamed, AliasesLead;
    var runs, w := front + [(now, stop)], Replay(c, front);
    assert runs[..|runs| - 1] == front && runs[|runs| - 1] == (now, stop);
    if IsSkipped(c, w, now) || (stop != Never && stop != AfterAlias) {
      assert forall s :: LastAliasRun(c, runs, s) == LastAliasRun(c, front, s);
    }
    if !IsSkipped(c, w, now) && stop != BeforeCanary {
      var marked := w.(canary := Some(SecondsOf(now)));
      MarkKeepsSafe(c, w, now);
      if stop != BeforeUpload {
        var uploaded := Uploaded(c, marked, now);
        UploadKeepsSafe(c, marked, now);
        if stop != BeforeAlias {
          PointKeepsSafe(c, uploaded, now);
          var pointed := Pointed(c, uploaded, now);
          assert Replay(c, runs) == pointed;
          forall s | LastAliasRun(c, runs, s).Some?
            ensures AliasFresh(c, pointed, s, LastAliasRun(c, runs, s).value)
          {
            if s != SlotOf(HourOf(now)) {
              assert AliasFresh(c, w, s, LastAliasRun(c, front, s).value);
            }
          }
        }
      }
    }
  }

  /**
   Crash safety: under a clock that does not go back, after any runs, each
   stopped after any step, every alias leads to a stored snapshot of its slot,
   every snapshot lies under the name of its own canary, and the snapshot an
   alias leads to is never older than the run that wrote the alias.
   */
  lemma {:induction false} RunsAreCrashSafe(c: Config, runs: Runs)
    requires MonotoneClock(runs)
    ensures CrashSafe(c, runs)
  {
    if runs != [] {
      var n := |runs| - 1;
      FrontIsMonotone(runs);
      RunsAreCrashSafe(c, runs[..n]);
      StepIsCrashSafe(c, runs[..n], runs[n].0, runs[n].1);
      assert runs[..n] + [(runs[n].0, runs[n].1)] == runs;
    }
  }

  // ----- verify -----

  datatype Verdict = Verified | NoAlias | BadAlias | NoObject | CannotDecrypt | TooOld

  /** `verify` of the hourly slot. */
  function Verify(c: Config, store: map<string, Content>, now: Nanos): Verdict {
    var alias := AliasName(c.prefix, Hourly);
    if alias !in store then NoAlias
    else if !store[alias].Pointer? then BadAlias
    else if store[alias].target !in store then NoObject
    else
      match store[store[alias].target]
      case Pointer(_) => CannotDecrypt
      case Sealed(passphrase, canary) =>
        if passphrase != c.passphrase then CannotDecrypt
        else
          var age := if now < canary * SECOND then 0 else now - canary * SECOND;
          if age > c.maxAgeHours * HOUR_SECONDS * SECOND then TooOld else Verified
  }

  /** Verification passes as long as the last run that completed the hourly alias lies, at whole seconds,
      within the maximum age, whatever stopped the runs after it. */
  lemma VerifyPassesWhileFresh(c: Config, runs: Runs, now: Nanos)
    requires MonotoneClock(runs)
    requires LastAliasRun(c, runs, Hourly).Some?
    requires now - SecondsOf(LastAliasRun(c, runs, Hourly).value) * SECOND <= c.maxAgeHours * HOUR_SECONDS * SECOND
    ensures Verify(c, Replay(c, runs).store, now) == Verified
  {
    hide ObjectName, AliasName, SlotOf;
    RunsAreCrashSafe(c, runs);
    var w := Replay(c, runs);
    assert AliasFresh(c, w, Hourly, LastAliasRun(c, runs, Hourly).value);
  }

  /** The hourly alias points to a stored snapshot, sealed under the passphrase, whose canary is at most the maximum age
      old. */
  ghost predicate FreshHourly(c: Config, store: map<string, Content>, now: Nanos) {
    var alias := AliasName(c.prefix, Hourly);
    && alias in store && store[alias].Pointer?
    && var target := store[alias].target;
       && target in store && store[target].Sealed? && store[target].passphrase == c.passphrase
       && now - store[target].canary * 1_000_000_000 <= c.maxAgeHours * 3600 * 1_000_000_000
  }

  /** Verification passes on exactly such a store; of all others it says what is wrong. */
  lemma VerifiedIff(c: Config, store: map<string, Content>, now: Nanos)
    ensures Verify(c, store, now) == Verified <==> FreshHourly(c, store, now)
    ensures Verify(c, store, now) == NoAlias <==> AliasName(c.prefix, Hourly) !in store
    ensures Verify(c, store, now) == TooOld ==>
      var target := store[AliasName(c.prefix, Hourly)].target;
      target in store && store[target].Sealed? &&
      now > store[target].canary * 1_000_000_000 + c.maxAgeHours * 3600 * 1_000_000_000
    ensures Verify(c, store, now) == CannotDecrypt ==>
      var target := store[AliasName(c.prefix, Hourly)].target;
      target in store && (store[target].Sealed? ==> store[target].passphrase != c.passphrase)
  {
    hide AliasName;
  }

  /** The alias is there exactly when some run wrote it. */
  lemma {:induction false} AliasIsWrittenIff(c: Config, runs: Runs, s: Slot)
    ensures AliasName(c.prefix, s) in Replay(c, runs).store <==> LastAliasRun(c, runs, s).Some?
  {
    hide ObjectName, AliasName, SlotOf, IsSkipped;
    if runs != [] {
      var n := |runs| - 1;
      var (now, stop) := runs[n];
      AliasIsWrittenIff(c, runs[..n], s);
      AliasIsNoObject(c.prefix, s, HourOf(now));
      if AliasName(c.prefix, s) == AliasName(c.prefix, SlotOf(HourOf(now))) {
        AliasesDiffer(c.prefix, s, SlotOf(HourOf(now)));
      }
    }
  }

  /**
   Verification after any runs, each stopped anywhere, under a clock that does
   not go back: it passes exactly when some run completed the hourly alias and
   the snapshot that the alias leads to is within the maximum age. Without a
   completed alias it says so, and otherwise it can only find the backup too
   old.
   */
  lemma VerifyAfterRunsIff(c: Config, runs: Runs, now: Nanos)
    requires MonotoneClock(runs)
    ensures var store, alias := Replay(c, runs).store, AliasName(c.prefix, Hourly);
      var r := Verify(c, store, now);
      if LastAliasRun(c, runs, Hourly).None? then r == NoAlias
      else
        && alias in store && store[alias].Pointer?
        && store[alias].target in store && store[store[alias].target].Sealed?
        && var age := now - store[store[alias].target].canary * 1_000_000_000;
           r == if age <= c.maxAgeHours * 3600 * 1_000_000_000 then Verified else TooOld
  {
    hide ObjectName, AliasName, SlotOf;
    AliasIsWrittenIff(c, runs, Hourly);
    RunsAreCrashSafe(c, runs);
    if LastAliasRun(c, runs, Hourly).Some? {
      assert AliasFresh(c, Replay(c, runs), Hourly, LastAliasRun(c, runs, Hourly).value);
    }
  }

  // ----- what a skip means -----

  /** A run within 24 clock hours of the canary is skipped exactly when the canary's run was in the same
      clock hour; an older canary can skip a run as well, but only at the distances of the retention
      horizon: at least a day (hourly), a week (daily) or 52 weeks (weekly), and never a yearly run. */
  lemma SkipMeansSameHourOrStale(c: Config, w: World, now: Nanos)
    requires w.canary.Some? && w.canary.value <= SecondsOf(now)
    ensures var then_, this_ := HourOfSeconds(w.canary.value), HourOf(now);
      && then_ <= this_
      && (this_ < then_ + 24 ==> (IsSkipped(c, w, now) <==> then_ == this_))
      && (IsSkipped(c, w, now) && then_ != this_ ==>
            match SlotOf(this_)
            case Hourly => SlotOf(then_) == Hourly && this_ - then_ >= 24
            case Daily => SlotOf(then_) == Daily && this_ - then_ >= 7 * 24
            case Weekly => SlotOf(then_) == Weekly && this_ - then_ >= 364 * 24
            case Yearly => false)
  {
    hide ObjectName, SlotOf;
    var g, h := HourOfSeconds(w.canary.value), HourOf(now);
    SecondsKeepHour(now);
    HourMonotone(w.canary.value, SecondsOf(now));
    if IsSkipped(c, w, now) && g != h {
      RetentionHorizon(c.prefix, g, h);
      assert SlotOf(g) == Hourly || SlotOf(g) == Daily || SlotOf(g) == Weekly || SlotOf(g) == Yearly;
    }
  }

  lemma HourMonotone(s: Seconds, t: Seconds)
    requires s <= t
    ensures HourOfSeconds(s) <= HourOfSeconds(t)
  {
  }

  /** The comment at src/backup/mod.rs:261-263 says a run is skipped when its slot was already backed up,
      after a restart within the hour. The canary is compared by name: when nothing ran in between, the next run
      of the same name is skipped too, however long ago the last one was, and the old backup stays. */
  lemma SameNameSkips(c: Config, now: Nanos, later: Nanos)
    requires ObjectName(c.prefix, HourOf(now)) == ObjectName(c.prefix, HourOf(later))
    ensures var w := Replay(c, [(now, Never)]);
      && IsSkipped(c, w, later)
      && Replay(c, [(now, Never), (later, Never)]) == w
  {
    hide ObjectName, AliasName, SlotOf;
    var runs := [(now, Never), (later, Never)];
    assert runs[..1] == [(now, Never)];
    assert [(now, Never)][..0] == [];
    SecondsKeepHour(now);
  }

  lemma DaysLater(now: Nanos, days: nat)
    ensures HourOf(now + days * 24 * HOUR_SECONDS * SECOND) == HourOf(now) + 24 * days
    ensures HourOfDay(HourOf(now) + 24 * days) == HourOfDay(HourOf(now))
    ensures DayOfHour(HourOf(now) + 24 * days) == DayOfHour(HourOf(now)) + days
  {
  }

  /** So an hourly run is skipped a day after the last run, ... */
  lemma StaleSkipWitness(c: Config, now: Nanos)
    requires HourOfDay(HourOf(now)) != 4
    ensures var later := now + 24 * HOUR_SECONDS * SECOND;
      var w := Replay(c, [(now, Never)]);
      && IsSkipped(c, w, later)
      && Replay(c, [(now, Never), (later, Never)]) == w
  {
    hide IsSkipped, Replay;
    var later := now + 24 * HOUR_SECONDS * SECOND;
    DaysLater(now, 1);
    assert now + 1 * 24 * HOUR_SECONDS * SECOND == later;
    SameNameIff(c.prefix, HourOf(now), HourOf(later));
    SameNameSkips(c, now, later);
  }

  /** ... a daily run a week after it, ... */
  lemma StaleDailySkipWitness(c: Config, now: Nanos)
    requires SlotOf(HourOf(now)) == Daily
    ensures var later := now + 7 * 24 * HOUR_SECONDS * SECOND;
      var w := Replay(c, [(now, Never)]);
      && IsSkipped(c, w, later)
      && Replay(c, [(now, Never), (later, Never)]) == w
  {
    hide IsSkipped, Replay, IsoWeek, YearOf, LastSunday;
    var later := now + 7 * 24 * HOUR_SECONDS * SECOND;
    DaysLater(now, 7);
    SameWeekday(DayOfHour(HourOf(now)));
    SameNameIff(c.prefix, HourOf(now), HourOf(later));
    SameNameSkips(c, now, later);
  }

  lemma SameWeekday(d: Day)
    ensures Weekday(d + 7) == Weekday(d)
  {
  }

  /** ... and a weekly run 52 weeks after it, in every ISO year of 52 weeks. */
  lemma StaleWeeklySkipWitness(c: Config, now: Nanos)
    requires var d := DayOfHour(HourOf(now)); WeeksIn(IsoYear(d)) == 52
    requires SlotOf(HourOf(now)) == Weekly && SlotOf(HourOf(now) + 364 * 24) == Weekly
    ensures var later := now + 364 * 24 * HOUR_SECONDS * SECOND;
      var w := Replay(c, [(now, Never)]);
      && IsSkipped(c, w, later)
      && Replay(c, [(now, Never), (later, Never)]) == w
  {
    hide IsSkipped, Replay, IsoWeek, IsoYear, WeeksIn, YearOf, LastSunday, SlotOf;
    var later := now + 364 * 24 * HOUR_SECONDS * SECOND;
    DaysLater(now, 364);
    SameWeekNextYear(DayOfHour(HourOf(now)));
    SameNameIff(c.prefix, HourOf(now), HourOf(later));
    SameNameSkips(c, now, later);
  }

  /** Such a run is the one of Sunday, January 14, 2024, at 04:00. */
  lemma WeeklyRunExists() returns (now: Nanos)
    ensures var d := DayOfHour(HourOf(now)); d == DayOf(2024, 1, 14) && WeeksIn(IsoYear(d)) == 52
    ensures SlotOf(HourOf(now)) == Weekly && SlotOf(HourOf(now) + 364 * 24) == Weekly
  {
    hide YearOf, IsoYear, WeeksIn, HourOf, DayOfHour, HourOfDay, DayOf, LastSunday, IsLastSundayOfYear;
    now := (24 * 738898 + 4) * HOUR_SECONDS * SECOND;
    WeeklyRunHours();
    WeeklyRunDays();
    WeeklyRunYear();
    NotLastSunday(738899, 2024);
    NotLastSunday(739263, 2025);
  }

  lemma WeeklyRunHours()
    ensures HourOf((24 * 738898 + 4) * HOUR_SECONDS * SECOND) == 24 * 738898 + 4
    ensures DayOfHour(24 * 738898 + 4) == 738899 && HourOfDay(24 * 738898 + 4) == 4
    ensures DayOfHour(24 * 738898 + 4 + 364 * 24) == 739263 && HourOfDay(24 * 738898 + 4 + 364 * 24) == 4
  {
  }

  lemma WeeklyRunDays()
    ensures DayOf(2024, 1, 14) == 738899 && Weekday(738899) == 6 && Weekday(739263) == 6
    ensures YearStart(2024) == 738886 && YearStart(2025) == 739252 && YearStart(2026) == 739617
  {
  }

  lemma WeeklyRunYear()
    ensures IsoYear(738899) == 2024 && WeeksIn(2024) == 52
  {
    hide YearOf, YearStart;
    WeeklyRunDays();
    YearOfUnique(738896, 2024);
    assert MondayOf(738899) == 738893;
  }

  lemma NotLastSunday(d: Day, year: int)
    requires YearStart(year) <= d < YearStart(year + 1) - 7
    ensures !IsLastSundayOfYear(d)
  {
    hide YearOf, YearStart, LastSunday;
    YearOfUnique(d, year);
    OneYearlyDate(d, year);
  }

  lemma SameWeekNextYear(d: Day)
    requires WeeksIn(IsoYear(d)) == 52
    ensures IsoWeek(d + 364) == IsoWeek(d)
  {
    hide IsoWeek, IsoYear, WeeksIn, Week1Monday;
    var y := IsoYear(d);
    MondayFromIsoWeek(d);
    FiftyTwoOrFiftyThree(y);
    FiftyTwoOrFiftyThree(y + 1);
    WeekNumber(y + 1, IsoWeek(d) - 1);
    WeekOfMonday(d + 364);
    MondayShift(d);
  }

  lemma WeekOfMonday(d: Day)
    ensures IsoWeek(MondayOf(d)) == IsoWeek(d)
  {
    hide YearOf, YearStart, MondayOf;
    MondayOfMonday(d);
  }

  lemma MondayOfMonday(d: Day)
    ensures MondayOf(MondayOf(d)) == MondayOf(d)
  {
  }

  lemma MondayShift(d: Day)
    ensures MondayOf(d + 364) == MondayOf(d) + 364
  {
  }

  /** "Skipped" does not say "stored": a first run that stops after the canary makes the next run of the
      hour skip, with nothing in the store. */
  lemma SkippedIsNotStored(c: Config, now: Nanos, later: Nanos)
    requires HourOf(now) == HourOf(later)
    ensures var w := Replay(c, [(now, BeforeUpload)]);
      && w.store == map[]
      && IsSkipped(c, w, later)
      && Replay(c, [(now, BeforeUpload), (later, Never)]) == w
  {
    var runs := [(now, BeforeUpload), (later, Never)];
    assert runs[..1] == [(now, BeforeUpload)];
    assert [(now, BeforeUpload)][..0] == [];
    SecondsKeepHour(now);
  }

  /** The last run that wrote the canary, and where it stopped. */
  function LastMark(c: Config, runs: Runs): Option<(Nanos, Stop)> {
    if runs == [] then None
    else
      var front, (now, stop) := runs[..|runs| - 1], runs[|runs| - 1];
      if !IsSkipped(c, Replay(c, front), now) && stop != BeforeCanary then Some((now, stop)) else LastMark(c, front)
  }

  /** The store holds the snapshot of the given second under its own name. */
  ghost predicate HoldsSnapshot(c: Config, w: World, canary: Seconds) {
    var name := ObjectName(c.prefix, HourOfSeconds(canary));
    name in w.store && w.store[name] == Sealed(c.passphrase, canary)
  }

  /** A run that is not skipped finds no snapshot of its own second: it would lie under the canary's name. */
  lemma NoSnapshotYet(c: Config, runs: Runs, now: Nanos)
    requires CrashSafe(c, runs) && !IsSkipped(c, Replay(c, runs), now)
    requires runs != [] ==> SecondsOf(runs[|runs| - 1].0) <= SecondsOf(now)
    ensures !HoldsSnapshot(c, Replay(c, runs), SecondsOf(now))
  {
    hide ObjectName, AliasName, SlotOf, AliasesLead, AliasFresh;
    SecondsKeepHour(now);
  }

  lemma MarkingRun(c: Config, front: Runs, now: Nanos, stop: Stop)
    requires CrashSafe(c, front) && !IsSkipped(c, Replay(c, front), now) && stop != BeforeCanary
    requires front != [] ==> SecondsOf(front[|front| - 1].0) <= SecondsOf(now)
    ensures var w := AfterRun(c, Replay(c, front), now, stop);
      && w.canary == Some(SecondsOf(now))
      && (HoldsSnapshot(c, w, SecondsOf(now)) <==> stop != BeforeUpload)
  {
    hide ObjectName, AliasName, SlotOf, CrashSafe;
    SecondsKeepHour(now);
    AliasIsNoObject(c.prefix, SlotOf(HourOf(now)), HourOf(now));
    NoSnapshotYet(c, front, now);
  }

  /** After any runs, the canary row is the last marking run's, and its snapshot is stored exactly when that run got
      past the upload. */
  lemma {:induction false} CanaryIsStoredIff(c: Config, runs: Runs)
    requires MonotoneClock(runs)
    ensures var w, mark := Replay(c, runs), LastMark(c, runs);
      && (w.canary.Some? <==> mark.Some?)
      && (mark.Some? ==>
            && w.canary == Some(SecondsOf(mark.value.0))
            && (HoldsSnapshot(c, w, w.canary.value) <==> mark.value.1 != BeforeUpload))
  {
    hide ObjectName, AliasName, SlotOf, CrashSafe, IsSkipped, HoldsSnapshot;
    if runs != [] {
      var n := |runs| - 1;
      var (now, stop) := runs[n];
      FrontIsMonotone(runs);
      CanaryIsStoredIff(c, runs[..n]);
      if !IsSkipped(c, Replay(c, runs[..n]), now) && stop != BeforeCanary {
        RunsAreCrashSafe(c, runs[..n]);
        MarkingRun(c, runs[..n], now, stop);
      }
    }
  }

  /**
   When a skipped run does mean a stored backup: exactly when the last run that
   wrote the canary got past the upload. Then the object under the skipped run's
   own name is that run's snapshot.
   */
  lemma SkippedIsStoredIff(c: Config, runs: Runs, now: Nanos)
    requires MonotoneClock(runs) && IsSkipped(c, Replay(c, runs), now)
    ensures var w, name := Replay(c, runs), ObjectName(c.prefix, HourOf(now));
      && LastMark(c, runs).Some?
      && (name in w.store && w.store[name] == Sealed(c.passphrase, w.canary.value) <==>
            LastMark(c, runs).value.1 != BeforeUpload)
  {
    hide ObjectName, MonotoneClock;
    CanaryIsStoredIff(c, runs);
  }

  lemma CanaryNamesItsHour(c: Config, w: World, now: Nanos, stop: Stop)
    requires stop != BeforeCanary
    ensures forall later :: HourOf(later) == HourOf(now) ==> IsSkipped(c, AfterRun(c, w, now, stop), later)
  {
    hide ObjectName, AliasName, SlotOf;
    SecondsKeepHour(now);
  }

  /** Once a run has got past the canary, the rest of its clock hour changes nothing: a restart never
      overwrites the slot's backup. */
  lemma {:induction false} RestOfHourIsSkipped(c: Config, runs: Runs, now: Nanos, stop: Stop, more: Runs)
    requires stop != BeforeCanary && forall i :: 0 <= i < |more| ==> HourOf(more[i].0) == HourOf(now)
    ensures Replay(c, runs + [(now, stop)] + more) == Replay(c, runs + [(now, stop)])
  {
    hide IsSkipped, HourOf, ObjectName, AliasName, SlotOf;
    var first := runs + [(now, stop)];
    if more == [] {
      assert first + more == first;
    } else {
      var n := |more| - 1;
      RestOfHourIsSkipped(c, runs, now, stop, more[..n]);
      assert (first + more)[..|first| + n] == first + more[..n];
      assert first[..|runs|] == runs;
      CanaryNamesItsHour(c, Replay(c, runs), now, stop);
      assert IsSkipped(c, Replay(c, first), more[n].0);
    }
  }
}
