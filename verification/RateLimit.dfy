/**
 The fixed-window rate limiter of the public PDF endpoint.

 A request carries the address, the time `now` read first, and the later time
 `check` at which `elapsed()` reads the clock again.
 */
module RateLimit {
  import opened Wrappers

  type Ip = string
  type Millis = int

  const LIMIT := 30
  const WINDOW: Millis := 60000

  datatype WindowEntry = WindowEntry(windowStart: Millis, count: nat)

  datatype Request = Request(ip: Ip, now: Millis, check: Millis)

  /** The entry after the request has been counted. */
  function Counted(hits: map<Ip, WindowEntry>, r: Request): WindowEntry {
    var entry := if r.ip in hits then hits[r.ip] else WindowEntry(r.now, 0);
    if r.check - entry.windowStart >= WINDOW then WindowEntry(r.now, 1)
    else entry.(count := entry.count + 1)
  }

  class Limiter {
    var hits: map<Ip, WindowEntry>

    constructor ()
      ensures hits == map[]
    {
      hits := map[];
    }

    /** `rate_limit`: counts the request and says whether it passes. */
    method Admit(r: Request) returns (passes: bool)
      modifies this
      ensures hits == old(hits)[r.ip := Counted(old(hits), r)]
      ensures passes <==> hits[r.ip].count <= LIMIT
    {
      if r.ip !in hits {
        hits := hits[r.ip := WindowEntry(r.now, 0)];
      }
      if r.check - hits[r.ip].windowStart >= WINDOW {
        hits := hits[r.ip := WindowEntry(r.now, 0)];
      }
      hits := hits[r.ip := hits[r.ip].(count := hits[r.ip].count + 1)];
      passes := hits[r.ip].count <= LIMIT;
    }
  }

  // ----- whole runs, all addresses interleaved -----

  /** The table after the requests. */
  function After(run: seq<Request>): map<Ip, WindowEntry> {
    if run == [] then map[]
    else
      var hits, r := After(run[..|run| - 1]), run[|run| - 1];
      hits[r.ip := Counted(hits, r)]
  }

  predicate Passes(run: seq<Request>, i: nat)
    requires i < |run|
  {
    Counted(After(run[..i]), run[i]).count <= LIMIT
  }

  /** The clock never goes back between reads, and the two reads of one request lie at most `skew` apart. */
  ghost predicate Monotone(run: seq<Request>, skew: Millis) {
    && (forall i :: 0 <= i < |run| ==> run[i].now <= run[i].check <= run[i].now + skew)
    && forall i, j :: 0 <= i < j < |run| ==> run[i].check <= run[j].now
  }

  /** How many requests of the address pass with their first reading in [from, to). */
  function PassedBetween(run: seq<Request>, ip: Ip, from: Millis, to: Millis): nat {
    if run == [] then 0
    else
      var n := |run| - 1;
      PassedBetween(run[..n], ip, from, to) +
      (if run[n].ip == ip && from <= run[n].now < to && Passes(run, n) then 1 else 0)
  }

  function AtMostLimit(count: nat): nat {
    if count < LIMIT then count else LIMIT
  }

  /**
   What the table knows about an interval no longer than a window: before any
   window of the address starts inside it, all passes inside it belong to the
   current window; after one started inside it, at most one earlier window
   contributed.
   */
  ghost predicate Accounted(run: seq<Request>, ip: Ip, from: Millis, to: Millis) {
    var hits, passed := After(run), PassedBetween(run, ip, from, to);
    if ip !in hits then passed == 0
    else if hits[ip].windowStart < from then passed <= AtMostLimit(hits[ip].count)
    else if hits[ip].windowStart < to then passed <= LIMIT + AtMostLimit(hits[ip].count)
    else passed <= 2 * LIMIT
  }

  lemma FrontIsMonotone(run: seq<Request>, skew: Millis)
    requires run != [] && Monotone(run, skew)
    ensures Monotone(run[..|run| - 1], skew)
  {
  }

  /** A window starts no later than the latest reading. */
  lemma {:induction false} WindowsStartInThePast(run: seq<Request>, skew: Millis, ip: Ip)
    requires Monotone(run, skew) && ip in After(run)
    ensures run != [] && After(run)[ip].windowStart <= run[|run| - 1].now && After(run)[ip].count > 0
  {
    if run != [] {
      var n := |run| - 1;
      FrontIsMonotone(run, skew);
      if ip in After(run[..n]) {
        WindowsStartInThePast(run[..n], skew, ip);
      }
    }
  }

  lemma {:induction false} AlwaysAccounted(run: seq<Request>, skew: Millis, ip: Ip, from: Millis, to: Millis)
    requires Monotone(run, skew) && to - from <= WINDOW - skew
    ensures Accounted(run, ip, from, to)
  {
    if run != [] {
      var n := |run| - 1;
      FrontIsMonotone(run, skew);
      AlwaysAccounted(run[..n], skew, ip, from, to);
      if ip in After(run[..n]) {
        WindowsStartInThePast(run[..n], skew, ip);
        LaterReading(run, skew);
        if run[n].now < from {
          NothingYet(run[..n], skew, ip, from, to);
        }
      }
    }
  }

  lemma {:induction false} NothingYet(run: seq<Request>, skew: Millis, ip: Ip, from: Millis, to: Millis)
    requires Monotone(run, skew) && (run != [] ==> run[|run| - 1].now < from)
    ensures PassedBetween(run, ip, from, to) == 0
  {
    if run != [] {
      FrontIsMonotone(run, skew);
      if |run| > 1 {
        LaterReading(run, skew);
      }
      NothingYet(run[..|run| - 1], skew, ip, from, to);
    }
  }

  lemma LaterReading(run: seq<Request>, skew: Millis)
    requires |run| > 1 && Monotone(run, skew)
    ensures run[|run| - 2].now <= run[|run| - 1].now
  {
  }

  /**
   Over every interleaving of addresses, at most 60 requests of one address pass
   in any half-open interval of 60 seconds (less the time between the two clock
   readings of a request).
   */
  lemma AtMostSixtyPass(run: seq<Request>, skew: Millis, ip: Ip, from: Millis, to: Millis)
    requires Monotone(run, skew) && to - from <= WINDOW - skew
    ensures PassedBetween(run, ip, from, to) <= 60
  {
    AlwaysAccounted(run, skew, ip, from, to);
  }

  /** The requests of the address since its window started. */
  function PassedInWindow(run: seq<Request>, ip: Ip): nat {
    if run == [] then 0
    else
      var n := |run| - 1;
      var r := run[n];
      if r.ip != ip then PassedInWindow(run[..n], ip)
      else
        var passed := if Passes(run, n) then 1 else 0;
        if ip in After(run[..n]) && r.check - After(run[..n])[ip].windowStart < WINDOW
        then PassedInWindow(run[..n], ip) + passed else passed
  }

  /** In one window exactly the first 30 requests of an address pass. */
  lemma {:induction false} FirstThirtyPass(run: seq<Request>, skew: Millis, ip: Ip)
    requires Monotone(run, skew) && skew < WINDOW
    ensures if ip in After(run) then PassedInWindow(run, ip) == AtMostLimit(After(run)[ip].count)
            else PassedInWindow(run, ip) == 0
  {
    if run != [] {
      var n := |run| - 1;
      FrontIsMonotone(run, skew);
      FirstThirtyPass(run[..n], skew, ip);
    }
  }

  // ----- windows told by the requests alone -----

  /** The last request of the address among the first n. */
  function Latest(run: seq<Request>, ip: Ip, n: nat): (j: Option<nat>)
    requires n <= |run|
    ensures j.Some? ==> j.value < n && run[j.value].ip == ip
    ensures j.Some? ==> forall k :: j.value < k < n ==> run[k].ip != ip
    ensures j.None? ==> forall k :: 0 <= k < n ==> run[k].ip != ip
  {
    if n == 0 then None else if run[n - 1].ip == ip then Some(n - 1) else Latest(run, ip, n - 1)
  }

  /** The request that opened the window in which request i is counted: itself, if it is the address's first or comes
      60 seconds or more after the opening of the window before. */
  function Opener(run: seq<Request>, i: nat): (o: nat)
    requires i < |run|
    ensures o <= i && run[o].ip == run[i].ip
    decreases i
  {
    var before := Latest(run, run[i].ip, i);
    if before.None? then i
    else
      var o := Opener(run, before.value);
      if run[i].check - run[o].now >= 60_000 then i else o
  }

  /** How many of the requests first..end-1 are of the address. */
  function CountOf(run: seq<Request>, ip: Ip, first: nat, end: nat): nat
    requires first <= end <= |run|
    decreases end
  {
    if first == end then 0 else CountOf(run, ip, first, end - 1) + (if run[end - 1].ip == ip then 1 else 0)
  }

  lemma {:induction false} CountSkips(run: seq<Request>, ip: Ip, first: nat, between: nat, end: nat)
    requires first <= between <= end <= |run| && forall k :: between <= k < end ==> run[k].ip != ip
    ensures CountOf(run, ip, first, end) == CountOf(run, ip, first, between)
    decreases end
  {
    if between < end {
      CountSkips(run, ip, first, between, end - 1);
    }
  }

  /** The table knows of each address the opening of its latest window and how many of its requests came since. */
  lemma {:induction false} EntryIsWindow(run: seq<Request>, n: nat, ip: Ip)
    requires n <= |run|
    ensures var j := Latest(run, ip, n);
      && (ip in After(run[..n]) <==> j.Some?)
      && (j.Some? ==>
            var o := Opener(run, j.value);
            After(run[..n])[ip] == WindowEntry(run[o].now, CountOf(run, ip, o, j.value + 1)))
  {
    hide Opener, CountOf;
    if n > 0 {
      var r := run[n - 1];
      assert run[..n][..n - 1] == run[..n - 1] && run[..n][n - 1] == r;
      EntryIsWindow(run, n - 1, ip);
      if r.ip == ip {
        var before := Latest(run, ip, n - 1);
        OpenerStep(run, n - 1);
        if before.Some? {
          var o := Opener(run, before.value);
          CountSkips(run, ip, o, before.value + 1, n - 1);
          CountStep(run, ip, o, n);
        }
        CountStep(run, ip, n - 1, n);
        NoCount(run, ip, n - 1);
      }
    }
  }

  lemma OpenerStep(run: seq<Request>, i: nat)
    requires i < |run|
    ensures var before := Latest(run, run[i].ip, i);
      Opener(run, i) ==
      if before.None? then i
      else if run[i].check - run[Opener(run, before.value)].now >= 60_000 then i else Opener(run, before.value)
  {
  }

  lemma CountStep(run: seq<Request>, ip: Ip, first: nat, end: nat)
    requires first < end <= |run|
    ensures CountOf(run, ip, first, end) == CountOf(run, ip, first, end - 1) + (if run[end - 1].ip == ip then 1 else 0)
  {
  }

  lemma NoCount(run: seq<Request>, ip: Ip, n: nat)
    requires n <= |run|
    ensures CountOf(run, ip, n, n) == 0
  {
  }

  /** A request passes exactly when it is among the first 30 of its address in its window of 60 seconds. */
  lemma PassesIff(run: seq<Request>, i: nat)
    requires i < |run|
    ensures Passes(run, i) <==> CountOf(run, run[i].ip, Opener(run, i), i + 1) <= 30
  {
    hide Opener, CountOf;
    var ip := run[i].ip;
    EntryIsWindow(run, i + 1, ip);
    assert run[..i + 1][..i] == run[..i] && run[..i + 1][i] == run[i];
    assert After(run[..i + 1])[ip] == Counted(After(run[..i]), run[i]);
  }
}
