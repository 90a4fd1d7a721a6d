/** The circuit breaker and the replay protection, and what they guarantee over whole runs.
    Clock readings are arguments. */
module Recovery {
  import opened JsMath
  import opened RollingWindow

  // ----- circuit breaker -----

  datatype BreakerConfig = BreakerConfig(failureThreshold: int, windowMs: int, cooldownMs: int)

  datatype Breaker = Breaker(failures: seq<int>, trippedAt: Option<int>)

  const CLOSED: Breaker := Breaker([], None)

  /** The timestamps later than the cutoff. */
  function After(ts: seq<int>, cutoff: int): seq<int> {
    if ts == [] then [] else (if ts[0] > cutoff then [ts[0]] else []) + After(ts[1..], cutoff)
  }

  /** `tripNow` is the second clock reading, taken if the breaker trips. */
  function WithFailure(c: BreakerConfig, b: Breaker, now: int, tripNow: int): Breaker {
    var kept := After(b.failures + [now], now - c.windowMs);
    Breaker(kept, if |kept| >= c.failureThreshold then Some(tripNow) else b.trippedAt)
  }

  /** The breaker after being asked at `now`: it resets itself once the cooldown has passed. */
  function Asked(c: BreakerConfig, b: Breaker, now: int): Breaker {
    if b.trippedAt.Some? && now - b.trippedAt.value > c.cooldownMs then CLOSED else b
  }

  function TimeUntilReset(c: BreakerConfig, b: Breaker, now: int): int {
    match b.trippedAt
    case None => 0
    case Some(t) => Max(0, c.cooldownMs - (now - t))
  }

  class CircuitBreaker {
    const config: BreakerConfig
    var failures: seq<int>
    var trippedAt: Option<int>

    constructor (config: BreakerConfig)
      ensures this.config == config && Abstract() == CLOSED
    {
      this.config := config;
      failures := [];
      trippedAt := None;
    }

    ghost function Abstract(): Breaker
      reads this
    {
      Breaker(failures, trippedAt)
    }

    method RecordFailure(now: int, tripNow: int)
      modifies this
      ensures Abstract() == WithFailure(config, old(Abstract()), now, tripNow)
    {
      failures := failures + [now];
      PruneWindow(now);
      if |failures| >= config.failureThreshold {
        trippedAt := Some(tripNow);
      }
    }

    method PruneWindow(now: int)
      modifies `failures
      ensures failures == After(old(failures), now - config.windowMs)
    {
      failures := After(failures, now - config.windowMs);
    }

    method IsOpen(now: int) returns (open: bool)
      modifies this
      ensures Abstract() == Asked(config, old(Abstract()), now)
      ensures open <==> Abstract().trippedAt.Some?
    {
      if trippedAt == None {
        return false;
      }
      if now - trippedAt.value > config.cooldownMs {
        trippedAt := None;
        failures := [];
        return false;
      }
      return true;
    }

    method TimeUntilResetMs(now: int) returns (ms: int)
      ensures ms == TimeUntilReset(config, Abstract(), now) >= 0
      ensures var b := Asked(config, Abstract(), now);
              if b.trippedAt.None? then ms == 0
              else forall later :: later >= now ==>
                     (Asked(config, Abstract(), later).trippedAt.Some? <==> later - now <= ms)
    {
      if trippedAt == None {
        return 0;
      }
      return Max(0, config.cooldownMs - (now - trippedAt.value));
    }
  }

  /** How many failures a window may hold: the threshold, but never less than one. */
  function Tolerated(c: BreakerConfig): nat { Max(1, c.failureThreshold) }

  /** The cooldown outlasts the window, so a reset forgets nothing that still counts. */
  predicate CooldownCoversWindow(c: BreakerConfig) { c.windowMs <= 0 || c.cooldownMs + 1 >= c.windowMs }

  /** The kept failures are the last ones of a history; what was forgotten no longer counts. */
  ghost predicate KeptOf(c: BreakerConfig, kept: seq<int>, failed: seq<int>, clock: int) {
    var gone := |failed| - |kept|;
    && Sorted(failed) && (forall i :: 0 <= i < |failed| ==> failed[i] <= clock)
    && gone >= 0 && kept == failed[gone..]
    && forall i :: 0 <= i < gone ==> failed[i] + c.windowMs <= clock
  }

  /** And the history is spaced. */
  ghost predicate HistoryInv(c: BreakerConfig, kept: seq<int>, failed: seq<int>, clock: int) {
    KeptOf(c, kept, failed, clock) && Spaced(failed, Tolerated(c), c.windowMs)
  }

  /** What a breaker knows of the whole history of failures at time `clock`. */
  ghost predicate BreakerInv(c: BreakerConfig, b: Breaker, failed: seq<int>, clock: int) {
    && HistoryInv(c, b.failures, failed, clock) && |b.failures| <= Tolerated(c)
    && match b.trippedAt
       case None => |b.failures| < Tolerated(c)
       case Some(at) => at <= clock && forall i :: 0 <= i < |failed| ==> failed[i] <= at
  }

  /** What a breaker knows of all trips at time `clock`. */
  ghost predicate TripInv(c: BreakerConfig, b: Breaker, trips: seq<int>, clock: int) {
    && (forall t :: t in trips ==> t <= clock)
    && match b.trippedAt
       case None => forall t :: t in trips ==> clock - t > c.cooldownMs
       case Some(at) => at <= clock && forall t :: t in trips ==> t <= at
  }

  lemma BreakerWaits(c: BreakerConfig, b: Breaker, failed: seq<int>, clock: int, now: int)
    requires BreakerInv(c, b, failed, clock) && clock <= now
    ensures BreakerInv(c, b, failed, now)
  {
  }

  lemma AskedKeeps(c: BreakerConfig, b: Breaker, failed: seq<int>, clock: int)
    requires BreakerInv(c, b, failed, clock) && CooldownCoversWindow(c)
    ensures BreakerInv(c, Asked(c, b, clock), failed, clock)
  {
  }

  lemma AskedKeepsTrips(c: BreakerConfig, b: Breaker, trips: seq<int>, clock: int, now: int)
    requires TripInv(c, b, trips, clock) && clock <= now
    ensures TripInv(c, b, trips, now) && TripInv(c, Asked(c, b, now), trips, now)
  {
  }

  lemma {:induction false} AfterAll(ts: seq<int>, cutoff: int)
    requires forall i :: 0 <= i < |ts| ==> ts[i] > cutoff
    ensures After(ts, cutoff) == ts
  {
    if ts != [] { AfterAll(ts[1..], cutoff); }
  }

  lemma {:induction false} AfterIsSuffix(ts: seq<int>, cutoff: int)
    requires Sorted(ts)
    ensures |After(ts, cutoff)| <= |ts|
    ensures var gone := |ts| - |After(ts, cutoff)|;
            After(ts, cutoff) == ts[gone..] && forall i :: 0 <= i < gone ==> ts[i] <= cutoff
  {
    if ts != [] {
      if ts[0] > cutoff {
        AfterAll(ts, cutoff);
      } else {
        AfterIsSuffix(ts[1..], cutoff);
      }
    }
  }

  lemma PrunedIsSuffix(c: BreakerConfig, kept: seq<int>, failed: seq<int>, now: int)
    requires KeptOf(c, kept, failed, now)
    ensures var kept', all := After(kept + [now], now - c.windowMs), failed + [now];
            var gone' := |all| - |kept'|;
            && gone' >= 0 && |kept'| <= |kept| + 1 && kept' == all[gone'..]
            && forall i :: 0 <= i < gone' ==> all[i] + c.windowMs <= now
  {
    var all, recent, gone := failed + [now], kept + [now], |failed| - |kept|;
    assert recent == all[gone..];
    AfterIsSuffix(recent, now - c.windowMs);
    var gone' := |all| - |After(recent, now - c.windowMs)|;
    forall i | 0 <= i < gone'
      ensures all[i] + c.windowMs <= now
    {
      if i >= gone { assert all[i] == recent[i - gone]; }
    }
  }

  lemma {:induction false} AfterAreLater(ts: seq<int>, cutoff: int)
    ensures forall i :: 0 <= i < |After(ts, cutoff)| ==> After(ts, cutoff)[i] > cutoff
  {
    if ts != [] { AfterAreLater(ts[1..], cutoff); }
  }

  lemma KeptAreInWindow(c: BreakerConfig, kept: seq<int>, failed: seq<int>, now: int)
    requires KeptOf(c, kept, failed, now)
    ensures var kept', all := After(kept + [now], now - c.windowMs), failed + [now];
            KeptOf(c, kept', all, now) && |kept'| == InWindow(all, c.windowMs, now)
  {
    var kept', all, cutoff := After(kept + [now], now - c.windowMs), failed + [now], now - c.windowMs;
    var gone := |all| - |kept'|;
    PrunedIsSuffix(c, kept, failed, now);
    AfterAreLater(kept + [now], cutoff);
    forall i | 0 <= i < |all|
      ensures all[i] > cutoff <==> i >= gone
    {
      if i >= gone { assert all[i] == kept'[i - gone]; }
    }
    RestIsInWindow(all, gone, c.windowMs, now);
  }

  /** A closed breaker trips exactly when the window that ends with the new failure holds the
      threshold, whatever history since its last reset it is given. */
  lemma TripsIff(c: BreakerConfig, b: Breaker, failed: seq<int>, now: int, tripNow: int)
    requires KeptOf(c, b.failures, failed, now) && b.trippedAt.None?
    ensures var b' := WithFailure(c, b, now, tripNow);
            && b'.trippedAt == (if InWindow(failed + [now], c.windowMs, now) >= c.failureThreshold then Some(tripNow)
                                else None)
            && KeptOf(c, b'.failures, failed + [now], now)
  {
    KeptAreInWindow(c, b.failures, failed, now);
  }

  lemma AppendKeepsHistory(c: BreakerConfig, kept: seq<int>, failed: seq<int>, now: int)
    requires HistoryInv(c, kept, failed, now) && |kept| < Tolerated(c)
    ensures var kept' := After(kept + [now], now - c.windowMs);
            HistoryInv(c, kept', failed + [now], now) && |kept'| <= Tolerated(c)
  {
    PrunedIsSuffix(c, kept, failed, now);
    SpacedAppend(failed, Tolerated(c), c.windowMs, now);
  }

  /** A failure recorded while the breaker is closed keeps the history spaced. */
  lemma RecordFailureKeeps(c: BreakerConfig, b: Breaker, failed: seq<int>, now: int, tripNow: int)
    requires BreakerInv(c, b, failed, now) && b.trippedAt.None? && now <= tripNow
    ensures BreakerInv(c, WithFailure(c, b, now, tripNow), failed + [now], tripNow)
  {
    AppendKeepsHistory(c, b.failures, failed, now);
  }

  function TripsAfter(trips: seq<int>, b: Breaker, tripNow: int): seq<int> {
    if b.trippedAt.Some? then trips + [tripNow] else trips
  }

  lemma RecordFailureKeepsTrips(c: BreakerConfig, b: Breaker, trips: seq<int>, clock: int, now: int, tripNow: int)
    requires TripInv(c, b, trips, clock) && b.trippedAt.None? && clock <= now <= tripNow
    ensures var b' := WithFailure(c, b, now, tripNow);
            TripInv(c, b', TripsAfter(trips, b', tripNow), tripNow)
  {
  }

  /** The announced time is exact: an open breaker still answers open when that many milliseconds
      have passed, and no longer after one more. */
  lemma ResetTimeIsExact(c: BreakerConfig, b: Breaker, now: int, wait: nat)
    requires Asked(c, b, now).trippedAt.Some?
    ensures Asked(c, b, now + wait).trippedAt.Some? <==> wait <= TimeUntilReset(c, b, now)
  {
  }

  // ----- sequential executions -----

  datatype Outcome = NotRun | Succeeded | Failed(finish: int, trip: int)

  /** One execution: the breaker is asked at `start`; if it is closed the legs may run. */
  datatype Attempt = Attempt(start: int, outcome: Outcome)

  datatype History = History(breaker: Breaker, failed: seq<int>, trips: seq<int>)

  function Execute(c: BreakerConfig, h: History, a: Attempt): History {
    var b := Asked(c, h.breaker, a.start);
    if b.trippedAt.Some? then h.(breaker := b)
    else
      match a.outcome
      case Failed(finish, trip) =>
        var b' := WithFailure(c, b, finish, trip);
        History(b', h.failed + [finish], TripsAfter(h.trips, b', trip))
      case _ => h.(breaker := b)
  }

  function ExecuteAll(c: BreakerConfig, attempts: seq<Attempt>): History {
    if attempts == [] then History(CLOSED, [], [])
    else Execute(c, ExecuteAll(c, attempts[..|attempts| - 1]), attempts[|attempts| - 1])
  }

  lemma ExecuteAllSnoc(c: BreakerConfig, attempts: seq<Attempt>, a: Attempt)
    ensures ExecuteAll(c, attempts + [a]) == Execute(c, ExecuteAll(c, attempts), a)
  {
    assert (attempts + [a])[..|attempts|] == attempts;
  }

  function EndOf(a: Attempt): int { if a.outcome.Failed? then a.outcome.trip else a.start }

  /** One execution after another, under a clock that never goes back. */
  predicate Sequential(attempts: seq<Attempt>) {
    && (forall i :: 0 <= i < |attempts| && attempts[i].outcome.Failed? ==>
          attempts[i].start <= attempts[i].outcome.finish <= attempts[i].outcome.trip)
    && forall i, j :: 0 <= i < j < |attempts| ==> EndOf(attempts[i]) <= attempts[j].start
  }

  /** The trips are always known; the failures, when the cooldown covers the window. */
  ghost predicate HistoryOk(c: BreakerConfig, h: History, clock: int) {
    && TripInv(c, h.breaker, h.trips, clock)
    && (CooldownCoversWindow(c) ==> BreakerInv(c, h.breaker, h.failed, clock))
  }

  lemma ExecuteKeeps(c: BreakerConfig, h: History, a: Attempt)
    requires HistoryOk(c, h, a.start)
    requires a.outcome.Failed? ==> a.start <= a.outcome.finish <= a.outcome.trip
    ensures HistoryOk(c, Execute(c, h, a), EndOf(a))
  {
    ExecuteKeepsTrips(c, h, a);
    if CooldownCoversWindow(c) { ExecuteKeepsFailures(c, h, a); }
  }

  lemma ExecuteKeepsTrips(c: BreakerConfig, h: History, a: Attempt)
    requires TripInv(c, h.breaker, h.trips, a.start)
    requires a.outcome.Failed? ==> a.start <= a.outcome.finish <= a.outcome.trip
    ensures TripInv(c, Execute(c, h, a).breaker, Execute(c, h, a).trips, EndOf(a))
  {
    AskedKeepsTrips(c, h.breaker, h.trips, a.start, a.start);
    var b := Asked(c, h.breaker, a.start);
    if b.trippedAt.None? && a.outcome.Failed? {
      RecordFailureKeepsTrips(c, b, h.trips, a.start, a.outcome.finish, a.outcome.trip);
    }
  }

  lemma ExecuteKeepsFailures(c: BreakerConfig, h: History, a: Attempt)
    requires CooldownCoversWindow(c) && BreakerInv(c, h.breaker, h.failed, a.start)
    requires a.outcome.Failed? ==> a.start <= a.outcome.finish <= a.outcome.trip
    ensures BreakerInv(c, Execute(c, h, a).breaker, Execute(c, h, a).failed, EndOf(a))
  {
    AskedKeeps(c, h.breaker, h.failed, a.start);
    var b := Asked(c, h.breaker, a.start);
    BreakerWaits(c, b, h.failed, a.start, EndOf(a));
    if b.trippedAt.None? && a.outcome.Failed? {
      BreakerWaits(c, b, h.failed, a.start, a.outcome.finish);
      RecordFailureKeeps(c, b, h.failed, a.outcome.finish, a.outcome.trip);
    }
  }

  lemma {:induction false} RunKeepsBreakerInv(c: BreakerConfig, attempts: seq<Attempt>, now: int)
    requires Sequential(attempts)
    requires attempts != [] ==> EndOf(attempts[|attempts| - 1]) <= now
    ensures HistoryOk(c, ExecuteAll(c, attempts), now)
  {
    if attempts != [] {
      var n := |attempts| - 1;
      var a := attempts[n];
      if n > 0 { assert attempts[..n][n - 1] == attempts[n - 1]; }
      RunKeepsBreakerInv(c, attempts[..n], a.start);
      ExecuteKeeps(c, ExecuteAll(c, attempts[..n]), a);
    }
  }

  /** No window, wherever it ends, holds more failed executions than are tolerated. */
  lemma FailuresPerWindowBounded(c: BreakerConfig, attempts: seq<Attempt>, t: int)
    requires CooldownCoversWindow(c) && Sequential(attempts)
    ensures InWindow(ExecuteAll(c, attempts).failed, c.windowMs, t) <= Tolerated(c)
  {
    RunKeepsBreakerInv(c, attempts, if attempts == [] then 0 else EndOf(attempts[|attempts| - 1]));
    SpacedBoundsWindow(ExecuteAll(c, attempts).failed, Tolerated(c), c.windowMs, t);
  }

  /** No execution runs within the cooldown of any trip before it, whatever the configuration. */
  lemma NoLegNearTrip(c: BreakerConfig, attempts: seq<Attempt>, a: Attempt, trip: int)
    requires Sequential(attempts + [a])
    requires Asked(c, ExecuteAll(c, attempts).breaker, a.start).trippedAt.None?
    requires trip in ExecuteAll(c, attempts).trips
    ensures a.start - trip > c.cooldownMs
  {
    var h := ExecuteAll(c, attempts);
    var all := attempts + [a];
    assert forall i :: 0 <= i < |attempts| ==> all[i] == attempts[i];
    assert all[|attempts|] == a;
    RunKeepsBreakerInv(c, attempts, a.start);
    AskedKeepsTrips(c, h.breaker, h.trips, a.start, a.start);
  }

  // ----- the condition on the cooldown is exact -----

  function Zeros(n: nat): (zs: seq<Attempt>)
    ensures |zs| == n && forall i :: 0 <= i < n ==> zs[i] == Attempt(0, Failed(0, 0))
  {
    if n == 0 then [] else Zeros(n - 1) + [Attempt(0, Failed(0, 0))]
  }

  function ZeroTimes(n: nat): (ts: seq<int>)
    ensures |ts| == n && forall i :: 0 <= i < n ==> ts[i] == 0
  {
    if n == 0 then [] else ZeroTimes(n - 1) + [0]
  }

  /** The history of n failures at time 0. */
  function AllAtZero(c: BreakerConfig, n: nat): History {
    var tripped := n == Tolerated(c);
    History(Breaker(ZeroTimes(n), if tripped then Some(0) else None), ZeroTimes(n), if tripped then [0] else [])
  }

  lemma FailureAtZero(c: BreakerConfig, n: nat)
    requires c.windowMs > 0
    ensures WithFailure(c, Breaker(ZeroTimes(n), None), 0, 0) ==
            Breaker(ZeroTimes(n + 1), if n + 1 >= c.failureThreshold then Some(0) else None)
  {
    AfterAll(ZeroTimes(n + 1), -c.windowMs);
  }

  lemma OneMoreAtZero(c: BreakerConfig, n: nat)
    requires c.windowMs > 0 && n < Tolerated(c)
    ensures Execute(c, AllAtZero(c, n), Attempt(0, Failed(0, 0))) == AllAtZero(c, n + 1)
  {
    FailureAtZero(c, n);
    assert ZeroTimes(n + 1) == ZeroTimes(n) + [0];
  }

  lemma {:induction false} ZerosRun(c: BreakerConfig, n: nat)
    requires c.windowMs > 0 && n <= Tolerated(c)
    ensures ExecuteAll(c, Zeros(n)) == AllAtZero(c, n)
  {
    if n > 0 {
      ZerosRun(c, n - 1);
      assert Zeros(n) == Zeros(n - 1) + [Attempt(0, Failed(0, 0))];
      ExecuteAllSnoc(c, Zeros(n - 1), Attempt(0, Failed(0, 0)));
      OneMoreAtZero(c, n - 1);
    }
  }

  /** Once the cooldown is over, one more failure joins the history. */
  lemma LateFailure(c: BreakerConfig, h: History, t: int)
    requires h.breaker.trippedAt.Some? && t - h.breaker.trippedAt.value > c.cooldownMs
    ensures Execute(c, h, Attempt(t, Failed(t, t))).failed == h.failed + [t]
  {
  }

  /** The bound holds on every sequential run exactly when the cooldown covers the window. */
  lemma WindowBoundIff(c: BreakerConfig)
    ensures (forall attempts, t :: Sequential(attempts) ==>
               InWindow(ExecuteAll(c, attempts).failed, c.windowMs, t) <= Tolerated(c))
            <==> CooldownCoversWindow(c)
  {
    if CooldownCoversWindow(c) {
      forall attempts, t | Sequential(attempts)
        ensures InWindow(ExecuteAll(c, attempts).failed, c.windowMs, t) <= Tolerated(c)
      {
        FailuresPerWindowBounded(c, attempts, t);
      }
    } else {
      var attempts, t := ShortCooldownOverflows(c);
      assert Sequential(attempts) && InWindow(ExecuteAll(c, attempts).failed, c.windowMs, t) > Tolerated(c);
    }
  }

  lemma ZerosThenLate(c: BreakerConfig, t: int)
    requires c.windowMs > 0 && t >= 0 && t > c.cooldownMs
    ensures var attempts := Zeros(Tolerated(c)) + [Attempt(t, Failed(t, t))];
            Sequential(attempts) && ExecuteAll(c, attempts).failed == ZeroTimes(Tolerated(c)) + [t]
  {
    var n := Tolerated(c);
    ZerosRun(c, n);
    ExecuteAllSnoc(c, Zeros(n), Attempt(t, Failed(t, t)));
    LateFailure(c, AllAtZero(c, n), t);
  }

  lemma ShortCooldownOverflows(c: BreakerConfig) returns (attempts: seq<Attempt>, t: int)
    requires !CooldownCoversWindow(c)
    ensures Sequential(attempts)
    ensures InWindow(ExecuteAll(c, attempts).failed, c.windowMs, t) > Tolerated(c)
  {
    t := Max(0, c.cooldownMs + 1);
    attempts := Zeros(Tolerated(c)) + [Attempt(t, Failed(t, t))];
    ZerosThenLate(c, t);
    CrowdedWindow(ZeroTimes(Tolerated(c)) + [t], Tolerated(c), c.windowMs, t);
  }

  lemma CrowdedWindow(s: seq<int>, n: nat, w: int, t: int)
    requires |s| == n + 1 && Sorted(s) && 0 <= t < w && s[0] == 0 && s[n] == t
    ensures InWindow(s, w, t) == n + 1
  {
    CountInIsDifference(s, t - w, t);
    CountUpToSplits(s, t);
    CountUpToSplits(s, t - w);
  }

  // ----- replay protection -----

  /** The remembered executions still within the time to live. */
  function Cleanup(executed: map<string, int>, cutoff: int): map<string, int> {
    map id | id in executed && executed[id] > cutoff :: executed[id]
  }

  class ReplayProtection {
    const ttlMs: int
    var executed: map<string, int>

    constructor (ttlMs: int)
      ensures this.ttlMs == ttlMs && executed == map[]
    {
      this.ttlMs := ttlMs;
      executed := map[];
    }

    method IsDuplicate(signalId: string, now: int) returns (dup: bool)
      modifies this
      ensures executed == Cleanup(old(executed), now - ttlMs)
      ensures dup <==> signalId in old(executed) && old(executed)[signalId] + ttlMs > now
    {
      CleanupAt(now);
      return signalId in executed;
    }

    method MarkExecuted(signalId: string, now: int)
      modifies this
      ensures executed == old(executed)[signalId := now]
    {
      executed := executed[signalId := now];
    }

    method CleanupAt(now: int)
      modifies this
      ensures executed == Cleanup(old(executed), now - ttlMs)
    {
      var cutoff := now - ttlMs;
      var ids := executed.Keys;
      while ids != {}
        invariant ids <= old(executed).Keys
        invariant executed == map id | id in old(executed) && (id in ids || old(executed)[id] > cutoff)
                      :: old(executed)[id]
        decreases |ids|
      {
        var id :| id in ids;
        if executed[id] <= cutoff {
          executed := executed - {id};
        }
        ids := ids - {id};
      }
    }
  }

  /** A completed execution: checked for replay at `check`, remembered at `mark`. */
  datatype Execution = Execution(signalId: string, check: int, mark: int)

  /** Every completed execution is still remembered, or its time to live has passed. */
  ghost predicate ReplayInv(ttlMs: int, executed: map<string, int>, done: seq<Execution>, clock: int) {
    && (forall e :: e in done ==> e.mark <= clock)
    && (forall e :: e in done ==>
          (e.signalId in executed && executed[e.signalId] >= e.mark) || e.mark + ttlMs <= clock)
  }

  /** A signal that is not a duplicate at `now` was last completed at least the time to live ago. */
  lemma FreshSignalIsOld(ttlMs: int, executed: map<string, int>, done: seq<Execution>,
                         now: int, id: string, e: Execution)
    requires ReplayInv(ttlMs, executed, done, now)
    requires id !in Cleanup(executed, now - ttlMs) && e in done && e.signalId == id
    ensures e.mark + ttlMs <= now
  {
  }

  lemma CleanupKeeps(ttlMs: int, executed: map<string, int>, done: seq<Execution>, now: int)
    requires ReplayInv(ttlMs, executed, done, now)
    ensures ReplayInv(ttlMs, Cleanup(executed, now - ttlMs), done, now)
  {
  }
}
