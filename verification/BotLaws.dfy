/** What a step of the bot starts: exactly when a tick enters, moves on, books a dry run or starts its
    legs, and that no leg starts but past every gate before it. */
module BotLaws {
  import opened JsMath
  import opened Core
  import opened RollingWindow
  import opened Recovery
  import opened Inventory
  import opened ArbBot
  import Executor
  import Risk
  import RiskLaws

  /** A tick is over and the bot idle; nothing was booked, and no leg started. */
  ghost predicate Ended(s: State, s': State, tick: nat) {
    && s'.ticks == s.ticks - {tick} && s'.tickState == IDLE
    && s'.booked == s.booked && s'.trades == s.trades && s'.legs == s.legs
  }

  /** A tick has moved on to this point; nothing was booked. */
  ghost predicate Moved(s: State, s': State, tick: nat, pc: Pc) {
    s'.ticks == s.ticks[tick := pc] && s'.booked == s.booked && s'.trades == s.trades
  }

  /** An update enters only an idle bot, through open gates; otherwise no tick changes. */
  lemma EntersIff(c: Config, s: State, tick: nat, gate: Gate)
    requires tick !in s.ticks
    ensures var s' := Next(c, s, Depth(tick, gate));
            && s'.booked == s.booked && s'.trades == s.trades && s'.legs == s.legs
            && if gate == Open && s.tickState == IDLE
               then s'.ticks == s.ticks[tick := AwaitSignal] && s'.tickState != IDLE
               else s'.ticks == s.ticks && s'.tickState == s.tickState
  {
    assert Next(c, s, Depth(tick, gate)) == OnDepth(s, tick, gate);
  }

  /** Reading the risk status, as open gates do, keeps the trades of the last hour; a kill switch leaves
      everything as it is. */
  lemma StatusKeepsLastHour(c: Config, s: State, tick: nat, gate: Gate)
    requires Risk.KeptInv(s.risk.timestamps, s.trades, s.clock)
    ensures Next(c, s, Depth(tick, KillSwitch)) == s
    ensures |Next(c, s, StatusRead).risk.timestamps| == InWindow(s.trades, 3_600_000, s.clock)
    ensures gate != KillSwitch ==>
              Next(c, s, Depth(tick, gate)).risk.timestamps == Next(c, s, StatusRead).risk.timestamps
  {
    RiskLaws.PrunedIsLastHour(s.risk.timestamps, s.trades, s.clock);
    assert Next(c, s, Depth(tick, gate)) == OnDepth(s, tick, gate);
  }

  /** Balances that are read replace those of their venue; a new day clears the daily profit and the
      streak; neither touches anything else. */
  lemma ReadingAndReset(c: Config, s: State, venue: Venue, assets: Assets)
    ensures var s' := Next(c, s, BalancesRead(venue, assets));
            && s'.cex == (if venue == Binance then assets else s.cex)
            && s'.wallet == (if venue == Binance then s.wallet else assets)
            && s' == s.(cex := s'.cex, wallet := s'.wallet)
    ensures Next(c, s, DailyReset) == s.(risk := s.risk.(dailyPnl := 0, consecutiveLosses := 0))
  {
  }

  /** No limit of the risk manager is reached. */
  ghost predicate WithinLimits(c: Config, s: State, sig: Signal, value: int) {
    forall w :: w != Risk.Allowed ==> !RiskLaws.Reached(w, c.limits, s.risk, sig, value, s.trades, s.clock)
  }

  /** A signal moves on exactly within every risk limit and past the safety check: to the fresh price,
      or in a dry run to its booking. Otherwise the tick ends. */
  lemma SignalMovesIff(c: Config, s: State, tick: nat, signal: Option<Signal>, safetyOk: bool, delay: nat, value: int)
    requires At(s, tick, AwaitSignal) && s.risk.peak >= s.risk.current
    requires Risk.KeptInv(s.risk.timestamps, s.trades, s.clock)
    requires signal.Some? ==> RiskLaws.IsValue(value, signal.value)
    ensures var s' := Next(c, s, SignalReady(tick, signal, safetyOk, delay));
            && s'.legs == s.legs
            && if !(signal.Some? && safetyOk && WithinLimits(c, s, signal.value, value)) then Ended(s, s', tick)
               else if !c.exec.simulation then Moved(s, s', tick, AwaitPeek)
               else
                 && s'.booked == s.booked + [DryRun(signal.value)]
                 && s'.ticks == s.ticks - {tick} && s'.tickState == IDLE
  {
    if signal.Some? {
      RiskLaws.VerdictIff(c.limits, s.risk, signal.value, value, s.trades, s.clock, Risk.Allowed);
    }
  }

  /** The clock readings of the executor's gates: the breaker is asked first. */
  function Readings(s: State, delay: nat): Executor.Times {
    var later := s.clock + delay;
    Executor.Times(s.clock, later, later, later, later, later)
  }

  ghost predicate Licenses(c: Config, s: State, sig: Signal, delay: nat) {
    Executor.Licensed(c.breaker, s.breaker, c.ttlMs, s.executed, Balances(s), sig, c.exec, Readings(s, delay))
  }

  lemma LicensesIff(c: Config, s: State, sig: Signal, delay: nat)
    requires sig.base != sig.quote
    ensures var s1 := Queried(c, s);
            var s2 := Forgotten(c, s1, delay);
            Licenses(c, s, sig, delay) <==>
              s1.breaker.trippedAt.None? && sig.signalId !in s2.executed && Ready(s2, sig)
  {
    Executor.PassesIff(c.breaker, s.breaker, c.ttlMs, s.executed, Balances(s), sig, c.exec, Readings(s, delay));
  }

  lemma PeekStarts(c: Config, s: State, tick: nat, peeked: Option<Signal>, minProfit: int, delay: nat)
    ensures var s', now := OnPeek(c, s, tick, peeked, minProfit, delay), s.clock + delay;
            var s1 := Queried(c, s);
            var s2 := Forgotten(c, s1, delay);
            if && peeked.Some? && peeked.value.expectedNetPnl >= minProfit && s1.breaker.trippedAt.None?
               && peeked.value.signalId !in s2.executed && Ready(s2, peeked.value)
            then Moved(s, s', tick, AwaitLegs(peeked.value, now)) && s'.legs == s.legs + [LegStart(now, |s.trips|)]
            else Ended(s, s', tick) || (Moved(s, s', tick, AwaitSync) && s'.legs == s.legs)
  {
  }

  /** The legs start only on a fresh signal that still pays and that every gate of the executor
      licenses: breaker, replay, expiry and both balances. Otherwise nothing is sent or booked, and
      the tick ends or goes on to reading the balances. */
  lemma LegsStartIff(c: Config, s: State, tick: nat, peeked: Option<Signal>, minProfit: int, delay: nat)
    requires At(s, tick, AwaitPeek) && (peeked.Some? ==> peeked.value.base != peeked.value.quote)
    ensures var s', now := Next(c, s, PeekReady(tick, peeked, minProfit, delay)), s.clock + delay;
            if peeked.Some? && peeked.value.expectedNetPnl >= minProfit && Licenses(c, s, peeked.value, delay)
            then Moved(s, s', tick, AwaitLegs(peeked.value, now)) && s'.legs == s.legs + [LegStart(now, |s.trips|)]
            else Ended(s, s', tick) || (Moved(s, s', tick, AwaitSync) && s'.legs == s.legs)
  {
    if peeked.Some? { LicensesIff(c, s, peeked.value, delay); }
    PeekStarts(c, s, tick, peeked, minProfit, delay);
  }

  /** What is left when the legs of a tick are over. */
  ghost predicate EndedAs(s: State, s': State, tick: nat, sig: Signal, course: Executor.Course, delay: nat) {
    if course.Throws? then Ended(s, s', tick) && s'.executed == s.executed && s'.breaker == s.breaker
    else
      && s'.ticks == s.ticks[tick := AwaitSync] && s'.executed == s.executed[sig.signalId := s.clock]
      && if course.Completed?
         then s'.booked == s.booked + [Executed(sig, course.leg1, course.leg2)] && s'.breaker == s.breaker
         else s'.booked == s.booked && s'.failed == s.failed + [s.clock + delay]
              && s'.cex == s.cex && s'.wallet == s.wallet
  }

  lemma CourseEnds(c: Config, s: State, tick: nat, course: Executor.Course, delay: nat, tripDelay: nat)
    requires AtLegs(s, tick)
    ensures EndedAs(s, OnLegs(c, s, tick, s.ticks[tick], course, delay, tripDelay), tick,
                    s.ticks[tick].signal, course, delay)
  {
  }

  /** A completed execution is booked with both its fills, any other is counted by the breaker, and
      either is remembered for replay; one that throws leaves no trace. */
  lemma LegsEnd(c: Config, s: State, tick: nat, replies: Executor.Replies, delay: nat, tripDelay: nat)
    requires AtLegs(s, tick)
    ensures var sig := s.ticks[tick].signal;
            EndedAs(s, Next(c, s, LegsDone(tick, replies, delay, tripDelay)), tick, sig,
                    Executor.CourseOf(sig, c.exec, replies), delay)
  {
    CourseEnds(c, s, tick, Executor.CourseOf(s.ticks[tick].signal, c.exec, replies), delay, tripDelay);
  }

  // ----- every run -----

  /** The states of a run: before the first step, and after each. */
  function States(c: Config, s0: State, steps: seq<Step>): (states: seq<State>)
    ensures |states| == |steps| + 1 && states[|steps|] == Run(c, s0, steps)
  {
    if steps == [] then [s0] else States(c, s0, steps[..|steps| - 1]) + [Run(c, s0, steps)]
  }

  /** The step clears the tick for the fresh price: a signal within the limits, and safe. */
  ghost predicate Clears(c: Config, s: State, e: Step, tick: nat) {
    && e.SignalReady? && e.tick == tick && e.signal.Some? && e.safetyOk
    && Risk.Check(c.limits, s.risk, e.signal.value, s.clock).1 == Risk.Allowed
  }

  /** The step starts the legs of the tick: the fresh signal still pays, and is licensed. */
  ghost predicate Pays(c: Config, s: State, e: Step, tick: nat, sig: Signal) {
    && e.PeekReady? && e.tick == tick && e.peeked == Some(sig) && sig.expectedNetPnl >= e.minProfit
    && (sig.base != sig.quote ==> Licenses(c, s, sig, e.delay))
  }

  /** The tick entered through open gates at step `i` and has been in flight ever since. */
  ghost predicate Entered(states: seq<State>, steps: seq<Step>, tick: nat, i: nat)
    requires |states| == |steps| + 1
  {
    i < |steps| && steps[i] == Depth(tick, Open) && forall n :: i < n <= |steps| ==> tick in states[n].ticks
  }

  ghost predicate Cleared(c: Config, states: seq<State>, steps: seq<Step>, tick: nat, i: nat, j: nat)
    requires |states| == |steps| + 1
  {
    Entered(states, steps, tick, i) && i < j < |steps| && Clears(c, states[j], steps[j], tick)
  }

  ghost predicate Paid(c: Config, states: seq<State>, steps: seq<Step>, tick: nat, i: nat, j: nat, k: nat, sig: Signal)
    requires |states| == |steps| + 1
  {
    Cleared(c, states, steps, tick, i, j) && j < k < |steps| && Pays(c, states[k], steps[k], tick, sig)
  }

  /** What lies behind a tick, by where it waits. */
  ghost predicate Behind(c: Config, states: seq<State>, steps: seq<Step>, tick: nat, pc: Pc)
    requires |states| == |steps| + 1
  {
    match pc
    case AwaitSignal => exists i :: Entered(states, steps, tick, i)
    case AwaitPeek => exists i, j :: Cleared(c, states, steps, tick, i, j)
    case AwaitLegs(sig, _) => exists i, j, k :: Paid(c, states, steps, tick, i, j, k, sig)
    case AwaitSync => true
  }

  /** How a step moves a tick. */
  ghost predicate Moves(c: Config, s: State, e: Step, s': State, tick: nat) {
    tick in s'.ticks ==>
      var pc := s'.ticks[tick];
      if tick !in s.ticks then e == Depth(tick, Open) && pc == AwaitSignal
      else
        || pc == s.ticks[tick] || pc == AwaitSync
        || (s.ticks[tick].AwaitSignal? && pc.AwaitPeek? && Clears(c, s, e, tick))
        || (s.ticks[tick].AwaitPeek? && pc.AwaitLegs? && Pays(c, s, e, tick, pc.signal))
  }

  lemma SignalMoves(c: Config, s: State, e: Step, tick: nat)
    requires e.SignalReady? && At(s, e.tick, AwaitSignal)
    ensures Moves(c, s, e, OnSignal(c, s, e.tick, e.signal, e.safetyOk, e.delay), tick)
  {
  }

  lemma PeekMoves(c: Config, s: State, e: Step, tick: nat)
    requires e.PeekReady? && At(s, e.tick, AwaitPeek)
    ensures Moves(c, s, e, OnPeek(c, s, e.tick, e.peeked, e.minProfit, e.delay), tick)
  {
    PeekStarts(c, s, e.tick, e.peeked, e.minProfit, e.delay);
    if e.peeked.Some? && e.peeked.value.base != e.peeked.value.quote { LicensesIff(c, s, e.peeked.value, e.delay); }
  }

  lemma LegsMove(c: Config, s: State, e: Step, course: Executor.Course, tick: nat)
    requires e.LegsDone? && AtLegs(s, e.tick)
    ensures Moves(c, s, e, OnLegs(c, s, e.tick, s.ticks[e.tick], course, e.delay, e.tripDelay), tick)
  {
  }

  lemma MinorMoves(c: Config, s: State, e: Step, tick: nat)
    ensures Moves(c, s, e, Minor(s, e), tick)
  {
  }

  lemma StepMoves(c: Config, s: State, e: Step, tick: nat)
    ensures Moves(c, s, e, Next(c, s, e), tick)
  {
    match e
    case SignalReady(t, _, _, _) => if At(s, t, AwaitSignal) { SignalMoves(c, s, e, tick); }
    case PeekReady(t, _, _, _) => if At(s, t, AwaitPeek) { PeekMoves(c, s, e, tick); }
    case LegsDone(t, replies, _, _) =>
      if AtLegs(s, t) { LegsMove(c, s, e, Executor.CourseOf(s.ticks[t].signal, c.exec, replies), tick); }
    case _ => MinorMoves(c, s, e, tick);
  }

  lemma EnteredStays(states: seq<State>, steps: seq<Step>, s': State, e: Step, tick: nat, i: nat)
    requires |states| == |steps| + 1 && Entered(states, steps, tick, i) && tick in s'.ticks
    ensures Entered(states + [s'], steps + [e], tick, i)
  {
  }

  lemma ClearedStays(c: Config, states: seq<State>, steps: seq<Step>, s': State, e: Step, tick: nat, i: nat, j: nat)
    requires |states| == |steps| + 1 && Cleared(c, states, steps, tick, i, j) && tick in s'.ticks
    ensures Cleared(c, states + [s'], steps + [e], tick, i, j)
  {
    EnteredStays(states, steps, s', e, tick, i);
  }

  /** One step adds at most one gate to what lies behind a tick. */
  lemma BehindGrows(c: Config, states: seq<State>, steps: seq<Step>, s': State, e: Step, tick: nat)
    requires |states| == |steps| + 1 && Moves(c, states[|steps|], e, s', tick) && tick in s'.ticks
    requires var s := states[|steps|]; tick in s.ticks ==> Behind(c, states, steps, tick, s.ticks[tick])
    ensures Behind(c, states + [s'], steps + [e], tick, s'.ticks[tick])
  {
    var s, n, states', steps' := states[|steps|], |steps|, states + [s'], steps + [e];
    if tick !in s.ticks {
      assert Entered(states', steps', tick, n);
    } else if !s'.ticks[tick].AwaitSync? {
      match s.ticks[tick]
      case AwaitSignal =>
        var i :| Entered(states, steps, tick, i);
        EnteredStays(states, steps, s', e, tick, i);
        assert s'.ticks[tick].AwaitPeek? ==> Cleared(c, states', steps', tick, i, n);
      case AwaitPeek =>
        var i, j :| Cleared(c, states, steps, tick, i, j);
        ClearedStays(c, states, steps, s', e, tick, i, j);
        assert s'.ticks[tick].AwaitLegs? ==> Paid(c, states', steps', tick, i, j, n, s'.ticks[tick].signal);
      case AwaitLegs(sig, _) =>
        var i, j, k :| Paid(c, states, steps, tick, i, j, k, sig);
        ClearedStays(c, states, steps, s', e, tick, i, j);
        assert Paid(c, states', steps', tick, i, j, k, sig);
      case AwaitSync =>
    }
  }

  /** Behind every tick in flight lie its earlier gates, in order: behind running legs, so before any
      order is sent or execution booked, an entry through open gates, a signal that the risk manager
      and the safety check let pass, and a fresh signal that still paid and was licensed. */
  lemma {:induction false} NoLegUncleared(c: Config, s0: State, steps: seq<Step>, tick: nat)
    requires Initial(s0) && tick in Run(c, s0, steps).ticks
    ensures Behind(c, States(c, s0, steps), steps, tick, Run(c, s0, steps).ticks[tick])
  {
    if steps != [] {
      var front, e := steps[..|steps| - 1], steps[|steps| - 1];
      var s := Run(c, s0, front);
      if tick in s.ticks { NoLegUncleared(c, s0, front, tick); }
      StepMoves(c, s, e, tick);
      BehindGrows(c, States(c, s0, front), front, Run(c, s0, steps), e, tick);
      assert steps == front + [e];
    }
  }

  // ----- outcomes -----

  function Executions(booked: seq<Booking>): nat {
    if booked == [] then 0
    else Executions(booked[..|booked| - 1]) + if booked[|booked| - 1].Executed? then 1 else 0
  }

  /** How many executions have returned, were booked, and failed; and a peak above the capital. */
  ghost predicate Outcomes(s: State) {
    && |s.done| == Executions(s.booked) + |s.failed| && |s.trips| <= |s.failed|
    && s.risk.peak >= s.risk.current
  }

  lemma LegsKeepOutcomes(c: Config, s: State, tick: nat, course: Executor.Course, delay: nat, tripDelay: nat)
    requires Outcomes(s) && AtLegs(s, tick)
    ensures Outcomes(OnLegs(c, s, tick, s.ticks[tick], course, delay, tripDelay))
  {
  }

  lemma BookKeepsOutcomes(s: State, b: Booking, profit: int)
    requires Outcomes(s) && b.DryRun?
    ensures Outcomes(Book(s, b, profit))
  {
    assert (s.booked + [b])[..|s.booked|] == s.booked;
  }

  lemma SignalKeepsOutcomes(c: Config, s: State, tick: nat, signal: Option<Signal>, safetyOk: bool, delay: nat)
    requires Outcomes(s)
    ensures Outcomes(OnSignal(c, s, tick, signal, safetyOk, delay))
  {
    if signal.Some? {
      var risk := Risk.Check(c.limits, s.risk, signal.value, s.clock).0;
      RiskLaws.CheckKeepsBooks(c.limits, s.risk, signal.value, s.clock);
      BookKeepsOutcomes(Later(s.(risk := risk), delay), DryRun(signal.value), signal.value.expectedNetPnl);
    }
  }

  lemma PeekKeepsOutcomes(c: Config, s: State, tick: nat, peeked: Option<Signal>, minProfit: int, delay: nat)
    requires Outcomes(s)
    ensures Outcomes(OnPeek(c, s, tick, peeked, minProfit, delay))
  {
  }

  lemma MinorKeepsOutcomes(s: State, e: Step)
    requires Outcomes(s)
    ensures Outcomes(Minor(s, e))
  {
  }

  /** Over every run each execution that returned was either booked or counted as failed, never both,
      and the breaker tripped no more often than executions failed. */
  lemma {:induction false} EveryOutcomeCounted(c: Config, s0: State, steps: seq<Step>)
    requires Initial(s0)
    ensures Outcomes(Run(c, s0, steps))
  {
    if steps != [] {
      var s := Run(c, s0, steps[..|steps| - 1]);
      EveryOutcomeCounted(c, s0, steps[..|steps| - 1]);
      match steps[|steps| - 1]
      case SignalReady(t, signal, safetyOk, delay) => SignalKeepsOutcomes(c, s, t, signal, safetyOk, delay);
      case PeekReady(t, peeked, minProfit, delay) => PeekKeepsOutcomes(c, s, t, peeked, minProfit, delay);
      case LegsDone(t, replies, delay, tripDelay) =>
        if AtLegs(s, t) {
          LegsKeepOutcomes(c, s, t, Executor.CourseOf(s.ticks[t].signal, c.exec, replies), delay, tripDelay);
        }
      case e => MinorKeepsOutcomes(s, e);
    }
  }

  /** After any run the tick in flight ends when its balances are read, or whenever it throws, and
      leaves the bot idle for the next update. */
  lemma EndsIdle(c: Config, s0: State, steps: seq<Step>, tick: nat)
    requires Initial(s0) && tick in Run(c, s0, steps).ticks
    ensures var s := Run(c, s0, steps);
            && Next(c, s, Throws(tick)).ticks == map[] && Next(c, s, Throws(tick)).tickState == IDLE
            && (s.ticks[tick] == AwaitSync ==>
                  Next(c, s, SyncDone(tick)).ticks == map[] && Next(c, s, SyncDone(tick)).tickState == IDLE)
  {
    RunInvariants(c, s0, steps);
    EndExclusive(Run(c, s0, steps), tick);
  }
}
