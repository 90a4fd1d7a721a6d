/** The tick protocol of the bot: asynchronous ticks interleave at every await, and share the
    tick state, the risk manager, the circuit breaker, the replay protection and the balances.

    A step is one atomic section, from one await to the next. What the outside world decides is
    an argument of the step; delays are the time that passes between the clock readings of one
    section. A step that is not enabled changes nothing. */
module ArbBot {
  import opened JsMath
  import opened Core
  import opened RollingWindow
  import opened Recovery
  import opened Inventory
  import Executor
  import Risk

  datatype BotState = IDLE | GENERATING | EXECUTING

  /** Where a tick in flight is waiting. */
  datatype Pc =
    | AwaitSignal
    | AwaitPeek
    | AwaitLegs(signal: Signal, check: int)
    | AwaitSync

  datatype Config = Config(limits: Risk.Limits, breaker: BreakerConfig, ttlMs: int, exec: Executor.Config)

  /** The balances at the two venues. */
  datatype Ledger = Ledger(cex: Assets, wallet: Assets)

  datatype LegStart = LegStart(at: int, tripsBefore: nat)

  /** What a recorded trade was: one of a dry run, or a completed execution with its two fills. */
  datatype Booking =
    | DryRun(signal: Signal)
    | Executed(signal: Signal, leg1: Executor.LegResult, leg2: Executor.LegResult)

  /** The shared state, and a log of what has happened: trades recorded by the risk manager,
      failed executions, trips, completed executions and the starts of legs. */
  datatype State = State(
    tickState: BotState, ticks: map<nat, Pc>, clock: int,
    risk: Risk.State, breaker: Breaker, executed: map<string, int>, cex: Assets, wallet: Assets,
    trades: seq<int>, booked: seq<Booking>, failed: seq<int>, trips: seq<int>,
    done: seq<Execution>, legs: seq<LegStart>)

  /** The safety gates at the entry of a tick; the kill switch is read before the risk status. */
  datatype Gate = Open | KillSwitch | AutoKill

  datatype Step =
    | Wait(delay: nat)
    | Depth(tick: nat, gate: Gate)
    | SignalReady(tick: nat, signal: Option<Signal>, safetyOk: bool, delay: nat)
    | PeekReady(tick: nat, peeked: Option<Signal>, minProfit: int, delay: nat)
    | LegsDone(tick: nat, replies: Executor.Replies, delay: nat, tripDelay: nat)
    | SyncDone(tick: nat)
    | Throws(tick: nat)
    | BalancesRead(venue: Venue, assets: Assets)
    | StatusRead
    | DailyReset

  predicate At(s: State, tick: nat, pc: Pc) { tick in s.ticks && s.ticks[tick] == pc }

  predicate AtLegs(s: State, tick: nat) { tick in s.ticks && s.ticks[tick].AwaitLegs? }

  /** The `finally` of a tick. */
  function End(s: State, tick: nat): State { s.(ticks := s.ticks - {tick}, tickState := IDLE) }

  function Goto(s: State, tick: nat, pc: Pc): State { s.(ticks := s.ticks[tick := pc]) }

  /** Reading the risk status prunes its window. */
  function Status(s: State): State {
    s.(risk := s.risk.(timestamps := Risk.Prune(s.risk.timestamps, s.clock - Risk.HOUR_MS)))
  }

  function Later(s: State, delay: nat): State { s.(clock := s.clock + delay) }

  function Balances(s: State): map<Venue, Assets> { map[Binance := s.cex, Wallet := s.wallet] }

  /** What a booking adds to the capital. */
  function Profit(b: Booking): int {
    match b
    case DryRun(signal) => signal.expectedNetPnl
    case Executed(signal, leg1, leg2) => Executor.CalculatePnl(signal, leg1.price, leg2.price, leg1.filled)
  }

  function Book(s: State, b: Booking, profit: int): State {
    s.(risk := Risk.Record(s.risk, profit, s.clock), trades := s.trades + [s.clock], booked := s.booked + [b])
  }

  /** Entry of a tick: the gates, then the test of the tick state. */
  function OnDepth(s: State, tick: nat, gate: Gate): State {
    var s1 := if gate.KillSwitch? then s else Status(s);
    if tick in s.ticks || !gate.Open? || s.tickState != IDLE then s1
    else Goto(s1, tick, AwaitSignal).(tickState := GENERATING)
  }

  function OnSignal(c: Config, s: State, tick: nat, signal: Option<Signal>, safetyOk: bool, delay: nat): State {
    match signal
    case None => End(s, tick)
    case Some(sig) =>
      var (risk, verdict) := Risk.Check(c.limits, s.risk, sig, s.clock);
      var s1 := s.(risk := risk);
      if verdict != Risk.Allowed || !safetyOk then End(s1, tick)
      else if c.exec.simulation then End(Book(Later(s1, delay), DryRun(sig), sig.expectedNetPnl), tick)
      else Goto(s1, tick, AwaitPeek).(tickState := EXECUTING)
  }

  /** A fresh signal that passes the gates starts its first leg. */
  function OnGates(s: State, tick: nat, sig: Signal, passes: bool): State {
    if sig.signalId in s.executed || !passes then Goto(s, tick, AwaitSync)
    else Goto(s, tick, AwaitLegs(sig, s.clock)).(legs := s.legs + [LegStart(s.clock, |s.trips|)])
  }

  /** The breaker has been asked. */
  function Queried(c: Config, s: State): State { s.(breaker := Asked(c.breaker, s.breaker, s.clock)) }

  /** And later the replay protection has forgotten what is too old. */
  function Forgotten(c: Config, s: State, delay: nat): State {
    s.(clock := s.clock + delay, executed := Cleanup(s.executed, s.clock + delay - c.ttlMs))
  }

  /** The gates of the executor on the signal and on the balances. */
  predicate Ready(s: State, sig: Signal) {
    Executor.IsValid(sig, s.clock) && Executor.Funded(Balances(s), sig)
  }

  /** From the fresh signal to the first leg, through the gates of the executor. A second question
      to a closed breaker, which the executor asks here, changes nothing. */
  function OnPeek(c: Config, s: State, tick: nat, peeked: Option<Signal>, minProfit: int, delay: nat): State {
    if peeked.None? || peeked.value.expectedNetPnl < minProfit then End(s, tick)
    else
      var s1 := Queried(c, s);
      if s1.breaker.trippedAt.Some? then End(s1, tick)
      else
        var s2 := Forgotten(c, s1, delay);
        OnGates(s2, tick, peeked.value, Ready(s2, peeked.value))
  }

  /** The legs are over and the signal is marked. */
  function Marked(s: State, tick: nat, pc: Pc, delay: nat): State
    requires pc.AwaitLegs?
  {
    var s1 := s.(executed := s.executed[pc.signal.signalId := s.clock],
                 done := s.done + [Execution(pc.signal.signalId, pc.check, s.clock)]);
    Goto(Later(s1, delay), tick, AwaitSync)
  }

  /** Both legs filled: the ledger and the risk manager record it. */
  function OnCompleted(s: State, tick: nat, pc: Pc, b: Booking, profit: int, ledger: Ledger, delay: nat): State
    requires pc.AwaitLegs?
  {
    Book(Marked(s.(cex := ledger.cex, wallet := ledger.wallet), tick, pc, delay), b, profit)
  }

  /** The breaker records a failed execution. */
  function OnFailed(c: Config, s: State, tick: nat, pc: Pc, delay: nat, tripDelay: nat): State
    requires pc.AwaitLegs?
  {
    var s1 := Marked(s, tick, pc, delay);
    var s2 := Later(s1, tripDelay);
    var b := WithFailure(c.breaker, s1.breaker, s1.clock, s2.clock);
    s2.(breaker := b, failed := s2.failed + [s1.clock], trips := TripsAfter(s2.trips, b, s2.clock))
  }

  /** The ledger after both fills of an execution are booked. */
  function Booked(c: Config, s: State, sig: Signal, leg1: Executor.LegResult, leg2: Executor.LegResult): Ledger {
    Ledger(Traded(s.cex, Executor.CexTrade(sig, c.exec, leg1.filled, leg1.price)),
           Traded(s.wallet, Executor.DexTrade(sig, c.exec, leg2.filled, leg2.price)))
  }

  function OnLegs(c: Config, s: State, tick: nat, pc: Pc, course: Executor.Course, delay: nat, tripDelay: nat): State
    requires pc.AwaitLegs?
  {
    match course
    case Throws => End(s, tick)
    case Completed(leg1, leg2) =>
      var b := Executed(pc.signal, leg1, leg2);
      OnCompleted(s, tick, pc, b, Profit(b), Booked(c, s, pc.signal, leg1, leg2), delay)
    case _ => OnFailed(c, s, tick, pc, delay, tripDelay)
  }

  /** The steps that neither decide nor finish a trade. */
  function Minor(s: State, e: Step): State {
    match e
    case Wait(delay) => Later(s, delay)
    case Depth(tick, gate) => OnDepth(s, tick, gate)
    case SyncDone(tick) => if At(s, tick, AwaitSync) then End(s, tick) else s
    case Throws(tick) => if tick in s.ticks then End(s, tick) else s
    case BalancesRead(venue, assets) => if venue.Binance? then s.(cex := assets) else s.(wallet := assets)
    case StatusRead => Status(s)
    case DailyReset => s.(risk := Risk.Reset(s.risk))
    case _ => s
  }

  function Next(c: Config, s: State, e: Step): State {
    match e
    case SignalReady(tick, signal, safetyOk, delay) =>
      if At(s, tick, AwaitSignal) then OnSignal(c, s, tick, signal, safetyOk, delay) else s
    case PeekReady(tick, peeked, minProfit, delay) =>
      if At(s, tick, AwaitPeek) then OnPeek(c, s, tick, peeked, minProfit, delay) else s
    case LegsDone(tick, replies, delay, tripDelay) =>
      if AtLegs(s, tick) then
        OnLegs(c, s, tick, s.ticks[tick], Executor.CourseOf(s.ticks[tick].signal, c.exec, replies), delay, tripDelay)
      else s
    case _ => Minor(s, e)
  }

  function Run(c: Config, s: State, steps: seq<Step>): State {
    if steps == [] then s else Next(c, Run(c, s, steps[..|steps| - 1]), steps[|steps| - 1])
  }

  /** The capital is seeded once the balances are known. */
  function Start(capital: int, clock: int, cex: Assets, wallet: Assets): State {
    var risk := Risk.Seeded(Risk.State(0, 0, 0, 0, []), capital);
    State(IDLE, map[], clock, risk, CLOSED, map[], cex, wallet, [], [], [], [], [], [])
  }

  // ----- mutual exclusion -----

  /** At most one tick is past the gate, and the tick state says whether one is. */
  ghost predicate Exclusive(s: State) {
    && (forall i, j :: i in s.ticks && j in s.ticks ==> i == j)
    && (s.tickState == IDLE <==> s.ticks == map[])
  }

  lemma EndExclusive(s: State, tick: nat)
    requires Exclusive(s) && tick in s.ticks
    ensures Exclusive(End(s, tick)) && End(s, tick).ticks == map[]
  {
    assert s.ticks.Keys == {tick};
    assert (s.ticks - {tick}).Keys == {};
  }

  /** A tick that moves on stays alone. */
  lemma MovedExclusive(s: State, s': State, tick: nat, pc: Pc)
    requires Exclusive(s) && tick in s.ticks && s'.ticks == s.ticks[tick := pc] && s'.tickState != IDLE
    ensures Exclusive(s')
  {
  }

  lemma MinorExclusive(s: State, e: Step)
    requires Exclusive(s)
    ensures Exclusive(Minor(s, e))
  {
    if (e.SyncDone? || e.Throws?) && e.tick in s.ticks { EndExclusive(s, e.tick); }
  }

  lemma SignalExclusive(c: Config, s: State, tick: nat, signal: Option<Signal>, safetyOk: bool, delay: nat)
    requires Exclusive(s) && tick in s.ticks
    ensures Exclusive(OnSignal(c, s, tick, signal, safetyOk, delay))
  {
    EndExclusive(s, tick);
  }

  lemma PeekExclusive(c: Config, s: State, tick: nat, peeked: Option<Signal>, minProfit: int, delay: nat)
    requires Exclusive(s) && tick in s.ticks
    ensures Exclusive(OnPeek(c, s, tick, peeked, minProfit, delay))
  {
    EndExclusive(s, tick);
  }

  lemma LegsExclusive(c: Config, s: State, tick: nat, course: Executor.Course, delay: nat, tripDelay: nat)
    requires Exclusive(s) && AtLegs(s, tick)
    ensures Exclusive(OnLegs(c, s, tick, s.ticks[tick], course, delay, tripDelay))
  {
    EndExclusive(s, tick);
    if !course.Throws? {
      MovedExclusive(s, OnLegs(c, s, tick, s.ticks[tick], course, delay, tripDelay), tick, AwaitSync);
    }
  }

  lemma NextExclusive(c: Config, s: State, e: Step)
    requires Exclusive(s)
    ensures Exclusive(Next(c, s, e))
  {
    match e
    case SignalReady(tick, signal, safetyOk, delay) =>
      if At(s, tick, AwaitSignal) { SignalExclusive(c, s, tick, signal, safetyOk, delay); }
    case PeekReady(tick, peeked, minProfit, delay) =>
      if At(s, tick, AwaitPeek) { PeekExclusive(c, s, tick, peeked, minProfit, delay); }
    case LegsDone(tick, replies, delay, tripDelay) =>
      if AtLegs(s, tick) {
        LegsExclusive(c, s, tick, Executor.CourseOf(s.ticks[tick].signal, c.exec, replies), delay, tripDelay);
      }
    case _ => MinorExclusive(s, e);
  }

  // ----- trades per hour -----

  predicate HasCheck(pc: Pc) { pc.AwaitPeek? || pc.AwaitLegs? }

  function HourlyLimit(c: Config): nat { Max(0, c.limits.maxTradesPerHour) }

  /** Trades are spaced, and a tick that holds an allowed check still has its room: no trade can
      have been recorded since. */
  ghost predicate TradeInv(c: Config, s: State) {
    && Risk.KeptInv(s.risk.timestamps, s.trades, s.clock)
    && Spaced(s.trades, HourlyLimit(c), Risk.HOUR_MS)
    && forall i :: i in s.ticks && HasCheck(s.ticks[i]) ==>
         Risk.RoomForTrade(s.trades, c.limits.maxTradesPerHour, s.clock)
  }

  /** What is left of it once the checks are used up. */
  ghost predicate TradesSpaced(c: Config, s: State) {
    && Risk.KeptInv(s.risk.timestamps, s.trades, s.clock)
    && Spaced(s.trades, HourlyLimit(c), Risk.HOUR_MS)
  }

  lemma BookKeepsSpaced(c: Config, s: State, b: Booking, profit: int)
    requires TradesSpaced(c, s) && Risk.RoomForTrade(s.trades, c.limits.maxTradesPerHour, s.clock)
    ensures TradesSpaced(c, Book(s, b, profit))
  {
    SpacedAppend(s.trades, HourlyLimit(c), Risk.HOUR_MS, s.clock);
  }

  /** No step but a recorded trade or an allowed check matters here. */
  lemma TradeQuiet(c: Config, s: State, s': State)
    requires TradeInv(c, s) && s'.trades == s.trades && s.clock <= s'.clock
    requires s'.risk.timestamps == s.risk.timestamps || Risk.KeptInv(s'.risk.timestamps, s.trades, s.clock)
    requires forall i :: i in s'.ticks && HasCheck(s'.ticks[i]) ==> i in s.ticks && HasCheck(s.ticks[i])
    ensures TradeInv(c, s')
  {
  }

  lemma SignalKeepsTrades(c: Config, s: State, tick: nat, sig: Signal, safetyOk: bool, delay: nat)
    requires Exclusive(s) && TradeInv(c, s) && At(s, tick, AwaitSignal)
    ensures TradeInv(c, OnSignal(c, s, tick, Some(sig), safetyOk, delay))
  {
    var (risk, verdict) := Risk.Check(c.limits, s.risk, sig, s.clock);
    var s1, s' := s.(risk := risk), OnSignal(c, s, tick, Some(sig), safetyOk, delay);
    Risk.PruneKeeps(s.risk.timestamps, s.trades, s.clock);
    TradeQuiet(c, s, s1);
    if verdict == Risk.Allowed {
      Risk.AllowedLeavesRoom(c.limits, s.risk, sig, s.trades, s.clock);
    }
    if verdict == Risk.Allowed && safetyOk && c.exec.simulation {
      var s2 := Later(s1, delay);
      TradeQuiet(c, s1, s2);
      BookKeepsSpaced(c, s2, DryRun(sig), sig.expectedNetPnl);
      assert s'.ticks == s.ticks - {tick};
      assert forall i :: i in s'.ticks ==> i in s.ticks && i != tick;
    }
  }

  /** Marking the signal uses up the check, and leaves the room it found. */
  lemma MarkedKeepsRoom(c: Config, s: State, tick: nat, delay: nat)
    requires Exclusive(s) && TradeInv(c, s) && AtLegs(s, tick)
    ensures var s' := Marked(s, tick, s.ticks[tick], delay);
            && TradesSpaced(c, s') && Risk.RoomForTrade(s'.trades, c.limits.maxTradesPerHour, s'.clock)
            && forall i :: i in s'.ticks ==> !HasCheck(s'.ticks[i])
  {
    assert HasCheck(s.ticks[tick]);
  }

  lemma CompletedKeepsTrades(c: Config, s: State, tick: nat, b: Booking, profit: int, ledger: Ledger, delay: nat)
    requires Exclusive(s) && TradeInv(c, s) && AtLegs(s, tick)
    ensures TradeInv(c, OnCompleted(s, tick, s.ticks[tick], b, profit, ledger, delay))
  {
    var settled := s.(cex := ledger.cex, wallet := ledger.wallet);
    MarkedKeepsRoom(c, settled, tick, delay);
    BookKeepsSpaced(c, Marked(settled, tick, s.ticks[tick], delay), b, profit);
  }

  lemma FailedKeepsTrades(c: Config, s: State, tick: nat, delay: nat, tripDelay: nat)
    requires Exclusive(s) && TradeInv(c, s) && AtLegs(s, tick)
    ensures TradeInv(c, OnFailed(c, s, tick, s.ticks[tick], delay, tripDelay))
  {
    TradeQuiet(c, s, OnFailed(c, s, tick, s.ticks[tick], delay, tripDelay));
  }

  lemma LegsKeepTrades(c: Config, s: State, tick: nat, course: Executor.Course, delay: nat, tripDelay: nat)
    requires Exclusive(s) && TradeInv(c, s) && AtLegs(s, tick)
    ensures TradeInv(c, OnLegs(c, s, tick, s.ticks[tick], course, delay, tripDelay))
  {
    match course
    case Throws => TradeQuiet(c, s, End(s, tick));
    case Completed(leg1, leg2) =>
      var b := Executed(s.ticks[tick].signal, leg1, leg2);
      CompletedKeepsTrades(c, s, tick, b, Profit(b), Booked(c, s, s.ticks[tick].signal, leg1, leg2), delay);
    case _ => FailedKeepsTrades(c, s, tick, delay, tripDelay);
  }

  lemma PeekKeepsTrades(c: Config, s: State, tick: nat, peeked: Option<Signal>, minProfit: int, delay: nat)
    requires TradeInv(c, s) && At(s, tick, AwaitPeek)
    ensures TradeInv(c, OnPeek(c, s, tick, peeked, minProfit, delay))
  {
    TradeQuiet(c, s, OnPeek(c, s, tick, peeked, minProfit, delay));
  }

  /** Pruning the window on entry or at the daily reset forgets only what no longer counts. */
  lemma StatusKeepsTrades(c: Config, s: State)
    requires TradeInv(c, s)
    ensures TradeInv(c, Status(s))
  {
    Risk.PruneKeeps(s.risk.timestamps, s.trades, s.clock);
  }

  lemma EndKeepsTrades(c: Config, s: State, tick: nat)
    requires TradeInv(c, s)
    ensures TradeInv(c, End(s, tick))
  {
  }

  lemma DepthKeepsTrades(c: Config, s: State, tick: nat, gate: Gate)
    requires TradeInv(c, s)
    ensures TradeInv(c, OnDepth(s, tick, gate))
  {
    StatusKeepsTrades(c, s);
    TradeQuiet(c, if gate.KillSwitch? then s else Status(s), OnDepth(s, tick, gate));
  }

  lemma MinorKeepsTrades(c: Config, s: State, e: Step)
    requires TradeInv(c, s)
    ensures TradeInv(c, Minor(s, e))
  {
    match e
    case Depth(tick, gate) => DepthKeepsTrades(c, s, tick, gate);
    case StatusRead => StatusKeepsTrades(c, s);
    case SyncDone(tick) => EndKeepsTrades(c, s, tick);
    case Throws(tick) => EndKeepsTrades(c, s, tick);
    case BalancesRead(_, _) => TradeQuiet(c, s, Minor(s, e));
    case DailyReset => TradeQuiet(c, s, s.(risk := Risk.Reset(s.risk)));
    case Wait(delay) => TradeQuiet(c, s, Later(s, delay));
    case _ =>
  }

  lemma NextTradeInv(c: Config, s: State, e: Step)
    requires Exclusive(s) && TradeInv(c, s)
    ensures TradeInv(c, Next(c, s, e))
  {
    match e
    case SignalReady(tick, Some(sig), safetyOk, delay) =>
      if At(s, tick, AwaitSignal) { SignalKeepsTrades(c, s, tick, sig, safetyOk, delay); }
    case LegsDone(tick, replies, delay, tripDelay) =>
      if AtLegs(s, tick) {
        LegsKeepTrades(c, s, tick, Executor.CourseOf(s.ticks[tick].signal, c.exec, replies), delay, tripDelay);
      }
    case PeekReady(tick, peeked, minProfit, delay) =>
      if At(s, tick, AwaitPeek) { PeekKeepsTrades(c, s, tick, peeked, minProfit, delay); }
    case SignalReady(tick, None, _, _) => if At(s, tick, AwaitSignal) { TradeQuiet(c, s, End(s, tick)); }
    case _ => MinorKeepsTrades(c, s, e);
  }

  // ----- the breaker -----

  ghost predicate LegsCool(c: Config, s: State) {
    forall i, k :: 0 <= i < |s.legs| && 0 <= k < s.legs[i].tripsBefore <= |s.trips| ==>
      s.legs[i].at - s.trips[k] > c.breaker.cooldownMs
  }

  /** The trips are known, and no leg has started too soon after one: this needs no condition on
      the configuration. */
  ghost predicate TripsOk(c: Config, s: State) {
    && TripInv(c.breaker, s.breaker, s.trips, s.clock)
    && (forall i :: i in s.ticks && s.ticks[i].AwaitLegs? ==> s.breaker.trippedAt.None?)
    && (forall i :: 0 <= i < |s.legs| ==> s.legs[i].tripsBefore <= |s.trips|)
    && LegsCool(c, s)
  }

  ghost predicate FailuresOk(c: Config, s: State) {
    CooldownCoversWindow(c.breaker) ==> BreakerInv(c.breaker, s.breaker, s.failed, s.clock)
  }

  /** The steps up to the checked signal touch neither the breaker nor the replay protection, and
      start no leg. */
  ghost predicate Untouched(s: State, s': State) {
    && s.clock <= s'.clock && s'.breaker == s.breaker && s'.failed == s.failed && s'.trips == s.trips
    && s'.legs == s.legs && s'.executed == s.executed && s'.done == s.done
    && forall i :: i in s'.ticks && s'.ticks[i].AwaitLegs? ==> i in s.ticks && s.ticks[i] == s'.ticks[i]
  }

  lemma EndTouchesNothing(s: State, tick: nat)
    ensures Untouched(s, End(s, tick))
  {
  }

  lemma DepthTouchesNothing(s: State, tick: nat, gate: Gate)
    ensures Untouched(s, OnDepth(s, tick, gate))
  {
  }

  lemma MinorTouchesNothing(s: State, e: Step)
    ensures Untouched(s, Minor(s, e))
  {
    if e.SyncDone? || e.Throws? { EndTouchesNothing(s, e.tick); }
    if e.Depth? { DepthTouchesNothing(s, e.tick, e.gate); }
  }

  lemma SignalTouchesNothing(c: Config, s: State, tick: nat, signal: Option<Signal>, safetyOk: bool, delay: nat)
    ensures Untouched(s, OnSignal(c, s, tick, signal, safetyOk, delay))
  {
  }

  lemma BreakerQuiet(c: Config, s: State, s': State)
    requires TripsOk(c, s) && FailuresOk(c, s) && s.clock <= s'.clock
    requires s'.breaker == s.breaker && s'.failed == s.failed && s'.trips == s.trips && s'.legs == s.legs
    requires forall i :: i in s'.ticks && s'.ticks[i].AwaitLegs? ==> i in s.ticks && s.ticks[i].AwaitLegs?
    ensures TripsOk(c, s') && FailuresOk(c, s')
  {
  }

  lemma GatesKeepTrips(c: Config, s: State, tick: nat, sig: Signal, passes: bool)
    requires Exclusive(s) && TripsOk(c, s) && tick in s.ticks && s.breaker.trippedAt.None?
    ensures TripsOk(c, OnGates(s, tick, sig, passes))
  {
    var s' := OnGates(s, tick, sig, passes);
    assert forall k :: 0 <= k < |s.trips| ==> s.trips[k] in s.trips;
    assert s'.legs == s.legs || s'.legs == s.legs + [LegStart(s.clock, |s.trips|)];
  }

  lemma QueriedKeepsTrips(c: Config, s: State)
    requires TripsOk(c, s)
    ensures TripsOk(c, Queried(c, s))
  {
    AskedKeepsTrips(c.breaker, s.breaker, s.trips, s.clock, s.clock);
  }

  lemma ForgottenKeepsTrips(c: Config, s: State, delay: nat)
    requires TripsOk(c, s)
    ensures TripsOk(c, Forgotten(c, s, delay))
  {
  }

  lemma EndKeepsTrips(c: Config, s: State, tick: nat)
    requires TripsOk(c, s)
    ensures TripsOk(c, End(s, tick))
  {
  }

  lemma PeekKeepsTrips(c: Config, s: State, tick: nat, peeked: Option<Signal>, minProfit: int, delay: nat)
    requires Exclusive(s) && TripsOk(c, s) && At(s, tick, AwaitPeek)
    ensures TripsOk(c, OnPeek(c, s, tick, peeked, minProfit, delay))
  {
    var s1 := Queried(c, s);
    var s2 := Forgotten(c, s1, delay);
    QueriedKeepsTrips(c, s);
    ForgottenKeepsTrips(c, s1, delay);
    EndKeepsTrips(c, s, tick);
    EndKeepsTrips(c, s1, tick);
    if peeked.Some? && s1.breaker.trippedAt.None? {
      GatesKeepTrips(c, s2, tick, peeked.value, Ready(s2, peeked.value));
    }
  }

  lemma QueriedKeepsFailures(c: Config, s: State)
    requires FailuresOk(c, s)
    ensures FailuresOk(c, Queried(c, s))
  {
    if CooldownCoversWindow(c.breaker) { AskedKeeps(c.breaker, s.breaker, s.failed, s.clock); }
  }

  lemma PeekKeepsFailures(c: Config, s: State, tick: nat, peeked: Option<Signal>, minProfit: int, delay: nat)
    requires FailuresOk(c, s)
    ensures FailuresOk(c, OnPeek(c, s, tick, peeked, minProfit, delay))
  {
    QueriedKeepsFailures(c, s);
    var s1, s' := Queried(c, s), OnPeek(c, s, tick, peeked, minProfit, delay);
    assert s'.failed == s.failed && s'.breaker in {s.breaker, s1.breaker} && s.clock <= s'.clock;
    if CooldownCoversWindow(c.breaker) {
      BreakerWaits(c.breaker, s1.breaker, s.failed, s.clock, s'.clock);
      BreakerWaits(c.breaker, s.breaker, s.failed, s.clock, s'.clock);
    }
  }

  lemma FailedKeepsTrips(c: Config, s: State, tick: nat, delay: nat, tripDelay: nat)
    requires Exclusive(s) && TripsOk(c, s) && AtLegs(s, tick)
    ensures TripsOk(c, OnFailed(c, s, tick, s.ticks[tick], delay, tripDelay))
  {
    var s', now := OnFailed(c, s, tick, s.ticks[tick], delay, tripDelay), s.clock + delay;
    RecordFailureKeepsTrips(c.breaker, s.breaker, s.trips, s.clock, now, now + tripDelay);
    assert s.trips <= s'.trips && s'.legs == s.legs;
    assert forall i :: i in s'.ticks ==> i == tick;
  }

  lemma FailedKeepsFailures(c: Config, s: State, tick: nat, delay: nat, tripDelay: nat)
    requires TripsOk(c, s) && FailuresOk(c, s) && AtLegs(s, tick)
    ensures FailuresOk(c, OnFailed(c, s, tick, s.ticks[tick], delay, tripDelay))
  {
    var now := s.clock + delay;
    if CooldownCoversWindow(c.breaker) {
      BreakerWaits(c.breaker, s.breaker, s.failed, s.clock, now);
      RecordFailureKeeps(c.breaker, s.breaker, s.failed, now, now + tripDelay);
    }
  }

  lemma LegsKeepBreaker(c: Config, s: State, tick: nat, course: Executor.Course, delay: nat, tripDelay: nat)
    requires Exclusive(s) && TripsOk(c, s) && FailuresOk(c, s) && AtLegs(s, tick)
    ensures var s' := OnLegs(c, s, tick, s.ticks[tick], course, delay, tripDelay);
            TripsOk(c, s') && FailuresOk(c, s')
  {
    match course
    case Throws => BreakerQuiet(c, s, End(s, tick));
    case Completed(leg1, leg2) => BreakerQuiet(c, s, OnLegs(c, s, tick, s.ticks[tick], course, delay, tripDelay));
    case _ =>
      FailedKeepsTrips(c, s, tick, delay, tripDelay);
      FailedKeepsFailures(c, s, tick, delay, tripDelay);
  }

  lemma NextBreakerOk(c: Config, s: State, e: Step)
    requires Exclusive(s) && TripsOk(c, s) && FailuresOk(c, s)
    ensures TripsOk(c, Next(c, s, e)) && FailuresOk(c, Next(c, s, e))
  {
    match e
    case PeekReady(tick, peeked, minProfit, delay) =>
      if At(s, tick, AwaitPeek) {
        PeekKeepsTrips(c, s, tick, peeked, minProfit, delay);
        PeekKeepsFailures(c, s, tick, peeked, minProfit, delay);
      }
    case LegsDone(tick, replies, delay, tripDelay) =>
      if AtLegs(s, tick) {
        LegsKeepBreaker(c, s, tick, Executor.CourseOf(s.ticks[tick].signal, c.exec, replies), delay, tripDelay);
      }
    case SignalReady(tick, signal, safetyOk, delay) =>
      if At(s, tick, AwaitSignal) {
        SignalTouchesNothing(c, s, tick, signal, safetyOk, delay);
        BreakerQuiet(c, s, OnSignal(c, s, tick, signal, safetyOk, delay));
      }
    case _ =>
      MinorTouchesNothing(s, e);
      BreakerQuiet(c, s, Minor(s, e));
  }

  // ----- replay protection -----

  ghost predicate Separated(c: Config, done: seq<Execution>) {
    forall i, j :: 0 <= i < j < |done| && done[i].signalId == done[j].signalId ==>
      done[i].mark + c.ttlMs <= done[j].check
  }

  ghost predicate ReplayOk(c: Config, s: State) {
    && ReplayInv(c.ttlMs, s.executed, s.done, s.clock)
    && Separated(c, s.done)
    && forall i :: i in s.ticks && s.ticks[i].AwaitLegs? ==>
         s.ticks[i].check <= s.clock
         && forall d :: d in s.done && d.signalId == s.ticks[i].signal.signalId ==> d.mark + c.ttlMs <= s.ticks[i].check
  }

  lemma ReplayQuiet(c: Config, s: State, s': State)
    requires ReplayOk(c, s) && s.clock <= s'.clock && s'.executed == s.executed && s'.done == s.done
    requires forall i :: i in s'.ticks && s'.ticks[i].AwaitLegs? ==> i in s.ticks && s.ticks[i] == s'.ticks[i]
    ensures ReplayOk(c, s')
  {
  }

  lemma GatesKeepReplay(c: Config, s: State, tick: nat, sig: Signal, passes: bool)
    requires Exclusive(s) && ReplayOk(c, s) && tick in s.ticks
    requires sig.signalId !in s.executed ==>
               forall d :: d in s.done && d.signalId == sig.signalId ==> d.mark + c.ttlMs <= s.clock
    ensures ReplayOk(c, OnGates(s, tick, sig, passes))
  {
  }

  lemma ForgottenKeepsReplay(c: Config, s: State, delay: nat, id: string)
    requires ReplayOk(c, s)
    ensures var s' := Forgotten(c, s, delay);
            && ReplayOk(c, s')
            && (id !in s'.executed ==> forall d :: d in s.done && d.signalId == id ==> d.mark + c.ttlMs <= s'.clock)
  {
    var now := s.clock + delay;
    assert ReplayInv(c.ttlMs, s.executed, s.done, now);
    CleanupKeeps(c.ttlMs, s.executed, s.done, now);
    if id !in Cleanup(s.executed, now - c.ttlMs) {
      forall d | d in s.done && d.signalId == id
        ensures d.mark + c.ttlMs <= now
      {
        FreshSignalIsOld(c.ttlMs, s.executed, s.done, now, id, d);
      }
    }
  }

  lemma PeekKeepsReplay(c: Config, s: State, tick: nat, peeked: Option<Signal>, minProfit: int, delay: nat)
    requires Exclusive(s) && ReplayOk(c, s) && At(s, tick, AwaitPeek)
    ensures ReplayOk(c, OnPeek(c, s, tick, peeked, minProfit, delay))
  {
    var s1 := Queried(c, s);
    var s2 := Forgotten(c, s1, delay);
    ReplayQuiet(c, s, s1);
    ReplayQuiet(c, s, End(s, tick));
    ReplayQuiet(c, s, End(s1, tick));
    if peeked.Some? && s1.breaker.trippedAt.None? {
      ForgottenKeepsReplay(c, s1, delay, peeked.value.signalId);
      GatesKeepReplay(c, s2, tick, peeked.value, Ready(s2, peeked.value));
    }
  }

  lemma MarkedKeepsReplay(c: Config, s: State, tick: nat, delay: nat)
    requires Exclusive(s) && ReplayOk(c, s) && AtLegs(s, tick)
    ensures ReplayOk(c, Marked(s, tick, s.ticks[tick], delay))
  {
    var s', pc := Marked(s, tick, s.ticks[tick], delay), s.ticks[tick];
    assert s'.done == s.done + [Execution(pc.signal.signalId, pc.check, s.clock)];
    assert s'.executed == s.executed[pc.signal.signalId := s.clock];
    assert forall i :: i in s'.ticks ==> !s'.ticks[i].AwaitLegs?;
  }

  lemma LegsKeepReplay(c: Config, s: State, tick: nat, course: Executor.Course, delay: nat, tripDelay: nat)
    requires Exclusive(s) && ReplayOk(c, s) && AtLegs(s, tick)
    ensures ReplayOk(c, OnLegs(c, s, tick, s.ticks[tick], course, delay, tripDelay))
  {
    MarkedKeepsReplay(c, s, tick, delay);
    var marked := Marked(s, tick, s.ticks[tick], delay);
    var s' := OnLegs(c, s, tick, s.ticks[tick], course, delay, tripDelay);
    match course
    case Throws => ReplayQuiet(c, s, s');
    case _ => ReplayQuiet(c, marked, s');
  }

  lemma NextReplayOk(c: Config, s: State, e: Step)
    requires Exclusive(s) && ReplayOk(c, s)
    ensures ReplayOk(c, Next(c, s, e))
  {
    match e
    case PeekReady(tick, peeked, minProfit, delay) =>
      if At(s, tick, AwaitPeek) { PeekKeepsReplay(c, s, tick, peeked, minProfit, delay); }
    case LegsDone(tick, replies, delay, tripDelay) =>
      if AtLegs(s, tick) {
        LegsKeepReplay(c, s, tick, Executor.CourseOf(s.ticks[tick].signal, c.exec, replies), delay, tripDelay);
      }
    case SignalReady(tick, signal, safetyOk, delay) =>
      if At(s, tick, AwaitSignal) {
        SignalTouchesNothing(c, s, tick, signal, safetyOk, delay);
        ReplayQuiet(c, s, OnSignal(c, s, tick, signal, safetyOk, delay));
      }
    case _ =>
      MinorTouchesNothing(s, e);
      ReplayQuiet(c, s, Minor(s, e));
  }

  // ----- the loss limits -----

  ghost predicate RiskOk(c: Config, maxLoss: int, s: State) {
    && Risk.Bounded(c.limits, maxLoss, s.risk)
    && forall i :: i in s.ticks && HasCheck(s.ticks[i]) ==> Risk.Cleared(c.limits, s.risk)
  }

  /** No booked execution loses more than `maxLoss`. */
  ghost predicate LossesBounded(maxLoss: int, booked: seq<Booking>) {
    forall b :: b in booked && b.Executed? ==> Profit(b) >= -maxLoss
  }

  /** A loss limit that the dry run, which only the gate bounds, respects as well. */
  predicate LossLimit(c: Config, maxLoss: int) {
    Risk.Sensible(c.limits, maxLoss) && (c.exec.simulation ==> c.limits.maxLossPerTrade <= maxLoss)
  }

  lemma SignalKeepsRisk(c: Config, maxLoss: int, s: State, tick: nat, sig: Signal, safetyOk: bool, delay: nat)
    requires Exclusive(s) && RiskOk(c, maxLoss, s) && LossLimit(c, maxLoss) && At(s, tick, AwaitSignal)
    ensures RiskOk(c, maxLoss, OnSignal(c, s, tick, Some(sig), safetyOk, delay))
  {
    var (risk, verdict) := Risk.Check(c.limits, s.risk, sig, s.clock);
    if verdict == Risk.Allowed {
      Risk.AllowedIsCleared(c.limits, s.risk, sig, s.clock);
      Risk.RecordKeepsBounds(c.limits, maxLoss, risk, Max(sig.expectedNetPnl, -maxLoss), s.clock + delay);
    }
  }

  lemma LegsKeepRisk(c: Config, maxLoss: int, s: State, tick: nat, course: Executor.Course, delay: nat, tripDelay: nat)
    requires Exclusive(s) && RiskOk(c, maxLoss, s) && LossLimit(c, maxLoss) && AtLegs(s, tick)
    requires LossesBounded(maxLoss, OnLegs(c, s, tick, s.ticks[tick], course, delay, tripDelay).booked)
    ensures RiskOk(c, maxLoss, OnLegs(c, s, tick, s.ticks[tick], course, delay, tripDelay))
  {
    var s' := OnLegs(c, s, tick, s.ticks[tick], course, delay, tripDelay);
    match course
    case Throws =>
    case Completed(leg1, leg2) =>
      var b := Executed(s.ticks[tick].signal, leg1, leg2);
      assert s'.booked == s.booked + [b];
      assert b in s'.booked;
      Risk.RecordKeepsBounds(c.limits, maxLoss, s.risk, Profit(b), s.clock + delay);
    case _ =>
  }

  lemma PeekKeepsRisk(c: Config, maxLoss: int, s: State, tick: nat, peeked: Option<Signal>, minProfit: int, delay: nat)
    requires RiskOk(c, maxLoss, s) && At(s, tick, AwaitPeek)
    ensures RiskOk(c, maxLoss, OnPeek(c, s, tick, peeked, minProfit, delay))
  {
    assert OnPeek(c, s, tick, peeked, minProfit, delay).risk == s.risk;
    assert HasCheck(s.ticks[tick]);
  }

  lemma MinorKeepsRisk(c: Config, maxLoss: int, s: State, e: Step)
    requires RiskOk(c, maxLoss, s) && LossLimit(c, maxLoss)
    ensures RiskOk(c, maxLoss, Minor(s, e))
  {
    if e.DailyReset? { Risk.ResetKeeps(c.limits, maxLoss, s.risk); }
  }

  lemma NextRiskOk(c: Config, maxLoss: int, s: State, e: Step)
    requires Exclusive(s) && RiskOk(c, maxLoss, s) && LossLimit(c, maxLoss)
    requires LossesBounded(maxLoss, Next(c, s, e).booked)
    ensures RiskOk(c, maxLoss, Next(c, s, e))
  {
    match e
    case SignalReady(tick, Some(sig), safetyOk, delay) =>
      if At(s, tick, AwaitSignal) { SignalKeepsRisk(c, maxLoss, s, tick, sig, safetyOk, delay); }
    case LegsDone(tick, replies, delay, tripDelay) =>
      if AtLegs(s, tick) {
        LegsKeepRisk(c, maxLoss, s, tick, Executor.CourseOf(s.ticks[tick].signal, c.exec, replies), delay, tripDelay);
      }
    case PeekReady(tick, peeked, minProfit, delay) =>
      if At(s, tick, AwaitPeek) { PeekKeepsRisk(c, maxLoss, s, tick, peeked, minProfit, delay); }
    case SignalReady(tick, None, _, _) =>
    case _ => MinorKeepsRisk(c, maxLoss, s, e);
  }

  // ----- every run -----

  lemma StartInvariants(c: Config, s0: State)
    requires Initial(s0)
    ensures Exclusive(s0) && TradeInv(c, s0) && ReplayOk(c, s0) && TripsOk(c, s0) && FailuresOk(c, s0)
  {
  }

  lemma {:induction false} RunInvariants(c: Config, s0: State, steps: seq<Step>)
    requires Initial(s0)
    ensures var s := Run(c, s0, steps);
            Exclusive(s) && TradeInv(c, s) && ReplayOk(c, s) && TripsOk(c, s) && FailuresOk(c, s)
  {
    if steps != [] {
      var n := |steps| - 1;
      RunInvariants(c, s0, steps[..n]);
      var s := Run(c, s0, steps[..n]);
      NextExclusive(c, s, steps[n]);
      NextTradeInv(c, s, steps[n]);
      NextReplayOk(c, s, steps[n]);
      NextBreakerOk(c, s, steps[n]);
    } else {
      StartInvariants(c, s0);
    }
  }

  ghost predicate Initial(s: State) { s == Start(s.risk.current, s.clock, s.cex, s.wallet) }

  /** Under every interleaving at most one tick is past the gate. */
  lemma AtMostOneTick(c: Config, s0: State, steps: seq<Step>)
    requires Initial(s0)
    ensures |Run(c, s0, steps).ticks| <= 1
  {
    RunInvariants(c, s0, steps);
    var ticks := Run(c, s0, steps).ticks;
    if ticks.Keys != {} {
      var i :| i in ticks;
      assert ticks.Keys == {i};
    }
    assert |ticks| == |ticks.Keys|;
  }

  /** Under every interleaving, no hour, wherever it ends, holds more trades than the limit. */
  lemma TradesPerHourBounded(c: Config, s0: State, steps: seq<Step>, t: int)
    requires Initial(s0)
    ensures InWindow(Run(c, s0, steps).trades, 3_600_000, t) <=
            if c.limits.maxTradesPerHour > 0 then c.limits.maxTradesPerHour else 0
  {
    RunInvariants(c, s0, steps);
    SpacedBoundsWindow(Run(c, s0, steps).trades, HourlyLimit(c), Risk.HOUR_MS, t);
  }

  /** Two completed executions of one signal are at least the time to live apart. */
  lemma ReplaysAreSeparated(c: Config, s0: State, steps: seq<Step>)
    requires Initial(s0)
    ensures Separated(c, Run(c, s0, steps).done)
  {
    RunInvariants(c, s0, steps);
  }

  /** No leg starts within the cooldown of any earlier trip. When the cooldown covers the window,
      no window holds more failed executions than are tolerated. */
  lemma BreakerGuardsRuns(c: Config, s0: State, steps: seq<Step>, t: int)
    requires Initial(s0)
    ensures LegsCool(c, Run(c, s0, steps))
    ensures CooldownCoversWindow(c.breaker) ==>
              InWindow(Run(c, s0, steps).failed, c.breaker.windowMs, t) <= Tolerated(c.breaker)
  {
    RunInvariants(c, s0, steps);
    if CooldownCoversWindow(c.breaker) {
      SpacedBoundsWindow(Run(c, s0, steps).failed, Tolerated(c.breaker), c.breaker.windowMs, t);
    }
  }

  lemma LegsBook(c: Config, s: State, tick: nat, course: Executor.Course, delay: nat, tripDelay: nat)
    requires AtLegs(s, tick)
    ensures s.booked <= OnLegs(c, s, tick, s.ticks[tick], course, delay, tripDelay).booked
  {
  }

  lemma PeekBooks(c: Config, s: State, tick: nat, peeked: Option<Signal>, minProfit: int, delay: nat)
    ensures OnPeek(c, s, tick, peeked, minProfit, delay).booked == s.booked
  {
  }

  lemma MinorBooks(s: State, e: Step)
    ensures Minor(s, e).booked == s.booked
  {
  }

  /** Bookings are only ever added. */
  lemma NextBooks(c: Config, s: State, e: Step)
    ensures s.booked <= Next(c, s, e).booked
  {
    match e
    case SignalReady(tick, signal, safetyOk, delay) =>
    case PeekReady(tick, peeked, minProfit, delay) => PeekBooks(c, s, tick, peeked, minProfit, delay);
    case LegsDone(tick, replies, delay, tripDelay) =>
      if AtLegs(s, tick) {
        LegsBook(c, s, tick, Executor.CourseOf(s.ticks[tick].signal, c.exec, replies), delay, tripDelay);
      }
    case _ => MinorBooks(s, e);
  }

  /** The loss limits hold at all times, overshot by at most one trade's loss. */
  lemma {:induction false} LossLimitsHold(c: Config, maxLoss: int, s0: State, steps: seq<Step>)
    requires Initial(s0) && s0.risk.current > 0 && LossLimit(c, maxLoss)
    requires LossesBounded(maxLoss, Run(c, s0, steps).booked)
    ensures RiskOk(c, maxLoss, Run(c, s0, steps))
  {
    if steps == [] {
      MulMono(1, Risk.DrawdownLimitBps(c.limits), s0.risk.current);
    } else {
      var n := |steps| - 1;
      var s := Run(c, s0, steps[..n]);
      NextBooks(c, s, steps[n]);
      LossLimitsHold(c, maxLoss, s0, steps[..n]);
      RunInvariants(c, s0, steps[..n]);
      NextRiskOk(c, maxLoss, s, steps[n]);
    }
  }
}
