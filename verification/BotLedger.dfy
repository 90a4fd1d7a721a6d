/** The books of the bot over whole runs: the capital the risk manager sees is the profit of the
    fills, and the balances at the two venues move by exactly what the fills moved. */
module BotLedger {
  import opened JsMath
  import opened Core
  import opened Inventory
  import opened ArbBot
  import Executor

  // ----- one booking -----

  function CexLeg(c: Config, b: Booking): Trade
    requires b.Executed?
  {
    Executor.CexTrade(b.signal, c.exec, b.leg1.filled, b.leg1.price)
  }

  function DexLeg(c: Config, b: Booking): Trade
    requires b.Executed?
  {
    Executor.DexTrade(b.signal, c.exec, b.leg2.filled, b.leg2.price)
  }

  /** What a booking moves at both venues together; a dry run moves nothing. */
  function Move(c: Config, b: Booking, asset: string): int {
    if b.Executed? then Delta(CexLeg(c, b), asset) + Delta(DexLeg(c, b), asset) else 0
  }

  function FeesOf(c: Config, b: Booking): int { if b.Executed? then CexLeg(c, b).fee + DexLeg(c, b).fee else 0 }

  function GrossOf(b: Booking): int {
    if b.Executed? then Executor.GrossPnl(b.signal, b.leg1.price, b.leg2.price, b.leg1.filled) else 0
  }

  /** An execution is booked only for legs that the replies of the venues completed. */
  ghost predicate Genuine(c: Config, b: Booking) {
    b.Executed? ==> exists r :: Executor.CourseOf(b.signal, c.exec, r) == Executor.Completed(b.leg1, b.leg2)
  }

  lemma GenuineFillsAlike(c: Config, b: Booking)
    requires Genuine(c, b) && b.Executed?
    ensures b.leg2.filled == b.leg1.filled
  {
    var r :| Executor.CourseOf(b.signal, c.exec, r) == Executor.Completed(b.leg1, b.leg2);
    Executor.LegsFillAlike(b.signal, c.exec, r);
  }

  lemma BookingConservesBase(c: Config, b: Booking, asset: string)
    requires Genuine(c, b) && (b.Executed? ==> asset != b.signal.quote)
    ensures Move(c, b, asset) == 0
  {
    if b.Executed? { GenuineFillsAlike(c, b); }
  }

  /** Prices and fills are not negative. */
  predicate Plausible(b: Booking) {
    b.Executed? ==> b.leg1.price >= 0 && b.leg2.price >= 0 && b.leg1.filled >= 0
  }

  lemma BookingGainsQuote(c: Config, b: Booking)
    requires Genuine(c, b) && Plausible(b) && (b.Executed? ==> b.signal.base != b.signal.quote)
    ensures var gain := Move(c, b, b.signal.quote) + FeesOf(c, b) - GrossOf(b);
            if b.Executed? then -1 <= gain <= 1 else gain == 0
  {
    if b.Executed? {
      GenuineFillsAlike(c, b);
      Executor.QuoteGainIsGrossPnl(b.signal, b.leg1.price, b.leg2.price, b.leg1.filled);
    }
  }

  // ----- all bookings -----

  function Profits(bs: seq<Booking>): int {
    if bs == [] then 0 else Profits(bs[..|bs| - 1]) + Profit(bs[|bs| - 1])
  }

  function Moves(c: Config, bs: seq<Booking>, asset: string): int {
    if bs == [] then 0 else Moves(c, bs[..|bs| - 1], asset) + Move(c, bs[|bs| - 1], asset)
  }

  function Fees(c: Config, bs: seq<Booking>): int {
    if bs == [] then 0 else Fees(c, bs[..|bs| - 1]) + FeesOf(c, bs[|bs| - 1])
  }

  function Gross(bs: seq<Booking>): int {
    if bs == [] then 0 else Gross(bs[..|bs| - 1]) + GrossOf(bs[|bs| - 1])
  }

  ghost predicate AllGenuine(c: Config, bs: seq<Booking>) { forall b :: b in bs ==> Genuine(c, b) }

  // ----- one step -----

  /** A step books at most one trade, which the risk manager and both venues record alike. */
  ghost predicate BooksOne(c: Config, s: State, s': State, b: Booking) {
    && s'.booked == s.booked + [b] && |s'.trades| == |s.trades| + 1 && Genuine(c, b)
    && s'.risk.current == s.risk.current + Profit(b)
    && forall asset :: Total(Balances(s'), asset) == Total(Balances(s), asset) + Move(c, b, asset)
  }

  ghost predicate BooksNone(s: State, s': State) {
    && s'.booked == s.booked && |s'.trades| == |s.trades| && s'.risk.current == s.risk.current
  }

  lemma CompletedBooks(c: Config, s: State, tick: nat, replies: Executor.Replies, delay: nat, tripDelay: nat)
    requires AtLegs(s, tick) && Executor.CourseOf(s.ticks[tick].signal, c.exec, replies).Completed?
    ensures var Completed(leg1, leg2) := Executor.CourseOf(s.ticks[tick].signal, c.exec, replies);
            var s' := OnLegs(c, s, tick, s.ticks[tick], Executor.Completed(leg1, leg2), delay, tripDelay);
            BooksOne(c, s, s', Executed(s.ticks[tick].signal, leg1, leg2))
  {
    var sig := s.ticks[tick].signal;
    var Completed(leg1, leg2) := Executor.CourseOf(sig, c.exec, replies);
    var b := Executed(sig, leg1, leg2);
    assert Genuine(c, b);
    var s' := OnLegs(c, s, tick, s.ticks[tick], Executor.Completed(leg1, leg2), delay, tripDelay);
    forall asset
      ensures Total(Balances(s'), asset) == Total(Balances(s), asset) + Move(c, b, asset)
    {
      TradeMovesHolding(s.cex, CexLeg(c, b), asset);
      TradeMovesHolding(s.wallet, DexLeg(c, b), asset);
    }
  }

  /** The balances are touched by nothing else but a reading of them. */
  lemma OtherCourseBooksNone(c: Config, s: State, tick: nat, course: Executor.Course, delay: nat, tripDelay: nat)
    requires AtLegs(s, tick) && !course.Completed?
    ensures var s' := OnLegs(c, s, tick, s.ticks[tick], course, delay, tripDelay);
            BooksNone(s, s') && Balances(s') == Balances(s)
  {
  }

  lemma SignalBooks(c: Config, s: State, tick: nat, signal: Option<Signal>, safetyOk: bool, delay: nat)
    ensures var s' := OnSignal(c, s, tick, signal, safetyOk, delay);
            && Balances(s') == Balances(s)
            && (BooksNone(s, s') || (c.exec.simulation && signal.Some? && BooksOne(c, s, s', DryRun(signal.value))))
  {
    if signal.Some? { assert Genuine(c, DryRun(signal.value)); }
  }

  lemma GatesBookNone(s: State, tick: nat, sig: Signal, passes: bool)
    ensures BooksNone(s, OnGates(s, tick, sig, passes)) && Balances(OnGates(s, tick, sig, passes)) == Balances(s)
  {
  }

  lemma PeekBooksNone(c: Config, s: State, tick: nat, peeked: Option<Signal>, minProfit: int, delay: nat)
    ensures var s' := OnPeek(c, s, tick, peeked, minProfit, delay);
            BooksNone(s, s') && Balances(s') == Balances(s)
  {
    if peeked.Some? {
      var s2 := Forgotten(c, Queried(c, s), delay);
      GatesBookNone(s2, tick, peeked.value, Ready(s2, peeked.value));
    }
  }

  lemma MinorBooksNone(s: State, e: Step)
    ensures BooksNone(s, Minor(s, e)) && (!e.BalancesRead? ==> Balances(Minor(s, e)) == Balances(s))
  {
  }

  /** What one reading of the balances from outside changes. */
  ghost function Drift(s: State, e: Step, asset: string): int {
    if e.BalancesRead? then Total(Balances(Minor(s, e)), asset) - Total(Balances(s), asset) else 0
  }

  ghost predicate OnlyDrifts(s: State, e: Step, s': State) {
    forall asset :: Total(Balances(s'), asset) == Total(Balances(s), asset) + Drift(s, e, asset)
  }

  /** The one statement about a step: what it books, and where the balances come from. */
  ghost predicate StepBooks(c: Config, s: State, e: Step, s': State) {
    || (exists b :: BooksOne(c, s, s', b) && !e.BalancesRead?)
    || (BooksNone(s, s') && OnlyDrifts(s, e, s'))
  }

  lemma NextStepBooks(c: Config, s: State, e: Step)
    ensures StepBooks(c, s, e, Next(c, s, e))
  {
    match e
    case SignalReady(tick, signal, safetyOk, delay) =>
      SignalBooks(c, s, tick, signal, safetyOk, delay);
    case PeekReady(tick, peeked, minProfit, delay) =>
      PeekBooksNone(c, s, tick, peeked, minProfit, delay);
    case LegsDone(tick, replies, delay, tripDelay) =>
      if AtLegs(s, tick) {
        var course := Executor.CourseOf(s.ticks[tick].signal, c.exec, replies);
        if course.Completed? {
          CompletedBooks(c, s, tick, replies, delay, tripDelay);
        } else {
          OtherCourseBooksNone(c, s, tick, course, delay, tripDelay);
        }
      }
    case _ => MinorBooksNone(s, e);
  }

  // ----- every run -----

  ghost function Drifts(c: Config, s0: State, steps: seq<Step>, asset: string): int {
    if steps == [] then 0
    else
      var n := |steps| - 1;
      Drifts(c, s0, steps[..n], asset) + Drift(Run(c, s0, steps[..n]), steps[n], asset)
  }

  /** The books agree at the end of a run. */
  ghost predicate Accounted(c: Config, s0: State, s: State, drifts: string -> int) {
    && AllGenuine(c, s.booked) && |s.booked| == |s.trades|
    && s.risk.current == s0.risk.current + Profits(s.booked)
    && forall asset :: Total(Balances(s), asset) ==
         Total(Balances(s0), asset) + Moves(c, s.booked, asset) + drifts(asset)
  }

  lemma StepAccounted(c: Config, s0: State, s: State, e: Step, s': State, drifts: string -> int, drifts': string -> int)
    requires Accounted(c, s0, s, drifts) && StepBooks(c, s, e, s')
    requires forall asset :: drifts'(asset) == drifts(asset) + Drift(s, e, asset)
    ensures Accounted(c, s0, s', drifts')
  {
    if !(BooksNone(s, s') && OnlyDrifts(s, e, s')) {
      var b :| BooksOne(c, s, s', b) && !e.BalancesRead?;
      assert s'.booked[..|s.booked|] == s.booked;
    }
  }

  /** Over every run, under every interleaving: what the risk manager has as capital is what it
      was seeded with plus the profit of every booked trade, one for each recorded trade; every
      booked execution is one the replies completed; and each asset's total over the two venues is
      what it was, plus what the booked fills moved, plus what readings of the balances changed. */
  lemma {:induction false} BooksAgree(c: Config, s0: State, steps: seq<Step>)
    requires Initial(s0)
    ensures Accounted(c, s0, Run(c, s0, steps), a => Drifts(c, s0, steps, a))
  {
    if steps != [] {
      var n := |steps| - 1;
      BooksAgree(c, s0, steps[..n]);
      var s := Run(c, s0, steps[..n]);
      NextStepBooks(c, s, steps[n]);
      StepAccounted(c, s0, s, steps[n], Next(c, s, steps[n]),
                    a => Drifts(c, s0, steps[..n], a), a => Drifts(c, s0, steps, a));
    }
  }

  // ----- every execution is one that the replies of its own step completed -----

  function OnlyExecuted(bs: seq<Booking>): seq<Booking> {
    if bs == [] then []
    else OnlyExecuted(bs[..|bs| - 1]) + if bs[|bs| - 1].Executed? then [bs[|bs| - 1]] else []
  }

  /** The execution a step completes: the signal is the one whose legs were awaited, the fills are
      those of the replies the step brings. */
  function CompletedBy(c: Config, s: State, e: Step): seq<Booking> {
    if e.LegsDone? && AtLegs(s, e.tick) then
      var sig := s.ticks[e.tick].signal;
      match Executor.CourseOf(sig, c.exec, e.replies)
      case Completed(leg1, leg2) => [Executed(sig, leg1, leg2)]
      case _ => []
    else []
  }

  /** The executions the steps of a run complete, in order. */
  function CompletedIn(c: Config, s0: State, steps: seq<Step>): seq<Booking> {
    if steps == [] then []
    else
      var n := |steps| - 1;
      CompletedIn(c, s0, steps[..n]) + CompletedBy(c, Run(c, s0, steps[..n]), steps[n])
  }

  lemma OneMoreBooked(bs: seq<Booking>, b: Booking)
    ensures OnlyExecuted(bs + [b]) == OnlyExecuted(bs) + if b.Executed? then [b] else []
  {
    assert (bs + [b])[..|bs|] == bs;
  }

  lemma LegsBookCompleted(c: Config, s: State, tick: nat, course: Executor.Course, delay: nat, tripDelay: nat)
    requires AtLegs(s, tick)
    ensures OnLegs(c, s, tick, s.ticks[tick], course, delay, tripDelay).booked ==
            s.booked + match course
                       case Completed(leg1, leg2) => [Executed(s.ticks[tick].signal, leg1, leg2)]
                       case _ => []
  {
  }

  lemma SignalExecutesNothing(c: Config, s: State, tick: nat, signal: Option<Signal>, safetyOk: bool, delay: nat)
    ensures OnlyExecuted(OnSignal(c, s, tick, signal, safetyOk, delay).booked) == OnlyExecuted(s.booked)
  {
    SignalBooks(c, s, tick, signal, safetyOk, delay);
    if signal.Some? { OneMoreBooked(s.booked, DryRun(signal.value)); }
  }

  lemma NextBooksCompleted(c: Config, s: State, e: Step)
    ensures OnlyExecuted(Next(c, s, e).booked) == OnlyExecuted(s.booked) + CompletedBy(c, s, e)
  {
    match e
    case SignalReady(tick, signal, safetyOk, delay) =>
      SignalExecutesNothing(c, s, tick, signal, safetyOk, delay);
    case PeekReady(tick, peeked, minProfit, delay) =>
      PeekBooksNone(c, s, tick, peeked, minProfit, delay);
    case LegsDone(tick, replies, delay, tripDelay) =>
      if AtLegs(s, tick) {
        var course := Executor.CourseOf(s.ticks[tick].signal, c.exec, replies);
        LegsBookCompleted(c, s, tick, course, delay, tripDelay);
        if course.Completed? {
          OneMoreBooked(s.booked, Executed(s.ticks[tick].signal, course.leg1, course.leg2));
        }
      }
    case _ => MinorBooksNone(s, e);
  }

  /** The booked executions of a run are exactly those its steps completed, each once and in order. */
  lemma {:induction false} BookedIsCompleted(c: Config, s0: State, steps: seq<Step>)
    requires Initial(s0)
    ensures OnlyExecuted(Run(c, s0, steps).booked) == CompletedIn(c, s0, steps)
  {
    if steps != [] {
      BookedIsCompleted(c, s0, steps[..|steps| - 1]);
      NextBooksCompleted(c, Run(c, s0, steps[..|steps| - 1]), steps[|steps| - 1]);
    }
  }

  lemma {:induction false} NothingMoves(c: Config, bs: seq<Booking>, asset: string)
    requires AllGenuine(c, bs) && forall b :: b in bs && b.Executed? ==> b.signal.quote != asset
    ensures Moves(c, bs, asset) == 0
  {
    if bs != [] {
      NothingMoves(c, bs[..|bs| - 1], asset);
      BookingConservesBase(c, bs[|bs| - 1], asset);
    }
  }

  /** So trading conserves every asset that is no trade's quote, the base above all: its total
      changes only when balances are read. */
  lemma BaseConservedOverRuns(c: Config, s0: State, steps: seq<Step>, asset: string)
    requires Initial(s0)
    requires forall b :: b in Run(c, s0, steps).booked && b.Executed? ==> b.signal.quote != asset
    ensures Total(Balances(Run(c, s0, steps)), asset) == Total(Balances(s0), asset) + Drifts(c, s0, steps, asset)
  {
    BooksAgree(c, s0, steps);
    NothingMoves(c, Run(c, s0, steps).booked, asset);
  }

  /** Every execution trades into `quote` out of another asset. */
  predicate TradesFor(bs: seq<Booking>, quote: string) {
    forall b :: b in bs ==> Plausible(b) && (b.Executed? ==> b.signal.base != quote == b.signal.quote)
  }

  function Executions(bs: seq<Booking>): int {
    if bs == [] then 0 else Executions(bs[..|bs| - 1]) + if bs[|bs| - 1].Executed? then 1 else 0
  }

  lemma {:induction false} QuoteMoves(c: Config, bs: seq<Booking>, quote: string)
    requires AllGenuine(c, bs) && TradesFor(bs, quote)
    ensures -Executions(bs) <= Moves(c, bs, quote) + Fees(c, bs) - Gross(bs) <= Executions(bs)
  {
    if bs != [] {
      QuoteMoves(c, bs[..|bs| - 1], quote);
      BookingGainsQuote(c, bs[|bs| - 1]);
    }
  }

  /** And on one pair the quote held over both venues grows by the gross profits less the fees
      booked, to within one unit for each execution. */
  lemma QuoteTracksProfit(c: Config, s0: State, steps: seq<Step>, quote: string)
    requires Initial(s0) && TradesFor(Run(c, s0, steps).booked, quote)
    ensures var bs := Run(c, s0, steps).booked;
            var grown := Total(Balances(Run(c, s0, steps)), quote) - Total(Balances(s0), quote);
            var traded := grown - Drifts(c, s0, steps, quote);
            -Executions(bs) <= traded - (Gross(bs) - Fees(c, bs)) <= Executions(bs)
  {
    BooksAgree(c, s0, steps);
    QuoteMoves(c, Run(c, s0, steps).booked, quote);
  }
}
