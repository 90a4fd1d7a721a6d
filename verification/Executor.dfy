/** The two-legged executor, CEX leg first. The replies of the exchange and of the chain, and the
    clock readings, are arguments. */
module Executor {
  import opened JsMath
  import opened Core
  import opened ExchangeRules
  import opened Inventory
  import opened Recovery

  const CEX_PRICE_BUFFER_BPS: int := 10

  datatype Config = Config(simulation: bool, minFillRatio: real, combinedFeeRateBps: int, rules: Option<TradingRules>)

  datatype LegResult = LegResult(success: bool, price: int, filled: int)

  /** What the exchange answers to the order of the first leg, if it answers in time. */
  datatype CexReply = CexTimeout | CexThrows | CexOrder(amountFilled: int, avgFillPrice: int)

  /** What becomes of the swap of the second leg; a success fills exactly what was asked. */
  datatype DexReply = DexTimeout | DexFails | DexFilled(price: int)

  /** What the exchange answers to the market order of an unwind: it may refuse the order. */
  datatype UnwindReply = UnwindThrows | UnwindFilled(qty: int)

  datatype Replies = Replies(cex: CexReply, dex: DexReply, unwind: UnwindReply)

  /** The clock readings of one execution. */
  datatype Times = Times(atBreaker: int, atReplay: int, atValidity: int, atMark: int, atFailure: int, atTrip: int)

  datatype OrderKind = LimitIoc(price: int) | Market

  datatype Order = Order(side: Side, size: int, kind: OrderKind)

  datatype ExecState = VALIDATING | LEG1_PENDING | LEG1_FILLED | LEG2_PENDING | UNWINDING | DONE | FAILED | IDLE

  // ----- the legs -----

  function CexSide(d: Direction): Side { if d.BuyCexSellDex? then Buy else Sell }

  function Opposite(s: Side): Side { if s.Buy? then Sell else Buy }

  function CexOrderFor(s: Signal, c: Config): Order {
    var raw := if s.direction.BuyCexSellDex? then TruncDiv(s.cexPrice * (BPS + CEX_PRICE_BUFFER_BPS), BPS)
               else TruncDiv(s.cexPrice * (BPS - CEX_PRICE_BUFFER_BPS), BPS);
    match c.rules
    case None => Order(CexSide(s.direction), s.size, LimitIoc(raw))
    case Some(r) => Order(CexSide(s.direction), RoundQuantity(s.size, r.stepSize),
                      LimitIoc(RoundPrice(raw, r.tickSize)))
  }

  /** Whether the first leg reaches the exchange at all. */
  function Orderable(s: Signal, c: Config): bool {
    var o := CexOrderFor(s, c);
    && !c.simulation && o.size != 0
    && (c.rules.Some? ==> CheckMinNotional(o.size, o.kind.price, c.rules.value.minNotional))
  }

  /** The first leg as the executor sees it: None is a timeout. */
  function CexLeg(s: Signal, c: Config, reply: CexReply): Option<LegResult> {
    if reply.CexTimeout? then None
    else if c.simulation then Some(LegResult(true, TruncDiv(s.cexPrice * 10_001, 10_000), s.size))
    else if !Orderable(s, c) || reply.CexThrows? then Some(LegResult(false, 0, 0))
    else Some(LegResult(reply.amountFilled > 0, reply.avgFillPrice, reply.amountFilled))
  }

  /** The second leg, for the size the first one filled. */
  function DexLeg(s: Signal, c: Config, size: int, reply: DexReply): Option<LegResult> {
    if reply.DexTimeout? then None
    else if c.simulation then Some(LegResult(true, TruncDiv(s.dexPrice * 9_998, 10_000), size))
    else if reply.DexFails? then Some(LegResult(false, 0, 0))
    else Some(LegResult(true, reply.price, size))
  }

  function MinFillScaled(c: Config): int { Round(c.minFillRatio * 10000.0) }

  function FillRatio(filled: int, s: Signal): int
    requires s.size != 0
  {
    TruncDiv(filled * BPS, s.size)
  }

  // ----- the ledger -----

  function Notional(size: int, price: int): int { TruncDiv(size * price, PRICE_SCALE) }

  function LegFee(notional: int, c: Config): int { TruncDiv(notional * TruncDiv(c.combinedFeeRateBps, 2), BPS) }

  /** The trade a filled leg books at its venue. */
  function LegTrade(s: Signal, c: Config, side: Side, size: int, price: int): Trade {
    var n := Notional(size, price);
    Trade(side, s.base, s.quote, size, n, LegFee(n, c), s.quote)
  }

  function CexTrade(s: Signal, c: Config, size: int, price: int): Trade {
    LegTrade(s, c, CexSide(s.direction), size, price)
  }

  function DexTrade(s: Signal, c: Config, size: int, price: int): Trade {
    LegTrade(s, c, Opposite(CexSide(s.direction)), size, price)
  }

  function Settled(b: map<Venue, Assets>, cex: Trade, dex: Trade): map<Venue, Assets>
    requires Binance in b && Wallet in b
  {
    b[Binance := Traded(b[Binance], cex)][Wallet := Traded(b[Wallet], dex)]
  }

  /** The gross profit of the fills, the CEX leg being leg 1. */
  function GrossPnl(s: Signal, leg1Price: int, leg2Price: int, size: int): int {
    if s.direction.BuyCexSellDex? then TruncDiv((leg2Price - leg1Price) * size, PRICE_SCALE)
    else TruncDiv((leg1Price - leg2Price) * size, PRICE_SCALE)
  }

  function CalculatePnl(s: Signal, leg1Price: int, leg2Price: int, size: int): int {
    var fillRatio := if s.size > 0 then TruncDiv(size * BPS, s.size) else BPS;
    GrossPnl(s, leg1Price, leg2Price, size) - TruncDiv(s.expectedFees * fillRatio, BPS)
  }

  // ----- the gates -----

  function QuoteNeeded(s: Signal): int { TruncDiv(s.size * s.cexPrice, PRICE_SCALE) }

  predicate Funded(b: map<Venue, Assets>, s: Signal) {
    var dexBuys := s.direction.BuyDexSellCex?;
    Covered(b, if dexBuys then Wallet else Binance, s.quote, QuoteNeeded(s),
            if dexBuys then Binance else Wallet, s.base, s.size)
  }

  predicate IsValid(s: Signal, now: int) { now < s.expiry && s.inventoryOk && s.withinLimits }

  /** Everything that must hold before the first leg. */
  predicate Passes(c: BreakerConfig, b: Breaker, ttlMs: int, executed: map<string, int>,
                   inv: map<Venue, Assets>, s: Signal, t: Times) {
    && Asked(c, b, t.atBreaker).trippedAt.None?
    && s.signalId !in Cleanup(executed, t.atReplay - ttlMs)
    && IsValid(s, t.atValidity) && Funded(inv, s)
  }

  /** A signal is funded exactly when booking both of its trades for the whole size at its CEX price,
      fees aside, overdraws neither what the buy spends nor what the sale gives away, each at the
      venue where its trade is booked. */
  lemma FundedIff(b: map<Venue, Assets>, s: Signal, c: Config)
    requires Binance in b && Wallet in b && s.base != s.quote
    ensures Funded(b, s) <==> Affordable(b, s, c)
  {
    var cex, dex := CexTrade(s, c, s.size, s.cexPrice).(fee := 0), DexTrade(s, c, s.size, s.cexPrice).(fee := 0);
    TradeMovesFree(b[Binance], cex, s.base);
    TradeMovesFree(b[Binance], cex, s.quote);
    TradeMovesFree(b[Wallet], dex, s.base);
    TradeMovesFree(b[Wallet], dex, s.quote);
  }

  predicate Affordable(b: map<Venue, Assets>, s: Signal, c: Config)
    requires Binance in b && Wallet in b
  {
    var cex, dex := CexTrade(s, c, s.size, s.cexPrice).(fee := 0), DexTrade(s, c, s.size, s.cexPrice).(fee := 0);
    var after := Settled(b, cex, dex);
    var buys, sells := if cex.side.Buy? then Binance else Wallet, if cex.side.Buy? then Wallet else Binance;
    Available(after, buys, s.quote) >= 0 && Available(after, sells, s.base) >= 0
  }

  /** Each gate in terms of what it looks at: the breaker has not tripped or its cooldown is over, the
      signal was not executed within the time to live, it has not expired, its own checks hold, and
      both trades are affordable. */
  predicate Licensed(c: BreakerConfig, b: Breaker, ttlMs: int, executed: map<string, int>,
                     inv: map<Venue, Assets>, s: Signal, config: Config, t: Times)
    requires Binance in inv && Wallet in inv
  {
    && (b.trippedAt.Some? ==> t.atBreaker - b.trippedAt.value > c.cooldownMs)
    && (s.signalId in executed ==> executed[s.signalId] + ttlMs <= t.atReplay)
    && t.atValidity < s.expiry && s.inventoryOk && s.withinLimits
    && Affordable(inv, s, config)
  }

  lemma PassesIff(c: BreakerConfig, b: Breaker, ttlMs: int, executed: map<string, int>,
                  inv: map<Venue, Assets>, s: Signal, config: Config, t: Times)
    requires Binance in inv && Wallet in inv && s.base != s.quote
    ensures Passes(c, b, ttlMs, executed, inv, s, t) <==> Licensed(c, b, ttlMs, executed, inv, s, config, t)
  {
    FundedIff(inv, s, config);
  }

  /** How a run past the gates ends, as far as the replies decide it. */
  datatype Course =
    | Throws                            // the fill ratio of a zero-sized signal divides by zero
    | CexLegFailed                      // timeout or rejection; nothing filled as far as is known
    | PartialFill(filled: int)          // filled, but below the threshold
    | DexLegFailed(leg1: LegResult)     // the CEX fill must be unwound
    | Completed(leg1: LegResult, leg2: LegResult)

  function CourseOf(s: Signal, c: Config, r: Replies): Course {
    match CexLeg(s, c, r.cex)
    case None => CexLegFailed
    case Some(leg1) =>
      if !leg1.success then CexLegFailed
      else if s.size == 0 then Throws
      else if FillRatio(leg1.filled, s) < MinFillScaled(c) then PartialFill(leg1.filled)
      else
        match DexLeg(s, c, leg1.filled, r.dex)
        case None => DexLegFailed(leg1)
        case Some(leg2) => if leg2.success then Completed(leg1, leg2) else DexLegFailed(leg1)
  }

  /** The orders an unwind sends: one market order back, for the fill rounded to whole lots. */
  function UnwindOrders(s: Signal, c: Config, filled: int): seq<Order> {
    var size := if c.rules.Some? then RoundQuantity(filled, c.rules.value.stepSize) else filled;
    if c.simulation || size == 0 then [] else [Order(Opposite(CexSide(s.direction)), size, Market)]
  }

  function OrdersOf(s: Signal, c: Config, r: Replies): seq<Order> {
    var first := if Orderable(s, c) then [CexOrderFor(s, c)] else [];
    match CourseOf(s, c, r)
    case DexLegFailed(leg1) => first + UnwindOrders(s, c, leg1.filled)
    case _ => first
  }

  // ----- the executor -----

  class ExecutionContext {
    const signal: Signal
    var state: ExecState
    var leg1IsCex: bool
    var leg1FillPrice: Option<int>
    var leg1FillSize: Option<int>
    var leg2FillPrice: Option<int>
    var leg2FillSize: Option<int>
    var actualNetPnl: Option<int>

    constructor (signal: Signal)
      ensures this.signal == signal && state == IDLE && !leg1IsCex
      ensures leg1FillPrice == leg1FillSize == leg2FillPrice == leg2FillSize == actualNetPnl == None
    {
      this.signal := signal;
      state := IDLE;
      leg1IsCex := false;
      leg1FillPrice, leg1FillSize, leg2FillPrice, leg2FillSize, actualNetPnl := None, None, None, None, None;
    }
  }

  class Executor {
    const config: Config
    const inventory: InventoryTracker
    const breaker: CircuitBreaker
    const replay: ReplayProtection
    /** The orders sent to the exchange, in order. */
    var orders: seq<Order>

    constructor (config: Config, inventory: InventoryTracker, breakerConfig: BreakerConfig, ttlMs: int)
      ensures this.config == config && this.inventory == inventory && orders == []
      ensures fresh(breaker) && breaker.config == breakerConfig && breaker.Abstract() == CLOSED
      ensures fresh(replay) && replay.ttlMs == ttlMs && replay.executed == map[]
    {
      this.config := config;
      this.inventory := inventory;
      orders := [];
      breaker := new CircuitBreaker(breakerConfig);
      replay := new ReplayProtection(ttlMs);
    }

    ghost predicate Ready(s: Signal, t: Times)
      reads inventory, breaker, replay
    {
      Passes(breaker.config, breaker.Abstract(), replay.ttlMs, replay.executed, inventory.balances, s, t)
    }

    ghost predicate LicensedNow(s: Signal, t: Times)
      requires inventory.balances.Keys == {Binance, Wallet}
      reads inventory, breaker, replay
    {
      Licensed(breaker.config, breaker.Abstract(), replay.ttlMs, replay.executed, inventory.balances, s, config, t)
    }

    /** Every execution that returns has ended DONE or FAILED; inventory moves only when it is
        DONE; the legs run, the signal is marked and the outcome reaches the breaker exactly when
        all gates pass. A null context stands for the RangeError thrown on a zero-sized signal. */
    method Execute(signal: Signal, r: Replies, t: Times) returns (ctx: ExecutionContext?)
      requires inventory.balances.Keys == {Binance, Wallet}
      modifies this, inventory, breaker, replay
      ensures inventory.balances.Keys == {Binance, Wallet}
      ensures ctx != null ==> fresh(ctx) && ctx.signal == signal && ctx.state in {DONE, FAILED}
      ensures var ready, course := old(Ready(signal, t)), CourseOf(signal, config, r);
              && (ctx == null <==> ready && course.Throws?)
              && (ctx != null && ctx.state == DONE <==> ready && course.Completed?)
              && orders == old(orders) + (if ready then OrdersOf(signal, config, r) else [])
              && (ctx != null && ctx.leg1FillSize.Some? <==> ready && (course.DexLegFailed? || course.Completed?))
      ensures orders != old(orders) && signal.base != signal.quote ==> old(LicensedNow(signal, t))
      ensures ctx == null || ctx.state == FAILED ==> inventory.balances == old(inventory.balances)
      ensures ctx != null && ctx.state == DONE ==>
                var Completed(leg1, leg2) := CourseOf(signal, config, r);
                && ctx.leg1IsCex && ctx.leg1FillPrice == Some(leg1.price) && ctx.leg1FillSize == Some(leg1.filled)
                && ctx.leg2FillPrice == Some(leg2.price) && ctx.leg2FillSize == Some(leg2.filled)
                && ctx.actualNetPnl == Some(CalculatePnl(signal, leg1.price, leg2.price, leg1.filled))
                && inventory.balances == Settled(old(inventory.balances),
                     CexTrade(signal, config, leg1.filled, leg1.price),
                     DexTrade(signal, config, leg2.filled, leg2.price))
      ensures breaker.Abstract() ==
              var b := Asked(breaker.config, old(breaker.Abstract()), t.atBreaker);
              if old(Ready(signal, t)) && ctx != null && ctx.state == FAILED
              then WithFailure(breaker.config, b, t.atFailure, t.atTrip) else b
      ensures replay.executed ==
              if Asked(breaker.config, old(breaker.Abstract()), t.atBreaker).trippedAt.Some? then old(replay.executed)
              else
                var kept := Cleanup(old(replay.executed), t.atReplay - replay.ttlMs);
                if old(Ready(signal, t)) && ctx != null then kept[signal.signalId := t.atMark] else kept
    {
      ghost var (b, memory, inv) := (breaker.Abstract(), replay.executed, inventory.balances);
      ctx := new ExecutionContext(signal);
      var ok := PassGates(ctx, t);
      if signal.base != signal.quote {
        PassesIff(breaker.config, b, replay.ttlMs, memory, inv, signal, config, t);
      }
      if !ok {
        return;
      }
      var threw := ExecuteCexFirst(ctx, r);
      if threw {
        return null;
      }
      replay.MarkExecuted(signal.signalId, t.atMark);
      if ctx.state != DONE {
        breaker.RecordFailure(t.atFailure, t.atTrip);
      }
    }

    /** The part of `Execute` before the first leg. */
    method PassGates(ctx: ExecutionContext, t: Times) returns (ok: bool)
      modifies breaker, replay, ctx`state
      ensures ok <==> old(Ready(ctx.signal, t))
      ensures ctx.state == if ok then VALIDATING else FAILED
      ensures breaker.Abstract() == Asked(breaker.config, old(breaker.Abstract()), t.atBreaker)
      ensures replay.executed ==
              if breaker.Abstract().trippedAt.Some? then old(replay.executed)
              else Cleanup(old(replay.executed), t.atReplay - replay.ttlMs)
    {
      var signal := ctx.signal;
      var open := breaker.IsOpen(t.atBreaker);
      if open {
        ctx.state := FAILED;
        return false;
      }
      var dup := replay.IsDuplicate(signal.signalId, t.atReplay);
      if dup {
        ctx.state := FAILED;
        return false;
      }
      ctx.state := VALIDATING;
      if !IsValid(signal, t.atValidity) {
        ctx.state := FAILED;
        return false;
      }
      var quoteNeeded := TruncDiv(signal.size * signal.cexPrice, PRICE_SCALE);
      var isBuyDex := signal.direction == BuyDexSellCex;
      var can := inventory.CanExecute(
        if isBuyDex then Wallet else Binance, signal.quote, quoteNeeded,
        if isBuyDex then Binance else Wallet, signal.base, signal.size);
      if !can {
        ctx.state := FAILED;
        return false;
      }
      return true;
    }

    /** The context and the ledger after both legs have filled. */
    twostate predicate Booked(ctx: ExecutionContext, leg1: LegResult, leg2: LegResult)
      requires old(inventory.balances).Keys == {Binance, Wallet}
      reads ctx, inventory
    {
      && ctx.leg1IsCex && ctx.leg1FillPrice == Some(leg1.price) && ctx.leg1FillSize == Some(leg1.filled)
      && ctx.leg2FillPrice == Some(leg2.price) && ctx.leg2FillSize == Some(leg2.filled)
      && ctx.actualNetPnl == Some(CalculatePnl(ctx.signal, leg1.price, leg2.price, leg1.filled))
      && inventory.balances == Settled(old(inventory.balances),
           CexTrade(ctx.signal, config, leg1.filled, leg1.price), DexTrade(ctx.signal, config, leg2.filled, leg2.price))
    }

    method ExecuteCexFirst(ctx: ExecutionContext, r: Replies) returns (threw: bool)
      requires inventory.balances.Keys == {Binance, Wallet}
      requires ctx.leg1FillSize == None && ctx.state == VALIDATING
      modifies this, inventory, ctx
      ensures var course := CourseOf(ctx.signal, config, r);
              && (threw <==> course.Throws?)
              && orders == old(orders) + OrdersOf(ctx.signal, config, r)
              && (!threw ==> ctx.state == if course.Completed? then DONE else FAILED)
              && (!threw ==> (ctx.leg1FillSize.Some? <==> course.DexLegFailed? || course.Completed?))
              && (!course.Completed? ==> inventory.balances == old(inventory.balances))
              && (course.Completed? ==> Booked(ctx, course.leg1, course.leg2))
      ensures inventory.balances.Keys == {Binance, Wallet}
    {
      threw := false;
      ctx.state := LEG1_PENDING;
      ctx.leg1IsCex := true;
      if Orderable(ctx.signal, config) {
        orders := orders + [CexOrderFor(ctx.signal, config)];
      }
      var leg1 := CexLeg(ctx.signal, config, r.cex);
      if leg1.None? || !leg1.value.success {
        ctx.state := FAILED;
        return;
      }
      if ctx.signal.size == 0 {
        return true;
      }
      if FillRatio(leg1.value.filled, ctx.signal) < MinFillScaled(config) {
        ctx.state := FAILED;
        return;
      }
      ctx.leg1FillPrice := Some(leg1.value.price);
      ctx.leg1FillSize := Some(leg1.value.filled);
      ctx.state := LEG1_FILLED;
      SecondLeg(ctx, leg1.value, r);
    }

    /** The second leg, and what follows from it. */
    method SecondLeg(ctx: ExecutionContext, leg1: LegResult, r: Replies)
      requires inventory.balances.Keys == {Binance, Wallet}
      requires ctx.leg1IsCex && ctx.leg1FillPrice == Some(leg1.price) && ctx.leg1FillSize == Some(leg1.filled)
      modifies this, inventory, ctx
      ensures ctx.leg1FillSize == Some(leg1.filled) && inventory.balances.Keys == {Binance, Wallet}
      ensures var leg2 := DexLeg(ctx.signal, config, leg1.filled, r.dex);
              if leg2.Some? && leg2.value.success
              then ctx.state == DONE && orders == old(orders) && Booked(ctx, leg1, leg2.value)
              else ctx.state == FAILED && inventory.balances == old(inventory.balances)
                   && orders == old(orders) + UnwindOrders(ctx.signal, config, leg1.filled)
    {
      ctx.state := LEG2_PENDING;
      var leg2 := DexLeg(ctx.signal, config, leg1.filled, r.dex);
      if leg2.None? || !leg2.value.success {
        ctx.state := UNWINDING;
        // An UnwindError is logged and swallowed.
        var _ := Unwind(ctx, r.unwind);
        ctx.state := FAILED;
        return;
      }
      ctx.leg2FillPrice := Some(leg2.value.price);
      ctx.leg2FillSize := Some(leg2.value.filled);
      ctx.actualNetPnl := Some(CalculatePnl(ctx.signal, leg1.price, leg2.value.price, leg1.filled));
      ctx.state := DONE;
      RecordTrades(ctx);
    }

    /** Sends the fill back, and throws when the exchange refuses. The minimum notional is not
        looked at. */
    method Unwind(ctx: ExecutionContext, reply: UnwindReply) returns (threw: bool)
      requires ctx.leg1FillSize.Some?
      modifies this
      ensures var back := UnwindOrders(ctx.signal, config, ctx.leg1FillSize.value);
              && orders == old(orders) + back
              && (threw <==> back != [] && reply.UnwindThrows?)
    {
      if config.simulation {
        return false;
      }
      var fillSize := ctx.leg1FillSize.value;
      if fillSize == 0 {
        return false;
      }
      var adjustedFill := if config.rules.Some? then RoundQuantity(fillSize, config.rules.value.stepSize) else fillSize;
      if adjustedFill == 0 {
        return false;
      }
      var unwindSide := if ctx.signal.direction == BuyCexSellDex then Sell else Buy;
      orders := orders + [Order(unwindSide, adjustedFill, Market)];
      return reply.UnwindThrows?;
    }

    method RecordTrades(ctx: ExecutionContext)
      requires inventory.balances.Keys == {Binance, Wallet}
      requires ctx.leg1FillSize.Some? && ctx.leg1FillPrice.Some? && ctx.leg2FillSize.Some? && ctx.leg2FillPrice.Some?
      requires ctx.leg1IsCex
      modifies inventory
      ensures inventory.balances == Settled(old(inventory.balances),
                CexTrade(ctx.signal, config, ctx.leg1FillSize.value, ctx.leg1FillPrice.value),
                DexTrade(ctx.signal, config, ctx.leg2FillSize.value, ctx.leg2FillPrice.value))
    {
      var leg1Size, leg2Size := ctx.leg1FillSize.value, ctx.leg2FillSize.value;
      var leg1Notional := TruncDiv(leg1Size * ctx.leg1FillPrice.value, PRICE_SCALE);
      var leg2Notional := TruncDiv(leg2Size * ctx.leg2FillPrice.value, PRICE_SCALE);
      var halfFeeBps := TruncDiv(config.combinedFeeRateBps, 2);
      var leg1Fee := TruncDiv(leg1Notional * halfFeeBps, BPS);
      var leg2Fee := TruncDiv(leg2Notional * halfFeeBps, BPS);
      var cexSide := if ctx.signal.direction == BuyCexSellDex then Buy else Sell;
      var s := ctx.signal;
      var _ := inventory.RecordTrade(Binance,
        Trade(cexSide, s.base, s.quote, leg1Size, leg1Notional, leg1Fee, s.quote));
      var _ := inventory.RecordTrade(Wallet,
        Trade(if cexSide == Buy then Sell else Buy, s.base, s.quote, leg2Size, leg2Notional, leg2Fee, s.quote));
    }
  }

  // ----- what is ordered -----

  lemma OrderedSize(s: Signal, c: Config, rules: TradingRules)
    requires c.rules == Some(rules) && rules.stepSize > 0 && s.size >= 0
    ensures var size := CexOrderFor(s, c).size;
            0 <= size <= s.size < size + rules.stepSize && size % rules.stepSize == 0
  {
    RoundQuantityIsGreatest(s.size, rules.stepSize, 0);
  }

  lemma BuyPriceCovers(price: int, tickSize: int)
    requires price >= 0 && tickSize > 0
    ensures var p := RoundPrice(TruncDiv(price * (BPS + CEX_PRICE_BUFFER_BPS), BPS), tickSize);
            p % tickSize == 0 && 2 * (price - p) <= tickSize
  {
    var raw := TruncDiv(price * (BPS + CEX_PRICE_BUFFER_BPS), BPS);
    assert raw >= price;
    RoundPriceIsNearest(raw, tickSize);
  }

  lemma SellPriceCovers(price: int, tickSize: int)
    requires price >= 0 && tickSize > 0
    ensures var p := RoundPrice(TruncDiv(price * (BPS - CEX_PRICE_BUFFER_BPS), BPS), tickSize);
            p % tickSize == 0 && 2 * (p - price) <= tickSize
  {
    var raw := TruncDiv(price * (BPS - CEX_PRICE_BUFFER_BPS), BPS);
    assert 0 <= raw <= price;
    RoundPriceIsNearest(raw, tickSize);
  }

  /** An order that reaches the exchange meets its rules, never exceeds the signal, and prices a
      buy at or above and a sell at or below the signal's CEX price, up to half a tick. */
  lemma OrderRespectsRules(s: Signal, c: Config, rules: TradingRules)
    requires c.rules == Some(rules) && rules.stepSize > 0 && rules.tickSize > 0
    requires Orderable(s, c) && s.size >= 0 && s.cexPrice >= 0
    ensures var o := CexOrderFor(s, c);
            && 0 < o.size <= s.size < o.size + rules.stepSize && o.size % rules.stepSize == 0
            && o.kind.price % rules.tickSize == 0
            && CheckMinNotional(o.size, o.kind.price, rules.minNotional)
            && (o.side.Buy? ==> 2 * (s.cexPrice - o.kind.price) <= rules.tickSize)
            && (o.side.Sell? ==> 2 * (o.kind.price - s.cexPrice) <= rules.tickSize)
  {
    OrderedSize(s, c, rules);
    if s.direction.BuyCexSellDex? {
      BuyPriceCovers(s.cexPrice, rules.tickSize);
    } else {
      SellPriceCovers(s.cexPrice, rules.tickSize);
    }
  }

  // ----- what a finished execution means -----

  /** The second leg fills exactly what the first one filled. */
  lemma LegsFillAlike(s: Signal, c: Config, r: Replies)
    requires CourseOf(s, c, r).Completed?
    ensures CourseOf(s, c, r).leg2.filled == CourseOf(s, c, r).leg1.filled
  {
  }

  /** A completed execution conserves the base asset over both venues, and changes the quote
      asset by what was sold less what was bought less both fees. */
  lemma LedgerConserved(b: map<Venue, Assets>, s: Signal, c: Config, r: Replies)
    requires Binance in b && Wallet in b && s.base != s.quote && CourseOf(s, c, r).Completed?
    ensures var Completed(leg1, leg2) := CourseOf(s, c, r);
            var (cex, dex) := (CexTrade(s, c, leg1.filled, leg1.price), DexTrade(s, c, leg2.filled, leg2.price));
            var b' := Settled(b, cex, dex);
            var (sold, bought) := if s.direction.BuyCexSellDex? then (dex, cex) else (cex, dex);
            && Total(b', s.base) == Total(b, s.base)
            && Total(b', s.quote) == Total(b, s.quote) + sold.quoteAmount - bought.quoteAmount - cex.fee - dex.fee
            && forall a :: a != s.base && a != s.quote ==> Total(b', a) == Total(b, a)
  {
    var Completed(leg1, leg2) := CourseOf(s, c, r);
    var cex, dex := CexTrade(s, c, leg1.filled, leg1.price), DexTrade(s, c, leg2.filled, leg2.price);
    LegsFillAlike(s, c, r);
    forall a
      ensures Total(Settled(b, cex, dex), a) == Total(b, a) + Delta(cex, a) + Delta(dex, a)
    {
      TradeMovesHolding(b[Binance], cex, a);
      TradeMovesHolding(b[Wallet], dex, a);
    }
  }

  /** The quote gained before fees is the gross profit of the fills, to within one unit. */
  lemma QuoteGainIsGrossPnl(s: Signal, price1: int, price2: int, size: int)
    requires price1 >= 0 && price2 >= 0 && size >= 0
    ensures var (sold, bought) := if s.direction.BuyCexSellDex? then (price2, price1) else (price1, price2);
            -1 <= Notional(size, sold) - Notional(size, bought) - GrossPnl(s, price1, price2, size) <= 1
  {
    DifferenceOfFloors(size * price1, size * price2, PRICE_SCALE)
      by { MulMono(0, price1, size); MulMono(0, price2, size); }
    DifferenceOfFloors(size * price2, size * price1, PRICE_SCALE)
      by { MulMono(0, price1, size); MulMono(0, price2, size); }
    assert (price2 - price1) * size == size * price2 - size * price1;
    assert (price1 - price2) * size == size * price1 - size * price2;
  }

  lemma DifferenceOfFloors(m: int, n: int, d: int)
    requires m >= 0 && n >= 0 && d > 0
    ensures -1 <= (TruncDiv(n, d) - TruncDiv(m, d)) - TruncDiv(n - m, d) <= 1
  {
    var p, q, e := TruncDiv(m, d), TruncDiv(n, d), TruncDiv(n - m, d);
    TruncDivBounds(m, d);
    TruncDivBounds(n, d);
    TruncDivBounds(n - m, d);
    assert (q - p + 1) * d == (q + 1) * d - p * d;
    assert (q - p - 1) * d == q * d - (p + 1) * d;
    if n >= m {
      LessByFactor(e, q - p + 1, d);
      LessByFactor(q - p - 1, e + 1, d);
    } else {
      LessByFactor(e - 1, q - p + 1, d);
      LessByFactor(q - p - 1, e, d);
    }
  }

  lemma LessByFactor(a: int, b: int, d: int)
    requires d > 0 && a * d < b * d
    ensures a < b
  {
    if b <= a { MulMono(b, a, d); }
  }

  /** An unwind sends nothing in a simulation or for less than a lot; otherwise one market order back, for
      all whole lots of the first leg's fill. */
  lemma UnwindLeavesLessThanALot(s: Signal, c: Config, filled: nat)
    requires c.rules.Some? ==> c.rules.value.stepSize >= 0
    ensures var orders := UnwindOrders(s, c, filled);
            if c.simulation || filled < Lot(c) then orders == []
            else
              && |orders| == 1 && orders[0].kind == Market && (orders[0].side == Sell <==> s.direction == BuyCexSellDex)
              && orders[0].size % Lot(c) == 0 && orders[0].size <= filled < orders[0].size + Lot(c)
  {
    if c.rules.Some? && c.rules.value.stepSize > 0 {
      RoundQuantityIsGreatest(filled, c.rules.value.stepSize, 1);
    }
  }

  function Lot(c: Config): int { if c.rules.Some? && c.rules.value.stepSize > 0 then c.rules.value.stepSize else 1 }

  // ----- what a failed execution leaves behind -----

  /** What the exchange has filled of the unwind. */
  function FilledBack(s: Signal, c: Config, r: Replies): int {
    match CourseOf(s, c, r)
    case DexLegFailed(leg1) =>
      if UnwindOrders(s, c, leg1.filled) == [] || r.unwind.UnwindThrows? then 0 else r.unwind.qty
    case _ => 0
  }

  /** The position an execution that sent its order, and failed, leaves at the exchange. */
  function LeftOver(s: Signal, c: Config, r: Replies): int
    requires Orderable(s, c) && r.cex.CexOrder?
  {
    r.cex.amountFilled - FilledBack(s, c, r)
  }

  /** The exchange fills an unwind of `filled` in whole lots, and no more than was ordered. */
  predicate FillsOrdered(s: Signal, c: Config, filled: int, reply: UnwindReply) {
    reply.UnwindFilled? ==>
      && 0 <= reply.qty && reply.qty % Lot(c) == 0
      && forall o :: o in UnwindOrders(s, c, filled) ==> reply.qty <= o.size
  }

  /** The whole of an unwind of `filled` is carried out. */
  predicate UnwindSucceeds(s: Signal, c: Config, filled: int, reply: UnwindReply) {
    forall o :: o in UnwindOrders(s, c, filled) ==> reply == UnwindFilled(o.size)
  }

  /** A failed execution is documented to be unwound to the original position. It is, to within a
      lot, exactly when the fill met the threshold and the exchange filled the unwind order. A fill
      below the threshold, or one whose unwind is refused, is left standing whole. */
  lemma FailedFillIsUnwoundIff(s: Signal, c: Config, r: Replies)
    requires !c.simulation && r.cex.CexOrder? && Orderable(s, c) && !CourseOf(s, c, r).Completed?
    requires s.size != 0 && r.cex.amountFilled >= Lot(c) && (c.rules.Some? ==> c.rules.value.stepSize >= 0)
    requires FillsOrdered(s, c, r.cex.amountFilled, r.unwind)
    ensures var filled, met := r.cex.amountFilled, FillRatio(r.cex.amountFilled, s) >= MinFillScaled(c);
            && (LeftOver(s, c, r) < Lot(c) <==> met && UnwindSucceeds(s, c, filled, r.unwind))
            && (!met || r.unwind.UnwindThrows? ==> LeftOver(s, c, r) == filled)
  {
    var filled := r.cex.amountFilled;
    var back := UnwindOrders(s, c, filled);
    UnwindLeavesLessThanALot(s, c, filled);
    assert back == [back[0]];
    if r.unwind.UnwindFilled? && r.unwind.qty < back[0].size {
      LotsApart(r.unwind.qty, back[0].size, Lot(c));
    }
  }

  /** Two different whole numbers of lots are at least a lot apart. */
  lemma LotsApart(a: int, b: int, lot: int)
    requires lot > 0 && a < b && a % lot == 0 && b % lot == 0
    ensures b - a >= lot
  {
    var m, n := a / lot, b / lot;
    assert a == m * lot && b == n * lot;
    if n <= m { MulMono(n, m, lot); }
    MulMono(m + 1, n, lot);
    assert (m + 1) * lot == m * lot + lot;
  }

  /** A fill of 70% under the default threshold of 80%: the execution fails, nothing is unwound. */
  lemma PartialFillStands()
    ensures var s := Signal("id", "ETH", "USDC", BuyCexSellDex, 100_000_000, 100_000_000, 100, 0, 0, 0, 1, true, true);
            var c := Config(false, 0.8, 40, None);
            var r := Replies(CexOrder(70, 100_000_000), DexTimeout, UnwindFilled(70));
            && CourseOf(s, c, r) == PartialFill(70) && |OrdersOf(s, c, r)| == 1
            && Orderable(s, c) && LeftOver(s, c, r) == 70
  {
    var s := Signal("id", "ETH", "USDC", BuyCexSellDex, 100_000_000, 100_000_000, 100, 0, 0, 0, 1, true, true);
    var c := Config(false, 0.8, 40, None);
    assert MinFillScaled(c) == 8000 && FillRatio(70, s) == 7000;
  }

  /** An order of 10.01 over a minimum notional of 9 fills to 80%, the second leg fails, and the
      order back is worth 8: an exchange that refuses it leaves the whole fill standing, in an
      execution that reports itself unwound. */
  lemma RefusedUnwindStands()
    ensures var rules := TradingRules(1, 1, 900_000_000);
            var s := Signal("id", "ETH", "USDC", BuyCexSellDex, 100_000_000, 100_000_000, 1_000_000_000,
                            0, 0, 0, 1, true, true);
            var c := Config(false, 0.8, 40, Some(rules));
            var r := Replies(CexOrder(800_000_000, 100_000_000), DexFails, UnwindThrows);
            && OrdersOf(s, c, r) == [CexOrderFor(s, c), Order(Sell, 800_000_000, Market)]
            && CheckMinNotional(CexOrderFor(s, c).size, CexOrderFor(s, c).kind.price, rules.minNotional)
            && !CheckMinNotional(800_000_000, CexOrderFor(s, c).kind.price, rules.minNotional)
            && CourseOf(s, c, r).DexLegFailed? && Orderable(s, c) && LeftOver(s, c, r) == 800_000_000
  {
    var rules := TradingRules(1, 1, 900_000_000);
    var s := Signal("id", "ETH", "USDC", BuyCexSellDex, 100_000_000, 100_000_000, 1_000_000_000,
                    0, 0, 0, 1, true, true);
    var c := Config(false, 0.8, 40, Some(rules));
    assert MinFillScaled(c) == 8000 && FillRatio(800_000_000, s) == 8000;
    assert CexOrderFor(s, c) == Order(Buy, 1_000_000_000, LimitIoc(100_100_000));
    assert Orderable(s, c);
  }

  // ----- the record kept of it -----

  datatype TradeLeg = TradeLeg(venue: Venue, side: Side, amount: int, price: int, fee: int)

  datatype ArbRecord = ArbRecord(buyLeg: TradeLeg, sellLeg: TradeLeg, gasCostUsd: int) {
    function GrossPnl(): int { TruncDiv((sellLeg.price - buyLeg.price) * buyLeg.amount, PRICE_SCALE) }
  }

  function OrZero(o: Option<int>): int { if o.Some? then o.value else 0 }

  /** The record of a finished context; which leg bought depends on the direction and on which
      venue was first. */
  function ToArbRecord(ctx: ExecutionContext): ArbRecord
    reads ctx
  {
    var buyCex := ctx.signal.direction.BuyCexSellDex?;
    var buyIsLeg1 := buyCex == ctx.leg1IsCex;
    var buySize := if buyIsLeg1 then ctx.leg1FillSize else ctx.leg2FillSize;
    var buyPrice := if buyIsLeg1 then ctx.leg1FillPrice else ctx.leg2FillPrice;
    var sellSize := if buyIsLeg1 then ctx.leg2FillSize else ctx.leg1FillSize;
    var sellPrice := if buyIsLeg1 then ctx.leg2FillPrice else ctx.leg1FillPrice;
    ArbRecord(TradeLeg(if buyCex then Binance else Wallet, Buy, OrZero(buySize), OrZero(buyPrice), 0),
              TradeLeg(if buyCex then Wallet else Binance, Sell, OrZero(sellSize), OrZero(sellPrice), 0), 0)
  }

  /** The record of a completed execution agrees with the executor's own gross profit and deducts
      nothing from it, and its legs name the venues at which the ledger booked the buy and the sell. */
  lemma RecordAgreesWithPnl(ctx: ExecutionContext, c: Config, r: Replies)
    requires CourseOf(ctx.signal, c, r).Completed? && ctx.leg1IsCex
    requires var Completed(leg1, leg2) := CourseOf(ctx.signal, c, r);
             && ctx.leg1FillPrice == Some(leg1.price) && ctx.leg1FillSize == Some(leg1.filled)
             && ctx.leg2FillPrice == Some(leg2.price) && ctx.leg2FillSize == Some(leg2.filled)
    ensures var Completed(leg1, leg2) := CourseOf(ctx.signal, c, r);
            var record := ToArbRecord(ctx);
            && record.GrossPnl() == GrossPnl(ctx.signal, leg1.price, leg2.price, leg1.filled)
            && record.buyLeg.fee == record.sellLeg.fee == record.gasCostUsd == 0
            && (record.buyLeg.venue == Binance <==> CexTrade(ctx.signal, c, leg1.filled, leg1.price).side == Buy)
            && record.buyLeg.amount == record.sellLeg.amount == leg1.filled
            && record.buyLeg.side == Buy && record.sellLeg.side == Sell && record.buyLeg.venue != record.sellLeg.venue
            && (if ctx.signal.direction.BuyCexSellDex?
                then record.buyLeg.price == leg1.price && record.sellLeg.price == leg2.price
                else record.buyLeg.price == leg2.price && record.sellLeg.price == leg1.price)
  {
    LegsFillAlike(ctx.signal, c, r);
  }
}
