/** From the signal to the books: what an execution of a generated signal earns, and the least it
    can earn, so that the loss limits rest on prices instead of on an assumed loss. */
module ProfitBounds {
  import opened JsMath
  import opened Core
  import opened ArbBot
  import Executor
  import Risk
  import SignalGenerator

  // ----- a signal filled at its own prices -----

  /** Filled whole and at its own prices, a signal books exactly the profit it announced. */
  lemma PerfectFillsBookExpected(pl: SignalGenerator.PriceLevels, th: SignalGenerator.Thresholds,
                                 fees: SignalGenerator.Fees, stamp: SignalGenerator.Stamp)
    requires SignalGenerator.SignalFor(pl, th, fees, stamp).Some? && pl.size > 0
    ensures var s := SignalGenerator.SignalFor(pl, th, fees, stamp).value;
            Executor.CalculatePnl(s, s.cexPrice, s.dexPrice, s.size) == s.expectedNetPnl
  {
    var s := SignalGenerator.SignalFor(pl, th, fees, stamp).value;
    WholeFee(s.expectedFees, s.size);
    assert (s.dexPrice - s.cexPrice) * s.size == s.size * (s.dexPrice - s.cexPrice);
    assert (s.cexPrice - s.dexPrice) * s.size == s.size * (s.cexPrice - s.dexPrice);
  }

  lemma WholeFee(fee: int, size: int)
    requires size > 0
    ensures TruncDiv(size * BPS, size) == BPS && TruncDiv(fee * BPS, BPS) == fee
  {
    assert size * BPS == BPS * size;
    FloorAtLeast(size * BPS, size, BPS);
    FloorAtLeast(size * BPS, size, BPS + 1);
    assert (BPS + 1) * size == BPS * size + size;
  }

  // ----- prices that bound the fills -----

  /** The fills are no worse than two prices: the CEX leg than `cexWorst`, the DEX leg than
      `dexWorst`. A buy is worse when it is dearer, a sale when it is cheaper. */
  predicate NoWorse(d: Direction, cex: int, dex: int, cexWorst: int, dexWorst: int) {
    if d.BuyCexSellDex? then cex <= cexWorst && dex >= dexWorst else cex >= cexWorst && dex <= dexWorst
  }

  /** What a unit earns, before fees, at two prices. */
  function Margin(d: Direction, cex: int, dex: int): int {
    if d.BuyCexSellDex? then dex - cex else cex - dex
  }

  lemma TruncDivMonotone(m: int, n: int, d: int)
    requires d > 0 && m <= n
    ensures TruncDiv(m, d) <= TruncDiv(n, d)
  {
    if m >= 0 {
      MulMono(m, n, d);
      FloorMono(m, d, n, d);
    } else if n < 0 {
      MulMono(-n, -m, d);
      FloorMono(-n, d, -m, d);
    } else {
      TruncDivBounds(m, d);
      TruncDivBounds(n, d);
    }
  }

  /** Better prices never book less, fill for fill. */
  lemma BetterPricesBookMore(s: Signal, cex: int, dex: int, cexWorst: int, dexWorst: int, size: int)
    requires size >= 0 && NoWorse(s.direction, cex, dex, cexWorst, dexWorst)
    ensures Executor.CalculatePnl(s, cex, dex, size) >= Executor.CalculatePnl(s, cexWorst, dexWorst, size)
  {
    var d := s.direction;
    MulMono(Margin(d, cexWorst, dexWorst), Margin(d, cex, dex), size);
    TruncDivMonotone(Margin(d, cexWorst, dexWorst) * size, Margin(d, cex, dex) * size, PRICE_SCALE);
  }

  /** So fills of the whole size, no worse than the signal's prices, book at least the announced
      profit. */
  lemma GoodFillsBookExpected(pl: SignalGenerator.PriceLevels, th: SignalGenerator.Thresholds,
                              fees: SignalGenerator.Fees, stamp: SignalGenerator.Stamp, cex: int, dex: int)
    requires SignalGenerator.SignalFor(pl, th, fees, stamp).Some? && pl.size > 0
    requires var s := SignalGenerator.SignalFor(pl, th, fees, stamp).value;
             NoWorse(s.direction, cex, dex, s.cexPrice, s.dexPrice)
    ensures var s := SignalGenerator.SignalFor(pl, th, fees, stamp).value;
            Executor.CalculatePnl(s, cex, dex, s.size) >= s.expectedNetPnl >= th.minProfit
  {
    var s := SignalGenerator.SignalFor(pl, th, fees, stamp).value;
    BetterPricesBookMore(s, cex, dex, s.cexPrice, s.dexPrice, s.size);
    PerfectFillsBookExpected(pl, th, fees, stamp);
  }

  // ----- the least an execution can book -----

  /** The most an execution of the signal can lose at these worst prices, whatever part of it is
      filled: the loss on the whole size, if the prices make one, and all the fees. */
  function WorstLoss(s: Signal, cexWorst: int, dexWorst: int): int {
    s.expectedFees - Min(0, TruncDiv(Margin(s.direction, cexWorst, dexWorst) * s.size, PRICE_SCALE))
  }

  lemma PartFee(fee: int, size: int, filled: int)
    requires fee >= 0 && 0 <= filled <= size && size > 0
    ensures TruncDiv(fee * TruncDiv(filled * BPS, size), BPS) <= fee
  {
    TruncDivMonotone(filled * BPS, size * BPS, size) by { MulMono(filled, size, BPS); }
    WholeFee(fee, size);
    MulMono(TruncDiv(filled * BPS, size), BPS, fee);
    TruncDivMonotone(fee * TruncDiv(filled * BPS, size), fee * BPS, BPS);
  }

  lemma PartMargin(margin: int, size: int, filled: int)
    requires 0 <= filled <= size
    ensures TruncDiv(margin * filled, PRICE_SCALE) >= Min(0, TruncDiv(margin * size, PRICE_SCALE))
  {
    if margin >= 0 {
      MulMono(0, margin, filled);
    } else {
      assert margin * filled == -((-margin) * filled) && margin * size == -((-margin) * size);
      MulMono(filled, size, -margin);
      assert filled * (-margin) == (-margin) * filled && size * (-margin) == (-margin) * size;
      TruncDivMonotone(margin * size, margin * filled, PRICE_SCALE);
    }
  }

  lemma LossIsBounded(s: Signal, cex: int, dex: int, cexWorst: int, dexWorst: int, filled: int)
    requires 0 <= filled <= s.size && s.size > 0 && s.expectedFees >= 0
    requires NoWorse(s.direction, cex, dex, cexWorst, dexWorst)
    ensures Executor.CalculatePnl(s, cex, dex, filled) >= -WorstLoss(s, cexWorst, dexWorst)
  {
    BetterPricesBookMore(s, cex, dex, cexWorst, dexWorst, filled);
    PartFee(s.expectedFees, s.size, filled);
    PartMargin(Margin(s.direction, cexWorst, dexWorst), s.size, filled);
  }

  // ----- over whole runs -----

  /** A floor price for the chain leg of each signal, such as a slippage limit gives. */
  type Floor = Signal -> int

  /** The limit of the order the executor sends, which the exchange never crosses. */
  function LimitPrice(c: Config, s: Signal): int { Executor.CexOrderFor(s, c.exec).kind.price }

  /** The exchange fills within the order and its limit, the chain within the floor. */
  predicate FillsInBounds(c: Config, floor: Floor, b: Booking) {
    b.Executed? ==>
      var s := b.signal;
      && 0 <= b.leg1.filled <= s.size && s.size > 0 && s.expectedFees >= 0
      && NoWorse(s.direction, b.leg1.price, b.leg2.price, LimitPrice(c, s), floor(s))
  }

  /** No signal that was executed could lose more than `maxLoss` at its order's limit and its floor. */
  predicate SignalsWithin(c: Config, floor: Floor, maxLoss: int, b: Booking) {
    b.Executed? ==> WorstLoss(b.signal, LimitPrice(c, b.signal), floor(b.signal)) <= maxLoss
  }

  /** The loss limits hold over every run, with a loss per trade that follows from the limit price
      of the orders and the floor of the swaps. */
  lemma LossLimitsFromPrices(c: Config, floor: Floor, maxLoss: int, s0: State, steps: seq<Step>)
    requires Initial(s0) && s0.risk.current > 0 && LossLimit(c, maxLoss)
    requires forall b :: b in Run(c, s0, steps).booked ==>
               FillsInBounds(c, floor, b) && SignalsWithin(c, floor, maxLoss, b)
    ensures RiskOk(c, maxLoss, Run(c, s0, steps))
  {
    forall b | b in Run(c, s0, steps).booked && b.Executed?
      ensures Profit(b) >= -maxLoss
    {
      var s := b.signal;
      LossIsBounded(s, b.leg1.price, b.leg2.price, LimitPrice(c, s), floor(s), b.leg1.filled);
    }
    LossLimitsHold(c, maxLoss, s0, steps);
  }
}
