/** What the executor decides and books, in terms of the order, the replies and the fills. */
module ExecutorLaws {
  import opened JsMath
  import opened Core
  import opened ExchangeRules
  import opened Inventory
  import opened Executor

  // ----- the order -----

  /** The limit price gives way by a tenth of a percent, rounded down and then to the nearest tick: up
      for a buy, down for a sale. The order buys exactly when the signal buys at the exchange. */
  lemma LimitPriceIsBuffered(s: Signal, c: Config) returns (raw: int)
    requires s.cexPrice >= 0 && (c.rules.Some? ==> c.rules.value.tickSize >= 0)
    ensures var o, given := CexOrderFor(s, c), s.cexPrice * if s.direction.BuyCexSellDex? then 10_010 else 9_990;
            && (o.side == Buy <==> s.direction == BuyCexSellDex)
            && raw * 10_000 <= given < (raw + 1) * 10_000
            && o.kind.LimitIoc?
            && (if c.rules.Some? && c.rules.value.tickSize > 0
                then -c.rules.value.tickSize <= 2 * (o.kind.price - raw) <= c.rules.value.tickSize
                else o.kind.price == raw)
  {
    var given := s.cexPrice * if s.direction.BuyCexSellDex? then 10_010 else 9_990;
    raw := given / 10_000;
    TruncDivBounds(given, 10_000);
    if c.rules.Some? && c.rules.value.tickSize > 0 { RoundPriceIsNearest(raw, c.rules.value.tickSize); }
  }

  /** The first leg is sent exactly when it is not simulated, some lot of the size is left, and what is
      left is worth the minimum. */
  lemma OrderableIff(s: Signal, c: Config)
    requires s.size >= 0 && s.cexPrice >= 0
    requires c.rules.Some? ==> c.rules.value.stepSize >= 0 && c.rules.value.tickSize >= 0
    ensures var o := CexOrderFor(s, c);
            Orderable(s, c) <==>
            && !c.simulation && s.size >= Lot(c)
            && (c.rules.Some? ==> o.size * o.kind.price >= c.rules.value.minNotional * PRICE_SCALE)
  {
    OrderSizeIff(s, c);
    if c.rules.Some? {
      OrderPriceNonNegative(s, c);
      MinNotionalIff(CexOrderFor(s, c).size, CexOrderFor(s, c).kind.price, c.rules.value.minNotional);
    }
  }

  lemma OrderSizeIff(s: Signal, c: Config)
    requires s.size >= 0 && (c.rules.Some? ==> c.rules.value.stepSize >= 0)
    ensures CexOrderFor(s, c).size >= 0 && (CexOrderFor(s, c).size > 0 <==> s.size >= Lot(c))
  {
    if c.rules.Some? && c.rules.value.stepSize > 0 { RoundQuantityIsGreatest(s.size, c.rules.value.stepSize, 1); }
  }

  lemma OrderPriceNonNegative(s: Signal, c: Config)
    requires s.cexPrice >= 0 && (c.rules.Some? ==> c.rules.value.tickSize >= 0)
    ensures CexOrderFor(s, c).kind.price >= 0
  {
    var raw := LimitPriceIsBuffered(s, c);
    if c.rules.Some? && c.rules.value.tickSize > 0 { PriceNonNegative(raw, c.rules.value.tickSize); }
  }

  lemma PriceNonNegative(raw: int, tickSize: int)
    requires raw >= 0 && tickSize > 0
    ensures RoundPrice(raw, tickSize) >= 0
  {
    FloorAtLeast(raw + tickSize / 2, tickSize, 0);
    MulMono(0, (raw + tickSize / 2) / tickSize, tickSize);
  }

  // ----- the course -----

  /** How an execution ends, by the replies: the first leg fails unless the order is sent and fills
      something; a fill short of the threshold ends it; then the swap decides. */
  lemma CourseIs(s: Signal, c: Config, r: Replies)
    requires !c.simulation && s.size > 0
    ensures if !(Orderable(s, c) && r.cex.CexOrder? && r.cex.amountFilled > 0) then CourseOf(s, c, r) == CexLegFailed
            else
              var filled := r.cex.amountFilled;
              var leg1 := LegResult(true, r.cex.avgFillPrice, filled);
              var least := Round(c.minFillRatio * 10000.0);
              if filled * 10_000 < least * s.size then CourseOf(s, c, r) == PartialFill(filled)
              else if !r.dex.DexFilled? then CourseOf(s, c, r) == DexLegFailed(leg1)
              else CourseOf(s, c, r) == Completed(leg1, LegResult(true, r.dex.price, filled))
  {
    if r.cex.CexOrder? && r.cex.amountFilled > 0 {
      FloorAtLeast(r.cex.amountFilled * BPS, s.size, MinFillScaled(c));
    }
  }

  /** A simulated execution that does not time out fills the whole size, a hundredth of a percent above
      the CEX price and two below the DEX price, and sends nothing. */
  lemma SimulationIs(s: Signal, c: Config, r: Replies)
    requires c.simulation && s.size > 0 && s.cexPrice >= 0 && s.dexPrice >= 0
    requires !r.cex.CexTimeout? && !r.dex.DexTimeout? && 0.0 <= c.minFillRatio <= 1.0
    ensures OrdersOf(s, c, r) == [] && CourseOf(s, c, r).Completed?
    ensures var Completed(leg1, leg2) := CourseOf(s, c, r);
            && leg1.filled == leg2.filled == s.size
            && leg1.price * 10_000 <= s.cexPrice * 10_001 < (leg1.price + 1) * 10_000
            && leg2.price * 10_000 <= s.dexPrice * 9_998 < (leg2.price + 1) * 10_000
  {
    FloorAtLeast(s.size * BPS, s.size, MinFillScaled(c));
    RoundIsNearest(c.minFillRatio * 10000.0);
    MulMono(MinFillScaled(c), BPS, s.size);
    TruncDivBounds(s.cexPrice * 10_001, 10_000);
    TruncDivBounds(s.dexPrice * 9_998, 10_000);
  }

  // ----- the books -----

  /** A leg is booked at its size, its value and half of the combined fee on that value, each rounded
      down; the exchange leg on the side of the signal there, the chain leg on the other. */
  lemma LegIsBooked(s: Signal, c: Config, size: int, price: int)
    requires size >= 0 && price >= 0 && c.combinedFeeRateBps >= 0
    ensures var cex, dex := CexTrade(s, c, size, price), DexTrade(s, c, size, price);
            && (cex.side == Buy <==> s.direction == BuyCexSellDex)
            && (dex.side == Sell <==> s.direction == BuyCexSellDex)
            && dex == cex.(side := dex.side)
            && cex.base == s.base && cex.quote == cex.feeAsset == s.quote && cex.baseAmount == size
            && cex.quoteAmount * PRICE_SCALE <= size * price < (cex.quoteAmount + 1) * PRICE_SCALE
            && cex.fee * 10_000 <= cex.quoteAmount * (c.combinedFeeRateBps / 2) < (cex.fee + 1) * 10_000
  {
    MulMono(0, price, size);
    TruncDivBounds(size * price, PRICE_SCALE);
    var n, half := Notional(size, price), c.combinedFeeRateBps / 2;
    MulMono(0, n, half);
    assert half * n == n * half;
    TruncDivBounds(n * half, BPS);
  }

  /** The profit of an execution is the difference of its prices on the filled size, less the share of
      the expected fees that the filled part of the signal bears, each rounded toward zero. */
  lemma PnlIs(s: Signal, leg1Price: int, leg2Price: int, filled: int) returns (gross: int, share: int, fee: int)
    requires s.size > 0 && filled >= 0 && s.expectedFees >= 0
    ensures CalculatePnl(s, leg1Price, leg2Price, filled) == gross - fee
    ensures var margin := if s.direction.BuyCexSellDex? then leg2Price - leg1Price else leg1Price - leg2Price;
            if margin * filled >= 0 then gross * PRICE_SCALE <= margin * filled < (gross + 1) * PRICE_SCALE
            else (gross - 1) * PRICE_SCALE < margin * filled <= gross * PRICE_SCALE
    ensures share * s.size <= filled * 10_000 < (share + 1) * s.size
    ensures fee * 10_000 <= s.expectedFees * share < (fee + 1) * 10_000
  {
    gross := GrossPnl(s, leg1Price, leg2Price, filled);
    share := TruncDiv(filled * BPS, s.size);
    fee := TruncDiv(s.expectedFees * share, BPS);
    var margin := if s.direction.BuyCexSellDex? then leg2Price - leg1Price else leg1Price - leg2Price;
    TruncDivBounds(margin * filled, PRICE_SCALE);
    TruncDivBounds(filled * BPS, s.size);
    MulMono(0, share, s.expectedFees);
    assert share * s.expectedFees == s.expectedFees * share;
    TruncDivBounds(s.expectedFees * share, BPS);
  }
}
