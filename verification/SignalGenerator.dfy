/** Price formation: the book and the pool, both at trade size, and the direction they suggest. */
module SignalGenerator {
  import opened JsMath
  import opened Core
  import opened UniswapV2Pair
  import opened RouteGraph
  import opened OrderBook
  import Calc = UniswapV2Calculator
  import SwapLaws
  import PricingEngine

  datatype PriceLevels = PriceLevels(cexBid: int, cexAsk: int, dexBuyPrice: int, dexSellPrice: int, size: int)

  // ----- candidate sizes -----

  function CandidateSizes(min: int, max: int, tradeSizeSteps: int): (sizes: seq<int>) {
    if min == max then [min]
    else
      var steps := Max(2, tradeSizeSteps);
      seq(steps, i requires 0 <= i < steps => min + TruncDiv((max - min) * i, steps - 1))
  }

  lemma PartsMonotone(range: int, n: int, i: int, j: int)
    requires range >= 0 && n > 0 && 0 <= i <= j <= n
    ensures 0 <= range * i / n <= range * j / n <= range
  {
    MulMono(0, i, range);
    MulMono(i, j, range);
    MulMono(j, n, range);
    FloorAtLeast(range * i, n, 0);
    FloorAtLeast(range * i, n, range * i / n);
    FloorAtLeast(range * j, n, range * i / n);
    FloorAtLeast(range * j, n, range * j / n);
    MulCancel(range * j / n, range, n);
  }

  /** The sweep starts at the minimum, ends at the maximum and never turns back, even when they
      are configured the wrong way round. */
  lemma CandidatesSpanRange(min: int, max: int, tradeSizeSteps: int)
    ensures var s := CandidateSizes(min, max, tradeSizeSteps);
            && |s| >= 1 && s[0] == min && s[|s| - 1] == max
            && (min <= max ==> forall i, j :: 0 <= i <= j < |s| ==> min <= s[i] <= s[j] <= max)
            && (max <= min ==> forall i, j :: 0 <= i <= j < |s| ==> max <= s[j] <= s[i] <= min)
  {
    if min != max {
      var s := CandidateSizes(min, max, tradeSizeSteps);
      var n, range := |s| - 1, if min < max then max - min else min - max;
      forall i | 0 <= i < |s|
        ensures s[i] == if min < max then min + range * i / n else min - range * i / n
      {
        StepOfRange(max - min, n, i);
      }
      forall i, j | 0 <= i <= j < |s|
        ensures 0 <= range * i / n <= range * j / n <= range
      {
        PartsMonotone(range, n, i, j);
      }
      WholeRange(range, n);
    }
  }

  /** The sizes divide the range evenly, each to within a unit: at least two of them, and as many as
      configured. */
  lemma CandidatesAreEven(min: int, max: int, tradeSizeSteps: int, i: nat)
    requires min != max && i < |CandidateSizes(min, max, tradeSizeSteps)|
    ensures var s := CandidateSizes(min, max, tradeSizeSteps);
            var parts := |s| - 1;
            && |s| == (if tradeSizeSteps < 2 then 2 else tradeSizeSteps)
            && -parts < (s[i] - min) * parts - (max - min) * i < parts
  {
    var parts := |CandidateSizes(min, max, tradeSizeSteps)| - 1;
    TruncDivBounds((max - min) * i, parts);
  }

  lemma OnlyCandidate(min: int, tradeSizeSteps: int)
    ensures CandidateSizes(min, min, tradeSizeSteps) == [min]
  {
  }

  lemma StepOfRange(range: int, n: int, i: int)
    requires n > 0 && i >= 0
    ensures TruncDiv(range * i, n) == if range >= 0 then range * i / n else -((-range) * i / n)
  {
    if range >= 0 {
      MulMono(0, range, i);
    } else {
      assert range * i == -((-range) * i);
      MulMono(0, -range, i);
    }
  }

  lemma WholeRange(range: int, n: int)
    requires n > 0
    ensures range * n / n == range && range * 0 / n == 0
  {
    FloorAtLeast(range * n, n, range);
    FloorAtLeast(range * n, n, range + 1);
  }

  // ----- prices at one size -----

  /** Scaled units to native token units and back. */
  function ToNative(scaled: int, decimals: nat): int { TruncDiv(scaled * Pow10(decimals), PRICE_SCALE) }

  function ToScaled(native: int, decimals: nat): int { TruncDiv(native * PRICE_SCALE, Pow10(decimals)) }

  function QuoteNeeded(size: int, cexBid: int): int { TruncDiv(size * cexBid, PRICE_SCALE) }

  function SellPrice(size: int, quoteReceivedScaled: int): int {
    if size > 0 then TruncDiv(quoteReceivedScaled * PRICE_SCALE, size) else 0
  }

  function BuyPrice(quoteAmountScaled: int, baseReceivedScaled: int): int {
    if baseReceivedScaled > 0 then TruncDiv(quoteAmountScaled * PRICE_SCALE, baseReceivedScaled) else 0
  }

  /** None when the book cannot fill the size; an error when the pool cannot be quoted. */
  function ComputePricesAt(ob: Book, sizeUsd: int, topAsk: int,
                           base: Token, quote: Token, g: Graph): Result<Option<PriceLevels>> {
    var size :- JsDiv(sizeUsd * PRICE_SCALE, topAsk);
    var sizeNum := size as real / PRICE_SCALE as real;
    var bidWalk := Walk(ob, Sell, Scaled(sizeNum));
    var askWalk := Walk(ob, Buy, Scaled(sizeNum));
    if !bidWalk.fullyFilled || !askWalk.fullyFilled then Ok(None)
    else
      var quoteReceived := PricingEngine.AmmQuote(g, base, quote, ToNative(size, base.decimals));
      var quoteAmountScaled := QuoteNeeded(size, bidWalk.avgPrice);
      var baseReceived := PricingEngine.AmmQuote(g, quote, base, ToNative(quoteAmountScaled, quote.decimals));
      if quoteReceived.None? || baseReceived.None? then Err(NoRouteFound)
      else
        Ok(Some(PriceLevels(
          bidWalk.avgPrice,
          askWalk.avgPrice,
          BuyPrice(quoteAmountScaled, ToScaled(baseReceived.value, base.decimals)),
          SellPrice(size, ToScaled(quoteReceived.value, quote.decimals)),
          size)))
  }

  /** The conversions lose less than one unit of what they convert to. */
  lemma ConversionsAreFloors(amount: int, decimals: nat)
    requires amount >= 0
    ensures ToNative(amount, decimals) * PRICE_SCALE <= amount * Pow10(decimals)
            < (ToNative(amount, decimals) + 1) * PRICE_SCALE
    ensures ToScaled(amount, decimals) * Pow10(decimals) <= amount * PRICE_SCALE
            < (ToScaled(amount, decimals) + 1) * Pow10(decimals)
  {
    MulMono(0, amount, Pow10(decimals));
    TruncDivBounds(amount * Pow10(decimals), PRICE_SCALE);
    TruncDivBounds(amount * PRICE_SCALE, Pow10(decimals));
  }

  /** How a price level comes about on one pool. The size is the dollars at the top ask. The CEX
      prices are the averages of selling and of buying that size, which the book can fill. Selling the
      size into the pool gives `sold`, buying with what the CEX pays for the size gives `bought`; the
      DEX prices are what a unit then fetched and what it cost. All rounded down. */
  lemma PriceLevelsMean(ob: Book, sizeUsd: int, topAsk: int, base: Token, quote: Token, p: Pair, pl: PriceLevels)
    returns (sold: int, bought: int)
    requires sizeUsd >= 0 && topAsk > 0 && NonNegative(ob.bids) && NonNegative(ob.asks)
    requires p.Live() && TradesPair(p, base, quote)
    requires ComputePricesAt(ob, sizeUsd, topAsk, base, quote, GraphOf([p])) == Ok(Some(pl))
    ensures pl.size >= 0 && pl.size * topAsk <= sizeUsd * PRICE_SCALE < (pl.size + 1) * topAsk
    ensures pl.cexBid == Walk(ob, Sell, pl.size).avgPrice && pl.cexAsk == Walk(ob, Buy, pl.size).avgPrice
    ensures pl.size <= Depth(ob.bids) && pl.size <= Depth(ob.asks)
    ensures p.GetAmountOut(ToNative(pl.size, base.decimals), base) == Ok(sold)
    ensures pl.dexSellPrice * pl.size <= ToScaled(sold, quote.decimals) * PRICE_SCALE
            < (pl.dexSellPrice + 1) * pl.size
    ensures var pays := QuoteNeeded(pl.size, pl.cexBid);
            && pays * PRICE_SCALE <= pl.size * pl.cexBid < (pays + 1) * PRICE_SCALE
            && p.GetAmountOut(ToNative(pays, quote.decimals), quote) == Ok(bought)
            && var received := ToScaled(bought, base.decimals);
               if received > 0
               then pl.dexBuyPrice * received <= pays * PRICE_SCALE < (pl.dexBuyPrice + 1) * received
               else pl.dexBuyPrice == 0
  {
    SizeMeans(ob, sizeUsd, topAsk, base, quote, GraphOf([p]), pl);
    AverageNonNegative(ob, pl.size);
    sold := SellSideMeans(p, base, quote, pl.size);
    bought := BuySideMeans(p, base, quote, pl.size, pl.cexBid);
  }

  lemma SizeMeans(ob: Book, sizeUsd: int, topAsk: int, base: Token, quote: Token, g: Graph, pl: PriceLevels)
    requires sizeUsd >= 0 && topAsk > 0 && NonNegative(ob.bids) && NonNegative(ob.asks)
    requires ComputePricesAt(ob, sizeUsd, topAsk, base, quote, g) == Ok(Some(pl))
    ensures pl.size >= 0 && pl.size * topAsk <= sizeUsd * PRICE_SCALE < (pl.size + 1) * topAsk
    ensures pl.cexBid == Walk(ob, Sell, pl.size).avgPrice && pl.cexAsk == Walk(ob, Buy, pl.size).avgPrice
    ensures pl.size <= Depth(ob.bids) && pl.size <= Depth(ob.asks)
  {
    DetourIsExact(pl.size);
    TruncDivBounds(sizeUsd * PRICE_SCALE, topAsk);
    FullyFilledIff(ob, Sell, pl.size);
    FullyFilledIff(ob, Buy, pl.size);
  }

  lemma SellSideMeans(p: Pair, base: Token, quote: Token, size: int) returns (sold: int)
    requires p.Live() && TradesPair(p, base, quote)
    requires PricingEngine.AmmQuote(GraphOf([p]), base, quote, ToNative(size, base.decimals)).Some?
    ensures p.GetAmountOut(ToNative(size, base.decimals), base) == Ok(sold)
    ensures PricingEngine.AmmQuote(GraphOf([p]), base, quote, ToNative(size, base.decimals)) == Some(sold)
    ensures var price := SellPrice(size, ToScaled(sold, quote.decimals));
            price * size <= ToScaled(sold, quote.decimals) * PRICE_SCALE < (price + 1) * size
  {
    PricingEngine.SinglePoolQuote(p, base, quote, ToNative(size, base.decimals));
    QuoteDefined(p, ToNative(size, base.decimals), base);
    sold := p.GetAmountOut(ToNative(size, base.decimals), base).value;
    NativePositive(size, base.decimals);
    ScaledFloor(sold, quote.decimals);
    TruncDivBounds(ToScaled(sold, quote.decimals) * PRICE_SCALE, size);
  }

  lemma BuySideMeans(p: Pair, base: Token, quote: Token, size: int, cexBid: int) returns (bought: int)
    requires p.Live() && TradesPair(p, base, quote) && size >= 0 && cexBid >= 0
    requires var x := ToNative(QuoteNeeded(size, cexBid), quote.decimals);
             PricingEngine.AmmQuote(GraphOf([p]), quote, base, x).Some?
    ensures var pays := QuoteNeeded(size, cexBid);
            var received, price := ToScaled(bought, base.decimals), BuyPrice(pays, ToScaled(bought, base.decimals));
            && pays * PRICE_SCALE <= size * cexBid < (pays + 1) * PRICE_SCALE
            && p.GetAmountOut(ToNative(pays, quote.decimals), quote) == Ok(bought)
            && PricingEngine.AmmQuote(GraphOf([p]), quote, base, ToNative(pays, quote.decimals)) == Some(bought)
            && if received > 0 then price * received <= pays * PRICE_SCALE < (price + 1) * received else price == 0
  {
    var pays := QuoteNeeded(size, cexBid);
    PricingEngine.SinglePoolQuote(p, quote, base, ToNative(pays, quote.decimals));
    QuoteDefined(p, ToNative(pays, quote.decimals), quote);
    bought := p.GetAmountOut(ToNative(pays, quote.decimals), quote).value;
    MulMono(0, cexBid, size);
    TruncDivBounds(size * cexBid, PRICE_SCALE);
    if ToScaled(bought, base.decimals) > 0 {
      TruncDivBounds(pays * PRICE_SCALE, ToScaled(bought, base.decimals));
    }
  }

  lemma AverageNonNegative(ob: Book, size: int)
    requires NonNegative(ob.bids)
    ensures Walk(ob, Sell, size).avgPrice >= 0
  {
    CostNonNegative(ob.bids, size);
    if Quantity(Walk(ob, Sell, size).fills) > 0 {
      TruncDivBounds(Walk(ob, Sell, size).totalCost * PRICE_SCALE, Quantity(Walk(ob, Sell, size).fills));
    }
  }

  /** There is no price level exactly when one side of the book is too thin for the size. */
  lemma NoLevelIff(ob: Book, sizeUsd: int, topAsk: int, base: Token, quote: Token, g: Graph)
    requires sizeUsd >= 0 && topAsk > 0 && NonNegative(ob.bids) && NonNegative(ob.asks)
    ensures ComputePricesAt(ob, sizeUsd, topAsk, base, quote, g) == Ok(None) <==>
            var size := sizeUsd * PRICE_SCALE / topAsk; size > Depth(ob.bids) || size > Depth(ob.asks)
  {
    var size := sizeUsd * PRICE_SCALE / topAsk;
    DetourIsExact(size);
    FullyFilledIff(ob, Sell, size);
    FullyFilledIff(ob, Buy, size);
  }

  // ----- the size on its way through a float -----

  lemma DetourIsExact(size: int)
    ensures Scaled(size as real / PRICE_SCALE as real) == size
  {
    assert size as real / PRICE_SCALE as real * PRICE_SCALE as real == size as real;
  }

  /** The unit roundoff of a double. */
  const ROUNDOFF: real := 1.0 / 9_007_199_254_740_992.0

  /** `y` is `x` after one rounding to a double. */
  predicate Rounded(x: real, y: real) { -ROUNDOFF * x <= y - x <= ROUNDOFF * x }

  /** The detour is exact in floating point too: whatever way the quotient and the product are
      rounded to doubles, rounding to an integer gives back every size up to 2^50. */
  lemma FloatDetourIsExact(size: nat, quotient: real, product: real)
    requires size <= 1_125_899_906_842_624
    requires Rounded(size as real / PRICE_SCALE as real, quotient)
    requires Rounded(quotient * PRICE_SCALE as real, product)
    ensures Round(product) == size
  {
    var n, s := size as real, PRICE_SCALE as real;
    var exact, scaled := n / s, quotient * s;
    assert exact * s == n;
    assert -ROUNDOFF * n <= scaled - n <= ROUNDOFF * n by {
      ScaleBounds(-ROUNDOFF * exact, quotient - exact, ROUNDOFF * exact, s);
      assert -ROUNDOFF * exact * s == -ROUNDOFF * n && (quotient - exact) * s == scaled - n;
    }
    assert -0.49 <= product - n <= 0.49;
  }

  lemma ScaleBounds(a: real, b: real, c: real, s: real)
    requires a <= b <= c && s > 0.0
    ensures a * s <= b * s <= c * s
  {
  }

  // ----- the two sides of one pool -----

  /** The five roundings on the sell side keep the price at or below the pool's spot price. */
  lemma SellChain(s: int, x: int, out: int, scaled: int, price: int, a: int, b: int, bd: int, qd: int)
    requires s > 0 && a > 0 && b > 0 && bd > 0 && qd > 0
    requires x * PRICE_SCALE <= s * bd && a * out <= x * b
    requires scaled * qd <= out * PRICE_SCALE && price * s <= scaled * PRICE_SCALE
    ensures price * (a * qd) <= PRICE_SCALE * (b * bd)
  {
    var d := PRICE_SCALE;
    calc {
      (price * (a * qd)) * s;
      == { Shuffle(price, a, qd, s); }
      (price * s) * (a * qd);
      <= { MulMono(price * s, scaled * d, a * qd); }
      (scaled * d) * (a * qd);
      == { Shuffle2(scaled, d, a, qd); }
      (scaled * qd) * (a * d);
      <= { MulMono(scaled * qd, out * d, a * d); }
      (out * d) * (a * d);
      == { Shuffle2(out, d, d, a); assert a * d == d * a; }
      (out * a) * (d * d);
      <= { assert out * a == a * out; MulMono(out * a, x * b, d * d); }
      (x * b) * (d * d);
      == { Shuffle2(x, b, d, d); }
      (x * d) * (d * b);
      <= { MulMono(x * d, s * bd, d * b); }
      (s * bd) * (d * b);
      == { Shuffle3(s, bd, d, b); }
      (d * (b * bd)) * s;
    }
    MulCancel(price * (a * qd), d * (b * bd), s);
  }

  lemma Shuffle(p: int, a: int, q: int, s: int)
    ensures (p * (a * q)) * s == (p * s) * (a * q)
  {
    MulRot(p, a * q, s);
  }

  lemma Shuffle2(p: int, d: int, a: int, q: int)
    ensures (p * d) * (a * q) == (p * q) * (a * d)
  {
    assert (p * d) * (a * q) == p * (d * (a * q)) by { MulRot(p, d, a * q); }
    assert d * (a * q) == q * (a * d) by { MulRot(d, a, q); MulRot(q, a, d); assert d * a * q == q * a * d; }
    assert (p * q) * (a * d) == p * (q * (a * d)) by { MulRot(p, q, a * d); }
  }

  lemma Shuffle3(s: int, t: int, d: int, b: int)
    ensures (s * t) * (d * b) == (d * (b * t)) * s
  {
    Shuffle2(s, t, d, b);
    assert (s * b) * (d * t) == s * (b * (d * t)) by { MulRot(s, b, d * t); }
    assert b * (d * t) == d * (b * t) by { MulRot(b, d, t); MulRot(d, b, t); }
  }

  /** The roundings on the buy side keep the price at or above any bound the spot price meets. */
  lemma BuyChain(k: int, q: int, x: int, out: int, scaled: int, a: int, b: int, bd: int, qd: int)
    requires k >= 0 && scaled > 0 && a > 0 && b > 0 && bd > 0 && qd > 0
    requires k * (a * qd) <= PRICE_SCALE * (b * bd)
    requires x * PRICE_SCALE <= q * qd && b * out <= x * a && scaled * bd <= out * PRICE_SCALE
    ensures k * scaled <= q * PRICE_SCALE
  {
    var d := PRICE_SCALE;
    calc {
      (k * scaled) * (a * qd);
      == { MulRot(k, scaled, a * qd); }
      (k * (a * qd)) * scaled;
      <= { MulMono(k * (a * qd), d * (b * bd), scaled); }
      (d * (b * bd)) * scaled;
      == { Shuffle3(scaled, bd, d, b); }
      (scaled * bd) * (d * b);
      <= { MulMono(scaled * bd, out * d, d * b); }
      (out * d) * (d * b);
      == { Shuffle2(out, d, d, b); }
      (out * b) * (d * d);
      <= { assert out * b == b * out; MulMono(out * b, x * a, d * d); }
      (x * a) * (d * d);
      == { Shuffle2(x, a, d, d); }
      (x * d) * (d * a);
      <= { MulMono(x * d, q * qd, d * a); }
      (q * qd) * (d * a);
      == { assert d * a == a * d; Shuffle2(q, qd, a, d); }
      (q * d) * (a * qd);
    }
    MulCancel(k * scaled, q * d, a * qd);
  }

  /** The tokens of a pool, given as base and quote. */
  predicate TradesPair(p: Pair, base: Token, quote: Token) {
    p.Trades(base) && p.Trades(quote) && base.address != quote.address && p.token0.address != p.token1.address
  }

  /** With one pool loaded, the price received for selling on it never exceeds the price paid
      for buying on it, through every conversion and rounding, for any token decimals and any
      fee. The single exception is visible in the result: a buy too small to receive anything
      is priced at 0. */
  lemma PoolSpreadNonNegative(ob: Book, sizeUsd: int, topAsk: int, base: Token, quote: Token, p: Pair, pl: PriceLevels)
    requires p.Live() && TradesPair(p, base, quote)
    requires ComputePricesAt(ob, sizeUsd, topAsk, base, quote, GraphOf([p])) == Ok(Some(pl))
    ensures pl.dexSellPrice <= pl.dexBuyPrice <==> BoughtSomething(p, base, quote, pl) || pl.dexSellPrice == 0
  {
    var size, qas := pl.size, QuoteNeeded(pl.size, pl.cexBid);
    var x, x' := ToNative(size, base.decimals), ToNative(qas, quote.decimals);
    PricingEngine.SinglePoolQuote(p, base, quote, x);
    PricingEngine.SinglePoolQuote(p, quote, base, x');
    QuoteDefined(p, x, base);
    QuoteDefined(p, x', quote);
    var out, out' := p.GetAmountOut(x, base).value, p.GetAmountOut(x', quote).value;
    var rs, rs' := ToScaled(out, quote.decimals), ToScaled(out', base.decimals);
    NativePositive(size, base.decimals);
    NativePositive(qas, quote.decimals);
    ScaledFloor(out, quote.decimals);
    ScaledFloor(out', base.decimals);
    var a, b, bd, qd := p.ReserveIn(base), p.ReserveOut(base), Pow10(base.decimals), Pow10(quote.decimals);
    SwapLaws.OutputAtMostSpot(x, a, b, p.feeBps);
    SwapLaws.OutputAtMostSpot(x', b, a, p.feeBps);
    var sell := pl.dexSellPrice;
    assert 0 <= sell && sell * size <= rs * PRICE_SCALE by { TruncDivBounds(rs * PRICE_SCALE, size); }
    SellChain(size, x, out, rs, sell, a, b, bd, qd);
    if rs' > 0 {
      BuyChain(sell, qas, x', out', rs', a, b, bd, qd);
      FloorAtLeast(qas * PRICE_SCALE, rs', sell);
    }
  }

  /** The buy side received at least one scaled unit of the base token. */
  predicate BoughtSomething(p: Pair, base: Token, quote: Token, pl: PriceLevels) {
    var r := p.GetAmountOut(ToNative(QuoteNeeded(pl.size, pl.cexBid), quote.decimals), quote);
    r.Ok? && ToScaled(r.value, base.decimals) > 0
  }

  lemma NativePositive(scaled: int, decimals: nat)
    requires ToNative(scaled, decimals) > 0
    ensures scaled > 0 && ToNative(scaled, decimals) * PRICE_SCALE <= scaled * Pow10(decimals)
  {
    if scaled <= 0 { MulMono(scaled, 0, Pow10(decimals)); }
    TruncDivBounds(scaled * Pow10(decimals), PRICE_SCALE);
  }

  lemma ScaledFloor(native: int, decimals: nat)
    requires native >= 0
    ensures ToScaled(native, decimals) >= 0 && ToScaled(native, decimals) * Pow10(decimals) <= native * PRICE_SCALE
  {
    TruncDivBounds(native * PRICE_SCALE, Pow10(decimals));
  }

  // ----- the direction -----

  /** The spread from `from` to `to`, in basis points of `from`; the program computes it in floats. */
  function SpreadBps(to: int, from: int): real {
    if from > 0 then (to - from) as real * 10000.0 / from as real else 0.0
  }

  function BuyCexBps(pl: PriceLevels): real { SpreadBps(pl.dexSellPrice, pl.cexAsk) }

  function BuyDexBps(pl: PriceLevels): real { SpreadBps(pl.cexBid, pl.dexBuyPrice) }

  function ChooseDirection(pl: PriceLevels, minSpreadBps: real): Option<Direction> {
    if BuyCexBps(pl) > BuyDexBps(pl) && BuyCexBps(pl) >= minSpreadBps then Some(BuyCexSellDex)
    else if BuyDexBps(pl) >= minSpreadBps then Some(BuyDexSellCex)
    else None
  }

  /** A direction is chosen exactly when the wider spread meets the minimum, and it is the wider
      one; a tie goes to the pool side. */
  lemma ChoosesWiderSpread(pl: PriceLevels, minSpreadBps: real)
    ensures ChooseDirection(pl, minSpreadBps).Some? <==> BuyCexBps(pl) >= minSpreadBps || BuyDexBps(pl) >= minSpreadBps
    ensures ChooseDirection(pl, minSpreadBps) == Some(BuyCexSellDex) ==> BuyCexBps(pl) > BuyDexBps(pl)
    ensures ChooseDirection(pl, minSpreadBps) == Some(BuyDexSellCex) ==> BuyDexBps(pl) >= BuyCexBps(pl)
  {
  }

  /** A spread is the gain of selling at `to` what was bought at `from`, in ten-thousandths of `from`;
      there is none against a price that is not positive. */
  lemma SpreadIsGain(to: int, from: int)
    ensures if from > 0 then SpreadBps(to, from) * from as real == (to - from) as real * 10_000.0
            else SpreadBps(to, from) == 0.0
  {
  }

  lemma SpreadSign(to: int, from: int)
    requires from > 0
    ensures SpreadBps(to, from) > 0.0 <==> to > from
  {
    var diff := (to - from) as real;
    assert SpreadBps(to, from) * from as real == diff * 10000.0;
  }

  /** A positive buy price means that something was bought for it. */
  lemma PricedMeansBought(ob: Book, sizeUsd: int, topAsk: int, base: Token, quote: Token, p: Pair, pl: PriceLevels)
    requires p.Live() && TradesPair(p, base, quote)
    requires ComputePricesAt(ob, sizeUsd, topAsk, base, quote, GraphOf([p])) == Ok(Some(pl))
    requires pl.dexBuyPrice != 0
    ensures BoughtSomething(p, base, quote, pl)
  {
    PricingEngine.SinglePoolQuote(p, quote, base, ToNative(QuoteNeeded(pl.size, pl.cexBid), quote.decimals));
  }

  /** At most one direction can pay: with one pool loaded and a CEX bid at or below the ask, a
      positive spread one way excludes one the other way. As prices go, this needs the buy to
      have bought something; as spreads go it does not, a price of 0 having no spread. */
  lemma OnlyOneDirectionPays(ob: Book, sizeUsd: int, topAsk: int, base: Token, quote: Token, p: Pair, pl: PriceLevels)
    requires p.Live() && TradesPair(p, base, quote)
    requires ComputePricesAt(ob, sizeUsd, topAsk, base, quote, GraphOf([p])) == Ok(Some(pl))
    requires pl.cexBid <= pl.cexAsk
    ensures pl.dexBuyPrice != 0 ==> !(pl.dexSellPrice > pl.cexAsk && pl.cexBid > pl.dexBuyPrice)
    ensures !(BuyCexBps(pl) > 0.0 && BuyDexBps(pl) > 0.0)
  {
    if pl.dexBuyPrice != 0 {
      PricedMeansBought(ob, sizeUsd, topAsk, base, quote, p, pl);
      PoolSpreadNonNegative(ob, sizeUsd, topAsk, base, quote, p, pl);
    }
    if pl.cexAsk > 0 { SpreadSign(pl.dexSellPrice, pl.cexAsk); }
    if pl.dexBuyPrice > 0 { SpreadSign(pl.cexBid, pl.dexBuyPrice); }
  }

  /** So on a book that leaves room for the rounding of its averages, with one pool loaded, no
      two directions pay at once. */
  lemma UncrossedBookPaysOneWay(ob: Book, sizeUsd: int, topAsk: int,
                                base: Token, quote: Token, p: Pair, pl: PriceLevels)
    requires p.Live() && TradesPair(p, base, quote)
    requires ComputePricesAt(ob, sizeUsd, topAsk, base, quote, GraphOf([p])) == Ok(Some(pl))
    requires Sorted(ob) && RoomForRounding(ob, pl.size)
    ensures !(BuyCexBps(pl) > 0.0 && BuyDexBps(pl) > 0.0)
  {
    DetourIsExact(pl.size);
    AveragesDoNotCross(ob, pl.size);
    OnlyOneDirectionPays(ob, sizeUsd, topAsk, base, quote, p, pl);
  }

  // ----- the signal -----

  datatype Fees = Fees(rateBps: int, gasCost: int)

  function TotalFee(tradeValue: int, fees: Fees): int { TruncDiv(tradeValue * fees.rateBps, BPS) + fees.gasCost }

  datatype Thresholds = Thresholds(minSpreadBps: real, minProfit: int, maxPosition: int)

  /** What a signal carries besides its prices: the pair, an id, an expiry, the inventory check. */
  datatype Stamp = Stamp(signalId: string, base: string, quote: string, expiry: int, inventoryOk: bool)

  /** The signal made of the prices, or None; the gas cost in `fees` is the live one. */
  function SignalFor(pl: PriceLevels, th: Thresholds, fees: Fees, stamp: Stamp): Option<Signal> {
    match ChooseDirection(pl, th.minSpreadBps)
    case None => None
    case Some(direction) =>
      var buyCex := direction.BuyCexSellDex?;
      var cexPrice := if buyCex then pl.cexAsk else pl.cexBid;
      var dexPrice := if buyCex then pl.dexSellPrice else pl.dexBuyPrice;
      var tradeValue := TruncDiv(pl.size * cexPrice, PRICE_SCALE);
      var grossPnl := TruncDiv(pl.size * (if buyCex then dexPrice - cexPrice else cexPrice - dexPrice), PRICE_SCALE);
      var totalFee := TotalFee(tradeValue, fees);
      if grossPnl - totalFee < th.minProfit then None
      else Some(Signal.Signal(
        stamp.signalId, stamp.base, stamp.quote, direction, cexPrice, dexPrice, pl.size,
        grossPnl, totalFee, grossPnl - totalFee,
        stamp.expiry, stamp.inventoryOk, tradeValue <= th.maxPosition))
  }

  /** The fee is the rate on the value, in ten-thousandths rounded down, and the gas. */
  lemma FeeIsRateAndGas(tradeValue: int, fees: Fees)
    requires tradeValue >= 0 && fees.rateBps >= 0
    ensures var rate := TotalFee(tradeValue, fees) - fees.gasCost;
            rate * 10_000 <= tradeValue * fees.rateBps < (rate + 1) * 10_000
  {
    MulMono(0, tradeValue, fees.rateBps);
    TruncDivBounds(tradeValue * fees.rateBps, BPS);
  }

  /** A signal is made exactly when the wider spread meets its threshold and what it yields after the
      fee the profit threshold. */
  lemma SignalMadeIff(pl: PriceLevels, th: Thresholds, fees: Fees, stamp: Stamp)
    ensures var cexBuys := BuyCexBps(pl) > BuyDexBps(pl);
            var spread := if cexBuys then BuyCexBps(pl) else BuyDexBps(pl);
            var cexPrice := if cexBuys then pl.cexAsk else pl.cexBid;
            var gain := if cexBuys then pl.dexSellPrice - pl.cexAsk else pl.cexBid - pl.dexBuyPrice;
            SignalFor(pl, th, fees, stamp).Some? <==>
              && spread >= th.minSpreadBps
              && TruncDiv(pl.size * gain, PRICE_SCALE) - TotalFee(TruncDiv(pl.size * cexPrice, PRICE_SCALE), fees)
                 >= th.minProfit
  {
  }

  /** What a signal announces: it is for the size and the pair it was made for; its gross profit is the
      difference of its prices on that size and its fee that of the value at the CEX price, both
      rounded; and it is within limits exactly when that value, rounded down, is. */
  lemma SignalAnnounces(pl: PriceLevels, th: Thresholds, fees: Fees, stamp: Stamp)
    requires SignalFor(pl, th, fees, stamp).Some? && th.minSpreadBps > 0.0
    requires pl.size >= 0 && pl.cexBid >= 0
    ensures var s := SignalFor(pl, th, fees, stamp).value;
            var value := s.size * s.cexPrice;
            && s.size == pl.size && s.base == stamp.base && s.quote == stamp.quote && s.signalId == stamp.signalId
            && s.expiry == stamp.expiry && s.inventoryOk == stamp.inventoryOk
            && s.expectedGrossPnl * PRICE_SCALE <= s.size * (SellAt(s) - BuyAt(s))
               < (s.expectedGrossPnl + 1) * PRICE_SCALE
            && s.expectedFees == TotalFee(value / PRICE_SCALE, fees)
            && (s.withinLimits <==> value < (th.maxPosition + 1) * PRICE_SCALE)
  {
    SignalBuysBelowSell(pl, th, fees, stamp);
    var s := SignalFor(pl, th, fees, stamp).value;
    MulMono(0, SellAt(s) - BuyAt(s), s.size);
    TruncDivBounds(s.size * (SellAt(s) - BuyAt(s)), PRICE_SCALE);
    MulMono(0, s.cexPrice, s.size);
    FloorAtLeast(s.size * s.cexPrice, PRICE_SCALE, th.maxPosition + 1);
  }

  /** The price at which a signal buys, and the one at which it sells. */
  function BuyAt(s: Signal): int { if s.direction.BuyCexSellDex? then s.cexPrice else s.dexPrice }

  function SellAt(s: Signal): int { if s.direction.BuyCexSellDex? then s.dexPrice else s.cexPrice }

  /** A signal meets the profit threshold and takes the wider of the two spreads at the prices it
      was made of. It buys below where it sells when the spread threshold is positive; at or
      below, at positive prices, when the threshold is zero. */
  lemma SignalBuysBelowSell(pl: PriceLevels, th: Thresholds, fees: Fees, stamp: Stamp)
    requires SignalFor(pl, th, fees, stamp).Some?
    ensures var s := SignalFor(pl, th, fees, stamp).value;
            && s.expectedNetPnl >= th.minProfit && s.expectedNetPnl == s.expectedGrossPnl - s.expectedFees
            && (if s.direction.BuyCexSellDex? then BuyAt(s) == pl.cexAsk && SellAt(s) == pl.dexSellPrice
                else BuyAt(s) == pl.dexBuyPrice && SellAt(s) == pl.cexBid)
            && SpreadBps(SellAt(s), BuyAt(s)) >= th.minSpreadBps
            && SpreadBps(SellAt(s), BuyAt(s)) >= BuyCexBps(pl) && SpreadBps(SellAt(s), BuyAt(s)) >= BuyDexBps(pl)
            && (th.minSpreadBps > 0.0 ==> 0 < BuyAt(s) < SellAt(s))
            && (th.minSpreadBps >= 0.0 && BuyAt(s) > 0 ==> BuyAt(s) <= SellAt(s))
  {
    var s := SignalFor(pl, th, fees, stamp).value;
    ChoosesWiderSpread(pl, th.minSpreadBps);
    if BuyAt(s) > 0 {
      SpreadSign(SellAt(s), BuyAt(s));
      SpreadNegative(SellAt(s), BuyAt(s));
    }
  }

  lemma SpreadNegative(to: int, from: int)
    requires from > 0
    ensures SpreadBps(to, from) < 0.0 <==> to < from
  {
    var diff := (to - from) as real;
    assert SpreadBps(to, from) * from as real == diff * 10000.0;
  }

  // ----- the sweep -----

  /** The estimate used to compare sizes; -1 stands for no profit before fees. */
  function EstimateNetPnl(pl: PriceLevels, fees: Fees): int {
    var buyCexGross := if pl.dexSellPrice > pl.cexAsk
                       then TruncDiv(pl.size * (pl.dexSellPrice - pl.cexAsk), PRICE_SCALE) else -1;
    var buyDexGross := if pl.cexBid > pl.dexBuyPrice
                       then TruncDiv(pl.size * (pl.cexBid - pl.dexBuyPrice), PRICE_SCALE) else -1;
    var grossPnl := Max(buyDexGross, buyCexGross);
    if grossPnl <= 0 then -1
    else grossPnl - TotalFee(TruncDiv(pl.size * pl.cexAsk, PRICE_SCALE), fees)
  }

  /** At prices at which one direction pays, the estimate a sweep ranks sizes by promises no more
      than the signal then made at the same fees, exactly unless rounding leaves no gross profit
      to set against the fees: a gross profit of 0 counts as a loss of 1. The two agree when there
      is a gross profit and the CEX side buys. */
  lemma EstimateNeverOverstates(pl: PriceLevels, th: Thresholds, fees: Fees, stamp: Stamp)
    requires th.minSpreadBps > 0.0 && SignalFor(pl, th, fees, stamp).Some?
    requires pl.size > 0 && fees.rateBps >= 0 && 0 <= pl.cexBid <= pl.cexAsk
    requires !(pl.dexSellPrice > pl.cexAsk && pl.cexBid > pl.dexBuyPrice)
    ensures var s, estimate := SignalFor(pl, th, fees, stamp).value, EstimateNetPnl(pl, fees);
            && (estimate <= s.expectedNetPnl <==> s.expectedGrossPnl > 0 || s.expectedFees <= 1)
            && (s.expectedGrossPnl > 0 ==>
                  estimate == s.expectedGrossPnl - TotalFee(TruncDiv(pl.size * pl.cexAsk, PRICE_SCALE), fees))
            && (s.expectedGrossPnl > 0 && s.direction.BuyCexSellDex? ==> estimate == s.expectedNetPnl)
  {
    SignalBuysBelowSell(pl, th, fees, stamp);
    FeeMonotone(pl.size, pl.cexBid, pl.cexAsk, fees);
    var s := SignalFor(pl, th, fees, stamp).value;
    MulMono(0, SellAt(s) - BuyAt(s), pl.size);
  }

  /** Prices at which nothing pays are estimated at -1. */
  lemma NothingPaysEstimate(pl: PriceLevels, fees: Fees)
    requires pl.dexSellPrice <= pl.cexAsk && pl.cexBid <= pl.dexBuyPrice
    ensures EstimateNetPnl(pl, fees) == -1
  {
  }

  lemma FeeMonotone(size: int, low: int, high: int, fees: Fees)
    requires size >= 0 && fees.rateBps >= 0 && 0 <= low <= high
    ensures TotalFee(TruncDiv(size * low, PRICE_SCALE), fees) <= TotalFee(TruncDiv(size * high, PRICE_SCALE), fees)
  {
    MulMono(0, low, size);
    MulMono(low, high, size);
    var v, w := size * low / PRICE_SCALE, size * high / PRICE_SCALE;
    assert 0 <= v <= w;
    MulMono(v, w, fees.rateBps);
    MulMono(0, v, fees.rateBps);
  }

  /** What the sweep draws prices from. */
  datatype Market = Market(ob: Book, topAsk: int, base: Token, quote: Token, g: Graph, fees: Fees)

  /** Prices as a function of the size, and the estimate made of them. */
  type Pricing = int -> Result<Option<PriceLevels>>

  type Estimate = PriceLevels -> int

  function PricingOf(m: Market): Pricing { x => ComputePricesAt(m.ob, x, m.topAsk, m.base, m.quote, m.g) }

  function EstimateOf(m: Market): Estimate { pl => EstimateNetPnl(pl, m.fees) }

  /** `best` holds the prices at the first of the sizes with the greatest estimate; None when no
      size can be filled. */
  ghost predicate IsBest(price: Pricing, pnl: Estimate, sizes: seq<int>, best: Option<PriceLevels>) {
    if best.None? then forall x :: x in sizes ==> !Priced(price, x)
    else
      && (forall x :: x in sizes && Priced(price, x) ==> pnl(price(x).value.value) <= pnl(best.value))
      && exists k :: 0 <= k < |sizes| && price(sizes[k]) == Ok(best)
                     && BelowBefore(price, pnl, sizes, k, pnl(best.value))
  }

  predicate Priced(price: Pricing, x: int) { price(x).Ok? && price(x).value.Some? }

  predicate BelowBefore(price: Pricing, pnl: Estimate, sizes: seq<int>, k: nat, top: int)
    requires k <= |sizes|
  {
    forall i :: 0 <= i < k && Priced(price, sizes[i]) ==> pnl(price(sizes[i]).value.value) < top
  }

  /** One round of the sweep. */
  function Better(pnl: Estimate, best: Option<PriceLevels>, prices: Option<PriceLevels>): Option<PriceLevels> {
    if prices.Some? && (best.None? || pnl(prices.value) > pnl(best.value)) then prices else best
  }

  /** The round at x keeps what came before when it does not beat it. */
  lemma KeepsBest(price: Pricing, pnl: Estimate, sizes: seq<int>, x: int, best: PriceLevels)
    requires IsBest(price, pnl, sizes, Some(best))
    requires Priced(price, x) ==> pnl(price(x).value.value) <= pnl(best)
    ensures IsBest(price, pnl, sizes + [x], Some(best))
  {
    var next, top := sizes + [x], pnl(best);
    var k :| 0 <= k < |sizes| && price(sizes[k]) == Ok(Some(best)) && BelowBefore(price, pnl, sizes, k, top);
    assert next[k] == sizes[k] && BelowBefore(price, pnl, next, k, top);
  }

  /** The round at x takes over when it beats everything before. */
  lemma TakesOver(price: Pricing, pnl: Estimate, sizes: seq<int>, x: int, pl: PriceLevels)
    requires price(x) == Ok(Some(pl))
    requires forall y :: y in sizes && Priced(price, y) ==> pnl(price(y).value.value) < pnl(pl)
    ensures IsBest(price, pnl, sizes + [x], Some(pl))
  {
    var next := sizes + [x];
    assert next[|sizes|] == x;
    assert forall i :: 0 <= i < |sizes| ==> next[i] in sizes;
    assert BelowBefore(price, pnl, next, |sizes|, pnl(pl));
  }

  lemma BetterIsBest(price: Pricing, pnl: Estimate, sizes: seq<int>, x: int, best: Option<PriceLevels>)
    requires IsBest(price, pnl, sizes, best) && price(x).Ok?
    ensures IsBest(price, pnl, sizes + [x], Better(pnl, best, price(x).value))
  {
    var prices := price(x).value;
    if prices.Some? && (best.None? || pnl(prices.value) > pnl(best.value)) {
      TakesOver(price, pnl, sizes, x, prices.value);
    } else if best.Some? {
      KeepsBest(price, pnl, sizes, x, best.value);
    }
  }

  /** The sweep has priced the first n sizes. */
  ghost predicate Swept(price: Pricing, pnl: Estimate, sizes: seq<int>, n: nat, best: Option<PriceLevels>) {
    && n <= |sizes| && IsBest(price, pnl, sizes[..n], best)
    && forall i :: 0 <= i < n ==> price(sizes[i]).Ok?
  }

  lemma SweepOn(price: Pricing, pnl: Estimate, sizes: seq<int>, n: nat, best: Option<PriceLevels>)
    requires n < |sizes| && Swept(price, pnl, sizes, n, best) && price(sizes[n]).Ok?
    ensures Swept(price, pnl, sizes, n + 1, Better(pnl, best, price(sizes[n]).value))
  {
    assert sizes[..n + 1] == sizes[..n] + [sizes[n]];
    BetterIsBest(price, pnl, sizes[..n], sizes[n], best);
  }

  /** The sweep throws exactly when pricing some candidate throws, and otherwise returns the
      first price level with the greatest estimate, or null when no size can be filled. */
  method FindBestPrices(m: Market, sizes: seq<int>) returns (r: Result<Option<PriceLevels>>)
    ensures r.Ok? <==> forall x :: x in sizes ==> ComputePricesAt(m.ob, x, m.topAsk, m.base, m.quote, m.g).Ok?
    ensures r.Ok? ==> IsBest(PricingOf(m), EstimateOf(m), sizes, r.value)
    ensures r.Ok? && r.value.Some? ==>
              && (exists x :: x in sizes && ComputePricesAt(m.ob, x, m.topAsk, m.base, m.quote, m.g) == r)
              && forall x, pl ::
                   (x in sizes && ComputePricesAt(m.ob, x, m.topAsk, m.base, m.quote, m.g) == Ok(Some(pl))) ==>
                     EstimateNetPnl(pl, m.fees) <= EstimateNetPnl(r.value.value, m.fees)
  {
    r := Sweep(PricingOf(m), EstimateOf(m), sizes);
    assert forall x :: PricingOf(m)(x) == ComputePricesAt(m.ob, x, m.topAsk, m.base, m.quote, m.g);
    assert forall pl :: EstimateOf(m)(pl) == EstimateNetPnl(pl, m.fees);
  }

  /** The loop over the candidates. */
  method Sweep(price: Pricing, pnl: Estimate, sizes: seq<int>) returns (r: Result<Option<PriceLevels>>)
    ensures r.Ok? <==> forall x :: x in sizes ==> price(x).Ok?
    ensures r.Ok? ==> IsBest(price, pnl, sizes, r.value)
  {
    var best: Option<PriceLevels> := None;
    var bestPnl := 0;
    for n := 0 to |sizes|
      invariant Swept(price, pnl, sizes, n, best) && (best.Some? ==> bestPnl == pnl(best.value))
    {
      var x := sizes[n];
      assert x in sizes;
      var prices :- price(x);
      SweepOn(price, pnl, sizes, n, best);
      if prices.Some? {
        var estimate := pnl(prices.value);
        if best.None? || estimate > bestPnl {
          bestPnl := estimate;
          best := prices;
        }
      }
    }
    assert sizes[..|sizes|] == sizes;
    return Ok(best);
  }
}
