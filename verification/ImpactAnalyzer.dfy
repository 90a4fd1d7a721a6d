/** The binary search for the largest trade within a price-impact limit. */
module ImpactAnalyzer {
  import opened JsMath
  import opened Core
  import opened UniswapV2Pair
  import Calc = UniswapV2Calculator
  import SwapLaws

  /** The price impact as a function of the size. */
  function Impact(p: Pair, t: Token): int -> Result<int> { x => p.GetPriceImpactBps(x, t) }

  /** The search from bounds `lo` and `hi`: it throws when a probe throws. */
  function Search(impact: int -> Result<int>, limit: int, lo: int, hi: int): Result<int>
    decreases hi - lo
  {
    if lo >= hi then Ok(lo)
    else
      var mid := (lo + hi + 1) / 2;
      var bps :- impact(mid);
      if bps <= limit then Search(impact, limit, mid, hi) else Search(impact, limit, lo, mid - 1)
  }

  function MaxSizeOf(impact: int -> Result<int>, limit: int, top: int): Result<int> {
    var one :- impact(1);
    if one > limit then Ok(0) else Search(impact, limit, 1, top)
  }

  function MaxSize(p: Pair, t: Token, limit: int): Result<int> { MaxSizeOf(Impact(p, t), limit, p.ReserveIn(t)) }

  method FindMaxSizeForImpact(p: Pair, t: Token, maxImpactBps: int) returns (r: Result<int>)
    ensures r == MaxSize(p, t, maxImpactBps)
  {
    var impact := Impact(p, t);
    var one :- impact(1);
    if one > maxImpactBps {
      return Ok(0);
    }
    var reserveIn := if t.address == p.token0.address then p.reserve0 else p.reserve1;
    r := SearchLoop(impact, maxImpactBps, reserveIn);
  }

  method SearchLoop(impact: int -> Result<int>, maxImpactBps: int, reserveIn: int) returns (r: Result<int>)
    ensures r == Search(impact, maxImpactBps, 1, reserveIn)
  {
    var lo := 1;
    var hi := reserveIn;
    while lo < hi
      invariant 1 <= lo
      invariant Search(impact, maxImpactBps, lo, hi) == Search(impact, maxImpactBps, 1, reserveIn)
      decreases hi - lo
    {
      var mid := (lo + hi + 1) / 2;
      var bps :- impact(mid);
      if bps <= maxImpactBps {
        lo := mid;
      } else {
        hi := mid - 1;
      }
    }
    return Ok(lo);
  }

  predicate Acceptable(p: Pair, t: Token, limit: int, x: int) { Within(Impact(p, t), limit, x) }

  predicate Rejected(p: Pair, t: Token, limit: int, x: int) { Over(Impact(p, t), limit, x) }

  predicate Within(impact: int -> Result<int>, limit: int, x: int) { impact(x).Ok? && impact(x).value <= limit }

  predicate Over(impact: int -> Result<int>, limit: int, x: int) { impact(x).Ok? && impact(x).value > limit }

  /** The invariant of the search: it ends on an acceptable size whose successor is either
      rejected or outside the pool. */
  lemma {:induction false} SearchEndsAtBoundary(impact: int -> Result<int>, limit: int, lo: int, hi: int, top: int)
    requires lo <= hi <= top && Within(impact, limit, lo)
    requires hi < top ==> Over(impact, limit, hi + 1)
    ensures Search(impact, limit, lo, hi).Ok? ==>
              var r := Search(impact, limit, lo, hi).value;
              lo <= r <= hi && Within(impact, limit, r) && (r < top ==> Over(impact, limit, r + 1))
    decreases hi - lo
  {
    if lo < hi {
      var mid := (lo + hi + 1) / 2;
      if Within(impact, limit, mid) {
        SearchEndsAtBoundary(impact, limit, mid, hi, top);
      } else if Over(impact, limit, mid) {
        SearchEndsAtBoundary(impact, limit, lo, mid - 1, top);
      }
    }
  }

  lemma {:induction false} SearchDefined(impact: int -> Result<int>, limit: int, lo: int, hi: int)
    requires forall x :: lo <= x <= hi ==> impact(x).Ok?
    ensures Search(impact, limit, lo, hi).Ok?
    decreases hi - lo
  {
    if lo < hi {
      var mid := (lo + hi + 1) / 2;
      assert impact(mid).Ok?;
      if impact(mid).value <= limit {
        SearchDefined(impact, limit, mid, hi);
      } else {
        SearchDefined(impact, limit, lo, mid - 1);
      }
    }
  }

  /** Once one unit buys something, every size up to the reserve has a positive price, so no
      probe throws. */
  lemma OneUnitDefinesAll(p: Pair, t: Token, x: int)
    requires p.Live() && p.GetPriceImpactBps(1, t).Ok?
    requires 1 <= x <= p.ReserveIn(t)
    ensures p.GetPriceImpactBps(x, t).Ok?
  {
    var a, b, fee := p.ReserveIn(t), p.ReserveOut(t), p.feeBps;
    var y := (x + 1) / 2;
    Calc.AmountOutAtLeast(1, a, b, fee, 1);
    Calc.AmountOutAtLeast(x, a, b, fee, y);
    HalfIsBought(x, a, b, BPS - fee, y);
    var out := Calc.Out(x, a, b, fee);
    FloorAtLeast(out * Calc.PRICE_SCALE, x, 1);
  }

  lemma HalfIsBought(x: int, a: int, b: int, g: int, y: int)
    requires 1 <= x <= a && 0 <= g <= BPS && 1 <= y && 2 * y <= x + 1
    requires a * BPS <= g * (b - 1)
    ensures a * y * BPS <= x * g * (b - y)
  {
    var m, k := a * BPS, g * (b - 1);
    MulRot(a, y, BPS);
    assert x * g * (b - y) == x * k - (x * g) * (y - 1) by {
      MulRot(x, g, b - 1);
      assert (x * g) * (b - y) == (x * g) * (b - 1) - (x * g) * (y - 1);
    }
    assert x * g <= m by { MulMono(x, a, g); MulMono(g, BPS, a); }
    MulMono(x * g, m, y - 1);
    MulMono(m, k, x);
    MulMono(y, x - (y - 1), m);
    assert (x - (y - 1)) * m == m * x - m * (y - 1);
  }

  /** On a live pool the search throws only if a one-unit trade already has no price. It
      returns 0 exactly when one unit is over the limit, and otherwise an acceptable size that
      is the whole reserve or whose successor is over the limit. */
  lemma MaxSizeIsBoundary(p: Pair, t: Token, limit: int)
    requires p.Live()
    ensures MaxSize(p, t, limit).Ok? <==> p.GetPriceImpactBps(1, t).Ok?
    ensures MaxSize(p, t, limit).Ok? ==>
              var r := MaxSize(p, t, limit).value;
              && (r == 0 <==> Rejected(p, t, limit, 1))
              && (r != 0 ==> 1 <= r <= p.ReserveIn(t) && Acceptable(p, t, limit, r))
              && (r < p.ReserveIn(t) ==> Rejected(p, t, limit, r + 1))
  {
    var one := p.GetPriceImpactBps(1, t);
    if one.Ok? && one.value <= limit {
      forall x | 1 <= x <= p.ReserveIn(t)
        ensures Impact(p, t)(x).Ok?
      {
        OneUnitDefinesAll(p, t, x);
      }
      SearchDefined(Impact(p, t), limit, 1, p.ReserveIn(t));
      SearchEndsAtBoundary(Impact(p, t), limit, 1, p.ReserveIn(t), p.ReserveIn(t));
    }
  }

  // ----- how far the floors break monotonicity -----

  /** A larger trade can look better than a smaller one only by less than one unit of the
      smaller one's output, plus one. */
  lemma ExecutionPriceNearlyMonotone(p: Pair, t: Token, x: int, y: int)
    requires p.Live() && x <= y
    requires p.GetExecutionPrice(x, t).Ok? && p.GetExecutionPrice(y, t).Ok?
    ensures (p.GetExecutionPrice(y, t).value - p.GetExecutionPrice(x, t).value - 1) * x < Calc.PRICE_SCALE
  {
    var a, b, fee := p.ReserveIn(t), p.ReserveOut(t), p.feeBps;
    var ox, oy := Calc.Out(x, a, b, fee), Calc.Out(y, a, b, fee);
    Reach(x, a, b, fee);
    Reach(y, a, b, fee);
    AverageFalls(x, y, a * BPS, b, BPS - fee, ox + 1, oy);
    ExecIsFloor(p, t, x);
    ExecIsFloor(p, t, y);
    PricesFromOutputs(x, y, ox, oy, p.GetExecutionPrice(x, t).value, p.GetExecutionPrice(y, t).value, Calc.PRICE_SCALE);
  }

  /** The output is within reach of the input, and one unit more is not. */
  lemma Reach(x: int, a: int, b: int, fee: int)
    requires Calc.Tradable(x, a, b, fee)
    ensures var o, m, g := Calc.Out(x, a, b, fee), a * BPS, BPS - fee;
            0 <= o && o * m <= x * (g * (b - o)) && (o + 1) * m > x * (g * (b - (o + 1)))
  {
    var o, g := Calc.Out(x, a, b, fee), BPS - fee;
    Calc.AmountOutRange(x, a, b, fee);
    forall q
      ensures a * q * BPS == q * (a * BPS) && x * g * (b - q) == x * (g * (b - q))
    {
      MulRot(a, q, BPS);
      MulRot(x, g, b - q);
    }
    Calc.AmountOutAtLeast(x, a, b, fee, o);
    Calc.AmountOutAtLeast(x, a, b, fee, o + 1);
  }

  lemma ExecIsFloor(p: Pair, t: Token, x: int)
    requires p.Live() && p.GetExecutionPrice(x, t).Ok?
    ensures Calc.Tradable(x, p.ReserveIn(t), p.ReserveOut(t), p.feeBps)
    ensures var o, e := Calc.Out(x, p.ReserveIn(t), p.ReserveOut(t), p.feeBps), p.GetExecutionPrice(x, t).value;
            o > 0 && e == o * Calc.PRICE_SCALE / x
            && e * x <= o * Calc.PRICE_SCALE < (e + 1) * x
  {
    var o := Calc.Out(x, p.ReserveIn(t), p.ReserveOut(t), p.feeBps);
    TruncDivBounds(o * Calc.PRICE_SCALE, x);
  }

  /** `w` is out of reach of `x` while `v` is within reach of `y`: the average has not grown. */
  lemma AverageFalls(x: int, y: int, m: int, b: int, g: int, w: int, v: int)
    requires 0 < x <= y && m > 0 && g >= 0 && w >= 1
    requires w * m > x * (g * (b - w))
    requires v * m <= y * (g * (b - v))
    ensures v * x <= w * y
  {
    if v * x > w * y {
      assert v >= w by { MulMono(x, y, w); if v < w { MulMono(v, w, x); } }
      var k := g * (b - w);
      assert v * m <= y * k by { MulMono(b - v, b - w, g); MulMono(g * (b - v), k, y); }
      Cross(x, y, m, k, w, v);
    }
  }

  lemma Cross(x: int, y: int, m: int, k: int, w: int, v: int)
    requires 0 < x && 0 < y && m > 0 && w * m > x * k && v * m <= y * k
    ensures v * x < w * y
  {
    calc {
      (v * x) * m;
      == { MulRot(v, x, m); }
      (v * m) * x;
      <= { MulMono(v * m, y * k, x); }
      (y * k) * x;
      == { MulRot(y, k, x); assert y * x == x * y; MulRot(x, y, k); }
      (x * k) * y;
      < { MulMono(x * k + 1, w * m, y); assert (x * k + 1) * y == (x * k) * y + y; }
      (w * m) * y;
      == { MulRot(w, m, y); }
      (w * y) * m;
    }
    if v * x >= w * y { MulMono(w * y, v * x, m); }
  }

  lemma PricesFromOutputs(x: int, y: int, ox: int, oy: int, ex: int, ey: int, s: int)
    requires 0 < x && 0 < y && s > 0
    requires ox * s < (ex + 1) * x && ey * y <= oy * s
    requires oy * x <= (ox + 1) * y
    ensures (ey - ex - 1) * x < s
  {
    MulMono(ey * y, oy * s, x);
    MulMono(oy * x, (ox + 1) * y, s);
    assert (ey * y) * x == (ey * x) * y && (oy * s) * x == (oy * x) * s;
    assert ((ox + 1) * y) * s == ((ox + 1) * s) * y;
    MulCancel(ey * x, (ox + 1) * s, y);
    assert (ox + 1) * s == ox * s + s;
    assert (ey - ex - 1) * x == ey * x - (ex + 1) * x;
  }

  lemma NearlyRejectedAbove(p: Pair, t: Token, limit: int, x: int, z: int)
    requires p.Live() && 0 < x <= z && Rejected(p, t, limit, x) && p.GetPriceImpactBps(z, t).Ok?
    ensures (limit - p.GetPriceImpactBps(z, t).value) * p.GetSpotPrice(t).value
            < BPS * (1 + Calc.PRICE_SCALE / x)
  {
    var ex, ez := p.GetExecutionPrice(x, t).value, p.GetExecutionPrice(z, t).value;
    ImpactIsFloor(p, t, x);
    ImpactIsFloor(p, t, z);
    assert ez - ex - 1 <= Calc.PRICE_SCALE / x by {
      ExecutionPriceNearlyMonotone(p, t, x, z);
      FloorAtLeast(Calc.PRICE_SCALE, x, ez - ex - 1);
    }
    ImpactGap(p.GetSpotPrice(t).value, ex, ez, limit, Calc.PRICE_SCALE / x);
  }

  /** How far the result can be from the largest acceptable size: every larger size is over
      the limit, except by what one output unit at the boundary is worth. */
  lemma LargerSizesNearlyRejected(p: Pair, t: Token, limit: int, z: int)
    requires p.Live() && MaxSize(p, t, limit).Ok? && MaxSize(p, t, limit).value < p.ReserveIn(t)
    requires z > MaxSize(p, t, limit).value && p.GetPriceImpactBps(z, t).Ok?
    ensures MaxSize(p, t, limit).value >= 0 && p.GetSpotPrice(t).Ok?
    ensures var x := MaxSize(p, t, limit).value + 1;
            (limit - p.GetPriceImpactBps(z, t).value) * p.GetSpotPrice(t).value
            < BPS * (1 + Calc.PRICE_SCALE / x)
  {
    MaxSizeIsBoundary(p, t, limit);
    NearlyRejectedAbove(p, t, limit, MaxSize(p, t, limit).value + 1, z);
  }

  lemma ImpactIsFloor(p: Pair, t: Token, x: int)
    requires p.Live() && p.GetPriceImpactBps(x, t).Ok?
    ensures var spot, exec := p.GetSpotPrice(t).value, p.GetExecutionPrice(x, t).value;
            0 < exec <= spot && p.GetPriceImpactBps(x, t).value == ((spot - exec) * BPS) / spot
  {
    SpotIsBest(p, t, x);
  }

  lemma ImpactGap(spot: int, ex: int, ez: int, limit: int, k: int)
    requires 0 < ex <= spot && 0 < ez <= spot && ez - ex - 1 <= k
    requires ((spot - ex) * BPS) / spot > limit
    ensures (limit - ((spot - ez) * BPS) / spot) * spot < BPS * (1 + k)
  {
    var nx, nz := (spot - ex) * BPS, (spot - ez) * BPS;
    FloorAtLeast(nx, spot, limit + 1);
    FloorAtLeast(nz, spot, nz / spot + 1);
    assert (limit - nz / spot) * spot == (limit + 1) * spot - (nz / spot + 1) * spot;
  }

  /** What the three prices mean: the spot price is the ratio of the reserves and the execution price
      that of the amounts, at 18 digits and rounded down, and the impact is what the one loses
      against the other, in basis points rounded down. */
  lemma PricesMean(p: Pair, amountIn: int, tokenIn: Token)
    requires p.Live() && p.GetPriceImpactBps(amountIn, tokenIn).Ok?
    ensures p.GetSpotPrice(tokenIn).Ok? && p.GetExecutionPrice(amountIn, tokenIn).Ok?
    ensures p.GetAmountOut(amountIn, tokenIn).Ok?
    ensures var spot, exec := p.GetSpotPrice(tokenIn).value, p.GetExecutionPrice(amountIn, tokenIn).value;
            var impact, out := p.GetPriceImpactBps(amountIn, tokenIn).value, p.GetAmountOut(amountIn, tokenIn).value;
            var e18 := 1_000_000_000_000_000_000;
            && spot * p.ReserveIn(tokenIn) <= p.ReserveOut(tokenIn) * e18 < (spot + 1) * p.ReserveIn(tokenIn)
            && exec * amountIn <= out * e18 < (exec + 1) * amountIn
            && impact * spot <= (spot - exec) * 10_000 < (impact + 1) * spot
  {
    SpotIsBest(p, tokenIn, amountIn);
    var spot, exec := p.GetSpotPrice(tokenIn).value, p.GetExecutionPrice(amountIn, tokenIn).value;
    TruncDivBounds(p.ReserveOut(tokenIn) * Calc.PRICE_SCALE, p.ReserveIn(tokenIn));
    TruncDivBounds(p.GetAmountOut(amountIn, tokenIn).value * Calc.PRICE_SCALE, amountIn);
    TruncDivBounds((spot - exec) * BPS, spot);
  }

  /** Execution never beats spot, so an impact is never negative. */
  lemma SpotIsBest(p: Pair, t: Token, x: int)
    requires p.Live() && p.GetPriceImpactBps(x, t).Ok?
    ensures p.GetExecutionPrice(x, t).value <= p.GetSpotPrice(t).value
    ensures 0 <= p.GetPriceImpactBps(x, t).value < BPS
  {
    var a, b, s := p.ReserveIn(t), p.ReserveOut(t), Calc.PRICE_SCALE;
    var y := Calc.Out(x, a, b, p.feeBps);
    Calc.AmountOutRange(x, a, b, p.feeBps);
    SwapLaws.OutputAtMostSpot(x, a, b, p.feeBps);
    ExecAtMostSpot(a, b, x, y, s);
    ImpactInRange(b * s / a, y * s / x);
  }

  lemma ExecAtMostSpot(a: int, b: int, x: int, y: int, s: int)
    requires a > 0 && x > 0 && s > 0 && a * y <= x * b
    ensures y * s / x <= b * s / a
  {
    MulMono(a * y, x * b, s);
    assert (y * s) * a == (a * y) * s && (b * s) * x == (x * b) * s;
    FloorMono(y * s, x, b * s, a);
  }

  lemma ImpactInRange(spot: int, exec: int)
    requires 0 < exec <= spot
    ensures 0 <= ((spot - exec) * BPS) / spot < BPS
  {
    FloorAtLeast((spot - exec) * BPS, spot, 0);
    FloorAtLeast((spot - exec) * BPS, spot, BPS);
  }
}
