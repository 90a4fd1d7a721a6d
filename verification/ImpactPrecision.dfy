/** When the price-impact search returns the largest acceptable size, when it does not, and by how
    much it can miss: conditions on the reserves, the fee and the limit that can be checked before
    the search is made. */
module ImpactPrecision {
  import opened JsMath
  import opened Core
  import opened UniswapV2Pair
  import opened ImpactAnalyzer
  import Calc = UniswapV2Calculator

  const SCALE: int := Calc.PRICE_SCALE

  /** The parameters of the swap formula: the scaled input reserve, the output reserve, and the
      part of the input that is left after the fee, per 10000. */
  datatype Curve = Curve(a: int, b: int, g: int)

  function CurveOf(p: Pair, t: Token): Curve {
    Curve(p.ReserveIn(t) * BPS, p.ReserveOut(t), BPS - p.feeBps)
  }

  /** The curve without its floor loses more price from x to x + 1 than rounding can cost at x. */
  predicate Fine(c: Curve, x: int) {
    (c.a + c.g * x) * (c.a + c.g * x + c.g) <= x * c.g * c.g * c.b
  }

  // ----- from a fine size on, prices only fall -----

  /** What one less than the next unit pays, at a fine size, is still on or above the curve one
      step further. */
  lemma FineReach(c: Curve, x: int, o: int)
    requires c.a > 0 && c.g >= 0 && x > 0 && Fine(c, x)
    requires (o + 1) * (c.a + c.g * x) > x * c.g * c.b
    ensures o * (c.a + c.g * x + c.g) >= x * c.g * c.b
  {
    var d, k := c.a + c.g * x, x * c.g * c.b;
    MulMono(0, c.g, x);
    assert c.g * x == x * c.g;
    MulRot(x * c.g, c.b, c.g);
    StepOnCurve(d, c.g, k, o);
  }

  lemma StepOnCurve(d: int, g: int, k: int, o: int)
    requires d > 0 && g >= 0 && d * (d + g) <= k * g && (o + 1) * d > k
    ensures o * (d + g) >= k
  {
    var e := d + g;
    MulMono(k + 1, (o + 1) * d, e);
    assert (k + 1) * e == k * d + k * g + e;
    assert ((o + 1) * d) * e == (o * e) * d + d * e by {
      MulRot(o, d, e);
      assert (o + 1) * d == o * d + d;
    }
    MulCancel(k, o * e, d);
  }

  lemma FineAverageFalls(c: Curve, x: int, z: int, o: int, v: int)
    requires c.a > 0 && c.g >= 0 && 0 < x < z && Fine(c, x) && o >= 0 && v >= 0
    requires (o + 1) * (c.a + c.g * x) > x * c.g * c.b
    requires v * (c.a + c.g * z) <= z * c.g * c.b
    ensures v * x <= o * z
  {
    var e, q := c.a + c.g * x + c.g, c.g * c.b;
    FineReach(c, x, o);
    MulMono(x + 1, z, c.g);
    assert (x + 1) * c.g == c.g * x + c.g && z * c.g == c.g * z;
    MulMono(e, c.a + c.g * z, v);
    assert v * e <= z * q by {
      MulRot(z, c.g, c.b);
      assert e * v == v * e && (c.a + c.g * z) * v == v * (c.a + c.g * z);
    }
    assert x * q <= o * e by { MulRot(x, c.g, c.b); }
    MulMono(0, x, c.g);
    assert e > 0 by { assert x * c.g == c.g * x; }
    MulMono(v * e, z * q, x);
    MulMono(x * q, o * e, z);
    assert (v * e) * x == (v * x) * e by { MulRot(v, e, x); }
    assert (z * q) * x == (x * q) * z by { MulRot(z, q, x); assert z * x == x * z; MulRot(x, z, q); }
    assert (o * e) * z == (o * z) * e by { MulRot(o, e, z); }
    MulCancel(v * x, o * z, e);
  }

  /** The reach of an output, on the curve. */
  lemma ReachOnCurve(p: Pair, t: Token, x: int)
    requires p.Live() && p.GetExecutionPrice(x, t).Ok?
    ensures Calc.Tradable(x, p.ReserveIn(t), p.ReserveOut(t), p.feeBps)
    ensures var c, o := CurveOf(p, t), Calc.Out(x, p.ReserveIn(t), p.ReserveOut(t), p.feeBps);
            && 0 < o && o * (c.a + c.g * x) <= x * c.g * c.b && (o + 1) * (c.a + c.g * x) > x * c.g * c.b
            && p.GetExecutionPrice(x, t).value == o * SCALE / x
  {
    ExecIsFloor(p, t, x);
    var c, o := CurveOf(p, t), Calc.Out(x, p.ReserveIn(t), p.ReserveOut(t), p.feeBps);
    Reach(x, p.ReserveIn(t), p.ReserveOut(t), p.feeBps);
    OnCurve(c, x, o);
    OnCurve(c, x, o + 1);
  }

  lemma OnCurve(c: Curve, x: int, o: int)
    ensures o * c.a <= x * (c.g * (c.b - o)) <==> o * (c.a + c.g * x) <= x * c.g * c.b
  {
    assert x * (c.g * (c.b - o)) == x * (c.g * c.b) - x * (c.g * o);
    assert x * (c.g * o) == o * (c.g * x) by {
      MulRot(x, c.g, o);
      MulRot(o, c.g, x);
      MulRot(x, o, c.g);
      MulRot(o, x, c.g);
      assert x * o == o * x;
    }
    MulRot(x, c.g, c.b);
    assert o * (c.a + c.g * x) == o * c.a + o * (c.g * x);
  }

  /** No larger size has a lower impact than a fine one. */
  lemma FineImpactIsLeast(p: Pair, t: Token, x: int, z: int)
    requires p.Live() && 0 < x <= z && Fine(CurveOf(p, t), x)
    requires p.GetPriceImpactBps(x, t).Ok? && p.GetPriceImpactBps(z, t).Ok?
    ensures p.GetPriceImpactBps(x, t).value <= p.GetPriceImpactBps(z, t).value
  {
    if x < z {
      var c, a, b := CurveOf(p, t), p.ReserveIn(t), p.ReserveOut(t);
      var o, v := Calc.Out(x, a, b, p.feeBps), Calc.Out(z, a, b, p.feeBps);
      ReachOnCurve(p, t, x);
      ReachOnCurve(p, t, z);
      FineAverageFalls(c, x, z, o, v);
      FallingPrice(x, z, o, v);
      ImpactIsFloor(p, t, x);
      ImpactIsFloor(p, t, z);
      RisingImpact(p.GetSpotPrice(t).value, p.GetExecutionPrice(x, t).value, p.GetExecutionPrice(z, t).value);
    }
  }

  lemma FallingPrice(x: int, z: int, o: int, v: int)
    requires 0 < x && 0 < z && v * x <= o * z
    ensures v * SCALE / z <= o * SCALE / x
  {
    MulMono(v * x, o * z, SCALE);
    MulRot(v, x, SCALE);
    MulRot(o, z, SCALE);
    FloorMono(v * SCALE, z, o * SCALE, x);
  }

  lemma RisingImpact(spot: int, ex: int, ez: int)
    requires 0 < ez <= ex <= spot
    ensures ((spot - ex) * BPS) / spot <= ((spot - ez) * BPS) / spot
  {
    FloorMono((spot - ex) * BPS, spot, (spot - ez) * BPS, spot) by {
      MulMono((spot - ex) * BPS, (spot - ez) * BPS, spot);
    }
  }

  // ----- two sizes speak for all between them -----

  /** A concave quadratic that is not negative at two points is not negative between them. */
  lemma ConcaveBetween(k: int, m: int, n: int, lo: int, hi: int, x: int)
    requires k >= 0 && lo <= x <= hi
    requires m * lo - k * lo * lo >= n && m * hi - k * hi * hi >= n
    ensures m * x - k * x * x >= n
  {
    Chord(k, m, lo, x);
    Chord(k, m, x, hi);
    MulMono(x + lo, hi + x, k);
    assert (x + lo) * k == k * (x + lo) && (hi + x) * k == k * (hi + x);
    OneEndIsLower(m - k * (x + lo), m - k * (hi + x), x - lo, hi - x);
  }

  /** Of two slopes, the later no greater, the first is not negative or the second is not positive. */
  lemma OneEndIsLower(s: int, u: int, d: int, e: int)
    requires u <= s && d >= 0 && e >= 0
    ensures s * d >= 0 || u * e <= 0
  {
    if s >= 0 { MulMono(0, s, d); } else { MulMono(u, 0, e); }
  }

  lemma Chord(k: int, m: int, x: int, y: int)
    ensures (m * y - k * y * y) - (m * x - k * x * x) == (m - k * (y + x)) * (y - x)
  {
    assert (y + x) * (y - x) == y * y - x * x;
    assert k * (y + x) * (y - x) == k * ((y + x) * (y - x)) by { MulRot(k, y + x, y - x); }
    assert k * (y * y - x * x) == k * y * y - k * x * x by { MulRot(k, y, y); MulRot(k, x, x); }
    assert (m - k * (y + x)) * (y - x) == m * (y - x) - k * (y + x) * (y - x);
  }

  /** Fine as a quadratic in the size. */
  lemma FineIsConcave(c: Curve, x: int)
    ensures var k, m, n := c.g * c.g, c.g * c.g * c.b - 2 * c.a * c.g - c.g * c.g, c.a * c.a + c.a * c.g;
            Fine(c, x) <==> m * x - k * x * x >= n
  {
    var a, g, y := c.a, c.g, c.g * x;
    assert (a + y) * (a + y + g) == a * a + 2 * (a * y) + y * y + a * g + y * g;
    assert a * y == a * g * x && y * y == g * g * x * x && y * g == g * g * x by {
      MulRot(a, g, x);
      MulRot(g, x, g);
      assert y * y == (g * x * g) * x by { MulRot(y, g, x); }
    }
    assert x * g * g * c.b == g * g * c.b * x by {
      MulRot(x, g, g);
      assert x * (g * g) == (g * g) * x;
      MulRot(g * g, x, c.b);
    }
    var k := g * g;
    assert (k * c.b - 2 * a * g - k) * x == k * c.b * x - 2 * (a * g * x) - k * x by {
      assert 2 * a * g == 2 * (a * g);
    }
  }

  lemma FineBetween(c: Curve, lo: int, hi: int, x: int)
    requires c.g >= 0 && lo <= x <= hi && Fine(c, lo) && Fine(c, hi)
    ensures Fine(c, x)
  {
    FineIsConcave(c, lo);
    FineIsConcave(c, hi);
    FineIsConcave(c, x);
    MulMono(0, c.g, c.g);
    ConcaveBetween(c.g * c.g, c.g * c.g * c.b - 2 * c.a * c.g - c.g * c.g, c.a * c.a + c.a * c.g, lo, hi, x);
  }

  // ----- sizes that rounding cannot reject -----

  /** The least execution price within the limit. */
  function LeastPrice(spot: int, limit: int): int { spot * (BPS - limit - 1) / BPS + 1 }

  /** The curve pays the least acceptable price at x even with one output unit less. */
  predicate Safe(c: Curve, least: int, x: int) {
    c.a * (least * x + SCALE - 1) <= x * c.g * (SCALE * c.b - (least * x + SCALE - 1))
  }

  lemma AcceptableIffLeastPrice(p: Pair, t: Token, limit: int, x: int)
    requires p.Live() && p.GetPriceImpactBps(x, t).Ok?
    ensures p.GetSpotPrice(t).Ok? && p.GetExecutionPrice(x, t).Ok?
    ensures Acceptable(p, t, limit, x) <==>
            p.GetExecutionPrice(x, t).value >= LeastPrice(p.GetSpotPrice(t).value, limit)
  {
    var spot, exec := p.GetSpotPrice(t).value, p.GetExecutionPrice(x, t).value;
    ImpactIsFloor(p, t, x);
    FloorAtLeast((spot - exec) * BPS, spot, limit + 1);
    FloorAtLeast(spot * (BPS - limit - 1), BPS, exec);
    assert (limit + 1) * spot == spot * BPS - spot * (BPS - limit - 1);
  }

  lemma SafePays(c: Curve, least: int, x: int, y: int)
    requires c.g >= 0 && c.a > 0 && x > 0 && Safe(c, least, x)
    requires SCALE * y <= least * x + SCALE - 1
    ensures c.a * y <= x * c.g * (c.b - y)
  {
    var w := least * x + SCALE - 1;
    MulMono(SCALE * y, w, c.a);
    MulMono(0, x, c.g);
    MulMono(SCALE * c.b - w, SCALE * c.b - SCALE * y, x * c.g) by { assert x * c.g >= 0; }
    assert (SCALE * y) * c.a == (c.a * y) * SCALE;
    assert (SCALE * c.b - SCALE * y) * (x * c.g) == (x * c.g * (c.b - y)) * SCALE;
    MulCancel(c.a * y, x * c.g * (c.b - y), SCALE);
  }

  lemma SafeIsAcceptable(p: Pair, t: Token, limit: int, x: int)
    requires p.Live() && p.GetPriceImpactBps(x, t).Ok?
    requires Safe(CurveOf(p, t), LeastPrice(p.GetSpotPrice(t).value, limit), x)
    ensures Acceptable(p, t, limit, x)
  {
    AcceptableIffLeastPrice(p, t, limit, x);
    var c, least := CurveOf(p, t), LeastPrice(p.GetSpotPrice(t).value, limit);
    ReachOnCurve(p, t, x);
    var o := Calc.Out(x, p.ReserveIn(t), p.ReserveOut(t), p.feeBps);
    var y := (least * x + SCALE - 1) / SCALE;
    FloorAtLeast(least * x + SCALE - 1, SCALE, y);
    FloorAtLeast(least * x + SCALE - 1, SCALE, y + 1);
    SafePays(c, least, x, y);
    Calc.AmountOutAtLeast(x, p.ReserveIn(t), p.ReserveOut(t), p.feeBps, y);
    assert p.ReserveIn(t) * y * BPS == c.a * y by { MulRot(p.ReserveIn(t), y, BPS); }
    MulMono(y, o, SCALE);
    FloorAtLeast(o * SCALE, x, least);
  }

  lemma SafeBetween(c: Curve, least: int, lo: int, hi: int, x: int)
    requires c.g >= 0 && least >= 0 && lo <= x <= hi && Safe(c, least, lo) && Safe(c, least, hi)
    ensures Safe(c, least, x)
  {
    SafeIsConcave(c, least, lo);
    SafeIsConcave(c, least, hi);
    SafeIsConcave(c, least, x);
    MulMono(0, least, c.g);
    ConcaveBetween(least * c.g, c.g * (SCALE * c.b - (SCALE - 1)) - c.a * least, c.a * (SCALE - 1), lo, hi, x);
  }

  lemma SafeIsConcave(c: Curve, least: int, x: int)
    ensures var k, m, n := least * c.g, c.g * (SCALE * c.b - (SCALE - 1)) - c.a * least, c.a * (SCALE - 1);
            Safe(c, least, x) <==> m * x - k * x * x >= n
  {
    var u, w := SCALE * c.b - (SCALE - 1), c.g * x;
    assert c.a * (least * x + SCALE - 1) == c.a * (least * x) + c.a * (SCALE - 1);
    assert c.a * (least * x) == c.a * least * x by { MulRot(c.a, least, x); }
    assert x * c.g == w;
    assert w * (u - least * x) == w * u - w * (least * x);
    assert w * u == c.g * u * x by { MulRot(c.g, x, u); }
    assert w * (least * x) == least * c.g * x * x by {
      MulRot(w, least, x);
      assert w * least == least * c.g * x by { MulRot(c.g, x, least); assert c.g * least == least * c.g; }
    }
    assert (c.g * u - c.a * least) * x == c.g * u * x - c.a * least * x;
  }

  // ----- small sizes: a whole number of units for each -----

  /** The least number of output units one input unit must buy. */
  function LeastUnits(least: int): int { (least + SCALE - 1) / SCALE }

  lemma LeastUnitsCover(least: int)
    ensures SCALE * (LeastUnits(least) - 1) < least <= SCALE * LeastUnits(least)
  {
    FloorAtLeast(least + SCALE - 1, SCALE, LeastUnits(least));
    FloorAtLeast(least + SCALE - 1, SCALE, LeastUnits(least) + 1);
  }

  /** The curve pays at least k output units for each of x input units. */
  predicate Whole(c: Curve, k: int, x: int) { k * (c.a + c.g * x) <= c.g * c.b }

  lemma WholeBuys(p: Pair, t: Token, k: int, x: int)
    requires p.Live() && x > 0
    ensures Calc.Tradable(x, p.ReserveIn(t), p.ReserveOut(t), p.feeBps)
    ensures k * x <= Calc.Out(x, p.ReserveIn(t), p.ReserveOut(t), p.feeBps) <==> Whole(CurveOf(p, t), k, x)
  {
    var a, b := p.ReserveIn(t), p.ReserveOut(t);
    Calc.AmountOutAtLeast(x, a, b, p.feeBps, k * x);
    assert a * (k * x) * BPS == (a * BPS) * (k * x) by { MulRot(a, k * x, BPS); }
    WholeForEach(a * BPS, BPS - p.feeBps, b, k, x);
  }

  lemma WholeForEach(a: int, g: int, b: int, k: int, x: int)
    requires x > 0
    ensures a * (k * x) <= x * g * (b - k * x) <==> k * (a + g * x) <= g * b
  {
    var each := g * (b - k * x);
    assert a * (k * x) == (k * a) * x by { MulRot(a, k, x); assert a * k == k * a; }
    assert x * g * (b - k * x) == each * x by { MulRot(x, g, b - k * x); }
    assert each == g * b - k * (g * x) by {
      MulRot(g, k, x);
      MulRot(k, g, x);
      assert g * k == k * g;
    }
    if k * a <= each { MulMono(k * a, each, x); }
    if (k * a) * x <= each * x { MulCancel(k * a, each, x); }
  }

  lemma WholeBelow(c: Curve, k: int, x: int, z: int)
    requires c.a > 0 && c.g >= 0 && c.b > 0 && 0 <= x <= z && Whole(c, k, z)
    ensures Whole(c, k, x)
  {
    MulMono(x, z, c.g);
    MulMono(0, x, c.g);
    assert x * c.g == c.g * x && z * c.g == c.g * z;
    if k >= 0 {
      MulMono(c.a + c.g * x, c.a + c.g * z, k);
    } else {
      MulMono(k, 0, c.a + c.g * x);
      MulMono(0, c.b, c.g);
    }
  }

  /** The output scaled to a price meets the least price exactly at an acceptable size. */
  lemma AcceptableIffOut(p: Pair, t: Token, limit: int, x: int)
    requires p.Live() && p.GetPriceImpactBps(x, t).Ok?
    ensures Calc.Tradable(x, p.ReserveIn(t), p.ReserveOut(t), p.feeBps)
    ensures p.GetSpotPrice(t).Ok?
    ensures Acceptable(p, t, limit, x) <==>
            LeastPrice(p.GetSpotPrice(t).value, limit) * x
            <= Calc.Out(x, p.ReserveIn(t), p.ReserveOut(t), p.feeBps) * SCALE
  {
    AcceptableIffLeastPrice(p, t, limit, x);
    ReachOnCurve(p, t, x);
    var o := Calc.Out(x, p.ReserveIn(t), p.ReserveOut(t), p.feeBps);
    FloorAtLeast(o * SCALE, x, LeastPrice(p.GetSpotPrice(t).value, limit));
  }

  /** A size is acceptable exactly when some whole number of output units lies between what the
      least price asks for it and what the curve pays for it. */
  lemma AcceptableIffInteger(p: Pair, t: Token, limit: int, x: int)
    requires p.Live() && p.GetPriceImpactBps(x, t).Ok?
    ensures p.GetSpotPrice(t).Ok?
    ensures var c, least := CurveOf(p, t), LeastPrice(p.GetSpotPrice(t).value, limit);
            Acceptable(p, t, limit, x) <==>
            exists y :: least * x <= y * SCALE && y * (c.a + c.g * x) <= x * c.g * c.b
  {
    AcceptableIffOut(p, t, limit, x);
    ReachOnCurve(p, t, x);
    var c, least := CurveOf(p, t), LeastPrice(p.GetSpotPrice(t).value, limit);
    var o := Calc.Out(x, p.ReserveIn(t), p.ReserveOut(t), p.feeBps);
    if y :| least * x <= y * SCALE && y * (c.a + c.g * x) <= x * c.g * c.b {
      PaidOnCurve(p, t, x, y);
      MulMono(y, o, SCALE);
    }
  }

  lemma PaidOnCurve(p: Pair, t: Token, x: int, y: int)
    requires p.Live() && x > 0
    requires var c := CurveOf(p, t); y * (c.a + c.g * x) <= x * c.g * c.b
    ensures Calc.Tradable(x, p.ReserveIn(t), p.ReserveOut(t), p.feeBps)
    ensures y <= Calc.Out(x, p.ReserveIn(t), p.ReserveOut(t), p.feeBps)
  {
    PaidAtReserves(p.ReserveIn(t), p.ReserveOut(t), p.feeBps, x, y);
    Calc.AmountOutAtLeast(x, p.ReserveIn(t), p.ReserveOut(t), p.feeBps, y);
  }

  lemma PaidAtReserves(a: int, b: int, fee: int, x: int, y: int)
    requires y * (a * BPS + (BPS - fee) * x) <= x * (BPS - fee) * b
    ensures a * y * BPS <= x * (BPS - fee) * (b - y)
  {
    OnCurve(Curve(a * BPS, b, BPS - fee), x, y);
    MulRot(a, y, BPS);
    MulRot(x, BPS - fee, b - y);
    assert a * BPS * y == y * (a * BPS);
  }

  /** The guard that answers 0, in closed form: one unit is acceptable exactly when the curve pays
      the least whole number of units for it. */
  lemma OneUnitIff(p: Pair, t: Token, limit: int)
    requires p.Live() && p.GetPriceImpactBps(1, t).Ok?
    ensures p.GetSpotPrice(t).Ok?
    ensures Acceptable(p, t, limit, 1) <==>
            Whole(CurveOf(p, t), LeastUnits(LeastPrice(p.GetSpotPrice(t).value, limit)), 1)
  {
    AcceptableIffOut(p, t, limit, 1);
    var least := LeastPrice(p.GetSpotPrice(t).value, limit);
    LeastUnitsCover(least);
    WholeBuys(p, t, LeastUnits(least), 1);
  }

  /** A size for each unit of which the curve pays that much is acceptable, and so is every smaller
      one. */
  lemma WholeIsAcceptable(p: Pair, t: Token, limit: int, from: int, x: int)
    requires p.Live() && p.GetPriceImpactBps(x, t).Ok? && 1 <= x <= from
    requires Whole(CurveOf(p, t), LeastUnits(LeastPrice(p.GetSpotPrice(t).value, limit)), from)
    ensures Acceptable(p, t, limit, x)
  {
    AcceptableIffOut(p, t, limit, x);
    var least := LeastPrice(p.GetSpotPrice(t).value, limit);
    var k, o := LeastUnits(least), Calc.Out(x, p.ReserveIn(t), p.ReserveOut(t), p.feeBps);
    LeastUnitsCover(least);
    WholeBelow(CurveOf(p, t), k, x, from);
    WholeBuys(p, t, k, x);
    MulMono(least, SCALE * k, x);
    assert SCALE * k * x == (k * x) * SCALE by { MulRot(SCALE, k, x); assert SCALE * (k * x) == (k * x) * SCALE; }
    MulMono(k * x, o, SCALE);
  }

  // ----- large sizes: the curve itself pays too little -----

  /** Even without floors the curve pays less than the least price at x. */
  predicate Dead(c: Curve, least: int, x: int) { SCALE * (c.g * c.b) < least * (c.a + c.g * x) }

  lemma DeadIsRejected(p: Pair, t: Token, limit: int, from: int, x: int)
    requires p.Live() && p.GetPriceImpactBps(x, t).Ok? && 1 <= from <= x
    requires Dead(CurveOf(p, t), LeastPrice(p.GetSpotPrice(t).value, limit), from)
    ensures Rejected(p, t, limit, x)
  {
    AcceptableIffOut(p, t, limit, x);
    ReachOnCurve(p, t, x);
    var c, least := CurveOf(p, t), LeastPrice(p.GetSpotPrice(t).value, limit);
    var o := Calc.Out(x, p.ReserveIn(t), p.ReserveOut(t), p.feeBps);
    DeadAbove(c, least, from, x);
    DeadPays(c, least, x, o);
  }

  lemma DeadAbove(c: Curve, least: int, x: int, z: int)
    requires c.a > 0 && c.g >= 0 && c.b > 0 && 0 <= x <= z && Dead(c, least, x)
    ensures Dead(c, least, z)
  {
    MulMono(0, c.b, c.g);
    MulMono(0, x, c.g);
    MulMono(x, z, c.g);
    assert x * c.g == c.g * x && z * c.g == c.g * z;
    if least < 0 { MulMono(least, 0, c.a + c.g * x); }
    MulMono(c.a + c.g * x, c.a + c.g * z, least);
    assert (c.a + c.g * x) * least == least * (c.a + c.g * x) && (c.a + c.g * z) * least == least * (c.a + c.g * z);
  }

  lemma DeadPays(c: Curve, least: int, x: int, o: int)
    requires c.a > 0 && c.g >= 0 && x > 0 && Dead(c, least, x)
    requires o * (c.a + c.g * x) <= x * c.g * c.b
    ensures o * SCALE < least * x
  {
    var d, q := c.a + c.g * x, c.g * c.b;
    MulMono(0, x, c.g);
    assert x * c.g == c.g * x;
    MulMono(o * d, x * q, SCALE) by { MulRot(x, c.g, c.b); }
    assert (o * SCALE) * d == (o * d) * SCALE by { MulRot(o, SCALE, d); }
    assert (least * x) * d == (least * d) * x by { MulRot(least, x, d); }
    assert (x * q) * SCALE == (SCALE * q) * x by {
      MulRot(x, q, SCALE);
      MulRot(SCALE, x, q);
      assert x * SCALE == SCALE * x;
    }
    MulMono(SCALE * q + 1, least * d, x);
    assert (SCALE * q + 1) * x == (SCALE * q) * x + x;
    if least * x <= o * SCALE { MulMono(least * x, o * SCALE, d); }
  }

  /** Between the safe sizes and the dead ones the curve meets the least price by less than one
      output unit is worth at that size. */
  lemma BetweenSafeAndDead(c: Curve, least: int, x: int)
    requires x > 0
    ensures var slack := SCALE * (c.g * c.b) - least * (c.a + c.g * x);
            !Safe(c, least, x) && !Dead(c, least, x) <==> 0 <= slack && x * slack < (SCALE - 1) * (c.a + c.g * x)
  {
    var d, q, w := c.a + c.g * x, c.g * c.b, least * x + SCALE - 1;
    assert x * (SCALE * q) == SCALE * (x * c.g * c.b) by {
      MulRot(x, c.g, c.b);
      MulRot(x, SCALE, q);
      MulRot(SCALE, x, q);
      assert x * SCALE == SCALE * x;
    }
    assert x * c.g * (SCALE * c.b - w) == SCALE * (x * c.g * c.b) - x * c.g * w by {
      MulRot(x * c.g, SCALE, c.b);
      assert x * c.g * (SCALE * c.b) == (x * c.g * c.b) * SCALE by {
        MulRot(x * c.g, c.b, SCALE);
        assert SCALE * c.b == c.b * SCALE;
      }
    }
    assert c.a * w + x * c.g * w == d * w by { assert c.g * x == x * c.g; }
    assert d * w == x * (least * d) + (SCALE - 1) * d by {
      assert d * (least * x) == x * (least * d) by {
        MulRot(d, least, x);
        MulRot(x, least, d);
        MulRot(d, x, least);
        assert x * d == d * x;
      }
    }
    assert x * (SCALE * q - least * d) == x * (SCALE * q) - x * (least * d);
  }

  // ----- the promise -----

  /** The result is the largest acceptable size of the pool. */
  ghost predicate IsLargest(p: Pair, t: Token, limit: int) {
    && MaxSize(p, t, limit).Ok?
    && forall z :: MaxSize(p, t, limit).value < z <= p.ReserveIn(t) ==> !Acceptable(p, t, limit, z)
  }

  /** The letter of the documentation, which allows 0 when even one unit is over the limit: weaker
      than `IsLargest` there, where larger sizes may well be acceptable. */
  ghost predicate AsDocumented(p: Pair, t: Token, limit: int) {
    if Rejected(p, t, limit, 1) then MaxSize(p, t, limit) == Ok(0) else IsLargest(p, t, limit)
  }

  /** In the fine part of the pool, a rejected size rejects every larger one. */
  lemma StaysRejected(p: Pair, t: Token, limit: int, from: int, to: int, x: int, z: int)
    requires p.Live() && p.GetPriceImpactBps(1, t).Ok? && 1 <= from <= x <= to && x <= z <= p.ReserveIn(t)
    requires to <= p.ReserveIn(t) && Fine(CurveOf(p, t), from) && Fine(CurveOf(p, t), to)
    requires !Acceptable(p, t, limit, x)
    ensures Rejected(p, t, limit, z)
  {
    OneUnitDefinesAll(p, t, x);
    OneUnitDefinesAll(p, t, z);
    FineBetween(CurveOf(p, t), from, to, x);
    FineImpactIsLeast(p, t, x, z);
  }

  /** When `from` and the whole reserve are fine, only sizes up to `from` can mislead the search:
      what lies above never breaks the promise. */
  lemma LargestIffUpTo(p: Pair, t: Token, limit: int, from: int)
    requires p.Live() && p.GetPriceImpactBps(1, t).Ok? && 1 <= from <= p.ReserveIn(t)
    requires Fine(CurveOf(p, t), from) && Fine(CurveOf(p, t), p.ReserveIn(t))
    ensures MaxSize(p, t, limit).Ok?
    ensures IsLargest(p, t, limit) <==>
            forall z :: MaxSize(p, t, limit).value < z <= from ==> !Acceptable(p, t, limit, z)
  {
    MaxSizeIsBoundary(p, t, limit);
    var r, top := MaxSize(p, t, limit).value, p.ReserveIn(t);
    if forall z :: r < z <= from ==> !Acceptable(p, t, limit, z) {
      forall z | r < z <= top
        ensures !Acceptable(p, t, limit, z)
      {
        if z > from {
          StaysRejected(p, t, limit, from, top, if from > r then from else r + 1, z);
        }
      }
    }
  }

  /** When one unit and the whole reserve are fine, the search keeps its promise for every limit. */
  lemma FinePoolIsExact(p: Pair, t: Token, limit: int)
    requires p.Live() && p.GetPriceImpactBps(1, t).Ok?
    requires Fine(CurveOf(p, t), 1) && Fine(CurveOf(p, t), p.ReserveIn(t))
    ensures IsLargest(p, t, limit)
  {
    LargestIffUpTo(p, t, limit, 1);
    MaxSizeIsBoundary(p, t, limit);
  }

  /** Sizes from `s` to `from`, if any, are safe, and below `s` the curve pays whole units. */
  predicate Covered(c: Curve, least: int, s: int, from: int) {
    && 1 <= from && 1 <= s <= from + 1
    && (s <= from ==> Safe(c, least, s) && Safe(c, least, from))
    && (s > 1 ==> Whole(c, LeastUnits(least), s - 1))
  }

  lemma SafeRange(p: Pair, t: Token, limit: int, s: int, from: int, x: int)
    requires p.Live() && p.GetPriceImpactBps(1, t).Ok? && 1 <= s <= x <= from <= p.ReserveIn(t)
    requires var least := LeastPrice(p.GetSpotPrice(t).value, limit);
             Safe(CurveOf(p, t), least, s) && Safe(CurveOf(p, t), least, from)
    ensures Acceptable(p, t, limit, x)
  {
    OneUnitDefinesAll(p, t, x);
    var least := LeastPrice(p.GetSpotPrice(t).value, limit);
    if least >= 0 {
      SafeBetween(CurveOf(p, t), least, s, from, x);
      SafeIsAcceptable(p, t, limit, x);
    } else {
      AcceptableIffLeastPrice(p, t, limit, x);
      ImpactIsFloor(p, t, x);
    }
  }

  lemma CoveredIsAcceptable(p: Pair, t: Token, limit: int, s: int, from: int, x: int)
    requires p.Live() && p.GetPriceImpactBps(1, t).Ok? && 1 <= x <= from <= p.ReserveIn(t)
    requires Covered(CurveOf(p, t), LeastPrice(p.GetSpotPrice(t).value, limit), s, from)
    ensures Acceptable(p, t, limit, x)
  {
    OneUnitDefinesAll(p, t, x);
    if x < s {
      WholeIsAcceptable(p, t, limit, s - 1, x);
    } else {
      SafeRange(p, t, limit, s, from, x);
    }
  }

  /** Every size from `dead` on is out of the pool or dead. */
  predicate Closed(c: Curve, least: int, top: int, dead: int) {
    dead == top + 1 || (dead <= top && Dead(c, least, dead))
  }

  lemma ClosedIsRejected(p: Pair, t: Token, limit: int, dead: int, x: int)
    requires p.Live() && p.GetPriceImpactBps(1, t).Ok? && 1 <= dead <= x <= p.ReserveIn(t)
    requires Closed(CurveOf(p, t), LeastPrice(p.GetSpotPrice(t).value, limit), p.ReserveIn(t), dead)
    ensures Rejected(p, t, limit, x)
  {
    OneUnitDefinesAll(p, t, x);
    DeadIsRejected(p, t, limit, dead, x);
  }

  /** Where one unit pays and the sizes up to `from` are covered, the result and the largest
      acceptable size both lie from `from` to below `dead`: the search misses by less than
      `dead - from`. No size need be fine. */
  lemma MissIsBounded(p: Pair, t: Token, limit: int, s: int, from: int, dead: int)
    requires p.Live() && p.GetPriceImpactBps(1, t).Ok? && from <= p.ReserveIn(t) && from < dead
    requires var least := LeastPrice(p.GetSpotPrice(t).value, limit);
             Covered(CurveOf(p, t), least, s, from) && Closed(CurveOf(p, t), least, p.ReserveIn(t), dead)
    ensures MaxSize(p, t, limit).Ok? && from <= MaxSize(p, t, limit).value < dead
    ensures Acceptable(p, t, limit, from)
    ensures forall z :: dead <= z <= p.ReserveIn(t) ==> Rejected(p, t, limit, z)
  {
    MaxSizeIsBoundary(p, t, limit);
    CoveredIsAcceptable(p, t, limit, s, from, 1);
    CoveredIsAcceptable(p, t, limit, s, from, from);
    var r := MaxSize(p, t, limit).value;
    if r < from { CoveredIsAcceptable(p, t, limit, s, from, r + 1); }
    if r >= dead { ClosedIsRejected(p, t, limit, dead, r); }
    forall z | dead <= z <= p.ReserveIn(t)
      ensures Rejected(p, t, limit, z)
    {
      ClosedIsRejected(p, t, limit, dead, z);
    }
  }

  /** And when there are no sizes between, or they are fine at both ends, it does not miss. */
  lemma CoveredIsLargest(p: Pair, t: Token, limit: int, s: int, from: int, dead: int)
    requires p.Live() && p.GetPriceImpactBps(1, t).Ok? && from <= p.ReserveIn(t) && from < dead
    requires var (c, least) := (CurveOf(p, t), LeastPrice(p.GetSpotPrice(t).value, limit));
             && Covered(c, least, s, from) && Closed(c, least, p.ReserveIn(t), dead)
             && (dead > from + 1 ==> Fine(c, from) && Fine(c, dead - 1))
    ensures IsLargest(p, t, limit)
  {
    MissIsBounded(p, t, limit, s, from, dead);
    LargestFrom(p, t, limit, from, dead);
  }

  lemma LargestFrom(p: Pair, t: Token, limit: int, from: int, dead: int)
    requires p.Live() && p.GetPriceImpactBps(1, t).Ok? && 1 <= from < dead <= p.ReserveIn(t) + 1
    requires MaxSize(p, t, limit).Ok? && from <= MaxSize(p, t, limit).value < dead
    requires forall z :: dead <= z <= p.ReserveIn(t) ==> Rejected(p, t, limit, z)
    requires dead > from + 1 ==> Fine(CurveOf(p, t), from) && Fine(CurveOf(p, t), dead - 1)
    ensures IsLargest(p, t, limit)
  {
    if MaxSize(p, t, limit).value + 1 < dead {
      NextIsRejected(p, t, limit);
      FineGap(p, t, limit, from, dead - 1, MaxSize(p, t, limit).value + 1);
    }
    forall z | MaxSize(p, t, limit).value < z <= p.ReserveIn(t)
      ensures !Acceptable(p, t, limit, z)
    {
      assert z < dead || Rejected(p, t, limit, z);
    }
  }

  lemma FineGap(p: Pair, t: Token, limit: int, from: int, to: int, x: int)
    requires p.Live() && p.GetPriceImpactBps(1, t).Ok? && 1 <= from <= x <= to <= p.ReserveIn(t)
    requires Fine(CurveOf(p, t), from) && Fine(CurveOf(p, t), to) && !Acceptable(p, t, limit, x)
    ensures forall z :: x <= z <= to ==> !Acceptable(p, t, limit, z)
  {
    forall z | x <= z <= to
      ensures !Acceptable(p, t, limit, z)
    {
      StaysRejected(p, t, limit, from, to, x, z);
    }
  }

  lemma NextIsRejected(p: Pair, t: Token, limit: int)
    requires p.Live() && MaxSize(p, t, limit).Ok? && MaxSize(p, t, limit).value < p.ReserveIn(t)
    ensures Rejected(p, t, limit, MaxSize(p, t, limit).value + 1)
  {
    MaxSizeIsBoundary(p, t, limit);
  }

  /** Where one unit does not pay, the search answers 0, and that is wrong by as much as any safe
      size is large. */
  lemma RejectedUnitMisses(p: Pair, t: Token, limit: int, s: int)
    requires p.Live() && p.GetPriceImpactBps(1, t).Ok? && 1 <= s <= p.ReserveIn(t)
    requires var least := LeastPrice(p.GetSpotPrice(t).value, limit);
             !Whole(CurveOf(p, t), LeastUnits(least), 1) && Safe(CurveOf(p, t), least, s)
    ensures MaxSize(p, t, limit) == Ok(0) && Acceptable(p, t, limit, s)
    ensures !IsLargest(p, t, limit) && AsDocumented(p, t, limit)
  {
    MaxSizeIsBoundary(p, t, limit);
    OneUnitIff(p, t, limit);
    SafeRange(p, t, limit, s, s, s);
  }

  /** Where the curve does not pay even for one unit, 0 is right. */
  lemma DeadUnitIsExact(p: Pair, t: Token, limit: int)
    requires p.Live() && p.GetPriceImpactBps(1, t).Ok?
    requires Dead(CurveOf(p, t), LeastPrice(p.GetSpotPrice(t).value, limit), 1)
    ensures MaxSize(p, t, limit) == Ok(0) && IsLargest(p, t, limit)
  {
    MaxSizeIsBoundary(p, t, limit);
    assert 1 <= p.ReserveIn(t);
    ClosedIsRejected(p, t, limit, 1, 1);
    assert MaxSize(p, t, limit) == Ok(0);
    forall z | 1 <= z <= p.ReserveIn(t)
      ensures !Acceptable(p, t, limit, z)
    {
      ClosedIsRejected(p, t, limit, 1, z);
    }
  }

  /** The two sides together. Let the sizes from `s` to `from` be safe, and let those from `from` to
      below `dead` be none, or fine at both ends. Then the result is the largest acceptable size
      exactly when the curve pays the least whole number of units for one unit; it is as documented
      in either case. The one case left out is a curve that pays them for one unit and no longer
      for s - 1. */
  lemma LargestIffUnitPays(p: Pair, t: Token, limit: int, s: int, from: int, dead: int)
    requires p.Live() && p.GetPriceImpactBps(1, t).Ok? && 1 <= s <= from <= p.ReserveIn(t) && from < dead
    requires var (c, least) := (CurveOf(p, t), LeastPrice(p.GetSpotPrice(t).value, limit));
             && Safe(c, least, s) && Safe(c, least, from) && Closed(c, least, p.ReserveIn(t), dead)
             && (dead > from + 1 ==> Fine(c, from) && Fine(c, dead - 1))
             && (Whole(c, LeastUnits(least), 1) && s > 1 ==> Whole(c, LeastUnits(least), s - 1))
    ensures IsLargest(p, t, limit) <==>
            Whole(CurveOf(p, t), LeastUnits(LeastPrice(p.GetSpotPrice(t).value, limit)), 1)
    ensures AsDocumented(p, t, limit)
  {
    OneUnitIff(p, t, limit);
    if Whole(CurveOf(p, t), LeastUnits(LeastPrice(p.GetSpotPrice(t).value, limit)), 1) {
      CoveredIsAcceptable(p, t, limit, s, from, 1);
      CoveredIsLargest(p, t, limit, s, from, dead);
    } else {
      RejectedUnitMisses(p, t, limit, s);
    }
  }

  /** The case of it in which one unit is safe and everything from some size on is fine. */
  lemma LargestWhenFineOrSafe(p: Pair, t: Token, limit: int, from: int)
    requires p.Live() && p.GetPriceImpactBps(1, t).Ok? && 1 <= from <= p.ReserveIn(t)
    requires Fine(CurveOf(p, t), from) && Fine(CurveOf(p, t), p.ReserveIn(t))
    requires var least := LeastPrice(p.GetSpotPrice(t).value, limit);
             Safe(CurveOf(p, t), least, 1) && Safe(CurveOf(p, t), least, from)
    ensures IsLargest(p, t, limit) && MaxSize(p, t, limit).value >= from
  {
    SafeRange(p, t, limit, 1, from, 1);
    OneUnitIff(p, t, limit);
    MissIsBounded(p, t, limit, 1, from, p.ReserveIn(t) + 1);
    LargestIffUnitPays(p, t, limit, 1, from, p.ReserveIn(t) + 1);
  }

  // ----- pools -----

  /** An ordinary pool on which the search is exact: 1000 of 18 decimals against 2000000 of 18
      decimals at a fee of 30 bps and a limit of 100 bps. */
  lemma OrdinaryPoolIsExact()
    ensures var a, b := Token("a", "A", 18), Token("b", "B", 18);
            var p := Pair("p", a, b, 1_000 * SCALE, 2_000_000 * SCALE, 30);
            p.Live() && IsLargest(p, a, 100)
  {
    var a, b := Token("a", "A", 18), Token("b", "B", 18);
    var p := Pair("p", a, b, 1_000 * SCALE, 2_000_000 * SCALE, 30);
    assert p.GetPriceImpactBps(1, a).Ok?;
    LargestWhenFineOrSafe(p, a, 100, SCALE);
  }

  /** An ordinary pool on which it is not: 1000000 against 10000000 at the same fee and limit. One
      unit buys 9 where more than 9.8 is needed, so the answer is 0, although 5000 whole tokens are
      within the limit. */
  lemma OrdinaryPoolIsMissed()
    ensures var a, b := Token("a", "A", 18), Token("b", "B", 18);
            var p := Pair("p", a, b, 1_000_000 * SCALE, 10_000_000 * SCALE, 30);
            && p.Live() && MaxSize(p, a, 100) == Ok(0)
            && Acceptable(p, a, 100, 5_000 * SCALE) && !IsLargest(p, a, 100)
  {
    var a, b := Token("a", "A", 18), Token("b", "B", 18);
    var p := Pair("p", a, b, 1_000_000 * SCALE, 10_000_000 * SCALE, 30);
    assert p.GetPriceImpactBps(1, a).Ok?;
    assert p.GetSpotPrice(a) == Ok(10 * SCALE);
    MissedCurve();
    RejectedUnitMisses(p, a, 100, 5_000 * SCALE);
  }

  lemma MissedCurve()
    ensures var c, least := Curve(1_000_000 * SCALE * BPS, 10_000_000 * SCALE, 9_970), LeastPrice(10 * SCALE, 100);
            !Whole(c, LeastUnits(least), 1) && Safe(c, least, 5_000 * SCALE)
  {
  }

  /** And one with a reserve too small for any fine size, on which the search misses by less than
      3 of 5 * 10^20 units: 1000 against 3000 at a limit of 3500 bps. */
  lemma ShallowPoolMissesLittle()
    ensures var a, b := Token("a", "A", 18), Token("b", "B", 18);
            var p := Pair("p", a, b, 1_000 * SCALE, 3_000 * SCALE, 30);
            var from := 535_689_234_189_721_031_825;
            && p.Live() && MaxSize(p, a, 3500).Ok? && from <= MaxSize(p, a, 3500).value < from + 3
            && forall z :: from + 3 <= z <= p.ReserveIn(a) ==> Rejected(p, a, 3500, z)
  {
    var a, b := Token("a", "A", 18), Token("b", "B", 18);
    var p := Pair("p", a, b, 1_000 * SCALE, 3_000 * SCALE, 30);
    var from := 535_689_234_189_721_031_825;
    assert p.GetPriceImpactBps(1, a).Ok?;
    assert p.GetSpotPrice(a) == Ok(3 * SCALE);
    ShallowCurve();
    MissIsBounded(p, a, 3500, 1, from, from + 3);
  }

  lemma ShallowCurve()
    ensures var c, least := Curve(1_000 * SCALE * BPS, 3_000 * SCALE, 9_970), LeastPrice(3 * SCALE, 3500);
            var from := 535_689_234_189_721_031_825;
            Covered(c, least, 1, from) && Dead(c, least, from + 3)
  {
  }

  /** The documentation promises the largest acceptable size. Rounding breaks that: here the
      search answers 1 although 3, the whole reserve, is acceptable. The size that misled it, 2, is
      not fine. */
  lemma LargestSizeCanBeMissed()
    ensures var a, b := Token("a", "A", 0), Token("b", "B", 0);
            var p := Pair("p", a, b, 3, 4, 0);
            && p.Live() && MaxSize(p, a, 5000) == Ok(1)
            && Acceptable(p, a, 5000, 3) && p.ReserveIn(a) == 3
            && Rejected(p, a, 5000, 2) && !Fine(CurveOf(p, a), 2)
  {
    var a, b := Token("a", "A", 0), Token("b", "B", 0);
    var p := Pair("p", a, b, 3, 4, 0);
    assert p.GetPriceImpactBps(1, a) == Ok(2499);
    assert p.GetPriceImpactBps(2, a) == Ok(6249);
    assert p.GetPriceImpactBps(3, a) == Ok(5000);
    var impact := Impact(p, a);
    assert impact(2) == Ok(6249);
    assert Search(impact, 5000, 1, 1) == Ok(1);
    assert Search(impact, 5000, 1, 3) == Ok(1);
  }

  /** The conditions are not necessary: no size of this pool is fine, and yet its prices never rise
      and the search is exact for every limit. Whether the floor at a size that is not fine does
      harm is a matter of the remainder of one division. */
  lemma FineIsNotNecessary(limit: int)
    ensures var a, b := Token("a", "A", 0), Token("b", "B", 0);
            var p := Pair("p", a, b, 3, 11, 0);
            p.Live() && (forall x :: 1 <= x <= 3 ==> !Fine(CurveOf(p, a), x)) && IsLargest(p, a, limit)
  {
    var a, b := Token("a", "A", 0), Token("b", "B", 0);
    var p := Pair("p", a, b, 3, 11, 0);
    assert p.GetPriceImpactBps(1, a) == Ok(4545);
    assert p.GetPriceImpactBps(2, a) == Ok(4545);
    assert p.GetPriceImpactBps(3, a) == Ok(5454);
    RisingIsLargest(p, a, limit);
  }

  /** A pool of three input units whose impacts rise. */
  lemma RisingIsLargest(p: Pair, t: Token, limit: int)
    requires p.Live() && p.ReserveIn(t) == 3
    requires p.GetPriceImpactBps(1, t).Ok? && p.GetPriceImpactBps(2, t).Ok? && p.GetPriceImpactBps(3, t).Ok?
    requires p.GetPriceImpactBps(1, t).value <= p.GetPriceImpactBps(2, t).value <= p.GetPriceImpactBps(3, t).value
    ensures IsLargest(p, t, limit)
  {
    MaxSizeIsBoundary(p, t, limit);
    forall z | MaxSize(p, t, limit).value < z <= 3
      ensures !Acceptable(p, t, limit, z)
    {
      var next := MaxSize(p, t, limit).value + 1;
      assert Rejected(p, t, limit, next);
      assert next in {1, 2, 3} && z in {1, 2, 3};
    }
  }
}
