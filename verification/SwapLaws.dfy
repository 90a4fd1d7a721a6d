/** What the swap arithmetic promises: the fee-adjusted invariant, the duality of the two
    quotes, monotonicity, and that splitting an order never pays. */
module SwapLaws {
  import opened JsMath
  import opened Core
  import opened UniswapV2Calculator

  /** The output is the largest one that passes the pair contract's own check
      (Uniswap v2 Core, section 3.2.1): the fee-adjusted product may not fall. */
  lemma OutputIsLargestKeepingProduct(x: int, a: int, b: int, fee: int, y: int)
    requires Tradable(x, a, b, fee)
    ensures y <= Out(x, a, b, fee) <==> (a * BPS + x * (BPS - fee)) * (b - y) >= a * b * BPS
  {
    AmountOutAtLeast(x, a, b, fee, y);
    var w := x * (BPS - fee);
    assert (a * BPS + w) * (b - y) == a * b * BPS - a * y * BPS + w * (b - y);
  }

  /** Hence the plain product of the reserves never falls either. */
  lemma SwapKeepsProduct(x: int, a: int, b: int, fee: int)
    requires Tradable(x, a, b, fee)
    ensures (a + x) * (b - Out(x, a, b, fee)) >= a * b
  {
    var y := Out(x, a, b, fee);
    OutputIsLargestKeepingProduct(x, a, b, fee, y);
    AmountOutRange(x, a, b, fee);
    var w := x * (BPS - fee);
    assert w <= x * BPS by { assert x * (BPS - fee) == x * BPS - x * fee; MulMono(0, fee, x); }
    MulMono(a * BPS + w, (a + x) * BPS, b - y);
    assert ((a + x) * BPS) * (b - y) == ((a + x) * (b - y)) * BPS by { MulRot(a + x, BPS, b - y); }
    MulCancel(a * b, (a + x) * (b - y), BPS);
  }

  /** More in, at least as much out. */
  lemma OutputMonotone(x: int, x': int, a: int, b: int, fee: int)
    requires Tradable(x, a, b, fee) && x <= x'
    ensures Tradable(x', a, b, fee)
    ensures Out(x, a, b, fee) <= Out(x', a, b, fee)
  {
    var y := Out(x, a, b, fee);
    AmountOutRange(x, a, b, fee);
    AmountOutAtLeast(x, a, b, fee, y);
    AmountOutAtLeast(x', a, b, fee, y);
    MulMono(x, x', BPS - fee);
    MulMono(x * (BPS - fee), x' * (BPS - fee), b - y);
  }

  /** No swap beats the spot price. */
  lemma OutputAtMostSpot(x: int, a: int, b: int, fee: int)
    requires Tradable(x, a, b, fee)
    ensures a * Out(x, a, b, fee) <= x * b
  {
    var y := Out(x, a, b, fee);
    AmountOutAtLeast(x, a, b, fee, y);
    AmountOutRange(x, a, b, fee);
    MulMono(BPS - fee, BPS, x);
    MulMono(x * (BPS - fee), x * BPS, b - y);
    assert x * BPS * (b - y) == (x * (b - y)) * BPS by { MulRot(x, BPS, b - y); }
    MulCancel(a * y, x * (b - y), BPS);
    MulMono(0, y, x);
    assert x * (b - y) == x * b - x * y;
  }

  // ----- getAmountIn against getAmountOut -----

  /** A quote `GetAmountIn` answers without throwing. */
  predicate Askable(y: int, a: int, b: int, fee: int) {
    0 < y < b && a > 0 && 0 <= fee < BPS
  }

  /** Exactly which inputs buy `y`: those that reach the required quotient, rounded up. */
  lemma InputsThatBuy(y: int, a: int, b: int, fee: int, x: int)
    requires Askable(y, a, b, fee) && x > 0
    ensures y <= Out(x, a, b, fee) <==> a * y * BPS <= x * ((b - y) * (BPS - fee))
  {
    AmountOutAtLeast(x, a, b, fee, y);
    assert x * (BPS - fee) * (b - y) == x * ((b - y) * (BPS - fee)) by {
      MulRot(x, BPS - fee, b - y);
      MulRot(x, b - y, BPS - fee);
    }
  }

  lemma AmountInQuotient(y: int, a: int, b: int, fee: int)
    requires Askable(y, a, b, fee)
    ensures a * y * BPS > 0 && (b - y) * (BPS - fee) > 0
    ensures GetAmountIn(y, a, b, fee) == Ok((a * y * BPS) / ((b - y) * (BPS - fee)) + 1)
  {
    MulMono(1, y, a);
    MulMono(1, BPS - fee, b - y);
  }

  lemma QuotientReached(n: int, d: int, x: int)
    requires d > 0 && n > 0
    ensures n <= x * d <==> x > n / d || (x == n / d && n % d == 0)
    ensures n / d >= 0 && (n % d == 0 ==> n / d > 0)
  {
    var q := n / d;
    assert n == q * d + n % d;
    FloorAtLeast(n, d, 0);
    if x > q {
      MulMono(q + 1, x, d);
      assert (q + 1) * d == q * d + d;
    } else if x < q {
      MulMono(x + 1, q, d);
      assert (x + 1) * d == x * d + d;
    }
  }

  /** `GetAmountIn` always suffices, is at most one unit above the least sufficient input,
      and is exactly one above it when the division it makes leaves no remainder. */
  lemma AmountInIsNearlyLeast(y: int, a: int, b: int, fee: int, x: int)
    requires Askable(y, a, b, fee) && x > 0
    ensures GetAmountIn(y, a, b, fee).Ok? && GetAmountIn(y, a, b, fee).value >= 1
    ensures var r := GetAmountIn(y, a, b, fee).value;
            y <= Out(x, a, b, fee)
            <==> x >= r || (x == r - 1 && (a * y * BPS) % ((b - y) * (BPS - fee)) == 0)
  {
    AmountInQuotient(y, a, b, fee);
    QuotientReached(a * y * BPS, (b - y) * (BPS - fee), x);
    InputsThatBuy(y, a, b, fee, x);
  }

  /** So what `GetAmountIn` asks for does buy `y`, and asking costs one unit too much exactly
      when the division is exact. */
  lemma AmountInSuffices(y: int, a: int, b: int, fee: int)
    requires Askable(y, a, b, fee)
    ensures GetAmountIn(y, a, b, fee).Ok? && GetAmountIn(y, a, b, fee).value >= 1
    ensures var r := GetAmountIn(y, a, b, fee).value;
            && y <= Out(r, a, b, fee)
            && ((r > 1 && y <= Out(r - 1, a, b, fee)) <==> (a * y * BPS) % ((b - y) * (BPS - fee)) == 0)
  {
    AmountInQuotient(y, a, b, fee);
    QuotientReached(a * y * BPS, (b - y) * (BPS - fee), 1);
    var r := GetAmountIn(y, a, b, fee).value;
    AmountInIsNearlyLeast(y, a, b, fee, r);
    if r > 1 { AmountInIsNearlyLeast(y, a, b, fee, r - 1); }
  }

  /** With a fee of 100% nothing buys anything, and `GetAmountIn` divides by zero. */
  lemma FullFeeHasNoInput(y: int, a: int, b: int)
    requires 0 < y < b && a > 0
    ensures GetAmountIn(y, a, b, BPS) == Err(RangeError)
    ensures forall x :: x > 0 ==> Out(x, a, b, BPS) < y
  {
    assert (b - y) * 0 == 0;
    forall x | x > 0
      ensures Out(x, a, b, BPS) < y
    {
      AmountOutAtLeast(x, a, b, BPS, y);
      assert x * 0 * (b - y) == 0;
      MulMono(1, y, a);
    }
  }

  // ----- splitting an order -----

  /** Two swaps in a row pay no more than one swap of both inputs. */
  lemma TwoSwapsNeverBeatOne(x: int, x': int, a: int, b: int, fee: int)
    requires Tradable(x, a, b, fee) && x' > 0
    ensures Tradable(x', a + x, b - Out(x, a, b, fee), fee)
    ensures var y := Out(x, a, b, fee);
            y + Out(x', a + x, b - y, fee) <= Out(x + x', a, b, fee)
  {
    AmountOutRange(x, a, b, fee);
    var y := Out(x, a, b, fee);
    AmountOutRange(x', a + x, b - y, fee);
    var z := Out(x', a + x, b - y, fee);
    AmountOutAtLeast(x, a, b, fee, y);
    AmountOutAtLeast(x', a + x, b - y, fee, z);
    var g := BPS - fee;
    SplitAlgebra(x, x', a, b, g, y, z);
    AmountOutAtLeast(x + x', a, b, fee, y + z);
  }

  lemma SplitAlgebra(x: int, x': int, a: int, b: int, g: int, y: int, z: int)
    requires x > 0 && z >= 0 && g <= BPS
    requires a * y * BPS <= x * g * (b - y)
    requires (a + x) * z * BPS <= x' * g * (b - y - z)
    ensures a * (y + z) * BPS <= (x + x') * g * (b - (y + z))
  {
    assert (a + x) * z * BPS == a * z * BPS + x * z * BPS;
    assert x * g * (b - y - z) == x * g * (b - y) - x * g * z;
    assert (x + x') * g * (b - y - z) == x * g * (b - y - z) + x' * g * (b - y - z);
    assert x * z * g <= x * z * BPS by { MulMono(0, z, x); MulMono(g, BPS, x * z); }
    assert x * g * z == x * z * g by { MulRot(x, g, z); }
    assert a * (y + z) * BPS == a * y * BPS + a * z * BPS;
  }
}
