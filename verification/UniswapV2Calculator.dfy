/** Pure Uniswap v2 arithmetic on bigints: constant product with a fee in basis points. */
module UniswapV2Calculator {
  import opened JsMath
  import opened Core

  /** The scale of pool prices, which is not that of the rest of the program. */
  const PRICE_SCALE: int := 1_000_000_000_000_000_000

  function GetAmountOut(amountIn: int, reserveIn: int, reserveOut: int, feeBps: int): Result<int> {
    if amountIn <= 0 then Err(InsufficientLiquidity)
    else if reserveIn <= 0 || reserveOut <= 0 then Err(InsufficientLiquidity)
    else
      var amountInWithFee := amountIn * (BPS - feeBps);
      var numerator := amountInWithFee * reserveOut;
      var denominator := reserveIn * BPS + amountInWithFee;
      JsDiv(numerator, denominator)
  }

  function GetAmountIn(amountOut: int, reserveIn: int, reserveOut: int, feeBps: int): Result<int> {
    if amountOut <= 0 then Err(InsufficientLiquidity)
    else if reserveIn <= 0 || reserveOut <= 0 then Err(InsufficientLiquidity)
    else if amountOut >= reserveOut then Err(InsufficientLiquidity)
    else
      var numerator := reserveIn * amountOut * BPS;
      var denominator := (reserveOut - amountOut) * (BPS - feeBps);
      var q :- JsDiv(numerator, denominator);
      Ok(q + 1)
  }

  function GetSpotPrice(reserveIn: int, reserveOut: int): Result<int> {
    if reserveIn <= 0 || reserveOut <= 0 then Err(InsufficientLiquidity)
    else JsDiv(reserveOut * PRICE_SCALE, reserveIn)
  }

  function GetExecutionPrice(amountIn: int, amountOut: int): Result<int> {
    if amountIn <= 0 || amountOut <= 0 then Err(InsufficientLiquidity)
    else JsDiv(amountOut * PRICE_SCALE, amountIn)
  }

  function GetPriceImpactBps(spotPrice: int, executionPrice: int): Result<int> {
    if spotPrice <= 0 || executionPrice <= 0 then Err(InsufficientLiquidity)
    else JsDiv((spotPrice - executionPrice) * BPS, spotPrice)
  }

  /** The new reserves after a swap; the inputs are not validated. */
  function ApplySwap(amountIn: int, amountOut: int, reserveIn: int, reserveOut: int): (int, int) {
    (reserveIn + amountIn, reserveOut - amountOut)
  }

  /** A swap the contract itself would accept: positive amounts and a fee between 0 and 100%. */
  predicate Tradable(x: int, a: int, b: int, fee: int) {
    x > 0 && a > 0 && b > 0 && 0 <= fee <= BPS
  }

  /** The output of a swap that does not throw. */
  function Out(x: int, a: int, b: int, fee: int): int
    requires Tradable(x, a, b, fee)
  {
    assert a * BPS + x * (BPS - fee) > 0 by { MulMono(0, x, BPS - fee); }
    GetAmountOut(x, a, b, fee).value
  }

  /** What is refused: amounts, reserves and prices that are not positive, outputs not below the reserve;
      and a full fee makes the input side divide by zero. */
  lemma RefusedIff(x: int, a: int, b: int, fee: int)
    requires 0 <= fee <= 10_000
    ensures GetAmountOut(x, a, b, fee) == Err(InsufficientLiquidity) <==> x <= 0 || a <= 0 || b <= 0
    ensures GetAmountOut(x, a, b, fee) != Err(RangeError)
    ensures GetAmountIn(x, a, b, fee) == Err(InsufficientLiquidity) <==> x <= 0 || a <= 0 || b <= x
    ensures GetAmountIn(x, a, b, fee) == Err(RangeError) <==> 0 < x < b && a > 0 && fee == 10_000
    ensures GetSpotPrice(a, b).Ok? <==> a > 0 && b > 0
    ensures GetExecutionPrice(x, b).Ok? <==> x > 0 && b > 0
    ensures GetPriceImpactBps(a, x).Ok? <==> a > 0 && x > 0
  {
    if x > 0 && a > 0 { MulMono(0, x, BPS - fee); }
    if 0 < x < b && fee < BPS { MulMono(1, b - x, BPS - fee); }
  }

  /** The output reaches `y` exactly when the input, less its fee, pays for it at the price
      left after the swap. As `y` is arbitrary, this determines the output. */
  lemma AmountOutAtLeast(x: int, a: int, b: int, fee: int, y: int)
    requires Tradable(x, a, b, fee)
    ensures GetAmountOut(x, a, b, fee).Ok?
    ensures y <= Out(x, a, b, fee) <==> a * y * BPS <= x * (BPS - fee) * (b - y)
  {
    var w := x * (BPS - fee);
    MulMono(0, x, BPS - fee);
    MulMono(0, w, b);
    FloorAtLeast(w * b, a * BPS + w, y);
    assert y * (a * BPS + w) == a * y * BPS + w * y;
    assert w * (b - y) == w * b - w * y;
  }

  /** A swap never empties the pool and never pays a negative amount. */
  lemma AmountOutRange(x: int, a: int, b: int, fee: int)
    requires Tradable(x, a, b, fee)
    ensures GetAmountOut(x, a, b, fee).Ok?
    ensures 0 <= Out(x, a, b, fee) < b
  {
    AmountOutAtLeast(x, a, b, fee, 0);
    AmountOutAtLeast(x, a, b, fee, b);
    MulMono(0, x * (BPS - fee), b) by { MulMono(0, x, BPS - fee); }
    assert a * b * BPS > 0;
  }
}
