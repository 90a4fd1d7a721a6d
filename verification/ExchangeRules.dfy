/** Rounding an order to what the exchange accepts. */
module ExchangeRules {
  import opened JsMath
  import opened Core

  datatype TradingRules = TradingRules(stepSize: int, tickSize: int, minNotional: int)

  function RoundQuantity(qty: int, stepSize: int): int {
    if stepSize == 0 then qty else TruncDiv(qty, stepSize) * stepSize
  }

  function RoundPrice(price: int, tickSize: int): int {
    if tickSize == 0 then price else TruncDiv(price + TruncDiv(tickSize, 2), tickSize) * tickSize
  }

  function CheckMinNotional(qty: int, price: int, minNotional: int): bool {
    TruncDiv(qty * price, PRICE_SCALE) >= minNotional
  }

  /** An order meets the minimum exactly when its exact value does. */
  lemma MinNotionalIff(qty: int, price: int, minNotional: int)
    requires qty >= 0 && price >= 0
    ensures CheckMinNotional(qty, price, minNotional) <==> qty * price >= minNotional * PRICE_SCALE
  {
    MulMono(0, price, qty);
    FloorAtLeast(qty * price, PRICE_SCALE, minNotional);
  }

  /** No step, no rounding. */
  lemma NoStepKeeps(amount: int)
    ensures RoundQuantity(amount, 0) == amount && RoundPrice(amount, 0) == amount
  {
  }

  /** The rounded quantity is the greatest multiple of the step that does not exceed it. */
  lemma RoundQuantityIsGreatest(qty: int, stepSize: int, k: int)
    requires qty >= 0 && stepSize > 0
    ensures var r := RoundQuantity(qty, stepSize);
            && 0 <= r <= qty < r + stepSize && r % stepSize == 0
            && (k * stepSize <= qty <==> k * stepSize <= r)
  {
    var q := qty / stepSize;
    TruncDivBounds(qty, stepSize);
    FloorAtLeast(qty, stepSize, k);
    FloorAtLeast(qty, stepSize, 0);
    if k <= q { MulMono(k, q, stepSize); }
    MultipleHasNoRemainder(q, stepSize);
  }

  lemma MultipleHasNoRemainder(q: int, d: int)
    requires d > 0 && q >= 0
    ensures (q * d) % d == 0
  {
    var n := q * d;
    FloorAtLeast(n, d, q);
    FloorAtLeast(n, d, q + 1);
    assert n == (n / d) * d + n % d;
  }

  /** The rounded price is a multiple of the tick, off by at most half a tick. */
  lemma RoundPriceIsNearest(price: int, tickSize: int)
    requires price >= 0 && tickSize > 0
    ensures var r := RoundPrice(price, tickSize);
            r % tickSize == 0 && 2 * (r - price) <= tickSize && 2 * (price - r) <= tickSize
  {
    var n := price + tickSize / 2;
    TruncDivBounds(n, tickSize);
    MultipleHasNoRemainder(n / tickSize, tickSize);
  }
}
