/** The arithmetic of JavaScript bigints, and the results of functions that may throw. */
module JsMath {

  /** Why a call threw. `RangeError` is what a bigint division by zero throws. */
  datatype Error =
    | InsufficientLiquidity
    | UnknownToken
    | RangeError
    | NoRouteFound

  datatype Result<+T> = Ok(value: T) | Err(error: Error) {
    predicate IsFailure() { Err? }

    function PropagateFailure<U>(): Result<U>
      requires Err?
    {
      Err(error)
    }

    function Extract(): T
      requires Ok?
    {
      value
    }
  }

  datatype Option<+T> = None | Some(value: T)

  /** bigint division truncates toward zero; Dafny's `/` is Euclidean. */
  function TruncDiv(n: int, d: int): int
    requires d != 0
  {
    if n >= 0 then n / d else -((-n) / d)
  }

  function JsDiv(n: int, d: int): Result<int> {
    if d == 0 then Err(RangeError) else Ok(TruncDiv(n, d))
  }

  /** `Math.round`: to the nearest integer, halves upward. */
  function Round(x: real): int { (x + 0.5).Floor }

  /** Within a half of `x`, and a half goes up. */
  lemma RoundIsNearest(x: real)
    ensures Round(x) as real - 0.5 <= x < Round(x) as real + 0.5
  {
  }

  function Min(a: int, b: int): int { if a < b then a else b }

  function Max(a: int, b: int): int { if a < b then b else a }

  function Pow10(n: nat): int
    ensures Pow10(n) > 0
  {
    if n == 0 then 1 else 10 * Pow10(n - 1)
  }

  /** A power of ten: it turns sums into products, and 1 into 10. */
  lemma {:induction false} Pow10Adds(m: nat, n: nat)
    ensures Pow10(m + n) == Pow10(m) * Pow10(n) && Pow10(1) == 10
  {
    assert Pow10(0) == 1;
    if m > 0 {
      Pow10Adds(m - 1, n);
      assert 10 * (Pow10(m - 1) * Pow10(n)) == (10 * Pow10(m - 1)) * Pow10(n) by { MulRot(10, Pow10(m - 1), Pow10(n)); }
    }
  }

  /** Truncation undone: the quotient times the divisor misses `n` by less than the divisor. */
  lemma TruncDivBounds(n: int, d: int)
    requires d > 0
    ensures n >= 0 ==> TruncDiv(n, d) >= 0 && TruncDiv(n, d) * d <= n < (TruncDiv(n, d) + 1) * d
    ensures n <= 0 ==> TruncDiv(n, d) <= 0 && (TruncDiv(n, d) - 1) * d < n <= TruncDiv(n, d) * d
  {
    if n >= 0 {
      FloorAtLeast(n, d, n / d);
      FloorAtLeast(n, d, n / d + 1);
      FloorAtLeast(n, d, 0);
    } else {
      var q := (-n) / d;
      FloorAtLeast(-n, d, q);
      FloorAtLeast(-n, d, q + 1);
      FloorAtLeast(-n, d, 0);
      assert (-q) * d == -(q * d);
      assert (-q - 1) * d == -((q + 1) * d);
    }
  }

  /** Floor division is the upper adjoint of multiplication. */
  lemma FloorAtLeast(n: int, d: int, q: int)
    requires d > 0
    ensures q <= n / d <==> q * d <= n
  {
    var f := n / d;
    assert n == f * d + n % d;
    if q <= f {
      MulMono(q, f, d);
    } else {
      MulMono(f + 1, q, d);
      assert (f + 1) * d == f * d + d;
    }
  }

  lemma MulMono(a: int, b: int, c: int)
    requires a <= b && 0 <= c
    ensures a * c <= b * c
  {
    assert (b - a) * c >= 0;
    assert (b - a) * c == b * c - a * c;
  }

  /** A product can be cancelled out of an inequality. */
  lemma MulCancel(a: int, b: int, c: int)
    requires c > 0 && a * c <= b * c
    ensures a <= b
  {
    if b < a {
      MulMono(b + 1, a, c);
    }
  }

  /** If n/d <= n'/d' as rationals, then their floors are ordered too. */
  lemma FloorMono(n: int, d: int, n': int, d': int)
    requires d > 0 && d' > 0 && n * d' <= n' * d
    ensures n / d <= n' / d'
  {
    var q := n / d;
    FloorAtLeast(n, d, q);
    FloorAtLeast(n', d', q);
    MulMono(q * d, n, d');
    assert (q * d) * d' == (q * d') * d by { MulRot(q, d, d'); }
    MulCancel(q * d', n', d);
  }

  lemma MulRot(a: int, b: int, c: int)
    ensures (a * b) * c == (a * c) * b
    ensures a * (b * c) == (a * b) * c
  {
    assert a * (b * c) == (a * b) * c;
    assert a * (c * b) == (a * c) * b;
  }
}
