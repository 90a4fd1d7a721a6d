/** An immutable snapshot of one pool, and what survives any run of swaps on it. */
module UniswapV2Pair {
  import opened JsMath
  import opened Core
  import Calc = UniswapV2Calculator
  import SwapLaws

  /** An address is its lower-case form, which is what every comparison in the program uses. */
  type Address = string

  datatype Token = Token(address: Address, symbol: string, decimals: nat)

  datatype Quote = Quote(amountOut: int, spotPriceBefore: int, executionPrice: int, priceImpactBps: int)

  datatype Pair = Pair(address: Address, token0: Token, token1: Token, reserve0: int, reserve1: int, feeBps: int) {

    predicate Trades(t: Token) {
      t.address == token0.address || t.address == token1.address
    }

    predicate IsToken0(t: Token) { t.address == token0.address }

    /** (reserveIn, reserveOut) as seen by someone who sells `tokenIn`. */
    function ResolveReserves(tokenIn: Token): Result<(int, int)> {
      if !Trades(tokenIn) then Err(UnknownToken)
      else if IsToken0(tokenIn) then Ok((reserve0, reserve1))
      else Ok((reserve1, reserve0))
    }

    function OtherToken(token: Token): Result<Token> {
      if token.address == token0.address then Ok(token1)
      else if token.address == token1.address then Ok(token0)
      else Err(UnknownToken)
    }

    function GetAmountOut(amountIn: int, tokenIn: Token): Result<int> {
      var (reserveIn, reserveOut) :- ResolveReserves(tokenIn);
      Calc.GetAmountOut(amountIn, reserveIn, reserveOut, feeBps)
    }

    function GetAmountIn(amountOut: int, tokenOut: Token): Result<int> {
      var other :- OtherToken(tokenOut);
      var (reserveIn, reserveOut) :- ResolveReserves(other);
      Calc.GetAmountIn(amountOut, reserveIn, reserveOut, feeBps)
    }

    function GetSpotPrice(tokenIn: Token): Result<int> {
      var (reserveIn, reserveOut) :- ResolveReserves(tokenIn);
      Calc.GetSpotPrice(reserveIn, reserveOut)
    }

    function GetExecutionPrice(amountIn: int, tokenIn: Token): Result<int> {
      var amountOut :- GetAmountOut(amountIn, tokenIn);
      Calc.GetExecutionPrice(amountIn, amountOut)
    }

    function GetPriceImpactBps(amountIn: int, tokenIn: Token): Result<int> {
      var spot :- GetSpotPrice(tokenIn);
      var exec :- GetExecutionPrice(amountIn, tokenIn);
      Calc.GetPriceImpactBps(spot, exec)
    }

    function SimulateSwap(amountIn: int, tokenIn: Token): Result<Pair> {
      var amountOut :- GetAmountOut(amountIn, tokenIn);
      if IsToken0(tokenIn) then
        var (r0, r1) := Calc.ApplySwap(amountIn, amountOut, reserve0, reserve1);
        Ok(Pair(address, token0, token1, r0, r1, feeBps))
      else
        var (r1, r0) := Calc.ApplySwap(amountIn, amountOut, reserve1, reserve0);
        Ok(Pair(address, token0, token1, r0, r1, feeBps))
    }

    function QuoteSwap(amountIn: int, tokenIn: Token): Result<Quote> {
      var spot :- GetSpotPrice(tokenIn);
      var amountOut :- GetAmountOut(amountIn, tokenIn);
      var exec :- Calc.GetExecutionPrice(amountIn, amountOut);
      var impact :- Calc.GetPriceImpactBps(spot, exec);
      Ok(Quote(amountOut, spot, exec, impact))
    }

    /** A pool that can be traded: something on both sides, and a fee of at most 100%. */
    predicate Live() {
      reserve0 > 0 && reserve1 > 0 && 0 <= feeBps <= BPS
    }

    function Product(): int { reserve0 * reserve1 }

    function ReserveIn(t: Token): int { if IsToken0(t) then reserve0 else reserve1 }

    function ReserveOut(t: Token): int { if IsToken0(t) then reserve1 else reserve0 }

    predicate SamePool(p: Pair) {
      p.address == address && p.token0 == token0 && p.token1 == token1 && p.feeBps == feeBps
    }
  }

  // ----- one swap -----

  /** A live pool answers every positive input in a token it trades, and no other; a token it does
      not trade has an error of its own. */
  lemma QuoteDefined(p: Pair, amountIn: int, tokenIn: Token)
    requires p.Live()
    ensures p.GetAmountOut(amountIn, tokenIn).Ok? <==> amountIn > 0 && p.Trades(tokenIn)
    ensures p.GetAmountOut(amountIn, tokenIn) == Err(UnknownToken) <==>
            tokenIn.address != p.token0.address && tokenIn.address != p.token1.address
    ensures p.GetAmountOut(amountIn, tokenIn).Ok? ==>
              0 <= p.GetAmountOut(amountIn, tokenIn).value < p.ReserveOut(tokenIn)
  {
    if amountIn > 0 && p.Trades(tokenIn) {
      Calc.AmountOutRange(amountIn, p.ReserveIn(tokenIn), p.ReserveOut(tokenIn), p.feeBps);
    }
  }

  lemma SwapReserves(p: Pair, amountIn: int, tokenIn: Token)
    requires p.Live() && amountIn > 0 && p.Trades(tokenIn)
    ensures p.GetAmountOut(amountIn, tokenIn).Ok? && p.SimulateSwap(amountIn, tokenIn).Ok?
    ensures var p', out := p.SimulateSwap(amountIn, tokenIn).value, p.GetAmountOut(amountIn, tokenIn).value;
            && p.SamePool(p') && 0 <= out < p.ReserveOut(tokenIn)
            && p'.ReserveIn(tokenIn) == p.ReserveIn(tokenIn) + amountIn
            && p'.ReserveOut(tokenIn) == p.ReserveOut(tokenIn) - out
  {
    QuoteDefined(p, amountIn, tokenIn);
  }

  lemma ProductIsInTimesOut(p: Pair, t: Token)
    ensures p.Product() == p.ReserveIn(t) * p.ReserveOut(t)
  {
  }

  /** A swap moves the input in and the output out, changes nothing else, and shrinks neither
      reserve to zero nor the product at all. */
  lemma SwapEffect(p: Pair, amountIn: int, tokenIn: Token)
    requires p.Live()
    ensures p.SimulateSwap(amountIn, tokenIn).Ok? <==> amountIn > 0 && p.Trades(tokenIn)
    ensures p.SimulateSwap(amountIn, tokenIn).Ok? ==>
              var p' := p.SimulateSwap(amountIn, tokenIn).value;
              && p.GetAmountOut(amountIn, tokenIn).Ok?
              && p.SamePool(p') && p'.Live() && p'.Product() >= p.Product()
              && p'.ReserveIn(tokenIn) == p.ReserveIn(tokenIn) + amountIn
              && p'.ReserveOut(tokenIn) == p.ReserveOut(tokenIn) - p.GetAmountOut(amountIn, tokenIn).value
  {
    QuoteDefined(p, amountIn, tokenIn);
    if amountIn > 0 && p.Trades(tokenIn) {
      SwapReserves(p, amountIn, tokenIn);
      var p' := p.SimulateSwap(amountIn, tokenIn).value;
      ProductIsInTimesOut(p, tokenIn);
      ProductIsInTimesOut(p', tokenIn);
      SwapLaws.SwapKeepsProduct(amountIn, p.ReserveIn(tokenIn), p.ReserveOut(tokenIn), p.feeBps);
    }
  }

  /** The combined quote is the four single quotes, and throws exactly when one of them does. */
  lemma QuoteAgrees(p: Pair, amountIn: int, tokenIn: Token)
    ensures p.QuoteSwap(amountIn, tokenIn).Ok? <==> p.GetPriceImpactBps(amountIn, tokenIn).Ok?
    ensures p.QuoteSwap(amountIn, tokenIn).Ok? ==>
              var q := p.QuoteSwap(amountIn, tokenIn).value;
              && p.GetAmountOut(amountIn, tokenIn) == Ok(q.amountOut)
              && p.GetSpotPrice(tokenIn) == Ok(q.spotPriceBefore)
              && p.GetExecutionPrice(amountIn, tokenIn) == Ok(q.executionPrice)
              && p.GetPriceImpactBps(amountIn, tokenIn) == Ok(q.priceImpactBps)
  {
  }

  /** What `GetAmountIn` asks for, sold into the pool, buys at least the requested output; two
      units less do not. */
  lemma AmountInBuysIt(p: Pair, amountOut: int, tokenOut: Token)
    requires p.Live() && p.feeBps < BPS && p.token0.address != p.token1.address
    requires p.Trades(tokenOut) && 0 < amountOut < p.ReserveIn(tokenOut)
    ensures p.OtherToken(tokenOut).Ok? && p.GetAmountIn(amountOut, tokenOut).Ok?
    ensures var other, x := p.OtherToken(tokenOut).value, p.GetAmountIn(amountOut, tokenOut).value;
            && p.GetAmountOut(x, other).Ok? && p.GetAmountOut(x, other).value >= amountOut
            && (x > 2 ==> p.GetAmountOut(x - 2, other).Ok? && p.GetAmountOut(x - 2, other).value < amountOut)
  {
    var other := p.OtherToken(tokenOut).value;
    var a, b := p.ReserveIn(other), p.ReserveOut(other);
    SwapLaws.AmountInSuffices(amountOut, a, b, p.feeBps);
    var x := p.GetAmountIn(amountOut, tokenOut).value;
    QuoteDefined(p, x, other);
    if x > 2 {
      QuoteDefined(p, x - 2, other);
      SwapLaws.AmountInIsNearlyLeast(amountOut, a, b, p.feeBps, x - 2);
    }
  }

  // ----- runs of swaps -----

  datatype Trade = Trade(amountIn: int, tokenIn: Token)

  /** `SimulateSwap` applied along a list of trades, in whatever directions. */
  function Run(p: Pair, trades: seq<Trade>): Result<Pair>
    decreases |trades|
  {
    if trades == [] then Ok(p)
    else
      var p' :- p.SimulateSwap(trades[0].amountIn, trades[0].tokenIn);
      Run(p', trades[1..])
  }

  /** What the trader received along the run, added up. */
  function PaidOut(p: Pair, trades: seq<Trade>): Result<int>
    decreases |trades|
  {
    if trades == [] then Ok(0)
    else
      var y :- p.GetAmountOut(trades[0].amountIn, trades[0].tokenIn);
      var p' :- p.SimulateSwap(trades[0].amountIn, trades[0].tokenIn);
      var rest :- PaidOut(p', trades[1..]);
      Ok(y + rest)
  }

  predicate Proper(p: Pair, t: Trade) { t.amountIn > 0 && p.Trades(t.tokenIn) }

  /** A run throws exactly when one of its trades is improper; otherwise the pool stays live
      and its product never falls. */
  lemma {:induction false} RunKeepsInvariant(p: Pair, trades: seq<Trade>)
    requires p.Live()
    ensures Run(p, trades).Ok? <==> forall t :: t in trades ==> Proper(p, t)
    ensures Run(p, trades).Ok? ==>
              var p' := Run(p, trades).value;
              p.SamePool(p') && p'.Live() && p'.Product() >= p.Product()
    decreases |trades|
  {
    if trades != [] {
      var t := trades[0];
      assert trades == [t] + trades[1..];
      SwapEffect(p, t.amountIn, t.tokenIn);
      if Proper(p, t) {
        var p1 := p.SimulateSwap(t.amountIn, t.tokenIn).value;
        RunKeepsInvariant(p1, trades[1..]);
        assert forall u :: Proper(p1, u) <==> Proper(p, u);
      }
    }
  }

  /** No run of swaps takes from both sides: whoever ends with the pool no fuller on one side
      has left it no emptier on the other. */
  lemma NoRunExtractsValue(p: Pair, trades: seq<Trade>)
    requires p.Live() && Run(p, trades).Ok?
    ensures var p' := Run(p, trades).value;
            && (p'.reserve0 <= p.reserve0 ==> p'.reserve1 >= p.reserve1)
            && (p'.reserve1 <= p.reserve1 ==> p'.reserve0 >= p.reserve0)
            && (p'.reserve0 < p.reserve0 ==> p'.reserve1 > p.reserve1)
            && (p'.reserve1 < p.reserve1 ==> p'.reserve0 > p.reserve0)
  {
    RunKeepsInvariant(p, trades);
    var p' := Run(p, trades).value;
    ProductShape(p.reserve0, p.reserve1, p'.reserve0, p'.reserve1);
    ProductShape(p.reserve1, p.reserve0, p'.reserve1, p'.reserve0);
  }

  lemma ProductShape(a: int, b: int, a': int, b': int)
    requires a > 0 && b > 0 && a' > 0 && b' > 0 && a' * b' >= a * b
    ensures a' <= a ==> b' >= b
    ensures a' < a ==> b' > b
  {
    if a' <= a && b' < b {
      MulMono(a', a, b');
      MulMono(b' + 1, b, a);
    } else if a' < a && b' <= b {
      MulMono(a' + 1, a, b');
      MulMono(b', b, a);
    }
  }

  /** Selling an amount and selling back what it bought returns at most the amount. */
  lemma RoundTripNeverGains(p: Pair, x: int, t: Token, u: Token)
    requires p.Live() && x > 0 && p.Trades(t) && p.Trades(u) && p.IsToken0(t) != p.IsToken0(u)
    ensures p.GetAmountOut(x, t).Ok? && p.SimulateSwap(x, t).Ok?
    ensures var y := p.GetAmountOut(x, t).value;
            y > 0 ==> var back := p.SimulateSwap(x, t).value.GetAmountOut(y, u);
                      back.Ok? && back.value <= x
  {
    QuoteDefined(p, x, t);
    SwapEffect(p, x, t);
    var y := p.GetAmountOut(x, t).value;
    if y > 0 {
      var p1 := p.SimulateSwap(x, t).value;
      QuoteDefined(p1, y, u);
      SwapEffect(p1, y, u);
      var trades := [Trade(x, t), Trade(y, u)];
      assert trades[1..] == [Trade(y, u)] && trades[1..][1..] == [];
      assert Run(p1, trades[1..]) == p1.SimulateSwap(y, u);
      assert Run(p, trades) == p1.SimulateSwap(y, u);
      NoRunExtractsValue(p, trades);
    }
  }

  // ----- splitting an order -----

  function TotalIn(trades: seq<Trade>): int {
    if trades == [] then 0 else trades[0].amountIn + TotalIn(trades[1..])
  }

  /** Feeding an order in parts never pays more than feeding it at once, however many parts. */
  lemma {:induction false} SplittingNeverPays(p: Pair, t: Token, trades: seq<Trade>)
    requires p.Live() && p.Trades(t) && trades != []
    requires forall i :: 0 <= i < |trades| ==> trades[i].amountIn > 0 && trades[i].tokenIn == t
    ensures TotalIn(trades) > 0
    ensures PaidOut(p, trades).Ok? && p.GetAmountOut(TotalIn(trades), t).Ok?
    ensures PaidOut(p, trades).value <= p.GetAmountOut(TotalIn(trades), t).value
    decreases |trades|
  {
    var x := trades[0].amountIn;
    SwapEffect(p, x, t);
    var p1 := p.SimulateSwap(x, t).value;
    if |trades| > 1 {
      SplittingNeverPays(p1, t, trades[1..]);
      SwapLaws.TwoSwapsNeverBeatOne(x, TotalIn(trades[1..]), p.ReserveIn(t), p.ReserveOut(t), p.feeBps);
    } else {
      assert trades[1..] == [];
      assert PaidOut(p1, trades[1..]) == Ok(0);
    }
    QuoteDefined(p, TotalIn(trades), t);
  }
}
