/** Quotes along a route, the choice of the best route, and the mutable route finder. */
module Routing {
  import opened JsMath
  import opened UniswapV2Pair
  import opened RouteGraph
  import opened RouteSearch
  import Calc = UniswapV2Calculator
  import SwapLaws

  const GWEI: int := 1_000_000_000

  // ----- quoting a route -----

  /** The output of hops i, i + 1, ... for an `amount` that has reached hop i. */
  function OutputFrom(r: Route, i: nat, amount: int): Result<int>
    requires WellFormed(r) && i <= |r.pools|
    decreases |r.pools| - i
  {
    if i == |r.pools| then Ok(amount)
    else
      var next :- r.pools[i].GetAmountOut(amount, r.path[i]);
      OutputFrom(r, i + 1, next)
  }

  method GetOutput(r: Route, amountIn: int) returns (out: Result<int>)
    requires WellFormed(r)
    ensures out == OutputFrom(r, 0, amountIn)
  {
    var amount := amountIn;
    for i := 0 to |r.pools|
      invariant OutputFrom(r, i, amount) == OutputFrom(r, 0, amountIn)
    {
      amount :- r.pools[i].GetAmountOut(amount, r.path[i]);
    }
    return Ok(amount);
  }

  /** The running amounts: each is what the next pool pays for the one before. */
  predicate IsTrace(r: Route, amountIn: int, amounts: seq<int>)
    requires WellFormed(r)
  {
    && |amounts| == |r.pools| + 1 && amounts[0] == amountIn
    && forall i :: 0 <= i < |r.pools| ==> r.pools[i].GetAmountOut(amounts[i], r.path[i]) == Ok(amounts[i + 1])
  }

  method GetIntermediateAmounts(r: Route, amountIn: int) returns (res: Result<seq<int>>)
    requires WellFormed(r)
    ensures res.Ok? <==> OutputFrom(r, 0, amountIn).Ok?
    ensures res.Err? ==> OutputFrom(r, 0, amountIn) == Err(res.error)
    ensures res.Ok? ==>
              IsTrace(r, amountIn, res.value) && OutputFrom(r, 0, amountIn) == Ok(res.value[|r.pools|])
  {
    var amounts := [amountIn];
    for i := 0 to |r.pools|
      invariant |amounts| == i + 1 && amounts[0] == amountIn
      invariant forall j :: 0 <= j < i ==> r.pools[j].GetAmountOut(amounts[j], r.path[j]) == Ok(amounts[j + 1])
      invariant OutputFrom(r, i, amounts[i]) == OutputFrom(r, 0, amountIn)
    {
      var next :- r.pools[i].GetAmountOut(amounts[|amounts| - 1], r.path[i]);
      amounts := amounts + [next];
    }
    return Ok(amounts);
  }

  predicate AllLive(pools: seq<Pair>) { forall p :: p in pools ==> p.Live() }

  /** A larger input is quoted whenever a smaller one is, and never for less. */
  lemma {:induction false} OutputMonotone(r: Route, i: nat, x: int, x': int)
    requires WellFormed(r) && i <= |r.pools| && AllLive(r.pools)
    requires x <= x' && OutputFrom(r, i, x).Ok?
    ensures OutputFrom(r, i, x').Ok? && OutputFrom(r, i, x).value <= OutputFrom(r, i, x').value
    decreases |r.pools| - i
  {
    if i < |r.pools| {
      var p, t := r.pools[i], r.path[i];
      QuoteDefined(p, x, t);
      QuoteDefined(p, x', t);
      SwapLaws.OutputMonotone(x, x', p.ReserveIn(t), p.ReserveOut(t), p.feeBps);
      OutputMonotone(r, i + 1, p.GetAmountOut(x, t).value, p.GetAmountOut(x', t).value);
    }
  }

  // ----- a quote is what execution pays -----

  /** The hops carried out one after another on the stored pools, each swap updating its pool. */
  function ExecuteFrom(m: map<Address, Pair>, r: Route, i: nat, amount: int): Result<(map<Address, Pair>, int)>
    requires WellFormed(r) && i <= |r.pools|
    requires forall p :: p in r.pools ==> p.address in m
    decreases |r.pools| - i
  {
    if i == |r.pools| then Ok((m, amount))
    else
      var a := r.pools[i].address;
      var next :- m[a].GetAmountOut(amount, r.path[i]);
      var swapped :- m[a].SimulateSwap(amount, r.path[i]);
      ExecuteFrom(m[a := swapped], r, i + 1, next)
  }

  predicate Stores(m: map<Address, Pair>, pools: seq<Pair>) {
    forall p :: p in pools ==> p.address in m && m[p.address] == p
  }

  /** On a route without repeated pools, execution throws when the static quote throws and pays
      what it pays otherwise. */
  lemma {:induction false} ExecutionPaysQuote(m: map<Address, Pair>, r: Route, i: nat, amount: int)
    requires WellFormed(r) && i <= |r.pools| && UniqueAddresses(r.pools)
    requires forall p :: p in r.pools ==> p.address in m
    requires Stores(m, r.pools[i..])
    ensures match OutputFrom(r, i, amount)
            case Err(e) => ExecuteFrom(m, r, i, amount) == Err(e)
            case Ok(out) => ExecuteFrom(m, r, i, amount).Ok? && ExecuteFrom(m, r, i, amount).value.1 == out
    decreases |r.pools| - i
  {
    if i < |r.pools| {
      var p, t := r.pools[i], r.path[i];
      assert p in r.pools[i..];
      var swapped := p.SimulateSwap(amount, t);
      if swapped.Ok? {
        assert swapped.value.address == p.address;
        StoresRest(m, r.pools, i, swapped.value);
        ExecutionPaysQuote(m[p.address := swapped.value], r, i + 1, p.GetAmountOut(amount, t).value);
      }
    }
  }

  lemma StoresRest(m: map<Address, Pair>, pools: seq<Pair>, i: nat, swapped: Pair)
    requires i < |pools| && UniqueAddresses(pools) && Stores(m, pools[i..])
    ensures Stores(m[pools[i].address := swapped], pools[i + 1..])
  {
    forall p | p in pools[i + 1..]
      ensures p.address in m && m[p.address] == p && p.address != pools[i].address
    {
      var j :| 0 <= j < |pools[i + 1..]| && pools[i + 1..][j] == p;
      assert pools[i..][j + 1] == p && pools[i + 1 + j] == p;
    }
  }

  /** What execution leaves behind: every pool of the route has made exactly its own hop of the
      trace, every other pool is untouched. */
  lemma {:induction false} ExecutionLeaves(m: map<Address, Pair>, r: Route, i: nat, amountIn: int, amounts: seq<int>)
    requires WellFormed(r) && i <= |r.pools| && UniqueAddresses(r.pools) && AllLive(r.pools)
    requires IsTrace(r, amountIn, amounts)
    requires forall p :: p in r.pools ==> p.address in m
    requires Stores(m, r.pools[i..])
    ensures ExecuteFrom(m, r, i, amounts[i]).Ok?
    ensures var (m', out) := ExecuteFrom(m, r, i, amounts[i]).value;
            && out == amounts[|r.pools|] && m'.Keys == m.Keys
            && (forall j :: i <= j < |r.pools| ==>
                  Ok(m'[r.pools[j].address]) == r.pools[j].SimulateSwap(amounts[j], r.path[j]))
            && (forall a :: a in m && !Visited(r.pools[i..], a) ==> m'[a] == m[a])
    decreases |r.pools| - i
  {
    if i < |r.pools| {
      var p, t := r.pools[i], r.path[i];
      assert p in r.pools[i..];
      assert p in r.pools && p.GetAmountOut(amounts[i], t) == Ok(amounts[i + 1]);
      QuoteDefined(p, amounts[i], t);
      SwapEffect(p, amounts[i], t);
      var swapped := p.SimulateSwap(amounts[i], t).value;
      StoresRest(m, r.pools, i, swapped);
      var m1 := m[p.address := swapped];
      ExecutionLeaves(m1, r, i + 1, amountIn, amounts);
      forall a
        ensures Visited(r.pools[i..], a) <==> a == p.address || Visited(r.pools[i + 1..], a)
      {
        VisitedTail(r.pools, i, a);
      }
    }
  }

  lemma VisitedTail(pools: seq<Pair>, i: nat, a: Address)
    requires i < |pools|
    ensures Visited(pools[i..], a) <==> a == pools[i].address || Visited(pools[i + 1..], a)
  {
    var s, rest := pools[i..], pools[i + 1..];
    assert s[0] == pools[i];
    if Visited(rest, a) {
      var k :| 0 <= k < |rest| && rest[k].address == a;
      assert s[k + 1] == rest[k];
    }
    if Visited(s, a) && a != pools[i].address {
      var k :| 0 <= k < |s| && s[k].address == a;
      assert rest[k - 1] == s[k];
    }
  }

  /** For every route the search returns and every input it can be quoted for: executing the
      hops pays the quote, keeps every pool of the route live with a product no smaller, and
      leaves the other pools alone. */
  lemma RouteExecutes(pools: seq<Pair>, m: map<Address, Pair>, tokenIn: Token, q: Query,
                      r: Route, amountIn: int, amounts: seq<int>)
    requires AllLive(pools) && Stores(m, pools)
    requires r in AllRoutes(GraphOf(pools), tokenIn, q)
    requires WellFormed(r) && IsTrace(r, amountIn, amounts)
    ensures forall p :: p in r.pools ==> p.address in m
    ensures OutputFrom(r, 0, amountIn) == Ok(amounts[|r.pools|])
    ensures ExecuteFrom(m, r, 0, amountIn).Ok?
    ensures var (m', out) := ExecuteFrom(m, r, 0, amountIn).value;
            && out == amounts[|r.pools|] && m'.Keys == m.Keys
            && (forall p :: p in r.pools ==>
                  var p' := m'[p.address];
                  p.SamePool(p') && p'.Live() && p'.Product() >= p.Product())
            && (forall a :: a in m && !Visited(r.pools, a) ==> m'[a] == m[a])
  {
    RoutesAreTrails(pools, tokenIn, q, r);
    forall p | p in r.pools
      ensures p in pools
    {
      var i :| 0 <= i < |r.pools| && r.pools[i] == p;
      assert Hop(r.pools[i], r.path[i].address, r.path[i + 1]);
    }
    assert r.pools[0..] == r.pools;
    ExecutionLeaves(m, r, 0, amountIn, amounts);
    ExecutionPaysQuote(m, r, 0, amountIn);
    TraceIsOutput(r, 0, amountIn, amounts);
    var m' := ExecuteFrom(m, r, 0, amountIn).value.0;
    forall p | p in r.pools
      ensures var p' := m'[p.address];
              p.SamePool(p') && p'.Live() && p'.Product() >= p.Product()
    {
      var i :| 0 <= i < |r.pools| && r.pools[i] == p;
      SwapEffect(p, amounts[i], r.path[i]);
    }
  }

  lemma {:induction false} TraceIsOutput(r: Route, i: nat, amountIn: int, amounts: seq<int>)
    requires WellFormed(r) && i <= |r.pools| && IsTrace(r, amountIn, amounts)
    ensures OutputFrom(r, i, amounts[i]) == Ok(amounts[|r.pools|])
    decreases |r.pools| - i
  {
    if i < |r.pools| {
      TraceIsOutput(r, i + 1, amountIn, amounts);
    }
  }

  // ----- choosing a route -----

  /** The gas model of a route finder, and the price of gas for one query. */
  datatype Gas = Gas(base: int, perHop: int, priceGwei: int, ethPriceInOutputToken: int)

  function EstimateGas(r: Route, gas: Gas): int { gas.base + |r.pools| * gas.perHop }

  /** The gas of a route, in units of the output token. */
  function GasCost(r: Route, gas: Gas): int {
    TruncDiv(gas.priceGwei * GWEI * EstimateGas(r, gas) * gas.ethPriceInOutputToken, Calc.PRICE_SCALE)
  }

  function NetOutput(r: Route, amountIn: int, gas: Gas): Result<int>
    requires WellFormed(r)
  {
    var gross :- OutputFrom(r, 0, amountIn);
    var cost := GasCost(r, gas);
    Ok(if gross > cost then gross - cost else 0)
  }

  predicate ChargesGas(gas: Gas) {
    gas.base >= 0 && gas.perHop >= 0 && gas.priceGwei >= 0 && gas.ethPriceInOutputToken >= 0
  }

  /** What n hops of gas cost before rounding, in output units times 10^18. */
  function ExactGas(n: nat, gas: Gas): int {
    gas.priceGwei * 1_000_000_000 * (gas.base + n * gas.perHop) * gas.ethPriceInOutputToken
  }

  /** A route nets its gross output less the gas of its hops, rounded down; nothing exactly when the
      gas takes it all. */
  lemma NetIsGrossLessGas(r: Route, amountIn: int, gas: Gas)
    requires WellFormed(r) && ChargesGas(gas)
    ensures NetOutput(r, amountIn, gas).Ok? <==> OutputFrom(r, 0, amountIn).Ok?
    ensures NetOutput(r, amountIn, gas).Ok? ==>
              var gross, net, cost := OutputFrom(r, 0, amountIn).value, NetOutput(r, amountIn, gas).value,
                                      ExactGas(|r.pools|, gas);
              && net >= 0 && (net == 0 <==> gross * 1_000_000_000_000_000_000 <= cost)
              && (net > 0 ==> (gross - net) * 1_000_000_000_000_000_000 <= cost
                              < (gross - net + 1) * 1_000_000_000_000_000_000)
  {
    var cost := ExactGas(|r.pools|, gas);
    ExactGasNonNegative(|r.pools|, gas);
    TruncDivBounds(cost, Calc.PRICE_SCALE);
    if OutputFrom(r, 0, amountIn).Ok? {
      FloorAtLeast(cost, Calc.PRICE_SCALE, OutputFrom(r, 0, amountIn).value);
    }
  }

  lemma ExactGasNonNegative(n: nat, gas: Gas)
    requires ChargesGas(gas)
    ensures ExactGas(n, gas) >= 0
  {
    MulMono(0, n, gas.perHop);
    var g := gas.base + n * gas.perHop;
    MulMono(0, gas.priceGwei * 1_000_000_000, g);
    MulMono(0, gas.priceGwei * 1_000_000_000 * g, gas.ethPriceInOutputToken);
  }

  /** The gas of the further hops of a longer route. */
  function FurtherGas(hops: int, gas: Gas): int {
    gas.priceGwei * 1_000_000_000 * (hops * gas.perHop) * gas.ethPriceInOutputToken
  }

  /** A longer route nets more than a shorter one exactly when its gross output exceeds the other's
      by the gas of the further hops, to within one unit of rounding. */
  lemma LongerRouteWinsIff(short: Route, long: Route, amountIn: int, gas: Gas)
    requires WellFormed(short) && WellFormed(long) && |short.pools| <= |long.pools| && ChargesGas(gas)
    requires NetOutput(short, amountIn, gas).Ok? && NetOutput(short, amountIn, gas).value > 0
    requires NetOutput(long, amountIn, gas).Ok? && NetOutput(long, amountIn, gas).value > 0
    ensures OutputFrom(short, 0, amountIn).Ok? && OutputFrom(long, 0, amountIn).Ok?
    ensures var more := OutputFrom(long, 0, amountIn).value - OutputFrom(short, 0, amountIn).value;
            var further := FurtherGas(|long.pools| - |short.pools|, gas);
            var wins := NetOutput(long, amountIn, gas).value > NetOutput(short, amountIn, gas).value;
            && (wins ==> more * 1_000_000_000_000_000_000 > further)
            && ((more - 1) * 1_000_000_000_000_000_000 >= further ==> wins)
  {
    NetIsGrossLessGas(short, amountIn, gas);
    NetIsGrossLessGas(long, amountIn, gas);
    FurtherIsDifference(|short.pools|, |long.pools|, gas);
  }

  lemma FurtherIsDifference(m: nat, n: nat, gas: Gas)
    ensures ExactGas(n, gas) - ExactGas(m, gas) == FurtherGas(n - m, gas)
  {
    var k, e, x, y := gas.priceGwei * 1_000_000_000, gas.ethPriceInOutputToken,
                      gas.base + n * gas.perHop, gas.base + m * gas.perHop;
    assert x - y == (n - m) * gas.perHop;
    assert k * x - k * y == k * (x - y);
    assert (k * x) * e - (k * y) * e == (k * x - k * y) * e;
  }

  predicate AllWellFormed(routes: seq<Route>) { forall i :: 0 <= i < |routes| ==> WellFormed(routes[i]) }

  /** The best of the first routes so far against the rest, later routes winning only if better. */
  function BestOf(best: (Route, int), routes: seq<Route>, amountIn: int, gas: Gas): Result<(Route, int)>
    requires AllWellFormed(routes)
    decreases |routes|
  {
    if routes == [] then Ok(best)
    else
      var net :- NetOutput(routes[0], amountIn, gas);
      BestOf(if net > best.1 then (routes[0], net) else best, routes[1..], amountIn, gas)
  }

  function BestRoute(routes: seq<Route>, amountIn: int, gas: Gas): Result<(Route, int)>
    requires AllWellFormed(routes)
  {
    if routes == [] then Err(NoRouteFound)
    else
      var net :- NetOutput(routes[0], amountIn, gas);
      BestOf((routes[0], net), routes[1..], amountIn, gas)
  }

  lemma {:induction false} BestOfIsMaximum(best: (Route, int), routes: seq<Route>, amountIn: int, gas: Gas)
    requires AllWellFormed(routes)
    ensures BestOf(best, routes, amountIn, gas).Ok? <==>
            forall i :: 0 <= i < |routes| ==> NetOutput(routes[i], amountIn, gas).Ok?
    ensures BestOf(best, routes, amountIn, gas).Ok? ==>
              var (r, net) := BestOf(best, routes, amountIn, gas).value;
              && best.1 <= net && (forall i :: 0 <= i < |routes| ==> NetOutput(routes[i], amountIn, gas).value <= net)
              && ((r, net) == best
                  || exists k :: 0 <= k < |routes| && IsFirstMaximum(best.1, routes, amountIn, gas, k, r, net))
    decreases |routes|
  {
    if routes != [] {
      var rest := routes[1..];
      assert forall i :: 0 <= i < |rest| ==> rest[i] == routes[i + 1];
      assert forall i :: 1 <= i < |routes| ==> routes[i] == rest[i - 1];
      var head := NetOutput(routes[0], amountIn, gas);
      if head.Ok? {
        var best' := if head.value > best.1 then (routes[0], head.value) else best;
        BestOfIsMaximum(best', rest, amountIn, gas);
        var res := BestOf(best', rest, amountIn, gas);
        if res.Ok? {
          var (r, net) := res.value;
          if res.value != best' {
            var k :| 0 <= k < |rest| && IsFirstMaximum(best'.1, rest, amountIn, gas, k, r, net);
            assert IsFirstMaximum(best.1, routes, amountIn, gas, k + 1, r, net);
          } else if best' != best {
            assert IsFirstMaximum(best.1, routes, amountIn, gas, 0, r, net);
          }
        }
      }
    }
  }

  /** Route k nets more than `floor` and than every route before it. */
  predicate IsFirstMaximum(floor: int, routes: seq<Route>, amountIn: int, gas: Gas, k: nat, r: Route, net: int)
    requires AllWellFormed(routes) && k < |routes|
  {
    && routes[k] == r && NetOutput(r, amountIn, gas) == Ok(net) && net > floor
    && (forall i :: 0 <= i < k ==>
          NetOutput(routes[i], amountIn, gas).Ok? && NetOutput(routes[i], amountIn, gas).value < net)
  }

  /** The choice throws exactly when there is no route or some route cannot be quoted; otherwise
      it is the first of the routes with the greatest net output. */
  lemma BestRouteIsMaximum(routes: seq<Route>, amountIn: int, gas: Gas)
    requires AllWellFormed(routes)
    ensures BestRoute(routes, amountIn, gas) == Err(NoRouteFound) || routes != []
    ensures BestRoute(routes, amountIn, gas).Ok? <==>
            routes != [] && forall i :: 0 <= i < |routes| ==> NetOutput(routes[i], amountIn, gas).Ok?
    ensures BestRoute(routes, amountIn, gas).Ok? ==>
              var (r, net) := BestRoute(routes, amountIn, gas).value;
              && r in routes && NetOutput(r, amountIn, gas) == Ok(net)
              && (forall i :: 0 <= i < |routes| ==> NetOutput(routes[i], amountIn, gas).value <= net)
              && exists k :: 0 <= k < |routes| && routes[k] == r
                             && forall i :: 0 <= i < k ==> NetOutput(routes[i], amountIn, gas).value < net
  {
    if routes != [] {
      var rest := routes[1..];
      assert forall i :: 0 <= i < |rest| ==> rest[i] == routes[i + 1];
      assert forall i :: 1 <= i < |routes| ==> routes[i] == rest[i - 1];
      var head := NetOutput(routes[0], amountIn, gas);
      if head.Ok? {
        var best := (routes[0], head.value);
        BestOfIsMaximum(best, rest, amountIn, gas);
        var res := BestOf(best, rest, amountIn, gas);
        if res.Ok? && res.value != best {
          var (r, net) := res.value;
          var k :| 0 <= k < |rest| && IsFirstMaximum(best.1, rest, amountIn, gas, k, r, net);
          assert routes[k + 1] == r;
          assert forall i :: 0 <= i < k + 1 ==> NetOutput(routes[i], amountIn, gas).value < net;
        }
      }
    }
  }

  // ----- the cost breakdown -----

  datatype RouteComparison = RouteComparison(route: Route, grossOutput: int, gasEstimate: int,
    gasCost: int, netOutput: int)

  function CompareRow(r: Route, amountIn: int, gas: Gas): Result<RouteComparison>
    requires WellFormed(r)
  {
    var gross :- OutputFrom(r, 0, amountIn);
    var gasEstimate := EstimateGas(r, gas);
    var gasCost := gas.priceGwei * GWEI * gasEstimate;
    var inOutput := TruncDiv(gasCost * gas.ethPriceInOutputToken, Calc.PRICE_SCALE);
    Ok(RouteComparison(r, gross, gasEstimate, gasCost, if gross > inOutput then gross - inOutput else 0))
  }

  /** One row for each route, in the order of the routes; or the first error. */
  function CompareRows(routes: seq<Route>, amountIn: int, gas: Gas): (rows: Result<seq<RouteComparison>>)
    requires AllWellFormed(routes)
    ensures rows.Ok? <==> forall i :: 0 <= i < |routes| ==> CompareRow(routes[i], amountIn, gas).Ok?
    ensures rows.Ok? ==>
              |rows.value| == |routes|
              && forall i :: 0 <= i < |routes| ==> CompareRow(routes[i], amountIn, gas) == Ok(rows.value[i])
  {
    if routes == [] then Ok([])
    else
      var front := routes[..|routes| - 1];
      assert forall i :: 0 <= i < |front| ==> routes[i] == front[i];
      var rows :- CompareRows(front, amountIn, gas);
      var row :- CompareRow(routes[|routes| - 1], amountIn, gas);
      Ok(rows + [row])
  }

  predicate Falling(rows: seq<RouteComparison>) {
    forall i, j :: 0 <= i < j < |rows| ==> rows[i].netOutput >= rows[j].netOutput
  }

  /** A ranking: the rows of the routes, by falling net output. How ties are ordered is left open,
      because the comparator the program sorts with is inconsistent on them. */
  ghost predicate IsRanking(routes: seq<Route>, amountIn: int, gas: Gas, rows: seq<RouteComparison>)
    requires AllWellFormed(routes)
  {
    var unsorted := CompareRows(routes, amountIn, gas);
    unsorted.Ok? && Falling(rows) && multiset(rows) == multiset(unsorted.value)
  }

  function InsertRow(row: RouteComparison, rows: seq<RouteComparison>): seq<RouteComparison> {
    if rows == [] || row.netOutput >= rows[0].netOutput then [row] + rows
    else [rows[0]] + InsertRow(row, rows[1..])
  }

  /** The sort that keeps ties in their order. */
  function SortRows(rows: seq<RouteComparison>): seq<RouteComparison> {
    if rows == [] then [] else InsertRow(rows[0], SortRows(rows[1..]))
  }

  lemma {:induction false} InsertRowKeeps(row: RouteComparison, rows: seq<RouteComparison>)
    ensures multiset(InsertRow(row, rows)) == multiset(rows) + multiset{row}
  {
    if rows != [] && row.netOutput < rows[0].netOutput {
      InsertRowKeeps(row, rows[1..]);
      assert rows == [rows[0]] + rows[1..];
    }
  }

  lemma ConsFalls(row: RouteComparison, rows: seq<RouteComparison>)
    requires Falling(rows) && (rows != [] ==> row.netOutput >= rows[0].netOutput)
    ensures Falling([row] + rows)
  {
  }

  lemma {:induction false} InsertRowFalls(row: RouteComparison, rows: seq<RouteComparison>)
    requires Falling(rows)
    ensures Falling(InsertRow(row, rows))
    ensures InsertRow(row, rows) != []
    ensures var head := InsertRow(row, rows)[0]; head == row || (rows != [] && head == rows[0])
  {
    if rows == [] || row.netOutput >= rows[0].netOutput {
      ConsFalls(row, rows);
    } else {
      InsertRowFalls(row, rows[1..]);
      ConsFalls(rows[0], InsertRow(row, rows[1..]));
    }
  }

  lemma {:induction false} SortRowsSorts(rows: seq<RouteComparison>)
    ensures Falling(SortRows(rows)) && multiset(SortRows(rows)) == multiset(rows)
  {
    if rows != [] {
      SortRowsSorts(rows[1..]);
      InsertRowFalls(rows[0], SortRows(rows[1..]));
      InsertRowKeeps(rows[0], SortRows(rows[1..]));
      assert rows == [rows[0]] + rows[1..];
    }
  }

  predicate IsFirstGreatest(rows: seq<RouteComparison>, k: nat) {
    && k < |rows|
    && (forall i :: 0 <= i < k ==> rows[i].netOutput < rows[k].netOutput)
    && forall i :: 0 <= i < |rows| ==> rows[i].netOutput <= rows[k].netOutput
  }

  lemma ConsFirstGreatest(row: RouteComparison, rows: seq<RouteComparison>, k: nat)
    requires IsFirstGreatest(rows, k)
    ensures IsFirstGreatest([row] + rows, if row.netOutput < rows[k].netOutput then k + 1 else 0)
  {
    var all := [row] + rows;
    assert forall i :: 0 < i < |all| ==> all[i] == rows[i - 1];
  }

  /** The first row of greatest net output comes first. */
  lemma {:induction false} SortHead(rows: seq<RouteComparison>) returns (k: nat)
    requires rows != []
    ensures IsFirstGreatest(rows, k) && SortRows(rows) != [] && SortRows(rows)[0] == rows[k]
  {
    var rest := rows[1..];
    assert rows == [rows[0]] + rest;
    k := 0;
    if rest != [] {
      var l := SortHead(rest);
      ConsFirstGreatest(rows[0], rest, l);
      if rows[0].netOutput < rest[l].netOutput { k := l + 1; }
    }
  }

  lemma RowNets(r: Route, amountIn: int, gas: Gas)
    requires WellFormed(r)
    ensures CompareRow(r, amountIn, gas).Ok? <==> NetOutput(r, amountIn, gas).Ok?
    ensures CompareRow(r, amountIn, gas).Ok? ==>
              NetOutput(r, amountIn, gas) == Ok(CompareRow(r, amountIn, gas).value.netOutput)
    ensures CompareRow(r, amountIn, gas).Ok? ==>
              var row := CompareRow(r, amountIn, gas).value;
              && row.route == r && OutputFrom(r, 0, amountIn) == Ok(row.grossOutput)
              && row.gasEstimate == gas.base + |r.pools| * gas.perHop
              && row.gasCost * gas.ethPriceInOutputToken == ExactGas(|r.pools|, gas)
  {
  }

  /** However ties are ordered, there is one row for each route, and the head of the ranking nets
      what the best route nets. */
  lemma RankingHeadIsBest(routes: seq<Route>, amountIn: int, gas: Gas, rows: seq<RouteComparison>)
    requires AllWellFormed(routes) && routes != [] && IsRanking(routes, amountIn, gas, rows)
    ensures |rows| == |routes| && BestRoute(routes, amountIn, gas).Ok?
    ensures rows[0].netOutput == BestRoute(routes, amountIn, gas).value.1
  {
    var unsorted := CompareRows(routes, amountIn, gas).value;
    assert |rows| == |multiset(rows)| && |unsorted| == |multiset(unsorted)|;
    forall i | 0 <= i < |routes|
      ensures NetOutput(routes[i], amountIn, gas) == Ok(unsorted[i].netOutput)
      ensures unsorted[i].netOutput <= rows[0].netOutput
    {
      RowNets(routes[i], amountIn, gas);
      assert unsorted[i] in multiset(rows);
      var j :| 0 <= j < |rows| && rows[j] == unsorted[i];
    }
    BestRouteIsMaximum(routes, amountIn, gas);
    assert rows[0] in multiset(unsorted);
    var k :| 0 <= k < |unsorted| && unsorted[k] == rows[0];
  }

  /** The stable sort of the rows is a ranking, and its head is the very route that is chosen as
      the best. */
  lemma StableRankingHeadIsBestRoute(routes: seq<Route>, amountIn: int, gas: Gas)
    requires AllWellFormed(routes) && CompareRows(routes, amountIn, gas).Ok?
    ensures var rows := SortRows(CompareRows(routes, amountIn, gas).value);
            && IsRanking(routes, amountIn, gas, rows)
            && (routes != [] ==>
                  && rows != [] && BestRoute(routes, amountIn, gas).Ok?
                  && rows[0].route == BestRoute(routes, amountIn, gas).value.0)
  {
    var unsorted := CompareRows(routes, amountIn, gas).value;
    SortRowsSorts(unsorted);
    forall i | 0 <= i < |routes|
      ensures NetOutput(routes[i], amountIn, gas) == Ok(unsorted[i].netOutput)
    {
      RowNets(routes[i], amountIn, gas);
    }
    if routes != [] {
      var k := SortHead(unsorted);
      BestRouteIsMaximum(routes, amountIn, gas);
      var (r, net) := BestRoute(routes, amountIn, gas).value;
      var l :| 0 <= l < |routes| && routes[l] == r
               && forall i :: 0 <= i < l ==> NetOutput(routes[i], amountIn, gas).value < net;
      assert NetOutput(routes[l], amountIn, gas) == Ok(net);
      assert l == k;
    }
  }

  // ----- the route finder -----

  function IndexOf(pools: seq<Pair>, a: Address): (k: int)
    ensures -1 <= k < |pools|
    ensures k == -1 ==> !Visited(pools, a)
    ensures k >= 0 ==> pools[k].address == a && !Visited(pools[..k], a)
  {
    if pools == [] then -1
    else
      var front := pools[..|pools| - 1];
      var k := IndexOf(front, a);
      assert forall i :: 0 <= i < |front| ==> front[i] == pools[i];
      if k >= 0 then assert pools[..k] == front[..k]; k
      else if pools[|pools| - 1].address == a then assert pools[..|pools| - 1] == front; |pools| - 1
      else -1
  }

  /** The pool list and graph after `UpdatePool`; an unknown address changes neither. */
  function UpdatedPools(pools: seq<Pair>, u: Pair): seq<Pair> {
    var k := IndexOf(pools, u.address);
    if k == -1 then pools else pools[k := u]
  }

  function UpdatedGraph(pools: seq<Pair>, g: Graph, u: Pair): Graph {
    if IndexOf(pools, u.address) == -1 then g else PatchGraph(g, u)
  }

  class RouteFinder {
    var pools: seq<Pair>
    var graph: Graph
    const gasBase: int
    const gasPerHop: int

    constructor (pools: seq<Pair>, gasBase: int, gasPerHop: int)
      ensures this.pools == pools && graph == GraphOf(pools)
      ensures this.gasBase == gasBase && this.gasPerHop == gasPerHop
    {
      this.pools := pools;
      this.gasBase := gasBase;
      this.gasPerHop := gasPerHop;
      graph := map[];
      new;
      graph := BuildGraph(pools);
    }

    method UpdatePool(updated: Pair)
      modifies `pools, `graph
      ensures pools == UpdatedPools(old(pools), updated)
      ensures graph == UpdatedGraph(old(pools), old(graph), updated)
    {
      var idx := IndexOf(pools, updated.address);
      if idx == -1 {
        return;
      }
      pools := pools[idx := updated];
      var keys := graph.Keys;
      while keys != {}
        invariant keys <= graph.Keys == old(graph).Keys
        invariant pools == UpdatedPools(old(pools), updated)
        invariant forall key :: key in graph ==>
                    graph[key] == if key in keys then old(graph)[key] else PatchEdges(old(graph)[key], updated)
        decreases |keys|
      {
        var key :| key in keys;
        var edges := graph[key];
        for i := 0 to |edges|
          invariant |edges| == |old(graph)[key]|
          invariant forall j :: 0 <= j < |edges| ==>
                      edges[j] == if j < i then Patched(old(graph)[key][j], updated) else old(graph)[key][j]
        {
          if edges[i].pool.address == updated.address {
            edges := edges[i := Edge(updated, edges[i].otherToken)];
          }
        }
        assert edges == PatchEdges(old(graph)[key], updated);
        graph := graph[key := edges];
        keys := keys - {key};
      }
    }

    method FindAllRoutes(tokenIn: Token, tokenOut: Token, maxHops: int) returns (routes: seq<Route>)
      ensures routes == AllRoutes(graph, tokenIn, Query(tokenOut, maxHops))
    {
      routes := Dfs(tokenIn, Query(tokenOut, maxHops), Route([], [tokenIn]), {}, []);
    }

    /** The search from `current`, pushing onto the routes found so far. */
    method Dfs(current: Token, q: Query, acc: Route, visited: set<Address>, found: seq<Route>)
      returns (routes: seq<Route>)
      requires forall a :: a in visited <==> Visited(acc.pools, a)
      ensures routes == found + Explore(graph, q, acc, Neighbours(graph, current.address))
      decreases if |acc.pools| < q.maxHops then q.maxHops - |acc.pools| else 0
    {
      routes := found;
      var edges := Neighbours(graph, current.address);
      for i := 0 to |edges|
        invariant routes + Explore(graph, q, acc, edges[i..]) == found + Explore(graph, q, acc, edges)
      {
        var Edge(pool, other) := edges[i];
        assert edges[i..][1..] == edges[i + 1..];
        var through := Through(graph, q, acc, edges[i..]);
        assert (routes + through) + Explore(graph, q, acc, edges[i + 1..]) == found + Explore(graph, q, acc, edges);
        if pool.address in visited {
          continue;
        }
        var next := Route(acc.pools + [pool], acc.path + [other]);
        if other.address == q.tokenOut.address {
          routes := routes + [next];
        } else if |next.pools| < q.maxHops {
          VisitedGrows(acc.pools, pool);
          routes := Dfs(other, q, next, visited + {pool.address}, routes);
        }
      }
    }

    method FindBestRoute(tokenIn: Token, tokenOut: Token, amountIn: int, gasPriceGwei: int, maxHops: int, ethPrice: int)
      returns (best: Result<(Route, int)>)
      ensures var routes := AllRoutes(graph, tokenIn, Query(tokenOut, maxHops));
              AllWellFormed(routes)
              && best == BestRoute(routes, amountIn, Gas(gasBase, gasPerHop, gasPriceGwei, ethPrice))
    {
      var routes := FindAllRoutes(tokenIn, tokenOut, maxHops);
      AllRoutesWellFormed(graph, tokenIn, Query(tokenOut, maxHops));
      if |routes| == 0 {
        return Err(NoRouteFound);
      }
      var gas := Gas(gasBase, gasPerHop, gasPriceGwei, ethPrice);
      var bestRoute := routes[0];
      var bestNet :- NetOutput(routes[0], amountIn, gas);
      for i := 1 to |routes|
        invariant BestOf((bestRoute, bestNet), routes[i..], amountIn, gas) == BestRoute(routes, amountIn, gas)
      {
        assert routes[i..][1..] == routes[i + 1..];
        var net :- NetOutput(routes[i], amountIn, gas);
        if net > bestNet {
          bestNet := net;
          bestRoute := routes[i];
        }
      }
      return Ok((bestRoute, bestNet));
    }

    /** The rows are sorted stably, which is one of the orders the comparator allows. */
    method CompareRoutes(tokenIn: Token, tokenOut: Token, amountIn: int, gasPriceGwei: int, maxHops: int, ethPrice: int)
      returns (ranking: Result<seq<RouteComparison>>)
      ensures var routes := AllRoutes(graph, tokenIn, Query(tokenOut, maxHops));
              var gas := Gas(gasBase, gasPerHop, gasPriceGwei, ethPrice);
              && AllWellFormed(routes)
              && (ranking.Ok? <==> forall i :: 0 <= i < |routes| ==> CompareRow(routes[i], amountIn, gas).Ok?)
              && (ranking.Ok? ==>
                    && IsRanking(routes, amountIn, gas, ranking.value)
                    && (routes != [] ==>
                          && ranking.value != [] && BestRoute(routes, amountIn, gas).Ok?
                          && ranking.value[0].route == BestRoute(routes, amountIn, gas).value.0))
    {
      var routes := FindAllRoutes(tokenIn, tokenOut, maxHops);
      AllRoutesWellFormed(graph, tokenIn, Query(tokenOut, maxHops));
      var gas := Gas(gasBase, gasPerHop, gasPriceGwei, ethPrice);
      var rows :- CompareRows(routes, amountIn, gas);
      StableRankingHeadIsBestRoute(routes, amountIn, gas);
      return Ok(SortRows(rows));
    }
  }

  lemma VisitedGrows(pools: seq<Pair>, p: Pair)
    ensures forall a :: Visited(pools + [p], a) <==> Visited(pools, a) || a == p.address
  {
    forall a
      ensures Visited(pools + [p], a) <==> Visited(pools, a) || a == p.address
    {
      assert (pools + [p])[|pools|] == p;
      if Visited(pools, a) {
        var i :| 0 <= i < |pools| && pools[i].address == a;
        assert (pools + [p])[i].address == a;
      }
    }
  }

  lemma AllRoutesWellFormed(g: Graph, tokenIn: Token, q: Query)
    ensures AllWellFormed(AllRoutes(g, tokenIn, q))
  {
    var routes := AllRoutes(g, tokenIn, q);
    forall i | 0 <= i < |routes|
      ensures WellFormed(routes[i])
    {
      assert routes[i] in routes;
      ExploreIsContinues(g, q, Route([], [tokenIn]), Neighbours(g, tokenIn.address), tokenIn.address, routes[i]);
    }
  }
}
