/** The pool map and the route finder of the pricing engine, kept coherent under refreshes and
    Sync events. Each atomic section of an asynchronous method is one event: the pairs it has
    fetched are its argument. */
module PricingEngine {
  import opened JsMath
  import opened UniswapV2Pair
  import opened RouteGraph
  import opened RouteSearch
  import opened Routing
  import Calc = UniswapV2Calculator

  const GAS_BASE: int := 150_000
  const GAS_PER_HOP: int := 100_000
  const MAX_HOPS: int := 3

  datatype Router = Router(pools: seq<Pair>, graph: Graph)

  /** The abstract state. `order` is the insertion order of the pool map. */
  datatype State = State(pools: map<Address, Pair>, order: seq<Address>,
    router: Option<Router>, syncs: map<Address, nat>)

  datatype Event =
    | LoadPools(pairs: seq<Pair>)
    | RefreshPool(pair: Pair)
    | RefreshPools(pairs: seq<Pair>)
    | Sync(address: Address, reserve0: Option<int>, reserve1: Option<int>)

  function SetPool(s: State, key: Address, p: Pair): State {
    s.(pools := s.pools[key := p], order := if key in s.pools then s.order else s.order + [key])
  }

  function SetPools(s: State, pairs: seq<Pair>): State {
    if pairs == [] then s
    else
      var n := |pairs| - 1;
      SetPool(SetPools(s, pairs[..n]), pairs[n].address, pairs[n])
  }

  /** The values of the pool map, in insertion order. */
  function Values(pools: map<Address, Pair>, order: seq<Address>): (vs: seq<Pair>)
    requires forall a :: a in order ==> a in pools
    ensures |vs| == |order| && forall i :: 0 <= i < |vs| ==> vs[i] == pools[order[i]]
  {
    seq(|order|, i requires 0 <= i < |order| => pools[order[i]])
  }

  function Patch(s: State, p: Pair): State {
    match s.router
    case None => s
    case Some(r) => s.(router := Some(Router(UpdatedPools(r.pools, p), UpdatedGraph(r.pools, r.graph, p))))
  }

  function Refresh(s: State, p: Pair): State { Patch(SetPool(s, p.address, p), p) }

  function RefreshAll(s: State, pairs: seq<Pair>): State {
    if pairs == [] then s
    else
      var n := |pairs| - 1;
      Refresh(RefreshAll(s, pairs[..n]), pairs[n])
  }

  function Step(s: State, e: Event): State
    requires Listed(s)
  {
    match e
    case LoadPools(pairs) =>
      SetPoolsKeys(s, pairs);
      var s' := SetPools(s, pairs);
      var vs := Values(s'.pools, s'.order);
      s'.(router := Some(Router(vs, GraphOf(vs))))
    case RefreshPool(p) => Refresh(s, p)
    case RefreshPools(pairs) => RefreshAll(s, pairs)
    case Sync(a, r0, r1) =>
      if a in s.pools && r0.Some? && r1.Some? then
        var p := s.pools[a];
        var updated := Pair(p.address, p.token0, p.token1, r0.value, r1.value, p.feeBps);
        var s' := Patch(SetPool(s, a, updated), updated);
        s'.(syncs := s'.syncs[a := (if a in s'.syncs then s'.syncs[a] else 0) + 1])
      else s
  }

  /** The order lists exactly the keys. */
  ghost predicate Listed(s: State) { forall a :: a in s.order <==> a in s.pools }

  lemma SetPoolListed(s: State, key: Address, p: Pair)
    requires Listed(s)
    ensures Listed(SetPool(s, key, p))
  {
  }

  lemma {:induction false} SetPoolsKeys(s: State, pairs: seq<Pair>)
    requires Listed(s)
    ensures Listed(SetPools(s, pairs))
  {
    if pairs != [] {
      var n := |pairs| - 1;
      SetPoolsKeys(s, pairs[..n]);
      SetPoolListed(SetPools(s, pairs[..n]), pairs[n].address, pairs[n]);
    }
  }

  // ----- coherence over runs -----

  /** What never changes about a pool: which two tokens its address trades. */
  type Tokens = Address -> (Token, Token)

  ghost predicate Conforms(tok: Tokens, p: Pair) {
    tok(p.address) == (p.token0, p.token1) && p.token0.address != p.token1.address
  }

  ghost predicate EventConforms(tok: Tokens, e: Event) {
    match e
    case LoadPools(pairs) => forall p :: p in pairs ==> Conforms(tok, p)
    case RefreshPool(p) => Conforms(tok, p)
    case RefreshPools(pairs) => forall p :: p in pairs ==> Conforms(tok, p)
    case Sync(_, _, _) => true
  }

  /** The pool map is keyed by the pools' own addresses, in an order without repetition. */
  ghost predicate MapOk(tok: Tokens, s: State) {
    && Listed(s)
    && (forall i, j :: 0 <= i < j < |s.order| ==> s.order[i] != s.order[j])
    && (forall a :: a in s.pools ==> s.pools[a].address == a && Conforms(tok, s.pools[a]))
  }

  /** The router's graph is what building it from its pools would give, and each of its pools is
      the one stored in the map. */
  ghost predicate RouterOk(s: State) {
    s.router.Some? ==>
      var r := s.router.value;
      r.graph == GraphOf(r.pools) && UniqueAddresses(r.pools) && Stores(s.pools, r.pools)
  }

  ghost predicate Coherent(tok: Tokens, s: State) { MapOk(tok, s) && RouterOk(s) }

  lemma SetPoolOk(tok: Tokens, s: State, p: Pair)
    requires MapOk(tok, s) && Conforms(tok, p)
    ensures MapOk(tok, SetPool(s, p.address, p))
  {
    SetPoolListed(s, p.address, p);
  }

  lemma UpdatedPoolsStored(pools: map<Address, Pair>, list: seq<Pair>, p: Pair)
    requires UniqueAddresses(list) && Stores(pools, list)
    ensures UniqueAddresses(UpdatedPools(list, p)) && Stores(pools[p.address := p], UpdatedPools(list, p))
  {
    var k := IndexOf(list, p.address);
    var updated := UpdatedPools(list, p);
    forall q | q in updated
      ensures q.address in pools[p.address := p] && pools[p.address := p][q.address] == q
    {
      var i :| 0 <= i < |updated| && updated[i] == q;
      if i != k { assert list[i] in list && list[i].address != p.address; }
    }
  }

  lemma RefreshCoherent(tok: Tokens, s: State, p: Pair)
    requires Coherent(tok, s) && Conforms(tok, p)
    ensures Coherent(tok, Refresh(s, p))
  {
    SetPoolOk(tok, s, p);
    if s.router.Some? {
      var r := s.router.value;
      UpdatedPoolsStored(s.pools, r.pools, p);
      var k := IndexOf(r.pools, p.address);
      if k >= 0 {
        assert r.pools[k] in r.pools;
        PatchIsRebuildIff(r.pools, k, p);
      }
    }
  }

  lemma {:induction false} RefreshAllCoherent(tok: Tokens, s: State, pairs: seq<Pair>)
    requires Coherent(tok, s) && forall p :: p in pairs ==> Conforms(tok, p)
    ensures Coherent(tok, RefreshAll(s, pairs))
  {
    if pairs != [] {
      RefreshAllCoherent(tok, s, pairs[..|pairs| - 1]);
      RefreshCoherent(tok, RefreshAll(s, pairs[..|pairs| - 1]), pairs[|pairs| - 1]);
    }
  }

  lemma {:induction false} SetPoolsOk(tok: Tokens, s: State, pairs: seq<Pair>)
    requires MapOk(tok, s) && forall p :: p in pairs ==> Conforms(tok, p)
    ensures MapOk(tok, SetPools(s, pairs))
  {
    if pairs != [] {
      var n := |pairs| - 1;
      SetPoolsOk(tok, s, pairs[..n]);
      SetPoolOk(tok, SetPools(s, pairs[..n]), pairs[n]);
    }
  }

  lemma StepCoherent(tok: Tokens, s: State, e: Event)
    requires Coherent(tok, s) && EventConforms(tok, e)
    ensures Coherent(tok, Step(s, e))
  {
    match e
    case LoadPools(pairs) =>
      SetPoolsOk(tok, s, pairs);
      var s' := SetPools(s, pairs);
      var vs := Values(s'.pools, s'.order);
      forall i, j | 0 <= i < j < |vs|
        ensures vs[i].address != vs[j].address
      {
        assert s'.order[i] != s'.order[j] && s'.order[i] in s'.pools && s'.order[j] in s'.pools;
      }
    case RefreshPool(p) => RefreshCoherent(tok, s, p);
    case RefreshPools(pairs) => RefreshAllCoherent(tok, s, pairs);
    case Sync(a, r0, r1) =>
      if a in s.pools && r0.Some? && r1.Some? {
        var p := s.pools[a];
        RefreshCoherent(tok, s, Pair(p.address, p.token0, p.token1, r0.value, r1.value, p.feeBps));
      }
  }

  /** The state after a list of events. */
  ghost function Run(tok: Tokens, s: State, events: seq<Event>): State
    requires Coherent(tok, s) && forall e :: e in events ==> EventConforms(tok, e)
    decreases |events|
  {
    if events == [] then s
    else
      StepCoherent(tok, s, events[0]);
      Run(tok, Step(s, events[0]), events[1..])
  }

  const EMPTY: State := State(map[], [], None, map[])

  /** After any run the patched graph is the rebuilt graph over the stored pools; so every route
      the router returns is a trail of pools that are current in the engine's map. */
  lemma {:induction false} RunCoherent(tok: Tokens, s: State, events: seq<Event>)
    requires Coherent(tok, s) && forall e :: e in events ==> EventConforms(tok, e)
    ensures Coherent(tok, Run(tok, s, events))
    decreases |events|
  {
    if events != [] {
      StepCoherent(tok, s, events[0]);
      RunCoherent(tok, Step(s, events[0]), events[1..]);
    }
  }

  lemma RoutesAreCurrent(tok: Tokens, events: seq<Event>, tokenIn: Token, q: Query, r: Route)
    requires forall e :: e in events ==> EventConforms(tok, e)
    requires Run(tok, EMPTY, events).router.Some?
    ensures var s := Run(tok, EMPTY, events);
            r in AllRoutes(s.router.value.graph, tokenIn, q) <==>
            IsTrail(s.router.value.pools, tokenIn, q, r) && Stores(s.pools, r.pools)
  {
    RunCoherent(tok, EMPTY, events);
    var s := Run(tok, EMPTY, events);
    RoutesAreTrails(s.router.value.pools, tokenIn, q, r);
    if IsTrail(s.router.value.pools, tokenIn, q, r) {
      forall p | p in r.pools
        ensures p in s.router.value.pools
      {
        var i :| 0 <= i < |r.pools| && r.pools[i] == p;
        assert Hop(r.pools[i], r.path[i].address, r.path[i + 1]);
      }
    }
  }

  // ----- the quote used for signals -----

  /** The net output of the best route at a gas price of zero; None stands for a thrown QuoteError. */
  function AmmQuote(g: Graph, tokenIn: Token, tokenOut: Token, amountIn: int): Option<int> {
    var q := Query(tokenOut, MAX_HOPS);
    AllRoutesWellFormed(g, tokenIn, q);
    match BestRoute(AllRoutes(g, tokenIn, q), amountIn, Gas(GAS_BASE, GAS_PER_HOP, 0, Calc.PRICE_SCALE))
    case Ok(best) => Some(best.1)
    case Err(_) => None
  }

  /** The quote is the greatest output of all trails of at most three hops; there is none exactly when
      there is no such trail or one of them cannot be quoted. */
  lemma AmmQuoteIsGreatest(pools: seq<Pair>, tokenIn: Token, tokenOut: Token, amountIn: int)
    requires AllLive(pools) && amountIn >= 0
    ensures var q, quote := Query(tokenOut, 3), AmmQuote(GraphOf(pools), tokenIn, tokenOut, amountIn);
            && (quote.Some? <==>
                  && (exists r :: IsTrail(pools, tokenIn, q, r))
                  && forall r :: IsTrail(pools, tokenIn, q, r) ==> OutputFrom(r, 0, amountIn).Ok?)
            && (quote.Some? ==>
                  && (exists r :: IsTrail(pools, tokenIn, q, r) && OutputFrom(r, 0, amountIn) == Ok(quote.value))
                  && forall r :: IsTrail(pools, tokenIn, q, r) ==> OutputFrom(r, 0, amountIn).value <= quote.value)
  {
    var q, gas := Query(tokenOut, MAX_HOPS), Gas(GAS_BASE, GAS_PER_HOP, 0, Calc.PRICE_SCALE);
    var routes := AllRoutes(GraphOf(pools), tokenIn, q);
    AllRoutesWellFormed(GraphOf(pools), tokenIn, q);
    BestRouteIsMaximum(routes, amountIn, gas);
    forall r
      ensures IsTrail(pools, tokenIn, q, r) <==> exists i :: 0 <= i < |routes| && routes[i] == r
      ensures IsTrail(pools, tokenIn, q, r) ==> NetOutput(r, amountIn, gas) == OutputFrom(r, 0, amountIn)
    {
      RoutesAreTrails(pools, tokenIn, q, r);
      if IsTrail(pools, tokenIn, q, r) { FreeGasNetsGross(pools, tokenIn, q, r, amountIn, gas); }
    }
  }

  lemma FreeGasNetsGross(pools: seq<Pair>, tokenIn: Token, q: Query, r: Route, amountIn: int, gas: Gas)
    requires AllLive(pools) && IsTrail(pools, tokenIn, q, r) && gas.priceGwei == 0 && amountIn >= 0
    ensures NetOutput(r, amountIn, gas) == OutputFrom(r, 0, amountIn)
  {
    forall p | p in r.pools
      ensures p in pools
    {
      var i :| 0 <= i < |r.pools| && r.pools[i] == p;
      assert Hop(r.pools[i], r.path[i].address, r.path[i + 1]);
    }
    OutputNonNegative(r, 0, amountIn);
    assert GasCost(r, gas) == 0;
  }

  lemma {:induction false} OutputNonNegative(r: Route, i: nat, amount: int)
    requires WellFormed(r) && i <= |r.pools| && AllLive(r.pools) && amount >= 0
    ensures OutputFrom(r, i, amount).Ok? ==> OutputFrom(r, i, amount).value >= 0
    decreases |r.pools| - i
  {
    if i < |r.pools| {
      QuoteDefined(r.pools[i], amount, r.path[i]);
      var next := r.pools[i].GetAmountOut(amount, r.path[i]);
      if next.Ok? { OutputNonNegative(r, i + 1, next.value); }
    }
  }

  /** With a single pool loaded, the quote is that pool's own quote. */
  lemma SinglePoolQuote(p: Pair, tokenIn: Token, tokenOut: Token, amountIn: int)
    requires p.Live() && p.token0.address != p.token1.address
    requires p.Trades(tokenIn) && p.Trades(tokenOut) && tokenIn.address != tokenOut.address
    ensures AmmQuote(GraphOf([p]), tokenIn, tokenOut, amountIn) ==
            match p.GetAmountOut(amountIn, tokenIn)
            case Ok(out) => Some(out)
            case Err(_) => None
  {
    var q, gas := Query(tokenOut, MAX_HOPS), Gas(GAS_BASE, GAS_PER_HOP, 0, Calc.PRICE_SCALE);
    var routes := AllRoutes(GraphOf([p]), tokenIn, q);
    AllRoutesWellFormed(GraphOf([p]), tokenIn, q);
    forall i | 0 <= i < |routes|
      ensures NetOutput(routes[i], amountIn, gas) == p.GetAmountOut(amountIn, tokenIn)
    {
      assert routes[i] in routes;
      RoutesAreTrails([p], tokenIn, q, routes[i]);
      OnlyHop(p, tokenIn, q, routes[i], amountIn, gas);
    }
    var other := if p.IsToken0(tokenIn) then p.token1 else p.token0;
    RoutesAreTrails([p], tokenIn, q, Route([p], [tokenIn, other]));
    assert routes != [];
    BestRouteIsMaximum(routes, amountIn, gas);
  }

  lemma OnlyHop(p: Pair, tokenIn: Token, q: Query, r: Route, amountIn: int, gas: Gas)
    requires p.Live() && IsTrail([p], tokenIn, q, r) && gas.priceGwei == 0
    ensures NetOutput(r, amountIn, gas) == p.GetAmountOut(amountIn, tokenIn)
  {
    forall i | 0 <= i < |r.pools|
      ensures r.pools[i] == p
    {
      assert Hop(r.pools[i], r.path[i].address, r.path[i + 1]);
    }
    assert |r.pools| > 1 ==> r.pools[0].address != r.pools[1].address;
    assert OutputFrom(r, 0, amountIn) == p.GetAmountOut(amountIn, tokenIn);
    assert GasCost(r, gas) == 0;
    QuoteDefined(p, amountIn, tokenIn);
  }

  // ----- the engine -----

  class PricingEngine {
    var pools: map<Address, Pair>
    var order: seq<Address>
    var router: RouteFinder?
    var syncCounters: map<Address, nat>

    constructor ()
      ensures Abstract() == EMPTY && router == null
    {
      pools := map[];
      order := [];
      router := null;
      syncCounters := map[];
    }

    ghost function Abstract(): State
      reads this, router
    {
      State(pools, order, if router == null then None else Some(Router(router.pools, router.graph)), syncCounters)
    }

    ghost predicate Valid()
      reads this, router
    {
      && Listed(Abstract())
      && (router != null ==> router.gasBase == GAS_BASE && router.gasPerHop == GAS_PER_HOP)
    }

    method Set(key: Address, p: Pair)
      modifies `pools, `order
      ensures Abstract() == SetPool(old(Abstract()), key, p)
    {
      order := if key in pools then order else order + [key];
      pools := pools[key := p];
    }

    method LoadPools(pairs: seq<Pair>)
      requires Valid()
      modifies this
      ensures Valid() && fresh(router) && Abstract() == Step(old(Abstract()), Event.LoadPools(pairs))
    {
      ghost var s := Abstract();
      for i := 0 to |pairs|
        invariant Abstract() == SetPools(s, pairs[..i]) && router == old(router)
      {
        Set(pairs[i].address, pairs[i]);
        assert pairs[..i + 1][..i] == pairs[..i];
      }
      assert pairs[..|pairs|] == pairs;
      SetPoolsKeys(s, pairs);
      router := new RouteFinder(Values(pools, order), GAS_BASE, GAS_PER_HOP);
    }

    method RefreshPool(pair: Pair)
      requires Valid()
      modifies this, router
      ensures Valid() && router == old(router) && Abstract() == Step(old(Abstract()), Event.RefreshPool(pair))
    {
      Set(pair.address, pair);
      if router != null {
        router.UpdatePool(pair);
      }
    }

    method RefreshPools(pairs: seq<Pair>)
      requires Valid()
      modifies this, router
      ensures Valid() && router == old(router) && Abstract() == Step(old(Abstract()), Event.RefreshPools(pairs))
    {
      ghost var s := Abstract();
      for i := 0 to |pairs|
        invariant Valid() && router == old(router) && Abstract() == RefreshAll(s, pairs[..i])
      {
        RefreshPool(pairs[i]);
        assert pairs[..i + 1][..i] == pairs[..i];
      }
      assert pairs[..|pairs|] == pairs;
    }

    /** One decoded Sync log for `address`; a missing reserve is None. */
    method OnSync(address: Address, r0: Option<int>, r1: Option<int>)
      requires Valid()
      modifies this, router
      ensures Valid() && router == old(router) && Abstract() == Step(old(Abstract()), Sync(address, r0, r1))
    {
      if address in pools && r0.Some? && r1.Some? {
        var existing := pools[address];
        var updated := Pair(existing.address, existing.token0, existing.token1, r0.value, r1.value, existing.feeBps);
        Set(address, updated);
        if router != null {
          router.UpdatePool(updated);
        }
        var count := (if address in syncCounters then syncCounters[address] else 0) + 1;
        syncCounters := syncCounters[address := count];
      }
    }

    method GetAmmQuote(tokenIn: Token, tokenOut: Token, amountIn: int) returns (quote: Option<int>)
      requires Valid()
      ensures quote == if router == null then None else AmmQuote(router.graph, tokenIn, tokenOut, amountIn)
    {
      if router == null {
        return None;
      }
      var best := router.FindBestRoute(tokenIn, tokenOut, amountIn, 0, MAX_HOPS, Calc.PRICE_SCALE);
      return match best case Ok(b) => Some(b.1) case Err(_) => None;
    }
  }
}
