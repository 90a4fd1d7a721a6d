/** What the engine knows, read off the events themselves: which pool stands at an address after a
    run, in what order pools are listed, which of them the router has, and how often they synced. */
module PoolHistory {
  import opened JsMath
  import opened UniswapV2Pair
  import opened RouteGraph
  import opened RouteSearch
  import opened Routing
  import opened PricingEngine
  import Engine = PricingEngine

  // ----- what an event says about an address -----

  function PairsOf(e: Event): seq<Pair> {
    match e
    case LoadPools(pairs) => pairs
    case RefreshPool(p) => [p]
    case RefreshPools(pairs) => pairs
    case Sync(_, _, _) => []
  }

  /** The event fetches the pool at `a`. */
  predicate Fetches(e: Event, a: Address) { Visited(PairsOf(e), a) }

  /** The last pair fetched for `a`. */
  function LastAt(pairs: seq<Pair>, a: Address): (p: Pair)
    requires Visited(pairs, a)
    ensures p.address == a
  {
    var n := |pairs| - 1;
    if pairs[n].address == a then pairs[n]
    else
      assert Visited(pairs[..n], a) by {
        var i :| 0 <= i < |pairs| && pairs[i].address == a;
        assert pairs[..n][i].address == a;
      }
      LastAt(pairs[..n], a)
  }

  /** The event is a log with both reserves for the pool at `a`. */
  predicate Syncs(e: Event, a: Address) {
    e.Sync? && e.address == a && e.reserve0.Some? && e.reserve1.Some?
  }

  lemma VisitedSnoc(pairs: seq<Pair>, a: Address)
    requires pairs != []
    ensures var n := |pairs| - 1; Visited(pairs, a) <==> Visited(pairs[..n], a) || pairs[n].address == a
  {
    var n := |pairs| - 1;
    VisitedGrows(pairs[..n], pairs[n]);
    assert pairs[..n] + [pairs[n]] == pairs;
  }

  // ----- one step -----

  lemma {:induction false} SetPoolsStores(s: State, pairs: seq<Pair>, a: Address)
    ensures a in SetPools(s, pairs).pools <==> a in s.pools || Visited(pairs, a)
    ensures Visited(pairs, a) ==> SetPools(s, pairs).pools[a] == LastAt(pairs, a)
    ensures !Visited(pairs, a) && a in s.pools ==> SetPools(s, pairs).pools[a] == s.pools[a]
    ensures SetPools(s, pairs).syncs == s.syncs && SetPools(s, pairs).router == s.router
  {
    if pairs != [] {
      SetPoolsStores(s, pairs[..|pairs| - 1], a);
      VisitedSnoc(pairs, a);
    }
  }

  lemma {:induction false} RefreshAllStores(s: State, pairs: seq<Pair>)
    ensures RefreshAll(s, pairs).pools == SetPools(s, pairs).pools
    ensures RefreshAll(s, pairs).order == SetPools(s, pairs).order
    ensures RefreshAll(s, pairs).syncs == s.syncs
  {
    if pairs != [] { RefreshAllStores(s, pairs[..|pairs| - 1]); }
  }

  lemma SetOneStores(s: State, p: Pair)
    ensures SetPools(s, [p]) == SetPool(s, p.address, p)
  {
    assert [p][..0] == [];
    assert SetPools(s, []) == s;
  }

  /** A fetched pool is stored as it was last fetched, a synced one keeps everything but its two
      reserves, which are those of the log in their order, and no other pool moves. */
  lemma StepStores(s: State, e: Event, a: Address)
    requires Listed(s)
    ensures var s' := Step(s, e);
            && (a in s'.pools <==> a in s.pools || Fetches(e, a))
            && (Fetches(e, a) ==> s'.pools[a] == LastAt(PairsOf(e), a))
            && (a in s.pools && Syncs(e, a) ==>
                  s.pools[a].SamePool(s'.pools[a])
                  && s'.pools[a].reserve0 == e.reserve0.value && s'.pools[a].reserve1 == e.reserve1.value)
            && (a in s.pools && !Fetches(e, a) && !Syncs(e, a) ==> s'.pools[a] == s.pools[a])
  {
    match e
    case LoadPools(pairs) => SetPoolsStores(s, pairs, a);
    case RefreshPool(p) =>
      SetOneStores(s, p);
      SetPoolsStores(s, [p], a);
    case RefreshPools(pairs) =>
      RefreshAllStores(s, pairs);
      SetPoolsStores(s, pairs, a);
    case Sync(_, _, _) =>
  }

  // ----- runs -----

  ghost predicate Conforming(tok: Tokens, events: seq<Event>) { forall e :: e in events ==> EventConforms(tok, e) }

  /** The state after a run from the start. */
  ghost function After(tok: Tokens, events: seq<Event>): State
    requires Conforming(tok, events)
  {
    Engine.Run(tok, EMPTY, events)
  }

  lemma {:induction false} RunSnoc(tok: Tokens, s: State, events: seq<Event>, e: Event)
    requires Coherent(tok, s) && Conforming(tok, events + [e])
    ensures Conforming(tok, events) && Coherent(tok, Engine.Run(tok, s, events)) && EventConforms(tok, e)
    ensures Engine.Run(tok, s, events + [e]) == Step(Engine.Run(tok, s, events), e)
    decreases |events|
  {
    var all := events + [e];
    assert all[|events|] == e && e in all;
    forall d | d in events ensures EventConforms(tok, d) { assert d in all; }
    RunCoherent(tok, s, events);
    if events == [] {
      assert all[0] == e && all[1..] == [];
      StepCoherent(tok, s, e);
      assert Engine.Run(tok, Step(s, e), []) == Step(s, e);
    } else {
      assert all[0] == events[0] && all[1..] == events[1..] + [e];
      assert events[0] in all;
      StepCoherent(tok, s, events[0]);
      RunSnoc(tok, Step(s, events[0]), events[1..], e);
    }
  }

  /** `p` is the pool fetched by event j, the last that fetches `a`, with the reserves of the last
      log after it, or its own when there is none. */
  ghost predicate ComesFrom(events: seq<Event>, a: Address, j: nat, p: Pair) {
    && j < |events| && Fetches(events[j], a) && (forall k :: j < k < |events| ==> !Fetches(events[k], a))
    && LastAt(PairsOf(events[j]), a).SamePool(p)
    && ((exists i :: j < i < |events| && LastSync(events, a, i, p)) || Unsynced(events, a, j, p))
  }

  /** Event i is the last log for `a`, and `p` has its reserves. */
  ghost predicate LastSync(events: seq<Event>, a: Address, i: nat, p: Pair) {
    && i < |events| && Syncs(events[i], a) && (forall k :: i < k < |events| ==> !Syncs(events[k], a))
    && p.reserve0 == events[i].reserve0.value && p.reserve1 == events[i].reserve1.value
  }

  ghost predicate Unsynced(events: seq<Event>, a: Address, j: nat, p: Pair)
    requires j < |events| && Fetches(events[j], a)
  {
    && (forall k :: j < k < |events| ==> !Syncs(events[k], a))
    && p == LastAt(PairsOf(events[j]), a)
  }

  lemma ComesFromNext(events: seq<Event>, a: Address, e: Event, p: Pair, p': Pair, j: nat)
    requires ComesFrom(events, a, j, p) && !Fetches(e, a)
    requires if Syncs(e, a)
             then p.SamePool(p') && p'.reserve0 == e.reserve0.value && p'.reserve1 == e.reserve1.value
             else p' == p
    ensures ComesFrom(events + [e], a, j, p')
  {
    var all := events + [e];
    assert forall k :: 0 <= k < |events| ==> all[k] == events[k];
    if Syncs(e, a) {
      assert LastSync(all, a, |events|, p');
    } else if i :| j < i < |events| && LastSync(events, a, i, p) {
      assert LastSync(all, a, i, p');
    } else {
      assert Unsynced(all, a, j, p');
    }
  }

  lemma ComesFromFetch(events: seq<Event>, a: Address, e: Event)
    requires Fetches(e, a)
    ensures ComesFrom(events + [e], a, |events|, LastAt(PairsOf(e), a))
  {
    assert (events + [e])[|events|] == e;
    assert Unsynced(events + [e], a, |events|, LastAt(PairsOf(e), a));
  }

  ghost predicate Fetched(events: seq<Event>, a: Address) { exists j :: 0 <= j < |events| && Fetches(events[j], a) }

  lemma FetchedSnoc(events: seq<Event>, a: Address, e: Event)
    ensures Fetched(events + [e], a) <==> Fetched(events, a) || Fetches(e, a)
  {
    var all := events + [e];
    assert all[|events|] == e;
    assert forall k :: 0 <= k < |events| ==> all[k] == events[k];
    if Fetched(events, a) {
      var j :| 0 <= j < |events| && Fetches(events[j], a);
      assert Fetches(all[j], a);
    }
  }

  /** After any run the engine has a pool at exactly the addresses that were fetched, and the pool at
      an address is the one last fetched for it with the reserves of the last log since. */
  lemma {:induction false} PoolsComeFromEvents(tok: Tokens, events: seq<Event>, a: Address)
    requires Conforming(tok, events)
    ensures a in After(tok, events).pools <==> Fetched(events, a)
    ensures a in After(tok, events).pools ==> exists j :: ComesFrom(events, a, j, After(tok, events).pools[a])
  {
    if events != [] {
      var n := |events| - 1;
      var front, e := events[..n], events[n];
      assert events == front + [e];
      RunSnoc(tok, EMPTY, front, e);
      PoolsComeFromEvents(tok, front, a);
      FetchedSnoc(front, a, e);
      StepStores(After(tok, front), e, a);
      if Fetches(e, a) {
        ComesFromFetch(front, a, e);
      } else if a in After(tok, front).pools {
        var j :| ComesFrom(front, a, j, After(tok, front).pools[a]);
        ComesFromNext(front, a, e, After(tok, front).pools[a], After(tok, events).pools[a], j);
      }
    }
  }

  // ----- the router -----

  function Addresses(pools: seq<Pair>): (keys: seq<Address>)
    ensures |keys| == |pools| && forall i :: 0 <= i < |keys| ==> keys[i] == pools[i].address
  {
    seq(|pools|, i requires 0 <= i < |pools| => pools[i].address)
  }

  /** Patching keeps the router's list of addresses. */
  lemma PatchKeepsAddresses(s: State, p: Pair)
    ensures Patch(s, p).router.Some? <==> s.router.Some?
    ensures s.router.Some? ==> Addresses(Patch(s, p).router.value.pools) == Addresses(s.router.value.pools)
  {
  }

  lemma {:induction false} RefreshAllKeepsAddresses(s: State, pairs: seq<Pair>)
    ensures RefreshAll(s, pairs).router.Some? <==> s.router.Some?
    ensures s.router.Some? ==> Addresses(RefreshAll(s, pairs).router.value.pools) == Addresses(s.router.value.pools)
  {
    if pairs != [] {
      var n := |pairs| - 1;
      RefreshAllKeepsAddresses(s, pairs[..n]);
      PatchKeepsAddresses(SetPool(RefreshAll(s, pairs[..n]), pairs[n].address, pairs[n]), pairs[n]);
    }
  }

  /** Loading makes a router of all pools in their order; no other event adds or drops one. So a pool
      first fetched by a refresh is not routed through before the next load. */
  lemma StepRouter(tok: Tokens, s: State, e: Event)
    requires Coherent(tok, s) && EventConforms(tok, e)
    ensures Step(s, e).router.Some? <==> s.router.Some? || e.LoadPools?
    ensures Step(s, e).router.Some? ==>
              Addresses(Step(s, e).router.value.pools)
              == if e.LoadPools? then Step(s, e).order else Addresses(s.router.value.pools)
  {
    StepCoherent(tok, s, e);
    match e
    case LoadPools(pairs) =>
      var s' := Step(s, e);
      assert Addresses(s'.router.value.pools) == s'.order;
    case RefreshPool(p) => PatchKeepsAddresses(SetPool(s, p.address, p), p);
    case RefreshPools(pairs) => RefreshAllKeepsAddresses(s, pairs);
    case Sync(a, r0, r1) =>
      if a in s.pools && r0.Some? && r1.Some? {
        var p := s.pools[a];
        var updated := Pair(p.address, p.token0, p.token1, r0.value, r1.value, p.feeBps);
        PatchKeepsAddresses(SetPool(s, a, updated), updated);
      }
  }

  // ----- the order and the counters -----

  function AddNew(order: seq<Address>, keys: seq<Address>): seq<Address> {
    if keys == [] then order
    else
      var n := |keys| - 1;
      var before := AddNew(order, keys[..n]);
      if keys[n] in before then before else before + [keys[n]]
  }

  lemma {:induction false} SetPoolsOrder(s: State, pairs: seq<Pair>)
    requires Listed(s)
    ensures SetPools(s, pairs).order == AddNew(s.order, Addresses(pairs))
  {
    if pairs != [] {
      var n := |pairs| - 1;
      SetPoolsOrder(s, pairs[..n]);
      SetPoolsKeys(s, pairs[..n]);
      assert Addresses(pairs)[..n] == Addresses(pairs[..n]);
    }
  }

  /** Pools are listed in the order in which they were first fetched. */
  lemma StepOrder(s: State, e: Event)
    requires Listed(s)
    ensures Step(s, e).order == AddNew(s.order, Addresses(PairsOf(e)))
  {
    match e
    case LoadPools(pairs) => SetPoolsOrder(s, pairs);
    case RefreshPool(p) =>
      SetOneStores(s, p);
      SetPoolsOrder(s, [p]);
    case RefreshPools(pairs) =>
      RefreshAllStores(s, pairs);
      SetPoolsOrder(s, pairs);
    case Sync(_, _, _) =>
  }

  function Count(syncs: map<Address, nat>, a: Address): nat { if a in syncs then syncs[a] else 0 }

  /** A log is counted for its pool when it has both reserves and the pool is known. */
  lemma StepCounts(s: State, e: Event, a: Address)
    requires Listed(s)
    ensures Count(Step(s, e).syncs, a) == Count(s.syncs, a) + if Syncs(e, a) && a in s.pools then 1 else 0
  {
    match e
    case LoadPools(pairs) => SetPoolsStores(s, pairs, a);
    case RefreshPool(_) =>
    case RefreshPools(pairs) => RefreshAllStores(s, pairs);
    case Sync(_, _, _) =>
  }
}
