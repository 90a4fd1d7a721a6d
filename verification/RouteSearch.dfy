/** The depth-first enumeration of routes, and the trails it enumerates. */
module RouteSearch {
  import opened JsMath
  import opened UniswapV2Pair
  import opened RouteGraph

  /** A path of n + 1 tokens through n pools. */
  datatype Route = Route(pools: seq<Pair>, path: seq<Token>)

  datatype Query = Query(tokenOut: Token, maxHops: int)

  predicate Visited(pools: seq<Pair>, a: Address) {
    exists i :: 0 <= i < |pools| && pools[i].address == a
  }

  /** The routes pushed while the search stands at the end of `acc` and has `edges` left to try. */
  function Explore(g: Graph, q: Query, acc: Route, edges: seq<Edge>): seq<Route>
    decreases if |acc.pools| < q.maxHops then q.maxHops - |acc.pools| else 0, |edges|
  {
    if edges == [] then []
    else Through(g, q, acc, edges) + Explore(g, q, acc, edges[1..])
  }

  /** The routes pushed for the first of `edges`. */
  function Through(g: Graph, q: Query, acc: Route, edges: seq<Edge>): seq<Route>
    requires edges != []
    decreases if |acc.pools| < q.maxHops then q.maxHops - |acc.pools| else 0, |edges|, 0
  {
    var Edge(pool, other) := edges[0];
    if Visited(acc.pools, pool.address) then []
    else
      var next := Route(acc.pools + [pool], acc.path + [other]);
      if other.address == q.tokenOut.address then [next]
      else if |next.pools| < q.maxHops then Explore(g, q, next, Neighbours(g, other.address))
      else []
  }

  function AllRoutes(g: Graph, tokenIn: Token, q: Query): seq<Route> {
    Explore(g, q, Route([], [tokenIn]), Neighbours(g, tokenIn.address))
  }

  // ----- what a search from here may return -----

  /** `r` continues `acc` from the token `at` by a trail of unused pools that stops at its first
      arrival at the goal, within the hop limit. */
  ghost predicate Continues(g: Graph, q: Query, acc: Route, at: Address, r: Route) {
    var n := |acc.pools|;
    && |acc.path| == n + 1 && |r.path| == |r.pools| + 1 && |r.pools| > n
    && r.pools[..n] == acc.pools && r.path[..n + 1] == acc.path
    && Edge(r.pools[n], r.path[n + 1]) in Neighbours(g, at)
    && (forall i :: n < i < |r.pools| ==> Edge(r.pools[i], r.path[i + 1]) in Neighbours(g, r.path[i].address))
    && (forall i, j :: 0 <= i < j < |r.pools| && n <= j ==> r.pools[i].address != r.pools[j].address)
    && (forall i :: n < i < |r.pools| ==> r.path[i].address != q.tokenOut.address)
    && r.path[|r.pools|].address == q.tokenOut.address
    && (|r.pools| == n + 1 || |r.pools| <= q.maxHops)
  }

  ghost predicate ContinuesBy(g: Graph, q: Query, acc: Route, edges: seq<Edge>, at: Address, r: Route) {
    && Continues(g, q, acc, at, r)
    && Edge(r.pools[|acc.pools|], r.path[|acc.pools| + 1]) in edges
  }

  predicate WellFormed(acc: Route) { |acc.path| == |acc.pools| + 1 }

  lemma {:induction false} ThroughIsContinues(g: Graph, q: Query, acc: Route, edges: seq<Edge>, at: Address, r: Route)
    requires WellFormed(acc) && edges != [] && edges[0] in Neighbours(g, at)
    ensures r in Through(g, q, acc, edges) <==> ContinuesBy(g, q, acc, edges[..1], at, r)
    decreases if |acc.pools| < q.maxHops then q.maxHops - |acc.pools| else 0, |edges|, 0
  {
    var Edge(pool, other) := edges[0];
    var n := |acc.pools|;
    var next := Route(acc.pools + [pool], acc.path + [other]);
    if Visited(acc.pools, pool.address) {
      var i :| 0 <= i < n && acc.pools[i].address == pool.address;
      assert n < |r.pools| && r.pools[..n] == acc.pools ==> r.pools[i].address == pool.address;
    } else if other.address == q.tokenOut.address {
      if ContinuesBy(g, q, acc, edges[..1], at, r) {
        assert r.pools == r.pools[..n] + [pool] && r.path == r.path[..n + 1] + [other];
      }
    } else if n + 1 < q.maxHops {
      ExploreIsContinues(g, q, next, Neighbours(g, other.address), other.address, r);
      OneHopFurther(g, q, acc, edges[0], at, r);
    }
  }

  lemma HopThenContinue(g: Graph, q: Query, acc: Route, e: Edge, at: Address, r: Route)
    requires WellFormed(acc) && ContinuesBy(g, q, acc, [e], at, r)
    requires e.otherToken.address != q.tokenOut.address && |acc.pools| + 1 < q.maxHops
    ensures Continues(g, q, Route(acc.pools + [e.pool], acc.path + [e.otherToken]), e.otherToken.address, r)
  {
    var n := |acc.pools|;
    assert r.pools[..n + 1] == acc.pools + [e.pool];
    assert r.path[..n + 2] == acc.path + [e.otherToken];
  }

  lemma ContinueAfterHop(g: Graph, q: Query, acc: Route, e: Edge, at: Address, r: Route)
    requires WellFormed(acc) && e in Neighbours(g, at) && !Visited(acc.pools, e.pool.address)
    requires e.otherToken.address != q.tokenOut.address && |acc.pools| + 1 < q.maxHops
    requires Continues(g, q, Route(acc.pools + [e.pool], acc.path + [e.otherToken]), e.otherToken.address, r)
    ensures ContinuesBy(g, q, acc, [e], at, r)
  {
    var n := |acc.pools|;
    var ps, ts := r.pools[..n + 1], r.path[..n + 2];
    assert r.pools[n] == ps[n] == e.pool && r.path[n + 1] == ts[n + 1] == e.otherToken;
    assert r.pools[..n] == ps[..n] == acc.pools && r.path[..n + 1] == ts[..n + 1] == acc.path;
    forall i, j | 0 <= i < j < |r.pools| && n <= j
      ensures r.pools[i].address != r.pools[j].address
    {
      if j == n { assert r.pools[i] == acc.pools[i]; }
    }
  }

  /** To continue `acc` through one edge is to continue the longer accumulator. */
  lemma OneHopFurther(g: Graph, q: Query, acc: Route, e: Edge, at: Address, r: Route)
    requires WellFormed(acc) && e in Neighbours(g, at) && !Visited(acc.pools, e.pool.address)
    requires e.otherToken.address != q.tokenOut.address && |acc.pools| + 1 < q.maxHops
    ensures var next := Route(acc.pools + [e.pool], acc.path + [e.otherToken]);
            ContinuesBy(g, q, acc, [e], at, r) <==> Continues(g, q, next, e.otherToken.address, r)
  {
    if ContinuesBy(g, q, acc, [e], at, r) { HopThenContinue(g, q, acc, e, at, r); }
    if Continues(g, q, Route(acc.pools + [e.pool], acc.path + [e.otherToken]), e.otherToken.address, r) {
      ContinueAfterHop(g, q, acc, e, at, r);
    }
  }

  lemma {:induction false} ExploreIsContinues(g: Graph, q: Query, acc: Route, edges: seq<Edge>, at: Address, r: Route)
    requires WellFormed(acc) && forall e :: e in edges ==> e in Neighbours(g, at)
    ensures r in Explore(g, q, acc, edges) <==> ContinuesBy(g, q, acc, edges, at, r)
    decreases if |acc.pools| < q.maxHops then q.maxHops - |acc.pools| else 0, |edges|
  {
    if edges != [] {
      ThroughIsContinues(g, q, acc, edges, at, r);
      ExploreIsContinues(g, q, acc, edges[1..], at, r);
      assert edges == edges[..1] + edges[1..];
    }
  }

  // ----- trails over a list of pools -----

  /** A trail: hops of listed pools, no pool twice, stopping at the first arrival at the goal. */
  ghost predicate IsTrail(pools: seq<Pair>, tokenIn: Token, q: Query, r: Route) {
    var n := |r.pools|;
    && n >= 1 && |r.path| == n + 1 && r.path[0] == tokenIn
    && (forall i :: 0 <= i < n ==> r.pools[i] in pools && Hop(r.pools[i], r.path[i].address, r.path[i + 1]))
    && UniqueAddresses(r.pools)
    && (forall i :: 0 < i < n ==> r.path[i].address != q.tokenOut.address)
    && r.path[n].address == q.tokenOut.address
    && n <= Max(1, q.maxHops)
  }

  /** The search returns every trail and nothing else. */
  lemma RoutesAreTrails(pools: seq<Pair>, tokenIn: Token, q: Query, r: Route)
    ensures r in AllRoutes(GraphOf(pools), tokenIn, q) <==> IsTrail(pools, tokenIn, q, r)
  {
    var g, acc := GraphOf(pools), Route([], [tokenIn]);
    ExploreIsContinues(g, q, acc, Neighbours(g, tokenIn.address), tokenIn.address, r);
    forall key, e: Edge
      ensures e in Neighbours(g, key) <==> e.pool in pools && Hop(e.pool, key, e.otherToken)
    {
      EdgesAreHops(pools, key, e);
    }
    if Continues(g, q, acc, tokenIn.address, r) {
      assert r.path[..1] == [tokenIn];
      assert r.path[0] == tokenIn;
      forall i | 0 <= i < |r.pools|
        ensures r.pools[i] in pools && Hop(r.pools[i], r.path[i].address, r.path[i + 1])
      {
        assert Edge(r.pools[i], r.path[i + 1]) in Neighbours(g, r.path[i].address);
      }
    }
    if IsTrail(pools, tokenIn, q, r) {
      assert r.path[..1] == [tokenIn] && r.pools[..0] == [];
      forall i | 0 <= i < |r.pools|
        ensures Edge(r.pools[i], r.path[i + 1]) in Neighbours(g, r.path[i].address)
      {
        assert Hop(r.pools[i], r.path[i].address, r.path[i + 1]);
      }
    }
  }

  // ----- each trail once -----

  predicate NoDuplicates<T(==)>(s: seq<T>) {
    forall i, j :: 0 <= i < j < |s| ==> s[i] != s[j]
  }

  lemma NoDuplicatesConcat<T>(a: seq<T>, b: seq<T>)
    ensures NoDuplicates(a + b) <==> NoDuplicates(a) && NoDuplicates(b) && forall x :: x in a ==> x !in b
  {
    var s := a + b;
    assert forall i :: 0 <= i < |a| ==> s[i] == a[i];
    assert forall j :: 0 <= j < |b| ==> s[|a| + j] == b[j];
    if NoDuplicates(s) {
      forall x | x in a
        ensures x !in b
      {
        var i :| 0 <= i < |a| && a[i] == x;
        assert s[i] == x;
        assert forall j :: 0 <= j < |b| ==> b[j] == s[|a| + j] != x;
      }
    }
    if NoDuplicates(a) && NoDuplicates(b) && forall x :: x in a ==> x !in b {
      forall i, j | 0 <= i < j < |s|
        ensures s[i] != s[j]
      {
        if i < |a| <= j {
          assert s[i] in a && s[j] == b[j - |a|];
        } else if |a| <= i {
          assert s[i] == b[i - |a|] && s[j] == b[j - |a|];
        }
      }
    }
  }

  lemma {:induction false} ExploreNoDuplicates(g: Graph, q: Query, acc: Route, edges: seq<Edge>, at: Address)
    requires WellFormed(acc) && forall e :: e in edges ==> e in Neighbours(g, at)
    requires NoDuplicates(edges) && forall key :: NoDuplicates(Neighbours(g, key))
    ensures NoDuplicates(Explore(g, q, acc, edges))
    decreases if |acc.pools| < q.maxHops then q.maxHops - |acc.pools| else 0, |edges|
  {
    if edges != [] {
      var Edge(pool, other) := edges[0];
      var next := Route(acc.pools + [pool], acc.path + [other]);
      if !Visited(acc.pools, pool.address) && other.address != q.tokenOut.address && |next.pools| < q.maxHops {
        ExploreNoDuplicates(g, q, next, Neighbours(g, other.address), other.address);
      }
      assert NoDuplicates(Through(g, q, acc, edges));
      ExploreNoDuplicates(g, q, acc, edges[1..], at);
      forall r | r in Through(g, q, acc, edges)
        ensures r !in Explore(g, q, acc, edges[1..])
      {
        ThroughIsContinues(g, q, acc, edges, at, r);
        ExploreIsContinues(g, q, acc, edges[1..], at, r);
      }
      NoDuplicatesConcat(Through(g, q, acc, edges), Explore(g, q, acc, edges[1..]));
    }
  }

  lemma EdgesOfNoDuplicates(p: Pair, key: Address)
    requires p.token0 != p.token1
    ensures NoDuplicates(EdgesOf(p, key))
  {
  }

  lemma NewPoolAddsNewEdges(pools: seq<Pair>, p: Pair, key: Address)
    requires p !in pools && p.token0 != p.token1 && NoDuplicates(EdgesAt(pools, key))
    ensures NoDuplicates(EdgesAt(pools, key) + EdgesOf(p, key))
  {
    GraphIsEdgesAt(pools, key);
    forall e | e in EdgesAt(pools, key)
      ensures e !in EdgesOf(p, key)
    {
      EdgesAreHops(pools, key, e);
      EdgesOfAreHops(p, key, e);
    }
    EdgesOfNoDuplicates(p, key);
    NoDuplicatesConcat(EdgesAt(pools, key), EdgesOf(p, key));
  }

  lemma {:induction false} EdgesNoDuplicates(pools: seq<Pair>, key: Address)
    requires NoDuplicates(pools) && forall p :: p in pools ==> p.token0 != p.token1
    ensures NoDuplicates(Neighbours(GraphOf(pools), key))
  {
    GraphIsEdgesAt(pools, key);
    if pools != [] {
      var front, last := pools[..|pools| - 1], pools[|pools| - 1];
      EdgesNoDuplicates(front, key);
      GraphIsEdgesAt(front, key);
      assert last !in front && last in pools;
      NewPoolAddsNewEdges(front, last, key);
    }
  }

  /** A repeated edge into the goal makes a repeated route. */
  lemma {:induction false} RepeatedEdgeRepeatsRoute(g: Graph, q: Query, acc: Route, edges: seq<Edge>, i: nat, j: nat)
    requires i < j < |edges| && edges[i] == edges[j]
    requires edges[i].otherToken.address == q.tokenOut.address && !Visited(acc.pools, edges[i].pool.address)
    ensures !NoDuplicates(Explore(g, q, acc, edges))
    decreases |edges|
  {
    NoDuplicatesConcat(Through(g, q, acc, edges), Explore(g, q, acc, edges[1..]));
    if i == 0 {
      var next := Route(acc.pools + [edges[0].pool], acc.path + [edges[0].otherToken]);
      DirectEdgeIsFound(g, q, acc, edges[1..], j - 1);
      assert Through(g, q, acc, edges) == [next];
      assert next in Through(g, q, acc, edges);
    } else {
      RepeatedEdgeRepeatsRoute(g, q, acc, edges[1..], i - 1, j - 1);
    }
  }

  lemma {:induction false} DirectEdgeIsFound(g: Graph, q: Query, acc: Route, edges: seq<Edge>, j: nat)
    requires j < |edges| && edges[j].otherToken.address == q.tokenOut.address
    requires !Visited(acc.pools, edges[j].pool.address)
    ensures Route(acc.pools + [edges[j].pool], acc.path + [edges[j].otherToken]) in Explore(g, q, acc, edges)
    decreases |edges|
  {
    if j > 0 {
      DirectEdgeIsFound(g, q, acc, edges[1..], j - 1);
    }
  }

  /** Two equal pools in the list put two equal edges at their first token. */
  lemma {:induction false} RepeatedPoolRepeatsEdge(pools: seq<Pair>, i: nat, j: nat) returns (k: nat, l: nat)
    requires i < j < |pools| && pools[i] == pools[j]
    ensures var edges := EdgesAt(pools, pools[j].token0.address);
            k < l < |edges| && edges[k] == edges[l] == Edge(pools[j], pools[j].token1)
  {
    var n := |pools| - 1;
    var key := pools[j].token0.address;
    var front := EdgesAt(pools[..n], key);
    if j < n {
      k, l := RepeatedPoolRepeatsEdge(pools[..n], i, j);
    } else {
      EdgesAreHops(pools[..n], key, Edge(pools[i], pools[i].token1));
      GraphIsEdgesAt(pools[..n], key);
      assert pools[..n][i] == pools[i];
      k :| 0 <= k < |front| && front[k] == Edge(pools[i], pools[i].token1);
      l := |front|;
    }
  }

  /** A pool between a token and itself puts two equal edges there. */
  lemma {:induction false} LoopPoolRepeatsEdge(pools: seq<Pair>, i: nat) returns (k: nat, l: nat)
    requires i < |pools| && pools[i].token0 == pools[i].token1
    ensures var edges := EdgesAt(pools, pools[i].token0.address);
            k < l < |edges| && edges[k] == edges[l] == Edge(pools[i], pools[i].token1)
  {
    var n := |pools| - 1;
    var key := pools[i].token0.address;
    if i < n {
      k, l := LoopPoolRepeatsEdge(pools[..n], i);
    } else {
      var front := EdgesAt(pools[..n], key);
      k, l := |front|, |front| + 1;
    }
  }

  /** Every search returns every trail once exactly when the list has no pool twice and no pool
      between a token and itself. */
  lemma EachTrailOnceIff(pools: seq<Pair>)
    ensures (forall tokenIn, q :: NoDuplicates(AllRoutes(GraphOf(pools), tokenIn, q)))
            <==> NoDuplicates(pools) && forall p :: p in pools ==> p.token0 != p.token1
  {
    if NoDuplicates(pools) && forall p :: p in pools ==> p.token0 != p.token1 {
      forall tokenIn: Token, q: Query
        ensures NoDuplicates(AllRoutes(GraphOf(pools), tokenIn, q))
      {
        forall key ensures NoDuplicates(Neighbours(GraphOf(pools), key)) { EdgesNoDuplicates(pools, key); }
        ExploreNoDuplicates(GraphOf(pools), q, Route([], [tokenIn]),
          Neighbours(GraphOf(pools), tokenIn.address), tokenIn.address);
      }
    } else {
      var p, k, l := RepeatedEdge(pools);
      var q := Query(p.token1, 1);
      GraphIsEdgesAt(pools, p.token0.address);
      RepeatedEdgeRepeatsRoute(GraphOf(pools), q, Route([], [p.token0]), EdgesAt(pools, p.token0.address), k, l);
      assert !NoDuplicates(AllRoutes(GraphOf(pools), p.token0, q));
    }
  }

  lemma RepeatedEdge(pools: seq<Pair>) returns (p: Pair, k: nat, l: nat)
    requires !NoDuplicates(pools) || exists p :: p in pools && p.token0 == p.token1
    ensures var edges := EdgesAt(pools, p.token0.address);
            k < l < |edges| && edges[k] == edges[l] == Edge(p, p.token1)
  {
    if !NoDuplicates(pools) {
      var i, j :| 0 <= i < j < |pools| && pools[i] == pools[j];
      p := pools[j];
      k, l := RepeatedPoolRepeatsEdge(pools, i, j);
    } else {
      p :| p in pools && p.token0 == p.token1;
      var i :| 0 <= i < |pools| && pools[i] == p;
      k, l := LoopPoolRepeatsEdge(pools, i);
    }
  }
}
