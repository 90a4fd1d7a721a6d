/** The order in which routes are enumerated, which decides ties between them. */
module RouteOrder {
  import opened UniswapV2Pair
  import opened RouteGraph
  import opened RouteSearch

  // ----- the edges at a token -----

  /** Of two edges at a token the pool of the first is listed earlier. Only a pool between a token and
      itself has both. */
  ghost predicate ListedBefore(pools: seq<Pair>, d: Edge, e: Edge) {
    exists m, n :: 0 <= m <= n < |pools| && pools[m] == d.pool && pools[n] == e.pool
                   && (m == n ==> d.pool.token0.address == d.pool.token1.address)
  }

  lemma ListedLonger(pools: seq<Pair>, p: Pair, d: Edge, e: Edge)
    requires ListedBefore(pools, d, e)
    ensures ListedBefore(pools + [p], d, e)
  {
    var m, n :| 0 <= m <= n < |pools| && pools[m] == d.pool && pools[n] == e.pool
                && (m == n ==> d.pool.token0.address == d.pool.token1.address);
    assert (pools + [p])[m] == d.pool && (pools + [p])[n] == e.pool;
  }

  lemma LastIsLater(pools: seq<Pair>, p: Pair, d: Edge, e: Edge)
    requires d.pool in pools && e.pool == p
    ensures ListedBefore(pools + [p], d, e)
  {
    var m :| 0 <= m < |pools| && pools[m] == d.pool;
    assert (pools + [p])[m] == d.pool && (pools + [p])[|pools|] == e.pool;
  }

  lemma BothOfLast(pools: seq<Pair>, p: Pair, key: Address)
    requires |EdgesOf(p, key)| == 2
    ensures ListedBefore(pools + [p], EdgesOf(p, key)[0], EdgesOf(p, key)[1])
  {
    assert (pools + [p])[|pools|] == p;
  }

  lemma AddedInOrder(pools: seq<Pair>, p: Pair, key: Address, i: nat, j: nat)
    requires var edges := EdgesAt(pools, key) + EdgesOf(p, key);
             && i < j < |edges| && j >= |EdgesAt(pools, key)|
             && forall k :: 0 <= k < |EdgesAt(pools, key)| ==> edges[k].pool in pools
    ensures var edges := EdgesAt(pools, key) + EdgesOf(p, key); ListedBefore(pools + [p], edges[i], edges[j])
  {
    var edges, n := EdgesAt(pools, key) + EdgesOf(p, key), |EdgesAt(pools, key)|;
    if i < n {
      LastIsLater(pools, p, edges[i], edges[j]);
    } else {
      BothOfLast(pools, p, key);
    }
  }

  /** The edges at a token stand in the order of their pools. */
  lemma {:induction false} EdgesInPoolOrder(pools: seq<Pair>, key: Address, i: nat, j: nat)
    requires i < j < |EdgesAt(pools, key)|
    ensures ListedBefore(pools, EdgesAt(pools, key)[i], EdgesAt(pools, key)[j])
  {
    var front, last := pools[..|pools| - 1], pools[|pools| - 1];
    var edges := EdgesAt(front, key);
    assert pools == front + [last];
    if j < |edges| {
      EdgesInPoolOrder(front, key, i, j);
      ListedLonger(front, last, edges[i], edges[j]);
    } else {
      forall k | 0 <= k < |edges|
        ensures edges[k].pool in front
      {
        GraphIsEdgesAt(front, key);
        EdgesAreHops(front, key, edges[k]);
      }
      AddedInOrder(front, last, key, i, j);
    }
  }

  // ----- the routes -----

  /** The edge a route takes at hop k. */
  function EdgeAt(r: Route, k: nat): Edge
    requires WellFormed(r) && k < |r.pools|
  {
    Edge(r.pools[k], r.path[k + 1])
  }

  /** Two routes share their first k hops, and the edge by which the first goes on is tried earlier. */
  ghost predicate Branches(g: Graph, a: Route, b: Route, k: nat) {
    && WellFormed(a) && WellFormed(b) && k < |a.pools| && k < |b.pools|
    && a.pools[..k] == b.pools[..k] && a.path[..k + 1] == b.path[..k + 1]
    && exists i, j :: 0 <= i < j < |Neighbours(g, a.path[k].address)|
                      && Neighbours(g, a.path[k].address)[i] == EdgeAt(a, k)
                      && Neighbours(g, a.path[k].address)[j] == EdgeAt(b, k)
  }

  ghost predicate Precedes(g: Graph, a: Route, b: Route) { exists k: nat :: Branches(g, a, b, k) }

  ghost predicate InOrder(g: Graph, routes: seq<Route>) {
    forall i, j :: 0 <= i < j < |routes| ==> Precedes(g, routes[i], routes[j])
  }

  lemma InOrderConcat(g: Graph, front: seq<Route>, back: seq<Route>)
    requires InOrder(g, front) && InOrder(g, back)
    requires forall a, b :: a in front && b in back ==> Precedes(g, a, b)
    ensures InOrder(g, front + back)
  {
    var all := front + back;
    forall i, j | 0 <= i < j < |all|
      ensures Precedes(g, all[i], all[j])
    {
      if j < |front| {
        assert all[i] == front[i] && all[j] == front[j];
      } else if i < |front| {
        assert all[i] in front && all[j] in back;
      } else {
        assert all[i] == back[i - |front|] && all[j] == back[j - |front|];
      }
    }
  }

  /** A route through an edge comes before one through a later edge at the same token. */
  lemma EarlierEdgeFirst(g: Graph, q: Query, acc: Route, from: nat, a: Route, b: Route)
    requires WellFormed(acc)
    requires var at := acc.path[|acc.pools|].address;
             var edges := Neighbours(g, at);
             && from < |edges|
             && ContinuesBy(g, q, acc, edges[from..][..1], at, a) && ContinuesBy(g, q, acc, edges[from + 1..], at, b)
    ensures Precedes(g, a, b)
  {
    var n := |acc.pools|;
    var edges := Neighbours(g, acc.path[n].address);
    assert a.path[n] == a.path[..n + 1][n] == acc.path[n];
    assert edges[from] == EdgeAt(a, n);
    var j :| 0 <= j < |edges[from + 1..]| && edges[from + 1..][j] == EdgeAt(b, n);
    assert edges[from + 1 + j] == EdgeAt(b, n);
    assert Branches(g, a, b, n);
  }

  lemma {:induction false} ExploreInOrder(g: Graph, q: Query, acc: Route, from: nat)
    requires WellFormed(acc) && from <= |Neighbours(g, acc.path[|acc.pools|].address)|
    ensures InOrder(g, Explore(g, q, acc, Neighbours(g, acc.path[|acc.pools|].address)[from..]))
    decreases if |acc.pools| < q.maxHops then q.maxHops - |acc.pools| else 0,
              |Neighbours(g, acc.path[|acc.pools|].address)| - from
  {
    var at := acc.path[|acc.pools|].address;
    var all := Neighbours(g, at);
    var edges := all[from..];
    if edges != [] {
      var Edge(pool, other) := edges[0];
      var next := Route(acc.pools + [pool], acc.path + [other]);
      if !Visited(acc.pools, pool.address) && other.address != q.tokenOut.address && |next.pools| < q.maxHops {
        ExploreInOrder(g, q, next, 0);
        assert Neighbours(g, other.address)[0..] == Neighbours(g, other.address);
      }
      assert InOrder(g, Through(g, q, acc, edges));
      assert edges[1..] == all[from + 1..];
      ExploreInOrder(g, q, acc, from + 1);
      forall a, b | a in Through(g, q, acc, edges) && b in Explore(g, q, acc, edges[1..])
        ensures Precedes(g, a, b)
      {
        ThroughIsContinues(g, q, acc, edges, at, a);
        ExploreIsContinues(g, q, acc, edges[1..], at, b);
        EarlierEdgeFirst(g, q, acc, from, a, b);
      }
      InOrderConcat(g, Through(g, q, acc, edges), Explore(g, q, acc, edges[1..]));
    }
  }

  lemma BranchIsListed(pools: seq<Pair>, a: Route, b: Route, k: nat)
    requires Branches(GraphOf(pools), a, b, k)
    ensures ListedBefore(pools, EdgeAt(a, k), EdgeAt(b, k))
  {
    var edges := Neighbours(GraphOf(pools), a.path[k].address);
    var i, j :| 0 <= i < j < |edges| && edges[i] == EdgeAt(a, k) && edges[j] == EdgeAt(b, k);
    GraphIsEdgesAt(pools, a.path[k].address);
    EdgesInPoolOrder(pools, a.path[k].address, i, j);
  }

  /** Of two routes returned the first takes, where they part, the pool listed earlier. */
  lemma RoutesInOrder(pools: seq<Pair>, tokenIn: Token, q: Query, i: nat, j: nat)
    requires i < j < |AllRoutes(GraphOf(pools), tokenIn, q)|
    ensures var a, b := AllRoutes(GraphOf(pools), tokenIn, q)[i], AllRoutes(GraphOf(pools), tokenIn, q)[j];
            exists k :: 0 <= k < |a.pools| && k < |b.pools| && WellFormed(a) && WellFormed(b)
                        && a.pools[..k] == b.pools[..k] && a.path[..k + 1] == b.path[..k + 1]
                        && ListedBefore(pools, EdgeAt(a, k), EdgeAt(b, k))
  {
    var g := GraphOf(pools);
    var acc, edges := Route([], [tokenIn]), Neighbours(g, tokenIn.address);
    ExploreInOrder(g, q, acc, 0);
    assert edges[0..] == edges;
    var a, b := AllRoutes(g, tokenIn, q)[i], AllRoutes(g, tokenIn, q)[j];
    assert Precedes(g, a, b);
    var k: nat :| Branches(g, a, b, k);
    BranchIsListed(pools, a, b, k);
  }
}
