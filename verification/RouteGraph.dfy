/** The adjacency map over tokens, how it is built, and when patching it in place is as good
    as building it again. */
module RouteGraph {
  import opened JsMath
  import opened UniswapV2Pair

  datatype Edge = Edge(pool: Pair, otherToken: Token)

  type Graph = map<Address, seq<Edge>>

  function Neighbours(g: Graph, key: Address): seq<Edge> {
    if key in g then g[key] else []
  }

  function AddEdge(g: Graph, from: Token, e: Edge): Graph {
    g[from.address := Neighbours(g, from.address) + [e]]
  }

  function AddPool(g: Graph, p: Pair): Graph {
    AddEdge(AddEdge(g, p.token0, Edge(p, p.token1)), p.token1, Edge(p, p.token0))
  }

  /** The graph built from a list of pools, in list order. */
  function GraphOf(pools: seq<Pair>): Graph {
    if pools == [] then map[]
    else AddPool(GraphOf(pools[..|pools| - 1]), pools[|pools| - 1])
  }

  method BuildGraph(pools: seq<Pair>) returns (g: Graph)
    ensures g == GraphOf(pools)
  {
    g := map[];
    for i := 0 to |pools|
      invariant g == GraphOf(pools[..i])
    {
      var p := pools[i];
      g := AddEdge(g, p.token0, Edge(p, p.token1));
      g := AddEdge(g, p.token1, Edge(p, p.token0));
      assert pools[..i + 1][..i] == pools[..i];
    }
    assert pools[..|pools|] == pools;
  }

  // ----- the graph read as a relation -----

  /** One swap on `p` takes the token at `key` to `t`. */
  predicate Hop(p: Pair, key: Address, t: Token) {
    || (p.token0.address == key && p.token1 == t)
    || (p.token1.address == key && p.token0 == t)
  }

  function EdgesOf(p: Pair, key: Address): seq<Edge> {
    (if p.token0.address == key then [Edge(p, p.token1)] else [])
    + (if p.token1.address == key then [Edge(p, p.token0)] else [])
  }

  /** The edges at one token, pool by pool. */
  function EdgesAt(pools: seq<Pair>, key: Address): seq<Edge> {
    if pools == [] then [] else EdgesAt(pools[..|pools| - 1], key) + EdgesOf(pools[|pools| - 1], key)
  }

  lemma {:induction false} GraphIsEdgesAt(pools: seq<Pair>, key: Address)
    ensures Neighbours(GraphOf(pools), key) == EdgesAt(pools, key)
    ensures key in GraphOf(pools) <==> EdgesAt(pools, key) != []
  {
    if pools != [] {
      GraphIsEdgesAt(pools[..|pools| - 1], key);
    }
  }

  lemma EdgesOfAreHops(p: Pair, key: Address, e: Edge)
    ensures e in EdgesOf(p, key) <==> e.pool == p && Hop(p, key, e.otherToken)
  {
  }

  /** The built graph has an edge exactly where some pool makes the hop. */
  lemma {:induction false} EdgesAreHops(pools: seq<Pair>, key: Address, e: Edge)
    ensures e in Neighbours(GraphOf(pools), key) <==> e.pool in pools && Hop(e.pool, key, e.otherToken)
  {
    GraphIsEdgesAt(pools, key);
    if pools != [] {
      var front, last := pools[..|pools| - 1], pools[|pools| - 1];
      EdgesAreHops(front, key, e);
      GraphIsEdgesAt(front, key);
      EdgesOfAreHops(last, key, e);
      assert pools == front + [last];
    }
  }

  // ----- patching -----

  function Patched(e: Edge, updated: Pair): Edge {
    if e.pool.address == updated.address then Edge(updated, e.otherToken) else e
  }

  function PatchEdges(edges: seq<Edge>, updated: Pair): (r: seq<Edge>)
    ensures |r| == |edges|
    ensures forall i :: 0 <= i < |r| ==> r[i] == Patched(edges[i], updated)
  {
    seq(|edges|, i requires 0 <= i < |edges| => Patched(edges[i], updated))
  }

  function PatchGraph(g: Graph, updated: Pair): Graph {
    map key | key in g :: PatchEdges(g[key], updated)
  }

  /** No two pools of the list share an address, as in a map keyed by address. */
  predicate UniqueAddresses(pools: seq<Pair>) {
    forall i, j :: 0 <= i < j < |pools| ==> pools[i].address != pools[j].address
  }

  /** The two pools trade the same two tokens, in either order. */
  predicate SameTokens(p: Pair, q: Pair) {
    || (p.token0 == q.token0 && p.token1 == q.token1)
    || (p.token0 == q.token1 && p.token1 == q.token0)
  }

  lemma PatchConcat(a: seq<Edge>, b: seq<Edge>, u: Pair)
    ensures PatchEdges(a + b, u) == PatchEdges(a, u) + PatchEdges(b, u)
  {
  }

  lemma PatchEdgesOf(p: Pair, u: Pair, key: Address)
    requires p.address == u.address ==> SameTokens(u, p) && u.token0.address != u.token1.address
    ensures PatchEdges(EdgesOf(p, key), u) == EdgesOf(if p.address == u.address then u else p, key)
  {
  }

  lemma {:induction false} PatchEdgesAt(pools: seq<Pair>, k: nat, u: Pair, key: Address)
    requires k < |pools| && UniqueAddresses(pools)
    requires pools[k].address == u.address && SameTokens(u, pools[k])
    requires u.token0.address != u.token1.address
    ensures PatchEdges(EdgesAt(pools, key), u) == EdgesAt(pools[k := u], key)
  {
    var n := |pools| - 1;
    var front, last, updated := pools[..n], pools[n], pools[k := u];
    PatchConcat(EdgesAt(front, key), EdgesOf(last, key), u);
    PatchEdgesOf(last, u, key);
    if k == n {
      PatchEdgesAbsent(front, u, key);
      assert updated[..n] == front && updated[n] == u;
    } else {
      PatchEdgesAt(front, k, u, key);
      assert updated[..n] == front[k := u] && updated[n] == last;
    }
  }

  lemma {:induction false} PatchEdgesAbsent(pools: seq<Pair>, u: Pair, key: Address)
    requires forall i :: 0 <= i < |pools| ==> pools[i].address != u.address
    ensures PatchEdges(EdgesAt(pools, key), u) == EdgesAt(pools, key)
  {
    if pools != [] {
      var n := |pools| - 1;
      PatchEdgesAbsent(pools[..n], u, key);
      PatchConcat(EdgesAt(pools[..n], key), EdgesOf(pools[n], key), u);
    }
  }

  /** Patching keeps the other token of every edge, so it agrees with rebuilding exactly when
      the replacement trades the same two tokens. */
  lemma PatchIsRebuildIff(pools: seq<Pair>, k: nat, u: Pair)
    requires k < |pools| && UniqueAddresses(pools) && pools[k].address == u.address
    requires pools[k].token0.address != pools[k].token1.address
    ensures PatchGraph(GraphOf(pools), u) == GraphOf(pools[k := u]) <==> SameTokens(u, pools[k])
  {
    if SameTokens(u, pools[k]) {
      PatchAgrees(pools, k, u);
    } else if PatchGraph(GraphOf(pools), u) == GraphOf(pools[k := u]) {
      PatchedEdgeIsOld(pools, k, u, u.token0.address, u.token1);
      PatchedEdgeIsOld(pools, k, u, u.token1.address, u.token0);
      assert false;
    }
  }

  lemma PatchAgrees(pools: seq<Pair>, k: nat, u: Pair)
    requires k < |pools| && UniqueAddresses(pools) && pools[k].address == u.address
    requires u.token0.address != u.token1.address && SameTokens(u, pools[k])
    ensures PatchGraph(GraphOf(pools), u) == GraphOf(pools[k := u])
  {
    var g, g' := PatchGraph(GraphOf(pools), u), GraphOf(pools[k := u]);
    forall key
      ensures key in g <==> key in g'
      ensures Neighbours(g, key) == Neighbours(g', key)
    {
      GraphIsEdgesAt(pools, key);
      GraphIsEdgesAt(pools[k := u], key);
      PatchEdgesAt(pools, k, u, key);
    }
    forall key | key in g
      ensures key in g' && g[key] == g'[key]
    {
      assert Neighbours(g, key) == Neighbours(g', key);
    }
    assert g == g';
  }

  /** An edge of the replacement that a patched graph holds was an edge of the replaced pool. */
  lemma PatchedEdgeIsOld(pools: seq<Pair>, k: nat, u: Pair, key: Address, t: Token)
    requires k < |pools| && UniqueAddresses(pools) && pools[k].address == u.address
    requires PatchGraph(GraphOf(pools), u) == GraphOf(pools[k := u])
    requires Hop(u, key, t)
    ensures Hop(pools[k], key, t)
  {
    var e := Edge(u, t);
    assert pools[k := u][k] == u;
    EdgesAreHops(pools[k := u], key, e);
    var edges := Neighbours(GraphOf(pools), key);
    var i :| 0 <= i < |edges| && Patched(edges[i], u) == e;
    EdgesAreHops(pools, key, edges[i]);
    var j :| 0 <= j < |pools| && pools[j] == edges[i].pool;
    assert j == k;
  }
}
