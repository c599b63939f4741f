/**
 * The token graph spanned by liquidity pools, and routes in it
 * (dex/smart_routing/pathfinder.rs).
 */
module PoolGraph {
  import opened Common

  type Token = nat
  type Path = seq<Token>

  datatype Protocol = OrderBook | AmmV2 | AmmV3 | StableSwap | ConcentratedLiquidity | RfqSystem

  datatype PoolInfo = PoolInfo(address: nat, protocol: Protocol, tokenA: Token, tokenB: Token, feeTier: nat, liquidity: nat)

  datatype Edge = Edge(to: Token, pool: nat, weight: nat, liquidity: nat)

  type Graph = map<Token, seq<Edge>>

  // ----- building the graph -----

  const U128_MAX: nat := 0xFFFF_FFFF_FFFF_FFFF_FFFF_FFFF_FFFF_FFFF
  const LIQUIDITY_SCALE: nat := 1_000_000_000_000_000_000

  function FeeMultiplier(p: Protocol): nat {
    match p
    case OrderBook => 100
    case AmmV2 => 150
    case AmmV3 => 120
    case StableSwap => 80
    case ConcentratedLiquidity => 110
    case RfqSystem => 90
  }

  function LiquidityScore(liquidity: nat): nat {
    if liquidity > 0 then LIQUIDITY_SCALE / liquidity else U128_MAX
  }

  function BaseWeight(pool: PoolInfo): nat {
    Min(LiquidityScore(pool.liquidity) + pool.feeTier, U128_MAX)
  }

  /** `calculate_edge_weight`, with its saturating 128-bit steps. */
  function EdgeWeight(pool: PoolInfo): nat {
    Min(BaseWeight(pool) * FeeMultiplier(pool.protocol), U128_MAX) / 100
  }

  lemma Scaled(a: nat, b: nat, k: nat)
    ensures a <= b ==> a * k <= b * k
  {}

  lemma QuotientAtLeast(n: nat, d: nat, k: nat)
    requires d > 0 && k * d <= n
    ensures k <= n / d
  {
    var q := n / d;
    assert n < (q + 1) * d;
    Scaled(q + 1, k, d);
  }

  lemma ShareFalls(total: nat, a: nat, b: nat)
    requires 0 < b <= a
    ensures total / a <= total / b
  {
    var share := total / a;
    Scaled(b, a, share);
    assert share * a <= total;
    QuotientAtLeast(total, b, share);
  }

  /** Of two pools of one protocol, the one that is as liquid and charges no more
      is never the heavier edge, saturation and rounding included. */
  lemma LiquidIsLighter(p: PoolInfo, q: PoolInfo)
    requires p.protocol == q.protocol && p.liquidity >= q.liquidity && p.feeTier <= q.feeTier
    ensures EdgeWeight(p) <= EdgeWeight(q)
  {
    if q.liquidity > 0 {
      ShareFalls(LIQUIDITY_SCALE, p.liquidity, q.liquidity);
    } else {
      ShareFalls(LIQUIDITY_SCALE, Max(p.liquidity, 1), 1);
    }
    var k := FeeMultiplier(p.protocol);
    Scaled(BaseWeight(p), BaseWeight(q), k);
    var light, heavy := Min(BaseWeight(p) * k, U128_MAX), Min(BaseWeight(q) * k, U128_MAX);
    assert light / 100 * 100 <= light <= heavy;
    QuotientAtLeast(heavy, 100, light / 100);
  }

  /** `w` is `base` times `percent` hundredths, rounded down. */
  predicate Percent(w: nat, base: nat, percent: nat) {
    100 * w <= base * percent < 100 * w + 100
  }

  /** The weight of a pool: how often its liquidity goes into the scale, plus its
      fee tier, times what its protocol costs; without liquidity the heaviest there is. */
  lemma EdgeWeightExact(pool: PoolInfo, share: nat)
    requires share * pool.liquidity <= 1_000_000_000_000_000_000 < (share + 1) * pool.liquidity
    requires (share + pool.feeTier) * 150 <= U128_MAX
    ensures var w, base := EdgeWeight(pool), share + pool.feeTier;
            && (pool.protocol == OrderBook ==> w == base)
            && (pool.protocol == AmmV2 ==> Percent(w, base, 150))
            && (pool.protocol == AmmV3 ==> Percent(w, base, 120))
            && (pool.protocol == StableSwap ==> Percent(w, base, 80))
            && (pool.protocol == ConcentratedLiquidity ==> Percent(w, base, 110))
            && (pool.protocol == RfqSystem ==> Percent(w, base, 90))
  {
    QuotientAtLeast(LIQUIDITY_SCALE, pool.liquidity, share);
    var q := LIQUIDITY_SCALE / pool.liquidity;
    assert q * pool.liquidity <= LIQUIDITY_SCALE;
    Scaled(share + 1, q, pool.liquidity);
    assert BaseWeight(pool) == share + pool.feeTier;
  }

  lemma EmptyPoolHeaviest(pool: PoolInfo, other: PoolInfo)
    requires pool.liquidity == 0
    ensures EdgeWeight(other) <= EdgeWeight(pool) == 0xFFFF_FFFF_FFFF_FFFF_FFFF_FFFF_FFFF_FFFF / 100
  {
    Scaled(80, FeeMultiplier(pool.protocol), U128_MAX);
  }

  function EdgeTo(pool: PoolInfo, to: Token): Edge {
    Edge(to, pool.address, EdgeWeight(pool), pool.liquidity)
  }

  function InsertByWeight(e: Edge, sorted: seq<Edge>): (r: seq<Edge>)
    ensures multiset(r) == multiset(sorted) + multiset{e}
  {
    if sorted == [] || e.weight <= sorted[0].weight then [e] + sorted
    else
      assert sorted == [sorted[0]] + sorted[1..];
      [sorted[0]] + InsertByWeight(e, sorted[1..])
  }

  /** A stable sort by weight. */
  function SortByWeight(edges: seq<Edge>): (r: seq<Edge>)
    ensures multiset(r) == multiset(edges)
  {
    if edges == [] then []
    else
      assert edges == [edges[0]] + edges[1..];
      InsertByWeight(edges[0], SortByWeight(edges[1..]))
  }

  ghost predicate Ascending(edges: seq<Edge>) {
    forall i, j | 0 <= i < j < |edges| :: edges[i].weight <= edges[j].weight
  }

  lemma FirstAscends(e: Edge, rest: seq<Edge>)
    requires Ascending(rest) && (rest == [] || e.weight <= rest[0].weight)
    ensures Ascending([e] + rest)
  {
  }

  lemma {:induction false} InsertAscends(e: Edge, sorted: seq<Edge>)
    requires Ascending(sorted)
    ensures Ascending(InsertByWeight(e, sorted))
    ensures InsertByWeight(e, sorted)[0].weight == if sorted == [] then e.weight else Min(e.weight, sorted[0].weight)
  {
    if sorted != [] && sorted[0].weight < e.weight {
      InsertAscends(e, sorted[1..]);
      FirstAscends(sorted[0], InsertByWeight(e, sorted[1..]));
    } else {
      FirstAscends(e, sorted);
    }
  }

  lemma {:induction false} SortAscends(edges: seq<Edge>)
    ensures Ascending(SortByWeight(edges))
  {
    if edges != [] {
      SortAscends(edges[1..]);
      InsertAscends(edges[0], SortByWeight(edges[1..]));
    }
  }

  /** The edges of one weight, in their order. */
  function OfWeight(edges: seq<Edge>, w: nat): seq<Edge> {
    if edges == [] then [] else (if edges[0].weight == w then [edges[0]] else []) + OfWeight(edges[1..], w)
  }

  lemma OfWeightCons(e: Edge, edges: seq<Edge>, w: nat)
    ensures OfWeight([e] + edges, w) == (if e.weight == w then [e] else []) + OfWeight(edges, w)
  {
    assert ([e] + edges)[1..] == edges;
  }

  lemma {:induction false} InsertStable(e: Edge, sorted: seq<Edge>, w: nat)
    ensures OfWeight(InsertByWeight(e, sorted), w) == (if e.weight == w then [e] else []) + OfWeight(sorted, w)
  {
    if sorted != [] && sorted[0].weight < e.weight {
      InsertStable(e, sorted[1..], w);
      OfWeightCons(sorted[0], InsertByWeight(e, sorted[1..]), w);
    } else {
      OfWeightCons(e, sorted, w);
    }
  }

  /** Edges of the same weight stay in the order of the pools. */
  lemma {:induction false} SortIsStable(edges: seq<Edge>, w: nat)
    ensures OfWeight(SortByWeight(edges), w) == OfWeight(edges, w)
  {
    if edges != [] {
      SortIsStable(edges[1..], w);
      InsertStable(edges[0], SortByWeight(edges[1..]), w);
    }
  }

  lemma SortSameEdges(edges: seq<Edge>, e: Edge)
    ensures e in SortByWeight(edges) <==> e in edges
  {
    assert e in SortByWeight(edges) <==> e in multiset(SortByWeight(edges));
    assert e in edges <==> e in multiset(edges);
  }

  /** `e` is the way through `pool` out of `t`. */
  ghost predicate Leads(pool: PoolInfo, t: Token, e: Edge) {
    || (pool.tokenA == t && e == EdgeTo(pool, pool.tokenB))
    || (pool.tokenB == t && e == EdgeTo(pool, pool.tokenA))
  }

  /** The edges of the graph are the two directions of every pool. */
  ghost predicate GraphOf(pools: seq<PoolInfo>, graph: Graph) {
    forall t, e :: InGraph(graph, t, e) <==> Offered(pools, t, e)
  }

  ghost predicate InGraph(graph: Graph, t: Token, e: Edge) {
    t in graph && e in graph[t]
  }

  ghost predicate Offered(pools: seq<PoolInfo>, t: Token, e: Edge) {
    exists p :: p in pools && Leads(p, t, e)
  }

  function EdgesOf(graph: Graph, t: Token): seq<Edge> {
    if t in graph then graph[t] else []
  }

  /** The ways out of `t` through one pool: two, if it trades `t` for itself. */
  function Ways(pool: PoolInfo, t: Token): seq<Edge> {
    (if pool.tokenA == t then [EdgeTo(pool, pool.tokenB)] else []) +
    (if pool.tokenB == t then [EdgeTo(pool, pool.tokenA)] else [])
  }

  /** The ways out of `t`, in the order of the pools. */
  function WaysOut(pools: seq<PoolInfo>, t: Token): seq<Edge> {
    if pools == [] then [] else WaysOut(pools[..|pools| - 1], t) + Ways(pools[|pools| - 1], t)
  }

  lemma {:induction false} WaysAreOffered(pools: seq<PoolInfo>, t: Token, e: Edge)
    ensures e in WaysOut(pools, t) <==> Offered(pools, t, e)
  {
    if pools != [] {
      var front, pool := pools[..|pools| - 1], pools[|pools| - 1];
      assert pools == front + [pool];
      WaysAreOffered(front, t, e);
      assert e in Ways(pool, t) <==> Leads(pool, t, e);
      if Leads(pool, t, e) {
        assert pool in pools;
      }
      if p :| p in front && Leads(p, t, e) {
        assert p in pools;
      }
    }
  }

  method AddEdge(graph: Graph, from: Token, e: Edge) returns (r: Graph)
    ensures forall t :: EdgesOf(r, t) == EdgesOf(graph, t) + if t == from then [e] else []
  {
    var edges := if from in graph then graph[from] else [];
    r := graph[from := edges + [e]];
  }

  lemma WaysOutNone(pools: seq<PoolInfo>)
    ensures forall t :: WaysOut(pools[..0], t) == []
  {}

  lemma WaysOutSnoc(pools: seq<PoolInfo>, i: nat, graph: Graph, both: Graph)
    requires i < |pools| && forall t :: EdgesOf(graph, t) == WaysOut(pools[..i], t)
    requires forall t :: EdgesOf(both, t) == EdgesOf(graph, t) + Ways(pools[i], t)
    ensures forall t :: EdgesOf(both, t) == WaysOut(pools[..i + 1], t)
  {
    hide EdgesOf, Ways;
    assert pools[..i + 1][..i] == pools[..i];
  }

  /** `build_graph`: both directions of every pool, at each token the lightest first. */
  method BuildGraph(pools: seq<PoolInfo>) returns (graph: Graph)
    ensures GraphOf(pools, graph)
    ensures forall t :: EdgesOf(graph, t) == SortByWeight(WaysOut(pools, t))
  {
    hide WaysOut, SortByWeight, GraphOf;
    graph := map[];
    assert forall t :: WaysOut(pools[..0], t) == [] by {
      WaysOutNone(pools);
    }
    for i := 0 to |pools|
      invariant forall t :: EdgesOf(graph, t) == WaysOut(pools[..i], t)
    {
      var pool := pools[i];
      var half := AddEdge(graph, pool.tokenA, EdgeTo(pool, pool.tokenB));
      var both := AddEdge(half, pool.tokenB, EdgeTo(pool, pool.tokenA));
      forall t
        ensures EdgesOf(both, t) == EdgesOf(graph, t) + Ways(pool, t)
      {
      }
      WaysOutSnoc(pools, i, graph, both);
      graph := both;
    }
    assert pools[..|pools|] == pools;
    ghost var unsorted := graph;
    graph := map t | t in graph :: SortByWeight(graph[t]);
    SortedGraphOf(pools, unsorted, graph);
  }

  lemma SortedGraphOf(pools: seq<PoolInfo>, unsorted: Graph, graph: Graph)
    requires forall t :: EdgesOf(unsorted, t) == WaysOut(pools, t)
    requires graph == map t | t in unsorted :: SortByWeight(unsorted[t])
    ensures GraphOf(pools, graph) && forall t :: EdgesOf(graph, t) == SortByWeight(WaysOut(pools, t))
  {
    forall t, e
      ensures InGraph(graph, t, e) <==> Offered(pools, t, e)
    {
      assert EdgesOf(unsorted, t) == WaysOut(pools, t);
      SortSameEdges(WaysOut(pools, t), e);
      WaysAreOffered(pools, t, e);
    }
  }

  // ----- routes -----

  ghost predicate HasEdge(graph: Graph, a: Token, b: Token) {
    a in graph && exists e :: e in graph[a] && e.to == b
  }

  /** Some pool trades the two tokens. */
  ghost predicate Joined(pools: seq<PoolInfo>, a: Token, b: Token) {
    exists p :: p in pools && ((p.tokenA == a && p.tokenB == b) || (p.tokenA == b && p.tokenB == a))
  }

  lemma EdgesArePools(pools: seq<PoolInfo>, graph: Graph, a: Token, b: Token)
    requires GraphOf(pools, graph)
    ensures HasEdge(graph, a, b) <==> Joined(pools, a, b)
  {
    if HasEdge(graph, a, b) {
      var e :| e in graph[a] && e.to == b;
      assert InGraph(graph, a, e);
      var p :| p in pools && Leads(p, a, e);
    }
    if Joined(pools, a, b) {
      var p :| p in pools && ((p.tokenA == a && p.tokenB == b) || (p.tokenA == b && p.tokenB == a));
      assert Leads(p, a, EdgeTo(p, b));
      assert InGraph(graph, a, EdgeTo(p, b));
    }
  }

  ghost predicate Distinct(path: Path) {
    forall i, j | 0 <= i < j < |path| :: path[i] != path[j]
  }

  ghost predicate IsWalk(graph: Graph, path: Path) {
    path != [] && forall i | 0 <= i < |path| - 1 :: HasEdge(graph, path[i], path[i + 1])
  }

  /** A path from `start` to `end` that visits no token twice and makes at most
      `maxHops` steps. */
  ghost predicate IsRoute(graph: Graph, start: Token, end: Token, maxHops: nat, path: Path) {
    IsWalk(graph, path) && path[0] == start && path[|path| - 1] == end && Distinct(path) && |path| <= maxHops + 1
  }

  /** Walking `path` along some edges of the graph costs `cost` in total. */
  ghost predicate Costs(graph: Graph, path: Path, cost: nat)
    decreases |path|
  {
    if |path| <= 1 then |path| == 1 && cost == 0
    else
      var from, to := path[|path| - 2], path[|path| - 1];
      from in graph &&
      exists e :: e in graph[from] && e.to == to && e.weight <= cost && Costs(graph, path[..|path| - 1], cost - e.weight)
  }

  lemma CostsSnoc(graph: Graph, path: Path, cost: nat, e: Edge)
    requires Costs(graph, path, cost) && path[|path| - 1] in graph && e in graph[path[|path| - 1]]
    ensures Costs(graph, path + [e.to], cost + e.weight)
  {
    assert (path + [e.to])[..|path|] == path;
  }

  lemma {:induction false} CostsIsWalk(graph: Graph, path: Path, cost: nat)
    requires Costs(graph, path, cost)
    ensures IsWalk(graph, path)
    decreases |path|
  {
    if |path| > 1 {
      var n := |path| - 1;
      var e :| e in graph[path[n - 1]] && e.to == path[n] && e.weight <= cost && Costs(graph, path[..n], cost - e.weight);
      CostsIsWalk(graph, path[..n], cost - e.weight);
      forall i | 0 <= i < n
        ensures HasEdge(graph, path[i], path[i + 1])
      {
        if i < n - 1 {
          assert HasEdge(graph, path[..n][i], path[..n][i + 1]);
        }
      }
    }
  }

  /** Every token the graph can lead to from `start`, and `start`. */
  function Tokens(graph: Graph, start: Token): set<Token> {
    {start} + set t, i | t in graph && 0 <= i < |graph[t]| :: graph[t][i].to
  }

  /** More tokens than any simple path has. */
  function Height(graph: Graph, start: Token): nat {
    |Tokens(graph, start)| + 1
  }

  lemma {:induction false} DistinctFits(path: Path, tokens: set<Token>)
    requires Distinct(path) && forall x | x in path :: x in tokens
    ensures |path| <= |tokens|
    decreases |path|
  {
    if path != [] {
      var last := path[|path| - 1];
      DistinctFits(path[..|path| - 1], tokens - {last});
    }
  }

  lemma {:induction false} WalkTokens(graph: Graph, start: Token, path: Path)
    requires IsWalk(graph, path) && path[0] == start
    ensures forall x | x in path :: x in Tokens(graph, start)
  {
    forall i | 0 <= i < |path|
      ensures path[i] in Tokens(graph, start)
    {
      if i > 0 {
        assert HasEdge(graph, path[i - 1], path[i]);
        var e :| e in graph[path[i - 1]] && e.to == path[i];
        var k :| 0 <= k < |graph[path[i - 1]]| && graph[path[i - 1]][k] == e;
        assert graph[path[i - 1]][k].to == path[i];
      }
    }
  }

  // ----- the work left for a search that extends simple paths -----

  ghost function Pow(b: nat, k: nat): (r: nat)
    ensures b > 0 ==> r > 0
  {
    if k == 0 then 1 else b * Pow(b, k - 1)
  }

  /** Each pending path weighs more than all its extensions by one token. */
  ghost function Pending(paths: seq<Path>, b: nat, height: nat): nat {
    if paths == [] then 0
    else Pow(b, if |paths[0]| <= height then height - |paths[0]| else 0) + Pending(paths[1..], b, height)
  }

  lemma {:induction false} PendingConcat(p: seq<Path>, q: seq<Path>, b: nat, height: nat)
    ensures Pending(p + q, b, height) == Pending(p, b, height) + Pending(q, b, height)
  {
    if p == [] {
      assert p + q == q;
    } else {
      assert (p + q)[1..] == p[1..] + q;
      PendingConcat(p[1..], q, b, height);
    }
  }

  /** Replacing a path by fewer than `b` paths one token longer lowers the work. */
  lemma {:induction false} PendingExtensions(path: Path, extensions: seq<Path>, b: nat, height: nat)
    requires |path| < height && |extensions| < b && forall x | x in extensions :: |x| == |path| + 1
    ensures Pending(extensions, b, height) < Pow(b, height - |path|)
  {
    PendingSame(extensions, |path| + 1, b, height);
    StrictlyLess(|extensions|, b, Pow(b, height - |path| - 1));
  }

  lemma StrictlyLess(a: nat, b: nat, unit: nat)
    requires a < b && unit > 0
    ensures a * unit < b * unit
  {
  }

  lemma {:induction false} PendingSame(paths: seq<Path>, len: nat, b: nat, height: nat)
    requires len <= height && forall x | x in paths :: |x| == len
    ensures Pending(paths, b, height) == |paths| * Pow(b, height - len)
  {
    if paths != [] {
      PendingSame(paths[1..], len, b, height);
      OneMore(|paths[1..]|, Pow(b, height - len));
    }
  }

  lemma OneMore(a: nat, unit: nat)
    ensures (a + 1) * unit == unit + a * unit
  {
  }

  lemma {:induction false} DegreeBound(graph: Graph) returns (d: nat)
    ensures forall t | t in graph :: |graph[t]| <= d
    decreases |graph|
  {
    if graph == map[] {
      d := 0;
    } else {
      var t :| t in graph;
      assert (graph - {t}).Keys == graph.Keys - {t};
      var d' := DegreeBound(graph - {t});
      d := Max(d', |graph[t]|);
      forall x | x in graph
        ensures |graph[x]| <= d
      {
        assert x != t ==> x in graph - {t};
      }
    }
  }
}
