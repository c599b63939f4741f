/**
 * The combined route search over pools (dex/smart_routing/pathfinder.rs).
 */
module PathFinder {
  import opened Common
  import opened PoolGraph
  import opened Routes
  import opened RouteSearch
  import Dijkstra

  // ----- routes over pools -----

  ghost predicate PoolWalk(pools: seq<PoolInfo>, tokenIn: Token, tokenOut: Token, path: Path) {
    && path != [] && path[0] == tokenIn && path[|path| - 1] == tokenOut
    && forall i | 0 <= i < |path| - 1 :: Joined(pools, path[i], path[i + 1])
  }

  /** From `tokenIn` to `tokenOut` over existing pools, no token twice, at most `maxHops` steps. */
  ghost predicate PoolRoute(pools: seq<PoolInfo>, tokenIn: Token, tokenOut: Token, maxHops: nat, path: Path) {
    PoolWalk(pools, tokenIn, tokenOut, path) && Distinct(path) && |path| <= maxHops + 1
  }

  lemma RoutesArePoolRoutes(pools: seq<PoolInfo>, graph: Graph, tokenIn: Token, tokenOut: Token, maxHops: nat, path: Path)
    requires GraphOf(pools, graph)
    ensures IsRoute(graph, tokenIn, tokenOut, maxHops, path) <==> PoolRoute(pools, tokenIn, tokenOut, maxHops, path)
  {
    forall a, b
      ensures HasEdge(graph, a, b) <==> Joined(pools, a, b)
    {
      EdgesArePools(pools, graph, a, b);
    }
  }

  ghost predicate Connected(pools: seq<PoolInfo>, tokenIn: Token, tokenOut: Token) {
    exists path :: PoolWalk(pools, tokenIn, tokenOut, path)
  }

  lemma ReachableIsConnected(pools: seq<PoolInfo>, graph: Graph, tokenIn: Token, tokenOut: Token)
    requires GraphOf(pools, graph)
    ensures Dijkstra.Reachable(graph, tokenIn, tokenOut) <==> Connected(pools, tokenIn, tokenOut)
  {
    forall a, b
      ensures HasEdge(graph, a, b) <==> Joined(pools, a, b)
    {
      EdgesArePools(pools, graph, a, b);
    }
    if Dijkstra.Reachable(graph, tokenIn, tokenOut) {
      var q, w :| Costs(graph, q, w) && q[0] == tokenIn && q[|q| - 1] == tokenOut;
      CostsIsWalk(graph, q, w);
      assert PoolWalk(pools, tokenIn, tokenOut, q);
    }
    if Connected(pools, tokenIn, tokenOut) {
      var q :| PoolWalk(pools, tokenIn, tokenOut, q);
      var w := Dijkstra.WalkHasCost(graph, q);
    }
  }

  /** All tokens the pools trade. */
  function PoolTokens(pools: seq<PoolInfo>): set<Token> {
    (set p | p in pools :: p.tokenA) + (set p | p in pools :: p.tokenB)
  }

  /** The hop bound is at least the number of tokens other than the destination. */
  ghost predicate RoomyPools(pools: seq<PoolInfo>, tokenIn: Token, tokenOut: Token, maxHops: nat) {
    |{tokenIn} + PoolTokens(pools) - {tokenOut}| <= maxHops
  }

  lemma RoomyPoolsIsRoomy(pools: seq<PoolInfo>, graph: Graph, tokenIn: Token, tokenOut: Token, maxHops: nat)
    requires GraphOf(pools, graph) && RoomyPools(pools, tokenIn, tokenOut, maxHops)
    ensures Dijkstra.Roomy(graph, tokenIn, tokenOut, maxHops)
  {
    var small, large := Tokens(graph, tokenIn) - {tokenOut}, {tokenIn} + PoolTokens(pools) - {tokenOut};
    forall x | x in small
      ensures x in large
    {
      if x != tokenIn {
        var t, i :| t in graph && 0 <= i < |graph[t]| && graph[t][i].to == x;
        assert InGraph(graph, t, graph[t][i]);
        var p :| p in pools && Leads(p, t, graph[t][i]);
      }
    }
    SubsetSmaller(small, large);
  }

  lemma {:induction false} SubsetSmaller(a: set<Token>, b: set<Token>)
    requires a <= b
    ensures |a| <= |b|
  {
    if a != {} {
      var x :| x in a;
      SubsetSmaller(a - {x}, b - {x});
    }
  }

  ghost predicate HasPoolRoute(pools: seq<PoolInfo>, tokenIn: Token, tokenOut: Token, maxHops: nat) {
    exists path :: PoolRoute(pools, tokenIn, tokenOut, maxHops, path)
  }

  /** The pools hold a trap for the search, with the given toll if any. */
  ghost predicate TrapsSearch(pools: seq<PoolInfo>, tokenIn: Token, tokenOut: Token, maxHops: nat, toll: Option<nat>) {
    exists graph :: GraphOf(pools, graph) && Dijkstra.Trapped(graph, tokenIn, tokenOut, maxHops, toll)
  }

  /** The pools hold a trap whose toll is not the cheapest way. */
  ghost predicate MisleadsSearch(pools: seq<PoolInfo>, tokenIn: Token, tokenOut: Token, maxHops: nat) {
    exists graph :: GraphOf(pools, graph) && Dijkstra.Misled(graph, tokenIn, tokenOut, maxHops)
  }

  /** The hop bound cannot come in the way of the search. */
  ghost predicate BoundIsSafe(pools: seq<PoolInfo>, tokenIn: Token, tokenOut: Token, maxHops: nat) {
    maxHops <= 1 || tokenIn == tokenOut || RoomyPools(pools, tokenIn, tokenOut, maxHops)
  }

  /** No route within the hop bound is cheaper. */
  ghost predicate CheapestWithin(pools: seq<PoolInfo>, tokenIn: Token, tokenOut: Token, maxHops: nat, path: Path) {
    forall graph | GraphOf(pools, graph) :: Dijkstra.LeastWithin(graph, tokenIn, tokenOut, maxHops, path)
  }

  /** Two graphs of the same pools have the same edges, in another order maybe. */
  lemma SameEdges(pools: seq<PoolInfo>, graph: Graph, other: Graph)
    requires GraphOf(pools, graph) && GraphOf(pools, other)
    ensures forall t, e :: e in EdgesOf(graph, t) <==> e in EdgesOf(other, t)
    ensures forall a, b :: HasEdge(graph, a, b) <==> HasEdge(other, a, b)
  {
    forall t, e
      ensures e in EdgesOf(graph, t) <==> e in EdgesOf(other, t)
    {
      assert InGraph(graph, t, e) <==> Offered(pools, t, e);
      assert InGraph(other, t, e) <==> Offered(pools, t, e);
    }
    forall a, b
      ensures HasEdge(graph, a, b) <==> HasEdge(other, a, b)
    {
      EdgesArePools(pools, graph, a, b);
      EdgesArePools(pools, other, a, b);
    }
  }

  lemma TrapInAnyOrder(pools: seq<PoolInfo>, graph: Graph, other: Graph, maxHops: nat, t: Dijkstra.Trap)
    requires GraphOf(pools, graph) && GraphOf(pools, other)
    ensures Dijkstra.IsTrap(other, maxHops, t) ==> Dijkstra.IsTrap(graph, maxHops, t)
    ensures Dijkstra.Overpriced(other, maxHops, t) ==> Dijkstra.Overpriced(graph, maxHops, t)
  {
    SameEdges(pools, graph, other);
  }

  lemma {:induction false} CostsInAnyOrder(pools: seq<PoolInfo>, graph: Graph, other: Graph, path: Path, cost: nat)
    requires GraphOf(pools, graph) && GraphOf(pools, other) && Costs(other, path, cost)
    ensures Costs(graph, path, cost)
    decreases |path|
  {
    if |path| > 1 {
      var from, to := path[|path| - 2], path[|path| - 1];
      var e :| e in other[from] && e.to == to && e.weight <= cost && Costs(other, path[..|path| - 1], cost - e.weight);
      CostsInAnyOrder(pools, graph, other, path[..|path| - 1], cost - e.weight);
      SameEdges(pools, graph, other);
      assert e in EdgesOf(other, from) && e in EdgesOf(graph, from);
    }
  }

  lemma CheapestInAnyOrder(pools: seq<PoolInfo>, graph: Graph, tokenIn: Token, tokenOut: Token, maxHops: nat, path: Path)
    requires GraphOf(pools, graph)
    ensures Dijkstra.LeastWithin(graph, tokenIn, tokenOut, maxHops, path) <==>
            CheapestWithin(pools, tokenIn, tokenOut, maxHops, path)
  {
    if c: nat :| Costs(graph, path, c) && Dijkstra.NoCheaperWithin(graph, tokenIn, tokenOut, maxHops, c) {
      forall other | GraphOf(pools, other)
        ensures Dijkstra.LeastWithin(other, tokenIn, tokenOut, maxHops, path)
      {
        CostsInAnyOrder(pools, other, graph, path, c);
        forall q, w | Costs(other, q, w) && IsRoute(other, tokenIn, tokenOut, maxHops, q)
          ensures c <= w
        {
          CostsInAnyOrder(pools, graph, other, q, w);
          CostsIsWalk(graph, q, w);
          assert IsRoute(graph, tokenIn, tokenOut, maxHops, q);
        }
        assert Dijkstra.NoCheaperWithin(other, tokenIn, tokenOut, maxHops, c);
      }
    }
  }

  lemma HasOne(pools: seq<PoolInfo>, tokenIn: Token, tokenOut: Token, maxHops: nat, path: Path)
    requires PoolRoute(pools, tokenIn, tokenOut, maxHops, path)
    ensures HasPoolRoute(pools, tokenIn, tokenOut, maxHops)
  {}

  lemma HasRouteIsHasPoolRoute(pools: seq<PoolInfo>, graph: Graph, tokenIn: Token, tokenOut: Token, maxHops: nat)
    requires GraphOf(pools, graph)
    ensures Dijkstra.HasRoute(graph, tokenIn, tokenOut, maxHops) <==> HasPoolRoute(pools, tokenIn, tokenOut, maxHops)
  {
    forall p
      ensures IsRoute(graph, tokenIn, tokenOut, maxHops, p) <==> PoolRoute(pools, tokenIn, tokenOut, maxHops, p)
    {
      RoutesArePoolRoutes(pools, graph, tokenIn, tokenOut, maxHops, p);
    }
  }

  /** What the search in the graph answers, said of the pools. */
  lemma SearchAnswers(pools: seq<PoolInfo>, graph: Graph, tokenIn: Token, tokenOut: Token, maxHops: nat,
                      r: Result<seq<Path>, RoutingError>)
    requires GraphOf(pools, graph)
    requires r.Ok? ==> r.value != []
    requires Dijkstra.Roomy(graph, tokenIn, tokenOut, maxHops) ==> (r.Err? <==> !Dijkstra.Reachable(graph, tokenIn, tokenOut))
    requires Dijkstra.OneStepAway(graph, tokenIn, tokenOut, maxHops) ==> r.Ok?
    requires Dijkstra.SafeBound(graph, tokenIn, tokenOut, maxHops) ==>
               && (r.Err? <==> !Dijkstra.HasRoute(graph, tokenIn, tokenOut, maxHops))
               && (r.Ok? ==> Dijkstra.LeastWithin(graph, tokenIn, tokenOut, maxHops, r.value[0]))
    requires forall toll | Dijkstra.Trapped(graph, tokenIn, tokenOut, maxHops, toll) ::
               r.Err? || Dijkstra.OnlyToll(tokenIn, tokenOut, toll, r.value)
    ensures RoomyPools(pools, tokenIn, tokenOut, maxHops) ==> (r.Ok? <==> Connected(pools, tokenIn, tokenOut))
    ensures BoundIsSafe(pools, tokenIn, tokenOut, maxHops) ==>
              && (r.Ok? <==> HasPoolRoute(pools, tokenIn, tokenOut, maxHops))
              && (r.Ok? ==> CheapestWithin(pools, tokenIn, tokenOut, maxHops, r.value[0]))
    ensures TrapsSearch(pools, tokenIn, tokenOut, maxHops, None) ==> r.Err?
    ensures MisleadsSearch(pools, tokenIn, tokenOut, maxHops) ==>
              r.Ok? && !CheapestWithin(pools, tokenIn, tokenOut, maxHops, r.value[0])
  {
    hide Dijkstra.Roomy, Dijkstra.Reachable, Dijkstra.HasRoute, Dijkstra.LeastWithin, GraphOf, RoomyPools, Connected, HasPoolRoute;
    hide Dijkstra.IsTrap, CheapestWithin;
    ReachableIsConnected(pools, graph, tokenIn, tokenOut);
    HasRouteIsHasPoolRoute(pools, graph, tokenIn, tokenOut, maxHops);
    if RoomyPools(pools, tokenIn, tokenOut, maxHops) {
      RoomyPoolsIsRoomy(pools, graph, tokenIn, tokenOut, maxHops);
    }
    if r.Ok? {
      CheapestInAnyOrder(pools, graph, tokenIn, tokenOut, maxHops, r.value[0]);
    }
    if TrapsSearch(pools, tokenIn, tokenOut, maxHops, None) {
      var other, t :| GraphOf(pools, other) && Dijkstra.IsTrap(other, maxHops, t) && Dijkstra.Between(t, tokenIn, tokenOut) && t.toll == None;
      TrapInAnyOrder(pools, graph, other, maxHops, t);
      assert Dijkstra.Trapped(graph, tokenIn, tokenOut, maxHops, None);
    }
    if MisleadsSearch(pools, tokenIn, tokenOut, maxHops) {
      var other, t :| GraphOf(pools, other) && Dijkstra.Overpriced(other, maxHops, t) && Dijkstra.Between(t, tokenIn, tokenOut);
      TrapInAnyOrder(pools, graph, other, maxHops, t);
      Dijkstra.MisledPaysMore(graph, tokenIn, tokenOut, maxHops);
      var toll :| Dijkstra.Trapped(graph, tokenIn, tokenOut, maxHops, toll);
      assert r.value[0] in r.value;
    }
  }

  predicate SamePair(p: PoolInfo, q: PoolInfo) {
    (p.tokenA == q.tokenA && p.tokenB == q.tokenB) || (p.tokenA == q.tokenB && p.tokenB == q.tokenA)
  }

  /** No two pools trade the same two tokens. */
  ghost predicate OnePoolEach(pools: seq<PoolInfo>) {
    forall i, j | 0 <= i < j < |pools| :: !SamePair(pools[i], pools[j])
  }

  predicate Joins(pool: PoolInfo, t: Token, x: Token) {
    (pool.tokenA == t && pool.tokenB == x) || (pool.tokenA == x && pool.tokenB == t)
  }

  lemma {:induction false} CountConcat(a: seq<Edge>, b: seq<Edge>, x: Token)
    ensures CountTo(a + b, x) == CountTo(a, x) + CountTo(b, x)
  {
    if b == [] {
      assert a + b == a;
    } else {
      assert (a + b)[..|a + b| - 1] == a + b[..|b| - 1];
      CountConcat(a, b[..|b| - 1], x);
    }
  }

  lemma CountOne(e: Edge, x: Token)
    ensures CountTo([e], x) == if e.to == x then 1 else 0
  {
    assert [e][..0] == [] && CountTo([], x) == 0;
  }

  lemma {:induction false} InsertKeepsCount(e: Edge, sorted: seq<Edge>, x: Token)
    ensures CountTo(InsertByWeight(e, sorted), x) == CountTo([e] + sorted, x)
  {
    if sorted != [] && sorted[0].weight < e.weight {
      InsertKeepsCount(e, sorted[1..], x);
      assert sorted == [sorted[0]] + sorted[1..];
      CountConcat([sorted[0]], InsertByWeight(e, sorted[1..]), x);
      CountConcat([e], sorted[1..], x);
      CountConcat([sorted[0]], sorted[1..], x);
      CountConcat([e], sorted, x);
    }
  }

  lemma {:induction false} SortKeepsCount(edges: seq<Edge>, x: Token)
    ensures CountTo(SortByWeight(edges), x) == CountTo(edges, x)
  {
    if edges != [] {
      SortKeepsCount(edges[1..], x);
      InsertKeepsCount(edges[0], SortByWeight(edges[1..]), x);
      CountConcat([edges[0]], SortByWeight(edges[1..]), x);
      assert edges == [edges[0]] + edges[1..];
      CountConcat([edges[0]], edges[1..], x);
    }
  }

  lemma WaysCount(pool: PoolInfo, t: Token, x: Token)
    requires x != t
    ensures CountTo(Ways(pool, t), x) == if Joins(pool, t, x) then 1 else 0
  {
    var a := if pool.tokenA == t then [EdgeTo(pool, pool.tokenB)] else [];
    var b := if pool.tokenB == t then [EdgeTo(pool, pool.tokenA)] else [];
    CountConcat(a, b, x);
    CountOne(EdgeTo(pool, pool.tokenB), x);
    CountOne(EdgeTo(pool, pool.tokenA), x);
    assert CountTo([], x) == 0;
  }

  lemma OnlyPool(pools: seq<PoolInfo>, i: nat, j: nat, t: Token, x: Token)
    requires OnePoolEach(pools) && i < j < |pools| && Joins(pools[i], t, x)
    ensures !Joins(pools[j], t, x)
  {
    assert !SamePair(pools[i], pools[j]);
  }

  lemma {:induction false} OnceEach(pools: seq<PoolInfo>, t: Token, x: Token)
    requires OnePoolEach(pools) && x != t
    ensures CountTo(WaysOut(pools, t), x) <= 1 && (pools == [] ==> CountTo(WaysOut(pools, t), x) == 0)
    ensures CountTo(WaysOut(pools, t), x) > 0 ==> exists i :: 0 <= i < |pools| && Joins(pools[i], t, x)
  {
    if pools != [] {
      var n := |pools| - 1;
      OnceEach(pools[..n], t, x);
      CountConcat(WaysOut(pools[..n], t), Ways(pools[n], t), x);
      WaysCount(pools[n], t, x);
      hide CountTo, Ways, WaysOut, OnePoolEach, Joins;
      if CountTo(WaysOut(pools[..n], t), x) > 0 {
        var i :| 0 <= i < n && Joins(pools[..n][i], t, x);
        assert pools[..n][i] == pools[i];
        OnlyPool(pools, i, n, t, x);
      }
    }
  }

  lemma OnePoolEachNoParallel(pools: seq<PoolInfo>, graph: Graph)
    requires OnePoolEach(pools) && forall t :: EdgesOf(graph, t) == SortByWeight(WaysOut(pools, t))
    ensures NoParallel(graph)
  {
    forall t, x | x != t
      ensures CountTo(EdgesOf(graph, t), x) <= 1
    {
      SortKeepsCount(WaysOut(pools, t), x);
      OnceEach(pools, t, x);
    }
  }

  lemma CompleteMeans(pools: seq<PoolInfo>, graph: Graph, tokenIn: Token, tokenOut: Token, maxHops: nat, q: seq<Path>,
                      hashPath: Path -> nat)
    requires q != [] && forall t :: EdgesOf(graph, t) == SortByWeight(WaysOut(pools, t))
    requires InjectiveHash(hashPath) ==> Complete(pools, tokenIn, tokenOut, maxHops, q, NoParallel(graph))
    ensures InjectiveHash(hashPath) ==> forall p | PoolRoute(pools, tokenIn, tokenOut, maxHops, p) :: |q[0]| <= |p|
    ensures InjectiveHash(hashPath) && OnePoolEach(pools) && |q| < 5 ==>
              forall p | PoolRoute(pools, tokenIn, tokenOut, maxHops, p) :: p in q
    ensures InjectiveHash(hashPath) && OnePoolEach(pools) ==>
              forall p | PoolRoute(pools, tokenIn, tokenOut, maxHops, p) && p !in q :: |q| >= 3 && |q[2]| <= |p|
  {
    hide InjectiveHash, OnePoolEach, NoParallel, PoolRoute, WaysOut, SortByWeight;
    if OnePoolEach(pools) {
      OnePoolEachNoParallel(pools, graph);
    }
  }

  // ----- parallel pools that use up the limits -----

  /** The five lightest pools of `tokenIn` all lead to `tokenOut`, and the cheap way on
      to the rest is a trap for the search. */
  ghost predicate Crowded(pools: seq<PoolInfo>, tokenIn: Token, tokenOut: Token, maxHops: nat) {
    && tokenIn != tokenOut && maxHops >= 1 && LeadsFive(SortByWeight(WaysOut(pools, tokenIn)), tokenOut)
    && exists toll :: TrapsSearch(pools, tokenIn, tokenOut, maxHops, toll)
  }

  ghost predicate LeadsFive(edges: seq<Edge>, to: Token) {
    |edges| >= 5 && forall i | 0 <= i < 5 :: edges[i].to == to
  }

  lemma DirectLast(graph: Graph, tokenIn: Token, tokenOut: Token, maxHops: nat, front: seq<Path>, edges: seq<Edge>)
    requires tokenIn != tokenOut && maxHops >= 1 && edges != [] && edges[|edges| - 1].to == tokenOut
    requires front == RoutesAlong(graph, tokenOut, maxHops, [tokenIn], edges[..|edges| - 1])
    requires |front| == |edges| - 1 && forall i | 0 <= i < |edges| - 1 :: front[i] == [tokenIn, tokenOut]
    ensures var along := RoutesAlong(graph, tokenOut, maxHops, [tokenIn], edges);
            |along| == |edges| && forall i | 0 <= i < |edges| :: along[i] == [tokenIn, tokenOut]
  {
  }

  lemma {:induction false} DirectAlong(graph: Graph, tokenIn: Token, tokenOut: Token, maxHops: nat, edges: seq<Edge>, n: nat)
    requires tokenIn != tokenOut && maxHops >= 1 && n <= |edges| && forall i | 0 <= i < n :: edges[i].to == tokenOut
    ensures var along := RoutesAlong(graph, tokenOut, maxHops, [tokenIn], edges);
            |along| >= n && (n == |edges| ==> |along| == n) && forall i | 0 <= i < n :: along[i] == [tokenIn, tokenOut]
  {
    if edges != [] {
      var last := |edges| - 1;
      var front := RoutesAlong(graph, tokenOut, maxHops, [tokenIn], edges[..last]);
      DirectAlong(graph, tokenIn, tokenOut, maxHops, edges[..last], if n <= last then n else last);
      assert front <= RoutesAlong(graph, tokenOut, maxHops, [tokenIn], edges);
      if n == |edges| {
        DirectLast(graph, tokenIn, tokenOut, maxHops, front, edges);
      }
    }
  }

  lemma CrowdedRoutes(pools: seq<PoolInfo>, graph: Graph, tokenIn: Token, tokenOut: Token, maxHops: nat)
    requires GraphOf(pools, graph) && forall t :: EdgesOf(graph, t) == SortByWeight(WaysOut(pools, t))
    requires Crowded(pools, tokenIn, tokenOut, maxHops)
    ensures var routes := RoutesFrom(graph, tokenOut, maxHops, [tokenIn]);
            |routes| >= 5 && forall i | 0 <= i < 5 :: routes[i] == [tokenIn, tokenOut]
    ensures forall r | r in RoutesFrom(graph, tokenOut, maxHops, [tokenIn]) && |r| <= 2 :: r == [tokenIn, tokenOut]
    ensures Dijkstra.OneStepAway(graph, tokenIn, tokenOut, maxHops)
  {
    DirectAlong(graph, tokenIn, tokenOut, maxHops, EdgesOf(graph, tokenIn), 5);
    forall r | r in RoutesFrom(graph, tokenOut, maxHops, [tokenIn]) && |r| <= 2
      ensures r == [tokenIn, tokenOut]
    {
      AllRoutes(graph, tokenIn, tokenOut, maxHops, r);
    }
    var e := EdgesOf(graph, tokenIn)[0];
    assert e in graph[tokenIn] && e.to == tokenOut;
  }

  lemma CrowdedFindsDirect(pools: seq<PoolInfo>, graph: Graph, tokenIn: Token, tokenOut: Token, maxHops: nat)
    requires GraphOf(pools, graph) && forall t :: EdgesOf(graph, t) == SortByWeight(WaysOut(pools, t))
    requires Crowded(pools, tokenIn, tokenOut, maxHops)
    ensures Dijkstra.OneStepAway(graph, tokenIn, tokenOut, maxHops)
  {
    CrowdedRoutes(pools, graph, tokenIn, tokenOut, maxHops);
  }

  lemma FewShort(sorted: seq<Path>, p: Path)
    requires ShortestFirst(sorted) && |sorted| > 2 && |sorted[2]| > |p|
    ensures multiset(sorted)[p] <= 2
  {
    var front, rest := sorted[..2], sorted[2..];
    assert sorted == front + rest && front == [sorted[0], sorted[1]];
    assert forall i | 0 <= i < |rest| :: |rest[i]| > |p|;
    assert p !in rest;
  }

  /** The three shortest of routes that begin with five direct ones are direct. */
  lemma CrowdedShortest(routes: seq<Path>, direct: Path)
    requires |routes| >= 5 && forall i | 0 <= i < 5 :: routes[i] == direct
    requires |direct| == 2 && forall r | r in routes && |r| <= 2 :: r == direct
    ensures forall p | p in Take(SortByLength(routes), 3) :: p == direct
  {
    hide SortByLength;
    var sorted := SortByLength(routes);
    SortByLengthSorts(routes);
    SortedElements(routes);
    assert routes == routes[..5] + routes[5..];
    assert routes[..5] == [direct, direct, direct, direct, direct];
    assert multiset(sorted)[direct] >= 5;
    if |sorted[2]| > 2 {
      FewShort(sorted, direct);
    }
    forall p | p in Take(sorted, 3)
      ensures p == direct
    {
      var i :| 0 <= i < 3 && sorted[i] == p;
      assert sorted[i] in sorted && |sorted[i]| <= |sorted[2]|;
    }
  }

  lemma CrowdedIsTrapped(pools: seq<PoolInfo>, graph: Graph, tokenIn: Token, tokenOut: Token, maxHops: nat)
    returns (toll: Option<nat>)
    requires GraphOf(pools, graph) && Crowded(pools, tokenIn, tokenOut, maxHops)
    ensures Dijkstra.Trapped(graph, tokenIn, tokenOut, maxHops, toll)
  {
    hide GraphOf, Dijkstra.IsTrap, LeadsFive, WaysOut, SortByWeight;
    toll :| TrapsSearch(pools, tokenIn, tokenOut, maxHops, toll);
    var other, t :| GraphOf(pools, other) && Dijkstra.IsTrap(other, maxHops, t) && Dijkstra.Between(t, tokenIn, tokenOut) && t.toll == toll;
    TrapInAnyOrder(pools, graph, other, maxHops, t);
  }

  lemma CrowdedLeavesOut(pools: seq<PoolInfo>, graph: Graph, tokenIn: Token, tokenOut: Token, maxHops: nat,
                         dijkstra: seq<Path>, routes: seq<Path>, q: seq<Path>, hashPath: Path -> nat)
    requires GraphOf(pools, graph) && forall t :: EdgesOf(graph, t) == SortByWeight(WaysOut(pools, t))
    requires Crowded(pools, tokenIn, tokenOut, maxHops) && routes == RoutesFrom(graph, tokenOut, maxHops, [tokenIn])
    requires forall toll | Dijkstra.Trapped(graph, tokenIn, tokenOut, maxHops, toll) ::
               Dijkstra.OnlyToll(tokenIn, tokenOut, toll, dijkstra)
    requires Deduplicated(dijkstra + Take(SortByLength(routes), 3) + Take(routes, 5), q, hashPath) && q != []
    ensures q == [[tokenIn, tokenOut]]
  {
    hide *;
    var direct, shortest, first := [tokenIn, tokenOut], Take(SortByLength(routes), 3), Take(routes, 5);
    CrowdedRoutes(pools, graph, tokenIn, tokenOut, maxHops);
    CrowdedShortest(routes, direct);
    var toll := CrowdedIsTrapped(pools, graph, tokenIn, tokenOut, maxHops);
    OnlyTollMeans(tokenIn, tokenOut, toll, dijkstra);
    FirstFive(routes, direct);
    OnlyDirect(dijkstra + shortest + first, q, direct, hashPath);
  }

  lemma FirstFive(routes: seq<Path>, direct: Path)
    requires |routes| >= 5 && forall i | 0 <= i < 5 :: routes[i] == direct
    ensures forall p | p in Take(routes, 5) :: p == direct
  {}

  lemma OnlyTollMeans(tokenIn: Token, tokenOut: Token, toll: Option<nat>, paths: seq<Path>)
    requires Dijkstra.OnlyToll(tokenIn, tokenOut, toll, paths)
    ensures forall p | p in paths :: p == [tokenIn, tokenOut]
  {}

  lemma OnlyDirect(all: seq<Path>, q: seq<Path>, direct: Path, hashPath: Path -> nat)
    requires Deduplicated(all, q, hashPath) && q != [] && forall p | p in all :: p == direct
    ensures q == [direct]
  {
    assert q[0] in q;
    DifferentHashes(q, hashPath);
    FitsIn(q, [direct]);
  }

  ghost predicate InjectiveHash(hashPath: Path -> nat) {
    forall p, q :: hashPath(p) == hashPath(q) ==> p == q
  }

  class PathFinder {
    const maxHops: nat

    constructor (maxHops: nat)
      ensures this.maxHops == maxHops
    {
      this.maxHops := maxHops;
    }

    /** `find_all_paths` */
    method FindAllPaths(tokenIn: Token, tokenOut: Token, pools: seq<PoolInfo>, maxHops: nat, hashPath: Path -> nat)
      returns (r: Result<seq<Path>, RoutingError>)
      ensures r.Ok? ==> 1 <= |r.value| <= 11 && NoneTwice(r.value) && ShortestFirst(r.value)
      ensures r.Ok? ==> exists graph, cheap :: Combines(pools, graph, tokenIn, tokenOut, maxHops, cheap, r.value, hashPath)
      ensures r.Ok? ==> forall p | p in r.value :: PoolRoute(pools, tokenIn, tokenOut, maxHops, p)
      ensures r.Ok? && InjectiveHash(hashPath) ==>
                forall p | PoolRoute(pools, tokenIn, tokenOut, maxHops, p) :: |r.value[0]| <= |p|
      ensures r.Ok? && InjectiveHash(hashPath) && OnePoolEach(pools) && |r.value| < 5 ==>
                forall p | PoolRoute(pools, tokenIn, tokenOut, maxHops, p) :: p in r.value
      ensures r.Ok? && InjectiveHash(hashPath) && OnePoolEach(pools) ==>
                forall p | PoolRoute(pools, tokenIn, tokenOut, maxHops, p) && p !in r.value ::
                  |r.value| >= 3 && |r.value[2]| <= |p|
      ensures RoomyPools(pools, tokenIn, tokenOut, maxHops) ==> (r.Ok? <==> Connected(pools, tokenIn, tokenOut))
      ensures BoundIsSafe(pools, tokenIn, tokenOut, maxHops) ==> (r.Ok? <==> HasPoolRoute(pools, tokenIn, tokenOut, maxHops))
      ensures r.Ok? && InjectiveHash(hashPath) && BoundIsSafe(pools, tokenIn, tokenOut, maxHops) ==>
                exists p :: p in r.value && CheapestWithin(pools, tokenIn, tokenOut, maxHops, p)
      ensures r.Ok? && InjectiveHash(hashPath) && RoomyPools(pools, tokenIn, tokenOut, maxHops) ==>
                exists cheap :: CheapestAmong(pools, tokenIn, tokenOut, cheap, r.value)
      ensures TrapsSearch(pools, tokenIn, tokenOut, maxHops, None) ==> r.Err?
      ensures Crowded(pools, tokenIn, tokenOut, maxHops) ==> r == Ok([[tokenIn, tokenOut]])
    {
      var graph := BuildGraph(pools);
      hide *;
      var dijkstra := Dijkstra.Search(graph, tokenIn, tokenOut, maxHops);
      SearchAnswers(pools, graph, tokenIn, tokenOut, maxHops, dijkstra);
      if dijkstra.Err? {
        if Crowded(pools, tokenIn, tokenOut, maxHops) {
          CrowdedFindsDirect(pools, graph, tokenIn, tokenOut, maxHops);
        }
        return Err(dijkstra.error);
      }
      var bfs := BfsPaths(graph, tokenIn, tokenOut, maxHops);
      var dfs := DfsPaths(graph, tokenIn, tokenOut, maxHops, 5);
      var allPaths := dijkstra.value + bfs + dfs;
      assert allPaths == dijkstra.value + (bfs + dfs);
      r := DeduplicatePaths(allPaths, hashPath);
      assert Combines(pools, graph, tokenIn, tokenOut, maxHops, dijkstra.value, r.value, hashPath) by {
        CombinesThese(pools, graph, tokenIn, tokenOut, maxHops, dijkstra.value, bfs, dfs, r.value, hashPath);
      }
      ghost var routes := RoutesFrom(graph, tokenOut, maxHops, [tokenIn]);
      CheapestFound(pools, graph, tokenIn, tokenOut, maxHops, dijkstra.value, bfs + dfs, r.value, hashPath);
      CombinesAll(pools, graph, tokenIn, tokenOut, maxHops, dijkstra.value, r.value, hashPath);
      AllFound(pools, graph, tokenIn, tokenOut, maxHops, dijkstra.value, routes, r.value, hashPath);
      CompleteMeans(pools, graph, tokenIn, tokenOut, maxHops, r.value, hashPath);
      if Crowded(pools, tokenIn, tokenOut, maxHops) {
        CrowdedLeavesOut(pools, graph, tokenIn, tokenOut, maxHops, dijkstra.value, routes, r.value, hashPath);
      }
    }

    /** `find_shortest_path`: the first route of the search within the finder's own
        bound, the cheapest one where the bound is safe and not in a misleading trap. */
    method FindShortestPath(tokenIn: Token, tokenOut: Token, pools: seq<PoolInfo>) returns (r: Result<Path, RoutingError>)
      ensures r.Ok? ==> PoolRoute(pools, tokenIn, tokenOut, maxHops, r.value)
      ensures RoomyPools(pools, tokenIn, tokenOut, maxHops) ==>
                && (r.Ok? <==> Connected(pools, tokenIn, tokenOut))
                && (r.Ok? ==> exists graph :: GraphOf(pools, graph) && Dijkstra.LeastCost(graph, tokenIn, tokenOut, r.value))
      ensures BoundIsSafe(pools, tokenIn, tokenOut, maxHops) ==>
                && (r.Ok? <==> HasPoolRoute(pools, tokenIn, tokenOut, maxHops))
                && (r.Ok? ==> CheapestWithin(pools, tokenIn, tokenOut, maxHops, r.value))
      ensures TrapsSearch(pools, tokenIn, tokenOut, maxHops, None) ==> r.Err?
      ensures MisleadsSearch(pools, tokenIn, tokenOut, maxHops) ==>
                r.Ok? && !CheapestWithin(pools, tokenIn, tokenOut, maxHops, r.value)
    {
      var graph := BuildGraph(pools);
      hide *;
      var paths := Dijkstra.Search(graph, tokenIn, tokenOut, maxHops);
      SearchAnswers(pools, graph, tokenIn, tokenOut, maxHops, paths);
      if RoomyPools(pools, tokenIn, tokenOut, maxHops) {
        RoomyPoolsIsRoomy(pools, graph, tokenIn, tokenOut, maxHops);
      }
      if paths.Err? {
        return Err(paths.error);
      }
      RoutesArePoolRoutes(pools, graph, tokenIn, tokenOut, maxHops, paths.value[0]);
      return Ok(paths.value[0]);
    }

    /** `validate_path` */
    method ValidatePath(path: Path) returns (valid: bool)
      ensures valid <==> 2 <= |path| <= maxHops + 1 && Distinct(path)
    {
      if |path| < 2 || |path| > maxHops + 1 {
        return false;
      }
      var seen: set<Token> := {};
      for i := 0 to |path|
        invariant Distinct(path[..i]) && forall x :: x in seen <==> x in path[..i]
      {
        assert path[..i + 1] == path[..i] + [path[i]];
        if path[i] in seen {
          assert !Distinct(path) by {
            var j :| 0 <= j < i && path[..i][j] == path[i];
            assert path[j] == path[i];
          }
          return false;
        }
        seen := seen + {path[i]};
      }
      assert path[..|path|] == path;
      return true;
    }
  }

  // ----- what the three searches make of the list -----

  lemma {:induction false} FitsIn(a: seq<Path>, q: seq<Path>)
    requires NoneTwice(a) && forall p | p in a :: p in q
    ensures |a| <= |q|
    decreases |a|
  {
    if a != [] {
      var n := |a| - 1;
      assert a[n] in q;
      var k :| 0 <= k < |q| && q[k] == a[n];
      var rest := q[..k] + q[k + 1..];
      forall p | p in a[..n]
        ensures p in rest
      {
        var i :| 0 <= i < n && a[..n][i] == p;
        assert a[i] != a[n] && a[i] in a;
        var j :| 0 <= j < |q| && q[j] == p;
        assert rest[if j < k then j else j - 1] == p;
      }
      FitsIn(a[..n], rest);
    }
  }

  /** The paths found, each hash once, are among those listed. */
  lemma AllListed(all: seq<Path>, q: seq<Path>, hashPath: Path -> nat)
    requires Deduplicated(all, q, hashPath) && InjectiveHash(hashPath)
    ensures forall p :: p in q <==> p in all
  {
    forall p | p in all
      ensures p in q
    {
      var p' :| p' in q && hashPath(p') == hashPath(p);
    }
  }

  /** The list holds the cheapest ways to arrive. */
  ghost predicate CheapestAmong(pools: seq<PoolInfo>, tokenIn: Token, tokenOut: Token, cheap: seq<Path>, q: seq<Path>) {
    && (forall p | p in cheap :: p in q)
    && exists graph :: GraphOf(pools, graph) && Dijkstra.CheapestArrivals(graph, tokenIn, tokenOut, cheap)
  }

  /** `q` lists, once each and shortest first, at most three paths of the least-cost
      search, the three shortest routes and the first five; of routes of one length,
      and at each token, the lighter pools come first. */
  ghost predicate Combines(pools: seq<PoolInfo>, graph: Graph, tokenIn: Token, tokenOut: Token, maxHops: nat, cheap: seq<Path>,
                           q: seq<Path>, hashPath: Path -> nat) {
    && (forall t :: EdgesOf(graph, t) == SortByWeight(WaysOut(pools, t))) && 1 <= |cheap| <= 3
    && var routes := RoutesFrom(graph, tokenOut, maxHops, [tokenIn]);
       q == SortByLength(Firsts(cheap + Take(SortByLength(routes), 3) + Take(routes, 5), hashPath))
  }

  lemma CombinesThese(pools: seq<PoolInfo>, graph: Graph, tokenIn: Token, tokenOut: Token, maxHops: nat, cheap: seq<Path>,
                      shortest: seq<Path>, first: seq<Path>, q: seq<Path>, hashPath: Path -> nat)
    requires (forall t :: EdgesOf(graph, t) == SortByWeight(WaysOut(pools, t))) && 1 <= |cheap| <= 3
    requires shortest == Take(SortByLength(RoutesFrom(graph, tokenOut, maxHops, [tokenIn])), 3)
    requires first == Take(RoutesFrom(graph, tokenOut, maxHops, [tokenIn]), 5)
    requires q == SortByLength(Firsts(cheap + shortest + first, hashPath))
    ensures Combines(pools, graph, tokenIn, tokenOut, maxHops, cheap, q, hashPath)
  {}

  lemma CombinesAll(pools: seq<PoolInfo>, graph: Graph, tokenIn: Token, tokenOut: Token, maxHops: nat, cheap: seq<Path>,
                    q: seq<Path>, hashPath: Path -> nat)
    requires Combines(pools, graph, tokenIn, tokenOut, maxHops, cheap, q, hashPath)
    ensures |q| <= 11
  {
    hide SortByLength, RoutesFrom, Firsts;
    var routes := RoutesFrom(graph, tokenOut, maxHops, [tokenIn]);
    var all := cheap + Take(SortByLength(routes), 3) + Take(routes, 5);
    FirstsDeduplicate(all, hashPath);
    DifferentHashes(q, hashPath);
    FitsIn(q, all);
  }

  lemma CheapestFound(pools: seq<PoolInfo>, graph: Graph, tokenIn: Token, tokenOut: Token, maxHops: nat, cheap: seq<Path>,
                      more: seq<Path>, q: seq<Path>, hashPath: Path -> nat)
    requires GraphOf(pools, graph) && cheap != [] && Deduplicated(cheap + more, q, hashPath)
    requires BoundIsSafe(pools, tokenIn, tokenOut, maxHops) ==> CheapestWithin(pools, tokenIn, tokenOut, maxHops, cheap[0])
    requires Dijkstra.Roomy(graph, tokenIn, tokenOut, maxHops) ==> Dijkstra.CheapestArrivals(graph, tokenIn, tokenOut, cheap)
    ensures InjectiveHash(hashPath) && BoundIsSafe(pools, tokenIn, tokenOut, maxHops) ==>
              exists p :: p in q && CheapestWithin(pools, tokenIn, tokenOut, maxHops, p)
    ensures InjectiveHash(hashPath) && RoomyPools(pools, tokenIn, tokenOut, maxHops) ==>
              exists cheap :: CheapestAmong(pools, tokenIn, tokenOut, cheap, q)
  {
    hide GraphOf, CheapestWithin, Deduplicated, InjectiveHash, BoundIsSafe, RoomyPools, Dijkstra.Roomy, Dijkstra.CheapestArrivals;
    if InjectiveHash(hashPath) {
      AllListed(cheap + more, q, hashPath);
      assert cheap[0] in cheap + more;
      if RoomyPools(pools, tokenIn, tokenOut, maxHops) {
        RoomyPoolsIsRoomy(pools, graph, tokenIn, tokenOut, maxHops);
        assert CheapestAmong(pools, tokenIn, tokenOut, cheap, q);
      }
    }
  }

  lemma DifferentHashes(q: seq<Path>, hashPath: Path -> nat)
    requires HashesDiffer(q, hashPath)
    ensures NoneTwice(q)
  {
  }

  lemma SortedOnce(paths: seq<Path>, hashPath: Path -> nat)
    requires NoneTwice(paths) && InjectiveHash(hashPath)
    ensures NoneTwice(SortByLength(paths))
  {
    assert HashesDiffer(paths, hashPath);
    SortKeepsHashes(paths, hashPath);
  }

  lemma TakeElements(paths: seq<Path>, n: nat)
    ensures forall p | p in Take(paths, n) :: p in paths
    ensures NoneTwice(paths) ==> NoneTwice(Take(paths, n))
  {
  }

  /** With each route listed once, either five are listed or all. */
  lemma FiveOrAll(routes: seq<Path>, q: seq<Path>)
    requires NoneTwice(routes) && (forall p | p in Take(routes, 5) :: p in q) && |q| < 5
    ensures forall p | p in routes :: p in q
  {
    TakeElements(routes, 5);
    FitsIn(Take(routes, 5), q);
  }

  /** Whatever is not listed is no shorter than the third of the list. */
  lemma ThreeShortest(routes: seq<Path>, q: seq<Path>, p: Path, hashPath: Path -> nat)
    requires NoneTwice(routes) && InjectiveHash(hashPath) && ShortestFirst(q) && p in routes && p !in q
    requires forall x | x in Take(SortByLength(routes), 3) :: x in q
    ensures |q| >= 3 && |q[2]| <= |p|
  {
    hide InjectiveHash, SortByLength;
    var sorted := SortByLength(routes);
    SortedElements(routes);
    SortedOnce(routes, hashPath);
    var three := Take(sorted, 3);
    assert p in sorted;
    assert |sorted| > 3;
    TakeElements(sorted, 3);
    FitsIn(three, q);
    assert three[2] in three;
    var k :| 0 <= k < |sorted| && sorted[k] == p;
    assert forall i | 0 <= i < 3 :: three[i] in three && three[i] == sorted[i];
    if |q[2]| > |three[2]| {
      forall x | x in three
        ensures x in q[..2]
      {
        var i :| 0 <= i < 3 && three[i] == x;
        assert |three[i]| <= |three[2]|;
        var j :| 0 <= j < |q| && q[j] == x;
        assert q[..2][j] == x;
      }
      FitsIn(three, q[..2]);
    }
  }

  lemma AllFound(pools: seq<PoolInfo>, graph: Graph, tokenIn: Token, tokenOut: Token, maxHops: nat, dijkstra: seq<Path>,
                 routes: seq<Path>, q: seq<Path>, hashPath: Path -> nat)
    requires GraphOf(pools, graph) && routes == RoutesFrom(graph, tokenOut, maxHops, [tokenIn])
    requires dijkstra != [] && forall p | p in dijkstra :: IsRoute(graph, tokenIn, tokenOut, maxHops, p)
    requires Deduplicated(dijkstra + Take(SortByLength(routes), 3) + Take(routes, 5), q, hashPath)
    ensures q != [] && NoneTwice(q) && ShortestFirst(q) && HasPoolRoute(pools, tokenIn, tokenOut, maxHops)
    ensures forall p | p in q :: PoolRoute(pools, tokenIn, tokenOut, maxHops, p)
    ensures InjectiveHash(hashPath) ==> Complete(pools, tokenIn, tokenOut, maxHops, q, NoParallel(graph))
  {
    hide IsRoute, PoolRoute, GraphOf, InjectiveHash, NoParallel, RoutesFrom, Complete;
    var shortest, first := Take(SortByLength(routes), 3), Take(routes, 5);
    var all := dijkstra + shortest + first;
    forall p
      ensures p in routes <==> PoolRoute(pools, tokenIn, tokenOut, maxHops, p)
      ensures IsRoute(graph, tokenIn, tokenOut, maxHops, p) <==> p in routes
    {
      AllRoutes(graph, tokenIn, tokenOut, maxHops, p);
      RoutesArePoolRoutes(pools, graph, tokenIn, tokenOut, maxHops, p);
    }
    SortedElements(routes);
    TakeElements(SortByLength(routes), 3);
    TakeElements(routes, 5);
    assert dijkstra[0] in all && dijkstra[0] in routes;
    DifferentHashes(q, hashPath);
    assert q[0] in q;
    HasOne(pools, tokenIn, tokenOut, maxHops, q[0]);
    if InjectiveHash(hashPath) {
      AllListed(all, q, hashPath);
      assert (forall p | p in shortest :: p in all) && forall p | p in first :: p in all;
      CompleteList(pools, graph, tokenIn, tokenOut, maxHops, routes, q, hashPath);
    }
  }

  /** What the list of paths holds. When no two pools trade the same two tokens, fewer
      than five paths are all there are, and none left out is shorter than the third. */
  ghost predicate Complete(pools: seq<PoolInfo>, tokenIn: Token, tokenOut: Token, maxHops: nat, q: seq<Path>, once: bool)
    requires q != []
  {
    && (forall p | PoolRoute(pools, tokenIn, tokenOut, maxHops, p) :: |q[0]| <= |p|)
    && (once && |q| < 5 ==> forall p | PoolRoute(pools, tokenIn, tokenOut, maxHops, p) :: p in q)
    && (once ==> forall p | PoolRoute(pools, tokenIn, tokenOut, maxHops, p) && p !in q :: |q| >= 3 && |q[2]| <= |p|)
  }

  lemma CompleteList(pools: seq<PoolInfo>, graph: Graph, tokenIn: Token, tokenOut: Token, maxHops: nat,
                     routes: seq<Path>, q: seq<Path>, hashPath: Path -> nat)
    requires q != [] && ShortestFirst(q) && InjectiveHash(hashPath)
    requires routes == RoutesFrom(graph, tokenOut, maxHops, [tokenIn]) && routes != []
    requires forall p :: p in routes <==> PoolRoute(pools, tokenIn, tokenOut, maxHops, p)
    requires forall p | p in Take(SortByLength(routes), 3) :: p in q
    requires forall p | p in Take(routes, 5) :: p in q
    ensures Complete(pools, tokenIn, tokenOut, maxHops, q, NoParallel(graph))
  {
    hide PoolRoute, InjectiveHash, NoParallel, RoutesFrom;
    SortedElements(routes);
    var sorted := SortByLength(routes);
    assert Take(sorted, 3)[0] in Take(sorted, 3);
    forall p | p in routes
      ensures |q[0]| <= |p|
    {
      var k :| 0 <= k < |sorted| && sorted[k] == p;
      var j :| 0 <= j < |q| && q[j] == sorted[0];
    }
    if NoParallel(graph) {
      RoutesOnce(graph, tokenOut, maxHops, [tokenIn]);
      if |q| < 5 {
        FiveOrAll(routes, q);
      }
      forall p | p in routes && p !in q
        ensures |q| >= 3 && |q[2]| <= |p|
      {
        ThreeShortest(routes, q, p, hashPath);
      }
    }
  }
}
