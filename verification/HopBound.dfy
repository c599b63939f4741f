/**
 * When a hop bound can cost the least-cost search its routes: the distances of
 * `dijkstra` (dex/smart_routing/pathfinder.rs) do not know how many hops they took.
 */
module HopBound {
  import opened Common
  import opened PoolGraph
  import opened PathFinder
  import Dijkstra

  // ----- a trap built from pools -----

  /** So liquid that only its fee weighs. */
  function FeePool(fee: nat, a: Token, b: Token): (p: PoolInfo)
    requires fee <= 1000
    ensures EdgeWeight(p) == fee
  {
    PoolInfo(0, OrderBook, a, b, fee, 2 * LIQUIDITY_SCALE)
  }

  /** What the pools of a trap charge: along the line, past its second token, and,
      in so many pools, from end to end. */
  datatype Plan = Plan(cheap: nat, dear: nat, toll: nat, tolls: nat)

  const UNTOLLED := Plan(0, 1, 0, 0)
  const OVERPRICED := Plan(0, 1, 10, 1)
  const CROWDED := Plan(1, 10, 0, 5)

  function Toll(plan: Plan): Option<nat> {
    if plan.tolls == 0 then None else Some(plan.toll)
  }

  ghost predicate Cheap(plan: Plan) {
    plan.cheap <= 1000 && plan.dear <= 1000 && plan.toll <= 1000 && plan.dear > 2 * plan.cheap
  }

  function LinePool(line: Path, plan: Plan, i: nat): PoolInfo
    requires i < |line| - 1 && Cheap(plan)
  {
    FeePool(plan.cheap, line[i], line[i + 1])
  }

  function DearPool(line: Path, plan: Plan): PoolInfo
    requires |line| > 3 && Cheap(plan)
  {
    FeePool(plan.dear, line[0], line[2])
  }

  function TollPool(line: Path, plan: Plan): PoolInfo
    requires |line| > 3 && Cheap(plan)
  {
    FeePool(plan.toll, line[0], line[|line| - 1])
  }

  function AlongPools(line: Path, plan: Plan): (pools: seq<PoolInfo>)
    requires line != [] && Cheap(plan)
    ensures |pools| == |line| - 1 && forall i | 0 <= i < |pools| :: pools[i] == LinePool(line, plan, i)
  {
    seq(|line| - 1, i requires 0 <= i < |line| - 1 => LinePool(line, plan, i))
  }

  /** Pools along the line, a dear one past its second token, and those from end to end. */
  function TrapPools(line: Path, plan: Plan): seq<PoolInfo>
    requires |line| > 3 && Cheap(plan)
  {
    Tolled(AlongPools(line, plan) + [DearPool(line, plan)], TollPool(line, plan), plan.tolls)
  }

  function Tolled(pools: seq<PoolInfo>, toll: PoolInfo, n: nat): seq<PoolInfo> {
    if n == 0 then pools else Tolled(pools, toll, n - 1) + [toll]
  }

  lemma {:induction false} TolledHolds(pools: seq<PoolInfo>, toll: PoolInfo, n: nat, p: PoolInfo)
    ensures p in Tolled(pools, toll, n) <==> p in pools || (n > 0 && p == toll)
  {
    if n > 0 {
      TolledHolds(pools, toll, n - 1, p);
    }
  }

  function TrapOf(line: Path, plan: Plan): Dijkstra.Trap {
    Dijkstra.Trap(line, plan.cheap, plan.dear, Toll(plan))
  }

  ghost predicate OnLine(line: Path, plan: Plan, p: PoolInfo)
    requires Cheap(plan)
  {
    exists i :: 0 <= i < |line| - 1 && p == LinePool(line, plan, i)
  }

  /** What the trap consists of. */
  lemma TrapPool(line: Path, plan: Plan, p: PoolInfo)
    requires |line| > 3 && Cheap(plan)
    ensures p in TrapPools(line, plan) <==>
              p == DearPool(line, plan) || (plan.tolls > 0 && p == TollPool(line, plan)) || OnLine(line, plan, p)
  {
    hide LinePool, DearPool, TollPool;
    TolledHolds(AlongPools(line, plan) + [DearPool(line, plan)], TollPool(line, plan), plan.tolls, p);
    assert p in AlongPools(line, plan) <==> OnLine(line, plan, p) by {
      if i :| 0 <= i < |line| - 1 && p == LinePool(line, plan, i) {
        assert AlongPools(line, plan)[i] == p;
      }
    }
  }

  lemma TrapEdge(line: Path, plan: Plan, k: nat, e: Edge, p: PoolInfo)
    requires |line| > 3 && Distinct(line) && k < |line| && Cheap(plan)
    requires p in TrapPools(line, plan) && Leads(p, line[k], e)
    ensures Dijkstra.OnTrap(TrapOf(line, plan), k, e)
  {
    hide TrapPools;
    TrapPool(line, plan, p);
    if p == DearPool(line, plan) {
      assert k == 0 || k == 2;
    } else if plan.tolls > 0 && p == TollPool(line, plan) {
      assert k == 0 || k == |line| - 1;
    } else {
      var i :| 0 <= i < |line| - 1 && p == LinePool(line, plan, i);
      assert k == i || k == i + 1;
    }
  }

  lemma TrapJoins(line: Path, plan: Plan)
    requires |line| > 3 && Cheap(plan)
    ensures var pools := TrapPools(line, plan);
            && (forall i | 0 <= i < |line| - 1 :: Joined(pools, line[i], line[i + 1]))
            && Joined(pools, line[0], line[2])
            && (plan.tolls > 0 ==> Joined(pools, line[0], line[|line| - 1]))
  {
    hide TrapPools;
    forall i | 0 <= i < |line| - 1
      ensures Joined(TrapPools(line, plan), line[i], line[i + 1])
    {
      assert OnLine(line, plan, LinePool(line, plan, i));
      TrapPool(line, plan, LinePool(line, plan, i));
    }
    TrapPool(line, plan, DearPool(line, plan));
    TrapPool(line, plan, TollPool(line, plan));
  }

  lemma GraphExists(pools: seq<PoolInfo>) returns (graph: Graph)
    ensures GraphOf(pools, graph)
  {
    hide WaysOut, SortByWeight;
    graph := map t | t in PoolTokens(pools) :: WaysOut(pools, t);
    forall t, e
      ensures InGraph(graph, t, e) <==> Offered(pools, t, e)
    {
      WaysAreOffered(pools, t, e);
      if p :| p in pools && Leads(p, t, e) {
        assert t in PoolTokens(pools);
      }
    }
  }

  /** The pools make a trap, and one that is overpriced if the toll is too high. */
  lemma TrapPoolsTrap(line: Path, maxHops: nat, plan: Plan)
    requires maxHops >= 2 && |line| == maxHops + 2 && Distinct(line) && Cheap(plan)
    ensures var pools := TrapPools(line, plan);
            && TrapsSearch(pools, line[0], line[|line| - 1], maxHops, Toll(plan))
            && (plan.tolls > 0 && plan.toll > plan.dear + (maxHops - 1) * plan.cheap ==>
                  MisleadsSearch(pools, line[0], line[|line| - 1], maxHops))
  {
    hide TrapPools, GraphOf, Dijkstra.OnTrap;
    var pools, t := TrapPools(line, plan), TrapOf(line, plan);
    var graph := GraphExists(pools);
    forall k, e | 0 <= k < |line| && e in EdgesOf(graph, line[k])
      ensures Dijkstra.OnTrap(t, k, e)
    {
      TrapEdges(graph, pools, line, plan, k, e);
    }
    TrapJoins(line, plan);
    forall a, b
      ensures HasEdge(graph, a, b) <==> Joined(pools, a, b)
    {
      EdgesArePools(pools, graph, a, b);
    }
    assert Dijkstra.IsTrap(graph, maxHops, t) && Dijkstra.Between(t, line[0], line[|line| - 1]);
    if plan.tolls > 0 && plan.toll > plan.dear + (maxHops - 1) * plan.cheap {
      assert Dijkstra.Overpriced(graph, maxHops, t);
    }
  }

  lemma TrapEdges(graph: Graph, pools: seq<PoolInfo>, line: Path, plan: Plan, k: nat, e: Edge)
    requires |line| > 3 && Distinct(line) && k < |line| && Cheap(plan) && pools == TrapPools(line, plan)
    requires GraphOf(pools, graph) && e in EdgesOf(graph, line[k])
    ensures Dijkstra.OnTrap(TrapOf(line, plan), k, e)
  {
    assert InGraph(graph, line[k], e);
    var p :| p in pools && Leads(p, line[k], e);
    TrapEdge(line, plan, k, e, p);
  }

  /** Past the dear pool the line's end is within the bound. */
  lemma TrapHasRoute(line: Path, maxHops: nat, plan: Plan)
    requires maxHops >= 2 && |line| == maxHops + 2 && Distinct(line) && Cheap(plan)
    ensures PoolRoute(TrapPools(line, plan), line[0], line[|line| - 1], maxHops, [line[0]] + line[2..])
    ensures HasPoolRoute(TrapPools(line, plan), line[0], line[|line| - 1], maxHops)
  {
    hide TrapPools, Joined;
    var pools := TrapPools(line, plan);
    var route := [line[0]] + line[2..];
    TrapJoins(line, plan);
    forall i | 0 <= i < |route| - 1
      ensures Joined(pools, route[i], route[i + 1])
    {
      assert i > 0 ==> route[i] == line[i + 1] && route[i + 1] == line[i + 1 + 1];
    }
    assert PoolRoute(pools, line[0], line[|line| - 1], maxHops, route);
  }

  lemma TrapTokens(line: Path, plan: Plan, tokens: set<Token>)
    requires |line| > 3 && Cheap(plan) && forall t | t in line :: t in tokens
    ensures PoolTokens(TrapPools(line, plan)) <= tokens
  {
    hide TrapPools;
    forall p | p in TrapPools(line, plan)
      ensures p.tokenA in tokens && p.tokenB in tokens
    {
      TrapPool(line, plan, p);
    }
  }

  /** Any two of enough tokens are the ends of a line of `n` of them. */
  lemma {:induction false} LineBetween(tokens: set<Token>, from: Token, to: Token, n: nat) returns (line: Path)
    requires from in tokens && to in tokens && from != to && 2 <= n <= |tokens|
    ensures |line| == n && Distinct(line) && line[0] == from && line[n - 1] == to && forall t | t in line :: t in tokens
    decreases n
  {
    if n == 2 {
      line := [from, to];
    } else {
      var rest := tokens - {from};
      assert |rest - {to}| == |tokens| - 2;
      var next :| next in rest - {to};
      var tail := LineBetween(rest, next, to, n - 1);
      line := [from] + tail;
    }
  }

  // ----- when the bound is safe -----

  /** Pools among `tokens` on which a search from `tokenIn` to `tokenOut` fails
      although a route is within the bound. */
  ghost predicate FailsOn(tokens: set<Token>, tokenIn: Token, tokenOut: Token, maxHops: nat, pools: seq<PoolInfo>) {
    && PoolTokens(pools) <= tokens
    && HasPoolRoute(pools, tokenIn, tokenOut, maxHops) && TrapsSearch(pools, tokenIn, tokenOut, maxHops, None)
  }

  /** Pools among `tokens` on which it finds a route that is not the cheapest. */
  ghost predicate OverpaysOn(tokens: set<Token>, tokenIn: Token, tokenOut: Token, maxHops: nat, pools: seq<PoolInfo>) {
    PoolTokens(pools) <= tokens && MisleadsSearch(pools, tokenIn, tokenOut, maxHops)
  }

  ghost predicate SafeOver(tokens: set<Token>, tokenIn: Token, tokenOut: Token, maxHops: nat) {
    forall pools | PoolTokens(pools) <= tokens :: BoundIsSafe(pools, tokenIn, tokenOut, maxHops)
  }

  lemma AmpleIsSafe(tokens: set<Token>, tokenIn: Token, tokenOut: Token, maxHops: nat, pools: seq<PoolInfo>)
    requires tokenIn in tokens && tokenOut in tokens && PoolTokens(pools) <= tokens
    requires maxHops <= 1 || |tokens| <= maxHops + 1
    ensures BoundIsSafe(pools, tokenIn, tokenOut, maxHops)
  {
    SubsetSmaller({tokenIn} + PoolTokens(pools) - {tokenOut}, tokens - {tokenOut});
  }

  /** A trap takes two hops and one token more than fit within the bound. */
  lemma TrapNeedsTokens(pools: seq<PoolInfo>, graph: Graph, maxHops: nat, t: Dijkstra.Trap)
    requires GraphOf(pools, graph) && Dijkstra.IsTrap(graph, maxHops, t)
    ensures maxHops >= 2 && |PoolTokens(pools)| >= maxHops + 2
  {
    var line, tokens := t.line, PoolTokens(pools);
    forall i | 0 <= i < |line|
      ensures line[i] in tokens
    {
      var k := if i == 0 then 0 else i - 1;
      assert HasEdge(graph, line[k], line[k + 1]);
      EdgesArePools(pools, graph, line[k], line[k + 1]);
    }
    DistinctFits(line, tokens);
  }

  lemma TrapIsUnsafe(tokens: set<Token>, tokenIn: Token, tokenOut: Token, maxHops: nat, pools: seq<PoolInfo>)
    requires FailsOn(tokens, tokenIn, tokenOut, maxHops, pools) || OverpaysOn(tokens, tokenIn, tokenOut, maxHops, pools)
    ensures maxHops >= 2 && |tokens| >= maxHops + 2
  {
    var graph, t :| GraphOf(pools, graph) && Dijkstra.IsTrap(graph, maxHops, t);
    TrapNeedsTokens(pools, graph, maxHops, t);
    SubsetSmaller(PoolTokens(pools), tokens);
  }

  /** Over given tokens no pools make the search miss a route, and none make it
      find one that is not the cheapest within the bound, if and only if the bound
      is at most one, or as large as the number of other tokens. */
  lemma SafeOverIff(tokens: set<Token>, tokenIn: Token, tokenOut: Token, maxHops: nat)
    requires tokenIn in tokens && tokenOut in tokens && tokenIn != tokenOut
    ensures SafeOver(tokens, tokenIn, tokenOut, maxHops) <==> maxHops <= 1 || |tokens| <= maxHops + 1
    ensures SafeOver(tokens, tokenIn, tokenOut, maxHops) <==> !exists pools :: FailsOn(tokens, tokenIn, tokenOut, maxHops, pools)
    ensures SafeOver(tokens, tokenIn, tokenOut, maxHops) <==> !exists pools :: OverpaysOn(tokens, tokenIn, tokenOut, maxHops, pools)
  {
    hide FailsOn, OverpaysOn, BoundIsSafe, PoolTokens;
    if maxHops <= 1 || |tokens| <= maxHops + 1 {
      forall pools | PoolTokens(pools) <= tokens
        ensures BoundIsSafe(pools, tokenIn, tokenOut, maxHops)
      {
        AmpleIsSafe(tokens, tokenIn, tokenOut, maxHops, pools);
      }
      if pools :| FailsOn(tokens, tokenIn, tokenOut, maxHops, pools) || OverpaysOn(tokens, tokenIn, tokenOut, maxHops, pools) {
        TrapIsUnsafe(tokens, tokenIn, tokenOut, maxHops, pools);
      }
    } else {
      var line := LineBetween(tokens, tokenIn, tokenOut, maxHops + 2);
      TrapFails(tokens, line, maxHops);
    }
  }

  lemma TrapFails(tokens: set<Token>, line: Path, maxHops: nat)
    requires maxHops >= 2 && |line| == maxHops + 2 && Distinct(line) && forall t | t in line :: t in tokens
    ensures FailsOn(tokens, line[0], line[|line| - 1], maxHops, TrapPools(line, UNTOLLED))
    ensures OverpaysOn(tokens, line[0], line[|line| - 1], maxHops, TrapPools(line, OVERPRICED))
    ensures !SafeOver(tokens, line[0], line[|line| - 1], maxHops)
  {
    hide Dijkstra.IsTrap, GraphOf, HasPoolRoute, TrapPools, PoolRoute, PoolTokens, BoundIsSafe;
    TrapTokens(line, UNTOLLED, tokens);
    TrapTokens(line, OVERPRICED, tokens);
    TrapPoolsTrap(line, maxHops, UNTOLLED);
    TrapPoolsTrap(line, maxHops, OVERPRICED);
    TrapHasRoute(line, maxHops, UNTOLLED);
    var pools := TrapPools(line, UNTOLLED);
    var graph, t :| GraphOf(pools, graph) && Dijkstra.IsTrap(graph, maxHops, t);
    TrapNeedsTokens(pools, graph, maxHops, t);
    TrapLeavesNoRoom(pools, line, maxHops);
  }

  lemma TrapLeavesNoRoom(pools: seq<PoolInfo>, line: Path, maxHops: nat)
    requires maxHops >= 2 && |line| == maxHops + 2 && Distinct(line) && |PoolTokens(pools)| >= maxHops + 2
    ensures !BoundIsSafe(pools, line[0], line[|line| - 1], maxHops)
  {
    var tokens, end := PoolTokens(pools), line[|line| - 1];
    SubsetSmaller(tokens - {end}, {line[0]} + tokens - {end});
    assert |tokens - {end}| >= |tokens| - 1;
  }

  // ----- parallel pools that hide every other route -----

  /** Pools among `tokens` whose direct pools use up all limits: only the direct path
      is listed, though there is another. */
  ghost predicate HidesOn(tokens: set<Token>, tokenIn: Token, tokenOut: Token, maxHops: nat, pools: seq<PoolInfo>) {
    && PoolTokens(pools) <= tokens && Crowded(pools, tokenIn, tokenOut, maxHops)
    && exists path :: PoolRoute(pools, tokenIn, tokenOut, maxHops, path) && path != [tokenIn, tokenOut]
  }

  lemma {:induction false} OfWeightConcat(a: seq<Edge>, b: seq<Edge>, w: nat)
    ensures OfWeight(a + b, w) == OfWeight(a, w) + OfWeight(b, w)
  {
    if a == [] {
      assert a + b == b;
    } else {
      assert a + b == [a[0]] + (a[1..] + b);
      OfWeightCons(a[0], a[1..] + b, w);
      OfWeightConcat(a[1..], b, w);
    }
  }

  lemma {:induction false} OfWeightHolds(edges: seq<Edge>, w: nat)
    ensures forall e | e in OfWeight(edges, w) :: e in edges && e.weight == w
  {
    if edges != [] {
      OfWeightHolds(edges[1..], w);
    }
  }

  /** Of edges in ascending order those of no weight come first. */
  lemma {:induction false} WeightlessFirst(edges: seq<Edge>)
    requires Ascending(edges)
    ensures OfWeight(edges, 0) <= edges
  {
    if edges != [] {
      assert edges == [edges[0]] + edges[1..];
      if edges[0].weight == 0 {
        WeightlessFirst(edges[1..]);
      } else {
        OfWeightHolds(edges[1..], 0);
        assert forall e | e in edges[1..] :: e.weight > 0;
        assert OfWeight(edges[1..], 0) == [] by {
          NoneOfWeight(edges[1..], 0);
        }
      }
    }
  }

  lemma {:induction false} NoneOfWeight(edges: seq<Edge>, w: nat)
    requires forall e | e in edges :: e.weight != w
    ensures OfWeight(edges, w) == []
  {
    if edges != [] {
      NoneOfWeight(edges[1..], w);
    }
  }

  lemma {:induction false} TollsCounted(pools: seq<PoolInfo>, toll: PoolInfo, n: nat)
    requires |OfWeight(Ways(toll, toll.tokenA), 0)| >= 1
    ensures |OfWeight(WaysOut(Tolled(pools, toll, n), toll.tokenA), 0)| >= n
  {
    hide WaysOut, OfWeight, Ways;
    if n > 0 {
      var front := Tolled(pools, toll, n - 1);
      TollsCounted(pools, toll, n - 1);
      MoreWays(front, toll, toll.tokenA);
      OfWeightConcat(WaysOut(front, toll.tokenA), Ways(toll, toll.tokenA), 0);
    }
  }

  lemma MoreWays(pools: seq<PoolInfo>, pool: PoolInfo, t: Token)
    ensures WaysOut(pools + [pool], t) == WaysOut(pools, t) + Ways(pool, t)
  {
    assert (pools + [pool])[..|pools|] == pools;
  }

  lemma OneWay(toll: PoolInfo)
    requires EdgeWeight(toll) == 0
    ensures |OfWeight(Ways(toll, toll.tokenA), 0)| >= 1
  {
    assert Ways(toll, toll.tokenA)[0] == EdgeTo(toll, toll.tokenB);
  }

  /** The first five edges out of the line's first token lead to its last one. */
  lemma TollsFirst(line: Path)
    requires |line| > 3 && Distinct(line)
    ensures LeadsFive(SortByWeight(WaysOut(TrapPools(line, CROWDED), line[0])), line[|line| - 1])
  {
    hide WaysOut, SortByWeight, TrapPools, OfWeight;
    var pools := TrapPools(line, CROWDED);
    var ways := WaysOut(pools, line[0]);
    var sorted := SortByWeight(ways);
    assert |OfWeight(ways, 0)| >= 5 by {
      FiveTolls(line);
    }
    SortIsStable(ways, 0);
    SortAscends(ways);
    WeightlessFirst(sorted);
    OfWeightHolds(ways, 0);
    forall i | 0 <= i < 5
      ensures sorted[i].to == line[|line| - 1]
    {
      var e := OfWeight(ways, 0)[i];
      assert e in OfWeight(ways, 0) && sorted[i] == e;
      WeightlessIsToll(pools, line, e);
    }
  }

  lemma FiveTolls(line: Path)
    requires |line| > 3
    ensures |OfWeight(WaysOut(TrapPools(line, CROWDED), line[0]), 0)| >= 5
  {
    hide WaysOut, OfWeight, Ways;
    OneWay(TollPool(line, CROWDED));
    TollsCounted(AlongPools(line, CROWDED) + [DearPool(line, CROWDED)], TollPool(line, CROWDED), 5);
  }

  lemma WeightlessIsToll(pools: seq<PoolInfo>, line: Path, e: Edge)
    requires |line| > 3 && Distinct(line) && pools == TrapPools(line, CROWDED)
    requires e in WaysOut(pools, line[0]) && e.weight == 0
    ensures e.to == line[|line| - 1]
  {
    hide WaysOut, TrapPools;
    WaysAreOffered(pools, line[0], e);
    var p :| p in pools && Leads(p, line[0], e);
    TrapEdge(line, CROWDED, 0, e, p);
  }

  /** Between any two of enough tokens, whatever the bound above one, parallel pools
      can hide another route. */
  lemma CrowdHides(tokens: set<Token>, tokenIn: Token, tokenOut: Token, maxHops: nat)
    requires tokenIn in tokens && tokenOut in tokens && tokenIn != tokenOut && maxHops >= 2 && |tokens| >= maxHops + 2
    ensures exists pools :: HidesOn(tokens, tokenIn, tokenOut, maxHops, pools)
  {
    hide TrapPools, PoolTokens, PoolRoute, TrapsSearch, LeadsFive;
    var line := LineBetween(tokens, tokenIn, tokenOut, maxHops + 2);
    TollsFirst(line);
    TrapPoolsTrap(line, maxHops, CROWDED);
    TrapHasRoute(line, maxHops, CROWDED);
    TrapTokens(line, CROWDED, tokens);
    assert |[line[0]] + line[2..]| > 2;
    assert HidesOn(tokens, tokenIn, tokenOut, maxHops, TrapPools(line, CROWDED));
  }
}
