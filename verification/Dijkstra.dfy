/**
 * Least-cost search with a lazy-deletion heap and simple paths
 * (`dijkstra` of dex/smart_routing/pathfinder.rs).
 */
module Dijkstra {
  import opened Common
  import opened PoolGraph

  /** A heap entry; of entries with equal cost any may be popped first. */
  datatype Candidate = Candidate(token: Token, cost: nat, path: Path)

  type Distances = map<Token, nat>

  // ----- every heap entry is the end of a simple path with its cost -----

  ghost predicate CandidateOk(graph: Graph, start: Token, end: Token, maxHops: nat, dist: Distances, n: Candidate) {
    && n.path != [] && n.path[0] == start && n.path[|n.path| - 1] == n.token
    && |n.path| <= maxHops + 1
    && Distinct(n.path)
    && end !in n.path[..|n.path| - 1]
    && Costs(graph, n.path, n.cost)
    && forall x | x in n.path && x != end :: x in dist && dist[x] <= n.cost
  }

  ghost predicate HeapOk(graph: Graph, start: Token, end: Token, maxHops: nat, dist: Distances, heap: seq<Candidate>) {
    forall n | n in heap :: CandidateOk(graph, start, end, maxHops, dist, n)
  }

  // ----- the frontier -----

  /** The heap offers `t` at no more than `cost`. */
  ghost predicate Offers(heap: seq<Candidate>, t: Token, cost: nat) {
    exists n :: n in heap && n.token == t && n.cost <= cost
  }

  /** The entry takes its last step from `u`. */
  predicate Via(path: Path, u: Token) {
    |path| >= 2 && path[|path| - 2] == u
  }

  /** The heap offers the destination from `u` at no more than `cost`. */
  ghost predicate Arrives(heap: seq<Candidate>, end: Token, u: Token, cost: nat) {
    exists n :: n in heap && n.token == end && Via(n.path, u) && n.cost <= cost
  }

  /** Following `e` from `u` at distance `d` has been accounted for. */
  ghost predicate Relaxed(end: Token, dist: Distances, heap: seq<Candidate>, u: Token, d: nat, e: Edge) {
    if e.to == end then Arrives(heap, end, u, d + e.weight)
    else e.to in dist && dist[e.to] <= d + e.weight
  }

  ghost predicate AllRelaxed(end: Token, dist: Distances, heap: seq<Candidate>, u: Token, d: nat, edges: seq<Edge>) {
    forall e | e in edges :: Relaxed(end, dist, heap, u, d, e)
  }

  /** Every token with a distance, `u` aside, is expanded at that distance or
      waiting in the heap with it. */
  ghost predicate Waiting(end: Token, dist: Distances, heap: seq<Candidate>, done: set<Token>, u: set<Token>) {
    forall v | v in dist && v != end && v !in u :: v in done || Offers(heap, v, dist[v])
  }

  ghost predicate Expanded(graph: Graph, end: Token, dist: Distances, heap: seq<Candidate>, done: set<Token>) {
    forall v | v in done :: v != end && v in dist && AllRelaxed(end, dist, heap, v, dist[v], EdgesOf(graph, v))
  }

  ghost predicate Frontier(graph: Graph, start: Token, end: Token, dist: Distances, heap: seq<Candidate>, done: set<Token>) {
    && start in dist && dist[start] == 0
    && (start == end ==> Offers(heap, end, 0))
    && Waiting(end, dist, heap, done, {})
    && Expanded(graph, end, dist, heap, done)
  }

  /** Along any walk from the start that keeps off the destination, either the heap
      still holds an entry no dearer than the walk, or the walk's last token is
      expanded no dearer. */
  lemma {:induction false} FrontierCovers(graph: Graph, start: Token, end: Token, dist: Distances,
                                          heap: seq<Candidate>, done: set<Token>, q: Path, w: nat)
    requires Frontier(graph, start, end, dist, heap, done)
    requires Costs(graph, q, w) && q[0] == start && end !in q
    ensures (exists n :: n in heap && n.token != end && n.cost <= w) ||
            (q[|q| - 1] in done && q[|q| - 1] in dist && dist[q[|q| - 1]] <= w)
    decreases |q|
  {
    if |q| > 1 {
      var m := |q| - 1;
      var u, v := q[m - 1], q[m];
      var e :| e in graph[u] && e.to == v && e.weight <= w && Costs(graph, q[..m], w - e.weight);
      FrontierCovers(graph, start, end, dist, heap, done, q[..m], w - e.weight);
      assert q[..m][|q[..m]| - 1] == u;
      if u in done && u in dist && dist[u] <= w - e.weight {
        assert e in EdgesOf(graph, u);
        assert Relaxed(end, dist, heap, u, dist[u], e);
      }
    }
  }

  // ----- relaxing one edge -----

  /** Entering `x` at `cost` keeps what holds away from `u`. */
  lemma RelaxKeeps(graph: Graph, end: Token, dist: Distances, heap: seq<Candidate>, done: set<Token>, u: Token, n: Candidate)
    requires u in dist && n.token != u
    requires n.token != end ==> n.token !in dist || n.cost < dist[n.token]
    requires Waiting(end, dist, heap, done, {u}) && Expanded(graph, end, dist, heap, done)
    ensures var dist', heap', done' := dist[n.token := n.cost], heap + [n], done - {n.token};
            Waiting(end, dist', heap', done', {u}) && Expanded(graph, end, dist', heap', done')
  {
    var dist', heap', done' := dist[n.token := n.cost], heap + [n], done - {n.token};
    assert n in heap';
    forall v | v in dist' && v != end && v !in {u}
      ensures v in done' || Offers(heap', v, dist'[v])
    {
      if v == n.token {
        assert Offers(heap', v, n.cost);
      } else if v !in done {
        OffersMore(heap, n, v, dist[v]);
      }
    }
    forall v | v in done'
      ensures AllRelaxed(end, dist', heap', v, dist'[v], EdgesOf(graph, v))
    {
      RelaxedMore(end, dist, heap, v, dist[v], EdgesOf(graph, v), n);
    }
  }

  lemma OffersMore(heap: seq<Candidate>, n: Candidate, t: Token, cost: nat)
    requires Offers(heap, t, cost)
    ensures Offers(heap + [n], t, cost)
  {
    var m :| m in heap && m.token == t && m.cost <= cost;
    assert m in heap + [n];
  }

  lemma ArrivesMore(heap: seq<Candidate>, n: Candidate, end: Token, u: Token, cost: nat)
    requires Arrives(heap, end, u, cost)
    ensures Arrives(heap + [n], end, u, cost)
  {
    var m :| m in heap && m.token == end && Via(m.path, u) && m.cost <= cost;
    assert m in heap + [n];
  }

  lemma RelaxedMore(end: Token, dist: Distances, heap: seq<Candidate>, u: Token, d: nat, edges: seq<Edge>, n: Candidate)
    requires AllRelaxed(end, dist, heap, u, d, edges)
    requires n.token != end ==> n.token !in dist || n.cost < dist[n.token]
    ensures AllRelaxed(end, dist[n.token := n.cost], heap + [n], u, d, edges)
  {
    forall e | e in edges
      ensures Relaxed(end, dist[n.token := n.cost], heap + [n], u, d, e)
    {
      assert Relaxed(end, dist, heap, u, d, e);
      if e.to == end {
        ArrivesMore(heap, n, end, u, d + e.weight);
      }
    }
  }

  lemma RelaxHeapOk(graph: Graph, start: Token, end: Token, maxHops: nat, dist: Distances, heap: seq<Candidate>,
                    u: Candidate, e: Edge, n: Candidate)
    requires HeapOk(graph, start, end, maxHops, dist, heap) && CandidateOk(graph, start, end, maxHops, dist, u)
    requires u.token != end && |u.path| <= maxHops && e in EdgesOf(graph, u.token) && e.to !in u.path
    requires n == Candidate(e.to, u.cost + e.weight, u.path + [e.to])
    requires n.token != end ==> n.token !in dist || n.cost < dist[n.token]
    ensures HeapOk(graph, start, end, maxHops, dist[n.token := n.cost], heap + [n])
    ensures CandidateOk(graph, start, end, maxHops, dist[n.token := n.cost], u)
  {
    var dist' := dist[n.token := n.cost];
    forall m | m in heap
      ensures CandidateOk(graph, start, end, maxHops, dist', m)
    {
      assert CandidateOk(graph, start, end, maxHops, dist, m);
    }
    CostsSnoc(graph, u.path, u.cost, e);
    assert n.path[..|n.path| - 1] == u.path;
    assert u.path == u.path[..|u.path| - 1] + [u.token];
    assert CandidateOk(graph, start, end, maxHops, dist', n);
  }

  // ----- expanding one entry -----

  function PathsOf(heap: seq<Candidate>): (r: seq<Path>)
    ensures |r| == |heap| && forall i | 0 <= i < |heap| :: r[i] == heap[i].path
  {
    seq(|heap|, i requires 0 <= i < |heap| => heap[i].path)
  }

  /** `n` is what following `e` from `u` leads to. */
  function Following(u: Candidate, e: Edge): Candidate {
    Candidate(e.to, u.cost + e.weight, u.path + [e.to])
  }

  ghost predicate Pushed(pushed: seq<Candidate>, t: Token, cost: nat) {
    exists n :: n in pushed && n.token == t && n.cost == cost
  }

  /** What following the edges of `u` does: only entries that follow an edge off
      the path are pushed, distances only fall and only to the cost of an entry
      pushed, and every edge off the path has been taken or was not worth it. */
  ghost predicate Follows(end: Token, u: Candidate, edges: seq<Edge>, dist0: Distances, dist: Distances, pushed: seq<Candidate>) {
    && OnlyFollowing(u, edges, pushed) && OnlyFalls(end, dist0, dist) && FallsToPushed(end, dist0, dist, pushed)
    && EdgesTaken(end, u, edges, dist) && EndPushed(end, u, edges, pushed)
  }

  ghost predicate FromEdge(u: Candidate, edges: seq<Edge>, n: Candidate) {
    exists e :: e in edges && e.to !in u.path && n == Following(u, e)
  }

  ghost predicate OnlyFollowing(u: Candidate, edges: seq<Edge>, pushed: seq<Candidate>) {
    forall n | n in pushed :: FromEdge(u, edges, n)
  }

  ghost predicate OnlyFalls(end: Token, dist0: Distances, dist: Distances) {
    forall v | v in dist0 && v != end :: v in dist && dist[v] <= dist0[v]
  }

  ghost predicate FallsToPushed(end: Token, dist0: Distances, dist: Distances, pushed: seq<Candidate>) {
    forall v | v in dist && v != end :: (v in dist0 && dist[v] == dist0[v]) || Pushed(pushed, v, dist[v])
  }

  ghost predicate EdgesTaken(end: Token, u: Candidate, edges: seq<Edge>, dist: Distances) {
    forall e | e in edges && e.to !in u.path && e.to != end :: e.to in dist && dist[e.to] <= u.cost + e.weight
  }

  ghost predicate EndPushed(end: Token, u: Candidate, edges: seq<Edge>, pushed: seq<Candidate>) {
    forall e | e in edges && e.to !in u.path && e.to == end :: Pushed(pushed, end, u.cost + e.weight)
  }

  lemma FollowsNothing(end: Token, u: Candidate, dist: Distances)
    ensures Follows(end, u, [], dist, dist, [])
  {}

  lemma FollowingMore(u: Candidate, edges: seq<Edge>, e: Edge, pushed: seq<Candidate>)
    requires OnlyFollowing(u, edges, pushed)
    ensures OnlyFollowing(u, edges + [e], pushed)
    ensures e.to !in u.path ==> OnlyFollowing(u, edges + [e], pushed + [Following(u, e)])
  {
    forall n | n in pushed
      ensures FromEdge(u, edges + [e], n)
    {
      assert FromEdge(u, edges, n);
      var x :| x in edges && x.to !in u.path && n == Following(u, x);
      assert x in edges + [e];
    }
    assert e in edges + [e];
  }

  /** An edge back onto the path, or one not worth it, pushes nothing. */
  lemma FollowsSkip(end: Token, u: Candidate, edges: seq<Edge>, e: Edge, dist0: Distances, dist: Distances, pushed: seq<Candidate>)
    requires Follows(end, u, edges, dist0, dist, pushed)
    requires e.to in u.path || (e.to != end && e.to in dist && dist[e.to] <= u.cost + e.weight)
    ensures Follows(end, u, edges + [e], dist0, dist, pushed)
  {
    hide OnlyFollowing, OnlyFalls, FallsToPushed;
    FollowingMore(u, edges, e, pushed);
  }

  lemma PushedMore(pushed: seq<Candidate>, n: Candidate, v: Token, cost: nat)
    requires Pushed(pushed, v, cost)
    ensures Pushed(pushed + [n], v, cost)
  {
    var m :| m in pushed && m.token == v && m.cost == cost;
    assert m in pushed + [n];
  }

  lemma PushFalls(end: Token, u: Candidate, e: Edge, dist0: Distances, dist: Distances, pushed: seq<Candidate>)
    requires OnlyFalls(end, dist0, dist) && FallsToPushed(end, dist0, dist, pushed)
    requires e.to in dist && e.to != end ==> u.cost + e.weight < dist[e.to]
    ensures var later := dist[e.to := u.cost + e.weight];
            OnlyFalls(end, dist0, later) && FallsToPushed(end, dist0, later, pushed + [Following(u, e)])
  {
    var more, later := pushed + [Following(u, e)], dist[e.to := u.cost + e.weight];
    assert Following(u, e) in more;
    forall v | v in later && v != end
      ensures (v in dist0 && later[v] == dist0[v]) || Pushed(more, v, later[v])
    {
      if v != e.to && Pushed(pushed, v, dist[v]) {
        PushedMore(pushed, Following(u, e), v, dist[v]);
      }
    }
  }

  lemma PushEdges(end: Token, u: Candidate, edges: seq<Edge>, e: Edge, dist: Distances, pushed: seq<Candidate>)
    requires EdgesTaken(end, u, edges, dist) && EndPushed(end, u, edges, pushed)
    requires e.to in dist && e.to != end ==> u.cost + e.weight < dist[e.to]
    ensures EdgesTaken(end, u, edges + [e], dist[e.to := u.cost + e.weight])
    ensures EndPushed(end, u, edges + [e], pushed + [Following(u, e)])
  {
    var more := pushed + [Following(u, e)];
    assert Following(u, e) in more;
    forall x | x in edges && x.to !in u.path && x.to == end
      ensures Pushed(more, end, u.cost + x.weight)
    {
      PushedMore(pushed, Following(u, e), end, u.cost + x.weight);
    }
  }

  lemma FollowsPush(end: Token, u: Candidate, edges: seq<Edge>, e: Edge, dist0: Distances, dist: Distances, pushed: seq<Candidate>)
    requires Follows(end, u, edges, dist0, dist, pushed) && e.to !in u.path
    requires e.to in dist && e.to != end ==> u.cost + e.weight < dist[e.to]
    ensures Follows(end, u, edges + [e], dist0, dist[e.to := u.cost + e.weight], pushed + [Following(u, e)])
  {
    hide OnlyFollowing, OnlyFalls, FallsToPushed, EdgesTaken, EndPushed;
    FollowingMore(u, edges, e, pushed);
    PushFalls(end, u, e, dist0, dist, pushed);
    PushEdges(end, u, edges, e, dist, pushed);
  }

  /** Follows every edge out of `u` to a token not on its path; skips a token
      already reached as cheaply, unless it is the destination. */
  method Expand(graph: Graph, start: Token, end: Token, maxHops: nat, u: Candidate, dist0: Distances,
                heap0: seq<Candidate>, ghost arrived: seq<Candidate>, ghost done0: set<Token>)
    returns (dist: Distances, heap: seq<Candidate>, ghost done: set<Token>)
    requires HeapOk(graph, start, end, maxHops, dist0, heap0) && CandidateOk(graph, start, end, maxHops, dist0, u)
    requires u.token != end && |u.path| <= maxHops && dist0[u.token] == u.cost
    requires start in dist0 && dist0[start] == 0
    ensures HeapOk(graph, start, end, maxHops, dist, heap)
    ensures start in dist && dist[start] == 0
    ensures heap0 <= heap && |heap| <= |heap0| + |EdgesOf(graph, u.token)|
    ensures forall n | n in heap[|heap0|..] :: |n.path| == |u.path| + 1
    ensures Follows(end, u, EdgesOf(graph, u.token), dist0, dist, heap[|heap0|..])
    ensures Waiting(end, dist0, arrived + heap0, done0, {u.token}) && Expanded(graph, end, dist0, arrived + heap0, done0) ==>
              Waiting(end, dist, arrived + heap, done, {}) && Expanded(graph, end, dist, arrived + heap, done)
  {
    hide *;
    dist, heap, done := dist0, heap0, done0 - {u.token};
    ghost var all, pushed: seq<Candidate> := arrived + heap, [];
    ghost var tracked := Waiting(end, dist0, all, done0, {u.token}) && Expanded(graph, end, dist0, all, done0);
    var edges := EdgesOf(graph, u.token);
    FollowsNothing(end, u, dist0);
    ExpandingStarts(graph, end, dist0, all, done0, u);
    CandidateFacts(graph, start, end, maxHops, dist, u);
    assert edges[..0] == [];
    for k := 0 to |edges|
      invariant HeapOk(graph, start, end, maxHops, dist, heap) && CandidateOk(graph, start, end, maxHops, dist, u)
      invariant u.token in dist && dist[u.token] == u.cost && start in dist && dist[start] == 0
      invariant heap == heap0 + pushed && |pushed| <= k && all == arrived + heap
      invariant Follows(end, u, edges[..k], dist0, dist, pushed)
      invariant tracked ==> Expanding(graph, end, dist, all, done, u, edges[..k])
    {
      var edge := edges[k];
      var nextCost := u.cost + edge.weight;
      assert edges[..k + 1] == edges[..k] + [edge];
      CandidateFacts(graph, start, end, maxHops, dist, u);
      if edge.to !in u.path {
        if edge.to in dist && nextCost >= dist[edge.to] && edge.to != end {
          FollowsSkip(end, u, edges[..k], edge, dist0, dist, pushed);
          ExpandingSkip(graph, end, dist, all, done, u, edges[..k], edge);
        } else {
          FollowsPush(end, u, edges[..k], edge, dist0, dist, pushed);
          var n := Candidate(edge.to, nextCost, u.path + [edge.to]);
          FollowingIs(u, edge);
          RelaxHeapOk(graph, start, end, maxHops, dist, heap, u, edge, n);
          if tracked {
            ExpandingPush(graph, end, dist, all, done, u, edges[..k], edge);
          }
          done := done - {edge.to};
          dist := dist[edge.to := nextCost];
          assert all + [n] == arrived + (heap + [n]);
          heap, all, pushed := heap + [n], all + [n], pushed + [n];
        }
      } else {
        FollowsSkip(end, u, edges[..k], edge, dist0, dist, pushed);
        ExpandingSkip(graph, end, dist, all, done, u, edges[..k], edge);
      }
    }
    assert edges[..|edges|] == edges && heap[|heap0|..] == pushed;
    FollowsLengths(end, u, edges, dist0, dist, pushed);
    if tracked {
      ExpandingEnds(graph, end, dist, all, done, u);
    }
    done := done + {u.token};
  }

  lemma FollowsLengths(end: Token, u: Candidate, edges: seq<Edge>, dist0: Distances, dist: Distances, pushed: seq<Candidate>)
    requires Follows(end, u, edges, dist0, dist, pushed)
    ensures forall n | n in pushed :: |n.path| == |u.path| + 1
  {
    hide OnlyFalls, FallsToPushed, EdgesTaken, EndPushed;
    forall n | n in pushed
      ensures |n.path| == |u.path| + 1
    {
      assert FromEdge(u, edges, n);
    }
  }

  lemma FollowingIs(u: Candidate, e: Edge)
    ensures Following(u, e) == Candidate(e.to, u.cost + e.weight, u.path + [e.to])
  {}

  /** Between the edges of `u`: everything else is as before, and the edges so far
      have been accounted for. */
  ghost predicate Expanding(graph: Graph, end: Token, dist: Distances, heap: seq<Candidate>, done: set<Token>, u: Candidate,
                            edges: seq<Edge>) {
    && Waiting(end, dist, heap, done, {u.token}) && Expanded(graph, end, dist, heap, done)
    && AllRelaxed(end, dist, heap, u.token, u.cost, edges)
  }

  lemma ExpandingStarts(graph: Graph, end: Token, dist: Distances, heap: seq<Candidate>, done: set<Token>, u: Candidate)
    ensures Waiting(end, dist, heap, done, {u.token}) && Expanded(graph, end, dist, heap, done) ==>
              Expanding(graph, end, dist, heap, done - {u.token}, u, [])
  {
  }

  lemma ExpandingEnds(graph: Graph, end: Token, dist: Distances, heap: seq<Candidate>, done: set<Token>, u: Candidate)
    requires Expanding(graph, end, dist, heap, done, u, EdgesOf(graph, u.token))
    requires u.token in dist && u.token != end && dist[u.token] == u.cost
    ensures Waiting(end, dist, heap, done + {u.token}, {}) && Expanded(graph, end, dist, heap, done + {u.token})
  {
  }

  lemma ExpandingSkip(graph: Graph, end: Token, dist: Distances, heap: seq<Candidate>, done: set<Token>, u: Candidate,
                      edges: seq<Edge>, e: Edge)
    requires e.to != end && e.to in dist && dist[e.to] <= u.cost + e.weight
    ensures Expanding(graph, end, dist, heap, done, u, edges) ==> Expanding(graph, end, dist, heap, done, u, edges + [e])
  {
    hide Waiting, Expanded;
  }

  lemma ExpandingPush(graph: Graph, end: Token, dist: Distances, heap: seq<Candidate>, done: set<Token>, u: Candidate,
                      edges: seq<Edge>, e: Edge)
    requires Expanding(graph, end, dist, heap, done, u, edges)
    requires u.path != [] && u.path[|u.path| - 1] == u.token && u.token in dist && e.to != u.token
    requires e.to in dist && e.to != end ==> u.cost + e.weight < dist[e.to]
    ensures Expanding(graph, end, dist[e.to := u.cost + e.weight], heap + [Following(u, e)], done - {e.to}, u, edges + [e])
  {
    hide Waiting, Expanded;
    var n := Following(u, e);
    RelaxKeeps(graph, end, dist, heap, done, u.token, n);
    RelaxedMore(end, dist, heap, u.token, u.cost, edges, n);
    assert n in heap + [n] && Via(n.path, u.token);
  }

  lemma CandidateFacts(graph: Graph, start: Token, end: Token, maxHops: nat, dist: Distances, n: Candidate)
    requires CandidateOk(graph, start, end, maxHops, dist, n)
    ensures start in n.path && n.token in n.path && n.path[|n.path| - 1] == n.token
    ensures n.token != end ==> end !in n.path
    ensures forall x | x in n.path && x != end :: x in dist && dist[x] <= n.cost
  {
    assert n.path == n.path[..|n.path| - 1] + [n.token];
  }

  // ----- the search -----

  /** `path` costs no more than any walk between the two tokens. */
  ghost predicate LeastCost(graph: Graph, start: Token, end: Token, path: Path) {
    exists c :: Costs(graph, path, c) && NoCheaper(graph, start, end, c)
  }

  ghost predicate NoCheaper(graph: Graph, start: Token, end: Token, c: nat) {
    forall q, w | Costs(graph, q, w) && q[0] == start && q[|q| - 1] == end :: c <= w
  }

  /** `q` ends where it first meets the destination. */
  ghost predicate Reaches(q: Path, start: Token, end: Token) {
    q != [] && q[0] == start && q[|q| - 1] == end && end !in q[..|q| - 1]
  }

  /** No walk that keeps off `end` leads to where `path` does at less. */
  ghost predicate LeastAvoiding(graph: Graph, start: Token, end: Token, path: Path) {
    exists c :: Costs(graph, path, c) && NoCheaperAvoiding(graph, start, end, path[|path| - 1], c)
  }

  ghost predicate NoCheaperAvoiding(graph: Graph, start: Token, end: Token, to: Token, c: nat) {
    forall q, w | Costs(graph, q, w) && q[0] == start && q[|q| - 1] == to && end !in q :: c <= w
  }

  ghost predicate LeastBefore(graph: Graph, start: Token, end: Token, path: Path) {
    |path| >= 2 ==> LeastAvoiding(graph, start, end, path[..|path| - 1])
  }

  /** With the same token before the destination. */
  predicate SameApproach(path: Path, q: Path) {
    |q| >= 2 ==> Via(path, q[|q| - 2])
  }

  /** The list holds a path at no more than `w` with the same token before the
      destination, or three paths at no more than `w`. */
  ghost predicate Matched(paths: seq<Path>, costs: seq<nat>, q: Path, w: nat)
    requires |costs| == |paths|
  {
    || (exists i :: 0 <= i < |paths| && SameApproach(paths[i], q) && costs[i] <= w)
    || (|paths| == 3 && forall i | 0 <= i < 3 :: costs[i] <= w)
  }

  ghost predicate ArrivalsAt(graph: Graph, start: Token, end: Token, paths: seq<Path>, costs: seq<nat>) {
    && |costs| == |paths|
    && (forall i | 0 <= i < |paths| :: Costs(graph, paths[i], costs[i]) && LeastBefore(graph, start, end, paths[i]))
    && (forall i, j | 0 <= i < j < |costs| :: costs[i] <= costs[j])
    && (forall q, w | Costs(graph, q, w) && Reaches(q, start, end) :: Matched(paths, costs, q, w))
  }

  /** The paths are the cheapest ways to arrive, cheapest first: each is a cheapest way
      to the token before the destination and one step more, and three are listed
      unless there is one from every token that a walk can arrive from. */
  ghost predicate CheapestArrivals(graph: Graph, start: Token, end: Token, paths: seq<Path>) {
    exists costs :: ArrivalsAt(graph, start, end, paths, costs)
  }

  ghost predicate Reachable(graph: Graph, start: Token, end: Token) {
    exists q, w :: Costs(graph, q, w) && q[0] == start && q[|q| - 1] == end
  }

  /** The hop bound leaves room for a path through every token but the destination. */
  ghost predicate Roomy(graph: Graph, start: Token, end: Token, maxHops: nat) {
    |Tokens(graph, start) - {end}| <= maxHops
  }

  lemma {:induction false} MinExists(heap: seq<Candidate>) returns (k: nat)
    requires heap != []
    ensures k < |heap| && forall j | 0 <= j < |heap| :: heap[k].cost <= heap[j].cost
  {
    k := 0;
    if |heap| > 1 {
      var k' := MinExists(heap[1..]);
      k := if heap[0].cost <= heap[1..][k'].cost then 0 else k' + 1;
      forall j | 0 <= j < |heap|
        ensures heap[k].cost <= heap[j].cost
      {
        assert j > 0 ==> heap[j] == heap[1..][j - 1];
      }
    }
  }

  /** Pops an entry of least cost. */
  method PopMin(heap: seq<Candidate>) returns (n: Candidate, rest: seq<Candidate>, ghost k: nat)
    requires heap != []
    ensures k < |heap| && n == heap[k] && rest == heap[..k] + heap[k + 1..]
    ensures forall m | m in heap :: n.cost <= m.cost
    ensures forall m | m in heap :: m == n || m in rest
    ensures forall m | m in rest :: m in heap
  {
    ghost var witness' := MinExists(heap);
    var i :| 0 <= i < |heap| && forall j | 0 <= j < |heap| :: heap[i].cost <= heap[j].cost;
    n, rest, k := heap[i], heap[..i] + heap[i + 1..], i;
  }

  lemma PopPending(heap: seq<Candidate>, k: nat, b: nat, height: nat)
    requires k < |heap|
    ensures Pending(PathsOf(heap), b, height) ==
            Pending(PathsOf(heap[..k] + heap[k + 1..]), b, height) + Pending([heap[k].path], b, height)
  {
    var p, q := PathsOf(heap[..k]), PathsOf(heap[k + 1..]);
    assert PathsOf(heap) == p + ([heap[k].path] + q);
    assert PathsOf(heap[..k] + heap[k + 1..]) == p + q;
    PendingConcat(p, [heap[k].path] + q, b, height);
    PendingConcat([heap[k].path], q, b, height);
    PendingConcat(p, q, b, height);
  }

  lemma PushPending(heap: seq<Candidate>, heap': seq<Candidate>, path: Path, b: nat, height: nat)
    requires heap <= heap' && |heap'| - |heap| < b && |path| < height
    requires forall n | n in heap'[|heap|..] :: |n.path| == |path| + 1
    ensures Pending(PathsOf(heap'), b, height) < Pending(PathsOf(heap), b, height) + Pending([path], b, height)
  {
    SinglePending(path, b, height);
    hide Pending, Pow, PathsOf;
    var pushed := PathsOf(heap'[|heap|..]);
    PathsOfSplit(heap, heap');
    forall x | x in pushed
      ensures |x| == |path| + 1
    {
      var n :| n in heap'[|heap|..] && n.path == x;
    }
    PendingConcat(PathsOf(heap), pushed, b, height);
    PendingExtensions(path, pushed, b, height);
  }

  lemma SinglePending(path: Path, b: nat, height: nat)
    requires |path| <= height
    ensures Pending([path], b, height) == Pow(b, height - |path|)
  {
    assert [path][1..] == [];
  }

  lemma PathsOfSplit(heap: seq<Candidate>, heap': seq<Candidate>)
    requires heap <= heap'
    ensures PathsOf(heap') == PathsOf(heap) + PathsOf(heap'[|heap|..])
    ensures forall x | x in PathsOf(heap'[|heap|..]) :: exists n :: n in heap'[|heap|..] && n.path == x
  {
    var pushed := heap'[|heap|..];
    forall x | x in PathsOf(pushed)
      ensures exists n :: n in pushed && n.path == x
    {
      var i :| 0 <= i < |pushed| && PathsOf(pushed)[i] == x;
      assert pushed[i] in pushed;
    }
  }

  lemma PoppedFits(graph: Graph, start: Token, end: Token, maxHops: nat, dist: Distances, n: Candidate)
    requires CandidateOk(graph, start, end, maxHops, dist, n) && n.token != end
    ensures |n.path| <= |Tokens(graph, start)|
    ensures Roomy(graph, start, end, maxHops) ==> |n.path| <= maxHops
  {
    CostsIsWalk(graph, n.path, n.cost);
    WalkTokens(graph, start, n.path);
    DistinctFits(n.path, Tokens(graph, start));
    CandidateFacts(graph, start, end, maxHops, dist, n);
    DistinctFits(n.path, Tokens(graph, start) - {end});
  }

  lemma PoppedIsRoute(graph: Graph, start: Token, end: Token, maxHops: nat, dist: Distances, n: Candidate)
    requires CandidateOk(graph, start, end, maxHops, dist, n) && n.token == end
    ensures IsRoute(graph, start, end, maxHops, n.path)
  {
    CostsIsWalk(graph, n.path, n.cost);
  }

  // ----- arrivals -----

  /** A walk that meets the destination has met it first at no more than its cost. */
  lemma {:induction false} FirstMeeting(graph: Graph, q: Path, w: nat, end: Token) returns (k: nat, c: nat)
    requires Costs(graph, q, w) && end in q
    ensures k < |q| && Reaches(q[..k + 1], q[0], end) && Costs(graph, q[..k + 1], c) && c <= w
    decreases |q|
  {
    var m := |q| - 1;
    if m > 0 && end in q[..m] {
      var e :| e in graph[q[m - 1]] && e.weight <= w && Costs(graph, q[..m], w - e.weight);
      k, c := FirstMeeting(graph, q[..m], w - e.weight, end);
      assert q[..m][..k + 1] == q[..k + 1];
    } else {
      assert q[..m + 1] == q && q == q[..m] + [q[m]];
      k, c := m, w;
    }
  }

  ghost predicate AllArrived(end: Token, arrived: seq<Candidate>) {
    forall n | n in arrived :: n.token == end
  }

  /** Everything at the destination came a cheapest way to the token before. */
  ghost predicate ArrivalsLeast(graph: Graph, start: Token, end: Token, heap: seq<Candidate>) {
    forall n | n in heap && n.token == end :: LeastBefore(graph, start, end, n.path)
  }

  /** What has arrived costs no more than what is still in the heap. */
  ghost predicate Ordered(arrived: seq<Candidate>, heap: seq<Candidate>) {
    && (forall i, j | 0 <= i < j < |arrived| :: arrived[i].cost <= arrived[j].cost)
    && (forall n, m | n in arrived && m in heap :: n.cost <= m.cost)
  }

  ghost predicate Tracked(graph: Graph, start: Token, end: Token, dist: Distances, arrived: seq<Candidate>,
                          heap: seq<Candidate>, done: set<Token>) {
    && Frontier(graph, start, end, dist, arrived + heap, done)
    && ArrivalsLeast(graph, start, end, arrived + heap) && AllArrived(end, arrived)
  }

  ghost predicate HasCheap(heap: seq<Candidate>, w: nat) {
    exists n :: n in heap && n.cost <= w
  }

  ghost predicate HasArrived(arrived: seq<Candidate>, q: Path, w: nat) {
    exists n :: n in arrived && SameApproach(n.path, q) && n.cost <= w
  }

  /** A walk to the destination is matched by an arrival, or by an entry to come. */
  lemma WalkMatched(graph: Graph, start: Token, end: Token, dist: Distances, arrived: seq<Candidate>,
                    heap: seq<Candidate>, done: set<Token>, q: Path, w: nat)
    requires Tracked(graph, start, end, dist, arrived, heap, done)
    requires Costs(graph, q, w) && Reaches(q, start, end)
    ensures HasCheap(heap, w) || HasArrived(arrived, q, w)
  {
    hide Waiting;
    var all := arrived + heap;
    if |q| == 1 {
      var n :| n in all && n.token == end && n.cost <= 0;
    } else {
      var m := |q| - 1;
      var e :| e in graph[q[m - 1]] && e.to == end && e.weight <= w && Costs(graph, q[..m], w - e.weight);
      FrontierCovers(graph, start, end, dist, all, done, q[..m], w - e.weight);
      if n :| n in all && n.token != end && n.cost <= w - e.weight {
        assert n in heap;
      } else {
        assert e in EdgesOf(graph, q[m - 1]) && Relaxed(end, dist, all, q[m - 1], dist[q[m - 1]], e);
        var n :| n in all && n.token == end && Via(n.path, q[m - 1]) && n.cost <= dist[q[m - 1]] + e.weight;
        assert n in arrived || n in heap;
      }
    }
  }

  /** What is popped and not stale is a cheapest way to its token. */
  lemma PoppedIsLeast(graph: Graph, start: Token, end: Token, maxHops: nat, dist: Distances, arrived: seq<Candidate>,
                      heap: seq<Candidate>, done: set<Token>, n: Candidate)
    requires Tracked(graph, start, end, dist, arrived, heap, done) && CandidateOk(graph, start, end, maxHops, dist, n)
    requires (forall m | m in heap :: n.cost <= m.cost) && n.token != end && n.cost <= dist[n.token]
    ensures LeastAvoiding(graph, start, end, n.path)
  {
    hide Waiting, Expanded;
    forall q, w | Costs(graph, q, w) && q[0] == start && q[|q| - 1] == n.token && end !in q
      ensures n.cost <= w
    {
      FrontierCovers(graph, start, end, dist, arrived + heap, done, q, w);
    }
    assert NoCheaperAvoiding(graph, start, end, n.token, n.cost);
  }

  lemma PushedAreLeast(graph: Graph, start: Token, end: Token, u: Candidate, edges: seq<Edge>, all: seq<Candidate>, pushed: seq<Candidate>)
    requires ArrivalsLeast(graph, start, end, all) && OnlyFollowing(u, edges, pushed)
    requires LeastAvoiding(graph, start, end, u.path)
    ensures ArrivalsLeast(graph, start, end, all + pushed)
  {
    hide LeastAvoiding;
    forall n | n in pushed
      ensures LeastBefore(graph, start, end, n.path)
    {
      assert FromEdge(u, edges, n);
      assert n.path[..|n.path| - 1] == u.path;
    }
  }

  lemma OrderedRest(arrived: seq<Candidate>, heap: seq<Candidate>, n: Candidate, rest: seq<Candidate>)
    requires Ordered(arrived, heap) && Popped(heap, n, rest)
    ensures Ordered(arrived, rest) && Ordered(arrived + [n], rest)
  {
    forall i, j | 0 <= i < j < |arrived + [n]|
      ensures (arrived + [n])[i].cost <= (arrived + [n])[j].cost
    {
      assert arrived[i] in arrived;
    }
  }

  lemma OrderedPush(arrived: seq<Candidate>, heap: seq<Candidate>, u: Candidate, edges: seq<Edge>, rest: seq<Candidate>,
                    pushed: seq<Candidate>)
    requires Ordered(arrived, rest) && OnlyFollowing(u, edges, pushed) && heap == rest + pushed
    requires forall n | n in arrived :: n.cost <= u.cost
    ensures Ordered(arrived, heap)
  {
    forall n, m | n in arrived && m in heap
      ensures n.cost <= m.cost
    {
      if m in pushed {
        assert FromEdge(u, edges, m);
      }
    }
  }

  /** The paths and costs of what has arrived. */
  ghost predicate Lists(graph: Graph, arrived: seq<Candidate>, paths: seq<Path>) {
    && |arrived| == |paths|
    && forall i | 0 <= i < |paths| :: paths[i] == arrived[i].path && Costs(graph, paths[i], arrived[i].cost)
  }

  lemma ListsMore(graph: Graph, arrived: seq<Candidate>, paths: seq<Path>, n: Candidate)
    requires Lists(graph, arrived, paths) && Costs(graph, n.path, n.cost)
    ensures Lists(graph, arrived + [n], paths + [n.path])
  {}

  lemma ArrivalsComplete(graph: Graph, start: Token, end: Token, dist: Distances, arrived: seq<Candidate>,
                         heap: seq<Candidate>, done: set<Token>, paths: seq<Path>)
    requires Tracked(graph, start, end, dist, arrived, heap, done) && Ordered(arrived, heap) && Lists(graph, arrived, paths)
    requires heap == [] || |paths| == 3
    ensures CheapestArrivals(graph, start, end, paths)
  {
    hide Frontier, LeastBefore, Reaches, Costs;
    var costs: seq<nat> := seq(|paths|, i requires 0 <= i < |paths| => arrived[i].cost);
    forall i | 0 <= i < |paths|
      ensures Costs(graph, paths[i], costs[i]) && LeastBefore(graph, start, end, paths[i])
    {
      assert arrived[i] in arrived && arrived[i] in arrived + heap;
    }
    forall q, w | Costs(graph, q, w) && Reaches(q, start, end)
      ensures Matched(paths, costs, q, w)
    {
      WalkMatched(graph, start, end, dist, arrived, heap, done, q, w);
      if HasCheap(heap, w) {
        CheapLater(arrived, heap, paths, costs, q, w);
      } else {
        CheapArrival(arrived, paths, costs, q, w);
      }
    }
    assert ArrivalsAt(graph, start, end, paths, costs);
  }

  lemma CheapLater(arrived: seq<Candidate>, heap: seq<Candidate>, paths: seq<Path>, costs: seq<nat>, q: Path, w: nat)
    requires Ordered(arrived, heap) && HasCheap(heap, w) && |arrived| == |costs| == |paths| == 3
    requires forall i | 0 <= i < 3 :: costs[i] == arrived[i].cost
    ensures Matched(paths, costs, q, w)
  {
    var n :| n in heap && n.cost <= w;
    forall i | 0 <= i < 3
      ensures costs[i] <= w
    {
      assert arrived[i] in arrived;
    }
  }

  lemma CheapArrival(arrived: seq<Candidate>, paths: seq<Path>, costs: seq<nat>, q: Path, w: nat)
    requires HasArrived(arrived, q, w) && |arrived| == |costs| == |paths|
    requires forall i | 0 <= i < |arrived| :: costs[i] == arrived[i].cost && paths[i] == arrived[i].path
    ensures Matched(paths, costs, q, w)
  {
    var n :| n in arrived && SameApproach(n.path, q) && n.cost <= w;
    var i :| 0 <= i < |arrived| && arrived[i] == n;
    assert SameApproach(paths[i], q);
  }

  /** The first of the cheapest arrivals is a cheapest walk of all. */
  lemma FirstIsLeast(graph: Graph, start: Token, end: Token, paths: seq<Path>)
    requires CheapestArrivals(graph, start, end, paths) && paths != []
    ensures LeastCost(graph, start, end, paths[0])
  {
    var costs :| ArrivalsAt(graph, start, end, paths, costs);
    forall q, w | Costs(graph, q, w) && q[0] == start && q[|q| - 1] == end
      ensures costs[0] <= w
    {
      var k, c := FirstMeeting(graph, q, w, end);
      assert Matched(paths, costs, q[..k + 1], c);
    }
    assert NoCheaper(graph, start, end, costs[0]);
  }

  lemma NoArrivals(graph: Graph, start: Token, end: Token)
    requires CheapestArrivals(graph, start, end, [])
    ensures !Reachable(graph, start, end)
  {
    var costs :| ArrivalsAt(graph, start, end, [], costs);
    if q, w :| Costs(graph, q, w) && q[0] == start && q[|q| - 1] == end {
      var k, c := FirstMeeting(graph, q, w, end);
    }
  }

  /** After popping `n` the frontier only misses `n`'s token. */
  lemma PopFrontier(graph: Graph, start: Token, end: Token, dist: Distances, arrived: seq<Candidate>, heap: seq<Candidate>,
                    done: set<Token>, n: Candidate, rest: seq<Candidate>)
    requires Tracked(graph, start, end, dist, arrived, heap, done) && n.token != end && Popped(heap, n, rest)
    ensures Waiting(end, dist, arrived + rest, done, {n.token}) && Expanded(graph, end, dist, arrived + rest, done)
    ensures start == end ==> Offers(arrived + rest, end, 0)
    ensures ArrivalsLeast(graph, start, end, arrived + rest)
    ensures n.token in dist && n.cost > dist[n.token] ==> Tracked(graph, start, end, dist, arrived, rest, done)
  {
    hide LeastBefore;
    var all, all' := arrived + heap, arrived + rest;
    assert forall m | m in all :: m == n || m in all';
    forall t, c: nat | Offers(all, t, c) && (t != n.token || c < n.cost)
      ensures Offers(all', t, c)
    {
      var m :| m in all && m.token == t && m.cost <= c;
    }
    forall v | v in done
      ensures AllRelaxed(end, dist, all', v, dist[v], EdgesOf(graph, v))
    {
      forall e | e in EdgesOf(graph, v)
        ensures Relaxed(end, dist, all', v, dist[v], e)
      {
        assert Relaxed(end, dist, all, v, dist[v], e);
      }
    }
  }

  /** What arrives is still on offer. */
  lemma ArriveFrontier(graph: Graph, start: Token, end: Token, dist: Distances, arrived: seq<Candidate>, heap: seq<Candidate>,
                       done: set<Token>, n: Candidate, rest: seq<Candidate>)
    requires Tracked(graph, start, end, dist, arrived, heap, done) && n.token == end && Popped(heap, n, rest)
    ensures Tracked(graph, start, end, dist, arrived + [n], rest, done)
  {
    hide LeastBefore;
    var all, all' := arrived + heap, arrived + [n] + rest;
    assert forall m :: m in all <==> m in all';
    forall t, c: nat | Offers(all, t, c)
      ensures Offers(all', t, c)
    {
      var m :| m in all && m.token == t && m.cost <= c;
    }
    forall v | v in done
      ensures AllRelaxed(end, dist, all', v, dist[v], EdgesOf(graph, v))
    {
      forall e | e in EdgesOf(graph, v)
        ensures Relaxed(end, dist, all', v, dist[v], e)
      {
        assert Relaxed(end, dist, all, v, dist[v], e);
      }
    }
  }

  lemma AfterExpand(graph: Graph, start: Token, end: Token, dist: Distances, arrived: seq<Candidate>, rest: seq<Candidate>,
                    heap: seq<Candidate>, done: set<Token>, u: Candidate, edges: seq<Edge>)
    requires rest <= heap && (start == end ==> Offers(arrived + rest, end, 0)) && AllArrived(end, arrived)
    requires start in dist && dist[start] == 0
    requires Waiting(end, dist, arrived + heap, done, {}) && Expanded(graph, end, dist, arrived + heap, done)
    requires ArrivalsLeast(graph, start, end, arrived + rest) && OnlyFollowing(u, edges, heap[|rest|..])
    requires LeastAvoiding(graph, start, end, u.path)
    ensures Tracked(graph, start, end, dist, arrived, heap, done)
  {
    hide Waiting, Expanded, LeastAvoiding, OnlyFollowing;
    PushedAreLeast(graph, start, end, u, edges, arrived + rest, heap[|rest|..]);
    assert arrived + rest + heap[|rest|..] == arrived + heap;
    if start == end {
      var m :| m in arrived + rest && m.token == end && m.cost <= 0;
      assert m in arrived + heap;
    }
  }

  lemma PathLength(graph: Graph, start: Token, end: Token, maxHops: nat, dist: Distances, n: Candidate)
    requires CandidateOk(graph, start, end, maxHops, dist, n)
    ensures |n.path| <= maxHops + 1
  {
  }

  lemma LeastIsReachable(graph: Graph, start: Token, end: Token, maxHops: nat, path: Path)
    requires LeastCost(graph, start, end, path) && IsRoute(graph, start, end, maxHops, path)
    ensures Reachable(graph, start, end)
  {
    var c :| Costs(graph, path, c);
  }

  lemma SearchStarts(graph: Graph, start: Token, end: Token, maxHops: nat)
    ensures Tracked(graph, start, end, map[start := 0], [], [Candidate(start, 0, [start])], {})
    ensures Ordered([], [Candidate(start, 0, [start])]) && Lists(graph, [], [])
    ensures HeapOk(graph, start, end, maxHops, map[start := 0], [Candidate(start, 0, [start])])
  {
    var heap := [Candidate(start, 0, [start])];
    assert heap[0] in heap && heap[0].path[..0] == [] && [] + heap == heap;
    assert Offers([] + heap, start, 0);
    assert CandidateOk(graph, start, end, maxHops, map[start := 0], heap[0]);
  }

  lemma PopHeapOk(graph: Graph, start: Token, end: Token, maxHops: nat, dist: Distances, heap: seq<Candidate>,
                  n: Candidate, rest: seq<Candidate>)
    requires HeapOk(graph, start, end, maxHops, dist, heap) && n in heap && forall m | m in rest :: m in heap
    ensures CandidateOk(graph, start, end, maxHops, dist, n) && HeapOk(graph, start, end, maxHops, dist, rest)
  {
  }

  datatype RoutingError = NoRouteFound

  /** `n` is a cheapest entry and `rest` the heap without it. */
  ghost predicate Popped(heap: seq<Candidate>, n: Candidate, rest: seq<Candidate>) {
    && n in heap && (forall m | m in heap :: n.cost <= m.cost && (m == n || m in rest))
    && (forall m | m in rest :: m in heap)
  }

  ghost predicate Dropped(maxHops: nat, dist: Distances, n: Candidate) {
    |n.path| > maxHops || (n.token in dist && n.cost > dist[n.token])
  }

  /** What one round does with the entry popped. */
  ghost predicate Handles(graph: Graph, end: Token, maxHops: nat, n: Candidate, rest: seq<Candidate>, dist0: Distances,
                          dist: Distances, heap: seq<Candidate>, found: Option<Path>) {
    if n.token == end && |n.path| <= maxHops + 1 then found == Some(n.path) && dist == dist0 && heap == rest
    else
      && found == None
      && if Dropped(maxHops, dist0, n) then dist == dist0 && heap == rest
         else rest <= heap && Follows(end, n, EdgesOf(graph, n.token), dist0, dist, heap[|rest|..])
  }

  ghost predicate RoundStep(graph: Graph, end: Token, maxHops: nat, dist0: Distances, heap0: seq<Candidate>,
                            dist: Distances, heap: seq<Candidate>, found: Option<Path>) {
    exists n, rest :: Popped(heap0, n, rest) && Handles(graph, end, maxHops, n, rest, dist0, dist, heap, found)
  }

  /** One round: pops a cheapest entry and either reports its path, drops it as
      too long or stale, or expands it. */
  method Visit(graph: Graph, start: Token, end: Token, maxHops: nat, dist0: Distances, heap0: seq<Candidate>,
               ghost arrived0: seq<Candidate>, ghost done0: set<Token>, ghost b: nat)
    returns (dist: Distances, heap: seq<Candidate>, ghost arrived: seq<Candidate>, ghost done: set<Token>, found: Option<Path>)
    requires heap0 != [] && HeapOk(graph, start, end, maxHops, dist0, heap0)
    requires start in dist0 && dist0[start] == 0
    requires forall t | t in graph :: |graph[t]| < b
    requires b > 0 && Ordered(arrived0, heap0)
    ensures HeapOk(graph, start, end, maxHops, dist, heap) && start in dist && dist[start] == 0
    ensures found.Some? ==> IsRoute(graph, start, end, maxHops, found.value)
    ensures Tracked(graph, start, end, dist0, arrived0, heap0, done0) && Roomy(graph, start, end, maxHops)
        ==> Tracked(graph, start, end, dist, arrived, heap, done)
    ensures Ordered(arrived, heap)
    ensures forall paths | Lists(graph, arrived0, paths) ::
              Lists(graph, arrived, if found.Some? then paths + [found.value] else paths)
    ensures RoundStep(graph, end, maxHops, dist0, heap0, dist, heap, found)
    ensures Pending(PathsOf(heap), b, Height(graph, start)) < Pending(PathsOf(heap0), b, Height(graph, start))
  {
    hide Follows, CandidateOk, HeapOk, Tracked, Frontier, Offers, Waiting, Expanded, LeastCost, IsRoute, Tokens, Costs, Roomy,
         Pending, PathsOf, Ordered, Lists, ArrivalsLeast, AllArrived, LeastAvoiding;
    ghost var height := Height(graph, start);
    ghost var tracked := Tracked(graph, start, end, dist0, arrived0, heap0, done0) && Roomy(graph, start, end, maxHops);
    var n, rest, k := PopMin(heap0);
    PopPending(heap0, k, b, height);
    PopHeapOk(graph, start, end, maxHops, dist0, heap0, n, rest);
    PathLength(graph, start, end, maxHops, dist0, n);
    assert Popped(heap0, n, rest);
    OrderedRest(arrived0, heap0, n, rest);
    dist, heap, arrived, done, found := dist0, rest, arrived0, done0, None;
    if n.token == end && |n.path| <= maxHops + 1 {
      PoppedIsRoute(graph, start, end, maxHops, dist, n);
      if tracked {
        ArriveFrontier(graph, start, end, dist, arrived0, heap0, done0, n, rest);
      }
      SinglePositive(n.path, b, height);
      forall paths | Lists(graph, arrived0, paths)
        ensures Lists(graph, arrived0 + [n], paths + [n.path])
      {
        ListsMore(graph, arrived0, paths, n);
      }
      return dist, heap, arrived0 + [n], done, Some(n.path);
    }
    PoppedFits(graph, start, end, maxHops, dist, n);
    SinglePositive(n.path, b, height);
    if |n.path| > maxHops {
      return;
    }
    if tracked {
      PopFrontier(graph, start, end, dist, arrived, heap0, done, n, rest);
    }
    if n.token in dist && n.cost > dist[n.token] {
      return;
    }
    CandidateFacts(graph, start, end, maxHops, dist, n);
    if tracked {
      PoppedIsLeast(graph, start, end, maxHops, dist, arrived, heap0, done, n);
    }
    dist, heap, done := Expand(graph, start, end, maxHops, n, dist, rest, arrived, done);
    PushPending(rest, heap, n.path, b, height);
    AfterFollowing(arrived, heap0, n, EdgesOf(graph, n.token), dist0, dist, rest, heap, end);
    if tracked {
      TrackedArrived(graph, start, end, dist0, arrived, heap0, done0);
      AfterExpand(graph, start, end, dist, arrived, rest, heap, done, n, EdgesOf(graph, n.token));
    }
  }

  lemma TrackedArrived(graph: Graph, start: Token, end: Token, dist: Distances, arrived: seq<Candidate>,
                       heap: seq<Candidate>, done: set<Token>)
    requires Tracked(graph, start, end, dist, arrived, heap, done)
    ensures AllArrived(end, arrived)
  {}

  lemma AfterFollowing(arrived: seq<Candidate>, heap0: seq<Candidate>, n: Candidate, edges: seq<Edge>, dist0: Distances,
                       dist: Distances, rest: seq<Candidate>, heap: seq<Candidate>, end: Token)
    requires Ordered(arrived, heap0) && Ordered(arrived, rest) && n in heap0 && rest <= heap
    requires Follows(end, n, edges, dist0, dist, heap[|rest|..])
    ensures OnlyFollowing(n, edges, heap[|rest|..]) && Ordered(arrived, heap)
  {
    hide OnlyFollowing, OnlyFalls, FallsToPushed, EdgesTaken, EndPushed;
    OrderedPush(arrived, heap, n, edges, rest, heap[|rest|..]);
  }

  lemma SinglePositive(path: Path, b: nat, height: nat)
    requires b > 0
    ensures Pending([path], b, height) > 0
  {
    assert [path][1..] == [];
  }

  // ----- a direct edge -----

  /** The destination is the start itself or one step away. */
  ghost predicate OneStepAway(graph: Graph, start: Token, end: Token, maxHops: nat) {
    start == end || (maxHops >= 1 && HasEdge(graph, start, end))
  }

  /** A direct edge has not been lost: nothing is popped yet, or it is on offer. */
  ghost predicate DirectKept(start: Token, end: Token, dist: Distances, heap: seq<Candidate>) {
    || (heap == [Candidate(start, 0, [start])] && dist == map[start := 0])
    || (exists n :: n in heap && n.token == end)
  }

  lemma DirectStep(graph: Graph, start: Token, end: Token, maxHops: nat, dist0: Distances, heap0: seq<Candidate>,
                   dist: Distances, heap: seq<Candidate>, found: Option<Path>)
    requires OneStepAway(graph, start, end, maxHops) && HeapOk(graph, start, end, maxHops, dist0, heap0)
    requires DirectKept(start, end, dist0, heap0) && RoundStep(graph, end, maxHops, dist0, heap0, dist, heap, found)
    ensures found.Some? || DirectKept(start, end, dist, heap)
  {
    hide Costs, OnlyFollowing, OnlyFalls, FallsToPushed, EdgesTaken;
    var n, rest :| Popped(heap0, n, rest) && Handles(graph, end, maxHops, n, rest, dist0, dist, heap, found);
    assert CandidateOk(graph, start, end, maxHops, dist0, n);
    if heap0 == [Candidate(start, 0, [start])] && dist0 == map[start := 0] {
      if start != end {
        var e :| e in graph[start] && e.to == end;
        assert e in EdgesOf(graph, n.token);
        var m :| m in heap[|rest|..] && m.token == end;
        assert m in heap;
      }
    } else {
      var m :| m in heap0 && m.token == end;
      if found.None? {
        assert m in rest && m in heap;
      }
    }
  }

  lemma ShortRouteIsDirect(graph: Graph, start: Token, end: Token, maxHops: nat, path: Path)
    requires IsRoute(graph, start, end, maxHops, path) && (maxHops <= 1 || start == end)
    ensures OneStepAway(graph, start, end, maxHops) && path == if start == end then [start] else [start, end]
  {
    if start != end {
      assert HasEdge(graph, path[0], path[0 + 1]);
    }
  }

  // ----- routes of least cost within the bound -----

  /** `path` costs no more than any route within the hop bound. */
  ghost predicate LeastWithin(graph: Graph, start: Token, end: Token, maxHops: nat, path: Path) {
    exists c :: Costs(graph, path, c) && NoCheaperWithin(graph, start, end, maxHops, c)
  }

  ghost predicate NoCheaperWithin(graph: Graph, start: Token, end: Token, maxHops: nat, c: nat) {
    forall q, w | Costs(graph, q, w) && IsRoute(graph, start, end, maxHops, q) :: c <= w
  }

  lemma LeastIsLeastWithin(graph: Graph, start: Token, end: Token, maxHops: nat, path: Path)
    requires LeastCost(graph, start, end, path)
    ensures LeastWithin(graph, start, end, maxHops, path)
  {
    var c :| Costs(graph, path, c) && NoCheaper(graph, start, end, c);
    assert NoCheaperWithin(graph, start, end, maxHops, c);
  }

  lemma {:induction false} CheapestWay(graph: Graph, path: Path, cost: nat) returns (c: nat)
    requires Costs(graph, path, cost)
    ensures Costs(graph, path, c) && forall w | Costs(graph, path, w) :: c <= w
    decreases cost
  {
    if w: nat :| Costs(graph, path, w) && w < cost {
      c := CheapestWay(graph, path, w);
    } else {
      c := cost;
    }
  }

  lemma {:induction false} WalkHasCost(graph: Graph, path: Path) returns (cost: nat)
    requires IsWalk(graph, path)
    ensures Costs(graph, path, cost)
    decreases |path|
  {
    if |path| == 1 {
      cost := 0;
    } else {
      var n := |path| - 1;
      assert forall i | 0 <= i < n - 1 :: HasEdge(graph, path[..n][i], path[..n][i + 1]) by {
        forall i | 0 <= i < n - 1
          ensures HasEdge(graph, path[..n][i], path[..n][i + 1])
        {
          assert HasEdge(graph, path[i], path[i + 1]);
        }
      }
      var rest := WalkHasCost(graph, path[..n]);
      assert HasEdge(graph, path[n - 1], path[n - 1 + 1]);
      var e :| e in graph[path[n - 1]] && e.to == path[n];
      CostsSnoc(graph, path[..n], rest, e);
      assert path == path[..n] + [e.to];
      cost := rest + e.weight;
    }
  }

  /** Where only one route fits, it is the cheapest one that does. */
  lemma OnlyRouteIsLeast(graph: Graph, start: Token, end: Token, maxHops: nat, path: Path)
    requires IsRoute(graph, start, end, maxHops, path) && (maxHops <= 1 || start == end)
    ensures LeastWithin(graph, start, end, maxHops, path)
  {
    var cost := WalkHasCost(graph, path);
    var c := CheapestWay(graph, path, cost);
    forall q, w | Costs(graph, q, w) && IsRoute(graph, start, end, maxHops, q)
      ensures c <= w
    {
      ShortRouteIsDirect(graph, start, end, maxHops, q);
      ShortRouteIsDirect(graph, start, end, maxHops, path);
    }
    assert NoCheaperWithin(graph, start, end, maxHops, c);
  }

  // ----- a trap below the bound -----

  /** A line of tokens, one more than fit within the bound, the weight of the edges
      along it, that of a dear short cut from the first to the third, and, if any,
      that of an edge from the first to the last. */
  datatype Trap = Trap(line: Path, cheap: nat, dear: nat, toll: Option<nat>)

  /** The graph leads from the line's tokens nowhere else; the cheap way to the
      third token takes a hop too many. */
  ghost predicate IsTrap(graph: Graph, maxHops: nat, t: Trap) {
    && maxHops >= 2 && |t.line| == maxHops + 2 && Distinct(t.line) && IsWalk(graph, t.line) && t.dear > 2 * t.cheap
    && (forall k, e | 0 <= k < |t.line| && e in EdgesOf(graph, t.line[k]) :: OnTrap(t, k, e))
  }

  ghost predicate OnTrap(t: Trap, k: nat, e: Edge)
    requires k < |t.line| && |t.line| > 3
  {
    || (k + 1 < |t.line| && e.to == t.line[k + 1] && e.weight == t.cheap)
    || (k > 0 && e.to == t.line[k - 1] && e.weight == t.cheap)
    || (k == 0 && e.to == t.line[2] && e.weight == t.dear)
    || (k == 2 && e.to == t.line[0] && e.weight == t.dear)
    || (k == 0 && e.to == t.line[|t.line| - 1] && t.toll == Some(e.weight))
    || (k == |t.line| - 1 && e.to == t.line[0] && t.toll == Some(e.weight))
  }

  ghost predicate Between(t: Trap, start: Token, end: Token) {
    t.line != [] && t.line[0] == start && t.line[|t.line| - 1] == end
  }

  ghost predicate Trapped(graph: Graph, start: Token, end: Token, maxHops: nat, toll: Option<nat>) {
    exists t :: IsTrap(graph, maxHops, t) && Between(t, start, end) && t.toll == toll
  }

  /** The entry at the `k`th token of the line. */
  function Along(t: Trap, k: nat): Candidate
    requires k < |t.line|
  {
    Candidate(t.line[k], k * t.cheap, t.line[..k + 1])
  }

  function ShortCut(t: Trap): Candidate
    requires |t.line| > 3
  {
    Candidate(t.line[2], t.dear, [t.line[0], t.line[2]])
  }

  /** The entry that pays the toll. */
  predicate IsDirect(t: Trap, n: Candidate)
    requires |t.line| > 3
  {
    t.toll == Some(n.cost) && n.token == t.line[|t.line| - 1] && n.path == [t.line[0], n.token]
  }

  ghost predicate InTrap(t: Trap, n: Candidate)
    requires |t.line| > 3
  {
    n == ShortCut(t) || IsDirect(t, n) || exists k :: 0 <= k < |t.line| - 1 && n == Along(t, k)
  }

  /** The search is still caught: it has not begun, or is about to learn, or has
      learnt, the cheap distance of the third token. */
  ghost predicate Caught(t: Trap, dist: Distances, heap: seq<Candidate>)
    requires |t.line| > 3
  {
    && (forall n | n in heap :: InTrap(t, n))
    && (t.line[1] in dist ==> dist[t.line[1]] >= t.cheap)
    && t.line[0] in dist && dist[t.line[0]] == 0
    && (|| (heap == [Along(t, 0)] && dist == map[t.line[0] := 0])
        || Along(t, 1) in heap
        || (t.line[2] in dist && dist[t.line[2]] <= 2 * t.cheap))
  }

  ghost predicate CaughtIn(graph: Graph, start: Token, end: Token, maxHops: nat, t: Trap, dist: Distances, heap: seq<Candidate>) {
    IsTrap(graph, maxHops, t) && Between(t, start, end) && Caught(t, dist, heap)
  }

  /** What following an edge off the path of an entry on the line leads to. */
  ghost predicate TrapNext(t: Trap, k: nat, n: Candidate)
    requires k + 1 < |t.line| && |t.line| > 3
  {
    n == Along(t, k + 1) || (k == 0 && (n == ShortCut(t) || IsDirect(t, n)))
  }

  lemma TrapFollows(graph: Graph, maxHops: nat, t: Trap, k: nat, n: Candidate)
    requires IsTrap(graph, maxHops, t) && k < maxHops
    requires FromEdge(Along(t, k), EdgesOf(graph, t.line[k]), n)
    ensures TrapNext(t, k, n)
  {
    var u := Along(t, k);
    var e :| e in EdgesOf(graph, t.line[k]) && e.to !in u.path && n == Following(u, e);
    assert OnTrap(t, k, e);
    TrapEdgeLeads(t, k, e);
  }

  lemma TrapEdgeLeads(t: Trap, k: nat, e: Edge)
    requires |t.line| > 3 && k < |t.line| - 2 && OnTrap(t, k, e) && e.to !in Along(t, k).path
    ensures TrapNext(t, k, Following(Along(t, k), e))
  {
    var u := Along(t, k);
    assert u.path[0] == t.line[0] && t.line[0] in u.path;
    if k > 0 {
      assert t.line[k - 1] == u.path[k - 1] && t.line[k - 1] in u.path;
    }
    if e.to == t.line[k + 1] && e.weight == t.cheap {
      assert t.line[..k + 1] + [t.line[k + 1]] == t.line[..k + 2];
      assert k * t.cheap + t.cheap == (k + 1) * t.cheap;
    } else {
      assert k == 0 && u.path == [t.line[0]];
    }
  }

  /** No round escapes: all it can find is the toll. */
  lemma TrapStep(graph: Graph, start: Token, end: Token, maxHops: nat, t: Trap, dist0: Distances, heap0: seq<Candidate>,
                 dist: Distances, heap: seq<Candidate>, found: Option<Path>)
    requires CaughtIn(graph, start, end, maxHops, t, dist0, heap0)
    requires RoundStep(graph, end, maxHops, dist0, heap0, dist, heap, found)
    ensures found.None? || (t.toll.Some? && found.value == [start, end])
    ensures CaughtIn(graph, start, end, maxHops, t, dist, heap)
  {
    hide Follows, IsWalk;
    var n, rest :| Popped(heap0, n, rest) && Handles(graph, end, maxHops, n, rest, dist0, dist, heap, found);
    assert InTrap(t, n);
    if n == ShortCut(t) {
      TrapShortCut(graph, maxHops, t, dist0, heap0, rest, n);
    } else if IsDirect(t, n) {
      assert forall k | 0 <= k < |t.line| - 1 :: n != Along(t, k);
    } else {
      var k :| 0 <= k < |t.line| - 1 && n == Along(t, k);
      if !Dropped(maxHops, dist0, n) {
        TrapExpands(graph, end, maxHops, t, dist0, heap0, rest, dist, heap, k);
      } else {
        TrapDrops(maxHops, t, dist0, heap0, rest, k);
      }
    }
  }

  /** The short cut is only popped when the cheap distance is known, and is stale then. */
  lemma TrapShortCut(graph: Graph, maxHops: nat, t: Trap, dist0: Distances, heap0: seq<Candidate>, rest: seq<Candidate>, n: Candidate)
    requires IsTrap(graph, maxHops, t) && Caught(t, dist0, heap0)
    requires Popped(heap0, n, rest) && n == ShortCut(t)
    ensures Dropped(maxHops, dist0, n) && Caught(t, dist0, rest)
  {
    hide IsWalk;
    assert Along(t, 1).cost == t.cheap < t.dear;
    assert Along(t, 1) !in heap0;
  }

  lemma TrapDrops(maxHops: nat, t: Trap, dist0: Distances, heap0: seq<Candidate>, rest: seq<Candidate>, k: nat)
    requires maxHops >= 2 && |t.line| == maxHops + 2 && Distinct(t.line) && k < |t.line| - 1
    requires Caught(t, dist0, heap0) && Popped(heap0, Along(t, k), rest) && Dropped(maxHops, dist0, Along(t, k))
    ensures Caught(t, dist0, rest)
  {
    assert k != 0 && k != 1;
    if Along(t, 1) in heap0 {
      assert Along(t, 1) != Along(t, k);
    }
  }

  lemma TrapExpands(graph: Graph, end: Token, maxHops: nat, t: Trap, dist0: Distances, heap0: seq<Candidate>,
                    rest: seq<Candidate>, dist: Distances, heap: seq<Candidate>, k: nat)
    requires IsTrap(graph, maxHops, t) && t.line[|t.line| - 1] == end && k < |t.line| - 1
    requires Caught(t, dist0, heap0) && Popped(heap0, Along(t, k), rest)
    requires !Dropped(maxHops, dist0, Along(t, k)) && rest <= heap
    requires Follows(end, Along(t, k), EdgesOf(graph, t.line[k]), dist0, dist, heap[|rest|..])
    ensures Caught(t, dist, heap)
  {
    hide IsWalk;
    var u, pushed := Along(t, k), heap[|rest|..];
    assert heap == rest + pushed && k < maxHops;
    forall n | n in pushed
      ensures TrapNext(t, k, n)
    {
      assert FromEdge(u, EdgesOf(graph, t.line[k]), n);
      TrapFollows(graph, maxHops, t, k, n);
    }
    assert forall n | n in heap :: InTrap(t, n);
    assert t.line[0] != end && t.line[1] != end && t.line[2] != end;
    TrapDistances(end, t, dist0, dist, pushed, k);
    if heap0 == [Along(t, 0)] && dist0 == map[t.line[0] := 0] {
      assert k == 0;
      TrapBegins(graph, end, maxHops, t, dist0, dist, pushed);
    } else if k == 1 {
      TrapLearns(graph, end, maxHops, t, dist0, dist, pushed);
    } else if Along(t, 1) in heap0 {
      assert Along(t, 1).token != u.token;
      assert Along(t, 1) in rest && Along(t, 1) in heap;
    }
  }

  lemma TrapDistances(end: Token, t: Trap, dist0: Distances, dist: Distances, pushed: seq<Candidate>, k: nat)
    requires |t.line| > 3 && Distinct(t.line) && end == t.line[|t.line| - 1] && k < |t.line| - 2
    requires OnlyFalls(end, dist0, dist) && FallsToPushed(end, dist0, dist, pushed)
    requires forall n | n in pushed :: TrapNext(t, k, n)
    requires (t.line[1] in dist0 ==> dist0[t.line[1]] >= t.cheap) && t.line[0] in dist0 && dist0[t.line[0]] == 0
    ensures (t.line[1] in dist ==> dist[t.line[1]] >= t.cheap) && t.line[0] in dist && dist[t.line[0]] == 0
  {
    if t.line[1] in dist && Pushed(pushed, t.line[1], dist[t.line[1]]) {
      var n :| n in pushed && n.token == t.line[1] && n.cost == dist[t.line[1]];
      assert n == Along(t, 1);
    }
  }

  lemma TrapBegins(graph: Graph, end: Token, maxHops: nat, t: Trap, dist0: Distances, dist: Distances, pushed: seq<Candidate>)
    requires IsTrap(graph, maxHops, t) && end == t.line[|t.line| - 1]
    requires Follows(end, Along(t, 0), EdgesOf(graph, t.line[0]), dist0, dist, pushed)
    requires forall n | n in pushed :: TrapNext(t, 0, n)
    requires t.line[1] !in dist0
    ensures Along(t, 1) in pushed
  {
    assert HasEdge(graph, t.line[0], t.line[0 + 1]);
    var e :| e in EdgesOf(graph, t.line[0]) && e.to == t.line[1];
    assert e.to !in Along(t, 0).path;
    assert Pushed(pushed, t.line[1], dist[t.line[1]]);
    var n :| n in pushed && n.token == t.line[1] && n.cost == dist[t.line[1]];
  }

  lemma TrapLearns(graph: Graph, end: Token, maxHops: nat, t: Trap, dist0: Distances, dist: Distances, pushed: seq<Candidate>)
    requires IsTrap(graph, maxHops, t) && end == t.line[|t.line| - 1]
    requires Follows(end, Along(t, 1), EdgesOf(graph, t.line[1]), dist0, dist, pushed)
    ensures t.line[2] in dist && dist[t.line[2]] <= 2 * t.cheap
  {
    assert HasEdge(graph, t.line[1], t.line[1 + 1]);
    var e :| e in EdgesOf(graph, t.line[1]) && e.to == t.line[2];
    assert OnTrap(t, 1, e);
    assert e.to !in Along(t, 1).path;
  }

  lemma TrapStarts(graph: Graph, start: Token, end: Token, maxHops: nat, t: Trap)
    requires IsTrap(graph, maxHops, t) && Between(t, start, end)
    ensures CaughtIn(graph, start, end, maxHops, t, map[start := 0], [Candidate(start, 0, [start])])
  {
    assert Along(t, 0) == Candidate(start, 0, [start]);
  }

  // ----- what a trap costs -----

  /** A toll dearer than the short cut and the rest of the line. */
  ghost predicate Overpriced(graph: Graph, maxHops: nat, t: Trap) {
    && IsTrap(graph, maxHops, t) && HasEdge(graph, t.line[0], t.line[2]) && HasEdge(graph, t.line[0], t.line[|t.line| - 1])
    && t.toll.Some? && t.toll.value > t.dear + (maxHops - 1) * t.cheap
  }

  ghost predicate Misled(graph: Graph, start: Token, end: Token, maxHops: nat) {
    exists t :: Overpriced(graph, maxHops, t) && Between(t, start, end)
  }

  /** Past the short cut, each further token of the line adds the cheap weight. */
  lemma {:induction false} PastShortCut(graph: Graph, maxHops: nat, t: Trap, k: nat)
    requires IsTrap(graph, maxHops, t) && HasEdge(graph, t.line[0], t.line[2]) && 2 <= k < |t.line|
    ensures Costs(graph, [t.line[0]] + t.line[2..k + 1], t.dear + (k - 2) * t.cheap)
    decreases k
  {
    var path := [t.line[0]] + t.line[2..k + 1];
    if k == 2 {
      var e :| e in graph[t.line[0]] && e.to == t.line[2];
      assert e in EdgesOf(graph, t.line[0]) && OnTrap(t, 0, e);
      assert Costs(graph, [t.line[0]], 0);
      CostsSnoc(graph, [t.line[0]], 0, e);
      assert path == [t.line[0]] + [e.to];
    } else {
      PastShortCut(graph, maxHops, t, k - 1);
      var shorter := [t.line[0]] + t.line[2..k];
      assert HasEdge(graph, t.line[k - 1], t.line[k - 1 + 1]);
      var e :| e in graph[t.line[k - 1]] && e.to == t.line[k];
      assert e in EdgesOf(graph, t.line[k - 1]) && OnTrap(t, k - 1, e);
      CostsSnoc(graph, shorter, t.dear + (k - 3) * t.cheap, e);
      assert path == shorter + [e.to];
      assert t.dear + (k - 3) * t.cheap + t.cheap == t.dear + (k - 2) * t.cheap;
    }
  }

  lemma TollIsPaid(graph: Graph, maxHops: nat, t: Trap, c: nat)
    requires IsTrap(graph, maxHops, t) && Costs(graph, [t.line[0], t.line[|t.line| - 1]], c)
    ensures t.toll == Some(c)
  {
    hide IsWalk;
    var path := [t.line[0], t.line[|t.line| - 1]];
    assert path[..1] == [t.line[0]];
    var e :| e in graph[t.line[0]] && e.to == path[1] && e.weight <= c && Costs(graph, path[..1], c - e.weight);
    assert e in EdgesOf(graph, t.line[0]) && OnTrap(t, 0, e);
  }

  /** In such a trap the direct edge is not the cheapest route within the bound. */
  lemma MisledPaysMore(graph: Graph, start: Token, end: Token, maxHops: nat)
    requires Misled(graph, start, end, maxHops)
    ensures OneStepAway(graph, start, end, maxHops) && exists toll :: Trapped(graph, start, end, maxHops, toll)
    ensures !LeastWithin(graph, start, end, maxHops, [start, end])
  {
    var t :| Overpriced(graph, maxHops, t) && Between(t, start, end);
    assert Trapped(graph, start, end, maxHops, t.toll);
    var last := |t.line| - 1;
    PastShortCut(graph, maxHops, t, last);
    var q, w := [t.line[0]] + t.line[2..last + 1], t.dear + (last - 2) * t.cheap;
    CostsIsWalk(graph, q, w);
    assert IsRoute(graph, start, end, maxHops, q);
    if c: nat :| Costs(graph, [start, end], c) && NoCheaperWithin(graph, start, end, maxHops, c) {
      TollIsPaid(graph, maxHops, t, c);
    }
  }

  // ----- the search -----

  ghost predicate HasRoute(graph: Graph, start: Token, end: Token, maxHops: nat) {
    exists p :: IsRoute(graph, start, end, maxHops, p)
  }

  /** In a trap only its toll is found. */
  ghost predicate OnlyToll(start: Token, end: Token, toll: Option<nat>, paths: seq<Path>) {
    paths == [] || (toll.Some? && forall p | p in paths :: p == [start, end])
  }

  ghost predicate StillCaught(graph: Graph, start: Token, end: Token, maxHops: nat, toll: Option<nat>, dist: Distances,
                              heap: seq<Candidate>) {
    exists t :: CaughtIn(graph, start, end, maxHops, t, dist, heap) && t.toll == toll
  }

  /** What is known whatever the bound: a trap is not escaped, and a direct edge
      is not lost. */
  ghost predicate TightBounds(graph: Graph, start: Token, end: Token, maxHops: nat, dist: Distances, heap: seq<Candidate>,
                              paths: seq<Path>) {
    && (forall toll | Trapped(graph, start, end, maxHops, toll) ::
          OnlyToll(start, end, toll, paths) && StillCaught(graph, start, end, maxHops, toll, dist, heap))
    && (OneStepAway(graph, start, end, maxHops) ==> paths != [] || DirectKept(start, end, dist, heap))
  }

  lemma TightBoundsStart(graph: Graph, start: Token, end: Token, maxHops: nat)
    ensures TightBounds(graph, start, end, maxHops, map[start := 0], [Candidate(start, 0, [start])], [])
  {
    hide IsTrap, CaughtIn, Between;
    forall toll | Trapped(graph, start, end, maxHops, toll)
      ensures StillCaught(graph, start, end, maxHops, toll, map[start := 0], [Candidate(start, 0, [start])])
    {
      var t :| IsTrap(graph, maxHops, t) && Between(t, start, end) && t.toll == toll;
      TrapStarts(graph, start, end, maxHops, t);
    }
  }

  lemma TightBoundsStep(graph: Graph, start: Token, end: Token, maxHops: nat, dist0: Distances, heap0: seq<Candidate>,
                        dist: Distances, heap: seq<Candidate>, found: Option<Path>, paths: seq<Path>)
    requires TightBounds(graph, start, end, maxHops, dist0, heap0, paths) && HeapOk(graph, start, end, maxHops, dist0, heap0)
    requires RoundStep(graph, end, maxHops, dist0, heap0, dist, heap, found)
    ensures TightBounds(graph, start, end, maxHops, dist, heap, if found.Some? then paths + [found.value] else paths)
  {
    hide CaughtIn, RoundStep, HeapOk, DirectKept, Trapped, OneStepAway;
    forall toll | Trapped(graph, start, end, maxHops, toll)
      ensures OnlyToll(start, end, toll, if found.Some? then paths + [found.value] else paths)
      ensures StillCaught(graph, start, end, maxHops, toll, dist, heap)
    {
      var t :| CaughtIn(graph, start, end, maxHops, t, dist0, heap0) && t.toll == toll;
      TrapStep(graph, start, end, maxHops, t, dist0, heap0, dist, heap, found);
    }
    if OneStepAway(graph, start, end, maxHops) && paths == [] {
      DirectStep(graph, start, end, maxHops, dist0, heap0, dist, heap, found);
    }
  }

  lemma ListedHasRoute(graph: Graph, start: Token, end: Token, maxHops: nat, paths: seq<Path>)
    requires paths != [] && forall p | p in paths :: IsRoute(graph, start, end, maxHops, p)
    ensures HasRoute(graph, start, end, maxHops) && IsRoute(graph, start, end, maxHops, paths[0])
  {
    assert paths[0] in paths;
  }

  /** The hop bound cannot come in the way of the search. */
  ghost predicate SafeBound(graph: Graph, start: Token, end: Token, maxHops: nat) {
    maxHops <= 1 || start == end || Roomy(graph, start, end, maxHops)
  }

  /** What the search knows once it has stopped. */
  lemma SearchEnds(graph: Graph, start: Token, end: Token, maxHops: nat, dist: Distances, arrived: seq<Candidate>,
                   heap: seq<Candidate>, done: set<Token>, paths: seq<Path>)
    requires |paths| == 3 || heap == []
    requires forall p | p in paths :: IsRoute(graph, start, end, maxHops, p)
    requires TightBounds(graph, start, end, maxHops, dist, heap, paths)
    requires Roomy(graph, start, end, maxHops) ==> Tracked(graph, start, end, dist, arrived, heap, done)
    requires Ordered(arrived, heap) && Lists(graph, arrived, paths)
    ensures Roomy(graph, start, end, maxHops) ==> CheapestArrivals(graph, start, end, paths)
    ensures Roomy(graph, start, end, maxHops) && paths != [] ==> LeastCost(graph, start, end, paths[0])
    ensures Roomy(graph, start, end, maxHops) ==> (paths == [] <==> !Reachable(graph, start, end))
    ensures OneStepAway(graph, start, end, maxHops) ==> paths != []
    ensures SafeBound(graph, start, end, maxHops) ==>
              && (paths == [] <==> !HasRoute(graph, start, end, maxHops))
              && (paths != [] ==> LeastWithin(graph, start, end, maxHops, paths[0]))
    ensures forall toll | Trapped(graph, start, end, maxHops, toll) :: OnlyToll(start, end, toll, paths)
  {
    hide Roomy, Tracked, Ordered, Lists, LeastCost, LeastWithin, Reachable, Trapped, IsRoute, OneStepAway, OnlyToll,
         StillCaught, CheapestArrivals;
    if paths != [] {
      ListedHasRoute(graph, start, end, maxHops, paths);
    }
    if Roomy(graph, start, end, maxHops) {
      ArrivalsComplete(graph, start, end, dist, arrived, heap, done, paths);
      if paths == [] {
        NoArrivals(graph, start, end);
        UnreachableNoRoute(graph, start, end, maxHops);
      } else {
        FirstIsLeast(graph, start, end, paths);
        LeastIsReachable(graph, start, end, maxHops, paths[0]);
        LeastIsLeastWithin(graph, start, end, maxHops, paths[0]);
      }
    } else if maxHops <= 1 || start == end {
      if paths != [] {
        OnlyRouteIsLeast(graph, start, end, maxHops, paths[0]);
      } else if p :| IsRoute(graph, start, end, maxHops, p) {
        ShortRouteIsDirect(graph, start, end, maxHops, p);
      }
    }
  }

  lemma UnreachableNoRoute(graph: Graph, start: Token, end: Token, maxHops: nat)
    requires !Reachable(graph, start, end)
    ensures !HasRoute(graph, start, end, maxHops)
  {
    if p :| IsRoute(graph, start, end, maxHops, p) {
      var c := WalkHasCost(graph, p);
    }
  }

  /** `dijkstra` */
  method Search(graph: Graph, start: Token, end: Token, maxHops: nat) returns (r: Result<seq<Path>, RoutingError>)
    ensures r.Ok? ==> 1 <= |r.value| <= 3 && forall p | p in r.value :: IsRoute(graph, start, end, maxHops, p)
    ensures Roomy(graph, start, end, maxHops) && r.Ok? ==>
              LeastCost(graph, start, end, r.value[0]) && CheapestArrivals(graph, start, end, r.value)
    ensures Roomy(graph, start, end, maxHops) ==> (r.Err? <==> !Reachable(graph, start, end))
    ensures OneStepAway(graph, start, end, maxHops) ==> r.Ok?
    ensures SafeBound(graph, start, end, maxHops) ==>
              && (r.Err? <==> !HasRoute(graph, start, end, maxHops))
              && (r.Ok? ==> LeastWithin(graph, start, end, maxHops, r.value[0]))
    ensures forall toll | Trapped(graph, start, end, maxHops, toll) ::
              r.Err? || OnlyToll(start, end, toll, r.value)
  {
    hide *;
    var dist: Distances := map[start := 0];
    var heap := [Candidate(start, 0, [start])];
    var paths: seq<Path> := [];
    ghost var arrived: seq<Candidate> := [];
    ghost var done: set<Token> := {};
    ghost var roomy := Roomy(graph, start, end, maxHops);
    ghost var d := DegreeBound(graph);
    SearchStarts(graph, start, end, maxHops);
    TightBoundsStart(graph, start, end, maxHops);
    while heap != []
      invariant HeapOk(graph, start, end, maxHops, dist, heap)
      invariant |paths| < 3 && forall p | p in paths :: IsRoute(graph, start, end, maxHops, p)
      invariant start in dist && dist[start] == 0
      invariant roomy ==> Tracked(graph, start, end, dist, arrived, heap, done)
      invariant Ordered(arrived, heap) && Lists(graph, arrived, paths)
      invariant TightBounds(graph, start, end, maxHops, dist, heap, paths)
      decreases Pending(PathsOf(heap), d + 1, Height(graph, start))
    {
      var found: Option<Path>;
      ghost var dist0, heap0 := dist, heap;
      dist, heap, arrived, done, found := Visit(graph, start, end, maxHops, dist, heap, arrived, done, d + 1);
      TightBoundsStep(graph, start, end, maxHops, dist0, heap0, dist, heap, found, paths);
      if found.Some? {
        paths := paths + [found.value];
        if |paths| >= 3 {
          break;
        }
      }
    }
    SearchEnds(graph, start, end, maxHops, dist, arrived, heap, done, paths);
    return if paths == [] then Err(NoRouteFound) else Ok(paths);
  }
}
