/**
 * Breadth-first and depth-first route enumeration and deduplication
 * (dex/smart_routing/pathfinder.rs).
 */
module RouteSearch {
  import opened Common
  import opened PoolGraph
  import opened Routes
  import Dijkstra

  type RoutingError = Dijkstra.RoutingError

  // ----- breadth first -----

  ghost predicate AllOnTheWay(graph: Graph, start: Token, end: Token, maxHops: nat, queue: seq<Path>) {
    forall p | p in queue :: OnTheWay(graph, start, end, maxHops, p)
  }

  /** The extensions of a path by one edge to a token not on it, in edge order. */
  function Steps(path: Path, edges: seq<Edge>): seq<Path> {
    if edges == [] then []
    else
      var to := edges[|edges| - 1].to;
      Steps(path, edges[..|edges| - 1]) + if to in path then [] else [path + [to]]
  }

  lemma StepsSnoc(path: Path, edges: seq<Edge>, k: nat)
    requires k < |edges|
    ensures Steps(path, edges[..k + 1]) == Steps(path, edges[..k]) + if edges[k].to in path then [] else [path + [edges[k].to]]
  {
    assert edges[..k + 1][..k] == edges[..k];
  }

  method Extensions(graph: Graph, start: Token, end: Token, maxHops: nat, path: Path) returns (next: seq<Path>)
    requires path != [] && OnTheWay(graph, start, end, maxHops, path) && path[|path| - 1] != end && |path| <= maxHops
    ensures next == Steps(path, EdgesOf(graph, path[|path| - 1])) && |next| <= |EdgesOf(graph, path[|path| - 1])|
    ensures AllOnTheWay(graph, start, end, maxHops, next) && AllLong(next, |path| + 1)
  {
    hide OnTheWay, EdgesOf, Steps;
    next := [];
    var edges := EdgesOf(graph, path[|path| - 1]);
    NoSteps(path, edges);
    for k := 0 to |edges|
      invariant next == Steps(path, edges[..k]) && |next| <= k && AllLong(next, |path| + 1)
      invariant AllOnTheWay(graph, start, end, maxHops, next)
    {
      StepsSnoc(path, edges, k);
      if edges[k].to !in path {
        OnTheWaySnoc(graph, start, end, maxHops, path, edges[k]);
        next := next + [path + [edges[k].to]];
      }
    }
    assert edges[..|edges|] == edges;
  }

  lemma NoSteps(path: Path, edges: seq<Edge>)
    ensures Steps(path, edges[..0]) == []
  {}

  /** The routes that continue the pending paths, path by path. */
  function RoutesOf(graph: Graph, end: Token, maxHops: nat, queue: seq<Path>): seq<Path> {
    if queue == [] then []
    else
      var front, last := RoutesOf(graph, end, maxHops, queue[..|queue| - 1]), queue[|queue| - 1];
      front + if last == [] then [] else RoutesFrom(graph, end, maxHops, last)
  }

  lemma RoutesOfSnoc(graph: Graph, end: Token, maxHops: nat, queue: seq<Path>, path: Path)
    requires path != []
    ensures RoutesOf(graph, end, maxHops, queue + [path]) ==
            RoutesOf(graph, end, maxHops, queue) + RoutesFrom(graph, end, maxHops, path)
  {
    assert (queue + [path])[..|queue|] == queue;
  }

  lemma {:induction false} RoutesOfConcat(graph: Graph, end: Token, maxHops: nat, a: seq<Path>, b: seq<Path>)
    ensures RoutesOf(graph, end, maxHops, a + b) == RoutesOf(graph, end, maxHops, a) + RoutesOf(graph, end, maxHops, b)
  {
    if b == [] {
      assert a + b == a;
    } else {
      assert (a + b)[..|a + b| - 1] == a + b[..|b| - 1];
      RoutesOfConcat(graph, end, maxHops, a, b[..|b| - 1]);
    }
  }

  lemma {:induction false} StepsLeadOn(graph: Graph, end: Token, maxHops: nat, path: Path, edges: seq<Edge>)
    requires path != [] && |path| <= maxHops
    ensures RoutesOf(graph, end, maxHops, Steps(path, edges)) == RoutesAlong(graph, end, maxHops, path, edges)
  {
    if edges != [] {
      var n := |edges| - 1;
      StepsLeadOn(graph, end, maxHops, path, edges[..n]);
      var front := Steps(path, edges[..n]);
      if edges[n].to !in path {
        RoutesOfSnoc(graph, end, maxHops, front, path + [edges[n].to]);
        assert Steps(path, edges) == front + [path + [edges[n].to]];
      } else {
        assert Steps(path, edges) == front;
      }
    }
  }

  lemma {:induction false} RoutesNoShorter(graph: Graph, end: Token, maxHops: nat, queue: seq<Path>, n: nat)
    requires forall p | p in queue :: |p| >= n
    ensures forall r | r in RoutesOf(graph, end, maxHops, queue) :: |r| >= n
  {
    if queue != [] {
      var last := |queue| - 1;
      assert queue[last] in queue;
      RoutesNoShorter(graph, end, maxHops, queue[..last], n);
      if queue[last] != [] {
        forall r | r in RoutesFrom(graph, end, maxHops, queue[last])
          ensures |r| >= n
        {
          RoutesBegin(graph, end, maxHops, queue[last], r);
        }
      }
    }
  }

  ghost predicate AllLong(paths: seq<Path>, n: nat) {
    forall p | p in paths :: |p| == n
  }

  /** The first `k` pending paths have `n` tokens, the others one more. */
  ghost predicate Level(queue: seq<Path>, k: nat, n: nat) {
    && k <= |queue| && n > 0
    && (forall i | 0 <= i < k :: |queue[i]| == n)
    && (forall i | k <= i < |queue| :: |queue[i]| == n + 1)
  }

  lemma LevelLengths(queue: seq<Path>, k: nat, n: nat)
    requires Level(queue, k, n)
    ensures forall p | p in queue[k..] :: |p| == n + 1
    ensures forall p | p in queue[..k] :: |p| == n
  {
    forall p | p in queue[k..]
      ensures |p| == n + 1
    {
      var i :| 0 <= i < |queue[k..]| && queue[k..][i] == p;
      assert queue[k + i] == p;
    }
  }

  /** What the queue is still to report: the longer paths come from earlier ones of
      the level, so their routes stand first among those of one length. */
  ghost function Due(graph: Graph, end: Token, maxHops: nat, queue: seq<Path>, k: nat): seq<Path>
    requires k <= |queue|
  {
    SortByLength(RoutesOf(graph, end, maxHops, queue[k..]) + RoutesOf(graph, end, maxHops, queue[..k]))
  }

  /** A level that is used up makes room for the next one. */
  lemma NextLevel(graph: Graph, end: Token, maxHops: nat, queue: seq<Path>, n: nat)
    requires Level(queue, 0, n)
    ensures Level(queue, |queue|, n + 1)
    ensures Due(graph, end, maxHops, queue, |queue|) == Due(graph, end, maxHops, queue, 0)
  {
    hide RoutesOf, SortByLength;
    assert queue[0..] == queue && queue[..|queue|] == queue && queue[..0] == [] && queue[|queue|..] == [];
    RoutesOfNone(graph, end, maxHops);
    var all := RoutesOf(graph, end, maxHops, queue);
    assert [] + all == all == all + [];
  }

  /** A path that has arrived is the next one due. */
  lemma ArrivedIsDue(graph: Graph, end: Token, maxHops: nat, queue: seq<Path>, k: nat, n: nat)
    requires Level(queue, k, n) && k > 0 && queue[0] != [] && queue[0][|queue[0]| - 1] == end
    ensures Level(queue[1..], k - 1, n)
    ensures Due(graph, end, maxHops, queue, k) == [queue[0]] + Due(graph, end, maxHops, queue[1..], k - 1)
  {
    hide RoutesOf, SortByLength;
    var path, same, longer := queue[0], queue[1..][..k - 1], queue[k..];
    assert Level(queue[1..], k - 1, n);
    LevelLengths(queue, k, n);
    LevelLengths(queue[1..], k - 1, n);
    hide Level;
    assert queue[1..][k - 1..] == longer && queue[..k] == [path] + same;
    RoutesOfConcat(graph, end, maxHops, [path], same);
    RoutesOfOne(graph, end, maxHops, path);
    assert RoutesFrom(graph, end, maxHops, path) == [path];
    RoutesNoShorter(graph, end, maxHops, longer, n + 1);
    RoutesNoShorter(graph, end, maxHops, same, n);
    var before, rest := RoutesOf(graph, end, maxHops, longer), RoutesOf(graph, end, maxHops, same);
    ShortestComesFirst(before, path, rest);
    assert before + ([path] + rest) == before + [path] + rest;
  }

  lemma RoutesOfOne(graph: Graph, end: Token, maxHops: nat, path: Path)
    requires path != []
    ensures RoutesOf(graph, end, maxHops, [path]) == RoutesFrom(graph, end, maxHops, path)
  {
    RoutesOfSnoc(graph, end, maxHops, [], path);
    assert [] + [path] == [path];
  }

  lemma LevelGoesOn(queue: seq<Path>, k: nat, n: nat, next: seq<Path>)
    requires Level(queue, k, n) && k > 0 && AllLong(next, n + 1)
    ensures Level(queue[1..] + next, k - 1, n)
    ensures (queue[1..] + next)[k - 1..] == queue[k..] + next && (queue[1..] + next)[..k - 1] == queue[1..][..k - 1]
    ensures queue[..k] == [queue[0]] + queue[1..][..k - 1]
  {
    forall i | k - 1 <= i < |queue[1..] + next|
      ensures |(queue[1..] + next)[i]| == n + 1
    {
      if i >= |queue| - 1 {
        assert next[i - (|queue| - 1)] in next;
      }
    }
  }

  /** Replacing a path by its extensions, or by nothing when it is too long, leaves
      what is due as it was. */
  lemma ExtendedIsDue(graph: Graph, end: Token, maxHops: nat, queue: seq<Path>, k: nat, n: nat, next: seq<Path>)
    requires Level(queue, k, n) && k > 0 && queue[0] != [] && queue[0][|queue[0]| - 1] != end
    requires next == if |queue[0]| > maxHops then [] else Steps(queue[0], EdgesOf(graph, queue[0][|queue[0]| - 1]))
    requires AllLong(next, n + 1)
    ensures Level(queue[1..] + next, k - 1, n)
    ensures Due(graph, end, maxHops, queue[1..] + next, k - 1) == Due(graph, end, maxHops, queue, k)
  {
    var path, same, longer := queue[0], queue[1..][..k - 1], queue[k..];
    NextRoutes(graph, end, maxHops, path, next);
    LevelGoesOn(queue, k, n, next);
    hide *;
    SameRoutes(graph, end, maxHops, longer, path, same, next);
    DueIs(graph, end, maxHops, queue, k, longer, [path] + same);
    DueIs(graph, end, maxHops, queue[1..] + next, k - 1, longer + next, same);
  }

  lemma SameRoutes(graph: Graph, end: Token, maxHops: nat, longer: seq<Path>, path: Path, same: seq<Path>, next: seq<Path>)
    requires path != [] && RoutesOf(graph, end, maxHops, next) == RoutesFrom(graph, end, maxHops, path)
    ensures RoutesOf(graph, end, maxHops, longer) + RoutesOf(graph, end, maxHops, [path] + same) ==
            RoutesOf(graph, end, maxHops, longer + next) + RoutesOf(graph, end, maxHops, same)
  {
    hide *;
    RoutesOfConcat(graph, end, maxHops, [path], same);
    RoutesOfConcat(graph, end, maxHops, longer, next);
    RoutesOfOne(graph, end, maxHops, path);
    var a, b, c := RoutesOf(graph, end, maxHops, longer), RoutesFrom(graph, end, maxHops, path), RoutesOf(graph, end, maxHops, same);
    assert a + (b + c) == a + b + c;
  }

  lemma NextRoutes(graph: Graph, end: Token, maxHops: nat, path: Path, next: seq<Path>)
    requires path != [] && path[|path| - 1] != end
    requires next == if |path| > maxHops then [] else Steps(path, EdgesOf(graph, path[|path| - 1]))
    ensures RoutesOf(graph, end, maxHops, next) == RoutesFrom(graph, end, maxHops, path)
  {
    hide Steps;
    if |path| <= maxHops {
      StepsLeadOn(graph, end, maxHops, path, EdgesOf(graph, path[|path| - 1]));
    }
  }

  lemma DueIs(graph: Graph, end: Token, maxHops: nat, queue: seq<Path>, k: nat, back: seq<Path>, front: seq<Path>)
    requires k <= |queue| && queue[k..] == back && queue[..k] == front
    ensures Due(graph, end, maxHops, queue, k) ==
            SortByLength(RoutesOf(graph, end, maxHops, back) + RoutesOf(graph, end, maxHops, front))
  {}

  lemma RoutesOfNone(graph: Graph, end: Token, maxHops: nat)
    ensures RoutesOf(graph, end, maxHops, []) == []
  {}

  /** What taking the head off the queue leaves. */
  lemma PopFront(graph: Graph, start: Token, end: Token, maxHops: nat, queue: seq<Path>, b: nat)
    requires queue != [] && AllOnTheWay(graph, start, end, maxHops, queue) && b > 0
    ensures var path, rest, height := queue[0], queue[1..], Height(graph, start);
            && path != [] && |path| < height
            && OnTheWay(graph, start, end, maxHops, path)
            && AllOnTheWay(graph, start, end, maxHops, rest)
            && Pending(rest, b, height) < Pending(queue, b, height)
            && Pending(queue, b, height) == Pow(b, height - |path|) + Pending(rest, b, height)
  {
    var path, rest := queue[0], queue[1..];
    assert queue == [path] + rest && path in queue;
    assert forall p | p in rest :: p in queue;
    OnTheWayFits(graph, start, end, maxHops, path);
  }

  lemma OnTheWayFits(graph: Graph, start: Token, end: Token, maxHops: nat, path: Path)
    requires OnTheWay(graph, start, end, maxHops, path)
    ensures path != [] && Distinct(path) && |path| <= maxHops + 1
    ensures |path| <= |Tokens(graph, start)|
  {
    WalkTokens(graph, start, path);
    DistinctFits(path, Tokens(graph, start));
  }

  ghost predicate DegreeBelow(graph: Graph, b: nat) {
    b > 0 && forall t | t in graph :: |graph[t]| < b
  }

  /** What a round of the queue loop keeps and reports. */
  ghost predicate RoundHolds(graph: Graph, start: Token, end: Token, maxHops: nat, n: nat, b: nat, queue0: seq<Path>, k0: nat,
                             queue: seq<Path>, k: nat, found: Option<Path>)
    requires k0 <= |queue0|
  {
    && AllOnTheWay(graph, start, end, maxHops, queue) && k <= |queue| && Level(queue, k, n)
    && Due(graph, end, maxHops, queue0, k0) ==
         (if found.Some? then [found.value] else []) + Due(graph, end, maxHops, queue, k)
    && Pending(queue, b, Height(graph, start)) < Pending(queue0, b, Height(graph, start))
  }

  lemma RoundArrives(graph: Graph, start: Token, end: Token, maxHops: nat, queue: seq<Path>, k: nat, n: nat, b: nat)
    requires queue != [] && AllOnTheWay(graph, start, end, maxHops, queue) && 0 < k <= |queue| && Level(queue, k, n)
    requires b > 0 && queue[0] != [] && queue[0][|queue[0]| - 1] == end
    ensures RoundHolds(graph, start, end, maxHops, n, b, queue, k, queue[1..], k - 1, Some(queue[0]))
  {
    hide AllOnTheWay, Level, Due, Pending, Height;
    PopFront(graph, start, end, maxHops, queue, b);
    ArrivedIsDue(graph, end, maxHops, queue, k, n);
  }

  lemma RoundCuts(graph: Graph, start: Token, end: Token, maxHops: nat, queue: seq<Path>, k: nat, n: nat, b: nat)
    requires queue != [] && AllOnTheWay(graph, start, end, maxHops, queue) && 0 < k <= |queue| && Level(queue, k, n)
    requires b > 0 && queue[0] != [] && queue[0][|queue[0]| - 1] != end && |queue[0]| > maxHops
    ensures RoundHolds(graph, start, end, maxHops, n, b, queue, k, queue[1..], k - 1, None)
  {
    hide AllOnTheWay, Level, Due, Pending, Height;
    PopFront(graph, start, end, maxHops, queue, b);
    ExtendedIsDue(graph, end, maxHops, queue, k, n, []);
    assert queue[1..] + [] == queue[1..];
    var due := Due(graph, end, maxHops, queue[1..], k - 1);
    assert [] + due == due;
  }

  lemma RoundExtends(graph: Graph, start: Token, end: Token, maxHops: nat, queue: seq<Path>, k: nat, n: nat, b: nat, next: seq<Path>)
    requires queue != [] && AllOnTheWay(graph, start, end, maxHops, queue) && 0 < k <= |queue| && Level(queue, k, n)
    requires DegreeBelow(graph, b) && queue[0] != [] && queue[0][|queue[0]| - 1] != end && |queue[0]| <= maxHops
    requires next == Steps(queue[0], EdgesOf(graph, queue[0][|queue[0]| - 1]))
    requires |next| <= |EdgesOf(graph, queue[0][|queue[0]| - 1])| && AllOnTheWay(graph, start, end, maxHops, next)
    requires AllLong(next, |queue[0]| + 1)
    ensures RoundHolds(graph, start, end, maxHops, n, b, queue, k, queue[1..] + next, k - 1, None)
  {
    hide *;
    HeadFacts(graph, queue, k, n, b, next);
    var rest, height := queue[1..], Height(graph, start);
    NextPending(graph, start, queue[0], next, b);
    PopFront(graph, start, end, maxHops, queue, b);
    ExtendedIsDue(graph, end, maxHops, queue, k, n, next);
    AllOnTheWayConcat(graph, start, end, maxHops, rest, next);
    PendingConcat(rest, next, b, height);
    RoundIs(graph, start, end, maxHops, n, b, queue, k, rest + next, k - 1);
  }

  lemma HeadFacts(graph: Graph, queue: seq<Path>, k: nat, n: nat, b: nat, next: seq<Path>)
    requires queue != [] && queue[0] != [] && Level(queue, k, n) && k > 0 && DegreeBelow(graph, b)
    requires |next| <= |EdgesOf(graph, queue[0][|queue[0]| - 1])|
    ensures |queue[0]| == n && |next| < b && b > 0
  {}

  lemma RoundIs(graph: Graph, start: Token, end: Token, maxHops: nat, n: nat, b: nat, queue0: seq<Path>, k0: nat,
                queue: seq<Path>, k: nat)
    requires k0 <= |queue0| && k <= |queue| && AllOnTheWay(graph, start, end, maxHops, queue) && Level(queue, k, n)
    requires Due(graph, end, maxHops, queue, k) == Due(graph, end, maxHops, queue0, k0)
    requires Pending(queue, b, Height(graph, start)) < Pending(queue0, b, Height(graph, start))
    ensures RoundHolds(graph, start, end, maxHops, n, b, queue0, k0, queue, k, None)
  {
    hide AllOnTheWay, Level, Due, Pending, Height;
    var due := Due(graph, end, maxHops, queue, k);
    assert [] + due == due;
  }

  lemma NextPending(graph: Graph, start: Token, path: Path, next: seq<Path>, b: nat)
    requires |next| < b && AllLong(next, |path| + 1)
    ensures |path| < Height(graph, start) ==>
              Pending(next, b, Height(graph, start)) < Pow(b, Height(graph, start) - |path|)
  {
    hide Pending, Pow, Height;
    if |path| < Height(graph, start) {
      PendingExtensions(path, next, b, Height(graph, start));
    }
  }

  /** One round of the queue loop: reports the head if it has arrived, else
      replaces it by its extensions. */
  method BfsRound(graph: Graph, start: Token, end: Token, maxHops: nat, queue0: seq<Path>, ghost k0: nat, ghost n: nat,
                  ghost b: nat)
    returns (queue: seq<Path>, found: Option<Path>, ghost k: nat)
    requires queue0 != [] && AllOnTheWay(graph, start, end, maxHops, queue0) && 0 < k0 <= |queue0| && Level(queue0, k0, n)
    requires DegreeBelow(graph, b)
    ensures RoundHolds(graph, start, end, maxHops, n, b, queue0, k0, queue, k, found)
  {
    var path := queue0[0];
    PopFront(graph, start, end, maxHops, queue0, b);
    hide *;
    queue, found, k := queue0[1..], None, k0 - 1;
    if path[|path| - 1] == end {
      RoundArrives(graph, start, end, maxHops, queue0, k0, n, b);
      found := Some(path);
    } else if |path| > maxHops {
      RoundCuts(graph, start, end, maxHops, queue0, k0, n, b);
    } else {
      var next := Extensions(graph, start, end, maxHops, path);
      RoundExtends(graph, start, end, maxHops, queue0, k0, n, b, next);
      queue := queue + next;
    }
  }

  lemma AllOnTheWayConcat(graph: Graph, start: Token, end: Token, maxHops: nat, p: seq<Path>, q: seq<Path>)
    requires AllOnTheWay(graph, start, end, maxHops, p) && AllOnTheWay(graph, start, end, maxHops, q)
    ensures AllOnTheWay(graph, start, end, maxHops, p + q)
  {
  }

  /** `bfs_paths`: the three shortest routes, or all; of one length the first in edge order. */
  method BfsPaths(graph: Graph, start: Token, end: Token, maxHops: nat) returns (paths: seq<Path>)
    ensures paths == Take(SortByLength(RoutesFrom(graph, end, maxHops, [start])), 3)
  {
    hide *;
    var queue: seq<Path> := [[start]];
    paths := [];
    ghost var d := DegreeBound(graph);
    ghost var all := SortByLength(RoutesFrom(graph, end, maxHops, [start]));
    ghost var k: nat, n: nat := 1, 1;
    BfsStarts(graph, start, end, maxHops, d);
    FirstDue(graph, start, end, maxHops);
    assert [] + all == all;
    while queue != []
      invariant AllOnTheWay(graph, start, end, maxHops, queue) && Level(queue, k, n)
      invariant k <= |queue| && |paths| < 3 && paths + Due(graph, end, maxHops, queue, k) == all
      decreases Pending(queue, d + 1, Height(graph, start))
    {
      if k == 0 {
        NextLevel(graph, end, maxHops, queue, n);
        k, n := |queue|, n + 1;
      }
      var found: Option<Path>;
      ghost var queue0, k0, paths0 := queue, k, paths;
      queue, found, k := BfsRound(graph, start, end, maxHops, queue, k, n, d + 1);
      RoundMeans(graph, start, end, maxHops, n, d + 1, queue0, k0, queue, k, found, paths0, all);
      if found.Some? {
        paths := paths + [found.value];
        if |paths| >= 3 {
          break;
        }
      }
    }
    TakeAll(graph, end, maxHops, queue, k, paths, all);
  }

  lemma RoundMeans(graph: Graph, start: Token, end: Token, maxHops: nat, n: nat, b: nat, queue0: seq<Path>, k0: nat,
                   queue: seq<Path>, k: nat, found: Option<Path>, paths: seq<Path>, all: seq<Path>)
    requires k0 <= |queue0| && RoundHolds(graph, start, end, maxHops, n, b, queue0, k0, queue, k, found)
    requires paths + Due(graph, end, maxHops, queue0, k0) == all
    ensures AllOnTheWay(graph, start, end, maxHops, queue) && k <= |queue| && Level(queue, k, n)
    ensures (if found.Some? then paths + [found.value] else paths) + Due(graph, end, maxHops, queue, k) == all
    ensures Pending(queue, b, Height(graph, start)) < Pending(queue0, b, Height(graph, start))
  {
    hide AllOnTheWay, Level, Due, Pending, Height;
    var due := Due(graph, end, maxHops, queue, k);
    if found.Some? {
      assert paths + ([found.value] + due) == paths + [found.value] + due;
    } else {
      assert [] + due == due;
    }
  }

  lemma TakeAll(graph: Graph, end: Token, maxHops: nat, queue: seq<Path>, k: nat, paths: seq<Path>, all: seq<Path>)
    requires k <= |queue| && paths + Due(graph, end, maxHops, queue, k) == all
    requires |paths| == 3 || (|paths| < 3 && queue == [])
    ensures paths == Take(all, 3)
  {
    if queue == [] {
      assert queue[k..] == [] && queue[..k] == [];
      assert Due(graph, end, maxHops, queue, k) == [];
    }
    assert all[..|paths|] == paths;
  }

  lemma BfsStarts(graph: Graph, start: Token, end: Token, maxHops: nat, d: nat)
    requires forall t | t in graph :: |graph[t]| <= d
    ensures DegreeBelow(graph, d + 1)
    ensures AllOnTheWay(graph, start, end, maxHops, [[start]]) && Level([[start]], 1, 1)
  {
    assert [start][..0] == [];
  }

  lemma FirstDue(graph: Graph, start: Token, end: Token, maxHops: nat)
    ensures Due(graph, end, maxHops, [[start]], 1) == SortByLength(RoutesFrom(graph, end, maxHops, [start]))
  {
    hide Due, RoutesOf, RoutesFrom, SortByLength;
    DueIs(graph, end, maxHops, [[start]], 1, [], [[start]]);
    RoutesOfNone(graph, end, maxHops);
    RoutesOfOne(graph, end, maxHops, [start]);
    assert [] + RoutesFrom(graph, end, maxHops, [start]) == RoutesFrom(graph, end, maxHops, [start]);
  }

  // ----- depth first -----

  /** The tokens of the current path before its last one. */
  ghost predicate VisitedIs(path: Path, visited: set<Token>)
    requires path != []
  {
    var before := path[..|path| - 1];
    forall x :: x in visited <==> x in before
  }

  /** `more` added to `before` as far as the limit allows. */
  function Limited(before: seq<Path>, more: seq<Path>, limit: nat): seq<Path> {
    if |before| >= limit then before else Take(before + more, limit)
  }

  lemma LimitedTwice(before: seq<Path>, a: seq<Path>, b: seq<Path>, limit: nat)
    ensures Limited(Limited(before, a, limit), b, limit) == Limited(before, a + b, limit)
  {
    assert before + a + b == before + (a + b);
    assert (before + (a + b))[..|before + a|] == before + a;
  }

  lemma LimitedNone(before: seq<Path>, limit: nat)
    ensures Limited(before, [], limit) == before
  {
    assert before + [] == before;
  }

  /** `dfs_helper`: adds the routes that begin with the current path, in edge order, up
      to the limit; path and visited set are restored. */
  method DfsHelper(graph: Graph, start: Token, end: Token, path0: Path, visited0: set<Token>, allPaths0: seq<Path>,
                   maxHops: nat, maxPaths: nat)
    returns (path: Path, visited: set<Token>, allPaths: seq<Path>)
    requires path0 != [] && OnTheWay(graph, start, end, maxHops, path0) && VisitedIs(path0, visited0)
    ensures path == path0 && visited == visited0
    ensures allPaths == Limited(allPaths0, RoutesFrom(graph, end, maxHops, path0), maxPaths)
    decreases |Tokens(graph, start)| + 1 - |path0|
  {
    hide *;
    path, visited, allPaths := path0, visited0, allPaths0;
    OnTheWayFits(graph, start, end, maxHops, path0);
    var current := path[|path| - 1];
    LimitedEnds(graph, end, maxHops, path, allPaths, maxPaths);
    if |allPaths| >= maxPaths {
      return;
    }
    if current == end {
      allPaths := allPaths + [path];
      return;
    }
    if |path| > maxHops {
      return;
    }
    visited := visited + {current};
    VisitedPath(path, visited0, current);
    var edges := EdgesOf(graph, current);
    AlongNothing(graph, end, maxHops, path, edges, allPaths, maxPaths);
    for k := 0 to |edges|
      invariant path == path0 && visited == visited0 + {current}
      invariant allPaths == Limited(allPaths0, RoutesAlong(graph, end, maxHops, path, edges[..k]), maxPaths)
    {
      var edge := edges[k];
      AlongSnoc(graph, end, maxHops, path, edges, k, allPaths0, maxPaths);
      if edge.to !in visited {
        OnTheWaySnoc(graph, start, end, maxHops, path, edge);
        NextVisited(path, edge.to, visited);
        path := path + [edge.to];
        path, visited, allPaths := DfsHelper(graph, start, end, path, visited, allPaths, maxHops, maxPaths);
        path := path[..|path| - 1];
      }
    }
    assert edges[..|edges|] == edges;
    AlongIsFrom(graph, end, maxHops, path);
    visited := visited - {current};
  }

  /** The three ways to return at once. */
  lemma LimitedEnds(graph: Graph, end: Token, maxHops: nat, path: Path, before: seq<Path>, limit: nat)
    requires path != []
    ensures var r := Limited(before, RoutesFrom(graph, end, maxHops, path), limit);
            if |before| >= limit then r == before
            else if path[|path| - 1] == end then r == before + [path]
            else |path| > maxHops ==> r == before
  {
    LimitedNone(before, limit);
  }

  lemma AlongNothing(graph: Graph, end: Token, maxHops: nat, path: Path, edges: seq<Edge>, before: seq<Path>, limit: nat)
    requires path != [] && |path| <= maxHops
    ensures Limited(before, RoutesAlong(graph, end, maxHops, path, edges[..0]), limit) == before
  {
    LimitedNone(before, limit);
  }

  lemma AlongSnoc(graph: Graph, end: Token, maxHops: nat, path: Path, edges: seq<Edge>, k: nat, before: seq<Path>, limit: nat)
    requires path != [] && |path| <= maxHops && k < |edges|
    ensures var r := Limited(before, RoutesAlong(graph, end, maxHops, path, edges[..k]), limit);
            Limited(before, RoutesAlong(graph, end, maxHops, path, edges[..k + 1]), limit) ==
              if edges[k].to in path then r else Limited(r, RoutesFrom(graph, end, maxHops, path + [edges[k].to]), limit)
  {
    hide Limited, RoutesFrom;
    assert edges[..k + 1][..k] == edges[..k];
    var along := RoutesAlong(graph, end, maxHops, path, edges[..k]);
    assert along + [] == along;
    if edges[k].to !in path {
      LimitedTwice(before, along, RoutesFrom(graph, end, maxHops, path + [edges[k].to]), limit);
    }
  }

  lemma AlongIsFrom(graph: Graph, end: Token, maxHops: nat, path: Path)
    requires path != [] && |path| <= maxHops && path[|path| - 1] != end
    ensures RoutesFrom(graph, end, maxHops, path) == RoutesAlong(graph, end, maxHops, path, EdgesOf(graph, path[|path| - 1]))
  {}

  lemma VisitedPath(path: Path, visited0: set<Token>, current: Token)
    requires path != [] && VisitedIs(path, visited0) && current == path[|path| - 1] && Distinct(path)
    ensures forall x :: x in visited0 + {current} <==> x in path
    ensures visited0 + {current} - {current} == visited0
  {
    var before := path[..|path| - 1];
    assert path == before + [current];
    assert forall i | 0 <= i < |before| :: before[i] == path[i] != current;
  }

  lemma NextVisited(path: Path, to: Token, visited: set<Token>)
    requires forall x :: x in visited <==> x in path
    ensures VisitedIs(path + [to], visited)
  {
    assert (path + [to])[..|path|] == path;
  }

  /** `dfs_paths`: the first routes in edge order, as many as the limit allows. */
  method DfsPaths(graph: Graph, start: Token, end: Token, maxHops: nat, maxPaths: nat) returns (allPaths: seq<Path>)
    ensures allPaths == Take(RoutesFrom(graph, end, maxHops, [start]), maxPaths)
  {
    assert [start][..0] == [];
    var path, visited, found := DfsHelper(graph, start, end, [start], {}, [], maxHops, maxPaths);
    assert [] + RoutesFrom(graph, end, maxHops, [start]) == RoutesFrom(graph, end, maxHops, [start]);
    return found;
  }

  // ----- deduplication -----

  ghost predicate HashesDiffer(paths: seq<Path>, hashPath: Path -> nat) {
    forall i, j | 0 <= i < j < |paths| :: hashPath(paths[i]) != hashPath(paths[j])
  }

  predicate HashIn(paths: seq<Path>, hashPath: Path -> nat, hash: nat) {
    exists p | p in paths :: hashPath(p) == hash
  }

  /** Each path that no earlier one shares a hash with. */
  function Firsts(paths: seq<Path>, hashPath: Path -> nat): seq<Path> {
    if paths == [] then []
    else
      var front, last := paths[..|paths| - 1], paths[|paths| - 1];
      Firsts(front, hashPath) + if HashIn(front, hashPath, hashPath(last)) then [] else [last]
  }

  lemma HashInSnoc(front: seq<Path>, last: Path, hashPath: Path -> nat, hash: nat)
    ensures HashIn(front + [last], hashPath, hash) <==> HashIn(front, hashPath, hash) || hashPath(last) == hash
  {
    if p :| p in front && hashPath(p) == hash {
      assert p in front + [last];
    }
    assert last in front + [last];
  }

  lemma {:induction false} FirstsHold(paths: seq<Path>, hashPath: Path -> nat)
    ensures forall p | p in Firsts(paths, hashPath) :: p in paths
    ensures forall hash :: HashIn(Firsts(paths, hashPath), hashPath, hash) <==> HashIn(paths, hashPath, hash)
    ensures HashesDiffer(Firsts(paths, hashPath), hashPath)
  {
    hide HashIn;
    if paths != [] {
      var front, last := paths[..|paths| - 1], paths[|paths| - 1];
      var kept := Firsts(front, hashPath);
      FirstsHold(front, hashPath);
      assert paths == front + [last];
      forall hash
        ensures HashIn(Firsts(paths, hashPath), hashPath, hash) <==> HashIn(paths, hashPath, hash)
      {
        HashInSnoc(front, last, hashPath, hash);
        HashInSnoc(kept, last, hashPath, hash);
        assert kept + [] == kept;
      }
      if !HashIn(front, hashPath, hashPath(last)) {
        forall i | 0 <= i < |kept|
          ensures hashPath(kept[i]) != hashPath(last)
        {
          InHashes(kept, kept[i], hashPath);
        }
      }
    }
  }

  lemma InHashes(paths: seq<Path>, p: Path, hashPath: Path -> nat)
    requires p in paths
    ensures HashIn(paths, hashPath, hashPath(p))
  {}

  lemma {:induction false} InsertKeepsHashes(p: Path, sorted: seq<Path>, hashPath: Path -> nat)
    requires HashesDiffer(sorted, hashPath) && forall q | q in sorted :: hashPath(q) != hashPath(p)
    ensures HashesDiffer(InsertByLength(p, sorted), hashPath)
  {
    if sorted == [] || |p| <= |sorted[0]| {
      assert forall i | 0 <= i < |sorted| :: sorted[i] in sorted;
    } else {
      var rest := InsertByLength(p, sorted[1..]);
      InsertKeepsHashes(p, sorted[1..], hashPath);
      InsertByLengthElements(p, sorted[1..]);
      forall j | 0 <= j < |rest|
        ensures hashPath(sorted[0]) != hashPath(rest[j])
      {
        assert rest[j] in multiset(rest);
        if rest[j] != p {
          var k :| 0 <= k < |sorted[1..]| && sorted[1..][k] == rest[j];
          assert sorted[k + 1] == rest[j];
        }
      }
    }
  }

  lemma SortedElements(paths: seq<Path>)
    ensures forall q :: q in SortByLength(paths) <==> q in paths
    ensures |SortByLength(paths)| == |paths| && ShortestFirst(SortByLength(paths))
  {
    SortByLengthSorts(paths);
    assert |SortByLength(paths)| == |multiset(SortByLength(paths))|;
    forall q
      ensures q in SortByLength(paths) <==> q in paths
    {
      assert q in SortByLength(paths) <==> q in multiset(SortByLength(paths));
      assert q in paths <==> q in multiset(paths);
    }
  }

  lemma {:induction false} SortKeepsHashes(paths: seq<Path>, hashPath: Path -> nat)
    requires HashesDiffer(paths, hashPath)
    ensures HashesDiffer(SortByLength(paths), hashPath)
  {
    if paths != [] {
      SortKeepsHashes(paths[1..], hashPath);
      SortedElements(paths[1..]);
      forall q | q in paths[1..]
        ensures hashPath(q) != hashPath(paths[0])
      {
        var m :| 0 <= m < |paths[1..]| && paths[1..][m] == q;
        assert paths[m + 1] == q;
      }
      InsertKeepsHashes(paths[0], SortByLength(paths[1..]), hashPath);
    }
  }

  /** `q` lists one path of `paths` per hash value, shortest first. */
  ghost predicate Deduplicated(paths: seq<Path>, q: seq<Path>, hashPath: Path -> nat) {
    && ShortestFirst(q) && HashesDiffer(q, hashPath)
    && (forall p | p in q :: p in paths)
    && (forall p | p in paths :: HashIn(q, hashPath, hashPath(p)))
  }

  lemma FirstsDeduplicate(paths: seq<Path>, hashPath: Path -> nat)
    ensures Deduplicated(paths, SortByLength(Firsts(paths, hashPath)), hashPath)
    ensures paths == [] <==> Firsts(paths, hashPath) == []
  {
    hide SortByLength, HashesDiffer, HashIn, ShortestFirst, Firsts;
    var firsts := Firsts(paths, hashPath);
    FirstsHold(paths, hashPath);
    SortedElements(firsts);
    SortKeepsHashes(firsts, hashPath);
    forall p | p in paths
      ensures HashIn(SortByLength(firsts), hashPath, hashPath(p))
    {
      InHashes(paths, p, hashPath);
      SameHashes(firsts, SortByLength(firsts), hashPath, hashPath(p));
    }
    if paths == [] {
      assert paths[..0] == paths;
      FirstsOfNone(paths, hashPath);
    } else {
      InHashes(paths, paths[0], hashPath);
      SomeHash(firsts, hashPath, hashPath(paths[0]));
    }
  }

  lemma SameHashes(a: seq<Path>, b: seq<Path>, hashPath: Path -> nat, hash: nat)
    requires HashIn(a, hashPath, hash) && forall q :: q in b <==> q in a
    ensures HashIn(b, hashPath, hash)
  {}

  lemma SomeHash(paths: seq<Path>, hashPath: Path -> nat, hash: nat)
    requires HashIn(paths, hashPath, hash)
    ensures paths != []
  {}

  /** `deduplicate_paths`: the first path of each hash, sorted stably by length. */
  method DeduplicatePaths(paths: seq<Path>, hashPath: Path -> nat) returns (r: Result<seq<Path>, RoutingError>)
    ensures r.Err? <==> paths == []
    ensures r.Ok? ==> r.value == SortByLength(Firsts(paths, hashPath)) && Deduplicated(paths, r.value, hashPath)
  {
    hide *;
    var uniquePaths: set<nat> := {};
    var result: seq<Path> := [];
    FirstsDeduplicate(paths, hashPath);
    FirstsOfNone(paths, hashPath);
    for i := 0 to |paths|
      invariant forall hash :: hash in uniquePaths <==> HashIn(paths[..i], hashPath, hash)
      invariant result == Firsts(paths[..i], hashPath)
    {
      FirstsSnoc(paths, i, hashPath);
      var hash := hashPath(paths[i]);
      if hash !in uniquePaths {
        uniquePaths := uniquePaths + {hash};
        result := result + [paths[i]];
      }
    }
    assert paths[..|paths|] == paths;
    if result == [] {
      return Err(Dijkstra.NoRouteFound);
    }
    return Ok(SortByLength(result));
  }

  lemma FirstsOfNone(paths: seq<Path>, hashPath: Path -> nat)
    ensures Firsts(paths[..0], hashPath) == [] && forall hash :: !HashIn(paths[..0], hashPath, hash)
  {}

  /** A path is kept exactly where its hash comes up first. */
  lemma FirstsSnoc(paths: seq<Path>, i: nat, hashPath: Path -> nat)
    requires i < |paths|
    ensures Firsts(paths[..i + 1], hashPath) ==
            Firsts(paths[..i], hashPath) + if HashIn(paths[..i], hashPath, hashPath(paths[i])) then [] else [paths[i]]
    ensures forall hash :: HashIn(paths[..i + 1], hashPath, hash) <==> HashIn(paths[..i], hashPath, hash) || hashPath(paths[i]) == hash
  {
    hide HashIn;
    assert paths[..i + 1] == paths[..i] + [paths[i]];
    forall hash
      ensures HashIn(paths[..i + 1], hashPath, hash) <==> HashIn(paths[..i], hashPath, hash) || hashPath(paths[i]) == hash
    {
      HashInSnoc(paths[..i], paths[i], hashPath, hash);
    }
  }
}
