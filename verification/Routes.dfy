/**
 * All routes of a graph in edge order, as the unlimited search would list them: the
 * reference for the limited searches of dex/smart_routing/pathfinder.rs.
 */
module Routes {
  import opened Common
  import opened PoolGraph

  /** The routes that continue `path`, once for every choice of edges, the first
      edges first. */
  function RoutesFrom(graph: Graph, end: Token, maxHops: nat, path: Path): seq<Path>
    requires path != []
    decreases Room(maxHops, path), 1, 0
  {
    if path[|path| - 1] == end then [path]
    else if |path| > maxHops then []
    else RoutesAlong(graph, end, maxHops, path, EdgesOf(graph, path[|path| - 1]))
  }

  function RoutesAlong(graph: Graph, end: Token, maxHops: nat, path: Path, edges: seq<Edge>): seq<Path>
    requires path != [] && |path| <= maxHops
    decreases Room(maxHops, path), 0, |edges|
  {
    if edges == [] then []
    else
      RoutesAlong(graph, end, maxHops, path, edges[..|edges| - 1]) +
      (var to := edges[|edges| - 1].to;
       if to in path then [] else RoutesFrom(graph, end, maxHops, path + [to]))
  }

  function Room(maxHops: nat, path: Path): nat {
    if |path| <= maxHops + 1 then maxHops + 1 - |path| else 0
  }

  /** The first `n`. */
  function Take(paths: seq<Path>, n: nat): seq<Path> {
    if |paths| <= n then paths else paths[..n]
  }

  /** Beginning with a route or a part of one. */
  ghost predicate OnTheWay(graph: Graph, start: Token, end: Token, maxHops: nat, path: Path) {
    && IsWalk(graph, path) && path[0] == start && Distinct(path) && |path| <= maxHops + 1
    && end !in path[..|path| - 1]
  }

  lemma OnTheWaySnoc(graph: Graph, start: Token, end: Token, maxHops: nat, path: Path, e: Edge)
    requires OnTheWay(graph, start, end, maxHops, path) && path[|path| - 1] != end && |path| <= maxHops
    requires e in EdgesOf(graph, path[|path| - 1]) && e.to !in path
    ensures OnTheWay(graph, start, end, maxHops, path + [e.to])
  {
    var last := path[|path| - 1];
    assert HasEdge(graph, last, e.to);
    var longer := path + [e.to];
    assert longer[..|longer| - 1] == path == path[..|path| - 1] + [last];
    forall i | 0 <= i < |longer| - 1
      ensures HasEdge(graph, longer[i], longer[i + 1])
    {
      if i < |path| - 1 {
        assert HasEdge(graph, path[i], path[i + 1]);
      }
    }
  }

  // ----- what they are -----

  lemma {:induction false} RoutesAre(graph: Graph, start: Token, end: Token, maxHops: nat, path: Path, r: Path)
    requires OnTheWay(graph, start, end, maxHops, path)
    ensures r in RoutesFrom(graph, end, maxHops, path) <==> IsRoute(graph, start, end, maxHops, r) && path <= r
    decreases Room(maxHops, path), 1, 0
  {
    if path[|path| - 1] == end {
      if IsRoute(graph, start, end, maxHops, r) && path <= r {
        assert r[|path| - 1] == path[|path| - 1] == end == r[|r| - 1];
        assert |r| == |path| && r == path;
      }
    } else if |path| > maxHops {
      if path <= r && |r| <= |path| {
        assert r == path;
      }
    } else {
      var edges := EdgesOf(graph, path[|path| - 1]);
      assert edges[..|edges|] == edges;
      RoutesAlongAre(graph, start, end, maxHops, path, |edges|, r);
      if Continues(graph, path, edges, r) {
        var e :| e in edges && e.to !in path && path + [e.to] <= r;
        assert path == (path + [e.to])[..|path|];
      }
      if IsRoute(graph, start, end, maxHops, r) && path <= r {
        var n := |path|;
        assert path == r[..n] && n < |r|;
        assert HasEdge(graph, r[n - 1], r[n - 1 + 1]);
        var e :| e in graph[r[n - 1]] && e.to == r[n];
        assert path + [e.to] == r[..n + 1] && e.to !in path;
        assert Continues(graph, path, edges, r);
      }
    }
  }

  ghost predicate Continues(graph: Graph, path: Path, edges: seq<Edge>, r: Path) {
    exists e :: e in edges && e.to !in path && path + [e.to] <= r
  }

  lemma {:induction false} RoutesAlongAre(graph: Graph, start: Token, end: Token, maxHops: nat, path: Path, n: nat, r: Path)
    requires path != [] && OnTheWay(graph, start, end, maxHops, path) && path[|path| - 1] != end && |path| <= maxHops
    requires n <= |EdgesOf(graph, path[|path| - 1])|
    ensures var edges := EdgesOf(graph, path[|path| - 1])[..n];
            r in RoutesAlong(graph, end, maxHops, path, edges) <==>
              IsRoute(graph, start, end, maxHops, r) && Continues(graph, path, edges, r)
    decreases Room(maxHops, path), 0, n
  {
    hide IsRoute, OnTheWay;
    var all := EdgesOf(graph, path[|path| - 1]);
    if n > 0 {
      var e, edges := all[n - 1], all[..n];
      assert edges[..n - 1] == all[..n - 1] && edges == all[..n - 1] + [e];
      RoutesAlongAre(graph, start, end, maxHops, path, n - 1, r);
      if e.to !in path {
        OnTheWaySnoc(graph, start, end, maxHops, path, e);
        RoutesAre(graph, start, end, maxHops, path + [e.to], r);
      }
    }
  }

  /** From the start alone they are all routes there are. */
  lemma AllRoutes(graph: Graph, start: Token, end: Token, maxHops: nat, r: Path)
    ensures r in RoutesFrom(graph, end, maxHops, [start]) <==> IsRoute(graph, start, end, maxHops, r)
  {
    assert [start][..0] == [];
    RoutesAre(graph, start, end, maxHops, [start], r);
  }

  // ----- each once, if no token has two edges to the same one -----

  ghost predicate NoneTwice(paths: seq<Path>) {
    forall i, j | 0 <= i < j < |paths| :: paths[i] != paths[j]
  }

  /** How many edges lead to `x`. */
  function CountTo(edges: seq<Edge>, x: Token): nat {
    if edges == [] then 0 else CountTo(edges[..|edges| - 1], x) + if edges[|edges| - 1].to == x then 1 else 0
  }

  /** At most one edge out of `t` leads to each other token. */
  ghost predicate LeadApart(edges: seq<Edge>, t: Token) {
    forall x | x != t :: CountTo(edges, x) <= 1
  }

  ghost predicate NoParallel(graph: Graph) {
    forall t :: LeadApart(EdgesOf(graph, t), t)
  }

  lemma {:induction false} Counted(edges: seq<Edge>, i: nat)
    requires i < |edges|
    ensures CountTo(edges, edges[i].to) >= 1
  {
    if i < |edges| - 1 {
      Counted(edges[..|edges| - 1], i);
    }
  }

  lemma {:induction false} RoutesBegin(graph: Graph, end: Token, maxHops: nat, path: Path, r: Path)
    requires path != [] && r in RoutesFrom(graph, end, maxHops, path)
    ensures path <= r
    decreases Room(maxHops, path), 1, 0
  {
    if path[|path| - 1] != end && |path| <= maxHops {
      RoutesAlongBegin(graph, end, maxHops, path, EdgesOf(graph, path[|path| - 1]), r);
    }
  }

  lemma {:induction false} RoutesAlongBegin(graph: Graph, end: Token, maxHops: nat, path: Path, edges: seq<Edge>, r: Path)
    requires path != [] && |path| <= maxHops && r in RoutesAlong(graph, end, maxHops, path, edges)
    ensures path <= r && |path| < |r| && exists i :: 0 <= i < |edges| && edges[i].to == r[|path|]
    decreases Room(maxHops, path), 0, |edges|
  {
    var n := |edges| - 1;
    if r in RoutesAlong(graph, end, maxHops, path, edges[..n]) {
      RoutesAlongBegin(graph, end, maxHops, path, edges[..n], r);
      var i :| 0 <= i < n && edges[..n][i].to == r[|path|];
      assert edges[i].to == r[|path|];
    } else {
      RoutesBegin(graph, end, maxHops, path + [edges[n].to], r);
    }
  }

  lemma {:induction false} RoutesOnce(graph: Graph, end: Token, maxHops: nat, path: Path)
    requires path != [] && NoParallel(graph)
    ensures NoneTwice(RoutesFrom(graph, end, maxHops, path))
    decreases Room(maxHops, path), 1, 0
  {
    if path[|path| - 1] != end && |path| <= maxHops {
      RoutesAlongOnce(graph, end, maxHops, path, EdgesOf(graph, path[|path| - 1]));
    }
  }

  lemma {:induction false} RoutesAlongOnce(graph: Graph, end: Token, maxHops: nat, path: Path, edges: seq<Edge>)
    requires path != [] && |path| <= maxHops && NoParallel(graph) && LeadApart(edges, path[|path| - 1])
    ensures NoneTwice(RoutesAlong(graph, end, maxHops, path, edges))
    decreases Room(maxHops, path), 0, |edges|
  {
    if edges != [] {
      var n := |edges| - 1;
      var to, front := edges[n].to, RoutesAlong(graph, end, maxHops, path, edges[..n]);
      assert forall x :: CountTo(edges[..n], x) <= CountTo(edges, x);
      RoutesAlongOnce(graph, end, maxHops, path, edges[..n]);
      if to !in path {
        var more := RoutesFrom(graph, end, maxHops, path + [to]);
        RoutesOnce(graph, end, maxHops, path + [to]);
        assert CountTo(edges, to) <= 1;
        forall i, j | 0 <= i < |front| && 0 <= j < |more|
          ensures front[i] != more[j]
        {
          RoutesAlongBegin(graph, end, maxHops, path, edges[..n], front[i]);
          RoutesBegin(graph, end, maxHops, path + [to], more[j]);
          assert more[j][|path|] == (path + [to])[|path|];
          var k :| 0 <= k < n && edges[..n][k].to == front[i][|path|];
          Counted(edges[..n], k);
        }
      }
    }
  }

  // ----- sorted by length -----

  ghost predicate ShortestFirst(paths: seq<Path>) {
    forall i, j | 0 <= i < j < |paths| :: |paths[i]| <= |paths[j]|
  }

  function InsertByLength(p: Path, sorted: seq<Path>): seq<Path> {
    if sorted == [] || |p| <= |sorted[0]| then [p] + sorted
    else [sorted[0]] + InsertByLength(p, sorted[1..])
  }

  /** A stable sort by number of tokens. */
  function SortByLength(paths: seq<Path>): seq<Path> {
    if paths == [] then [] else InsertByLength(paths[0], SortByLength(paths[1..]))
  }

  lemma {:induction false} InsertByLengthElements(p: Path, sorted: seq<Path>)
    ensures multiset(InsertByLength(p, sorted)) == multiset(sorted) + multiset{p}
  {
    if sorted != [] && |sorted[0]| < |p| {
      InsertByLengthElements(p, sorted[1..]);
      assert sorted == [sorted[0]] + sorted[1..];
    }
  }

  lemma {:induction false} InsertByLengthSorts(p: Path, sorted: seq<Path>)
    requires ShortestFirst(sorted)
    ensures ShortestFirst(InsertByLength(p, sorted))
    ensures |InsertByLength(p, sorted)[0]| == if sorted == [] then |p| else Min(|p|, |sorted[0]|)
  {
    if sorted != [] && |sorted[0]| < |p| {
      InsertByLengthSorts(p, sorted[1..]);
      var rest := InsertByLength(p, sorted[1..]);
      forall j | 0 <= j < |rest|
        ensures |sorted[0]| <= |rest[j]|
      {
        assert |rest[0]| <= |rest[j]|;
      }
    }
  }

  lemma {:induction false} SortByLengthSorts(paths: seq<Path>)
    ensures multiset(SortByLength(paths)) == multiset(paths) && ShortestFirst(SortByLength(paths))
  {
    if paths != [] {
      assert paths == [paths[0]] + paths[1..];
      SortByLengthSorts(paths[1..]);
      InsertByLengthElements(paths[0], SortByLength(paths[1..]));
      InsertByLengthSorts(paths[0], SortByLength(paths[1..]));
    }
  }

  /** The paths of one length, in their order. */
  function OfLength(paths: seq<Path>, n: nat): seq<Path> {
    if paths == [] then [] else (if |paths[0]| == n then [paths[0]] else []) + OfLength(paths[1..], n)
  }

  lemma OfLengthCons(p: Path, paths: seq<Path>, n: nat)
    ensures OfLength([p] + paths, n) == (if |p| == n then [p] else []) + OfLength(paths, n)
  {
    assert ([p] + paths)[1..] == paths;
  }

  lemma {:induction false} InsertKeepsOrder(p: Path, sorted: seq<Path>, n: nat)
    ensures OfLength(InsertByLength(p, sorted), n) == (if |p| == n then [p] else []) + OfLength(sorted, n)
  {
    if sorted != [] && |sorted[0]| < |p| {
      InsertKeepsOrder(p, sorted[1..], n);
      OfLengthCons(sorted[0], InsertByLength(p, sorted[1..]), n);
    } else {
      OfLengthCons(p, sorted, n);
    }
  }

  /** Paths of the same length keep their order. */
  lemma {:induction false} SortIsStable(paths: seq<Path>, n: nat)
    ensures OfLength(SortByLength(paths), n) == OfLength(paths, n)
  {
    if paths != [] {
      SortIsStable(paths[1..], n);
      InsertKeepsOrder(paths[0], SortByLength(paths[1..]), n);
    }
  }

  /** A path shorter than all before it and no longer than all after it comes first. */
  lemma {:induction false} ShortestComesFirst(before: seq<Path>, p: Path, rest: seq<Path>)
    requires (forall q | q in before :: |p| < |q|) && forall q | q in rest :: |p| <= |q|
    ensures SortByLength(before + [p] + rest) == [p] + SortByLength(before + rest)
  {
    SortByLengthSorts(rest);
    if before == [] {
      assert before + [p] + rest == [p] + rest && before + rest == rest && ([p] + rest)[1..] == rest;
      var sorted := SortByLength(rest);
      if sorted != [] {
        assert sorted[0] in multiset(sorted);
        assert sorted[0] in rest;
      }
    } else {
      var q, more := before[0], before[1..];
      assert (before + [p] + rest)[0] == q && (before + [p] + rest)[1..] == more + [p] + rest;
      assert (before + rest)[0] == q && (before + rest)[1..] == more + rest;
      ShortestComesFirst(more, p, rest);
      assert ([p] + SortByLength(more + rest))[1..] == SortByLength(more + rest);
    }
  }
}
