/**
 * What discarding replaced nodes does to a trie whose packing loses nothing
 * (storage/merkle_trie.rs): equal leaves share one place in the store.
 */
module TwinKeys {
  import opened Common
  import opened StoredTrie
  import opened TrieAgreement
  import opened TrieUpdates
  import Trie
  import TrieStore

  // ----- twins lose one another -----

  /** Keys that differ in exactly one nibble. */
  ghost predicate Twins(a: Key, b: Key) {
    exists f :: TwinsAt(BytesToNibbles(a), BytesToNibbles(b), f)
  }

  ghost predicate TwinsAt(na: Path, nb: Path, f: nat) {
    && f < |na| == |nb|
    && na[..f] == nb[..f] && na[f] != nb[f] && na[f + 1..] == nb[f + 1..]
  }

  lemma TwinsPart(na: Path, nb: Path, f: nat)
    requires TwinsAt(na, nb, f)
    ensures Trie.CommonPrefixLen(nb, na) == f
  {
    assert forall i | 0 <= i < f :: nb[i] == nb[..f][i] && na[i] == na[..f][i];
  }

  /** Equal leaves share one place in the store, so when the value of one of two
      twins changes, the other is lost: even with a lossless packing. */
  lemma UpdateLosesTwin<P>(s: Settings<P>, a: Key, b: Key, v: Value, w: Value)
    requires Lossless(s) && s.discards && Twins(a, b) && v != w
    ensures var updates := [Update(a, Some(v)), Update(b, Some(v)), Update(a, Some(w))];
            var r := ApplyAll(s, Store(None, {}), updates);
            r.Some? && Answer(s, r.value, b) == None && Lookup(ApplyMap(map[], updates), b) == Some(v)
  {
    hide GetRecursive, Insert, SplitAndInsert;
    var na, nb := BytesToNibbles(a), BytesToNibbles(b);
    var f :| TwinsAt(na, nb, f);
    var updates := [Update(a, Some(v)), Update(b, Some(v)), Update(a, Some(w))];
    var t1 := Store(Some(NewLeaf(s, na, v)), {} + {NewLeaf(s, na, v)});
    var g := TwinsStored(s, na, nb, f, v);
    var t2 := Store(Some(g.root), g.nodes);
    var last := ChangeUnderPrefix(s, na, nb, f, v, w, g);
    var t3 := Store(Some(last.root), last.nodes);
    ThreeUpdates(s, updates, t1, t2, t3);
    assert a != b;
    assert map[a := v][b := v][a := w][b] == v;
  }

  /** The branch at which the twins part, with the leaf they share. */
  ghost predicate Shares<P>(s: Settings<P>, na: Path, nb: Path, f: nat, v: Value, nodes: set<Node<P>>, branch: Node<P>)
    requires TwinsAt(na, nb, f)
  {
    var twin := NewLeaf(s, na[f + 1..], v);
    && branch.Branch? && |branch.children| == 16 && branch in nodes && twin in nodes
    && branch.children[na[f]] == Some(twin) && branch.children[nb[f]] == Some(twin)
  }

  /** The store once both twins are in it. */
  ghost predicate HoldsTwins<P>(s: Settings<P>, na: Path, nb: Path, f: nat, v: Value, g: Grown<P>)
    requires TwinsAt(na, nb, f)
  {
    && g.Grown? && Wf(g.root) && g.root in g.nodes
    && if f == 0 then Shares(s, na, nb, f, v, g.nodes, g.root)
       else g.root.Extension? && g.root.path == s.pack(na[..f]) && Shares(s, na, nb, f, v, g.nodes, g.root.child)
  }

  lemma TwinsStored<P>(s: Settings<P>, na: Path, nb: Path, f: nat, v: Value) returns (g: Grown<P>)
    requires Lossless(s) && TwinsAt(na, nb, f)
    ensures var leaf := NewLeaf(s, na, v);
            g == Insert(s, {} + {leaf}, leaf, nb, v) && HoldsTwins(s, na, nb, f, v, g)
  {
    var leaf := NewLeaf(s, na, v);
    assert s.unpack(leaf.path) == na;
    TwinsPart(na, nb, f);
    g := SplitAndInsert(s, {} + {leaf}, nb, v, na, v, f);
  }

  /** Changing one twin's value at the branch takes the shared leaf away. */
  lemma ChangeAtBranch<P>(s: Settings<P>, na: Path, nb: Path, f: nat, v: Value, w: Value, nodes: set<Node<P>>, branch: Node<P>)
    returns (g: Grown<P>)
    requires Lossless(s) && s.discards && v != w && TwinsAt(na, nb, f) && Wf(branch)
    requires Shares(s, na, nb, f, v, nodes, branch)
    ensures g == Insert(s, nodes, branch, na[f..], w) && g.Grown? && Wf(g.root) && g.root.Branch?
    ensures var twin := NewLeaf(s, na[f + 1..], v);
            twin !in g.nodes && g.root.children[nb[f]] == Some(twin)
  {
    var rest := na[f + 1..];
    var twin, changed := NewLeaf(s, rest, v), NewLeaf(s, rest, w);
    assert s.unpack(twin.path) == rest && rest[..|rest|] == rest && Trie.CommonPrefixLen(rest, rest) == |rest|;
    assert Insert(s, nodes, twin, rest, w) == Grown(nodes - {twin} + {changed}, changed);
    assert na[f..][0] == na[f] && na[f..][1..] == rest;
    g := Insert(s, nodes, branch, na[f..], w);
  }

  lemma BelowMissing<P>(s: Settings<P>, nodes: set<Node<P>>, branch: Node<P>, key: Path, visited: seq<Node<P>>)
    requires Wf(branch) && branch.Branch? && key != []
    requires branch.children[key[0]].Some? && branch.children[key[0]].value !in nodes
    ensures GetRecursive(s, nodes, branch, key, visited).0 == None
  {}

  lemma ChangeUnderPrefix<P>(s: Settings<P>, na: Path, nb: Path, f: nat, v: Value, w: Value, g: Grown<P>) returns (last: Grown<P>)
    requires Lossless(s) && s.discards && v != w && TwinsAt(na, nb, f) && HoldsTwins(s, na, nb, f, v, g)
    ensures last == Insert(s, g.nodes, g.root, na, w) && last.Grown? && Wf(last.root)
    ensures GetRecursive(s, last.nodes, last.root, nb, []).0 == None
  {
    if f == 0 {
      assert na[0..] == na;
      last := ChangeAtBranch(s, na, nb, f, v, w, g.nodes, g.root);
      BelowMissing(s, last.nodes, last.root, nb, []);
    } else {
      var prefix := na[..f];
      assert s.unpack(g.root.path) == prefix && Trie.CommonPrefixLen(na, prefix) == f by {
        assert na[..f] == prefix[..f];
      }
      var inner := ChangeAtBranch(s, na, nb, f, v, w, g.nodes, g.root.child);
      last := Insert(s, g.nodes, g.root, na, w);
      assert last.root == Extension(g.root.path, inner.root);
      assert prefix <= nb && nb[f..][0] == nb[f];
      BelowMissing(s, last.nodes, inner.root, nb[f..], [] + [last.root]);
    }
  }

  lemma ThreeUpdates<P>(s: Settings<P>, updates: seq<Update>, t1: Store<P>, t2: Store<P>, t3: Store<P>)
    requires |updates| == 3 && WfSlot(t1.root) && WfSlot(t2.root)
    requires ApplyUpdate(s, Store(None, {}), updates[0]) == Some(t1)
    requires ApplyUpdate(s, t1, updates[1]) == Some(t2) && ApplyUpdate(s, t2, updates[2]) == Some(t3)
    ensures ApplyAll(s, Store(None, {}), updates) == Some(t3)
    ensures ApplyMap(map[], updates) ==
            Put(Put(Put(map[], updates[0].key, updates[0].value), updates[1].key, updates[1].value),
                updates[2].key, updates[2].value)
  {
    hide ApplyUpdate;
    assert updates[1..][0] == updates[1] && updates[1..][1..] == [updates[2]] && [updates[2]][1..] == [];
    var u1, u2 := updates[1..], [updates[2]];
    assert ApplyAll(s, Store(None, {}), updates) == ApplyAll(s, t1, u1);
    assert ApplyAll(s, t1, u1) == ApplyAll(s, t2, u2);
    assert ApplyAll(s, t2, u2) == ApplyAll(s, t3, []);
    var m1 := Put(map[], updates[0].key, updates[0].value);
    var m2 := Put(m1, updates[1].key, updates[1].value);
    assert ApplyMap(m1, u1) == ApplyMap(m2, u2);
    assert ApplyMap(m2, u2) == ApplyMap(Put(m2, updates[2].key, updates[2].value), []);
  }

  /** So no set of keys with twins in it is served. */
  lemma TwinsDisagree<P(!new)>(s: Settings<P>, universe: iset<Key>, a: Key, b: Key)
    requires Lossless(s) && s.discards && Twins(a, b) && a in universe && b in universe
    ensures !AgreesOver(s, universe)
  {
    hide RunOps, ApplyAll, ApplyMap, PlainRun, Answer;
    var puts: seq<(Key, Value)> := [(a, []), (b, []), (a, [0])];
    assert UpdatesOf(puts) == [Update(a, Some([])), Update(b, Some([])), Update(a, Some([0]))] by {
      assert puts[1..] == [(b, []), (a, [0])] && puts[1..][1..] == [(a, [0])] && puts[1..][1..][1..] == [];
      assert UpdatesOf(puts[1..][1..]) == [Update(a, Some([0]))] + UpdatesOf(puts[1..][1..][1..]);
      assert UpdatesOf(puts[1..]) == [Update(b, Some([]))] + UpdatesOf(puts[1..][1..]);
    }
    UpdateLosesTwin(s, a, b, [], [0]);
    CommitEachRun(s, Store(None, {}), puts);
    CommitEachPlain(map[], puts);
    CommitEachOver(puts, universe);
    assert !AgreesAfter(s, universe, CommitEach(puts));
  }

  // ----- two keys that part and do not go on alike -----

  ghost predicate Apart(p: Path, q: Path, f: nat) {
    && f < |p| && f < |q| && p[..f] == q[..f] && p[f] != q[f] && p[f + 1..] != q[f + 1..]
  }

  lemma ApartSymmetric(p: Path, q: Path, f: nat)
    ensures Apart(p, q, f) <==> Apart(q, p, f)
  {}

  lemma ApartPart(p: Path, q: Path, f: nat)
    requires Apart(p, q, f)
    ensures Trie.CommonPrefixLen(p, q) == f && Trie.CommonPrefixLen(p, p[..f]) == f
    ensures f < |p| && f < |q| && p != q && p != p[..f]
  {
    assert forall i | 0 <= i < f :: p[i] == p[..f][i] && q[i] == q[..f][i];
  }

  function Kid<P>(s: Settings<P>, p: Path, f: nat, v: Option<Value>): Option<Node<P>>
    requires f < |p|
  {
    if v.Some? then Some(NewLeaf(s, p[f + 1..], v.value)) else None
  }

  /** The branch at which the two part, with the leaves there are and the value a
      split has left on it. */
  function ForkAt<P>(s: Settings<P>, p: Path, q: Path, f: nat, vp: Option<Value>, vq: Option<Value>, w: Value): (n: Node<P>)
    requires f < |p| && f < |q|
    ensures n.Branch? && Wf(n)
  {
    Branch(NoChildren()[p[f] := Kid(s, p, f, vp)][q[f] := Kid(s, q, f, vq)], Some(w))
  }

  function Topped<P>(s: Settings<P>, c: Path, n: Node<P>): Node<P> {
    if |c| > 0 then Extension(s.pack(c), n) else n
  }

  ghost predicate HasKid<P>(s: Settings<P>, nodes: set<Node<P>>, p: Path, f: nat, v: Option<Value>)
    requires f < |p|
  {
    v.Some? ==> NewLeaf(s, p[f + 1..], v.value) in nodes
  }

  /** The branch and its leaves are in the store. */
  ghost predicate ForkStored<P>(s: Settings<P>, nodes: set<Node<P>>, p: Path, q: Path, f: nat, vp: Option<Value>, vq: Option<Value>, w: Value)
    requires f < |p| && f < |q|
  {
    ForkAt(s, p, q, f, vp, vq, w) in nodes && HasKid(s, nodes, p, f, vp) && HasKid(s, nodes, q, f, vq)
  }

  ghost predicate Forked<P>(s: Settings<P>, nodes: set<Node<P>>, n: Node<P>, p: Path, q: Path, f: nat,
                            vp: Option<Value>, vq: Option<Value>)
    requires f < |p| && f < |q|
  {
    exists w :: n == Topped(s, p[..f], ForkAt(s, p, q, f, vp, vq, w)) && ForkStored(s, nodes, p, q, f, vp, vq, w)
  }

  /** The tries over two such keys: nothing, one leaf, the branch, or, once both
      keys are deleted, a leaf with the value the split has left. */
  ghost predicate PairHolds<P>(s: Settings<P>, t: Store<P>, p: Path, q: Path, f: nat, vp: Option<Value>, vq: Option<Value>)
    requires f < |p| && f < |q|
  {
    match t.root
    case None => vp == None && vq == None
    case Some(n) =>
      && n in t.nodes && Wf(n)
      && (|| (vp.Some? && vq.None? && n == NewLeaf(s, p, vp.value))
          || (vq.Some? && vp.None? && n == NewLeaf(s, q, vq.value))
          || (vp.None? && vq.None? && exists w :: n == NewLeaf(s, p[..f], w))
          || ((vp.Some? || vq.Some?) && Forked(s, t.nodes, n, p, q, f, vp, vq)))
  }

  lemma ForkSymmetric<P>(s: Settings<P>, p: Path, q: Path, f: nat, vp: Option<Value>, vq: Option<Value>, w: Value)
    requires f < |p| && f < |q| && p[f] != q[f]
    ensures ForkAt(s, p, q, f, vp, vq, w) == ForkAt(s, q, p, f, vq, vp, w)
  {
    assert NoChildren<P>()[p[f] := Kid(s, p, f, vp)][q[f] := Kid(s, q, f, vq)] ==
           NoChildren<P>()[q[f] := Kid(s, q, f, vq)][p[f] := Kid(s, p, f, vp)];
  }

  lemma PairSymmetric<P>(s: Settings<P>, t: Store<P>, p: Path, q: Path, f: nat, vp: Option<Value>, vq: Option<Value>)
    requires Apart(p, q, f) && PairHolds(s, t, p, q, f, vp, vq)
    ensures PairHolds(s, t, q, p, f, vq, vp)
  {
    if t.root.Some? && Forked(s, t.nodes, t.root.value, p, q, f, vp, vq) {
      var w :| t.root.value == Topped(s, p[..f], ForkAt(s, p, q, f, vp, vq, w)) && ForkStored(s, t.nodes, p, q, f, vp, vq, w);
      ForkSymmetric(s, p, q, f, vp, vq, w);
      assert ForkStored(s, t.nodes, q, p, f, vq, vp, w);
    }
  }

  // ----- putting one of them -----

  /** At the branch the leaf is replaced or added, and the other one stays. */
  lemma PutAtFork<P>(s: Settings<P>, nodes: set<Node<P>>, p: Path, q: Path, f: nat, vp: Option<Value>, vq: Option<Value>,
                     w: Value, v: Value)
    requires Lossless(s) && s.discards && Apart(p, q, f) && ForkStored(s, nodes, p, q, f, vp, vq, w)
    ensures var g := Insert(s, nodes, ForkAt(s, p, q, f, vp, vq, w), p[f..], v);
            && g.Grown? && g.root == ForkAt(s, p, q, f, Some(v), vq, w)
            && ForkStored(s, g.nodes, p, q, f, Some(v), vq, w)
  {
    var fork, rest := ForkAt(s, p, q, f, vp, vq, w), p[f + 1..];
    assert p[f..][0] == p[f] && p[f..][1..] == rest;
    var made := NewLeaf(s, rest, v);
    if vp.Some? {
      var kid := NewLeaf(s, rest, vp.value);
      assert s.unpack(kid.path) == rest && rest[..|rest|] == rest && Trie.CommonPrefixLen(rest, rest) == |rest|;
      assert Insert(s, nodes, kid, rest, v) == Grown(nodes - {kid} + {made}, made);
      assert vq.Some? ==> s.unpack(NewLeaf(s, q[f + 1..], vq.value).path) == q[f + 1..];
    }
    assert fork.children[p[f] := Some(made)] == ForkAt(s, p, q, f, Some(v), vq, w).children;
  }

  lemma PutForked<P>(s: Settings<P>, nodes: set<Node<P>>, n: Node<P>, p: Path, q: Path, f: nat, vp: Option<Value>,
                     vq: Option<Value>, v: Value)
    requires Lossless(s) && s.discards && Apart(p, q, f) && n in nodes && Wf(n) && Forked(s, nodes, n, p, q, f, vp, vq)
    ensures var g := Insert(s, nodes, n, p, v);
            g.Grown? && g.root in g.nodes && Wf(g.root) && Forked(s, g.nodes, g.root, p, q, f, Some(v), vq)
  {
    var w :| n == Topped(s, p[..f], ForkAt(s, p, q, f, vp, vq, w)) && ForkStored(s, nodes, p, q, f, vp, vq, w);
    PutAtFork(s, nodes, p, q, f, vp, vq, w, v);
    ApartPart(p, q, f);
    hide ForkAt;
    var g := Insert(s, nodes, n, p, v);
    if f == 0 {
      assert p[0..] == p;
    } else {
      assert s.unpack(n.path) == p[..f];
    }
    assert g.root == Topped(s, p[..f], ForkAt(s, p, q, f, Some(v), vq, w));
    assert ForkStored(s, g.nodes, p, q, f, Some(v), vq, w);
  }

  /** The new key splits the leaf of the other one. */
  lemma PutSplits<P>(s: Settings<P>, nodes: set<Node<P>>, p: Path, q: Path, f: nat, u: Value, v: Value)
    requires Lossless(s) && Apart(p, q, f) && NewLeaf(s, q, u) in nodes
    ensures var g := Insert(s, nodes, NewLeaf(s, q, u), p, v);
            g.Grown? && g.root in g.nodes && Wf(g.root) && Forked(s, g.nodes, g.root, p, q, f, Some(v), Some(u))
  {
    var leaf := NewLeaf(s, q, u);
    assert s.unpack(leaf.path) == q;
    ApartPart(p, q, f);
    var g := Insert(s, nodes, leaf, p, v);
    assert g == SplitAndInsert(s, nodes, p, v, q, u, f);
    assert SplitBranch(s, p, v, q, u, f) == ForkAt(s, p, q, f, Some(v), Some(u), u);
    assert ForkStored(s, g.nodes, p, q, f, Some(v), Some(u), u);
  }

  /** The new key goes on below the leaf a split has left. */
  lemma PutOnRemains<P>(s: Settings<P>, nodes: set<Node<P>>, p: Path, q: Path, f: nat, w: Value, v: Value)
    requires Lossless(s) && Apart(p, q, f) && NewLeaf(s, p[..f], w) in nodes
    ensures var g := Insert(s, nodes, NewLeaf(s, p[..f], w), p, v);
            g.Grown? && g.root in g.nodes && Wf(g.root) && Forked(s, g.nodes, g.root, p, q, f, Some(v), None)
  {
    var leaf, c := NewLeaf(s, p[..f], w), p[..f];
    assert s.unpack(leaf.path) == c;
    ApartPart(p, q, f);
    var g := Insert(s, nodes, leaf, p, v);
    assert g == SplitAndInsert(s, nodes, p, v, c, w, f);
    assert SplitBranch(s, p, v, c, w, f).children == ForkAt(s, p, q, f, Some(v), None, w).children;
    assert ForkStored(s, g.nodes, p, q, f, Some(v), None, w);
  }

  lemma PutAgain<P>(s: Settings<P>, nodes: set<Node<P>>, p: Path, u: Value, v: Value)
    requires Lossless(s) && NewLeaf(s, p, u) in nodes
    ensures var g := Insert(s, nodes, NewLeaf(s, p, u), p, v);
            g.Grown? && g.root in g.nodes && g.root == NewLeaf(s, p, v)
  {
    assert s.unpack(NewLeaf(s, p, u).path) == p && p[..|p|] == p && Trie.CommonPrefixLen(p, p) == |p|;
  }

  lemma PairPut<P>(s: Settings<P>, t: Store<P>, p: Path, q: Path, f: nat, vp: Option<Value>, vq: Option<Value>, v: Value)
    requires Lossless(s) && s.discards && Apart(p, q, f) && t.root.Some? && PairHolds(s, t, p, q, f, vp, vq)
    ensures var g := Insert(s, t.nodes, t.root.value, p, v);
            g.Grown? && PairHolds(s, Store(Some(g.root), g.nodes), p, q, f, Some(v), vq)
  {
    hide Insert, Forked, Apart;
    var n := t.root.value;
    ApartPart(p, q, f);
    if vp.Some? && vq.None? && n == NewLeaf(s, p, vp.value) {
      PutAgain(s, t.nodes, p, vp.value, v);
    } else if vq.Some? && vp.None? && n == NewLeaf(s, q, vq.value) {
      PutSplits(s, t.nodes, p, q, f, vq.value, v);
    } else if vp.None? && vq.None? {
      var w :| n == NewLeaf(s, p[..f], w);
      PutOnRemains(s, t.nodes, p, q, f, w, v);
    } else {
      PutForked(s, t.nodes, n, p, q, f, vp, vq, v);
    }
  }

  // ----- deleting one of them -----

  lemma {:induction false} AllNone<P>(children: seq<Option<Node<P>>>, from: nat)
    requires from <= |children| && forall k | from <= k < |children| :: children[k].None?
    ensures NonEmpty(children, from) == []
    decreases |children| - from
  {
    if from < |children| {
      AllNone(children, from + 1);
    }
  }

  /** A branch with a value stays while it has a leaf, and is a leaf itself after. */
  lemma SimplifyFork<P>(s: Settings<P>, nodes: set<Node<P>>, p: Path, q: Path, f: nat, vq: Option<Value>, w: Value)
    requires Apart(p, q, f)
    ensures var children := ForkAt(s, p, q, f, None, vq, w).children;
            SimplifyBranch(s, nodes, children, Some(w)) ==
              if vq.Some? then Made(nodes, ForkAt(s, p, q, f, None, vq, w)) else Made(nodes, NewLeaf(s, [], w))
  {
    var children := ForkAt(s, p, q, f, None, vq, w).children;
    var some := NonEmpty(children, 0);
    if vq.Some? {
      assert q[f] in some;
    } else {
      AllNone(children, 0);
    }
  }

  lemma DeleteAtFork<P>(s: Settings<P>, nodes: set<Node<P>>, p: Path, q: Path, f: nat, vp: Option<Value>, vq: Option<Value>, w: Value)
    requires Lossless(s) && s.discards && Apart(p, q, f) && ForkStored(s, nodes, p, q, f, vp, vq, w) && (vp.Some? || vq.Some?)
    ensures var d := Delete(s, nodes, ForkAt(s, p, q, f, vp, vq, w), p[f..]);
            && d.root == Some(if vq.Some? then ForkAt(s, p, q, f, None, vq, w) else NewLeaf(s, [], w))
            && d.root.value in d.nodes && HasKid(s, d.nodes, q, f, vq)
  {
    var fork, rest := ForkAt(s, p, q, f, vp, vq, w), p[f + 1..];
    assert p[f..][0] == p[f] && p[f..][1..] == rest;
    if vp.Some? {
      var kid := NewLeaf(s, rest, vp.value);
      assert s.unpack(kid.path) == rest;
      assert Delete(s, nodes, kid, rest) == Shrunk(nodes - {kid}, None);
      assert fork.children[p[f] := None] == ForkAt(s, p, q, f, None, vq, w).children;
      assert vq.Some? ==> s.unpack(NewLeaf(s, q[f + 1..], vq.value).path) == q[f + 1..];
      SimplifyFork(s, nodes - {kid} - {fork}, p, q, f, vq, w);
    }
  }

  lemma DeleteForked<P>(s: Settings<P>, nodes: set<Node<P>>, n: Node<P>, p: Path, q: Path, f: nat, vp: Option<Value>, vq: Option<Value>)
    requires Lossless(s) && s.discards && Apart(p, q, f) && n in nodes && Wf(n) && Forked(s, nodes, n, p, q, f, vp, vq)
    requires vp.Some? || vq.Some?
    ensures var d := Delete(s, nodes, n, p);
            && d.root.Some? && d.root.value in d.nodes
            && if vq.Some? then Forked(s, d.nodes, d.root.value, p, q, f, None, vq)
               else exists w :: d.root.value == NewLeaf(s, p[..f], w)
  {
    var w :| n == Topped(s, p[..f], ForkAt(s, p, q, f, vp, vq, w)) && ForkStored(s, nodes, p, q, f, vp, vq, w);
    DeleteAtFork(s, nodes, p, q, f, vp, vq, w);
    hide ForkAt;
    var d := Delete(s, nodes, n, p);
    var c := p[..f];
    if f == 0 {
      assert p[0..] == p;
    } else {
      assert s.unpack(n.path) == c && c <= p;
      assert s.unpack(s.pack([])) == [] && c + [] == c;
    }
    if vq.Some? {
      assert d.root.value == Topped(s, c, ForkAt(s, p, q, f, None, vq, w)) && ForkStored(s, d.nodes, p, q, f, None, vq, w);
    } else {
      assert d.root.value == NewLeaf(s, c, w);
    }
  }

  lemma DeleteLeaf<P>(s: Settings<P>, nodes: set<Node<P>>, p: Path, other: Path, v: Value)
    requires Lossless(s) && NewLeaf(s, other, v) in nodes
    ensures var d := Delete(s, nodes, NewLeaf(s, other, v), p);
            if p == other then d.root == None else d == Shrunk(nodes, Some(NewLeaf(s, other, v)))
  {
    assert s.unpack(NewLeaf(s, other, v).path) == other;
  }

  lemma PairDelete<P>(s: Settings<P>, t: Store<P>, p: Path, q: Path, f: nat, vp: Option<Value>, vq: Option<Value>)
    requires Lossless(s) && s.discards && Apart(p, q, f) && t.root.Some? && WfSlot(t.root) && PairHolds(s, t, p, q, f, vp, vq)
    ensures var d := Delete(s, t.nodes, t.root.value, p);
            PairHolds(s, Store(d.root, d.nodes), p, q, f, None, vq)
  {
    hide Delete, Forked, Apart;
    var n := t.root.value;
    ApartPart(p, q, f);
    DeleteWf(s, t.nodes, n, p);
    if vp.Some? && vq.None? && n == NewLeaf(s, p, vp.value) {
      DeleteLeaf(s, t.nodes, p, p, vp.value);
    } else if vq.Some? && vp.None? && n == NewLeaf(s, q, vq.value) {
      DeleteLeaf(s, t.nodes, p, q, vq.value);
    } else if vp.None? && vq.None? {
      var w :| n == NewLeaf(s, p[..f], w);
      DeleteLeaf(s, t.nodes, p, p[..f], w);
    } else {
      DeleteForked(s, t.nodes, n, p, q, f, vp, vq);
    }
  }

  /** What the trie answers for one of the two. */
  lemma PairAnswers<P>(s: Settings<P>, t: Store<P>, p: Path, q: Path, f: nat, vp: Option<Value>, vq: Option<Value>)
    requires Lossless(s) && Apart(p, q, f) && t.root.Some? && WfSlot(t.root) && PairHolds(s, t, p, q, f, vp, vq)
    ensures GetRecursive(s, t.nodes, t.root.value, p, []).0 == vp
  {
    var n := t.root.value;
    ApartPart(p, q, f);
    if (vp.Some? || vq.Some?) && Forked(s, t.nodes, n, p, q, f, vp, vq) {
      var w :| n == Topped(s, p[..f], ForkAt(s, p, q, f, vp, vq, w)) && ForkStored(s, t.nodes, p, q, f, vp, vq, w);
      assert p[f..][0] == p[f] && p[f..][1..] == p[f + 1..];
      ForkAnswers(s, t.nodes, p, q, f, vp, vq, w, if f == 0 then [] else [] + [n]);
      if f == 0 {
        assert p[0..] == p;
      } else {
        assert s.unpack(n.path) == p[..f] && p[..f] <= p;
      }
    } else {
      assert n.Leaf?;
      assert s.unpack(s.pack(p)) == p && s.unpack(s.pack(q)) == q && s.unpack(s.pack(p[..f])) == p[..f];
    }
  }

  lemma ForkAnswers<P>(s: Settings<P>, nodes: set<Node<P>>, p: Path, q: Path, f: nat, vp: Option<Value>, vq: Option<Value>,
                       w: Value, visited: seq<Node<P>>)
    requires Lossless(s) && Apart(p, q, f) && ForkStored(s, nodes, p, q, f, vp, vq, w)
    ensures GetRecursive(s, nodes, ForkAt(s, p, q, f, vp, vq, w), p[f..], visited).0 == vp
  {
    assert p[f..][0] == p[f] && p[f..][1..] == p[f + 1..];
    assert s.unpack(s.pack(p[f + 1..])) == p[f + 1..];
  }

  // ----- a key and a longer one that begins with it -----

  ghost predicate Begins(p: Path, q: Path) {
    |p| < |q| && q[..|p|] == p
  }

  lemma BeginsPart(p: Path, q: Path)
    requires Begins(p, q)
    ensures Trie.CommonPrefixLen(p, q) == |p| == Trie.CommonPrefixLen(q, p) && Trie.CommonPrefixLen(p, p) == |p|
  {
    assert forall i | 0 <= i < |p| :: q[i] == q[..|p|][i];
  }

  /** The branch that holds the shorter key's value above the longer one's leaf. */
  function Stacked<P>(s: Settings<P>, p: Path, q: Path, vp: Option<Value>, vq: Option<Value>): (n: Node<P>)
    requires |p| < |q|
    ensures n.Branch? && Wf(n)
  {
    Branch(NoChildren()[q[|p|] := Kid(s, q, |p|, vq)], vp)
  }

  /** The tries over two such keys: nothing, one leaf, or the branch with both. */
  ghost predicate StackHolds<P>(s: Settings<P>, t: Store<P>, p: Path, q: Path, vp: Option<Value>, vq: Option<Value>)
    requires |p| < |q|
  {
    match t.root
    case None => vp == None && vq == None
    case Some(n) =>
      && n in t.nodes && Wf(n)
      && (|| (vp.Some? && vq.None? && n == NewLeaf(s, p, vp.value))
          || (vq.Some? && vp.None? && n == NewLeaf(s, q, vq.value))
          || (vp.Some? && vq.Some? && n == Topped(s, p, Stacked(s, p, q, vp, vq)) && StackStored(s, t.nodes, p, q, vp, vq)))
  }

  ghost predicate StackStored<P>(s: Settings<P>, nodes: set<Node<P>>, p: Path, q: Path, vp: Option<Value>, vq: Option<Value>)
    requires |p| < |q|
  {
    Stacked(s, p, q, vp, vq) in nodes && HasKid(s, nodes, q, |p|, vq)
  }

  lemma PutShort<P>(s: Settings<P>, t: Store<P>, p: Path, q: Path, vp: Option<Value>, vq: Option<Value>, v: Value)
    requires Lossless(s) && s.discards && Begins(p, q) && t.root.Some? && StackHolds(s, t, p, q, vp, vq)
    ensures var g := Insert(s, t.nodes, t.root.value, p, v);
            g.Grown? && StackHolds(s, Store(Some(g.root), g.nodes), p, q, Some(v), vq)
  {
    var n := t.root.value;
    BeginsPart(p, q);
    assert p[..|p|] == p && p[|p|..] == [];
    assert s.unpack(s.pack(p)) == p && s.unpack(s.pack(q)) == q;
    if vq.Some? && vp.None? {
      assert Insert(s, t.nodes, n, p, v) == SplitAndInsert(s, t.nodes, p, v, q, vq.value, |p|);
      assert SplitBranch(s, p, v, q, vq.value, |p|) == Stacked(s, p, q, Some(v), vq);
    } else if vp.Some? && vq.Some? {
      var stack := Stacked(s, p, q, vp, vq);
      assert Insert(s, t.nodes, stack, [], v).root == Stacked(s, p, q, Some(v), vq);
    }
  }

  lemma PutLong<P>(s: Settings<P>, t: Store<P>, p: Path, q: Path, vp: Option<Value>, vq: Option<Value>, v: Value)
    requires Lossless(s) && s.discards && Begins(p, q) && t.root.Some? && StackHolds(s, t, p, q, vp, vq)
    ensures var g := Insert(s, t.nodes, t.root.value, q, v);
            g.Grown? && StackHolds(s, Store(Some(g.root), g.nodes), p, q, vp, Some(v))
  {
    var n := t.root.value;
    BeginsPart(p, q);
    assert s.unpack(s.pack(p)) == p;
    if vp.Some? && vq.None? {
      assert Insert(s, t.nodes, n, q, v) == SplitAndInsert(s, t.nodes, q, v, p, vp.value, |p|);
      assert SplitBranch(s, q, v, p, vp.value, |p|) == Stacked(s, p, q, vp, Some(v));
      assert q[..|p|] == p;
    } else if vq.Some? && vp.None? {
      PutAgain(s, t.nodes, q, vq.value, v);
    } else {
      PutAtStack(s, t.nodes, p, q, vp, vq, v);
      assert |p| == 0 ==> q[0..] == q;
    }
  }

  lemma PutAtStack<P>(s: Settings<P>, nodes: set<Node<P>>, p: Path, q: Path, vp: Option<Value>, vq: Option<Value>, v: Value)
    requires Lossless(s) && s.discards && Begins(p, q) && vq.Some? && StackStored(s, nodes, p, q, vp, vq)
    ensures var g := Insert(s, nodes, Stacked(s, p, q, vp, vq), q[|p|..], v);
            && g.Grown? && g.root == Stacked(s, p, q, vp, Some(v)) && StackStored(s, g.nodes, p, q, vp, Some(v))
  {
    var stack, rest := Stacked(s, p, q, vp, vq), q[|p| + 1..];
    var kid, made := NewLeaf(s, rest, vq.value), NewLeaf(s, rest, v);
    assert q[|p|..][0] == q[|p|] && q[|p|..][1..] == rest;
    assert s.unpack(kid.path) == rest && rest[..|rest|] == rest && Trie.CommonPrefixLen(rest, rest) == |rest|;
    assert Insert(s, nodes, kid, rest, v) == Grown(nodes - {kid} + {made}, made);
    assert stack.children[q[|p|] := Some(made)] == Stacked(s, p, q, vp, Some(v)).children;
  }

  lemma {:induction false} NoneBefore<P>(children: seq<Option<Node<P>>>, from: nat, i: nat)
    requires from <= i < |children| && children[i].Some? && forall k | from <= k < |children| && k != i :: children[k].None?
    ensures NonEmpty(children, from) == [i]
    decreases i - from
  {
    if from < i {
      NoneBefore(children, from + 1, i);
    } else {
      AllNone(children, i + 1);
    }
  }

  /** Deleting the shorter key merges the longer one's leaf back into one. */
  lemma DeleteAtStack<P>(s: Settings<P>, nodes: set<Node<P>>, p: Path, q: Path, vp: Option<Value>, vq: Option<Value>)
    requires Lossless(s) && s.discards && Begins(p, q) && vq.Some? && StackStored(s, nodes, p, q, vp, vq)
    ensures var d := Delete(s, nodes, Stacked(s, p, q, vp, vq), []);
            d.root == Some(NewLeaf(s, q[|p|..], vq.value)) && d.root.value in d.nodes
  {
    var stack, i := Stacked(s, p, q, vp, vq), q[|p|];
    var kid := NewLeaf(s, q[|p| + 1..], vq.value);
    NoneBefore(stack.children, 0, i);
    assert s.unpack(kid.path) == q[|p| + 1..] && [i] + q[|p| + 1..] == q[|p|..];
    assert kid in nodes - {stack};
  }

  lemma DeleteShort<P>(s: Settings<P>, t: Store<P>, p: Path, q: Path, vp: Option<Value>, vq: Option<Value>)
    requires Lossless(s) && s.discards && Begins(p, q) && t.root.Some? && WfSlot(t.root) && StackHolds(s, t, p, q, vp, vq)
    ensures var d := Delete(s, t.nodes, t.root.value, p);
            StackHolds(s, Store(d.root, d.nodes), p, q, None, vq)
  {
    var n := t.root.value;
    assert s.unpack(s.pack(p)) == p && s.unpack(s.pack(q)) == q;
    if vp.Some? && vq.Some? {
      DeleteAtStack(s, t.nodes, p, q, vp, vq);
      assert p[|p|..] == [];
      assert s.unpack(s.pack(q[|p|..])) == q[|p|..] && p + q[|p|..] == q;
      assert |p| == 0 ==> q[|p|..] == q;
    }
  }

  /** Deleting the longer key leaves the shorter one's value a leaf. */
  lemma DeleteBelowStack<P>(s: Settings<P>, nodes: set<Node<P>>, p: Path, q: Path, vp: Option<Value>, vq: Option<Value>)
    requires Lossless(s) && s.discards && Begins(p, q) && vp.Some? && vq.Some? && StackStored(s, nodes, p, q, vp, vq)
    ensures var d := Delete(s, nodes, Stacked(s, p, q, vp, vq), q[|p|..]);
            d.root == Some(NewLeaf(s, [], vp.value)) && d.root.value in d.nodes
  {
    var stack, rest := Stacked(s, p, q, vp, vq), q[|p| + 1..];
    var kid := NewLeaf(s, rest, vq.value);
    assert q[|p|..][0] == q[|p|] && q[|p|..][1..] == rest;
    assert s.unpack(kid.path) == rest && Delete(s, nodes, kid, rest) == Shrunk(nodes - {kid}, None);
    var children := stack.children[q[|p|] := None];
    AllNone(children, 0);
  }

  lemma DeleteLong<P>(s: Settings<P>, t: Store<P>, p: Path, q: Path, vp: Option<Value>, vq: Option<Value>)
    requires Lossless(s) && s.discards && Begins(p, q) && t.root.Some? && WfSlot(t.root) && StackHolds(s, t, p, q, vp, vq)
    ensures var d := Delete(s, t.nodes, t.root.value, q);
            StackHolds(s, Store(d.root, d.nodes), p, q, vp, None)
  {
    assert s.unpack(s.pack(p)) == p && s.unpack(s.pack(q)) == q && p != q;
    if vp.Some? && vq.Some? {
      DeleteBelowStack(s, t.nodes, p, q, vp, vq);
      assert |p| == 0 ==> q[|p|..] == q && p == [];
      assert s.unpack(s.pack([])) == [] && p + [] == p && p <= q;
    }
  }

  lemma StackedAnswers<P>(s: Settings<P>, nodes: set<Node<P>>, p: Path, q: Path, vp: Option<Value>, vq: Option<Value>,
                          visited: seq<Node<P>>)
    requires Lossless(s) && Begins(p, q) && vq.Some? && StackStored(s, nodes, p, q, vp, vq)
    ensures var stack := Stacked(s, p, q, vp, vq);
            GetRecursive(s, nodes, stack, [], visited).0 == vp && GetRecursive(s, nodes, stack, q[|p|..], visited).0 == vq
  {
    var rest := q[|p| + 1..];
    assert q[|p|..][0] == q[|p|] && q[|p|..][1..] == rest && s.unpack(s.pack(rest)) == rest;
  }

  lemma StackAnswers<P>(s: Settings<P>, t: Store<P>, p: Path, q: Path, vp: Option<Value>, vq: Option<Value>)
    requires Lossless(s) && Begins(p, q) && t.root.Some? && WfSlot(t.root) && StackHolds(s, t, p, q, vp, vq)
    ensures GetRecursive(s, t.nodes, t.root.value, p, []).0 == vp && GetRecursive(s, t.nodes, t.root.value, q, []).0 == vq
  {
    var n := t.root.value;
    assert s.unpack(s.pack(p)) == p && s.unpack(s.pack(q)) == q && p != q;
    if vp.Some? && vq.Some? {
      var stack := Stacked(s, p, q, vp, vq);
      assert p <= p && p[|p|..] == [] && p <= q;
      assert |p| == 0 ==> q[|p|..] == q;
      StackedAnswers(s, t.nodes, p, q, vp, vq, if |p| == 0 then [] else [] + [n]);
    }
  }

  // ----- the exact condition for two keys -----

  /** One update of the first of the two keys. */
  lemma PairStep<P>(s: Settings<P>, t: Store<P>, p: Path, q: Path, f: nat, vp: Option<Value>, vq: Option<Value>, u: Update)
    requires Lossless(s) && s.discards && Apart(p, q, f) && p == BytesToNibbles(u.key)
    requires WfSlot(t.root) && PairHolds(s, t, p, q, f, vp, vq)
    ensures var r := ApplyUpdate(s, t, u);
            r.Some? && PairHolds(s, r.value, p, q, f, u.value, vq)
  {
    hide Insert, Delete, BytesToNibbles;
    if t.root.Some? {
      hide PairHolds;
      if u.value.Some? {
        PairPut(s, t, p, q, f, vp, vq, u.value.value);
      } else {
        PairDelete(s, t, p, q, f, vp, vq);
      }
    }
  }

  ghost predicate PairInv<P>(s: Settings<P>, a: Key, b: Key, f: nat, t: Store<P>, m: map<Key, Value>)
    requires Apart(BytesToNibbles(a), BytesToNibbles(b), f)
  {
    && m.Keys <= {a, b} && WfSlot(t.root)
    && PairHolds(s, t, BytesToNibbles(a), BytesToNibbles(b), f, Lookup(m, a), Lookup(m, b))
  }

  lemma PairUpdate<P>(s: Settings<P>, t: Store<P>, m: map<Key, Value>, a: Key, b: Key, f: nat, u: Update)
    requires Lossless(s) && s.discards && Apart(BytesToNibbles(a), BytesToNibbles(b), f) && u.key in {a, b}
    requires PairInv(s, a, b, f, t, m)
    ensures ApplyUpdate(s, t, u).Some? && PairInv(s, a, b, f, ApplyUpdate(s, t, u).value, Put(m, u.key, u.value))
  {
    hide Apart, PairHolds, ApplyUpdate, BytesToNibbles;
    var p, q, vp, vq := BytesToNibbles(a), BytesToNibbles(b), Lookup(m, a), Lookup(m, b);
    ApartPart(p, q, f);
    ApartSymmetric(p, q, f);
    if u.key == a {
      PairStep(s, t, p, q, f, vp, vq, u);
    } else {
      PairSymmetric(s, t, p, q, f, vp, vq);
      PairStep(s, t, q, p, f, vq, vp, u);
      PairSymmetric(s, ApplyUpdate(s, t, u).value, q, p, f, u.value, vp);
    }
  }

  lemma PairLookup<P>(s: Settings<P>, t: Store<P>, m: map<Key, Value>, a: Key, b: Key, f: nat, k: Key)
    requires Lossless(s) && Apart(BytesToNibbles(a), BytesToNibbles(b), f) && k in {a, b}
    requires PairInv(s, a, b, f, t, m)
    ensures Answer(s, t, k) == Lookup(m, k)
  {
    hide Apart, GetRecursive, BytesToNibbles;
    var p, q, vp, vq := BytesToNibbles(a), BytesToNibbles(b), Lookup(m, a), Lookup(m, b);
    ApartPart(p, q, f);
    ApartSymmetric(p, q, f);
    if t.root.Some? {
      hide PairHolds;
      PairSymmetric(s, t, p, q, f, vp, vq);
      PairAnswers(s, t, p, q, f, vp, vq);
      PairAnswers(s, t, q, p, f, vq, vp);
    }
  }

  lemma ApartAgrees<P(!new)>(s: Settings<P>, a: Key, b: Key, f: nat)
    requires Lossless(s) && s.discards && Apart(BytesToNibbles(a), BytesToNibbles(b), f)
    ensures AgreesOver(s, iset{a, b})
  {
    hide ApplyUpdate, Answer, Apart;
    var inv := (t: Store<P>, m: map<Key, Value>) => PairInv(s, a, b, f, t, m);
    assert inv(Store(None, {}), map[]);
    hide PairInv;
    forall t: Store<P>, m: map<Key, Value>, u: Update | WfSlot(t.root) && inv(t, m) && u.key in iset{a, b}
      ensures ApplyUpdate(s, t, u).Some? && inv(ApplyUpdate(s, t, u).value, Put(m, u.key, u.value))
    {
      PairUpdate(s, t, m, a, b, f, u);
    }
    forall t: Store<P>, m: map<Key, Value>, k | WfSlot(t.root) && inv(t, m) && k in iset{a, b}
      ensures Answer(s, t, k) == Lookup(m, k)
    {
      PairLookup(s, t, m, a, b, f, k);
    }
    InvariantAgrees(s, iset{a, b}, inv);
  }

  ghost predicate StackInv<P>(s: Settings<P>, a: Key, b: Key, t: Store<P>, m: map<Key, Value>)
    requires Begins(BytesToNibbles(a), BytesToNibbles(b))
  {
    && m.Keys <= {a, b} && WfSlot(t.root)
    && StackHolds(s, t, BytesToNibbles(a), BytesToNibbles(b), Lookup(m, a), Lookup(m, b))
  }

  lemma StackUpdate<P>(s: Settings<P>, t: Store<P>, m: map<Key, Value>, a: Key, b: Key, u: Update)
    requires Lossless(s) && s.discards && Begins(BytesToNibbles(a), BytesToNibbles(b)) && u.key in {a, b}
    requires StackInv(s, a, b, t, m)
    ensures ApplyUpdate(s, t, u).Some? && StackInv(s, a, b, ApplyUpdate(s, t, u).value, Put(m, u.key, u.value))
  {
    hide Insert, Delete, BytesToNibbles;
    var p, q, vp, vq := BytesToNibbles(a), BytesToNibbles(b), Lookup(m, a), Lookup(m, b);
    if t.root.Some? {
      hide StackHolds;
      if u.key == a {
        if u.value.Some? {
          PutShort(s, t, p, q, vp, vq, u.value.value);
        } else {
          DeleteShort(s, t, p, q, vp, vq);
        }
      } else if u.value.Some? {
        PutLong(s, t, p, q, vp, vq, u.value.value);
      } else {
        DeleteLong(s, t, p, q, vp, vq);
      }
    }
  }

  lemma BeginsAgrees<P(!new)>(s: Settings<P>, a: Key, b: Key)
    requires Lossless(s) && s.discards && Begins(BytesToNibbles(a), BytesToNibbles(b))
    ensures AgreesOver(s, iset{a, b})
  {
    hide ApplyUpdate, GetRecursive;
    var inv := (t: Store<P>, m: map<Key, Value>) => StackInv(s, a, b, t, m);
    assert inv(Store(None, {}), map[]);
    forall t: Store<P>, m: map<Key, Value>, u: Update | WfSlot(t.root) && inv(t, m) && u.key in iset{a, b}
      ensures ApplyUpdate(s, t, u).Some? && inv(ApplyUpdate(s, t, u).value, Put(m, u.key, u.value))
    {
      StackUpdate(s, t, m, a, b, u);
    }
    forall t: Store<P>, m: map<Key, Value>, k | WfSlot(t.root) && inv(t, m) && k in iset{a, b}
      ensures Answer(s, t, k) == Lookup(m, k)
    {
      if t.root.Some? {
        StackAnswers(s, t, BytesToNibbles(a), BytesToNibbles(b), Lookup(m, a), Lookup(m, b));
      }
    }
    InvariantAgrees(s, iset{a, b}, inv);
  }

  /** With a lossless packing and replaced nodes discarded, any two keys are answered
      like a plain map in all runs exactly when they do not differ in one nibble alone. */
  lemma PairAgreesIff<P(!new)>(s: Settings<P>, a: Key, b: Key)
    requires Lossless(s) && s.discards && a != b
    ensures AgreesOver(s, iset{a, b}) <==> !Twins(a, b)
  {
    hide AgreesOver, BytesToNibbles, Lossless;
    var p, q := BytesToNibbles(a), BytesToNibbles(b);
    if Twins(a, b) {
      TwinsDisagree(s, iset{a, b}, a, b);
    } else {
      NibblesDiffer(a, b);
      var f := Trie.CommonPrefixLen(p, q);
      assert p[..|p|] == p && q[..|q|] == q;
      if f < |p| && f < |q| {
        assert !TwinsAt(p, q, f);
        ApartAgrees(s, a, b, f);
      } else if |p| < |q| {
        BeginsAgrees(s, a, b);
      } else {
        BeginsAgrees(s, b, a);
        assert iset{b, a} == iset{a, b};
      }
    }
  }

  // ----- a condition for every set of keys -----

  /** Lookups do not ask whether nodes are discarded. */
  lemma {:induction false} LookupAlike<P>(s: Settings<P>, nodes: set<Node<P>>, n: Node<P>, key: Path, visited: seq<Node<P>>)
    requires Wf(n)
    ensures GetRecursive(s.(discards := false), nodes, n, key, visited) == GetRecursive(s, nodes, n, key, visited)
    decreases n
  {
    match n
    case Empty =>
    case Leaf(_, _) =>
    case Extension(path, child) =>
      if s.unpack(path) <= key {
        LookupAlike(s, nodes, child, key[|s.unpack(path)|..], visited + [n]);
      }
    case Branch(children, _) =>
      if key != [] && children[key[0]].Some? {
        LookupAlike(s, nodes, children[key[0]].value, key[1..], visited + [n]);
      }
  }

  /** Nothing is discarded while two keys are stored. */
  lemma TwoPutsAlike<P>(s: Settings<P>, a: Key, b: Key)
    requires Lossless(s) && a != b
    ensures RunOps(s.(discards := false), Initial(), TwoPuts(a, [], b, [])) == RunOps(s, Initial(), TwoPuts(a, [], b, []))
  {
    hide RunOps, TwoPuts, BytesToNibbles, SplitAndInsert;
    var kept := s.(discards := false);
    TwoPutsRun(s, a, [], b, []);
    TwoPutsRun(kept, a, [], b, []);
    NibblesDiffer(a, b);
    var na, nb := BytesToNibbles(a), BytesToNibbles(b);
    var leaf := NewLeaf(s, na, []);
    assert s.unpack(leaf.path) == na;
    var common := Trie.CommonPrefixLen(nb, na);
    assert na[..|na|] == na && nb[..|nb|] == nb;
    SplitAlike(s, {} + {leaf}, nb, na, common);
  }

  lemma NibblesDiffer(a: Key, b: Key)
    requires a != b
    ensures BytesToNibbles(a) != BytesToNibbles(b)
  {
    if BytesToNibbles(a) == BytesToNibbles(b) {
      NibblesInjective(a, b);
    }
  }

  lemma SplitAlike<P>(s: Settings<P>, nodes: set<Node<P>>, key: Path, existing: Path, common: nat)
    requires common <= |key| && common <= |existing|
    ensures SplitAndInsert(s.(discards := false), nodes, key, [], existing, [], common) ==
            SplitAndInsert(s, nodes, key, [], existing, [], common)
  {}

  lemma ForksDisagree<P(!new)>(s: Settings<P>, universe: iset<Key>)
    requires Lossless(s) && !TrieStore.ForkFree(universe)
    ensures !AgreesOver(s, universe)
  {
    hide RunOps, TwoPuts, PlainRun, GetRecursive;
    var x :| x in universe && TrieStore.Fork(universe, BytesToNibbles(x));
    var a, b :| a in universe && b in universe && Trie.Diverge(BytesToNibbles(x), BytesToNibbles(a), BytesToNibbles(b));
    var kept := s.(discards := false);
    ForkDisagrees(kept, x, a, b);
    TwoPutsRun(s, a, [], b, []);
    TwoPutsAlike(s, a, b);
    var r := RunOps(s, Initial(), TwoPuts(a, [], b, [])).value.store;
    if r.root.Some? {
      LookupAlike(s, r.nodes, r.root.value, BytesToNibbles(x), []);
    }
    assert !AgreesAfter(s, universe, TwoPuts(a, [], b, []));
  }

  /** Whatever the set of keys, it is served only if none of them are twins and none
      is where two others part. */
  lemma AgreesOnlyIf<P(!new)>(s: Settings<P>, universe: iset<Key>)
    requires Lossless(s) && s.discards && AgreesOver(s, universe)
    ensures TrieStore.ForkFree(universe)
    ensures forall a, b | a in universe && b in universe :: !Twins(a, b)
  {
    hide Twins, AgreesOver;
    if !TrieStore.ForkFree(universe) {
      ForksDisagree(s, universe);
    }
    forall a, b | a in universe && b in universe
      ensures !Twins(a, b)
    {
      if Twins(a, b) {
        TwinsDisagree(s, universe, a, b);
      }
    }
  }
}
