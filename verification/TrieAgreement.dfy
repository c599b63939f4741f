/**
 * When the stored trie answers like a plain map (storage/merkle_trie.rs): with
 * paths packed as they are, and with a packing that loses nothing.
 */
module TrieAgreement {
  import opened Common
  import opened NibblePath
  import opened StoredTrie
  import opened TrieUpdates
  import Trie
  import TrieStore

  /** In every run over the given keys nothing panics and every key is answered
      as the plain map of the updates committed so far. */
  ghost predicate AgreesOver<P(!new)>(s: Settings<P>, universe: iset<Key>) {
    forall ops | OpsOver(universe, ops) :: AgreesAfter(s, universe, ops)
  }

  ghost predicate AgreesAfter<P>(s: Settings<P>, universe: iset<Key>, ops: seq<Op>) {
    var r := RunOps(s, Initial(), ops);
    r.Some? && forall k | k in universe ::
        Answer(s, r.value.store, k) == Lookup(PlainRun(Plain(map[], []), ops).committed, k)
  }

  // ----- agreement from an invariant of single updates -----

  /** Every update of a key of the universe keeps what `inv` says of store and map. */
  ghost predicate Kept<P(!new)>(s: Settings<P>, universe: iset<Key>, inv: (Store<P>, map<Key, Value>) -> bool) {
    forall t: Store<P>, m: map<Key, Value>, u: Update | WfSlot(t.root) && inv(t, m) && u.key in universe ::
      ApplyUpdate(s, t, u).Some? && inv(ApplyUpdate(s, t, u).value, Put(m, u.key, u.value))
  }

  ghost predicate Right<P(!new)>(s: Settings<P>, universe: iset<Key>, inv: (Store<P>, map<Key, Value>) -> bool) {
    forall t: Store<P>, m: map<Key, Value>, k | WfSlot(t.root) && inv(t, m) && k in universe :: Answer(s, t, k) == Lookup(m, k)
  }

  lemma {:induction false} UpdatesKeep<P(!new)>(s: Settings<P>, universe: iset<Key>, inv: (Store<P>, map<Key, Value>) -> bool,
                                              t: Store<P>, m: map<Key, Value>, updates: seq<Update>)
    requires Kept(s, universe, inv) && WfSlot(t.root) && inv(t, m) && Over(universe, updates)
    ensures var r := ApplyAll(s, t, updates);
            r.Some? && inv(r.value, ApplyMap(m, updates))
    decreases |updates|
  {
    hide ApplyUpdate;
    if updates != [] {
      assert updates[0] in updates;
      UpdatesKeep(s, universe, inv, ApplyUpdate(s, t, updates[0]).value, Put(m, updates[0].key, updates[0].value), updates[1..]);
    }
  }

  lemma CommitKeeps<P(!new)>(s: Settings<P>, universe: iset<Key>, inv: (Store<P>, map<Key, Value>) -> bool,
                             t: State<P>, m: map<Key, Value>)
    requires Kept(s, universe, inv) && WfSlot(t.store.root) && inv(t.store, m) && Over(universe, t.pending)
    ensures var r := Committed(s, t);
            r.Some? && inv(r.value.store, ApplyMap(m, t.pending)) && r.value.pending == []
  {
    SortSameElements(t.pending);
    UpdatesKeep(s, universe, inv, t.store, m, SortByKey(t.pending));
    SortKeepsMeaning(m, t.pending);
  }

  lemma {:induction false} RunKeepsInvariant<P(!new)>(
      s: Settings<P>, universe: iset<Key>, inv: (Store<P>, map<Key, Value>) -> bool, t: State<P>, p: Plain, ops: seq<Op>)
    requires Kept(s, universe, inv) && WfSlot(t.store.root) && inv(t.store, p.committed) && t.pending == p.pending
    requires Over(universe, t.pending) && OpsOver(universe, ops)
    ensures var r := RunOps(s, t, ops);
            r.Some? && inv(r.value.store, PlainRun(p, ops).committed)
    decreases |ops|
  {
    hide Kept, Committed;
    if ops != [] {
      var op := ops[0];
      assert op in ops;
      match op {
        case PutOp(key, value) =>
          CommitKeeps(s, universe, inv, t.(pending := t.pending + [Update(key, Some(value))]), p.committed);
        case DeleteOp(key) =>
        case CommitOp =>
          CommitKeeps(s, universe, inv, t, p.committed);
      }
      RunKeepsInvariant(s, universe, inv, StepOp(s, t, op).value, PlainStep(p, op), ops[1..]);
    }
  }

  /** An invariant that holds at the start, is kept by single updates and makes the
      answers right makes all runs agree. */
  lemma InvariantAgrees<P(!new)>(s: Settings<P>, universe: iset<Key>, inv: (Store<P>, map<Key, Value>) -> bool)
    requires inv(Store(None, {}), map[]) && Kept(s, universe, inv) && Right(s, universe, inv)
    ensures AgreesOver(s, universe)
  {
    hide Kept, Answer;
    forall ops | OpsOver(universe, ops)
      ensures AgreesAfter(s, universe, ops)
    {
      RunKeepsInvariant(s, universe, inv, Initial(), Plain(map[], []), ops);
    }
  }

  // ----- paths as they are packed -----

  /** Paths are packed two nibbles to a byte, as written. */
  ghost predicate Packs(s: Settings<Packed>) {
    && (forall p :: s.pack(p) == FromNibbles(p))
    && (forall d :: s.unpack(d) == ToNibbles(d))
  }

  /** What is read back has an even length, whatever was packed. */
  lemma ReadsEven(p: Path)
    ensures var r := ToNibbles(FromNibbles(p));
            |r| % 2 == 0 && |r| <= |p| && (|p| % 2 == 0 ==> r == p)
  {
    PackingRoundTrips(p);
    var data := PackBytes(p);
    PackedLength(p);
    if |p| % 2 == 1 {
      UnpackedLength(data[1..]);
    }
  }

  ghost predicate LeavesReadEven(s: Settings<Packed>, branch: Node<Packed>) {
    && branch.Branch? && Wf(branch)
    && forall i | 0 <= i < 16 && branch.children[i].Some? ::
         branch.children[i].value.Leaf? && |s.unpack(branch.children[i].value.path)| % 2 == 0
  }

  lemma SplitReadsEven(s: Settings<Packed>, key: Path, value: Value, existing: Path, existingValue: Value, common: nat)
    requires Packs(s) && common <= |key| && common <= |existing|
    ensures LeavesReadEven(s, SplitBranch(s, key, value, existing, existingValue, common))
  {
    hide ToNibbles, FromNibbles;
    if common < |key| {
      ReadsEven(key[common + 1..]);
    }
    if common < |existing| {
      ReadsEven(existing[common + 1..]);
    }
  }

  /** A key that goes on below a fresh branch is not found: what is left of it
      there is odd, and no leaf reads as an odd path. */
  lemma BelowBranchLost(s: Settings<Packed>, nodes: set<Node<Packed>>, key: Path, value: Value, existing: Path,
                        existingValue: Value, common: nat, store: set<Node<Packed>>, k: Path)
    requires Packs(s) && common <= |key| && common <= |existing| && common < |k| && |k| % 2 == 0
    ensures var g := SplitAndInsert(s, nodes, key, value, existing, existingValue, common);
            g.Grown? && Wf(g.root) && GetRecursive(s, store, g.root, k, []).0 == None
  {
    hide ToNibbles, FromNibbles, SplitBranch, LeavesReadEven;
    var branch := SplitBranch(s, key, value, existing, existingValue, common);
    SplitReadsEven(s, key, value, existing, existingValue, common);
    ReadsEven(key[..common]);
    if common > 0 {
      var root := Extension(s.pack(key[..common]), branch);
      var ext := s.unpack(root.path);
      if ext <= k {
        ChildLost(s, store, branch, k[|ext|..], [] + [root]);
      }
    } else {
      ChildLost(s, store, branch, k, []);
    }
  }

  lemma ChildLost(s: Settings<Packed>, store: set<Node<Packed>>, branch: Node<Packed>, k: Path, visited: seq<Node<Packed>>)
    requires LeavesReadEven(s, branch) && k != [] && |k| % 2 == 0
    ensures GetRecursive(s, store, branch, k, visited).0 == None
  {
    if branch.children[k[0]].Some? {
      assert |k[1..]| % 2 == 1;
    }
  }

  /** Each put committed at once. */
  function CommitEach(puts: seq<(Key, Value)>): seq<Op> {
    if puts == [] then [] else [PutOp(puts[0].0, puts[0].1), CommitOp] + CommitEach(puts[1..])
  }

  function UpdatesOf(puts: seq<(Key, Value)>): seq<Update> {
    if puts == [] then [] else [Update(puts[0].0, Some(puts[0].1))] + UpdatesOf(puts[1..])
  }

  lemma {:induction false} CommitEachRun<P>(s: Settings<P>, t: Store<P>, puts: seq<(Key, Value)>)
    requires WfSlot(t.root)
    ensures var r := ApplyAll(s, t, UpdatesOf(puts));
            RunOps(s, State(t, []), CommitEach(puts)) == if r.None? then None else Some(State(r.value, []))
    decreases |puts|
  {
    if puts != [] {
      var ops, rest := CommitEach(puts), CommitEach(puts[1..]);
      var u := Update(puts[0].0, Some(puts[0].1));
      var next := ApplyUpdate(s, t, u);
      assert ops[1..] == [CommitOp] + rest && ops[1..][1..] == rest;
      assert [] + [u] == [u] && [u][1..] == [] && SortByKey([u]) == [u];
      assert UpdatesOf(puts)[1..] == UpdatesOf(puts[1..]);
      assert ApplyAll(s, t, [u]) == next;
      if next.Some? {
        CommitEachRun(s, next.value, puts[1..]);
      }
    }
  }

  lemma {:induction false} CommitEachPlain(m: map<Key, Value>, puts: seq<(Key, Value)>)
    ensures PlainRun(Plain(m, []), CommitEach(puts)) == Plain(ApplyMap(m, UpdatesOf(puts)), [])
    decreases |puts|
  {
    if puts != [] {
      var ops, u := CommitEach(puts), Update(puts[0].0, Some(puts[0].1));
      assert ops[1..] == [CommitOp] + CommitEach(puts[1..]) && ops[1..][1..] == CommitEach(puts[1..]);
      assert [] + [u] == [u] && [u][1..] == [];
      assert UpdatesOf(puts)[1..] == UpdatesOf(puts[1..]);
      assert ApplyMap(m, [u]) == Put(m, u.key, u.value);
      assert PlainRun(Plain(m, []), ops) == PlainRun(Plain(m, [u]), ops[1..]);
      assert PlainRun(Plain(m, [u]), ops[1..]) == PlainRun(Plain(Put(m, u.key, u.value), []), ops[1..][1..]);
      CommitEachPlain(Put(m, u.key, u.value), puts[1..]);
    }
  }

  lemma {:induction false} CommitEachOver(puts: seq<(Key, Value)>, universe: iset<Key>)
    requires forall p | p in puts :: p.0 in universe
    ensures OpsOver(universe, CommitEach(puts))
  {
    if puts != [] {
      CommitEachOver(puts[1..], universe);
    }
  }

  /** The two keys stored one after the other. */
  function TwoPuts(a: Key, v: Value, b: Key, w: Value): seq<Op> {
    CommitEach([(a, v), (b, w)])
  }

  lemma TwoPutsRun<P>(s: Settings<P>, a: Key, v: Value, b: Key, w: Value)
    ensures var first := ApplyUpdate(s, Store(None, {}), Update(a, Some(v)));
            && first.Some?
            && var second := ApplyUpdate(s, first.value, Update(b, Some(w)));
            && RunOps(s, Initial(), TwoPuts(a, v, b, w)) == (if second.None? then None else Some(State(second.value, [])))
            && PlainRun(Plain(map[], []), TwoPuts(a, v, b, w)).committed == map[a := v][b := w]
    ensures forall universe: iset<Key> | a in universe && b in universe :: OpsOver(universe, TwoPuts(a, v, b, w))
  {
    var puts := [(a, v), (b, w)];
    CommitEachRun(s, Store(None, {}), puts);
    CommitEachPlain(map[], puts);
    TwoUpdates(s, Update(a, Some(v)), Update(b, Some(w)));
    assert puts[1..] == [(b, w)] && [(b, w)][1..] == [];
    assert UpdatesOf([(b, w)]) == [Update(b, Some(w))] + UpdatesOf([]);
    assert UpdatesOf(puts) == [Update(a, Some(v)), Update(b, Some(w))];
    forall universe: iset<Key> | a in universe && b in universe
      ensures OpsOver(universe, TwoPuts(a, v, b, w))
    {
      CommitEachOver(puts, universe);
    }
  }

  lemma TwoUpdates<P>(s: Settings<P>, u: Update, w: Update)
    requires u.value.Some?
    ensures var first := ApplyUpdate(s, Store(None, {}), u);
            first.Some? && ApplyAll(s, Store(None, {}), [u, w]) == ApplyUpdate(s, first.value, w)
    ensures ApplyMap(map[], [u, w]) == Put(Put(map[], u.key, u.value), w.key, w.value)
  {
    hide Insert, Delete;
    assert [u, w][1..] == [w] && [w][1..] == [];
    var first := ApplyUpdate(s, Store(None, {}), u).value;
    assert ApplyAll(s, first, [w]) == if ApplyUpdate(s, first, w).None? then None else ApplyAll(s, ApplyUpdate(s, first, w).value, []);
    assert ApplyMap(Put(map[], u.key, u.value), [w]) == ApplyMap(Put(Put(map[], u.key, u.value), w.key, w.value), []);
  }

  /** The second of two keys splits the leaf of the first. */
  lemma SecondPutSplits(s: Settings<Packed>, na: Path, v: Value, nb: Path, w: Value)
    requires Packs(s) && na != nb && |na| % 2 == 0
    ensures var leaf, common := NewLeaf(s, na, v), Trie.CommonPrefixLen(nb, na);
            Insert(s, {leaf}, leaf, nb, w) == SplitAndInsert(s, {leaf}, nb, w, na, v, common)
  {
    hide SplitAndInsert, ToNibbles, FromNibbles;
    ReadsEven(na);
    var common := Trie.CommonPrefixLen(nb, na);
    assert na[..|na|] == na && nb[..|nb|] == nb;
  }

  lemma TwoPutsStore(s: Settings<Packed>, a: Key, v: Value, b: Key, w: Value)
    requires Packs(s) && a != b
    ensures var na, nb := BytesToNibbles(a), BytesToNibbles(b);
            var g := SplitAndInsert(s, {NewLeaf(s, na, v)}, nb, w, na, v, Trie.CommonPrefixLen(nb, na));
            && na != nb && g.Grown? && Wf(g.root)
            && RunOps(s, Initial(), TwoPuts(a, v, b, w)) == Some(State(Store(Some(g.root), g.nodes), []))
  {
    hide SplitAndInsert, Insert, ToNibbles, FromNibbles, RunOps, TwoPuts;
    var na, nb := BytesToNibbles(a), BytesToNibbles(b);
    if na == nb {
      NibblesInjective(a, b);
    }
    TwoPutsRun(s, a, v, b, w);
    SecondPutSplits(s, na, v, nb, w);
    var leaf := NewLeaf(s, na, v);
    assert {} + {leaf} == {leaf};
    SplitGrows(s, {leaf}, nb, w, na, v, Trie.CommonPrefixLen(nb, na));
  }

  lemma SplitGrows<P>(s: Settings<P>, nodes: set<Node<P>>, key: Path, value: Value, existing: Path, existingValue: Value,
                      common: nat)
    requires common <= |key| && common <= |existing|
    ensures var g := SplitAndInsert(s, nodes, key, value, existing, existingValue, common); g.Grown? && Wf(g.root)
  {
    hide SplitBranch;
  }

  /** One of two keys goes on after the other ends, and both do when they are
      equally long. */
  lemma EitherGoesOn(a: Key, b: Key)
    requires a != b
    ensures var na, nb := BytesToNibbles(a), BytesToNibbles(b);
            && !(na <= nb && nb <= na)
            && (|a| == |b| ==> !(na <= nb) && !(nb <= na))
  {
    var na, nb := BytesToNibbles(a), BytesToNibbles(b);
    if na == nb {
      NibblesInjective(a, b);
    }
    assert na <= nb && |na| == |nb| ==> na == nb;
  }

  lemma CommonIsAll(p: Path, q: Path)
    ensures Trie.CommonPrefixLen(q, p) == |p| ==> p <= q
    ensures Trie.CommonPrefixLen(q, p) == |q| ==> q <= p
  {
    var common := Trie.CommonPrefixLen(q, p);
    assert p[..|p|] == p && q[..|q|] == q && q[..common] == p[..common];
  }

  lemma PathsLost(s: Settings<Packed>, na: Path, v: Value, nb: Path, w: Value, g: Grown<Packed>)
    requires Packs(s) && |na| % 2 == 0 && |nb| % 2 == 0
    requires g == SplitAndInsert(s, {NewLeaf(s, na, v)}, nb, w, na, v, Trie.CommonPrefixLen(nb, na)) && g.Grown? && Wf(g.root)
    ensures !(na <= nb) ==> GetRecursive(s, g.nodes, g.root, na, []).0 == None
    ensures !(nb <= na) ==> GetRecursive(s, g.nodes, g.root, nb, []).0 == None
  {
    hide GetRecursive, SplitAndInsert, ToNibbles, FromNibbles, Trie.CommonPrefixLen;
    CommonIsAll(na, nb);
    var common := Trie.CommonPrefixLen(nb, na);
    if common < |na| {
      BelowBranchLost(s, {NewLeaf(s, na, v)}, nb, w, na, v, common, g.nodes, na);
    }
    if common < |nb| {
      BelowBranchLost(s, {NewLeaf(s, na, v)}, nb, w, na, v, common, g.nodes, nb);
    }
  }

  /** Of any two keys stored, each one that goes on after their common prefix is
      lost: at least one of them, and both when they are equally long. */
  lemma TwoKeysLost(s: Settings<Packed>, a: Key, v: Value, b: Key, w: Value)
    requires Packs(s) && a != b
    ensures var r := RunOps(s, Initial(), TwoPuts(a, v, b, w));
            && r.Some?
            && (!(BytesToNibbles(a) <= BytesToNibbles(b)) ==> Answer(s, r.value.store, a) == None)
            && (!(BytesToNibbles(b) <= BytesToNibbles(a)) ==> Answer(s, r.value.store, b) == None)
            && (|a| == |b| ==> Answer(s, r.value.store, a) == Answer(s, r.value.store, b) == None)
            && (Answer(s, r.value.store, a) == None || Answer(s, r.value.store, b) == None)
  {
    hide GetRecursive, SplitAndInsert, RunOps, TwoPuts, Packs, BytesToNibbles, Trie.CommonPrefixLen;
    TwoPutsStore(s, a, v, b, w);
    EitherGoesOn(a, b);
    var na, nb := BytesToNibbles(a), BytesToNibbles(b);
    PathsLost(s, na, v, nb, w, SplitAndInsert(s, {NewLeaf(s, na, v)}, nb, w, na, v, Trie.CommonPrefixLen(nb, na)));
  }

  /** The store of a trie over one key: nothing, or one leaf. */
  ghost predicate OneKey(s: Settings<Packed>, k: Key, t: Store<Packed>, m: map<Key, Value>) {
    && m.Keys <= {k} && WfSlot(t.root)
    && (k !in m ==> t.root == None)
    && (k in m ==> t.root == Some(NewLeaf(s, BytesToNibbles(k), m[k])) && t.root.value in t.nodes)
  }

  lemma OneKeyUpdate(s: Settings<Packed>, k: Key, t: Store<Packed>, m: map<Key, Value>, u: Update)
    requires Packs(s) && OneKey(s, k, t, m) && u.key == k
    ensures var r := ApplyUpdate(s, t, u);
            r.Some? && OneKey(s, k, r.value, Put(m, k, u.value))
  {
    ReadsEven(BytesToNibbles(k));
    var path := BytesToNibbles(k);
    var common := Trie.CommonPrefixLen(path, path);
    assert common == |path|;
  }

  lemma OneKeyAnswers(s: Settings<Packed>, k: Key, t: Store<Packed>, m: map<Key, Value>)
    requires Packs(s) && OneKey(s, k, t, m)
    ensures Answer(s, t, k) == Lookup(m, k)
  {
    ReadsEven(BytesToNibbles(k));
  }

  ghost predicate AtMostOne(universe: iset<Key>) {
    forall a, b | a in universe && b in universe :: a == b
  }

  /** With its paths packed as they are, the trie answers like a plain map in all
      runs over a set of keys exactly when the set has at most one key. */
  lemma PackedAgreesIffOneKey(s: Settings<Packed>, universe: iset<Key>)
    requires Packs(s)
    ensures AgreesOver(s, universe) <==> AtMostOne(universe)
  {
    if AtMostOne(universe) {
      OneKeyAgrees(s, universe);
    } else {
      var a, b :| a in universe && b in universe && a != b;
      TwoKeysLost(s, a, [], b, []);
      TwoPutsRun(s, a, [], b, []);
      assert !AgreesAfter(s, universe, TwoPuts(a, [], b, []));
    }
  }

  lemma OneKeyAgrees(s: Settings<Packed>, universe: iset<Key>)
    requires Packs(s) && AtMostOne(universe)
    ensures AgreesOver(s, universe)
  {
    var k: Key := if exists x :: x in universe then var x :| x in universe; x else [];
    var inv := (t: Store<Packed>, m: map<Key, Value>) => OneKey(s, k, t, m);
    assert Kept(s, universe, inv) by {
      forall t: Store<Packed>, m: map<Key, Value>, u: Update | WfSlot(t.root) && inv(t, m) && u.key in universe
        ensures ApplyUpdate(s, t, u).Some? && inv(ApplyUpdate(s, t, u).value, Put(m, u.key, u.value))
      {
        OneKeyUpdate(s, k, t, m, u);
      }
    }
    assert Right(s, universe, inv) by {
      forall t: Store<Packed>, m: map<Key, Value>, x | WfSlot(t.root) && inv(t, m) && x in universe
        ensures Answer(s, t, x) == Lookup(m, x)
      {
        OneKeyAnswers(s, k, t, m);
      }
    }
    InvariantAgrees(s, universe, inv);
  }

  // ----- a packing that loses nothing, and a store that keeps its nodes -----

  ghost predicate Lossless<P>(s: Settings<P>) {
    forall p :: s.unpack(s.pack(p)) == p
  }

  /** The node and all below it are in the store. */
  ghost predicate Closed<P>(nodes: set<Node<P>>, n: Node<P>)
    decreases n
  {
    && n in nodes
    && match n
       case Extension(_, child) => Closed(nodes, child)
       case Branch(children, _) => forall i | 0 <= i < |children| && children[i].Some? :: Closed(nodes, children[i].value)
       case _ => true
  }

  lemma {:induction false} ClosedMore<P>(nodes: set<Node<P>>, more: set<Node<P>>, n: Node<P>)
    requires Closed(nodes, n) && nodes <= more
    ensures Closed(more, n)
    decreases n
  {
    match n
    case Extension(_, child) => ClosedMore(nodes, more, child);
    case Branch(children, _) =>
      forall i | 0 <= i < |children| && children[i].Some?
        ensures Closed(more, children[i].value)
      {
        ClosedMore(nodes, more, children[i].value);
      }
    case _ =>
  }

  /** The trie on plain nibble sequences that a stored one stands for. */
  ghost function Unstored<P>(s: Settings<P>, n: Node<P>): (r: Trie.Node)
    requires Wf(n)
    ensures Trie.Wf(r)
    decreases n
  {
    match n
    case Empty => Trie.Empty
    case Leaf(path, value) => Trie.Leaf(s.unpack(path), value)
    case Extension(path, child) => Trie.Extension(s.unpack(path), Unstored(s, child))
    case Branch(children, val) =>
      Trie.Branch(seq(16, i requires 0 <= i < 16 =>
        if children[i].Some? then Some(Unstored(s, children[i].value)) else None), val)
  }

  ghost function UnstoredSlot<P>(s: Settings<P>, slot: Option<Node<P>>): (r: Option<Trie.Node>)
    requires WfSlot(slot)
    ensures Trie.WfSlot(r)
  {
    if slot.Some? then Some(Unstored(s, slot.value)) else None
  }

  ghost function UnstoredAll<P>(s: Settings<P>, children: seq<Option<Node<P>>>): (r: seq<Option<Trie.Node>>)
    requires |children| == 16 && forall i | 0 <= i < 16 :: WfSlot(children[i])
    ensures |r| == 16 && forall i | 0 <= i < 16 :: r[i] == UnstoredSlot(s, children[i])
  {
    seq(16, i requires 0 <= i < 16 => UnstoredSlot(s, children[i]))
  }

  lemma UnstoredBranch<P>(s: Settings<P>, children: seq<Option<Node<P>>>, val: Option<Value>)
    requires Wf(Branch(children, val))
    ensures forall i | 0 <= i < 16 :: WfSlot(children[i])
    ensures Unstored(s, Branch(children, val)) == Trie.Branch(UnstoredAll(s, children), val)
  {
    var u := Unstored(s, Branch(children, val));
    assert u.children == UnstoredAll(s, children);
  }

  lemma {:induction false} LookupRefines<P>(s: Settings<P>, nodes: set<Node<P>>, n: Node<P>, key: Path, visited: seq<Node<P>>)
    requires Wf(n) && Closed(nodes, n)
    ensures GetRecursive(s, nodes, n, key, visited).0 == Trie.Get(Unstored(s, n), key)
    decreases n
  {
    match n
    case Empty =>
    case Leaf(_, _) =>
    case Extension(path, child) =>
      if s.unpack(path) <= key {
        LookupRefines(s, nodes, child, key[|s.unpack(path)|..], visited + [n]);
      }
    case Branch(children, val) =>
      UnstoredBranch(s, children, val);
      if key != [] && children[key[0]].Some? {
        LookupRefines(s, nodes, children[key[0]].value, key[1..], visited + [n]);
      }
  }

  /** A result in the store stands for the given plain trie, and nothing is lost. */
  ghost predicate Stands<P>(s: Settings<P>, before: set<Node<P>>, nodes: set<Node<P>>, n: Node<P>, plain: Trie.Node) {
    before <= nodes && Wf(n) && Closed(nodes, n) && Unstored(s, n) == plain
  }

  ghost predicate SlotStands<P>(s: Settings<P>, before: set<Node<P>>, nodes: set<Node<P>>, slot: Option<Node<P>>,
                                plain: Option<Trie.Node>) {
    before <= nodes && (slot.Some? <==> plain.Some?) && (slot.Some? ==> Stands(s, before, nodes, slot.value, plain.value))
  }

  lemma LeafStands<P>(s: Settings<P>, before: set<Node<P>>, nodes: set<Node<P>>, key: Path, value: Value)
    requires Lossless(s) && before <= nodes && NewLeaf(s, key, value) in nodes
    ensures Stands(s, before, nodes, NewLeaf(s, key, value), Trie.Leaf(key, value))
  {}

  lemma ExtensionStands<P>(s: Settings<P>, before: set<Node<P>>, nodes: set<Node<P>>, path: P, child: Node<P>, plain: Trie.Node)
    requires Stands(s, before, nodes, child, plain)
    ensures var ext := Extension(path, child);
            Stands(s, before, nodes + {ext}, ext, Trie.Extension(s.unpack(path), plain))
  {
    ClosedMore(nodes, nodes + {Extension(path, child)}, child);
  }

  lemma BranchStands<P>(s: Settings<P>, before: set<Node<P>>, nodes: set<Node<P>>, children: seq<Option<Node<P>>>,
                        val: Option<Value>, plain: seq<Option<Trie.Node>>)
    requires before <= nodes && |children| == |plain| == 16
    requires forall i | 0 <= i < 16 :: SlotStands(s, before, nodes, children[i], plain[i])
    ensures var b := Branch(children, val);
            Stands(s, before, nodes + {b}, b, Trie.Branch(plain, val))
  {
    var b := Branch(children, val);
    forall i | 0 <= i < 16 && children[i].Some?
      ensures Closed(nodes + {b}, children[i].value) && Wf(children[i].value)
    {
      assert SlotStands(s, before, nodes, children[i], plain[i]);
      ClosedMore(nodes, nodes + {b}, children[i].value);
    }
    UnstoredBranch(s, children, val);
    forall i | 0 <= i < 16
      ensures UnstoredAll(s, children)[i] == plain[i]
    {
      assert SlotStands(s, before, nodes, children[i], plain[i]);
    }
    assert UnstoredAll(s, children) == plain;
  }

  lemma NoChildrenStand<P>(s: Settings<P>, before: set<Node<P>>, nodes: set<Node<P>>)
    requires before <= nodes
    ensures forall i | 0 <= i < 16 :: SlotStands(s, before, nodes, NoChildren<P>()[i], Trie.NO_CHILDREN[i])
  {}

  lemma UnderPrefixRefines<P>(s: Settings<P>, before: set<Node<P>>, nodes: set<Node<P>>, prefix: Path, n: Node<P>, plain: Trie.Node)
    requires Lossless(s) && Stands(s, before, nodes, n, plain)
    ensures var g := UnderPrefix(s, nodes, prefix, n);
            g.Grown? && Stands(s, before, g.nodes, g.root, Trie.UnderPrefix(prefix, plain))
  {
    if |prefix| > 0 {
      ExtensionStands(s, before, nodes, s.pack(prefix), n, plain);
    }
  }

  lemma SplitRefines<P>(s: Settings<P>, nodes: set<Node<P>>, key: Path, value: Value, existing: Path, existingValue: Value,
                        common: nat)
    requires Lossless(s) && common <= |key| && common <= |existing|
    ensures var g := SplitAndInsert(s, nodes, key, value, existing, existingValue, common);
            g.Grown? && Stands(s, nodes, g.nodes, g.root, Trie.SplitAndInsert(key, value, existing, existingValue, common))
  {
    hide Stands, UnderPrefix;
    var new1 := if |key| > common then {NewLeaf(s, key[common + 1..], value)} else {};
    var new2 := if |existing| > common then {NewLeaf(s, existing[common + 1..], existingValue)} else {};
    var branch := SplitBranch(s, key, value, existing, existingValue, common);
    var leaves := nodes + new1 + new2;
    var plain := Trie.SplitAndInsert(key, value, existing, existingValue, common);
    var plainBranch := if common > 0 then plain.child else plain;
    NoChildrenStand(s, nodes, leaves);
    if |key| > common {
      LeafStands(s, nodes, leaves, key[common + 1..], value);
    }
    if |existing| > common {
      LeafStands(s, nodes, leaves, existing[common + 1..], existingValue);
    }
    BranchStands(s, nodes, leaves, branch.children, branch.val, plainBranch.children);
    UnderPrefixRefines(s, nodes, leaves + {branch}, key[..common], branch, plainBranch);
  }

  lemma RestStands<P>(s: Settings<P>, nodes: set<Node<P>>, below: set<Node<P>>, path: Path, child: Node<P>, plain: Trie.Node)
    requires Lossless(s) && Wf(child) && Closed(nodes, child) && Unstored(s, child) == plain && nodes <= below
    ensures Stands(s, nodes, below, child, plain)
    ensures var ext := Extension(s.pack(path), child);
            ext in below ==> Stands(s, nodes, below, ext, Trie.Extension(path, plain))
  {
    ClosedMore(nodes, below, child);
  }

  lemma SplitExtensionRefines<P>(s: Settings<P>, nodes: set<Node<P>>, key: Path, value: Value, ext: Path, child: Node<P>,
                                 plainChild: Trie.Node, common: nat)
    requires Lossless(s) && common <= |key| && common < |ext|
    requires Wf(child) && Closed(nodes, child) && Unstored(s, child) == plainChild
    ensures var g := SplitExtension(s, nodes, key, value, ext, child, common);
            g.Grown? && Stands(s, nodes, g.nodes, g.root, Trie.SplitExtension(key, value, ext, plainChild, common))
  {
    var new1 := if |key| > common then {NewLeaf(s, key[common + 1..], value)} else {};
    var rest := if |ext| > common + 1 then Extension(s.pack(ext[common + 1..]), child) else child;
    var new2 := if |ext| > common + 1 then {rest} else {};
    var below := nodes + new1 + new2;
    var plainRest := if |ext| > common + 1 then Trie.Extension(ext[common + 1..], plainChild) else plainChild;
    RestStands(s, nodes, below, ext[common + 1..], child, plainChild);
    hide Stands, UnderPrefix;
    NoChildrenStand(s, nodes, below);
    if |key| > common {
      LeafStands(s, nodes, below, key[common + 1..], value);
    }
    var withNew := if |key| > common
      then NoChildren()[key[common] := Some(NewLeaf(s, key[common + 1..], value))] else NoChildren();
    var branch := Branch(withNew[ext[common] := Some(rest)], if |key| == common then Some(value) else None);
    var plain := Trie.SplitExtension(key, value, ext, plainChild, common);
    var plainBranch := if common > 0 then plain.child else plain;
    BranchStands(s, nodes, below, branch.children, branch.val, plainBranch.children);
    UnderPrefixRefines(s, nodes, below + {branch}, ext[..common], branch, plainBranch);
  }

  lemma {:induction false} InsertRefines<P>(s: Settings<P>, nodes: set<Node<P>>, n: Node<P>, key: Path, value: Value)
    requires Lossless(s) && !s.discards && Wf(n) && Closed(nodes, n)
    ensures var g := Insert(s, nodes, n, key, value);
            g.Grown? && Stands(s, nodes, g.nodes, g.root, Trie.Insert(Unstored(s, n), key, value))
    decreases n, 1
  {
    match n
    case Empty => LeafStands(s, nodes, nodes + {NewLeaf(s, key, value)}, key, value);
    case Leaf(path, existing) =>
      var leafPath := s.unpack(path);
      var common := Trie.CommonPrefixLen(key, leafPath);
      if !(common == |leafPath| && common == |key|) {
        SplitRefines(s, nodes, key, value, leafPath, existing, common);
      }
    case Extension(path, child) =>
      var ext := s.unpack(path);
      var common := Trie.CommonPrefixLen(key, ext);
      if common == |ext| {
        InsertRefines(s, nodes, child, key[common..], value);
        var g := Insert(s, nodes, child, key[common..], value);
        ExtensionStands(s, nodes, g.nodes, path, g.root, Trie.Insert(Unstored(s, child), key[common..], value));
      } else {
        SplitExtensionRefines(s, nodes, key, value, ext, child, Unstored(s, child), common);
      }
    case Branch(children, val) =>
      UnstoredBranch(s, children, val);
      if key == [] {
        ChildrenStand(s, nodes, nodes, children, val);
        BranchStands(s, nodes, nodes, children, Some(value), UnstoredAll(s, children));
      } else {
        InsertBelow(s, nodes, children, val, key, value);
      }
  }

  lemma ChildrenStand<P>(s: Settings<P>, nodes: set<Node<P>>, more: set<Node<P>>, children: seq<Option<Node<P>>>, val: Option<Value>)
    requires Wf(Branch(children, val)) && Closed(nodes, Branch(children, val)) && nodes <= more
    ensures forall i | 0 <= i < 16 :: WfSlot(children[i]) && SlotStands(s, nodes, more, children[i], UnstoredAll(s, children)[i])
  {
    forall i | 0 <= i < 16 && children[i].Some?
      ensures Closed(more, children[i].value)
    {
      ClosedMore(nodes, more, children[i].value);
    }
  }

  lemma InsertBelow<P>(s: Settings<P>, nodes: set<Node<P>>, children: seq<Option<Node<P>>>, val: Option<Value>, key: Path, value: Value)
    requires Lossless(s) && !s.discards && Wf(Branch(children, val)) && Closed(nodes, Branch(children, val)) && key != []
    ensures var n := Branch(children, val);
            var g := Insert(s, nodes, n, key, value);
            g.Grown? && Stands(s, nodes, g.nodes, g.root, Trie.Insert(Unstored(s, n), key, value))
    decreases Branch(children, val), 0
  {
    var slot := children[key[0]];
    var g := if slot.Some? then Insert(s, nodes, slot.value, key[1..], value)
             else Grown(nodes + {NewLeaf(s, key[1..], value)}, NewLeaf(s, key[1..], value));
    var plain := if slot.Some? then Trie.Insert(Unstored(s, slot.value), key[1..], value) else Trie.Leaf(key[1..], value);
    assert g.Grown? && Stands(s, nodes, g.nodes, g.root, plain) by {
      if slot.Some? {
        assert slot.value < Branch(children, val);
        InsertRefines(s, nodes, slot.value, key[1..], value);
      } else {
        LeafStands(s, nodes, g.nodes, key[1..], value);
      }
    }
    ChildrenStand(s, nodes, g.nodes, children, val);
    BranchStands(s, nodes, g.nodes, children[key[0] := Some(g.root)], val, UnstoredAll(s, children)[key[0] := Some(plain)]);
    UnstoredBranch(s, children, val);
  }

  /** As `Stands`, for a subtree that may be gone. */
  ghost predicate ShrunkStands<P>(s: Settings<P>, before: set<Node<P>>, t: Shrunk<P>, plain: Option<Trie.Node>) {
    SlotStands(s, before, t.nodes, t.root, plain)
  }

  lemma MadeLeafStands<P>(s: Settings<P>, before: set<Node<P>>, nodes: set<Node<P>>, key: Path, value: Value)
    requires Lossless(s) && before <= nodes
    ensures ShrunkStands(s, before, Made(nodes, NewLeaf(s, key, value)), Some(Trie.Leaf(key, value)))
  {}

  lemma MadeExtensionStands<P>(s: Settings<P>, before: set<Node<P>>, nodes: set<Node<P>>, path: Path, child: Node<P>, plain: Trie.Node)
    requires Lossless(s) && Stands(s, before, nodes, child, plain)
    ensures ShrunkStands(s, before, Made(nodes, Extension(s.pack(path), child)), Some(Trie.Extension(path, plain)))
  {
    ExtensionStands(s, before, nodes, s.pack(path), child, plain);
  }

  lemma MergeRefines<P>(s: Settings<P>, before: set<Node<P>>, nodes: set<Node<P>>, path: P, child: Node<P>, plain: Trie.Node)
    requires Lossless(s) && !s.discards && Stands(s, before, nodes, child, plain)
    ensures ShrunkStands(s, before, MergeExtension(s, nodes, path, child), Some(Trie.MergeExtension(s.unpack(path), plain)))
  {
    match child
    case Extension(childPath, grandchild) =>
      assert Stands(s, before, nodes, grandchild, Unstored(s, grandchild));
      MadeExtensionStands(s, before, nodes, s.unpack(path) + s.unpack(childPath), grandchild, Unstored(s, grandchild));
    case Leaf(leafPath, value) => MadeLeafStands(s, before, nodes, s.unpack(path) + s.unpack(leafPath), value);
    case _ => ExtensionStands(s, before, nodes, path, child, plain);
  }

  lemma {:induction false} SameNonEmpty<P>(children: seq<Option<Node<P>>>, plain: seq<Option<Trie.Node>>, from: nat)
    requires |children| == |plain| && from <= |children|
    requires forall i | 0 <= i < |children| :: children[i].Some? <==> plain[i].Some?
    ensures NonEmpty(children, from) == Trie.NonEmpty(plain, from)
    decreases |children| - from
  {
    if from < |children| {
      SameNonEmpty(children, plain, from + 1);
    }
  }

  lemma SimplifyRefines<P>(s: Settings<P>, before: set<Node<P>>, nodes: set<Node<P>>, children: seq<Option<Node<P>>>,
                           val: Option<Value>, plain: seq<Option<Trie.Node>>)
    requires Lossless(s) && !s.discards && before <= nodes && |children| == |plain| == 16
    requires forall i | 0 <= i < 16 :: SlotStands(s, before, nodes, children[i], plain[i])
    requires Trie.Wf(Trie.Branch(plain, val))
    ensures ShrunkStands(s, before, SimplifyBranch(s, nodes, children, val), Trie.SimplifyBranch(plain, val))
  {
    forall i | 0 <= i < 16
      ensures children[i].Some? <==> plain[i].Some?
    {
      assert SlotStands(s, before, nodes, children[i], plain[i]);
    }
    SameNonEmpty(children, plain, 0);
    var nonEmpty := NonEmpty(children, 0);
    if |nonEmpty| == 0 {
      if val.Some? {
        MadeLeafStands(s, before, nodes, [], val.value);
      }
    } else if |nonEmpty| == 1 && val.None? {
      assert nonEmpty[0] in nonEmpty;
      SimplifySingle(s, before, nodes, children, plain, nonEmpty[0]);
    } else {
      BranchStands(s, before, nodes, children, val, plain);
    }
  }

  lemma SimplifySingle<P>(s: Settings<P>, before: set<Node<P>>, nodes: set<Node<P>>, children: seq<Option<Node<P>>>,
                          plain: seq<Option<Trie.Node>>, index: Trie.Nibble)
    requires Lossless(s) && !s.discards && before <= nodes && |children| == |plain| == 16
    requires forall i | 0 <= i < 16 :: SlotStands(s, before, nodes, children[i], plain[i])
    requires Trie.Wf(Trie.Branch(plain, None)) && NonEmpty(children, 0) == [index] == Trie.NonEmpty(plain, 0)
    ensures ShrunkStands(s, before, SimplifyBranch(s, nodes, children, None), Trie.SimplifyBranch(plain, None))
  {
    assert index in NonEmpty(children, 0);
    assert SlotStands(s, before, nodes, children[index], plain[index]);
    var child := children[index].value;
    match child
    case Leaf(path, value) => MadeLeafStands(s, before, nodes, [index] + s.unpack(path), value);
    case Extension(path, grandchild) =>
      assert Stands(s, before, nodes, grandchild, Unstored(s, grandchild));
      MadeExtensionStands(s, before, nodes, [index] + s.unpack(path), grandchild, Unstored(s, grandchild));
    case _ => BranchStands(s, before, nodes, children, None, plain);
  }

  lemma {:induction false} DeleteRefines<P>(s: Settings<P>, nodes: set<Node<P>>, n: Node<P>, key: Path)
    requires Lossless(s) && !s.discards && Wf(n) && Closed(nodes, n)
    ensures ShrunkStands(s, nodes, Delete(s, nodes, n, key), Trie.Delete(Unstored(s, n), key))
    decreases n, 1
  {
    match n
    case Empty =>
    case Leaf(_, _) =>
    case Extension(path, child) =>
      var ext := s.unpack(path);
      if ext <= key {
        DeleteRefines(s, nodes, child, key[|ext|..]);
        var t := Delete(s, nodes, child, key[|ext|..]);
        if t.root.Some? {
          MergeRefines(s, nodes, t.nodes, path, t.root.value, Trie.Delete(Unstored(s, child), key[|ext|..]).value);
        }
      }
    case Branch(children, val) =>
      UnstoredBranch(s, children, val);
      ChildrenStand(s, nodes, nodes, children, val);
      if key == [] {
        SimplifyRefines(s, nodes, nodes, children, None, UnstoredAll(s, children));
      } else if children[key[0]].Some? {
        DeleteBelow(s, nodes, children, val, key);
      }
  }

  lemma DeleteBelow<P>(s: Settings<P>, nodes: set<Node<P>>, children: seq<Option<Node<P>>>, val: Option<Value>, key: Path)
    requires Lossless(s) && !s.discards && Wf(Branch(children, val)) && Closed(nodes, Branch(children, val))
    requires key != [] && children[key[0]].Some?
    ensures var n := Branch(children, val);
            ShrunkStands(s, nodes, Delete(s, nodes, n, key), Trie.Delete(Unstored(s, n), key))
    decreases Branch(children, val), 0
  {
    var child := children[key[0]].value;
    assert child < Branch(children, val);
    DeleteRefines(s, nodes, child, key[1..]);
    var t := Delete(s, nodes, child, key[1..]);
    var plain := Trie.Delete(Unstored(s, child), key[1..]);
    ChildrenStand(s, nodes, t.nodes, children, val);
    UnstoredBranch(s, children, val);
    SimplifyRefines(s, nodes, t.nodes, children[key[0] := t.root], val, UnstoredAll(s, children)[key[0] := plain]);
  }

  /** The store stands for a plain trie. */
  ghost predicate StoreStands<P>(s: Settings<P>, t: Store<P>, plain: Option<Trie.Node>) {
    SlotStands(s, t.nodes, t.nodes, t.root, plain)
  }

  lemma UpdateRefines<P>(s: Settings<P>, t: Store<P>, plain: Option<Trie.Node>, u: Update)
    requires Lossless(s) && !s.discards && WfSlot(t.root) && Trie.WfSlot(plain) && StoreStands(s, t, plain)
    ensures var r := ApplyUpdate(s, t, u);
            r.Some? && StoreStands(s, r.value, TrieStore.ApplyUpdate(plain, u))
  {
    var path := BytesToNibbles(u.key);
    if u.value.Some? {
      if t.root.None? {
        LeafStands(s, t.nodes, t.nodes + {NewLeaf(s, path, u.value.value)}, path, u.value.value);
      } else {
        InsertRefines(s, t.nodes, t.root.value, path, u.value.value);
      }
    } else if t.root.Some? {
      DeleteRefines(s, t.nodes, t.root.value, path);
    }
  }

  lemma {:induction false} UpdatesRefine<P>(s: Settings<P>, t: Store<P>, plain: Option<Trie.Node>, updates: seq<Update>)
    requires Lossless(s) && !s.discards && WfSlot(t.root) && Trie.WfSlot(plain) && StoreStands(s, t, plain)
    ensures var r := ApplyAll(s, t, updates);
            r.Some? && StoreStands(s, r.value, TrieStore.ApplyAll(plain, updates))
    decreases |updates|
  {
    hide StoreStands, ApplyUpdate;
    if updates != [] {
      UpdateRefines(s, t, plain, updates[0]);
      UpdatesRefine(s, ApplyUpdate(s, t, updates[0]).value, TrieStore.ApplyUpdate(plain, updates[0]), updates[1..]);
    }
  }

  /** With a lossless packing and a store that keeps its nodes, every run of the
      stored trie is that of the trie on plain nibble sequences. */
  lemma {:induction false} RunRefines<P>(s: Settings<P>, t: State<P>, plain: TrieStore.State, ops: seq<Op>)
    requires Lossless(s) && !s.discards && WfSlot(t.store.root) && Trie.WfSlot(plain.root)
    requires StoreStands(s, t.store, plain.root) && t.pending == plain.pending
    ensures var r := RunOps(s, t, ops);
            && r.Some? && StoreStands(s, r.value.store, TrieStore.RunOps(plain, ops).root)
            && r.value.pending == TrieStore.RunOps(plain, ops).pending
    decreases |ops|
  {
    hide StoreStands;
    if ops != [] {
      var op := ops[0];
      match op {
        case PutOp(key, value) =>
          UpdatesRefine(s, t.store, plain.root, SortByKey(t.pending + [Update(key, Some(value))]));
        case DeleteOp(key) =>
        case CommitOp =>
          UpdatesRefine(s, t.store, plain.root, SortByKey(t.pending));
      }
      RunRefines(s, StepOp(s, t, op).value, TrieStore.StepOp(plain, op), ops[1..]);
    }
  }

  lemma AnswerRefines<P>(s: Settings<P>, t: Store<P>, plain: Option<Trie.Node>, k: Key)
    requires WfSlot(t.root) && Trie.WfSlot(plain) && StoreStands(s, t, plain)
    ensures Answer(s, t, k) == Trie.GetSlot(plain, BytesToNibbles(k))
  {
    if t.root.Some? {
      LookupRefines(s, t.nodes, t.root.value, BytesToNibbles(k), []);
    }
  }

  /** With a lossless packing and a store that keeps its nodes, the trie answers
      like a plain map in all runs over a set of keys exactly when no key of the
      set is where two others part. */
  lemma LosslessAgreesIffForkFree<P(!new)>(s: Settings<P>, universe: iset<Key>)
    requires Lossless(s) && !s.discards
    ensures AgreesOver(s, universe) <==> TrieStore.ForkFree(universe)
  {
    hide Answer, RunOps, PlainRun;
    if TrieStore.ForkFree(universe) {
      forall ops | OpsOver(universe, ops)
        ensures AgreesAfter(s, universe, ops)
      {
        ForkFreeAgrees(s, universe, ops);
      }
    } else {
      var x :| x in universe && TrieStore.Fork(universe, BytesToNibbles(x));
      var a, b :| a in universe && b in universe && Trie.Diverge(BytesToNibbles(x), BytesToNibbles(a), BytesToNibbles(b));
      ForkDisagrees(s, x, a, b);
      TwoPutsRun(s, a, [], b, []);
      assert !AgreesAfter(s, universe, TwoPuts(a, [], b, []));
    }
  }

  lemma ForkFreeAgrees<P>(s: Settings<P>, universe: iset<Key>, ops: seq<Op>)
    requires Lossless(s) && !s.discards && TrieStore.ForkFree(universe) && OpsOver(universe, ops)
    ensures AgreesAfter(s, universe, ops)
  {
    hide StoreStands, RunOps, TrieStore.RunOps, PlainRun;
    var start := TrieStore.State(None, []);
    assert StoreStands(s, Initial<P>().store, None) by {
      StartStands(s);
    }
    RunRefines(s, Initial(), start, ops);
    TrieStore.EmptyRepresents(universe);
    TrieStore.RunRepresents(start, Plain(map[], []), universe, ops);
    forall k | k in universe
      ensures Answer(s, RunOps(s, Initial(), ops).value.store, k) == Lookup(PlainRun(Plain(map[], []), ops).committed, k)
    {
      AnswerRefines(s, RunOps(s, Initial(), ops).value.store, TrieStore.RunOps(start, ops).root, k);
    }
  }

  lemma StartStands<P>(s: Settings<P>)
    ensures StoreStands(s, Initial<P>().store, None)
  {}

  lemma ForkDisagrees<P>(s: Settings<P>, x: Key, a: Key, b: Key)
    requires Lossless(s) && !s.discards && Trie.Diverge(BytesToNibbles(x), BytesToNibbles(a), BytesToNibbles(b))
    ensures var r := RunOps(s, Initial(), TwoPuts(a, [], b, []));
            && r.Some? && Answer(s, r.value.store, x) == Some([])
            && Lookup(PlainRun(Plain(map[], []), TwoPuts(a, [], b, [])).committed, x) == None
  {
    hide StoreStands, RunOps, TwoPuts, Answer;
    TwoPutsRun(s, a, [], b, []);
    StartStands(s);
    UpdateRefines(s, Store(None, {}), None, Update(a, Some([])));
    var first := ApplyUpdate(s, Store(None, {}), Update(a, Some([]))).value;
    var plain := TrieStore.ApplyUpdate(None, Update(a, Some([])));
    UpdateRefines(s, first, plain, Update(b, Some([])));
    TrieStore.ForkReadsPhantom(x, a, b, []);
    AppliedTwice(a, b);
    AnswerRefines(s, ApplyUpdate(s, first, Update(b, Some([]))).value, TrieStore.ApplyUpdate(plain, Update(b, Some([]))), x);
  }

  lemma AppliedTwice(a: Key, b: Key)
    ensures var updates := [Update(a, Some([])), Update(b, Some([]))];
            && TrieStore.ApplyAll(None, updates) ==
                 TrieStore.ApplyUpdate(TrieStore.ApplyUpdate(None, updates[0]), updates[1])
            && ApplyMap(map[], updates) == map[a := []][b := []]
  {
    var updates := [Update(a, Some([])), Update(b, Some([]))];
    assert updates[1..] == [updates[1]] && [updates[1]][1..] == [];
    var first := TrieStore.ApplyUpdate(None, updates[0]);
    assert TrieStore.ApplyAll(first, [updates[1]]) == TrieStore.ApplyAll(TrieStore.ApplyUpdate(first, updates[1]), []);
    assert ApplyMap(map[a := []], [updates[1]]) == ApplyMap(map[a := []][b := []], []);
  }
}
