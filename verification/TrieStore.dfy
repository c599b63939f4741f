/**
 * The trie on plain nibble sequences under batched updates, and its agreement
 * with a plain map.
 */
module TrieStore {
  import opened Common
  import opened Trie
  import opened TrieUpdates

  // ----- updates -----

  function ApplyUpdate(root: Option<Node>, u: Update): (r: Option<Node>)
    requires WfSlot(root)
    ensures WfSlot(r)
  {
    if u.value.Some? then InsertSlot(root, BytesToNibbles(u.key), u.value.value)
    else DeleteSlot(root, BytesToNibbles(u.key))
  }

  function ApplyAll(root: Option<Node>, updates: seq<Update>): (r: Option<Node>)
    requires WfSlot(root)
    ensures WfSlot(r)
    decreases |updates|
  {
    if updates == [] then root else ApplyAll(ApplyUpdate(root, updates[0]), updates[1..])
  }

  // ----- which sets of keys the trie serves correctly -----

  /** Two keys of the universe part at `x`. */
  ghost predicate Fork(universe: iset<Key>, x: Path) {
    exists a, b :: a in universe && b in universe && Diverge(x, BytesToNibbles(a), BytesToNibbles(b))
  }

  /** No key sits where two others part. */
  ghost predicate ForkFree(universe: iset<Key>) {
    forall k | k in universe :: !Fork(universe, BytesToNibbles(k))
  }

  ghost predicate IsKey(universe: iset<Key>, q: Path) {
    exists k :: k in universe && BytesToNibbles(k) == q
  }

  /** The trie answers every key of the universe as the map does; anything else
      it can be made to answer is a phantom at a fork. */
  ghost predicate Represents(root: Option<Node>, universe: iset<Key>, m: map<Key, Value>) {
    && WfSlot(root)
    && (forall k | k in universe :: GetSlot(root, BytesToNibbles(k)) == Lookup(m, k))
    && (forall q | GetSlot(root, q).Some? :: IsKey(universe, q) || Fork(universe, q))
  }

  lemma PhantomIsFork(n: Node, universe: iset<Key>, key: Key, q: Path)
    requires Wf(n) && key in universe && Phantom(n, BytesToNibbles(key), q)
    requires forall q | Get(n, q).Some? :: IsKey(universe, q) || Fork(universe, q)
    ensures Fork(universe, q)
  {
    var e :| Get(n, e).Some? && Diverge(q, BytesToNibbles(key), e);
    if IsKey(universe, e) {
      var k :| k in universe && BytesToNibbles(k) == e;
      assert Diverge(q, BytesToNibbles(key), BytesToNibbles(k));
    } else {
      var a, b :| a in universe && b in universe && Diverge(e, BytesToNibbles(a), BytesToNibbles(b));
      assert Diverge(q, BytesToNibbles(key), BytesToNibbles(a)) by {
        var na := BytesToNibbles(a);
        assert na[..|q|] == na[..|e|][..|q|] == q;
        assert na[|q|] == na[..|e|][|q|];
      }
    }
  }

  lemma InsertSlotGet(root: Option<Node>, universe: iset<Key>, key: Key, value: Value, q: Path)
    requires WfSlot(root) && key in universe
    requires forall q | GetSlot(root, q).Some? :: IsKey(universe, q) || Fork(universe, q)
    ensures var path := BytesToNibbles(key);
            var r := InsertSlot(root, path, value);
            if q == path then GetSlot(r, q) == Some(value)
            else GetSlot(r, q) == GetSlot(root, q) || Fork(universe, q)
  {
    var path := BytesToNibbles(key);
    if root.None? {
      LeafGet(path, value, q);
    } else {
      InsertGet(root.value, path, value, q);
      if q != path && Phantom(root.value, path, q) {
        forall q | Get(root.value, q).Some?
          ensures IsKey(universe, q) || Fork(universe, q)
        {
          assert GetSlot(root, q).Some?;
        }
        PhantomIsFork(root.value, universe, key, q);
      }
    }
  }

  lemma DeleteSlotGet(root: Option<Node>, key: Path, q: Path)
    requires WfSlot(root)
    ensures GetSlot(DeleteSlot(root, key), q) == if q == key then None else GetSlot(root, q)
  {
    if root.Some? {
      DeleteGet(root.value, key, q);
    }
  }

  lemma UpdateRepresents(root: Option<Node>, universe: iset<Key>, m: map<Key, Value>, u: Update)
    requires ForkFree(universe) && u.key in universe && Represents(root, universe, m)
    ensures Represents(ApplyUpdate(root, u), universe, Put(m, u.key, u.value))
  {
    hide Fork, IsKey;
    var root', path := ApplyUpdate(root, u), BytesToNibbles(u.key);
    forall q
      ensures q == path ==> GetSlot(root', q) == u.value
      ensures q != path && !Fork(universe, q) ==> GetSlot(root', q) == GetSlot(root, q)
      ensures q != path && GetSlot(root', q) != GetSlot(root, q) ==> Fork(universe, q)
    {
      if u.value.Some? {
        InsertSlotGet(root, universe, u.key, u.value.value, q);
      } else {
        DeleteSlotGet(root, path, q);
      }
    }
    forall k | k in universe
      ensures GetSlot(root', BytesToNibbles(k)) == Lookup(Put(m, u.key, u.value), k)
    {
      if BytesToNibbles(k) == path {
        NibblesInjective(k, u.key);
      }
    }
    KeyIsKey(universe, u.key);
  }

  lemma KeyIsKey(universe: iset<Key>, k: Key)
    requires k in universe
    ensures IsKey(universe, BytesToNibbles(k))
  {
  }

  lemma {:induction false} UpdatesRepresent(root: Option<Node>, universe: iset<Key>, m: map<Key, Value>, updates: seq<Update>)
    requires ForkFree(universe) && Represents(root, universe, m)
    requires forall u | u in updates :: u.key in universe
    ensures Represents(ApplyAll(root, updates), universe, ApplyMap(m, updates))
    decreases |updates|
  {
    if updates != [] {
      UpdateRepresents(root, universe, m, updates[0]);
      UpdatesRepresent(ApplyUpdate(root, updates[0]), universe, Put(m, updates[0].key, updates[0].value), updates[1..]);
    }
  }

  lemma EmptyRepresents(universe: iset<Key>)
    ensures Represents(None, universe, map[])
  {
  }

  ghost predicate Agrees(updates: seq<Update>, k: Key) {
    GetSlot(ApplyAll(None, updates), BytesToNibbles(k)) == Lookup(ApplyMap(map[], updates), k)
  }

  /** The trie agrees with a plain map in all runs over a set of keys exactly
      when no key of the set is where two others part. */
  lemma AgreesIffForkFree(universe: iset<Key>)
    ensures (forall updates, k | Over(universe, updates) && k in universe :: Agrees(updates, k))
       <==> ForkFree(universe)
  {
    if ForkFree(universe) {
      forall updates, k | Over(universe, updates) && k in universe
        ensures Agrees(updates, k)
      {
        EmptyRepresents(universe);
        UpdatesRepresent(None, universe, map[], updates);
      }
    } else {
      var x :| x in universe && Fork(universe, BytesToNibbles(x));
      var a, b :| a in universe && b in universe && Diverge(BytesToNibbles(x), BytesToNibbles(a), BytesToNibbles(b));
      var updates := [Update(a, Some([])), Update(b, Some([]))];
      assert Over(universe, updates);
      ForkReadsPhantom(x, a, b, []);
      assert !Agrees(updates, x);
    }
  }

  /** Storing two keys makes the key at which they part readable. */
  lemma ForkReadsPhantom(x: Key, a: Key, b: Key, value: Value)
    requires Diverge(BytesToNibbles(x), BytesToNibbles(a), BytesToNibbles(b))
    ensures var updates := [Update(a, Some(value)), Update(b, Some(value))];
            && GetSlot(ApplyAll(None, updates), BytesToNibbles(x)) == Some(value)
            && Lookup(ApplyMap(map[], updates), x) == None
  {
    var updates := [Update(a, Some(value)), Update(b, Some(value))];
    var first := ApplyUpdate(None, updates[0]);
    var stored := Put(map[], a, Some(value));
    assert updates[1..] == [updates[1]];
    assert ApplyAll(first, [updates[1]]) == ApplyAll(ApplyUpdate(first, updates[1]), []);
    assert ApplyMap(stored, [updates[1]]) == ApplyMap(Put(stored, b, Some(value)), []);
    PhantomAppears(BytesToNibbles(x), BytesToNibbles(a), BytesToNibbles(b), value);
  }

  lemma PhantomAppears(x: Path, a: Path, b: Path, value: Value)
    requires Diverge(x, a, b)
    ensures Get(Insert(Leaf(a, value), b, value), x) == Some(value)
  {
    SplitPoint(b, a, |x|);
    var rb, ra := b[|x|..], a[|x|..];
    assert b == x + rb && a == x + ra;
    SplitLeafShape(x, rb, value, ra, value);
    var inner := SplitAndInsert(rb, value, ra, value, 0);
    GetUnder(x, inner, x);
    assert x[|x|..] == [];
  }

  lemma SplitPoint(a: Path, b: Path, n: nat)
    requires n < |a| && n < |b| && a[..n] == b[..n] && a[n] != b[n]
    ensures CommonPrefixLen(a, b) == n
  {
    var c := CommonPrefixLen(a, b);
    assert forall i | 0 <= i < n :: a[..n][i] == b[..n][i];
    assert forall i | 0 <= i < c :: a[..c][i] == b[..c][i];
  }

  ghost function FixedLength(len: nat): iset<Key> {
    iset k: Key | |k| == len
  }

  /** Keys of one fixed length never fork on a key. */
  lemma FixedLengthForkFree(len: nat)
    ensures ForkFree(FixedLength(len))
  {
  }

  // ----- the trie with its pending batch -----

  /** The committed trie and the updates waiting for the next commit. */
  datatype State = State(root: Option<Node>, pending: seq<Update>)

  function Committed(s: State): (r: State)
    requires WfSlot(s.root)
    ensures WfSlot(r.root)
  {
    State(ApplyAll(s.root, SortByKey(s.pending)), [])
  }

  function StepOp(s: State, op: Op): (r: State)
    requires WfSlot(s.root)
    ensures WfSlot(r.root)
  {
    match op
    case PutOp(key, value) =>
      var s' := s.(pending := s.pending + [Update(key, Some(value))]);
      if |s'.pending| >= BATCH_THRESHOLD then Committed(s') else s'
    case DeleteOp(key) => s.(pending := s.pending + [Update(key, None)])
    case CommitOp => Committed(s)
  }

  function RunOps(s: State, ops: seq<Op>): (r: State)
    requires WfSlot(s.root)
    ensures WfSlot(r.root)
    decreases |ops|
  {
    if ops == [] then s else RunOps(StepOp(s, ops[0]), ops[1..])
  }

  lemma CommitRepresents(s: State, universe: iset<Key>, m: map<Key, Value>)
    requires ForkFree(universe) && Represents(s.root, universe, m) && Over(universe, s.pending)
    ensures Represents(Committed(s).root, universe, ApplyMap(m, s.pending))
  {
    SortSameElements(s.pending);
    UpdatesRepresent(s.root, universe, m, SortByKey(s.pending));
    SortKeepsMeaning(m, s.pending);
  }

  /** In every run over a fork-free set of keys, the trie answers each key as
      the plain map of the updates committed so far, taken in submission order. */
  lemma {:induction false} RunRepresents(s: State, p: Plain, universe: iset<Key>, ops: seq<Op>)
    requires ForkFree(universe) && OpsOver(universe, ops)
    requires Represents(s.root, universe, p.committed) && s.pending == p.pending && Over(universe, s.pending)
    ensures Represents(RunOps(s, ops).root, universe, PlainRun(p, ops).committed)
    ensures RunOps(s, ops).pending == PlainRun(p, ops).pending
    decreases |ops|
  {
    if ops != [] {
      var op := ops[0];
      assert op in ops;
      match op {
        case PutOp(key, value) =>
          CommitRepresents(s.(pending := s.pending + [Update(key, Some(value))]), universe, p.committed);
        case DeleteOp(key) =>
        case CommitOp =>
          CommitRepresents(s, universe, p.committed);
      }
      RunRepresents(StepOp(s, op), PlainStep(p, op), universe, ops[1..]);
    }
  }

  lemma FixedLengthRunAgrees(len: nat, ops: seq<Op>, k: Key)
    requires OpsOver(FixedLength(len), ops) && |k| == len
    ensures GetSlot(RunOps(State(None, []), ops).root, BytesToNibbles(k)) ==
            Lookup(PlainRun(Plain(map[], []), ops).committed, k)
  {
    var universe := FixedLength(len);
    FixedLengthForkFree(len);
    EmptyRepresents(universe);
    RunRepresents(State(None, []), Plain(map[], []), universe, ops);
  }
}
