/**
 * The trie as it is stored (storage/merkle_trie.rs): nodes live in a store under
 * the hash of their content, and leaves and extensions hold packed paths. With
 * hashes that do not collide a hash is as good as the node with all below it, so
 * the store is the set of the nodes it holds. How paths are packed, and whether
 * replaced nodes are discarded, are settings.
 */
module StoredTrie {
  import opened Common
  import opened TrieUpdates
  import Trie

  type Path = Trie.Path
  type Nibble = Trie.Nibble
  type Value = Trie.Value

  datatype Settings<!P> = Settings(pack: Path -> P, unpack: P -> Path, discards: bool)

  datatype Node<P> =
    | Empty
    | Leaf(path: P, value: Value)
    | Extension(path: P, child: Node<P>)
    | Branch(children: seq<Option<Node<P>>>, val: Option<Value>)

  /** Branches have sixteen slots. */
  predicate Wf<P>(n: Node<P>) {
    match n
    case Empty => true
    case Leaf(_, _) => true
    case Extension(_, child) => Wf(child)
    case Branch(children, _) =>
      |children| == 16 && forall i | 0 <= i < 16 :: children[i].Some? ==> Wf(children[i].value)
  }

  predicate WfSlot<P>(slot: Option<Node<P>>) {
    slot.Some? ==> Wf(slot.value)
  }

  function NoChildren<P>(): seq<Option<Node<P>>> {
    seq(16, _ => None)
  }

  function Discard<P(==)>(s: Settings<P>, nodes: set<Node<P>>, n: Node<P>): set<Node<P>> {
    if s.discards then nodes - {n} else nodes
  }

  // ----- lookup -----

  /** `get_recursive`: a node missing from the store answers nothing. */
  function GetRecursive<P(==)>(s: Settings<P>, nodes: set<Node<P>>, n: Node<P>, key: Path, visited: seq<Node<P>>)
    : (Option<Value>, seq<Node<P>>)
    requires Wf(n)
    decreases n
  {
    var path := visited + [n];
    if n !in nodes then (None, path)
    else
      match n
      case Empty => (None, path)
      case Leaf(leafPath, value) => (if key == s.unpack(leafPath) then Some(value) else None, path)
      case Extension(extPath, child) =>
        var ext := s.unpack(extPath);
        if ext <= key then GetRecursive(s, nodes, child, key[|ext|..], path) else (None, path)
      case Branch(children, val) =>
        if key == [] then (val, path)
        else if children[key[0]].Some? then GetRecursive(s, nodes, children[key[0]].value, key[1..], path)
        else (None, path)
  }

  // ----- insertion -----

  /** The store and the new root, or a panic on a node missing from the store. */
  datatype Grown<P(==)> = Panic | Grown(nodes: set<Node<P>>, root: Node<P>)

  function UnderPrefix<P(==)>(s: Settings<P>, nodes: set<Node<P>>, prefix: Path, n: Node<P>): Grown<P> {
    if |prefix| > 0 then
      var ext := Extension(s.pack(prefix), n);
      Grown(nodes + {ext}, ext)
    else Grown(nodes, n)
  }

  function NewLeaf<P>(s: Settings<P>, key: Path, value: Value): Node<P> {
    Leaf(s.pack(key), value)
  }

  /** The branch where the new and the existing key part. */
  function SplitBranch<P>(s: Settings<P>, key: Path, value: Value, existingKey: Path, existingValue: Value, common: nat)
    : (n: Node<P>)
    requires common <= |key| && common <= |existingKey|
    ensures n.Branch? && Wf(n)
  {
    var withNew := if |key| > common
      then NoChildren()[key[common] := Some(NewLeaf(s, key[common + 1..], value))] else NoChildren();
    var withBoth := if |existingKey| > common
      then withNew[existingKey[common] := Some(NewLeaf(s, existingKey[common + 1..], existingValue))] else withNew;
    Branch(withBoth, if |key| == common then Some(value) else Some(existingValue))
  }

  /** `split_and_insert` */
  function SplitAndInsert<P(==)>(s: Settings<P>, nodes: set<Node<P>>, key: Path, value: Value,
                                 existingKey: Path, existingValue: Value, common: nat): Grown<P>
    requires common <= |key| && common <= |existingKey|
  {
    var new1 := if |key| > common then {NewLeaf(s, key[common + 1..], value)} else {};
    var new2 := if |existingKey| > common then {NewLeaf(s, existingKey[common + 1..], existingValue)} else {};
    var branch := SplitBranch(s, key, value, existingKey, existingValue, common);
    UnderPrefix(s, nodes + new1 + new2 + {branch}, key[..common], branch)
  }

  /** `split_extension` */
  function SplitExtension<P(==)>(s: Settings<P>, nodes: set<Node<P>>, key: Path, value: Value, ext: Path,
                                 child: Node<P>, common: nat): Grown<P>
    requires common <= |key| && common < |ext|
  {
    var new1 := if |key| > common then {NewLeaf(s, key[common + 1..], value)} else {};
    var withNew := if |key| > common
      then NoChildren()[key[common] := Some(NewLeaf(s, key[common + 1..], value))] else NoChildren();
    var rest := if |ext| > common + 1 then Extension(s.pack(ext[common + 1..]), child) else child;
    var new2 := if |ext| > common + 1 then {rest} else {};
    var branch := Branch(withNew[ext[common] := Some(rest)], if |key| == common then Some(value) else None);
    UnderPrefix(s, nodes + new1 + new2 + {branch}, ext[..common], branch)
  }

  /** `insert_recursive` on an existing node */
  function Insert<P(==)>(s: Settings<P>, nodes: set<Node<P>>, n: Node<P>, key: Path, value: Value): Grown<P>
    requires Wf(n)
    decreases n
  {
    if n !in nodes then Panic
    else
      match n
      case Empty => Grown(nodes + {NewLeaf(s, key, value)}, NewLeaf(s, key, value))
      case Leaf(path, existing) =>
        var leafPath := s.unpack(path);
        var common := Trie.CommonPrefixLen(key, leafPath);
        if common == |leafPath| && common == |key| then
          Grown(Discard(s, nodes, n) + {Leaf(path, value)}, Leaf(path, value))
        else SplitAndInsert(s, nodes, key, value, leafPath, existing, common)
      case Extension(path, child) =>
        var ext := s.unpack(path);
        var common := Trie.CommonPrefixLen(key, ext);
        if common == |ext| then
          var g := Insert(s, nodes, child, key[common..], value);
          if g.Panic? then Panic
          else Grown(Discard(s, g.nodes, n) + {Extension(path, g.root)}, Extension(path, g.root))
        else SplitExtension(s, nodes, key, value, ext, child, common)
      case Branch(children, val) =>
        if key == [] then
          Grown(Discard(s, nodes, n) + {Branch(children, Some(value))}, Branch(children, Some(value)))
        else
          var slot := children[key[0]];
          var g := if slot.Some? then Insert(s, nodes, slot.value, key[1..], value)
                   else Grown(nodes + {NewLeaf(s, key[1..], value)}, NewLeaf(s, key[1..], value));
          if g.Panic? then Panic
          else
            var branch := Branch(children[key[0] := Some(g.root)], val);
            Grown(Discard(s, g.nodes, n) + {branch}, branch)
  }

  // ----- deletion -----

  /** The store and what is left of the subtree. */
  datatype Shrunk<P(==)> = Shrunk(nodes: set<Node<P>>, root: Option<Node<P>>)

  /** `create_node`, and its result as a slot. */
  function Made<P(==)>(nodes: set<Node<P>>, n: Node<P>): Shrunk<P> {
    Shrunk(nodes + {n}, Some(n))
  }

  /** `try_merge_extension` */
  function MergeExtension<P(==)>(s: Settings<P>, nodes: set<Node<P>>, path: P, child: Node<P>): Shrunk<P> {
    if child !in nodes then Shrunk(nodes, None)
    else
      match child
      case Extension(childPath, grandchild) =>
        Made(Discard(s, nodes, child), Extension(s.pack(s.unpack(path) + s.unpack(childPath)), grandchild))
      case Leaf(leafPath, value) =>
        Made(Discard(s, nodes, child), Leaf(s.pack(s.unpack(path) + s.unpack(leafPath)), value))
      case _ => Made(nodes, Extension(path, child))
  }

  function NonEmpty<P>(children: seq<Option<Node<P>>>, from: nat): (r: seq<nat>)
    requires from <= |children|
    ensures forall i :: i in r <==> from <= i < |children| && children[i].Some?
    decreases |children| - from
  {
    if from == |children| then []
    else (if children[from].Some? then [from] else []) + NonEmpty(children, from + 1)
  }

  /** `simplify_branch` */
  function SimplifyBranch<P(==)>(s: Settings<P>, nodes: set<Node<P>>, children: seq<Option<Node<P>>>,
                                 val: Option<Value>): Shrunk<P>
    requires |children| == 16
  {
    var nonEmpty := NonEmpty(children, 0);
    if |nonEmpty| == 0 && val.None? then Shrunk(nodes, None)
    else if |nonEmpty| == 0 then Made(nodes, NewLeaf(s, [], val.value))
    else if |nonEmpty| == 1 && val.None? then
      assert nonEmpty[0] in nonEmpty;
      var index: Nibble := nonEmpty[0];
      var child := children[index].value;
      if child !in nodes then Shrunk(nodes, None)
      else
        match child
        case Leaf(path, value) => Made(Discard(s, nodes, child), NewLeaf(s, [index] + s.unpack(path), value))
        case Extension(path, grandchild) =>
          Made(Discard(s, nodes, child), Extension(s.pack([index] + s.unpack(path)), grandchild))
        case _ => Made(nodes, Branch(children, val))
    else Made(nodes, Branch(children, val))
  }

  /** `delete_recursive` on an existing node; a node missing from the store is
      taken for an empty subtree. */
  function Delete<P(==)>(s: Settings<P>, nodes: set<Node<P>>, n: Node<P>, key: Path): Shrunk<P>
    requires Wf(n)
    decreases n
  {
    if n !in nodes then Shrunk(nodes, None)
    else
      match n
      case Empty => Shrunk(nodes, Some(n))
      case Leaf(path, _) =>
        if key == s.unpack(path) then Shrunk(Discard(s, nodes, n), None) else Shrunk(nodes, Some(n))
      case Extension(path, child) =>
        var ext := s.unpack(path);
        if ext <= key then
          var t := Delete(s, nodes, child, key[|ext|..]);
          if t.root.None? then Shrunk(Discard(s, t.nodes, n), None)
          else MergeExtension(s, t.nodes, path, t.root.value)
        else Shrunk(nodes, Some(n))
      case Branch(children, val) =>
        if key == [] then SimplifyBranch(s, Discard(s, nodes, n), children, None)
        else if children[key[0]].Some? then
          var t := Delete(s, nodes, children[key[0]].value, key[1..]);
          SimplifyBranch(s, Discard(s, t.nodes, n), children[key[0] := t.root], val)
        else Shrunk(nodes, Some(n))
  }

  // ----- well-formedness is kept -----

  lemma {:induction false} InsertWf<P>(s: Settings<P>, nodes: set<Node<P>>, n: Node<P>, key: Path, value: Value)
    requires Wf(n) && Insert(s, nodes, n, key, value).Grown?
    ensures Wf(Insert(s, nodes, n, key, value).root)
    decreases n
  {
    match n
    case Empty =>
    case Leaf(_, _) =>
    case Extension(path, child) =>
      var common := Trie.CommonPrefixLen(key, s.unpack(path));
      if common == |s.unpack(path)| {
        InsertWf(s, nodes, child, key[common..], value);
      }
    case Branch(children, _) =>
      if key != [] && children[key[0]].Some? {
        InsertWf(s, nodes, children[key[0]].value, key[1..], value);
      }
  }

  lemma {:induction false} DeleteWf<P>(s: Settings<P>, nodes: set<Node<P>>, n: Node<P>, key: Path)
    requires Wf(n)
    ensures WfSlot(Delete(s, nodes, n, key).root)
    decreases n
  {
    match n
    case Empty =>
    case Leaf(_, _) =>
    case Extension(path, child) =>
      if s.unpack(path) <= key {
        DeleteWf(s, nodes, child, key[|s.unpack(path)|..]);
      }
    case Branch(children, val) =>
      if key != [] && children[key[0]].Some? {
        DeleteWf(s, nodes, children[key[0]].value, key[1..]);
        var t := Delete(s, nodes, children[key[0]].value, key[1..]);
        assert Wf(Branch(children[key[0] := t.root], val));
      }
  }

  // ----- updates and runs -----

  datatype Store<P(==)> = Store(root: Option<Node<P>>, nodes: set<Node<P>>)

  /** `None` stands for a panic. */
  function ApplyUpdate<P(==)>(s: Settings<P>, t: Store<P>, u: Update): (r: Option<Store<P>>)
    requires WfSlot(t.root)
    ensures r.Some? ==> WfSlot(r.value.root)
  {
    var path := BytesToNibbles(u.key);
    if u.value.Some? then
      if t.root.None? then
        var leaf := NewLeaf(s, path, u.value.value);
        Some(Store(Some(leaf), t.nodes + {leaf}))
      else
        var g := Insert(s, t.nodes, t.root.value, path, u.value.value);
        if g.Panic? then None
        else
          InsertWf(s, t.nodes, t.root.value, path, u.value.value);
          Some(Store(Some(g.root), g.nodes))
    else if t.root.None? then Some(t)
    else
      DeleteWf(s, t.nodes, t.root.value, path);
      var d := Delete(s, t.nodes, t.root.value, path);
      Some(Store(d.root, d.nodes))
  }

  function ApplyAll<P(==)>(s: Settings<P>, t: Store<P>, updates: seq<Update>): (r: Option<Store<P>>)
    requires WfSlot(t.root)
    ensures r.Some? ==> WfSlot(r.value.root)
    decreases |updates|
  {
    if updates == [] then Some(t)
    else
      var next := ApplyUpdate(s, t, updates[0]);
      if next.None? then None else ApplyAll(s, next.value, updates[1..])
  }

  /** The committed trie and the updates waiting for the next commit. */
  datatype State<P(==)> = State(store: Store<P>, pending: seq<Update>)

  function Initial<P(==)>(): State<P> {
    State(Store(None, {}), [])
  }

  function Committed<P(==)>(s: Settings<P>, t: State<P>): (r: Option<State<P>>)
    requires WfSlot(t.store.root)
    ensures r.Some? ==> WfSlot(r.value.store.root)
  {
    var store := ApplyAll(s, t.store, SortByKey(t.pending));
    if store.None? then None else Some(State(store.value, []))
  }

  function StepOp<P(==)>(s: Settings<P>, t: State<P>, op: Op): (r: Option<State<P>>)
    requires WfSlot(t.store.root)
    ensures r.Some? ==> WfSlot(r.value.store.root)
  {
    match op
    case PutOp(key, value) =>
      var t' := t.(pending := t.pending + [Update(key, Some(value))]);
      if |t'.pending| >= BATCH_THRESHOLD then Committed(s, t') else Some(t')
    case DeleteOp(key) => Some(t.(pending := t.pending + [Update(key, None)]))
    case CommitOp => Committed(s, t)
  }

  function RunOps<P(==)>(s: Settings<P>, t: State<P>, ops: seq<Op>): (r: Option<State<P>>)
    requires WfSlot(t.store.root)
    ensures r.Some? ==> WfSlot(r.value.store.root)
    decreases |ops|
  {
    if ops == [] then Some(t)
    else
      var next := StepOp(s, t, ops[0]);
      if next.None? then None else RunOps(s, next.value, ops[1..])
  }

  /** What a lookup by recursion answers. */
  function Answer<P(==)>(s: Settings<P>, t: Store<P>, key: Key): Option<Value>
    requires WfSlot(t.root)
  {
    if t.root.None? then None else GetRecursive(s, t.nodes, t.root.value, BytesToNibbles(key), []).0
  }

  // ----- the path cache -----

  /** `get_with_cached_path`: the value found at the last node of the path. */
  function CachedAnswer<P(==)>(nodes: set<Node<P>>, path: seq<Node<P>>): Option<Value> {
    if path == [] || path[|path| - 1] !in nodes then None
    else
      match path[|path| - 1]
      case Leaf(_, value) => Some(value)
      case Branch(_, val) => val
      case _ => None
  }

  /** The path recorded by a successful lookup answers like the lookup. */
  lemma {:induction false} RecordedPathAnswers<P>(s: Settings<P>, nodes: set<Node<P>>, n: Node<P>, key: Path,
                                                      visited: seq<Node<P>>)
    requires Wf(n) && GetRecursive(s, nodes, n, key, visited).0.Some?
    ensures CachedAnswer(nodes, GetRecursive(s, nodes, n, key, visited).1) == GetRecursive(s, nodes, n, key, visited).0
    decreases n
  {
    match n
    case Empty =>
    case Leaf(_, _) =>
    case Extension(extPath, child) =>
      RecordedPathAnswers(s, nodes, child, key[|s.unpack(extPath)|..], visited + [n]);
    case Branch(children, _) =>
      if key != [] {
        RecordedPathAnswers(s, nodes, children[key[0]].value, key[1..], visited + [n]);
      }
  }

  predicate ChildOf<P(==)>(n: Node<P>, child: Node<P>) {
    match n
    case Extension(_, below) => below == child
    case Branch(children, _) => Some(child) in children
    case _ => false
  }

  /** The recorded path leads from the node down, child by child. */
  lemma {:induction false} RecordedPathDescends<P>(s: Settings<P>, nodes: set<Node<P>>, n: Node<P>, key: Path, visited: seq<Node<P>>)
    requires Wf(n)
    ensures var path := GetRecursive(s, nodes, n, key, visited).1;
            && visited + [n] <= path
            && forall i | |visited| <= i < |path| - 1 :: ChildOf(path[i], path[i + 1])
    decreases n
  {
    if n in nodes {
      match n
      case Empty =>
      case Leaf(_, _) =>
      case Extension(extPath, child) =>
        if s.unpack(extPath) <= key {
          RecordedPathDescends(s, nodes, child, key[|s.unpack(extPath)|..], visited + [n]);
        }
      case Branch(children, _) =>
        if key != [] && children[key[0]].Some? {
          RecordedPathDescends(s, nodes, children[key[0]].value, key[1..], visited + [n]);
        }
    }
  }

  /** The answer and the path a lookup records. */
  function Lookedup<P(==)>(s: Settings<P>, t: Store<P>, key: Key): (Option<Value>, seq<Node<P>>)
    requires WfSlot(t.root)
  {
    if t.root.None? then (None, []) else GetRecursive(s, t.nodes, t.root.value, BytesToNibbles(key), [])
  }

  /** Every cached path is the one a successful lookup in the current trie takes. */
  ghost predicate CacheFollows<P>(s: Settings<P>, t: Store<P>, cache: map<Key, seq<Node<P>>>)
    requires WfSlot(t.root)
  {
    forall k | k in cache :: Lookedup(s, t, k).0.Some? && cache[k] == Lookedup(s, t, k).1
  }

  lemma CacheDrops<P>(s: Settings<P>, t: Store<P>, cache: map<Key, seq<Node<P>>>, key: Key)
    requires WfSlot(t.root) && CacheFollows(s, t, cache)
    ensures CacheFollows(s, t, cache - {key})
  {}

  lemma CacheAdds<P>(s: Settings<P>, t: Store<P>, cache: map<Key, seq<Node<P>>>, key: Key, path: seq<Node<P>>)
    requires WfSlot(t.root) && CacheFollows(s, t, cache) && CacheFollows(s, t, map[key := path])
    ensures CacheFollows(s, t, cache[key := path])
  {
    assert key in map[key := path];
  }

  class MerklePatriciaTrie<P(==)> {
    const s: Settings<P>
    var root: Option<Node<P>>
    var nodes: set<Node<P>>
    var batchUpdates: seq<Update>
    var cache: map<Key, seq<Node<P>>>
    const maxSize: nat

    ghost predicate Valid()
      reads this
    {
      WfSlot(root) && CacheFollows(s, Store(root, nodes), cache)
    }

    ghost function Abs(): State<P>
      reads this
    {
      State(Store(root, nodes), batchUpdates)
    }

    constructor (s: Settings<P>)
      ensures Valid() && Abs() == Initial() && this.s == s
      ensures root == None && nodes == {} && batchUpdates == [] && cache == map[] && maxSize == 10000
    {
      this.s := s;
      root, nodes, batchUpdates, cache, maxSize := None, {}, [], map[], 10000;
    }

    /** `get`: from the cached path if there is one, else by recursion, caching
        the path of a successful lookup. */
    method Get(key: Key) returns (result: Option<Value>)
      requires Valid()
      modifies this`cache
      ensures Valid() && Abs() == old(Abs())
      ensures result == Answer(s, Abs().store, key)
      ensures key in old(cache) || result.None? ==> cache == old(cache)
      ensures result.Some? ==> key in cache
    {
      if key in cache {
        RecordedPathAnswers(s, nodes, root.value, BytesToNibbles(key), []);
        return CachedAnswer(nodes, cache[key]);
      }
      if root.None? {
        return None;
      }
      var (found, path) := GetRecursive(s, nodes, root.value, BytesToNibbles(key), []);
      if found.Some? {
        CachePath(key, path);
      }
      return found;
    }

    /** `cache_path`. The path evicted from a full cache is an arbitrary one: the
        counts are kept by node hash and looked up by key hash, so none is found. */
    method CachePath(key: Key, path: seq<Node<P>>)
      requires Valid() && CacheFollows(s, Store(root, nodes), map[key := path])
      modifies this`cache
      ensures Valid() && key in cache && cache[key] == path
      ensures forall k | k in cache && k != key :: k in old(cache) && cache[k] == old(cache)[k]
      ensures |old(cache)| < maxSize ==> old(cache).Keys <= cache.Keys
      ensures exists e :: old(cache).Keys <= cache.Keys + {e}
    {
      hide CacheFollows;
      ghost var gone := key;
      if |cache| >= maxSize && cache != map[] {
        var evicted :| evicted in cache;
        CacheDrops(s, Store(root, nodes), cache, evicted);
        cache := cache - {evicted};
        gone := evicted;
      }
      CacheAdds(s, Store(root, nodes), cache, key, path);
      cache := cache[key := path];
      assert old(cache).Keys <= cache.Keys + {gone};
    }

    /** `insert` queues an update and commits a full batch; `panicked` is a node
        missing from the store. */
    method Insert(key: Key, value: Value) returns (panicked: bool)
      requires Valid()
      modifies this
      ensures panicked <==> StepOp(s, old(Abs()), PutOp(key, value)).None?
      ensures !panicked ==> Valid() && Abs() == StepOp(s, old(Abs()), PutOp(key, value)).value
      ensures |old(batchUpdates)| < 99 ==>
                && !panicked && batchUpdates == old(batchUpdates) + [Update(key, Some(value))]
                && root == old(root) && nodes == old(nodes) && cache == old(cache)
      ensures |old(batchUpdates)| >= 99 && !panicked ==> batchUpdates == [] && cache == map[]
    {
      batchUpdates := batchUpdates + [Update(key, Some(value))];
      if |batchUpdates| >= BATCH_THRESHOLD {
        panicked := CommitBatch();
      } else {
        panicked := false;
      }
    }

    /** `delete` */
    method Delete(key: Key)
      requires Valid()
      modifies this
      ensures Valid() && StepOp(s, old(Abs()), DeleteOp(key)) == Some(Abs())
      ensures batchUpdates == old(batchUpdates) + [Update(key, None)]
      ensures root == old(root) && nodes == old(nodes) && cache == old(cache)
    {
      batchUpdates := batchUpdates + [Update(key, None)];
    }

    /** `commit_batch`: the sorted updates one after another; the cached paths
        lead through the old trie and are dropped. */
    method CommitBatch() returns (panicked: bool)
      requires Valid()
      modifies this
      ensures panicked <==> StepOp(s, old(Abs()), CommitOp).None?
      ensures !panicked ==> Valid() && Abs() == StepOp(s, old(Abs()), CommitOp).value
      ensures !panicked ==> batchUpdates == [] && cache == if old(batchUpdates) == [] then old(cache) else map[]
    {
      var updates := batchUpdates;
      batchUpdates := [];
      if updates == [] {
        return false;
      }
      var sortedUpdates := SortByKey(updates);
      ghost var all := ApplyAll(s, Store(root, nodes), sortedUpdates);
      for i := 0 to |sortedUpdates|
        invariant WfSlot(root) && batchUpdates == []
        invariant ApplyAll(s, Store(root, nodes), sortedUpdates[i..]) == all
      {
        var update := sortedUpdates[i];
        assert sortedUpdates[i..][1..] == sortedUpdates[i + 1..];
        var next := ApplyUpdate(s, Store(root, nodes), update);
        if next.None? {
          return true;
        }
        root, nodes := next.value.root, next.value.nodes;
      }
      cache := map[];
      return false;
    }
  }
}
