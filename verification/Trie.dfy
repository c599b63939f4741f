/**
 * The path-compressed radix trie (storage/merkle_trie.rs) on plain nibble
 * sequences, with child hashes replaced by the subtrees they stand for. It is what
 * the stored trie amounts to when packing a path loses nothing and no node is
 * discarded.
 */
module Trie {
  import opened Common

  type Nibble = x: int | 0 <= x < 16
  type Path = seq<Nibble>
  type Value = seq<byte>

  datatype Node =
    | Empty
    | Leaf(path: Path, value: Value)
    | Extension(path: Path, child: Node)
    | Branch(children: seq<Option<Node>>, val: Option<Value>)

  /** Branches have sixteen slots. */
  predicate Wf(n: Node) {
    match n
    case Empty => true
    case Leaf(_, _) => true
    case Extension(_, child) => Wf(child)
    case Branch(children, _) =>
      |children| == 16 && forall i | 0 <= i < 16 :: children[i].Some? ==> Wf(children[i].value)
  }

  predicate WfSlot(slot: Option<Node>) {
    slot.Some? ==> Wf(slot.value)
  }

  // ----- lookup -----

  function Get(n: Node, key: Path): Option<Value>
    requires Wf(n)
  {
    match n
    case Empty => None
    case Leaf(path, value) => if key == path then Some(value) else None
    case Extension(path, child) => if path <= key then Get(child, key[|path|..]) else None
    case Branch(children, val) =>
      if key == [] then val
      else if children[key[0]].Some? then Get(children[key[0]].value, key[1..])
      else None
  }

  function GetSlot(slot: Option<Node>, key: Path): Option<Value>
    requires WfSlot(slot)
  {
    if slot.Some? then Get(slot.value, key) else None
  }

  // ----- insertion -----

  function CommonPrefixLen(a: Path, b: Path): (n: nat)
    ensures n <= |a| && n <= |b| && a[..n] == b[..n]
    ensures n < |a| && n < |b| ==> a[n] != b[n]
  {
    if a == [] || b == [] || a[0] != b[0] then 0
    else
      var m := CommonPrefixLen(a[1..], b[1..]);
      assert a[..m + 1] == [a[0]] + a[1..][..m] && b[..m + 1] == [b[0]] + b[1..][..m];
      m + 1
  }

  const NO_CHILDREN: seq<Option<Node>> :=
    [None, None, None, None, None, None, None, None, None, None, None, None, None, None, None, None]

  function UnderPrefix(prefix: Path, n: Node): Node {
    if |prefix| > 0 then Extension(prefix, n) else n
  }

  /** `split_and_insert`; the branch keeps the existing value even when the
      existing key goes on below it. */
  function SplitAndInsert(key: Path, value: Value, existingKey: Path, existingValue: Value, common: nat): (n: Node)
    requires common <= |key| && common <= |existingKey|
    ensures Wf(n)
  {
    var withNew := if |key| > common
      then NO_CHILDREN[key[common] := Some(Leaf(key[common + 1..], value))] else NO_CHILDREN;
    var withBoth := if |existingKey| > common
      then withNew[existingKey[common] := Some(Leaf(existingKey[common + 1..], existingValue))] else withNew;
    var val := if |key| == common then Some(value) else Some(existingValue);
    UnderPrefix(key[..common], Branch(withBoth, val))
  }

  /** `split_extension` */
  function SplitExtension(key: Path, value: Value, ext: Path, child: Node, common: nat): (n: Node)
    requires common <= |key| && common < |ext| && Wf(child)
    ensures Wf(n)
  {
    var withNew := if |key| > common
      then NO_CHILDREN[key[common] := Some(Leaf(key[common + 1..], value))] else NO_CHILDREN;
    var rest := if |ext| > common + 1 then Extension(ext[common + 1..], child) else child;
    var withBoth := withNew[ext[common] := Some(rest)];
    UnderPrefix(ext[..common], Branch(withBoth, if |key| == common then Some(value) else None))
  }

  /** `insert_recursive` on an existing node */
  function Insert(n: Node, key: Path, value: Value): (r: Node)
    requires Wf(n)
    ensures Wf(r)
  {
    match n
    case Empty => Leaf(key, value)
    case Leaf(path, existing) =>
      var common := CommonPrefixLen(key, path);
      if common == |path| && common == |key| then Leaf(path, value)
      else SplitAndInsert(key, value, path, existing, common)
    case Extension(path, child) =>
      var common := CommonPrefixLen(key, path);
      if common == |path| then Extension(path, Insert(child, key[common..], value))
      else SplitExtension(key, value, path, child, common)
    case Branch(children, val) =>
      if key == [] then Branch(children, Some(value))
      else
        var slot := children[key[0]];
        var child := if slot.Some? then Insert(slot.value, key[1..], value) else Leaf(key[1..], value);
        Branch(children[key[0] := Some(child)], val)
  }

  function InsertSlot(slot: Option<Node>, key: Path, value: Value): (r: Option<Node>)
    requires WfSlot(slot)
    ensures r.Some? && WfSlot(r)
  {
    Some(if slot.Some? then Insert(slot.value, key, value) else Leaf(key, value))
  }

  // ----- deletion -----

  /** `try_merge_extension` */
  function MergeExtension(path: Path, child: Node): (r: Node)
    requires Wf(child)
    ensures Wf(r)
  {
    match child
    case Extension(childPath, grandchild) => Extension(path + childPath, grandchild)
    case Leaf(leafPath, value) => Leaf(path + leafPath, value)
    case _ => Extension(path, child)
  }

  function NonEmpty(children: seq<Option<Node>>, from: nat): (r: seq<nat>)
    requires from <= |children|
    ensures forall i :: i in r <==> from <= i < |children| && children[i].Some?
    decreases |children| - from
  {
    if from == |children| then []
    else (if children[from].Some? then [from] else []) + NonEmpty(children, from + 1)
  }

  /** `simplify_branch` */
  function SimplifyBranch(children: seq<Option<Node>>, val: Option<Value>): (r: Option<Node>)
    requires Wf(Branch(children, val))
    ensures WfSlot(r)
  {
    var nonEmpty := NonEmpty(children, 0);
    if |nonEmpty| == 0 && val.None? then None
    else if |nonEmpty| == 0 then Some(Leaf([], val.value))
    else if |nonEmpty| == 1 && val.None? then
      assert nonEmpty[0] in nonEmpty;
      var index := nonEmpty[0];
      assert Wf(children[index].value);
      match children[index].value
      case Leaf(path, value) => Some(Leaf([index] + path, value))
      case Extension(path, child) => Some(Extension([index] + path, child))
      case _ => Some(Branch(children, val))
    else Some(Branch(children, val))
  }

  /** `delete_recursive` on an existing node */
  function Delete(n: Node, key: Path): (r: Option<Node>)
    requires Wf(n)
    ensures WfSlot(r)
  {
    match n
    case Empty => Some(n)
    case Leaf(path, _) => if key == path then None else Some(n)
    case Extension(path, child) =>
      if path <= key then
        var newChild := Delete(child, key[|path|..]);
        if newChild.None? then None else Some(MergeExtension(path, newChild.value))
      else Some(n)
    case Branch(children, val) =>
      if key == [] then SimplifyBranch(children, None)
      else if children[key[0]].Some? then
        SimplifyBranch(children[key[0] := Delete(children[key[0]].value, key[1..])], val)
      else Some(n)
  }

  function DeleteSlot(slot: Option<Node>, key: Path): (r: Option<Node>)
    requires WfSlot(slot)
    ensures WfSlot(r)
  {
    if slot.Some? then Delete(slot.value, key) else None
  }

  // ----- deletion removes exactly one key -----

  lemma GetExtension(path: Path, child: Node, q: Path)
    requires Wf(child)
    ensures Get(Extension(path, child), path + q) == Get(child, q)
    ensures Get(UnderPrefix(path, child), path + q) == Get(child, q)
    ensures forall k :: !(path <= k) ==> Get(Extension(path, child), k) == None == Get(UnderPrefix(path, child), k)
  {
    assert (path + q)[|path|..] == q;
    if path == [] {
      assert path + q == q;
    }
  }

  lemma MergeExtensionGet(path: Path, child: Node, q: Path)
    requires Wf(child)
    ensures Get(MergeExtension(path, child), q) == Get(Extension(path, child), q)
  {
    var merged := MergeExtension(path, child);
    if path <= q {
      var rest := q[|path|..];
      assert q == path + rest;
      if child.Extension? {
        assert path + child.path <= q <==> child.path <= rest;
        if child.path <= rest {
          assert q[|path + child.path|..] == rest[|child.path|..];
        }
      }
    }
  }

  lemma SingleChild(children: seq<Option<Node>>)
    requires |NonEmpty(children, 0)| == 1
    ensures var index := NonEmpty(children, 0)[0];
            && 0 <= index < |children| && children[index].Some?
            && forall i | 0 <= i < |children| && i != index :: children[i].None?
  {
    var r := NonEmpty(children, 0);
    assert r[0] in r;
    forall i | 0 <= i < |children| && children[i].Some?
      ensures i == r[0]
    {
      assert i in r;
    }
  }

  lemma SimplifyBranchGet(children: seq<Option<Node>>, val: Option<Value>, q: Path)
    requires Wf(Branch(children, val))
    ensures GetSlot(SimplifyBranch(children, val), q) == Get(Branch(children, val), q)
  {
    var r := SimplifyBranch(children, val);
    if r.Some? {
    }
    var nonEmpty := NonEmpty(children, 0);
    if |nonEmpty| == 0 {
      assert forall i | 0 <= i < 16 :: i !in nonEmpty;
    } else if |nonEmpty| == 1 && val.None? {
      SingleChild(children);
      var index := nonEmpty[0];
      var child := children[index].value;
      if q != [] {
        assert q == [q[0]] + q[1..];
        if q[0] == index {
          if child.Extension? {
            assert [index] + child.path <= q <==> child.path <= q[1..];
            if child.path <= q[1..] {
              assert q[|[index] + child.path|..] == q[1..][|child.path|..];
            }
          } else if child.Leaf? {
            assert [index] + child.path == q <==> child.path == q[1..];
          }
        }
      }
    }
  }

  lemma {:induction false} DeleteGet(n: Node, key: Path, q: Path)
    requires Wf(n)
    ensures GetSlot(Delete(n, key), q) == if q == key then None else Get(n, q)
  {
    match n
    case Empty =>
    case Leaf(_, _) =>
    case Extension(path, child) =>
      if path <= key {
        var newChild := Delete(child, key[|path|..]);
        assert key == path + key[|path|..];
        if path <= q {
          assert q == path + q[|path|..];
          DeleteGet(child, key[|path|..], q[|path|..]);
        }
        if newChild.Some? {
          MergeExtensionGet(path, newChild.value, q);
        }
      }
    case Branch(children, val) =>
      if key == [] {
        SimplifyBranchGet(children, None, q);
      } else if children[key[0]].Some? {
        var children' := children[key[0] := Delete(children[key[0]].value, key[1..])];
        assert Wf(Branch(children', val));
        SimplifyBranchGet(children', val, q);
        if q != [] && q[0] == key[0] {
          assert q == [q[0]] + q[1..] && key == [key[0]] + key[1..];
          DeleteGet(children[key[0]].value, key[1..], q[1..]);
        }
      } else if q != [] && q[0] == key[0] {
        assert q == [q[0]] + q[1..] && key == [key[0]] + key[1..];
      }
  }

  // ----- insertion sets one key, and may leave a phantom -----

  /** `x` is where `a` and `b` part: both go on below it, with different nibbles. */
  predicate Diverge(x: Path, a: Path, b: Path) {
    |x| < |a| && |x| < |b| && a[..|x|] == x && b[..|x|] == x && a[|x|] != b[|x|]
  }

  /** Inserting `key` made `q` readable: `q` is where `key` and some other readable path part. */
  ghost predicate Phantom(n: Node, key: Path, q: Path)
    requires Wf(n)
  {
    exists e :: Get(n, e).Some? && Diverge(q, key, e)
  }

  /** What a branch with at most two children answers. */
  lemma GetTwoChildren(first: Option<Node>, i: Nibble, second: Option<Node>, j: Nibble, val: Option<Value>, q: Path)
    requires WfSlot(first) && WfSlot(second)
    requires first.Some? && second.Some? ==> i != j
    ensures var one := if first.Some? then NO_CHILDREN[i := first] else NO_CHILDREN;
            var two := if second.Some? then one[j := second] else one;
            var b := Branch(two, val);
            && Wf(b)
            && Get(b, q) == if q == [] then val
                            else if second.Some? && q[0] == j then Get(second.value, q[1..])
                            else if first.Some? && q[0] == i then Get(first.value, q[1..])
                            else None
  {
    var one := if first.Some? then NO_CHILDREN[i := first] else NO_CHILDREN;
    var two := if second.Some? then one[j := second] else one;
  }

  lemma LeafGet(path: Path, value: Value, q: Path)
    ensures Get(Leaf(path, value), q) == if q == path then Some(value) else None
  {
  }

  /** The branch made by `SplitAndInsert`, seen from the branching point. */
  lemma SplitBranchGet(key: Path, value: Value, path: Path, existing: Value, q: Path)
    requires key != path && (key != [] && path != [] ==> key[0] != path[0])
    ensures var n := SplitAndInsert(key, value, path, existing, 0);
            && (q == key ==> Get(n, q) == Some(value))
            && (q == path ==> Get(n, q) == Some(existing))
            && (q != key && q != path && Get(n, q).Some? ==> Diverge(q, key, path))
  {
    var first := if key != [] then Some(Leaf(key[1..], value)) else None;
    var second := if path != [] then Some(Leaf(path[1..], existing)) else None;
    GetTwoChildren(first, if key != [] then key[0] else 0, second, if path != [] then path[0] else 0,
                   if key == [] then Some(value) else Some(existing), q);
    if q != [] {
      assert q == [q[0]] + q[1..];
      if key != [] {
        LeafGet(key[1..], value, q[1..]);
        assert key == [key[0]] + key[1..];
      }
      if path != [] {
        LeafGet(path[1..], existing, q[1..]);
        assert path == [path[0]] + path[1..];
      }
    }
  }

  lemma SplitLeafShape(p: Path, key: Path, value: Value, path: Path, existing: Value)
    ensures SplitAndInsert(p + key, value, p + path, existing, |p|) ==
            UnderPrefix(p, SplitAndInsert(key, value, path, existing, 0))
  {
    assert (p + key)[..|p|] == p;
    if key != [] {
      assert (p + key)[|p| + 1..] == key[1..];
    }
    if path != [] {
      assert (p + path)[|p| + 1..] == path[1..];
    }
  }

  lemma SplitLeafGet(p: Path, key: Path, value: Value, path: Path, existing: Value, q: Path)
    requires key != path && (key != [] && path != [] ==> key[0] != path[0])
    ensures var n := SplitAndInsert(p + key, value, p + path, existing, |p|);
            && (q == p + key ==> Get(n, q) == Some(value))
            && (q == p + path ==> Get(n, q) == Some(existing))
            && (q != p + key && q != p + path && Get(n, q).Some? ==> Diverge(q, p + key, p + path))
  {
    var b := SplitAndInsert(key, value, path, existing, 0);
    SplitLeafShape(p, key, value, path, existing);
    GetUnder(p, b, q);
    if p <= q {
      var rest := q[|p|..];
      assert q == p + rest;
      SplitBranchGet(key, value, path, existing, rest);
      if Diverge(rest, key, path) {
        DivergeUnder(p, rest, key, path);
      }
    }
  }

  /** The branch made by `SplitExtension`, seen from the branching point. */
  lemma SplitExtensionBranchGet(key: Path, value: Value, ext: Path, child: Node, q: Path)
    requires Wf(child) && ext != [] && (key != [] ==> key[0] != ext[0])
    ensures Get(SplitExtension(key, value, ext, child, 0), q) ==
            if q == key then Some(value) else Get(Extension(ext, child), q)
  {
    var first := if key != [] then Some(Leaf(key[1..], value)) else None;
    var rest := if |ext| > 1 then Extension(ext[1..], child) else child;
    GetTwoChildren(first, if key != [] then key[0] else 0, Some(rest), ext[0],
                   if key == [] then Some(value) else None, q);
    if q != [] {
      assert q == [q[0]] + q[1..];
      if key != [] {
        LeafGet(key[1..], value, q[1..]);
        assert key == [key[0]] + key[1..];
      }
      if q[0] == ext[0] {
        assert ext <= q <==> ext[1..] <= q[1..];
        assert ext <= q ==> q[|ext|..] == q[1..][|ext[1..]|..];
      }
    }
  }

  lemma SplitExtensionShape(p: Path, key: Path, value: Value, ext: Path, child: Node)
    requires Wf(child) && ext != []
    ensures SplitExtension(p + key, value, p + ext, child, |p|) ==
            UnderPrefix(p, SplitExtension(key, value, ext, child, 0))
  {
    assert (p + ext)[..|p|] == p;
    assert (p + ext)[|p| + 1..] == ext[1..];
    if key != [] {
      assert (p + key)[|p| + 1..] == key[1..];
    }
  }

  lemma SplitExtensionGet(p: Path, key: Path, value: Value, ext: Path, child: Node, q: Path)
    requires Wf(child) && ext != [] && (key != [] ==> key[0] != ext[0])
    ensures Get(SplitExtension(p + key, value, p + ext, child, |p|), q) ==
            if q == p + key then Some(value) else Get(Extension(p + ext, child), q)
  {
    var b := SplitExtension(key, value, ext, child, 0);
    SplitExtensionShape(p, key, value, ext, child);
    GetUnder(p, b, q);
    ExtensionSplits(p, ext, child, q);
    if p <= q {
      assert q == p + q[|p|..];
      SplitExtensionBranchGet(key, value, ext, child, q[|p|..]);
    }
  }

  lemma GetUnder(p: Path, n: Node, q: Path)
    requires Wf(n)
    ensures Get(UnderPrefix(p, n), q) == if p <= q then Get(n, q[|p|..]) else None
  {
    if p <= q {
      assert q == p + q[|p|..];
      GetExtension(p, n, q[|p|..]);
    } else {
      GetExtension(p, n, []);
    }
  }

  lemma ExtensionSplits(p: Path, ext: Path, child: Node, q: Path)
    requires Wf(child)
    ensures Get(Extension(p + ext, child), q) ==
            if p <= q then Get(Extension(ext, child), q[|p|..]) else None
  {
    if p <= q {
      assert q == p + q[|p|..];
      assert p + ext <= q <==> ext <= q[|p|..];
      assert p + ext <= q ==> q[|p + ext|..] == q[|p|..][|ext|..];
    }
  }

  lemma DivergeUnder(p: Path, x: Path, a: Path, b: Path)
    requires Diverge(x, a, b)
    ensures Diverge(p + x, p + a, p + b)
  {
  }

  /** `r` answers `q` as `n` does after setting `key`, up to a phantom. */
  ghost predicate SetsKey(n: Node, key: Path, value: Value, r: Node, q: Path)
    requires Wf(n) && Wf(r)
  {
    if q == key then Get(r, q) == Some(value)
    else Get(r, q) == Get(n, q) || (Get(n, q).None? && Phantom(n, key, q))
  }

  lemma InsertAtLeaf(path: Path, existing: Value, key: Path, value: Value, q: Path)
    ensures SetsKey(Leaf(path, existing), key, value, Insert(Leaf(path, existing), key, value), q)
  {
    LeafGet(path, existing, q);
    LeafGet(path, value, q);
    if key != path {
      var common := CommonPrefixLen(key, path);
      assert key == key[..common] + key[common..] && path == key[..common] + path[common..];
      SplitLeafGet(key[..common], key[common..], value, path[common..], existing, q);
      LeafGet(path, existing, path);
    }
  }

  lemma InsertBelowExtension(path: Path, child: Node, child': Node, key: Path, value: Value, q: Path)
    requires Wf(child) && Wf(child')
    requires path <= q ==> SetsKey(child, key, value, child', q[|path|..])
    ensures SetsKey(Extension(path, child), path + key, value, Extension(path, child'), q)
  {
    if path <= q {
      var q' := q[|path|..];
      assert q == path + q';
      if q' != key && Phantom(child, key, q') {
        var e :| Get(child, e).Some? && Diverge(q', key, e);
        DivergeUnder(path, q', key, e);
        GetExtension(path, child, e);
      }
    }
  }

  lemma InsertBelowBranch(children: seq<Option<Node>>, val: Option<Value>, child': Node, i: Nibble, key: Path,
                          value: Value, q: Path)
    requires Wf(Branch(children, val)) && Wf(child')
    requires q != [] && q[0] == i ==>
               if children[i].Some? then SetsKey(children[i].value, key, value, child', q[1..])
               else Get(child', q[1..]) == if q[1..] == key then Some(value) else None
    ensures SetsKey(Branch(children, val), [i] + key, value, Branch(children[i := Some(child')], val), q)
  {
    var n := Branch(children, val);
    if q != [] && q[0] == i {
      assert q == [i] + q[1..];
      if children[i].Some? && q[1..] != key && Phantom(children[i].value, key, q[1..]) {
        var e :| Get(children[i].value, e).Some? && Diverge(q[1..], key, e);
        DivergeUnder([i], q[1..], key, e);
      }
    }
  }

  lemma {:induction false} InsertGet(n: Node, key: Path, value: Value, q: Path)
    requires Wf(n)
    ensures SetsKey(n, key, value, Insert(n, key, value), q)
  {
    hide SetsKey, Get;
    match n
    case Empty =>
      InsertAtEmpty(key, value, q);
    case Leaf(path, existing) =>
      InsertAtLeaf(path, existing, key, value, q);
    case Extension(path, child) =>
      var common := CommonPrefixLen(key, path);
      assert key == key[..common] + key[common..] && path == key[..common] + path[common..];
      if common == |path| {
        assert key == path + key[common..];
        if path <= q {
          InsertGet(child, key[common..], value, q[common..]);
        }
        InsertBelowExtension(path, child, Insert(child, key[common..], value), key[common..], value, q);
      } else {
        InsertSplitsExtension(key[..common], key[common..], value, path[common..], child, q);
      }
    case Branch(children, val) =>
      if key == [] {
        InsertAtBranch(children, val, value, q);
      } else {
        var i, rest := key[0], key[1..];
        assert key == [i] + rest;
        if q != [] {
          if children[i].Some? {
            InsertGet(children[i].value, rest, value, q[1..]);
          } else {
            LeafGet(rest, value, q[1..]);
          }
        }
        InsertBelowBranch(children, val, InsertSlot(children[i], rest, value).value, i, rest, value, q);
      }
  }

  lemma InsertAtEmpty(key: Path, value: Value, q: Path)
    ensures SetsKey(Empty, key, value, Leaf(key, value), q)
  {
    LeafGet(key, value, q);
  }

  lemma InsertAtBranch(children: seq<Option<Node>>, val: Option<Value>, value: Value, q: Path)
    requires Wf(Branch(children, val))
    ensures SetsKey(Branch(children, val), [], value, Branch(children, Some(value)), q)
  {
  }

  lemma InsertSplitsExtension(p: Path, key: Path, value: Value, ext: Path, child: Node, q: Path)
    requires Wf(child) && ext != [] && (key != [] ==> key[0] != ext[0])
    ensures SetsKey(Extension(p + ext, child), p + key, value,
                    SplitExtension(p + key, value, p + ext, child, |p|), q)
  {
    SplitExtensionGet(p, key, value, ext, child, q);
  }
}
