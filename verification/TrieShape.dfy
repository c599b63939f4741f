/**
 * The shape updates keep (storage/merkle_trie.rs): paths stay compressed, but the
 * shape, and with it the root, depends on the order of the insertions.
 */
module TrieShape {
  import opened Common
  import opened Trie
  import opened TrieUpdates
  import TrieStore

  // ----- path compression -----

  ghost predicate Several(children: seq<Option<Node>>) {
    exists i, j :: 0 <= i < j < |children| && children[i].Some? && children[j].Some?
  }

  /** No node stands where a shorter one would do: extensions are not empty and lead to
      branches, and a branch has a value or more than one child, or the one child is a
      branch too. */
  ghost predicate Tight(n: Node) {
    match n
    case Empty => false
    case Leaf(_, _) => true
    case Extension(path, child) => path != [] && child.Branch? && Tight(child)
    case Branch(children, val) =>
      && |children| == 16 && (forall i | 0 <= i < 16 :: children[i].Some? ==> Tight(children[i].value))
      && (exists i :: 0 <= i < 16 && children[i].Some?)
      && (val.Some? || Several(children) || forall i | 0 <= i < 16 :: children[i].Some? ==> children[i].value.Branch?)
  }

  ghost predicate TightSlot(slot: Option<Node>) {
    slot.Some? ==> Tight(slot.value)
  }

  lemma {:induction false} TightIsWf(n: Node)
    requires Tight(n)
    ensures Wf(n)
  {
    match n
    case Leaf(_, _) =>
    case Extension(_, child) => TightIsWf(child);
    case Branch(children, _) =>
      forall i | 0 <= i < 16 && children[i].Some?
        ensures Wf(children[i].value)
      {
        TightIsWf(children[i].value);
      }
  }

  lemma SplitTight(key: Path, value: Value, path: Path, existing: Value, common: nat)
    requires common <= |key| && common <= |path| && !(common == |key| && common == |path|)
    ensures Tight(SplitAndInsert(key, value, path, existing, common))
  {
    var i := if |path| > common then path[common] else key[common];
    var withNew := if |key| > common
      then NO_CHILDREN[key[common] := Some(Leaf(key[common + 1..], value))] else NO_CHILDREN;
    var withBoth := if |path| > common
      then withNew[path[common] := Some(Leaf(path[common + 1..], existing))] else withNew;
    assert withBoth[i].Some?;
    assert forall i | 0 <= i < 16 && withBoth[i].Some? :: withBoth[i].value.Leaf?;
  }

  lemma SplitExtensionTight(key: Path, value: Value, ext: Path, child: Node, common: nat)
    requires common <= |key| && common < |ext| && Tight(child) && child.Branch? && (|key| > common ==> key[common] != ext[common])
    ensures Wf(child) && Tight(SplitExtension(key, value, ext, child, common))
  {
    TightIsWf(child);
    var withNew := if |key| > common
      then NO_CHILDREN[key[common] := Some(Leaf(key[common + 1..], value))] else NO_CHILDREN;
    var rest := if |ext| > common + 1 then Extension(ext[common + 1..], child) else child;
    var withBoth := withNew[ext[common] := Some(rest)];
    assert Tight(rest) && withBoth[ext[common]].Some?;
    if |key| > common {
      TwoChildren(withBoth, key[common], ext[common]);
    }
    assert forall i | 0 <= i < 16 && withBoth[i].Some? :: Tight(withBoth[i].value);
  }

  lemma TwoChildren(children: seq<Option<Node>>, i: nat, j: nat)
    requires i < |children| && j < |children| && i != j && children[i].Some? && children[j].Some?
    ensures Several(children)
  {
    if i < j {
      assert children[i].Some? && children[j].Some?;
    } else {
      assert children[j].Some? && children[i].Some?;
    }
  }

  /** Filling a slot keeps a branch tight. */
  lemma SlotTight(children: seq<Option<Node>>, val: Option<Value>, k: nat, n: Node)
    requires Tight(Branch(children, val)) && k < 16 && Tight(n)
    requires children[k].Some? && children[k].value.Branch? ==> n.Branch?
    ensures Tight(Branch(children[k := Some(n)], val))
  {
    var after := children[k := Some(n)];
    assert after[k].Some?;
    var i :| 0 <= i < 16 && children[i].Some?;
    if children[k].None? {
      TwoChildren(after, i, k);
    } else if Several(children) {
      var a, b :| 0 <= a < b < |children| && children[a].Some? && children[b].Some?;
      assert after[a].Some? && after[b].Some?;
    }
  }

  lemma {:induction false} InsertTight(n: Node, key: Path, value: Value)
    requires Tight(n)
    ensures Wf(n) && Tight(Insert(n, key, value)) && (n.Branch? ==> Insert(n, key, value).Branch?)
    decreases n
  {
    TightIsWf(n);
    match n
    case Leaf(path, existing) =>
      var common := CommonPrefixLen(key, path);
      if !(common == |path| && common == |key|) {
        SplitTight(key, value, path, existing, common);
      }
    case Extension(path, child) =>
      var common := CommonPrefixLen(key, path);
      if common == |path| {
        InsertTight(child, key[common..], value);
      } else {
        SplitExtensionTight(key, value, path, child, common);
      }
    case Branch(children, val) =>
      if key != [] {
        if children[key[0]].Some? {
          InsertTight(children[key[0]].value, key[1..], value);
          SlotTight(children, val, key[0], Insert(children[key[0]].value, key[1..], value));
        } else {
          SlotTight(children, val, key[0], Leaf(key[1..], value));
        }
      }
  }

  lemma SimplifyTight(children: seq<Option<Node>>, val: Option<Value>)
    requires |children| == 16 && forall i | 0 <= i < 16 :: TightSlot(children[i])
    ensures Wf(Branch(children, val)) && TightSlot(SimplifyBranch(children, val))
  {
    forall i | 0 <= i < 16 && children[i].Some?
      ensures Wf(children[i].value)
    {
      TightIsWf(children[i].value);
    }
    var nonEmpty := NonEmpty(children, 0);
    if |nonEmpty| == 1 {
      SingleChild(children);
      assert children[nonEmpty[0]].Some?;
    } else if |nonEmpty| > 1 {
      SeveralListed(children);
      assert nonEmpty[0] in nonEmpty && children[nonEmpty[0]].Some?;
    }
  }

  lemma {:induction false} NonEmptyAscends(children: seq<Option<Node>>, from: nat)
    requires from <= |children|
    ensures forall i, j | 0 <= i < j < |NonEmpty(children, from)| :: NonEmpty(children, from)[i] < NonEmpty(children, from)[j]
    decreases |children| - from
  {
    if from < |children| {
      var rest := NonEmpty(children, from + 1);
      NonEmptyAscends(children, from + 1);
      assert forall i | 0 <= i < |rest| :: rest[i] in rest;
    }
  }

  lemma SeveralListed(children: seq<Option<Node>>)
    requires |NonEmpty(children, 0)| > 1
    ensures Several(children)
  {
    var nonEmpty := NonEmpty(children, 0);
    NonEmptyAscends(children, 0);
    assert nonEmpty[0] in nonEmpty && nonEmpty[1] in nonEmpty;
    TwoChildren(children, nonEmpty[0], nonEmpty[1]);
  }

  lemma {:induction false} DeleteTight(n: Node, key: Path)
    requires Tight(n)
    ensures Wf(n) && TightSlot(Delete(n, key))
    decreases n
  {
    hide SimplifyBranch;
    TightIsWf(n);
    match n
    case Leaf(_, _) =>
    case Extension(path, child) =>
      if path <= key {
        DeleteTight(child, key[|path|..]);
      }
    case Branch(children, val) =>
      if key == [] {
        SimplifyTight(children, None);
      } else if children[key[0]].Some? {
        DeleteTight(children[key[0]].value, key[1..]);
        SimplifyTight(children[key[0] := Delete(children[key[0]].value, key[1..])], val);
      }
  }

  lemma UpdateTight(root: Option<Node>, u: Update)
    requires TightSlot(root)
    ensures WfSlot(root) && TightSlot(TrieStore.ApplyUpdate(root, u))
  {
    if root.Some? {
      TightIsWf(root.value);
      InsertTight(root.value, BytesToNibbles(u.key), if u.value.Some? then u.value.value else []);
      DeleteTight(root.value, BytesToNibbles(u.key));
    }
  }

  lemma {:induction false} UpdatesTight(root: Option<Node>, updates: seq<Update>)
    requires TightSlot(root)
    ensures WfSlot(root) && TightSlot(TrieStore.ApplyAll(root, updates))
    decreases |updates|
  {
    if root.Some? {
      TightIsWf(root.value);
    }
    if updates != [] {
      UpdateTight(root, updates[0]);
      UpdatesTight(TrieStore.ApplyUpdate(root, updates[0]), updates[1..]);
    }
  }

  /** Whatever is put, deleted and committed, the trie stays tight. */
  lemma {:induction false} RunTight(t: TrieStore.State, ops: seq<Op>)
    requires TightSlot(t.root)
    ensures WfSlot(t.root) && TightSlot(TrieStore.RunOps(t, ops).root)
    decreases |ops|
  {
    hide TrieStore.ApplyAll;
    UpdatesTight(t.root, SortByKey(t.pending));
    if ops != [] {
      if ops[0].PutOp? {
        UpdatesTight(t.root, SortByKey(t.pending + [Update(ops[0].key, Some(ops[0].value))]));
      }
      RunTight(TrieStore.StepOp(t, ops[0]), ops[1..]);
    }
  }

  // ----- the order of insertions shows -----

  function Both(first: Path, value1: Value, second: Path, value2: Value): Node {
    Insert(Leaf(first, value1), second, value2)
  }

  /** Two keys inserted in either order give the same trie exactly when their values are
      equal or one key begins with the other: where the keys part, the branch keeps the
      value that was there first. */
  lemma InsertOrderIff(key1: Path, value1: Value, key2: Path, value2: Value)
    requires key1 != key2
    ensures Both(key1, value1, key2, value2) == Both(key2, value2, key1, value1) <==>
            value1 == value2 || key1 <= key2 || key2 <= key1
  {
    var c := CommonPrefixLen(key2, key1);
    CommonPrefixUnique(key1, key2);
    assert key1 <= key2 <==> c == |key1|;
    assert key2 <= key1 <==> c == |key2|;
    var there, back := SplitAndInsert(key2, value2, key1, value1, c), SplitAndInsert(key1, value1, key2, value2, c);
    assert Both(key1, value1, key2, value2) == there && Both(key2, value2, key1, value1) == back;
    if c < |key1| && c < |key2| {
      SameChildren(key1, value1, key2, value2, c);
    }
  }

  lemma {:induction false} CommonPrefixUnique(a: Path, b: Path)
    ensures CommonPrefixLen(a, b) == CommonPrefixLen(b, a)
  {
    if a != [] && b != [] && a[0] == b[0] {
      CommonPrefixUnique(a[1..], b[1..]);
    }
  }

  lemma SameChildren(key1: Path, value1: Value, key2: Path, value2: Value, c: nat)
    requires c < |key1| && c < |key2| && key1[c] != key2[c]
    ensures var leaf1, leaf2 := Some(Leaf(key1[c + 1..], value1)), Some(Leaf(key2[c + 1..], value2));
            NO_CHILDREN[key1[c] := leaf1][key2[c] := leaf2] == NO_CHILDREN[key2[c] := leaf2][key1[c] := leaf1]
  {
  }

  lemma {:induction false} PrefixInNibbles(a: Key, b: Key)
    ensures BytesToNibbles(a) <= BytesToNibbles(b) <==> a <= b
  {
    if a != [] && b != [] {
      var x, y := BytesToNibbles(a), BytesToNibbles(b);
      assert x == [x[0], x[1]] + BytesToNibbles(a[1..]) && y == [y[0], y[1]] + BytesToNibbles(b[1..]);
      assert a == [a[0]] + a[1..] && b == [b[0]] + b[1..];
      PrefixInNibbles(a[1..], b[1..]);
      assert x <= y <==> x[0] == y[0] && x[1] == y[1] && x[2..] <= y[2..] by {
        FrontTwo(x, y);
      }
      assert a <= b <==> a[0] == b[0] && a[1..] <= b[1..] by {
        FrontOne(a, b);
      }
    }
  }

  lemma FrontOne(a: Key, b: Key)
    requires a != [] && b != []
    ensures a <= b <==> a[0] == b[0] && a[1..] <= b[1..]
  {
    if a[0] == b[0] && a[1..] <= b[1..] {
      assert b[..|a|] == [b[0]] + b[1..][..|a| - 1];
    }
    if a <= b {
      assert b[1..][..|a| - 1] == b[..|a|][1..];
    }
  }

  lemma FrontTwo(x: Path, y: Path)
    requires |x| >= 2 && |y| >= 2
    ensures x <= y <==> x[0] == y[0] && x[1] == y[1] && x[2..] <= y[2..]
  {
    if x[0] == y[0] && x[1] == y[1] && x[2..] <= y[2..] {
      assert y[..|x|] == [y[0], y[1]] + y[2..][..|x| - 2];
    }
    if x <= y {
      assert y[2..][..|x| - 2] == y[..|x|][2..];
    }
  }

  const NOTHING := TrieStore.State(None, [])

  /** The root after putting and committing one key and then another. */
  function PutBoth(key1: Key, value1: Value, key2: Key, value2: Value): Option<Node> {
    TrieStore.RunOps(NOTHING, [PutOp(key1, value1), CommitOp, PutOp(key2, value2), CommitOp]).root
  }

  lemma CommitOne(root: Option<Node>, u: Update)
    requires WfSlot(root)
    ensures TrieStore.Committed(TrieStore.State(root, [u])) == TrieStore.State(TrieStore.ApplyUpdate(root, u), [])
  {
    assert [u][1..] == [] && SortByKey([]) == [] && SortByKey([u]) == InsertSorted(u, []);
    assert [u] + [] == [u];
    var after := TrieStore.ApplyUpdate(root, u);
    assert TrieStore.ApplyAll(after, []) == after;
    assert TrieStore.ApplyAll(root, [u]) == TrieStore.ApplyAll(after, [u][1..]);
  }

  lemma PutBothIs(key1: Key, value1: Value, key2: Key, value2: Value)
    ensures PutBoth(key1, value1, key2, value2) == Some(Both(BytesToNibbles(key1), value1, BytesToNibbles(key2), value2))
  {
    hide TrieStore.Committed, TrieStore.ApplyAll;
    var op1, op2 := PutOp(key1, value1), PutOp(key2, value2);
    var all := [op1, CommitOp, op2, CommitOp];
    assert all[1..] == [CommitOp, op2, CommitOp] && all[1..][1..] == [op2, CommitOp] && all[1..][1..][1..] == [CommitOp];
    var one := Update(key1, Some(value1));
    var two := Update(key2, Some(value2));
    CommitOne(None, one);
    var s1 := TrieStore.StepOp(NOTHING, op1);
    assert s1 == TrieStore.State(None, [one]);
    var s2 := TrieStore.StepOp(s1, CommitOp);
    CommitOne(s2.root, two);
    var s3 := TrieStore.StepOp(s2, op2);
    assert s3 == TrieStore.State(s2.root, [two]);
    var s4 := TrieStore.StepOp(s3, CommitOp);
    assert [CommitOp][1..] == [];
    assert TrieStore.RunOps(s3, [CommitOp]) == s4;
    assert TrieStore.RunOps(s2, [op2, CommitOp]) == s4;
    assert TrieStore.RunOps(s1, [CommitOp, op2, CommitOp]) == s4;
  }

  /** So two keys committed one after the other leave a root that depends on which came
      first, unless their values are equal or one key begins with the other. */
  lemma CommitOrderIff(key1: Key, value1: Value, key2: Key, value2: Value)
    requires key1 != key2
    ensures PutBoth(key1, value1, key2, value2) == PutBoth(key2, value2, key1, value1) <==>
            value1 == value2 || key1 <= key2 || key2 <= key1
  {
    PutBothIs(key1, value1, key2, value2);
    PutBothIs(key2, value2, key1, value1);
    if BytesToNibbles(key1) == BytesToNibbles(key2) {
      NibblesInjective(key1, key2);
    }
    PrefixInNibbles(key1, key2);
    PrefixInNibbles(key2, key1);
    InsertOrderIff(BytesToNibbles(key1), value1, BytesToNibbles(key2), value2);
  }
}
