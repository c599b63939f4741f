/**
 * The commitment tree with duplication of odd nodes (privacy/commitment.rs).
 * The pair hash is any function; soundness exhibits a collision of it.
 */
module MerkleTree {
  import opened Common

  type Digest = nat
  type Pair = (Digest, Digest)
  type PairHash = (Digest, Digest) -> Digest

  datatype MerkleProof = MerkleProof(leaf: Digest, path: seq<Digest>, indices: seq<bool>)

  // ----- levels -----

  function LevelSize(n: nat): nat {
    (n + 1) / 2
  }

  /** The two nodes hashed into node `i` of the next level; the last node is its own partner. */
  function PairAt(level: seq<Digest>, i: nat): Pair
    requires i < LevelSize(|level|)
  {
    (level[2 * i], if 2 * i + 1 < |level| then level[2 * i + 1] else level[2 * i])
  }

  function HashOf(h: PairHash, p: Pair): Digest {
    h(p.0, p.1)
  }

  function NextLevel(h: PairHash, level: seq<Digest>): (next: seq<Digest>)
    ensures |next| == LevelSize(|level|)
    ensures forall i | 0 <= i < |next| :: next[i] == HashOf(h, PairAt(level, i))
  {
    seq(LevelSize(|level|), i requires 0 <= i < LevelSize(|level|) => HashOf(h, PairAt(level, i)))
  }

  function Root(h: PairHash, level: seq<Digest>): Digest
    requires level != []
    decreases |level|
  {
    if |level| == 1 then level[0] else Root(h, NextLevel(h, level))
  }

  function Depth(n: nat): nat {
    if n <= 1 then 0 else 1 + Depth(LevelSize(n))
  }

  /** A single leaf is the root; of more, each two in order are hashed into one, a last
      one without a partner with itself, and the root is that of the results. */
  lemma RootOfPairs(h: PairHash, leaves: seq<Digest>, next: seq<Digest>)
    requires leaves != [] && 2 * |next| - 1 <= |leaves| <= 2 * |next|
    requires forall i | 0 <= i < |next| ::
               next[i] == h(leaves[2 * i], if 2 * i + 1 < |leaves| then leaves[2 * i + 1] else leaves[2 * i])
    ensures |leaves| == 1 ==> Root(h, leaves) == leaves[0]
    ensures |leaves| > 1 ==> next != [] && Root(h, leaves) == Root(h, next)
  {
    var level := NextLevel(h, leaves);
    assert forall i | 0 <= i < |level| :: level[i] == HashOf(h, PairAt(leaves, i)) == next[i];
    assert level == next;
  }

  function Pow2(k: nat): (r: nat)
    ensures r > 0
  {
    if k == 0 then 1 else 2 * Pow2(k - 1)
  }

  /** Two full trees side by side, the left one in front. */
  lemma {:induction false} RootOfHalves(h: PairHash, a: seq<Digest>, b: seq<Digest>, k: nat)
    requires |a| == |b| == Pow2(k)
    ensures Root(h, a + b) == h(Root(h, a), Root(h, b))
    decreases k
  {
    if k == 0 {
      assert NextLevel(h, a + b) == [h(a[0], b[0])];
    } else {
      var x, y := NextLevel(h, a), NextLevel(h, b);
      assert NextLevel(h, a + b) == x + y;
      RootOfHalves(h, x, y, k - 1);
    }
  }

  lemma SmallRoots(h: PairHash, leaves: seq<Digest>)
    ensures |leaves| == 2 ==> Root(h, leaves) == h(leaves[0], leaves[1])
    ensures |leaves| == 3 ==> Root(h, leaves) == h(h(leaves[0], leaves[1]), h(leaves[2], leaves[2]))
  {
    if |leaves| == 2 {
      RootOfPairs(h, leaves, [h(leaves[0], leaves[1])]);
    }
    if |leaves| == 3 {
      var next := [h(leaves[0], leaves[1]), h(leaves[2], leaves[2])];
      RootOfPairs(h, leaves, next);
      RootOfPairs(h, next, [h(next[0], next[1])]);
    }
  }

  // ----- an independent reference: the tree from the top -----

  function SizeAt(n: nat, height: nat): nat {
    if height == 0 then n else LevelSize(SizeAt(n, height - 1))
  }

  /** The hash of the subtree of the given height at position `i`; a missing
      right subtree is replaced by the left one. */
  function Subtree(h: PairHash, leaves: seq<Digest>, height: nat, i: nat): Digest
    requires i < SizeAt(|leaves|, height)
    decreases height
  {
    if height == 0 then leaves[i]
    else
      var left := Subtree(h, leaves, height - 1, 2 * i);
      var right := if 2 * i + 1 < SizeAt(|leaves|, height - 1) then Subtree(h, leaves, height - 1, 2 * i + 1) else left;
      h(left, right)
  }

  function Level(h: PairHash, leaves: seq<Digest>, height: nat): (r: seq<Digest>)
    ensures |r| == SizeAt(|leaves|, height)
  {
    if height == 0 then leaves else NextLevel(h, Level(h, leaves, height - 1))
  }

  lemma {:induction false} LevelIsSubtrees(h: PairHash, leaves: seq<Digest>, height: nat, i: nat)
    requires i < SizeAt(|leaves|, height)
    ensures Level(h, leaves, height)[i] == Subtree(h, leaves, height, i)
  {
    if height > 0 {
      LevelIsSubtrees(h, leaves, height - 1, 2 * i);
      if 2 * i + 1 < SizeAt(|leaves|, height - 1) {
        LevelIsSubtrees(h, leaves, height - 1, 2 * i + 1);
      }
    }
  }

  lemma {:induction false} LevelShifts(h: PairHash, leaves: seq<Digest>, height: nat)
    ensures Level(h, NextLevel(h, leaves), height) == Level(h, leaves, height + 1)
  {
    if height > 0 {
      LevelShifts(h, leaves, height - 1);
    }
  }

  lemma {:induction false} RootIsTopLevel(h: PairHash, leaves: seq<Digest>)
    requires leaves != []
    ensures Level(h, leaves, Depth(|leaves|)) == [Root(h, leaves)]
    decreases |leaves|
  {
    if |leaves| > 1 {
      RootIsTopLevel(h, NextLevel(h, leaves));
      LevelShifts(h, leaves, Depth(LevelSize(|leaves|)));
    }
  }

  /** The level-by-level root is the hash of the tree over all leaves. */
  lemma RootIsTree(h: PairHash, leaves: seq<Digest>)
    requires leaves != []
    ensures SizeAt(|leaves|, Depth(|leaves|)) == 1
    ensures Root(h, leaves) == Subtree(h, leaves, Depth(|leaves|), 0)
  {
    RootIsTopLevel(h, leaves);
    assert |Level(h, leaves, Depth(|leaves|))| == 1;
    LevelIsSubtrees(h, leaves, Depth(|leaves|), 0);
  }

  /** The hash of the whole tree, from the top. */
  function TreeHash(h: PairHash, leaves: seq<Digest>): (r: Digest)
    requires leaves != []
    ensures r == Root(h, leaves)
  {
    RootIsTree(h, leaves);
    Subtree(h, leaves, Depth(|leaves|), 0)
  }

  // ----- proofs -----

  /** Sibling (the node itself when it has none) and side at each level. */
  function ProofPath(h: PairHash, level: seq<Digest>, index: nat): (seq<Digest>, seq<bool>)
    requires |level| > 1 ==> index < |level|
    decreases |level|
  {
    if |level| <= 1 then ([], [])
    else
      var isRight := index % 2 == 1;
      var siblingIndex := if isRight then index - 1 else index + 1;
      var sibling := if siblingIndex < |level| then level[siblingIndex] else level[index];
      var (path, indices) := ProofPath(h, NextLevel(h, level), index / 2);
      ([sibling] + path, [isRight] + indices)
  }

  lemma ProofPathStep(h: PairHash, level: seq<Digest>, index: nat)
    requires |level| > 1 && index < |level|
    ensures var isRight := index % 2 == 1;
            var siblingIndex := if isRight then index - 1 else index + 1;
            var sibling := if siblingIndex < |level| then level[siblingIndex] else level[index];
            var (path, indices) := ProofPath(h, NextLevel(h, level), index / 2);
            && ProofPath(h, level, index) == ([sibling] + path, [isRight] + indices)
            && index / 2 < |NextLevel(h, level)| < |level|
  {}

  lemma ProofPathEnds(h: PairHash, level: seq<Digest>, index: nat)
    requires |level| == 1 || level == []
    ensures ProofPath(h, level, index) == ([], [])
  {}

  function StepPair(current: Digest, sibling: Digest, isRight: bool): Pair {
    if isRight then (sibling, current) else (current, sibling)
  }

  function Recompute(h: PairHash, current: Digest, path: seq<Digest>, indices: seq<bool>): Digest
    decreases |path|
  {
    if path == [] || indices == [] then current
    else Recompute(h, HashOf(h, StepPair(current, path[0], indices[0])), path[1..], indices[1..])
  }

  /** A sibling marked as standing on the left, which is when the node is a right one, is
      hashed in front of it, any other behind it. */
  lemma RecomputeStep(h: PairHash, current: Digest, sibling: Digest, isRight: bool, path: seq<Digest>, indices: seq<bool>)
    ensures Recompute(h, current, [sibling] + path, [isRight] + indices) ==
            Recompute(h, if isRight then h(sibling, current) else h(current, sibling), path, indices)
    ensures Recompute(h, current, [], indices) == current == Recompute(h, current, path, [])
  {
    assert ([sibling] + path)[1..] == path && ([isRight] + indices)[1..] == indices;
  }

  function Spelled(indices: seq<bool>): nat {
    if indices == [] then 0 else (if indices[0] then 1 else 0) + 2 * Spelled(indices[1..])
  }

  /** The sides spell the position of the leaf in binary, the lowest digit first, and the
      first sibling is the leaf next to it, or itself if there is none. */
  lemma {:induction false} SidesSpellPosition(h: PairHash, level: seq<Digest>, index: nat)
    requires index < |level|
    ensures Spelled(ProofPath(h, level, index).1) == index
    ensures |level| > 1 ==>
              ProofPath(h, level, index).0 != [] &&
              ProofPath(h, level, index).0[0] ==
                if index % 2 == 1 then level[index - 1] else if index + 1 < |level| then level[index + 1] else level[index]
    decreases |level|
  {
    if |level| > 1 {
      ProofPathStep(h, level, index);
      SidesSpellPosition(h, NextLevel(h, level), index / 2);
      var indices := ProofPath(h, NextLevel(h, level), index / 2).1;
      assert ([index % 2 == 1] + indices)[1..] == indices;
    }
  }

  /** The proof generated for an inserted leaf recomputes to the root. */
  lemma {:induction false} ProofComplete(h: PairHash, level: seq<Digest>, index: nat)
    requires index < |level|
    ensures var (path, indices) := ProofPath(h, level, index);
            && |path| == |indices| == Depth(|level|)
            && Recompute(h, level[index], path, indices) == Root(h, level)
    decreases |level|
  {
    if |level| > 1 {
      var (path, indices) := ProofPath(h, level, index);
      var next := NextLevel(h, level);
      ProofComplete(h, next, index / 2);
      assert StepPair(level[index], path[0], indices[0]) == PairAt(level, index / 2);
      var (path', indices') := ProofPath(h, next, index / 2);
      assert path == [path[0]] + path' && indices == [indices[0]] + indices';
    }
  }

  /** The first position of a leaf, or 0 when it was not inserted. */
  function Position(leaves: seq<Digest>, leaf: Digest): (i: nat)
    ensures leaf in leaves ==> i < |leaves| && leaves[i] == leaf
    ensures leaf !in leaves ==> i == 0
  {
    if leaf !in leaves || leaves[0] == leaf then 0 else 1 + Position(leaves[1..], leaf)
  }

  lemma {:induction false} FirstPosition(leaves: seq<Digest>, leaf: Digest, i: nat)
    requires i <= |leaves| && leaf !in leaves[..i]
    ensures i < |leaves| && leaves[i] == leaf ==> Position(leaves, leaf) == i
    ensures i == |leaves| ==> leaf !in leaves
  {
    assert leaves == leaves[..i] + leaves[i..];
    if i > 0 && i < |leaves| && leaves[i] == leaf {
      assert leaves[0] in leaves[..i];
      assert leaves[1..][..i - 1] == leaves[..i][1..];
      FirstPosition(leaves[1..], leaf, i - 1);
    }
  }

  /** The pairs hashed when the root of `level` is computed. */
  function TreePairs(h: PairHash, level: seq<Digest>): set<Pair>
    decreases |level|
  {
    if |level| <= 1 then {}
    else PairsOf(level) + TreePairs(h, NextLevel(h, level))
  }

  function PairsOf(level: seq<Digest>): (r: set<Pair>)
    ensures forall i | 0 <= i < LevelSize(|level|) :: PairAt(level, i) in r
    ensures forall p | p in r :: p.0 in level && p.1 in level
    decreases |level|
  {
    if level == [] then {}
    else if |level| == 1 then {(level[0], level[0])}
    else
      var rest := PairsOf(level[2..]);
      assert forall i | 1 <= i < LevelSize(|level|) :: PairAt(level, i) == PairAt(level[2..], i - 1);
      {(level[0], level[1])} + rest
  }

  /** The pairs hashed when a proof is recomputed. */
  function ProofPairs(h: PairHash, current: Digest, path: seq<Digest>, indices: seq<bool>): set<Pair>
    decreases |path|
  {
    if path == [] || indices == [] then {}
    else
      var p := StepPair(current, path[0], indices[0]);
      {p} + ProofPairs(h, HashOf(h, p), path[1..], indices[1..])
  }

  /** Two different pairs with one hash, the first from `a` and the second from `b`. */
  ghost predicate Collide(h: PairHash, a: set<Pair>, b: set<Pair>) {
    exists p, q :: p in a && q in b && p != q && HashOf(h, p) == HashOf(h, q)
  }

  /** A proof as long as the tree is deep that recomputes to the root is for an
      inserted leaf, unless it collides with a pair of the tree. */
  lemma {:induction false} ProofSound(h: PairHash, level: seq<Digest>, leaf: Digest, path: seq<Digest>, indices: seq<bool>)
    requires level != []
    requires Min(|path|, |indices|) == Depth(|level|)
    requires Recompute(h, leaf, path, indices) == Root(h, level)
    ensures leaf in level || Collide(h, ProofPairs(h, leaf, path, indices), TreePairs(h, level))
    decreases |level|
  {
    if |level| > 1 {
      var p := StepPair(leaf, path[0], indices[0]);
      var next := NextLevel(h, level);
      var rest := ProofPairs(h, HashOf(h, p), path[1..], indices[1..]);
      ProofSound(h, next, HashOf(h, p), path[1..], indices[1..]);
      if HashOf(h, p) in next {
        var i :| 0 <= i < |next| && next[i] == HashOf(h, p);
        var q := PairAt(level, i);
        assert p in ProofPairs(h, leaf, path, indices) && q in TreePairs(h, level);
        assert p != q ==> Collide(h, ProofPairs(h, leaf, path, indices), TreePairs(h, level));
      } else {
        var a, b :| a in rest && b in TreePairs(h, next) && a != b && HashOf(h, a) == HashOf(h, b);
        assert a in ProofPairs(h, leaf, path, indices) && b in TreePairs(h, level);
      }
    } else {
      assert path == [] || indices == [];
    }
  }

  /** Two trees with equally many leaves and the same root have the same
      leaves, unless they collide. */
  lemma {:induction false} RootDeterminesLeaves(h: PairHash, a: seq<Digest>, b: seq<Digest>)
    requires |a| == |b| > 0 && Root(h, a) == Root(h, b)
    ensures a == b || Collide(h, TreePairs(h, a), TreePairs(h, b))
    decreases |a|
  {
    if |a| > 1 {
      var a', b' := NextLevel(h, a), NextLevel(h, b);
      RootDeterminesLeaves(h, a', b');
      if a' != b' {
        var p, q :| p in TreePairs(h, a') && q in TreePairs(h, b') && p != q && HashOf(h, p) == HashOf(h, q);
        assert p in TreePairs(h, a) && q in TreePairs(h, b);
      } else if i :| 0 <= i < LevelSize(|a|) && PairAt(a, i) != PairAt(b, i) {
        assert a'[i] == b'[i];
        assert PairAt(a, i) in TreePairs(h, a) && PairAt(b, i) in TreePairs(h, b);
      } else {
        forall k | 0 <= k < |a|
          ensures a[k] == b[k]
        {
          assert PairAt(a, k / 2) == PairAt(b, k / 2);
        }
      }
    }
  }

  lemma CollideMore(h: PairHash, a: set<Pair>, b: set<Pair>, a': set<Pair>, b': set<Pair>)
    requires a <= a' && b <= b'
    ensures Collide(h, a, b) ==> Collide(h, a', b')
  {}

  // ----- which leaf lists share a root -----

  lemma RootStep(h: PairHash, level: seq<Digest>)
    requires |level| > 1
    ensures Root(h, level) == Root(h, NextLevel(h, level))
  {}

  lemma NextKeepsRoot(h: PairHash, level: seq<Digest>)
    requires |level| > 1
    ensures var next := NextLevel(h, level);
            && next != [] && Depth(|level|) == Depth(|next|) + 1
            && Root(h, next) == Root(h, level) && TreePairs(h, next) <= TreePairs(h, level)
  {}

  /** Levels are trees themselves: with the same root, and pairs of the whole. */
  lemma {:induction false} LevelKeepsRoot(h: PairHash, leaves: seq<Digest>, k: nat)
    requires leaves != [] && k <= Depth(|leaves|)
    ensures var level := Level(h, leaves, k);
            && level != [] && Depth(|level|) == Depth(|leaves|) - k
            && Root(h, level) == Root(h, leaves) && TreePairs(h, level) <= TreePairs(h, leaves)
  {
    hide TreePairs, Root, NextLevel;
    if k > 0 {
      LevelKeepsRoot(h, leaves, k - 1);
      NextKeepsRoot(h, Level(h, leaves, k - 1));
    }
  }

  /** The right child of node `i`; a missing one is replaced by the left one. */
  function RightOf(n: nat, height: nat, i: nat): nat {
    if 2 * i + 1 < SizeAt(n, height) then 2 * i + 1 else 2 * i
  }

  /** The leaves of the subtree of the given height at position `i`, each
      missing right subtree filled with its left one. */
  function Spread(leaves: seq<Digest>, height: nat, i: nat): (r: seq<Digest>)
    requires i < SizeAt(|leaves|, height)
    ensures r != []
    decreases height
  {
    if height == 0 then [leaves[i]]
    else
      Spread(leaves, height - 1, 2 * i) + Spread(leaves, height - 1, RightOf(|leaves|, height - 1, i))
  }

  /** The leaves after every odd last node has been repeated. */
  function AllSpread(leaves: seq<Digest>): (r: seq<Digest>)
    requires leaves != []
  {
    OneAtTop(leaves);
    Spread(leaves, Depth(|leaves|), 0)
  }

  lemma OneAtTop(leaves: seq<Digest>)
    requires leaves != []
    ensures SizeAt(|leaves|, Depth(|leaves|)) == 1
  {
    RootIsTree((x, y) => 0, leaves);
  }

  /** The hash of a list as long as a power of two. */
  function Perfect(h: PairHash, leaves: seq<Digest>, height: nat): Digest
    requires leaves != []
  {
    if height == 0 || |leaves| == 1 then leaves[0]
    else
      var half := |leaves| / 2;
      h(Perfect(h, leaves[..half], height - 1), Perfect(h, leaves[half..], height - 1))
  }

  lemma PerfectHalves(h: PairHash, left: seq<Digest>, right: seq<Digest>, height: nat)
    requires height > 0 && left != [] && |left| == |right|
    ensures Perfect(h, left + right, height) == h(Perfect(h, left, height - 1), Perfect(h, right, height - 1))
  {
    assert (left + right)[..|left|] == left && (left + right)[|left|..] == right;
  }

  function Power(height: nat): (r: nat)
    ensures r > 0
  {
    if height == 0 then 1 else 2 * Power(height - 1)
  }

  lemma {:induction false} SubtreeIsPerfect(h: PairHash, leaves: seq<Digest>, height: nat, i: nat)
    requires i < SizeAt(|leaves|, height)
    ensures var r := Spread(leaves, height, i);
            |r| == Power(height) && Subtree(h, leaves, height, i) == Perfect(h, r, height)
    decreases height
  {
    if height > 0 {
      var k := RightOf(|leaves|, height - 1, i);
      SubtreeIsPerfect(h, leaves, height - 1, 2 * i);
      SubtreeIsPerfect(h, leaves, height - 1, k);
      PerfectHalves(h, Spread(leaves, height - 1, 2 * i), Spread(leaves, height - 1, k), height);
    }
  }

  /** The pair hashed into a subtree is one of the tree's. */
  lemma SubtreePair(h: PairHash, leaves: seq<Digest>, height: nat, i: nat) returns (p: Pair)
    requires leaves != [] && 0 < height <= Depth(|leaves|) && i < SizeAt(|leaves|, height)
    ensures p in TreePairs(h, leaves) && HashOf(h, p) == Subtree(h, leaves, height, i)
    ensures p == (Subtree(h, leaves, height - 1, 2 * i), Subtree(h, leaves, height - 1, RightOf(|leaves|, height - 1, i)))
  {
    hide TreePairs, Root, Depth, NextLevel;
    var level := Level(h, leaves, height - 1);
    LevelKeepsRoot(h, leaves, height - 1);
    p := PairAt(level, i);
    LevelIsSubtrees(h, leaves, height - 1, 2 * i);
    LevelIsSubtrees(h, leaves, height - 1, RightOf(|leaves|, height - 1, i));
    DeepHasTwo(|level|);
    PairInTree(h, level, i);
    LevelIsSubtrees(h, leaves, height, i);
  }

  lemma DeepHasTwo(n: nat)
    requires Depth(n) > 0
    ensures n > 1
  {}

  lemma PairInTree(h: PairHash, level: seq<Digest>, i: nat)
    requires |level| > 1 && i < LevelSize(|level|)
    ensures PairAt(level, i) in TreePairs(h, level)
  {}

  lemma {:induction false} EqualSubtrees(h: PairHash, a: seq<Digest>, b: seq<Digest>, height: nat, i: nat, j: nat)
    requires a != [] && b != [] && height <= Depth(|a|) && height <= Depth(|b|)
    requires i < SizeAt(|a|, height) && j < SizeAt(|b|, height)
    requires Subtree(h, a, height, i) == Subtree(h, b, height, j)
    ensures Spread(a, height, i) == Spread(b, height, j) || Collide(h, TreePairs(h, a), TreePairs(h, b))
    decreases height
  {
    hide TreePairs;
    if height > 0 && !Collide(h, TreePairs(h, a), TreePairs(h, b)) {
      var p := SubtreePair(h, a, height, i);
      var q := SubtreePair(h, b, height, j);
      assert p == q;
      EqualSubtrees(h, a, b, height - 1, 2 * i, 2 * j);
      EqualSubtrees(h, a, b, height - 1, RightOf(|a|, height - 1, i), RightOf(|b|, height - 1, j));
    }
  }

  /** Two leaf lists, neither shorter nor longer than the other by a level, have
      the same root if and only if repeating the odd last nodes makes them
      equal, unless the trees collide. */
  lemma EqualDepthRoots(h: PairHash, a: seq<Digest>, b: seq<Digest>)
    requires a != [] && b != [] && Depth(|a|) == Depth(|b|)
    ensures AllSpread(a) == AllSpread(b) ==> Root(h, a) == Root(h, b)
    ensures Root(h, a) == Root(h, b) ==> AllSpread(a) == AllSpread(b) || Collide(h, TreePairs(h, a), TreePairs(h, b))
  {
    var height := Depth(|a|);
    RootIsTree(h, a);
    RootIsTree(h, b);
    SubtreeIsPerfect(h, a, height, 0);
    SubtreeIsPerfect(h, b, height, 0);
    if Root(h, a) == Root(h, b) {
      EqualSubtrees(h, a, b, height, 0, 0);
    }
  }

  /** Any two leaf lists have the same root if and only if the level of the deeper
      tree that is as deep as the other tree is, repeated, the other's leaves
      repeated, unless the trees collide. */
  lemma RootsAgreeIff(h: PairHash, a: seq<Digest>, b: seq<Digest>)
    requires a != [] && b != [] && Depth(|a|) >= Depth(|b|)
    ensures var level := Level(h, a, Depth(|a|) - Depth(|b|));
            && level != []
            && (AllSpread(level) == AllSpread(b) ==> Root(h, a) == Root(h, b))
            && (Root(h, a) == Root(h, b) ==> AllSpread(level) == AllSpread(b) || Collide(h, TreePairs(h, a), TreePairs(h, b)))
  {
    hide *;
    var level := Level(h, a, Depth(|a|) - Depth(|b|));
    LevelKeepsRoot(h, a, Depth(|a|) - Depth(|b|));
    EqualDepthRoots(h, level, b);
    CollideMore(h, TreePairs(h, level), TreePairs(h, b), TreePairs(h, a), TreePairs(h, b));
  }

  /** The number of leaves matters: repeating the last of an odd number of
      leaves does not change the root. */
  lemma OddLeafRepeats(h: PairHash, leaves: seq<Digest>)
    requires |leaves| > 1 && |leaves| % 2 == 1
    ensures Root(h, leaves + [leaves[|leaves| - 1]]) == Root(h, leaves)
  {
    hide *;
    var more := leaves + [leaves[|leaves| - 1]];
    OddPairs(leaves);
    SamePairs(h, more, leaves);
    RootStep(h, more);
    RootStep(h, leaves);
  }

  lemma OddPairs(leaves: seq<Digest>)
    requires |leaves| > 1 && |leaves| % 2 == 1
    ensures var more := leaves + [leaves[|leaves| - 1]];
            LevelSize(|more|) == LevelSize(|leaves|) &&
            forall i | 0 <= i < LevelSize(|leaves|) :: PairAt(more, i) == PairAt(leaves, i)
  {
    var more := leaves + [leaves[|leaves| - 1]];
    forall i | 0 <= i < LevelSize(|leaves|)
      ensures PairAt(more, i) == PairAt(leaves, i)
    {
      assert more[2 * i] == leaves[2 * i];
    }
  }

  lemma SamePairs(h: PairHash, a: seq<Digest>, b: seq<Digest>)
    requires LevelSize(|a|) == LevelSize(|b|) && forall i | 0 <= i < LevelSize(|b|) :: PairAt(a, i) == PairAt(b, i)
    ensures NextLevel(h, a) == NextLevel(h, b)
  {
    hide PairAt, LevelSize, HashOf;
  }

  // ----- proofs of another length -----

  /** The position `k` levels above `index`. */
  function Above(index: nat, k: nat): nat {
    if k == 0 then index else Above(index / 2, k - 1)
  }

  /** The length of the proof matters: without its first `k` steps a proof is
      accepted for the node `k` levels above the leaf. */
  lemma {:induction false} InnerNodeAccepted(h: PairHash, leaves: seq<Digest>, index: nat, k: nat)
    requires index < |leaves| && k <= Depth(|leaves|)
    ensures var (path, indices) := ProofPath(h, leaves, index);
            && k <= |path| && k <= |indices| && Above(index, k) < |Level(h, leaves, k)|
            && Recompute(h, Level(h, leaves, k)[Above(index, k)], path[k..], indices[k..]) == Root(h, leaves)
    decreases k
  {
    hide Recompute, Root, NextLevel;
    ProofComplete(h, leaves, index);
    if k > 0 {
      var (path, indices) := ProofPath(h, leaves, index);
      var next := NextLevel(h, leaves);
      var (path', indices') := ProofPath(h, next, index / 2);
      InnerNodeAccepted(h, next, index / 2, k - 1);
      LevelShifts(h, leaves, k - 1);
      RootStep(h, leaves);
      assert path[k..] == path'[k - 1..] && indices[k..] == indices'[k - 1..];
    }
  }

  /** A proof `k` steps shorter than the tree is deep that recomputes to the root
      is for a node `k` levels above the leaves, unless it collides. */
  lemma ShortProofSound(h: PairHash, leaves: seq<Digest>, node: Digest, path: seq<Digest>, indices: seq<bool>, k: nat)
    requires leaves != [] && Min(|path|, |indices|) + k == Depth(|leaves|)
    requires Recompute(h, node, path, indices) == Root(h, leaves)
    ensures node in Level(h, leaves, k) || Collide(h, ProofPairs(h, node, path, indices), TreePairs(h, leaves))
  {
    var level := Level(h, leaves, k);
    LevelKeepsRoot(h, leaves, k);
    ProofSound(h, level, node, path, indices);
    var pairs := ProofPairs(h, node, path, indices);
    CollideMore(h, pairs, TreePairs(h, level), pairs, TreePairs(h, leaves));
  }

  /** A proof is recomputed by its first `k` steps and then the rest. */
  lemma {:induction false} RecomputeSplits(h: PairHash, value: Digest, path: seq<Digest>, indices: seq<bool>, k: nat)
    requires k <= |path| && k <= |indices|
    ensures var low := Recompute(h, value, path[..k], indices[..k]);
            && Recompute(h, value, path, indices) == Recompute(h, low, path[k..], indices[k..])
            && ProofPairs(h, low, path[k..], indices[k..]) <= ProofPairs(h, value, path, indices)
    decreases k
  {
    if k == 0 {
      assert path[0..] == path && indices[0..] == indices;
    } else {
      var next := HashOf(h, StepPair(value, path[0], indices[0]));
      RecomputeSplits(h, next, path[1..], indices[1..], k - 1);
      assert path[1..][k - 1..] == path[k..] && indices[1..][k - 1..] == indices[k..];
      assert path[1..][..k - 1] == path[..k][1..] && indices[1..][..k - 1] == indices[..k][1..];
    }
  }

  /** A proof `k` steps longer than the tree is deep that recomputes to the root has
      an inserted leaf after its first `k` steps, unless it collides. */
  lemma LongProofSound(h: PairHash, leaves: seq<Digest>, value: Digest, path: seq<Digest>, indices: seq<bool>, k: nat)
    requires leaves != [] && Min(|path|, |indices|) == Depth(|leaves|) + k
    requires Recompute(h, value, path, indices) == Root(h, leaves)
    ensures Recompute(h, value, path[..k], indices[..k]) in leaves ||
            Collide(h, ProofPairs(h, value, path, indices), TreePairs(h, leaves))
  {
    RecomputeSplits(h, value, path, indices, k);
    var low := Recompute(h, value, path[..k], indices[..k]);
    ProofSound(h, leaves, low, path[k..], indices[k..]);
    CollideMore(h, ProofPairs(h, low, path[k..], indices[k..]), TreePairs(h, leaves),
                ProofPairs(h, value, path, indices), TreePairs(h, leaves));
  }

  /** Conversely, whatever recomputes to a leaf in any number of steps is accepted
      with these steps before the leaf's proof. */
  lemma LongProofComplete(h: PairHash, leaves: seq<Digest>, index: nat, value: Digest, path: seq<Digest>, indices: seq<bool>)
    requires index < |leaves| && |path| == |indices| && Recompute(h, value, path, indices) == leaves[index]
    ensures var (above, sides) := ProofPath(h, leaves, index);
            Recompute(h, value, path + above, indices + sides) == Root(h, leaves)
  {
    var (above, sides) := ProofPath(h, leaves, index);
    ProofComplete(h, leaves, index);
    RecomputeSplits(h, value, path + above, indices + sides, |path|);
    assert (path + above)[..|path|] == path && (path + above)[|path|..] == above;
    assert (indices + sides)[..|path|] == indices && (indices + sides)[|path|..] == sides;
  }

  /** A generated proof is accepted exactly for inserted leaves, unless it
      collides with a pair of the tree. */
  lemma GeneratedProofDecides(h: PairHash, leaves: seq<Digest>, leaf: Digest)
    requires leaves != []
    ensures var (path, indices) := ProofPath(h, leaves, Position(leaves, leaf));
            && (leaf in leaves ==> Recompute(h, leaf, path, indices) == Root(h, leaves))
            && (Recompute(h, leaf, path, indices) == Root(h, leaves) ==>
                  leaf in leaves || Collide(h, ProofPairs(h, leaf, path, indices), TreePairs(h, leaves)))
  {
    var (path, indices) := ProofPath(h, leaves, Position(leaves, leaf));
    ProofComplete(h, leaves, Position(leaves, leaf));
    if Recompute(h, leaf, path, indices) == Root(h, leaves) {
      ProofSound(h, leaves, leaf, path, indices);
    }
  }

  // ----- the tree object -----

  class CommitmentTree {
    var leaves: seq<Digest>
    var rootCache: Option<Digest>
    const hashPair: PairHash

    constructor (hashPair: PairHash)
      ensures leaves == [] && this.hashPair == hashPair
    {
      leaves, rootCache := [], None;
      this.hashPair := hashPair;
    }

    method Insert(leaf: Digest)
      modifies this
      ensures leaves == old(leaves) + [leaf]
    {
      leaves := leaves + [leaf];
      rootCache := None;
    }

    /** The root of all leaves; zero for an empty tree. */
    method GetRoot() returns (r: Digest)
      ensures r == if leaves == [] then 0 else TreeHash(hashPair, leaves)
      ensures |leaves| == 1 ==> r == leaves[0]
      ensures |leaves| == 2 ==> r == hashPair(leaves[0], leaves[1])
      ensures |leaves| == 3 ==> r == hashPair(hashPair(leaves[0], leaves[1]), hashPair(leaves[2], leaves[2]))
    {
      if leaves == [] {
        return 0;
      }
      r := ComputeRoot();
      if 2 <= |leaves| <= 3 {
        SmallRoots(hashPair, leaves);
      }
    }

    /** Hashes one level into the next, two nodes at a time. */
    method HashLevel(currentLevel: seq<Digest>) returns (nextLevel: seq<Digest>)
      ensures nextLevel == NextLevel(hashPair, currentLevel)
    {
      nextLevel := [];
      var i := 0;
      while i < |currentLevel|
        invariant i % 2 == 0 && |nextLevel| == i / 2 <= LevelSize(|currentLevel|)
        invariant nextLevel == NextLevel(hashPair, currentLevel)[..i / 2]
      {
        var left := currentLevel[i];
        var right := if i + 1 < |currentLevel| then currentLevel[i + 1] else currentLevel[i];
        nextLevel := nextLevel + [hashPair(left, right)];
        i := i + 2;
      }
    }

    method ComputeRoot() returns (r: Digest)
      requires leaves != []
      ensures r == Root(hashPair, leaves)
    {
      if |leaves| == 1 {
        return leaves[0];
      }
      var currentLevel := leaves;
      while |currentLevel| > 1
        invariant currentLevel != [] && Root(hashPair, currentLevel) == Root(hashPair, leaves)
        decreases |currentLevel|
      {
        currentLevel := HashLevel(currentLevel);
      }
      r := currentLevel[0];
    }

    method ComputeProofPath(index: nat) returns (path: seq<Digest>, indices: seq<bool>)
      requires |leaves| > 1 ==> index < |leaves|
      ensures (path, indices) == ProofPath(hashPair, leaves, index)
    {
      hide *;
      path, indices := [], [];
      var currentIndex: nat := index;
      var currentLevel := leaves;
      ghost var whole := ProofPath(hashPair, leaves, index);
      while |currentLevel| > 1
        invariant |currentLevel| > 1 ==> currentIndex < |currentLevel|
        invariant path + ProofPath(hashPair, currentLevel, currentIndex).0 == whole.0
        invariant indices + ProofPath(hashPair, currentLevel, currentIndex).1 == whole.1
        decreases |currentLevel|
      {
        ProofPathStep(hashPair, currentLevel, currentIndex);
        ghost var rest := ProofPath(hashPair, NextLevel(hashPair, currentLevel), currentIndex / 2);
        ghost var path0, indices0 := path, indices;
        var isRight := currentIndex % 2 == 1;
        indices := indices + [isRight];
        var siblingIndex := if isRight then currentIndex - 1 else currentIndex + 1;
        if siblingIndex < |currentLevel| {
          path := path + [currentLevel[siblingIndex]];
        } else {
          path := path + [currentLevel[currentIndex]];
        }
        ghost var sibling := if siblingIndex < |currentLevel| then currentLevel[siblingIndex] else currentLevel[currentIndex];
        assert path0 + ([sibling] + rest.0) == path + rest.0 && indices0 + ([isRight] + rest.1) == indices + rest.1;
        currentIndex := currentIndex / 2;
        currentLevel := HashLevel(currentLevel);
      }
      ProofPathEnds(hashPair, currentLevel, currentIndex);
      assert path + [] == path && indices + [] == indices;
    }

    /** `generate_proof` */
    method GenerateProof(leaf: Digest) returns (proof: MerkleProof)
      ensures proof.leaf == leaf
      ensures (proof.path, proof.indices) == ProofPath(hashPair, leaves, Position(leaves, leaf))
      ensures leaf in leaves ==>
                var i := Spelled(proof.indices); i < |leaves| && leaves[i] == leaf && leaf !in leaves[..i]
      ensures leaf !in leaves ==> Spelled(proof.indices) == 0
    {
      var index := 0;
      while index < |leaves| && leaves[index] != leaf
        invariant index <= |leaves| && leaf !in leaves[..index]
      {
        index := index + 1;
      }
      FirstPosition(leaves, leaf, index);
      if index == |leaves| {
        index := 0;
      }
      if leaves != [] {
        SidesSpellPosition(hashPair, leaves, index);
      }
      var path, indices := ComputeProofPath(index);
      return MerkleProof(leaf, path, indices);
    }

    /** `compute_root_from_proof` compared with the expected root. */
    method VerifyProof(proof: MerkleProof, expectedRoot: Digest) returns (ok: bool)
      ensures ok <==> Recompute(hashPair, proof.leaf, proof.path, proof.indices) == expectedRoot
    {
      var current: Digest := proof.leaf;
      var i := 0;
      while i < |proof.path| && i < |proof.indices|
        invariant i <= |proof.path| && i <= |proof.indices|
        invariant Recompute(hashPair, current, proof.path[i..], proof.indices[i..]) ==
                  Recompute(hashPair, proof.leaf, proof.path, proof.indices)
      {
        assert proof.path[i..][1..] == proof.path[i + 1..] && proof.indices[i..][1..] == proof.indices[i + 1..];
        current := if proof.indices[i] then hashPair(proof.path[i], current) else hashPair(current, proof.path[i]);
        i := i + 1;
      }
      ok := current == expectedRoot;
    }
  }
}
