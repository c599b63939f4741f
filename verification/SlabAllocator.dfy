/**
 * The slab allocator (optimization/memory_pool.rs). Addresses are numbers; the
 * address at which the system places a new slab is a parameter.
 */
module SlabAllocator {
  import opened Common

  datatype Slab = Slab(memory: nat, freeList: seq<nat>, usedCount: nat)

  /** A block is named by its slab and its place in it. */
  datatype Block = Block(slab: nat, offset: nat)

  datatype Shape = Shape(blockSize: nat, blocks: nat)

  ghost predicate ValidShape(p: Shape) {
    p.blockSize > 0 && p.blocks > 0
  }

  function SlabSize(p: Shape): nat {
    p.blockSize * p.blocks
  }

  function Address(p: Shape, slabs: seq<Slab>, b: Block): nat
    requires b.slab < |slabs|
  {
    slabs[b.slab].memory + b.offset * p.blockSize
  }

  ghost predicate Distinct(s: seq<nat>) {
    forall i, j | 0 <= i < j < |s| :: s[i] != s[j]
  }

  /** Whether an address falls into the slab. */
  predicate Within(p: Shape, s: Slab, address: nat) {
    s.memory <= address < s.memory + SlabSize(p)
  }

  predicate Apart(p: Shape, a: nat, b: nat) {
    a + SlabSize(p) <= b || b + SlabSize(p) <= a
  }

  /** Free blocks are listed once and counted. */
  ghost predicate SlabOk(p: Shape, s: Slab) {
    && Distinct(s.freeList) && (forall o | o in s.freeList :: o < p.blocks)
    && s.usedCount + |s.freeList| == p.blocks
  }

  ghost predicate SlabsOk(p: Shape, slabs: seq<Slab>) {
    && (forall i | 0 <= i < |slabs| :: SlabOk(p, slabs[i]))
    && (forall i, j | 0 <= i < j < |slabs| :: Apart(p, slabs[i].memory, slabs[j].memory))
  }

  predicate IsBlock(p: Shape, slabs: seq<Slab>, b: Block) {
    b.slab < |slabs| && b.offset < p.blocks
  }

  /** Every block is either live or on the free list of its slab. */
  ghost predicate LiveOrFree(p: Shape, slabs: seq<Slab>, live: set<Block>) {
    && (forall b | b in live :: IsBlock(p, slabs, b))
    && (forall b | IsBlock(p, slabs, b) :: b in live <==> b.offset !in slabs[b.slab].freeList)
  }

  function Used(slabs: seq<Slab>): nat {
    if slabs == [] then 0 else Used(slabs[..|slabs| - 1]) + slabs[|slabs| - 1].usedCount
  }

  ghost predicate Consistent(p: Shape, slabs: seq<Slab>, live: set<Block>) {
    SlabsOk(p, slabs) && LiveOrFree(p, slabs, live) && Used(slabs) == |live|
  }

  lemma {:induction false} UsedUpdate(slabs: seq<Slab>, i: nat, s: Slab)
    requires i < |slabs|
    ensures Used(slabs[i := s]) + slabs[i].usedCount == Used(slabs) + s.usedCount
  {
    var n := |slabs| - 1;
    if i < n {
      UsedUpdate(slabs[..n], i, s);
      assert slabs[i := s][..n] == slabs[..n][i := s];
    } else {
      assert slabs[i := s][..n] == slabs[..n];
    }
  }

  /** Different blocks share no byte. */
  lemma BlocksApart(p: Shape, slabs: seq<Slab>, a: Block, b: Block)
    requires ValidShape(p) && SlabsOk(p, slabs) && IsBlock(p, slabs, a) && IsBlock(p, slabs, b) && a != b
    ensures var x, y := Address(p, slabs, a), Address(p, slabs, b);
            x + p.blockSize <= y || y + p.blockSize <= x
  {
    hide SlabSize, SlabOk, Distinct;
    BlockInside(p, a.offset);
    BlockInside(p, b.offset);
    if a.slab == b.slab {
      if a.offset < b.offset {
        Steps(p, a.offset, b.offset);
      } else {
        Steps(p, b.offset, a.offset);
      }
    } else if a.slab < b.slab {
      assert Apart(p, slabs[a.slab].memory, slabs[b.slab].memory);
    } else {
      assert Apart(p, slabs[b.slab].memory, slabs[a.slab].memory);
    }
  }

  lemma BlockInside(p: Shape, o: nat)
    requires ValidShape(p) && o < p.blocks
    ensures o * p.blockSize + p.blockSize <= SlabSize(p)
  {
    Steps(p, o, p.blocks);
  }

  lemma Steps(p: Shape, a: nat, b: nat)
    requires a < b
    ensures a * p.blockSize + p.blockSize <= b * p.blockSize
  {
    assert (a + 1) * p.blockSize <= b * p.blockSize by {
      Monotone(a + 1, b, p.blockSize);
    }
    assert (a + 1) * p.blockSize == a * p.blockSize + p.blockSize;
  }

  lemma Monotone(a: nat, b: nat, k: nat)
    requires a <= b
    ensures a * k <= b * k
  {
    assert (b - a) * k >= 0;
  }

  /** The block an address in a slab belongs to, as `deallocate` computes it. */
  function BlockOf(p: Shape, slabs: seq<Slab>, i: nat, address: nat): Block
    requires p.blockSize > 0 && i < |slabs| && Within(p, slabs[i], address)
  {
    Block(i, (address - slabs[i].memory) / p.blockSize)
  }

  lemma BlockOfHolds(p: Shape, slabs: seq<Slab>, i: nat, address: nat)
    requires ValidShape(p) && i < |slabs| && Within(p, slabs[i], address)
    ensures var b := BlockOf(p, slabs, i, address);
            b.offset < p.blocks && Address(p, slabs, b) <= address < Address(p, slabs, b) + p.blockSize
  {
    var d, o := address - slabs[i].memory, (address - slabs[i].memory) / p.blockSize;
    assert d == o * p.blockSize + d % p.blockSize;
    if o >= p.blocks {
      Monotone(p.blocks, o, p.blockSize);
      assert false;
    }
  }

  // ---- what the two operations do to a state ----

  function Pop(slabs: seq<Slab>, i: nat): seq<Slab>
    requires i < |slabs| && slabs[i].freeList != []
  {
    var s := slabs[i];
    slabs[i := s.(freeList := s.freeList[..|s.freeList| - 1], usedCount := s.usedCount + 1)]
  }

  function Push(slabs: seq<Slab>, i: nat, offset: nat): seq<Slab>
    requires i < |slabs| && slabs[i].usedCount > 0
  {
    var s := slabs[i];
    slabs[i := s.(freeList := s.freeList + [offset], usedCount := s.usedCount - 1)]
  }

  lemma PopSlab(p: Shape, s: Slab)
    requires SlabOk(p, s) && s.freeList != []
    ensures var n := |s.freeList| - 1;
            var t := s.(freeList := s.freeList[..n], usedCount := s.usedCount + 1);
            SlabOk(p, t) && s.freeList[n] < p.blocks
            && forall o :: o in s.freeList <==> o in t.freeList + [s.freeList[n]]
    ensures forall o :: o in s.freeList[..|s.freeList| - 1] <==> o in s.freeList && o != s.freeList[|s.freeList| - 1]
  {
    var n := |s.freeList| - 1;
    assert s.freeList == s.freeList[..n] + [s.freeList[n]];
    assert s.freeList[n] in s.freeList;
    forall o | o in s.freeList[..n]
      ensures o < p.blocks
    {
      assert o in s.freeList;
    }
  }

  lemma PopKeeps(p: Shape, slabs: seq<Slab>, live: set<Block>, i: nat)
    requires Consistent(p, slabs, live) && i < |slabs| && slabs[i].freeList != []
    ensures var b := Block(i, slabs[i].freeList[|slabs[i].freeList| - 1]);
            b !in live && IsBlock(p, slabs, b) && Consistent(p, Pop(slabs, i), live + {b})
  {
    hide SlabOk, Used, LiveOrFree;
    var s, t := slabs[i], Pop(slabs, i);
    var b := Block(i, s.freeList[|s.freeList| - 1]);
    PopSlab(p, s);
    UsedUpdate(slabs, i, t[i]);
    PopLive(p, slabs, live, b, t[i]);
  }

  /** Taking one block off its free list makes it, and no other, live. */
  lemma PopLive(p: Shape, slabs: seq<Slab>, live: set<Block>, b: Block, s: Slab)
    requires LiveOrFree(p, slabs, live) && b.slab < |slabs| && b.offset < p.blocks && b.offset in slabs[b.slab].freeList
    requires forall o :: o in s.freeList <==> o in slabs[b.slab].freeList && o != b.offset
    ensures b !in live && LiveOrFree(p, slabs[b.slab := s], live + {b})
  {
    assert IsBlock(p, slabs, b);
    var t := slabs[b.slab := s];
    forall c | IsBlock(p, t, c)
      ensures c in live + {b} <==> c.offset !in t[c.slab].freeList
    {
      assert IsBlock(p, slabs, c);
    }
    forall c | c in live + {b}
      ensures IsBlock(p, t, c)
    {
      assert IsBlock(p, slabs, c);
    }
  }

  lemma PushSlab(p: Shape, s: Slab, offset: nat)
    requires SlabOk(p, s) && offset < p.blocks && offset !in s.freeList
    ensures s.usedCount > 0
    ensures SlabOk(p, s.(freeList := s.freeList + [offset], usedCount := s.usedCount - 1))
  {
    DistinctBelow(s.freeList + [offset], p.blocks);
  }

  lemma PushKeeps(p: Shape, slabs: seq<Slab>, live: set<Block>, b: Block)
    requires Consistent(p, slabs, live) && b in live
    ensures slabs[b.slab].usedCount > 0 && Consistent(p, Push(slabs, b.slab, b.offset), live - {b})
  {
    hide SlabOk, Used;
    var s := slabs[b.slab];
    assert IsBlock(p, slabs, b);
    PushSlab(p, s, b.offset);
    var t := Push(slabs, b.slab, b.offset);
    UsedUpdate(slabs, b.slab, t[b.slab]);
    forall c | IsBlock(p, t, c)
      ensures c in live - {b} <==> c.offset !in t[c.slab].freeList
    {
      assert IsBlock(p, slabs, c);
    }
  }

  /** The block entered on its free list, the count not yet lowered. */
  function Listed(slabs: seq<Slab>, b: Block): seq<Slab>
    requires b.slab < |slabs|
  {
    var s := slabs[b.slab];
    slabs[b.slab := s.(freeList := s.freeList + [b.offset])]
  }

  lemma ListedTwice(p: Shape, slabs: seq<Slab>, live: set<Block>, b: Block, t: seq<Slab>)
    requires Consistent(p, slabs, live) && IsBlock(p, slabs, b) && b !in live
    requires |t| == |slabs| && t[b.slab].freeList == slabs[b.slab].freeList + [b.offset]
    ensures !SlabsOk(p, t)
  {
    var list := slabs[b.slab].freeList;
    var i: nat :| i < |list| && list[i] == b.offset;
    assert t[b.slab].freeList[i] == t[b.slab].freeList[|list|];
    assert !SlabOk(p, t[b.slab]);
  }

  /** Giving back a block keeps the free lists sound exactly when it is live. */
  lemma PushSoundIff(p: Shape, slabs: seq<Slab>, live: set<Block>, b: Block)
    requires Consistent(p, slabs, live) && IsBlock(p, slabs, b) && slabs[b.slab].usedCount > 0
    ensures SlabsOk(p, Push(slabs, b.slab, b.offset)) <==> b in live
  {
    if b in live {
      PushKeeps(p, slabs, live, b);
    } else {
      ListedTwice(p, slabs, live, b, Push(slabs, b.slab, b.offset));
    }
  }

  lemma ReturnValidIf(p: Shape, slabs: seq<Slab>, live: set<Block>, b: Block)
    requires IsBlock(p, slabs, b)
    ensures Consistent(p, slabs, live) ==>
              if slabs[b.slab].usedCount == 0 then b !in live && !Consistent(p, Listed(slabs, b), live - {b})
              else Consistent(p, Push(slabs, b.slab, b.offset), live - {b}) <==> b in live
  {
    if Consistent(p, slabs, live) {
      if b in live {
        PushKeeps(p, slabs, live, b);
      } else if slabs[b.slab].usedCount == 0 {
        ListedTwice(p, slabs, live, b, Listed(slabs, b));
      } else {
        PushSoundIff(p, slabs, live, b);
      }
    }
  }

  ghost function UpTo(n: nat): (all: set<nat>)
    ensures |all| == n && forall o: nat :: o in all <==> o < n
  {
    if n == 0 then {} else UpTo(n - 1) + {n - 1}
  }

  ghost function Elements(s: seq<nat>): (all: set<nat>)
    ensures forall o :: o in all <==> o in s
  {
    if s == [] then {} else Elements(s[..|s| - 1]) + {s[|s| - 1]}
  }

  lemma {:induction false} Counted(s: seq<nat>)
    requires Distinct(s)
    ensures |Elements(s)| == |s|
  {
    if s != [] {
      Counted(s[..|s| - 1]);
      assert s[|s| - 1] !in s[..|s| - 1];
    }
  }

  /** Distinct numbers below `n` are at most `n` many. */
  lemma DistinctBelow(s: seq<nat>, n: nat)
    requires Distinct(s) && forall o | o in s :: o < n
    ensures |s| <= n
  {
    Counted(s);
    Subset(Elements(s), UpTo(n));
  }

  lemma {:induction false} Subset<T>(a: set<T>, b: set<T>)
    requires a <= b
    ensures |a| <= |b|
  {
    if a != {} {
      var x :| x in a;
      Subset(a - {x}, b - {x});
    }
  }

  /** All blocks but the first, the lowest on top. */
  function InitialFree(n: nat): seq<nat> {
    if n <= 1 then [] else [n - 1] + InitialFree(n - 1)
  }

  lemma {:induction false} FreeFromTheTop(n: nat)
    requires n > 0
    ensures |InitialFree(n)| == n - 1 && forall k | 0 <= k < n - 1 :: InitialFree(n)[k] == n - 1 - k
  {
    if n > 1 {
      FreeFromTheTop(n - 1);
    }
  }

  lemma {:induction false} InitialFreeHolds(n: nat)
    requires n > 0
    ensures |InitialFree(n)| == n - 1 && Distinct(InitialFree(n))
    ensures forall o :: o in InitialFree(n) <==> 0 < o < n
  {
    if n > 1 {
      InitialFreeHolds(n - 1);
      var rest := InitialFree(n - 1);
      forall i, j | 0 <= i < j < n - 1
        ensures InitialFree(n)[i] != InitialFree(n)[j]
      {
        assert rest[j - 1] in rest && rest[j - 1] < n - 1;
        if i > 0 {
          assert rest[i - 1] != rest[j - 1];
        }
      }
    }
  }

  ghost predicate Fits(p: Shape, slabs: seq<Slab>, memory: nat) {
    forall i | 0 <= i < |slabs| :: Apart(p, slabs[i].memory, memory)
  }

  lemma NewSlabKeeps(p: Shape, slabs: seq<Slab>, live: set<Block>, memory: nat)
    requires ValidShape(p) && Consistent(p, slabs, live) && Fits(p, slabs, memory)
    ensures var b := Block(|slabs|, 0);
            b !in live && Consistent(p, slabs + [Slab(memory, InitialFree(p.blocks), 1)], live + {b})
  {
    InitialFreeHolds(p.blocks);
    var t := slabs + [Slab(memory, InitialFree(p.blocks), 1)];
    assert t[..|slabs|] == slabs;
    var b := Block(|slabs|, 0);
    assert b !in live by {
      assert !IsBlock(p, slabs, b);
    }
    forall c | c in live + {b}
      ensures IsBlock(p, t, c)
    {
      assert c != b ==> IsBlock(p, slabs, c);
    }
    forall c | IsBlock(p, t, c)
      ensures c in live + {b} <==> c.offset !in t[c.slab].freeList
    {
      assert c.slab < |slabs| <==> IsBlock(p, slabs, c);
    }
  }

  /** With every free list empty, all blocks are live. */
  ghost predicate AllLive(p: Shape, slabs: seq<Slab>, live: set<Block>) {
    forall b | IsBlock(p, slabs, b) :: b in live
  }

  /** `NoSlab` is the panic on an address in no slab, `Underflow` the one on
      lowering a count of zero. */
  datatype Freed = Done | NoSlab | Underflow

  datatype Stats = Stats(totalSlabs: nat, totalBlocks: nat, usedBlocks: nat, freeBlocks: nat, blockSize: nat)

  lemma {:induction false} UsedAtMost(p: Shape, slabs: seq<Slab>)
    requires forall i | 0 <= i < |slabs| :: SlabOk(p, slabs[i])
    ensures Used(slabs) <= |slabs| * p.blocks
  {
    if slabs != [] {
      var n := |slabs| - 1;
      UsedAtMost(p, slabs[..n]);
      assert SlabOk(p, slabs[n]);
      assert |slabs| * p.blocks == n * p.blocks + p.blocks;
    }
  }

  class SlabAllocator {
    var slabs: seq<Slab>
    const p: Shape
    ghost var live: set<Block>

    ghost predicate Valid()
      reads this
    {
      ValidShape(p) && Consistent(p, slabs, live)
    }

    constructor (blockSize: nat, blocksPerSlab: nat)
      requires blockSize > 0 && blocksPerSlab > 0
      ensures Valid() && live == {} && p == Shape(blockSize, blocksPerSlab)
    {
      slabs := [];
      p := Shape(blockSize, blocksPerSlab);
      live := {};
    }

    /** `allocate`: a free block of the first slab that has one; if none has, the
        first block of a new slab, which the system places at `memory`. */
    method Allocate(memory: nat) returns (address: nat, ghost b: Block)
      requires Valid() && Fits(p, slabs, memory)
      modifies this
      ensures Valid() && b !in old(live) && live == old(live) + {b}
      ensures IsBlock(p, slabs, b) && address == Address(p, slabs, b)
      ensures |slabs| == |old(slabs)| || (|slabs| == |old(slabs)| + 1 && slabs[|old(slabs)|].memory == memory)
      ensures |slabs| > |old(slabs)| <==> AllLive(p, old(slabs), old(live))
      ensures forall i | 0 <= i < |old(slabs)| :: slabs[i].memory == old(slabs)[i].memory
      ensures |slabs| == |old(slabs)| ==>
                var s, n := old(slabs)[b.slab], |old(slabs)[b.slab].freeList| - 1;
                && n >= 0 && b.offset == s.freeList[n] && (forall k | 0 <= k < b.slab :: old(slabs)[k].freeList == [])
                && slabs == old(slabs)[b.slab := Slab(s.memory, s.freeList[..n], s.usedCount + 1)]
      ensures |slabs| > |old(slabs)| ==>
                && b == Block(|old(slabs)|, 0) && slabs[..|old(slabs)|] == old(slabs) && slabs[b.slab].usedCount == 1
                && |slabs[b.slab].freeList| == p.blocks - 1
                && forall k | 0 <= k < p.blocks - 1 :: slabs[b.slab].freeList[k] == p.blocks - 1 - k
    {
      hide Consistent, Fits;
      var i := 0;
      while i < |slabs|
        invariant 0 <= i <= |slabs| && slabs == old(slabs) && live == old(live)
        invariant forall k | 0 <= k < i :: slabs[k].freeList == []
      {
        if slabs[i].freeList != [] {
          var s := slabs[i];
          PopKeeps(p, slabs, live, i);
          var offset := s.freeList[|s.freeList| - 1];
          b := Block(i, offset);
          slabs := slabs[i := s.(freeList := s.freeList[..|s.freeList| - 1], usedCount := s.usedCount + 1)];
          live := live + {b};
          return s.memory + offset * p.blockSize, b;
        }
        i := i + 1;
      }
      NewSlabKeeps(p, slabs, live, memory);
      NoneFree(p, slabs, live);
      var freeList := NewFreeList(p.blocks);
      FreeFromTheTop(p.blocks);
      b := Block(|slabs|, 0);
      slabs := slabs + [Slab(memory, freeList, 1)];
      live := live + {b};
      return memory, b;
    }

    method NewFreeList(blocksCount: nat) returns (freeList: seq<nat>)
      requires blocksCount > 0
      ensures freeList == InitialFree(blocksCount)
    {
      freeList := [];
      var i := blocksCount;
      while i > 1
        invariant 1 <= i <= blocksCount
        invariant freeList + InitialFree(i) == InitialFree(blocksCount)
      {
        i := i - 1;
        assert freeList + ([i] + InitialFree(i)) == freeList + [i] + InitialFree(i);
        freeList := freeList + [i];
      }
    }

    /** `deallocate`, given any address at all; the state stays valid exactly when
        the address is in a live block or in no slab. */
    method Deallocate(address: nat) returns (r: Freed, ghost b: Block)
      requires ValidShape(p)
      modifies this
      ensures r.NoSlab? <==> forall i | 0 <= i < |old(slabs)| :: !Within(p, old(slabs)[i], address)
      ensures r.NoSlab? ==> slabs == old(slabs) && live == old(live)
      ensures !r.NoSlab? ==>
                && IsBlock(p, old(slabs), b) && live == old(live) - {b}
                && Address(p, old(slabs), b) <= address < Address(p, old(slabs), b) + p.blockSize
                && (r.Underflow? <==> old(slabs)[b.slab].usedCount == 0)
                && slabs == if r.Underflow? then Listed(old(slabs), b) else Push(old(slabs), b.slab, b.offset)
      ensures r.Done? ==>
                var s := old(slabs)[b.slab];
                slabs == old(slabs)[b.slab := Slab(s.memory, s.freeList + [b.offset], s.usedCount - 1)]
      ensures old(Valid()) ==> (Valid() <==> r.NoSlab? || b in old(live))
    {
      hide Consistent;
      b := Block(0, 0);
      var i := 0;
      while i < |slabs|
        invariant 0 <= i <= |slabs| && slabs == old(slabs) && live == old(live)
        invariant forall k | 0 <= k < i :: !Within(p, slabs[k], address)
      {
        if Within(p, slabs[i], address) {
          BlockOfHolds(p, slabs, i, address);
          b := BlockOf(p, slabs, i, address);
          ReturnValidIf(p, slabs, live, b);
          var s := slabs[i];
          var offset := (address - s.memory) / p.blockSize;
          live := live - {b};
          slabs := slabs[i := s.(freeList := s.freeList + [offset])];
          if s.usedCount == 0 {
            return Underflow, b;
          }
          slabs := slabs[i := slabs[i].(usedCount := s.usedCount - 1)];
          assert slabs == Push(old(slabs), b.slab, b.offset);
          return Done, b;
        }
        i := i + 1;
      }
      return NoSlab, b;
    }

    /** `stats` */
    method GetStats() returns (r: Stats)
      requires Valid()
      ensures r.totalSlabs == |slabs| && r.totalBlocks == |slabs| * p.blocks && r.blockSize == p.blockSize
      ensures r.usedBlocks == |live| && r.freeBlocks == |slabs| * p.blocks - |live|
    {
      var used := 0;
      var i := 0;
      while i < |slabs|
        invariant 0 <= i <= |slabs| && used == Used(slabs[..i])
      {
        assert slabs[..i + 1][..i] == slabs[..i];
        used := used + slabs[i].usedCount;
        i := i + 1;
      }
      assert slabs[..i] == slabs;
      UsedAtMost(p, slabs);
      SlabBlocks(p);
      var total := |slabs| * (SlabSize(p) / p.blockSize);
      return Stats(|slabs|, total, used, total - used, p.blockSize);
    }
  }

  lemma SlabBlocks(p: Shape)
    requires ValidShape(p)
    ensures SlabSize(p) / p.blockSize == p.blocks
  {
    var k := SlabSize(p) / p.blockSize;
    assert k * p.blockSize <= p.blocks * p.blockSize < k * p.blockSize + p.blockSize;
    assert k < p.blocks ==> k * p.blockSize + p.blockSize <= p.blocks * p.blockSize by {
      if k < p.blocks {
        Steps(p, k, p.blocks);
      }
    }
    assert k > p.blocks ==> p.blocks * p.blockSize + p.blockSize <= k * p.blockSize by {
      if k > p.blocks {
        Steps(p, p.blocks, k);
      }
    }
  }

  lemma NoneFree(p: Shape, slabs: seq<Slab>, live: set<Block>)
    requires Consistent(p, slabs, live) && forall i | 0 <= i < |slabs| :: slabs[i].freeList == []
    ensures AllLive(p, slabs, live)
  {}
}
