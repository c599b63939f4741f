/**
 * The arena allocator (optimization/memory_pool.rs). A place in memory is a
 * chunk and an offset into it; a chunk holds exactly the capacity asked for.
 */
module Arena {
  import opened Common

  // ---- machine words ----

  const WIDTH: nat := 64

  function Pow2(k: nat): (r: nat)
    ensures r > 0
  {
    if k == 0 then 1 else 2 * Pow2(k - 1)
  }

  /** Bitwise and. */
  function And(a: nat, b: nat): nat
    decreases a
  {
    if a == 0 then 0 else 2 * And(a / 2, b / 2) + if a % 2 == 1 && b % 2 == 1 then 1 else 0
  }

  /** Bitwise complement of a word of `w` bits. */
  function Not(w: nat, a: nat): nat
    requires a < Pow2(w)
  {
    Pow2(w) - 1 - a
  }

  /** The offset `allocate` rounds up to. */
  function AlignUp(used: nat, align: nat): nat
    requires align > 0 && used + align - 1 < Pow2(WIDTH)
  {
    And(used + align - 1, Not(WIDTH, align - 1))
  }

  lemma {:induction false} AndNotPlusAnd(w: nat, x: nat, m: nat)
    requires x < Pow2(w) && m < Pow2(w)
    ensures And(x, Not(w, m)) + And(x, m) == x && And(x, m) <= m
    decreases w
  {
    if x > 0 {
      HalfNot(w, m);
      AndNotPlusAnd(w - 1, x / 2, m / 2);
    } else {
      assert And(x, m) == 0;
    }
  }

  lemma HalfNot(w: nat, m: nat)
    requires w > 0 && m < Pow2(w)
    ensures m / 2 < Pow2(w - 1) && Not(w, m) / 2 == Not(w - 1, m / 2) && Not(w, m) % 2 == 1 - m % 2
  {}

  lemma {:induction false} Pow2Sum(a: nat, b: nat)
    ensures Pow2(a + b) == Pow2(a) * Pow2(b)
  {
    if a > 0 {
      Pow2Sum(a - 1, b);
      Twice(Pow2(a - 1), Pow2(b));
    }
  }

  lemma Twice(x: nat, y: nat)
    ensures 2 * (x * y) == (2 * x) * y
  {}

  /** A machine word has 64 bits. */
  lemma WordSize()
    ensures Pow2(WIDTH) == 0x1_0000_0000_0000_0000
  {
    assert Pow2(4) == 16;
    Pow2Sum(4, 4);
    Pow2Sum(8, 8);
    Pow2Sum(16, 16);
    Pow2Sum(32, 32);
  }

  /** Whatever the alignment, rounding never goes back into what is used. */
  lemma AlignUpAtLeast(used: nat, align: nat)
    requires align > 0 && used + align - 1 < Pow2(WIDTH)
    ensures used <= AlignUp(used, align) <= used + align - 1
  {
    AndNotPlusAnd(WIDTH, used + align - 1, align - 1);
  }

  ghost predicate PowerOfTwo(a: nat) {
    exists k: nat :: a == Pow2(k)
  }

  /** Masking off the low `k` bits. */
  lemma {:induction false} AndNotLow(w: nat, x: nat, k: nat)
    requires k <= w && x < Pow2(w) && Pow2(k) - 1 < Pow2(w)
    ensures And(x, Not(w, Pow2(k) - 1)) % Pow2(k) == 0
    decreases w
  {
    if x > 0 && k > 0 {
      HalfNot(w, Pow2(k) - 1);
      assert (Pow2(k) - 1) / 2 == Pow2(k - 1) - 1;
      AndNotLow(w - 1, x / 2, k - 1);
      var half := And(x / 2, Not(w - 1, Pow2(k - 1) - 1));
      assert And(x, Not(w, Pow2(k) - 1)) == 2 * half;
      DoubleDivides(half, Pow2(k - 1));
    } else {
      assert Pow2(0) == 1;
      ZeroMod(Pow2(k));
    }
  }

  lemma ZeroMod(d: nat)
    requires d > 0
    ensures 0 % d == 0
  {}

  lemma DoubleDivides(n: nat, d: nat)
    requires d > 0 && n % d == 0
    ensures (2 * n) % (2 * d) == 0
  {
    var q := n / d;
    assert n == q * d;
    assert 2 * n == q * (2 * d);
    MultipleMod(q, 2 * d);
  }

  lemma {:induction false} MultipleMod(q: nat, d: nat)
    requires d > 0
    ensures (q * d) % d == 0
  {
    if q > 0 {
      MultipleMod(q - 1, d);
      var n := (q - 1) * d;
      assert q * d == n + d;
      assert n == (n / d) * d;
      assert n + d == (n / d + 1) * d;
      ModUnique(n + d, d, n / d + 1);
    }
  }

  lemma ModUnique(n: nat, d: nat, q: nat)
    requires d > 0 && n == q * d
    ensures n % d == 0
  {
    var k, r := n / d, n % d;
    assert n == k * d + r && 0 <= r < d;
    assert q >= k + 1 ==> q * d >= (k + 1) * d;
    assert q <= k - 1 ==> q * d <= (k - 1) * d;
  }

  /** The lowest bit set. */
  function LowBit(a: nat): (r: nat)
    requires a > 0
    ensures 0 < r <= a
  {
    if a % 2 == 1 then 1 else 2 * LowBit(a / 2)
  }

  lemma {:induction false} LowBitPower(a: nat)
    requires a > 0
    ensures PowerOfTwo(LowBit(a))
  {
    if a % 2 == 1 {
      assert LowBit(a) == Pow2(0);
    } else {
      LowBitPower(a / 2);
      var k: nat :| LowBit(a / 2) == Pow2(k);
      assert LowBit(a) == Pow2(k + 1);
    }
  }

  lemma {:induction false} AndNotSelf(w: nat, a: nat)
    requires a < Pow2(w)
    ensures And(a, Not(w, a)) == 0
    decreases w
  {
    if a > 0 {
      HalfNot(w, a);
      AndNotSelf(w - 1, a / 2);
    }
  }

  lemma {:induction false} AndNegation(w: nat, a: nat)
    requires 0 < a < Pow2(w)
    ensures And(a, Not(w, a - 1)) == LowBit(a)
    decreases w
  {
    HalfNot(w, a - 1);
    if a % 2 == 1 {
      assert (a - 1) / 2 == a / 2;
      AndNotSelf(w - 1, a / 2);
    } else {
      assert (a - 1) / 2 == a / 2 - 1;
      AndNegation(w - 1, a / 2);
    }
  }

  lemma {:induction false} Pow2Monotone(k: nat, w: nat)
    requires k <= w
    ensures Pow2(k) <= Pow2(w)
  {
    if k < w {
      Pow2Monotone(k, w - 1);
    }
  }

  lemma Pow2Below(k: nat)
    requires Pow2(k) < Pow2(WIDTH)
    ensures k < WIDTH
  {
    if k >= WIDTH {
      Pow2Monotone(WIDTH, k);
    }
  }

  ghost predicate AlwaysAligns(align: nat)
    requires 0 < align < Pow2(WIDTH)
  {
    forall used: nat | used + align - 1 < Pow2(WIDTH) :: AlignUp(used, align) % align == 0
  }

  lemma PowersAlign(used: nat, k: nat)
    requires used + Pow2(k) - 1 < Pow2(WIDTH)
    ensures AlignUp(used, Pow2(k)) % Pow2(k) == 0
  {
    hide Pow2, And;
    var m := Pow2(k) - 1;
    if Pow2(k) < Pow2(WIDTH) {
      Pow2Below(k);
    } else {
      Pow2AtMost(k);
    }
    AndNotLow(WIDTH, used + m, k);
  }

  lemma Pow2AtMost(k: nat)
    requires Pow2(k) <= Pow2(WIDTH)
    ensures k <= WIDTH
  {
    if k > WIDTH {
      Pow2Monotone(WIDTH + 1, k);
    }
  }

  lemma SmallMod(n: nat, d: nat)
    requires 0 < n <= d && n % d == 0
    ensures n == d
  {
    assert n / d >= 1;
  }

  /** Rounding yields multiples of the alignment exactly for powers of two. */
  lemma AlignsIffPowerOfTwo(align: nat)
    requires 0 < align < Pow2(WIDTH)
    ensures AlwaysAligns(align) <==> PowerOfTwo(align)
  {
    hide Pow2, And, LowBit;
    if PowerOfTwo(align) {
      var k: nat :| align == Pow2(k);
      forall used: nat | used + align - 1 < Pow2(WIDTH)
        ensures AlignUp(used, align) % align == 0
      {
        PowersAlign(used, k);
      }
    }
    if AlwaysAligns(align) {
      assert AlignUp(1, align) % align == 0;
      AndNegation(WIDTH, align);
      LowBitPower(align);
      SmallMod(LowBit(align), align);
    }
  }

  // ---- the arena ----

  datatype Chunk = Chunk(capacity: nat, used: nat)

  /** A region handed out: `size` bytes at `start` in a chunk. */
  datatype Region = Region(chunk: nat, start: nat, size: nat)

  ghost predicate Overlap(a: Region, b: Region) {
    a.chunk == b.chunk && a.start < b.start + b.size && b.start < a.start + a.size
  }

  ghost predicate Inside(chunks: seq<Chunk>, r: Region) {
    r.chunk < |chunks| && r.start + r.size <= chunks[r.chunk].used
  }

  /** Regions lie in the used part of their chunk and share no byte. */
  ghost predicate Sound(chunks: seq<Chunk>, regions: seq<Region>) {
    && (forall i | 0 <= i < |chunks| :: chunks[i].used <= chunks[i].capacity)
    && (forall i | 0 <= i < |regions| :: Inside(chunks, regions[i]))
    && (forall i, j | 0 <= i < j < |regions| :: !Overlap(regions[i], regions[j]))
  }

  /** A region beyond the used part of the last chunk can be added. */
  lemma ExtendSound(chunks: seq<Chunk>, regions: seq<Region>, offset: nat, size: nat)
    requires Sound(chunks, regions) && chunks != []
    requires chunks[|chunks| - 1].used <= offset && offset + size <= chunks[|chunks| - 1].capacity
    ensures var n := |chunks| - 1;
            Sound(chunks[n := chunks[n].(used := offset + size)], regions + [Region(n, offset, size)])
  {
    var n := |chunks| - 1;
    var after := chunks[n := chunks[n].(used := offset + size)];
    forall i | 0 <= i < |regions|
      ensures Inside(after, regions[i]) && !Overlap(regions[i], Region(n, offset, size))
    {
      assert Inside(chunks, regions[i]);
    }
  }

  lemma OpenSound(chunks: seq<Chunk>, regions: seq<Region>, capacity: nat, size: nat)
    requires Sound(chunks, regions) && size <= capacity
    ensures Sound(chunks + [Chunk(capacity, size)], regions + [Region(|chunks|, 0, size)])
  {
    var after := chunks + [Chunk(capacity, size)];
    forall i | 0 <= i < |regions|
      ensures Inside(after, regions[i]) && !Overlap(regions[i], Region(|chunks|, 0, size))
    {
      assert Inside(chunks, regions[i]);
    }
  }

  /** Where a region of the given size goes, and the chunks afterwards: the
      last chunk if it has room, a new one otherwise. */
  function Place(chunks: seq<Chunk>, chunkSize: nat, size: nat, align: nat): (Region, seq<Chunk>)
    requires chunks != [] && CanRound(chunks[|chunks| - 1].used, align)
  {
    var n := |chunks| - 1;
    var offset := AlignUp(chunks[n].used, align);
    if offset + size <= chunks[n].capacity then
      (Region(n, offset, size), chunks[n := chunks[n].(used := offset + size)])
    else
      (Region(n + 1, 0, size), chunks + [Chunk(Max(size, chunkSize), size)])
  }

  /** The word arithmetic of rounding does not overflow. */
  predicate CanRound(used: nat, align: nat) {
    align > 0 && used + align - 1 < Pow2(WIDTH)
  }

  /** No sum `allocate` forms for these chunks leaves a word. */
  ghost predicate NoOverflow(chunks: seq<Chunk>, size: nat, align: nat)
    requires chunks != []
  {
    var used := chunks[|chunks| - 1].used;
    align > 0 && used + align < Pow2(WIDTH) && AlignUp(used, align) + size < Pow2(WIDTH)
  }

  // ---- rounding without overflow checks ----

  /** The offset when sums and differences wrap around. */
  function WrappingAlignUp(used: nat, align: nat): nat
    requires used < Pow2(WIDTH) && align < Pow2(WIDTH)
  {
    And((used + align + Pow2(WIDTH) - 1) % Pow2(WIDTH), Not(WIDTH, (align + Pow2(WIDTH) - 1) % Pow2(WIDTH)))
  }

  lemma WrapOnce(n: nat, d: nat)
    requires d <= n < 2 * d
    ensures n % d == n - d
  {}

  lemma WrapTwice(n: nat, d: nat)
    requires 2 * d <= n < 3 * d
    ensures n % d == n - 2 * d
  {}

  lemma {:induction false} AndAtMost(a: nat, b: nat)
    ensures And(a, b) <= a
    decreases a
  {
    if a > 0 {
      AndAtMost(a / 2, b / 2);
    }
  }

  /** Without overflow checks the rounded offset stays out of what is used if and
      only if nothing is used or nothing wraps around; then it is that of the
      checked computation. An alignment of zero always gives offset zero. */
  lemma WrappingRoundsUpIff(used: nat, align: nat)
    requires used < Pow2(WIDTH) && align < Pow2(WIDTH)
    ensures WrappingAlignUp(used, align) >= used <==> used == 0 || CanRound(used, align)
    ensures CanRound(used, align) ==> WrappingAlignUp(used, align) == AlignUp(used, align)
    ensures align == 0 ==> WrappingAlignUp(used, align) == 0
  {
    hide And, Pow2;
    var max := Pow2(WIDTH);
    if align == 0 {
      SmallModulus(max - 1, max);
      AndZero((used + max - 1) % max);
    } else {
      WrapOnce(align + max - 1, max);
      if used + align - 1 < max {
        WrapOnce(used + align + max - 1, max);
        AlignUpAtLeast(used, align);
      } else {
        WrapTwice(used + align + max - 1, max);
        AndAtMost(used + align - 1 - max, Not(WIDTH, align - 1));
      }
    }
  }

  lemma SmallModulus(n: nat, d: nat)
    requires n < d
    ensures n % d == n
  {}

  lemma {:induction false} AndZero(a: nat)
    ensures And(a, 0) == 0
    decreases a
  {
    if a > 0 {
      AndZero(a / 2);
    }
  }

  /** The region placed shares no byte with those handed out before, and starts
      at a multiple of a power-of-two alignment. */
  lemma PlaceSound(chunks: seq<Chunk>, regions: seq<Region>, chunkSize: nat, size: nat, align: nat)
    requires chunks != [] && CanRound(chunks[|chunks| - 1].used, align) && Sound(chunks, regions)
    ensures var (r, after) := Place(chunks, chunkSize, size, align);
            && r.size == size && Sound(after, regions + [r])
            && (forall i | 0 <= i < |regions| :: !Overlap(regions[i], r))
            && (PowerOfTwo(align) ==> r.start % align == 0)
  {
    hide Sound, AlignUp, Pow2;
    var n := |chunks| - 1;
    var (r, after) := Place(chunks, chunkSize, size, align);
    AlignUpAtLeast(chunks[n].used, align);
    if r.chunk == n {
      ExtendSound(chunks, regions, r.start, size);
      if PowerOfTwo(align) {
        var k: nat :| align == Pow2(k);
        PowersAlign(chunks[n].used, k);
      }
    } else {
      ZeroMod(align);
      OpenSound(chunks, regions, Max(size, chunkSize), size);
    }
    LastApart(after, regions, r);
  }

  /** Where the region goes, for a power-of-two alignment: to the first aligned place
      behind what is used in the last chunk, if it fits there, else to the start of a new
      chunk of at least the usual size. */
  lemma PlaceExact(chunks: seq<Chunk>, chunkSize: nat, size: nat, align: nat)
    requires chunks != [] && CanRound(chunks[|chunks| - 1].used, align) && PowerOfTwo(align)
    ensures var (r, after) := Place(chunks, chunkSize, size, align);
            var last, n := chunks[|chunks| - 1], |chunks| - 1;
            && (r.chunk == n ==>
                  && last.used <= r.start < last.used + align && r.start % align == 0 && r.start + size <= last.capacity
                  && after == chunks[n := Chunk(last.capacity, r.start + size)])
            && (r.chunk != n ==>
                  && r == Region(n + 1, 0, size) && after == chunks + [Chunk(Max(size, chunkSize), size)]
                  && forall o: nat | o >= last.used && o % align == 0 :: o + size > last.capacity)
  {
    hide Pow2, And;
    var last := chunks[|chunks| - 1];
    var offset := AlignUp(last.used, align);
    AlignUpAtLeast(last.used, align);
    var k: nat :| align == Pow2(k);
    PowersAlign(last.used, k);
    forall o: nat | o >= last.used && o % align == 0
      ensures o >= offset
    {
      FirstMultiple(last.used, align, offset, o);
    }
  }

  lemma FirstMultiple(used: nat, align: nat, offset: nat, o: nat)
    requires align > 0 && offset % align == 0 && offset <= used + align - 1 && o >= used && o % align == 0
    ensures o >= offset
  {
    var a, b := offset / align, o / align;
    assert offset == a * align && o == b * align;
    if b < a {
      MulOneLess(b, a, align);
    }
  }

  lemma MulOneLess(b: nat, a: nat, d: nat)
    requires b < a
    ensures b * d + d <= a * d
  {
    MulMonotone(b + 1, a, d);
    assert (b + 1) * d == b * d + d;
  }

  lemma MulMonotone(a: nat, b: nat, k: nat)
    requires a <= b
    ensures a * k <= b * k
  {}

  class Arena {
    var chunks: seq<Chunk>
    var currentChunk: Option<Chunk>
    const chunkSize: nat
    /** The regions handed out since the last clear. */
    ghost var regions: seq<Region>

    ghost function All(): seq<Chunk>
      reads this
    {
      if currentChunk.Some? then chunks + [currentChunk.value] else chunks
    }

    ghost predicate Valid()
      reads this
    {
      currentChunk.Some? && Sound(All(), regions)
    }

    constructor (chunkSize: nat)
      ensures Valid() && regions == [] && this.chunkSize == chunkSize
    {
      chunks := [];
      currentChunk := Some(Chunk(chunkSize, 0));
      this.chunkSize := chunkSize;
      regions := [];
    }

    /** `allocate`, with overflow checked; `None` stands for the panic. */
    method Allocate(size: nat, align: nat) returns (r: Option<Region>)
      requires Valid()
      modifies this
      ensures Valid() && (r.Some? <==> NoOverflow(old(All()), size, align))
      ensures r.Some? ==> align > 0 && old(All())[|old(All())| - 1].used + align < 0x1_0000_0000_0000_0000
      ensures r.None? ==> All() == old(All()) && regions == old(regions)
      ensures r.Some? ==> (r.value, All()) == Place(old(All()), chunkSize, size, align) && regions == old(regions) + [r.value]
      ensures r.Some? && PowerOfTwo(align) ==>
                var was, n := old(All()), |old(All())| - 1;
                if exists o: nat :: o >= was[n].used && o % align == 0 && o + size <= was[n].capacity then
                  && r.value.chunk == n && was[n].used <= r.value.start < was[n].used + align && r.value.start % align == 0
                  && r.value.size == size && All() == was[n := Chunk(was[n].capacity, r.value.start + size)]
                else
                  r.value == Region(n + 1, 0, size) && All() == was + [Chunk(Max(size, chunkSize), size)]
    {
      hide Sound, AlignUp, Pow2;
      WordSize();
      ghost var was := All();
      var chunk := currentChunk.value;
      if align == 0 || chunk.used + align >= Pow2(WIDTH) {
        return None;
      }
      var offset := AlignUp(chunk.used, align);
      if offset + size >= Pow2(WIDTH) {
        return None;
      }
      PlaceSound(All(), regions, chunkSize, size, align);
      if PowerOfTwo(align) {
        PlaceExact(All(), chunkSize, size, align);
      }
      if offset + size <= chunk.capacity {
        r := Some(Region(|chunks|, offset, size));
        currentChunk := Some(chunk.(used := offset + size));
        assert All() == was[|chunks| := chunk.(used := offset + size)];
      } else {
        r := Some(Region(|chunks| + 1, 0, size));
        chunks := chunks + [chunk];
        currentChunk := Some(Chunk(Max(size, chunkSize), size));
        assert All() == was + [Chunk(Max(size, chunkSize), size)];
      }
      regions := regions + [r.value];
    }

    /** `clear` */
    method Clear()
      modifies this
      ensures Valid() && regions == [] && All() == [Chunk(chunkSize, 0)]
    {
      chunks := [];
      currentChunk := Some(Chunk(chunkSize, 0));
      regions := [];
    }

    /** `stats`, without the quotient. */
    method GetStats() returns (chunksCount: nat, totalAllocated: nat, totalUsed: nat)
      requires Valid()
      ensures chunksCount == |All()| && totalUsed == UsedIn(All()) <= totalAllocated == CapacityOf(All())
    {
      totalAllocated, totalUsed := 0, 0;
      var i := 0;
      while i < |chunks|
        invariant 0 <= i <= |chunks|
        invariant totalAllocated == CapacityOf(chunks[..i]) && totalUsed == UsedIn(chunks[..i])
      {
        assert chunks[..i + 1][..i] == chunks[..i];
        totalAllocated, totalUsed := totalAllocated + chunks[i].capacity, totalUsed + chunks[i].used;
        i := i + 1;
      }
      assert chunks[..i] == chunks && All()[..|chunks|] == chunks;
      chunksCount := |chunks| + 1;
      totalAllocated := totalAllocated + currentChunk.value.capacity;
      totalUsed := totalUsed + currentChunk.value.used;
      UsedWithin(All());
    }
  }

  function UsedIn(chunks: seq<Chunk>): nat {
    if chunks == [] then 0 else UsedIn(chunks[..|chunks| - 1]) + chunks[|chunks| - 1].used
  }

  function CapacityOf(chunks: seq<Chunk>): nat {
    if chunks == [] then 0 else CapacityOf(chunks[..|chunks| - 1]) + chunks[|chunks| - 1].capacity
  }

  lemma {:induction false} UsedWithin(chunks: seq<Chunk>)
    requires forall i | 0 <= i < |chunks| :: chunks[i].used <= chunks[i].capacity
    ensures UsedIn(chunks) <= CapacityOf(chunks)
  {
    if chunks != [] {
      UsedWithin(chunks[..|chunks| - 1]);
    }
  }

  lemma LastApart(chunks: seq<Chunk>, regions: seq<Region>, r: Region)
    requires Sound(chunks, regions + [r])
    ensures forall i | 0 <= i < |regions| :: !Overlap(regions[i], r)
  {
    forall i | 0 <= i < |regions|
      ensures !Overlap(regions[i], r)
    {
      assert (regions + [r])[i] == regions[i] && (regions + [r])[|regions|] == r;
    }
  }
}
