/** The ring buffer (optimization/zero_copy.rs). */
module RingBuffer {
  import opened Common

  /** What a ring holds: from the read position round to the write position. */
  function Held(ring: seq<byte>, readPos: nat, writePos: nat, isFull: bool): seq<byte>
    requires readPos <= |ring| && writePos <= |ring|
  {
    if !isFull && readPos <= writePos then ring[readPos..writePos] else ring[readPos..] + ring[..writePos]
  }

  /** The ring with `data` copied in from `at`, round the end if need be. */
  function Overlay(ring: seq<byte>, at: nat, data: seq<byte>): seq<byte>
    requires at < |ring| && |data| <= |ring|
  {
    if at + |data| <= |ring| then ring[..at] + data + ring[at + |data|..]
    else
      var first := |ring| - at;
      data[first..] + ring[|data| - first..at] + data[..first]
  }

  lemma OverlayAt(ring: seq<byte>, at: nat, data: seq<byte>)
    requires at < |ring| && |data| <= |ring|
    ensures var o := Overlay(ring, at, data);
            && |o| == |ring|
            && forall k | 0 <= k < |ring| :: o[k] ==
                 if at <= k < at + |data| then data[k - at]
                 else if k + |ring| < at + |data| then data[k + |ring| - at]
                 else ring[k]
  {}

  predicate Positions(capacity: nat, readPos: nat, writePos: nat, isFull: bool) {
    && (readPos < capacity || (capacity == 0 && readPos == 0))
    && (writePos < capacity || (capacity == 0 && writePos == 0))
    && (isFull ==> readPos == writePos && capacity > 0)
  }

  /** Where the write position goes, wrapping at the end. */
  function Advance(capacity: nat, pos: nat, n: nat): nat
    requires capacity > 0
  {
    (pos + n) % capacity
  }

  lemma AdvanceIs(capacity: nat, pos: nat, n: nat)
    requires pos < capacity && n <= capacity
    ensures Advance(capacity, pos, n) == if pos + n < capacity then pos + n else pos + n - capacity
  {}

  lemma OverlayStraight(ring: seq<byte>, at: nat, data: seq<byte>, from: nat)
    requires at + |data| <= |ring| && at < |ring| && from <= at
    ensures var o := Overlay(ring, at, data);
            && |o| == |ring| && o[from..at + |data|] == ring[from..at] + data
            && o[at + |data|..] == ring[at + |data|..] && o[..at + |data|] == ring[..at] + data
  {}

  lemma OverlayRound(ring: seq<byte>, at: nat, data: seq<byte>, from: nat)
    requires |ring| < at + |data| && at < |ring| && |data| <= |ring|
    requires at + |data| - |ring| <= from <= at
    ensures var o := Overlay(ring, at, data);
            |o| == |ring| && o[from..] + o[..at + |data| - |ring|] == ring[from..at] + data
  {
    var first := |ring| - at;
    assert data == data[..first] + data[first..];
  }

  /** Copying bytes in behind what is held appends them, through wrap-around and
      up to exactly full. */
  lemma OverlayAppends(ring: seq<byte>, readPos: nat, writePos: nat, isFull: bool, data: seq<byte>)
    requires Positions(|ring|, readPos, writePos, isFull) && data != []
    requires |Held(ring, readPos, writePos, isFull)| + |data| <= |ring|
    ensures var w := Advance(|ring|, writePos, |data|);
            && Positions(|ring|, readPos, w, w == readPos)
            && Held(Overlay(ring, writePos, data), readPos, w, w == readPos)
               == Held(ring, readPos, writePos, isFull) + data
  {
    hide Overlay, Advance;
    AdvanceIs(|ring|, writePos, |data|);
    if readPos > writePos {
      AppendBelow(ring, readPos, writePos, data);
    } else if writePos + |data| <= |ring| {
      OverlayStraight(ring, writePos, data, readPos);
      UpToTheEnd(Overlay(ring, writePos, data), readPos);
    } else {
      OverlayRound(ring, writePos, data, readPos);
    }
  }

  lemma UpToTheEnd(o: seq<byte>, readPos: nat)
    requires readPos <= |o|
    ensures o[readPos..] + o[..0] == o[readPos..|o|]
  {}

  /** The case where the write position is behind the read position. */
  lemma AppendBelow(ring: seq<byte>, readPos: nat, writePos: nat, data: seq<byte>)
    requires writePos < readPos < |ring| && writePos + |data| <= readPos
    ensures var o := Overlay(ring, writePos, data);
            |o| == |ring| && o[readPos..] + o[..writePos + |data|] == ring[readPos..] + ring[..writePos] + data
  {
    hide Overlay;
    OverlayStraight(ring, writePos, data, 0);
    var o, end := Overlay(ring, writePos, data), writePos + |data|;
    assert o[readPos..] == o[end..][readPos - end..];
    assert ring[readPos..] == ring[end..][readPos - end..];
    Associative(ring[readPos..], ring[..writePos], data);
  }

  /** Moving the read position on drops that many bytes from the front. */
  lemma AdvanceDrops(ring: seq<byte>, readPos: nat, writePos: nat, isFull: bool, n: nat)
    requires Positions(|ring|, readPos, writePos, isFull) && 0 < n <= |Held(ring, readPos, writePos, isFull)|
    ensures var r := Advance(|ring|, readPos, n);
            Positions(|ring|, r, writePos, false) && Held(ring, r, writePos, false) == Held(ring, readPos, writePos, isFull)[n..]
  {
    AdvanceIs(|ring|, readPos, n);
  }

  /** The oldest `n` bytes: up to the end, then from the start. */
  lemma HeldFirst(ring: seq<byte>, readPos: nat, writePos: nat, isFull: bool, n: nat)
    requires Positions(|ring|, readPos, writePos, isFull) && n <= |Held(ring, readPos, writePos, isFull)|
    ensures n <= |ring|
    ensures var first := Min(|ring| - readPos, n);
            Held(ring, readPos, writePos, isFull)[..n] == ring[readPos..readPos + first] + ring[..n - first]
  {}

  lemma Associative(a: seq<byte>, b: seq<byte>, c: seq<byte>)
    ensures a + b + c == a + (b + c)
  {}

  class RingBuffer {
    const buffer: array<byte>
    const capacity: nat
    var readPos: nat
    var writePos: nat
    var isFull: bool
    /** All bytes ever accepted, and all ever read. */
    ghost var accepted: seq<byte>
    ghost var taken: seq<byte>

    ghost predicate Shaped()
      reads this
    {
      buffer.Length == capacity && Positions(capacity, readPos, writePos, isFull)
    }

    ghost function Contents(): seq<byte>
      requires Shaped()
      reads this, buffer
    {
      Held(buffer[..], readPos, writePos, isFull)
    }

    /** First in, first out: what was read and what is held is what was accepted. */
    ghost predicate Valid()
      reads this, buffer
    {
      Shaped() && taken + Contents() == accepted && |Contents()| <= capacity
    }

    constructor (capacity: nat)
      ensures Valid() && fresh(buffer) && this.capacity == capacity && Contents() == [] && accepted == []
    {
      buffer := new byte[capacity](_ => 0);
      this.capacity := capacity;
      readPos, writePos, isFull := 0, 0, false;
      accepted, taken := [], [];
    }

    /** `available_write` */
    function AvailableWrite(): (r: nat)
      requires Shaped()
      reads this, buffer
      ensures r == capacity - |Contents()|
    {
      if isFull then 0
      else if writePos >= readPos then capacity - writePos + readPos
      else readPos - writePos
    }

    /** `available_read` */
    function AvailableRead(): (r: nat)
      requires Shaped()
      reads this, buffer
      ensures r == |Contents()|
    {
      if isFull then capacity
      else if writePos >= readPos then writePos - readPos
      else capacity - readPos + writePos
    }

    /** `write`: takes as much as there is room for. */
    method Write(data: seq<byte>) returns (n: nat)
      requires Valid()
      modifies this, buffer
      ensures Valid() && n == Min(|data|, capacity - |old(Contents())|)
      ensures Contents() == old(Contents()) + data[..n]
      ensures accepted == old(accepted) + data[..n] && taken == old(taken)
    {
      hide Held, Positions;
      n := Min(|data|, AvailableWrite());
      ghost var piece := data[..n];
      Associative(taken, Contents(), piece);
      if n == 0 {
        assert accepted + piece == accepted && Contents() + piece == Contents();
        return;
      }
      Store(data[..n]);
      accepted := accepted + piece;
    }

    /** The body of `write` once the amount is known. */
    method Store(data: seq<byte>)
      requires Shaped() && data != [] && |Contents()| + |data| <= capacity
      modifies this`writePos, this`isFull, buffer
      ensures Shaped() && Contents() == old(Contents()) + data
    {
      hide Held, Overlay, Advance;
      assert AvailableWrite() > 0 && !isFull;
      OverlayAppends(buffer[..], readPos, writePos, isFull, data);
      var n := |data|;
      var first := Min(capacity - writePos, n);
      var second := n - first;
      CopyIn(data, first, second);
      writePos := Advance(capacity, writePos, n);
      if writePos == readPos {
        isFull := true;
      }
    }

    /** The two copies of `write`: up to the end, and from the start. */
    method CopyIn(data: seq<byte>, first: nat, second: nat)
      requires Shaped() && writePos < capacity && |data| == first + second <= capacity
      requires first == Min(capacity - writePos, |data|)
      modifies buffer
      ensures buffer[..] == Overlay(old(buffer[..]), writePos, data)
    {
      hide Overlay;
      OverlayAt(buffer[..], writePos, data);
      forall i | 0 <= i < first {
        buffer[writePos + i] := data[i];
      }
      if second > 0 {
        forall i | 0 <= i < second {
          buffer[i] := data[first + i];
        }
      }
    }

    /** `read`: fills the front of `buf` with the oldest bytes. */
    method Read(buf: array<byte>) returns (n: nat)
      requires Valid() && buf != buffer
      modifies this, buf
      ensures Valid() && n == Min(buf.Length, |old(Contents())|)
      ensures buf[..n] == old(Contents())[..n] && buf[n..] == old(buf[n..])
      ensures Contents() == old(Contents())[n..]
      ensures taken == old(taken) + old(Contents())[..n] && accepted == old(accepted)
    {
      hide Held, Positions;
      n := Min(buf.Length, AvailableRead());
      ghost var held := Contents();
      assert held == held[..n] + held[n..];
      Associative(taken, held[..n], held[n..]);
      if n == 0 {
        assert taken + held[..0] == taken;
        return;
      }
      Fetch(buf, n);
      taken := taken + held[..n];
    }

    /** The body of `read` once the amount is known. */
    method Fetch(buf: array<byte>, n: nat)
      requires Shaped() && buf != buffer && 0 < n <= buf.Length && n <= |Contents()|
      modifies this`readPos, this`isFull, buf
      ensures Shaped() && Contents() == old(Contents())[n..]
      ensures buf[..n] == old(Contents())[..n] && buf[n..] == old(buf[n..])
    {
      hide Held, Advance;
      AdvanceDrops(buffer[..], readPos, writePos, isFull, n);
      HeldFirst(buffer[..], readPos, writePos, isFull, n);
      var first := Min(capacity - readPos, n);
      CopyOut(buf, first, n - first);
      readPos := Advance(capacity, readPos, n);
      isFull := false;
    }

    /** The two copies of `read`. */
    method CopyOut(buf: array<byte>, first: nat, second: nat)
      requires buf != buffer && first + second <= buf.Length
      requires readPos + first <= buffer.Length && second <= buffer.Length
      modifies buf
      ensures buf[..first + second] == buffer[readPos..readPos + first] + buffer[..second]
      ensures buf[first + second..] == old(buf[first + second..])
    {
      forall i | 0 <= i < first {
        buf[i] := buffer[readPos + i];
      }
      if second > 0 {
        forall i | 0 <= i < second {
          buf[first + i] := buffer[i];
        }
      }
    }

    /** `read_zero_copy`: the held bytes in one or two pieces, nothing consumed. */
    method ReadZeroCopy() returns (first: seq<byte>, second: Option<seq<byte>>)
      requires Valid()
      ensures first + (if second.Some? then second.value else []) == Contents()
      ensures taken + first + (if second.Some? then second.value else []) == accepted
      ensures second.Some? ==> second.value != []
      ensures Contents() != [] ==> first == buffer[readPos..if readPos < writePos then writePos else capacity]
    {
      var available := AvailableRead();
      if available == 0 {
        return [], None;
      }
      if readPos < writePos {
        first, second := buffer[readPos..writePos], None;
      } else {
        first := buffer[readPos..capacity];
        second := if writePos > 0 then Some(buffer[..writePos]) else None;
      }
      assert first + (if second.Some? then second.value else []) == Contents();
    }
  }
}
