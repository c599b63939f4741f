/**
 * The packed form of nibble paths (storage/merkle_trie.rs), and how far it stands
 * for the nibbles packed. Leaves and extensions of the stored trie hold it.
 */
module NibblePath {
  import opened Common
  import opened Trie

  /** Bytes of two nibbles each; `offset` is 1 for an odd number of nibbles. */
  datatype Packed = Packed(data: seq<byte>, offset: nat)

  function PackBytes(nibbles: Path): seq<byte> {
    if nibbles == [] then []
    else
      var high: int := nibbles[0];
      if |nibbles| == 1 then [high * 16] else [high * 16 + nibbles[1]] + PackBytes(nibbles[2..])
  }

  function FromNibbles(nibbles: Path): Packed {
    Packed(PackBytes(nibbles), |nibbles| % 2)
  }

  function UnpackBytes(data: seq<byte>): Path {
    if data == [] then [] else [data[0] / 16, data[0] % 16] + UnpackBytes(data[1..])
  }

  /** With an offset only the low nibble of the first byte is taken, and then
      the first nibble is dropped. */
  function ToNibbles(p: Packed): Path {
    if p.offset == 1 && p.data != [] then ([p.data[0] % 16] + UnpackBytes(p.data[1..]))[1..]
    else UnpackBytes(p.data)
  }

  lemma {:induction false} PackedLength(nibbles: Path)
    ensures |PackBytes(nibbles)| == (|nibbles| + 1) / 2
  {
    if |nibbles| > 1 {
      PackedLength(nibbles[2..]);
    }
  }

  lemma {:induction false} UnpackedLength(data: seq<byte>)
    ensures |UnpackBytes(data)| == 2 * |data|
  {
    if data != [] {
      UnpackedLength(data[1..]);
    }
  }

  lemma {:induction false} EvenUnpacks(nibbles: Path)
    requires |nibbles| % 2 == 0
    ensures UnpackBytes(PackBytes(nibbles)) == nibbles
  {
    if nibbles != [] {
      EvenUnpacks(nibbles[2..]);
      assert nibbles == [nibbles[0], nibbles[1]] + nibbles[2..];
      assert PackBytes(nibbles)[1..] == PackBytes(nibbles[2..]);
    }
  }

  /** Two nibbles to a byte, the first one high; a last one alone stands high. */
  lemma {:induction false} PackedExact(nibbles: Path, i: nat)
    requires i < |PackBytes(nibbles)|
    ensures 2 * i < |nibbles|
    ensures var high: int, low: int := nibbles[2 * i], if 2 * i + 1 < |nibbles| then nibbles[2 * i + 1] else 0;
            PackBytes(nibbles)[i] == 16 * high + low
  {
    if i > 0 {
      PackedExact(nibbles[2..], i - 1);
    }
  }

  lemma {:induction false} PackPadded(nibbles: Path)
    requires |nibbles| % 2 == 1
    ensures PackBytes(nibbles) == PackBytes(nibbles + [0])
  {
    if |nibbles| > 1 {
      PackPadded(nibbles[2..]);
      assert (nibbles + [0])[2..] == nibbles[2..] + [0];
    } else {
      assert (nibbles + [0])[2..] == [];
    }
  }

  /** An odd number of nibbles comes back without the first two and with a zero behind. */
  lemma OddUnpacks(nibbles: Path)
    requires |nibbles| % 2 == 1
    ensures ToNibbles(FromNibbles(nibbles)) == (nibbles + [0])[2..]
  {
    var padded := nibbles + [0];
    PackPadded(nibbles);
    EvenUnpacks(padded);
    PackedLength(padded);
    assert UnpackBytes(PackBytes(padded))[2..] == UnpackBytes(PackBytes(padded)[1..]);
  }

  /** Packing loses nothing exactly for paths of even length. */
  lemma PackingRoundTrips(nibbles: Path)
    ensures ToNibbles(FromNibbles(nibbles)) == nibbles <==> |nibbles| % 2 == 0
  {
    if |nibbles| % 2 == 0 {
      EvenUnpacks(nibbles);
    } else {
      var data := PackBytes(nibbles);
      PackedLength(nibbles);
      UnpackedLength(data[1..]);
    }
  }
}
