/**
 * Batched updates (storage/merkle_trie.rs) and what they do to a plain map: the
 * stable sort of a batch, and runs of puts, deletes and commits.
 */
module TrieUpdates {
  import opened Common
  import opened Trie

  type Key = seq<byte>

  function BytesToNibbles(bytes: Key): (r: Path)
    ensures |r| == 2 * |bytes|
  {
    if bytes == [] then [] else [bytes[0] / 16, bytes[0] % 16] + BytesToNibbles(bytes[1..])
  }

  /** Each byte gives its high nibble and then its low one. */
  lemma {:induction false} NibblesExact(bytes: Key, i: nat)
    requires i < |bytes|
    ensures var high: int, low: int := BytesToNibbles(bytes)[2 * i], BytesToNibbles(bytes)[2 * i + 1];
            16 * high + low == bytes[i]
  {
    if i > 0 {
      NibblesExact(bytes[1..], i - 1);
      assert BytesToNibbles(bytes)[2..] == BytesToNibbles(bytes[1..]);
    }
  }

  lemma {:induction false} NibblesInjective(a: Key, b: Key)
    requires BytesToNibbles(a) == BytesToNibbles(b)
    ensures a == b
  {
    if a != [] {
      var na, nb := BytesToNibbles(a), BytesToNibbles(b);
      assert na[0] == nb[0] && na[1] == nb[1];
      assert BytesToNibbles(a[1..]) == na[2..] == nb[2..] == BytesToNibbles(b[1..]);
      NibblesInjective(a[1..], b[1..]);
    }
  }

  // ----- updates -----

  /** A value to store, or `None` to delete. */
  datatype Update = Update(key: Key, value: Option<Value>)

  function ApplyMap(m: map<Key, Value>, updates: seq<Update>): map<Key, Value>
    decreases |updates|
  {
    if updates == [] then m else ApplyMap(Put(m, updates[0].key, updates[0].value), updates[1..])
  }

  ghost predicate Over(universe: iset<Key>, updates: seq<Update>) {
    forall u | u in updates :: u.key in universe
  }

  // ----- the stable sort of a batch -----

  /** Lexicographic order of byte strings. */
  predicate KeyLeq(a: Key, b: Key) {
    a == [] || (b != [] && (a[0] < b[0] || (a[0] == b[0] && KeyLeq(a[1..], b[1..]))))
  }

  /** The first `k` bytes agree, and there `a` ends or has the smaller byte. */
  ghost predicate LessFrom(a: Key, b: Key, k: nat) {
    k <= |a| && k <= |b| && a[..k] == b[..k] && (k == |a| || (k < |b| && a[k] < b[k]))
  }

  /** A key comes first if it ends, or has the smaller byte, where they first differ. */
  lemma {:induction false} KeyLeqExact(a: Key, b: Key)
    ensures KeyLeq(a, b) <==> exists k: nat :: LessFrom(a, b, k)
  {
    if a == [] {
      assert LessFrom(a, b, 0);
    } else if b != [] {
      KeyLeqExact(a[1..], b[1..]);
      if a[0] < b[0] {
        assert LessFrom(a, b, 0);
      } else if a[0] == b[0] && KeyLeq(a[1..], b[1..]) {
        var k: nat :| LessFrom(a[1..], b[1..], k);
        assert a[..k + 1] == [a[0]] + a[1..][..k] && b[..k + 1] == [b[0]] + b[1..][..k];
        assert LessFrom(a, b, k + 1);
      }
      if k: nat :| LessFrom(a, b, k) {
        LessBegins(a, b, k);
      }
    }
  }

  lemma LessBegins(a: Key, b: Key, k: nat)
    requires LessFrom(a, b, k) && a != [] && b != []
    ensures a[0] < b[0] || (k > 0 && a[0] == b[0] && LessFrom(a[1..], b[1..], k - 1))
  {
    if k > 0 {
      assert a[0] == a[..k][0] == b[..k][0] == b[0];
      assert a[1..][..k - 1] == a[..k][1..] == b[..k][1..] == b[1..][..k - 1];
    }
  }

  lemma {:induction false} KeyLeqTotal(a: Key, b: Key)
    ensures KeyLeq(a, b) || KeyLeq(b, a)
    ensures a == b ==> KeyLeq(a, b)
  {
    if a != [] && b != [] {
      KeyLeqTotal(a[1..], b[1..]);
    }
  }

  function InsertSorted(u: Update, sorted: seq<Update>): seq<Update> {
    if sorted == [] || KeyLeq(u.key, sorted[0].key) then [u] + sorted
    else [sorted[0]] + InsertSorted(u, sorted[1..])
  }

  /** A stable sort by key. */
  function SortByKey(updates: seq<Update>): seq<Update> {
    if updates == [] then [] else InsertSorted(updates[0], SortByKey(updates[1..]))
  }

  ghost predicate SortedByKey(updates: seq<Update>) {
    forall i | 0 <= i < |updates| - 1 :: KeyLeq(updates[i].key, updates[i + 1].key)
  }

  lemma {:induction false} InsertSortedSorted(u: Update, sorted: seq<Update>)
    requires SortedByKey(sorted)
    ensures SortedByKey(InsertSorted(u, sorted))
    ensures InsertSorted(u, sorted)[0] == u || (sorted != [] && InsertSorted(u, sorted)[0] == sorted[0])
  {
    if sorted != [] && !KeyLeq(u.key, sorted[0].key) {
      KeyLeqTotal(u.key, sorted[0].key);
      InsertSortedSorted(u, sorted[1..]);
    }
  }

  lemma {:induction false} SortSorts(updates: seq<Update>)
    ensures SortedByKey(SortByKey(updates))
  {
    if updates != [] {
      SortSorts(updates[1..]);
      InsertSortedSorted(updates[0], SortByKey(updates[1..]));
    }
  }

  /** The updates of one key, in order. */
  function OfKey(updates: seq<Update>, k: Key): seq<Update> {
    if updates == [] then []
    else (if updates[0].key == k then [updates[0]] else []) + OfKey(updates[1..], k)
  }

  lemma {:induction false} InsertSortedStable(u: Update, sorted: seq<Update>, k: Key)
    ensures OfKey(InsertSorted(u, sorted), k) == (if u.key == k then [u] else []) + OfKey(sorted, k)
  {
    if sorted != [] && !KeyLeq(u.key, sorted[0].key) {
      KeyLeqTotal(u.key, sorted[0].key);
      InsertSortedStable(u, sorted[1..], k);
      assert InsertSorted(u, sorted)[1..] == InsertSorted(u, sorted[1..]);
    } else {
      assert ([u] + sorted)[1..] == sorted;
    }
  }

  lemma {:induction false} SortStable(updates: seq<Update>, k: Key)
    ensures OfKey(SortByKey(updates), k) == OfKey(updates, k)
  {
    if updates != [] {
      SortStable(updates[1..], k);
      InsertSortedStable(updates[0], SortByKey(updates[1..]), k);
    }
  }

  lemma {:induction false} MapDependsOnOfKey(m: map<Key, Value>, updates: seq<Update>, k: Key)
    ensures Lookup(ApplyMap(m, updates), k) ==
            var own := OfKey(updates, k); if own == [] then Lookup(m, k) else own[|own| - 1].value
    decreases |updates|
  {
    if updates != [] {
      MapDependsOnOfKey(Put(m, updates[0].key, updates[0].value), updates[1..], k);
    }
  }

  /** Sorting a batch does not change what it does to a map. */
  lemma SortKeepsMeaning(m: map<Key, Value>, updates: seq<Update>)
    ensures ApplyMap(m, SortByKey(updates)) == ApplyMap(m, updates)
  {
    var a, b := ApplyMap(m, SortByKey(updates)), ApplyMap(m, updates);
    forall k
      ensures Lookup(a, k) == Lookup(b, k)
    {
      SortStable(updates, k);
      MapDependsOnOfKey(m, updates, k);
      MapDependsOnOfKey(m, SortByKey(updates), k);
    }
    assert forall k :: k in a <==> Lookup(a, k).Some?;
    assert forall k :: k in b <==> Lookup(b, k).Some?;
    assert a.Keys == b.Keys;
    assert forall k | k in a :: Lookup(a, k) == Some(a[k]) && Lookup(b, k) == Some(b[k]);
  }

  lemma {:induction false} SortSameElements(updates: seq<Update>)
    ensures forall u :: u in SortByKey(updates) <==> u in updates
  {
    if updates != [] {
      SortSameElements(updates[1..]);
      InsertSortedElements(updates[0], SortByKey(updates[1..]));
    }
  }

  lemma {:induction false} InsertSortedElements(u: Update, sorted: seq<Update>)
    ensures forall v :: v in InsertSorted(u, sorted) <==> v == u || v in sorted
  {
    if sorted != [] && !KeyLeq(u.key, sorted[0].key) {
      InsertSortedElements(u, sorted[1..]);
    }
  }

  // ----- runs -----

  const BATCH_THRESHOLD: nat := 100

  datatype Op = PutOp(key: Key, value: Value) | DeleteOp(key: Key) | CommitOp

  /** The reference: a plain map, changed by the pending updates in submission
      order whenever a commit happens. */
  datatype Plain = Plain(committed: map<Key, Value>, pending: seq<Update>)

  function PlainStep(p: Plain, op: Op): Plain {
    match op
    case PutOp(key, value) =>
      var p' := p.(pending := p.pending + [Update(key, Some(value))]);
      if |p'.pending| >= BATCH_THRESHOLD then Plain(ApplyMap(p'.committed, p'.pending), []) else p'
    case DeleteOp(key) => p.(pending := p.pending + [Update(key, None)])
    case CommitOp => Plain(ApplyMap(p.committed, p.pending), [])
  }

  function PlainRun(p: Plain, ops: seq<Op>): Plain
    decreases |ops|
  {
    if ops == [] then p else PlainRun(PlainStep(p, ops[0]), ops[1..])
  }

  ghost predicate OpsOver(universe: iset<Key>, ops: seq<Op>) {
    forall op | op in ops && !op.CommitOp? :: op.key in universe
  }
}
