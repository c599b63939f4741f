/**
 * The layered store (storage/layered.rs): a Bloom filter in front of a memory
 * cache in front of a database. The database is a map; the prefetch cache, the
 * buffered single put and the cold tier, whose reads find nothing, are left out.
 */
module LayeredStorage {
  import opened Common
  import opened MemoryCache

  /** The sizes of the cache and the filter, and the seeded hash. */
  datatype Config = Config(maxSize: nat, bits: nat, hashCount: nat, hash: (Key, nat) -> nat)

  /** The filter bits a key sets. */
  ghost function Positions(c: Config, key: Key): set<nat>
    requires c.bits > 0
  {
    set i | 0 <= i < c.hashCount :: c.hash(key, i) % c.bits
  }

  class BloomFilter {
    const bits: array<bool>
    const c: Config

    ghost predicate Valid() {
      bits.Length == c.bits > 0
    }

    ghost function Bits(): set<nat>
      reads bits
    {
      set j: nat | j < bits.Length && bits[j]
    }

    constructor (c: Config)
      requires c.bits > 0
      ensures Valid() && fresh(bits) && this.c == c && Bits() == {}
    {
      this.c := c;
      bits := new bool[c.bits](_ => false);
    }

    /** `add` sets exactly the key's bits. */
    method Add(key: Key)
      requires Valid()
      modifies bits
      ensures Bits() == old(Bits()) + Positions(c, key)
      ensures forall j: nat | j < bits.Length ::
                bits[j] <==> old(bits[j]) || exists i :: 0 <= i < c.hashCount && j == c.hash(key, i) % c.bits
    {
      var i := 0;
      while i < c.hashCount
        invariant 0 <= i <= c.hashCount
        invariant Bits() == old(Bits()) + set k | 0 <= k < i :: c.hash(key, k) % c.bits
      {
        var index := c.hash(key, i) % bits.Length;
        ghost var was := Bits();
        bits[index] := true;
        assert Bits() == was + {index};
        i := i + 1;
      }
      forall j: nat | j < bits.Length
        ensures bits[j] <==> old(bits[j]) || exists i :: 0 <= i < c.hashCount && j == c.hash(key, i) % c.bits
      {
        assert bits[j] <==> j in Bits();
        assert old(bits[j]) <==> j in old(Bits());
      }
    }

    /** `might_contain` holds exactly when all the key's bits are set. */
    method MightContain(key: Key) returns (r: bool)
      requires Valid()
      ensures r <==> Positions(c, key) <= Bits()
      ensures r <==> forall i | 0 <= i < c.hashCount :: bits[c.hash(key, i) % c.bits]
    {
      var i := 0;
      while i < c.hashCount
        invariant 0 <= i <= c.hashCount
        invariant forall k | 0 <= k < i :: bits[c.hash(key, k) % c.bits]
      {
        var index := c.hash(key, i) % bits.Length;
        if !bits[index] {
          assert index in Positions(c, key) && index !in Bits();
          return false;
        }
        i := i + 1;
      }
      return true;
    }
  }

  type Item = (Key, Value)

  ghost predicate ValidConfig(c: Config) {
    c.bits > 0
  }

  datatype Store = Store(cache: State, bits: set<nat>, db: map<Key, Value>)

  ghost predicate Passes(c: Config, s: Store, key: Key)
    requires ValidConfig(c)
  {
    Positions(c, key) <= s.bits
  }

  /** What `get` returns. */
  ghost function Answer(c: Config, s: Store, key: Key): Option<Value>
    requires ValidConfig(c)
  {
    if !Passes(c, s, key) then None
    else if key in s.cache.data then Some(s.cache.data[key].value)
    else Lookup(s.db, key)
  }

  /** Keys whose cached value is not the one in the database. */
  ghost function Stale(s: Store): set<Key> {
    set k | k in s.cache.data && Lookup(s.db, k) != Some(s.cache.data[k].value)
  }

  ghost predicate Filtered(c: Config, s: Store)
    requires ValidConfig(c)
  {
    && (forall k | k in s.db :: Passes(c, s, k))
    && (forall k | k in s.cache.data :: Passes(c, s, k))
  }

  ghost predicate Coherent(c: Config, s: Store)
    requires ValidConfig(c)
  {
    Filtered(c, s) && Stale(s) == {}
  }

  ghost predicate Bounded(c: Config, s: Store) {
    Sound(s.cache) && s.cache.currentSize <= c.maxSize
  }

  /** When every known key passes the filter, the store answers like the
      database for all keys exactly when no cached entry is stale. */
  lemma AnswersLikeDatabase(c: Config, s: Store)
    requires ValidConfig(c) && Filtered(c, s)
    ensures (forall k :: Answer(c, s, k) == Lookup(s.db, k)) <==> Stale(s) == {}
  {
    forall k | k in Stale(s)
      ensures Answer(c, s, k) != Lookup(s.db, k)
    {
      assert Passes(c, s, k);
    }
    if Stale(s) == {} {
      forall k
        ensures Answer(c, s, k) == Lookup(s.db, k)
      {
        assert k !in Stale(s);
      }
    }
  }

  ghost function GetStep(c: Config, s: Store, key: Key): Store
    requires ValidConfig(c)
  {
    if !Passes(c, s, key) then s
    else if key in s.cache.data then s.(cache := GetState(s.cache, key))
    else if key in s.db then s.(cache := PutState(s.cache, key, s.db[key], c.maxSize))
    else s
  }

  ghost function PutStep(c: Config, s: Store, item: Item): Store
    requires ValidConfig(c)
  {
    Store(PutState(s.cache, item.0, item.1, c.maxSize), s.bits + Positions(c, item.0), s.db[item.0 := item.1])
  }

  ghost function DeleteStep(s: Store, key: Key): Store {
    Store(RemoveState(s.cache, key), s.bits, s.db - {key})
  }

  ghost function PutAll(c: Config, s: Store, items: seq<Item>): Store
    requires ValidConfig(c)
  {
    if items == [] then s else PutStep(c, PutAll(c, s, items[..|items| - 1]), items[|items| - 1])
  }

  ghost function DeleteAll(s: Store, keys: seq<Key>): Store {
    if keys == [] then s else DeleteStep(DeleteAll(s, keys[..|keys| - 1]), keys[|keys| - 1])
  }

  ghost predicate Fit(c: Config, items: seq<Item>) {
    forall i | 0 <= i < |items| :: |items[i].1| <= c.maxSize
  }

  // ---- what each step keeps ----

  lemma GetKeepsStore(c: Config, s: Store, key: Key)
    requires ValidConfig(c) && Bounded(c, s) && Filtered(c, s)
    ensures var t := GetStep(c, s, key);
            && t.db == s.db && Bounded(c, t) && Filtered(c, t) && Stale(t) <= Stale(s)
  {
    hide Sound, PutState, GetState;
    if key in s.cache.data {
      GetKeeps(s.cache, key);
      SameContents(c, s, GetState(s.cache, key));
    } else if key in s.db {
      PutKeeps(s.cache, key, s.db[key], c.maxSize);
      PutFiltered(c, s, (key, s.db[key]));
      assert s.db[key := s.db[key]] == s.db;
      assert s.bits + Positions(c, key) == s.bits;
    }
  }

  lemma SameContents(c: Config, s: Store, cache: State)
    requires ValidConfig(c) && Contents(cache.data) == Contents(s.cache.data)
    ensures var t := s.(cache := cache);
            (Filtered(c, s) ==> Filtered(c, t)) && Stale(t) == Stale(s)
  {
    var t := s.(cache := cache);
    assert Contents(cache.data).Keys == cache.data.Keys && Contents(s.cache.data).Keys == s.cache.data.Keys;
    forall k | k in cache.data
      ensures k in s.cache.data && cache.data[k].value == s.cache.data[k].value
    {
      assert Contents(cache.data)[k] == Contents(s.cache.data)[k];
    }
  }

  /** A put leaves its key stale exactly when the value does not fit and a
      different one is cached; any other key is stale only if it was. */
  lemma PutFiltered(c: Config, s: Store, item: Item)
    requires ValidConfig(c) && Bounded(c, s) && Filtered(c, s)
    ensures var t := PutStep(c, s, item);
            && Bounded(c, t) && Filtered(c, t) && Stale(t) - {item.0} <= Stale(s)
            && (item.0 in Stale(t) <==> |item.1| > c.maxSize && Lookup(Contents(s.cache.data), item.0) !in {None, Some(item.1)})
  {
    hide Sound, PutState, Positions;
    PutKeeps(s.cache, item.0, item.1, c.maxSize);
    var t := PutStep(c, s, item);
    forall k | k in t.cache.data && k != item.0
      ensures k in s.cache.data && t.cache.data[k] == s.cache.data[k]
    {
      assert k in t.cache.data - {item.0};
    }
    forall k | k in t.db || k in t.cache.data
      ensures Passes(c, t, k)
    {
      assert k == item.0 || Passes(c, s, k);
    }
  }

  /** Coherence survives a put exactly when the value fits the cache, or the
      key is not cached, or that very value is. */
  lemma PutCoherentIff(c: Config, s: Store, item: Item)
    requires ValidConfig(c) && Bounded(c, s) && Coherent(c, s)
    ensures Coherent(c, PutStep(c, s, item))
            <==> |item.1| <= c.maxSize || Lookup(Contents(s.cache.data), item.0) in {None, Some(item.1)}
  {
    PutFiltered(c, s, item);
  }

  lemma DeleteKeeps(c: Config, s: Store, key: Key)
    requires ValidConfig(c) && Bounded(c, s) && Filtered(c, s)
    ensures var t := DeleteStep(s, key);
            Bounded(c, t) && Filtered(c, t) && Stale(t) == Stale(s) - {key}
  {
    hide Sound, RemoveState;
    RemoveKeeps(s.cache, key);
  }

  lemma CompactKeeps(c: Config, s: Store, cold: set<Key>)
    requires ValidConfig(c) && Bounded(c, s) && Filtered(c, s)
    ensures var t := s.(cache := ColdState(s.cache, cold));
            Bounded(c, t) && Filtered(c, t) && Stale(t) <= Stale(s)
  {
    hide Sound;
    ColdKeeps(s.cache, cold);
  }

  lemma {:induction false} PutAllKeeps(c: Config, s: Store, items: seq<Item>)
    requires ValidConfig(c) && Bounded(c, s) && Filtered(c, s)
    ensures var t := PutAll(c, s, items);
            Bounded(c, t) && Filtered(c, t) && (Fit(c, items) ==> Stale(t) <= Stale(s))
  {
    hide Bounded, Filtered;
    if items != [] {
      var front := items[..|items| - 1];
      PutAllKeeps(c, s, front);
      PutFiltered(c, PutAll(c, s, front), items[|items| - 1]);
      assert Fit(c, items) ==> Fit(c, front) && |items[|items| - 1].1| <= c.maxSize;
    }
  }

  lemma {:induction false} DeleteAllKeeps(c: Config, s: Store, keys: seq<Key>)
    requires ValidConfig(c) && Bounded(c, s) && Filtered(c, s)
    ensures var t := DeleteAll(s, keys);
            Bounded(c, t) && Filtered(c, t) && Stale(t) <= Stale(s)
  {
    hide Bounded, Filtered;
    if keys != [] {
      DeleteAllKeeps(c, s, keys[..|keys| - 1]);
      DeleteKeeps(c, DeleteAll(s, keys[..|keys| - 1]), keys[|keys| - 1]);
    }
  }

  // ---- runs ----

  /** `Compact` names the entries found cold. */
  datatype Op =
    | BatchPut(items: seq<Item>)
    | Delete(key: Key)
    | BatchDelete(keys: seq<Key>)
    | Get(key: Key)
    | Contains(key: Key)
    | Compact(cold: set<Key>)

  ghost function Step(c: Config, s: Store, op: Op): Store
    requires ValidConfig(c)
  {
    match op
    case BatchPut(items) => PutAll(c, s, items)
    case Delete(key) => DeleteStep(s, key)
    case BatchDelete(keys) => DeleteAll(s, keys)
    case Get(key) => GetStep(c, s, key)
    case Contains(key) => GetStep(c, s, key)
    case Compact(cold) => s.(cache := ColdState(s.cache, cold))
  }

  /** The simple form: one map. */
  ghost function PlainStep(m: map<Key, Value>, op: Op): map<Key, Value> {
    match op
    case BatchPut(items) => Written(m, items)
    case Delete(key) => m - {key}
    case BatchDelete(keys) => m - set i | 0 <= i < |keys| :: keys[i]
    case _ => m
  }

  /** The last item of a key counts. */
  function Written(m: map<Key, Value>, items: seq<Item>): map<Key, Value>
    decreases |items|
  {
    if items == [] then m else Written(m[items[0].0 := items[0].1], items[1..])
  }

  ghost function Run(c: Config, s: Store, ops: seq<Op>): Store
    requires ValidConfig(c)
    decreases |ops|
  {
    if ops == [] then s else Run(c, Step(c, s, ops[0]), ops[1..])
  }

  ghost function PlainRun(m: map<Key, Value>, ops: seq<Op>): map<Key, Value>
    decreases |ops|
  {
    if ops == [] then m else PlainRun(PlainStep(m, ops[0]), ops[1..])
  }

  ghost predicate AllFit(c: Config, ops: seq<Op>) {
    forall i | 0 <= i < |ops| && ops[i].BatchPut? :: Fit(c, ops[i].items)
  }

  lemma {:induction false} WrittenLast(m: map<Key, Value>, items: seq<Item>)
    requires items != []
    ensures var last := items[|items| - 1];
            Written(m, items) == Written(m, items[..|items| - 1])[last.0 := last.1]
    decreases |items|
  {
    if |items| > 1 {
      WrittenLast(m[items[0].0 := items[0].1], items[1..]);
      assert items[1..][..|items| - 2] == items[..|items| - 1][1..];
    }
  }

  lemma {:induction false} PutAllDatabase(c: Config, s: Store, items: seq<Item>)
    requires ValidConfig(c)
    ensures PutAll(c, s, items).db == Written(s.db, items)
  {
    if items != [] {
      PutAllDatabase(c, s, items[..|items| - 1]);
      WrittenLast(s.db, items);
    }
  }

  lemma {:induction false} DeleteAllDatabase(s: Store, keys: seq<Key>)
    ensures DeleteAll(s, keys).db == s.db - set i | 0 <= i < |keys| :: keys[i]
  {
    if keys != [] {
      DeleteAllDatabase(s, keys[..|keys| - 1]);
    }
  }

  lemma StepKeeps(c: Config, s: Store, op: Op)
    requires ValidConfig(c) && Bounded(c, s) && Filtered(c, s)
    ensures var t := Step(c, s, op);
            && Bounded(c, t) && Filtered(c, t) && t.db == PlainStep(s.db, op)
            && ((op.BatchPut? ==> Fit(c, op.items)) ==> Stale(t) <= Stale(s))
  {
    hide Bounded, Filtered, Stale, PutAll, DeleteAll, GetStep, Written;
    match op
    case BatchPut(items) =>
      PutAllKeeps(c, s, items);
      PutAllDatabase(c, s, items);
    case Delete(key) => DeleteKeeps(c, s, key);
    case BatchDelete(keys) =>
      DeleteAllKeeps(c, s, keys);
      DeleteAllDatabase(s, keys);
    case Get(key) => GetKeepsStore(c, s, key);
    case Contains(key) => GetKeepsStore(c, s, key);
    case Compact(cold) => CompactKeeps(c, s, cold);
  }

  /** Over every run the database is the plain map, the cache stays within its
      bound, and if all values fit the cache the store answers every key as the
      plain map does. */
  lemma {:induction false} RunAnswers(c: Config, s: Store, ops: seq<Op>)
    requires ValidConfig(c) && Bounded(c, s) && Coherent(c, s)
    requires AllFit(c, ops)
    ensures var t := Run(c, s, ops);
            && Bounded(c, t) && Coherent(c, t) && t.db == PlainRun(s.db, ops)
            && forall k :: Answer(c, t, k) == Lookup(PlainRun(s.db, ops), k)
    decreases |ops|
  {
    hide Bounded, Filtered, Answer, Step, PlainStep, Fit;
    if ops == [] {
      AnswersLikeDatabase(c, s);
    } else {
      StepKeeps(c, s, ops[0]);
      RunAnswers(c, Step(c, s, ops[0]), ops[1..]);
    }
  }

  // ---- runs with values that may not fit ----

  /** The `i`th item is the last of its key, and its value does not fit. */
  predicate LastOversize(c: Config, items: seq<Item>, i: nat) {
    i < |items| && |items[i].1| > c.maxSize && forall j | i < j < |items| :: items[j].0 != items[i].0
  }

  /** A key whose last value in the batch does not fit is cached with another one
      when the batch is done. */
  ghost predicate LeavesStale(c: Config, s: Store, items: seq<Item>)
    requires ValidConfig(c)
  {
    exists i: nat :: LastOversize(c, items, i) &&
      Lookup(Contents(PutAll(c, s, items).cache.data), items[i].0) !in {None, Some(items[i].1)}
  }

  lemma {:induction false} StaleIsOversize(c: Config, s: Store, items: seq<Item>, k: Key) returns (i: nat)
    requires ValidConfig(c) && Bounded(c, s) && Coherent(c, s) && k in Stale(PutAll(c, s, items))
    ensures LastOversize(c, items, i) && items[i].0 == k
  {
    hide Bounded, Filtered, Stale;
    i := 0;
    if items != [] {
      var front, last := items[..|items| - 1], items[|items| - 1];
      PutAllKeeps(c, s, front);
      PutFiltered(c, PutAll(c, s, front), last);
      if k == last.0 {
        i := |items| - 1;
      } else {
        i := StaleIsOversize(c, s, front, k);
        assert items[i] == front[i];
        LastOfMore(c, items, i);
      }
    }
  }

  lemma LastOfMore(c: Config, items: seq<Item>, i: nat)
    requires items != [] && LastOversize(c, items[..|items| - 1], i) && items[i].0 != items[|items| - 1].0
    ensures LastOversize(c, items, i)
  {
    var front := items[..|items| - 1];
    assert forall j | i < j < |front| :: front[j] == items[j];
  }

  /** The database holds the last item of each key. */
  lemma {:induction false} LastIsWritten(c: Config, s: Store, items: seq<Item>, i: nat)
    requires ValidConfig(c) && i < |items| && forall j | i < j < |items| :: items[j].0 != items[i].0
    ensures Lookup(PutAll(c, s, items).db, items[i].0) == Some(items[i].1)
  {
    if i < |items| - 1 {
      LastIsWritten(c, s, items[..|items| - 1], i);
    }
  }

  ghost predicate IsLast(items: seq<Item>, i: nat) {
    i < |items| && forall j | i < j < |items| :: items[j].0 != items[i].0
  }

  /** What a batch leaves: of each key the last item, in the filter exactly the keys'
      bits more, and the last item of all, if it fits, in the cache. */
  lemma PutAllWrites(c: Config, s: Store, items: seq<Item>)
    requires ValidConfig(c) && Bounded(c, s)
    ensures var t := PutAll(c, s, items);
            && (forall i: nat | IsLast(items, i) :: items[i].0 in t.db && t.db[items[i].0] == items[i].1)
            && (forall k | forall i | 0 <= i < |items| :: items[i].0 != k :: Lookup(t.db, k) == Lookup(s.db, k))
            && (forall b :: b in t.bits <==> b in s.bits || exists i :: 0 <= i < |items| && b in Positions(c, items[i].0))
            && (items != [] && |items[|items| - 1].1| <= c.maxSize ==>
                  var (key, value) := items[|items| - 1]; key in t.cache.data && t.cache.data[key].value == value)
  {
    forall i: nat | IsLast(items, i)
      ensures items[i].0 in PutAll(c, s, items).db && PutAll(c, s, items).db[items[i].0] == items[i].1
    {
      LastIsWritten(c, s, items, i);
    }
    forall k | forall i | 0 <= i < |items| :: items[i].0 != k
      ensures Lookup(PutAll(c, s, items).db, k) == Lookup(s.db, k)
    {
      OthersUnwritten(c, s, items, k);
    }
    PutAllBits(c, s, items);
    if items != [] {
      hide Positions, Bounded, PutState;
      var front, last := items[..|items| - 1], items[|items| - 1];
      PutAllBounded(c, s, front);
      PutKeepsBound(c, PutAll(c, s, front), last);
    }
  }

  lemma {:induction false} OthersUnwritten(c: Config, s: Store, items: seq<Item>, k: Key)
    requires ValidConfig(c) && forall i | 0 <= i < |items| :: items[i].0 != k
    ensures Lookup(PutAll(c, s, items).db, k) == Lookup(s.db, k)
  {
    hide Positions, PutState;
    if items != [] {
      OthersUnwritten(c, s, items[..|items| - 1], k);
    }
  }

  lemma {:induction false} PutAllBits(c: Config, s: Store, items: seq<Item>)
    requires ValidConfig(c)
    ensures forall b :: b in PutAll(c, s, items).bits <==>
              b in s.bits || exists i :: 0 <= i < |items| && b in Positions(c, items[i].0)
  {
    hide Positions, PutState;
    if items != [] {
      var front, last := items[..|items| - 1], items[|items| - 1];
      PutAllBits(c, s, front);
      assert items == front + [last];
      NewBits(c, PutAll(c, s, front).bits, s.bits, front, last);
    }
  }

  lemma NewBits(c: Config, bits: set<nat>, before: set<nat>, front: seq<Item>, last: Item)
    requires ValidConfig(c)
    requires forall b :: b in bits <==> b in before || exists i :: 0 <= i < |front| && b in Positions(c, front[i].0)
    ensures var items := front + [last];
            forall b :: b in bits + Positions(c, last.0) <==>
              b in before || exists i :: 0 <= i < |items| && b in Positions(c, items[i].0)
  {
    hide Positions;
    var items := front + [last];
    forall b
      ensures b in bits + Positions(c, last.0) <==> b in before || exists i :: 0 <= i < |items| && b in Positions(c, items[i].0)
    {
      if i :| 0 <= i < |front| && b in Positions(c, front[i].0) {
        assert items[i] == front[i];
      }
      assert items[|front|] == last;
    }
  }

  lemma {:induction false} PutAllBounded(c: Config, s: Store, items: seq<Item>)
    requires ValidConfig(c) && Bounded(c, s)
    ensures Bounded(c, PutAll(c, s, items))
  {
    hide Bounded, PutStep;
    if items != [] {
      PutAllBounded(c, s, items[..|items| - 1]);
      PutKeepsBound(c, PutAll(c, s, items[..|items| - 1]), items[|items| - 1]);
    }
  }

  lemma PutKeepsBound(c: Config, s: Store, item: Item)
    requires ValidConfig(c) && Bounded(c, s)
    ensures var t := PutStep(c, s, item);
            && Bounded(c, t)
            && (|item.1| <= c.maxSize ==> item.0 in t.cache.data && t.cache.data[item.0].value == item.1)
  {
    PutKeeps(s.cache, item.0, item.1, c.maxSize);
  }

  /** A batch keeps cache and database in agreement exactly when it leaves no such key. */
  lemma BatchCoherentIff(c: Config, s: Store, items: seq<Item>)
    requires ValidConfig(c) && Bounded(c, s) && Coherent(c, s)
    ensures Coherent(c, PutAll(c, s, items)) <==> !LeavesStale(c, s, items)
  {
    hide Bounded, Filtered, PutAll;
    var t := PutAll(c, s, items);
    PutAllKeeps(c, s, items);
    if k :| k in Stale(t) {
      var i := StaleIsOversize(c, s, items, k);
      LastIsWritten(c, s, items, i);
      assert Lookup(Contents(t.cache.data), items[i].0) !in {None, Some(items[i].1)};
    }
    if i: nat :| LastOversize(c, items, i) && Lookup(Contents(t.cache.data), items[i].0) !in {None, Some(items[i].1)} {
      LastIsWritten(c, s, items, i);
      assert items[i].0 in Stale(t);
    }
  }

  /** At every point of the run the store answers every key as the plain map does. */
  ghost predicate AlwaysAnswers(c: Config, s: Store, m: map<Key, Value>, ops: seq<Op>)
    requires ValidConfig(c)
    decreases |ops|
  {
    && (forall k :: Answer(c, s, k) == Lookup(m, k))
    && (ops != [] ==> AlwaysAnswers(c, Step(c, s, ops[0]), PlainStep(m, ops[0]), ops[1..]))
  }

  ghost predicate NoneLeavesStale(c: Config, s: Store, ops: seq<Op>)
    requires ValidConfig(c)
    decreases |ops|
  {
    ops != [] ==>
      && (ops[0].BatchPut? ==> !LeavesStale(c, s, ops[0].items))
      && NoneLeavesStale(c, Step(c, s, ops[0]), ops[1..])
  }

  lemma StepCoherentIff(c: Config, s: Store, op: Op)
    requires ValidConfig(c) && Bounded(c, s) && Coherent(c, s)
    ensures Coherent(c, Step(c, s, op)) <==> (op.BatchPut? ==> !LeavesStale(c, s, op.items))
  {
    hide Bounded, Filtered, LeavesStale;
    if op.BatchPut? {
      BatchCoherentIff(c, s, op.items);
    } else {
      StepKeeps(c, s, op);
    }
  }

  /** Over every run, whatever the size of the values, the store answers as the plain
      map throughout exactly when no batch leaves a stale key. */
  lemma {:induction false} RunAnswersIff(c: Config, s: Store, ops: seq<Op>)
    requires ValidConfig(c) && Bounded(c, s) && Coherent(c, s)
    ensures AlwaysAnswers(c, s, s.db, ops) <==> NoneLeavesStale(c, s, ops)
    decreases |ops|
  {
    hide Bounded, Filtered, Stale, Answer, Step, PlainStep, LeavesStale;
    AnswersLikeDatabase(c, s);
    if ops != [] {
      var t := Step(c, s, ops[0]);
      StepKeeps(c, s, ops[0]);
      StepCoherentIff(c, s, ops[0]);
      if Coherent(c, t) {
        RunAnswersIff(c, t, ops[1..]);
      } else {
        AnswersLikeDatabase(c, t);
      }
    }
  }

  class LayeredStorage {
    const cache: Cache
    const bloom: BloomFilter
    const c: Config
    var db: map<Key, Value>

    ghost predicate Valid()
      reads this, cache, bloom
    {
      && cache.Valid() && bloom.Valid()
      && cache.maxSize == c.maxSize && bloom.c == c
    }

    ghost function Abs(): Store
      reads this, cache, bloom, bloom.bits
    {
      Store(cache.Abs(), bloom.Bits(), db)
    }

    /** Opening keeps what the database holds, but the new filter knows none of
        it: reads agree with the database exactly when nothing hides in it. */
    constructor (c: Config, db: map<Key, Value>)
      requires c.bits > 0 && c.hashCount > 0
      ensures Valid() && fresh(cache) && fresh(bloom) && fresh(bloom.bits)
      ensures this.db == db && this.c == c
      ensures Coherent(c, Abs()) <==> db == map[]
      ensures forall k :: Answer(c, Abs(), k) == None
    {
      this.c := c;
      this.db := db;
      cache := new Cache(c.maxSize);
      bloom := new BloomFilter(c);
      new;
      forall k: Key
        ensures Positions(c, k) != {}
      {
        assert c.hash(k, 0) % c.bits in Positions(c, k);
      }
    }

    /** `get` */
    method Get(key: Key) returns (r: Option<Value>)
      requires Valid()
      modifies this, cache
      ensures Valid() && Abs() == GetStep(c, old(Abs()), key)
      ensures r == Answer(c, old(Abs()), key)
      ensures r.None? ==> Abs() == old(Abs())
      ensures r.Some? && |r.value| <= c.maxSize ==> key in cache.data && cache.data[key].value == r.value
      ensures db == old(db) && bloom.Bits() == old(bloom.Bits())
    {
      var known := bloom.MightContain(key);
      if !known {
        return None;
      }
      r := cache.Get(key);
      if r.Some? {
        return;
      }
      if key in db {
        PutKeeps(cache.Abs(), key, db[key], c.maxSize);
        cache.Put(key, db[key]);
        return Some(db[key]);
      }
      return None;
    }

    /** `contains` */
    method Contains(key: Key) returns (r: bool)
      requires Valid()
      modifies this, cache
      ensures Valid() && Abs() == GetStep(c, old(Abs()), key)
      ensures r <==> Answer(c, old(Abs()), key).Some?
    {
      var known := bloom.MightContain(key);
      if !known {
        return false;
      }
      var value := Get(key);
      return value.Some?;
    }

    /** `batch_put`: the filter and the cache item by item, the database at the end. */
    method BatchPut(items: seq<Item>)
      requires Valid()
      modifies this, cache, bloom.bits
      ensures Valid() && Abs() == PutAll(c, old(Abs()), items)
      ensures forall i: nat | i < |items| && (forall j | i < j < |items| :: items[j].0 != items[i].0) ::
                items[i].0 in db && db[items[i].0] == items[i].1
      ensures forall k | forall i | 0 <= i < |items| :: items[i].0 != k :: Lookup(db, k) == Lookup(old(db), k)
      ensures forall b :: b in bloom.Bits() <==> b in old(bloom.Bits()) || exists i :: 0 <= i < |items| && b in Positions(c, items[i].0)
      ensures items != [] && |items[|items| - 1].1| <= c.maxSize ==>
                var (key, value) := items[|items| - 1]; key in cache.data && cache.data[key].value == value
    {
      ghost var s := Abs();
      var batch := db;
      var i := 0;
      while i < |items|
        invariant 0 <= i <= |items| && Valid() && db == s.db
        invariant Store(cache.Abs(), bloom.Bits(), batch) == PutAll(c, s, items[..i])
      {
        var (key, value) := items[i];
        assert items[..i + 1][..i] == items[..i];
        bloom.Add(key);
        cache.Put(key, value);
        batch := batch[key := value];
        i := i + 1;
      }
      assert items[..i] == items;
      db := batch;
      PutAllWrites(c, s, items);
    }

    /** `delete` */
    method Delete(key: Key)
      requires Valid()
      modifies this, cache
      ensures Valid() && Abs() == DeleteStep(old(Abs()), key)
      ensures db == old(db) - {key} && cache.data == old(cache.data) - {key} && bloom.Bits() == old(bloom.Bits())
    {
      cache.Remove(key);
      db := db - {key};
    }

    /** `batch_delete` */
    method BatchDelete(keys: seq<Key>)
      requires Valid()
      modifies this, cache
      ensures Valid() && Abs() == DeleteAll(old(Abs()), keys)
      ensures forall k :: k in db <==> k in old(db) && k !in keys
      ensures forall k :: k in cache.data <==> k in old(cache.data) && k !in keys
      ensures (forall k | k in db :: db[k] == old(db)[k]) && forall k | k in cache.data :: cache.data[k] == old(cache.data)[k]
      ensures bloom.Bits() == old(bloom.Bits())
    {
      ghost var s := Abs();
      var batch := db;
      var i := 0;
      while i < |keys|
        invariant 0 <= i <= |keys| && Valid() && db == s.db
        invariant Store(cache.Abs(), bloom.Bits(), batch) == DeleteAll(s, keys[..i])
        invariant forall k :: k in batch <==> k in s.db && k !in keys[..i]
        invariant forall k :: k in cache.data <==> k in s.cache.data && k !in keys[..i]
        invariant (forall k | k in batch :: batch[k] == s.db[k]) && forall k | k in cache.data :: cache.data[k] == s.cache.data[k]
        invariant bloom.Bits() == s.bits
      {
        assert keys[..i + 1][..i] == keys[..i];
        assert keys[..i + 1] == keys[..i] + [keys[i]];
        cache.Remove(keys[i]);
        batch := batch - {keys[i]};
        i := i + 1;
      }
      assert keys[..i] == keys;
      db := batch;
    }

    /** `compact`, which drops the cold entries of the cache. */
    method CompactCache(cold: set<Key>)
      requires Valid()
      modifies this, cache
      ensures Valid() && Abs() == Step(c, old(Abs()), Op.Compact(cold))
      ensures cache.data == old(cache.data) - cold && db == old(db) && bloom.Bits() == old(bloom.Bits())
    {
      cache.EvictColdEntries(cold);
    }
  }
}
