/**
 * The bounded in-memory cache with its eviction queue (storage/cache.rs).
 * Access times are left out; what counts as cold is a parameter.
 */
module MemoryCache {
  import opened Common
  import opened MapSum

  type Key = string
  type Value = seq<byte>

  datatype Entry = Entry(value: Value, size: nat, accessCount: nat)

  type Entries = map<Key, Entry>

  /** Cached entries, the eviction queue (front first) and the recorded size. */
  datatype State = State(data: Entries, queue: seq<Key>, currentSize: nat)

  function Sizes(data: Entries): map<Key, nat> {
    map k | k in data :: data[k].size
  }

  function Contents(data: Entries): map<Key, Value> {
    map k | k in data :: data[k].value
  }

  ghost predicate Queued(data: Entries, queue: seq<Key>) {
    forall k | k in data :: k in queue
  }

  /** Sizes are those of the values and add up to the recorded size, and every
      cached key is on the queue, perhaps among stale duplicates. */
  ghost predicate Sound(s: State) {
    && (forall k | k in s.data :: s.data[k].size == |s.data[k].value|)
    && s.currentSize == Sum(Sizes(s.data))
    && Queued(s.data, s.queue)
  }

  /** The queue without the given keys. */
  function RetainOut(queue: seq<Key>, out: set<Key>): (r: seq<Key>)
    ensures forall k :: k in r <==> k in queue && k !in out
  {
    if queue == [] then []
    else (if queue[0] in out then [] else [queue[0]]) + RetainOut(queue[1..], out)
  }

  function Retain(queue: seq<Key>, key: Key): seq<Key> {
    RetainOut(queue, {key})
  }

  lemma {:induction false} RetainTwice(queue: seq<Key>, out: set<Key>, key: Key)
    ensures Retain(RetainOut(queue, out), key) == RetainOut(queue, out + {key})
  {
    if queue != [] {
      RetainTwice(queue[1..], out, key);
      if queue[0] !in out {
        assert RetainOut(queue, out)[1..] == RetainOut(queue[1..], out);
      } else {
        assert RetainOut(queue, out) == RetainOut(queue[1..], out);
      }
    }
  }

  lemma {:induction false} RetainNone(queue: seq<Key>)
    ensures RetainOut(queue, {}) == queue
  {
    if queue != [] {
      RetainNone(queue[1..]);
    }
  }

  lemma {:induction false} RetainConcat(a: seq<Key>, b: seq<Key>, out: set<Key>)
    ensures RetainOut(a + b, out) == RetainOut(a, out) + RetainOut(b, out)
  {
    if a == [] {
      assert a + b == b;
    } else {
      assert (a + b)[1..] == a[1..] + b;
      RetainConcat(a[1..], b, out);
    }
  }

  /** What is kept keeps its order. */
  lemma RetainFilters(before: seq<Key>, key: Key, after: seq<Key>, out: set<Key>)
    ensures RetainOut([], out) == []
    ensures RetainOut(before + [key] + after, out) ==
            RetainOut(before, out) + (if key in out then [] else [key]) + RetainOut(after, out)
  {
    RetainOne(key, out);
    hide RetainOut;
    RetainConcat(before + [key], after, out);
    RetainConcat(before, [key], out);
  }

  lemma RetainOne(key: Key, out: set<Key>)
    ensures RetainOut([], out) == [] && RetainOut([key], out) == if key in out then [] else [key]
  {
    assert [key][1..] == [];
  }

  /** Takes an entry out of the data and the recorded size, if it is there. */
  function Drop(s: State, key: Key): State {
    if key in s.data then
      State(s.data - {key}, s.queue, if s.data[key].size <= s.currentSize then s.currentSize - s.data[key].size else 0)
    else s
  }

  lemma DropSizes(s: State, key: Key)
    requires Sound(s)
    ensures var t := Drop(s, key);
            && (key in s.data ==> s.data[key].size <= s.currentSize)
            && t.currentSize == Sum(Sizes(t.data)) && t.data == s.data - {key}
  {
    if key in s.data {
      SumRemove(Sizes(s.data), key);
      assert Sizes(s.data - {key}) == Sizes(s.data) - {key};
    } else {
      assert s.data - {key} == s.data;
    }
  }

  lemma DropSound(s: State, key: Key)
    requires Sound(s)
    ensures Sound(Drop(s, key)) && Sound(Drop(s, key).(queue := Retain(s.queue, key)))
  {
    DropSizes(s, key);
  }

  /** `evict_one`: drops the key at the front of the queue, or nothing if that
      occurrence is stale. */
  function EvictOne(s: State): State {
    if s.queue == [] then s else Drop(s.(queue := s.queue[1..]), s.queue[0])
  }

  lemma EvictOneSound(s: State)
    requires Sound(s)
    ensures Sound(EvictOne(s))
  {
    if s.queue != [] {
      DropSizes(s, s.queue[0]);
      var t := EvictOne(s);
      assert t.data == s.data - {s.queue[0]} && t.currentSize == Drop(s, s.queue[0]).currentSize;
      forall k | k in t.data
        ensures k in t.queue
      {
        assert k in s.queue && k != s.queue[0];
      }
    }
  }

  /** A cache that holds anything has something to evict. */
  lemma SomethingQueued(s: State)
    requires Sound(s) && s.currentSize > 0
    ensures s.queue != []
  {
    assert s.data == map[] ==> Sizes(s.data) == map[];
    assert s.data.Keys != {};
    var k :| k in s.data;
    assert k in s.queue;
  }

  /** Evicts until `size` more fits. */
  function EvictFor(s: State, size: nat, maxSize: nat): State
    decreases |s.queue|
  {
    if s.currentSize + size <= maxSize || s.queue == [] then s else EvictFor(EvictOne(s), size, maxSize)
  }

  /** Every entry of `small` is one of `large`. */
  ghost predicate Within(small: Entries, large: Entries) {
    forall k | k in small :: k in large && small[k] == large[k]
  }

  /** Eviction makes room, keeps the cache sound and only ever drops entries. */
  lemma {:induction false} EvictForMakesRoom(s: State, size: nat, maxSize: nat)
    requires Sound(s) && size <= maxSize
    ensures var t := EvictFor(s, size, maxSize);
            Sound(t) && t.currentSize + size <= maxSize && Within(t.data, s.data)
    decreases |s.queue|
  {
    hide Sound, EvictOne;
    if s.currentSize + size > maxSize {
      SomethingQueued(s);
      EvictOneSound(s);
      EvictOneShrinks(s);
      EvictForMakesRoom(EvictOne(s), size, maxSize);
    }
  }

  lemma EvictOneShrinks(s: State)
    requires s.queue != []
    ensures Within(EvictOne(s).data, s.data) && |EvictOne(s).queue| < |s.queue|
  {}

  function Keys(queue: seq<Key>): set<Key> {
    set k | k in queue
  }

  /** The first `n` of the queue are gone, with their entries, and `size` more fits,
      but did not before the last of them went. */
  ghost predicate JustRoom(s: State, n: nat, size: nat, maxSize: nat, t: State) {
    && n <= |s.queue| && t.queue == s.queue[n..] && t.data == s.data - Keys(s.queue[..n])
    && t.currentSize + size <= maxSize
    && (n > 0 ==> Sum(Sizes(s.data - Keys(s.queue[..n - 1]))) + size > maxSize)
  }

  /** Eviction goes along the queue and stops as soon as there is room. */
  lemma {:induction false} EvictForJustRoom(s: State, size: nat, maxSize: nat) returns (n: nat)
    requires Sound(s) && size <= maxSize
    ensures JustRoom(s, n, size, maxSize, EvictFor(s, size, maxSize))
    decreases |s.queue|
  {
    if s.currentSize + size <= maxSize {
      n := 0;
      NoneGone(s);
    } else {
      SomethingQueued(s);
      EvictOneSound(s);
      EvictOneShrinks(s);
      var m := EvictForJustRoom(EvictOne(s), size, maxSize);
      n := m + 1;
      OneMoreGone(s, m, size, maxSize, EvictFor(s, size, maxSize));
    }
  }

  lemma OneMoreGone(s: State, m: nat, size: nat, maxSize: nat, t: State)
    requires Sound(s) && s.queue != [] && s.currentSize + size > maxSize && JustRoom(EvictOne(s), m, size, maxSize, t)
    ensures JustRoom(s, m + 1, size, maxSize, t)
  {
    var next := EvictOne(s);
    EvictOneIs(s);
    FullSize(s);
    hide EvictOne, Sound, Sizes, Keys;
    FrontGone(s, m);
    if m > 0 {
      FrontGone(s, m - 1);
    } else {
      NoneGone(s);
    }
  }

  lemma FullSize(s: State)
    requires Sound(s)
    ensures Sum(Sizes(s.data)) == s.currentSize
  {}

  lemma NoneGone(s: State)
    ensures s.queue[..0] == [] && s.data - Keys(s.queue[..0]) == s.data && s.queue[0..] == s.queue
  {}

  lemma EvictOneIs(s: State)
    requires s.queue != []
    ensures EvictOne(s).queue == s.queue[1..] && EvictOne(s).data == s.data - {s.queue[0]}
  {}

  lemma FrontGone(s: State, m: nat)
    requires m < |s.queue|
    ensures s.queue[1..][m..] == s.queue[m + 1..]
    ensures s.data - {s.queue[0]} - Keys(s.queue[1..][..m]) == s.data - Keys(s.queue[..m + 1])
  {
    assert s.queue[..m + 1] == [s.queue[0]] + s.queue[1..][..m];
    assert Keys(s.queue[..m + 1]) == {s.queue[0]} + Keys(s.queue[1..][..m]);
  }

  /** Stores an entry that is not there yet. */
  function Insert(s: State, key: Key, value: Value): State {
    State(s.data[key := Entry(value, |value|, 1)], s.queue + [key], s.currentSize + |value|)
  }

  lemma InsertSound(s: State, key: Key, value: Value)
    requires Sound(s) && key !in s.data
    ensures Sound(Insert(s, key, value))
  {
    var t := Insert(s, key, value);
    SumUpdate(Sizes(s.data), key, |value|);
    assert Sizes(t.data) == Sizes(s.data)[key := |value|];
  }

  function PutState(s: State, key: Key, value: Value, maxSize: nat): State {
    if |value| > maxSize then s else Insert(EvictFor(Drop(s, key), |value|, maxSize), key, value)
  }

  /** The state after a put that fits: the old entry of the key goes, the front of the
      queue makes just enough room, and the new entry joins the back. */
  ghost predicate Replaced(s: State, n: nat, key: Key, value: Value, maxSize: nat, t: State)
    requires n <= |s.queue|
  {
    && t.data == (s.data - {key} - Keys(s.queue[..n]))[key := Entry(value, |value|, 1)]
    && t.queue == s.queue[n..] + [key] && t.currentSize <= maxSize
    && (n > 0 ==> Sum(Sizes(s.data - {key} - Keys(s.queue[..n - 1]))) + |value| > maxSize)
  }

  lemma ReplacedIs(s: State, n: nat, key: Key, value: Value, maxSize: nat)
    requires |value| <= maxSize && JustRoom(Drop(s, key), n, |value|, maxSize, EvictFor(Drop(s, key), |value|, maxSize))
    ensures n <= |s.queue| && Replaced(s, n, key, value, maxSize, PutState(s, key, value, maxSize))
  {
    hide EvictFor;
    assert Drop(s, key).data == s.data - {key} && Drop(s, key).queue == s.queue;
  }

  /** Putting a value that fits caches it, keeps the bound, and may drop others;
      a value that does not fit changes nothing, not even an old entry of the key. */
  lemma PutKeeps(s: State, key: Key, value: Value, maxSize: nat)
    requires Sound(s) && s.currentSize <= maxSize
    ensures var t := PutState(s, key, value, maxSize);
            && Sound(t) && t.currentSize <= maxSize
            && Within(t.data - {key}, s.data)
            && (|value| <= maxSize ==> key in t.data && t.data[key].value == value)
            && (|value| > maxSize ==> t == s)
  {
    hide Sound, EvictFor;
    if |value| <= maxSize {
      var dropped := Drop(s, key);
      DropSound(s, key);
      EvictForMakesRoom(dropped, |value|, maxSize);
      InsertSound(EvictFor(dropped, |value|, maxSize), key, value);
    }
  }

  /** A hit counts the access and moves the key to the back of the queue. */
  function GetState(s: State, key: Key): State {
    if key !in s.data then s
    else
      var entry := s.data[key];
      s.(data := s.data[key := entry.(accessCount := entry.accessCount + 1)], queue := Retain(s.queue, key) + [key])
  }

  lemma GetKeeps(s: State, key: Key)
    requires Sound(s)
    ensures var t := GetState(s, key);
            Sound(t) && Contents(t.data) == Contents(s.data) && t.currentSize == s.currentSize
  {
    assert Sizes(GetState(s, key).data) == Sizes(s.data);
  }

  function RemoveState(s: State, key: Key): State {
    if key in s.data then Drop(s, key).(queue := Retain(s.queue, key)) else s
  }

  lemma RemoveKeeps(s: State, key: Key)
    requires Sound(s)
    ensures var t := RemoveState(s, key);
            Sound(t) && t.data == s.data - {key} && t.currentSize <= s.currentSize
  {
    DropSound(s, key);
    DropSizes(s, key);
  }

  ghost function ColdState(s: State, cold: set<Key>): State {
    var data := s.data - cold;
    State(data, RetainOut(s.queue, s.data.Keys * cold), Sum(Sizes(data)))
  }

  lemma ColdKeeps(s: State, cold: set<Key>)
    requires Sound(s)
    ensures Sound(ColdState(s, cold)) && Within(ColdState(s, cold).data, s.data)
    ensures ColdState(s, cold).currentSize <= s.currentSize
  {
    SumLess(Sizes(s.data - cold), Sizes(s.data));
  }

  lemma EvictForStep(s: State, size: nat, maxSize: nat)
    requires s.currentSize + size > maxSize && s.queue != []
    ensures EvictFor(s, size, maxSize) == EvictFor(EvictOne(s), size, maxSize)
  {}

  lemma EvictForDone(s: State, size: nat, maxSize: nat)
    requires s.currentSize + size <= maxSize
    ensures EvictFor(s, size, maxSize) == s
  {}

  lemma InsertIs(s: State, key: Key, value: Value)
    ensures Insert(s, key, value) == State(s.data[key := Entry(value, |value|, 1)], s.queue + [key], s.currentSize + |value|)
  {}

  lemma CountsGone(counts: map<Key, nat>, a: set<Key>, b: set<Key>, c: set<Key>)
    requires c <= b <= a
    ensures counts - (a - b) - (b - c) == counts - (a - c)
  {}

  class Cache {
    var data: Entries
    var lruQueue: seq<Key>
    var currentSize: nat
    var accessCount: map<Key, nat>
    const maxSize: nat

    ghost predicate Valid()
      reads this
    {
      Sound(Abs()) && currentSize <= maxSize
    }

    ghost function Abs(): State
      reads this
    {
      State(data, lruQueue, currentSize)
    }

    constructor (maxSize: nat)
      ensures Valid() && data == map[] && this.maxSize == maxSize
    {
      this.maxSize := maxSize;
      data, lruQueue, currentSize, accessCount := map[], [], 0, map[];
      new;
      assert Sizes(data) == map[];
    }

    /** `get` */
    method Get(key: Key) returns (r: Option<Value>)
      requires Valid()
      modifies this
      ensures Valid() && Abs() == GetState(old(Abs()), key)
      ensures r == Lookup(old(Contents(data)), key) && Contents(data) == old(Contents(data))
      ensures key !in old(data) ==> data == old(data) && lruQueue == old(lruQueue) && accessCount == old(accessCount)
      ensures key in old(data) ==>
                && data == old(data)[key := old(data[key]).(accessCount := old(data[key]).accessCount + 1)]
                && lruQueue == Retain(old(lruQueue), key) + [key]
                && accessCount == old(accessCount)[key := 1 + if key in old(accessCount) then old(accessCount)[key] else 0]
    {
      hide Sound, Retain;
      GetKeeps(Abs(), key);
      if key !in data {
        return None;
      }
      var entry := data[key];
      data := data[key := entry.(accessCount := entry.accessCount + 1)];
      lruQueue := Retain(lruQueue, key);
      lruQueue := lruQueue + [key];
      accessCount := accessCount[key := (if key in accessCount then accessCount[key] else 0) + 1];
      return Some(entry.value);
    }

    /** `put`; the eviction loop ends because each turn shortens the queue and
        an over-full cache is never off the queue. */
    method Put(key: Key, value: Value)
      requires Valid()
      modifies this
      ensures Valid() && Abs() == PutState(old(Abs()), key, value, maxSize)
      ensures accessCount == old(accessCount) - (old(data).Keys - data.Keys)
      ensures |value| > maxSize ==> Abs() == old(Abs())
      ensures |value| <= maxSize ==>
                exists n: nat :: n <= |old(lruQueue)| && Replaced(old(Abs()), n, key, value, maxSize, Abs())
    {
      hide Sound, EvictFor, EvictOne, JustRoom, Replaced, Sizes, Insert;
      PutKeeps(Abs(), key, value, maxSize);
      var size := |value|;
      if size > maxSize {
        return;
      }
      DropSound(Abs(), key);
      DropSizes(Abs(), key);
      if key in data {
        currentSize := currentSize - data[key].size;
        data := data - {key};
      }
      ghost var goal := EvictFor(Abs(), size, maxSize);
      ghost var n := EvictForJustRoom(Abs(), size, maxSize);
      ghost var before := Abs();
      assert before == Drop(old(Abs()), key);
      assert before.data == old(data) - {key} && accessCount == old(accessCount) - (before.data.Keys - data.Keys);
      while currentSize + size > maxSize
        invariant Sound(Abs()) && EvictFor(Abs(), size, maxSize) == goal
        invariant data.Keys <= before.data.Keys
        invariant accessCount == old(accessCount) - (before.data.Keys - data.Keys)
        decreases |lruQueue|
      {
        SomethingQueued(Abs());
        EvictForStep(Abs(), size, maxSize);
        ghost var keys := data.Keys;
        EvictOnce();
        CountsGone(old(accessCount), before.data.Keys, keys, data.Keys);
      }
      EvictForDone(Abs(), size, maxSize);
      InsertSound(Abs(), key, value);
      InsertIs(Abs(), key, value);
      data := data[key := Entry(value, size, 1)];
      currentSize := currentSize + size;
      lruQueue := lruQueue + [key];
      ReplacedIs(old(Abs()), n, key, value, maxSize);
      assert before.data.Keys - goal.data.Keys == old(data).Keys - data.Keys;
    }

    /** `evict_one` */
    method EvictOnce()
      requires Sound(Abs())
      modifies this
      ensures Abs() == EvictOne(old(Abs())) && Sound(Abs())
      ensures old(lruQueue) == [] ==> Abs() == old(Abs())
      ensures old(lruQueue) != [] ==> lruQueue == old(lruQueue)[1..] && data == old(data) - {old(lruQueue)[0]}
      ensures accessCount == old(accessCount) - (old(data).Keys - data.Keys)
    {
      EvictOneSound(Abs());
      if lruQueue != [] {
        var key := lruQueue[0];
        DropSizes(Abs(), key);
        lruQueue := lruQueue[1..];
        if key in data {
          currentSize := currentSize - data[key].size;
          data := data - {key};
          accessCount := accessCount - {key};
        }
      }
    }

    /** `remove` */
    method Remove(key: Key)
      requires Valid()
      modifies this
      ensures Valid() && Abs() == RemoveState(old(Abs()), key) && data == old(data) - {key}
      ensures lruQueue == if key in old(data) then Retain(old(lruQueue), key) else old(lruQueue)
      ensures accessCount == old(accessCount) - (old(data).Keys - data.Keys)
    {
      RemoveKeeps(Abs(), key);
      DropSizes(Abs(), key);
      if key in data {
        currentSize := currentSize - data[key].size;
        data := data - {key};
        lruQueue := Retain(lruQueue, key);
        accessCount := accessCount - {key};
      }
    }

    /** `evict_cold_entries`: drops the entries found cold, in any order. */
    method EvictColdEntries(cold: set<Key>)
      requires Valid()
      modifies this
      ensures Valid() && Abs() == ColdState(old(Abs()), cold)
      ensures data == old(data) - cold && lruQueue == RetainOut(old(lruQueue), old(data).Keys * cold)
      ensures accessCount == old(accessCount) - (old(data).Keys - data.Keys)
    {
      hide RetainOut;
      ghost var s := Abs();
      RetainNone(lruQueue);
      var toRemove := set k | k in data && k in cold;
      ghost var removed: set<Key> := {};
      while toRemove != {}
        invariant Valid() && removed !! toRemove && removed + toRemove == s.data.Keys * cold
        invariant data == s.data - removed && lruQueue == RetainOut(s.queue, removed)
        invariant accessCount == old(accessCount) - removed
        decreases toRemove
      {
        var key :| key in toRemove;
        RetainTwice(s.queue, removed, key);
        Remove(key);
        toRemove := toRemove - {key};
        removed := removed + {key};
      }
      assert removed == s.data.Keys * cold;
      assert data == s.data - cold;
    }
  }
}
