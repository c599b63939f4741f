/**
 * When the cache's eviction queue is a recency order (storage/cache.rs).
 */
module CacheRecency {
  import opened Common
  import opened MemoryCache

  /** A cache with the time of the last use of each key. */
  datatype Clocked = Clocked(s: State, lastUse: map<Key, nat>, now: nat)

  datatype Use = Got(key: Key) | Stored(key: Key, value: Value) | Removed(key: Key)

  /** A hit and a put that fits are uses of the key. */
  function Next(c: Clocked, use: Use, maxSize: nat): Clocked {
    match use
    case Got(key) =>
      Clocked(GetState(c.s, key), if key in c.s.data then c.lastUse[key := c.now] else c.lastUse, c.now + 1)
    case Stored(key, value) =>
      Clocked(PutState(c.s, key, value, maxSize),
              if |value| <= maxSize then c.lastUse[key := c.now] else c.lastUse, c.now + 1)
    case Removed(key) => Clocked(RemoveState(c.s, key), c.lastUse, c.now + 1)
  }

  ghost predicate Dated(c: Clocked) {
    forall k | k in c.s.queue :: k in c.lastUse && c.lastUse[k] < c.now
  }

  ghost predicate Ordered(queue: seq<Key>, lastUse: map<Key, nat>)
    requires forall k | k in queue :: k in lastUse
  {
    forall i, j | 0 <= i < j < |queue| :: lastUse[queue[i]] < lastUse[queue[j]]
  }

  /** The queue lists the cached keys, each once, the least recently used first. */
  ghost predicate ByLastUse(c: Clocked) {
    && (forall k :: k in c.s.queue <==> k in c.s.data)
    && Dated(c) && Ordered(c.s.queue, c.lastUse)
  }

  /** Then eviction takes the least recently used entry. */
  lemma EvictsLeastRecent(c: Clocked)
    requires ByLastUse(c) && c.s.data != map[]
    ensures c.s.queue != [] && c.s.queue[0] in c.s.data
    ensures EvictOne(c.s).data == c.s.data - {c.s.queue[0]}
    ensures forall k | k in c.s.data :: c.lastUse[c.s.queue[0]] <= c.lastUse[k]
  {
    var x :| x in c.s.data;
    assert x in c.s.queue && c.s.queue[0] in c.s.queue;
    forall k | k in c.s.data
      ensures c.lastUse[c.s.queue[0]] <= c.lastUse[k]
    {
      var i :| 0 <= i < |c.s.queue| && c.s.queue[i] == k;
    }
  }

  lemma {:induction false} RetainOrdered(queue: seq<Key>, lastUse: map<Key, nat>, out: set<Key>)
    requires (forall k | k in queue :: k in lastUse) && Ordered(queue, lastUse)
    ensures Ordered(RetainOut(queue, out), lastUse)
  {
    if queue != [] {
      var rest := RetainOut(queue[1..], out);
      assert forall k | k in queue[1..] :: k in queue;
      assert Ordered(queue[1..], lastUse) by {
        assert forall i | 0 <= i < |queue| - 1 :: queue[1..][i] == queue[i + 1];
      }
      RetainOrdered(queue[1..], lastUse, out);
      forall k | k in rest
        ensures lastUse[queue[0]] < lastUse[k]
      {
        var i :| 0 <= i < |queue[1..]| && queue[1..][i] == k;
        assert queue[i + 1] == k;
      }
      assert forall i | 0 <= i < |rest| :: rest[i] in rest;
    }
  }

  /** Moving a key to the back, or adding it there, as the latest use. */
  lemma LatestAtBack(queue: seq<Key>, lastUse: map<Key, nat>, key: Key, now: nat)
    requires (forall k | k in queue :: k in lastUse && lastUse[k] < now) && Ordered(queue, lastUse) && key !in queue
    ensures Ordered(queue + [key], lastUse[key := now])
  {
    var longer, later := queue + [key], lastUse[key := now];
    forall i, j | 0 <= i < j < |longer|
      ensures later[longer[i]] < later[longer[j]]
    {
      assert longer[i] == queue[i] && queue[i] in queue;
      if j < |queue| {
        assert queue[j] in queue;
      }
    }
  }

  lemma GotKeeps(c: Clocked, key: Key, maxSize: nat)
    requires ByLastUse(c)
    ensures ByLastUse(Next(c, Got(key), maxSize))
  {
    if key in c.s.data {
      RetainOrdered(c.s.queue, c.lastUse, {key});
      LatestAtBack(Retain(c.s.queue, key), c.lastUse, key, c.now);
    }
  }

  lemma RemovedKeeps(c: Clocked, key: Key, maxSize: nat)
    requires ByLastUse(c)
    ensures ByLastUse(Next(c, Removed(key), maxSize))
  {
    if key in c.s.data {
      RetainOrdered(c.s.queue, c.lastUse, {key});
    }
  }

  /** The queue after making room is the rest of the queue before, and what is
      cached is what is on it, but for the key about to be put. */
  lemma {:induction false} RoomIsRest(s: State, key: Key, lastUse: map<Key, nat>, size: nat, maxSize: nat)
    requires (forall k | k in s.queue :: k in lastUse) && Ordered(s.queue, lastUse)
    requires forall k :: k in s.data <==> k in s.queue && k != key
    ensures var t := EvictFor(s, size, maxSize);
            && (forall k | k in t.queue :: k in s.queue) && Ordered(t.queue, lastUse)
            && forall k :: k in t.data <==> k in t.queue && k != key
    decreases |s.queue|
  {
    if s.currentSize + size > maxSize && s.queue != [] {
      var next := EvictOne(s);
      assert next.queue == s.queue[1..];
      assert forall i | 0 <= i < |s.queue| - 1 :: s.queue[1..][i] == s.queue[i + 1];
      assert forall k | k in next.queue :: k in s.queue;
      forall k
        ensures k in next.data <==> k in next.queue && k != key
      {
        assert k in s.queue <==> k == s.queue[0] || k in s.queue[1..];
        assert s.queue[0] !in s.queue[1..];
      }
      RoomIsRest(next, key, lastUse, size, maxSize);
    }
  }

  /** A put that fits keeps the recency order exactly when the key is no longer
      queued once room has been made for it. */
  lemma StoredKeepsIff(c: Clocked, key: Key, value: Value, maxSize: nat)
    requires ByLastUse(c) && |value| <= maxSize
    ensures ByLastUse(Next(c, Stored(key, value), maxSize)) <==>
            key !in EvictFor(Drop(c.s, key), |value|, maxSize).queue
  {
    hide EvictFor;
    var room := EvictFor(Drop(c.s, key), |value|, maxSize);
    RoomIsRest(Drop(c.s, key), key, c.lastUse, |value|, maxSize);
    var after := Next(c, Stored(key, value), maxSize);
    assert after.s.queue == room.queue + [key];
    if key in room.queue {
      var i :| 0 <= i < |room.queue| && room.queue[i] == key;
      assert after.s.queue[i] == key == after.s.queue[|room.queue|];
    } else {
      LatestAtBack(room.queue, c.lastUse, key, c.now);
    }
  }

  /** A put of a key that is not cached always keeps it. */
  lemma NewKeyKeeps(c: Clocked, key: Key, value: Value, maxSize: nat)
    requires ByLastUse(c) && key !in c.s.data
    ensures ByLastUse(Next(c, Stored(key, value), maxSize))
  {
    if |value| <= maxSize {
      StoredKeepsIff(c, key, value, maxSize);
      RoomIsRest(Drop(c.s, key), key, c.lastUse, |value|, maxSize);
    }
  }

  // ----- runs -----

  /** At every point of the run the queue is a recency order. */
  ghost predicate AlwaysByLastUse(c: Clocked, uses: seq<Use>, maxSize: nat)
    decreases |uses|
  {
    ByLastUse(c) && (uses != [] ==> AlwaysByLastUse(Next(c, uses[0], maxSize), uses[1..], maxSize))
  }

  /** No put that fits finds its key still queued once room has been made. */
  predicate NoneStillQueued(c: Clocked, uses: seq<Use>, maxSize: nat)
    decreases |uses|
  {
    uses != [] ==>
      && (uses[0].Stored? && |uses[0].value| <= maxSize ==>
            uses[0].key !in EvictFor(Drop(c.s, uses[0].key), |uses[0].value|, maxSize).queue)
      && NoneStillQueued(Next(c, uses[0], maxSize), uses[1..], maxSize)
  }

  const FRESH := Clocked(State(map[], [], 0), map[], 0)

  lemma FreshByLastUse()
    ensures ByLastUse(FRESH)
  {}

  /** Over every run of gets, puts and removes the queue stays a recency order
      exactly when no put hits a key that is still queued. */
  lemma {:induction false} RecencyIff(c: Clocked, uses: seq<Use>, maxSize: nat)
    requires ByLastUse(c)
    ensures AlwaysByLastUse(c, uses, maxSize) <==> NoneStillQueued(c, uses, maxSize)
    decreases |uses|
  {
    hide ByLastUse, Next, EvictFor;
    if uses != [] {
      var next := Next(c, uses[0], maxSize);
      match uses[0] {
        case Got(key) => GotKeeps(c, key, maxSize);
        case Removed(key) => RemovedKeeps(c, key, maxSize);
        case Stored(key, value) =>
          if |value| <= maxSize {
            StoredKeepsIff(c, key, value, maxSize);
          } else {
            OversizeKeeps(c, key, value, maxSize);
          }
      }
      if ByLastUse(next) {
        RecencyIff(next, uses[1..], maxSize);
      }
    }
  }

  lemma OversizeKeeps(c: Clocked, key: Key, value: Value, maxSize: nat)
    requires ByLastUse(c) && |value| > maxSize
    ensures ByLastUse(Next(c, Stored(key, value), maxSize))
  {}

  // ----- what goes wrong otherwise -----

  lemma {:induction false} EvictOnlyDrops(s: State, size: nat, maxSize: nat)
    ensures Within(EvictFor(s, size, maxSize).data, s.data)
    decreases |s.queue|
  {
    if !(s.currentSize + size <= maxSize || s.queue == []) {
      EvictOneShrinks(s);
      EvictOnlyDrops(EvictOne(s), size, maxSize);
    }
  }

  /** When the key at the front is put again without eviction, it is the most
      recently used one and yet the next to be evicted. */
  lemma ReputKeyGoesFirst(c: Clocked, key: Key, value: Value, other: Key, otherValue: Value, maxSize: nat)
    requires ByLastUse(c) && c.s.queue != [] && c.s.queue[0] == key != other && other !in c.s.data
    requires Drop(c.s, key).currentSize + |value| <= maxSize
    requires |otherValue| <= maxSize < Drop(c.s, key).currentSize + |value| + |otherValue|
    ensures var again := Next(c, Stored(key, value), maxSize);
            && !ByLastUse(again) && key in again.s.data
            && (forall k | k in again.s.data && k != key :: k in again.lastUse && again.lastUse[k] < again.lastUse[key])
            && key !in Next(again, Stored(other, otherValue), maxSize).s.data
  {
    var again := Next(c, Stored(key, value), maxSize);
    assert key in Drop(c.s, key).queue;
    StoredKeepsIff(c, key, value, maxSize);
    assert again.s == Insert(Drop(c.s, key), key, value);
    forall k | k in again.s.data && k != key
      ensures k in again.lastUse && again.lastUse[k] < again.lastUse[key]
    {
      assert k in c.s.queue;
    }
    assert Drop(again.s, other) == again.s;
    assert again.s.queue[0] == key;
    var evicted := EvictOne(again.s);
    assert key !in evicted.data;
    EvictOnlyDrops(evicted, |otherValue|, maxSize);
  }
}
