/**
 * State snapshots and deltas (storage/snapshot.rs). Maps are visited in an
 * arbitrary order; timestamps, size estimates and proofs are left out, and a
 * download returns what the peer made.
 */
module Snapshot {
  import opened Common

  type Address = nat
  type Hash = nat

  const ZERO_HASH: Hash := 0

  datatype Account = Account(nonce: nat, balance: nat, storageRoot: Hash, codeHash: Option<Hash>)

  datatype StateData = StateData(
    root: Hash,
    accounts: map<Address, Account>,
    storage: map<(Address, Hash), Hash>,
    code: map<Hash, seq<byte>>)

  datatype Change =
    | AccountCreated(address: Address, account: Account)
    | AccountUpdated(address: Address, oldAccount: Account, newAccount: Account)
    | AccountDeleted(address: Address)
    | StorageUpdated(address: Address, key: Hash, oldValue: Hash, newValue: Hash)
    | CodeDeployed(address: Address, codeHash: Hash, code: seq<byte>)

  datatype Delta = Delta(fromHeight: nat, toHeight: nat, changes: seq<Change>)

  // ---- applying ----

  function Apply(s: StateData, ch: Change): StateData {
    match ch
    case AccountCreated(a, account) => s.(accounts := s.accounts[a := account])
    case AccountUpdated(a, _, account) => s.(accounts := s.accounts[a := account])
    case AccountDeleted(a) => s.(accounts := s.accounts - {a})
    case StorageUpdated(a, k, _, v) => s.(storage := s.storage[(a, k) := v])
    case CodeDeployed(_, h, code) => s.(code := s.code[h := code])
  }

  function ApplyAll(s: StateData, changes: seq<Change>): StateData {
    if changes == [] then s else Apply(ApplyAll(s, changes[..|changes| - 1]), changes[|changes| - 1])
  }

  /** What a change is about. */
  datatype Place = AccountAt(a: Address) | SlotAt(slot: (Address, Hash)) | CodeOf(h: Hash)

  function PlaceOf(ch: Change): Place {
    match ch
    case StorageUpdated(a, k, _, _) => SlotAt((a, k))
    case CodeDeployed(_, h, _) => CodeOf(h)
    case _ => AccountAt(ch.address)
  }

  ghost predicate Mentions(changes: seq<Change>, p: Place) {
    exists ch :: ch in changes && PlaceOf(ch) == p
  }

  ghost predicate OnceEach(changes: seq<Change>) {
    forall i, j | 0 <= i < j < |changes| :: PlaceOf(changes[i]) != PlaceOf(changes[j])
  }

  lemma OnceEachSnoc(changes: seq<Change>, ch: Change)
    requires OnceEach(changes) && !Mentions(changes, PlaceOf(ch))
    ensures OnceEach(changes + [ch])
  {
    assert forall i | 0 <= i < |changes| :: changes[i] in changes;
  }

  lemma OnceEachConcat(a: seq<Change>, b: seq<Change>)
    requires OnceEach(a) && OnceEach(b) && forall x, y | x in a && y in b :: PlaceOf(x) != PlaceOf(y)
    ensures OnceEach(a + b)
  {
    assert (forall i | 0 <= i < |a| :: a[i] in a) && forall i | 0 <= i < |b| :: b[i] in b;
  }

  // ---- what a delta should hold ----

  function AccountChange(was: StateData, now: StateData, a: Address): Option<Change> {
    if a in now.accounts then
      if a !in was.accounts then Some(AccountCreated(a, now.accounts[a]))
      else if was.accounts[a] != now.accounts[a] then Some(AccountUpdated(a, was.accounts[a], now.accounts[a]))
      else None
    else if a in was.accounts then Some(AccountDeleted(a))
    else None
  }

  function StorageChange(was: StateData, now: StateData, slot: (Address, Hash)): Option<Change> {
    if slot !in now.storage then None
    else if slot !in was.storage then Some(StorageUpdated(slot.0, slot.1, ZERO_HASH, now.storage[slot]))
    else if was.storage[slot] != now.storage[slot] then
      Some(StorageUpdated(slot.0, slot.1, was.storage[slot], now.storage[slot]))
    else None
  }

  predicate NewCode(was: StateData, now: StateData, h: Hash) {
    h in now.code && h !in was.code
  }

  /** `a` is an account of `s` that runs the code with hash `h`. */
  predicate Runs(s: StateData, a: Address, h: Hash) {
    a in s.accounts && s.accounts[a].codeHash == Some(h)
  }

  ghost predicate Referenced(s: StateData, h: Hash) {
    exists a :: Runs(s, a, h)
  }

  /** The change records a difference between the two states. */
  predicate Accurate(was: StateData, now: StateData, ch: Change) {
    match ch
    case StorageUpdated(a, k, _, _) => StorageChange(was, now, (a, k)) == Some(ch)
    case CodeDeployed(a, h, code) => NewCode(was, now, h) && Runs(now, a, h) && code == now.code[h]
    case _ => AccountChange(was, now, ch.address) == Some(ch)
  }

  ghost predicate Deploys(changes: seq<Change>, h: Hash) {
    exists ch :: ch in changes && ch.CodeDeployed? && ch.codeHash == h
  }

  ghost predicate AllAccurate(was: StateData, now: StateData, changes: seq<Change>) {
    forall ch | ch in changes :: Accurate(was, now, ch)
  }

  ghost predicate CoversAccounts(was: StateData, now: StateData, changes: seq<Change>) {
    forall a | AccountChange(was, now, a).Some? :: AccountChange(was, now, a).value in changes
  }

  ghost predicate CoversStorage(was: StateData, now: StateData, changes: seq<Change>) {
    forall slot | StorageChange(was, now, slot).Some? :: StorageChange(was, now, slot).value in changes
  }

  ghost predicate CoversCode(was: StateData, now: StateData, changes: seq<Change>) {
    forall h | NewCode(was, now, h) && Referenced(now, h) :: Deploys(changes, h)
  }

  /** Exactly the differences, in any order. */
  ghost predicate Describes(was: StateData, now: StateData, changes: seq<Change>) {
    && AllAccurate(was, now, changes) && CoversAccounts(was, now, changes)
    && CoversStorage(was, now, changes) && CoversCode(was, now, changes)
  }

  /** What applying a delta from `was` to `now` can make of `was`. */
  ghost function Merged(was: StateData, now: StateData): StateData {
    StateData(was.root, now.accounts, was.storage + now.storage,
              was.code + map h | h in now.code && NewCode(was, now, h) && Referenced(now, h) :: now.code[h])
  }

  /** How far the changes so far have taken the state `base`: each part is old or
      new by entry. */
  ghost predicate Between(was: StateData, now: StateData, base: StateData, changes: seq<Change>, s: StateData) {
    && s.root == base.root
    && (forall a :: Lookup(s.accounts, a) == if Touches(was, now, changes, a) then Lookup(now.accounts, a) else Lookup(base.accounts, a))
    && (forall slot :: Lookup(s.storage, slot) ==
            if Writes(was, now, changes, slot) then Lookup(now.storage, slot) else Lookup(base.storage, slot))
    && (forall h :: Lookup(s.code, h) == if Deploys(changes, h) then Lookup(now.code, h) else Lookup(base.code, h))
  }

  ghost predicate Touches(was: StateData, now: StateData, changes: seq<Change>, a: Address) {
    AccountChange(was, now, a).Some? && AccountChange(was, now, a).value in changes
  }

  ghost predicate Writes(was: StateData, now: StateData, changes: seq<Change>, slot: (Address, Hash)) {
    StorageChange(was, now, slot).Some? && StorageChange(was, now, slot).value in changes
  }

  lemma {:induction false} ApplyAllBetween(was: StateData, now: StateData, base: StateData, changes: seq<Change>)
    requires AllAccurate(was, now, changes)
    ensures Between(was, now, base, changes, ApplyAll(base, changes))
  {
    if changes != [] {
      var front, ch := changes[..|changes| - 1], changes[|changes| - 1];
      ApplyAllBetween(was, now, base, front);
      ApplyOneBetween(was, now, base, front, ch, ApplyAll(base, front));
      assert changes == front + [ch];
    }
  }

  lemma ApplyOneBetween(was: StateData, now: StateData, base: StateData, front: seq<Change>, ch: Change, s: StateData)
    requires Between(was, now, base, front, s) && Accurate(was, now, ch)
    ensures Between(was, now, base, front + [ch], Apply(s, ch))
  {
    var changes, t := front + [ch], Apply(s, ch);
    forall a
      ensures Touches(was, now, changes, a) <==> Touches(was, now, front, a) || AccountChange(was, now, a) == Some(ch)
    {}
    forall slot
      ensures Writes(was, now, changes, slot) <==> Writes(was, now, front, slot) || StorageChange(was, now, slot) == Some(ch)
    {}
    forall h
      ensures Deploys(changes, h) <==> Deploys(front, h) || (ch.CodeDeployed? && ch.codeHash == h)
    {
      DeploysNext(front, ch, h);
    }
  }

  lemma DeploysNext(front: seq<Change>, ch: Change, h: Hash)
    ensures Deploys(front + [ch], h) <==> Deploys(front, h) || (ch.CodeDeployed? && ch.codeHash == h)
  {
    var changes := front + [ch];
    if Deploys(changes, h) {
      var x :| x in changes && x.CodeDeployed? && x.codeHash == h;
      assert x in front || x == ch;
    }
    if Deploys(front, h) {
      var x :| x in front && x.CodeDeployed? && x.codeHash == h;
      assert x in changes;
    }
    if ch.CodeDeployed? && ch.codeHash == h {
      assert ch in changes;
    }
  }

  /** Applying exactly the differences, in any order and with any repetition,
      gives the new accounts, the old storage overridden by the new, and the old
      code plus the new code some account refers to. */
  lemma AppliedIsMerged(was: StateData, now: StateData, changes: seq<Change>)
    requires Describes(was, now, changes)
    ensures ApplyAll(was, changes) == Merged(was, now)
  {
    ApplyAllBetween(was, now, was, changes);
    var s, m := ApplyAll(was, changes), Merged(was, now);
    forall a
      ensures Lookup(s.accounts, a) == Lookup(m.accounts, a)
    {}
    SameMap(s.accounts, m.accounts);
    forall slot
      ensures Lookup(s.storage, slot) == Lookup(m.storage, slot)
    {}
    SameMap(s.storage, m.storage);
    forall h
      ensures Lookup(s.code, h) == Lookup(m.code, h)
    {
      if Deploys(changes, h) {
        var ch :| ch in changes && ch.CodeDeployed? && ch.codeHash == h;
        assert Accurate(was, now, ch) && Runs(now, ch.address, h);
      }
    }
    SameMap(s.code, m.code);
  }

  lemma SameMap<K, V>(a: map<K, V>, b: map<K, V>)
    requires forall k :: Lookup(a, k) == Lookup(b, k)
    ensures a == b
  {
    forall k
      ensures k in a <==> k in b
      ensures k in a ==> a[k] == b[k]
    {
      assert Lookup(a, k) == Lookup(b, k);
    }
  }

  /** Storage and code only grow, and all new code is referred to. */
  ghost predicate Grows(was: StateData, now: StateData) {
    && was.storage.Keys <= now.storage.Keys
    && (forall h | h in was.code :: h in now.code && now.code[h] == was.code[h])
    && (forall h | NewCode(was, now, h) :: Referenced(now, h))
  }

  /** A delta reproduces the new state, all but the root, exactly when storage
      and code only grow and all new code is referred to. */
  lemma DeltaReproducesIff(was: StateData, now: StateData)
    ensures Merged(was, now) == now.(root := was.root) <==> Grows(was, now)
  {
    var m := Merged(was, now);
    if Grows(was, now) {
      assert m.storage == now.storage;
      assert m.code == now.code;
    }
    if m == now.(root := was.root) {
      assert m.storage.Keys == was.storage.Keys + now.storage.Keys;
      forall h | h in was.code
        ensures h in now.code && now.code[h] == was.code[h]
      {
        assert m.code[h] == was.code[h];
      }
      forall h | NewCode(was, now, h)
        ensures Referenced(now, h)
      {
        assert h in m.code;
      }
    }
  }

  // ---- chains of deltas ----

  ghost predicate Chain(states: seq<StateData>, deltas: seq<Delta>) {
    && |states| == |deltas| + 1
    && forall i | 0 <= i < |deltas| :: Describes(states[i], states[i + 1], deltas[i].changes)
  }

  function Replay(s: StateData, deltas: seq<Delta>): StateData {
    if deltas == [] then s else ApplyAll(Replay(s, deltas[..|deltas| - 1]), deltas[|deltas| - 1].changes)
  }

  /** What a delta makes of any state: it brings in the new state's accounts that
      changed, its slots that changed and its new code some account refers to. */
  lemma AppliedElsewhere(was: StateData, now: StateData, base: StateData, changes: seq<Change>)
    requires Describes(was, now, changes)
    ensures var s := ApplyAll(base, changes);
            && s.root == base.root
            && (base.accounts == was.accounts ==> s.accounts == now.accounts)
            && (forall slot :: Lookup(s.storage, slot) ==
                    if StorageChange(was, now, slot).Some? then Lookup(now.storage, slot) else Lookup(base.storage, slot))
            && (forall h :: Lookup(s.code, h) ==
                    if NewCode(was, now, h) && Referenced(now, h) then Lookup(now.code, h) else Lookup(base.code, h))
  {
    ApplyAllBetween(was, now, base, changes);
    var s := ApplyAll(base, changes);
    if base.accounts == was.accounts {
      forall a
        ensures Lookup(s.accounts, a) == Lookup(now.accounts, a)
      {}
      SameMap(s.accounts, now.accounts);
    }
    forall h
      ensures Deploys(changes, h) <==> NewCode(was, now, h) && Referenced(now, h)
    {
      if Deploys(changes, h) {
        var ch :| ch in changes && ch.CodeDeployed? && ch.codeHash == h;
        assert Accurate(was, now, ch) && Runs(now, ch.address, h);
      }
    }
  }

  /** Code with this hash is there at the start, or comes in with an account that
      refers to it. */
  ghost predicate Arrives(states: seq<StateData>, h: Hash, i: nat)
    requires i < |states|
  {
    if i == 0 then h in states[0].code
    else NewCode(states[i - 1], states[i], h) && Referenced(states[i], h)
  }

  ghost predicate LastArrives(states: seq<StateData>, h: Hash, i: nat)
    requires i < |states|
  {
    Arrives(states, h, i) && h in states[i].code && forall j | i < j < |states| :: !Arrives(states, h, j)
  }

  /** What a replay holds: the last state's accounts and slots, every slot there ever
      was, and for each code hash the code that came in last. */
  ghost predicate Replayed(states: seq<StateData>, s: StateData)
    requires states != []
  {
    var last := states[|states| - 1];
    && s.root == states[0].root && s.accounts == last.accounts
    && (forall slot | slot in last.storage :: slot in s.storage && s.storage[slot] == last.storage[slot])
    && (forall slot :: slot in s.storage <==> exists i :: 0 <= i < |states| && slot in states[i].storage)
    && (forall h, i | 0 <= i < |states| && LastArrives(states, h, i) :: Lookup(s.code, h) == Some(states[i].code[h]))
    && (forall h | h in s.code :: exists i :: 0 <= i < |states| && LastArrives(states, h, i))
  }

  lemma {:induction false} ReplayHolds(states: seq<StateData>, deltas: seq<Delta>)
    requires Chain(states, deltas)
    ensures Replayed(states, Replay(states[0], deltas))
  {
    if deltas != [] {
      var n := |deltas| - 1;
      assert states == states[..n + 1] + [states[n + 1]] && states[..n + 1][0] == states[0];
      ReplayHolds(states[..n + 1], deltas[..n]);
      var base := Replay(states[0], deltas[..n]);
      AppliedElsewhere(states[n], states[n + 1], base, deltas[n].changes);
      ReplayStep(states[..n + 1], base, states[n + 1], ApplyAll(base, deltas[n].changes));
    } else {
      assert forall h | h in states[0].code :: LastArrives(states, h, 0);
    }
  }

  /** One more state of the chain, and what its delta makes of the replay so far. */
  lemma ReplayStep(states: seq<StateData>, base: StateData, now: StateData, s: StateData)
    requires states != [] && Replayed(states, base) && s.root == base.root && s.accounts == now.accounts
    requires var was := states[|states| - 1];
             && (forall slot :: Lookup(s.storage, slot) ==
                     if StorageChange(was, now, slot).Some? then Lookup(now.storage, slot) else Lookup(base.storage, slot))
             && (forall h :: Lookup(s.code, h) ==
                     if NewCode(was, now, h) && Referenced(now, h) then Lookup(now.code, h) else Lookup(base.code, h))
    ensures Replayed(states + [now], s)
  {
    ReplayStorage(states, base, now, s);
    ReplayCode(states, base, now, s);
  }

  lemma ReplayStorage(states: seq<StateData>, base: StateData, now: StateData, s: StateData)
    requires states != [] && Replayed(states, base)
    requires forall slot :: Lookup(s.storage, slot) ==
               if StorageChange(states[|states| - 1], now, slot).Some? then Lookup(now.storage, slot) else Lookup(base.storage, slot)
    ensures forall slot | slot in now.storage :: slot in s.storage && s.storage[slot] == now.storage[slot]
    ensures forall slot :: slot in s.storage <==> exists i :: 0 <= i < |states + [now]| && slot in (states + [now])[i].storage
  {
    var more, n := states + [now], |states|;
    forall slot | slot in now.storage
      ensures slot in s.storage && s.storage[slot] == now.storage[slot]
    {
      assert Lookup(s.storage, slot) == Some(now.storage[slot]);
    }
    forall slot
      ensures slot in s.storage <==> exists i :: 0 <= i < |more| && slot in more[i].storage
    {
      assert Lookup(s.storage, slot).Some? <==> slot in now.storage || slot in base.storage;
      if i :| 0 <= i < n && slot in states[i].storage {
        assert slot in more[i].storage;
      }
      if slot in now.storage {
        assert slot in more[n].storage;
      }
      if i :| 0 <= i < |more| && slot in more[i].storage {
        assert i == n || slot in states[i].storage;
      }
    }
  }

  lemma ReplayCode(states: seq<StateData>, base: StateData, now: StateData, s: StateData)
    requires states != [] && Replayed(states, base)
    requires forall h :: Lookup(s.code, h) ==
               if NewCode(states[|states| - 1], now, h) && Referenced(now, h) then Lookup(now.code, h) else Lookup(base.code, h)
    ensures forall h, i | 0 <= i < |states + [now]| && LastArrives(states + [now], h, i) ::
              Lookup(s.code, h) == Some((states + [now])[i].code[h])
    ensures forall h | h in s.code :: exists i :: 0 <= i < |states + [now]| && LastArrives(states + [now], h, i)
  {
    var more, n := states + [now], |states|;
    forall h, i | 0 <= i < |more| && LastArrives(more, h, i)
      ensures Lookup(s.code, h) == Some(more[i].code[h])
    {
      if i < n {
        assert !Arrives(more, h, n);
        EarlierArrives(states, now, h, i);
      }
    }
    forall h | h in s.code
      ensures exists i :: 0 <= i < |more| && LastArrives(more, h, i)
    {
      assert Lookup(s.code, h) == Some(s.code[h]);
      if Arrives(more, h, n) {
        assert LastArrives(more, h, n);
      } else {
        var i :| 0 <= i < n && LastArrives(states, h, i);
        EarlierArrives(states, now, h, i);
      }
    }
  }

  lemma EarlierArrives(states: seq<StateData>, now: StateData, h: Hash, i: nat)
    requires i < |states| && !Arrives(states + [now], h, |states|)
    ensures LastArrives(states + [now], h, i) <==> LastArrives(states, h, i)
  {
    var more := states + [now];
    assert forall j | 0 <= j < |states| :: Arrives(more, h, j) <==> Arrives(states, h, j);
  }

  /** Every slot there ever was is in the last state, and a code hash is there just
      if its code has come in, with the code that came in last. */
  ghost predicate Settles(states: seq<StateData>)
    requires states != []
  {
    var last := states[|states| - 1];
    && (forall i, slot | 0 <= i < |states| && slot in states[i].storage :: slot in last.storage)
    && (forall h, i | 0 <= i < |states| && LastArrives(states, h, i) :: Lookup(last.code, h) == Some(states[i].code[h]))
    && (forall h | h in last.code :: exists i :: 0 <= i < |states| && LastArrives(states, h, i))
  }

  /** A snapshot followed by a chain of deltas reproduces the last state, all but the
      root, exactly when the chain settles there; the root stays the snapshot's. */
  lemma ChainReproducesIff(states: seq<StateData>, deltas: seq<Delta>)
    requires Chain(states, deltas)
    ensures Replay(states[0], deltas) == states[|deltas|].(root := states[0].root) <==> Settles(states)
  {
    hide Replay, LastArrives;
    var s, last := Replay(states[0], deltas), states[|deltas|];
    ReplayHolds(states, deltas);
    if Settles(states) {
      forall slot
        ensures Lookup(s.storage, slot) == Lookup(last.storage, slot)
      {}
      SameMap(s.storage, last.storage);
      forall h
        ensures Lookup(s.code, h) == Lookup(last.code, h)
      {
        if h in s.code {
          var i :| 0 <= i < |states| && LastArrives(states, h, i);
        }
      }
      SameMap(s.code, last.code);
    }
  }

  /** A chain that only grows settles. */
  lemma {:induction false} GrowingSettles(states: seq<StateData>)
    requires states != [] && forall i | 0 < i < |states| :: Grows(states[i - 1], states[i])
    ensures Settles(states)
  {
    var n := |states| - 1;
    if n == 0 {
      assert forall h | h in states[0].code :: LastArrives(states, h, 0);
    } else {
      var front, now := states[..n], states[n];
      assert states == front + [now];
      GrowingSettles(front);
      assert Grows(states[n - 1], states[n]);
      forall h, i | 0 <= i <= n && LastArrives(states, h, i)
        ensures Lookup(now.code, h) == Some(states[i].code[h])
      {
        if i < n {
          EarlierArrives(front, now, h, i);
        }
      }
      forall h | h in now.code
        ensures exists i :: 0 <= i < |states| && LastArrives(states, h, i)
      {
        if Arrives(states, h, n) {
          assert LastArrives(states, h, n);
        } else {
          var i :| 0 <= i < n && LastArrives(front, h, i);
          EarlierArrives(front, now, h, i);
        }
      }
    }
  }

  /** So a snapshot and its deltas reproduce the last state when every step grows. */
  lemma ChainReproduces(states: seq<StateData>, deltas: seq<Delta>)
    requires Chain(states, deltas)
    requires forall i | 0 <= i < |deltas| :: Grows(states[i], states[i + 1])
    ensures Replay(states[0], deltas) == states[|deltas|].(root := states[0].root)
  {
    forall i | 0 < i < |states|
      ensures Grows(states[i - 1], states[i])
    {
      assert Grows(states[i - 1], states[i - 1 + 1]);
    }
    GrowingSettles(states);
    ChainReproducesIff(states, deltas);
  }

  /** The accounts need no condition at all: they are those of the last state. */
  lemma ChainAccounts(states: seq<StateData>, deltas: seq<Delta>)
    requires Chain(states, deltas)
    ensures Replay(states[0], deltas).accounts == states[|deltas|].accounts
  {
    ReplayHolds(states, deltas);
  }

  /** A slot deleted between two states survives the delta. */
  lemma DeletedSlotSurvives(was: StateData, now: StateData, changes: seq<Change>, slot: (Address, Hash))
    requires Describes(was, now, changes) && slot in was.storage && slot !in now.storage
    ensures Lookup(ApplyAll(was, changes).storage, slot) == Some(was.storage[slot])
  {
    AppliedIsMerged(was, now, changes);
  }

  // ---- the manager ----

  /** A state that is changed in place. */
  class LiveState {
    var data: StateData

    constructor (data: StateData)
      ensures this.data == data
    {
      this.data := data;
    }
  }

  datatype Snapshot = Snapshot(height: nat, data: StateData)

  /** At most `max` are kept, and all that were dropped are lower. */
  ghost predicate KeepsHighest(kept: set<nat>, created: set<nat>, max: nat) {
    && |kept| <= max && kept <= created
    && (kept == created || |kept| == max)
    && (forall h, k | h in created && h !in kept && k in kept :: h < k)
  }

  /** Adding a height and dropping the lowest when there are too many. */
  ghost predicate AddsAndTrims(kept: set<nat>, height: nat, max: nat, after: set<nat>) {
    var full := kept + {height};
    if |full| <= max then after == full
    else exists low :: low in full && (forall h | h in full :: low <= h) && after == full - {low}
  }

  lemma TrimKeepsHighest(kept: set<nat>, created: set<nat>, max: nat, height: nat, after: set<nat>)
    requires KeepsHighest(kept, created, max) && AddsAndTrims(kept, height, max, after)
    ensures KeepsHighest(after, created + {height}, max)
  {
    var full := kept + {height};
    assert |full| == |kept| + if height in kept then 0 else 1;
    if |full| > max {
      assert |full| == max + 1;
      var low :| low in full && (forall h | h in full :: low <= h) && after == full - {low};
      assert |after| == max;
      forall h, k | h in created + {height} && h !in after && k in after
        ensures h < k
      {
        assert low <= k && low != k;
        if h != low {
          assert h in created && h !in kept;
          if k == height {
            assert low in kept && h < low;
          }
        }
      }
    } else {
      assert after == full;
      assert kept != created ==> height in kept;
    }
  }

  class SnapshotManager {
    var snapshots: map<nat, Snapshot>
    var deltas: map<nat, Delta>
    var currentHeight: nat
    const maxSnapshots: nat
    ghost var created: set<nat>

    /** The highest snapshots created are the ones kept. */
    ghost predicate Valid()
      reads this
    {
      KeepsHighest(snapshots.Keys, created, maxSnapshots) && forall h | h in snapshots :: snapshots[h].height == h
    }

    constructor ()
      ensures Valid() && created == {} && maxSnapshots == 10
      ensures snapshots == map[] && deltas == map[] && currentHeight == 0
    {
      snapshots, deltas, currentHeight, maxSnapshots := map[], map[], 0, 10;
      created := {};
    }

    /** `create_snapshot`: keeps the snapshot, then drops the lowest if there are too many. */
    method CreateSnapshot(height: nat, data: StateData) returns (snapshot: Snapshot)
      requires Valid()
      modifies this
      ensures Valid() && created == old(created) + {height}
      ensures snapshot == Snapshot(height, data) && currentHeight == height && deltas == old(deltas)
      ensures height in snapshots ==> snapshots[height] == snapshot
      ensures forall h | h in snapshots && h != height :: h in old(snapshots) && snapshots[h] == old(snapshots)[h]
      ensures var full := old(snapshots).Keys + {height};
              if |full| <= maxSnapshots then snapshots.Keys == full
              else exists low :: low in full && (forall h | h in full :: low <= h) && snapshots.Keys == full - {low}
    {
      hide KeepsHighest;
      snapshot := Snapshot(height, data);
      ghost var was := snapshots;
      snapshots := snapshots[height := snapshot];
      assert snapshots.Keys == was.Keys + {height};
      if |snapshots| > maxSnapshots {
        var minHeight := Lowest(snapshots.Keys);
        ghost var full := snapshots;
        snapshots := snapshots - {minHeight};
        assert snapshots.Keys == full.Keys - {minHeight};
      }
      assert AddsAndTrims(was.Keys, height, maxSnapshots, snapshots.Keys);
      TrimKeepsHighest(was.Keys, created, maxSnapshots, height, snapshots.Keys);
      created := created + {height};
      currentHeight := height;
    }

    method Lowest(heights: set<nat>) returns (low: nat)
      requires heights != {}
      ensures low in heights && forall h | h in heights :: low <= h
    {
      low :| low in heights;
      var rest := heights - {low};
      while rest != {}
        invariant rest <= heights && low in heights
        invariant forall h | h in heights && h !in rest :: low <= h
        decreases rest
      {
        var h :| h in rest;
        if h < low {
          low := h;
        }
        rest := rest - {h};
      }
    }

    /** `apply_snapshot` */
    method ApplySnapshot(snapshot: Snapshot, state: LiveState)
      modifies this, state
      ensures state.data == snapshot.data && currentHeight == snapshot.height
      ensures snapshots == old(snapshots) && deltas == old(deltas) && created == old(created)
    {
      state.data := snapshot.data;
      currentHeight := snapshot.height;
    }

    /** `apply_delta` */
    method ApplyDelta(delta: Delta, state: LiveState)
      modifies this, state
      ensures state.data == ApplyAll(old(state.data), delta.changes) && currentHeight == delta.toHeight
      ensures snapshots == old(snapshots) && deltas == old(deltas) && created == old(created)
    {
      var i := 0;
      while i < |delta.changes|
        invariant 0 <= i <= |delta.changes|
        invariant state.data == ApplyAll(old(state.data), delta.changes[..i])
        modifies state
      {
        assert delta.changes[..i + 1][..i] == delta.changes[..i];
        state.data := Apply(state.data, delta.changes[i]);
        i := i + 1;
      }
      assert delta.changes[..i] == delta.changes;
      currentHeight := delta.toHeight;
    }

    /** `create_delta` */
    method CreateDelta(fromHeight: nat, toHeight: nat, was: StateData, now: StateData) returns (delta: Delta)
      modifies this
      ensures delta.fromHeight == fromHeight && delta.toHeight == toHeight
      ensures Describes(was, now, delta.changes) && ApplyAll(was, delta.changes) == Merged(was, now)
      ensures OnceEach(delta.changes)
      ensures deltas == old(deltas)[toHeight := delta]
      ensures snapshots == old(snapshots) && currentHeight == old(currentHeight) && created == old(created)
    {
      var accountChanges := ChangedAccounts(was, now);
      var deletions := DeletedAccounts(was, now);
      var storageChanges := ChangedStorage(was, now);
      var deployments := DeployedCode(was, now);
      var changes := accountChanges + deletions + storageChanges + deployments;
      PartsDescribe(was, now, accountChanges, deletions, storageChanges, deployments);
      PartsOnceEach(was, now, accountChanges, deletions, storageChanges, deployments);
      AppliedIsMerged(was, now, changes);
      delta := Delta(fromHeight, toHeight, changes);
      deltas := deltas[toHeight := delta];
    }

    /** Downloads done, `sync_from_snapshot` applies the snapshot and then the deltas in order. */
    method SyncFromSnapshot(snapshot: Snapshot, downloaded: seq<Delta>) returns (state: LiveState)
      modifies this
      ensures fresh(state) && state.data == Replay(snapshot.data, downloaded)
      ensures currentHeight == if downloaded == [] then snapshot.height else downloaded[|downloaded| - 1].toHeight
    {
      state := new LiveState(StateData(ZERO_HASH, map[], map[], map[]));
      ApplySnapshot(snapshot, state);
      var i := 0;
      while i < |downloaded|
        invariant 0 <= i <= |downloaded| && fresh(state)
        invariant state.data == Replay(snapshot.data, downloaded[..i])
        invariant currentHeight == if i == 0 then snapshot.height else downloaded[i - 1].toHeight
      {
        assert downloaded[..i + 1][..i] == downloaded[..i];
        ApplyDelta(downloaded[i], state);
        i := i + 1;
      }
      assert downloaded[..i] == downloaded;
    }
  }

  // ---- the four passes of create_delta ----

  /** The changes are exactly those found at the given accounts. */
  ghost predicate AccountsAt(was: StateData, now: StateData, at: set<Address>, changes: seq<Change>) {
    && (forall a | a in at && AccountChange(was, now, a).Some? :: AccountChange(was, now, a).value in changes)
    && (forall ch | ch in changes ::
            !ch.StorageUpdated? && !ch.CodeDeployed? && ch.address in at && AccountChange(was, now, ch.address) == Some(ch))
    && OnceEach(changes)
  }

  method ChangedAccounts(was: StateData, now: StateData) returns (changes: seq<Change>)
    ensures AccountsAt(was, now, now.accounts.Keys, changes)
  {
    changes := [];
    var todo := now.accounts.Keys;
    while todo != {}
      invariant todo <= now.accounts.Keys && AccountsAt(was, now, now.accounts.Keys - todo, changes)
      decreases todo
    {
      var a :| a in todo;
      var newAccount := now.accounts[a];
      if a in was.accounts {
        if was.accounts[a] != newAccount {
          changes := changes + [AccountUpdated(a, was.accounts[a], newAccount)];
        }
      } else {
        changes := changes + [AccountCreated(a, newAccount)];
      }
      todo := todo - {a};
    }
  }

  method DeletedAccounts(was: StateData, now: StateData) returns (changes: seq<Change>)
    ensures AccountsAt(was, now, was.accounts.Keys - now.accounts.Keys, changes)
  {
    changes := [];
    var todo := was.accounts.Keys;
    while todo != {}
      invariant todo <= was.accounts.Keys && AccountsAt(was, now, was.accounts.Keys - now.accounts.Keys - todo, changes)
      decreases todo
    {
      var a :| a in todo;
      if a !in now.accounts {
        changes := changes + [AccountDeleted(a)];
      }
      todo := todo - {a};
    }
  }

  ghost predicate StorageAt(was: StateData, now: StateData, at: set<(Address, Hash)>, changes: seq<Change>) {
    && (forall slot | slot in at && StorageChange(was, now, slot).Some? :: StorageChange(was, now, slot).value in changes)
    && (forall ch | ch in changes ::
            ch.StorageUpdated? && (ch.address, ch.key) in at && StorageChange(was, now, (ch.address, ch.key)) == Some(ch))
    && OnceEach(changes)
  }

  method ChangedStorage(was: StateData, now: StateData) returns (changes: seq<Change>)
    ensures StorageAt(was, now, now.storage.Keys, changes)
  {
    changes := [];
    var todo := now.storage.Keys;
    while todo != {}
      invariant todo <= now.storage.Keys && StorageAt(was, now, now.storage.Keys - todo, changes)
      decreases todo
    {
      var slot :| slot in todo;
      var newValue := now.storage[slot];
      if slot in was.storage {
        if was.storage[slot] != newValue {
          changes := changes + [StorageUpdated(slot.0, slot.1, was.storage[slot], newValue)];
        }
      } else {
        changes := changes + [StorageUpdated(slot.0, slot.1, ZERO_HASH, newValue)];
      }
      todo := todo - {slot};
    }
  }

  ghost predicate CodeAt(was: StateData, now: StateData, at: set<Hash>, changes: seq<Change>) {
    && (forall h | h in at && NewCode(was, now, h) && Referenced(now, h) :: Deploys(changes, h))
    && (forall ch | ch in changes :: ch.CodeDeployed? && ch.codeHash in at && Accurate(was, now, ch))
    && OnceEach(changes)
  }

  method DeployedCode(was: StateData, now: StateData) returns (changes: seq<Change>)
    ensures CodeAt(was, now, now.code.Keys, changes)
  {
    changes := [];
    var todo := now.code.Keys;
    while todo != {}
      invariant todo <= now.code.Keys && CodeAt(was, now, now.code.Keys - todo, changes)
      decreases todo
    {
      var h :| h in todo;
      ghost var sofar, done := changes, now.code.Keys - todo;
      if h !in was.code {
        var user := UserOf(now, h);
        if user.Some? {
          changes := changes + [CodeDeployed(user.value, h, now.code[h])];
        }
      }
      CodeNext(was, now, done, h, sofar, changes);
      todo := todo - {h};
      assert now.code.Keys - todo == done + {h};
    }
  }

  lemma CodeNext(was: StateData, now: StateData, done: set<Hash>, h: Hash, sofar: seq<Change>, changes: seq<Change>)
    requires CodeAt(was, now, done, sofar) && h in now.code && h !in done
    requires || (changes == sofar && !(NewCode(was, now, h) && Referenced(now, h)))
             || exists ch: Change :: changes == sofar + [ch] && ch.CodeDeployed? && ch.codeHash == h && Accurate(was, now, ch)
    ensures CodeAt(was, now, done + {h}, changes)
  {
    if changes != sofar {
      var ch: Change :| changes == sofar + [ch] && ch.CodeDeployed? && ch.codeHash == h && Accurate(was, now, ch);
      forall k | k in done + {h} && NewCode(was, now, k) && Referenced(now, k)
        ensures Deploys(changes, k)
      {
        DeploysNext(sofar, ch, k);
      }
      OnceEachSnoc(sofar, ch);
    }
  }

  /** An account that runs the code, whichever is met first. */
  method UserOf(s: StateData, h: Hash) returns (user: Option<Address>)
    ensures user.Some? ==> Runs(s, user.value, h)
    ensures user.None? ==> !Referenced(s, h)
  {
    var todo := s.accounts.Keys;
    while todo != {}
      invariant todo <= s.accounts.Keys && forall a | Runs(s, a, h) :: a in todo
      decreases todo
    {
      var a :| a in todo;
      if s.accounts[a].codeHash == Some(h) {
        return Some(a);
      }
      todo := todo - {a};
    }
    return None;
  }

  lemma PartsOnceEach(was: StateData, now: StateData, a: seq<Change>, d: seq<Change>, s: seq<Change>, c: seq<Change>)
    requires AccountsAt(was, now, now.accounts.Keys, a) && AccountsAt(was, now, was.accounts.Keys - now.accounts.Keys, d)
    requires StorageAt(was, now, now.storage.Keys, s) && CodeAt(was, now, now.code.Keys, c)
    ensures OnceEach(a + d + s + c)
  {
    hide OnceEach, AccountChange, StorageChange, Accurate;
    OnceEachConcat(a, d);
    OnceEachConcat(a + d, s);
    OnceEachConcat(a + d + s, c);
  }

  lemma PartsDescribe(was: StateData, now: StateData, a: seq<Change>, d: seq<Change>, s: seq<Change>, c: seq<Change>)
    requires AccountsAt(was, now, now.accounts.Keys, a) && AccountsAt(was, now, was.accounts.Keys - now.accounts.Keys, d)
    requires StorageAt(was, now, now.storage.Keys, s) && CodeAt(was, now, now.code.Keys, c)
    ensures Describes(was, now, a + d + s + c)
  {
    var changes := a + d + s + c;
    forall h | NewCode(was, now, h) && Referenced(now, h)
      ensures Deploys(changes, h)
    {
      assert Deploys(c, h);
      var ch :| ch in c && ch.CodeDeployed? && ch.codeHash == h;
      assert ch in changes;
    }
    forall x | AccountChange(was, now, x).Some?
      ensures AccountChange(was, now, x).value in changes
    {
      assert AccountChange(was, now, x).value in a || AccountChange(was, now, x).value in d;
    }
  }
}
