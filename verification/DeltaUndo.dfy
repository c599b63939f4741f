/**
 * What the old values recorded in a delta are good for: taking it back, and what
 * counts when changes to one place follow each other (storage/snapshot.rs).
 */
module DeltaUndo {
  import opened Common
  import opened Snapshot

  // ---- the last change of a place counts ----

  /** The state is as the change leaves its place. */
  predicate Holds(s: StateData, ch: Change) {
    match ch
    case AccountCreated(a, account) => Lookup(s.accounts, a) == Some(account)
    case AccountUpdated(a, _, account) => Lookup(s.accounts, a) == Some(account)
    case AccountDeleted(a) => a !in s.accounts
    case StorageUpdated(a, k, _, v) => Lookup(s.storage, (a, k)) == Some(v)
    case CodeDeployed(_, h, code) => Lookup(s.code, h) == Some(code)
  }

  /** The two states agree at the place. */
  predicate Same(s: StateData, t: StateData, p: Place) {
    match p
    case AccountAt(a) => Lookup(s.accounts, a) == Lookup(t.accounts, a)
    case SlotAt(slot) => Lookup(s.storage, slot) == Lookup(t.storage, slot)
    case CodeOf(h) => Lookup(s.code, h) == Lookup(t.code, h)
  }

  /** Each place ends as the last change that mentions it says, or as it was. */
  lemma {:induction false} LastCounts(s: StateData, changes: seq<Change>)
    ensures ApplyAll(s, changes).root == s.root
    ensures forall i | 0 <= i < |changes| && (forall j | i < j < |changes| :: PlaceOf(changes[j]) != PlaceOf(changes[i])) ::
              Holds(ApplyAll(s, changes), changes[i])
    ensures forall p | !Mentions(changes, p) :: Same(ApplyAll(s, changes), s, p)
  {
    if changes != [] {
      var front, last := changes[..|changes| - 1], changes[|changes| - 1];
      LastCounts(s, front);
      var t := ApplyAll(s, front);
      forall i | 0 <= i < |changes| && (forall j | i < j < |changes| :: PlaceOf(changes[j]) != PlaceOf(changes[i]))
        ensures Holds(Apply(t, last), changes[i])
      {
        if i < |front| {
          assert front[i] == changes[i] && forall j | i < j < |front| :: front[j] == changes[j];
          HoldsOn(t, last, changes[i]);
        }
      }
      forall p | !Mentions(changes, p)
        ensures Same(Apply(t, last), s, p)
      {
        assert changes == front + [last] && last in changes;
        assert !Mentions(front, p) && PlaceOf(last) != p;
        SameOn(t, last, p);
      }
    }
  }

  lemma HoldsOn(t: StateData, last: Change, ch: Change)
    requires Holds(t, ch) && PlaceOf(last) != PlaceOf(ch)
    ensures Holds(Apply(t, last), ch)
  {}

  lemma SameOn(t: StateData, last: Change, p: Place)
    requires PlaceOf(last) != p
    ensures Same(Apply(t, last), t, p)
  {}

  // ---- taking a delta back ----

  /** Puts back what the change recorded; a deletion has recorded nothing. */
  function Undo(s: StateData, ch: Change): StateData {
    match ch
    case AccountCreated(a, _) => s.(accounts := s.accounts - {a})
    case AccountUpdated(a, account, _) => s.(accounts := s.accounts[a := account])
    case AccountDeleted(a) => s
    case StorageUpdated(a, k, v, _) => s.(storage := s.storage[(a, k) := v])
    case CodeDeployed(_, h, _) => s.(code := s.code - {h})
  }

  function UndoAll(s: StateData, changes: seq<Change>): StateData {
    if changes == [] then s else Undo(UndoAll(s, changes[..|changes| - 1]), changes[|changes| - 1])
  }

  /** How far the changes so far have taken `now` back. */
  ghost predicate Back(was: StateData, now: StateData, changes: seq<Change>, s: StateData) {
    && (forall a :: Lookup(s.accounts, a) ==
          if Mentions(changes, AccountAt(a)) && a in now.accounts then Lookup(was.accounts, a) else Lookup(now.accounts, a))
    && (forall slot :: Lookup(s.storage, slot) ==
          if Mentions(changes, SlotAt(slot)) then Some(if slot in was.storage then was.storage[slot] else ZERO_HASH)
          else Lookup(now.storage, slot))
  }

  lemma {:induction false} UndoneBack(was: StateData, now: StateData, changes: seq<Change>)
    requires AllAccurate(was, now, changes)
    ensures Back(was, now, changes, UndoAll(now, changes))
  {
    if changes != [] {
      var front, ch := changes[..|changes| - 1], changes[|changes| - 1];
      UndoneBack(was, now, front);
      assert changes == front + [ch] && ch in changes;
      UndoneOne(was, now, front, ch, UndoAll(now, front));
    }
  }

  lemma UndoneOne(was: StateData, now: StateData, front: seq<Change>, ch: Change, s: StateData)
    requires Back(was, now, front, s) && Accurate(was, now, ch)
    ensures Back(was, now, front + [ch], Undo(s, ch))
  {
    forall p
      ensures Mentions(front + [ch], p) <==> Mentions(front, p) || PlaceOf(ch) == p
    {
      MentionsSnoc(front, ch, p);
    }
    hide Mentions;
  }

  lemma MentionsSnoc(front: seq<Change>, ch: Change, p: Place)
    ensures Mentions(front + [ch], p) <==> Mentions(front, p) || PlaceOf(ch) == p
  {
    if x :| x in front && PlaceOf(x) == p {
      assert x in front + [ch];
    }
    assert ch in front + [ch];
  }

  /** A delta taken back from the new state gives the old accounts exactly when it
      deletes none, and the old storage exactly when no slot came or went. */
  lemma UndoRestoresIff(was: StateData, now: StateData, changes: seq<Change>)
    requires Describes(was, now, changes)
    ensures UndoAll(now, changes).accounts == was.accounts <==> was.accounts.Keys <= now.accounts.Keys
    ensures UndoAll(now, changes).storage == was.storage <==> was.storage.Keys == now.storage.Keys
  {
    var s := UndoAll(now, changes);
    UndoneBack(was, now, changes);
    MentionsDifferences(was, now, changes);
    hide Describes, UndoAll, Mentions;
    forall a
      ensures Lookup(s.accounts, a) == if a in now.accounts then Lookup(was.accounts, a) else None
    {}
    forall slot
      ensures Lookup(s.storage, slot) ==
              if slot !in now.storage then None
              else if slot in was.storage then Some(was.storage[slot]) else Some(ZERO_HASH)
    {}
    UndoneAccounts(was, now, s);
    UndoneStorage(was, now, s);
  }

  lemma MentionsDifferences(was: StateData, now: StateData, changes: seq<Change>)
    requires Describes(was, now, changes)
    ensures forall a :: Mentions(changes, AccountAt(a)) <==> Lookup(was.accounts, a) != Lookup(now.accounts, a)
    ensures forall slot :: Mentions(changes, SlotAt(slot)) <==>
              slot in now.storage && Lookup(was.storage, slot) != Lookup(now.storage, slot)
  {
    forall a
      ensures Mentions(changes, AccountAt(a)) <==> Lookup(was.accounts, a) != Lookup(now.accounts, a)
    {
      if ch :| ch in changes && PlaceOf(ch) == AccountAt(a) {
        assert Accurate(was, now, ch);
      }
      if Lookup(was.accounts, a) != Lookup(now.accounts, a) {
        assert AccountChange(was, now, a).value in changes && PlaceOf(AccountChange(was, now, a).value) == AccountAt(a);
      }
    }
    forall slot
      ensures Mentions(changes, SlotAt(slot)) <==>
              slot in now.storage && Lookup(was.storage, slot) != Lookup(now.storage, slot)
    {
      if ch :| ch in changes && PlaceOf(ch) == SlotAt(slot) {
        assert Accurate(was, now, ch);
      }
      if slot in now.storage && Lookup(was.storage, slot) != Lookup(now.storage, slot) {
        assert StorageChange(was, now, slot).value in changes && PlaceOf(StorageChange(was, now, slot).value) == SlotAt(slot);
      }
    }
  }

  lemma UndoneAccounts(was: StateData, now: StateData, s: StateData)
    requires forall a :: Lookup(s.accounts, a) == if a in now.accounts then Lookup(was.accounts, a) else None
    ensures s.accounts == was.accounts <==> was.accounts.Keys <= now.accounts.Keys
  {
    if was.accounts.Keys <= now.accounts.Keys {
      forall a
        ensures Lookup(s.accounts, a) == Lookup(was.accounts, a)
      {}
      SameMap(s.accounts, was.accounts);
    } else {
      var a :| a in was.accounts && a !in now.accounts;
      assert Lookup(s.accounts, a) == None;
    }
  }

  lemma UndoneStorage(was: StateData, now: StateData, s: StateData)
    requires forall slot :: Lookup(s.storage, slot) ==
               if slot !in now.storage then None
               else if slot in was.storage then Some(was.storage[slot]) else Some(ZERO_HASH)
    ensures s.storage == was.storage <==> was.storage.Keys == now.storage.Keys
  {
    if was.storage.Keys == now.storage.Keys {
      forall slot
        ensures Lookup(s.storage, slot) == Lookup(was.storage, slot)
      {
        assert slot in was.storage.Keys <==> slot in now.storage.Keys;
      }
      SameMap(s.storage, was.storage);
    } else if slot :| slot in was.storage && slot !in now.storage {
      assert Lookup(s.storage, slot) == None;
    } else {
      var slot :| slot in now.storage && slot !in was.storage;
      assert Lookup(s.storage, slot) == Some(ZERO_HASH);
    }
  }
}
