/**
 * When parallel execution, which amounts to a run from the last transaction to
 * the first, does what a run in submission order does (state_machine/parallel.rs).
 */
module SubmissionOrder {
  import opened Common
  import opened Executor
  import opened Interleaving
  import opened ParallelExecutor
  import opened Scheduler
  import opened Traces

  /** One serial run of all transactions in submission order. */
  function FirstToLast(h: Hashing, s: Ledger, txs: seq<Transaction>): Ledger {
    if txs == [] then s
    else
      var last := |txs| - 1;
      var l := FirstToLast(h, s, txs[..last]);
      Ledger(Execute(h, l.accounts, txs[last]), l.outcomes[last := OutcomeOf(h, l.accounts, txs[last])])
  }

  /** Neither transaction uses the other's sender, and if both pay into one
      account neither creates it. */
  predicate Separate(h: Hashing, a: Transaction, b: Transaction) {
    && a.from !in Footprint(h, b) && b.from !in Footprint(h, a)
    && (Target(h, a) == Target(h, b) ==> a.to.Some? && b.to.Some?)
  }

  /** The nonce a creation that succeeds leaves its sender with: created in the
      sender's place, the contract starts at zero. */
  function NonceAfter(h: Hashing, from: Address, nonce: nat): nat {
    if h.contractAddress(from, nonce) == from then 0 else nonce + 1
  }

  /** Creations of one sender, neither of which leaves it the other's nonce. */
  predicate FarCreations(h: Hashing, a: Transaction, b: Transaction) {
    && a.from == b.from && a.to.None? && b.to.None? && a.nonce != b.nonce
    && NonceAfter(h, a.from, a.nonce) != b.nonce && NonceAfter(h, b.from, b.nonce) != a.nonce
  }

  predicate Untangled(h: Hashing, a: Transaction, b: Transaction) {
    Separate(h, a, b) || FarCreations(h, a, b)
  }

  /** A transaction leaves the outcome of a separate one as it was. */
  lemma SeparateOutcome(h: Hashing, accounts: Accounts, a: Transaction, b: Transaction)
    requires Separate(h, a, b)
    ensures OutcomeOf(h, Execute(h, accounts, a), b) == OutcomeOf(h, accounts, b)
    ensures Lookup(Execute(h, Execute(h, accounts, a), b), b.from) == Lookup(Execute(h, accounts, b), b.from)
  {
    var after := Execute(h, accounts, a);
    assert Lookup(after, b.from) == Lookup(accounts, b.from);
    if b.to.Some? {
      assert IsContract(Lookup(after, b.to.value)) == IsContract(Lookup(accounts, b.to.value));
    }
  }

  /** What a transaction does to the account it pays into. */
  lemma TargetAfter(h: Hashing, accounts: Accounts, a: Transaction)
    requires Target(h, a) != a.from
    ensures Lookup(Execute(h, accounts, a), Target(h, a)) ==
            if OutcomeOf(h, accounts, a).Ok?
            then Some(CreditedAccount(h, a, if a.to.Some? then Lookup(accounts, a.to.value) else None))
            else Lookup(accounts, Target(h, a))
  {}

  lemma SeparateSame(h: Hashing, accounts: Accounts, a: Transaction, b: Transaction, x: Address)
    requires Separate(h, a, b)
    ensures Lookup(Execute(h, Execute(h, accounts, a), b), x) == Lookup(Execute(h, Execute(h, accounts, b), a), x)
  {
    var afterA, afterB := Execute(h, accounts, a), Execute(h, accounts, b);
    SeparateOutcome(h, accounts, a, b);
    SeparateOutcome(h, accounts, b, a);
    hide Plan, Execute, OutcomeOf, CreditedAccount;
    if x == a.from {
      OutsideUnchanged(h, b, accounts, x);
      OutsideUnchanged(h, b, afterA, x);
    } else if x == b.from {
      OutsideUnchanged(h, a, accounts, x);
      OutsideUnchanged(h, a, afterB, x);
    } else if x == Target(h, a) == Target(h, b) {
      SharedTarget(h, accounts, a, b);
    } else if x == Target(h, a) {
      OutsideUnchanged(h, b, accounts, x);
      OutsideUnchanged(h, b, afterA, x);
      SameTarget(h, accounts, afterB, a);
    } else if x == Target(h, b) {
      OutsideUnchanged(h, a, accounts, x);
      OutsideUnchanged(h, a, afterB, x);
      SameTarget(h, accounts, afterA, b);
    } else {
      OutsideUnchanged(h, a, accounts, x);
      OutsideUnchanged(h, b, accounts, x);
      OutsideUnchanged(h, b, afterA, x);
      OutsideUnchanged(h, a, afterB, x);
    }
  }

  /** Two payments into one account add up in either order. */
  lemma SharedTarget(h: Hashing, accounts: Accounts, a: Transaction, b: Transaction)
    requires Separate(h, a, b) && Target(h, a) == Target(h, b)
    ensures var x := Target(h, a);
            Lookup(Execute(h, Execute(h, accounts, a), b), x) == Lookup(Execute(h, Execute(h, accounts, b), a), x)
  {
    SeparateOutcome(h, accounts, a, b);
    SeparateOutcome(h, accounts, b, a);
    TargetAfter(h, accounts, a);
    TargetAfter(h, accounts, b);
    TargetAfter(h, Execute(h, accounts, a), b);
    TargetAfter(h, Execute(h, accounts, b), a);
  }

  lemma SameTarget(h: Hashing, accounts: Accounts, other: Accounts, a: Transaction)
    requires a.from != Target(h, a) && Lookup(accounts, Target(h, a)) == Lookup(other, Target(h, a))
    requires OutcomeOf(h, other, a) == OutcomeOf(h, accounts, a)
    ensures Lookup(Execute(h, accounts, a), Target(h, a)) == Lookup(Execute(h, other, a), Target(h, a))
  {
    TargetAfter(h, accounts, a);
    TargetAfter(h, other, a);
  }

  lemma SeparateCommute(h: Hashing, s: Ledger, a: Task, b: Task)
    requires a.id != b.id && Separate(h, a.transaction, b.transaction)
    ensures Step(h, Step(h, s, a), b) == Step(h, Step(h, s, b), a)
  {
    hide Separate, Execute, OutcomeOf;
    var ta, tb := a.transaction, b.transaction;
    assert Separate(h, tb, ta) by {
      SeparateSymmetric(h, ta, tb);
    }
    SeparateOutcome(h, s.accounts, ta, tb);
    SeparateOutcome(h, s.accounts, tb, ta);
    var ab, ba := Step(h, Step(h, s, a), b), Step(h, Step(h, s, b), a);
    forall x
      ensures Lookup(ab.accounts, x) == Lookup(ba.accounts, x)
    {
      SeparateSame(h, s.accounts, ta, tb, x);
    }
    SameLookups(ab.accounts, ba.accounts);
    assert ab.outcomes == ba.outcomes;
  }

  lemma SeparateSymmetric(h: Hashing, a: Transaction, b: Transaction)
    ensures Separate(h, a, b) <==> Separate(h, b, a)
  {}

  /** Of two far creations at most one meets its nonce, whichever comes first. */
  lemma FarCreationsAlone(h: Hashing, accounts: Accounts, a: Transaction, b: Transaction)
    requires FarCreations(h, a, b)
    ensures OutcomeOf(h, Execute(h, accounts, a), b) == OutcomeOf(h, accounts, b)
    ensures OutcomeOf(h, accounts, a).Ok? ==> OutcomeOf(h, accounts, b).Err?
  {}

  lemma FailureChangesNothing(h: Hashing, accounts: Accounts, tx: Transaction)
    ensures OutcomeOf(h, accounts, tx).Err? ==> Execute(h, accounts, tx) == accounts
  {}

  lemma UntangledCommute(h: Hashing, s: Ledger, a: Task, b: Task)
    requires a.id != b.id && Untangled(h, a.transaction, b.transaction)
    ensures Step(h, Step(h, s, a), b) == Step(h, Step(h, s, b), a)
  {
    hide Separate, FarCreations, Execute, OutcomeOf;
    var ta, tb := a.transaction, b.transaction;
    if Separate(h, ta, tb) {
      SeparateCommute(h, s, a, b);
    } else {
      FarSymmetric(h, ta, tb);
      FarCreationsAlone(h, s.accounts, ta, tb);
      FarCreationsAlone(h, s.accounts, tb, ta);
      FailureChangesNothing(h, s.accounts, ta);
      FailureChangesNothing(h, s.accounts, tb);
      FailureChangesNothing(h, Execute(h, s.accounts, ta), tb);
      FailureChangesNothing(h, Execute(h, s.accounts, tb), ta);
      assert Step(h, Step(h, s, a), b).outcomes == Step(h, Step(h, s, b), a).outcomes;
    }
  }

  lemma FarSymmetric(h: Hashing, a: Transaction, b: Transaction)
    ensures FarCreations(h, a, b) <==> FarCreations(h, b, a)
  {}

  lemma UntangledSymmetric(h: Hashing, a: Transaction, b: Transaction)
    ensures Untangled(h, a, b) <==> Untangled(h, b, a)
  {}

  ghost predicate AllUntangled(h: Hashing, txs: seq<Transaction>) {
    forall i, j | 0 <= i < j < |txs| :: Untangled(h, txs[i], txs[j])
  }

  function TasksOf(txs: seq<Transaction>): (tasks: seq<Task>)
    ensures |tasks| == |txs| && forall i | 0 <= i < |txs| :: tasks[i].id == i && tasks[i].transaction == txs[i]
  {
    seq(|txs|, i requires 0 <= i < |txs| => Task(i, txs[i], {}, {}))
  }

  lemma {:induction false} FirstToLastIsSerial(h: Hashing, s: Ledger, txs: seq<Transaction>)
    ensures FirstToLast(h, s, txs) == Serial(h, s, TasksOf(txs))
  {
    if txs != [] {
      var last := |txs| - 1;
      FirstToLastIsSerial(h, s, txs[..last]);
      assert TasksOf(txs) == TasksOf(txs[..last]) + [TasksOf(txs)[last]];
      SerialSnoc(h, s, TasksOf(txs[..last]), TasksOf(txs)[last]);
    }
  }

  /** The order of a block of untangled transactions is irrelevant. */
  lemma UntangledBlock(h: Hashing, s: Ledger, txs: seq<Transaction>)
    requires AllUntangled(h, txs)
    ensures LatestFirst(h, s, txs) == FirstToLast(h, s, txs)
  {
    var tasks := TasksOf(txs);
    FirstToLastIsSerial(h, s, txs);
    LatestFirstIsSerial(h, s, txs, tasks);
    var step := (l: Ledger, t: Task) => Step(h, l, t);
    var dep := (a: Task, b: Task) => Tangled(h, a, b);
    var before := (a: Task, b: Task) => a.id < b.id;
    forall l, a, b | !dep(a, b)
      ensures step(step(l, a), b) == step(step(l, b), a)
    {
      UntangledCommute(h, l, a, b);
    }
    var reversed := Reversed(tasks);
    forall i, j | 0 <= i < j < |reversed|
      ensures !dep(reversed[i], reversed[j])
    {
      UntangledSymmetric(h, reversed[i].transaction, reversed[j].transaction);
    }
    forall t
      ensures t in reversed <==> t in tasks
    {
      if t in tasks {
        var i :| 0 <= i < |tasks| && tasks[i] == t;
        assert reversed[|tasks| - 1 - i] == t;
      }
    }
    ReorderEquivalent(step, dep, before, s, reversed, tasks);
  }

  predicate Tangled(h: Hashing, a: Task, b: Task) {
    a.id == b.id || !Untangled(h, a.transaction, b.transaction)
  }

  // ----- the exact condition on senders and what they do -----

  /** What a transaction is for. The address of a contract depends on the nonce
      it is created with. */
  datatype Deed = Pays(to: Address) | Creates(nonce: nat)

  datatype Intent = Intent(from: Address, deed: Deed)

  predicate Carries(tx: Transaction, p: Intent) {
    && tx.from == p.from
    && match p.deed
       case Pays(to) => tx.to == Some(to)
       case Creates(nonce) => tx.to == None && tx.nonce == nonce
  }

  ghost predicate CarryOut(txs: seq<Transaction>, intents: seq<Intent>) {
    |txs| == |intents| && forall i | 0 <= i < |txs| :: Carries(txs[i], intents[i])
  }

  /** The account paid into or created. */
  function Reached(h: Hashing, p: Intent): Address {
    match p.deed
    case Pays(to) => to
    case Creates(nonce) => h.contractAddress(p.from, nonce)
  }

  /** Whether the order of two transactions with these intents can matter. */
  predicate Clash(h: Hashing, p: Intent, q: Intent) {
    if p.from == q.from then
      p.deed.Creates? && q.deed.Creates? ==>
        || p.deed.nonce == q.deed.nonce
        || NonceAfter(h, p.from, p.deed.nonce) == q.deed.nonce || NonceAfter(h, q.from, q.deed.nonce) == p.deed.nonce
    else
      || p.from == Reached(h, q) || q.from == Reached(h, p)
      || (Reached(h, p) == Reached(h, q) && (p.deed.Creates? || q.deed.Creates?))
  }

  lemma NoClashUntangled(h: Hashing, p: Intent, q: Intent, a: Transaction, b: Transaction)
    requires !Clash(h, p, q) && Carries(a, p) && Carries(b, q)
    ensures Untangled(h, a, b)
  {}

  ghost predicate NoneClash(h: Hashing, intents: seq<Intent>) {
    forall i, j | 0 <= i < j < |intents| :: !Clash(h, intents[i], intents[j])
  }

  ghost predicate OrderIrrelevant(h: Hashing, intents: seq<Intent>) {
    forall accounts, txs | CarryOut(txs, intents) :: SameEitherWay(h, accounts, txs)
  }

  ghost predicate SameEitherWay(h: Hashing, accounts: Accounts, txs: seq<Transaction>) {
    LatestFirst(h, Ledger(accounts, map[]), txs) == FirstToLast(h, Ledger(accounts, map[]), txs)
  }

  /** A block of the given payments and creations runs in parallel as it would in
      submission order, on all accounts and for all amounts, exactly when no two
      of them clash. */
  lemma SubmissionOrderIff(h: Hashing, intents: seq<Intent>)
    ensures OrderIrrelevant(h, intents) <==> NoneClash(h, intents)
  {
    if NoneClash(h, intents) {
      forall accounts, txs | CarryOut(txs, intents)
        ensures SameEitherWay(h, accounts, txs)
      {
        forall i, j | 0 <= i < j < |txs|
          ensures Untangled(h, txs[i], txs[j])
        {
          NoClashUntangled(h, intents[i], intents[j], txs[i], txs[j]);
        }
        UntangledBlock(h, Ledger(accounts, map[]), txs);
      }
    } else {
      var i, j :| 0 <= i < j < |intents| && Clash(h, intents[i], intents[j]);
      OrderMatters(h, intents, i, j);
    }
  }

  predicate Inert(tx: Transaction) {
    !SignatureOk(tx)
  }

  function Idle(p: Intent): (tx: Transaction)
    ensures Carries(tx, p) && Inert(tx)
  {
    match p.deed
    case Pays(to) => Transaction(0, p.from, Some(to), 0, [], 0, 0, 0, 0)
    case Creates(nonce) => Transaction(nonce, p.from, None, 0, [], 0, 0, 0, 0)
  }

  /** The block in which only the `i`th and `j`th transaction are signed. */
  function TwoSigned(intents: seq<Intent>, i: nat, a: Transaction, j: nat, b: Transaction): (txs: seq<Transaction>)
    requires i < j < |intents| && Carries(a, intents[i]) && Carries(b, intents[j])
    ensures CarryOut(txs, intents) && txs[i] == a && txs[j] == b && OnlySigned(txs, {i, j})
  {
    seq(|intents|, k requires 0 <= k < |intents| => if k == i then a else if k == j then b else Idle(intents[k]))
  }

  ghost predicate OnlySigned(txs: seq<Transaction>, live: set<nat>) {
    forall k | 0 <= k < |txs| && k !in live :: Inert(txs[k])
  }

  lemma InertDoesNothing(h: Hashing, accounts: Accounts, tx: Transaction)
    requires Inert(tx)
    ensures Execute(h, accounts, tx) == accounts
  {}

  lemma {:induction false} FirstAlone(h: Hashing, s: Ledger, txs: seq<Transaction>, i: nat)
    requires OnlySigned(txs, {i})
    ensures var l := FirstToLast(h, s, txs);
            if i < |txs| then
              l.accounts == Execute(h, s.accounts, txs[i]) && i in l.outcomes && l.outcomes[i] == OutcomeOf(h, s.accounts, txs[i])
            else l.accounts == s.accounts
  {
    if txs != [] {
      var last := |txs| - 1;
      FirstAlone(h, s, txs[..last], i);
      if last != i {
        InertDoesNothing(h, FirstToLast(h, s, txs[..last]).accounts, txs[last]);
      }
    }
  }

  /** The ledger holds what a run of two transactions does. */
  ghost predicate Holds(l: Ledger, i: nat, j: nat, result: (Accounts, Outcome, Outcome)) {
    && l.accounts == result.0
    && i in l.outcomes && l.outcomes[i] == result.1 && j in l.outcomes && l.outcomes[j] == result.2
  }

  lemma {:induction false} FirstPair(h: Hashing, s: Ledger, txs: seq<Transaction>, i: nat, j: nat)
    requires i < j < |txs| && OnlySigned(txs, {i, j})
    ensures Holds(FirstToLast(h, s, txs), i, j, OneThenOther(h, s.accounts, txs[i], txs[j]))
  {
    var last := |txs| - 1;
    if last == j {
      FirstAlone(h, s, txs[..last], i);
    } else {
      FirstPair(h, s, txs[..last], i, j);
      InertDoesNothing(h, FirstToLast(h, s, txs[..last]).accounts, txs[last]);
    }
  }

  lemma {:induction false} LastNone(h: Hashing, s: Ledger, txs: seq<Transaction>)
    requires OnlySigned(txs, {})
    ensures LatestFirst(h, s, txs).accounts == s.accounts
    decreases |txs|
  {
    if txs != [] {
      var last := |txs| - 1;
      InertDoesNothing(h, s.accounts, txs[last]);
      LastNone(h, Step(h, s, Task(last, txs[last], {}, {})), txs[..last]);
    }
  }

  lemma {:induction false} LastAlone(h: Hashing, s: Ledger, txs: seq<Transaction>, i: nat)
    requires i < |txs| && OnlySigned(txs, {i})
    ensures var l := LatestFirst(h, s, txs);
            l.accounts == Execute(h, s.accounts, txs[i]) && i in l.outcomes && l.outcomes[i] == OutcomeOf(h, s.accounts, txs[i])
    decreases |txs|
  {
    var last := |txs| - 1;
    var next := Ledger(Execute(h, s.accounts, txs[last]), s.outcomes[last := OutcomeOf(h, s.accounts, txs[last])]);
    if last == i {
      LatestFirstKeeps(h, next, txs[..last], i);
      LastNone(h, next, txs[..last]);
    } else {
      InertDoesNothing(h, s.accounts, txs[last]);
      LastAlone(h, next, txs[..last], i);
    }
  }

  lemma {:induction false} LastPair(h: Hashing, s: Ledger, txs: seq<Transaction>, i: nat, j: nat)
    requires i < j < |txs| && OnlySigned(txs, {i, j})
    ensures Holds(LatestFirst(h, s, txs), j, i, OneThenOther(h, s.accounts, txs[j], txs[i]))
    decreases |txs|
  {
    var last := |txs| - 1;
    var next := Ledger(Execute(h, s.accounts, txs[last]), s.outcomes[last := OutcomeOf(h, s.accounts, txs[last])]);
    if last == j {
      LatestFirstKeeps(h, next, txs[..last], j);
      LastAlone(h, next, txs[..last], i);
    } else {
      InertDoesNothing(h, s.accounts, txs[last]);
      LastPair(h, next, txs[..last], i, j);
    }
  }

  /** For intents that clash there are amounts and accounts for which the order of
      the two transactions matters. */
  lemma OrderMatters(h: Hashing, intents: seq<Intent>, i: nat, j: nat)
    requires i < j < |intents| && Clash(h, intents[i], intents[j])
    ensures exists accounts, txs :: CarryOut(txs, intents) && !SameEitherWay(h, accounts, txs)
  {
    hide Clash, Carries, OneThenOther;
    var accounts, a, b := ClashWitness(h, intents[i], intents[j]);
    var txs := TwoSigned(intents, i, a, j, b);
    FirstPair(h, Ledger(accounts, map[]), txs, i, j);
    LastPair(h, Ledger(accounts, map[]), txs, i, j);
    assert !SameEitherWay(h, accounts, txs);
  }

  // ----- a witness for every clash -----

  /** A free transaction with just the gas it needs. */
  function Signed(p: Intent, nonce: nat, value: nat): (tx: Transaction)
    requires p.deed.Creates? ==> nonce == p.deed.nonce
    ensures Carries(tx, p)
  {
    match p.deed
    case Pays(to) => Transaction(nonce, p.from, Some(to), value, [], BASE_GAS, 0, 1, 1)
    case Creates(_) => Transaction(nonce, p.from, None, value, [], BASE_GAS + ContractGas([]) * 2, 0, 1, 1)
  }

  function Holding(nonce: nat, balance: nat): Account {
    Account(nonce, balance, 0, None)
  }

  function NonceFor(p: Intent): nat {
    if p.deed.Creates? then p.deed.nonce else 0
  }

  /** The two orders differ on these accounts. */
  ghost predicate Differ(h: Hashing, s: Accounts, a: Transaction, b: Transaction) {
    var ab, ba := OneThenOther(h, s, a, b), OneThenOther(h, s, b, a);
    ab.0 != ba.0 || ab.1 != ba.2 || ab.2 != ba.1
  }

  lemma ClashWitness(h: Hashing, p: Intent, q: Intent) returns (s: Accounts, a: Transaction, b: Transaction)
    requires Clash(h, p, q)
    ensures Carries(a, p) && Carries(b, q) && Differ(h, s, a, b)
  {
    hide OneThenOther;
    if p.from == q.from {
      s, a, b := OneSenderWitness(h, p, q);
    } else if q.from == Reached(h, p) {
      s, a, b := SenderReachedWitness(h, p, q);
    } else if p.from == Reached(h, q) {
      s, b, a := SenderReachedWitness(h, q, p);
    } else if p.deed.Creates? {
      s, a, b := CreatedWitness(h, p, q);
    } else {
      s, b, a := CreatedWitness(h, q, p);
    }
  }

  lemma OneSenderWitness(h: Hashing, p: Intent, q: Intent) returns (s: Accounts, a: Transaction, b: Transaction)
    requires Clash(h, p, q) && p.from == q.from
    ensures Carries(a, p) && Carries(b, q) && Differ(h, s, a, b)
  {
    if p.deed.Pays? && q.deed.Pays? {
      s, a, b := PaymentsWitness(h, p, q);
    } else if p.deed.Creates? && (q.deed.Pays? || q.deed.nonce == p.deed.nonce) {
      s, a, b := SpentWitness(h, p, q);
    } else if p.deed.Pays? {
      s, b, a := SpentWitness(h, q, p);
    } else if NonceAfter(h, p.from, p.deed.nonce) == q.deed.nonce {
      s, a, b := NextNonceWitness(h, p, q);
    } else {
      s, b, a := NextNonceWitness(h, q, p);
    }
  }

  /** Two payments of one sender: the first one uses up the nonce or the balance,
      or raises it. */
  lemma PaymentsWitness(h: Hashing, p: Intent, q: Intent) returns (s: Accounts, a: Transaction, b: Transaction)
    requires p.from == q.from && p.deed.Pays? && q.deed.Pays?
    ensures Carries(a, p) && Carries(b, q) && Differ(h, s, a, b)
  {
    s, a, b := map[p.from := Holding(0, 5)], Signed(p, 0, 5), Signed(q, 0, 10);
    if p.deed.to != p.from || q.deed.to != p.from {
      b := Signed(q, 0, 5);
    }
  }

  /** A creation and another transaction with its nonce: both would do alone. */
  lemma SpentWitness(h: Hashing, p: Intent, q: Intent) returns (s: Accounts, a: Transaction, b: Transaction)
    requires p.from == q.from && p.deed.Creates? && (q.deed.Creates? ==> q.deed.nonce == p.deed.nonce)
    ensures Carries(a, p) && Carries(b, q) && Differ(h, s, a, b)
  {
    var n := p.deed.nonce;
    s, a, b := map[p.from := Holding(n, 10)], Signed(p, n, 5), Signed(q, n, 10);
    assert OutcomeOf(h, s, b).Ok?;
    assert OutcomeOf(h, Execute(h, s, a), b).Err?;
  }

  /** The second creation needs the nonce the first one leaves. */
  lemma NextNonceWitness(h: Hashing, p: Intent, q: Intent) returns (s: Accounts, a: Transaction, b: Transaction)
    requires p.from == q.from && p.deed.Creates? && q.deed.Creates? && p.deed.nonce != q.deed.nonce
    requires NonceAfter(h, p.from, p.deed.nonce) == q.deed.nonce
    ensures Carries(a, p) && Carries(b, q) && Differ(h, s, a, b)
  {
    s, a, b := map[p.from := Holding(p.deed.nonce, 0)], Signed(p, p.deed.nonce, 0), Signed(q, q.deed.nonce, 0);
    assert OutcomeOf(h, s, b).Err?;
    assert OutcomeOf(h, Execute(h, s, a), b).Ok?;
  }

  /** The first transaction pays the second one's sender, or takes its place. */
  lemma SenderReachedWitness(h: Hashing, p: Intent, q: Intent) returns (s: Accounts, a: Transaction, b: Transaction)
    requires p.from != q.from && q.from == Reached(h, p)
    ensures Carries(a, p) && Carries(b, q) && Differ(h, s, a, b)
  {
    var n, m := NonceFor(p), NonceFor(q);
    var poor := if p.deed.Pays? then 0 else 5;
    s := map[p.from := Holding(n, 5), q.from := Holding(m, poor)];
    a, b := Signed(p, n, 5 - poor), Signed(q, m, 5);
    assert OutcomeOf(h, s, b).Ok? != OutcomeOf(h, Execute(h, s, a), b).Ok?;
  }

  /** The first transaction creates what the second one pays into or creates. */
  lemma CreatedWitness(h: Hashing, p: Intent, q: Intent) returns (s: Accounts, a: Transaction, b: Transaction)
    requires p.from != q.from && p.deed.Creates? && Reached(h, p) == Reached(h, q)
    requires q.from != Reached(h, p) && p.from != Reached(h, q)
    ensures Carries(a, p) && Carries(b, q) && Differ(h, s, a, b)
  {
    var n, m, x := NonceFor(p), NonceFor(q), Reached(h, p);
    s := map[p.from := Holding(n, 5), q.from := Holding(m, 6)];
    a, b := Signed(p, n, 5), Signed(q, m, 6);
    var ab, ba := Execute(h, Execute(h, s, a), b), Execute(h, Execute(h, s, b), a);
    if q.deed.Pays? {
      assert OutcomeOf(h, s, b).Ok? && OutcomeOf(h, Execute(h, s, a), b).Err?;
    } else {
      assert x in ab && x in ba && ab[x].balance == 6 && ba[x].balance == 5;
    }
  }

  /** A pipeline of at least two transactions that all succeed in submission order
      ends otherwise when executed in parallel. */
  lemma PipelineDiffers(h: Hashing, accounts: Accounts, txs: seq<Transaction>, sender: Address)
    requires |txs| > 1 && sender in accounts && accounts[sender].nonce == txs[0].nonce
    requires forall i | 0 <= i < |txs| :: txs[i].from == sender && txs[i].nonce == txs[0].nonce + i
    requires forall i | 0 <= i < |txs| ::
        i in FirstToLast(h, Ledger(accounts, map[]), txs).outcomes && FirstToLast(h, Ledger(accounts, map[]), txs).outcomes[i].Ok?
    ensures !SameEitherWay(h, accounts, txs)
  {
    PipelineCollapses(h, Ledger(accounts, map[]), txs, sender);
    assert LatestFirst(h, Ledger(accounts, map[]), txs).outcomes[1].Err?;
  }

  /** Such pipelines exist for every length: free transfers to another account. */
  lemma {:induction false} PipelineSucceeds(h: Hashing, p: Intent, txs: seq<Transaction>)
    requires p.deed.Pays? && p.from != p.deed.to
    requires forall i | 0 <= i < |txs| :: txs[i] == Signed(p, i, 0)
    ensures var l := FirstToLast(h, Ledger(map[p.from := Holding(0, 0)], map[]), txs);
            && Lookup(l.accounts, p.from) == Some(Holding(|txs|, 0))
            && !IsContract(Lookup(l.accounts, p.deed.to))
            && forall i | 0 <= i < |txs| :: i in l.outcomes && l.outcomes[i].Ok?
  {
    if txs != [] {
      var last := |txs| - 1;
      PipelineSucceeds(h, p, txs[..last]);
      var l := FirstToLast(h, Ledger(map[p.from := Holding(0, 0)], map[]), txs[..last]);
      assert txs[last] == Signed(p, last, 0);
      assert OutcomeOf(h, l.accounts, txs[last]).Ok?;
    }
  }
}
