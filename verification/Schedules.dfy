/**
 * Schedules in which transactions on one account overlap: what goes wrong in a
 * batch or group whose transactions share an account (state_machine/parallel.rs,
 * state_machine/executor.rs).
 */
module Schedules {
  import opened Common
  import opened Executor
  import opened Interleaving
  import opened Scheduler
  import opened Traces

  lemma {:induction false} ReachesThrough(h: Hashing, batch: seq<Task>, a: Moment, b: Moment, c: Moment)
    requires Reaches(h, batch, a, b) && Reaches(h, batch, b, c)
    ensures Reaches(h, batch, a, c)
  {
    var p :| IsSchedule(h, batch, p) && p[0] == a && p[|p| - 1] == b;
    var q :| IsSchedule(h, batch, q) && q[0] == b && q[|q| - 1] == c;
    var whole := p + q[1..];
    forall k | 0 < k < |whole|
      ensures BatchMoves(h, batch, whole[k - 1], whole[k])
    {
      if k < |p| {
        assert BatchMoves(h, batch, p[k - 1], p[k]);
      } else {
        assert BatchMoves(h, batch, q[k - |p|], q[k - |p| + 1]);
        assert whole[k] == q[k - |p| + 1] && whole[k - 1] == q[k - |p|];
      }
    }
    assert IsSchedule(h, batch, whole);
  }

  lemma OneMove(h: Hashing, batch: seq<Task>, m: Moment, i: nat, now': Accounts, p': Progress)
    requires i < |batch| == |m.ps| && Moves(h, batch[i], m.accounts, m.ps[i], now', p')
    ensures Reaches(h, batch, m, Moment(now', m.ps[i := p']))
  {
    hide Moves;
    var m' := Moment(now', m.ps[i := p']);
    assert MovesAt(h, batch, m, m', i);
    ReachesItself(h, batch, m);
    ReachesOn(h, batch, m, m, m');
  }

  /** What the reads of a transaction see when nothing moves meanwhile. */
  function Seen(tx: Transaction, now: Accounts, n: nat): seq<Option<Account>>
    requires n <= Reads(tx)
  {
    seq(n, r requires 0 <= r < n => Lookup(now, ReadAddress(tx, r)))
  }

  lemma {:induction false} ReadsAll(h: Hashing, batch: seq<Task>, m: Moment, i: nat, n: nat)
    requires i < |batch| == |m.ps| && n < Reads(batch[i].transaction)
    requires m.ps[i] == Reading(Seen(batch[i].transaction, m.accounts, n))
    ensures var tx := batch[i].transaction;
            Reaches(h, batch, m, Moment(m.accounts, m.ps[i := AfterRead(h, batch[i], Seen(tx, m.accounts, Reads(tx)))]))
    decreases Reads(batch[i].transaction) - n
  {
    hide Reaches, AfterRead;
    var tx := batch[i].transaction;
    var seen := Seen(tx, m.accounts, n + 1);
    assert seen == Seen(tx, m.accounts, n) + [Lookup(m.accounts, ReadAddress(tx, n))];
    OneMove(h, batch, m, i, m.accounts, AfterRead(h, batch[i], seen));
    if n + 1 < Reads(tx) {
      StillReading(h, batch[i], seen);
      var m' := Moment(m.accounts, m.ps[i := Reading(seen)]);
      ReadsAll(h, batch, m', i, n + 1);
      var end := Moment(m.accounts, m.ps[i := AfterRead(h, batch[i], Seen(tx, m.accounts, Reads(tx)))]);
      assert m'.ps[i := end.ps[i]] == end.ps;
      ReachesThrough(h, batch, m, m', end);
    }
  }

  lemma StillReading(h: Hashing, task: Task, seen: seq<Option<Account>>)
    requires |seen| < Reads(task.transaction)
    ensures AfterRead(h, task, seen) == Reading(seen)
  {}

  /** A task that reads in one go sees one state. */
  lemma ReadsPlan(h: Hashing, batch: seq<Task>, m: Moment, i: nat)
    requires i < |batch| == |m.ps| && m.ps[i] == Reading([])
    requires Plan(h, m.accounts, batch[i].transaction).Ok?
    ensures var effect := Plan(h, m.accounts, batch[i].transaction).value;
            Reaches(h, batch, m, Moment(m.accounts, m.ps[i := Writing(effect.changes, effect.receipt)]))
  {
    hide Reaches;
    var tx := batch[i].transaction;
    assert Seen(tx, m.accounts, 0) == [];
    ReadsAll(h, batch, m, i, 0);
    SeenPlan(h, batch[i], m.accounts);
  }

  lemma SeenPlan(h: Hashing, task: Task, now: Accounts)
    requires Plan(h, now, task.transaction).Ok?
    ensures var effect := Plan(h, now, task.transaction).value;
            AfterRead(h, task, Seen(task.transaction, now, Reads(task.transaction))) == Writing(effect.changes, effect.receipt)
  {
    var tx := task.transaction;
    var seen := Seen(tx, now, Reads(tx));
    assert SettleSeen(h, tx, seen) == Plan(h, now, tx);
  }

  lemma {:induction false} WritesAll(h: Hashing, batch: seq<Task>, m: Moment, i: nat, pending: Accounts, receipt: Receipt)
    requires i < |batch| == |m.ps| && m.ps[i] == Writing(pending, receipt)
    ensures Reaches(h, batch, m,
                    Moment(m.accounts + pending, m.ps[i := Collecting(batch[i].writeSet, map[], Ok(receipt))]))
    decreases pending.Keys
  {
    hide Reaches;
    if pending == map[] {
      assert m.accounts + pending == m.accounts;
      OneMove(h, batch, m, i, m.accounts, Collecting(batch[i].writeSet, map[], Ok(receipt)));
    } else {
      var x :| x in pending;
      var rest := pending - {x};
      var m' := Moment(m.accounts[x := pending[x]], m.ps[i := Writing(rest, receipt)]);
      OneMove(h, batch, m, i, m'.accounts, Writing(rest, receipt));
      WritesAll(h, batch, m', i, rest, receipt);
      assert m'.accounts + rest == m.accounts + pending;
      var end := Moment(m.accounts + pending, m.ps[i := Collecting(batch[i].writeSet, map[], Ok(receipt))]);
      assert m'.ps[i := end.ps[i]] == end.ps;
      ReachesThrough(h, batch, m, m', end);
    }
  }

  /** Everything collected so far is what the accounts hold. */
  ghost predicate Current(now: Accounts, collected: Accounts) {
    forall x | x in collected :: x in now && now[x] == collected[x]
  }

  lemma {:induction false} CollectsAll(h: Hashing, batch: seq<Task>, m: Moment, i: nat, todo: set<Address>,
                                       collected: Accounts, outcome: Outcome) returns (final: Accounts)
    requires i < |batch| == |m.ps| && m.ps[i] == Collecting(todo, collected, outcome) && Current(m.accounts, collected)
    ensures Reaches(h, batch, m, Moment(m.accounts, m.ps[i := Finished(final, outcome)])) && Current(m.accounts, final)
    decreases todo
  {
    hide Reaches;
    if todo == {} {
      final := collected;
      OneMove(h, batch, m, i, m.accounts, Finished(collected, outcome));
    } else {
      var x :| x in todo;
      var more := Put(collected, x, Lookup(m.accounts, x));
      var m' := Moment(m.accounts, m.ps[i := Collecting(todo - {x}, more, outcome)]);
      OneMove(h, batch, m, i, m.accounts, m'.ps[i]);
      final := CollectsAll(h, batch, m', i, todo - {x}, more, outcome);
      var end := Moment(m.accounts, m.ps[i := Finished(final, outcome)]);
      assert m'.ps[i := end.ps[i]] == end.ps;
      ReachesThrough(h, batch, m, m', end);
    }
  }

  /** The batch can end with these accounts, each task having the given outcome;
      writing back what the tasks collected changes nothing then. */
  ghost predicate CanEnd(h: Hashing, batch: seq<Task>, start: Accounts, end: Accounts, outcomes: seq<Outcome>) {
    exists ps: seq<Progress> ::
      && |ps| == |batch| == |outcomes|
      && Reaches(h, batch, Moment(start, Unstarted(|batch|)), Moment(end, ps))
      && forall i | 0 <= i < |ps| :: ps[i].Finished? && ps[i].outcome == outcomes[i] && Current(end, ps[i].collected)
  }

  /** Two unstarted tasks that would each succeed can both read before either
      writes: then both succeed, and the second one's writes cover the first's. */
  lemma BothFromReading(h: Hashing, batch: seq<Task>, m: Moment, i: nat, j: nat) returns (end: Moment)
    requires i < |batch| == |m.ps| && j < |batch| && i != j && m.ps[i] == m.ps[j] == Reading([])
    requires Plan(h, m.accounts, batch[i].transaction).Ok? && Plan(h, m.accounts, batch[j].transaction).Ok?
    ensures var a, b := Plan(h, m.accounts, batch[i].transaction).value, Plan(h, m.accounts, batch[j].transaction).value;
            && Reaches(h, batch, m, end) && end.accounts == m.accounts + a.changes + b.changes
            && |end.ps| == |batch| && end.ps == m.ps[i := end.ps[i]][j := end.ps[j]]
            && Done(end, i, Ok(a.receipt)) && Done(end, j, Ok(b.receipt))
  {
    hide Reaches, Plan;
    var s := m.accounts;
    var a, b := Plan(h, s, batch[i].transaction).value, Plan(h, s, batch[j].transaction).value;
    var m1 := Moment(s, m.ps[i := Writing(a.changes, a.receipt)]);
    ReadsPlan(h, batch, m, i);
    var m2 := Moment(s, m1.ps[j := Writing(b.changes, b.receipt)]);
    ReadsPlan(h, batch, m1, j);
    ReachesThrough(h, batch, m, m1, m2);
    var m3 := Moment(s + a.changes, m2.ps[i := Collecting(batch[i].writeSet, map[], Ok(a.receipt))]);
    WritesAll(h, batch, m2, i, a.changes, a.receipt);
    ReachesThrough(h, batch, m, m2, m3);
    var m4 := Moment(s + a.changes + b.changes, m3.ps[j := Collecting(batch[j].writeSet, map[], Ok(b.receipt))]);
    WritesAll(h, batch, m3, j, b.changes, b.receipt);
    ReachesThrough(h, batch, m, m3, m4);
    end := BothCollect(h, batch, m, m4, i, j, Ok(a.receipt), Ok(b.receipt));
    assert end.ps == m.ps[i := end.ps[i]][j := end.ps[j]];
  }

  /** A task has finished with this outcome, and what it collected is current. */
  ghost predicate Done(m: Moment, i: nat, outcome: Outcome)
    requires i < |m.ps|
  {
    m.ps[i].Finished? && m.ps[i].outcome == outcome && Current(m.accounts, m.ps[i].collected)
  }

  lemma BothCollect(h: Hashing, batch: seq<Task>, m0: Moment, m: Moment, i: nat, j: nat, oi: Outcome, oj: Outcome)
    returns (end: Moment)
    requires i < |batch| == |m.ps| && j < |batch| && i != j && Reaches(h, batch, m0, m)
    requires m.ps[i] == Collecting(batch[i].writeSet, map[], oi) && m.ps[j] == Collecting(batch[j].writeSet, map[], oj)
    ensures Reaches(h, batch, m0, end) && end.accounts == m.accounts && |end.ps| == |batch|
    ensures end.ps == m.ps[i := end.ps[i]][j := end.ps[j]] && Done(end, i, oi) && Done(end, j, oj)
  {
    hide Reaches;
    var fi := CollectsAll(h, batch, m, i, batch[i].writeSet, map[], oi);
    var m1 := Moment(m.accounts, m.ps[i := Finished(fi, oi)]);
    ReachesThrough(h, batch, m0, m, m1);
    var fj := CollectsAll(h, batch, m1, j, batch[j].writeSet, map[], oj);
    end := Moment(m.accounts, m1.ps[j := Finished(fj, oj)]);
    ReachesThrough(h, batch, m0, m1, end);
  }

  lemma BothReadFirst(h: Hashing, batch: seq<Task>, s: Accounts)
    requires |batch| == 2
    requires forall i | 0 <= i < 2 :: Plan(h, s, batch[i].transaction).Ok?
    ensures var a, b := Plan(h, s, batch[0].transaction).value, Plan(h, s, batch[1].transaction).value;
            CanEnd(h, batch, s, s + a.changes + b.changes, [Ok(a.receipt), Ok(b.receipt)])
  {
    hide Reaches, Plan;
    var end := BothFromReading(h, batch, Moment(s, Unstarted(2)), 0, 1);
  }

  // ----- lost updates -----

  /** Two payments into one account, from two others, can both succeed with only
      the second one credited: the first amount is gone. */
  lemma PaymentLost(h: Hashing, batch: seq<Task>, s: Accounts, recipient: Address)
    requires |batch| == 2
    requires forall i | 0 <= i < 2 :: Plan(h, s, batch[i].transaction).Ok? && batch[i].transaction.to == Some(recipient)
    requires batch[0].transaction.from != recipient && batch[1].transaction.from != recipient
    requires batch[0].transaction.from != batch[1].transaction.from
    ensures exists end: Accounts, outcomes: seq<Outcome> ::
              && |outcomes| == 2
              && CanEnd(h, batch, s, end, outcomes) && outcomes[0].Ok? && outcomes[1].Ok?
              && recipient in end
              && end[recipient].balance == BalanceAt(s, recipient) + batch[1].transaction.value
    ensures var serial := Serial(h, Ledger(s, map[]), batch).accounts;
            recipient in serial && serial[recipient].balance ==
              BalanceAt(s, recipient) + batch[0].transaction.value + batch[1].transaction.value
  {
    hide CanEnd, Plan, Execute, OutcomeOf;
    BothReadFirst(h, batch, s);
    var a, b := batch[0].transaction, batch[1].transaction;
    var ea, eb := Plan(h, s, a).value, Plan(h, s, b).value;
    var end := s + ea.changes + eb.changes;
    var outcomes: seq<Outcome> := [Ok(ea.receipt), Ok(eb.receipt)];
    assert CanEnd(h, batch, s, end, outcomes) && outcomes[0].Ok? && outcomes[1].Ok?;
    CoveredCredit(h, s, a, b, recipient);
    SerialTwo(h, s, batch);
    SerialCredits(h, s, a, b, recipient);
  }

  lemma CoveredCredit(h: Hashing, s: Accounts, a: Transaction, b: Transaction, recipient: Address)
    requires Plan(h, s, a).Ok? && Plan(h, s, b).Ok? && b.to == Some(recipient) && b.from != recipient
    ensures var end := s + Plan(h, s, a).value.changes + Plan(h, s, b).value.changes;
            recipient in end && end[recipient].balance == BalanceAt(s, recipient) + b.value
  {}

  lemma SerialCredits(h: Hashing, s: Accounts, a: Transaction, b: Transaction, recipient: Address)
    requires Plan(h, s, a).Ok? && Plan(h, s, b).Ok? && a.to == b.to == Some(recipient)
    requires a.from != recipient && b.from != recipient && a.from != b.from
    ensures var serial := Execute(h, Execute(h, s, a), b);
            recipient in serial && serial[recipient].balance == BalanceAt(s, recipient) + a.value + b.value
  {
    var after := Execute(h, s, a);
    assert after[recipient].balance == BalanceAt(s, recipient) + a.value;
    assert IsContract(Lookup(after, recipient)) == IsContract(Lookup(s, recipient));
    assert Lookup(after, b.from) == Lookup(s, b.from);
  }

  function BalanceAt(s: Accounts, x: Address): nat {
    if x in s then s[x].balance else 0
  }

  lemma SerialTwo(h: Hashing, s: Accounts, batch: seq<Task>)
    requires |batch| == 2
    ensures Serial(h, Ledger(s, map[]), batch) == Step(h, Step(h, Ledger(s, map[]), batch[0]), batch[1])
  {
    hide Execute, OutcomeOf;
    var first := Ledger(s, map[]);
    assert batch == [] + [batch[0]] + [batch[1]];
    SerialSnoc(h, first, [] + [batch[0]], batch[1]);
    SerialSnoc(h, first, [], batch[0]);
  }

  // ----- creations the analysis does not see -----

  /** Can succeed where its target holds no code. */
  predicate Live(tx: Transaction) {
    SignatureOk(tx) && tx.gasLimit >= GasUsed(tx, None)
  }

  /** `a` creates a contract at an address that `b` uses, and nothing else that
      the analysis sees is shared. */
  predicate Hits(h: Hashing, a: Transaction, b: Transaction) {
    && a.to.None? && Target(h, a) != a.from && Target(h, a) in WriteSet(b)
    && a.from !in WriteSet(b)
    && (b.to.None? ==> Target(h, b) != Target(h, a))
  }

  /** The two senders, each with just what its transaction costs. */
  function Funded(a: Transaction, b: Transaction): Accounts {
    map[a.from := Account(a.nonce, TotalCost(a), 0, None), b.from := Account(b.nonce, TotalCost(b), 0, None)]
  }

  /** A pair that shares an account without a visible conflict is a creation at an
      address the other one uses, unless both create at the same address. */
  lemma HiddenSharingHits(h: Hashing, accounts: Accounts, a: Transaction, b: Transaction)
    requires !(Footprint(h, a) !! Footprint(h, b))
    requires !HasConflict(Analyze(accounts, 0, a), Analyze(accounts, 1, b))
    ensures Hits(h, a, b) || Hits(h, b, a) || (a.to.None? && b.to.None? && Target(h, a) == Target(h, b))
  {
    var wa, wb := WriteSet(a), WriteSet(b);
    assert wa !! wb;
    assert a.from in wa && b.from in wb;
    var x :| x in Footprint(h, a) && x in Footprint(h, b);
    assert x in wa || (a.to.None? && x == Target(h, a));
    assert x in wb || (b.to.None? && x == Target(h, b));
  }

  lemma FundedPlan(h: Hashing, a: Transaction, b: Transaction)
    requires Live(a) && Live(b) && Hits(h, a, b)
    ensures Plan(h, Funded(a, b), a).Ok? && Plan(h, Funded(a, b), b).Ok?
    ensures !HasConflict(Analyze(Funded(a, b), 0, a), Analyze(Funded(a, b), 1, b))
    ensures !HasConflict(Analyze(Funded(a, b), 0, b), Analyze(Funded(a, b), 1, a))
  {
    var s := Funded(a, b);
    assert b.from in WriteSet(b) && a.from != b.from;
    if b.to.Some? {
      assert !IsContract(Lookup(s, b.to.value));
    }
    assert ReadSet(s, a) == {a.from} && ReadSet(s, b) == {b.from};
  }

  /** Whether an account holds code. */
  predicate Coded(s: Accounts, x: Address) {
    IsContract(Lookup(s, x))
  }

  lemma CreationCodes(h: Hashing, s: Accounts, a: Transaction)
    requires a.to.None? && Target(h, a) != a.from && Plan(h, s, a).Ok?
    ensures Coded(Execute(h, s, a), Target(h, a))
  {}

  /** A transaction never takes code away. */
  lemma CodeStays(h: Hashing, s: Accounts, b: Transaction, x: Address)
    requires Coded(s, x)
    ensures Coded(Execute(h, s, b), x)
  {}

  lemma OverwritesCode(h: Hashing, a: Transaction, b: Transaction)
    requires Live(a) && Live(b) && Hits(h, a, b) && Plan(h, Funded(a, b), a).Ok? && Plan(h, Funded(a, b), b).Ok?
    ensures var s := Funded(a, b);
            !Coded(s + Plan(h, s, a).value.changes + Plan(h, s, b).value.changes, Target(h, a))
  {
    assert b.from in WriteSet(b);
  }

  /** Every pair that can succeed and shares a created address unseen goes into
      one batch, and a schedule of that batch ends as no serial order does: the
      code of the new contract is overwritten by what the other had read. */
  lemma HiddenPairRaces(h: Hashing, a: Transaction, b: Transaction, i: nat, j: nat)
    requires Live(a) && Live(b) && Hits(h, a, b)
    ensures var s := Funded(a, b);
            var batch := [Analyze(s, i, a), Analyze(s, j, b)];
            && !HasConflict(batch[0], batch[1]) && !HasConflict(batch[1], batch[0])
            && exists end: Accounts, oa: Outcome, ob: Outcome ::
                 && CanEnd(h, batch, s, end, [oa, ob])
                 && (end, oa, ob) != OneThenOther(h, s, a, b)
                 && (end, ob, oa) != OneThenOther(h, s, b, a)
  {
    var s := Funded(a, b);
    var batch := [Analyze(s, i, a), Analyze(s, j, b)];
    FundedPlan(h, a, b);
    BothReadFirst(h, batch, s);
    var ea, eb := Plan(h, s, a).value, Plan(h, s, b).value;
    var end := s + ea.changes + eb.changes;
    OverwritesCode(h, a, b);
    CreationCodes(h, s, a);
    CodeStays(h, Execute(h, s, a), b, Target(h, a));
    if Plan(h, Execute(h, s, b), a).Ok? {
      CreationCodes(h, Execute(h, s, b), a);
    }
    hide CanEnd, Execute, OutcomeOf, Coded;
    SecondFails(h, Execute(h, s, b), a);
    assert CanEnd(h, batch, s, end, [Ok(ea.receipt), Ok(eb.receipt)]);
    assert (end, Outcome.Ok(ea.receipt), Outcome.Ok(eb.receipt)) != OneThenOther(h, s, a, b);
    assert (end, Outcome.Ok(eb.receipt), Outcome.Ok(ea.receipt)) != OneThenOther(h, s, b, a);
  }

  /** Creations at one address, with different code or, at an address neither
      sends from, different values. */
  predicate TwinCreations(h: Hashing, a: Transaction, b: Transaction) {
    && a.to.None? && b.to.None? && Target(h, a) == Target(h, b) && a.from != b.from
    && (|| h.codeHash(a.data) != h.codeHash(b.data)
        || (a.value != b.value && Target(h, a) != a.from && Target(h, a) != b.from))
  }

  /** The rest of the hidden pairs: of two creations at one address the one that is
      later in the batch can come second, where parallel execution has it first. */
  lemma TwinCreationsRace(h: Hashing, a: Transaction, b: Transaction, i: nat, j: nat)
    requires Live(a) && Live(b) && TwinCreations(h, a, b)
    ensures var s := Funded(a, b);
            var batch := [Analyze(s, i, a), Analyze(s, j, b)];
            && !HasConflict(batch[0], batch[1]) && !HasConflict(batch[1], batch[0])
            && exists end: Accounts, oa: Outcome, ob: Outcome ::
                 CanEnd(h, batch, s, end, [oa, ob]) && (end, ob, oa) != OneThenOther(h, s, b, a)
  {
    var s := Funded(a, b);
    var batch := [Analyze(s, i, a), Analyze(s, j, b)];
    assert Plan(h, s, a).Ok? && Plan(h, s, b).Ok?;
    BothReadFirst(h, batch, s);
    var ea, eb := Plan(h, s, a).value, Plan(h, s, b).value;
    var end := s + ea.changes + eb.changes;
    TwinsDiffer(h, a, b);
    hide CanEnd, Execute, OutcomeOf;
    assert CanEnd(h, batch, s, end, [Ok(ea.receipt), Ok(eb.receipt)]);
    assert (end, Outcome.Ok(eb.receipt), Outcome.Ok(ea.receipt)) != OneThenOther(h, s, b, a);
  }

  lemma TwinsDiffer(h: Hashing, a: Transaction, b: Transaction)
    requires Live(a) && Live(b) && TwinCreations(h, a, b)
    ensures var s := Funded(a, b);
            && Plan(h, s, a).Ok? && Plan(h, s, b).Ok?
            && (s + Plan(h, s, a).value.changes + Plan(h, s, b).value.changes,
                Outcome.Ok(Plan(h, s, b).value.receipt), Outcome.Ok(Plan(h, s, a).value.receipt)) != OneThenOther(h, s, b, a)
  {
    var s, x := Funded(a, b), Target(h, a);
    var end := s + Plan(h, s, a).value.changes + Plan(h, s, b).value.changes;
    var after := Execute(h, s, b);
    if OutcomeOf(h, after, a).Ok? {
      var serial := Execute(h, after, a);
      assert x in end && x in serial;
      assert end[x].codeHash == Some(h.codeHash(b.data)) && serial[x].codeHash == Some(h.codeHash(a.data));
      assert end[x] != serial[x];
    }
  }

  lemma SecondFails(h: Hashing, s: Accounts, a: Transaction)
    ensures Plan(h, s, a).Err? ==> OutcomeOf(h, s, a).Err?
  {}
}
