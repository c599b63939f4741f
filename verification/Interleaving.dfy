/**
 * One batch of the parallel executor (state_machine/parallel.rs): tasks as
 * sequences of atomic accesses to the shared accounts, interleaved in any way.
 */
module Interleaving {
  import opened Common
  import opened Executor
  import opened Scheduler
  import opened Traces

  // ----- serial runs of tasks -----

  /** The account state together with the outcome of every task run so far. */
  datatype Ledger = Ledger(accounts: Accounts, outcomes: map<nat, Outcome>)

  function Step(h: Hashing, s: Ledger, t: Task): Ledger {
    Ledger(Execute(h, s.accounts, t.transaction),
           s.outcomes[t.id := OutcomeOf(h, s.accounts, t.transaction)])
  }

  function Serial(h: Hashing, s: Ledger, tasks: seq<Task>): Ledger {
    Run((l: Ledger, t: Task) => Step(h, l, t), s, tasks)
  }

  /** The accounts and the two outcomes of a serial run, first `a`, then `b`. */
  function OneThenOther(h: Hashing, s: Accounts, a: Transaction, b: Transaction): (Accounts, Outcome, Outcome) {
    var after := Execute(h, s, a);
    (Execute(h, after, b), OutcomeOf(h, s, a), OutcomeOf(h, after, b))
  }

  /** The accounts a transaction reads or writes. */
  function Footprint(h: Hashing, tx: Transaction): set<Address> {
    {tx.from, Target(h, tx)}
  }

  ghost predicate AgreeOn(fp: set<Address>, a: Accounts, b: Accounts) {
    forall x | x in fp :: Lookup(a, x) == Lookup(b, x)
  }

  lemma Locality(h: Hashing, tx: Transaction, a: Accounts, b: Accounts)
    requires AgreeOn(Footprint(h, tx), a, b)
    ensures Plan(h, a, tx) == Plan(h, b, tx)
    ensures OutcomeOf(h, a, tx) == OutcomeOf(h, b, tx)
    ensures AgreeOn(Footprint(h, tx), Execute(h, a, tx), Execute(h, b, tx))
  {
    assert tx.from in Footprint(h, tx) && Target(h, tx) in Footprint(h, tx);
  }

  lemma OutsideUnchanged(h: Hashing, tx: Transaction, a: Accounts, x: Address)
    requires x !in Footprint(h, tx)
    ensures Lookup(Execute(h, a, tx), x) == Lookup(a, x)
  {
  }

  // ----- one task as a sequence of atomic accesses to the database -----

  /** How far a worker has got with a task: reading accounts, writing the
      changes one by one, collecting the write set one by one, or done. */
  datatype Progress =
    | Reading(seen: seq<Option<Account>>)
    | Writing(pending: Accounts, receipt: Receipt)
    | Collecting(todo: set<Address>, collected: Accounts, outcome: Outcome)
    | Finished(collected: Accounts, outcome: Outcome)

  /** The sender is read twice, then the recipient, if any, twice. */
  function Reads(tx: Transaction): nat {
    if tx.to.Some? then 4 else 2
  }

  function ReadAddress(tx: Transaction, r: nat): Address
    requires r < Reads(tx)
  {
    if r < 2 then tx.from else tx.to.value
  }

  function SettleSeen(h: Hashing, tx: Transaction, seen: seq<Option<Account>>): Result<Effect, Error>
    requires |seen| == Reads(tx)
  {
    if tx.to.Some? then Settle(h, tx, seen[0], seen[1], seen[2], seen[3])
    else Settle(h, tx, seen[0], seen[1], None, None)
  }

  predicate Plausible(h: Hashing, task: Task, p: Progress) {
    match p
    case Reading(seen) => |seen| < Reads(task.transaction)
    case Writing(pending, _) => pending.Keys <= Footprint(h, task.transaction)
    case Collecting(todo, _, _) => todo <= task.writeSet
    case Finished(_, _) => true
  }

  /** Bounds the atomic accesses a task has left. */
  function Work(h: Hashing, task: Task, p: Progress): nat
    requires Plausible(h, task, p)
  {
    match p
    case Reading(seen) => 9 - |seen| + |task.writeSet|
    case Writing(pending, _) => 2 + |pending.Keys| + |task.writeSet|
    case Collecting(todo, _, _) => 1 + |todo|
    case Finished(_, _) => 0
  }

  /** Where a task is once it has seen one more account. */
  function AfterRead(h: Hashing, task: Task, seen: seq<Option<Account>>): Progress
    requires |seen| <= Reads(task.transaction)
  {
    if |seen| < Reads(task.transaction) then Reading(seen)
    else
      match SettleSeen(h, task.transaction, seen)
      case Ok(effect) => Writing(effect.changes, effect.receipt)
      case Err(e) => Collecting(task.writeSet, map[], Err(e))
  }

  /** The atomic accesses a task can make next. */
  ghost predicate Moves(h: Hashing, task: Task, now: Accounts, p: Progress, now': Accounts, p': Progress) {
    match p
    case Reading(seen) =>
      && |seen| < Reads(task.transaction) && now' == now
      && p' == AfterRead(h, task, seen + [Lookup(now, ReadAddress(task.transaction, |seen|))])
    case Writing(pending, receipt) =>
      if pending == map[] then now' == now && p' == Collecting(task.writeSet, map[], Ok(receipt))
      else exists x :: x in pending && now' == now[x := pending[x]] && p' == Writing(pending - {x}, receipt)
    case Collecting(todo, collected, outcome) =>
      if todo == {} then now' == now && p' == Finished(collected, outcome)
      else now' == now && exists x :: x in todo && p' == Collecting(todo - {x}, Put(collected, x, Lookup(now, x)), outcome)
    case Finished(_, _) => false
  }

  /** How the progress of a task that started on `before` relates to the
      current accounts, as long as nobody else touches its footprint. */
  ghost predicate Consistent(h: Hashing, task: Task, before: Accounts, now: Accounts, p: Progress) {
    var tx := task.transaction;
    var fp := Footprint(h, tx);
    match p
    case Reading(seen) =>
      && |seen| < Reads(tx)
      && AgreeOn(fp, now, before)
      && forall r | 0 <= r < |seen| :: seen[r] == Lookup(before, ReadAddress(tx, r))
    case Writing(pending, receipt) =>
      && Plan(h, before, tx).Ok?
      && receipt == Plan(h, before, tx).value.receipt
      && pending.Keys <= fp
      && (forall x | x in pending :: Lookup(Execute(h, before, tx), x) == Some(pending[x]))
      && (forall x | x in fp && x !in pending :: Lookup(now, x) == Lookup(Execute(h, before, tx), x))
    case Collecting(todo, collected, outcome) =>
      && AgreeOn(fp, now, Execute(h, before, tx))
      && outcome == OutcomeOf(h, before, tx)
      && collected.Keys <= task.writeSet
      && forall x | x in task.writeSet && x !in todo :: Lookup(collected, x) == Lookup(now, x)
    case Finished(collected, outcome) =>
      && AgreeOn(fp, now, Execute(h, before, tx))
      && outcome == OutcomeOf(h, before, tx)
      && collected.Keys <= task.writeSet
      && forall x | x in task.writeSet :: Lookup(collected, x) == Lookup(now, x)
  }

  /** The next atomic access of a task. A task that fails early is taken to
      make its remaining reads as well; they touch nothing. */
  method Advance(h: Hashing, db: StateDB, task: Task, p: Progress, ghost before: Accounts) returns (next: Progress)
    requires Plausible(h, task, p) && !p.Finished?
    modifies db
    ensures Plausible(h, task, next) && Work(h, task, next) < Work(h, task, p)
    ensures Moves(h, task, old(db.accounts), p, db.accounts, next)
    ensures forall x | x !in Footprint(h, task.transaction) :: Lookup(db.accounts, x) == Lookup(old(db.accounts), x)
    ensures Consistent(h, task, before, old(db.accounts), p) && task.writeSet <= Footprint(h, task.transaction)
        ==> Consistent(h, task, before, db.accounts, next)
  {
    match p {
      case Reading(seen) => next := AdvanceRead(h, db, task, seen, before);
      case Writing(pending, receipt) => next := AdvanceWrite(h, db, task, pending, receipt, before);
      case Collecting(todo, collected, outcome) => next := AdvanceCollect(h, db, task, todo, collected, outcome, before);
    }
  }

  method AdvanceWrite(h: Hashing, db: StateDB, task: Task, pending: Accounts, receipt: Receipt, ghost before: Accounts)
    returns (next: Progress)
    requires pending.Keys <= Footprint(h, task.transaction)
    modifies db
    ensures Plausible(h, task, next) && Work(h, task, next) < Work(h, task, Writing(pending, receipt))
    ensures Moves(h, task, old(db.accounts), Writing(pending, receipt), db.accounts, next)
    ensures forall x | x !in Footprint(h, task.transaction) :: Lookup(db.accounts, x) == Lookup(old(db.accounts), x)
    ensures Consistent(h, task, before, old(db.accounts), Writing(pending, receipt))
        ==> Consistent(h, task, before, db.accounts, next)
  {
    if pending == map[] {
      next := Collecting(task.writeSet, map[], Ok(receipt));
    } else {
      var x :| x in pending;
      db.SetAccount(x, pending[x]);
      next := Writing(pending - {x}, receipt);
      assert (pending - {x}).Keys == pending.Keys - {x};
    }
  }

  method AdvanceCollect(h: Hashing, db: StateDB, task: Task, todo: set<Address>, collected: Accounts, outcome: Outcome,
                        ghost before: Accounts)
    returns (next: Progress)
    requires todo <= task.writeSet
    ensures Plausible(h, task, next) && Work(h, task, next) < Work(h, task, Collecting(todo, collected, outcome))
    ensures Moves(h, task, db.accounts, Collecting(todo, collected, outcome), db.accounts, next)
    ensures Consistent(h, task, before, db.accounts, Collecting(todo, collected, outcome))
        ==> Consistent(h, task, before, db.accounts, next)
  {
    if todo == {} {
      next := Finished(collected, outcome);
    } else {
      var x :| x in todo;
      var account := Lookup(db.accounts, x);
      next := Collecting(todo - {x}, Put(collected, x, account), outcome);
    }
  }

  method AdvanceRead(h: Hashing, db: StateDB, task: Task, seen: seq<Option<Account>>, ghost before: Accounts) returns (next: Progress)
    requires |seen| < Reads(task.transaction)
    ensures Plausible(h, task, next) && Work(h, task, next) < Work(h, task, Reading(seen))
    ensures Moves(h, task, db.accounts, Reading(seen), db.accounts, next)
    ensures Consistent(h, task, before, db.accounts, Reading(seen)) ==> Consistent(h, task, before, db.accounts, next)
  {
    var tx := task.transaction;
    var seen' := seen + [Lookup(db.accounts, ReadAddress(tx, |seen|))];
    if |seen'| < Reads(tx) {
      next := Reading(seen');
    } else {
      match SettleSeen(h, tx, seen') {
        case Ok(effect) =>
          next := Writing(effect.changes, effect.receipt);
          assert |{tx.from, Target(h, tx)}| <= 2;
        case Err(e) =>
          next := Collecting(task.writeSet, map[], Err(e));
      }
    }
  }

  // ----- a batch of tasks, interleaved in any way -----

  /** No two tasks of the batch touch a common account. */
  ghost predicate Independent(h: Hashing, batch: seq<Task>) {
    && (forall t | t in batch :: t.writeSet <= Footprint(h, t.transaction))
    && (forall i, j | 0 <= i < j < |batch| ::
          batch[i].id != batch[j].id && Footprint(h, batch[i].transaction) !! Footprint(h, batch[j].transaction))
  }

  ghost predicate AllConsistent(h: Hashing, batch: seq<Task>, before: Accounts, now: Accounts, ps: seq<Progress>) {
    |ps| == |batch| && forall i | 0 <= i < |batch| :: Consistent(h, batch[i], before, now, ps[i])
  }

  ghost predicate SameOutside(h: Hashing, batch: seq<Task>, a: Accounts, b: Accounts) {
    forall x | forall t | t in batch :: x !in Footprint(h, t.transaction) :: Lookup(a, x) == Lookup(b, x)
  }

  lemma ConsistentFrame(h: Hashing, task: Task, before: Accounts, now: Accounts, now': Accounts, p: Progress)
    requires task.writeSet <= Footprint(h, task.transaction)
    requires AgreeOn(Footprint(h, task.transaction), now, now')
    requires Consistent(h, task, before, now, p)
    ensures Consistent(h, task, before, now', p)
  {
  }

  ghost predicate AllPlausible(h: Hashing, batch: seq<Task>, ps: seq<Progress>) {
    |ps| == |batch| && forall i | 0 <= i < |batch| :: Plausible(h, batch[i], ps[i])
  }

  ghost function TotalWork(h: Hashing, batch: seq<Task>, ps: seq<Progress>): nat
    requires AllPlausible(h, batch, ps)
  {
    if batch == [] then 0 else Work(h, batch[0], ps[0]) + TotalWork(h, batch[1..], ps[1..])
  }

  lemma {:induction false} WorkFalls(h: Hashing, batch: seq<Task>, ps: seq<Progress>, i: nat, next: Progress)
    requires AllPlausible(h, batch, ps) && i < |batch| && Plausible(h, batch[i], next)
    requires Work(h, batch[i], next) < Work(h, batch[i], ps[i])
    ensures AllPlausible(h, batch, ps[i := next])
    ensures TotalWork(h, batch, ps[i := next]) < TotalWork(h, batch, ps)
    decreases i
  {
    if i == 0 {
      assert ps[i := next][1..] == ps[1..];
    } else {
      WorkFalls(h, batch[1..], ps[1..], i - 1, next);
      assert ps[i := next][1..] == ps[1..][i - 1 := next];
    }
  }

  /** The accounts and how far each task has got. */
  datatype Moment = Moment(accounts: Accounts, ps: seq<Progress>)

  /** One task of the batch makes one access. */
  ghost predicate BatchMoves(h: Hashing, batch: seq<Task>, m: Moment, m': Moment) {
    && |m.ps| == |m'.ps| == |batch|
    && exists i :: 0 <= i < |batch| && MovesAt(h, batch, m, m', i)
  }

  ghost predicate MovesAt(h: Hashing, batch: seq<Task>, m: Moment, m': Moment, i: nat)
    requires i < |batch| == |m.ps| == |m'.ps|
  {
    Moves(h, batch[i], m.accounts, m.ps[i], m'.accounts, m'.ps[i]) && m'.ps == m.ps[i := m'.ps[i]]
  }

  /** A schedule: the moments of the batch, one access apart. */
  ghost predicate IsSchedule(h: Hashing, batch: seq<Task>, moments: seq<Moment>) {
    && moments != []
    && forall k | 0 < k < |moments| :: BatchMoves(h, batch, moments[k - 1], moments[k])
  }

  /** Some schedule leads from one moment to the other. */
  ghost predicate Reaches(h: Hashing, batch: seq<Task>, m: Moment, m': Moment) {
    exists moments :: IsSchedule(h, batch, moments) && moments[0] == m && moments[|moments| - 1] == m'
  }

  function Unstarted(n: nat): seq<Progress> {
    seq(n, _ => Reading([]))
  }

  lemma ReachesItself(h: Hashing, batch: seq<Task>, m: Moment)
    ensures Reaches(h, batch, m, m)
  {
    assert IsSchedule(h, batch, [m]);
  }

  lemma ReachesOn(h: Hashing, batch: seq<Task>, a: Moment, b: Moment, c: Moment)
    requires Reaches(h, batch, a, b) && BatchMoves(h, batch, b, c)
    ensures Reaches(h, batch, a, c)
  {
    var moments :| IsSchedule(h, batch, moments) && moments[0] == a && moments[|moments| - 1] == b;
    var longer := moments + [c];
    forall k | 0 < k < |longer|
      ensures BatchMoves(h, batch, longer[k - 1], longer[k])
    {
      if k < |moments| {
        assert BatchMoves(h, batch, moments[k - 1], moments[k]);
      }
    }
    assert IsSchedule(h, batch, longer);
  }

  /** The workers of `execute_parallel_batch`: as long as a task is unfinished,
      some unfinished task makes its next access to the shared accounts. */
  method Interleave(h: Hashing, db: StateDB, batch: seq<Task>) returns (ps: seq<Progress>)
    modifies db
    ensures |ps| == |batch| && forall i | 0 <= i < |ps| :: ps[i].Finished?
    ensures Reaches(h, batch, Moment(old(db.accounts), Unstarted(|batch|)), Moment(db.accounts, ps))
    ensures Independent(h, batch) ==>
              && AllConsistent(h, batch, old(db.accounts), db.accounts, ps)
              && SameOutside(h, batch, old(db.accounts), db.accounts)
  {
    hide Reaches, Moves;
    ghost var before := db.accounts;
    ps := Unstarted(|batch|);
    ghost var start := Moment(before, ps);
    ReachesItself(h, batch, start);
    while exists i :: 0 <= i < |ps| && !ps[i].Finished?
      invariant AllPlausible(h, batch, ps)
      invariant Reaches(h, batch, start, Moment(db.accounts, ps))
      invariant Independent(h, batch) ==> AllConsistent(h, batch, before, db.accounts, ps)
      invariant Independent(h, batch) ==> SameOutside(h, batch, before, db.accounts)
      decreases TotalWork(h, batch, ps)
    {
      var i :| 0 <= i < |ps| && !ps[i].Finished?;
      ghost var now := db.accounts;
      var next := Advance(h, db, batch[i], ps[i], before);
      WorkFalls(h, batch, ps, i, next);
      assert MovesAt(h, batch, Moment(now, ps), Moment(db.accounts, ps[i := next]), i);
      ReachesOn(h, batch, start, Moment(now, ps), Moment(db.accounts, ps[i := next]));
      if Independent(h, batch) {
        OthersConsistent(h, batch, before, now, db.accounts, ps, i, next);
      }
      ps := ps[i := next];
    }
  }

  lemma OthersConsistent(h: Hashing, batch: seq<Task>, before: Accounts, now: Accounts, now': Accounts,
                         ps: seq<Progress>, i: nat, next: Progress)
    requires Independent(h, batch) && i < |batch|
    requires AllConsistent(h, batch, before, now, ps) && SameOutside(h, batch, before, now)
    requires forall x | x !in Footprint(h, batch[i].transaction) :: Lookup(now', x) == Lookup(now, x)
    requires Consistent(h, batch[i], before, now', next)
    ensures AllConsistent(h, batch, before, now', ps[i := next]) && SameOutside(h, batch, before, now')
  {
    forall j | 0 <= j < |batch| && j != i
      ensures Consistent(h, batch[j], before, now', ps[j])
    {
      ConsistentFrame(h, batch[j], before, now, now', ps[j]);
    }
  }

  /** Writing back what a task collected changes nothing. */
  lemma CollectedIsCurrent(h: Hashing, task: Task, before: Accounts, now: Accounts, p: Progress)
    requires Consistent(h, task, before, now, p) && p.Finished?
    ensures now + p.collected == now
  {
    forall x | x in p.collected
      ensures x in now && now[x] == p.collected[x]
    {
      assert Lookup(p.collected, x) == Lookup(now, x);
    }
  }

  /** Each task done so far has reported its own outcome. */
  ghost predicate Reported(batch: seq<Task>, ps: seq<Progress>, done: set<nat>, outcomes: map<nat, Outcome>)
    requires forall i | i in done :: i < |batch| && i < |ps| && ps[i].Finished?
  {
    && (forall i | i in done :: batch[i].id in outcomes && outcomes[batch[i].id] == ps[i].outcome)
    && outcomes.Keys <= Ids(batch)
  }

  /** Writes the collected accounts of the successful tasks once more, the
      results arriving in any order. */
  method ApplyResults(h: Hashing, db: StateDB, batch: seq<Task>, ps: seq<Progress>, ghost before: Accounts)
    returns (outcomes: map<nat, Outcome>)
    requires |ps| == |batch| && forall i | 0 <= i < |ps| :: ps[i].Finished?
    modifies db
    ensures Independent(h, batch) && AllConsistent(h, batch, before, old(db.accounts), ps)
        ==> db.accounts == old(db.accounts)
    ensures Independent(h, batch) ==> Reported(batch, ps, IndexSet(|ps|), outcomes)
    ensures outcomes.Keys == Ids(batch)
  {
    hide Consistent;
    outcomes := map[];
    var todo, done := IndexSet(|ps|), {};
    while todo != {}
      invariant todo + done == IndexSet(|ps|) && todo !! done
      invariant Independent(h, batch) && AllConsistent(h, batch, before, old(db.accounts), ps)
          ==> db.accounts == old(db.accounts)
      invariant Independent(h, batch) ==> Reported(batch, ps, done, outcomes)
      invariant forall id :: id in outcomes <==> exists i :: i in done && batch[i].id == id
      decreases todo
    {
      var i :| i in todo;
      if ps[i].outcome.Ok? {
        if AllConsistent(h, batch, before, db.accounts, ps) {
          CollectedIsCurrent(h, batch[i], before, db.accounts, ps[i]);
        }
        ApplyChanges(db, ps[i].collected);
      }
      if Independent(h, batch) {
        ReportedAdd(batch, ps, done, i, outcomes);
      }
      todo, done := todo - {i}, done + {i};
      outcomes := outcomes[batch[i].id := ps[i].outcome];
    }
    assert done == IndexSet(|ps|);
    forall id
      ensures id in outcomes <==> id in Ids(batch)
    {
      if id in Ids(batch) {
        var t :| t in batch && t.id == id;
        var i :| 0 <= i < |batch| && batch[i] == t;
        assert i in done;
      }
    }
  }

  lemma ReportedAdd(batch: seq<Task>, ps: seq<Progress>, done: set<nat>, i: nat, outcomes: map<nat, Outcome>)
    requires forall j | j in done :: j < |batch| && j < |ps| && ps[j].Finished?
    requires i < |batch| && i < |ps| && ps[i].Finished? && i !in done
    requires forall j, k | 0 <= j < k < |batch| :: batch[j].id != batch[k].id
    requires Reported(batch, ps, done, outcomes)
    ensures Reported(batch, ps, done + {i}, outcomes[batch[i].id := ps[i].outcome])
  {
    assert batch[i] in batch && batch[i].id in Ids(batch);
  }

  function IndexSet(n: nat): (r: set<nat>)
    ensures forall i: nat :: i in r <==> i < n
  {
    if n == 0 then {} else IndexSet(n - 1) + {n - 1}
  }

  /** `l` is `before` with the effect of each task of the batch, as it would be
      on `before` alone. */
  ghost predicate Applied(h: Hashing, before: Accounts, batch: seq<Task>, l: Ledger) {
    && l.outcomes.Keys == Ids(batch)
    && SameOutside(h, batch, before, l.accounts)
    && forall t | t in batch ::
         && AgreeOn(Footprint(h, t.transaction), l.accounts, Execute(h, before, t.transaction))
         && l.outcomes[t.id] == OutcomeOf(h, before, t.transaction)
  }

  lemma {:induction false} SerialDisjoint(h: Hashing, before: Accounts, batch: seq<Task>)
    requires Independent(h, batch)
    ensures Applied(h, before, batch, Serial(h, Ledger(before, map[]), batch))
    decreases |batch|
  {
    if batch == [] {
      assert Ids(batch) == {};
    } else {
      var n := |batch| - 1;
      assert batch == batch[..n] + [batch[n]];
      SerialDisjoint(h, before, batch[..n]);
      SerialSnoc(h, Ledger(before, map[]), batch[..n], batch[n]);
      AppliedStep(h, before, batch[..n], batch[n], Serial(h, Ledger(before, map[]), batch[..n]));
    }
  }

  lemma AppliedStep(h: Hashing, before: Accounts, init: seq<Task>, last: Task, l: Ledger)
    requires Applied(h, before, init, l)
    requires forall t | t in init ::
               t.id != last.id && Footprint(h, t.transaction) !! Footprint(h, last.transaction)
    ensures Applied(h, before, init + [last], Step(h, l, last))
  {
    hide Execute, OutcomeOf;
    var l' := Step(h, l, last);
    assert AgreeOn(Footprint(h, last.transaction), l.accounts, before);
    Locality(h, last.transaction, l.accounts, before);
    forall x | forall t | t in init + [last] :: x !in Footprint(h, t.transaction)
      ensures Lookup(before, x) == Lookup(l'.accounts, x)
    {
      assert last in init + [last];
      assert forall t | t in init :: t in init + [last];
      OutsideUnchanged(h, last.transaction, l.accounts, x);
    }
    forall t | t in init
      ensures AgreeOn(Footprint(h, t.transaction), l'.accounts, l.accounts)
    {
      forall x | x in Footprint(h, t.transaction)
        ensures Lookup(l'.accounts, x) == Lookup(l.accounts, x)
      {
        OutsideUnchanged(h, last.transaction, l.accounts, x);
      }
    }
    assert Ids(init + [last]) == Ids(init) + {last.id};
  }

  lemma SerialSnoc(h: Hashing, s: Ledger, tasks: seq<Task>, t: Task)
    ensures Serial(h, s, tasks + [t]) == Step(h, Serial(h, s, tasks), t)
  {
    var step := (l: Ledger, t: Task) => Step(h, l, t);
    RunConcat(step, s, tasks, [t]);
    var s' := Run(step, s, tasks);
    assert Run(step, s', [t]) == Run(step, step(s', t), [][..]);
  }

  lemma AppliedUnique(h: Hashing, before: Accounts, batch: seq<Task>, l: Ledger, l': Ledger)
    requires Applied(h, before, batch, l) && Applied(h, before, batch, l')
    ensures l == l'
  {
    hide Execute, OutcomeOf;
    forall x
      ensures Lookup(l.accounts, x) == Lookup(l'.accounts, x)
    {
      if t :| t in batch && x in Footprint(h, t.transaction) {
        assert AgreeOn(Footprint(h, t.transaction), l.accounts, Execute(h, before, t.transaction));
      }
    }
    SameLookups(l.accounts, l'.accounts);
    forall id | id in l.outcomes
      ensures l.outcomes[id] == l'.outcomes[id]
    {
      var t :| t in batch && t.id == id;
    }
    assert l.outcomes == l'.outcomes;
  }

  lemma SameLookups(a: Accounts, b: Accounts)
    requires forall x :: Lookup(a, x) == Lookup(b, x)
    ensures a == b
  {
    forall x
      ensures x in a <==> x in b
      ensures x in a ==> a[x] == b[x]
    {
      assert Lookup(a, x) == Lookup(b, x);
    }
  }

  lemma FinishedTask(h: Hashing, task: Task, before: Accounts, now: Accounts, p: Progress)
    requires Consistent(h, task, before, now, p) && p.Finished?
    ensures AgreeOn(Footprint(h, task.transaction), now, Execute(h, before, task.transaction))
    ensures p.outcome == OutcomeOf(h, before, task.transaction)
  {
  }

  lemma FinishedIsApplied(h: Hashing, before: Accounts, batch: seq<Task>, now: Accounts, ps: seq<Progress>,
                          outcomes: map<nat, Outcome>)
    requires AllConsistent(h, batch, before, now, ps) && SameOutside(h, batch, before, now)
    requires forall i | 0 <= i < |ps| :: ps[i].Finished?
    requires Reported(batch, ps, IndexSet(|ps|), outcomes)
    ensures Applied(h, before, batch, Ledger(now, outcomes))
  {
    hide Execute, OutcomeOf, Consistent, AgreeOn, SameOutside, Footprint;
    forall t | t in batch
      ensures AgreeOn(Footprint(h, t.transaction), now, Execute(h, before, t.transaction))
      ensures t.id in outcomes && outcomes[t.id] == OutcomeOf(h, before, t.transaction)
    {
      var i :| 0 <= i < |batch| && batch[i] == t;
      assert i in IndexSet(|ps|);
      FinishedTask(h, batch[i], before, now, ps[i]);
    }
    assert outcomes.Keys == Ids(batch);
  }

  /** `execute_parallel_batch`: whatever the interleaving of the workers and
      the order of the results, a batch of tasks that share no account does
      what running them one after another does. */
  method ExecuteParallelBatch(h: Hashing, db: StateDB, batch: seq<Task>) returns (outcomes: map<nat, Outcome>)
    modifies db
    ensures Independent(h, batch) ==>
              Ledger(db.accounts, outcomes) == Serial(h, Ledger(old(db.accounts), map[]), batch)
    ensures outcomes.Keys == Ids(batch)
  {
    hide Consistent;
    var ps := Interleave(h, db, batch);
    outcomes := ApplyResults(h, db, batch, ps, old(db.accounts));
    if Independent(h, batch) {
      FinishedIsApplied(h, old(db.accounts), batch, db.accounts, ps, outcomes);
      SerialDisjoint(h, old(db.accounts), batch);
      AppliedUnique(h, old(db.accounts), batch, Ledger(db.accounts, outcomes),
                    Serial(h, Ledger(old(db.accounts), map[]), batch));
    }
  }
}
