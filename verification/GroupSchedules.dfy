/**
 * The executor's one group (state_machine/executor.rs): all transactions run side
 * by side, with no check for conflicts. When every schedule ends as some serial
 * run of the group, and what happens otherwise.
 */
module GroupSchedules {
  import opened Common
  import opened Executor
  import opened Interleaving
  import opened Scheduler
  import opened Schedules
  import opened SubmissionOrder

  // ----- every schedule of transactions that share nothing -----

  lemma MoveKeeps(h: Hashing, task: Task, before: Accounts, now: Accounts, p: Progress, now': Accounts, p': Progress)
    requires Moves(h, task, now, p, now', p') && task.writeSet <= Footprint(h, task.transaction)
    requires Plausible(h, task, p) && Consistent(h, task, before, now, p)
    ensures Plausible(h, task, p') && Consistent(h, task, before, now', p')
    ensures forall x | x !in Footprint(h, task.transaction) :: Lookup(now', x) == Lookup(now, x)
  {
    match p
    case Reading(seen) => ReadKeeps(h, task, before, now, seen);
    case Writing(pending, receipt) =>
      if pending != map[] {
        var x :| x in pending && now' == now[x := pending[x]] && p' == Writing(pending - {x}, receipt);
        assert (pending - {x}).Keys == pending.Keys - {x};
      }
    case Collecting(_, _, _) =>
    case Finished(_, _) =>
  }

  lemma ReadKeeps(h: Hashing, task: Task, before: Accounts, now: Accounts, seen: seq<Option<Account>>)
    requires |seen| < Reads(task.transaction) && Consistent(h, task, before, now, Reading(seen))
    ensures var p := AfterRead(h, task, seen + [Lookup(now, ReadAddress(task.transaction, |seen|))]);
            Plausible(h, task, p) && Consistent(h, task, before, now, p)
  {
    var tx := task.transaction;
    var more := seen + [Lookup(now, ReadAddress(tx, |seen|))];
    assert forall r | 0 <= r < |more| :: more[r] == Lookup(before, ReadAddress(tx, r));
    if |more| == Reads(tx) {
      assert SettleSeen(h, tx, more) == Plan(h, before, tx);
    }
  }

  /** What every moment of a schedule keeps. */
  ghost predicate OnCourse(h: Hashing, batch: seq<Task>, before: Accounts, m: Moment) {
    && AllPlausible(h, batch, m.ps) && AllConsistent(h, batch, before, m.accounts, m.ps)
    && SameOutside(h, batch, before, m.accounts)
  }

  lemma BatchMoveKeeps(h: Hashing, batch: seq<Task>, before: Accounts, m: Moment, m': Moment)
    requires Independent(h, batch) && OnCourse(h, batch, before, m) && BatchMoves(h, batch, m, m')
    ensures OnCourse(h, batch, before, m')
  {
    hide Moves, Consistent, Plausible;
    var i :| 0 <= i < |batch| && MovesAt(h, batch, m, m', i);
    assert batch[i] in batch;
    MoveKeeps(h, batch[i], before, m.accounts, m.ps[i], m'.accounts, m'.ps[i]);
    OthersConsistent(h, batch, before, m.accounts, m'.accounts, m.ps, i, m'.ps[i]);
  }

  /** Whatever the schedule, tasks that share no account never notice each other. */
  lemma {:induction false} SchedulesStayOnCourse(h: Hashing, batch: seq<Task>, before: Accounts, moments: seq<Moment>, k: nat)
    requires Independent(h, batch) && IsSchedule(h, batch, moments) && k < |moments|
    requires OnCourse(h, batch, before, moments[0])
    ensures OnCourse(h, batch, before, moments[k])
  {
    hide OnCourse, Independent;
    if k > 0 {
      SchedulesStayOnCourse(h, batch, before, moments, k - 1);
      BatchMoveKeeps(h, batch, before, moments[k - 1], moments[k]);
    }
  }

  function Indexed(outcomes: seq<Outcome>): map<nat, Outcome> {
    map i: nat | 0 <= i < |outcomes| :: outcomes[i]
  }

  /** Every schedule of such transactions ends as their serial run. */
  lemma ApartEndsSerially(h: Hashing, txs: seq<Transaction>, s: Accounts, end: Accounts, outcomes: seq<Outcome>)
    requires Independent(h, TasksOf(txs)) && CanEnd(h, TasksOf(txs), s, end, outcomes)
    ensures Serial(h, Ledger(s, map[]), TasksOf(txs)) == Ledger(end, Indexed(outcomes))
  {
    hide Consistent, Plausible, Moves;
    var batch := TasksOf(txs);
    var ps: seq<Progress> :|
      && |ps| == |batch| == |outcomes|
      && Reaches(h, batch, Moment(s, Unstarted(|batch|)), Moment(end, ps))
      && forall i | 0 <= i < |ps| :: ps[i].Finished? && ps[i].outcome == outcomes[i] && Current(end, ps[i].collected);
    var moments :| IsSchedule(h, batch, moments) && moments[0] == Moment(s, Unstarted(|batch|))
                   && moments[|moments| - 1] == Moment(end, ps);
    UnstartedOnCourse(h, batch, s);
    SchedulesStayOnCourse(h, batch, s, moments, |moments| - 1);
    IndexedReports(txs, ps, outcomes);
    FinishedIsApplied(h, s, batch, end, ps, Indexed(outcomes));
    SerialDisjoint(h, s, batch);
    AppliedUnique(h, s, batch, Ledger(end, Indexed(outcomes)), Serial(h, Ledger(s, map[]), batch));
  }

  lemma UnstartedOnCourse(h: Hashing, batch: seq<Task>, s: Accounts)
    ensures OnCourse(h, batch, s, Moment(s, Unstarted(|batch|)))
  {}

  lemma IndexedReports(txs: seq<Transaction>, ps: seq<Progress>, outcomes: seq<Outcome>)
    requires |txs| == |ps| == |outcomes| && forall i | 0 <= i < |ps| :: ps[i].Finished? && ps[i].outcome == outcomes[i]
    ensures Reported(TasksOf(txs), ps, IndexSet(|ps|), Indexed(outcomes))
  {
    forall id | id in Indexed(outcomes)
      ensures id in Ids(TasksOf(txs))
    {
      assert TasksOf(txs)[id] in TasksOf(txs);
    }
  }

  // ----- serial runs of a group -----

  /** The same tasks, each once, in any order. */
  ghost predicate IsOrder(tasks: seq<Task>, order: seq<Task>) {
    && (forall t :: t in order <==> t in tasks)
    && (forall i, j | 0 <= i < j < |order| :: order[i].id != order[j].id)
  }

  ghost predicate EndsSerially(h: Hashing, txs: seq<Transaction>, s: Accounts, end: Accounts, outcomes: seq<Outcome>) {
    exists order :: IsOrder(TasksOf(txs), order) && Serial(h, Ledger(s, map[]), order) == Ledger(end, Indexed(outcomes))
  }

  lemma {:induction false} SerialNone(h: Hashing, s: Ledger, order: seq<Task>)
    requires forall t | t in order :: Inert(t.transaction)
    ensures Serial(h, s, order).accounts == s.accounts
  {
    if order != [] {
      var front, last := order[..|order| - 1], order[|order| - 1];
      assert order == front + [last];
      SerialNone(h, s, front);
      SerialSnoc(h, s, front, last);
      InertDoesNothing(h, s.accounts, last.transaction);
    }
  }

  lemma {:induction false} SerialAlone(h: Hashing, s: Ledger, order: seq<Task>, a: Task)
    requires a in order && forall i, j | 0 <= i < j < |order| :: order[i].id != order[j].id
    requires forall t | t in order && t != a :: Inert(t.transaction)
    ensures var l := Serial(h, s, order);
            && l.accounts == Execute(h, s.accounts, a.transaction)
            && a.id in l.outcomes && l.outcomes[a.id] == OutcomeOf(h, s.accounts, a.transaction)
  {
    hide Inert;
    var front, last := order[..|order| - 1], order[|order| - 1];
    assert order == front + [last];
    SerialSnoc(h, s, front, last);
    if last == a {
      SerialNone(h, s, front);
    } else {
      SerialAlone(h, s, front, a);
      InertDoesNothing(h, Serial(h, s, front).accounts, last.transaction);
    }
  }

  /** With all other transactions unsigned, an order is that of the two signed ones. */
  lemma {:induction false} SerialPair(h: Hashing, s: Ledger, order: seq<Task>, a: Task, b: Task)
    requires a in order && b in order && a != b && forall i, j | 0 <= i < j < |order| :: order[i].id != order[j].id
    requires forall t | t in order && t != a && t != b :: Inert(t.transaction)
    ensures var l := Serial(h, s, order);
            || Holds(l, a.id, b.id, OneThenOther(h, s.accounts, a.transaction, b.transaction))
            || Holds(l, b.id, a.id, OneThenOther(h, s.accounts, b.transaction, a.transaction))
  {
    hide Inert;
    var front, last := order[..|order| - 1], order[|order| - 1];
    assert order == front + [last];
    SerialSnoc(h, s, front, last);
    if last == a {
      SerialAlone(h, s, front, b);
    } else if last == b {
      SerialAlone(h, s, front, a);
    } else {
      SerialPair(h, s, front, a, b);
      InertDoesNothing(h, Serial(h, s, front).accounts, last.transaction);
    }
  }

  // ----- a schedule for two transactions that share an account -----

  const UNSIGNED: Outcome := Err(InvalidSignature)

  /** The unsigned transactions among the first `n` have failed. */
  function Refused(total: nat, i: nat, j: nat, n: nat): (ps: seq<Progress>)
    ensures |ps| == total
  {
    seq(total, k requires 0 <= k < total => if k < n && k != i && k != j then Finished(map[], UNSIGNED) else Reading([]))
  }

  lemma RefusedAlone(h: Hashing, batch: seq<Task>, m: Moment, k: nat)
    requires k < |batch| == |m.ps| && m.ps[k] == Reading([]) && Inert(batch[k].transaction) && batch[k].writeSet == {}
    ensures Reaches(h, batch, m, Moment(m.accounts, m.ps[k := Finished(map[], UNSIGNED)]))
  {
    hide Reaches;
    var tx := batch[k].transaction;
    assert Seen(tx, m.accounts, 0) == [];
    ReadsAll(h, batch, m, k, 0);
    var m1 := Moment(m.accounts, m.ps[k := Collecting({}, map[], UNSIGNED)]);
    assert AfterRead(h, batch[k], Seen(tx, m.accounts, Reads(tx))) == m1.ps[k];
    OneMove(h, batch, m1, k, m.accounts, Finished(map[], UNSIGNED));
    var end := Moment(m.accounts, m.ps[k := Finished(map[], UNSIGNED)]);
    assert m1.ps[k := end.ps[k]] == end.ps;
    ReachesThrough(h, batch, m, m1, end);
  }

  lemma {:induction false} AllRefused(h: Hashing, txs: seq<Transaction>, s: Accounts, i: nat, j: nat, n: nat)
    requires OnlySigned(txs, {i, j}) && n <= |txs|
    ensures Reaches(h, TasksOf(txs), Moment(s, Unstarted(|txs|)), Moment(s, Refused(|txs|, i, j, n)))
  {
    hide Reaches, Inert;
    var batch, start := TasksOf(txs), Moment(s, Unstarted(|txs|));
    if n == 0 {
      assert Refused(|txs|, i, j, 0) == Unstarted(|txs|);
      ReachesItself(h, batch, start);
    } else {
      var m, m' := Moment(s, Refused(|txs|, i, j, n - 1)), Moment(s, Refused(|txs|, i, j, n));
      AllRefused(h, txs, s, i, j, n - 1);
      if n - 1 == i || n - 1 == j {
        assert m'.ps == m.ps;
      } else {
        RefusedAlone(h, batch, m, n - 1);
        assert m'.ps == m.ps[n - 1 := Finished(map[], UNSIGNED)];
        ReachesThrough(h, batch, start, m, m');
      }
    }
  }

  /** With only two transactions signed, a group can end with both having read
      before either wrote. */
  lemma GroupRaces(h: Hashing, txs: seq<Transaction>, s: Accounts, i: nat, j: nat) returns (outcomes: seq<Outcome>)
    requires i < j < |txs| && OnlySigned(txs, {i, j}) && Plan(h, s, txs[i]).Ok? && Plan(h, s, txs[j]).Ok?
    ensures var a, b := Plan(h, s, txs[i]).value, Plan(h, s, txs[j]).value;
            && CanEnd(h, TasksOf(txs), s, s + a.changes + b.changes, outcomes)
            && |outcomes| == |txs| && outcomes[i] == Ok(a.receipt) && outcomes[j] == Ok(b.receipt)
  {
    hide Reaches, Plan, Inert;
    var batch := TasksOf(txs);
    var start, m := Moment(s, Unstarted(|txs|)), Moment(s, Refused(|txs|, i, j, |txs|));
    AllRefused(h, txs, s, i, j, |txs|);
    var end := BothFromReading(h, batch, m, i, j);
    ReachesThrough(h, batch, start, m, end);
    outcomes := seq(|txs|, k requires 0 <= k < |txs| =>
      if k == i then end.ps[i].outcome else if k == j then end.ps[j].outcome else UNSIGNED);
    assert forall k | 0 <= k < |txs| && k != i && k != j :: end.ps[k] == m.ps[k];
  }

  // ----- the exact condition -----

  ghost predicate AllPay(intents: seq<Intent>) {
    forall i | 0 <= i < |intents| :: intents[i].deed.Pays?
  }

  /** The two payments have an account in common. */
  predicate Share(p: Intent, q: Intent)
    requires p.deed.Pays? && q.deed.Pays?
  {
    p.from == q.from || p.from == q.deed.to || p.deed.to == q.from || p.deed.to == q.deed.to
  }

  ghost predicate NoneShare(intents: seq<Intent>)
    requires AllPay(intents)
  {
    forall i, j | 0 <= i < j < |intents| :: !Share(intents[i], intents[j])
  }

  /** On all accounts and for all amounts every schedule of the group ends as one
      of its serial runs. */
  ghost predicate AlwaysSerial(h: Hashing, intents: seq<Intent>) {
    forall s, txs, end, outcomes | CarryOut(txs, intents) && CanEnd(h, TasksOf(txs), s, end, outcomes) ::
      EndsSerially(h, txs, s, end, outcomes)
  }

  /** Both senders hold two and pay one. */
  function PayingOne(p: Intent): Transaction
    requires p.deed.Pays?
  {
    Signed(p, 0, 1)
  }

  function HoldingTwo(p: Intent, q: Intent): Accounts {
    map[p.from := Holding(0, 2), q.from := Holding(0, 2)]
  }

  /** When both have read first, the accounts end as after neither serial order,
      or one of the two should have failed. */
  ghost predicate Races(h: Hashing, s: Accounts, a: Transaction, b: Transaction) {
    && Plan(h, s, a).Ok? && Plan(h, s, b).Ok?
    && var ea, eb := Plan(h, s, a).value, Plan(h, s, b).value;
       var end, oa, ob := s + ea.changes + eb.changes, Outcome.Ok(ea.receipt), Outcome.Ok(eb.receipt);
       (end, oa, ob) != OneThenOther(h, s, a, b) && (end, ob, oa) != OneThenOther(h, s, b, a)
  }

  /** Payments that share an account race. */
  lemma SharingRaces(h: Hashing, p: Intent, q: Intent)
    requires p.deed.Pays? && q.deed.Pays? && Share(p, q)
    ensures Races(h, HoldingTwo(p, q), PayingOne(p), PayingOne(q))
  {
    hide Races;
    if p.from == q.from {
      OneSenderRaces(h, p, q);
    } else if p.deed.to == q.deed.to {
      OneRecipientRaces(h, p, q);
    } else {
      PaidSenderRaces(h, p, q);
    }
  }

  lemma OneSenderRaces(h: Hashing, p: Intent, q: Intent)
    requires p.deed.Pays? && q.deed.Pays? && p.from == q.from
    ensures Races(h, HoldingTwo(p, q), PayingOne(p), PayingOne(q))
  {}

  lemma OneRecipientRaces(h: Hashing, p: Intent, q: Intent)
    requires p.deed.Pays? && q.deed.Pays? && p.from != q.from && p.deed.to == q.deed.to
    ensures Races(h, HoldingTwo(p, q), PayingOne(p), PayingOne(q))
  {}

  lemma PaidSenderRaces(h: Hashing, p: Intent, q: Intent)
    requires p.deed.Pays? && q.deed.Pays? && p.from != q.from && p.deed.to != q.deed.to
    requires p.from == q.deed.to || q.from == p.deed.to
    ensures Races(h, HoldingTwo(p, q), PayingOne(p), PayingOne(q))
  {}

  /** For given senders and recipients every schedule of the group ends, on all
      accounts and for all amounts, as some serial run of it exactly when no two
      payments share an account. */
  lemma GroupSerialIff(h: Hashing, intents: seq<Intent>)
    requires AllPay(intents)
    ensures AlwaysSerial(h, intents) <==> NoneShare(intents)
  {
    hide CanEnd, Serial, OneThenOther, Inert;
    if NoneShare(intents) {
      forall s, txs, end, outcomes | CarryOut(txs, intents) && CanEnd(h, TasksOf(txs), s, end, outcomes)
        ensures EndsSerially(h, txs, s, end, outcomes)
      {
        ApartPaymentsIndependent(h, intents, txs);
        ApartEndsSerially(h, txs, s, end, outcomes);
        assert IsOrder(TasksOf(txs), TasksOf(txs));
      }
    } else {
      var i, j :| 0 <= i < j < |intents| && Share(intents[i], intents[j]);
      SharingGroupRaces(h, intents, i, j);
    }
  }

  lemma ApartPaymentsIndependent(h: Hashing, intents: seq<Intent>, txs: seq<Transaction>)
    requires AllPay(intents) && NoneShare(intents) && CarryOut(txs, intents)
    ensures Independent(h, TasksOf(txs))
  {
    forall i, j | 0 <= i < j < |txs|
      ensures Footprint(h, txs[i]) !! Footprint(h, txs[j])
    {
      assert !Share(intents[i], intents[j]);
    }
  }

  lemma SharingGroupRaces(h: Hashing, intents: seq<Intent>, i: nat, j: nat)
    requires AllPay(intents) && i < j < |intents| && Share(intents[i], intents[j])
    ensures !AlwaysSerial(h, intents)
  {
    hide CanEnd, Serial, OneThenOther, Plan, Inert, Carries;
    var p, q := intents[i], intents[j];
    var s, a, b := HoldingTwo(p, q), PayingOne(p), PayingOne(q);
    SharingRaces(h, p, q);
    var txs := TwoSigned(intents, i, a, j, b);
    var outcomes := GroupRaces(h, txs, s, i, j);
    var end := s + Plan(h, s, a).value.changes + Plan(h, s, b).value.changes;
    if order :| IsOrder(TasksOf(txs), order) && Serial(h, Ledger(s, map[]), order) == Ledger(end, Indexed(outcomes)) {
      var tasks := TasksOf(txs);
      assert tasks[i] in order && tasks[j] in order;
      SerialPair(h, Ledger(s, map[]), order, tasks[i], tasks[j]);
      assert false;
    }
  }

  // ----- one balance spent twice -----

  /** Two payments of one sender with one nonce, either of which could be made: both
      can succeed side by side, the sender being charged for the second alone and
      both recipients paid, where one after the other the second always fails. */
  lemma SpentTwice(h: Hashing, s: Accounts, a: Transaction, b: Transaction)
    requires Plan(h, s, a).Ok? && Plan(h, s, b).Ok? && a.from == b.from && a.to.Some? && b.to.Some?
    requires a.to.value != a.from && b.to.value != b.from && a.to != b.to
    ensures exists end: Accounts, outcomes: seq<Outcome> ::
              && |outcomes| == 2 && CanEnd(h, TasksOf([a, b]), s, end, outcomes) && outcomes[0].Ok? && outcomes[1].Ok?
              && BalanceAt(end, a.from) == BalanceAt(Execute(h, s, b), a.from)
              && BalanceAt(end, a.to.value) == BalanceAt(s, a.to.value) + a.value
              && BalanceAt(end, b.to.value) == BalanceAt(s, b.to.value) + b.value
    ensures OutcomeOf(h, Execute(h, s, a), b).Err? && OutcomeOf(h, Execute(h, s, b), a).Err?
  {
    hide CanEnd;
    BothReadFirst(h, TasksOf([a, b]), s);
    var ea, eb := Plan(h, s, a).value, Plan(h, s, b).value;
    var end := s + ea.changes + eb.changes;
    var outcomes: seq<Outcome> := [Ok(ea.receipt), Ok(eb.receipt)];
    assert CanEnd(h, TasksOf([a, b]), s, end, outcomes) && outcomes[0].Ok? && outcomes[1].Ok?;
  }
}
