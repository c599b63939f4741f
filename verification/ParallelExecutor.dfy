/**
 * Interleaved execution of a batch and the batches of a block
 * (state_machine/parallel.rs), and its equivalence to a serial run.
 */
module ParallelExecutor {
  import opened Common
  import opened Executor
  import opened Interleaving
  import opened Scheduler
  import opened Traces

  // ----- the batches of a block -----

  /** One serial run of all transactions, the last submitted first. */
  function LatestFirst(h: Hashing, s: Ledger, txs: seq<Transaction>): Ledger
    decreases |txs|
  {
    if txs == [] then s else
      var last := |txs| - 1;
      LatestFirst(h, Ledger(Execute(h, s.accounts, txs[last]),
                            s.outcomes[last := OutcomeOf(h, s.accounts, txs[last])]), txs[..last])
  }

  /** Transactions that share an account are seen to conflict by the analysis. */
  ghost predicate Covered(h: Hashing, accounts: Accounts, txs: seq<Transaction>) {
    forall i, j | 0 <= i < j < |txs| ::
      HasConflict(Analyze(accounts, i, txs[i]), Analyze(accounts, j, txs[j])) ||
      Footprint(h, txs[i]) !! Footprint(h, txs[j])
  }

  lemma RecipientsAreCovered(h: Hashing, accounts: Accounts, txs: seq<Transaction>)
    requires forall i | 0 <= i < |txs| :: txs[i].to.Some?
    ensures Covered(h, accounts, txs)
  {
    forall i, j | 0 <= i < j < |txs|
      ensures HasConflict(Analyze(accounts, i, txs[i]), Analyze(accounts, j, txs[j])) ||
              Footprint(h, txs[i]) !! Footprint(h, txs[j])
    {
      assert WriteSet(txs[i]) == Footprint(h, txs[i]) && WriteSet(txs[j]) == Footprint(h, txs[j]);
    }
  }

  predicate Shares(h: Hashing, a: Task, b: Task) {
    a.id == b.id || !(Footprint(h, a.transaction) !! Footprint(h, b.transaction))
  }

  function Flatten(batches: seq<seq<Task>>): seq<Task> {
    if batches == [] then [] else batches[0] + Flatten(batches[1..])
  }

  /** The layers taken off `remaining` list each of its tasks once, and of two
      tasks that share an account the later one comes first. */
  lemma {:induction false} LayersKeepOrder(h: Hashing, tasks: seq<Task>, graph: Graph, remaining: set<nat>,
                                           batches: seq<seq<Task>>)
    requires IdsAreIndices(tasks) && ConflictGraph(tasks, graph) && remaining <= Ids(tasks)
    requires SharingConflicts(h, tasks)
    requires Peels(tasks, graph, remaining, batches, {})
    ensures Ids(Flatten(batches)) == remaining
    ensures forall t | t in Flatten(batches) :: t.id < |tasks| && t == tasks[t.id]
    ensures Distinct(Flatten(batches))
    ensures KeepsOrder(Flatten(batches), (a, b) => Shares(h, a, b), (a: Task, b: Task) => a.id > b.id)
    ensures forall b | b in batches :: IndependentTasks(h, b)
    decreases |batches|
  {
    hide Shares, Ready, HasConflict;
    if batches != [] {
      var b, rest := batches[0], Flatten(batches[1..]);
      var left := remaining - Ids(b);
      LayersKeepOrder(h, tasks, graph, left, batches[1..]);
      assert b[0].id in Ids(b);
      ReadyExists(tasks, graph, remaining);
      forall i, j | 0 <= i < j < |b + rest|
        ensures (b + rest)[i] != (b + rest)[j]
        ensures Shares(h, (b + rest)[i], (b + rest)[j]) ==> (b + rest)[i].id > (b + rest)[j].id
      {
        FirstLayerFirst(h, tasks, graph, remaining, b, rest, i, j);
      }
      LayerIndependent(h, tasks, graph, remaining, b);
      assert Ids(b + rest) == Ids(b) + Ids(rest);
    }
  }

  /** Tasks that share an account are in conflict. */
  ghost predicate SharingConflicts(h: Hashing, tasks: seq<Task>) {
    forall i, j | 0 <= i < j < |tasks| :: Shares(h, tasks[i], tasks[j]) ==> HasConflict(tasks[i], tasks[j])
  }

  ghost predicate IndependentTasks(h: Hashing, batch: seq<Task>) {
    forall i, j | 0 <= i < j < |batch| :: !Shares(h, batch[i], batch[j])
  }

  /** With dependencies pointing backwards the last task left is always ready,
      so no task is ever forced. */
  lemma ReadyExists(tasks: seq<Task>, graph: Graph, remaining: set<nat>)
    requires ConflictGraph(tasks, graph) && remaining != {} && remaining <= Ids(tasks) && IdsAreIndices(tasks)
    ensures Ready(graph, remaining) != {}
  {
    var m := MaxOf(remaining);
    forall i | i in remaining && i in graph
      ensures m !in graph[i]
    {
      assert IsDependencies(tasks, i, graph[i]);
    }
    assert m in Ready(graph, remaining);
  }

  lemma {:induction false} MaxOf(s: set<nat>) returns (m: nat)
    requires s != {}
    ensures m in s && forall x | x in s :: x <= m
  {
    var x :| x in s;
    m := x;
    if s != {x} {
      var m' := MaxOf(s - {x});
      m := if x < m' then m' else x;
      assert forall y | y in s :: y == x || y in s - {x};
    }
  }

  lemma ReadyTask(tasks: seq<Task>, graph: Graph, remaining: set<nat>, a: nat, b: nat)
    requires ConflictGraph(tasks, graph) && IdsAreIndices(tasks)
    requires a in Ready(graph, remaining) && b in remaining
    requires a < b < |tasks|
    ensures !HasConflict(tasks[a], tasks[b])
  {
    assert b in graph && IsDependencies(tasks, b, graph[b]);
    assert b !in Dependents(graph, remaining, a);
  }

  lemma FirstLayerFirst(h: Hashing, tasks: seq<Task>, graph: Graph, remaining: set<nat>, b: seq<Task>, rest: seq<Task>,
                        i: nat, j: nat)
    requires IdsAreIndices(tasks) && ConflictGraph(tasks, graph) && SharingConflicts(h, tasks)
    requires IsLayer(tasks, graph, remaining, b) && Ready(graph, remaining) != {}
    requires Ids(rest) == remaining - Ids(b) && remaining <= Ids(tasks)
    requires forall t | t in rest :: t.id < |tasks| && t == tasks[t.id]
    requires Distinct(rest)
    requires KeepsOrder(rest, (a, b) => Shares(h, a, b), (a: Task, b: Task) => a.id > b.id)
    requires i < j < |b + rest|
    ensures (b + rest)[i] != (b + rest)[j]
    ensures Shares(h, (b + rest)[i], (b + rest)[j]) ==> (b + rest)[i].id > (b + rest)[j].id
  {
    var x, y := (b + rest)[i], (b + rest)[j];
    if i < |b| {
      assert x in b && x.id in Ids(b);
      if j < |b| {
        assert y in b && y.id in Ids(b);
      } else {
        assert y in rest && y.id in Ids(rest);
      }
      if x.id < y.id {
        ReadyTask(tasks, graph, remaining, x.id, y.id);
      } else if j < |b| {
        ReadyTask(tasks, graph, remaining, y.id, x.id);
      }
    } else {
      assert x == rest[i - |b|] && y == rest[j - |b|];
    }
  }

  lemma LayerIndependent(h: Hashing, tasks: seq<Task>, graph: Graph, remaining: set<nat>, b: seq<Task>)
    requires IdsAreIndices(tasks) && ConflictGraph(tasks, graph) && SharingConflicts(h, tasks)
    requires IsLayer(tasks, graph, remaining, b) && Ready(graph, remaining) != {}
    ensures IndependentTasks(h, b)
  {
    forall i, j | 0 <= i < j < |b|
      ensures !Shares(h, b[i], b[j])
    {
      assert b[i].id in Ids(b) && b[j].id in Ids(b);
      if b[i].id < b[j].id {
        ReadyTask(tasks, graph, remaining, b[i].id, b[j].id);
      } else {
        ReadyTask(tasks, graph, remaining, b[j].id, b[i].id);
      }
    }
  }

  // ----- conflicting tasks, whether or not they share an account -----

  lemma {:induction false} LayersHold(tasks: seq<Task>, graph: Graph, remaining: set<nat>, batches: seq<seq<Task>>,
                                      q: nat, t: Task)
    requires Peels(tasks, graph, remaining, batches, {}) && q < |batches| && t in batches[q]
    ensures t.id in remaining && t.id < |tasks| && t == tasks[t.id]
    decreases |batches|
  {
    if q == 0 {
      assert t.id in Ids(batches[0]);
    } else {
      LayersHold(tasks, graph, remaining - Ids(batches[0]), batches[1..], q - 1, t);
    }
  }

  /** Two conflicting tasks never meet in a batch, and the later submitted one
      is always in the earlier batch. */
  lemma {:induction false} ConflictsRunLatestFirst(tasks: seq<Task>, graph: Graph, remaining: set<nat>,
                                                   batches: seq<seq<Task>>, p: nat, q: nat, a: Task, b: Task)
    requires IdsAreIndices(tasks) && ConflictGraph(tasks, graph) && remaining <= Ids(tasks)
    requires Peels(tasks, graph, remaining, batches, {})
    requires p <= q < |batches| && a in batches[p] && b in batches[q] && a != b && HasConflict(a, b)
    ensures p < q && a.id > b.id
    decreases |batches|
  {
    hide HasConflict;
    LayersHold(tasks, graph, remaining, batches, p, a);
    LayersHold(tasks, graph, remaining, batches, q, b);
    if p > 0 {
      ConflictsRunLatestFirst(tasks, graph, remaining - Ids(batches[0]), batches[1..], p - 1, q - 1, a, b);
    } else {
      assert a.id in Ids(batches[0]) && IsLayer(tasks, graph, remaining, batches[0]);
      ReadyExists(tasks, graph, remaining);
      ConflictSymmetric(a, b);
      if a.id < b.id {
        ReadyTask(tasks, graph, remaining, a.id, b.id);
      } else if q == 0 {
        assert b.id in Ids(batches[0]);
        ReadyTask(tasks, graph, remaining, b.id, a.id);
      }
    }
  }

  lemma ConflictSymmetric(a: Task, b: Task)
    ensures HasConflict(a, b) <==> HasConflict(b, a)
  {}

  lemma {:induction false} SerialPrefix(h: Hashing, a: Accounts, prior: map<nat, Outcome>, tasks: seq<Task>)
    ensures var l := Serial(h, Ledger(a, map[]), tasks);
            Serial(h, Ledger(a, prior), tasks) == Ledger(l.accounts, prior + l.outcomes)
    decreases |tasks|
  {
    if tasks == [] {
      assert prior + map[] == prior;
    } else {
      var n := |tasks| - 1;
      assert tasks == tasks[..n] + [tasks[n]];
      SerialPrefix(h, a, prior, tasks[..n]);
      SerialSnoc(h, Ledger(a, map[]), tasks[..n], tasks[n]);
      SerialSnoc(h, Ledger(a, prior), tasks[..n], tasks[n]);
    }
  }

  lemma StepsCommute(h: Hashing, s: Ledger, a: Task, b: Task)
    requires !Shares(h, a, b)
    ensures Step(h, Step(h, s, a), b) == Step(h, Step(h, s, b), a)
  {
    var ab, ba := Step(h, Step(h, s, a), b), Step(h, Step(h, s, b), a);
    UnaffectedBy(h, s.accounts, a.transaction, b.transaction);
    UnaffectedBy(h, s.accounts, b.transaction, a.transaction);
    assert ab.outcomes == ba.outcomes;
    SameLookups(ab.accounts, ba.accounts);
  }

  /** A transaction that shares no account with another plans the same before and after it. */
  lemma UnaffectedBy(h: Hashing, accounts: Accounts, a: Transaction, b: Transaction)
    requires Footprint(h, a) !! Footprint(h, b)
    ensures Plan(h, Execute(h, accounts, a), b) == Plan(h, accounts, b)
    ensures OutcomeOf(h, Execute(h, accounts, a), b) == OutcomeOf(h, accounts, b)
  {
    forall x | x in Footprint(h, b)
      ensures Lookup(Execute(h, accounts, a), x) == Lookup(accounts, x)
    {
      OutsideUnchanged(h, a, accounts, x);
    }
    Locality(h, b, Execute(h, accounts, a), accounts);
  }

  function Reversed(tasks: seq<Task>): (r: seq<Task>)
    ensures |r| == |tasks|
    ensures forall i | 0 <= i < |r| :: r[i] == tasks[|tasks| - 1 - i]
  {
    seq(|tasks|, i requires 0 <= i < |tasks| => tasks[|tasks| - 1 - i])
  }

  lemma {:induction false} LatestFirstIsSerial(h: Hashing, s: Ledger, txs: seq<Transaction>, tasks: seq<Task>)
    requires |tasks| == |txs| && forall i | 0 <= i < |tasks| :: tasks[i].id == i && tasks[i].transaction == txs[i]
    ensures LatestFirst(h, s, txs) == Serial(h, s, Reversed(tasks))
    decreases |txs|
  {
    if txs != [] {
      var last := |txs| - 1;
      LatestFirstIsSerial(h, Step(h, s, tasks[last]), txs[..last], tasks[..last]);
      assert Reversed(tasks)[1..] == Reversed(tasks[..last]);
    }
  }

  /** Any schedule of the layers is equivalent to the serial run that takes the
      tasks in decreasing submission index. */
  lemma LayersAreSerial(h: Hashing, s: Ledger, tasks: seq<Task>, graph: Graph, batches: seq<seq<Task>>)
    requires IdsAreIndices(tasks) && ConflictGraph(tasks, graph) && SharingConflicts(h, tasks)
    requires Peels(tasks, graph, Ids(tasks), batches, {})
    ensures Serial(h, s, Flatten(batches)) == Serial(h, s, Reversed(tasks))
  {
    LayersKeepOrder(h, tasks, graph, Ids(tasks), batches);
    var step := (l: Ledger, t: Task) => Step(h, l, t);
    var dep := (a: Task, b: Task) => Shares(h, a, b);
    var before := (a: Task, b: Task) => a.id > b.id;
    forall l, a, b | !dep(a, b)
      ensures step(step(l, a), b) == step(step(l, b), a)
    {
      StepsCommute(h, l, a, b);
    }
    forall t
      ensures t in Flatten(batches) <==> t in Reversed(tasks)
    {
      if t in Flatten(batches) {
        assert Reversed(tasks)[|tasks| - 1 - t.id] == t;
      }
      if t in Reversed(tasks) {
        assert t in tasks && t.id in Ids(tasks);
        var t' :| t' in Flatten(batches) && t'.id == t.id;
      }
    }
    ReorderEquivalent(step, dep, before, s, Flatten(batches), Reversed(tasks));
  }

  lemma {:induction false} FlattenSnoc(batches: seq<seq<Task>>, batch: seq<Task>)
    ensures Flatten(batches + [batch]) == Flatten(batches) + batch
  {
    if batches != [] {
      assert (batches + [batch])[1..] == batches[1..] + [batch];
      FlattenSnoc(batches[1..], batch);
    }
  }

  lemma BatchFollowsSerial(h: Hashing, init: Ledger, batches: seq<seq<Task>>, k: nat,
                           now: Ledger, outcomes: map<nat, Outcome>, accounts: Accounts)
    requires k < |batches|
    requires now == Serial(h, init, Flatten(batches[..k]))
    requires Ledger(accounts, outcomes) == Serial(h, Ledger(now.accounts, map[]), batches[k])
    ensures Ledger(accounts, now.outcomes + outcomes) == Serial(h, init, Flatten(batches[..k + 1]))
  {
    assert batches[..k + 1] == batches[..k] + [batches[k]];
    FlattenSnoc(batches[..k], batches[k]);
    RunConcat((l: Ledger, t: Task) => Step(h, l, t), init, Flatten(batches[..k]), batches[k]);
    SerialPrefix(h, now.accounts, now.outcomes, batches[k]);
  }

  ghost predicate Analyzed(accounts: Accounts, transactions: seq<Transaction>, tasks: seq<Task>) {
    |tasks| == |transactions| && forall i | 0 <= i < |tasks| :: tasks[i] == Analyze(accounts, i, transactions[i])
  }

  lemma CoveredTasks(h: Hashing, accounts: Accounts, txs: seq<Transaction>, tasks: seq<Task>)
    requires Analyzed(accounts, txs, tasks) && Covered(h, accounts, txs)
    ensures IdsAreIndices(tasks) && SharingConflicts(h, tasks)
  {
  }

  lemma LayersIndependent(h: Hashing, tasks: seq<Task>, graph: Graph, batches: seq<seq<Task>>, k: nat)
    requires IdsAreIndices(tasks) && ConflictGraph(tasks, graph) && SharingConflicts(h, tasks)
    requires forall t | t in tasks :: t.writeSet <= Footprint(h, t.transaction)
    requires Peels(tasks, graph, Ids(tasks), batches, {}) && k < |batches|
    ensures Independent(h, batches[k])
  {
    LayersKeepOrder(h, tasks, graph, Ids(tasks), batches);
    assert batches[k] in batches;
    forall t | t in batches[k]
      ensures t in tasks
    {
      InFlatten(batches, k, t);
    }
  }

  lemma {:induction false} InFlatten(batches: seq<seq<Task>>, k: nat, t: Task)
    requires k < |batches| && t in batches[k]
    ensures t in Flatten(batches)
  {
    if k > 0 {
      InFlatten(batches[1..], k - 1, t);
    }
  }

  /** The three steps of `execute_batch` before anything is executed. */
  method Schedule(h: Hashing, db: StateDB, transactions: seq<Transaction>)
    returns (tasks: seq<Task>, ghost graph: Graph, batches: seq<seq<Task>>)
    ensures Analyzed(db.accounts, transactions, tasks) && IdsAreIndices(tasks)
    ensures ConflictGraph(tasks, graph) && GraphOver(graph, |tasks|) && Peels(tasks, graph, Ids(tasks), batches, {})
  {
    tasks := AnalyzeTransactions(transactions, db);
    AnalyzedTasks(h, db.accounts, transactions, tasks);
    var dependencyGraph := BuildDependencyGraph(tasks);
    ConflictGraphIsGraph(tasks, dependencyGraph);
    hide *;
    graph := dependencyGraph;
    batches := TopologicalSort(tasks, dependencyGraph);
  }

  /** `execute_batch`: parallel execution is equivalent to a serial one, the one
      that takes the transactions in decreasing submission index. */
  method ExecuteBatch(h: Hashing, db: StateDB, transactions: seq<Transaction>) returns (outcomes: map<nat, Outcome>)
    modifies db
    ensures Covered(h, old(db.accounts), transactions) ==>
              Ledger(db.accounts, outcomes) == LatestFirst(h, Ledger(old(db.accounts), map[]), transactions)
    ensures forall i: nat :: i in outcomes <==> i < |transactions|
  {
    ghost var init := Ledger(db.accounts, map[]);
    ghost var covered := Covered(h, db.accounts, transactions);
    hide *;
    var tasks, batches;
    ghost var graph;
    tasks, graph, batches := Schedule(h, db, transactions);
    if covered {
      CoveredTasks(h, init.accounts, transactions, tasks);
    }
    outcomes := map[];
    AnalyzedTasks(h, init.accounts, transactions, tasks);
    AllToDo(tasks, graph, batches);
    assert outcomes.Keys == {};
    for k := 0 to |batches|
      invariant ToDo(tasks, graph, outcomes.Keys, batches, k)
      invariant covered ==> Ledger(db.accounts, outcomes) == Serial(h, init, Flatten(batches[..k]))
    {
      ghost var now := Ledger(db.accounts, outcomes);
      var batchOutcomes := ExecuteParallelBatch(h, db, batches[k]);
      if covered {
        LayersIndependent(h, tasks, graph, batches, k);
        BatchFollowsSerial(h, init, batches, k, now, batchOutcomes, db.accounts);
      }
      BatchDone(tasks, graph, outcomes.Keys, batches, k);
      outcomes := outcomes + batchOutcomes;
    }
    AllDone(transactions, tasks, graph, outcomes.Keys, batches);
    if covered {
      assert batches[..|batches|] == batches;
      LayersAreSerial(h, init, tasks, graph, batches);
      LatestFirstIsSerial(h, init, transactions, tasks);
    }
  }

  lemma AnalyzedTasks(h: Hashing, accounts: Accounts, transactions: seq<Transaction>, tasks: seq<Task>)
    requires Analyzed(accounts, transactions, tasks)
    ensures |tasks| == |transactions| && IdsAreIndices(tasks) && forall t | t in tasks :: t.writeSet <= Footprint(h, t.transaction)
  {}

  /** The batches from the `k`th on are still to be executed. */
  ghost predicate ToDo(tasks: seq<Task>, graph: Graph, done: set<nat>, batches: seq<seq<Task>>, k: nat) {
    k <= |batches| && done <= Ids(tasks) && Peels(tasks, graph, Ids(tasks) - done, batches[k..], {})
  }

  lemma AllToDo(tasks: seq<Task>, graph: Graph, batches: seq<seq<Task>>)
    requires Peels(tasks, graph, Ids(tasks), batches, {})
    ensures ToDo(tasks, graph, {}, batches, 0)
  {
    assert batches[0..] == batches && Ids(tasks) - {} == Ids(tasks);
  }

  lemma BatchDone(tasks: seq<Task>, graph: Graph, done: set<nat>, batches: seq<seq<Task>>, k: nat)
    requires k < |batches| && ToDo(tasks, graph, done, batches, k)
    ensures ToDo(tasks, graph, done + Ids(batches[k]), batches, k + 1)
  {
    hide IsLayer;
    assert batches[k..][0] == batches[k] && batches[k..][1..] == batches[k + 1..];
    assert Ids(tasks) - done - Ids(batches[k]) == Ids(tasks) - (done + Ids(batches[k]));
    LayerOfRemaining(tasks, graph, Ids(tasks) - done, batches[k]);
  }

  lemma LayerOfRemaining(tasks: seq<Task>, graph: Graph, remaining: set<nat>, batch: seq<Task>)
    requires IsLayer(tasks, graph, remaining, batch)
    ensures Ids(batch) <= remaining
  {}

  lemma AllDone(transactions: seq<Transaction>, tasks: seq<Task>, graph: Graph, done: set<nat>, batches: seq<seq<Task>>)
    requires ToDo(tasks, graph, done, batches, |batches|) && IdsAreIndices(tasks) && |tasks| == |transactions|
    ensures forall i: nat :: i in done <==> i < |transactions|
  {
    assert batches[|batches|..] == [];
    forall i: nat
      ensures i in done <==> i < |transactions|
    {
      assert i < |tasks| ==> tasks[i] in tasks;
      assert i in Ids(tasks) ==> i !in Ids(tasks) - done;
    }
  }

  // ----- what the equivalence does not say -----

  /** The serial order is not the submission order: of a sender's transactions
      with consecutive nonces only the first can take effect, however many
      would succeed one after another. */
  lemma {:induction false} PipelineCollapses(h: Hashing, s: Ledger, txs: seq<Transaction>, sender: Address)
    requires txs != [] && sender in s.accounts && s.accounts[sender].nonce == txs[0].nonce
    requires forall i | 0 <= i < |txs| :: txs[i].from == sender && txs[i].nonce == txs[0].nonce + i
    ensures var l := LatestFirst(h, s, txs);
            && l.accounts == Execute(h, s.accounts, txs[0])
            && l.outcomes.Keys == s.outcomes.Keys + IndexSet(|txs|)
            && l.outcomes[0] == OutcomeOf(h, s.accounts, txs[0])
            && forall i | 0 < i < |txs| :: l.outcomes[i].Err?
    decreases |txs|
  {
    var last := |txs| - 1;
    if last > 0 {
      var outcome := OutcomeOf(h, s.accounts, txs[last]);
      PipelineCollapses(h, Ledger(s.accounts, s.outcomes[last := outcome]), txs[..last], sender);
      LatestFirstKeeps(h, Ledger(s.accounts, s.outcomes[last := outcome]), txs[..last], last);
    } else {
      assert txs[..last] == [];
    }
  }

  lemma {:induction false} LatestFirstKeeps(h: Hashing, s: Ledger, txs: seq<Transaction>, id: nat)
    requires |txs| <= id && id in s.outcomes
    ensures var l := LatestFirst(h, s, txs); id in l.outcomes && l.outcomes[id] == s.outcomes[id]
    decreases |txs|
  {
    if txs != [] {
      var last := |txs| - 1;
      LatestFirstKeeps(h, Ledger(Execute(h, s.accounts, txs[last]),
                                 s.outcomes[last := OutcomeOf(h, s.accounts, txs[last])]), txs[..last], id);
    }
  }
}
