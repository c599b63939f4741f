/**
 * Read/write set analysis, the conflict graph and its layering into batches
 * (state_machine/parallel.rs).
 */
module Scheduler {
  import opened Common
  import opened Executor

  datatype Task = Task(id: nat, transaction: Transaction, readSet: set<Address>, writeSet: set<Address>)

  type Graph = map<nat, seq<nat>>

  // ----- analysis -----

  /** Twenty bytes read as one number, most significant first. */
  function BytesToAddress(bytes: seq<byte>): Address {
    if bytes == [] then 0 else BytesToAddress(bytes[..|bytes| - 1]) * 256 + bytes[|bytes| - 1]
  }

  /** An address as `n` bytes, most significant first. */
  function AddressToBytes(a: Address, n: nat): (bytes: seq<byte>)
    ensures |bytes| == n
  {
    if n == 0 then [] else AddressToBytes(a / 256, n - 1) + [a % 256]
  }

  lemma {:induction false} AddressRoundTrips(bytes: seq<byte>)
    ensures AddressToBytes(BytesToAddress(bytes), |bytes|) == bytes
  {
    if bytes != [] {
      var front, last := bytes[..|bytes| - 1], bytes[|bytes| - 1];
      AddressRoundTrips(front);
      assert BytesToAddress(bytes) / 256 == BytesToAddress(front) && BytesToAddress(bytes) % 256 == last;
      assert bytes == front + [last];
    }
  }

  /** The byte in front counts for the most. */
  lemma {:induction false} FirstByteCounts(first: byte, rest: seq<byte>)
    ensures BytesToAddress([first] + rest) == first * Weight(|rest|) + BytesToAddress(rest)
  {
    var all := [first] + rest;
    if rest == [] {
      assert all[..0] == [];
    } else {
      assert all[..|all| - 1] == [first] + rest[..|rest| - 1];
      FirstByteCounts(first, rest[..|rest| - 1]);
    }
  }

  function Weight(n: nat): nat {
    if n == 0 then 1 else 256 * Weight(n - 1)
  }

  /** The address argument behind the 4-byte selector, when the data has one. */
  function PredictAccessedAccounts(data: seq<byte>): Option<seq<Address>> {
    if |data| >= 24 then Some([BytesToAddress(data[4..24])]) else None
  }

  function WriteSet(tx: Transaction): set<Address> {
    {tx.from} + (if tx.to.Some? then {tx.to.value} else {})
  }

  /** The sender and, for contract calls only, the recipient and the predicted account. */
  function ReadSet(accounts: Accounts, tx: Transaction): set<Address> {
    {tx.from} +
    (if tx.to.Some? && IsContract(Lookup(accounts, tx.to.value)) then
       {tx.to.value} + (if |tx.data| >= 24 then {BytesToAddress(tx.data[4..24])} else {})
     else {})
  }

  function Analyze(accounts: Accounts, id: nat, tx: Transaction): Task {
    Task(id, tx, ReadSet(accounts, tx), WriteSet(tx))
  }

  /** Which accounts a transaction is taken to write and to read; the account a call
      names is the one whose twenty bytes follow the first four of its data. */
  lemma SetsExact(accounts: Accounts, id: nat, tx: Transaction)
    ensures var task := Analyze(accounts, id, tx);
            && task.id == id && task.transaction == tx
            && (forall a :: a in task.writeSet <==> a == tx.from || tx.to == Some(a))
            && (forall a :: a in task.readSet <==>
                  || a == tx.from
                  || (tx.to.Some? && HasCode(accounts, tx.to.value) &&
                      (a == tx.to.value || (|tx.data| >= 24 && a == BytesToAddress(tx.data[4..24])))))
            && (|tx.data| >= 24 ==> AddressToBytes(BytesToAddress(tx.data[4..24]), 20) == tx.data[4..24])
  {
    if |tx.data| >= 24 {
      AddressRoundTrips(tx.data[4..24]);
    }
  }

  method AnalyzeTransactions(transactions: seq<Transaction>, db: StateDB) returns (tasks: seq<Task>)
    ensures |tasks| == |transactions|
    ensures forall i | 0 <= i < |tasks| :: tasks[i] == Analyze(db.accounts, i, transactions[i])
    ensures forall i, a | 0 <= i < |tasks| ::
              a in tasks[i].writeSet <==> a == transactions[i].from || transactions[i].to == Some(a)
    ensures forall i, a | 0 <= i < |tasks| ::
              var tx := transactions[i];
              a in tasks[i].readSet <==>
                || a == tx.from
                || (tx.to.Some? && HasCode(db.accounts, tx.to.value) &&
                    (a == tx.to.value || (|tx.data| >= 24 && a == BytesToAddress(tx.data[4..24]))))
  {
    tasks := [];
    for id := 0 to |transactions|
      invariant |tasks| == id
      invariant forall i | 0 <= i < id :: tasks[i] == Analyze(db.accounts, i, transactions[i])
    {
      var tx := transactions[id];
      var readSet: set<Address>, writeSet: set<Address> := {tx.from}, {tx.from};
      if tx.to.Some? {
        var to := tx.to.value;
        if IsContract(Lookup(db.accounts, to)) {
          readSet := readSet + {to};
          writeSet := writeSet + {to};
          var accessed := PredictAccessedAccounts(tx.data);
          if accessed.Some? {
            readSet := readSet + {accessed.value[0]};
          }
        } else {
          writeSet := writeSet + {to};
        }
      }
      tasks := tasks + [Task(id, tx, readSet, writeSet)];
    }
    forall i | 0 <= i < |tasks|
      ensures forall a :: a in tasks[i].writeSet <==> a == transactions[i].from || transactions[i].to == Some(a)
      ensures var tx := transactions[i];
              forall a :: a in tasks[i].readSet <==>
                || a == tx.from
                || (tx.to.Some? && HasCode(db.accounts, tx.to.value) &&
                    (a == tx.to.value || (|tx.data| >= 24 && a == BytesToAddress(tx.data[4..24]))))
    {
      SetsExact(db.accounts, i, transactions[i]);
    }
  }

  // ----- conflicts -----

  predicate HasConflict(task1: Task, task2: Task) {
    if !(task1.writeSet !! task2.writeSet) then true
    else if !(task1.readSet !! task2.writeSet) then true
    else if !(task1.writeSet !! task2.readSet) then true
    else false
  }

  ghost predicate IdsAreIndices(tasks: seq<Task>) {
    forall i | 0 <= i < |tasks| :: tasks[i].id == i
  }

  ghost predicate NoRepeats(deps: seq<nat>) {
    forall k, l | 0 <= k < l < |deps| :: deps[k] != deps[l]
  }

  ghost predicate KeysBelow(graph: Graph, n: nat) {
    forall i: nat :: i in graph <==> i < n
  }

  /** Every task has a list of dependencies, which are tasks, none repeated. */
  ghost predicate GraphOver(graph: Graph, n: nat) {
    && KeysBelow(graph, n)
    && forall i | i in graph :: NoRepeats(graph[i]) && forall j | j in graph[i] :: j in graph
  }

  /** The dependencies of task `i`: the earlier tasks in conflict with it. */
  ghost predicate IsDependencies(tasks: seq<Task>, i: nat, deps: seq<nat>)
    requires i < |tasks|
  {
    NoRepeats(deps) && forall j: nat :: j in deps <==> j < i && HasConflict(tasks[j], tasks[i])
  }

  ghost predicate ConflictGraph(tasks: seq<Task>, graph: Graph) {
    KeysBelow(graph, |tasks|) && forall i | i in graph :: IsDependencies(tasks, i, graph[i])
  }

  /** One task writes an account that the other reads or writes. */
  ghost predicate Meet(t: Task, u: Task) {
    exists a :: (a in t.writeSet && (a in u.readSet || a in u.writeSet)) || (a in u.writeSet && a in t.readSet)
  }

  lemma ConflictIsMeeting(t: Task, u: Task)
    ensures HasConflict(t, u) <==> Meet(t, u)
    ensures HasConflict(t, u) <==> HasConflict(u, t)
  {
  }

  lemma DependenciesAreMeetings(tasks: seq<Task>, graph: Graph)
    requires ConflictGraph(tasks, graph)
    ensures forall i: nat :: i in graph <==> i < |tasks|
    ensures forall i, j: nat | i in graph :: j in graph[i] <==> j < i && Meet(tasks[j], tasks[i])
  {
    hide Meet;
    forall i, j: nat | i in graph
      ensures j in graph[i] <==> j < i && Meet(tasks[j], tasks[i])
    {
      assert IsDependencies(tasks, i, graph[i]);
      if j < i {
        ConflictIsMeeting(tasks[j], tasks[i]);
      }
    }
  }

  method BuildDependencyGraph(tasks: seq<Task>) returns (graph: Graph)
    ensures ConflictGraph(tasks, graph)
    ensures forall i: nat :: i in graph <==> i < |tasks|
    ensures forall i, j: nat | i in graph ::
              j in graph[i] <==>
                j < i && exists a ::
                  || (a in tasks[j].writeSet && (a in tasks[i].readSet || a in tasks[i].writeSet))
                  || (a in tasks[i].writeSet && a in tasks[j].readSet)
  {
    graph := map[];
    for i := 0 to |tasks|
      invariant KeysBelow(graph, i)
      invariant forall a | a in graph :: IsDependencies(tasks, a, graph[a])
    {
      var dependencies: seq<nat> := [];
      for j := 0 to i
        invariant forall b: nat :: b in dependencies <==> b < j && HasConflict(tasks[b], tasks[i])
        invariant NoRepeats(dependencies)
      {
        if HasConflict(tasks[j], tasks[i]) {
          dependencies := dependencies + [j];
        }
      }
      graph := graph[i := dependencies];
    }
    DependenciesAreMeetings(tasks, graph);
    assert forall i, j: nat | i in graph :: j in graph[i] <==> j < i && Meet(tasks[j], tasks[i]);
  }

  lemma ConflictGraphIsGraph(tasks: seq<Task>, graph: Graph)
    requires ConflictGraph(tasks, graph)
    ensures GraphOver(graph, |tasks|)
  {
    forall i, j | i in graph && j in graph[i]
      ensures j in graph
    {
      assert IsDependencies(tasks, i, graph[i]);
    }
  }

  // ----- layering -----

  function Ids(batch: seq<Task>): set<nat> {
    set t | t in batch :: t.id
  }

  /** The remaining tasks that have `j` among their dependencies. */
  ghost function Dependents(graph: Graph, remaining: set<nat>, j: nat): set<nat> {
    set i | i in remaining && i in graph && j in graph[i]
  }

  ghost function Ready(graph: Graph, remaining: set<nat>): set<nat> {
    set j | j in remaining && Dependents(graph, remaining, j) == {}
  }

  /** `batch` lists each task of its layer once: all ready tasks, or a single
      arbitrary one when a cycle leaves none ready. */
  ghost predicate IsLayer(tasks: seq<Task>, graph: Graph, remaining: set<nat>, batch: seq<Task>) {
    && batch != []
    && (forall t | t in batch :: t.id < |tasks| && t == tasks[t.id])
    && (forall k, l | 0 <= k < l < |batch| :: batch[k].id != batch[l].id)
    && Ids(batch) <= remaining
    && (if Ready(graph, remaining) != {} then Ids(batch) == Ready(graph, remaining) else |batch| == 1)
  }

  /** Taking the layers of `batches` off one after another leads from the
      unscheduled ids `remaining` to `left`. */
  ghost predicate Peels(tasks: seq<Task>, graph: Graph, remaining: set<nat>, batches: seq<seq<Task>>, left: set<nat>) {
    if batches == [] then remaining == left
    else
      && IsLayer(tasks, graph, remaining, batches[0])
      && Peels(tasks, graph, remaining - Ids(batches[0]), batches[1..], left)
  }

  lemma {:induction false} PeelsAppend(tasks: seq<Task>, graph: Graph, remaining: set<nat>,
                                       batches: seq<seq<Task>>, left: set<nat>, batch: seq<Task>)
    requires Peels(tasks, graph, remaining, batches, left) && IsLayer(tasks, graph, left, batch)
    ensures Peels(tasks, graph, remaining, batches + [batch], left - Ids(batch))
    decreases |batches|
  {
    if batches == [] {
      assert Peels(tasks, graph, left - Ids(batch), [], left - Ids(batch));
      assert (batches + [batch])[1..] == [];
    } else {
      PeelsAppend(tasks, graph, remaining - Ids(batches[0]), batches[1..], left, batch);
      assert (batches + [batch])[1..] == batches[1..] + [batch];
    }
  }

  /** The in-degree kept for every unscheduled task is the number of
      unscheduled tasks that depend on it. */
  ghost predicate CountsDependents(graph: Graph, inDegree: map<nat, nat>) {
    CountsOver(graph, inDegree.Keys, inDegree)
  }

  ghost predicate CountsOver(graph: Graph, ids: set<nat>, inDegree: map<nat, nat>) {
    forall j | j in inDegree :: inDegree[j] == |Dependents(graph, ids, j)|
  }

  lemma NothingCounted(graph: Graph, inDegree: map<nat, nat>)
    requires forall j | j in inDegree :: inDegree[j] == 0
    ensures CountsOver(graph, {}, inDegree)
  {
    forall j | j in inDegree
      ensures Dependents(graph, {}, j) == {}
    {
    }
  }

  /** Adds one task's dependencies to the counts. */
  method CountTask(graph: Graph, ids: set<nat>, inDegree: map<nat, nat>, done: set<nat>, i: nat) returns (r: map<nat, nat>)
    requires i in graph && i !in done && inDegree.Keys == ids
    requires forall j | j in graph[i] :: j in ids
    requires NoRepeats(graph[i])
    requires CountsOver(graph, done, inDegree)
    ensures r.Keys == ids && CountsOver(graph, done + {i}, r)
  {
    r := inDegree;
    var deps := graph[i];
    for k := 0 to |deps|
      invariant r.Keys == ids
      invariant forall j | j in r :: r[j] == inDegree[j] + (if j in deps[..k] then 1 else 0)
    {
      assert deps[k] in graph[i];
      assert deps[..k + 1] == deps[..k] + [deps[k]];
      r := r[deps[k] := r[deps[k]] + 1];
    }
    assert deps[..|deps|] == deps;
    forall j | j in r
      ensures r[j] == |Dependents(graph, done + {i}, j)|
    {
      DependentsAdd(graph, done, i, j);
    }
  }

  method CountInDegrees(graph: Graph, zeros: map<nat, nat>) returns (inDegree: map<nat, nat>)
    requires GraphOver(graph, |graph|) && zeros.Keys == graph.Keys && forall a | a in zeros :: zeros[a] == 0
    ensures inDegree.Keys == graph.Keys && CountsDependents(graph, inDegree)
  {
    hide CountsOver;
    inDegree := zeros;
    NothingCounted(graph, zeros);
    var todo, done := graph.Keys, {};
    while todo != {}
      invariant todo <= graph.Keys && done == graph.Keys - todo && inDegree.Keys == graph.Keys
      invariant CountsOver(graph, done, inDegree)
      decreases todo
    {
      var i :| i in todo;
      inDegree := CountTask(graph, graph.Keys, inDegree, done, i);
      todo, done := todo - {i}, done + {i};
    }
    assert done == graph.Keys;
  }

  method InitMaps(tasks: seq<Task>) returns (zeros: map<nat, nat>, taskMap: map<nat, Task>)
    requires IdsAreIndices(tasks)
    ensures taskMap.Keys == zeros.Keys == Ids(tasks)
    ensures forall i: nat :: i in taskMap <==> i < |tasks|
    ensures forall i | i in taskMap :: taskMap[i] == tasks[i] && zeros[i] == 0
  {
    zeros, taskMap := map[], map[];
    for i := 0 to |tasks|
      invariant taskMap.Keys == zeros.Keys
      invariant forall a: nat :: a in taskMap <==> a < i
      invariant forall a | a in taskMap :: taskMap[a] == tasks[a] && zeros[a] == 0
    {
      zeros := zeros[tasks[i].id := 0];
      taskMap := taskMap[tasks[i].id := tasks[i]];
    }
    forall a: nat
      ensures a in Ids(tasks) <==> a < |tasks|
    {
      assert a < |tasks| ==> tasks[a] in tasks;
    }
  }

  lemma DependentsAdd(graph: Graph, ids: set<nat>, i: nat, j: nat)
    requires i !in ids && i in graph
    ensures |Dependents(graph, ids + {i}, j)| == |Dependents(graph, ids, j)| + (if j in graph[i] then 1 else 0)
  {
    if j in graph[i] {
      assert Dependents(graph, ids + {i}, j) == Dependents(graph, ids, j) + {i};
    } else {
      assert Dependents(graph, ids + {i}, j) == Dependents(graph, ids, j);
    }
  }

  /** Removes one scheduled task, lowering the counts of its dependencies. */
  method ReleaseDependencies(graph: Graph, inDegree: map<nat, nat>, id: nat) returns (r: map<nat, nat>)
    requires id in inDegree && inDegree.Keys <= graph.Keys && CountsDependents(graph, inDegree)
    requires NoRepeats(graph[id])
    ensures r.Keys == inDegree.Keys - {id} && CountsDependents(graph, r)
  {
    r := inDegree - {id};
    var deps := graph[id];
    var rest := inDegree.Keys - {id};
    for k := 0 to |deps|
      invariant r.Keys == rest
      invariant forall j | j in r ::
                  r[j] == |Dependents(graph, inDegree.Keys, j)| - (if j in deps[..k] then 1 else 0)
    {
      assert deps[..k + 1] == deps[..k] + [deps[k]];
      assert deps[k] !in deps[..k];
      if deps[k] in r {
        DependentsAdd(graph, rest, id, deps[k]);
        assert rest + {id} == inDegree.Keys;
        r := r[deps[k] := if r[deps[k]] == 0 then 0 else r[deps[k]] - 1];
      }
    }
    forall j | j in r
      ensures r[j] == |Dependents(graph, r.Keys, j)|
    {
      DependentsAdd(graph, rest, id, j);
      assert rest + {id} == inDegree.Keys;
      assert deps[..|deps|] == deps;
    }
  }

  /** One pass over the in-degrees, in any order: moves the tasks of degree
      zero from the task map to the batch. */
  method TakeReady(tasks: seq<Task>, inDegree: map<nat, nat>, taskMap: map<nat, Task>)
    returns (batch: seq<Task>, toRemove: set<nat>, rest: map<nat, Task>)
    requires taskMap.Keys == inDegree.Keys
    requires IdsAreIndices(tasks) && forall i | i in taskMap :: i < |tasks| && taskMap[i] == tasks[i]
    ensures toRemove == Ids(batch) == (set j | j in inDegree && inDegree[j] == 0)
    ensures rest == taskMap - toRemove
    ensures forall t | t in batch :: t.id < |tasks| && t == tasks[t.id]
    ensures forall k, l | 0 <= k < l < |batch| :: batch[k].id != batch[l].id
  {
    batch, toRemove, rest := [], {}, taskMap;
    var scan := inDegree.Keys;
    while scan != {}
      invariant scan <= inDegree.Keys
      invariant forall j :: j in toRemove <==> j in inDegree && j !in scan && inDegree[j] == 0
      invariant rest == taskMap - toRemove
      invariant forall t | t in batch :: t.id in toRemove && t.id < |tasks| && t == tasks[t.id]
      invariant forall j | j in toRemove :: j < |tasks| && tasks[j] in batch
      invariant forall k, l | 0 <= k < l < |batch| :: batch[k].id != batch[l].id
      decreases scan
    {
      var id :| id in scan;
      scan := scan - {id};
      if inDegree[id] == 0 {
        var task := rest[id];
        batch, rest, toRemove := batch + [task], rest - {id}, toRemove + {id};
      }
    }
    assert forall j | j in toRemove :: tasks[j].id == j;
  }

  method Release(graph: Graph, inDegree: map<nat, nat>, scheduled: set<nat>) returns (r: map<nat, nat>)
    requires GraphOver(graph, |graph|) && inDegree.Keys <= graph.Keys && scheduled <= inDegree.Keys
    requires CountsDependents(graph, inDegree)
    ensures r.Keys == inDegree.Keys - scheduled && CountsDependents(graph, r)
  {
    r := inDegree;
    var toRemove := scheduled;
    while toRemove != {}
      invariant toRemove <= scheduled && r.Keys == inDegree.Keys - (scheduled - toRemove)
      invariant CountsDependents(graph, r)
      decreases toRemove
    {
      var id :| id in toRemove;
      r := ReleaseDependencies(graph, r, id);
      toRemove := toRemove - {id};
    }
  }

  /** The tasks of the next batch: the ready ones, or one forced out of a cycle. */
  method NextBatch(tasks: seq<Task>, graph: Graph, inDegree: map<nat, nat>, taskMap: map<nat, Task>)
    returns (batch: seq<Task>, toRemove: set<nat>, rest: map<nat, Task>)
    requires inDegree != map[] && taskMap.Keys == inDegree.Keys && CountsDependents(graph, inDegree)
    requires IdsAreIndices(tasks) && forall i | i in taskMap :: i < |tasks| && taskMap[i] == tasks[i]
    ensures IsLayer(tasks, graph, inDegree.Keys, batch)
    ensures toRemove == Ids(batch) && rest == taskMap - toRemove
  {
    hide CountsOver, IsLayer;
    batch, toRemove, rest := TakeReady(tasks, inDegree, taskMap);
    if batch == [] && inDegree != map[] {
      var id :| id in inDegree;
      ForcedIsLayer(tasks, graph, inDegree, id);
      batch, toRemove, rest := [rest[id]], {id}, rest - {id};
    } else {
      ReadyIsLayer(tasks, graph, inDegree, batch);
    }
  }

  lemma ReadyIsLayer(tasks: seq<Task>, graph: Graph, inDegree: map<nat, nat>, batch: seq<Task>)
    requires CountsDependents(graph, inDegree) && batch != []
    requires Ids(batch) == set j | j in inDegree && inDegree[j] == 0
    requires forall t | t in batch :: t.id < |tasks| && t == tasks[t.id]
    requires forall k, l | 0 <= k < l < |batch| :: batch[k].id != batch[l].id
    ensures IsLayer(tasks, graph, inDegree.Keys, batch)
  {
    ReadyAreZero(graph, inDegree);
    assert batch[0].id in Ids(batch);
  }

  lemma ForcedIsLayer(tasks: seq<Task>, graph: Graph, inDegree: map<nat, nat>, id: nat)
    requires CountsDependents(graph, inDegree) && id in inDegree && id < |tasks| && tasks[id].id == id
    requires (set j | j in inDegree && inDegree[j] == 0) == {}
    ensures IsLayer(tasks, graph, inDegree.Keys, [tasks[id]])
    ensures Ids([tasks[id]]) == {id}
  {
    ReadyAreZero(graph, inDegree);
    assert Ids([tasks[id]]) == {id};
  }

  lemma ReadyAreZero(graph: Graph, inDegree: map<nat, nat>)
    requires CountsDependents(graph, inDegree)
    ensures Ready(graph, inDegree.Keys) == set j | j in inDegree && inDegree[j] == 0
  {
  }

  lemma GraphSize(graph: Graph, n: nat)
    requires forall i: nat :: i in graph <==> i < n
    ensures |graph| == n
  {
    if n == 0 {
      assert graph == map[];
    } else {
      assert (graph - {n - 1}).Keys == graph.Keys - {n - 1};
      GraphSize(graph - {n - 1}, n - 1);
    }
  }

  /** Nothing one task writes is read or written by the other. */
  predicate Apart(t: Task, u: Task) {
    t.writeSet !! u.readSet && t.writeSet !! u.writeSet && u.writeSet !! t.readSet
  }

  ghost predicate AllApart(batch: seq<Task>) {
    forall k, l | 0 <= k < l < |batch| :: Apart(batch[k], batch[l])
  }

  lemma NoMeetingApart(t: Task, u: Task)
    requires !Meet(t, u)
    ensures Apart(t, u)
  {}

  /** Of two tasks in one batch neither writes what the other touches. */
  lemma LayerApart(tasks: seq<Task>, graph: Graph, remaining: set<nat>, batch: seq<Task>)
    requires ConflictGraph(tasks, graph) && IsLayer(tasks, graph, remaining, batch)
    ensures AllApart(batch)
  {
    hide Meet, Apart, ConflictGraph;
    DependenciesAreMeetings(tasks, graph);
    forall k, l | 0 <= k < l < |batch|
      ensures Apart(batch[k], batch[l])
    {
      assert batch[k].id in Ids(batch) && batch[l].id in Ids(batch);
      ReadyApart(tasks, graph, remaining, batch[k], batch[l]);
    }
  }

  lemma ReadyApart(tasks: seq<Task>, graph: Graph, remaining: set<nat>, t: Task, u: Task)
    requires forall i: nat :: i in graph <==> i < |tasks|
    requires forall i, j: nat | i in graph :: j in graph[i] <==> j < i && Meet(tasks[j], tasks[i])
    requires t.id < |tasks| && u.id < |tasks| && t == tasks[t.id] && u == tasks[u.id] && t.id != u.id
    requires t.id in Ready(graph, remaining) && u.id in Ready(graph, remaining)
    ensures Apart(t, u)
  {
    var i, j := if t.id < u.id then u.id else t.id, if t.id < u.id then t.id else u.id;
    NotReady(graph, remaining, i, j);
    NoMeetingApart(tasks[j], tasks[i]);
  }

  lemma NotReady(graph: Graph, remaining: set<nat>, i: nat, j: nat)
    ensures i in remaining && i in graph && j in graph[i] ==> j !in Ready(graph, remaining)
  {
    assert i in remaining && i in graph && j in graph[i] ==> i in Dependents(graph, remaining, j);
  }

  lemma {:induction false} PeelsApart(tasks: seq<Task>, graph: Graph, remaining: set<nat>, batches: seq<seq<Task>>, left: set<nat>)
    requires ConflictGraph(tasks, graph) && Peels(tasks, graph, remaining, batches, left)
    ensures forall b | b in batches :: AllApart(b)
    decreases |batches|
  {
    hide AllApart, ConflictGraph, IsLayer;
    if batches != [] {
      LayerApart(tasks, graph, remaining, batches[0]);
      PeelsApart(tasks, graph, remaining - Ids(batches[0]), batches[1..], left);
      assert batches == [batches[0]] + batches[1..];
    }
  }

  /** `topological_sort`: peels off the tasks that no unscheduled task depends
      on; within a batch their order is that of the map iteration, so any. */
  method TopologicalSort(tasks: seq<Task>, graph: Graph) returns (batches: seq<seq<Task>>)
    requires IdsAreIndices(tasks) && GraphOver(graph, |tasks|)
    ensures Peels(tasks, graph, Ids(tasks), batches, {})
    ensures ConflictGraph(tasks, graph) ==>
              forall b, k, l | 0 <= b < |batches| && 0 <= k < l < |batches[b]| ::
                && batches[b][k].writeSet !! batches[b][l].readSet && batches[b][k].writeSet !! batches[b][l].writeSet
                && batches[b][k].readSet !! batches[b][l].writeSet
  {
    batches := [];
    var zeros, taskMap := InitMaps(tasks);
    GraphSize(graph, |tasks|);
    var inDegree := CountInDegrees(graph, zeros);
    while inDegree != map[]
      invariant inDegree.Keys == taskMap.Keys <= graph.Keys
      invariant forall i | i in taskMap :: i < |tasks| && taskMap[i] == tasks[i]
      invariant CountsDependents(graph, inDegree)
      invariant Peels(tasks, graph, Ids(tasks), batches, inDegree.Keys)
      decreases |inDegree.Keys|
    {
      var batch, toRemove, rest := NextBatch(tasks, graph, inDegree, taskMap);
      PeelsAppend(tasks, graph, Ids(tasks), batches, inDegree.Keys, batch);
      LayerNonEmpty(tasks, graph, inDegree.Keys, batch);
      taskMap := rest;
      inDegree := Release(graph, inDegree, toRemove);
      if batch != [] {
        batches := batches + [batch];
      }
    }
    if ConflictGraph(tasks, graph) {
      PeelsApart(tasks, graph, Ids(tasks), batches, {});
      BatchesApart(batches);
    }
  }

  lemma BatchesApart(batches: seq<seq<Task>>)
    requires forall b | b in batches :: AllApart(b)
    ensures forall b, k, l | 0 <= b < |batches| && 0 <= k < l < |batches[b]| ::
              && batches[b][k].writeSet !! batches[b][l].readSet && batches[b][k].writeSet !! batches[b][l].writeSet
              && batches[b][k].readSet !! batches[b][l].writeSet
  {
    forall b, k, l | 0 <= b < |batches| && 0 <= k < l < |batches[b]|
      ensures Apart(batches[b][k], batches[b][l])
    {
      assert AllApart(batches[b]);
    }
  }

  lemma LayerNonEmpty(tasks: seq<Task>, graph: Graph, remaining: set<nat>, batch: seq<Task>)
    requires IsLayer(tasks, graph, remaining, batch)
    ensures |remaining - Ids(batch)| < |remaining|
  {
    assert batch[0].id in Ids(batch);
    assert remaining - Ids(batch) < remaining;
    CardinalityStrict(remaining - Ids(batch), remaining);
  }

  lemma {:induction false} CardinalityStrict(a: set<nat>, b: set<nat>)
    requires a < b
    ensures |a| < |b|
  {
    if a != {} {
      var x :| x in a;
      CardinalityStrict(a - {x}, b - {x});
    }
  }
}
