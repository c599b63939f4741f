/**
 * The executor's own dependency grouping (state_machine/executor.rs): what its
 * single in-order pass really computes.
 */
module Grouping {
  import opened Common
  import opened Executor

  type Graph = seq<seq<nat>>

  predicate CallsContract(accounts: Accounts, tx: Transaction) {
    tx.to.Some? && IsContract(Lookup(accounts, tx.to.value))
  }

  /** Transaction `i` uses account `a`: it sends from it, or calls it as a contract. */
  predicate Uses(accounts: Accounts, tx: Transaction, a: Address) {
    tx.from == a || (CallsContract(accounts, tx) && tx.to.value == a)
  }

  /** `j` is the last transaction before `i` that uses `a`. */
  ghost predicate LastUse(accounts: Accounts, txs: seq<Transaction>, i: nat, a: Address, j: nat)
    requires i <= |txs|
  {
    j < i && Uses(accounts, txs[j], a) && forall m | j < m < i :: !Uses(accounts, txs[m], a)
  }

  /** What transaction `i` waits for: the last earlier user of its sender, and
      for contract calls the last user of the contract, which is `i` itself
      when a contract account calls itself. */
  ghost predicate WaitsFor(accounts: Accounts, txs: seq<Transaction>, i: nat, j: nat)
    requires i < |txs|
  {
    || LastUse(accounts, txs, i, txs[i].from, j)
    || (CallsContract(accounts, txs[i]) &&
        if txs[i].to.value == txs[i].from then j == i
        else LastUse(accounts, txs, i, txs[i].to.value, j))
  }

  ghost predicate IsGraph(accounts: Accounts, txs: seq<Transaction>, graph: Graph) {
    && |graph| == |txs|
    && forall i, j | 0 <= i < |txs| :: j in graph[i] <==> WaitsFor(accounts, txs, i, j)
  }

  /** The last user of each account among the first `i` transactions. */
  ghost predicate TracksLastUse(accounts: Accounts, txs: seq<Transaction>, i: nat, last: map<Address, nat>)
    requires i <= |txs|
  {
    && (forall a | a in last :: LastUse(accounts, txs, i, a, last[a]))
    && (forall a | a !in last :: forall m | 0 <= m < i :: !Uses(accounts, txs[m], a))
  }

  /** The map of last users once transaction `tx` has been entered as the `i`th. */
  function Entered(accounts: Accounts, tx: Transaction, i: nat, last: map<Address, nat>): map<Address, nat> {
    var sent := last[tx.from := i];
    if CallsContract(accounts, tx) then sent[tx.to.value := i] else sent
  }

  /** The dependencies read off while it is entered. */
  function Found(accounts: Accounts, tx: Transaction, i: nat, last: map<Address, nat>): seq<nat> {
    (if tx.from in last then [last[tx.from]] else []) +
    if CallsContract(accounts, tx) && tx.to.value in last[tx.from := i] then [last[tx.from := i][tx.to.value]] else []
  }

  lemma EnteredTracks(accounts: Accounts, txs: seq<Transaction>, i: nat, last: map<Address, nat>)
    requires i < |txs| && TracksLastUse(accounts, txs, i, last)
    ensures TracksLastUse(accounts, txs, i + 1, Entered(accounts, txs[i], i, last))
  {
    hide IsContract;
    var next := Entered(accounts, txs[i], i, last);
    forall a
      ensures Uses(accounts, txs[i], a) <==> a in next && next[a] == i
      ensures !Uses(accounts, txs[i], a) ==> Lookup(next, a) == Lookup(last, a)
    {
      assert a in last ==> last[a] < i;
    }
  }

  lemma FoundAre(accounts: Accounts, txs: seq<Transaction>, i: nat, last: map<Address, nat>)
    requires i < |txs| && TracksLastUse(accounts, txs, i, last)
    ensures forall j :: j in Found(accounts, txs[i], i, last) <==> WaitsFor(accounts, txs, i, j)
  {
    hide TracksLastUse, LastUse, IsContract;
    LastUseUnique(accounts, txs, i, last);
    var tx := txs[i];
    var sent := last[tx.from := i];
    var first := if tx.from in last then [last[tx.from]] else [];
    var second := if CallsContract(accounts, tx) && tx.to.value in sent then [sent[tx.to.value]] else [];
    assert Found(accounts, tx, i, last) == first + second;
    assert forall j :: j in first <==> LastUse(accounts, txs, i, tx.from, j);
    if CallsContract(accounts, tx) && tx.to.value != tx.from {
      assert forall j :: j in second <==> LastUse(accounts, txs, i, tx.to.value, j);
    }
  }

  /** A transaction waits for the last one before it that sends from its own sender or
      calls that as a contract, for the last one that sends from or calls the contract it
      calls itself, and for itself if a contract account calls itself. */
  lemma WaitsExactly(accounts: Accounts, txs: seq<Transaction>, graph: Graph)
    requires IsGraph(accounts, txs, graph)
    ensures forall i, j | 0 <= i < |txs| ::
              var s := txs[i].from;
              j in graph[i] <==>
                || (0 <= j < i && (txs[j].from == s || (txs[j].to == Some(s) && HasCode(accounts, s))) &&
                    forall m | j < m < i :: txs[m].from != s && (txs[m].to != Some(s) || !HasCode(accounts, s)))
                || (j == i && txs[i].to == Some(s) && HasCode(accounts, s))
                || (txs[i].to.Some? && txs[i].to.value != s && HasCode(accounts, txs[i].to.value) &&
                    var c := txs[i].to.value;
                    0 <= j < i && (txs[j].from == c || txs[j].to == Some(c)) &&
                    forall m | j < m < i :: txs[m].from != c && txs[m].to != Some(c))
  {
    forall m, a | 0 <= m < |txs|
      ensures Uses(accounts, txs[m], a) <==> txs[m].from == a || (txs[m].to == Some(a) && HasCode(accounts, a))
    {}
    hide Uses, CallsContract;
    forall i | 0 <= i < |txs|
      ensures CallsContract(accounts, txs[i]) <==> txs[i].to.Some? && HasCode(accounts, txs[i].to.value)
    {
      CallIs(accounts, txs[i]);
    }
  }

  lemma CallIs(accounts: Accounts, tx: Transaction)
    ensures CallsContract(accounts, tx) <==> tx.to.Some? && HasCode(accounts, tx.to.value)
  {}

  method BuildDependencyGraph(db: StateDB, txs: seq<Transaction>) returns (graph: Graph)
    ensures IsGraph(db.accounts, txs, graph)
  {
    hide *;
    graph := [];
    var accountLastTx: map<Address, nat> := map[];
    NothingUsed(db.accounts, txs);
    for i := 0 to |txs|
      invariant |graph| == i && TracksLastUse(db.accounts, txs, i, accountLastTx)
      invariant forall k, j | 0 <= k < i :: j in graph[k] <==> WaitsFor(db.accounts, txs, k, j)
    {
      FoundAre(db.accounts, txs, i, accountLastTx);
      EnteredTracks(db.accounts, txs, i, accountLastTx);
      var deps;
      deps, accountLastTx := Enter(db, txs[i], i, accountLastTx);
      graph := graph + [deps];
    }
    MakesGraph(db.accounts, txs, graph);
  }

  lemma MakesGraph(accounts: Accounts, txs: seq<Transaction>, graph: Graph)
    requires |graph| == |txs| && forall i, j | 0 <= i < |txs| :: j in graph[i] <==> WaitsFor(accounts, txs, i, j)
    ensures IsGraph(accounts, txs, graph)
  {}

  /** The body of the loop over the transactions. */
  method Enter(db: StateDB, tx: Transaction, i: nat, last: map<Address, nat>)
    returns (deps: seq<nat>, accountLastTx: map<Address, nat>)
    ensures deps == Found(db.accounts, tx, i, last) && accountLastTx == Entered(db.accounts, tx, i, last)
  {
    deps, accountLastTx := [], last;
    if tx.from in accountLastTx {
      deps := deps + [accountLastTx[tx.from]];
    }
    accountLastTx := accountLastTx[tx.from := i];
    if tx.to.Some? {
      var to := tx.to.value;
      if IsContract(Lookup(db.accounts, to)) {
        if to in accountLastTx {
          deps := deps + [accountLastTx[to]];
        }
        accountLastTx := accountLastTx[to := i];
      }
    }
  }

  lemma NothingUsed(accounts: Accounts, txs: seq<Transaction>)
    ensures TracksLastUse(accounts, txs, 0, map[])
  {
  }

  lemma LastUseUnique(accounts: Accounts, txs: seq<Transaction>, i: nat, last: map<Address, nat>)
    requires i <= |txs| && TracksLastUse(accounts, txs, i, last)
    ensures forall a, j :: LastUse(accounts, txs, i, a, j) <==> a in last && j == last[a]
  {
  }

  /** A transaction is stuck if it waits for itself, directly or through others. */
  predicate Stuck(graph: Graph, i: nat)
    requires i < |graph|
    decreases i
  {
    exists j | j in graph[i] :: j >= i || (j < i && Stuck(graph, j))
  }

  function Unstuck(graph: Graph, txs: seq<Transaction>, n: nat): seq<Transaction>
    requires n <= |txs| == |graph|
  {
    if n == 0 then [] else
      Unstuck(graph, txs, n - 1) + (if Stuck(graph, n - 1) then [] else [txs[n - 1]])
  }

  /** Dependencies never point forward. */
  ghost predicate NotForward(graph: Graph) {
    forall i, j | 0 <= i < |graph| && j in graph[i] :: j <= i
  }

  lemma GraphNotForward(accounts: Accounts, txs: seq<Transaction>, graph: Graph)
    requires IsGraph(accounts, txs, graph)
    ensures NotForward(graph)
  {
  }

  /** One pass over the transactions in submission order; a transaction marked
      in this pass already releases later ones. */
  method Pass(txs: seq<Transaction>, graph: Graph, processed: seq<bool>)
    returns (group: seq<Transaction>, marked: seq<bool>, foundAny: bool)
    requires |processed| == |txs| == |graph| && NotForward(graph)
    ensures |marked| == |txs| && forall i | 0 <= i < |txs| && processed[i] :: marked[i]
    ensures !foundAny ==> group == [] && marked == processed
    ensures (forall i | 0 <= i < |txs| :: !processed[i]) ==>
              && group == Unstuck(graph, txs, |txs|)
              && (forall i | 0 <= i < |txs| :: marked[i] <==> !Stuck(graph, i))
    ensures (forall i | 0 <= i < |txs| :: processed[i] <==> !Stuck(graph, i)) ==> !foundAny
  {
    group, marked, foundAny := [], processed, false;
    ghost var untouched := forall i | 0 <= i < |txs| :: !processed[i];
    ghost var settled := forall i | 0 <= i < |txs| :: processed[i] <==> !Stuck(graph, i);
    for idx := 0 to |txs|
      invariant |marked| == |txs| && forall i | 0 <= i < |txs| && processed[i] :: marked[i]
      invariant forall i | idx <= i < |txs| :: marked[i] == processed[i]
      invariant !foundAny ==> group == [] && marked == processed
      invariant untouched ==> group == Unstuck(graph, txs, idx) && forall i | 0 <= i < idx :: marked[i] <==> !Stuck(graph, i)
      invariant settled ==> !foundAny
    {
      if !marked[idx] {
        var allDepsProcessed := forall dep | dep in graph[idx] :: marked[dep];
        if allDepsProcessed {
          group := group + [txs[idx]];
          marked := marked[idx := true];
          foundAny := true;
        }
      }
    }
  }

  /** `group_by_dependency`: everything that is not stuck ends up in one single
      group, whatever it waits for; what is stuck is dropped. */
  method GroupByDependency(txs: seq<Transaction>, graph: Graph) returns (groups: seq<seq<Transaction>>)
    requires |graph| == |txs| && NotForward(graph)
    ensures groups == if Unstuck(graph, txs, |txs|) == [] then [] else [Unstuck(graph, txs, |txs|)]
  {
    groups := [];
    var processed := seq(|txs|, _ => false);
    ghost var passes := 0;
    while true
      invariant |processed| == |txs| && passes <= 1
      invariant passes == 0 ==> groups == [] && forall i | 0 <= i < |txs| :: !processed[i]
      invariant passes == 1 ==>
                  && groups == (if Unstuck(graph, txs, |txs|) == [] then [] else [Unstuck(graph, txs, |txs|)])
                  && forall i | 0 <= i < |txs| :: processed[i] <==> !Stuck(graph, i)
      decreases 1 - passes
    {
      var currentGroup, marked, foundAny := Pass(txs, graph, processed);
      processed := marked;
      if currentGroup != [] {
        groups := groups + [currentGroup];
      }
      if !foundAny {
        break;
      }
      passes := passes + 1;
    }
  }

  /** Grouping keeps every transaction exactly when no contract account that
      sends a transaction calls itself. */
  lemma {:induction false} GroupingKeepsAll(accounts: Accounts, txs: seq<Transaction>, graph: Graph)
    requires IsGraph(accounts, txs, graph)
    ensures (forall i | 0 <= i < |txs| :: !Stuck(graph, i))
       <==> NoneCallsItself(accounts, txs)
    ensures (forall i | 0 <= i < |txs| :: !Stuck(graph, i)) <==> Unstuck(graph, txs, |txs|) == txs
  {
    if i :| 0 <= i < |txs| && CallsContract(accounts, txs[i]) && txs[i].to.value == txs[i].from {
      assert WaitsFor(accounts, txs, i, i) && i in graph[i];
      assert Stuck(graph, i);
    } else {
      for n := 0 to |txs|
        invariant forall i | 0 <= i < n :: !Stuck(graph, i)
      {
        assert forall j | j in graph[n] :: WaitsFor(accounts, txs, n, j);
      }
    }
    UnstuckAll(graph, txs, |txs|);
  }

  /** No contract account among the senders calls itself. */
  predicate NoneCallsItself(accounts: Accounts, txs: seq<Transaction>) {
    forall i | 0 <= i < |txs| :: !(CallsContract(accounts, txs[i]) && txs[i].to.value == txs[i].from)
  }

  /** `execute_transactions_parallel` up to its groups: all transactions form one
      group, whatever they wait for, if and only if none calls its own sender;
      otherwise those that do are dropped, with all that wait for them. */
  method GroupTransactions(db: StateDB, txs: seq<Transaction>) returns (groups: seq<seq<Transaction>>)
    ensures groups == (if txs == [] then [] else [txs]) <==> NoneCallsItself(db.accounts, txs)
    ensures groups == (if txs == [] then [] else [txs]) <==>
            forall i | 0 <= i < |txs| :: txs[i].to != Some(txs[i].from) || !HasCode(db.accounts, txs[i].from)
    ensures exists graph :: IsGraph(db.accounts, txs, graph) &&
              groups == if Unstuck(graph, txs, |txs|) == [] then [] else [Unstuck(graph, txs, |txs|)]
  {
    var dependencyGraph := BuildDependencyGraph(db, txs);
    GraphNotForward(db.accounts, txs, dependencyGraph);
    groups := GroupByDependency(txs, dependencyGraph);
    GroupingKeepsAll(db.accounts, txs, dependencyGraph);
    hide IsGraph, Unstuck, Stuck;
    assert Unstuck(dependencyGraph, txs, |txs|) == txs <==> NoneCallsItself(db.accounts, txs);
  }

  lemma {:induction false} UnstuckAll(graph: Graph, txs: seq<Transaction>, n: nat)
    requires n <= |txs| == |graph|
    ensures |Unstuck(graph, txs, n)| <= n
    ensures (forall i | 0 <= i < n :: !Stuck(graph, i)) ==> Unstuck(graph, txs, n) == txs[..n]
    ensures |Unstuck(graph, txs, n)| == n ==> forall i | 0 <= i < n :: !Stuck(graph, i)
  {
    if n > 0 {
      UnstuckAll(graph, txs, n - 1);
    }
  }
}
