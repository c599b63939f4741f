/**
 * What a run of transactions keeps: the sum of all balances, each sender's
 * nonce sequence and the 256-bit range of balances.
 */
module Conservation {
  import opened Common
  import opened Executor
  import opened MapSum

  // ----- the sum of all balances -----

  function Balances(accounts: Accounts): map<Address, nat> {
    map a | a in accounts :: accounts[a].balance
  }

  ghost function Total(accounts: Accounts): nat {
    Sum(Balances(accounts))
  }

  function BalanceOf(accounts: Accounts, a: Address): nat {
    if a in accounts then accounts[a].balance else 0
  }

  function NonceOf(accounts: Accounts, a: Address): nat {
    if a in accounts then accounts[a].nonce else 0
  }

  lemma TotalUpdate(accounts: Accounts, a: Address, account: Account)
    ensures Total(accounts[a := account]) + BalanceOf(accounts, a) == Total(accounts) + account.balance
  {
    SumUpdate(Balances(accounts), a, account.balance);
    assert Balances(accounts[a := account]) == Balances(accounts)[a := account.balance];
  }

  lemma BalanceAtMostTotal(accounts: Accounts, a: Address)
    ensures BalanceOf(accounts, a) <= Total(accounts)
  {
    if a in accounts {
      SumRemove(Balances(accounts), a);
    }
  }

  // ----- one transaction -----

  /** The fee a successful transaction burns. */
  function Fee(tx: Transaction, outcome: Outcome): nat {
    if outcome.Ok? then outcome.value.gasUsed * tx.gasPrice else 0
  }

  /** Whether a transaction that succeeds moves value without creating or
      destroying any, as far as can be told before it runs. */
  predicate Conserving(h: Hashing, accounts: Accounts, tx: Transaction) {
    if tx.to.Some? then
      tx.to.value != tx.from || TotalCost(tx) == 0
    else if Target(h, tx) == tx.from then
      BalanceOf(accounts, tx.from) == TotalCost(tx)
    else
      BalanceOf(accounts, Target(h, tx)) == 0
  }

  lemma GasSplits(tx: Transaction, gasUsed: nat)
    requires gasUsed <= tx.gasLimit
    ensures Refund(tx, gasUsed) + gasUsed * tx.gasPrice == tx.gasLimit * tx.gasPrice
  {
  }

  /** A successful transaction lowers the sum of balances by exactly its fee
      if and only if it is `Conserving`. */
  lemma ConservationExact(h: Hashing, accounts: Accounts, tx: Transaction)
    requires OutcomeOf(h, accounts, tx).Ok?
    ensures Total(Execute(h, accounts, tx)) + Fee(tx, OutcomeOf(h, accounts, tx)) == Total(accounts)
        <==> Conserving(h, accounts, tx)
  {
    var effect := Plan(h, accounts, tx).value;
    var gasUsed := effect.receipt.gasUsed;
    var target := Target(h, tx);
    GasSplits(tx, gasUsed);
    var afterSender := accounts[tx.from := effect.changes[tx.from]];
    TotalUpdate(accounts, tx.from, effect.changes[tx.from]);
    if target == tx.from {
      assert Execute(h, accounts, tx) == afterSender;
    } else {
      TotalUpdate(afterSender, target, effect.changes[target]);
      assert Execute(h, accounts, tx) == afterSender[target := effect.changes[target]];
    }
  }

  // ----- runs -----

  function After(h: Hashing, accounts: Accounts, txs: seq<Transaction>): Accounts
    decreases txs
  {
    if txs == [] then accounts else After(h, Execute(h, accounts, txs[0]), txs[1..])
  }

  function Fees(h: Hashing, accounts: Accounts, txs: seq<Transaction>): nat
    decreases txs
  {
    if txs == [] then 0 else
      Fee(txs[0], OutcomeOf(h, accounts, txs[0])) + Fees(h, Execute(h, accounts, txs[0]), txs[1..])
  }

  /** Each successful transaction of the run is `Conserving` when it executes. */
  predicate AllConserving(h: Hashing, accounts: Accounts, txs: seq<Transaction>)
    decreases txs
  {
    txs == [] ||
    ((OutcomeOf(h, accounts, txs[0]).Ok? ==> Conserving(h, accounts, txs[0])) &&
     AllConserving(h, Execute(h, accounts, txs[0]), txs[1..]))
  }

  /** Each successful transaction pays somebody else, or creates at an address
      that has no account yet. */
  predicate Orderly(h: Hashing, accounts: Accounts, txs: seq<Transaction>)
    decreases txs
  {
    txs == [] ||
    ((OutcomeOf(h, accounts, txs[0]).Ok? ==>
        if txs[0].to.Some? then txs[0].to.value != txs[0].from else Target(h, txs[0]) !in accounts) &&
     Orderly(h, Execute(h, accounts, txs[0]), txs[1..]))
  }

  lemma {:induction false} OrderlyConserves(h: Hashing, accounts: Accounts, txs: seq<Transaction>)
    requires Orderly(h, accounts, txs)
    ensures AllConserving(h, accounts, txs)
    decreases txs
  {
    if txs != [] {
      OrderlyConserves(h, Execute(h, accounts, txs[0]), txs[1..]);
    }
  }

  /** Over a run, all that leaves the accounts is the fees of the successes. */
  lemma {:induction false} RunConserves(h: Hashing, accounts: Accounts, txs: seq<Transaction>)
    requires AllConserving(h, accounts, txs)
    ensures Total(After(h, accounts, txs)) + Fees(h, accounts, txs) == Total(accounts)
    decreases txs
  {
    if txs != [] {
      if OutcomeOf(h, accounts, txs[0]).Ok? {
        ConservationExact(h, accounts, txs[0]);
      }
      RunConserves(h, Execute(h, accounts, txs[0]), txs[1..]);
    }
  }

  lemma {:induction false} AfterPrefix(h: Hashing, accounts: Accounts, txs: seq<Transaction>, k: nat)
    requires k <= |txs| && AllConserving(h, accounts, txs)
    ensures AllConserving(h, accounts, txs[..k])
    decreases txs
  {
    if k > 0 {
      AfterPrefix(h, Execute(h, accounts, txs[0]), txs[1..], k - 1);
      assert txs[..k][1..] == txs[1..][..k - 1];
    }
  }

  /** If the balances sum to a 256-bit number at the start, no balance ever
      leaves the 256-bit range. */
  lemma BalancesStayBounded(h: Hashing, accounts: Accounts, txs: seq<Transaction>, k: nat, a: Address, bound: nat)
    requires Orderly(h, accounts, txs) && k <= |txs|
    requires Total(accounts) < bound
    ensures BalanceOf(After(h, accounts, txs[..k]), a) < bound
  {
    OrderlyConserves(h, accounts, txs);
    AfterPrefix(h, accounts, txs, k);
    RunConserves(h, accounts, txs[..k]);
    BalanceAtMostTotal(After(h, accounts, txs[..k]), a);
  }

  /** The nonces of the successful transactions of one sender, in run order. */
  function SuccessNonces(h: Hashing, accounts: Accounts, txs: seq<Transaction>, s: Address): seq<nat>
    decreases txs
  {
    if txs == [] then [] else
      (if txs[0].from == s && OutcomeOf(h, accounts, txs[0]).Ok? then [txs[0].nonce] else []) +
      SuccessNonces(h, Execute(h, accounts, txs[0]), txs[1..], s)
  }

  /** A sender's successes carry consecutive nonces, starting at its account's
      nonce and ending just below its final one. */
  lemma {:induction false} NoncesConsecutive(h: Hashing, accounts: Accounts, txs: seq<Transaction>, s: Address)
    requires Orderly(h, accounts, txs)
    ensures forall i | 0 <= i < |SuccessNonces(h, accounts, txs, s)| ::
              SuccessNonces(h, accounts, txs, s)[i] == NonceOf(accounts, s) + i
    ensures NonceOf(After(h, accounts, txs), s) == NonceOf(accounts, s) + |SuccessNonces(h, accounts, txs, s)|
    decreases txs
  {
    if txs != [] {
      NoncesConsecutive(h, Execute(h, accounts, txs[0]), txs[1..], s);
    }
  }

  function Successes(h: Hashing, accounts: Accounts, txs: seq<Transaction>): seq<Transaction>
    decreases txs
  {
    if txs == [] then [] else
      (if OutcomeOf(h, accounts, txs[0]).Ok? then [txs[0]] else []) +
      Successes(h, Execute(h, accounts, txs[0]), txs[1..])
  }

  /** Failed transactions change no account: leaving them out of a run alters
      neither the accounts nor the success of the others. */
  lemma {:induction false} FailuresAreInert(h: Hashing, accounts: Accounts, txs: seq<Transaction>)
    ensures After(h, accounts, Successes(h, accounts, txs)) == After(h, accounts, txs)
    ensures Successes(h, accounts, Successes(h, accounts, txs)) == Successes(h, accounts, txs)
    decreases txs
  {
    if txs != [] {
      var next := Execute(h, accounts, txs[0]);
      FailuresAreInert(h, next, txs[1..]);
      if OutcomeOf(h, accounts, txs[0]).Ok? {
        assert Successes(h, accounts, txs)[1..] == Successes(h, next, txs[1..]);
      } else {
        assert Successes(h, accounts, txs) == Successes(h, next, txs[1..]);
      }
    }
  }

  // ----- where it fails -----

  /** A self-transfer mints: nothing is debited, and the value and the refund are
      credited, whatever the accounts. */
  lemma SelfTransferMints(h: Hashing, accounts: Accounts, tx: Transaction)
    requires tx.to == Some(tx.from) && OutcomeOf(h, accounts, tx).Ok?
    ensures Total(Execute(h, accounts, tx)) == Total(accounts) + tx.value + Refund(tx, OutcomeOf(h, accounts, tx).value.gasUsed)
  {
    var effect := Plan(h, accounts, tx).value;
    TotalUpdate(accounts, tx.from, effect.changes[tx.from]);
    assert Execute(h, accounts, tx) == accounts[tx.from := effect.changes[tx.from]];
  }

  /** Whether the nonce check lets a transaction that has just succeeded through
      again: it pays its own sender, whose nonce it then leaves, or, at nonce
      zero and without a fee, creates a contract in the sender's place. */
  predicate Replayable(h: Hashing, tx: Transaction) {
    Target(h, tx) == tx.from && (tx.to.Some? || (tx.nonce == 0 && tx.gasPrice == 0))
  }

  lemma ReplayIff(h: Hashing, accounts: Accounts, tx: Transaction)
    requires OutcomeOf(h, accounts, tx).Ok?
    ensures OutcomeOf(h, Execute(h, accounts, tx), tx).Ok? <==> Replayable(h, tx)
  {
    var effect := Plan(h, accounts, tx).value;
    GasSplits(tx, effect.receipt.gasUsed);
  }

  // ----- no transaction succeeds twice in an orderly run -----

  predicate Succeeds(h: Hashing, accounts: Accounts, txs: seq<Transaction>, i: nat)
    requires i < |txs|
  {
    OutcomeOf(h, After(h, accounts, txs[..i]), txs[i]).Ok?
  }

  lemma {:induction false} SuccessRaisesNonce(h: Hashing, accounts: Accounts, txs: seq<Transaction>, j: nat, s: Address)
    requires Orderly(h, accounts, txs) && j <= |txs|
    ensures NonceOf(After(h, accounts, txs[..j]), s) >= NonceOf(accounts, s)
    ensures forall i | 0 <= i < j && txs[i].from == s && Succeeds(h, accounts, txs, i) ::
              txs[i].nonce < NonceOf(After(h, accounts, txs[..j]), s)
    decreases txs
  {
    if j > 0 {
      var next := Execute(h, accounts, txs[0]);
      SuccessRaisesNonce(h, next, txs[1..], j - 1, s);
      assert txs[..j][1..] == txs[1..][..j - 1];
      forall i | 0 <= i < j && txs[i].from == s && Succeeds(h, accounts, txs, i)
        ensures txs[i].nonce < NonceOf(After(h, accounts, txs[..j]), s)
      {
        if i > 0 {
          assert txs[..i][1..] == txs[1..][..i - 1];
          assert txs[i] == txs[1..][i - 1] && Succeeds(h, next, txs[1..], i - 1);
        }
      }
    }
  }

  /** Of two transactions of one sender with the same nonce at most one succeeds. */
  lemma NoReplay(h: Hashing, accounts: Accounts, txs: seq<Transaction>, i: nat, j: nat)
    requires Orderly(h, accounts, txs) && i < j < |txs|
    requires txs[i].from == txs[j].from && txs[i].nonce == txs[j].nonce
    ensures !(Succeeds(h, accounts, txs, i) && Succeeds(h, accounts, txs, j))
  {
    SuccessRaisesNonce(h, accounts, txs, j, txs[i].from);
  }
}
