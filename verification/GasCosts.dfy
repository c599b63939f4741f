/**
 * What transactions cost their senders, and what they leave in the accounts
 * (state_machine/executor.rs).
 */
module GasCosts {
  import opened Common
  import opened Executor
  import opened Conservation

  // ----- what a transaction leaves -----

  /** A success leaves the sender one nonce on and poorer by value and gas, its target
      richer by the value, and every other account as it was. */
  lemma SuccessLeaves(h: Hashing, accounts: Accounts, tx: Transaction)
    requires OutcomeOf(h, accounts, tx).Ok? && Target(h, tx) != tx.from
    ensures var after, sender, target := Execute(h, accounts, tx), accounts[tx.from], Target(h, tx);
            && tx.value + GasNeeded(accounts, tx) * tx.gasPrice <= sender.balance
            && after.Keys == accounts.Keys + {target}
            && (forall a | a in accounts && a != tx.from && a != target :: after[a] == accounts[a])
            && after[tx.from] ==
                 Account(sender.nonce + 1, sender.balance - tx.value - GasNeeded(accounts, tx) * tx.gasPrice,
                         sender.storageRoot, sender.codeHash)
            && after[target] ==
                 if tx.to.None? then Account(0, tx.value, 0, Some(h.codeHash(tx.data)))
                 else if target in accounts then
                   var paid := accounts[target];
                   Account(paid.nonce, paid.balance + tx.value, paid.storageRoot, paid.codeHash)
                 else Account(0, tx.value, 0, None)
  {
    OutcomeExact(h, accounts, tx);
    GasSplits(tx, GasNeeded(accounts, tx));
  }

  /** Paying itself, a sender keeps its nonce and is richer by value and refund. */
  lemma SelfPaymentLeaves(h: Hashing, accounts: Accounts, tx: Transaction)
    requires OutcomeOf(h, accounts, tx).Ok? && tx.to == Some(tx.from)
    ensures var sender := accounts[tx.from];
            Execute(h, accounts, tx) ==
              accounts[tx.from := Account(sender.nonce,
                                          sender.balance + tx.value + (tx.gasLimit - GasNeeded(accounts, tx)) * tx.gasPrice,
                                          sender.storageRoot, sender.codeHash)]
  {
    OutcomeExact(h, accounts, tx);
  }

  // ----- gas -----

  /** A payment to an account without code burns 21000 times the gas price, whatever
      its data and its gas limit. */
  lemma PaymentBurns(h: Hashing, accounts: Accounts, tx: Transaction)
    requires tx.to.Some? && tx.to.value != tx.from && !HasCode(accounts, tx.to.value) && OutcomeOf(h, accounts, tx).Ok?
    ensures var after := Execute(h, accounts, tx);
            && BalanceOf(after, tx.from) + tx.value + 21000 * tx.gasPrice == BalanceOf(accounts, tx.from)
            && BalanceOf(after, tx.to.value) == BalanceOf(accounts, tx.to.value) + tx.value
            && Total(after) + 21000 * tx.gasPrice == Total(accounts)
  {
    SuccessLeaves(h, accounts, tx);
    OutcomeExact(h, accounts, tx);
    ConservationExact(h, accounts, tx);
  }

  /** One more byte of data costs the price of 68 gas in a call, of 136 in a creation,
      and nothing in a payment. */
  lemma ByteCosts(h: Hashing, accounts: Accounts, tx: Transaction, b: byte)
    requires var longer := tx.(data := tx.data + [b]);
             OutcomeOf(h, accounts, tx).Ok? && OutcomeOf(h, accounts, longer).Ok?
    ensures var longer := tx.(data := tx.data + [b]);
            var gas := if tx.to.None? then 136 else if HasCode(accounts, tx.to.value) then 68 else 0;
            && BalanceOf(Execute(h, accounts, longer), tx.from) + gas * tx.gasPrice ==
                 BalanceOf(Execute(h, accounts, tx), tx.from)
            && OutcomeOf(h, accounts, longer).value.gasUsed == OutcomeOf(h, accounts, tx).value.gasUsed + gas
  {
    hide Execute, OutcomeOf, Affords, HasCode, BalanceOf;
    var longer := tx.(data := tx.data + [b]);
    OutcomeExact(h, accounts, tx);
    OutcomeExact(h, accounts, longer);
    SenderAfter(h, accounts, tx);
    SenderAfter(h, accounts, longer);
    var gas := if tx.to.None? then 136 else if HasCode(accounts, tx.to.value) then 68 else 0;
    assert GasNeeded(accounts, longer) == GasNeeded(accounts, tx) + gas;
    Split(tx.gasLimit - GasNeeded(accounts, longer), gas, tx.gasPrice);
  }

  lemma Split(a: nat, b: nat, price: nat)
    ensures (a + b) * price == a * price + b * price
  {}

  /** What the sender is left with: the refund, and what the debit or, on its own
      account, the credit left. */
  lemma SenderAfter(h: Hashing, accounts: Accounts, tx: Transaction)
    requires OutcomeOf(h, accounts, tx).Ok?
    ensures GasNeeded(accounts, tx) <= tx.gasLimit
    ensures var kept := if Target(h, tx) != tx.from then BalanceOf(accounts, tx.from) - tx.value - tx.gasLimit * tx.gasPrice
                        else if tx.to.Some? then BalanceOf(accounts, tx.from) + tx.value
                        else tx.value;
            BalanceOf(Execute(h, accounts, tx), tx.from) == kept + (tx.gasLimit - GasNeeded(accounts, tx)) * tx.gasPrice
  {
    OutcomeExact(h, accounts, tx);
  }

  /** With the same data the surcharge of a creation is twice that of a call. */
  lemma CreationCostsTwice(h: Hashing, accounts: Accounts, call: Transaction, creation: Transaction)
    requires call.data == creation.data && creation.to.None? && call.to.Some? && HasCode(accounts, call.to.value)
    requires OutcomeOf(h, accounts, call).Ok? && OutcomeOf(h, accounts, creation).Ok?
    ensures OutcomeOf(h, accounts, creation).value.gasUsed - 21000 == 2 * (OutcomeOf(h, accounts, call).value.gasUsed - 21000)
    ensures OutcomeOf(h, accounts, call).value.gasUsed == 53000 + 68 * |call.data|
  {
    OutcomeExact(h, accounts, call);
    OutcomeExact(h, accounts, creation);
  }

  /** An affordable call fails exactly when its gas limit is below what it needs, and so does
      an affordable creation; a payment with the fixed charge never runs out. */
  lemma FailsBelow(h: Hashing, accounts: Accounts, tx: Transaction)
    requires Affords(accounts, tx) && tx.gasLimit >= 21000
    ensures OutcomeOf(h, accounts, tx) == Err(GasLimitExceeded) <==>
              || (tx.to.None? && tx.gasLimit < 85000 + 136 * |tx.data|)
              || (tx.to.Some? && HasCode(accounts, tx.to.value) && tx.gasLimit < 53000 + 68 * |tx.data|)
  {
    OutcomeExact(h, accounts, tx);
  }

  /** Gas bought beyond what is used comes back in full: with any other limit that
      suffices, a transaction on another account leaves the same accounts. */
  lemma LimitIsRefunded(h: Hashing, accounts: Accounts, tx: Transaction, limit: nat)
    requires OutcomeOf(h, accounts, tx).Ok? && OutcomeOf(h, accounts, tx.(gasLimit := limit)).Ok? && Target(h, tx) != tx.from
    ensures Execute(h, accounts, tx) == Execute(h, accounts, tx.(gasLimit := limit))
    ensures OutcomeOf(h, accounts, tx) == OutcomeOf(h, accounts, tx.(gasLimit := limit))
  {
    SuccessLeaves(h, accounts, tx);
    SuccessLeaves(h, accounts, tx.(gasLimit := limit));
    OutcomeExact(h, accounts, tx);
    OutcomeExact(h, accounts, tx.(gasLimit := limit));
  }
}
