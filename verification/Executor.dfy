/**
 * Execution of single transactions on the account state
 * (state_machine/executor.rs), with the account database reduced to a map.
 */
module Executor {
  import opened Common

  type Address = nat
  type Digest = nat

  const BASE_GAS: nat := 21000
  const CONTRACT_BASE_GAS: nat := 32000
  const GAS_PER_BYTE: nat := 68

  datatype Account = Account(nonce: nat, balance: nat, storageRoot: Digest, codeHash: Option<Digest>)

  const DEFAULT_ACCOUNT := Account(0, 0, 0, None)

  type Accounts = map<Address, Account>

  datatype Transaction = Transaction(
    nonce: nat,
    from: Address,
    to: Option<Address>,
    value: nat,
    data: seq<byte>,
    gasLimit: nat,
    gasPrice: nat,
    signatureR: nat,
    signatureS: nat)

  /** The two SHA-256 based functions; nothing is assumed about them. */
  datatype Hashing = Hashing(
    contractAddress: (Address, nat) -> Address,
    codeHash: seq<byte> -> Digest)

  datatype Error =
    | InvalidSignature
    | StateNotFound
    | InvalidNonce
    | InsufficientBalance
    | GasLimitTooLow
    | GasLimitExceeded

  datatype Log = ContractExecuted(address: Address) | ContractCreated(address: Address)

  datatype Receipt = Receipt(from: Address, to: Option<Address>, gasUsed: nat, logs: seq<Log>)

  /** What a transaction that goes through wants to write, with its receipt. */
  datatype Effect = Effect(changes: Accounts, receipt: Receipt)

  type Outcome = Result<Receipt, Error>

  function TotalCost(tx: Transaction): nat {
    tx.value + tx.gasLimit * tx.gasPrice
  }

  function ContractGas(data: seq<byte>): nat {
    CONTRACT_BASE_GAS + |data| * GAS_PER_BYTE
  }

  predicate SignatureOk(tx: Transaction) {
    tx.signatureR != 0 && tx.signatureS != 0
  }

  predicate IsContract(account: Option<Account>) {
    account.Some? && account.value.codeHash.Some?
  }

  /** The checks of `validate_transaction`, in their order; `None` means valid. */
  function Validate(tx: Transaction, sender: Option<Account>): Option<Error> {
    if !SignatureOk(tx) then Some(InvalidSignature)
    else if sender.None? then Some(StateNotFound)
    else if sender.value.nonce != tx.nonce then Some(InvalidNonce)
    else if sender.value.balance < TotalCost(tx) then Some(InsufficientBalance)
    else if tx.gasLimit < BASE_GAS then Some(GasLimitTooLow)
    else None
  }

  /** The account a transaction pays into: its recipient, or the contract it creates. */
  function Target(h: Hashing, tx: Transaction): Address {
    if tx.to.Some? then tx.to.value else h.contractAddress(tx.from, tx.nonce)
  }

  /** Gas charged once the recipient's code status is known. */
  function GasUsed(tx: Transaction, code: Option<Account>): nat {
    if tx.to.None? then BASE_GAS + ContractGas(tx.data) * 2
    else if IsContract(code) then BASE_GAS + ContractGas(tx.data)
    else BASE_GAS
  }

  function CreditedAccount(h: Hashing, tx: Transaction, dest: Option<Account>): Account {
    if tx.to.None? then
      Account(0, tx.value, 0, Some(h.codeHash(tx.data)))
    else
      var held := if dest.Some? then dest.value else DEFAULT_ACCOUNT;
      held.(balance := held.balance + tx.value)
  }

  function Logs(h: Hashing, tx: Transaction, code: Option<Account>): seq<Log> {
    if tx.to.None? then [ContractCreated(Target(h, tx))]
    else if IsContract(code) then [ContractExecuted(tx.to.value)]
    else []
  }

  /** What the sender gets back for the gas limit it did not use. */
  function Refund(tx: Transaction, gasUsed: nat): nat
    requires gasUsed <= tx.gasLimit
  {
    (tx.gasLimit - gasUsed) * tx.gasPrice
  }

  /** The changed accounts: the sender's debit, then the credit (which replaces
      the debit when both fall on one account), then the refund. */
  function Changes(h: Hashing, tx: Transaction, sender: Account, dest: Option<Account>, gasUsed: nat): (r: Accounts)
    requires TotalCost(tx) <= sender.balance && gasUsed <= tx.gasLimit
    ensures r.Keys == {tx.from, Target(h, tx)}
  {
    var debited := sender.(balance := sender.balance - TotalCost(tx), nonce := sender.nonce + 1);
    var changes := map[tx.from := debited][Target(h, tx) := CreditedAccount(h, tx, dest)];
    var payer := changes[tx.from];
    changes[tx.from := payer.(balance := payer.balance + Refund(tx, gasUsed))]
  }

  /** The effect of a transaction as a function of the four account reads it
      makes: the sender twice, then the recipient twice. */
  function Settle(h: Hashing, tx: Transaction, checked: Option<Account>, sender: Option<Account>,
                  code: Option<Account>, dest: Option<Account>): (r: Result<Effect, Error>)
    ensures r.Ok? ==> r.value.changes.Keys == {tx.from, Target(h, tx)}
    ensures r.Ok? ==> r.value.receipt.gasUsed <= tx.gasLimit
  {
    var invalid := Validate(tx, checked);
    if invalid.Some? then Err(invalid.value)
    else if sender.None? then Err(StateNotFound)
    else if sender.value.balance < TotalCost(tx) then Err(InsufficientBalance)
    else
      var gasUsed := GasUsed(tx, code);
      if gasUsed > tx.gasLimit then Err(GasLimitExceeded)
      else
        Ok(Effect(Changes(h, tx, sender.value, dest, gasUsed),
                  Receipt(tx.from, tx.to, gasUsed, Logs(h, tx, code))))
  }

  /** `Settle` when all reads see the same state. */
  function Plan(h: Hashing, accounts: Accounts, tx: Transaction): (r: Result<Effect, Error>)
    ensures r.Ok? ==> r.value.changes.Keys == {tx.from, Target(h, tx)}
    ensures r.Ok? ==> r.value.receipt.gasUsed <= tx.gasLimit
  {
    var sender := Lookup(accounts, tx.from);
    var dest := if tx.to.Some? then Lookup(accounts, tx.to.value) else None;
    Settle(h, tx, sender, sender, dest, dest)
  }

  function OutcomeOf(h: Hashing, accounts: Accounts, tx: Transaction): Outcome {
    match Plan(h, accounts, tx)
    case Ok(effect) => Ok(effect.receipt)
    case Err(e) => Err(e)
  }

  /** The accounts after one transaction; a failed one changes nothing. */
  function Execute(h: Hashing, accounts: Accounts, tx: Transaction): Accounts {
    match Plan(h, accounts, tx)
    case Ok(effect) => accounts + effect.changes
    case Err(_) => accounts
  }

  predicate HasCode(accounts: Accounts, a: Address) {
    a in accounts && accounts[a].codeHash.Some?
  }

  /** Signed, with the sender's next nonce, and the sender can pay value and gas limit. */
  predicate Affords(accounts: Accounts, tx: Transaction) {
    && tx.signatureR != 0 && tx.signatureS != 0
    && tx.from in accounts && accounts[tx.from].nonce == tx.nonce
    && tx.value + tx.gasLimit * tx.gasPrice <= accounts[tx.from].balance
  }

  /** The gas a transaction takes: a fixed charge; for a call the surcharge of a
      contract and of each byte of data; for a creation both twice. */
  function GasNeeded(accounts: Accounts, tx: Transaction): nat {
    if tx.to.None? then 21000 + 2 * (32000 + 68 * |tx.data|)
    else if HasCode(accounts, tx.to.value) then 21000 + 32000 + 68 * |tx.data|
    else 21000
  }

  /** Exactly the transactions their senders can afford, with enough gas, succeed, and use what they need;
      of several reasons to fail the first in this order is given. */
  lemma OutcomeExact(h: Hashing, accounts: Accounts, tx: Transaction)
    ensures var r := OutcomeOf(h, accounts, tx);
            && (r.Ok? <==> Affords(accounts, tx) && GasNeeded(accounts, tx) <= tx.gasLimit)
            && (r.Ok? ==>
                  r.value == Receipt(tx.from, tx.to, GasNeeded(accounts, tx),
                                     if tx.to.None? then [ContractCreated(h.contractAddress(tx.from, tx.nonce))]
                                     else if HasCode(accounts, tx.to.value) then [ContractExecuted(tx.to.value)]
                                     else []))
            && (r.Err? ==>
                  r.error == if tx.signatureR == 0 || tx.signatureS == 0 then InvalidSignature
                             else if tx.from !in accounts then StateNotFound
                             else if accounts[tx.from].nonce != tx.nonce then InvalidNonce
                             else if accounts[tx.from].balance < tx.value + tx.gasLimit * tx.gasPrice then InsufficientBalance
                             else if tx.gasLimit < 21000 then GasLimitTooLow
                             else GasLimitExceeded)
  {
    assert ContractGas(tx.data) == 32000 + 68 * |tx.data|;
  }

  /** The account database, with its caching and persistence left out. */
  class StateDB {
    var accounts: Accounts

    constructor (initial: Accounts)
      ensures accounts == initial
    {
      accounts := initial;
    }

    method SetAccount(address: Address, account: Account)
      modifies this
      ensures accounts == old(accounts)[address := account]
    {
      accounts := accounts[address := account];
    }
  }

  /** `validate_transaction`: first failing check wins. */
  method ValidateTransaction(db: StateDB, tx: Transaction) returns (r: Option<Error>)
    ensures r == Validate(tx, Lookup(db.accounts, tx.from))
  {
    if !SignatureOk(tx) {
      return Some(InvalidSignature);
    }
    var account := Lookup(db.accounts, tx.from);
    if account.None? {
      return Some(StateNotFound);
    }
    if account.value.nonce != tx.nonce {
      return Some(InvalidNonce);
    }
    if account.value.balance < TotalCost(tx) {
      return Some(InsufficientBalance);
    }
    if tx.gasLimit < BASE_GAS {
      return Some(GasLimitTooLow);
    }
    return None;
  }

  /** Writes the changed accounts one at a time, in any order. */
  method ApplyChanges(db: StateDB, changes: Accounts)
    modifies db
    ensures db.accounts == old(db.accounts) + changes
  {
    var pending := changes.Keys;
    while pending != {}
      invariant pending <= changes.Keys
      invariant db.accounts == old(db.accounts) + (map a | a in changes.Keys - pending :: changes[a])
      decreases |pending|
    {
      var address :| address in pending;
      db.SetAccount(address, changes[address]);
      pending := pending - {address};
    }
    assert changes == map a | a in changes.Keys - pending :: changes[a];
  }

  /** `execute_single_transaction`: the changes are gathered first and only
      written, one account at a time in any order, once nothing can fail. */
  method ExecuteSingleTransaction(h: Hashing, db: StateDB, tx: Transaction) returns (r: Outcome)
    modifies db
    ensures r == OutcomeOf(h, old(db.accounts), tx)
    ensures db.accounts == Execute(h, old(db.accounts), tx)
    ensures r.Ok? <==> Affords(old(db.accounts), tx) && GasNeeded(old(db.accounts), tx) <= tx.gasLimit
    ensures r.Ok? ==> r.value.gasUsed == GasNeeded(old(db.accounts), tx)
  {
    OutcomeExact(h, db.accounts, tx);
    var invalid := ValidateTransaction(db, tx);
    if invalid.Some? {
      return Err(invalid.value);
    }
    var gasUsed := BASE_GAS;
    var logs: seq<Log> := [];
    var sender := Lookup(db.accounts, tx.from);
    if sender.None? {
      return Err(StateNotFound);
    }
    var fromAccount := sender.value;
    if fromAccount.balance < TotalCost(tx) {
      return Err(InsufficientBalance);
    }
    fromAccount := fromAccount.(balance := fromAccount.balance - TotalCost(tx));
    fromAccount := fromAccount.(nonce := fromAccount.nonce + 1);
    var stateChanges: Accounts := map[tx.from := fromAccount];
    if tx.to.Some? {
      var to := tx.to.value;
      if IsContract(Lookup(db.accounts, to)) {
        gasUsed := gasUsed + ContractGas(tx.data);
        if gasUsed > tx.gasLimit {
          return Err(GasLimitExceeded);
        }
        var toAccount := db.accounts[to];
        toAccount := toAccount.(balance := toAccount.balance + tx.value);
        stateChanges := stateChanges[to := toAccount];
        logs := logs + [ContractExecuted(to)];
      } else {
        var toAccount := if to in db.accounts then db.accounts[to] else DEFAULT_ACCOUNT;
        toAccount := toAccount.(balance := toAccount.balance + tx.value);
        stateChanges := stateChanges[to := toAccount];
      }
    } else {
      gasUsed := gasUsed + ContractGas(tx.data) * 2;
      if gasUsed > tx.gasLimit {
        return Err(GasLimitExceeded);
      }
      var contractAddress := h.contractAddress(tx.from, fromAccount.nonce - 1);
      var contractAccount := DEFAULT_ACCOUNT;
      contractAccount := contractAccount.(balance := tx.value);
      contractAccount := contractAccount.(codeHash := Some(h.codeHash(tx.data)));
      stateChanges := stateChanges[contractAddress := contractAccount];
      logs := logs + [ContractCreated(contractAddress)];
    }
    var gasRefund := tx.gasLimit - gasUsed;
    if gasRefund > 0 {
      var payer := stateChanges[tx.from];
      stateChanges := stateChanges[tx.from := payer.(balance := payer.balance + Refund(tx, gasUsed))];
    }
    ghost var before := db.accounts;
    ghost var dest := if tx.to.Some? then Lookup(before, tx.to.value) else None;
    assert stateChanges == Changes(h, tx, sender.value, dest, gasUsed);
    assert gasUsed == GasUsed(tx, dest) && logs == Logs(h, tx, dest);
    assert Plan(h, before, tx) == Ok(Effect(stateChanges, Receipt(tx.from, tx.to, gasUsed, logs)));
    ApplyChanges(db, stateChanges);
    return Ok(Receipt(tx.from, tx.to, gasUsed, logs));
  }
}
