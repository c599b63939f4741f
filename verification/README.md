# Verified model of the DEX blockchain core

This project models the parts of the DEX blockchain whose correctness is not
obvious from reading one function, and proves what they promise. `dafny verify
dfyconfig.toml` checks everything.

| module | what it models |
|---|---|
| `Executor`, `GasCosts`, `Conservation` | one transaction on the account map, what it costs, and what a run of them does to balances and nonces |
| `Traces`, `Scheduler`, `Interleaving`, `ParallelExecutor` | read and write sets, conflict graph, layering, interleaved execution of a layer, and the equivalence of a block to one serial run |
| `SubmissionOrder`, `Schedules` | when that run is the one in submission order, and what schedules do to transactions that share an account |
| `Grouping`, `GroupSchedules` | the executor's own dependency grouping, and what running its one group side by side ends in |
| `StoredTrie`, `NibblePath`, `TrieUpdates` | the path-compressed trie as it is stored: packed paths, nodes under the hash of their content, batched commits, path cache |
| `Trie`, `TrieStore`, `TrieShape` | the same algorithms on plain nibble sequences, against a plain map, and the shape they keep |
| `TrieAgreement`, `TwinKeys` | when the stored trie is the plain one, and when it answers like a map |
| `PoolGraph`, `Dijkstra`, `Routes`, `RouteSearch`, `PathFinder`, `HopBound` | route search over pools: cheapest first, breadth first and depth first against an enumeration of all routes, deduplication; when a hop bound is safe |
| `MerkleTree` | roots and proofs with odd-node duplication |
| `GreedyFill`, `BestExecution`, `OrderBook` | price-time matching and why no other choice is better, quoting, cancellation and the id index |
| `AmmPool`, `MapSum` | constant-product pool, provider shares, integer square root |
| `MemoryCache`, `CacheRecency`, `LayeredStorage` | the evicting cache, when it evicts by recency, and the Bloom filter, cache and database read path, against a plain map |
| `Snapshot`, `DeltaUndo` | snapshots and state deltas, and taking them back |
| `Relayer` | the cross-chain relay queue as a step protocol |
| `SlabAllocator`, `Arena`, `RingBuffer` | memory pools and the byte ring |

Methods follow the control flow of the code and are proved against functions on
values; the lemmas then state what holds over all inputs, runs and interleavings.
Each asynchronous method is one atomic step, except in `Interleaving`, where the
atomic step is one read or write of one account. 256-bit and machine integers are
natural numbers; hashes are parameters, and a result that needs them not to collide
either says so or names the collision.

## Where the code does less than its documentation

- Parallel execution is equivalent to a serial run, but to the one from the last
  transaction to the first: in-degrees count dependents, not dependencies. For given
  payments and creations it does what the run in submission order does, on all accounts
  and for all amounts, if and only if no two of them clash; two payments clash if one sends
  from or pays into the account the other sends from, and a creation also clashes with what
  reaches its address (`SubmissionOrder.SubmissionOrderIff`). Of a sender's consecutive
  transactions submitted together only the first can succeed, where all succeed in
  submission order (`ParallelExecutor.PipelineCollapses`, `SubmissionOrder.PipelineDiffers`).
- The address of a created contract is not in the write set. Every creation at an address
  another transaction uses is put into one batch with it, and for every such pair that
  can succeed there are accounts and a schedule that loses the contract
  (`Schedules.HiddenSharingHits`, `Schedules.HiddenPairRaces`,
  `Schedules.TwinCreationsRace`).
- The executor's grouping never makes more than one group, whatever transactions wait
  for, and drops those of a contract account that calls itself
  (`Grouping.GroupTransactions`). The group is run side by side without a conflict check.
  For given senders and recipients every schedule is as good as a serial run if and only if
  no two payments share an account (`GroupSchedules.GroupSerialIff`). If they do, a payment
  can be lost (`Schedules.PaymentLost`), and of two payments of one sender with one nonce
  both can succeed, the balance being spent twice (`GroupSchedules.SpentTwice`);
  `Conservation.NoReplay` is about serial runs. An empty list of transactions divides by
  zero afterwards (state_machine/executor.rs:70-74).
- A transfer to oneself creates money (`Conservation.SelfTransferMints`) and leaves the
  nonce, so it passes again (`Conservation.ReplayIff`); the exact condition for
  conservation is `Conservation.ConservationExact`.
- Leaves and extensions hold packed paths, and packing loses every path of odd length
  (`NibblePath.PackingRoundTrips`). Two keys of one length both become unreadable, and
  the trie answers like a map only over a set of at most one key
  (`TrieAgreement.TwoKeysLost`, `TrieAgreement.PackedAgreesIffOneKey`). All results in
  `Trie` and `TrieStore` are about plain nibble sequences: they hold of the code given a
  lossless packing and a node store that discards nothing (`TrieAgreement.RunRefines`).
- Equal nodes share one place in the store, and replacing a leaf removes it for all who
  share it. Even with a lossless packing two keys are served if and only if they do not
  differ in one nibble alone (`TwinKeys.UpdateLosesTwin`, `TwinKeys.PairAgreesIff`).
- Even with both mended, splitting a leaf can leave a value on the branch, readable under
  a key that was never stored. Keys of one fixed length never meet it; the exact condition
  is `TrieAgreement.LosslessAgreesIffForkFree`.
- The least-cost search can miss every route within the hop bound, or return one that is
  not the cheapest, since its distances do not know how many hops they took. Over given
  tokens the bound is safe from either if and only if it is at most one or at least the
  number of other tokens (`HopBound.SafeOverIff`). Finding all paths fails when the search
  does, although breadth first and depth first search would find the route.
- Finding all paths lists all routes if it lists fewer than five and no two pools trade the
  same two tokens (`PathFinder.PathFinder.FindAllPaths`). Parallel pools give the same path
  again and again and use up the limits of the searches: five of them can hide every other
  route (`HopBound.CrowdHides`).
- Where two keys part, the branch keeps the value that was stored first, so the root
  depends on the order of commits even where all answers agree
  (`TrieShape.CommitOrderIff`).
- A Merkle root does not fix the number of leaves, and proofs are not checked for length.
  Which lists share a root is `MerkleTree.RootsAgreeIff`; what shortened proofs are
  accepted for is `MerkleTree.InnerNodeAccepted` and `MerkleTree.ShortProofSound`, and what
  longer ones are, `MerkleTree.LongProofSound` and `MerkleTree.LongProofComplete`.
- Deposits, withdrawals and swaps update the price oracle while they hold the write lock of
  the first reserve, and the update waits for the read lock of that reserve
  (dex/amm.rs:84-117, 132-156, 167-198, 256-257, 281-291). It does so whenever any time has
  passed since the last update, which at first is at time zero, so the first successful
  deposit never returns. All results on pools assume that this read is removed or does not
  block.
- A first deposit with one amount zero mints nothing, cannot be withdrawn, and is
  overwritten by the next one (`AmmPool.FirstDepositWithdraw`, `AmmPool.FirstDepositKeptIff`).
- The cache's queue is a recency order in exactly the runs in which no put finds its key
  still queued (`CacheRecency.RecencyIff`, `CacheRecency.ReputKeyGoesFirst`). A value
  too large for the cache leaves an older cached value in front of the database
  (`LayeredStorage.PutCoherentIff`, over runs `LayeredStorage.RunAnswersIff`), and a reopened database is hidden behind an
  empty filter (`LayeredStorage.LayeredStorage.constructor`).
- A delta cannot delete a storage slot, carries no code that no account refers to, and
  leaves the root as it was (`Snapshot.DeltaReproducesIff`, over chains
  `Snapshot.ChainReproducesIff`). The old values it records do not bring back a deleted
  account or a slot that came or went (`DeltaUndo.UndoRestoresIff`).
- A message id submitted again is relayed again, unless the first submission has neither
  been relayed nor waits to be (`Relayer.ResubmitSafeIff`). A message whose relay attempts
  are used up is reported as ready for ever (`Relayer.ExhaustedForGood`); as it stands
  `relay_message` never fails (cross_chain/relayer.rs:181-184), and then this does not
  arise (`Relayer.NothingExhausts`). The copy queued at submission never leaves the queue
  (`Relayer.QueueNeverDrains`).
- The slab allocator accepts a block that is not live and is unsound from then on
  (`SlabAllocator.SlabAllocator.Deallocate`).
- Arena offsets are multiples of the alignment only for powers of two
  (`Arena.AlignsIffPowerOfTwo`). Alignment zero panics where overflow is checked; where it
  is not, as in a release build, the region starts at offset zero, over live ones
  (`Arena.WrappingRoundsUpIff`).

## Model

| member | source | states |
|---|---|---|
| `Executor.ExecuteSingleTransaction` | dex-blockchain-expert/src/state_machine/executor.rs:197-290 | a transaction its sender can afford succeeds if and only if its gas limit is at least 21000, 53000 + 68 per byte for a call of a contract, 85000 + 136 per byte for a creation, and uses just that; it either fails and leaves every account as it was, or leaves them updated by exactly its planned changes |
| `Executor.ApplyChanges` | dex-blockchain-expert/src/state_machine/executor.rs:274-277 | writing the changed accounts one at a time, in any order, gives the same accounts |
| `Executor.Settle` | dex-blockchain-expert/src/state_machine/executor.rs:197-290 | a success changes the sender and the recipient or created address and no other account, and never uses more gas than its limit |
| `Executor.OutcomeExact` | dex-blockchain-expert/src/state_machine/executor.rs:197-334 | which transactions succeed, with which receipt and log, and which of several reasons to fail is given |
| `GasCosts.SuccessLeaves` | dex-blockchain-expert/src/state_machine/executor.rs:211-277 | a success leaves the sender one nonce on and poorer by value and gas used, its target richer by the value or a new account with it, and all others as they were |
| `GasCosts.SelfPaymentLeaves` | dex-blockchain-expert/src/state_machine/executor.rs:211-277 | paying itself a sender keeps its nonce and is richer by value and refund |
| `GasCosts.PaymentBurns` | dex-blockchain-expert/src/state_machine/executor.rs:208-277 | a payment to an account without code burns exactly 21000 times the gas price, whatever its data and gas limit |
| `GasCosts.ByteCosts` | dex-blockchain-expert/src/state_machine/executor.rs:329-334 | one more byte of data costs the sender the price of exactly 68 gas in a call, 136 in a creation, and nothing in a payment |
| `GasCosts.CreationCostsTwice` | dex-blockchain-expert/src/state_machine/executor.rs:227-252 | with the same data the surcharge of a creation is twice that of a call |
| `GasCosts.FailsBelow` | dex-blockchain-expert/src/state_machine/executor.rs:229-256 | a call or creation its sender can afford runs out of gas if and only if its limit is below the sum of the charges |
| `GasCosts.LimitIsRefunded` | dex-blockchain-expert/src/state_machine/executor.rs:266-272 | gas bought beyond what is used comes back in full: any two limits that suffice leave the same accounts |
| `Conservation.ConservationExact` | dex-blockchain-expert/src/state_machine/executor.rs:211-277 | a success lowers the sum of all balances by exactly gas used times gas price if and only if the recipient is not the sender, or the cost is zero, and a created address holds no balance yet (`Conserving`) |
| `Conservation.RunConserves` | dex-blockchain-expert/src/state_machine/executor.rs:197-290 | over a run of such transactions the total falls by exactly the fees of the successes |
| `Conservation.OrderlyConserves` | dex-blockchain-expert/src/state_machine/executor.rs:197-290 | transactions to other accounts and with fresh created addresses are all conserving, in every run |
| `Conservation.BalancesStayBounded` | dex-blockchain-expert/src/state_machine/executor.rs:220-272 | if the balances add up to less than a bound at the start, no balance reaches it at any point of the run |
| `Conservation.NoncesConsecutive` | dex-blockchain-expert/src/state_machine/executor.rs:220-222 | the successes of a sender carry consecutive nonces from its first nonce to just below its last |
| `Conservation.FailuresAreInert` | dex-blockchain-expert/src/state_machine/executor.rs:197-290 | leaving the failed transactions out of a run changes neither the accounts nor which of the others succeed |
| `Conservation.SelfTransferMints` | dex-blockchain-expert/src/state_machine/executor.rs:220-272 | on all accounts, a transfer to oneself that succeeds raises the sum of balances by exactly the value and the gas refund |
| `Conservation.ReplayIff` | dex-blockchain-expert/src/state_machine/executor.rs:292-311 | a transaction that has just succeeded passes again if and only if it pays its own sender, or creates a contract in its sender's place at nonce zero without a fee |
| `Conservation.NoReplay` | dex-blockchain-expert/src/state_machine/executor.rs:292-311 | in every orderly run at most one of the transactions of a sender with the same nonce succeeds |
| `Traces.ReorderEquivalent` | dex-blockchain-expert/src/security/formal_verification.rs:418-423 | any schedule that keeps dependent steps in a fixed order does what the serial run in that order does |
| `Traces.MoveToFront` | dex-blockchain-expert/src/security/formal_verification.rs:418-423 | a step independent of all steps before it can be made first |
| `Scheduler.AnalyzeTransactions` | dex-blockchain-expert/src/state_machine/parallel.rs:94-136 | one task per transaction, in order: it writes the sender and the recipient, and reads the sender and, for a call of a contract, the contract and the account that bytes 4 to 23 of the data name |
| `Scheduler.SetsExact` | dex-blockchain-expert/src/state_machine/parallel.rs:94-136 | read and write set account by account; the twenty bytes are those of the account read |
| `Scheduler.AddressRoundTrips` | dex-blockchain-expert/src/state_machine/parallel.rs:331-342 | bytes read as an address are the bytes of that address |
| `Scheduler.FirstByteCounts` | dex-blockchain-expert/src/state_machine/parallel.rs:331-342 | the byte in front counts for the most |
| `Scheduler.BuildDependencyGraph` | dex-blockchain-expert/src/state_machine/parallel.rs:138-154 | a task depends on an earlier one if and only if some account is written by one of the two and read or written by the other |
| `Scheduler.CountInDegrees` | dex-blockchain-expert/src/state_machine/parallel.rs:184-195 | the in-degree of a task is the number of tasks that depend on it |
| `Scheduler.ReleaseDependencies` | dex-blockchain-expert/src/state_machine/parallel.rs:223-232 | taking a scheduled task out keeps every in-degree equal to the number of remaining dependents |
| `Scheduler.TakeReady` | dex-blockchain-expert/src/state_machine/parallel.rs:202-210 | the batch is exactly the tasks of in-degree zero, each once |
| `Scheduler.NextBatch` | dex-blockchain-expert/src/state_machine/parallel.rs:199-220 | a batch is all ready tasks or, if there are none, one task forced out of a cycle |
| `Scheduler.TopologicalSort` | dex-blockchain-expert/src/state_machine/parallel.rs:175-240 | terminates, and peels the tasks off in layers of tasks no unscheduled task depends on until none is left; in every batch no account written by one task is read or written by another |
| `Scheduler.PeelsAppend` | dex-blockchain-expert/src/state_machine/parallel.rs:197-237 | a further layer taken off what is left extends the layering |
| `Interleaving.Locality` | dex-blockchain-expert/src/state_machine/executor.rs:197-290 | a transaction reads and writes only its footprint: states that agree there give the same outcome and agree there afterwards |
| `Interleaving.Advance` | dex-blockchain-expert/src/state_machine/parallel.rs:306-329 | one atomic account access of a task touches only its footprint, brings the task nearer its end, and keeps it in step with a lone run on the accounts it started from |
| `Interleaving.Interleave` | dex-blockchain-expert/src/state_machine/parallel.rs:242-289 | whatever the interleaving of account reads and writes, all tasks of an independent batch finish as if each had run alone on the accounts before the batch, and the end is reached by moves of one account access each |
| `Interleaving.CollectedIsCurrent` | dex-blockchain-expert/src/state_machine/parallel.rs:296-299 | writing the collected write-set accounts once more changes nothing |
| `Interleaving.ApplyResults` | dex-blockchain-expert/src/state_machine/parallel.rs:291-304 | applying the results in any order leaves the accounts as they are and reports each task once |
| `Interleaving.SerialDisjoint` | dex-blockchain-expert/src/state_machine/parallel.rs:242-304 | a serial run of tasks that share no account gives each of them its outcome on the accounts before the batch |
| `Interleaving.ExecuteParallelBatch` | dex-blockchain-expert/src/state_machine/parallel.rs:242-304 | a batch of tasks that share no account does what running them one after another does |
| `ParallelExecutor.RecipientsAreCovered` | dex-blockchain-expert/src/state_machine/parallel.rs:101-125 | with a recipient in every transaction, transactions that share an account are always seen to conflict |
| `ParallelExecutor.ReadyExists` | dex-blockchain-expert/src/state_machine/parallel.rs:212-220 | some task is always ready, so the forced cycle-breaking branch is never taken |
| `ParallelExecutor.LayersKeepOrder` | dex-blockchain-expert/src/state_machine/parallel.rs:175-240 | the batches list each task exactly once, no two tasks of a batch share an account, and of two that do the later submitted runs first |
| `ParallelExecutor.ConflictsRunLatestFirst` | dex-blockchain-expert/src/state_machine/parallel.rs:175-240 | two conflicting tasks never meet in a batch, and the later submitted one is always in the earlier batch |
| `ParallelExecutor.StepsCommute` | dex-blockchain-expert/src/state_machine/parallel.rs:156-173 | tasks that share no account commute |
| `ParallelExecutor.LayersAreSerial` | dex-blockchain-expert/src/state_machine/parallel.rs:175-304 | running the batches one after another equals one serial run in decreasing submission index |
| `ParallelExecutor.ExecuteBatch` | dex-blockchain-expert/src/state_machine/parallel.rs:70-92 | parallel execution of a block reports each transaction once, and leaves the same accounts and outcomes as the serial run from the last submitted to the first, whenever the analysis covers all sharing |
| `ParallelExecutor.PipelineCollapses` | dex-blockchain-expert/src/state_machine/parallel.rs:190-195 | of a sender's transactions with consecutive nonces only the first can take effect, because the later ones run first; `SubmissionOrder` compares with the run in submission order |
| `SubmissionOrder.UntangledBlock` | dex-blockchain-expert/src/state_machine/parallel.rs:70-92 | the run from last to first and the run in submission order end alike, accounts and outcomes, for a block in which no transaction touches the sender of another and none creates an account another reaches, creations of one sender with unrelated nonces aside |
| `SubmissionOrder.SubmissionOrderIff` | dex-blockchain-expert/src/state_machine/parallel.rs:70-92 | for given payments and creations the two runs end alike on all accounts and for all amounts if and only if no two of them clash: one reaches the other's sender, or creates what the other reaches, or they have one sender and are not creations whose nonces are unrelated |
| `SubmissionOrder.OrderMatters` | dex-blockchain-expert/src/state_machine/parallel.rs:190-195 | for any two payments or creations that clash there are accounts and amounts for which the two runs differ |
| `SubmissionOrder.PipelineDiffers` | dex-blockchain-expert/src/state_machine/parallel.rs:190-195 | two or more transactions of one sender that all succeed in submission order end otherwise when executed in parallel |
| `SubmissionOrder.PipelineSucceeds` | dex-blockchain-expert/src/state_machine/parallel.rs:190-195 | such pipelines exist for every length: free transfers with consecutive nonces all succeed in submission order |
| `Schedules.HiddenSharingHits` | dex-blockchain-expert/src/state_machine/parallel.rs:101-125 | two transactions that share an account without a visible conflict are a creation at an address the other one uses, or two creations at one address |
| `Schedules.BothReadFirst` | dex-blockchain-expert/src/state_machine/parallel.rs:242-289 | two transactions that would each succeed can both read before either writes; then both succeed and the second covers the writes of the first |
| `Schedules.HiddenPairRaces` | dex-blockchain-expert/src/state_machine/parallel.rs:101-125 | for every hash and every such pair with a creation at an address the other uses, whatever their indices, there are accounts and a schedule of their batch that ends as neither serial order does |
| `Schedules.TwinCreationsRace` | dex-blockchain-expert/src/state_machine/parallel.rs:101-125 | for every pair of creations at one address with different results there are accounts and a schedule of their batch that does not end as the run from last to first |
| `Schedules.PaymentLost` | dex-blockchain-expert/src/state_machine/executor.rs:152-195 | two payments to one recipient run side by side can both succeed with only the second credited, where one after the other credits both |
| `GroupSchedules.SchedulesStayOnCourse` | dex-blockchain-expert/src/state_machine/executor.rs:152-195 | in every schedule of transactions that share no account each stays in step with a lone run at every moment, and nothing outside is touched |
| `GroupSchedules.ApartEndsSerially` | dex-blockchain-expert/src/state_machine/executor.rs:152-195 | every schedule of transactions that share no account, creations included, ends as their serial run |
| `GroupSchedules.GroupRaces` | dex-blockchain-expert/src/state_machine/executor.rs:152-195 | with two of any number of transactions signed, the group can end with both having read before either wrote |
| `GroupSchedules.SharingRaces` | dex-blockchain-expert/src/state_machine/executor.rs:152-195 | any two payments that share an account, whichever it is, can end side by side as neither serial order does |
| `GroupSchedules.GroupSerialIff` | dex-blockchain-expert/src/state_machine/executor.rs:152-195 | for given senders and recipients every schedule of the group ends, on all accounts and for all amounts, as some serial run of it if and only if no two payments share an account |
| `GroupSchedules.SpentTwice` | dex-blockchain-expert/src/state_machine/executor.rs:152-195 | two payments of one sender with one nonce can both succeed side by side, both recipients paid and the sender charged for the second alone; one after the other the second always fails |
| `Grouping.BuildDependencyGraph` | dex-blockchain-expert/src/state_machine/executor.rs:78-108 | a transaction waits for exactly the last earlier user of its sender and, for a contract call, the last user of the contract, itself included when a contract calls itself |
| `Grouping.WaitsExactly` | dex-blockchain-expert/src/state_machine/executor.rs:79-112 | in terms of senders and called contracts: a transaction waits for the last earlier one that sends from or calls its sender, for the last that sends from or calls the contract it calls, and for itself if a contract account calls itself |
| `Grouping.Pass` | dex-blockchain-expert/src/state_machine/executor.rs:123-142 | the first pass groups every transaction that does not wait on itself, whatever else it waits for |
| `Grouping.GroupByDependency` | dex-blockchain-expert/src/state_machine/executor.rs:110-150 | all transactions that are not stuck form one single group; stuck ones are dropped |
| `Grouping.GroupingKeepsAll` | dex-blockchain-expert/src/state_machine/executor.rs:110-150 | grouping keeps every transaction if and only if no contract account calls itself |
| `Grouping.GroupTransactions` | dex-blockchain-expert/src/state_machine/executor.rs:47-60 | graph and grouping together: all transactions form one group if and only if no contract account among the senders calls itself |
| `Trie.CommonPrefixLen` | dex-blockchain-expert/src/storage/merkle_trie.rs:649-651 | the common prefix is equal on both sides and longest |
| `Trie.DeleteGet` | dex-blockchain-expert/src/storage/merkle_trie.rs:338-414 | on plain nibble sequences: deleting a key makes that key absent and changes no other lookup, through merging and simplification |
| `Trie.SimplifyBranchGet` | dex-blockchain-expert/src/storage/merkle_trie.rs:558-621 | on plain nibble sequences: simplifying a branch changes no lookup |
| `Trie.MergeExtensionGet` | dex-blockchain-expert/src/storage/merkle_trie.rs:519-556 | on plain nibble sequences: merging an extension with its child changes no lookup |
| `Trie.SplitLeafGet` | dex-blockchain-expert/src/storage/merkle_trie.rs:416-466 | on plain nibble sequences: splitting a leaf keeps both keys and answers a third only where the two part |
| `Trie.SplitExtensionGet` | dex-blockchain-expert/src/storage/merkle_trie.rs:468-517 | on plain nibble sequences: splitting an extension adds the key and keeps all lookups below |
| `Trie.InsertGet` | dex-blockchain-expert/src/storage/merkle_trie.rs:213-336 | on plain nibble sequences: inserting a key sets it; any other lookup is unchanged, but for a phantom where the key parts from one stored before |
| `TrieShape.InsertTight` | dex-blockchain-expert/src/storage/merkle_trie.rs:213-336 | on plain nibble sequences: inserting keeps paths compressed: extensions are not empty and lead to branches, and a branch has a value or several children or a branch below |
| `TrieShape.DeleteTight` | dex-blockchain-expert/src/storage/merkle_trie.rs:338-414 | on plain nibble sequences: so does deleting, by merging and simplifying what is left |
| `TrieShape.RunTight` | dex-blockchain-expert/src/storage/merkle_trie.rs:87-211 | on plain nibble sequences: so does every run of puts, deletes and commits |
| `TrieShape.InsertOrderIff` | dex-blockchain-expert/src/storage/merkle_trie.rs:416-466 | on plain nibble sequences: two keys inserted in either order give the same trie if and only if their values are equal or one key begins with the other |
| `TrieShape.CommitOrderIff` | dex-blockchain-expert/src/storage/merkle_trie.rs:179-211 | on plain nibble sequences: so two keys committed one after the other leave the same root in either order under exactly that condition |
| `TrieStore.UpdateRepresents` | dex-blockchain-expert/src/storage/merkle_trie.rs:199-207 | on plain nibble sequences: over a fork-free set of keys one committed update changes the trie's answers as it changes a map |
| `TrieStore.AgreesIffForkFree` | dex-blockchain-expert/src/storage/merkle_trie.rs:87-211 | on plain nibble sequences: the trie answers like a plain map in all runs over a set of keys if and only if no key of the set is where two others part |
| `TrieStore.ForkReadsPhantom` | dex-blockchain-expert/src/storage/merkle_trie.rs:437-452 | on plain nibble sequences: storing two keys makes the key at which they part readable |
| `TrieStore.FixedLengthForkFree` | dex-blockchain-expert/src/storage/merkle_trie.rs:416-466 | keys of one fixed length never part at a key |
| `TrieUpdates.SortSorts` | dex-blockchain-expert/src/storage/merkle_trie.rs:191-193 | the batch is sorted by key |
| `TrieUpdates.KeyLeqExact` | dex-blockchain-expert/src/storage/merkle_trie.rs:191-193 | a key sorts first if it ends, or has the smaller byte, where two keys first differ |
| `TrieUpdates.SortStable` | dex-blockchain-expert/src/storage/merkle_trie.rs:191-193 | the updates of each key keep their submission order |
| `TrieUpdates.SortKeepsMeaning` | dex-blockchain-expert/src/storage/merkle_trie.rs:179-211 | sorting a batch does not change what it does to a map |
| `TrieStore.RunRepresents` | dex-blockchain-expert/src/storage/merkle_trie.rs:87-211 | on plain nibble sequences: after every run of puts, deletes and commits the trie answers as the plain map of the committed updates in submission order |
| `TrieStore.FixedLengthRunAgrees` | dex-blockchain-expert/src/storage/merkle_trie.rs:87-211 | on plain nibble sequences: from the empty trie, over keys of one length, every lookup in every run is that of the plain map |
| `StoredTrie.RecordedPathAnswers` | dex-blockchain-expert/src/storage/merkle_trie.rs:653-668 | for every packing, the path recorded by a successful lookup in the stored trie answers like the lookup |
| `StoredTrie.RecordedPathDescends` | dex-blockchain-expert/src/storage/merkle_trie.rs:113-158 | the path a lookup records leads from the root down, child by child |
| `TrieUpdates.NibblesInjective` | dex-blockchain-expert/src/storage/merkle_trie.rs:636-643 | different keys have different nibble paths |
| `TrieUpdates.NibblesExact` | dex-blockchain-expert/src/storage/merkle_trie.rs:636-643 | each byte gives its high nibble and then its low one |
| `StoredTrie.MerklePatriciaTrie.Get` | dex-blockchain-expert/src/storage/merkle_trie.rs:87-111 | a get answers from the cached path or by recursion what the stored trie answers, packed paths and shared nodes included, and changes only the cache, which then holds the path of a key found |
| `StoredTrie.MerklePatriciaTrie.CachePath` | dex-blockchain-expert/src/storage/merkle_trie.rs:800-822 | caching a path keeps every cached path one of the present trie; a full cache gives up one path, whichever, and a cache with room none |
| `StoredTrie.MerklePatriciaTrie.Insert` | dex-blockchain-expert/src/storage/merkle_trie.rs:160-170 | an insert queues an update and, with the hundredth pending, commits the batch, or panics on a node missing from the store |
| `StoredTrie.MerklePatriciaTrie.Delete` | dex-blockchain-expert/src/storage/merkle_trie.rs:172-177 | a delete only queues an update |
| `StoredTrie.MerklePatriciaTrie.CommitBatch` | dex-blockchain-expert/src/storage/merkle_trie.rs:179-211 | a commit applies the pending updates in key order to root and node store, empties the batch and drops the cached paths, or panics on a missing node |
| `NibblePath.PackingRoundTrips` | dex-blockchain-expert/src/storage/merkle_trie.rs:742-777 | packing nibbles into bytes and back is lossless if and only if their number is even |
| `NibblePath.PackedExact` | dex-blockchain-expert/src/storage/merkle_trie.rs:742-759 | two nibbles go into a byte, the first one high; a last one alone stands high |
| `NibblePath.OddUnpacks` | dex-blockchain-expert/src/storage/merkle_trie.rs:742-777 | an odd number of nibbles comes back without the first two and with a zero behind |
| `TrieAgreement.TwoKeysLost` | dex-blockchain-expert/src/storage/merkle_trie.rs:416-466 | with paths packed as they are, of any two keys stored each that goes on below their common prefix is lost: both when they are equally long, and always at least one |
| `TrieAgreement.InvariantAgrees` | dex-blockchain-expert/src/storage/merkle_trie.rs:87-211 | for every packing, what holds of the empty trie, survives each single update and makes the answers right makes all runs of puts, deletes and commits agree with the plain map |
| `TrieAgreement.PackedAgreesIffOneKey` | dex-blockchain-expert/src/storage/merkle_trie.rs:87-211 | with paths packed as they are, the stored trie answers like a plain map in all runs over a set of keys if and only if the set has at most one key |
| `TrieAgreement.LookupRefines` | dex-blockchain-expert/src/storage/merkle_trie.rs:113-158 | with a lossless packing, a lookup in a store that holds all nodes is the lookup on plain nibble sequences |
| `TrieAgreement.InsertRefines` | dex-blockchain-expert/src/storage/merkle_trie.rs:213-336 | with a lossless packing and no node discarded, inserting into the stored trie is inserting on plain nibble sequences, and no needed node is missing |
| `TrieAgreement.DeleteRefines` | dex-blockchain-expert/src/storage/merkle_trie.rs:338-414 | with a lossless packing and no node discarded, deleting from the stored trie is deleting on plain nibble sequences |
| `TrieAgreement.RunRefines` | dex-blockchain-expert/src/storage/merkle_trie.rs:87-211 | with a lossless packing and no node discarded, every run of the stored trie is that of the trie on plain nibble sequences and never panics |
| `TrieAgreement.LosslessAgreesIffForkFree` | dex-blockchain-expert/src/storage/merkle_trie.rs:87-211 | with a lossless packing and no node discarded, the stored trie answers like a plain map in all runs over a set of keys if and only if no key of the set is where two others part |
| `TwinKeys.UpdateLosesTwin` | dex-blockchain-expert/src/storage/merkle_trie.rs:247-300 | even with a lossless packing, of two keys that differ in one nibble and hold equal values, changing the value of one discards the leaf they share and loses the other |
| `TwinKeys.PairAgreesIff` | dex-blockchain-expert/src/storage/merkle_trie.rs:87-414 | with a lossless packing and replaced nodes discarded, the stored trie answers like a plain map in all runs over any two keys if and only if they do not differ in one nibble alone |
| `TwinKeys.AgreesOnlyIf` | dex-blockchain-expert/src/storage/merkle_trie.rs:87-414 | with a lossless packing and replaced nodes discarded, the stored trie answers like a plain map in all runs over a set of keys only if no two of them differ in one nibble alone and none is where two others part |
| `PoolGraph.BuildGraph` | dex-blockchain-expert/src/dex/smart_routing/pathfinder.rs:251-281 | the graph has exactly the two directed edges of every pool, at each token the lightest first and those of one weight in the order of the pools |
| `PoolGraph.SortAscends` | dex-blockchain-expert/src/dex/smart_routing/pathfinder.rs:275-279 | the edges at a token are sorted by weight |
| `PoolGraph.SortIsStable` | dex-blockchain-expert/src/dex/smart_routing/pathfinder.rs:275-279 | edges of one weight keep the order of the pools |
| `PoolGraph.EdgeWeightExact` | dex-blockchain-expert/src/dex/smart_routing/pathfinder.rs:283-302 | short of saturation the weight of a pool is how often its liquidity goes into the scale plus its fee, times the percentage of its protocol, rounded down |
| `PoolGraph.EmptyPoolHeaviest` | dex-blockchain-expert/src/dex/smart_routing/pathfinder.rs:283-302 | no pool is heavier than one without liquidity |
| `PoolGraph.LiquidIsLighter` | dex-blockchain-expert/src/dex/smart_routing/pathfinder.rs:283-302 | of two pools of one protocol the one as liquid that charges no more is never the heavier edge, saturation and rounding included |
| `PoolGraph.EdgesArePools` | dex-blockchain-expert/src/dex/smart_routing/pathfinder.rs:251-281 | two tokens are joined by an edge if and only if a pool joins them |
| `Dijkstra.FrontierCovers` | dex-blockchain-expert/src/dex/smart_routing/pathfinder.rs:87-129 | along any walk from the start that keeps off the destination the heap still offers an entry no dearer, or the walk's end is already expanded no dearer |
| `Dijkstra.FirstIsLeast` | dex-blockchain-expert/src/dex/smart_routing/pathfinder.rs:87-94 | the first arrival at the destination has the least total weight of all walks |
| `Dijkstra.PoppedIsLeast` | dex-blockchain-expert/src/dex/smart_routing/pathfinder.rs:100-104 | an entry popped and not stale is a cheapest way to its token that keeps off the destination |
| `Dijkstra.ArrivalsComplete` | dex-blockchain-expert/src/dex/smart_routing/pathfinder.rs:87-129 | when the search stops, every walk to the destination is matched by a path found that arrives from the same token and costs no more, or by three that cost no more |
| `Dijkstra.Expand` | dex-blockchain-expert/src/dex/smart_routing/pathfinder.rs:106-128 | relaxing the edges of a token keeps every heap entry a real simple path with its cost and leaves the token fully relaxed |
| `Dijkstra.DirectStep` | dex-blockchain-expert/src/dex/smart_routing/pathfinder.rs:87-128 | whatever the bound, no round loses a direct edge to the destination |
| `Dijkstra.TrapStep` | dex-blockchain-expert/src/dex/smart_routing/pathfinder.rs:106-128 | when the cheap way to a token takes a hop too many, no round of the search escapes: the dear entry for that token is stale before it is popped, and only a direct edge is ever found |
| `Dijkstra.MisledPaysMore` | dex-blockchain-expert/src/dex/smart_routing/pathfinder.rs:106-128 | in a trap whose direct edge is dear enough that edge is not the cheapest route within the bound |
| `Dijkstra.OnlyRouteIsLeast` | dex-blockchain-expert/src/dex/smart_routing/pathfinder.rs:69-136 | within one hop a route is the cheapest one within the bound |
| `Dijkstra.Search` | dex-blockchain-expert/src/dex/smart_routing/pathfinder.rs:69-136 | returns only routes, one to three of them; where the bound leaves room they are the cheapest ways to arrive, cheapest first, one from every token a walk can arrive from or three; where the bound is safe it fails if and only if no route is within it; a direct edge is always found; in a trap it finds that or fails |
| `Routes.AllRoutes` | dex-blockchain-expert/src/dex/smart_routing/pathfinder.rs:203-249 | the reference enumeration in edge order holds exactly the routes within the hop bound |
| `Routes.RoutesOnce` | dex-blockchain-expert/src/dex/smart_routing/pathfinder.rs:203-249 | it holds each once if no two edges lead from one token to another |
| `Routes.SortIsStable` | dex-blockchain-expert/src/dex/smart_routing/pathfinder.rs:319-319 | sorting by length keeps the order of routes of one length |
| `Routes.ShortestComesFirst` | dex-blockchain-expert/src/dex/smart_routing/pathfinder.rs:138-175 | a route shorter than all before it in that order and no longer than all after it comes first |
| `RouteSearch.BfsRound` | dex-blockchain-expert/src/dex/smart_routing/pathfinder.rs:150-172 | a round of the queue loop reports the next route due or replaces the head by its extensions, and lowers the termination measure |
| `RouteSearch.ArrivedIsDue` | dex-blockchain-expert/src/dex/smart_routing/pathfinder.rs:150-157 | a path at the head that has arrived is the next of all routes still due, sorted by length |
| `RouteSearch.ExtendedIsDue` | dex-blockchain-expert/src/dex/smart_routing/pathfinder.rs:159-171 | replacing the head by its extensions changes nothing in what is due, nor in which order |
| `RouteSearch.BfsPaths` | dex-blockchain-expert/src/dex/smart_routing/pathfinder.rs:138-175 | returns the three shortest routes, or all if there are fewer; of one length the first in edge order |
| `RouteSearch.DfsHelper` | dex-blockchain-expert/src/dex/smart_routing/pathfinder.rs:203-249 | adds the routes that begin with the current path in edge order up to the limit, and restores path and visited set |
| `RouteSearch.DfsPaths` | dex-blockchain-expert/src/dex/smart_routing/pathfinder.rs:177-201 | returns the first routes within the hop bound in edge order, as many as the limit allows |
| `RouteSearch.DeduplicatePaths` | dex-blockchain-expert/src/dex/smart_routing/pathfinder.rs:304-321 | fails only on no paths; else lists the first path of each hash, shortest first and stably |
| `PathFinder.RoutesArePoolRoutes` | dex-blockchain-expert/src/dex/smart_routing/pathfinder.rs:251-281 | routes in the graph are exactly routes over existing pools |
| `PathFinder.ReachableIsConnected` | dex-blockchain-expert/src/dex/smart_routing/pathfinder.rs:251-281 | the destination is reachable in the graph if and only if pools connect the two tokens |
| `PathFinder.PathFinder.FindAllPaths` | dex-blockchain-expert/src/dex/smart_routing/pathfinder.rs:34-52 | lists routes over existing pools, none twice, fewest hops first, at most eleven. When path hashes do not collide: no route is shorter than the first; where the bound is safe a cheapest one is listed, and where it leaves room the cheapest ways to arrive; and if no two pools trade the same two tokens fewer than five paths are all routes there are, and none left out is shorter than the third. Where the bound is safe it succeeds if and only if there is a route, in a trap it fails, and with the five lightest pools parallel it lists only the direct path |
| `PathFinder.OnePoolEachNoParallel` | dex-blockchain-expert/src/dex/smart_routing/pathfinder.rs:251-281 | if no two pools trade the same two tokens, no two edges lead from one token to another |
| `PathFinder.CompleteList` | dex-blockchain-expert/src/dex/smart_routing/pathfinder.rs:43-51 | with routes enumerated once each, the three shortest and the first five among the paths listed make fewer than five all of them |
| `PathFinder.CrowdedLeavesOut` | dex-blockchain-expert/src/dex/smart_routing/pathfinder.rs:43-51 | five parallel pools use up the limits of breadth first and depth first search |
| `PathFinder.PathFinder.FindShortestPath` | dex-blockchain-expert/src/dex/smart_routing/pathfinder.rs:54-67 | the answer is a route; where the bound is safe it is missing only if there is none, and a cheapest one within the bound; in a trap it is missing, and in a misleading one it is not the cheapest |
| `PathFinder.CheapestInAnyOrder` | dex-blockchain-expert/src/dex/smart_routing/pathfinder.rs:251-281 | being cheapest within the bound does not depend on the order of edges in the graph built from the pools |
| `PathFinder.PathFinder.ValidatePath` | dex-blockchain-expert/src/dex/smart_routing/pathfinder.rs:334-347 | accepts exactly paths of two tokens up to one more than the hop bound with no repetition |
| `HopBound.TrapPoolsTrap` | dex-blockchain-expert/src/dex/smart_routing/pathfinder.rs:106-128 | cheap pools along a line of two tokens more than the hop bound, and a dear one past its second token, trap the search; with a dearer one from end to end they mislead it |
| `HopBound.TrapHasRoute` | dex-blockchain-expert/src/dex/smart_routing/pathfinder.rs:106-128 | past the dear pool the same pools have a route within the bound |
| `HopBound.SafeOverIff` | dex-blockchain-expert/src/dex/smart_routing/pathfinder.rs:69-136 | over given tokens the hop bound is safe for all pools, no pools make the search miss a route, and none make its route other than the cheapest, each if and only if the bound is at most one or at least the number of other tokens |
| `HopBound.CrowdHides` | dex-blockchain-expert/src/dex/smart_routing/pathfinder.rs:43-51 | between any two of enough tokens and for every bound of two or more there are pools for which finding all paths lists just the direct one although there is another |
| `MerkleTree.RootIsTree` | dex-blockchain-expert/src/privacy/commitment.rs:49-74 | the level-by-level root is the hash of the recursively defined tree over all leaves |
| `MerkleTree.TreeHash` | dex-blockchain-expert/src/privacy/commitment.rs:49-74 | the hash of the tree built from the top is the iterative root |
| `MerkleTree.RootOfPairs` | dex-blockchain-expert/src/privacy/commitment.rs:49-74 | a single leaf is the root; of more, each two in order are hashed into one, a last one without a partner with itself, and the root is that of the results |
| `MerkleTree.RootOfHalves` | dex-blockchain-expert/src/privacy/commitment.rs:49-74 | the root of two full trees side by side is the hash of their roots, the left one in front |
| `MerkleTree.ProofComplete` | dex-blockchain-expert/src/privacy/commitment.rs:76-129 | for every number of leaves the proof generated for an inserted leaf recomputes to the root and is as long as the tree is deep |
| `MerkleTree.SidesSpellPosition` | dex-blockchain-expert/src/privacy/commitment.rs:76-115 | the sides of a proof spell the position of its leaf in binary, and the first sibling is the leaf next to it or itself |
| `MerkleTree.RecomputeStep` | dex-blockchain-expert/src/privacy/commitment.rs:117-129 | a sibling on the left is hashed in front of the node, any other behind it |
| `MerkleTree.ProofSound` | dex-blockchain-expert/src/privacy/commitment.rs:117-129 | a proof as long as the tree is deep that recomputes to the root is for an inserted leaf, or exhibits a collision of the pair hash |
| `MerkleTree.RootDeterminesLeaves` | dex-blockchain-expert/src/privacy/commitment.rs:49-74 | trees with equally many leaves and the same root have the same leaves, or exhibit a collision |
| `MerkleTree.RootsAgreeIff` | dex-blockchain-expert/src/privacy/commitment.rs:49-74 | any two leaf lists have the same root if and only if the level of the deeper tree at the other's depth and the other's leaves are equal once every odd last node is repeated, or the trees collide |
| `MerkleTree.EqualDepthRoots` | dex-blockchain-expert/src/privacy/commitment.rs:49-74 | leaf lists of equal depth have the same root if and only if repeating the odd last nodes makes them equal, or the trees collide |
| `MerkleTree.OddLeafRepeats` | dex-blockchain-expert/src/privacy/commitment.rs:59-68 | repeating the last of an odd number of leaves does not change the root |
| `MerkleTree.InnerNodeAccepted` | dex-blockchain-expert/src/privacy/commitment.rs:117-129 | for every k up to the depth, a generated proof without its first k steps is accepted for the node k levels above the leaf |
| `MerkleTree.ShortProofSound` | dex-blockchain-expert/src/privacy/commitment.rs:117-129 | a proof k steps shorter than the tree is deep that recomputes to the root is for a node k levels above the leaves, or exhibits a collision |
| `MerkleTree.LongProofSound` | dex-blockchain-expert/src/privacy/commitment.rs:117-129 | a proof k steps longer than the tree is deep that recomputes to the root has an inserted leaf after its first k steps, or exhibits a collision |
| `MerkleTree.LongProofComplete` | dex-blockchain-expert/src/privacy/commitment.rs:117-129 | whatever recomputes to an inserted leaf in any number of steps is accepted with these steps before the leaf's proof |
| `MerkleTree.GeneratedProofDecides` | dex-blockchain-expert/src/privacy/commitment.rs:33-47 | a generated proof is accepted for exactly the inserted leaves, unless it exhibits a collision |
| `MerkleTree.CommitmentTree.GetRoot` | dex-blockchain-expert/src/privacy/commitment.rs:26-31 | the root is zero for no leaves and else the hash of the tree, given outright for one, two and three leaves |
| `MerkleTree.CommitmentTree.Insert` | dex-blockchain-expert/src/privacy/commitment.rs:20-24 | inserting appends a leaf |
| `MerkleTree.CommitmentTree.ComputeRoot` | dex-blockchain-expert/src/privacy/commitment.rs:49-74 | the loop over levels ends with the root of all leaves |
| `MerkleTree.CommitmentTree.ComputeProofPath` | dex-blockchain-expert/src/privacy/commitment.rs:76-115 | the loop collects the sibling and side at each level |
| `MerkleTree.CommitmentTree.GenerateProof` | dex-blockchain-expert/src/privacy/commitment.rs:33-42 | the proof is that of the first position of the leaf, or of position zero if it was not inserted |
| `MerkleTree.CommitmentTree.VerifyProof` | dex-blockchain-expert/src/privacy/commitment.rs:44-47 | a proof is accepted exactly when it recomputes to the expected root |
| `GreedyFill.GreedyConserves` | dex-blockchain-expert/src/dex/orderbook.rs:142-193 | filling takes from the resting quantity, and from what the taker wants, exactly what is traded |
| `GreedyFill.GreedyPriority` | dex-blockchain-expert/src/dex/orderbook.rs:142-193 | trades take the makers in list order at their own prices; all but the last are used up, the last one too unless it rests with what the trade left, and what rests is the tail with at most its head reduced |
| `GreedyFill.GreedyMaximal` | dex-blockchain-expert/src/dex/orderbook.rs:142-193 | either the taker is filled or no resting order within its limit is left |
| `GreedyFill.TradesWorsen` | dex-blockchain-expert/src/dex/orderbook.rs:142-193 | trade prices never improve along the list and keep to the limit |
| `GreedyFill.BestAreTraded` | dex-blockchain-expert/src/dex/orderbook.rs:142-242 | every trade is with an order of the list at its price, and nothing that rests is better than anything traded |
| `GreedyFill.GreedyConcat` | dex-blockchain-expert/src/dex/orderbook.rs:149-189 | filling level by level is filling the flattened book |
| `GreedyFill.QuoteIsExact` | dex-blockchain-expert/src/dex/orderbook.rs:312-334 | a quote exists exactly when a market order of that size would be filled, and is the exact sum of price times amount over its trades |
| `BestExecution.FillIsBest` | dex-blockchain-expert/src/dex/orderbook.rs:142-242 | no other choice of as much from the same resting orders costs a buyer less or pays a seller more |
| `BestExecution.QuoteIsLeast` | dex-blockchain-expert/src/dex/orderbook.rs:312-334 | a quote is given exactly when that much is on offer, and is the least that buying it can cost |
| `GreedyFill.FlatAlongOldPrices` | dex-blockchain-expert/src/dex/orderbook.rs:146-149 | walking a price list taken before the match visits the same book |
| `OrderBook.IndexIsResting` | dex-blockchain-expert/src/dex/orderbook.rs:67-93 | the index holds exactly the ids resting in the book, and no id rests on both sides |
| `OrderBook.MatchOutcome` | dex-blockchain-expert/src/dex/orderbook.rs:142-242 | matching conserves quantity, never improves prices and is the best choice for the taker; a limit order trades within its price, and either the taker is filled or, for a limit order, no order at or within its price is left, for any other none at all |
| `OrderBook.QueuedBehind` | dex-blockchain-expert/src/dex/orderbook.rs:67-93 | an order added to a side comes behind all at its price or a better one and before all at a worse one, so it trades after those added earlier |
| `OrderBook.ShrinkLevel` | dex-blockchain-expert/src/dex/orderbook.rs:177-187 | replacing a level by some of its orders and forgetting the others' ids keeps the book in order, with no empty level |
| `OrderBook.CancelKeeps` | dex-blockchain-expert/src/dex/orderbook.rs:245-273 | cancelling takes the order, and only it, out of its level and the index |
| `OrderBook.CancelTakesOne` | dex-blockchain-expert/src/dex/orderbook.rs:245-273 | one order leaves the side's list and every other keeps its place |
| `OrderBook.DepthIsResting` | dex-blockchain-expert/src/dex/orderbook.rs:276-309 | the full depth of a side adds up to everything resting on it |
| `OrderBook.Book.AddOrder` | dex-blockchain-expert/src/dex/orderbook.rs:45-117 | market orders are refused, limit orders and the visible part of iceberg orders rest, conditional orders are accepted and forgotten; exactly an iceberg order that shows more than its amount panics, changing nothing |
| `OrderBook.Book.AddLimitOrder` | dex-blockchain-expert/src/dex/orderbook.rs:67-93 | the order joins the end of its price level on its side and the index, behind all resting at its price or a better one; book and index stay in step |
| `OrderBook.Book.MatchLevel` | dex-blockchain-expert/src/dex/orderbook.rs:159-182 | one level is filled greedily in arrival order and used-up makers leave level and index |
| `OrderBook.Book.MatchLevels` | dex-blockchain-expert/src/dex/orderbook.rs:142-193 | the loop over levels is the greedy fill of the flattened side |
| `OrderBook.Book.MatchBuyOrder` | dex-blockchain-expert/src/dex/orderbook.rs:142-193 | a buy fills greedily from the asks, cheapest and earliest first: a limit buy never trades above its price, an unfilled one leaves no ask at or below it, any other is filled or leaves no ask; what rests is no cheaper than what traded, no other choice of that size costs less, and nothing else is touched |
| `OrderBook.Book.MatchSellOrder` | dex-blockchain-expert/src/dex/orderbook.rs:195-242 | a sell fills greedily from the bids, dearest and earliest first: a limit sell never trades below its price, an unfilled one leaves no bid at or above it, any other is filled or leaves no bid; what rests is no dearer than what traded, no other choice of that size pays more, and nothing else is touched |
| `OrderBook.Book.CancelOrder` | dex-blockchain-expert/src/dex/orderbook.rs:245-273 | an indexed order is removed from book and index and every other order keeps its place; an unknown id is an error that changes nothing |
| `OrderBook.Book.CalculateMarketBuy` | dex-blockchain-expert/src/dex/orderbook.rs:312-334 | succeeds exactly when that much is on offer, with the exact and least possible cost |
| `OrderBook.Book.GetDepth` | dex-blockchain-expert/src/dex/orderbook.rs:276-309 | reports up to so many levels of either side, the better ones first and none better left out, with the amount and number of orders at each |
| `AmmPool.Sqrt` | dex-blockchain-expert/src/dex/amm.rs:334-348 | Newton's iteration terminates with the exact floor of the square root |
| `AmmPool.SqrtUnique` | dex-blockchain-expert/src/dex/amm.rs:334-348 | the floor of a root is unique |
| `AmmPool.SwapOutWithin` | dex-blockchain-expert/src/dex/amm.rs:170-195 | a swap never pays out more than the reserve holds, so its subtraction cannot fail |
| `AmmPool.SwapKeepsProduct` | dex-blockchain-expert/src/dex/amm.rs:170-195 | a swap pays out less than the reserve and never lowers the product of the reserves |
| `AmmPool.PayoutIsLargest` | dex-blockchain-expert/src/dex/amm.rs:178-186 | the payout is the largest that does not lower the product of the reserves, counting 9970 in 10000 of what comes in |
| `AmmPool.SwapsKeepProduct` | dex-blockchain-expert/src/dex/amm.rs:162-201 | over any run of swaps neither reserve reaches zero and the product never falls |
| `AmmPool.NoSwapCycleProfits` | dex-blockchain-expert/src/dex/amm.rs:162-201 | a run of swaps that brings one reserve back, or lower, leaves the other no smaller than it started |
| `AmmPool.DepositTakesAtMost` | dex-blockchain-expert/src/dex/amm.rs:97-108 | a deposit takes in no more of either token than was offered |
| `AmmPool.MintsMost` | dex-blockchain-expert/src/dex/amm.rs:97-100 | a deposit mints the most shares that each of the two amounts pays for |
| `AmmPool.DepositDilutes` | dex-blockchain-expert/src/dex/amm.rs:97-108 | a deposit lowers reserves per share by exactly the rounding remainder, which is below one unit of supply |
| `AmmPool.WithdrawConcentrates` | dex-blockchain-expert/src/dex/amm.rs:127-159 | a withdrawal never lowers reserves per share |
| `AmmPool.DepositWithdraw` | dex-blockchain-expert/src/dex/amm.rs:97-159 | a deposit into a pool with supply followed at once by its withdrawal returns no more than was taken in, and restores supply and shares |
| `AmmPool.FirstDepositWithdraw` | dex-blockchain-expert/src/dex/amm.rs:78-159 | a first deposit is returned in full by its withdrawal if and only if both amounts are positive or both zero; otherwise nothing is minted and nothing returned |
| `AmmPool.FirstDepositKeptIff` | dex-blockchain-expert/src/dex/amm.rs:91-96 | no later deposit takes from the reserves after a deposit into a pool without supply if and only if both amounts are positive or both zero; otherwise the next deposit overwrites them |
| `AmmPool.RunSound` | dex-blockchain-expert/src/dex/amm.rs:78-201 | in every run the providers' shares add up to the supply and positive supply means positive reserves |
| `AmmPool.ShareValueKept` | dex-blockchain-expert/src/dex/amm.rs:127-201 | over any run of swaps and withdrawals the value of a share never falls |
| `AmmPool.AmmPool.AddLiquidity` | dex-blockchain-expert/src/dex/amm.rs:78-124 | a first deposit mints the floor of the root of the product; a later one mints the most shares both amounts pay for and takes in the floored proportions; only the provider's shares change |
| `AmmPool.AmmPool.RemoveLiquidity` | dex-blockchain-expert/src/dex/amm.rs:127-159 | a withdrawal within the provider's shares pays the floored proportions of both reserves; a larger one is an error, and exactly a zero one from an empty pool or by an unknown provider panics; neither changes anything |
| `AmmPool.AmmPool.Swap` | dex-blockchain-expert/src/dex/amm.rs:162-201 | a swap moves the amount in and pays the largest amount that does not lower the product when 9970 in 10000 of it are counted; liquidity is insufficient exactly when a payout of one would lower it, paying nothing into an empty reserve panics, an unknown token is an error, and none of these changes anything |
| `MemoryCache.SomethingQueued` | dex-blockchain-expert/src/storage/cache.rs:70-73 | a cache that holds anything has a key to evict |
| `MemoryCache.EvictForMakesRoom` | dex-blockchain-expert/src/storage/cache.rs:70-73 | the eviction loop terminates with room for the new entry, and only drops entries |
| `MemoryCache.EvictForJustRoom` | dex-blockchain-expert/src/storage/cache.rs:70-73 | eviction goes along the queue and stops as soon as there is room |
| `MemoryCache.RetainFilters` | dex-blockchain-expert/src/storage/cache.rs:42-43 | dropping keys from the queue keeps the order of the others |
| `MemoryCache.PutKeeps` | dex-blockchain-expert/src/storage/cache.rs:54-89 | a value that fits is cached, the recorded size stays the sum of the entry sizes and within the bound, every cached key stays queued; a value that does not fit changes nothing |
| `CacheRecency.RecencyIff` | dex-blockchain-expert/src/storage/cache.rs:32-104 | over every run of gets, puts and removes the queue lists the cached keys by last use throughout if and only if no put that fits finds its key still queued once room has been made; a new cache is in that order (`CacheRecency.FreshByLastUse`) |
| `CacheRecency.StoredKeepsIff` | dex-blockchain-expert/src/storage/cache.rs:54-89 | a put that fits keeps that order if and only if its key is no longer queued once room has been made |
| `CacheRecency.NewKeyKeeps` | dex-blockchain-expert/src/storage/cache.rs:54-89 | a put of a key that is not cached always keeps that order |
| `CacheRecency.EvictsLeastRecent` | dex-blockchain-expert/src/storage/cache.rs:106-122 | in that order an eviction takes the least recently used entry |
| `CacheRecency.ReputKeyGoesFirst` | dex-blockchain-expert/src/storage/cache.rs:54-89 | in every ordered cache, when the key at the front is put again without eviction it is the most recently used one and the next to be evicted |
| `MemoryCache.Cache.Get` | dex-blockchain-expert/src/storage/cache.rs:32-52 | a get answers with the cached value, counts the access and moves the key to the back; contents stay |
| `MemoryCache.Cache.Put` | dex-blockchain-expert/src/storage/cache.rs:54-89 | a put takes the old entry out, evicts from the front of the queue just until the value fits, and adds the new entry at the back with one access; one that never fits changes nothing |
| `MemoryCache.Cache.EvictOnce` | dex-blockchain-expert/src/storage/cache.rs:106-122 | one eviction takes the front of the queue and its entry, if that is still there |
| `MemoryCache.Cache.Remove` | dex-blockchain-expert/src/storage/cache.rs:91-104 | a remove drops the entry, its size and all its queue places |
| `MemoryCache.Cache.EvictColdEntries` | dex-blockchain-expert/src/storage/cache.rs:124-148 | exactly the cold entries leave data, size and queue, in whatever order they are met |
| `LayeredStorage.BloomFilter.Add` | dex-blockchain-expert/src/storage/layered.rs:435-441 | adding a key sets exactly the key's bits |
| `LayeredStorage.BloomFilter.MightContain` | dex-blockchain-expert/src/storage/layered.rs:443-452 | a key passes exactly when all its bits are set, so no added key is ever missed |
| `LayeredStorage.AnswersLikeDatabase` | dex-blockchain-expert/src/storage/layered.rs:252-285 | if all known keys pass the filter, every read answers like the database if and only if no cached entry is stale |
| `LayeredStorage.PutCoherentIff` | dex-blockchain-expert/src/storage/layered.rs:325-338 | a put keeps cache and database in agreement if and only if the value fits the cache, or its key is not cached, or that very value is |
| `LayeredStorage.PutFiltered` | dex-blockchain-expert/src/storage/layered.rs:325-338 | a put leaves its key stale exactly when an oversize value meets a different cached one, and makes no other key stale |
| `LayeredStorage.DeleteKeeps` | dex-blockchain-expert/src/storage/layered.rs:316-323 | a delete makes exactly its key no longer stale |
| `LayeredStorage.StepKeeps` | dex-blockchain-expert/src/storage/layered.rs:252-360 | each operation moves the database as a plain map and, if its values fit, makes nothing stale |
| `LayeredStorage.RunAnswers` | dex-blockchain-expert/src/storage/layered.rs:252-360 | in every run with values that fit, filter, cache and database answer every key as one plain map, and the cache keeps its bound |
| `LayeredStorage.BatchCoherentIff` | dex-blockchain-expert/src/storage/layered.rs:325-338 | a batch keeps cache and database in agreement if and only if no key whose last value does not fit is cached with another one when it is done |
| `LayeredStorage.RunAnswersIff` | dex-blockchain-expert/src/storage/layered.rs:252-360 | over every run, whatever the size of the values, the store answers as one plain map throughout if and only if no batch leaves such a key |
| `LayeredStorage.LayeredStorage.constructor` | dex-blockchain-expert/src/storage/layered.rs:74-110 | a reopened store answers nothing, so it agrees with the database exactly when that is empty |
| `LayeredStorage.LayeredStorage.Get` | dex-blockchain-expert/src/storage/layered.rs:252-285 | a get answers filter first, then cache, then database, and leaves what it found in the cache if it fits |
| `LayeredStorage.LayeredStorage.BatchPut` | dex-blockchain-expert/src/storage/layered.rs:325-338 | items go to filter and cache one by one and to the database at the end: of each key the last one is stored, the filter gains exactly the keys' bits, and the last item is cached if it fits |
| `LayeredStorage.LayeredStorage.Delete` | dex-blockchain-expert/src/storage/layered.rs:316-323 | a delete clears cache and database |
| `LayeredStorage.LayeredStorage.BatchDelete` | dex-blockchain-expert/src/storage/layered.rs:340-352 | a batch delete has the effect of its deletes one after another |
| `LayeredStorage.LayeredStorage.Contains` | dex-blockchain-expert/src/storage/layered.rs:354-360 | a key is contained exactly when a get would answer |
| `LayeredStorage.LayeredStorage.CompactCache` | dex-blockchain-expert/src/storage/layered.rs:206-214 | compaction only drops cold cache entries |
| `Snapshot.AppliedIsMerged` | dex-blockchain-expert/src/storage/snapshot.rs:213-335 | applying exactly the differences between two states, in any order, gives the new accounts, the old storage overridden by the new, and the old code plus the newly referenced code |
| `DeltaUndo.LastCounts` | dex-blockchain-expert/src/storage/snapshot.rs:311-335 | applying any changes, each account, slot and code ends as the last change that mentions it says, or as it was |
| `DeltaUndo.UndoRestoresIff` | dex-blockchain-expert/src/storage/snapshot.rs:213-266 | a delta taken back by its recorded old values restores the accounts if and only if it deletes none, and the storage if and only if no slot came or went |
| `Snapshot.DeltaReproducesIff` | dex-blockchain-expert/src/storage/snapshot.rs:213-335 | a delta reproduces the new state, but for the root, if and only if storage and code only grow and all new code is referenced |
| `Snapshot.AppliedElsewhere` | dex-blockchain-expert/src/storage/snapshot.rs:311-335 | applied to any state, a delta brings in exactly the accounts that changed, the new state's changed slots and its new code that some account refers to |
| `Snapshot.ReplayHolds` | dex-blockchain-expert/src/storage/snapshot.rs:366-383 | a snapshot and a chain of deltas hold the last state's accounts and slots, every slot there ever was, and for each code hash the code that came in last |
| `Snapshot.ChainReproducesIff` | dex-blockchain-expert/src/storage/snapshot.rs:366-383 | they reproduce the last state, all but the root, if and only if every slot of every state is in the last one and a code hash is there just if its code has come in referenced, or was there at the start, with the code that came in last |
| `Snapshot.ChainReproduces` | dex-blockchain-expert/src/storage/snapshot.rs:366-383 | so they do when every step only grows |
| `Snapshot.ChainAccounts` | dex-blockchain-expert/src/storage/snapshot.rs:366-383 | the accounts are those of the last state without any condition |
| `Snapshot.DeletedSlotSurvives` | dex-blockchain-expert/src/storage/snapshot.rs:247-266 | a storage slot deleted between two states survives the delta |
| `Snapshot.SnapshotManager.CreateDelta` | dex-blockchain-expert/src/storage/snapshot.rs:213-298 | the recorded changes are exactly the differences, each place once, whatever the iteration order, and applying them gives the merged state |
| `Snapshot.SnapshotManager.ApplyDelta` | dex-blockchain-expert/src/storage/snapshot.rs:311-335 | the changes are applied in order and the height moves on |
| `Snapshot.SnapshotManager.ApplySnapshot` | dex-blockchain-expert/src/storage/snapshot.rs:300-309 | the state becomes that of the snapshot |
| `Snapshot.SnapshotManager.CreateSnapshot` | dex-blockchain-expert/src/storage/snapshot.rs:173-211 | of all snapshots created the ten highest are kept |
| `Snapshot.TrimKeepsHighest` | dex-blockchain-expert/src/storage/snapshot.rs:199-203 | adding a height and dropping the lowest of too many keeps the highest |
| `Snapshot.SnapshotManager.SyncFromSnapshot` | dex-blockchain-expert/src/storage/snapshot.rs:366-383 | the state is the snapshot followed by the deltas in order |
| `Snapshot.ChangedAccounts` | dex-blockchain-expert/src/storage/snapshot.rs:222-238 | created and updated accounts are recorded, each with its old and new value |
| `Snapshot.DeletedAccounts` | dex-blockchain-expert/src/storage/snapshot.rs:240-245 | exactly the accounts no longer there are recorded as deleted |
| `Snapshot.ChangedStorage` | dex-blockchain-expert/src/storage/snapshot.rs:247-266 | new and changed slots are recorded with the old value, or zero |
| `Snapshot.DeployedCode` | dex-blockchain-expert/src/storage/snapshot.rs:268-283 | new code is recorded exactly when some account refers to it |
| `Relayer.RunKeeps` | dex-blockchain-expert/src/cross_chain/relayer.rs:68-179 | every step, whatever the outcomes, keeps the protocol invariant |
| `Relayer.RelayedAtMostOnce` | dex-blockchain-expert/src/cross_chain/relayer.rs:68-179 | in every run that submits no id already relayed or waiting to be, no message is relayed twice, every relayed one has exactly the needed confirmations, none is pending and relayed at once, and retries stay below the limit |
| `Relayer.RelayedOnlyConfirmed` | dex-blockchain-expert/src/cross_chain/relayer.rs:112-135 | a message submitted during a run is relayed in it only if the run has at least the required number of confirmation ticks, and at least one |
| `Relayer.ReadyIsRelayed` | dex-blockchain-expert/src/cross_chain/relayer.rs:137-179 | a ready message at position p is relayed by any run with more than p / batch_size rounds in which its relay succeeds, whatever happens to the others |
| `Relayer.QueueNeverDrains` | dex-blockchain-expert/src/cross_chain/relayer.rs:81-85 | the copy queued at submission never becomes ready and never leaves the queue |
| `Relayer.ResubmittedRelaysTwice` | dex-blockchain-expert/src/cross_chain/relayer.rs:68-179 | for every number of confirmations and every batch size but zero, an id submitted again when it has been relayed or waits to be is relayed twice by some run without failures |
| `Relayer.ResubmitSafeIff` | dex-blockchain-expert/src/cross_chain/relayer.rs:68-179 | after a submission no run relays a message twice if and only if its id has neither been relayed nor waits to be, or batches are empty |
| `Relayer.Drain` | dex-blockchain-expert/src/cross_chain/relayer.rs:137-179 | enough rounds without failures relay every ready copy |
| `Relayer.LastFailureExhausts` | dex-blockchain-expert/src/cross_chain/relayer.rs:163-174 | a ready message whose last allowed attempt fails leaves the queue for good |
| `Relayer.LastAttemptIff` | dex-blockchain-expert/src/cross_chain/relayer.rs:163-174 | a failed attempt is the last one exactly when the bound on retries says so |
| `Relayer.ExhaustedForGood` | dex-blockchain-expert/src/cross_chain/relayer.rs:163-174 | such a message is never relayed in any run that does not submit it anew, and its status on record stays ready, never failed |
| `Relayer.NothingExhausts` | dex-blockchain-expert/src/cross_chain/relayer.rs:181-184 | as long as no attempt fails, as none does in the code as it stands, every ready message keeps a queued copy |
| `Relayer.TakeKeeps` | dex-blockchain-expert/src/cross_chain/relayer.rs:138-151 | taking a batch off the queue loses and duplicates no ready message |
| `Relayer.ProcessKeeps` | dex-blockchain-expert/src/cross_chain/relayer.rs:112-135 | a tick queues each message that becomes ready exactly once |
| `Relayer.ProcessExact` | dex-blockchain-expert/src/cross_chain/relayer.rs:112-135 | a tick gives each pending message one confirmation and makes it ready with the last one required; the copies queued are exactly those made ready |
| `Relayer.RelayExact` | dex-blockchain-expert/src/cross_chain/relayer.rs:137-179 | of the first batch of the queue those not ready go behind the rest, successes are recorded and pending no more, and failures are queued again unless it was their last attempt |
| `Relayer.Relayer.SubmitTransfer` | dex-blockchain-expert/src/cross_chain/relayer.rs:68-88 | a submission takes the next nonce and enters queue and pending map as a pending message without confirmations |
| `Relayer.Relayer.ProcessPendingMessages` | dex-blockchain-expert/src/cross_chain/relayer.rs:112-135 | a tick confirms every pending message once and queues those now ready, in the order visited |
| `Relayer.Relayer.RelayReadyMessages` | dex-blockchain-expert/src/cross_chain/relayer.rs:137-179 | a round takes at most a batch, rotates what is not ready, relays or retries the rest in order |
| `Relayer.Relayer.GetMessageStatus` | dex-blockchain-expert/src/cross_chain/relayer.rs:200-210 | a status exists exactly for known ids, says relayed exactly after a success, and never says failed |
| `SlabAllocator.BlocksApart` | dex-blockchain-expert/src/optimization/memory_pool.rs:120-192 | different blocks share no byte |
| `SlabAllocator.PushSoundIff` | dex-blockchain-expert/src/optimization/memory_pool.rs:158-175 | giving back a block keeps the free lists sound if and only if the block is live |
| `SlabAllocator.BlockOfHolds` | dex-blockchain-expert/src/optimization/memory_pool.rs:166-167 | the block computed from an address in a slab is the one that holds it |
| `SlabAllocator.SlabAllocator.Allocate` | dex-blockchain-expert/src/optimization/memory_pool.rs:120-156 | hands out a block that was not live: the one freed last in the first slab with a free block, and else the first block of a new slab, which it opens if and only if all blocks are live |
| `SlabAllocator.SlabAllocator.Deallocate` | dex-blockchain-expert/src/optimization/memory_pool.rs:158-175 | any address in a slab enters its block on the free list and lowers the count, or panics at zero; one in no slab changes nothing; the allocator stays sound if and only if the block was live or there is none |
| `SlabAllocator.SlabAllocator.GetStats` | dex-blockchain-expert/src/optimization/memory_pool.rs:177-191 | used blocks are the live ones and free blocks all others |
| `Arena.AlignUpAtLeast` | dex-blockchain-expert/src/optimization/memory_pool.rs:240-240 | rounding never goes back into what is used, whatever the alignment |
| `Arena.AlignsIffPowerOfTwo` | dex-blockchain-expert/src/optimization/memory_pool.rs:240-240 | rounding yields multiples of the alignment for all offsets if and only if it is a power of two |
| `Arena.WrappingRoundsUpIff` | dex-blockchain-expert/src/optimization/memory_pool.rs:240-240 | without overflow checks the offset stays out of what is used if and only if nothing is used or nothing wraps around; alignment zero gives offset zero |
| `Arena.PlaceSound` | dex-blockchain-expert/src/optimization/memory_pool.rs:235-270 | a region shares no byte with those handed out since the last clear and starts at a multiple of a power-of-two alignment |
| `Arena.PlaceExact` | dex-blockchain-expert/src/optimization/memory_pool.rs:235-270 | for a power-of-two alignment the region goes to the first aligned place behind what is used in the current chunk if it fits there, else to a new chunk |
| `Arena.Arena.Allocate` | dex-blockchain-expert/src/optimization/memory_pool.rs:235-270 | the region goes behind the used part of the current chunk if it fits there, and else opens a chunk of at least its size; it panics, changing nothing, exactly when the sums overflow or the alignment is zero |
| `Arena.Arena.Clear` | dex-blockchain-expert/src/optimization/memory_pool.rs:284-290 | clearing leaves one empty chunk |
| `Arena.Arena.GetStats` | dex-blockchain-expert/src/optimization/memory_pool.rs:292-319 | allocated and used add up over all chunks, and used never exceeds allocated |
| `RingBuffer.OverlayAppends` | dex-blockchain-expert/src/optimization/zero_copy.rs:283-311 | copying bytes in behind what is held appends them, through wrap-around and up to exactly full |
| `RingBuffer.AdvanceDrops` | dex-blockchain-expert/src/optimization/zero_copy.rs:334-335 | moving the read position on drops that many bytes from the front |
| `RingBuffer.RingBuffer.AvailableRead` | dex-blockchain-expert/src/optimization/zero_copy.rs:379-387 | what can be read is what is held |
| `RingBuffer.RingBuffer.AvailableWrite` | dex-blockchain-expert/src/optimization/zero_copy.rs:369-377 | what can be written is the rest of the capacity |
| `RingBuffer.RingBuffer.Write` | dex-blockchain-expert/src/optimization/zero_copy.rs:283-311 | a write appends as much as there is room for; bytes read followed by bytes held stay the bytes accepted |
| `RingBuffer.RingBuffer.Read` | dex-blockchain-expert/src/optimization/zero_copy.rs:313-338 | a read takes the oldest bytes, in order, and leaves the rest of the target alone |
| `RingBuffer.RingBuffer.ReadZeroCopy` | dex-blockchain-expert/src/optimization/zero_copy.rs:340-367 | the two pieces are what is held, so with the bytes read so far they are the bytes accepted |

## Left out

- Integer overflow: sums, products and counters are unbounded natural numbers, except
  in `PoolGraph.EdgeWeight` and the arena's rounding. Where an overflow would panic the
  model computes on; `Conservation.BalancesStayBounded` shows when balances cannot.
- Executor.ExecuteSingleTransaction: hashes of code, addresses and transactions and the
  signature check are parameters or fields, timing is dropped.
- Account database: caching, eviction, commit and rollback; it is a map.
- Interleaving.Advance: a transaction that fails early is taken to make its remaining
  reads, which touch nothing.
- Interleaving.Interleave: lock acquisition and worker assignment are not modelled; any
  unfinished task may move next, and at least one worker is assumed.
- ParallelExecutor.ExecuteBatch: outcomes are kept by task, so the order in which
  receipts arrive is not modelled; says nothing when a transaction has no recipient and
  its created address meets another transaction's accounts.
- Grouping.GroupTransactions: stops at the groups; running them is `GroupSchedules`. Metrics
  and the order of receipts are left out.
- GroupSchedules.GroupSerialIff: about groups of payments; for groups with creations
  `GroupSchedules.ApartEndsSerially` is the sufficient half.
- Trie.DeleteGet: about plain nibble sequences; packed paths are in `StoredTrie`.
- Trie.SimplifyBranchGet: about plain nibble sequences, as above.
- Trie.MergeExtensionGet: about plain nibble sequences, as above.
- Trie.SplitLeafGet: about plain nibble sequences, as above.
- Trie.SplitExtensionGet: about plain nibble sequences, as above.
- Trie.InsertGet: about plain nibble sequences, as above; for packed paths it is false
  (`TrieAgreement.TwoKeysLost`).
- TrieStore.UpdateRepresents: about plain nibble sequences; the code needs the premises of
  `TrieAgreement.RunRefines` for it.
- TrieStore.AgreesIffForkFree: about plain nibble sequences; for the code as it is the
  condition is that of `TrieAgreement.PackedAgreesIffOneKey`.
- TrieStore.RunRepresents: about plain nibble sequences, as TrieStore.UpdateRepresents.
- TrieStore.FixedLengthRunAgrees: about plain nibble sequences, as
  TrieStore.UpdateRepresents.
- TwinKeys.AgreesOnlyIf: for more than two keys the condition is necessary; leaves that
  deletions leave behind can share a place with others, and the exact condition for larger
  sets, a lossless packing and discarded nodes is not given.
- StoredTrie: node hashes are taken not to collide; the root hash and membership proofs are
  not modelled.
- StoredTrie.MerklePatriciaTrie.CachePath: which path is evicted when the cache is full is
  open. The code looks up the access counts of nodes under the hash of the key, finds none
  and takes the first path its hash map lists.
- Dijkstra.Search: for a single graph with a hop bound of two or more and no room for every
  simple path it is exact only in a trap; `HopBound.SafeOverIff` is exact over all graphs of
  given tokens. Heap ties are broken arbitrarily; path costs do not overflow.
- PathFinder.PathFinder.FindAllPaths: with parallel pools completeness is only refuted
  (`HopBound.CrowdHides`); which of the routes are then left out follows from the three
  searches, and no condition on the pools alone is given for it. Deduplication sorts stably
  by insertion.
- TrieShape.CommitOrderIff: about plain nibble sequences, as TrieStore.UpdateRepresents.
- TrieShape.InsertTight: about plain nibble sequences, as above.
- TrieShape.DeleteTight: about plain nibble sequences, as above.
- TrieShape.RunTight: about plain nibble sequences, as above.
- TrieShape.InsertOrderIff: about plain nibble sequences, as above.
- MerkleTree: the cached root and commitment hashing of leaves.
- OrderBook: order ids drawn at random are taken to be fresh; statistics, timestamps, last
  price, hidden iceberg parts and conditional orders are not modelled. The two match
  methods share their loop.
- AmmPool.AmmPool.AddLiquidity: the update of the oracle at its end, which waits for ever in
  the code, is taken to return.
- AmmPool.AmmPool.RemoveLiquidity: takes the update of the oracle to return, as above.
- AmmPool.AmmPool.Swap: takes the update of the oracle to return, as above.
- AMM oracle, time-weighted prices, concentrated liquidity and all floating-point results.
- MemoryCache.Cache.EvictColdEntries: which entries are cold is a parameter; clocks are
  not modelled.
- LayeredStorage.LayeredStorage.Get: the prefetch cache is left out, and the cold tier,
  which answers nothing, with it; the buffered single put and its flush are not modelled.
- LayeredStorage.RunAnswers: assumes values that fit the cache; without that assumption the
  exact condition over runs is `LayeredStorage.RunAnswersIff`.
- Snapshot: proofs, size estimates, timestamps, clean-up, incremental synchronisation
  from an empty state and peer selection.
- Relayer: locks between the parts of a round, so a submission does not fall inside one;
  chain ids, payloads and timestamps.
- SlabAllocator.SlabAllocator.Allocate: where the system places a slab is a parameter
  that must not overlap the others; allocation failure is not modelled.
- SlabAllocator.SlabAllocator.Deallocate: without overflow checks a count of zero wraps
  around instead of panicking; that is not modelled.
- Arena.Arena.Allocate: checks overflow; without checks only the rounding is modelled. A
  chunk is taken to have exactly the capacity asked for; contents are not modelled.
- Object pools, thread-local pools, shared memory regions and buffer slicing.
- Consensus, networking, bridge, lending, perpetuals, rollups, liquidity
  aggregation, monitoring and cryptography.
