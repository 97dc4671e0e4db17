# Bazo miner: a verified model

Dafny 4.11 model of the Bazo proof-of-stake miner. `dafny verify dfyconfig.toml` checks everything.

**What is modelled.**

- *Blocks, rollback and reorganisation.* `Ledger` and `Validation` specify every stage of `validateState` and of its
  rollback over a map of accounts with wrapping words; `State.Store` is the code over shared account objects and refines them.
  `Effects` to `UndoEffects` give each stage and each rollback in closed form per account, so that aliasing of sender,
  receiver, root and miner is covered. `Transactions` and `ClosedAggregations` are the open and closed transactions and what
  aggregations do to them; `AggregatedRollback` derives what the rollback of an aggregation finds from what `postValidate`
  closed. `BlockInverse` and `Chain` derive exactly when a block, aggregations included, rolls back, `RollbackConditions` names
  the guards, `RollbackWitnesses` and `AggregationWitnesses` have a block through each branch that fails, `LateFailures` and
  `EarlyFailures` say what a failed block leaves behind, `Acceptance` exactly when each stage and a whole block completes. `Node` specifies fork choice and `validate`, `Miner.Miner` is the code over its fields, and
  `Runs` and `Reorganisation` lift the inverse to whole runs: the state is the replay of the active chain. `Decisions` says
  exactly when the node switches chains, accepts, fetches and empties, `OpenPool` what validation and rollback do to the open and
  closed transactions, `Difficulties` when and to what the targets change, and
  `TargetFormula` by how much. `Supply` is the
  supply equation, `Solvency` what the checks of a transaction guarantee and when a prepared block is accepted, `Producer` the
  simulation between block production and validation.
- *Transaction updates.* `NumberTheory` and `ChameleonHash` prove the trapdoor collision from Fermat's little theorem and
  find exactly when the promised collision holds; `TxUpdate` draws the consequences for stored
  transactions of every kind and for blocks.
- *Merkle trees.* `Merkle` builds the "largest power of two first" tree on the heap.
- *Contract VM.* `VmMap` and `VmArray` refine a list of pairs and a sequence; `VmStack` and `VmExec` are the metered
  interpreter, which does what `VmSemantics` specifies of every instruction and of whole runs, `VmLaws` is what instructions
  mean together, `VmLibrary` what map and array opcodes push, and its size.
- *Lottery* and *aggregation*: `Lottery`, `Aggregation`.

**Conventions.** Hashes are numbers of which only equality and zero matter, or byte strings where bytes matter. SHA-2, SHA-3,
random draws, clocks, the network and map iteration order are parameters or arbitrary choices. `Outcome` distinguishes a
completed stage, an error return and a crash (nil pointer, index panic, `logger.Fatal`). An account has two further fields,
`CommitmentKey` and `StakingBlockHeight`, which the stages write and never read and which no rollback restores; they are
fields of `State.Account` and outside its `View`, so every statement about ledgers is one modulo these two fields.

**Hypotheses that the results name.** `Reorganisation.Sound`: every block rolled back is held as it was validated, neither
emptied nor brought back, and meets the condition of `Chain.RollbackInvertsBlock`; new blocks link to their parents by both
hashes, and no two blocks of a chain share a hash. `Reorganisation.SoundRun`: every call of `validate` succeeds soundly, is
turned away before the first rollback, or is turned away after sound rollbacks by a validation that fails without a trace in
what the chain determines (checks, fetch, or a failure that is atomic in the sense of `LateFailures`), with the fork point whole
or a block validated. `Chain.FreshBlock`: a block's listed transactions are distinct and not yet closed, and what its
aggregations apply are their members that are not closed yet, which the fetch and the duplicate check establish; no entry of the
parameter history carries its hash. `RollbackConditions.Orderly`, for the guards on aggregations: a hash names one transaction,
fewer than 2^32 members, and a sender whose transaction is listed twice was there before the block. `Producer.AllOrdinary`:
senders are neither root nor staking nor the receiver, amount and fee do not wrap; the supply is within `MAX_MONEY`. `ChameleonHash.FromKeyGen`: p is an odd prime and x a unit.
`VmSemantics.Env.Bounded`: no message or transaction data offered to the stack exceeds 2^32 - 1 - 1000000 bytes, and no library
operation returns more than twice its operands and 65536 bytes, which `VmLibrary.ModelledLibraryIsBounded` proves of the map and
array operations.

**Where code and its documentation differ, the code is modelled.**

- The usage note of `GenerateChCollision` promises equal hashes; they are equal exactly for stable hashes
  (`ChameleonHash.CollisionIffStable`), because the hash number is copied left-aligned and read back as a full number. For
  update transactions, whose message contains their own check string, the exact condition is `TxUpdate.Kept`.
- A funds transaction may be listed by itself and inside an aggregation, or inside two: `validateNoDuplicateTx` compares listed
  hashes only, and both listings are applied. Listed by itself it is closed before it is given the block, so the rollback, which
  looks for the block, misses the aggregated listing.
- `fetchAggTxData` rejects a closed aggregation only if it is not marked as aggregated, and a member that is closed and still
  open pays its fee again, although the comment says its fee was collected.
- An aggregation inside an aggregation is taken for a historic one; if it was never validated, it is closed without a block and
  no rollback opens it again.
- `CH_SIZE` is documented as bytes; it is passed as a number of bits.
- The comment in `BlockReadyToAggregate` says a block with account, stake or config transactions is never emptied; the
  condition requires all three kinds at once.
- A rollback that unmarks a member brings the emptied block back that closed it. The comment says its transactions become visible
  again: the block lists what is closed under it, which leaves out what it listed by itself and lists the members of its
  aggregations once more, and its counters stay 0.
- `postValidateRollback` looks for an emptied predecessor in the bucket of full blocks.
- A transaction whose counter is below the sender's is skipped by `addFundsTx`, but `fundsStateChange` only logs it and goes on.
- The fee-overflow error of the funds and stake fee loops is overwritten by the account lookup.
- `SetVal` appends although it returns an error; `Insert` at the last index removes the element and returns an error.
- `fetchMany` refuses an argument that ends with the code.
- `buildIntermediate` does not end when every hash is zero.

## Model

| member | source | states |
|---|---|---|
| StageEffects.FundsEffect | miner/state.go:334-403 | A completed funds stage adds to every balance the sum, modulo 2^64, of all amounts moved onto it, and to every counter the number of transactions sent modulo 2^32, however sender, receiver and root coincide; root keys, profiles and staking flags stay |
| StageEffects.FundsRollbackEffect | miner/staterollback.go:31-49 | With the named accounts present the rollback always completes and moves exactly the opposite sums, root credits included |
| StageEffects.FeesEffect | miner/state.go:476-565 | Fee collection with a miner account never crashes: it moves every fee, or it stops at a refused one and then, its own prefix paid back, leaves the ledger exactly as it was |
| StageEffects.FeesRollbackEffect | miner/staterollback.go:176-203 | Moves all fees back, whatever the order and whoever the miner is |
| StageEffects.RefusedFeesReturned | miner/state.go:476-565 | The compensation inside the collection restores the ledger exactly, also when the miner pays fees to itself |
| BlockEffects.StakeEffect | miner/state.go:425-456 | A completed stake stage flips the staking flag of exactly the accounts named an odd number of times and changes nothing else |
| BlockEffects.StakeRollbackEffect | miner/staterollback.go:165-174 | The rollback flips the same accounts again, in reverse order, for any ledger that has them |
| BlockEffects.SlashEffect | miner/state.go:584-608 | Slashing moves the reward to the beneficiary and the minimum off the slashed account, which leaves the validator set, also when both are one account |
| BlockEffects.SlashRollbackEffect | miner/staterollback.go:210-219 | Moves both back and makes the slashed account staking, whether or not it was |
| BlockEffects.StagesEffect | miner/block_validation.go:228-293 | All stages after the account transactions together: balances, counters and staking flags of every account in closed form |
| UndoEffects.AggregatedRollbackEffect | miner/staterollback.go:114-145 | Undoing aggregations moves back the amounts and fees of all their transactions, in whatever order groups and members are visited |
| UndoEffects.UndoDifference | miner/blockrollback.go:152-160 | For any groups: what a block moved and what its rollback moves differ, on every account, by exactly the transfers, fees and counts in which the groups differ from the aggregated transactions and the fees collected for them, though the rollback visits them group by group |
| UndoEffects.UndoBlockEffect | miner/blockrollback.go:152-160 | The rollback of a whole block completes on any ledger with the named accounts, in closed form |
| AccountStage.AccEffect | miner/state.go:271-315 | A completed account stage adds exactly the created accounts, each new and empty, distinct from each other, and leaves the others as they were |
| AccountStage.AccRoots | miner/state.go:271-315 | With headers 0 and 1 only, the root keys grow by exactly the header-1 accounts |
| AccountStage.RolledBackHeader2 | miner/staterollback.go:11-26 | After rolling back a header-2 transaction its account is gone from the state and among the root keys |
| AccountStage.AccStageRollsBack | miner/staterollback.go:9-29 | Rolling the account stage back from any later ledger with the same accounts restores the accounts before the stage, for exactly the slices whose headers are all 0 or 1 |
| BlockInverse.RollbackInvertsLedger | miner/blockrollback.go:152-160 | For any groups of transactions the block applied: validateStateRollback after validateState and the config stage gives the ledger before the block if and only if headers are 0 or 1, every earlier account has its staking flag back, and on every earlier account the undone groups cancel what the aggregations moved |
| AggregatedRollback.MemberFound | miner/staterollback.go:122-130 | Read from the closed transactions as postValidate leaves them: of the members the rollback finds under the block new funds transactions only, and of those listed by themselves too only the ones that came with the block's hash |
| AggregatedRollback.OnlyAppliedFound | miner/staterollback.go:122-130 | Everything found was applied by the block, by itself or inside an aggregation |
| AggregatedRollback.GroupsMatchExactly | miner/staterollback.go:114-145 | The groups found hold exactly the new aggregated funds transactions if and only if none of these is also listed by itself, unless it came with the block's hash |
| AggregatedRollback.MissedDisagrees | miner/staterollback.go:114-145 | Otherwise the counter of its sender does not come back |
| AggregatedRollback.AggregatesRollBackExactly | miner/blockrollback.go:152-160 | With the groups read back from what postValidate closed: the ledger before the block is restored if and only if the header and staking condition holds, no transaction is listed both by itself and inside an aggregation, and fees paid again cancel on every earlier account |
| ClosedAggregations.ClosedAggsAt | miner/block_validation.go:347-391 | After the aggregation loop of postValidate every closed member is marked, every new one is recorded under the block and marked, an aggregation itself is recorded, and every other closed transaction is as it was |
| ClosedAggregations.UnmarkedAggsAt | miner/staterollback.go:55-71 | The rollback of aggregations unmarks exactly the closed members that do not carry the block, and member aggregations |
| ClosedAggregations.DroppedAggsAt | miner/blockrollback.go:184-206 | Reopening takes out exactly the aggregations of the block and the members that carry it |
| ClosedAggregations.StoreRestored | miner/blockrollback.go:162-206 | postValidate, the unmarking and postValidateRollback together restore the closed transactions if and only if no listed aggregation was closed before, no closed member was marked or carried the block, and every new member aggregation that is not listed carries it |
| ClosedAggregations.ClosedKeys | miner/block_validation.go:309-391 | Closed afterwards is exactly what was closed before, what the block lists, and the new members of its aggregations |
| LateFailures.LateFailureResidue | miner/block_validation.go:254-279 | A block that fails in fee, block-reward or slash collection leaves exactly its aggregated transfers behind, and their fees once fees were collected: the compensation finds no aggregated transaction closed yet |
| LateFailures.LateFailureIsAtomic | miner/block_validation.go:254-279 | Such a failure leaves the ledger exactly as before if and only if the account headers are all 0 or 1 and the aggregated transactions cancel on every account |
| LateFailures.PlainLateFailureIsAtomic | miner/block_validation.go:254-279 | Without aggregations, if and only if the account headers are all 0 or 1 |
| LateFailures.AggregatedLateFailureIsNotAtomic | miner/block_validation.go:254-279 | With fewer than 2^32 aggregated transactions, the first of a sender who was there before, it never is |
| BlockInverse.MatchingGroupsAgree | miner/blockrollback.go:152-160 | With groups that hold the aggregated transactions, they cancel if and only if the fees collected for aggregations and those of the applied transactions agree modulo 2^64 on every account |
| BlockInverse.ValidatedLedgerValid | miner/block_validation.go:228-293 | Validation keeps every root key an existing account |
| SystemParameters.ConfigRollsBack | miner/staterollback.go:147-163 | The parameter history is restored exactly when it changed, there was nothing to configure, or the top entry belongs to another block |
| SystemParameters.ConfigOnlyUnstakes | miner/state.go:16-82 | Configuration changes the ledger only by unstaking accounts, and keeps the difficulty interval at its minimum or above |
| SystemParameters.HistoryStaysInBounds | miner/tx_verification.go:228-273 | Every entry configuration adds to a parameter history within bounds is within bounds |
| SystemParameters.StakersHoldMinimum | miner/state.go:47-56 | Once a slice sets the staking minimum, every account still staking holds the minimum then in force |
| SystemParameters.StatisticsRollBack | miner/blockchainparam.go:69-110 | Counting a block never panics on a valid history, and rolling back restores blocks, targets and times exactly when both parameter sets agree where the interval ends |
| RollbackConditions.BlockStatisticsRollBack | miner/blockchainparam.go:69-110 | From a valid chain state, the statistics of an applied block roll back if and only if the last in-bounds interval of its config transactions leaves the interval open, or the interval ends under the parameters before the block; always when the block does not change the interval |
| Chain.RollbackReadsBack | miner/blockrollback.go:44-150 | Right after a block was applied, the rollback reads back exactly its transactions and aggregations, in order and by type, but for marks and recorded blocks |
| Chain.RollbackInvertsBlock | miner/blockrollback.go:11-42 | Aggregations included, rollback after validateState and postValidate restores ledger, root keys, parameter history, difficulty statistics and closed transactions if and only if the conditions on the ledger, the interval, the closed members and the undone groups hold |
| Chain.ApplyKeepsValid | miner/block_validation.go:295-424 | Applying a fresh block keeps the chain state valid, its local block count below the interval included, and closes exactly what it lists and the members of its aggregations |
| RollbackConditions.ConfiguredStaking | miner/state.go:47-56 | An account stakes after the config stage if and only if it did before and no in-bounds staking minimum in the slice exceeds its balance |
| RollbackConditions.ConfiguredInterval | miner/state.go:16-82 | The interval after the slice is the last in-bounds one it sets, or the old one |
| RollbackConditions.GuardsAreExact | miner/blockrollback.go:11-42 | A block rolls back if and only if its account headers are 0 or 1, a slashed earlier account was staking after the stake transactions, no in-bounds staking minimum exceeds the validated balance of an account still staking, the interval it leaves does not end with it unless the one it found does, the closed transactions come back, no transaction is listed both by itself and inside an aggregation, and fees paid again cancel |
| RollbackConditions.PlainBlocksRollBack | miner/blockrollback.go:11-42 | Every block with headers 0 and 1, no slashing of a non-staker, no in-bounds change of interval or staking minimum, and aggregations of new funds transactions that are not listed by themselves and pay once rolls back, whatever else it does |
| RollbackConditions.PlainNotReactivated | miner/staterollback.go:122-139 | Rolling such a block back brings no emptied block back |
| RollbackConditions.FetchedFees | miner/state.go:458-474 | The fees collected for the aggregations of a fetched block are those of its new transactions and, once more, those of members that are closed and still open |
| RollbackConditions.FetchedFeesMatch | miner/state.go:458-474 | They are those of the new ones alone if and only if no member is closed and still open |
| RollbackConditions.FetchedFeesCancel | miner/state.go:458-474 | The rollback gives back what was collected if and only if the fees paid again cancel, modulo 2^64, on every earlier account |
| RollbackConditions.CancelIffFree | miner/state.go:511-529 | Fees that add up to less than 2^64, of earlier accounts, cancel if and only if each is 0 or paid by the miner to itself |
| RollbackConditions.PlainReorganisationIsSound | miner/longestchain.go:15-72 | A reorganisation that rolls back such blocks, held as they were validated, meets the hypotheses of the run results |
| RollbackConditions.TwoBlocksReplaceTip | miner/longestchain.go:15-72 | A real one: two blocks from below the tip, the first waiting in the stash, roll back the tip and replace it, also when the block below was emptied or brought back |
| RollbackWitnesses.Header2Leaves | miner/staterollback.go:11-26 | A block that removes a root key applies, and rolling it back does not restore the state |
| RollbackWitnesses.Header3Leaves | miner/staterollback.go:11-26 | So does one with an account transaction of header 3 |
| RollbackWitnesses.SlashedNonStakerLeaves | miner/staterollback.go:210-219 | So does one that slashes an account outside the validator set, with a proof that names two different blocks |
| RollbackWitnesses.StakingMinimumLeaves | miner/state.go:47-56 | So does one that raises the staking minimum above the balance of a staker |
| RollbackWitnesses.IntervalLeaves | miner/blockchainparam.go:69-110 | So does one that shortens the interval so that it ends there |
| RollbackWitnesses.MarkedMemberLeaves | miner/staterollback.go:60-71 | So does one whose aggregation lists a closed transaction that was already marked: the rollback unmarks it |
| RollbackWitnesses.CarryingMemberLeaves | miner/staterollback.go:125-127 | So does one whose aggregation lists a closed transaction that carries the block's own hash: the rollback undoes and reopens it |
| RollbackWitnesses.RelistedAggregationLeaves | miner/block_aggregatetx.go:271-278 | So does one that lists a closed and marked aggregation again, which the fetch lets pass: the rollback takes it out |
| RollbackWitnesses.NestedAggregationLeaves | miner/block_validation.go:371-381 | So does one whose aggregation lists an aggregation that was never validated: it is closed without a block and stays closed |
| AggregationWitnesses.DoubleListedLeaves | miner/block_validation.go:316-320 | So does one that lists a funds transaction by itself and inside an aggregation: it is closed under the block it came with, undone once, and exactly one transfer, its fee and its count stay |
| AggregationWitnesses.TransferredTwice | miner/state.go:318-332 | Both that block and one that lists the transaction inside two aggregations pass the checks and apply it twice: two amounts, two fees, two counts |
| AggregationWitnesses.InBothRollsBack | miner/staterollback.go:114-145 | The one with two aggregations rolls back, the transaction being found and undone twice |
| AggregationWitnesses.PaidAgainFetched | miner/state.go:458-474 | A block whose member is closed and still open is fetched with the fee of that member once more |
| AggregationWitnesses.PaidAgainLeaves | miner/state.go:458-474 | It applies, and rolling it back does not restore the state: the fee stays with the miner |
| AggregationWitnesses.CameBackLeaves | miner/staterollback.go:79-104 | A block that rolls back as it was validated does not once it was emptied and brought back: its aggregated transaction, listed by itself now, is undone twice, and the counter of the sender and the balance of the receiver wrap |
| Runs.ReplayValid | miner/block_validation.go:59-133 | Every replay of a chain is valid, and every entry of its parameter history belongs to a block of the chain |
| Runs.RollbackStep | miner/blockrollback.go:11-42 | Rolling back the tip, whatever emptied blocks that brings back, turns a state that replays the chain into one that replays the chain without it, the block stores included |
| Runs.ValidateStep | miner/block_validation.go:69-131 | Validating one more block turns a state that replays the chain into one that replays the chain with it |
| Runs.EmptyingKeepsStores | storage/update.go:7-63 | Moving a block between the buckets keeps every block of the chain in exactly one of them, as it was but for its two lists, their counters and the mark |
| Runs.ReactivationKeepsStores | miner/staterollback.go:79-104 | So does bringing an emptied block back, and the other whole blocks stay as they are |
| Runs.BringsBackExactly | miner/staterollback.go:114-145 | A rollback brings back exactly the emptied blocks in which a member of its aggregations was closed that it does not undo |
| Runs.BroughtBack | miner/staterollback.go:79-104 | A block brought back lists exactly what is closed under it, with counters of 0, and is otherwise the block it was |
| Runs.BroughtBackDiffers | miner/staterollback.go:79-104 | It is never again the block that was validated, so rolling it back is another matter |
| Runs.PostValidateKeepsStores | miner/block_validation.go:405-424 | Writing the new block and emptying any number of old ones keeps the buckets holding the chain and nothing else |
| Reorganisation.NewChainIsPath | miner/longestchain.go:76-151 | The new chain is an oldest-first path that starts at a child of a stored ancestor and ends in the new block |
| Reorganisation.WalkReaches | miner/longestchain.go:36-56 | The walk from a chain block back to an earlier one succeeds within the chain length, through emptied blocks too, and collects the blocks between, tip first |
| Reorganisation.AncestorsReachable | miner/longestchain.go:36-56 | Whatever was validated, emptied, brought back and rolled back: a stored ancestor of a new block lies on the active chain and the walk from the tip reaches it, so it never fails |
| Reorganisation.ForkChoice | miner/longestchain.go:15-72 | Chosen sequences roll back exactly the active chain above the fork point, tip first, and validate a strictly longer path from it to the new block |
| Reorganisation.RollbackAllKeeps | miner/block_validation.go:60-64 | Rolling back any number of tips, bringing back any number of emptied blocks, leaves the replay of the remaining chain, and its tip as the last block unless that is emptied |
| Reorganisation.ValidateAllKeeps | miner/block_validation.go:67-131 | Validating any number of linked blocks leaves the replay of the chain extended by them |
| Reorganisation.ValidateSomeKeeps | miner/block_validation.go:67-131 | When a block is turned away by its checks, its fetch or a failure without trace, the blocks validated before it stay and the state is the replay of the chain with them |
| Reorganisation.RejectedCallFollows | miner/block_validation.go:17-134 | A call turned away after its rollbacks leaves the replay of the shortened chain and the blocks validated by then; the last block is that tip if one was validated or the fork point is whole |
| Reorganisation.CallKeepsInv | miner/block_validation.go:17-134 | Every sound call, successful or turned away early or late, keeps the state equal to the replay of its active chain, and every block of it in one of the two buckets |
| Reorganisation.ValidateKeepsInv | miner/block_validation.go:17-134 | A successful validate, reorganisation included, ends in the replay of a strictly longer active chain whose last block is the new one |
| Reorganisation.RunsReplay | miner/block_validation.go:17-134 | After any run of calls, between which the pool and the stash may change, the accounts, root keys, parameter history, difficulty history and closed transactions equal the fold of the active chain from genesis; the chain never gets shorter unless a call is turned away after rollbacks |
| Reorganisation.NoTransactionTwice | miner/block_validation.go:552-592 | The closed transactions are exactly those of the active chain, and a transaction occurs twice on it, by itself or inside aggregations and across reorganisations, if and only if some block lists a new one twice or an aggregation again; the duplicate check compares listed hashes only |
| Reorganisation.RunsCloseOnce | miner/block_validation.go:17-134 | After any run from a genesis without transactions the closed transactions are exactly those of the active chain, each once if and only if every block of it lists them once |
| Reorganisation.GenesisHolds | miner/state.go:92-269 | The state after the genesis block satisfies the run invariant |
| Reorganisation.ExtensionIsSound | miner/longestchain.go:15-72 | A block on top of the tip with new hashes rolls nothing back and meets the hypotheses that the run results make about blocks |
| State.Store.ApplyAccTx | miner/state.go:271-315 | One account transaction through the account pointers acts as the specification step on the view of the heap |
| State.Store.AccStateChange | miner/state.go:271-315 | The loop over shared account objects ends as the ledger function says, errors keeping the changes made so far |
| State.Store.AccStateChangeRollback | miner/staterollback.go:9-29 | Same for the rollback, which visits the slice in its original order |
| State.Store.IssueAndTransfer | miner/state.go:341-400 | Root credit, four checks, undo of the root credit on error, transfer: exactly the specification step, aliases included |
| State.Store.FundsStateChange | miner/state.go:334-403 | The loop ends as the ledger function says; closed transactions are skipped |
| State.Store.FundsStateChangeRollback | miner/staterollback.go:31-49 | The reverse loop ends as the ledger function says |
| State.Store.StakeStateChange | miner/state.go:425-456 | Stake flags change as the ledger function says; the commitment key and height are outside its view |
| State.Store.StakeStateChangeRollback | miner/staterollback.go:165-174 | Flags flip back in reverse order |
| State.Store.CollectTxFees | miner/state.go:476-565 | Collection and its own compensation act as the ledger function says |
| State.Store.CollectTxFeesRollback | miner/staterollback.go:176-203 | Refunds act as the ledger function says |
| State.Store.CollectBlockReward | miner/state.go:567-582 | Reward, overflow error or nil account |
| State.Store.CollectBlockRewardRollback | miner/staterollback.go:205-208 | Takes the reward back |
| State.Store.CollectSlashReward | miner/state.go:584-608 | Reward, deduction and unstaking, or an error, through possibly equal pointers |
| State.Store.CollectSlashRewardRollback | miner/staterollback.go:210-219 | The reverse |
| State.Store.AggregatedStateRollback | miner/staterollback.go:114-145 | Groups are undone last first, fees after amounts |
| State.Store.UpdateStakingHeight | miner/state.go:611-620 | Writes only the staking height, which the view leaves out |
| State.Store.ValidateStateRollback | miner/blockrollback.go:152-160 | All rollback stages in the order of the code, stopping at a nil account |
| State.Store.ValidateState | miner/block_validation.go:228-293 | All stages with the compensation each failure gets: done, failed with the compensated ledger, or crashed, as the specification says |
| Transactions.SortedByTxCount | miner/state.go:318-332 | The aggregated transactions in order of their counters, a permutation of the input |
| Miner.Miner.CheckAndChangeParameters | miner/state.go:16-82 | The switch over config ids with its bounds, unstaking included, acts as the specification |
| Miner.Miner.UnstakeBelow | miner/state.go:51-56 | The walk over the accounts unstakes exactly those below the new minimum, in whatever order the map is visited |
| Miner.Miner.ConfigStateChange | miner/state.go:407-423 | Appends a parameter set only when something changed |
| Miner.Miner.ConfigStateChangeRollback | miner/staterollback.go:147-163 | Pops it, or panics where the slice would become empty |
| Miner.Miner.CollectStatistics | miner/blockchainparam.go:69-93 | Counters, targets and times as specified; the last block is set |
| Miner.Miner.CollectStatisticsRollback | miner/blockchainparam.go:95-110 | The reverse, with the panics of the code |
| Miner.Miner.GetNewChain | miner/longestchain.go:76-151 | The search through closed blocks, stash and network builds what the specification says, reversed in place |
| Miner.Miner.GetBlockSequences | miner/longestchain.go:15-72 | Ancestor, walk back and length comparison |
| Miner.Miner.PreValidateRollback | miner/blockrollback.go:44-150 | Reads the block transactions back, or tells which read failed |
| Miner.Miner.ReopenTxs | miner/blockrollback.go:162-182 | Every listed transaction is open again and no longer closed |
| Miner.Miner.ReadGroups | miner/staterollback.go:114-145 | The funds transactions of each aggregation that are closed under the block, by counter |
| Miner.Miner.UnmarkClosed | miner/staterollback.go:55-71 | The other members are unmarked, last aggregation first |
| Miner.Miner.ReactivateBlock | miner/staterollback.go:79-104 | The emptied block moves back, the transactions closed under it appended to its lists |
| Miner.Miner.ReactivateHistoric | miner/staterollback.go:114-145 | One after the other for the members that are not undone, last aggregation first |
| Miner.Miner.ReopenAggs | miner/blockrollback.go:184-206 | Members closed under the block and the aggregations themselves are open again and no longer closed |
| Miner.Miner.RollbackState | miner/blockrollback.go:152-160 | Parameters first, then the ledger under the parameters before the block, aggregated groups included |
| Miner.Miner.Rollback | miner/blockrollback.go:11-42 | The whole rollback of one block, stores and stash included |
| Miner.Miner.FetchOneAgg | miner/block_aggregatetx.go:271-336 | A closed aggregation passes if it is marked; an open one is taken, another asked for |
| Miner.Miner.FetchAggTxData | miner/block_aggregatetx.go:265-452 | The aggregations of a block and their members that are not closed |
| Miner.Miner.FetchTransactions | miner/block_validation.go:69-95 | Fetched transactions, rejected when closed, missing, or of a wrong hash; the new aggregated ones sorted for the state change, the open ones taken for the fees |
| Miner.Miner.CloseTxs | miner/block_validation.go:309-331 | Every listed transaction is closed and no longer open |
| Miner.Miner.CloseAggregations | miner/block_validation.go:347-391 | Members are marked or recorded, aggregations closed, all of them no longer open |
| Miner.Miner.EmptyOldBlocks | miner/block_validation.go:406-418 | Old blocks move to the other bucket when ready, in any order of visits |
| Miner.Miner.ValidateNoDuplicateTx | miner/block_validation.go:552-592 | True exactly when no hash occurs twice among all lists of the block |
| Miner.Miner.ValidateBlock | miner/block_validation.go:69-131 | One block: checks, fetch, state change, post-validation |
| Miner.Miner.Validate | miner/block_validation.go:17-134 | The driver: fork choice, rollbacks, validations, as the specification of a call |
| Miner.ReversedAt | miner/utils.go:8-13 | Reversal puts element i at the mirrored place and keeps the length |
| Miner.InvertBlockArray | miner/utils.go:8-13 | Swapping in place reverses the array |
| Supply.MovedTotal | miner/state.go:334-608 | Moves among existing accounts change the sum of all balances, modulo 2^64, by their sum, whatever accounts coincide |
| Supply.BlockAmounts | miner/state.go:334-608 | Transfers and charged fees cancel: what remains of all moves of a block is what it issues |
| Supply.SupplyEquation | miner/block_validation.go:228-293 | A validated block changes the sum of all balances, modulo 2^64, by root-sent amounts and fees, account and config fees, block reward and slash reward less staking minimum, and nothing else |
| Supply.ReplaySupply | miner/block_validation.go:17-134 | The supply after a chain is the genesis supply plus what its blocks issued under the root keys and parameters then in force |
| Supply.NodeSupply | miner/block_validation.go:17-134 | So is the supply of a node between any two blocks of any run |
| Solvency.AcceptedIffCovered | miner/state.go:341-394 | With wrapping words the code accepts exactly the transactions that are covered in unbounded arithmetic on the ledger before them: sender, staking minimum, receiver and root ceiling, counter; root credit and self-transfers included |
| Solvency.AdmittedAreTracked | miner/block_fundstx.go:13-119 | Whatever is offered to a fresh block, root and staking senders and transfers to oneself included: while the validator accepts the admitted transactions, its balances are the copy's plus the pending fees and what roots were issued, modulo 2^64, and its counters and staking flags those of the preparation |
| Solvency.AdmittedAcceptedIff | miner/block_fundstx.go:13-119 | After any such prefix, root transactions included, the next admitted transaction is accepted exactly when what its sender then holds covers amount, fee and, while staking, the least stake, and nobody passes the ceiling |
| Solvency.PreparedAcceptedIff | miner/block_fundstx.go:13-119 | So a whole prepared block passes the validator's funds stage exactly when each of its transactions was covered when it was admitted |
| Solvency.AcceptedSettles | miner/state.go:396-400 | An accepted transaction moves exact amounts and keeps every balance within MAX_MONEY |
| Solvency.FundsStageIsExact | miner/state.go:334-403 | A completed funds stage keeps every balance within MAX_MONEY and changes the supply, as an integer, by what root senders were issued |
| Solvency.FeesExactIffCovered | miner/state.go:511-529 | A sender other than the miner ends with its balance less its fees if and only if the balance covers all of them |
| Solvency.StartersCovered | miner/state.go:425-456 | Whoever enters the validator set in a completed stake stage holds the staking minimum |
| Producer.Preparation.AddFundsTx | miner/block_fundstx.go:13-119 | Copies on first use, checks, and updates the copy and the pools as the specification says, with the nil dereferences of the code |
| Producer.TransferKeepsTotal | miner/state.go:397-400 | A transfer that does not wrap keeps the exact total |
| Producer.SpendAccepted | miner/state.go:334-403 | A transaction that passes the checks on the copy passes those on the state, where pending fees are not yet taken: the supply bounds the receiver |
| Producer.AdmittedIsAccepted | miner/block_fundstx.go:13-119 | Whatever is offered to a fresh block, the admitted transactions are accepted by the validator in their order; its balances are the copy's plus the sender's pending fees, counters equal |
| Producer.FeesNeverWrap | miner/state.go:511-529 | After every prefix of the fee collection each balance is the exact integer expected: nothing underflows or overflows |
| Producer.FeesSettle | miner/state.go:511-529 | Collecting the fees succeeds and leaves exactly the producer's copy, the miner having all fees on top |
| Producer.ProducerSimulation | miner/block_fundstx.go:13-119 | The two together, for ordinary transactions and a supply within MAX_MONEY |
| NumberTheory.Fermat | crypto/chameleon_hash.go:142-154 | Fermat's little theorem, which gives the squared generator its order |
| NumberTheory.Euclid | crypto/chameleon_hash.go:142-154 | A prime that divides a product with a smaller positive factor divides the other factor |
| NumberTheory.PowModOrder | crypto/chameleon_hash.go:200-203 | Exponents matter only modulo the order of the base |
| Encoding.HexRoundTrip | crypto/chameleon_hash.go:164-168 | Numbers written in hexadecimal parse back |
| Encoding.ValueOfBigEndian | crypto/chameleon_hash.go:208 | Bytes of a number read back as the number |
| Encoding.BigEndianOfValue | crypto/chameleon_hash.go:253 | Bytes without a leading zero are the bytes of their number |
| ChameleonHash.SquareHasOrderQ | crypto/chameleon_hash.go:146-154 | g = x^2 satisfies g^q = 1 modulo p for q = (p - 1) / 2, p an odd prime and x a unit |
| ChameleonHash.Trapdoor | crypto/chameleon_hash.go:266-270 | hk^e * g^s = g^k modulo p for the s the trapdoor computes |
| ChameleonHash.TrapdoorAt | crypto/chameleon_hash.go:200-203 | With another exponent of hk than the one s was computed for, the product is g^(k + tk * (difference)) modulo p |
| ChameleonHash.HashOfOther | crypto/chameleon_hash.go:217-276 | The number hashed when a check string made for one message meets another: the old hash, plus g^k, less the power of g moved by the difference of the two exponents, modulo q |
| ChameleonHash.CollisionHash | crypto/chameleon_hash.go:217-276 | The number hashed under a generated check string is the old hash, read as a number, modulo q, for every new message and every k |
| ChameleonHash.CollisionIffStable | crypto/chameleon_hash.go:213-276 | The promised collision holds for every new message and k if and only if the old hash survives being read as a number, reduced modulo q and copied back |
| ChameleonHash.FullHashIsStable | crypto/chameleon_hash.go:207-208 | It survives whenever the hash number fills the 32 bytes |
| ChameleonHash.SmallHashIsStable | crypto/chameleon_hash.go:207-208 | and whenever the hash reads as a number below q |
| ChameleonHash.FullNumberStable | crypto/chameleon_hash.go:207-253 | A hash whose remainder modulo q fills 32 bytes survives if and only if it reads as a number below q |
| ChameleonHash.MovedHash | crypto/chameleon_hash.go:207-253 | When the moved number is copied back to the old hash: a stable hash is, if both powers agree modulo q, and for a hash that does not end in a zero byte that is necessary |
| ChameleonHash.ChainKeepsHash | crypto/chameleon_hash.go:213-276 | Any chain of updates of a message with a stable hash keeps the hash |
| ChameleonHash.ShortHashIsMissed | crypto/chameleon_hash.go:207-208 | For every 256-bit prime, every unit x and every digest: with the draw tk = 0 a check string exists whose 31-byte hash number every generated check string misses, for all messages and k |
| ChameleonHash.ZeroGeneratorMisses | crypto/chameleon_hash.go:149-154 | With x = 0 and any prime above 4, tk above 0 and k = 0, a stable hash is missed by every message whose digest is not 0, so the generator must be a unit |
| TxUpdate.Storage.WriteOpenTx | storage/write.go:53-69 | The pool entry and, for funds transactions, one more hash in the list of its counter |
| TxUpdate.Storage.UpdateLocalTx | miner/block_updatetx.go:56-96 | Finds the transaction open or closed, rewrites it in place and stores it under the hash it then has; nothing else changes |
| TxUpdate.MessageCommits | protocol/updatetx.go:45-66 | Two transactions of a kind with equal messages agree in the fields the kind commits to, or two different contents have one digest |
| TxUpdate.RenewKeepsHash | miner/block_updatetx.go:67-78 | For every kind of transaction: a collision check string keeps the hash if and only if the old hash, moved by the powers of g with the exponents made and met, is copied to itself; for account and funds transactions if and only if the hash is stable |
| TxUpdate.UpdateTxKeepsHash | protocol/updatetx.go:45-66 | A stable hash of an update transaction, which commits to its own check string, is kept if both exponents raise g to the same number modulo q, in particular if they are equal; if the hash does not end in a zero byte, exactly then |
| TxUpdate.PlainKeepsHash | protocol/configtx.go:97-122 | Config, stake and aggregated transactions keep their hash whatever is written |
| TxUpdate.OpenUpdate | miner/block_updatetx.go:66-71 | For every kind: the pool stays keyed by hash if and only if the hash is kept, and then only that entry changed |
| TxUpdate.ClosedUpdate | miner/block_updatetx.go:73-78 | For every kind: the old key of a closed transaction shows the new data if the hash is kept and the old data otherwise |
| TxUpdate.BlockKeepsHashes | miner/block_updatetx.go:28-53 | For updates of any kinds in any number: after each of them the list of the block's hashes is what it was, and with it the Merkle root, if and only if every update keeps the hash it rewrites |
| TxUpdate.StableUpdatesKept | miner/block_updatetx.go:28-53 | It is, whenever only account and funds transactions with stable hashes are updated |
| TxUpdate.UpdateTxLosesHash | protocol/updatetx.go:45-66 | For every prime above 8, keys with x = 2, the draw k = 0 and any digests whose exponents differ by the inverse of tk modulo q: a stable hash is lost, the new number being 3 less |
| TxUpdate.LossHappens | protocol/updatetx.go:45-66 | Such a loss exists for every 256-bit prime and all new data, with 32-byte digests that tell the committed check string from another |
| Merkle.EvenLevels | protocol/merkletree.go:143-169 | Every level of even length at least 4 is followed by a shorter one of even length at least 2, so the recursion ends |
| Merkle.NoLeafNoEnd | protocol/merkletree.go:143-169 | Without a nonzero hash every level is the empty one again |
| Merkle.SameRootCollides | protocol/merkletree.go:143-169 | Two different leaf lists of one length with equal roots exhibit a SHA3 collision among the pairs hashed for them |
| Merkle.RootDeterminesLeaves | protocol/merkletree.go:120-169 | Where those pairs do not collide, lists with equally many nonzero hashes have equal roots if and only if their nonzero hashes agree in order |
| Merkle.RepeatedLastKeepsRoot | protocol/merkletree.go:133-136 | Equal counts are needed: repeating the last of an odd number of hashes keeps the root |
| Merkle.LargestPower | protocol/merkletree.go:144-148 | The loop ends at the largest power of two |
| Merkle.Join | protocol/merkletree.go:149-158 | Giving two neighbours a parent keeps the forest linked upwards, its hashes correct and its leaves in order |
| Merkle.PairFirst | protocol/merkletree.go:149-162 | The loop pairs up exactly the power-of-two prefix |
| Merkle.BuildIntermediate | protocol/merkletree.go:143-169 | Ends with a root whose hash is the recursive root of the list, whose leaves are the list in order, and to which every other node is linked by its parent pointer |
| Merkle.BuildWithContent | protocol/merkletree.go:120-139 | The same for the nonzero hashes, the last leaf shared when their number is odd; an error for the empty list |
| Merkle.VerifyNode | protocol/merkletree.go:32-40 | The hash recomputed from the leaves is the stored one |
| Merkle.MerkleTree.VerifyTree | protocol/merkletree.go:191-197 | Every built tree verifies |
| Merkle.MerkleTree.GetLeaf | protocol/merkletree.go:199-206 | A leaf with the hash, or none exactly when no leaf has it |
| Merkle.MerkleTree.GetIntermediate | protocol/merkletree.go:211-230 | Never an error: sibling and parent pairs that hash correctly step by step from the leaf up to the root |
| Merkle.NewTree | protocol/merkletree.go:104-115 | A valid tree over exactly the nonzero hashes, with the list's root |
| Merkle.MerkleRoot | protocol/merkletree.go:42-90 | The root of all hashes of a block in the fixed order of its lists, zero for none |
| VmBytes.UInt16RoundTrip | vm/utils.go:19-34 | Sizes written in two bytes read back |
| VmBytes.ElementsAt | vm/map.go:184-216 | At the offset of element i lie its size, its bytes and the next element |
| VmBytes.ElementsInjective | vm/map.go:184-216 | The bytes determine the elements |
| VmArray.RepresentsOne | vm/array.go:10-25 | An array's bytes represent one sequence only |
| VmArray.Array.GoToIndex | vm/array.go:123-154 | Ends, with 16-bit offsets that never wrap, at exactly the element asked for, or fails exactly when there is none |
| VmArray.Array.At | vm/array.go:69-75 | Element i for i below the size, an error otherwise |
| VmArray.Array.Append | vm/array.go:94-105 | The element at the end and the header one higher; an error exactly for more than 65535 bytes |
| VmArray.AppendedEncodes | vm/array.go:94-105 | which is the encoding of the sequence with the element appended |
| VmArray.Array.Remove | vm/array.go:107-121 | Element i is gone, the header corrected, or nothing changed and an error exactly when there is no element i |
| VmArray.Array.Insert | vm/array.go:77-92 | Replaces element i when another follows; for the last index the element is lost and an error returned; an oversized element is dropped without error |
| VmArray.TooLongForOffsets | vm/array.go:139-140 | Concrete array of 65536 bytes whose 16-bit length is 0 |
| VmMap.RepresentsOne | vm/map.go:11-23 | A map's bytes represent one list of entries only |
| VmMap.Map.MapContainsKey | vm/map.go:61-89 | Ends, and tells exactly whether some entry has the key |
| VmMap.Map.GetVal | vm/map.go:116-146 | The value of the first entry with the key, or an error exactly when there is none |
| VmMap.Map.Append | vm/map.go:91-105 | The entry at the end, duplicates allowed; the 16-bit header wraps at 65536 entries |
| VmMap.Map.Remove | vm/map.go:148-182 | Exactly the first entry with the key is cut out and the header corrected |
| VmMap.Map.SetVal | vm/map.go:107-114 | Remove, then append even when nothing was removed, then the error; an oversized value only removes |
| VmMap.LookupIsMap | vm/map.go:116-146 | First-match lookup is lookup in a finite map |
| VmMap.RemoveIsMap | vm/map.go:148-182 | With distinct keys Remove is map removal and keeps keys distinct |
| VmMap.SetIsMap | vm/map.go:107-114 | With distinct keys SetVal is map update and keeps keys distinct |
| VmMap.AppendIsMap | vm/map.go:91-105 | Append of a present key is invisible to lookup, of a new key a map update |
| VmMap.SetThenGet | vm/map.go:107-146 | The value set is read back if and only if no second entry of the key was hidden behind the first, or it held that value |
| VmStack.Stack.Push | vm/stack.go:26-34 | Succeeds exactly when the sizes fit the limit; the meter stays the exact sum of sizes |
| VmStack.Stack.Pop | vm/stack.go:47-56 | The top, metered |
| VmStack.Stack.PopIndexAt | vm/stack.go:36-45 | The element at an index, the others in order, metered |
| VmStack.HugeElementEscapes | vm/stack.go:68-70 | Why sizes must be bounded: 2^32 bytes pass the check and leave the meter unchanged |
| VmStack.SignedRoundTrip | vm/utils.go:66-106 | Signed numbers written as bytes read back |
| VmSemantics.AffordableExactly | vm/vm.go:1130-1135 | The signed comparison refuses a pop exactly when it cannot be paid or would leave 2^63 or more |
| VmExec.VM.FetchMany | vm/vm.go:1102-1110 | Arguments are read only when the code goes on after them |
| VmExec.VM.PopBytes | vm/vm.go:1122-1138 | The top element is gone either way; it is returned exactly if it can be paid for, and then the gas falls by exactly its cost |
| VmExec.VM.PopSignedBigInt | vm/vm.go:1140-1157 | Succeeds exactly if the top is there, paid for and a well-formed number; panics exactly on a paid empty element |
| VmExec.VM.Push | vm/vm.go:166-180 | Ends as PushTurn says, whose meaning PushThenPop states |
| VmExec.VM.Dup | vm/vm.go:182-201 | Ends as DupTurn says, whose meaning DupThenPop and DupThenEq state |
| VmExec.VM.Roll | vm/vm.go:203-230 | Ends as RollTurn says, whose meaning Rolled states; the index is always in range |
| VmExec.VM.Arithmetic | vm/vm.go:238-326 | Ends as ArithmeticTurn says: goes on, fails or panics in the same cases with the same state; ArithmeticGoesOn states what that means |
| VmExec.VM.Neg | vm/vm.go:328-338 | Ends as NegTurn says; NegatedTwice states what that means |
| VmExec.VM.Equality | vm/vm.go:340-358 | Ends as EqualityTurn says; EqualityGoesOn states what that means |
| VmExec.VM.Comparison | vm/vm.go:360-398 | Ends as ComparisonTurn says; ComparisonGoesOn states what that means |
| VmExec.VM.Shift | vm/vm.go:400-430 | Ends as ShiftTurn says; Shifted states what that means |
| VmExec.VM.Jmp | vm/vm.go:440-450 | Ends as JmpTurn says; Jumped states the target |
| VmExec.VM.JmpIf | vm/vm.go:452-461 | Ends as JmpIfTurn says; JmpIfIsPopAndJmp states what that means |
| VmExec.VM.LoadArguments | vm/vm.go:481-487 | Succeeds exactly if all arguments are there and paid for one by one; the frame then holds them in stack order |
| VmExec.VM.Enter | vm/vm.go:474-490 | A frame that returns behind the call and a jump within the code, or a failure, as EnterTurn says; CallThenRet and CallThenLoad state what that means |
| VmExec.VM.Ret | vm/vm.go:535-543 | Ends as RetTurn says |
| VmExec.VM.SStore | vm/vm.go:560-571 | Ends as SStoreTurn says, and writes no contract variable unless it goes on; SStoreThenSLoad states what that means |
| VmExec.VM.Store | vm/vm.go:573-588 | Ends as StoreTurn says; StoreThenLoad states what that means |
| VmExec.VM.SLoad | vm/vm.go:590-606 | Ends as SLoadTurn says |
| VmExec.VM.Load | vm/vm.go:608-623 | Ends as LoadTurn says |
| VmExec.VM.Library | vm/vm.go:694-1081 | Map, array, hash and signature opcodes pop their operands in order, asking the library after each, and push what it answers: goes on exactly if every operand is there and paid for and every answer is one, panics exactly if the library does before anything else fails |
| VmLibrary.MapResultsAreBounded | vm/map.go:91-182 | Every result of a map operation on a map is within the bound the interpreter asks of the library |
| VmLibrary.ArrayResultsAreBounded | vm/array.go:69-121 | So is every result of an array operation |
| VmLibrary.MapOpcode | vm/vm.go:703-864 | What each map opcode pushes for an encoded map: the outcome of the map operations on its list of entries |
| VmLibrary.ArrayOpcode | vm/vm.go:870-1031 | What each array opcode pushes for an encoded array, with its index and size checks |
| VmLibrary.ModelledLibraryIsBounded | vm/vm.go:694-1081 | An interpreter whose library is these operations meets the size bound, provided that what is not modelled, malformed operands, digests and signatures, does |
| VmExec.VM.Execute | vm/vm.go:163-1088 | Every opcode ends as Instruction says of it, in status and, when it goes on, in stack, position, gas, frames and variables; it keeps the meter exact, the gas from growing and the code unchanged |
| VmExec.VM.Step | vm/vm.go:136-162 | One turn of the loop ends as the specified turn: fetch, decode, pay, execute |
| VmExec.VM.Exec | vm/vm.go:125-1090 | Every run ends after at most fee + 1 turns, for every fee, with the outcome and, after HALT, the state that the specified turns lead to one after the other; gas never grows or wraps and the memory meter stays exact and within its limit |
| Lottery.LeadingZerosExact | miner/proofofstake.go:65-76 | The byte loop and the bit test accept exactly numbers below 2^(8 n - diff) |
| Lottery.LotteryIsExact | miner/proofofstake.go:58-76 | For diff up to 64 a draw wins if and only if the first eight hash bytes H satisfy H < balance * 2^(64 - diff) |
| Lottery.WinningShare | miner/proofofstake.go:58-76 | For min(2^64, balance * 2^(64 - diff)) values of the first eight bytes every digest that starts with them wins, for the others none |
| Lottery.LotteryIsMonotone | miner/proofofstake.go:58-76 | A richer stake or lower difficulty wins with every digest a poorer or harder draw wins with |
| Lottery.StartsWithZeros | miner/proofofstake.go:65-76 | The loop over bytes and the bit test compute the leading-zeros test |
| Lottery.FillBuffer | miner/proofofstake.go:35-51 | The buffer holds proofs, commitment proof and height in order |
| Lottery.ValidateProofOfStake | miner/proofofstake.go:19-77 | Accepts exactly the winning draws of the digest of the concatenated inputs |
| Lottery.ProofOfStake | miner/proofofstake.go:81-190 | What the miner returns, reusing one buffer, wins for the validator on the same inputs |
| Lottery.MinedIsFirstWinner | miner/proofofstake.go:124-189 | It is the clock of the first winning tick before the limit, and no other block arrived up to then |
| Aggregation.AggregateTransactions | miner/block_aggregatetx.go:13-134 | One round becomes an aggregation with its sum modulo 2^64 and shortened address lists, a direct entry for a single hash, or an error |
| Aggregation.GetMaxKeyAndValueFromMap | miner/utils.go:15-26 | A key of maximal count in whatever order the map is visited, none for a map of zeros |
| Aggregation.SplitIsPartition | miner/block_aggregatetx.go:173-193 | Taken and remaining transactions partition the list |
| Aggregation.Split | miner/block_aggregatetx.go:173-195 | The in-place compaction keeps the remaining transactions in order |
| Aggregation.Preparation.NextRound | miner/block_aggregatetx.go:164-209 | With exact counters every round takes everything of one sender or one receiver, in order, at least one transaction, and no other address would have given more |
| Aggregation.Preparation.SplitSortedAggregatableTransactions | miner/block_aggregatetx.go:155-225 | Ends after at most one round per transaction and one more; the groups partition the transactions and each shares a sender or a receiver |
| Aggregation.EveryHashListedOnce | miner/block_aggregatetx.go:97-131 | Every hash ends up in the block directly or inside exactly one aggregation, as often as it was given |
| Aggregation.AggregationsMatchRounds | miner/block_aggregatetx.go:97-111 | Every new aggregation lists one group before its historic hashes, carries its sum modulo 2^64 and no fee, and names its senders and receivers in order, or the one address when they are all the same |
| Aggregation.AmountsAdd | miner/block_aggregatetx.go:24-38 | Amounts add up over groups |
| Aggregation.ChosenCount | miner/block_aggregatetx.go:173-193 | A round takes as many transactions as its address occurs |
| VmLaws.AffordExactly | vm/vm.go:1122-1138 | With gas below 2^63 elements can be popped exactly when it covers them together, and that much is taken |
| VmLaws.ArithmeticGoesOn | vm/vm.go:238-326 | ADD, SUB, MULT, DIV and MOD go on exactly if both operands are there, paid for and well formed, the divisor is not 0 and the result fits; then the number read back off the top is left + right, the number that right adds up to left, left * right, the Euclidean quotient or the remainder, and everything below is untouched |
| VmLaws.ResultIsOne | vm/vm.go:238-326 | There is only one such number |
| VmLaws.ArithmeticUndone | vm/vm.go:238-326 | SUB undoes ADD; quotient times divisor plus remainder is the dividend |
| VmLaws.EmptyPanics | vm/vm.go:1140-1157 | With gas below 2^63 popping k numbers panics exactly when one of the top k elements is empty |
| VmLaws.ComparisonGoesOn | vm/vm.go:360-398 | LT, GT, LTE and GTE go on exactly if both operands are there, paid for and well formed, and leave a 1 or a 0 by the sign of the difference, dropped exactly when it does not fit |
| VmLaws.EqualityGoesOn | vm/vm.go:340-358 | EQ and NEQ go on exactly if both elements are there and paid for, and leave a 1 exactly for equal, or different, unsigned values |
| VmLaws.NegatedTwice | vm/vm.go:328-338 | NEG leaves the opposite number; twice, the number itself |
| VmLaws.Shifted | vm/vm.go:400-430 | SHIFTL leaves the product with the power of two, SHIFTR the largest number whose product is not above |
| VmLaws.PushThenPop | vm/vm.go:166-180 | PUSH pushes exactly the bytes of the code between its count and the next instruction, one more than the count says; POP takes them off again |
| VmLaws.DupThenPop | vm/vm.go:182-201 | DUP doubles the top; POP gives the stack back |
| VmLaws.DupThenEq | vm/vm.go:182-201 | EQ finds the two equal |
| VmLaws.Rolled | vm/vm.go:203-230 | ROLL with argument k goes on exactly above k elements and lifts the one under k + 1 others to the top, if there is one; nothing is lost and the others keep their order |
| VmLaws.SizeLeft | vm/vm.go:545-558 | SIZE leaves the number of bytes of the top in eight bytes |
| VmLaws.Jumped | vm/vm.go:440-450 | JMP goes to the big-endian address behind it, or fails when that ends the code |
| VmLaws.JmpIfIsPopAndJmp | vm/vm.go:452-461 | JMPIF is POP and then JMP or the next instruction, by the first byte; a panic on an empty element |
| VmLaws.CallIfIsPopAndCall | vm/vm.go:492-521 | CALLIF is POP and then CALL or the next instruction |
| VmLaws.CallThenRet | vm/vm.go:463-543 | RET comes back behind the call, the frames as they were and the arguments gone |
| VmLaws.CallThenLoad | vm/vm.go:463-490 | Argument i of a call is its variable i, the last pushed under the highest address; every other one is 0 |
| VmLaws.StoreThenLoad | vm/vm.go:573-623 | LOAD reads what STORE wrote at the address; every other address, frame and contract variable is as it was |
| VmLaws.SStoreThenSLoad | vm/vm.go:560-606 | SLOAD reads what SSTORE wrote; every other contract variable is as it was |
| VmLaws.ContextPushed | vm/vm.go:625-672 | The five context opcodes push what the transaction and its accounts say |
| VmLaws.CallExtSkips | vm/vm.go:523-534 | CALLEXT skips its 37 bytes of arguments like as many NOPs and does nothing else |
| VmLaws.CostPerBlock | vm/vm.go:1122-1138 | Popping costs the factor for every block of 64 bytes, the last of which may be shorter |
| VmLaws.ParametersOfData | vm/vm.go:674-692 | The parameters read from transaction data, each behind a byte one less than its length, are the data again |
| VmLaws.CallDataPushes | vm/vm.go:674-692 | CALLDATA pushes exactly the parameters that the data frames, in their order, or fails when they do not fit |
| Acceptance.AccsAcceptedIff | miner/state.go:271-316 | The account stage never crashes and completes exactly if header 2 names accounts that are there, held before or created earlier in the slice, and every other header accounts that are not; then the new accounts are there, empty, with their profiles, and the root keys gain the header-1 and lose the header-2 accounts |
| Acceptance.AccsRefusedAt | miner/state.go:271-316 | Refused, it keeps what the transactions before the first that does not fit added |
| Acceptance.FundsAcceptedIff | miner/state.go:334-403 | On a ledger within MAX_MONEY the funds stage completes exactly if every transaction finds its accounts and is covered, in unbounded arithmetic, by the balances that the transactions before it left; then every balance is the exact sum |
| Acceptance.FundsRefused | miner/state.go:334-403 | A transaction that is not applied leaves the ledger alone, a closed one is skipped, and the step crashes exactly on a missing account |
| Acceptance.SetupAcceptedIff | miner/state.go:334-403 | In the initial setup only the ceiling of a root sender and the least stake of a staking one are checked |
| Acceptance.StakeAcceptedIff | miner/state.go:425-456 | A stake transaction crashes exactly on a missing account; it is accepted exactly if the flag differs, the balance covers the fee, and a starter covers fee and minimum, and sets the flag alone; refused, it leaves the ledger alone; in the initial setup only the flag counts |
| Acceptance.MayStakeExactly | miner/state.go:425-456 | In unbounded arithmetic where fee and minimum fit 64 bits; where their sum wraps, the minimum is not checked |
| Acceptance.StakesAcceptedIff | miner/state.go:425-456 | The stake stage completes exactly if every transaction finds its account, the flag that the ones before it left differs, and the balance covers it; each account then stakes as its last transaction says |
| Acceptance.FeesAcceptedIff | miner/state.go:476-565 | Fee collection completes exactly if the miner and all payers are there and no minted fee lifts the miner, with what it has collected by then, over MAX_MONEY modulo 2^64; refused, it leaves the ledger alone |
| Acceptance.RewardAcceptedIff | miner/state.go:567-582 | The block reward is refused exactly if it lifts the miner over MAX_MONEY outside the initial setup, and crashes exactly without a miner account outside it |
| Acceptance.RewardFitsExactly | miner/state.go:567-582 | Modulo 2^64: a sum that leaves the word passes |
| Acceptance.SlashAcceptedIff | miner/state.go:584-608 | Without a proof nothing happens; with one, beneficiary and slashed account must be there and the reward must fit, and nothing asks for the minimum that the slashed account loses |
| Acceptance.BlockAcceptedIff | miner/block_validation.go:228-293 | validateState completes exactly if the account transactions fit and, on the ledger with the new accounts, every funds transaction is covered, every stake transaction and fee fits the balances moved so far, and both rewards fit |
| Acceptance.LateExactly | miner/block_validation.go:247-259 | A failure comes after the aggregated funds stage exactly if the account transactions fit and every funds transaction is covered |
| EarlyFailures.FundsStopped | miner/state.go:334-403 | The first transaction that is not covered stops the funds stage after the ones before it |
| EarlyFailures.StakesStopped | miner/state.go:425-456 | The same for stake transactions |
| EarlyFailures.EarlyFailureResidue | miner/block_validation.go:236-252 | A block refused in its funds, aggregated funds or stake stage leaves behind the transactions of that stage before the first that does not fit, and after the stake stage all aggregated ones: the compensation does not undo the failed stage |
| Difficulties.RunTargets | miner/blockchainparam.go:69-93 | Over any run of blocks from a valid start the target and time histories grow by one exactly where an interval ends, the k-th span runs from the timestamp of the end before to that of this one, each target is the difficulty of the span and the target before, or that target where the span starts at 0, and the counters count the blocks and those since the last end |
| Difficulties.OnlyFirstIsCopied | miner/blockchainparam.go:73-80 | From a start at 0 with nonzero timestamps only the first target is a copy |
| Difficulties.EveryInterval | miner/blockchainparam.go:69-93 | While the interval stays d, every d-th block ends one |
| Difficulties.NodeTargets | miner/blockchainparam.go:69-110 | So it is for a node between two blocks of any run, whatever was rolled back before |
| TargetFormula.NearestLogarithm | miner/blockchainparam.go:112-148 | The change of the target is the whole number nearest to the binary logarithm of wanted over actual time, half-way cases away from 0, cut off at 3 either way |
| TargetFormula.NewTargetIs | miner/blockchainparam.go:112-150 | The new target is the old one plus the whole number nearest to the binary logarithm of wanted over actual time, modulo 256; 3 more where no time passed, the same where it went backwards, 3 less where no time was wanted |
| TargetFormula.FasterIsHarder | miner/blockchainparam.go:112-148 | On time the target stays, and the shorter the span, the higher the target |
| TargetFormula.OneBit | miner/blockchainparam.go:128-130 | Twice as fast adds one bit, half as fast takes one off |
| TargetFormula.StepsAreSmall | miner/blockchainparam.go:121-148 | One interval moves the target by at most three around the 8-bit word, and a span that ends before it starts keeps it where some time is wanted |
| OpenPool.RollbackReopens | miner/blockrollback.go:162-206 | Under every hash: what the rolled back block lists was closed and is open as it was closed, whatever else left the closed transactions is open under its hash but for its mark, and nothing else in the pool changes |
| OpenPool.RollbackTakesOut | miner/blockrollback.go:162-206 | Exactly the listed transactions and aggregations and the members closed under the block leave the closed transactions |
| OpenPool.ValidationCloses | miner/block_validation.go:309-391 | After a validation everything the block lists and every member of its aggregations is closed and no longer open, and every other transaction is open or closed as it was |
| OpenPool.ClosedValues | miner/block_validation.go:347-391 | How each is closed: an aggregation is given the block, a member is marked, a new funds member is given the block as well, and the rest is as fetched |
| OpenPool.RollbackLosesNothing | miner/blockrollback.go:162-206 | No open or closed transaction becomes unknown by a rollback |
| OpenPool.CallLosesNothing | miner/block_validation.go:17-134 | Nor by any call of validate |
| Decisions.StashFinds | miner/longestchain.go:110-116 | A block is found in the stash exactly if one with the hash is there, and then the first |
| Decisions.StashWritten | storage/write.go:87-99 | Writing keeps a known block, else appends; only a full stash of 100 gives up a block, the oldest, and no hash occurs twice |
| Decisions.SearchFinds | miner/longestchain.go:76-151 | The search back finds every line of blocks that the network serves from a closed parent on |
| Decisions.StashComesFirst | miner/longestchain.go:106-121 | What the network says about blocks of the stash does not matter |
| Decisions.LongerChainWins | miner/longestchain.go:15-72 | Between two calls the node switches to a served line exactly if it is longer than the active chain above the fork, and then rolls back that part, tip first, and validates the line |
| Decisions.FetchedExactly | miner/block_fundstx.go:126-188 | A list is fetched exactly if no entry is closed and each is open with the right kind or served under its own hash; what comes back is the pool's transaction, or the network's |
| Decisions.AggsFetchedExactly | miner/block_aggregatetx.go:265-452 | Aggregations are fetched exactly if each is closed and marked, open or served, and so for every member that is not closed |
| Decisions.BlockFetchedExactly | miner/fetch_transactions.go:10-53 | So for a block, whose two counters must be right |
| Decisions.AcceptedExactly | miner/block_validation.go:137-293 | A block on the tip is accepted exactly if its beneficiary is a staking account, no hash occurs twice in its five lists, the remaining checks pass, everything it lists can be fetched and the state change completes |
| Decisions.RolledBackPointers | miner/blockrollback.go:162-226 | After a rollback the last block is the parent, if that is held whole or was brought back, and none if it is emptied; the block is in the stash |
| Decisions.EmptiedExactly | miner/block_validation.go:406-418 | Exactly the visited blocks that are not emptied yet, above genesis, more than 100 below the new one and ready move to the bucket of emptied blocks |
| Decisions.EmptiedHolds | storage/update.go:7-60 | There they are marked and without funds transactions and aggregations, or with their lists if they counted none |
| Decisions.FailedLeaves | miner/block_validation.go:228-293 | What a failed state change leaves: pools, parameters, statistics and pointers as they were; after a late failure the closed members of its aggregations unmarked and the emptied blocks that closed them brought back |
| SystemParameters.ConfiguredParameters | miner/state.go:16-82 | A slice of config transactions sets each parameter to the last payload of its own id within its literal bounds, and nothing else |
| Producer.OfferedOutcome | miner/block_fundstx.go:13-119 | An offered transaction is admitted exactly if both accounts are known, a sender that is no root covers amount and fee, its counter is the sender's and the receiver stays within MAX_MONEY or wraps; a used counter is passed over, everything else goes to the invalid pool, and what is known of accounts changes by the transfer alone |
| Lottery.HashedLayout | miner/proofofstake.go:30-53 | The hashed bytes hold the proofs in order, the commitment proof, the height in four bytes and the time in eight |
| Lottery.HashArgsDetermine | miner/proofofstake.go:30-53 | They determine proofs, commitment proof, height and time modulo 2^64 |
| Merkle.BlockRootCommits | protocol/merkletree.go:42-90 | Blocks with as many transactions of each of the six kinds, nonzero hashes and no collision among the hashed pairs have the same root exactly if all six lists agree |
| Merkle.BlockRootIsZero | protocol/merkletree.go:82-85 | The root is 0 without transactions, and with some only if a hashed pair has the hash 0 |
| Merkle.HalvesHash | protocol/merkletree.go:143-168 | The root of twice a power of two of hashes is the hash of the roots of the halves, the first on the left |

## Left out

- Networking, command line, logging, mutexes, channels and timeouts; fetching is a read of a given answer.
- boltdb and gob: buckets are finite maps and encodings the identity. The buckets of closed transactions per type are one map.
- SHA-2, SHA-3, RSA and ECDSA are uninterpreted; signature checks and the remaining tests of `preValidate` are the parameter `checks`.
- The formula of `calculateNewDifficulty` is the parameter `difficulty`; `TargetFormula` has it over exact numbers, without the rounding of floating point, and with a negative change converted to a byte by wrapping, which the language leaves to the platform. A span of no time where no time is wanted has no ratio; it counts as infinite. `checkPower2` is the exact integer test.
- The open-block branch of `getNewChain`, which loops without advancing: no code of the miner writes that bucket.
- The searches of `getNewChain` and `getBlockSequences` carry a step bound; a search that would go on is its own outcome.
- Slashing-proof search and `slashingCheck`.
- `initialSetup` in whole runs: single stages have it, runs do not.
- Order of the fees of different kinds within `collectTxFees` is the order of the code; the four loops are one list.
- Concurrency between stash, mempool and validation.
- `checkBestCombination`, `prepareBlock` and missing-transaction requests; the sort before aggregation and the sort of `AggTxData`.
- Contract execution inside `addFundsTx`.
- Update transactions other than their effect on stored transactions; `NrUpdates` and the broadcast of the updated block.
- Signed or malformed hexadecimal in chameleon-hash parameters and check strings.
- Struct getters and setters, `String` methods and fixed-size codecs.
- The historic search of block production that picks closed transactions for a new aggregation is an arbitrary list of hashes.
- A block whose counters do not match its lists: the code panics on an index or a nil transaction, in the model always before the state change. The counters of account, config and stake transactions are the lengths of their lists.
- The pool of invalid transactions as a source of fetches.
- Transactions received from the network by a fetch, which stay in the open pool when the fetch ends in an error and also when the fetch completes and the state change then fails; the pool may change in any way between two calls of a run.
- A closed member that carries the very block being validated, in the compensation of a late failure: the compensation is modelled as finding no group.
- Reorganisation.RunsReplay: does not cover update transactions, nor calls that crash, that fail with a trace (LateFailures says which one), that roll back a block which was emptied or brought back (AggregationWitnesses.CameBackLeaves), or that leave no last block because the fork point was emptied.
- Reorganisation.ValidateKeepsInv: does not cover update transactions.
- Reorganisation.RejectedCallFollows: does not cover update transactions and failures with a trace.
- Reorganisation.CallKeepsInv: the same.
- Reorganisation.NoTransactionTwice: does not cover update transactions.
- Reorganisation.RunsCloseOnce: does not cover update transactions.
- Chain.RollbackInvertsBlock: does not restore the open transactions fetched from the network, which become open, nor the stash.
- BlockInverse.MatchingGroupsAgree: assumes matching groups; AggregatedRollback.GroupsMatchExactly says when they match.
- Error messages that a failing instruction pushes have their size only; gas and stack after a failure are not specified beyond the meter and that the gas does not grow.
- VmExec.VM.Library: what the map, array, hash and signature opcodes compute is a parameter, since on malformed bytes the code reads up to the capacity of a slice; VmLibrary.Answer is the library of the map and array operations on well-formed bytes.
- VmLibrary.ModelledLibraryIsBounded: the size of answers to malformed operands, of digests and of signature verdicts is assumed.
- Producer.ProducerSimulation: transactions of root or staking senders, and transfers to oneself, are excluded; Solvency.PreparedAcceptedIff says exactly when the validator accepts a block with them.
- Producer.SpendAccepted: the same exclusions.
- Producer.AdmittedIsAccepted: the same exclusions.
- Solvency.AdmittedAcceptedIff: the exclusions of Solvency.AcceptedIffCovered, and no contract execution.
- Transactions.SortedByTxCount: fixes one order among transactions of equal counters, where the code's sort is unstable.
- Miner.Miner.PreValidateRollback: update transactions are not read back.
- Miner.Miner.ReopenTxs: update transactions are not moved.
- Miner.Miner.Rollback: update transactions are absent.
- Miner.Miner.FetchTransactions: update transactions are not fetched.
- Miner.Miner.CloseTxs: update transactions are not moved.
- Miner.Miner.CloseAggregations: a member that can be read nowhere, at which the code leaves the loop, does not occur after a fetch.
- Miner.Miner.ValidateNoDuplicateTx: the update list of a block is not checked.
- Miner.Miner.ValidateBlock: update transactions are absent.
- Miner.Miner.Validate: update transactions are absent.
- RollbackConditions.TwoBlocksReplaceTip: one shape of a fork; PlainReorganisationIsSound has them all.
- Merkle.BuildWithContent: requires a nonzero hash unless the list is empty, because the code does not end otherwise.
- VmArray.Array.GoToIndex: arrays of 65536 bytes and more are excluded, because the 16-bit length wraps.
- Lottery.ValidateProofOfStake: a balance of 0, a division panic in the code, is excluded.
- Solvency.AcceptedIffCovered: excludes amounts and fees whose sum wraps, and ledgers that already exceed the ceiling.
- Solvency.AcceptedSettles: the same exclusions.
- Solvency.FundsStageIsExact: the same exclusions.
- Miner.Miner.GetNewChain: the search carries a step bound, and its open-block branch is absent.
- Miner.Miner.GetBlockSequences: the same bound.
- Merkle.NewTree: requires a nonzero hash unless the list is empty, as BuildWithContent does.
- Merkle.MerkleRoot: requires a nonzero hash among those of a block that lists any, as BuildWithContent does.
- VmArray.Array.At: arrays of 65536 bytes and more are excluded, as in GoToIndex.
- VmArray.Array.Remove: arrays of 65536 bytes and more are excluded, as in GoToIndex.
- VmArray.Array.Insert: arrays of 65536 bytes and more are excluded, as in GoToIndex.
- VmStack.Stack.Push: elements above 2^32 - 1 - 1000000 bytes are excluded, because the 32-bit check wraps (HugeElementEscapes).
- VmStack.Stack.PopIndexAt: an index equal to the length, a slice panic in the code, is excluded; Roll, its only caller, never passes it.
- Aggregation.AggregateTransactions: the historic transactions that join an aggregation are a parameter.
- TxUpdate.UpdateTxKeepsHash: that both powers are needed is stated for hashes that do not end in a zero byte; TxUpdate.RenewKeepsHash is exact for all.
- Acceptance.FundsAcceptedIff: excludes amounts and fees whose sum wraps, ledgers that already exceed the ceiling, and the initial setup, of which SetupAcceptedIff has the single step.
- Acceptance.BlockAcceptedIff: the same exclusions.
- Acceptance.LateExactly: the same exclusions.
- EarlyFailures.EarlyFailureResidue: the same exclusions, and account headers other than 0 and 1.
- Difficulties.NodeTargets: runs are those of Reorganisation.RunsReplay.
- VmLaws.NegatedTwice: results that are dropped because they do not fit are excluded.
- VmLaws.AffordExactly: gas of 2^63 and more is excluded, from where the code's signed comparison refuses pops that could be paid.
- VmLaws.EmptyPanics: the same exclusion.
- Producer.OfferedOutcome: amounts and fees whose sum wraps, receivers above the ceiling and accounts stored under another key than the hash of their address are excluded.
- Decisions.LongerChainWins: a search that would go on past the step bound is excluded, and so is a stash that holds another block under a hash of the line.
- Decisions.FailedLeaves: says nothing about what a reactivated block lists; Runs.BroughtBack does.
