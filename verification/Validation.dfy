/** validateState with its compensation on failure, and validateStateRollback. */
module Validation {
  import opened Words
  import opened Protocol
  import opened Ledger

  // Undoing stages, latest first. `groups` are the funds transactions that the rollback finds
  // closed under the block's hash inside each of its aggregations.

  function AggregatedStateRollback(l: Ledger, miner: Hash, groups: seq<seq<FundsTx>>): Outcome
    decreases groups
  {
    if groups == [] then Done(l)
    else
      var group := groups[|groups| - 1];
      match FundsStateChangeRollback(l, group)
      case Done(m) =>
        (match CollectTxFeesRollback(m, miner, FundsFees(group))
         case Done(n) => AggregatedStateRollback(n, miner, groups[..|groups| - 1])
         case other => other)
      case other => other
  }

  function UndoFunds(l: Ledger, data: BlockData, groups: seq<seq<FundsTx>>): Outcome {
    match FundsStateChangeRollback(l, data.fundsTxs)
    case Done(m) =>
      (match AggregatedStateRollback(m, data.block.beneficiary, groups)
       case Done(n) => AccStateChangeRollback(n, data.accTxs)
       case other => other)
    case other => other
  }

  function UndoStake(l: Ledger, data: BlockData, groups: seq<seq<FundsTx>>): Outcome {
    match StakeStateChangeRollback(l, data.stakeTxs)
    case Done(m) => UndoFunds(m, data, groups)
    case other => other
  }

  function UndoFees(l: Ledger, data: BlockData, groups: seq<seq<FundsTx>>): Outcome {
    match CollectTxFeesRollback(l, data.block.beneficiary,
                                BlockFees(data.accTxs, data.fundsTxs, data.configTxs, data.stakeTxs))
    case Done(m) => UndoStake(m, data, groups)
    case other => other
  }

  function UndoReward(l: Ledger, p: Parameters, data: BlockData, groups: seq<seq<FundsTx>>): Outcome {
    match CollectBlockRewardRollback(l, p.blockReward, data.block.beneficiary)
    case Done(m) => UndoFees(m, data, groups)
    case other => other
  }

  function ValidateStateRollback(l: Ledger, p: Parameters, data: BlockData, groups: seq<seq<FundsTx>>): Outcome {
    match CollectSlashRewardRollback(l, p.slashReward, p.stakingMinimum, data.block)
    case Done(m) => UndoReward(m, p, data, groups)
    case other => other
  }

  // The error return after a compensation.
  function FailedAfter(undone: Outcome): Outcome {
    match undone
    case Done(l) => Failed(l)
    case other => Crashed
  }

  // Applying stages. While a block is being validated none of its aggregated transactions is
  // closed yet, so the compensating aggregatedStateRollback finds no group to undo.

  function FundsAndLater(l: Ledger, closed: set<Hash>, p: Parameters, data: BlockData, initialSetup: bool): Outcome {
    match FundsStateChange(l, closed, data.fundsTxs, initialSetup)
    case Done(m) => AggregatedAndLater(m, closed, p, data, initialSetup)
    case Failed(m) => FailedAfter(AccStateChangeRollback(m, data.accTxs))
    case Crashed => Crashed
  }

  function AggregatedAndLater(l: Ledger, closed: set<Hash>, p: Parameters, data: BlockData,
                              initialSetup: bool): Outcome {
    match FundsStateChange(l, closed, data.aggFunds, initialSetup)
    case Done(m) => StakeAndLater(m, p, data, initialSetup)
    case Failed(m) => FailedAfter(UndoFunds(m, data, []))
    case Crashed => Crashed
  }

  function StakeAndLater(l: Ledger, p: Parameters, data: BlockData, initialSetup: bool): Outcome {
    match StakeStateChange(l, p.stakingMinimum, data.stakeTxs, initialSetup)
    case Done(m) => FeesAndLater(m, p, data, initialSetup)
    case Failed(m) => FailedAfter(UndoFunds(m, data, []))
    case Crashed => Crashed
  }

  function AllFees(data: BlockData): seq<Fee> {
    BlockFees(data.accTxs, data.fundsTxs + data.aggFees, data.configTxs, data.stakeTxs)
  }

  function FeesAndLater(l: Ledger, p: Parameters, data: BlockData, initialSetup: bool): Outcome {
    match CollectTxFees(l, data.block.beneficiary, AllFees(data))
    case Done(m) => RewardAndLater(m, p, data, initialSetup)
    case Failed(m) => FailedAfter(UndoStake(m, data, []))
    case Crashed => Crashed
  }

  function RewardAndLater(l: Ledger, p: Parameters, data: BlockData, initialSetup: bool): Outcome {
    match CollectBlockReward(l, p.blockReward, data.block.beneficiary, initialSetup)
    case Done(m) => SlashAndLater(m, p, data)
    case Failed(m) => FailedAfter(UndoFees(m, data, []))
    case Crashed => Crashed
  }

  function SlashAndLater(l: Ledger, p: Parameters, data: BlockData): Outcome {
    match CollectSlashReward(l, p.slashReward, p.stakingMinimum, data.block)
    case Done(m) => if data.block.beneficiary in m.accounts then Done(m)
      else FailedAfter(ValidateStateRollback(m, p, data, []))
    case Failed(m) => FailedAfter(UndoReward(m, p, data, []))
    case Crashed => Crashed
  }

  // Whether a failure comes after the aggregated funds stage: then the compensation visits the aggregations.
  predicate FailsLate(l: Ledger, closed: set<Hash>, data: BlockData, initialSetup: bool) {
    match AccStateChange(l, data.accTxs)
    case Done(m) =>
      (match FundsStateChange(m, closed, data.fundsTxs, initialSetup)
       case Done(n) => FundsStateChange(n, closed, data.aggFunds, initialSetup).Done?
       case other => false)
    case other => false
  }

  function ValidateState(l: Ledger, closed: set<Hash>, p: Parameters, data: BlockData, initialSetup: bool): Outcome {
    match AccStateChange(l, data.accTxs)
    case Done(m) => FundsAndLater(m, closed, p, data, initialSetup)
    case other => other
  }
}
