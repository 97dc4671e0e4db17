/** The account state and root keys, and every stage that changes them, forwards and backwards.

An `Account` here leaves out CommitmentKey and StakingBlockHeight: the stages of block validation
write these two fields and never read them, and rollback does not restore them. */
module Ledger {
  import opened Words
  import opened Protocol

  datatype Account = Account(profile: Profile, balance: uint64, txCnt: uint32, isStaking: bool)

  datatype Ledger = Ledger(accounts: map<Hash, Account>, rootKeys: set<Hash>)
  {
    ghost predicate Valid() { rootKeys <= accounts.Keys }

    // account.Balance += amount and account.Balance -= amount, through the account's pointer.
    function Credit(h: Hash, amount: int): Ledger
      requires h in accounts
    {
      this.(accounts := accounts[h := accounts[h].(balance := Wrap64(accounts[h].balance + amount))])
    }

    function Debit(h: Hash, amount: int): Ledger
      requires h in accounts
    {
      Credit(h, 0 - amount)
    }

    function CountTx(h: Hash, n: int): Ledger
      requires h in accounts
    {
      this.(accounts := accounts[h := accounts[h].(txCnt := Wrap32(accounts[h].txCnt + n))])
    }

    function SetStaking(h: Hash, staking: bool): Ledger
      requires h in accounts
    {
      this.(accounts := accounts[h := accounts[h].(isStaking := staking)])
    }
  }

  // How a stage ends: completed, returned an error, or crashed (a nil account, or logger.Fatal).
  datatype Outcome = Done(ledger: Ledger) | Failed(ledger: Ledger) | Crashed

  // -------------------- accounts --------------------

  function AccStep(l: Ledger, tx: AccTx): Outcome {
    if tx.header != 2 then
      if tx.account in l.accounts then Failed(l)
      else Done(Ledger(l.accounts[tx.account := Account(tx.profile, 0, 0, false)],
                       if tx.header == 1 then l.rootKeys + {tx.account} else l.rootKeys))
    else if tx.account !in l.accounts then Failed(l)
    else Done(l.(rootKeys := l.rootKeys - {tx.account}))
  }

  function AccStateChange(l: Ledger, txs: seq<AccTx>): Outcome {
    if txs == [] then Done(l)
    else match AccStateChange(l, txs[..|txs| - 1])
      case Done(m) => AccStep(m, txs[|txs| - 1])
      case other => other
  }

  function AccUndo(l: Ledger, tx: AccTx): Outcome {
    if tx.header > 2 then Done(l)
    else if tx.account !in l.accounts then Crashed
    else Done(Ledger(l.accounts - {tx.account},
                     if tx.header == 1 then l.rootKeys - {tx.account}
                     else if tx.header == 2 then l.rootKeys + {tx.account} else l.rootKeys))
  }

  // Runs over the slice in its original order, unlike the other rollbacks of state changes.
  function AccStateChangeRollback(l: Ledger, txs: seq<AccTx>): Outcome {
    if txs == [] then Done(l)
    else match AccStateChangeRollback(l, txs[..|txs| - 1])
      case Done(m) => AccUndo(m, txs[|txs| - 1])
      case other => other
  }

  // -------------------- funds --------------------

  // A root sender is issued amount and fee before the checks.
  function IssueToRoot(l: Ledger, tx: FundsTx): Ledger
    requires tx.from in l.rootKeys ==> tx.from in l.accounts
  {
    if tx.from in l.rootKeys then l.Credit(tx.from, tx.amount).Credit(tx.from, tx.fee) else l
  }

  function Transfer(l: Ledger, tx: FundsTx): Ledger
    requires tx.from in l.accounts && tx.to in l.accounts
  {
    l.CountTx(tx.from, 1).Debit(tx.from, tx.amount).Credit(tx.to, tx.amount)
  }

  // The four checks on sender and receiver, made after a root sender has been credited.
  // A txCnt below the sender's is only logged.
  predicate FundsCheckFails(l: Ledger, tx: FundsTx, initialSetup: bool)
    requires tx.from in l.accounts && tx.to in l.accounts
  {
    var sender, receiver := l.accounts[tx.from], l.accounts[tx.to];
    || (!initialSetup && !tx.aggregated && tx.txCnt > sender.txCnt)
    || (!initialSetup && Wrap64(tx.amount + tx.fee) > sender.balance)
    || (sender.isStaking && Wrap64(tx.fee + MIN_STAKING_MINIMUM + tx.amount) > sender.balance)
    || (!initialSetup && Wrap64(tx.amount + receiver.balance) > MAX_MONEY)
  }

  function FundsStep(l: Ledger, closed: set<Hash>, tx: FundsTx, initialSetup: bool): Outcome {
    if tx.hash in closed && !initialSetup then Done(l)
    else if tx.from in l.rootKeys && tx.from !in l.accounts then Failed(l)
    else if tx.from in l.rootKeys && Wrap64(l.accounts[tx.from].balance + tx.amount + tx.fee) > MAX_MONEY then Failed(l)
    else if tx.from !in l.accounts then Crashed
    else if tx.to !in l.accounts then (if initialSetup then Failed(l) else Crashed)
    else
      var issued := IssueToRoot(l, tx);
      if FundsCheckFails(issued, tx, initialSetup) then Failed(l) else Done(Transfer(issued, tx))
  }

  function FundsStateChange(l: Ledger, closed: set<Hash>, txs: seq<FundsTx>, initialSetup: bool): Outcome {
    if txs == [] then Done(l)
    else match FundsStateChange(l, closed, txs[..|txs| - 1], initialSetup)
      case Done(m) => FundsStep(m, closed, txs[|txs| - 1], initialSetup)
      case other => other
  }

  function FundsUndo(l: Ledger, tx: FundsTx): Outcome {
    if tx.from !in l.accounts || tx.to !in l.accounts then Crashed
    else
      var back := l.CountTx(tx.from, -1).Credit(tx.from, tx.amount).Debit(tx.to, tx.amount);
      Done(if tx.from in l.rootKeys then back.Debit(tx.from, tx.amount).Debit(tx.from, tx.fee) else back)
  }

  function FundsStateChangeRollback(l: Ledger, txs: seq<FundsTx>): Outcome
    decreases txs
  {
    if txs == [] then Done(l)
    else match FundsUndo(l, txs[|txs| - 1])
      case Done(m) => FundsStateChangeRollback(m, txs[..|txs| - 1])
      case other => other
  }

  // -------------------- staking --------------------

  function StakeStep(l: Ledger, stakingMinimum: uint64, tx: StakeTx, initialSetup: bool): Outcome {
    if tx.account !in l.accounts then Crashed
    else
      var sender := l.accounts[tx.account];
      if || tx.isStaking == sender.isStaking
         || (!initialSetup && tx.isStaking && sender.balance < Wrap64(tx.fee + stakingMinimum))
         || (!initialSetup && tx.fee > sender.balance)
      then Failed(l)
      else Done(l.SetStaking(tx.account, tx.isStaking))
  }

  function StakeStateChange(l: Ledger, stakingMinimum: uint64, txs: seq<StakeTx>, initialSetup: bool): Outcome {
    if txs == [] then Done(l)
    else match StakeStateChange(l, stakingMinimum, txs[..|txs| - 1], initialSetup)
      case Done(m) => StakeStep(m, stakingMinimum, txs[|txs| - 1], initialSetup)
      case other => other
  }

  function StakeStateChangeRollback(l: Ledger, txs: seq<StakeTx>): Outcome
    decreases txs
  {
    if txs == [] then Done(l)
    else
      var tx := txs[|txs| - 1];
      if tx.account !in l.accounts then Crashed
      else StakeStateChangeRollback(l.SetStaking(tx.account, !l.accounts[tx.account].isStaking), txs[..|txs| - 1])
  }

  // -------------------- fees --------------------

  // One fee to collect: account and config transactions mint it, the others charge a payer.
  datatype Fee = Minted(fee: uint64) | Charged(payer: Hash, fee: uint64)

  function AccFees(txs: seq<AccTx>): seq<Fee> { seq(|txs|, i requires 0 <= i < |txs| => Minted(txs[i].fee)) }

  function FundsFees(txs: seq<FundsTx>): seq<Fee> {
    seq(|txs|, i requires 0 <= i < |txs| => Charged(txs[i].from, txs[i].fee))
  }

  function ConfigFees(txs: seq<ConfigTx>): seq<Fee> { seq(|txs|, i requires 0 <= i < |txs| => Minted(txs[i].fee)) }

  function StakeFees(txs: seq<StakeTx>): seq<Fee> {
    seq(|txs|, i requires 0 <= i < |txs| => Charged(txs[i].account, txs[i].fee))
  }

  function BlockFees(accTxs: seq<AccTx>, fundsTxs: seq<FundsTx>, configTxs: seq<ConfigTx>,
                     stakeTxs: seq<StakeTx>): seq<Fee> {
    AccFees(accTxs) + FundsFees(fundsTxs) + ConfigFees(configTxs) + StakeFees(stakeTxs)
  }

  // For a charged fee the overflow error is overwritten by the payer's lookup, so only a missing
  // payer stops the collection.
  predicate FeeRefused(l: Ledger, miner: Hash, fee: Fee)
    requires miner in l.accounts
  {
    match fee
    case Minted(f) => Wrap64(l.accounts[miner].balance + f) > MAX_MONEY
    case Charged(payer, _) => payer !in l.accounts
  }

  function PayFee(l: Ledger, miner: Hash, fee: Fee): Ledger
    requires miner in l.accounts && (fee.Charged? ==> fee.payer in l.accounts)
  {
    match fee
    case Minted(f) => l.Credit(miner, f)
    case Charged(payer, f) => l.Credit(miner, f).Debit(payer, f)
  }

  function RefundFee(l: Ledger, miner: Hash, fee: Fee): Outcome {
    if miner !in l.accounts || (fee.Charged? && fee.payer !in l.accounts) then Crashed
    else match fee
      case Minted(f) => Done(l.Debit(miner, f))
      case Charged(payer, f) => Done(l.Debit(miner, f).Credit(payer, f))
  }

  function CollectTxFeesRollback(l: Ledger, miner: Hash, fees: seq<Fee>): Outcome {
    if fees == [] then Done(l)
    else match CollectTxFeesRollback(l, miner, fees[..|fees| - 1])
      case Done(m) => RefundFee(m, miner, fees[|fees| - 1])
      case other => other
  }

  // On a refused fee the fees collected so far are given back.
  function CollectFees(l: Ledger, miner: Hash, fees: seq<Fee>): Outcome
    requires miner in l.accounts
    ensures CollectFees(l, miner, fees).Done? ==> CollectFees(l, miner, fees).ledger.accounts.Keys == l.accounts.Keys
  {
    if fees == [] then Done(l)
    else match CollectFees(l, miner, fees[..|fees| - 1])
      case Done(m) =>
        if FeeRefused(m, miner, fees[|fees| - 1]) then
          match CollectTxFeesRollback(m, miner, fees[..|fees| - 1])
          case Done(n) => Failed(n)
          case other => other
        else Done(PayFee(m, miner, fees[|fees| - 1]))
      case other => other
  }

  function CollectTxFees(l: Ledger, miner: Hash, fees: seq<Fee>): Outcome {
    if miner !in l.accounts then Failed(l) else CollectFees(l, miner, fees)
  }

  // -------------------- rewards --------------------

  function CollectBlockReward(l: Ledger, reward: uint64, miner: Hash, initialSetup: bool): Outcome {
    if miner !in l.accounts then (if initialSetup then Failed(l) else Crashed)
    else if !initialSetup && Wrap64(l.accounts[miner].balance + reward) > MAX_MONEY then Failed(l)
    else Done(l.Credit(miner, reward))
  }

  function CollectBlockRewardRollback(l: Ledger, reward: uint64, miner: Hash): Outcome {
    if miner !in l.accounts then Crashed else Done(l.Debit(miner, reward))
  }

  function CollectSlashReward(l: Ledger, reward: uint64, stakingMinimum: uint64, b: Block): Outcome {
    if !b.CarriesSlashingProof() then Done(l)
    else if b.beneficiary !in l.accounts then Crashed
    else if b.slashedAddress !in l.accounts
      || Wrap64(l.accounts[b.beneficiary].balance + reward) > MAX_MONEY then Failed(l)
    else Done(l.Credit(b.beneficiary, reward).Debit(b.slashedAddress, stakingMinimum).SetStaking(b.slashedAddress,
        false))
  }

  function CollectSlashRewardRollback(l: Ledger, reward: uint64, stakingMinimum: uint64, b: Block): Outcome {
    if !b.CarriesSlashingProof() then Done(l)
    else if b.beneficiary !in l.accounts || b.slashedAddress !in l.accounts then Crashed
    else Done(l.Debit(b.beneficiary, reward).Credit(b.slashedAddress, stakingMinimum).SetStaking(b.slashedAddress,
        true))
  }
}
