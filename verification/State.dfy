/** The account state as the miner keeps it: shared account objects behind pointers, changed in
place, stage by stage. Every method is tied to the function of Ledger or Validation it implements. */
module State {
  import opened Words
  import opened Protocol
  import L = Ledger
  import opened Transactions
  import Validation

  class Account {
    const profile: Profile
    var balance: uint64
    var txCnt: uint32
    var isStaking: bool
    var commitmentKey: nat
    var stakingBlockHeight: uint32

    constructor (profile: Profile, balance: uint64, isStaking: bool, commitmentKey: nat)
      ensures Value() == L.Account(profile, balance, 0, isStaking)
      ensures this.commitmentKey == commitmentKey && stakingBlockHeight == 0
    {
      this.profile := profile;
      this.balance, this.txCnt, this.isStaking := balance, 0, isStaking;
      this.commitmentKey, this.stakingBlockHeight := commitmentKey, 0;
    }

    ghost function Value(): L.Account
      reads this
    {
      L.Account(profile, balance, txCnt, isStaking)
    }
  }

  // How a Go call ends: normally, with an error, or in a panic or logger.Fatal.
  datatype Status = Ok | Err | Crash

  ghost predicate Ends(status: Status, view: L.Ledger, o: L.Outcome) {
    match o
    case Done(l) => status == Ok && view == l
    case Failed(l) => status == Err && view == l
    case Crashed => status == Crash
  }

  class Store {
    var state: map<Hash, Account>
    // The keys of RootKeys; the account objects they map to are those of state.
    var rootKeys: set<Hash>

    // Distinct hashes lead to distinct account objects.
    ghost predicate Valid()
      reads this
    {
      forall h, k :: h in state && k in state && h != k ==> state[h] != state[k]
    }

    ghost function View(): L.Ledger
      reads this, state.Values
    {
      L.Ledger(map h | h in state :: state[h].Value(), rootKeys)
    }

    constructor ()
      ensures Valid() && View() == L.Ledger(map[], {})
    {
      state, rootKeys := map[], {};
    }

    // -------------------- field updates through a pointer --------------------

    // acc.Balance += amount
    method Add(acc: Account, amount: int, ghost h: Hash)
      requires Valid() && h in state && state[h] == acc
      modifies acc`balance
      ensures View() == old(View()).Credit(h, amount)
    {
      acc.balance := Wrap64(acc.balance + amount);
    }

    // acc.Balance -= amount
    method Subtract(acc: Account, amount: int, ghost h: Hash)
      requires Valid() && h in state && state[h] == acc
      modifies acc`balance
      ensures View() == old(View()).Debit(h, amount)
    {
      acc.balance := Wrap64(acc.balance - amount);
    }

    method CountTx(acc: Account, n: int, ghost h: Hash)
      requires Valid() && h in state && state[h] == acc
      modifies acc`txCnt
      ensures View() == old(View()).CountTx(h, n)
    {
      acc.txCnt := Wrap32(acc.txCnt + n);
    }

    method SetStaking(acc: Account, staking: bool, ghost h: Hash)
      requires Valid() && h in state && state[h] == acc
      modifies acc`isStaking
      ensures View() == old(View()).SetStaking(h, staking)
    {
      acc.isStaking := staking;
    }

    // -------------------- accounts --------------------

    method Create(tx: AccTx)
      requires Valid() && tx.account !in state
      modifies `state
      ensures Valid() && fresh(state.Values - old(state.Values))
      ensures View().accounts == old(View()).accounts[tx.account := L.Account(tx.profile, 0, 0, false)]
      ensures forall h :: h in old(state) ==> h in state && state[h] == old(state)[h]
    {
      var newAcc := new Account(tx.profile, 0, false, 0);
      state := state[tx.account := newAcc];
    }

    // The body of accStateChange for one transaction.
    method ApplyAccTx(tx: AccTx) returns (status: Status)
      requires Valid()
      modifies this
      ensures Valid() && fresh(state.Values - old(state.Values))
      ensures Ends(status, View(), L.AccStep(old(View()), tx))
      ensures forall h :: h in old(state) ==> h in state && state[h] == old(state)[h]
    {
      if tx.header != 2 {
        if tx.account in state {
          return Err;
        }
        Create(tx);
        if tx.header == 1 {
          rootKeys := rootKeys + {tx.account};
        }
      } else {
        if tx.account !in state {
          return Err;
        }
        rootKeys := rootKeys - {tx.account};
      }
      status := Ok;
    }

    method AccStateChange(txs: seq<AccTx>) returns (status: Status)
      requires Valid()
      modifies this
      ensures Valid() && fresh(state.Values - old(state.Values))
      ensures Ends(status, View(), L.AccStateChange(old(View()), txs))
      ensures forall h :: h in old(state) ==> h in state && state[h] == old(state)[h]
    {
      for i := 0 to |txs|
        invariant Valid() && fresh(state.Values - old(state.Values))
        invariant L.AccStateChange(old(View()), txs[..i]) == L.Done(View())
        invariant forall h :: h in old(state) ==> h in state && state[h] == old(state)[h]
      {
        assert txs[..i + 1][..i] == txs[..i];
        AccPrefixFails(old(View()), txs, i + 1);
        status := ApplyAccTx(txs[i]);
        if status != Ok {
          return;
        }
      }
      assert txs[..|txs|] == txs;
      status := Ok;
    }

    method RollBackAccTx(tx: AccTx) returns (status: Status)
      requires Valid()
      modifies this
      ensures Valid() && state.Values <= old(state.Values)
      ensures Ends(status, View(), L.AccUndo(old(View()), tx))
    {
      if tx.header == 0 || tx.header == 1 || tx.header == 2 {
        if tx.account !in state {
          return Crash;
        }
        state := state - {tx.account};
        if tx.header == 1 {
          rootKeys := rootKeys - {tx.account};
        } else if tx.header == 2 {
          rootKeys := rootKeys + {tx.account};
        }
        assert View().accounts == old(View()).accounts - {tx.account};
      }
      status := Ok;
    }

    method AccStateChangeRollback(txs: seq<AccTx>) returns (status: Status)
      requires Valid()
      modifies this
      ensures Valid() && state.Values <= old(state.Values)
      ensures Ends(status, View(), L.AccStateChangeRollback(old(View()), txs))
    {
      for i := 0 to |txs|
        invariant Valid() && state.Values <= old(state.Values)
        invariant L.AccStateChangeRollback(old(View()), txs[..i]) == L.Done(View())
      {
        assert txs[..i + 1][..i] == txs[..i];
        AccRollbackPrefixFails(old(View()), txs, i + 1);
        status := RollBackAccTx(txs[i]);
        if status != Ok {
          return;
        }
      }
      assert txs[..|txs|] == txs;
      status := Ok;
    }

    // -------------------- funds --------------------

    // The body of fundsStateChange for one transaction.
    method ApplyFundsTx(tx: FundsTx, closed: set<Hash>, initialSetup: bool) returns (status: Status)
      requires Valid()
      modifies state.Values`balance, state.Values`txCnt
      ensures Ends(status, View(), L.FundsStep(old(View()), closed, tx, initialSetup))
    {
      hide Wrap64, Wrap32, L.FundsCheckFails, L.IssueToRoot, L.Transfer;
      if tx.hash in closed && !initialSetup {
        return Ok;
      }
      if tx.from in rootKeys {
        if tx.from !in state || Wrap64(state[tx.from].balance + tx.amount + tx.fee) > MAX_MONEY {
          return Err;
        }
      }
      if tx.from !in state {
        return Crash;
      }
      status := IssueAndTransfer(tx, initialSetup);
    }

    // The part of the body after the root account's overflow check.
    method IssueAndTransfer(tx: FundsTx, initialSetup: bool) returns (status: Status)
      requires Valid() && tx.from in state
      modifies state.Values`balance, state.Values`txCnt
      ensures Ends(status, View(),
        if tx.to !in old(View()).accounts then (if initialSetup then L.Failed(old(View())) else L.Crashed)
                                   else if L.FundsCheckFails(L.IssueToRoot(old(View()), tx), tx, initialSetup)
                                     then L.Failed(old(View()))
                                   else L.Done(L.Transfer(L.IssueToRoot(old(View()), tx), tx)))
    {
      hide Wrap64, Wrap32, L.FundsCheckFails;
      var accSender := state[tx.from];
      var isRoot := tx.from in rootKeys;
      if isRoot {
        Add(accSender, tx.amount, tx.from);
        Add(accSender, tx.fee, tx.from);
      }
      assert View() == L.IssueToRoot(old(View()), tx);
      var failed := true;
      if tx.to in state {
        failed := FundsCheckFails(tx, initialSetup);
      } else if !initialSetup {
        return Crash;
      }
      if failed {
        if isRoot {
          Subtract(accSender, tx.amount, tx.from);
          Subtract(accSender, tx.fee, tx.from);
          IssueTakenBack(old(View()), tx);
        }
        return Err;
      }
      CountTx(accSender, 1, tx.from);
      Subtract(accSender, tx.amount, tx.from);
      Add(state[tx.to], tx.amount, tx.to);
      status := Ok;
    }

    method FundsCheckFails(tx: FundsTx, initialSetup: bool) returns (failed: bool)
      requires Valid() && tx.from in state && tx.to in state
      ensures failed == L.FundsCheckFails(View(), tx, initialSetup)
    {
      var accSender, accReceiver := state[tx.from], state[tx.to];
      failed :=
        || (!initialSetup && !tx.aggregated && tx.txCnt > accSender.txCnt)
        || (!initialSetup && Wrap64(tx.amount + tx.fee) > accSender.balance)
        || (accSender.isStaking && Wrap64(tx.fee + MIN_STAKING_MINIMUM + tx.amount) > accSender.balance)
        || (!initialSetup && Wrap64(tx.amount + accReceiver.balance) > MAX_MONEY);
    }

    method FundsStateChange(txs: seq<FundsTx>, closed: set<Hash>, initialSetup: bool) returns (status: Status)
      requires Valid()
      modifies state.Values`balance, state.Values`txCnt
      ensures Ends(status, View(), L.FundsStateChange(old(View()), closed, txs, initialSetup))
    {
      hide L.FundsStep, Wrap64, Wrap32;
      for i := 0 to |txs|
        invariant L.FundsStateChange(old(View()), closed, txs[..i], initialSetup) == L.Done(View())
      {
        assert txs[..i + 1][..i] == txs[..i];
        FundsPrefixFails(old(View()), closed, txs, initialSetup, i + 1);
        status := ApplyFundsTx(txs[i], closed, initialSetup);
        if status != Ok {
          return;
        }
      }
      assert txs[..|txs|] == txs;
      status := Ok;
    }

    method RollBackFundsTx(tx: FundsTx) returns (status: Status)
      requires Valid()
      modifies state.Values`balance, state.Values`txCnt
      ensures Ends(status, View(), L.FundsUndo(old(View()), tx))
    {
      if tx.from !in state || tx.to !in state {
        return Crash;
      }
      CountTx(state[tx.from], -1, tx.from);
      Add(state[tx.from], tx.amount, tx.from);
      Subtract(state[tx.to], tx.amount, tx.to);
      if tx.from in rootKeys {
        Subtract(state[tx.from], tx.amount, tx.from);
        Subtract(state[tx.from], tx.fee, tx.from);
      }
      status := Ok;
    }

    method FundsStateChangeRollback(txs: seq<FundsTx>) returns (status: Status)
      requires Valid()
      modifies state.Values`balance, state.Values`txCnt
      ensures Ends(status, View(), L.FundsStateChangeRollback(old(View()), txs))
    {
      hide L.FundsUndo, Wrap64, Wrap32;
      var cnt := |txs|;
      assert txs[..cnt] == txs;
      while cnt > 0
        invariant 0 <= cnt <= |txs|
        invariant L.FundsStateChangeRollback(old(View()), txs) == L.FundsStateChangeRollback(View(), txs[..cnt])
      {
        assert txs[..cnt][..cnt - 1] == txs[..cnt - 1];
        status := RollBackFundsTx(txs[cnt - 1]);
        if status != Ok {
          return;
        }
        cnt := cnt - 1;
      }
      status := Ok;
    }

    // -------------------- staking --------------------

    // The body of stakeStateChange for one transaction.
    method ApplyStakeTx(tx: StakeTx, stakingMinimum: uint64, height: uint32, initialSetup: bool)
      returns (status: Status)
      requires Valid()
      modifies state.Values`isStaking, state.Values`commitmentKey, state.Values`stakingBlockHeight
      ensures Ends(status, View(), L.StakeStep(old(View()), stakingMinimum, tx, initialSetup))
    {
      if tx.account !in state {
        return Crash;
      }
      var accSender := state[tx.account];
      if || tx.isStaking == accSender.isStaking
         || (!initialSetup && tx.isStaking && accSender.balance < Wrap64(tx.fee + stakingMinimum))
         || (!initialSetup && tx.fee > accSender.balance)
      {
        return Err;
      }
      SetStaking(accSender, tx.isStaking, tx.account);
      SetCommitment(accSender, tx.commitmentKey, height);
      status := Ok;
    }

    method StakeStateChange(txs: seq<StakeTx>, stakingMinimum: uint64, height: uint32, initialSetup: bool)
      returns (status: Status)
      requires Valid()
      modifies state.Values`isStaking, state.Values`commitmentKey, state.Values`stakingBlockHeight
      ensures Ends(status, View(), L.StakeStateChange(old(View()), stakingMinimum, txs, initialSetup))
    {
      hide L.StakeStep;
      for i := 0 to |txs|
        invariant L.StakeStateChange(old(View()), stakingMinimum, txs[..i], initialSetup) == L.Done(View())
      {
        assert txs[..i + 1][..i] == txs[..i];
        StakePrefixFails(old(View()), stakingMinimum, txs, initialSetup, i + 1);
        status := ApplyStakeTx(txs[i], stakingMinimum, height, initialSetup);
        if status != Ok {
          return;
        }
      }
      assert txs[..|txs|] == txs;
      status := Ok;
    }

    // Neither field is part of the view: validation never reads them, rollback never restores them.
    method SetCommitment(acc: Account, key: nat, height: uint32)
      modifies acc`commitmentKey, acc`stakingBlockHeight
      ensures acc.commitmentKey == key && acc.stakingBlockHeight == height && View() == old(View())
    {
      acc.commitmentKey := key;
      acc.stakingBlockHeight := height;
    }

    method StakeStateChangeRollback(txs: seq<StakeTx>) returns (status: Status)
      requires Valid()
      modifies state.Values`isStaking
      ensures Ends(status, View(), L.StakeStateChangeRollback(old(View()), txs))
    {
      var cnt := |txs|;
      assert txs[..cnt] == txs;
      while cnt > 0
        invariant 0 <= cnt <= |txs|
        invariant L.StakeStateChangeRollback(old(View()), txs) == L.StakeStateChangeRollback(View(), txs[..cnt])
      {
        var tx := txs[cnt - 1];
        assert txs[..cnt][..cnt - 1] == txs[..cnt - 1];
        if tx.account !in state {
          return Crash;
        }
        SetStaking(state[tx.account], !state[tx.account].isStaking, tx.account);
        cnt := cnt - 1;
      }
      status := Ok;
    }

    // -------------------- fees --------------------

    // The four loops of the source run over account, funds, configuration and stake transactions
    // in turn; here they are one loop over the fees in that order.

    method RefundOne(minerHash: Hash, fee: L.Fee) returns (status: Status)
      requires Valid()
      modifies state.Values`balance
      ensures Ends(status, View(), L.RefundFee(old(View()), minerHash, fee))
    {
      if minerHash !in state || (fee.Charged? && fee.payer !in state) {
        return Crash;
      }
      Subtract(state[minerHash], fee.fee, minerHash);
      if fee.Charged? {
        Add(state[fee.payer], fee.fee, fee.payer);
      }
      status := Ok;
    }

    method CollectTxFeesRollback(fees: seq<L.Fee>, minerHash: Hash) returns (status: Status)
      requires Valid()
      modifies state.Values`balance
      ensures Ends(status, View(), L.CollectTxFeesRollback(old(View()), minerHash, fees))
    {
      hide L.RefundFee;
      for i := 0 to |fees|
        invariant L.CollectTxFeesRollback(old(View()), minerHash, fees[..i]) == L.Done(View())
      {
        assert fees[..i + 1][..i] == fees[..i];
        RefundPrefixFails(old(View()), minerHash, fees, i + 1);
        status := RefundOne(minerHash, fees[i]);
        if status != Ok {
          return;
        }
      }
      assert fees[..|fees|] == fees;
      status := Ok;
    }

    // A minted fee is refused if the miner would overflow; for a charged fee that error is
    // overwritten by the payer's lookup.
    method CollectOne(minerAcc: Account, fee: L.Fee, ghost minerHash: Hash) returns (refused: bool)
      requires Valid() && minerHash in state && state[minerHash] == minerAcc
      modifies state.Values`balance
      ensures refused == L.FeeRefused(old(View()), minerHash, fee)
      ensures View() == if refused then old(View()) else L.PayFee(old(View()), minerHash, fee)
    {
      match fee
      case Minted(f) =>
        refused := Wrap64(minerAcc.balance + f) > MAX_MONEY;
        if !refused {
          Add(minerAcc, f, minerHash);
        }
      case Charged(payer, f) =>
        refused := payer !in state;
        if !refused {
          Add(minerAcc, f, minerHash);
          Subtract(state[payer], f, payer);
        }
    }

    method CollectTxFees(fees: seq<L.Fee>, minerHash: Hash) returns (status: Status)
      requires Valid()
      modifies state.Values`balance
      ensures Ends(status, View(), L.CollectTxFees(old(View()), minerHash, fees))
    {
      hide L.PayFee, L.FeeRefused, L.RefundFee;
      if minerHash !in state {
        return Err;
      }
      var minerAcc := state[minerHash];
      for i := 0 to |fees|
        invariant L.CollectFees(old(View()), minerHash, fees[..i]) == L.Done(View())
      {
        assert fees[..i + 1][..i] == fees[..i];
        FeesPrefixFails(old(View()), minerHash, fees, i + 1);
        var refused := CollectOne(minerAcc, fees[i], minerHash);
        if refused {
          status := CollectTxFeesRollback(fees[..i], minerHash);
          return if status == Ok then Err else status;
        }
      }
      assert fees[..|fees|] == fees;
      status := Ok;
    }

    // -------------------- rewards --------------------

    method CollectBlockReward(reward: uint64, minerHash: Hash, initialSetup: bool) returns (status: Status)
      requires Valid()
      modifies state.Values`balance
      ensures Ends(status, View(), L.CollectBlockReward(old(View()), reward, minerHash, initialSetup))
    {
      if minerHash !in state {
        return if initialSetup then Err else Crash;
      }
      var miner := state[minerHash];
      if !initialSetup && Wrap64(miner.balance + reward) > MAX_MONEY {
        return Err;
      }
      Add(miner, reward, minerHash);
      status := Ok;
    }

    method CollectBlockRewardRollback(reward: uint64, minerHash: Hash) returns (status: Status)
      requires Valid()
      modifies state.Values`balance
      ensures Ends(status, View(), L.CollectBlockRewardRollback(old(View()), reward, minerHash))
    {
      if minerHash !in state {
        return Crash;
      }
      Subtract(state[minerHash], reward, minerHash);
      status := Ok;
    }

    method CollectSlashReward(reward: uint64, stakingMinimum: uint64, b: Block) returns (status: Status)
      requires Valid()
      modifies state.Values`balance, state.Values`isStaking
      ensures Ends(status, View(), L.CollectSlashReward(old(View()), reward, stakingMinimum, b))
    {
      if b.CarriesSlashingProof() {
        if b.beneficiary !in state {
          return Crash;
        }
        var minerAcc := state[b.beneficiary];
        if b.slashedAddress !in state || Wrap64(minerAcc.balance + reward) > MAX_MONEY {
          return Err;
        }
        var slashedAcc := state[b.slashedAddress];
        Add(minerAcc, reward, b.beneficiary);
        Subtract(slashedAcc, stakingMinimum, b.slashedAddress);
        SetStaking(slashedAcc, false, b.slashedAddress);
      }
      status := Ok;
    }

    method CollectSlashRewardRollback(reward: uint64, stakingMinimum: uint64, b: Block) returns (status: Status)
      requires Valid()
      modifies state.Values`balance, state.Values`isStaking
      ensures Ends(status, View(), L.CollectSlashRewardRollback(old(View()), reward, stakingMinimum, b))
    {
      if b.CarriesSlashingProof() {
        if b.beneficiary !in state || b.slashedAddress !in state {
          return Crash;
        }
        Subtract(state[b.beneficiary], reward, b.beneficiary);
        Add(state[b.slashedAddress], stakingMinimum, b.slashedAddress);
        SetStaking(state[b.slashedAddress], true, b.slashedAddress);
      }
      status := Ok;
    }

    method UpdateStakingHeight(b: Block) returns (status: Status)
      requires Valid()
      modifies state.Values`commitmentKey, state.Values`stakingBlockHeight
      ensures View() == old(View()) && status == if b.beneficiary in state then Ok else Err
      ensures b.beneficiary in state ==> state[b.beneficiary].stakingBlockHeight == b.height
    {
      if b.beneficiary !in state {
        return Err;
      }
      SetCommitment(state[b.beneficiary], state[b.beneficiary].commitmentKey, b.height);
      status := Ok;
    }

    // -------------------- a whole block --------------------

    method AggregatedStateRollback(groups: seq<seq<FundsTx>>, minerHash: Hash) returns (status: Status)
      requires Valid()
      modifies state.Values`balance, state.Values`txCnt
      ensures Ends(status, View(), Validation.AggregatedStateRollback(old(View()), minerHash, groups))
    {
      hide L.FundsStateChangeRollback, L.CollectTxFeesRollback;
      var cnt := |groups|;
      assert groups[..cnt] == groups;
      while cnt > 0
        invariant 0 <= cnt <= |groups|
        invariant Validation.AggregatedStateRollback(old(View()), minerHash, groups)
          == Validation.AggregatedStateRollback(View(), minerHash, groups[..cnt])
      {
        assert groups[..cnt][..cnt - 1] == groups[..cnt - 1];
        status := FundsStateChangeRollback(groups[cnt - 1]);
        if status != Ok { return; }
        status := CollectTxFeesRollback(L.FundsFees(groups[cnt - 1]), minerHash);
        if status != Ok { return; }
        cnt := cnt - 1;
      }
      status := Ok;
    }

    // The tails of validateStateRollback; the compensations of validateState are the same calls.
    method UndoFunds(data: BlockData, groups: seq<seq<FundsTx>>) returns (status: Status)
      requires Valid()
      modifies this, state.Values
      ensures Valid() && state.Values <= old(state.Values)
      ensures Ends(status, View(), Validation.UndoFunds(old(View()), data, groups))
    {
      hide L.FundsStateChangeRollback, L.AccStateChangeRollback, Validation.AggregatedStateRollback;
      status := FundsStateChangeRollback(data.fundsTxs);
      if status != Ok { return; }
      status := AggregatedStateRollback(groups, data.block.beneficiary);
      if status != Ok { return; }
      status := AccStateChangeRollback(data.accTxs);
    }

    method UndoStake(data: BlockData, groups: seq<seq<FundsTx>>) returns (status: Status)
      requires Valid()
      modifies this, state.Values
      ensures Valid() && state.Values <= old(state.Values)
      ensures Ends(status, View(), Validation.UndoStake(old(View()), data, groups))
    {
      hide L.StakeStateChangeRollback, Validation.UndoFunds;
      status := StakeStateChangeRollback(data.stakeTxs);
      if status != Ok { return; }
      status := UndoFunds(data, groups);
    }

    method UndoFees(data: BlockData, groups: seq<seq<FundsTx>>) returns (status: Status)
      requires Valid()
      modifies this, state.Values
      ensures Valid() && state.Values <= old(state.Values)
      ensures Ends(status, View(), Validation.UndoFees(old(View()), data, groups))
    {
      hide L.CollectTxFeesRollback, L.BlockFees, Validation.UndoStake;
      status := CollectTxFeesRollback(L.BlockFees(data.accTxs, data.fundsTxs, data.configTxs, data.stakeTxs),
                                      data.block.beneficiary);
      if status != Ok { return; }
      status := UndoStake(data, groups);
    }

    method UndoReward(p: Parameters, data: BlockData, groups: seq<seq<FundsTx>>) returns (status: Status)
      requires Valid()
      modifies this, state.Values
      ensures Valid() && state.Values <= old(state.Values)
      ensures Ends(status, View(), Validation.UndoReward(old(View()), p, data, groups))
    {
      hide L.CollectBlockRewardRollback, Validation.UndoFees;
      status := CollectBlockRewardRollback(p.blockReward, data.block.beneficiary);
      if status != Ok { return; }
      status := UndoFees(data, groups);
    }

    method ValidateStateRollback(p: Parameters, data: BlockData, groups: seq<seq<FundsTx>>) returns (status: Status)
      requires Valid()
      modifies this, state.Values
      ensures Valid() && state.Values <= old(state.Values)
      ensures Ends(status, View(), Validation.ValidateStateRollback(old(View()), p, data, groups))
    {
      hide L.CollectSlashRewardRollback, Validation.UndoReward;
      status := CollectSlashRewardRollback(p.slashReward, p.stakingMinimum, data.block);
      if status != Ok { return; }
      status := UndoReward(p, data, groups);
    }

    // validateState from the fee collection on.
    method FeesAndLater(p: Parameters, data: BlockData, initialSetup: bool) returns (status: Status)
      requires Valid()
      modifies this, state.Values
      ensures Valid() && state.Values <= old(state.Values)
      ensures Ends(status, View(), Validation.FeesAndLater(old(View()), p, data, initialSetup))
      ensures status == Ok ==>
        data.block.beneficiary in state && state[data.block.beneficiary].stakingBlockHeight == data.block.height
    {
      hide L.CollectTxFees, L.BlockFees, L.CollectBlockReward, L.CollectSlashReward,
        Validation.UndoStake, Validation.UndoFees, Validation.UndoReward, Validation.ValidateStateRollback;
      status := CollectTxFees(Validation.AllFees(data), data.block.beneficiary);
      if status == Err {
        status := UndoStake(data, []);
        return if status == Ok then Err else Crash;
      } else if status == Crash { return; }

      status := CollectBlockReward(p.blockReward, data.block.beneficiary, initialSetup);
      if status == Err {
        status := UndoFees(data, []);
        return if status == Ok then Err else Crash;
      } else if status == Crash { return; }

      status := CollectSlashReward(p.slashReward, p.stakingMinimum, data.block);
      if status == Err {
        status := UndoReward(p, data, []);
        return if status == Ok then Err else Crash;
      } else if status == Crash { return; }

      status := UpdateStakingHeight(data.block);
      if status == Err {
        status := ValidateStateRollback(p, data, []);
        return if status == Ok then Err else Crash;
      }
    }

    // aggTxStateChange sorts the aggregated transactions in place. `late`: the compensation has visited the
    // aggregations.
    method ValidateState(p: Parameters, fetched: BlockData, closed: set<Hash>, initialSetup: bool)
      returns (status: Status, late: bool)
      requires Valid()
      modifies this, state.Values
      ensures Valid() && fresh(state.Values - old(state.Values))
      ensures Ends(status, View(),
        Validation.ValidateState(old(View()), closed, p, SortAggregated(fetched), initialSetup))
      ensures status == Err ==>
        (late <==> Validation.FailsLate(old(View()), closed, SortAggregated(fetched), initialSetup))
      ensures status == Ok ==>
        fetched.block.beneficiary in state
          && state[fetched.block.beneficiary].stakingBlockHeight == fetched.block.height
    {
      hide L.AccStateChange, L.FundsStateChange, L.StakeStateChange, L.AccStateChangeRollback, Validation.UndoFunds,
           Validation.FeesAndLater, SortedByTxCount;
      var data := SortAggregated(fetched);
      late := false;
      status := AccStateChange(data.accTxs);
      if status != Ok { return; }

      status := FundsStateChange(data.fundsTxs, closed, initialSetup);
      if status == Err {
        status := AccStateChangeRollback(data.accTxs);
        return if status == Ok then Err else Crash, late;
      } else if status == Crash { return; }

      status := FundsStateChange(data.aggFunds, closed, initialSetup);
      if status == Err {
        status := UndoFunds(data, []);
        return if status == Ok then Err else Crash, late;
      } else if status == Crash { return; }

      late := true;
      status := StakeStateChange(data.stakeTxs, p.stakingMinimum, data.block.height, initialSetup);
      if status == Err {
        status := UndoFunds(data, []);
        return if status == Ok then Err else Crash, late;
      } else if status == Crash { return; }

      status := FeesAndLater(p, data, initialSetup);
    }
  }

  // A slice of which a prefix fails, fails in the same way.
  lemma AccPrefixFails(l: L.Ledger, txs: seq<AccTx>, n: nat)
    requires n <= |txs|
    ensures !L.AccStateChange(l, txs[..n]).Done? ==> L.AccStateChange(l, txs) == L.AccStateChange(l, txs[..n])
    decreases |txs| - n
  {
    if n == |txs| {
      assert txs[..n] == txs;
    } else {
      assert txs[..n + 1][..n] == txs[..n];
      AccPrefixFails(l, txs, n + 1);
    }
  }

  lemma AccRollbackPrefixFails(l: L.Ledger, txs: seq<AccTx>, n: nat)
    requires n <= |txs|
    ensures !L.AccStateChangeRollback(l, txs[..n]).Done? ==>
      L.AccStateChangeRollback(l, txs) == L.AccStateChangeRollback(l, txs[..n])
    decreases |txs| - n
  {
    if n == |txs| {
      assert txs[..n] == txs;
    } else {
      assert txs[..n + 1][..n] == txs[..n];
      AccRollbackPrefixFails(l, txs, n + 1);
    }
  }

  lemma FundsPrefixFails(l: L.Ledger, closed: set<Hash>, txs: seq<FundsTx>, initialSetup: bool, n: nat)
    requires n <= |txs|
    ensures !L.FundsStateChange(l, closed, txs[..n], initialSetup).Done? ==>
      L.FundsStateChange(l, closed, txs, initialSetup) == L.FundsStateChange(l, closed, txs[..n], initialSetup)
    decreases |txs| - n
  {
    if n == |txs| {
      assert txs[..n] == txs;
    } else {
      assert txs[..n + 1][..n] == txs[..n];
      FundsPrefixFails(l, closed, txs, initialSetup, n + 1);
    }
  }

  lemma StakePrefixFails(l: L.Ledger, stakingMinimum: uint64, txs: seq<StakeTx>, initialSetup: bool, n: nat)
    requires n <= |txs|
    ensures !L.StakeStateChange(l, stakingMinimum, txs[..n], initialSetup).Done? ==>
      L.StakeStateChange(l, stakingMinimum, txs, initialSetup)
        == L.StakeStateChange(l, stakingMinimum, txs[..n], initialSetup)
    decreases |txs| - n
  {
    if n == |txs| {
      assert txs[..n] == txs;
    } else {
      assert txs[..n + 1][..n] == txs[..n];
      StakePrefixFails(l, stakingMinimum, txs, initialSetup, n + 1);
    }
  }

  // The credits to a failing root sender, taken back, leave no trace.
  lemma IssueTakenBack(l: L.Ledger, tx: FundsTx)
    requires tx.from in l.rootKeys && tx.from in l.accounts
    ensures L.IssueToRoot(l, tx).Debit(tx.from, tx.amount).Debit(tx.from, tx.fee) == l
  {
    var x := l.accounts[tx.from].balance;
    BackAndForth(x, tx.amount, tx.fee);
    assert L.IssueToRoot(l, tx).Debit(tx.from, tx.amount).Debit(tx.from, tx.fee).accounts == l.accounts;
  }

  lemma BackAndForth(x: uint64, y: int, z: int)
    ensures Wrap64(Wrap64(Wrap64(Wrap64(x + y) + z) - y) - z) == x
  {
    Wrap64Absorbs(x + y, z);
    Wrap64Absorbs(x + y + z, 0 - y);
    Wrap64Absorbs(x + z, 0 - z);
  }

  lemma RefundPrefixFails(l: L.Ledger, miner: Hash, fees: seq<L.Fee>, n: nat)
    requires n <= |fees|
    ensures !L.CollectTxFeesRollback(l, miner, fees[..n]).Done? ==>
      L.CollectTxFeesRollback(l, miner, fees) == L.CollectTxFeesRollback(l, miner, fees[..n])
    decreases |fees| - n
  {
    if n == |fees| {
      assert fees[..n] == fees;
    } else {
      assert fees[..n + 1][..n] == fees[..n];
      RefundPrefixFails(l, miner, fees, n + 1);
    }
  }

  lemma FeesPrefixFails(l: L.Ledger, miner: Hash, fees: seq<L.Fee>, n: nat)
    requires n <= |fees| && miner in l.accounts
    ensures !L.CollectFees(l, miner, fees[..n]).Done? ==>
      L.CollectFees(l, miner, fees) == L.CollectFees(l, miner, fees[..n])
    decreases |fees| - n
  {
    if n == |fees| {
      assert fees[..n] == fees;
    } else {
      assert fees[..n + 1][..n] == fees[..n];
      FeesPrefixFails(l, miner, fees, n + 1);
    }
  }

  function SortAggregated(data: BlockData): BlockData { data.(aggFunds := SortedByTxCount(data.aggFunds)) }
}
