/** The effect of a whole block on every account, and of undoing it. */
module BlockEffects {
  import opened Words
  import opened Protocol
  import opened Ledger
  import opened Effects
  import opened StageEffects
  import opened Validation

  // -------------------- staking flags --------------------

  // Whether account a changes sides an odd number of times.
  ghost function Flips(txs: seq<StakeTx>, a: Hash): bool {
    if txs == [] then false else Flips(txs[..|txs| - 1], a) != (txs[|txs| - 1].account == a)
  }

  ghost predicate Flipped(before: Ledger, after: Ledger, txs: seq<StakeTx>) {
    && after.rootKeys == before.rootKeys
    && after.accounts.Keys == before.accounts.Keys
    && forall a :: a in before.accounts ==>
      after.accounts[a] == before.accounts[a].(isStaking := before.accounts[a].isStaking != Flips(txs, a))
  }

  ghost predicate StakersExist(l: Ledger, txs: seq<StakeTx>) {
    forall i :: 0 <= i < |txs| ==> txs[i].account in l.accounts
  }

  lemma {:induction false} StakeEffect(l: Ledger, stakingMinimum: uint64, txs: seq<StakeTx>, initialSetup: bool)
    requires StakeStateChange(l, stakingMinimum, txs, initialSetup).Done?
    ensures Flipped(l, StakeStateChange(l, stakingMinimum, txs, initialSetup).ledger, txs)
    ensures StakersExist(l, txs)
  {
    hide Wrap64;
    if txs != [] {
      StakeEffect(l, stakingMinimum, txs[..|txs| - 1], initialSetup);
    }
  }

  lemma {:induction false} StakeRollbackEffect(l: Ledger, txs: seq<StakeTx>)
    requires StakersExist(l, txs)
    ensures StakeStateChangeRollback(l, txs).Done?
    ensures Flipped(l, StakeStateChangeRollback(l, txs).ledger, txs)
    decreases txs
  {
    if txs != [] {
      var tx := txs[|txs| - 1];
      var m := l.SetStaking(tx.account, !l.accounts[tx.account].isStaking);
      StakeRollbackEffect(m, txs[..|txs| - 1]);
    }
  }

  lemma FlippedMoves(l: Ledger, m: Ledger, txs: seq<StakeTx>)
    requires Flipped(l, m, txs)
    ensures Moved(l, m, [], []) && MovedBack(l, m, [], [])
  {
    hide Wrap64, Wrap32;
    forall a | a in l.accounts
      ensures Wrap64(l.accounts[a].balance) == l.accounts[a].balance
        && Wrap32(l.accounts[a].txCnt) == l.accounts[a].txCnt {
      WrapSame(l.accounts[a].balance, l.accounts[a].txCnt);
    }
    assert Opposite([]) == [];
  }

  // -------------------- rewards --------------------

  lemma StakingDoesNotMove(l: Ledger, m: Ledger, h: Hash, staking: bool, moves: seq<Move>, marks: seq<Move>)
    requires h in m.accounts && Moved(l, m, moves, marks)
    ensures Moved(l, m.SetStaking(h, staking), moves, marks)
  {
    hide Wrap64, Wrap32, Net;
  }

  // Two credits, one after the other, and then a staking flag.
  lemma RewardMoves(l: Ledger, h: Hash, x: int, k: Hash, y: int, staking: bool)
    requires h in l.accounts && k in l.accounts
    ensures var m := l.Credit(h, x).Credit(k, y).SetStaking(k, staking);
      && Moved(l, m, [Move(h, x)] + [Move(k, y)], [])
      && forall a :: a in l.accounts ==> m.accounts[a].isStaking == if a == k then staking else l.accounts[a].isStaking
  {
    hide Wrap64, Wrap32, Net, Moved;
    TwoCreditsMove(l, h, x, k, y);
    StakingDoesNotMove(l, l.Credit(h, x).Credit(k, y), k, staking, [Move(h, x)] + [Move(k, y)], []);
  }

  lemma SlashEffect(l: Ledger, p: Parameters, b: Block)
    requires CollectSlashReward(l, p.slashReward, p.stakingMinimum, b).Done?
    ensures var m := CollectSlashReward(l, p.slashReward, p.stakingMinimum, b).ledger;
      && Moved(l, m, SlashMoves(p, b), [])
      && forall a :: a in l.accounts ==>
        m.accounts[a].isStaking == (l.accounts[a].isStaking && !(b.CarriesSlashingProof() && a == b.slashedAddress))
    ensures b.CarriesSlashingProof() ==> b.slashedAddress in l.accounts && b.beneficiary in l.accounts
  {
    hide Wrap64, Wrap32, Net, Moved;
    if b.CarriesSlashingProof() {
      RewardMoves(l, b.beneficiary, p.slashReward, b.slashedAddress, 0 - p.stakingMinimum, false);
    } else {
      MovedNot(l);
    }
  }

  lemma SlashRollbackEffect(l: Ledger, p: Parameters, b: Block)
    requires b.CarriesSlashingProof() ==> b.slashedAddress in l.accounts && b.beneficiary in l.accounts
    ensures CollectSlashRewardRollback(l, p.slashReward, p.stakingMinimum, b).Done?
    ensures var m := CollectSlashRewardRollback(l, p.slashReward, p.stakingMinimum, b).ledger;
      && MovedBack(l, m, SlashMoves(p, b), [])
      && forall a :: a in l.accounts ==>
        m.accounts[a].isStaking == (l.accounts[a].isStaking || (b.CarriesSlashingProof() && a == b.slashedAddress))
  {
    hide Wrap64, Wrap32, Net, Moved;
    var none: seq<Move> := [];
    assert Opposite(none) == none;
    if b.CarriesSlashingProof() {
      RewardMoves(l, b.beneficiary, 0 - p.slashReward, b.slashedAddress, p.stakingMinimum, true);
      assert Opposite(SlashMoves(p, b))
        == [Move(b.beneficiary, 0 - p.slashReward)] + [Move(b.slashedAddress, p.stakingMinimum)];
    } else {
      MovedNot(l);
      assert SlashMoves(p, b) == none;
    }
  }

  // -------------------- the whole block --------------------

  // Everything a block moves, given the root keys in force after its account transactions.
  ghost function BlockMoves(roots: set<Hash>, p: Parameters, data: BlockData): seq<Move> {
    FundsMoves(roots, data.fundsTxs) + FundsMoves(roots, data.aggFunds)
    + FeeMoves(data.block.beneficiary, AllFees(data)) + [Move(data.block.beneficiary, p.blockReward)] + SlashMoves(p,
        data.block)
  }

  ghost function BlockMarks(data: BlockData): seq<Move> {
    FundsMarks(data.fundsTxs) + FundsMarks(data.aggFunds)
  }

  ghost predicate IsSlashed(b: Block, a: Hash) { b.CarriesSlashingProof() && a == b.slashedAddress }

  // Every account a block names is there.
  ghost predicate NamedAccountsExist(l: Ledger, data: BlockData) {
    && FundsAccountsExist(l, data.fundsTxs) && FundsAccountsExist(l, data.aggFunds)
    && StakersExist(l, data.stakeTxs) && PayersExist(l, AllFees(data))
    && data.block.beneficiary in l.accounts
    && (data.block.CarriesSlashingProof() ==> data.block.slashedAddress in l.accounts)
  }

  ghost predicate BlockFresh(closed: set<Hash>, data: BlockData, initialSetup: bool) {
    NoneClosed(closed, data.fundsTxs, initialSetup) && NoneClosed(closed, data.aggFunds, initialSetup)
  }

  ghost predicate StakingFlipped(l: Ledger, m: Ledger, data: BlockData) {
    && m.accounts.Keys == l.accounts.Keys
    && forall a :: a in l.accounts ==> m.accounts[a].isStaking == (l.accounts[a].isStaking != Flips(data.stakeTxs, a))
  }

  ghost function FundsStagesMoves(roots: set<Hash>, data: BlockData): seq<Move> {
    FundsMoves(roots, data.fundsTxs) + FundsMoves(roots, data.aggFunds)
  }

  // The ledgers between the stages after the account transactions.
  function AfterFunds(l: Ledger, closed: set<Hash>, data: BlockData, initialSetup: bool): Outcome {
    match FundsStateChange(l, closed, data.fundsTxs, initialSetup)
    case Done(m) => FundsStateChange(m, closed, data.aggFunds, initialSetup)
    case other => other
  }

  function AfterStake(l: Ledger, closed: set<Hash>, p: Parameters, data: BlockData, initialSetup: bool): Outcome {
    match AfterFunds(l, closed, data, initialSetup)
    case Done(m) => StakeStateChange(m, p.stakingMinimum, data.stakeTxs, initialSetup)
    case other => other
  }

  lemma AfterStakeEffect(l: Ledger, closed: set<Hash>, p: Parameters, data: BlockData, initialSetup: bool)
    requires AfterStake(l, closed, p, data, initialSetup).Done? && BlockFresh(closed, data, initialSetup)
    ensures var m := AfterStake(l, closed, p, data, initialSetup).ledger;
      Moved(l, m, FundsStagesMoves(l.rootKeys, data), BlockMarks(data)) && StakingFlipped(l, m, data)
    ensures FundsAccountsExist(l, data.fundsTxs) && FundsAccountsExist(l, data.aggFunds)
      && StakersExist(l, data.stakeTxs)
  {
    hide Wrap64, Wrap32, Net, FundsStateChange, StakeStateChange, Moved, FundsMoves, FundsMarks;
    var none: seq<Move> := [];
    var l1 := FundsStateChange(l, closed, data.fundsTxs, initialSetup).ledger;
    FundsEffect(l, closed, data.fundsTxs, initialSetup);
    MovedKeys(l, l1, FundsMoves(l.rootKeys, data.fundsTxs), FundsMarks(data.fundsTxs));
    var l2 := FundsStateChange(l1, closed, data.aggFunds, initialSetup).ledger;
    FundsEffect(l1, closed, data.aggFunds, initialSetup);
    MovedTrans(l, l1, l2, FundsMoves(l.rootKeys, data.fundsTxs), FundsMarks(data.fundsTxs),
               FundsMoves(l.rootKeys, data.aggFunds), FundsMarks(data.aggFunds));
    MovedKeys(l, l2, FundsStagesMoves(l.rootKeys, data), BlockMarks(data));
    var l3 := StakeStateChange(l2, p.stakingMinimum, data.stakeTxs, initialSetup).ledger;
    StakeEffect(l2, p.stakingMinimum, data.stakeTxs, initialSetup);
    FlippedMoves(l2, l3, data.stakeTxs);
    MovedTrans(l, l2, l3, FundsStagesMoves(l.rootKeys, data), BlockMarks(data), none, none);
    assert FundsStagesMoves(l.rootKeys, data) + none == FundsStagesMoves(l.rootKeys, data)
      && BlockMarks(data) + none == BlockMarks(data);
  }

  lemma AfterFeesEffect(l: Ledger, m: Ledger, data: BlockData)
    requires Moved(l, m, FundsStagesMoves(l.rootKeys, data), BlockMarks(data)) && StakingFlipped(l, m, data)
    requires CollectTxFees(m, data.block.beneficiary, AllFees(data)).Done?
    ensures var n := CollectTxFees(m, data.block.beneficiary, AllFees(data)).ledger;
      && Moved(l, n, FundsStagesMoves(l.rootKeys, data) + FeeMoves(data.block.beneficiary, AllFees(data)),
               BlockMarks(data))
      && StakingFlipped(l, n, data)
    ensures data.block.beneficiary in l.accounts && PayersExist(l, AllFees(data))
  {
    hide Wrap64, Wrap32, Net, Moved, CollectFees, FundsStagesMoves, FeeMoves, BlockFees, AllFees, Flips;
    var none: seq<Move> := [];
    FeesEffect(m, data.block.beneficiary, AllFees(data));
    MovedTrans(l, m, CollectTxFees(m, data.block.beneficiary, AllFees(data)).ledger,
               FundsStagesMoves(l.rootKeys, data), BlockMarks(data), FeeMoves(data.block.beneficiary, AllFees(data)),
                 none);
    assert BlockMarks(data) + none == BlockMarks(data);
  }

  lemma AfterRewardEffect(l: Ledger, m: Ledger, data: BlockData, reward: uint64, moves: seq<Move>)
    requires Moved(l, m, moves, BlockMarks(data)) && StakingFlipped(l, m, data) && data.block.beneficiary in m.accounts
    ensures var n := m.Credit(data.block.beneficiary, reward);
      Moved(l, n, moves + [Move(data.block.beneficiary, reward)], BlockMarks(data)) && StakingFlipped(l, n, data)
  {
    hide Wrap64, Wrap32, Net, Moved, Flips;
    var none: seq<Move> := [];
    CreditMoves(m, data.block.beneficiary, reward);
    MovedTrans(l, m, m.Credit(data.block.beneficiary, reward), moves, BlockMarks(data),
               [Move(data.block.beneficiary, reward)], none);
    assert BlockMarks(data) + none == BlockMarks(data);
  }

  // The stages after the account transactions, as one step: balances and counters move by the
  // block's list, staking flags flip with the stake transactions and fall with the slashing.
  lemma StagesEffect(l: Ledger, closed: set<Hash>, p: Parameters, data: BlockData, initialSetup: bool)
    requires FundsAndLater(l, closed, p, data, initialSetup).Done?
    requires BlockFresh(closed, data, initialSetup)
    ensures var m := FundsAndLater(l, closed, p, data, initialSetup).ledger;
      && Moved(l, m, BlockMoves(l.rootKeys, p, data), BlockMarks(data))
      && forall a :: a in l.accounts ==>
        m.accounts[a].isStaking == ((l.accounts[a].isStaking != Flips(data.stakeTxs, a)) && !IsSlashed(data.block, a))
    ensures NamedAccountsExist(l, data)
  {
    hide Wrap64, Wrap32, Net, FundsStateChange, StakeStateChange, CollectTxFees, CollectSlashReward, Moved, FundsMoves,
         FeeMoves, SlashMoves, FundsMarks, BlockFees, AllFees;
    var miner := data.block.beneficiary;
    var none: seq<Move> := [];
    var l3 := AfterStake(l, closed, p, data, initialSetup).ledger;
    AfterStakeEffect(l, closed, p, data, initialSetup);
    var l4 := CollectTxFees(l3, miner, AllFees(data)).ledger;
    AfterFeesEffect(l, l3, data);
    var moves4 := FundsStagesMoves(l.rootKeys, data) + FeeMoves(miner, AllFees(data));
    MovedKeys(l, l4, moves4, BlockMarks(data));
    var l5 := l4.Credit(miner, p.blockReward);
    AfterRewardEffect(l, l4, data, p.blockReward, moves4);
    SlashEffect(l5, p, data.block);
    MovedTrans(l, l5, CollectSlashReward(l5, p.slashReward, p.stakingMinimum, data.block).ledger,
               moves4 + [Move(miner, p.blockReward)], BlockMarks(data), SlashMoves(p, data.block), none);
    assert BlockMarks(data) + none == BlockMarks(data);
  }

  lemma MovedKeys(l: Ledger, m: Ledger, moves: seq<Move>, marks: seq<Move>)
    requires Moved(l, m, moves, marks)
    ensures m.rootKeys == l.rootKeys && m.accounts.Keys == l.accounts.Keys
  {
  }
}
