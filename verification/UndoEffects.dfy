/** Undoing stages moves back what they moved, in whatever order the code visits the transactions. */
module UndoEffects {
  import opened Words
  import opened Protocol
  import opened Transactions
  import opened Ledger
  import opened Effects
  import opened StageEffects
  import opened Validation
  import opened BlockEffects

  // -------------------- sums over transaction lists --------------------

  ghost function Sum<T>(xs: seq<T>, f: T -> int): int {
    if xs == [] then 0 else Sum(xs[..|xs| - 1], f) + f(xs[|xs| - 1])
  }

  lemma {:induction false} SumConcat<T>(xs: seq<T>, ys: seq<T>, f: T -> int)
    ensures Sum(xs + ys, f) == Sum(xs, f) + Sum(ys, f)
  {
    if ys == [] {
      assert xs + ys == xs;
    } else {
      assert (xs + ys)[..|xs + ys| - 1] == xs + ys[..|ys| - 1];
      SumConcat(xs, ys[..|ys| - 1], f);
    }
  }

  ghost function Without<T>(xs: seq<T>, i: nat): seq<T>
    requires i < |xs|
  {
    xs[..i] + xs[i + 1..]
  }

  lemma WithoutOne<T>(xs: seq<T>, i: nat)
    requires i < |xs|
    ensures multiset(Without(xs, i)) == multiset(xs) - multiset{xs[i]}
  {
    assert xs == (xs[..i] + [xs[i]]) + xs[i + 1..];
  }

  lemma SumOne<T>(x: T, f: T -> int)
    ensures Sum([x], f) == f(x)
  {
    assert [x][..0] == [];
  }

  lemma SumWithout<T>(xs: seq<T>, i: nat, f: T -> int)
    requires i < |xs|
    ensures Sum(Without(xs, i), f) == Sum(xs, f) - f(xs[i])
  {
    hide Sum;
    assert xs == xs[..i] + [xs[i]] + xs[i + 1..];
    SumConcat(xs[..i] + [xs[i]], xs[i + 1..], f);
    SumConcat(xs[..i], [xs[i]], f);
    SumConcat(xs[..i], xs[i + 1..], f);
    SumOne(xs[i], f);
  }

  lemma {:induction false} SumPermutation<T>(xs: seq<T>, ys: seq<T>, f: T -> int)
    requires multiset(xs) == multiset(ys)
    ensures Sum(xs, f) == Sum(ys, f)
    decreases |xs|
  {
    if xs == [] {
      assert |multiset(ys)| == 0;
    } else {
      var last := |xs| - 1;
      assert xs[last] in multiset(ys);
      var i :| 0 <= i < |ys| && ys[i] == xs[last];
      WithoutOne(xs, last);
      WithoutOne(ys, i);
      SumWithout(xs, last, f);
      SumWithout(ys, i, f);
      SumPermutation(Without(xs, last), Without(ys, i), f);
    }
  }

  lemma {:induction false} FundsMovesSum(roots: set<Hash>, txs: seq<FundsTx>, a: Hash, f: FundsTx -> int)
    requires forall tx :: f(tx) == Net(TxMoves(roots, tx), a)
    ensures Net(FundsMoves(roots, txs), a) == Sum(txs, f)
  {
    hide TxMoves;
    if txs != [] {
      FundsMovesSum(roots, txs[..|txs| - 1], a, f);
      NetConcat(FundsMoves(roots, txs[..|txs| - 1]), TxMoves(roots, txs[|txs| - 1]), a);
    }
  }

  lemma {:induction false} FundsMarksSum(txs: seq<FundsTx>, a: Hash, f: FundsTx -> int)
    requires forall tx :: f(tx) == if tx.from == a then 1 else 0
    ensures Net(FundsMarks(txs), a) == Sum(txs, f)
  {
    if txs != [] {
      FundsMarksSum(txs[..|txs| - 1], a, f);
      NetConcat(FundsMarks(txs[..|txs| - 1]), [Move(txs[|txs| - 1].from, 1)], a);
      NetOne(Move(txs[|txs| - 1].from, 1), a);
    }
  }

  lemma {:induction false} FeeMovesSum(miner: Hash, fees: seq<Fee>, a: Hash, f: Fee -> int)
    requires forall fee :: f(fee) == Net(OneFeeMoves(miner, fee), a)
    ensures Net(FeeMoves(miner, fees), a) == Sum(fees, f)
  {
    hide OneFeeMoves;
    if fees != [] {
      FeeMovesSum(miner, fees[..|fees| - 1], a, f);
      NetConcat(FeeMoves(miner, fees[..|fees| - 1]), OneFeeMoves(miner, fees[|fees| - 1]), a);
    }
  }

  // -------------------- aggregated funds --------------------

  ghost function Flatten(groups: seq<seq<FundsTx>>): seq<FundsTx> {
    if groups == [] then [] else Flatten(groups[..|groups| - 1]) + groups[|groups| - 1]
  }

  ghost function AggMoves(roots: set<Hash>, miner: Hash, groups: seq<seq<FundsTx>>): seq<Move> {
    if groups == [] then []
    else AggMoves(roots, miner, groups[..|groups| - 1])
         + (FeeMoves(miner, FundsFees(groups[|groups| - 1])) + FundsMoves(roots, groups[|groups| - 1]))
  }

  ghost function AggMarks(groups: seq<seq<FundsTx>>): seq<Move> {
    if groups == [] then [] else AggMarks(groups[..|groups| - 1]) + ([] + FundsMarks(groups[|groups| - 1]))
  }

  lemma {:induction false} AggregatedRollbackEffect(l: Ledger, miner: Hash, groups: seq<seq<FundsTx>>)
    requires (groups == [] || miner in l.accounts) && FundsAccountsExist(l, Flatten(groups))
    ensures AggregatedStateRollback(l, miner, groups).Done?
    ensures var m := AggregatedStateRollback(l, miner, groups).ledger;
      MovedBack(l, m, AggMoves(l.rootKeys, miner, groups), AggMarks(groups)) && SameStaking(l, m)
    decreases groups
  {
    hide Wrap64, Wrap32, Net, Moved, FundsMoves, FundsMarks, FeeMoves, FundsStateChangeRollback, CollectTxFeesRollback;
    if groups == [] {
      MovedNot(l);
      assert Opposite([]) == [];
    } else {
      var rest, group := groups[..|groups| - 1], groups[|groups| - 1];
      assert FundsAccountsExist(l, group) && FundsAccountsExist(l, Flatten(rest)) by {
        assert forall i :: 0 <= i < |group| ==> group[i] == Flatten(groups)[|Flatten(rest)| + i];
        assert forall i :: 0 <= i < |Flatten(rest)| ==> Flatten(rest)[i] == Flatten(groups)[i];
      }
      FundsRollbackEffect(l, group);
      var m := FundsStateChangeRollback(l, group).ledger;
      KeysBack(l, m, FundsMoves(l.rootKeys, group), FundsMarks(group));
      assert PayersExist(m, FundsFees(group));
      FeesRollbackEffect(m, miner, FundsFees(group));
      var n := CollectTxFeesRollback(m, miner, FundsFees(group)).ledger;
      KeysBack(m, n, FeeMoves(miner, FundsFees(group)), []);
      AggregatedRollbackEffect(n, miner, rest);
      MovedBackTrans(l, m, n, FeeMoves(miner, FundsFees(group)), [], FundsMoves(l.rootKeys, group), FundsMarks(group));
      MovedBackTrans(l, n, AggregatedStateRollback(n, miner, rest).ledger, AggMoves(l.rootKeys, miner, rest),
                     AggMarks(rest),
                     FeeMoves(miner, FundsFees(group)) + FundsMoves(l.rootKeys, group), [] + FundsMarks(group));
    }
  }

  lemma KeysBack(l: Ledger, m: Ledger, moves: seq<Move>, marks: seq<Move>)
    requires MovedBack(l, m, moves, marks)
    ensures m.rootKeys == l.rootKeys && m.accounts.Keys == l.accounts.Keys
  {
  }

  lemma NothingMoves(roots: set<Hash>, miner: Hash)
    ensures FundsMoves(roots, []) == [] && FundsMarks([]) == [] && FeeMoves(miner, FundsFees([])) == []
    ensures forall a :: Net([], a) == 0
  {
  }

  lemma {:induction false} AggNet(roots: set<Hash>, miner: Hash, groups: seq<seq<FundsTx>>, a: Hash)
    ensures Net(AggMoves(roots, miner, groups), a)
      == Net(FundsMoves(roots, Flatten(groups)), a) + Net(FeeMoves(miner, FundsFees(Flatten(groups))), a)
    ensures Net(AggMarks(groups), a) == Net(FundsMarks(Flatten(groups)), a)
  {
    hide FundsMoves, FeeMoves, FundsMarks, FundsFees, Net;
    if groups == [] {
      NothingMoves(roots, miner);
    } else {
      var rest, group := groups[..|groups| - 1], groups[|groups| - 1];
      AggNet(roots, miner, rest, a);
      NetConcat(AggMoves(roots, miner, rest), FeeMoves(miner, FundsFees(group)) + FundsMoves(roots, group), a);
      NetConcat(FeeMoves(miner, FundsFees(group)), FundsMoves(roots, group), a);
      NetConcat(AggMarks(rest), [] + FundsMarks(group), a);
      assert [] + FundsMarks(group) == FundsMarks(group);
      FundsNetConcat(roots, miner, Flatten(rest), group, a);
    }
  }

  lemma FundsNetConcat(roots: set<Hash>, miner: Hash, xs: seq<FundsTx>, ys: seq<FundsTx>, a: Hash)
    ensures Net(FundsMoves(roots, xs + ys), a) == Net(FundsMoves(roots, xs), a) + Net(FundsMoves(roots, ys), a)
    ensures Net(FundsMarks(xs + ys), a) == Net(FundsMarks(xs), a) + Net(FundsMarks(ys), a)
    ensures Net(FeeMoves(miner, FundsFees(xs + ys)), a)
      == Net(FeeMoves(miner, FundsFees(xs)), a) + Net(FeeMoves(miner, FundsFees(ys)), a)
  {
    hide Net;
    var f: FundsTx -> int := (tx: FundsTx) => Net(TxMoves(roots, tx), a);
    var g: FundsTx -> int := (tx: FundsTx) => if tx.from == a then 1 else 0;
    FundsMovesSum(roots, xs, a, f);
    FundsMovesSum(roots, ys, a, f);
    FundsMovesSum(roots, xs + ys, a, f);
    SumConcat(xs, ys, f);
    FundsMarksSum(xs, a, g);
    FundsMarksSum(ys, a, g);
    FundsMarksSum(xs + ys, a, g);
    SumConcat(xs, ys, g);
    assert FundsFees(xs + ys) == FundsFees(xs) + FundsFees(ys);
    FeeNetConcat(miner, FundsFees(xs), FundsFees(ys), a);
  }

  lemma FeeNetConcat(miner: Hash, fees: seq<Fee>, fees': seq<Fee>, a: Hash)
    ensures Net(FeeMoves(miner, fees + fees'), a) == Net(FeeMoves(miner, fees), a) + Net(FeeMoves(miner, fees'), a)
  {
    hide Net;
    var f: Fee -> int := (fee: Fee) => Net(OneFeeMoves(miner, fee), a);
    FeeMovesSum(miner, fees, a, f);
    FeeMovesSum(miner, fees', a, f);
    FeeMovesSum(miner, fees + fees', a, f);
    SumConcat(fees, fees', f);
  }

  // The order in which a list of funds transactions is visited does not matter.
  lemma FundsNetPermutation(roots: set<Hash>, miner: Hash, xs: seq<FundsTx>, ys: seq<FundsTx>, a: Hash)
    requires multiset(xs) == multiset(ys)
    ensures Net(FundsMoves(roots, xs), a) == Net(FundsMoves(roots, ys), a)
    ensures Net(FundsMarks(xs), a) == Net(FundsMarks(ys), a)
    ensures Net(FeeMoves(miner, FundsFees(xs)), a) == Net(FeeMoves(miner, FundsFees(ys)), a)
  {
    hide Net;
    var f: FundsTx -> int := (tx: FundsTx) => Net(TxMoves(roots, tx), a);
    var g: FundsTx -> int := (tx: FundsTx) => if tx.from == a then 1 else 0;
    var h: FundsTx -> int := (tx: FundsTx) => Net(OneFeeMoves(miner, Charged(tx.from, tx.fee)), a);
    FundsMovesSum(roots, xs, a, f);
    FundsMovesSum(roots, ys, a, f);
    SumPermutation(xs, ys, f);
    FundsMarksSum(xs, a, g);
    FundsMarksSum(ys, a, g);
    SumPermutation(xs, ys, g);
    FundsFeesSum(miner, xs, a, h);
    FundsFeesSum(miner, ys, a, h);
    SumPermutation(xs, ys, h);
  }

  lemma {:induction false} FundsFeesSum(miner: Hash, txs: seq<FundsTx>, a: Hash, f: FundsTx -> int)
    requires forall tx :: f(tx) == Net(OneFeeMoves(miner, Charged(tx.from, tx.fee)), a)
    ensures Net(FeeMoves(miner, FundsFees(txs)), a) == Sum(txs, f)
  {
    hide OneFeeMoves;
    if txs == [] {
      assert FundsFees(txs) == [];
    } else {
      var rest := txs[..|txs| - 1];
      FundsFeesSum(miner, rest, a, f);
      assert FundsFees(txs)[..|txs| - 1] == FundsFees(rest);
      NetConcat(FeeMoves(miner, FundsFees(rest)), OneFeeMoves(miner, FundsFees(txs)[|txs| - 1]), a);
    }
  }

  // -------------------- the whole block, backwards --------------------

  ghost function UndoFundsMoves(roots: set<Hash>, data: BlockData, groups: seq<seq<FundsTx>>): seq<Move> {
    AggMoves(roots, data.block.beneficiary, groups) + FundsMoves(roots, data.fundsTxs)
  }

  ghost function PlainFees(data: BlockData): seq<Fee> {
    BlockFees(data.accTxs, data.fundsTxs, data.configTxs, data.stakeTxs)
  }

  ghost function UndoFeesMoves(roots: set<Hash>, data: BlockData, groups: seq<seq<FundsTx>>): seq<Move> {
    UndoFundsMoves(roots, data, groups) + [] + FeeMoves(data.block.beneficiary, PlainFees(data))
  }

  ghost function UndoMarks(data: BlockData, groups: seq<seq<FundsTx>>): seq<Move> {
    AggMarks(groups) + FundsMarks(data.fundsTxs)
  }

  ghost predicate NamedForFundsUndo(l: Ledger, data: BlockData, groups: seq<seq<FundsTx>>) {
    && FundsAccountsExist(l, data.fundsTxs) && FundsAccountsExist(l, Flatten(groups)) && StakersExist(l, data.stakeTxs)
    && (groups == [] || data.block.beneficiary in l.accounts)
  }

  ghost predicate NamedForUndo(l: Ledger, data: BlockData, groups: seq<seq<FundsTx>>) {
    NamedForFundsUndo(l, data, groups) && PayersExist(l, PlainFees(data)) && data.block.beneficiary in l.accounts
  }

  lemma UndoFundsEffect(l: Ledger, data: BlockData, groups: seq<seq<FundsTx>>) returns (n: Ledger)
    requires NamedForFundsUndo(l, data, groups)
    ensures UndoFunds(l, data, groups) == AccStateChangeRollback(n, data.accTxs)
    ensures MovedBack(l, n, UndoFundsMoves(l.rootKeys, data, groups), UndoMarks(data, groups)) && SameStaking(l, n)
  {
    hide Wrap64, Wrap32, Net, Moved, FundsMoves, FundsMarks, FundsStateChangeRollback, AggMoves, AggMarks, FundsFees,
         Flatten, AggregatedStateRollback;
    FundsRollbackEffect(l, data.fundsTxs);
    var m := FundsStateChangeRollback(l, data.fundsTxs).ledger;
    KeysBack(l, m, FundsMoves(l.rootKeys, data.fundsTxs), FundsMarks(data.fundsTxs));
    AggregatedRollbackEffect(m, data.block.beneficiary, groups);
    n := AggregatedStateRollback(m, data.block.beneficiary, groups).ledger;
    MovedBackTrans(l, m, n, AggMoves(l.rootKeys, data.block.beneficiary, groups), AggMarks(groups),
                   FundsMoves(l.rootKeys, data.fundsTxs), FundsMarks(data.fundsTxs));
  }

  lemma UndoStakeEffect(l: Ledger, data: BlockData, groups: seq<seq<FundsTx>>) returns (n: Ledger)
    requires NamedForFundsUndo(l, data, groups)
    ensures UndoStake(l, data, groups) == AccStateChangeRollback(n, data.accTxs)
    ensures MovedBack(l, n, UndoFundsMoves(l.rootKeys, data, groups) + [], UndoMarks(data, groups) + [])
    ensures forall a :: a in l.accounts ==>
      n.accounts[a].isStaking == (l.accounts[a].isStaking != Flips(data.stakeTxs, a))
  {
    hide Wrap64, Wrap32, Net, Moved, UndoFundsMoves, UndoMarks, StakeStateChangeRollback, UndoFunds, BlockFees, Flatten;
    StakeRollbackEffect(l, data.stakeTxs);
    var m := StakeStateChangeRollback(l, data.stakeTxs).ledger;
    FlippedMoves(l, m, data.stakeTxs);
    n := UndoFundsEffect(m, data, groups);
    MovedBackTrans(l, m, n, UndoFundsMoves(l.rootKeys, data, groups), UndoMarks(data, groups), [], []);
  }

  lemma UndoFeesEffect(l: Ledger, data: BlockData, groups: seq<seq<FundsTx>>) returns (n: Ledger)
    requires NamedForUndo(l, data, groups)
    ensures UndoFees(l, data, groups) == AccStateChangeRollback(n, data.accTxs)
    ensures MovedBack(l, n, UndoFeesMoves(l.rootKeys, data, groups), UndoMarks(data, groups))
    ensures forall a :: a in l.accounts ==>
      n.accounts[a].isStaking == (l.accounts[a].isStaking != Flips(data.stakeTxs, a))
  {
    hide Wrap64, Wrap32, Net, Moved, UndoFundsMoves, UndoMarks, CollectTxFeesRollback, UndoStake, BlockFees, Flatten,
         FeeMoves, Flips;
    FeesRollbackEffect(l, data.block.beneficiary, PlainFees(data));
    var m := CollectTxFeesRollback(l, data.block.beneficiary, PlainFees(data)).ledger;
    KeysBack(l, m, FeeMoves(data.block.beneficiary, PlainFees(data)), []);
    n := UndoStakeEffect(m, data, groups);
    MovedBackTrans(l, m, n, UndoFundsMoves(l.rootKeys, data, groups) + [], UndoMarks(data, groups) + [],
                   FeeMoves(data.block.beneficiary, PlainFees(data)), []);
    assert UndoMarks(data, groups) + [] + [] == UndoMarks(data, groups);
  }

  lemma UndoRewardEffect(l: Ledger, p: Parameters, data: BlockData, groups: seq<seq<FundsTx>>) returns (n: Ledger)
    requires NamedForUndo(l, data, groups)
    ensures UndoReward(l, p, data, groups) == AccStateChangeRollback(n, data.accTxs)
    ensures MovedBack(l, n, UndoFeesMoves(l.rootKeys, data, groups) + [Move(data.block.beneficiary, p.blockReward)],
      UndoMarks(data, groups))
    ensures forall a :: a in l.accounts ==>
      n.accounts[a].isStaking == (l.accounts[a].isStaking != Flips(data.stakeTxs, a))
  {
    hide Wrap64, Wrap32, Net, Moved, UndoFeesMoves, UndoMarks, UndoFees, BlockFees, Flatten, Flips;
    var miner := data.block.beneficiary;
    var m := l.Debit(miner, p.blockReward);
    CreditMoves(l, miner, 0 - p.blockReward);
    var none: seq<Move> := [];
    assert Opposite(none) == none;
    assert Opposite([Move(miner, p.blockReward)]) == [Move(miner, 0 - p.blockReward)];
    n := UndoFeesEffect(m, data, groups);
    MovedBackTrans(l, m, n, UndoFeesMoves(l.rootKeys, data, groups), UndoMarks(data, groups),
                   [Move(miner, p.blockReward)], none);
    assert UndoMarks(data, groups) + none == UndoMarks(data, groups);
  }

  ghost function UndoMoves(roots: set<Hash>, p: Parameters, data: BlockData, groups: seq<seq<FundsTx>>): seq<Move> {
    UndoFeesMoves(roots, data, groups) + [Move(data.block.beneficiary, p.blockReward)] + SlashMoves(p, data.block)
  }

  lemma UndoBlockEffect(l: Ledger, p: Parameters, data: BlockData, groups: seq<seq<FundsTx>>) returns (n: Ledger)
    requires NamedForUndo(l, data, groups)
    requires data.block.CarriesSlashingProof() ==> data.block.slashedAddress in l.accounts
    ensures ValidateStateRollback(l, p, data, groups) == AccStateChangeRollback(n, data.accTxs)
    ensures MovedBack(l, n, UndoMoves(l.rootKeys, p, data, groups), UndoMarks(data, groups))
    ensures forall a :: a in l.accounts ==>
      n.accounts[a].isStaking == ((l.accounts[a].isStaking || IsSlashed(data.block, a)) != Flips(data.stakeTxs, a))
  {
    hide Wrap64, Wrap32, Net, Moved, UndoFeesMoves, UndoMarks, UndoReward, BlockFees, Flatten, Flips, SlashMoves,
         CollectSlashRewardRollback;
    SlashRollbackEffect(l, p, data.block);
    var m := CollectSlashRewardRollback(l, p.slashReward, p.stakingMinimum, data.block).ledger;
    KeysBack(l, m, SlashMoves(p, data.block), []);
    var none: seq<Move> := [];
    n := UndoRewardEffect(m, p, data, groups);
    MovedBackTrans(l, m, n, UndoFeesMoves(l.rootKeys, data, groups) + [Move(data.block.beneficiary, p.blockReward)],
                   UndoMarks(data, groups), SlashMoves(p, data.block), none);
    assert UndoMarks(data, groups) + none == UndoMarks(data, groups);
  }

  // The rollback's groups hold the same transactions as the state change's list, but for marks and blocks.
  ghost predicate GroupsMatch(data: BlockData, groups: seq<seq<FundsTx>>) {
    multiset(Bares(Flatten(groups))) == multiset(Bares(data.aggFunds))
  }

  // The fees collected for aggregations and those of the applied transactions, which the rollback gives back, add up to
  // the same, modulo 2^64, on each of the accounts.
  ghost predicate FeesCancel(accounts: set<Hash>, data: BlockData) {
    var miner := data.block.beneficiary;
    forall a <- accounts ::
      Wrap64(Net(FeeMoves(miner, FundsFees(data.aggFees)), a) - Net(FeeMoves(miner, FundsFees(data.aggFunds)), a)) == 0
  }

  // What the block moved and what its rollback moves cancel, modulo the word size, on each of the accounts.
  ghost predicate NetsAgree(accounts: set<Hash>, roots: set<Hash>, p: Parameters, data: BlockData,
                            groups: seq<seq<FundsTx>>) {
    forall a <- accounts ::
      && Wrap64(Net(BlockMoves(roots, p, data), a) - Net(UndoMoves(roots, p, data, groups), a)) == 0
      && Wrap32(Net(BlockMarks(data), a) - Net(UndoMarks(data, groups), a)) == 0
  }

  // The rollback undoes no transaction but those applied, however often and in whatever order.
  ghost predicate GroupsApplied(data: BlockData, groups: seq<seq<FundsTx>>) {
    forall tx <- Flatten(groups) :: Bare(tx) in Bares(data.fundsTxs) || Bare(tx) in Bares(data.aggFunds)
  }

  lemma {:induction false} FundsNetBare(roots: set<Hash>, txs: seq<FundsTx>, a: Hash)
    ensures Net(FundsMoves(roots, Bares(txs)), a) == Net(FundsMoves(roots, txs), a)
    ensures Net(FundsMarks(Bares(txs)), a) == Net(FundsMarks(txs), a) && FundsFees(Bares(txs)) == FundsFees(txs)
  {
    hide Net, TxMoves;
    if txs == [] {
      assert Bares(txs) == [];
    } else {
      var rest, tx := txs[..|txs| - 1], txs[|txs| - 1];
      FundsNetBare(roots, rest, a);
      assert Bares(txs)[..|txs| - 1] == Bares(rest);
      BareMoves(roots, tx);
      NetConcat(FundsMoves(roots, rest), TxMoves(roots, tx), a);
      NetConcat(FundsMoves(roots, Bares(rest)), TxMoves(roots, Bare(tx)), a);
      NetConcat(FundsMarks(rest), [Move(tx.from, 1)], a);
      NetConcat(FundsMarks(Bares(rest)), [Move(tx.from, 1)], a);
    }
  }

  lemma BareMoves(roots: set<Hash>, tx: FundsTx)
    ensures TxMoves(roots, Bare(tx)) == TxMoves(roots, tx)
  {
  }

  lemma FundsNetSame(roots: set<Hash>, miner: Hash, xs: seq<FundsTx>, ys: seq<FundsTx>, a: Hash)
    requires multiset(Bares(xs)) == multiset(Bares(ys))
    ensures Net(FundsMoves(roots, xs), a) == Net(FundsMoves(roots, ys), a)
    ensures Net(FundsMarks(xs), a) == Net(FundsMarks(ys), a)
    ensures Net(FeeMoves(miner, FundsFees(xs)), a) == Net(FeeMoves(miner, FundsFees(ys)), a)
  {
    hide Net, FundsMoves, FundsMarks, FeeMoves, FundsFees, Bares;
    FundsNetBare(roots, xs, a);
    FundsNetBare(roots, ys, a);
    FundsNetPermutation(roots, miner, Bares(xs), Bares(ys), a);
  }

  // What a block moves and what its rollback moves differ, account by account, by what the groups differ from the
  // aggregated transactions and from the fees collected for them.
  lemma UndoDifference(roots: set<Hash>, p: Parameters, data: BlockData, groups: seq<seq<FundsTx>>, a: Hash)
    ensures var miner, undone := data.block.beneficiary, Flatten(groups);
      && Net(BlockMoves(roots, p, data), a) - Net(UndoMoves(roots, p, data, groups), a)
         == Net(FundsMoves(roots, data.aggFunds), a) - Net(FundsMoves(roots, undone), a)
            + Net(FeeMoves(miner, FundsFees(data.aggFees)), a) - Net(FeeMoves(miner, FundsFees(undone)), a)
      && Net(BlockMarks(data), a) - Net(UndoMarks(data, groups), a)
         == Net(FundsMarks(data.aggFunds), a) - Net(FundsMarks(undone), a)
  {
    hide Net, FundsMoves, FundsMarks, FeeMoves, Flatten;
    var miner := data.block.beneficiary;
    var reward := [Move(miner, p.blockReward)];
    FeesNet(data, a);
    AggNet(roots, miner, groups, a);
    NetConcat(UndoFeesMoves(roots, data, groups) + reward, SlashMoves(p, data.block), a);
    NetConcat(UndoFeesMoves(roots, data, groups), reward, a);
    assert UndoFundsMoves(roots, data, groups) + [] == UndoFundsMoves(roots, data, groups);
    NetConcat(UndoFundsMoves(roots, data, groups), FeeMoves(miner, PlainFees(data)), a);
    NetConcat(AggMoves(roots, miner, groups), FundsMoves(roots, data.fundsTxs), a);
    var stages := FundsMoves(roots, data.fundsTxs) + FundsMoves(roots, data.aggFunds);
    NetConcat(stages + FeeMoves(miner, AllFees(data)) + reward, SlashMoves(p, data.block), a);
    NetConcat(stages + FeeMoves(miner, AllFees(data)), reward, a);
    NetConcat(stages, FeeMoves(miner, AllFees(data)), a);
    NetConcat(FundsMoves(roots, data.fundsTxs), FundsMoves(roots, data.aggFunds), a);
    NetConcat(AggMarks(groups), FundsMarks(data.fundsTxs), a);
    NetConcat(FundsMarks(data.fundsTxs), FundsMarks(data.aggFunds), a);
  }

  lemma FeesNet(data: BlockData, a: Hash)
    ensures Net(FeeMoves(data.block.beneficiary, AllFees(data)), a)
      == Net(FeeMoves(data.block.beneficiary, PlainFees(data)),
             a) + Net(FeeMoves(data.block.beneficiary, FundsFees(data.aggFees)), a)
  {
    hide Net, FeeMoves;
    var miner := data.block.beneficiary;
    var accs, funds, aggs, rest := AccFees(data.accTxs), FundsFees(data.fundsTxs), FundsFees(data.aggFees),
        ConfigFees(data.configTxs) + StakeFees(data.stakeTxs);
    assert AllFees(data) == accs + (funds + (aggs + rest)) by {
      assert FundsFees(data.fundsTxs + data.aggFees) == funds + aggs;
    }
    assert PlainFees(data) == accs + (funds + rest);
    FeeNetConcat(miner, accs, funds + (aggs + rest), a);
    FeeNetConcat(miner, funds, aggs + rest, a);
    FeeNetConcat(miner, aggs, rest, a);
    FeeNetConcat(miner, accs, funds + rest, a);
    FeeNetConcat(miner, funds, rest, a);
  }
}
