/** What a block that fails late leaves behind. The compensation undoes everything but the aggregated transactions,
    which are not closed yet when it looks for them. */
module LateFailures {
  import opened Words
  import opened Protocol
  import opened Ledger
  import opened Effects
  import opened StageEffects
  import opened Validation
  import opened BlockEffects
  import opened UndoEffects
  import opened AccountStage
  import opened BlockInverse

  // What stays: the aggregated transfers and, once fees were collected, their fees.
  ghost function Residue(roots: set<Hash>, data: BlockData, feesCollected: bool): seq<Move> {
    FundsMoves(roots, data.aggFunds) + if feesCollected then FeeMoves(data.block.beneficiary, FundsFees(data.aggFees))
      else []
  }

  // The residue is a multiple of the word on every account.
  ghost predicate Vanishes(l: Ledger, moves: seq<Move>, marks: seq<Move>) {
    forall a :: a in l.accounts ==> Net(moves, a) % TWO_64 == 0 && Net(marks, a) % TWO_32 == 0
  }

  // The ledger is back but for the residue.
  ghost predicate LeftBehind(l: Ledger, n: Ledger, moves: seq<Move>, marks: seq<Move>) {
    Moved(l, n, moves, marks) && SameStaking(l, n)
  }

  lemma LeftBehindNothing(l: Ledger, n: Ledger, moves: seq<Move>, marks: seq<Move>)
    requires LeftBehind(l, n, moves, marks)
    ensures n == l <==> Vanishes(l, moves, marks)
  {
    forall a | a in l.accounts
      ensures Wrap64(l.accounts[a].balance + Net(moves, a)) == l.accounts[a].balance <==> Net(moves, a) % TWO_64 == 0
      ensures Wrap32(l.accounts[a].txCnt + Net(marks, a)) == l.accounts[a].txCnt <==> Net(marks, a) % TWO_32 == 0
    {
      WrapBack64(l.accounts[a].balance, Net(moves, a));
      WrapBack32(l.accounts[a].txCnt, Net(marks, a));
    }
    hide Net, Wrap64, Wrap32;
    if Vanishes(l, moves, marks) {
      assert n.accounts == l.accounts;
    }
  }

  lemma WrapBack64(x: uint64, y: int)
    ensures Wrap64(x + y) == x <==> y % TWO_64 == 0
  {
  }

  lemma WrapBack32(x: uint32, y: int)
    ensures Wrap32(x + y) == x <==> y % TWO_32 == 0
  {
  }

  lemma NoFunds(roots: set<Hash>)
    ensures FundsMarks([]) == [] && FundsMoves(roots, []) == []
  {
  }

  // The marks of the plain transactions cancel, those of the aggregated ones stay.
  lemma MarksLeft(data: BlockData, a: Hash)
    ensures Net(BlockMarks(data), a) - Net(UndoMarks(data, []), a) == Net(FundsMarks(data.aggFunds), a)
  {
    hide Net, FundsMarks;
    assert UndoMarks(data, []) == FundsMarks(data.fundsTxs) by { NoFunds({}); }
    NetConcat(FundsMarks(data.fundsTxs), FundsMarks(data.aggFunds), a);
  }

  // The transfers of the plain transactions cancel before the fees, and their fees with them afterwards.
  lemma TransfersLeft(roots: set<Hash>, data: BlockData, a: Hash)
    ensures Net(FundsStagesMoves(roots, data), a) - Net(UndoFundsMoves(roots, data, []) + [], a)
      == Net(Residue(roots, data, false), a)
  {
    hide Net, FundsMoves;
    assert UndoFundsMoves(roots, data, []) + [] == FundsMoves(roots, data.fundsTxs);
    assert Residue(roots, data, false) == FundsMoves(roots, data.aggFunds);
    NetConcat(FundsMoves(roots, data.fundsTxs), FundsMoves(roots, data.aggFunds), a);
  }

  lemma FeesLeft(roots: set<Hash>, data: BlockData, a: Hash)
    ensures Net(FundsStagesMoves(roots, data) + FeeMoves(data.block.beneficiary, AllFees(data)),
      a) - Net(UndoFeesMoves(roots, data, []), a)
         == Net(Residue(roots, data, true), a)
  {
    hide Net, FundsMoves, FeeMoves, FundsStagesMoves, UndoFundsMoves;
    var miner := data.block.beneficiary;
    TransfersLeft(roots, data, a);
    FeesNet(data, a);
    NetConcat(FundsStagesMoves(roots, data), FeeMoves(miner, AllFees(data)), a);
    NetConcat(UndoFundsMoves(roots, data, []) + [], FeeMoves(miner, PlainFees(data)), a);
    NetConcat(FundsMoves(roots, data.aggFunds), FeeMoves(miner, FundsFees(data.aggFees)), a);
    assert Residue(roots, data, false) == FundsMoves(roots, data.aggFunds);
  }

  lemma Cancels(l: Ledger, m: Ledger, n: Ledger, moves: seq<Move>, marks: seq<Move>, back: seq<Move>,
                backMarks: seq<Move>,
                left: seq<Move>, leftMarks: seq<Move>)
    requires Moved(l, m, moves, marks) && MovedBack(m, n, back, backMarks)
    requires forall a ::
      Net(moves, a) - Net(back, a) == Net(left, a) && Net(marks, a) - Net(backMarks, a) == Net(leftMarks, a)
    ensures Moved(l, n, left, leftMarks)
  {
    hide Wrap64, Wrap32, Net, Moved, Opposite;
    MovedTrans(l, m, n, moves, marks, Opposite(back), Opposite(backMarks));
    forall a
      ensures Net(moves + Opposite(back), a) == Net(left, a) && Net(marks + Opposite(backMarks), a) == Net(leftMarks, a)
    {
      NetConcat(moves, Opposite(back), a);
      NetConcat(marks, Opposite(backMarks), a);
      NetOpposite(back, a);
      NetOpposite(backMarks, a);
    }
    MovedLike(l, n, moves + Opposite(back), marks + Opposite(backMarks), left, leftMarks);
  }

  // The compensation after a late failure: `m` is the ledger at the failed stage and `n` what is left before the
  // account transactions are undone.
  lemma Compensated(l: Ledger, l1: Ledger, m: Ledger, n: Ledger, data: BlockData, moves: seq<Move>, back: seq<Move>,
                    left: seq<Move>)
    requires l.Valid() && AccStateChange(l, data.accTxs) == Done(l1)
    requires Moved(l1, m, moves, BlockMarks(data)) && StakingFlipped(l1, m, data)
    requires MovedBack(m, n, back, UndoMarks(data, []))
    requires forall a :: Net(moves, a) - Net(back, a) == Net(left, a)
    requires forall a :: a in m.accounts ==>
      n.accounts[a].isStaking == (m.accounts[a].isStaking != Flips(data.stakeTxs, a))
    ensures CompensatedTo(l, AccStateChangeRollback(n, data.accTxs), data, left)
  {
    hide Wrap64, Wrap32, Net, Moved, Opposite, FundsMarks, BlockMarks, UndoMarks, Flips, AccStateChange,
         AccStateChangeRollback;
    forall a ensures Net(BlockMarks(data), a) - Net(UndoMarks(data, []), a)
      == Net(FundsMarks(data.aggFunds), a) { MarksLeft(data, a); }
    MovedKeys(l1, m, moves, BlockMarks(data));
    Cancels(l1, m, n, moves, BlockMarks(data), back, UndoMarks(data, []), left, FundsMarks(data.aggFunds));
    MovedKeys(l1, n, left, FundsMarks(data.aggFunds));
    AccEffect(l, data.accTxs);
    AccStageRollsBack(l, data.accTxs, n);
    if HeadersRollBack(data.accTxs) {
      KeptAccounts(l, l1, n, left, FundsMarks(data.aggFunds));
    }
  }

  // With headers 0 and 1 the residue is all that stays; with others the ledger is not the old one anyway.
  ghost predicate CompensatedTo(l: Ledger, o: Outcome, data: BlockData, left: seq<Move>) {
    if HeadersRollBack(data.accTxs) then o.Done? && LeftBehind(l, o.ledger, left, FundsMarks(data.aggFunds))
    else o != Done(l)
  }

  // Undoing the account transactions keeps the accounts that were there before, as they are now.
  lemma KeptAccounts(l: Ledger, l1: Ledger, n: Ledger, moves: seq<Move>, marks: seq<Move>)
    requires Moved(l1, n, moves, marks) && SameStaking(l1, n)
    requires forall a :: a in l.accounts ==> a in l1.accounts && l1.accounts[a] == l.accounts[a]
    ensures LeftBehind(l, Ledger(map a | a in l.accounts && a in n.accounts :: n.accounts[a], l.rootKeys), moves, marks)
  {
    hide Wrap64, Wrap32, Net;
  }

  lemma FeesFailure(l: Ledger, l1: Ledger, m: Ledger, p: Parameters, data: BlockData, initialSetup: bool)
    requires l.Valid() && AccStateChange(l, data.accTxs) == Done(l1)
    requires Moved(l1, m, FundsStagesMoves(l1.rootKeys, data), BlockMarks(data)) && StakingFlipped(l1, m, data)
    requires FundsAccountsExist(l1, data.fundsTxs) && StakersExist(l1, data.stakeTxs)
    requires !CollectTxFees(m, data.block.beneficiary, AllFees(data)).Done?
    ensures FailedTo(l, FeesAndLater(m, p, data, initialSetup), data, Residue(l1.rootKeys, data, false))
  {
    hide Wrap64, Wrap32, Net, Moved, FundsStagesMoves, UndoFundsMoves, BlockMarks, UndoMarks, AccStateChange,
         AccStateChangeRollback, Flips, UndoStake, CollectFees, AllFees, Residue;
    MovedKeys(l1, m, FundsStagesMoves(l1.rootKeys, data), BlockMarks(data));
    if data.block.beneficiary in m.accounts {
      FeesEffect(m, data.block.beneficiary, AllFees(data));
    }
    assert CollectTxFees(m, data.block.beneficiary, AllFees(data)) == Failed(m);
    var n := UndoStakeEffect(m, data, []);
    assert UndoMarks(data, []) + [] == UndoMarks(data, []);
    forall a { TransfersLeft(l1.rootKeys, data, a); }
    Compensated(l, l1, m, n, data, FundsStagesMoves(l1.rootKeys, data), UndoFundsMoves(m.rootKeys, data, []) + [],
                Residue(l1.rootKeys, data, false));
  }

  ghost predicate FailedTo(l: Ledger, o: Outcome, data: BlockData, left: seq<Move>) {
    if HeadersRollBack(data.accTxs) then o.Failed? && LeftBehind(l, o.ledger, left, FundsMarks(data.aggFunds))
    else o != Failed(l)
  }

  lemma RewardFailure(l: Ledger, l1: Ledger, m: Ledger, p: Parameters, data: BlockData, initialSetup: bool)
    requires l.Valid() && AccStateChange(l, data.accTxs) == Done(l1)
    requires Moved(l1, m, FundsStagesMoves(l1.rootKeys, data) + FeeMoves(data.block.beneficiary, AllFees(data)),
      BlockMarks(data))
    requires StakingFlipped(l1, m, data)
    requires FundsAccountsExist(l1, data.fundsTxs) && StakersExist(l1, data.stakeTxs) && PayersExist(l1, AllFees(data))
    requires data.block.beneficiary in l1.accounts
    ensures !RewardAndLater(m, p, data, initialSetup).Done? ==>
      FailedTo(l, RewardAndLater(m, p, data, initialSetup), data, Residue(l1.rootKeys, data, true))
  {
    hide Wrap64, Wrap32, Net, Moved, FundsStagesMoves, UndoFeesMoves, FeeMoves, BlockMarks, UndoMarks, AccStateChange,
         AccStateChangeRollback, Flips, UndoFees, UndoReward, AllFees, BlockFees, ValidateStateRollback, Residue;
    var roots, miner := l1.rootKeys, data.block.beneficiary;
    var moves, left := FundsStagesMoves(roots, data) + FeeMoves(miner, AllFees(data)), Residue(roots, data, true);
    MovedKeys(l1, m, moves, BlockMarks(data));
    PlainPayersExist(l1, data);
    forall a ensures Net(moves, a) - Net(UndoFeesMoves(roots, data, []), a)
      == Net(left, a) { FeesLeft(roots, data, a); }
    if CollectBlockReward(m, p.blockReward, miner, initialSetup).Failed? {
      var n := UndoFeesEffect(m, data, []);
      Compensated(l, l1, m, n, data, moves, UndoFeesMoves(roots, data, []), left);
    } else {
      var m' := m.Credit(miner, p.blockReward);
      AfterRewardEffect(l1, m, data, p.blockReward, moves);
      if CollectSlashReward(m', p.slashReward, p.stakingMinimum, data.block).Failed? {
        var n := UndoRewardEffect(m', p, data, []);
        var reward := [Move(miner, p.blockReward)];
        forall a ensures Net(moves + reward, a) - Net(UndoFeesMoves(roots, data, []) + reward, a) == Net(left, a) {
          NetConcat(moves, reward, a);
          NetConcat(UndoFeesMoves(roots, data, []), reward, a);
        }
        Compensated(l, l1, m', n, data, moves + reward, UndoFeesMoves(roots, data, []) + reward, left);
      }
    }
  }

  lemma PlainPayersExist(l: Ledger, data: BlockData)
    requires PayersExist(l, AllFees(data))
    ensures PayersExist(l, PlainFees(data))
  {
    var fees, accs := PlainFees(data), AccFees(data.accTxs);
    forall i | 0 <= i < |fees| && fees[i].Charged? ensures fees[i].payer in l.accounts {
      if i < |accs| + |data.fundsTxs| {
        assert fees[i] == AllFees(data)[i];
      } else {
        assert fees[i] == AllFees(data)[i + |data.aggFees|];
      }
    }
  }

  // A block that fails in fee, block reward or slash collection leaves exactly the aggregated transfers behind, and
  // their fees once fees were collected; everything else is as before, if its account headers are all 0 or 1.
  lemma LateFailureResidue(l: Ledger, closed: set<Hash>, p: Parameters, data: BlockData, initialSetup: bool)
    requires l.Valid() && BlockFresh(closed, data, initialSetup) && AccStateChange(l, data.accTxs).Done?
    requires AfterStake(AccStateChange(l, data.accTxs).ledger, closed, p, data, initialSetup).Done?
    requires !ValidateState(l, closed, p, data, initialSetup).Done?
    ensures FailedTo(l, ValidateState(l, closed, p, data, initialSetup), data,
      LateResidue(l, closed, p, data, initialSetup))
  {
    hide Wrap64, Wrap32, Net, Moved, FundsStagesMoves, BlockMarks, AccStateChange, Flips, CollectTxFees,
         FundsStateChange, StakeStateChange, RewardAndLater, AllFees, BlockFees, Residue;
    var l1 := AccStateChange(l, data.accTxs).ledger;
    var m := AfterStake(l1, closed, p, data, initialSetup).ledger;
    AfterStakeEffect(l1, closed, p, data, initialSetup);
    if CollectTxFees(m, data.block.beneficiary, AllFees(data)).Done? {
      AfterFeesEffect(l1, m, data);
      RewardFailure(l, l1, CollectTxFees(m, data.block.beneficiary, AllFees(data)).ledger, p, data, initialSetup);
    } else {
      FeesFailure(l, l1, m, p, data, initialSetup);
    }
  }

  // Which residue a late failure leaves.
  ghost function LateResidue(l: Ledger, closed: set<Hash>, p: Parameters, data: BlockData,
                             initialSetup: bool): seq<Move>
    requires AccStateChange(l, data.accTxs).Done?
    requires AfterStake(AccStateChange(l, data.accTxs).ledger, closed, p, data, initialSetup).Done?
  {
    var l1 := AccStateChange(l, data.accTxs).ledger;
    var m := AfterStake(l1, closed, p, data, initialSetup).ledger;
    Residue(l1.rootKeys, data, CollectTxFees(m, data.block.beneficiary, AllFees(data)).Done?)
  }

  // A late failure is atomic if and only if the account headers are all 0 or 1 and the aggregated transactions cancel
  // on every account.
  lemma LateFailureIsAtomic(l: Ledger, closed: set<Hash>, p: Parameters, data: BlockData, initialSetup: bool)
    requires l.Valid() && BlockFresh(closed, data, initialSetup) && AccStateChange(l, data.accTxs).Done?
    requires AfterStake(AccStateChange(l, data.accTxs).ledger, closed, p, data, initialSetup).Done?
    requires !ValidateState(l, closed, p, data, initialSetup).Done?
    ensures ValidateState(l, closed, p, data, initialSetup) == Failed(l)
       <==> HeadersRollBack(data.accTxs)
            && Vanishes(l, LateResidue(l, closed, p, data, initialSetup), FundsMarks(data.aggFunds))
  {
    hide ValidateState, AccStateChange, AfterStake, LateResidue, LeftBehind, Vanishes, FundsMarks;
    LateFailureResidue(l, closed, p, data, initialSetup);
    var o := ValidateState(l, closed, p, data, initialSetup);
    if HeadersRollBack(data.accTxs) {
      LeftBehindNothing(l, o.ledger, LateResidue(l, closed, p, data, initialSetup), FundsMarks(data.aggFunds));
    }
  }

  // Without aggregations that is the condition on the headers alone.
  lemma PlainLateFailureIsAtomic(l: Ledger, closed: set<Hash>, p: Parameters, data: BlockData, initialSetup: bool)
    requires l.Valid() && BlockFresh(closed, data, initialSetup) && AccStateChange(l, data.accTxs).Done?
    requires AfterStake(AccStateChange(l, data.accTxs).ledger, closed, p, data, initialSetup).Done?
    requires !ValidateState(l, closed, p, data, initialSetup).Done? && data.aggFunds == [] && data.aggFees == []
    ensures ValidateState(l, closed, p, data, initialSetup) == Failed(l) <==> HeadersRollBack(data.accTxs)
  {
    hide ValidateState, AfterStake, AccStateChange, AllFees, CollectTxFees;
    LateFailureIsAtomic(l, closed, p, data, initialSetup);
    NoFunds(AccStateChange(l, data.accTxs).ledger.rootKeys);
    assert FundsFees([]) == [];
    assert LateResidue(l, closed, p, data, initialSetup) == [];
  }

  // With aggregations whose senders were there before it never is, short of 2^32 of them.
  lemma AggregatedLateFailureIsNotAtomic(l: Ledger, closed: set<Hash>, p: Parameters, data: BlockData,
                                         initialSetup: bool)
    requires l.Valid() && BlockFresh(closed, data, initialSetup) && AccStateChange(l, data.accTxs).Done?
    requires AfterStake(AccStateChange(l, data.accTxs).ledger, closed, p, data, initialSetup).Done?
    requires !ValidateState(l, closed, p, data, initialSetup).Done?
    requires 0 < |data.aggFunds| < TWO_32 && data.aggFunds[0].from in l.accounts
    ensures ValidateState(l, closed, p, data, initialSetup) != Failed(l)
  {
    hide ValidateState, AfterStake, AccStateChange, LateResidue;
    LateFailureIsAtomic(l, closed, p, data, initialSetup);
    MarksOfSender(data.aggFunds, 0);
  }

  lemma {:induction false} MarksOfSender(txs: seq<FundsTx>, i: nat)
    requires i < |txs|
    ensures 0 < Net(FundsMarks(txs), txs[i].from) <= |txs|
  {
    var a := txs[i].from;
    MarksBound(txs[..i + 1], a);
    MarksGrow(txs, i + 1, a);
    MarksBound(txs, a);
    assert txs[..i + 1][i] == txs[i] && txs[..i + 1][..i] == txs[..i];
    MarksBound(txs[..i], a);
    NetConcat(FundsMarks(txs[..i]), [Move(a, 1)], a);
    NetOne(Move(a, 1), a);
  }

  lemma {:induction false} MarksBound(txs: seq<FundsTx>, a: Hash)
    ensures 0 <= Net(FundsMarks(txs), a) <= |txs|
  {
    if txs != [] {
      var rest, tx := txs[..|txs| - 1], txs[|txs| - 1];
      MarksBound(rest, a);
      NetConcat(FundsMarks(rest), [Move(tx.from, 1)], a);
      NetOne(Move(tx.from, 1), a);
    }
  }

  lemma {:induction false} MarksGrow(txs: seq<FundsTx>, k: nat, a: Hash)
    requires k <= |txs|
    ensures Net(FundsMarks(txs[..k]), a) <= Net(FundsMarks(txs), a)
  {
    if k == |txs| {
      assert txs[..k] == txs;
    } else {
      var rest, tx := txs[..|txs| - 1], txs[|txs| - 1];
      MarksGrow(rest, k, a);
      assert rest[..k] == txs[..k];
      NetConcat(FundsMarks(rest), [Move(tx.from, 1)], a);
      NetOne(Move(tx.from, 1), a);
    }
  }
}
