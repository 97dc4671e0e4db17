/** What a block that fails early leaves behind: a stage that refuses a transaction keeps those before it, and the
    compensation never undoes the failed stage itself. */
module EarlyFailures {
  import opened Words
  import opened Protocol
  import opened Ledger
  import opened Effects
  import opened StageEffects
  import opened Validation
  import opened BlockEffects
  import opened UndoEffects
  import opened AccountStage
  import opened Solvency
  import opened Acceptance
  import opened LateFailures

  // The old ledger but for the moves of some funds transactions and the flips of some stake transactions.
  ghost predicate Stays(l: Ledger, n: Ledger, roots: set<Hash>, funds: seq<FundsTx>, stakes: seq<StakeTx>) {
    && Moved(l, n, FundsMoves(roots, funds), FundsMarks(funds))
    && forall a :: a in l.accounts ==> n.accounts[a].isStaking == (l.accounts[a].isStaking != Flips(stakes, a))
  }

  // The first transaction of a slice that is not covered stops the stage after the ones before it.
  lemma {:induction false} FundsStopped(l: Ledger, closed: set<Hash>, txs: seq<FundsTx>) returns (k: nat)
    requires Solvent(l) && NoneClosed(closed, txs, false) && SumsFit(txs) && !FundsFit(l, txs)
    ensures k < |txs| && FundsFit(l, txs[..k]) && !CoveredAt(l, txs, k)
    ensures FundsStateChange(l, closed, txs[..k], false).Done?
    ensures var o := FundsStateChange(l, closed, txs, false);
      o.Crashed? || o == Failed(FundsStateChange(l, closed, txs[..k], false).ledger)
  {
    hide Solvent, SumFits, CoveredAt, HeldExactly, FundsStep;
    FundsAcceptedIff(l, closed, txs);
    var rest := txs[..|txs| - 1];
    CoveredSnoc(l, txs);
    FundsAcceptedIff(l, closed, rest);
    if FundsFit(l, rest) {
      k := |rest|;
      FundsRefused(FundsStateChange(l, closed, rest, false).ledger, closed, txs[k], false);
    } else {
      k := FundsStopped(l, closed, rest);
      assert rest[..k] == txs[..k];
      CoveredPrefix(l, txs, |rest|, k);
    }
  }

  lemma {:induction false} StakesStopped(l: Ledger, balance: Hash -> int, minimum: uint64, txs: seq<StakeTx>)
    returns (k: nat)
    requires forall a :: a in l.accounts ==> balance(a) == l.accounts[a].balance
    requires !StakesFit(l, balance, minimum, txs)
    ensures k < |txs| && StakesFit(l, balance, minimum, txs[..k]) && !StakeFits(l, balance, minimum, txs, k)
    ensures StakeStateChange(l, minimum, txs[..k], false).Done?
    ensures var o := StakeStateChange(l, minimum, txs, false);
      o.Crashed? || o == Failed(StakeStateChange(l, minimum, txs[..k], false).ledger)
  {
    hide StakeStep, StakesAfter, MayStake;
    StakesAcceptedIff(l, balance, minimum, txs);
    var rest := txs[..|txs| - 1];
    StakesSnoc(l, balance, minimum, txs);
    StakesAcceptedIff(l, balance, minimum, rest);
    if StakesFit(l, balance, minimum, rest) {
      k := |rest|;
      StakeAcceptedIff(StakeStateChange(l, minimum, rest, false).ledger, minimum, txs[k], false);
    } else {
      k := StakesStopped(l, balance, minimum, rest);
      assert rest[..k] == txs[..k] && rest[..k] == txs[..k][..k] && rest[k] == txs[k];
    }
  }

  // The accounts of the block are taken away again; what the later stages moved stays on the others.
  lemma AccountsTakenAway(l: Ledger, l1: Ledger, n: Ledger, accTxs: seq<AccTx>, funds: seq<FundsTx>,
                          stakes: seq<StakeTx>)
    requires l.Valid() && AccStateChange(l, accTxs) == Done(l1) && HeadersRollBack(accTxs)
    requires Stays(l1, n, l1.rootKeys, funds, stakes)
    ensures AccStateChangeRollback(n, accTxs).Done?
    ensures Stays(l, AccStateChangeRollback(n, accTxs).ledger, l1.rootKeys, funds, stakes)
  {
    hide Wrap64, Wrap32, Net, FundsMoves, FundsMarks, Flips, AccStateChange, AccStateChangeRollback;
    AccEffect(l, accTxs);
    AccStageRollsBack(l, accTxs, n);
  }

  // Which slices stay after a failure in the funds, aggregated funds or stake stage: the transactions before the first
  // that does not fit, in its own stage; and after the stake stage all aggregated ones too.
  ghost predicate StaysBehind(l: Ledger, l1: Ledger, n: Ledger, p: Parameters, data: BlockData, k: nat) {
    var funds, roots := data.fundsTxs + data.aggFunds, l1.rootKeys;
    if !FundsFit(l1, funds) then
      && k < |funds| && FundsFit(l1, funds[..k]) && !CoveredAt(l1, funds, k)
      && Stays(l, n, roots, if k < |data.fundsTxs| then data.fundsTxs[..k]
        else data.aggFunds[..k - |data.fundsTxs|], [])
    else
      var balance := (a: Hash) => if a in l1.accounts then Balance(l1, FundsMoves(roots, funds), a) else 0;
      && k < |data.stakeTxs| && StakesFit(l1, balance, p.stakingMinimum, data.stakeTxs[..k])
      && !StakeFits(l1, balance, p.stakingMinimum, data.stakeTxs, k)
      && Stays(l, n, roots, data.aggFunds, data.stakeTxs[..k])
  }

  // Undoing the plain funds transactions leaves the aggregated ones.
  lemma PlainUndone(l: Ledger, m: Ledger, data: BlockData, agg: seq<FundsTx>, stakes: seq<StakeTx>)
    returns (n: Ledger)
    requires Stays(l, m, l.rootKeys, data.fundsTxs + agg, stakes) && FundsAccountsExist(m, data.fundsTxs)
    ensures UndoFunds(m, data, []) == AccStateChangeRollback(n, data.accTxs)
    ensures Stays(l, n, l.rootKeys, agg, stakes)
  {
    hide Wrap64, Wrap32, Net, FundsMoves, FundsMarks, Flips, UndoFunds, AccStateChangeRollback, Opposite;
    var roots, plain := l.rootKeys, data.(stakeTxs := []);
    assert UndoFunds(m, plain, []) == UndoFunds(m, data, []) by { SameUndo(m, data); }
    assert FundsAccountsExist(m, Flatten([]));
    n := UndoFundsEffect(m, plain, []);
    var back, backMarks := UndoFundsMoves(roots, plain, []), UndoMarks(plain, []);
    forall a
      ensures Net(FundsMoves(roots, data.fundsTxs + agg), a) - Net(back, a) == Net(FundsMoves(roots, agg), a)
      ensures Net(FundsMarks(data.fundsTxs + agg), a) - Net(backMarks, a) == Net(FundsMarks(agg), a)
    {
      FundsNetConcat(roots, data.block.beneficiary, data.fundsTxs, agg, a);
      assert back == FundsMoves(roots, data.fundsTxs) && backMarks == FundsMarks(data.fundsTxs);
    }
    Cancels(l, m, n, FundsMoves(roots, data.fundsTxs + agg), FundsMarks(data.fundsTxs + agg), back, backMarks,
            FundsMoves(roots, agg), FundsMarks(agg));
  }

  lemma SameUndo(m: Ledger, data: BlockData)
    ensures UndoFunds(m, data.(stakeTxs := []), []) == UndoFunds(m, data, [])
  {
  }

  lemma {:induction false} StaysWithout(l: Ledger, closed: set<Hash>, txs: seq<FundsTx>)
    requires FundsStateChange(l, closed, txs, false).Done? && NoneClosed(closed, txs, false)
    ensures Stays(l, FundsStateChange(l, closed, txs, false).ledger, l.rootKeys, txs, [])
    ensures FundsAccountsExist(l, txs)
  {
    FundsEffect(l, closed, txs, false);
  }

  lemma {:induction false} PlainStopped(l: Ledger, closed: set<Hash>, data: BlockData) returns (k: nat)
    requires Solvent(l) && BlockFresh(closed, data, false) && SumsFit(data.fundsTxs + data.aggFunds)
    requires !FundsFit(l, data.fundsTxs) && !FundsStateChange(l, closed, data.fundsTxs, false).Crashed?
    ensures var funds := data.fundsTxs + data.aggFunds;
      k < |data.fundsTxs| && FundsFit(l, funds[..k]) && !CoveredAt(l, funds, k)
    ensures FundsStateChange(l, closed, data.fundsTxs, false).Failed?
    ensures Stays(l, FundsStateChange(l, closed, data.fundsTxs, false).ledger, l.rootKeys, data.fundsTxs[..k], [])
  {
    hide Solvent, SumFits, CoveredAt, FundsStateChange, Stays;
    var funds := data.fundsTxs + data.aggFunds;
    assert forall i :: 0 <= i < |data.fundsTxs| ==> funds[i] == data.fundsTxs[i];
    k := FundsStopped(l, closed, data.fundsTxs);
    StaysWithout(l, closed, data.fundsTxs[..k]);
    assert funds[..|data.fundsTxs|] == data.fundsTxs && funds[..k] == data.fundsTxs[..k];
    CoveredPrefix(l, funds, |data.fundsTxs|, k);
  }

  lemma {:induction false} AggregatedStopped(l: Ledger, closed: set<Hash>, data: BlockData) returns (k: nat)
    requires Solvent(l) && BlockFresh(closed, data, false) && SumsFit(data.fundsTxs + data.aggFunds)
    requires var funds := data.fundsTxs + data.aggFunds;
      && FundsStateChange(l, closed, data.fundsTxs, false).Done? && !FundsFit(l, funds)
      && !FundsStateChange(l, closed, funds, false).Crashed?
    ensures var funds := data.fundsTxs + data.aggFunds;
      && |data.fundsTxs| <= k < |funds| && FundsFit(l, funds[..k]) && !CoveredAt(l, funds, k)
      && FundsStateChange(l, closed, funds, false).Failed?
      && Stays(l, FundsStateChange(l, closed, funds, false).ledger, l.rootKeys,
               data.fundsTxs + data.aggFunds[..k - |data.fundsTxs|], [])
  {
    hide Solvent, SumFits, CoveredAt, FundsStateChange, Stays, HeldExactly;
    var funds, n := data.fundsTxs + data.aggFunds, |data.fundsTxs|;
    assert NoneClosed(closed, funds, false);
    k := FundsStopped(l, closed, funds);
    assert forall i :: 0 <= i < n ==> funds[i] == data.fundsTxs[i];
    FundsAcceptedIff(l, closed, data.fundsTxs);
    if k < n {
      assert funds[..n] == data.fundsTxs;
      CoveredPrefix(l, funds, n, k);
      assert false;
    }
    assert funds[..k] == data.fundsTxs + data.aggFunds[..k - n];
    StaysWithout(l, closed, funds[..k]);
  }

  // A block refused in its funds, aggregated funds or stake stage, with account headers 0 and 1.
  lemma EarlyFailureResidue(l: Ledger, l1: Ledger, closed: set<Hash>, p: Parameters, data: BlockData) returns (k: nat)
    requires l.Valid() && AccStateChange(l, data.accTxs) == Done(l1) && HeadersRollBack(data.accTxs)
    requires Solvent(l1) && BlockFresh(closed, data, false) && SumsFit(data.fundsTxs + data.aggFunds)
    requires !AfterStake(l1, closed, p, data, false).Done? && !AfterStake(l1, closed, p, data, false).Crashed?
    ensures ValidateState(l, closed, p, data, false).Failed?
    ensures StaysBehind(l, l1, ValidateState(l, closed, p, data, false).ledger, p, data, k)
  {
    hide Solvent, SumFits, CoveredAt, FundsStateChange, StakeStateChange, Stays, AccStateChange, UndoFunds,
         AccStateChangeRollback, FeesAndLater, StakesFit, StakeFits, FundsMoves, HeldExactly, NoneClosed;
    var funds := data.fundsTxs + data.aggFunds;
    FundsConcat(l1, closed, data.fundsTxs, data.aggFunds, false);
    PrefixFits(l1, data);
    if !FundsFit(l1, data.fundsTxs) {
      k := PlainStopped(l1, closed, data);
      var m := FundsStateChange(l1, closed, data.fundsTxs, false).ledger;
      AccountsTakenAway(l, l1, m, data.accTxs, data.fundsTxs[..k], []);
    } else {
      FundsAcceptedIff(l1, closed, data.fundsTxs) by { AllFresh(closed, data); }
      StaysWithout(l1, closed, data.fundsTxs) by { AllFresh(closed, data); }
      if !FundsFit(l1, funds) {
        k := AggregatedStopped(l1, closed, data);
        var m := FundsStateChange(l1, closed, funds, false).ledger;
        var agg := data.aggFunds[..k - |data.fundsTxs|];
        KeysStay(l1, m, data.fundsTxs + agg, []);
        var n := PlainUndone(l1, m, data, agg, []);
        AccountsTakenAway(l, l1, n, data.accTxs, agg, []);
      } else {
        k := StakesStoppedAfter(l, l1, closed, p, data);
      }
    }
  }

  lemma AllFresh(closed: set<Hash>, data: BlockData)
    requires BlockFresh(closed, data, false) && SumsFit(data.fundsTxs + data.aggFunds)
    ensures NoneClosed(closed, data.fundsTxs + data.aggFunds, false) && NoneClosed(closed, data.fundsTxs, false)
    ensures SumsFit(data.fundsTxs)
  {
    hide SumFits;
    assert forall i :: 0 <= i < |data.fundsTxs| ==> (data.fundsTxs + data.aggFunds)[i] == data.fundsTxs[i];
  }

  lemma {:induction false} PrefixFits(l: Ledger, data: BlockData)
    ensures FundsFit(l, data.fundsTxs + data.aggFunds) ==> FundsFit(l, data.fundsTxs)
  {
    hide CoveredAt;
    var funds := data.fundsTxs + data.aggFunds;
    assert funds[..|data.fundsTxs|] == data.fundsTxs;
    forall i | 0 <= i < |data.fundsTxs| ensures CoveredAt(l, funds, i) == CoveredAt(l, data.fundsTxs, i) {
      CoveredPrefix(l, funds, |data.fundsTxs|, i);
    }
  }

  lemma KeysStay(l: Ledger, m: Ledger, funds: seq<FundsTx>, stakes: seq<StakeTx>)
    requires Stays(l, m, l.rootKeys, funds, stakes)
    ensures m.accounts.Keys == l.accounts.Keys && m.rootKeys == l.rootKeys
  {
  }

  lemma StakesStoppedAfter(l: Ledger, l1: Ledger, closed: set<Hash>, p: Parameters, data: BlockData)
    returns (k: nat)
    requires l.Valid() && AccStateChange(l, data.accTxs) == Done(l1) && HeadersRollBack(data.accTxs)
    requires Solvent(l1) && BlockFresh(closed, data, false) && SumsFit(data.fundsTxs + data.aggFunds)
    requires FundsFit(l1, data.fundsTxs + data.aggFunds)
    requires !AfterStake(l1, closed, p, data, false).Done? && !AfterStake(l1, closed, p, data, false).Crashed?
    ensures ValidateState(l, closed, p, data, false).Failed?
    ensures StaysBehind(l, l1, ValidateState(l, closed, p, data, false).ledger, p, data, k)
  {
    hide Solvent, SumFits, CoveredAt, FundsStateChange, StakeStateChange, Stays, AccStateChange, UndoFunds,
         AccStateChangeRollback, FeesAndLater, StakesFit, StakeFits, FundsMoves, FundsMarks, NoneClosed, FundsFit, Net;
    var funds := data.fundsTxs + data.aggFunds;
    var balance := (a: Hash) => if a in l1.accounts then Balance(l1, FundsMoves(l1.rootKeys, funds), a) else 0;
    FundsConcat(l1, closed, data.fundsTxs, data.aggFunds, false);
    AllFresh(closed, data);
    FundsAcceptedIff(l1, closed, funds);
    StaysWithout(l1, closed, funds);
    var m := FundsStateChange(l1, closed, funds, false).ledger;
    KeysStay(l1, m, funds, []);
    PrefixFits(l1, data);
    FundsAcceptedIff(l1, closed, data.fundsTxs);
    StaysWithout(l1, closed, data.fundsTxs);
    StakesSame(l1, m, balance, p.stakingMinimum, data.stakeTxs);
    StakesAcceptedIff(m, balance, p.stakingMinimum, data.stakeTxs);
    k := StakesStopped(m, balance, p.stakingMinimum, data.stakeTxs);
    StakesSame(l1, m, balance, p.stakingMinimum, data.stakeTxs[..k]);
    StakeSame(l1, m, balance, p.stakingMinimum, data.stakeTxs, k);
    var s := StakeStateChange(m, p.stakingMinimum, data.stakeTxs[..k], false).ledger;
    StakeEffect(m, p.stakingMinimum, data.stakeTxs[..k], false);
    FlippedStays(l1, m, s, funds, data.stakeTxs[..k]);
    KeysStay(l1, s, funds, data.stakeTxs[..k]);
    var n := PlainUndone(l1, s, data, data.aggFunds, data.stakeTxs[..k]);
    AccountsTakenAway(l, l1, n, data.accTxs, data.aggFunds, data.stakeTxs[..k]);
  }

  lemma {:induction false} StakeSame(l: Ledger, m: Ledger, balance: Hash -> int, minimum: uint64, txs: seq<StakeTx>,
                                     i: nat)
    requires SameStaking(l, m) && i < |txs|
    ensures StakeFits(l, balance, minimum, txs, i) == StakeFits(m, balance, minimum, txs, i)
  {
    hide MayStake, StakesAfter;
    if txs[i].account in l.accounts {
      StakesAfterSame(l, m, txs[..i], txs[i].account);
    }
  }

  lemma FlippedStays(l: Ledger, m: Ledger, s: Ledger, funds: seq<FundsTx>, stakes: seq<StakeTx>)
    requires Stays(l, m, l.rootKeys, funds, []) && Flipped(m, s, stakes)
    ensures Stays(l, s, l.rootKeys, funds, stakes)
  {
    hide Wrap64, Wrap32, Net, FundsMoves, FundsMarks;
  }
}
