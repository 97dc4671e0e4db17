/** Rollback against validation, for the ledger of one block: an exact condition for the inverse
law, and atomicity of the late failures. */
module BlockInverse {
  import opened Words
  import opened Protocol
  import opened Transactions
  import opened Ledger
  import opened Effects
  import opened StageEffects
  import opened Validation
  import opened BlockEffects
  import opened UndoEffects
  import opened AccountStage

  // The configuration stage changes the ledger only by taking accounts out of the validator set.
  ghost predicate OnlyUnstakes(before: Ledger, after: Ledger) {
    && after.rootKeys == before.rootKeys
    && after.accounts.Keys == before.accounts.Keys
    && forall a :: a in before.accounts ==>
      && after.accounts[a] == before.accounts[a].(isStaking := after.accounts[a].isStaking)
      && (after.accounts[a].isStaking ==> before.accounts[a].isStaking)
  }

  // The exact condition. Checkable on the block and the state it is applied to: `validated` is the
  // ledger after validateState, `configured` the one after the configuration stage.
  ghost predicate LedgerRollsBack(l: Ledger, validated: Ledger, configured: Ledger, data: BlockData) {
    && HeadersRollBack(data.accTxs)
    && (forall a :: a in l.accounts && IsSlashed(data.block, a) ==> l.accounts[a].isStaking != Flips(data.stakeTxs, a))
    && forall a :: a in l.accounts && a in validated.accounts && a in configured.accounts ==>
      configured.accounts[a].isStaking == validated.accounts[a].isStaking
  }

  // The state `n` that the rollback hands to its last stage: the state `l1` right after the account transactions, moved
  // by what the block and its rollback do not cancel, and with its own staking flags.
  lemma UndoneBlock(l: Ledger, closed: set<Hash>, p: Parameters, data: BlockData, initialSetup: bool,
                    configured: Ledger, groups: seq<seq<FundsTx>>)
    returns (l1: Ledger, n: Ledger)
    requires BlockFresh(closed, data, initialSetup) && GroupsApplied(data, groups)
    requires ValidateState(l, closed, p, data, initialSetup).Done?
    requires OnlyUnstakes(ValidateState(l, closed, p, data, initialSetup).ledger, configured)
    ensures AccStateChange(l, data.accTxs) == Done(l1)
    ensures n.rootKeys == l1.rootKeys && n.accounts.Keys == l1.accounts.Keys == configured.accounts.Keys
    ensures ValidateStateRollback(configured, p, data, groups) == AccStateChangeRollback(n, data.accTxs)
    ensures Moved(l1, n, BlockMoves(l1.rootKeys, p, data) + Opposite(UndoMoves(l1.rootKeys, p, data, groups)),
                  BlockMarks(data) + Opposite(UndoMarks(data, groups)))
    ensures forall a :: a in l1.accounts ==>
      && n.accounts[a].isStaking
         == ((configured.accounts[a].isStaking || IsSlashed(data.block, a)) != Flips(data.stakeTxs, a))
      && ValidateState(l, closed, p, data, initialSetup).ledger.accounts[a].isStaking
         == ((l1.accounts[a].isStaking != Flips(data.stakeTxs, a)) && !IsSlashed(data.block, a))
  {
    hide Wrap64, Wrap32, Net, Moved, Opposite, FundsAndLater, AccStateChange, AccStateChangeRollback,
         ValidateStateRollback, Flips, IsSlashed, BlockMoves, BlockMarks, UndoMoves, UndoMarks, AllFees, Flatten,
         FundsAccountsExist, StakersExist, PayersExist, BlockFees;
    l1 := AccStateChange(l, data.accTxs).ledger;
    var validated := ValidateState(l, closed, p, data, initialSetup).ledger;
    StagesEffect(l1, closed, p, data, initialSetup);
    var moves, marks := BlockMoves(l1.rootKeys, p, data), BlockMarks(data);
    MovedKeys(l1, validated, moves, marks);
    UnstakingDoesNotMove(l1, validated, configured, moves, marks);
    NamedAfterwards(l1, configured, data, groups);
    n := UndoBlockEffect(configured, p, data, groups);
    KeysBack(configured, n, UndoMoves(l1.rootKeys, p, data, groups), UndoMarks(data, groups));
    MovedTrans(l1, configured, n, moves, marks, Opposite(UndoMoves(l1.rootKeys, p, data, groups)),
               Opposite(UndoMarks(data, groups)));
  }

  // validateState, then the configuration stage, then validateStateRollback: the ledger is back where it started if and
  // only if the block meets the condition and the rollback's groups undo what the aggregations did.
  lemma RollbackInvertsLedger(l: Ledger, closed: set<Hash>, p: Parameters, data: BlockData, initialSetup: bool,
                              configured: Ledger, groups: seq<seq<FundsTx>>)
    requires l.Valid() && BlockFresh(closed, data, initialSetup) && GroupsApplied(data, groups)
    requires ValidateState(l, closed, p, data, initialSetup).Done?
    requires OnlyUnstakes(ValidateState(l, closed, p, data, initialSetup).ledger, configured)
    ensures AccStateChange(l, data.accTxs).Done?
    ensures var roots := AccStateChange(l, data.accTxs).ledger.rootKeys;
      ValidateStateRollback(configured, p, data, groups) == Done(l)
      <==> && LedgerRollsBack(l, ValidateState(l, closed, p, data, initialSetup).ledger, configured, data)
           && NetsAgree(l.accounts.Keys, roots, p, data, groups)
  {
    hide Wrap64, Wrap32, FundsAndLater, AccStateChange, AccStateChangeRollback, ValidateStateRollback, Flips,
         BlockFresh, GroupsApplied, Moved, NetsAgree, BlockMoves, UndoMoves, BlockMarks, UndoMarks, LedgerRollsBack,
         IsSlashed;
    var l1, n := UndoneBlock(l, closed, p, data, initialSetup, configured, groups);
    AccEffect(l, data.accTxs);
    AccStageRollsBack(l, data.accTxs, n);
    StakingBack(l, l1, ValidateState(l, closed, p, data, initialSetup).ledger, configured, n, data);
    if HeadersRollBack(data.accTxs) {
      RestoredExactly(l, l1, n, p, data, groups);
    }
  }

  // The staking flags are back exactly under their part of the condition.
  lemma StakingBack(l: Ledger, l1: Ledger, validated: Ledger, configured: Ledger, n: Ledger, data: BlockData)
    requires OnlyUnstakes(validated, configured)
    requires n.accounts.Keys == l1.accounts.Keys == configured.accounts.Keys
    requires forall a :: a in l.accounts ==> a in l1.accounts && l1.accounts[a] == l.accounts[a]
    requires forall a :: a in l1.accounts ==>
      && n.accounts[a].isStaking
         == ((configured.accounts[a].isStaking || IsSlashed(data.block, a)) != Flips(data.stakeTxs, a))
      && validated.accounts[a].isStaking
         == ((l1.accounts[a].isStaking != Flips(data.stakeTxs, a)) && !IsSlashed(data.block, a))
    ensures LedgerRollsBack(l, validated, configured, data)
      <==> && HeadersRollBack(data.accTxs)
           && forall a :: a in l.accounts ==> n.accounts[a].isStaking == l.accounts[a].isStaking
  {
    hide Flips, IsSlashed;
    forall a | a in l.accounts
      ensures n.accounts[a].isStaking == l.accounts[a].isStaking
        <==> && (IsSlashed(data.block, a) ==> l.accounts[a].isStaking != Flips(data.stakeTxs, a))
             && configured.accounts[a].isStaking == validated.accounts[a].isStaking
    {
    }
  }

  lemma ValidatedLedgerValid(l: Ledger, closed: set<Hash>, p: Parameters, data: BlockData, initialSetup: bool)
    requires l.Valid() && BlockFresh(closed, data, initialSetup)
    requires ValidateState(l, closed, p, data, initialSetup).Done?
    ensures ValidateState(l, closed, p, data, initialSetup).ledger.Valid()
  {
    hide Wrap64, Wrap32, Net, FundsAndLater, AccStateChange, BlockMoves, BlockMarks;
    var l1 := AccStateChange(l, data.accTxs).ledger;
    AccEffect(l, data.accTxs);
    StagesEffect(l1, closed, p, data, initialSetup);
    MovedKeys(l1, ValidateState(l, closed, p, data, initialSetup).ledger, BlockMoves(l1.rootKeys, p, data),
              BlockMarks(data));
  }

  lemma UnstakingDoesNotMove(l: Ledger, m: Ledger, n: Ledger, moves: seq<Move>, marks: seq<Move>)
    requires Moved(l, m, moves, marks) && OnlyUnstakes(m, n)
    ensures Moved(l, n, moves, marks)
  {
    hide Wrap64, Wrap32, Net;
  }

  lemma NamedAfterwards(l: Ledger, m: Ledger, data: BlockData, groups: seq<seq<FundsTx>>)
    requires NamedAccountsExist(l, data) && m.accounts.Keys == l.accounts.Keys && GroupsApplied(data, groups)
    ensures NamedForUndo(m, data, groups)
    ensures data.block.CarriesSlashingProof() ==> data.block.slashedAddress in m.accounts
  {
    forall i | 0 <= i < |Flatten(groups)|
      ensures Flatten(groups)[i].from in m.accounts && Flatten(groups)[i].to in m.accounts {
      AppliedAccounts(l, data, Flatten(groups)[i]);
    }
    var fees, funds := PlainFees(data), FundsFees(data.fundsTxs + data.aggFees);
    var accs, rest := AccFees(data.accTxs), ConfigFees(data.configTxs) + StakeFees(data.stakeTxs);
    forall i | 0 <= i < |fees| && fees[i].Charged? ensures fees[i].payer in m.accounts {
      if i < |accs| + |data.fundsTxs| {
        assert fees[i] == AllFees(data)[i];
      } else {
        assert fees[i] == AllFees(data)[i + |data.aggFees|];
      }
    }
  }

  lemma AppliedAccounts(l: Ledger, data: BlockData, tx: FundsTx)
    requires FundsAccountsExist(l, data.fundsTxs) && FundsAccountsExist(l, data.aggFunds)
    requires Bare(tx) in Bares(data.fundsTxs) || Bare(tx) in Bares(data.aggFunds)
    ensures tx.from in l.accounts && tx.to in l.accounts
  {
    if Bare(tx) in Bares(data.fundsTxs) {
      var i :| 0 <= i < |data.fundsTxs| && Bares(data.fundsTxs)[i] == Bare(tx);
      assert data.fundsTxs[i].from == tx.from && data.fundsTxs[i].to == tx.to;
    } else {
      var i :| 0 <= i < |data.aggFunds| && Bares(data.aggFunds)[i] == Bare(tx);
      assert data.aggFunds[i].from == tx.from && data.aggFunds[i].to == tx.to;
    }
  }

  lemma WrapUnchanged(x: uint64, d: int, y: uint32, e: int)
    ensures Wrap64(x + d) == x <==> Wrap64(d) == 0
    ensures Wrap32(y + e) == y <==> Wrap32(e) == 0
  {
    Wrap64Absorbs(d, x);
    Wrap32Absorbs(e, y);
  }

  // An account is back exactly when its moves cancel and its staking flag is back.
  lemma BackAt(l1: Ledger, n: Ledger, roots: set<Hash>, p: Parameters, data: BlockData, groups: seq<seq<FundsTx>>,
               a: Hash)
    requires a in l1.accounts
    requires Moved(l1, n, BlockMoves(roots, p, data) + Opposite(UndoMoves(roots, p, data, groups)),
                   BlockMarks(data) + Opposite(UndoMarks(data, groups)))
    ensures a in n.accounts
    ensures n.accounts[a] == l1.accounts[a]
      <==> && n.accounts[a].isStaking == l1.accounts[a].isStaking
           && NetsAgree({a}, roots, p, data, groups)
  {
    hide Wrap64, Wrap32, Net, Opposite, BlockMoves, BlockMarks, UndoMoves, UndoMarks;
    var moves, back, marks, unmarks := BlockMoves(roots, p, data), UndoMoves(roots, p, data, groups), BlockMarks(data),
        UndoMarks(data, groups);
    NetConcat(moves, Opposite(back), a);
    NetConcat(marks, Opposite(unmarks), a);
    NetOpposite(back, a);
    NetOpposite(unmarks, a);
    WrapUnchanged(l1.accounts[a].balance, Net(moves, a) - Net(back, a), l1.accounts[a].txCnt,
                  Net(marks, a) - Net(unmarks, a));
  }

  lemma RestoredExactly(l: Ledger, l1: Ledger, n: Ledger, p: Parameters, data: BlockData, groups: seq<seq<FundsTx>>)
    requires n.accounts.Keys == l1.accounts.Keys
    requires forall a :: a in l.accounts ==> a in l1.accounts && l1.accounts[a] == l.accounts[a]
    requires Moved(l1, n, BlockMoves(l1.rootKeys, p, data) + Opposite(UndoMoves(l1.rootKeys, p, data, groups)),
                   BlockMarks(data) + Opposite(UndoMarks(data, groups)))
    ensures var kept := map a | a in l.accounts && a in n.accounts :: n.accounts[a];
      Ledger(kept, l.rootKeys) == l
      <==> && (forall a :: a in l.accounts ==> n.accounts[a].isStaking == l.accounts[a].isStaking)
           && NetsAgree(l.accounts.Keys, l1.rootKeys, p, data, groups)
  {
    hide Wrap64, Wrap32, Moved, Net, Opposite, BlockMoves, BlockMarks, UndoMoves, UndoMarks;
    var roots := l1.rootKeys;
    var kept := map a | a in l.accounts && a in n.accounts :: n.accounts[a];
    forall a | a in l.accounts
      ensures n.accounts[a] == l.accounts[a]
        <==> n.accounts[a].isStaking == l.accounts[a].isStaking && NetsAgree({a}, roots, p, data, groups)
    {
      BackAt(l1, n, roots, p, data, groups, a);
    }
    if kept == l.accounts {
      forall a | a in l.accounts ensures NetsAgree({a}, roots, p, data, groups) {
        assert kept[a] == n.accounts[a];
      }
      assert forall a <- l.accounts.Keys :: NetsAgree({a}, roots, p, data, groups);
    }
    if (forall a :: a in l.accounts ==> n.accounts[a].isStaking == l.accounts[a].isStaking)
      && NetsAgree(l.accounts.Keys, roots, p, data, groups) {
      forall a | a in l.accounts ensures n.accounts[a] == l.accounts[a] {
        assert NetsAgree({a}, roots, p, data, groups);
      }
      assert kept == l.accounts;
    }
  }

  // Groups that match agree exactly when the fees do.
  lemma MatchingGroupsAgree(accounts: set<Hash>, roots: set<Hash>, p: Parameters, data: BlockData,
                            groups: seq<seq<FundsTx>>)
    requires GroupsMatch(data, groups)
    ensures NetsAgree(accounts, roots, p, data, groups) <==> FeesCancel(accounts, data)
  {
    hide Net, BlockMoves, BlockMarks, UndoMoves, UndoMarks, FundsMoves, FundsMarks, FeeMoves, Bares, Flatten, Wrap64;
    var miner := data.block.beneficiary;
    forall a | a in accounts
      ensures Net(BlockMoves(roots, p, data), a) - Net(UndoMoves(roots, p, data, groups), a)
        == Net(FeeMoves(miner, FundsFees(data.aggFees)), a) - Net(FeeMoves(miner, FundsFees(data.aggFunds)), a)
      ensures Wrap32(Net(BlockMarks(data), a) - Net(UndoMarks(data, groups), a)) == 0
    {
      UndoDifference(roots, p, data, groups, a);
      FundsNetSame(roots, miner, Flatten(groups), data.aggFunds, a);
    }
  }
}
