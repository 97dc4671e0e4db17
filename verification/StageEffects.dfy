/** Every stage, when it completes, moves exactly the amounts Effects lists for it, and every
rollback moves them back. */
module StageEffects {
  import opened Words
  import opened Protocol
  import opened Ledger
  import opened Effects

  // -------------------- funds --------------------

  // What the fetch of a block's transactions establishes before the state change: outside the
  // initial setup no funds transaction is already closed.
  ghost predicate NoneClosed(closed: set<Hash>, txs: seq<FundsTx>, initialSetup: bool) {
    initialSetup || forall i :: 0 <= i < |txs| ==> txs[i].hash !in closed
  }

  ghost predicate FundsAccountsExist(l: Ledger, txs: seq<FundsTx>) {
    forall i :: 0 <= i < |txs| ==> txs[i].from in l.accounts && txs[i].to in l.accounts
  }

  lemma IssueMoves(l: Ledger, tx: FundsTx)
    requires tx.from in l.accounts
    ensures var root := if tx.from in l.rootKeys then [Move(tx.from, tx.amount)] + [Move(tx.from, tx.fee)] else [];
            Moved(l, IssueToRoot(l, tx), root, []) && SameStaking(l, IssueToRoot(l, tx))
  {
    if tx.from in l.rootKeys {
      TwoCreditsMove(l, tx.from, tx.amount, tx.from, tx.fee);
    } else {
      MovedNot(l);
    }
  }

  lemma TransferMoves(l: Ledger, tx: FundsTx)
    requires tx.from in l.accounts && tx.to in l.accounts
    ensures Moved(l, Transfer(l, tx), [Move(tx.from, 0 - tx.amount)] + [Move(tx.to, tx.amount)], [Move(tx.from, 1)])
    ensures SameStaking(l, Transfer(l, tx))
  {
    hide Wrap64, Wrap32, Net, Moved;
    var m := l.CountTx(tx.from, 1);
    CountMoves(l, tx.from, 1);
    TwoCreditsMove(m, tx.from, 0 - tx.amount, tx.to, tx.amount);
    CountThenMove(l, m, Transfer(l, tx), tx.from, 1, [Move(tx.from, 0 - tx.amount)] + [Move(tx.to, tx.amount)]);
  }

  lemma CountThenMove(l: Ledger, m: Ledger, n: Ledger, h: Hash, k: int, moves: seq<Move>)
    requires Moved(l, m, [], [Move(h, k)]) && Moved(m, n, moves, [])
    ensures Moved(l, n, moves, [Move(h, k)])
  {
    hide Wrap64, Wrap32, Net, Moved;
    MovedTrans(l, m, n, [], [Move(h, k)], moves, []);
    assert [] + moves == moves && [Move(h, k)] + [] == [Move(h, k)];
  }

  lemma FundsStepEffect(l: Ledger, closed: set<Hash>, tx: FundsTx, initialSetup: bool)
    requires FundsStep(l, closed, tx, initialSetup).Done?
    requires initialSetup || tx.hash !in closed
    ensures var m := FundsStep(l, closed, tx, initialSetup).ledger;
            Moved(l, m, TxMoves(l.rootKeys, tx), [Move(tx.from, 1)]) && SameStaking(l, m)
    ensures tx.from in l.accounts && tx.to in l.accounts
  {
    hide Wrap64, Wrap32, Net, Moved, FundsCheckFails, IssueToRoot, Transfer;
    var issued := IssueToRoot(l, tx);
    IssueMoves(l, tx);
    TransferMoves(issued, tx);
    var root := if tx.from in l.rootKeys then [Move(tx.from, tx.amount)] + [Move(tx.from, tx.fee)] else [];
    MovedTrans(l, issued, Transfer(issued, tx), root, [], [Move(tx.from, 0 - tx.amount)] + [Move(tx.to, tx.amount)],
               [Move(tx.from, 1)]);
    assert root + ([Move(tx.from, 0 - tx.amount)] + [Move(tx.to, tx.amount)]) == TxMoves(l.rootKeys, tx);
    assert [] + [Move(tx.from, 1)] == [Move(tx.from, 1)];
  }

  lemma {:induction false} FundsEffect(l: Ledger, closed: set<Hash>, txs: seq<FundsTx>, initialSetup: bool)
    requires FundsStateChange(l, closed, txs, initialSetup).Done?
    requires NoneClosed(closed, txs, initialSetup)
    ensures var m := FundsStateChange(l, closed, txs, initialSetup).ledger;
            Moved(l, m, FundsMoves(l.rootKeys, txs), FundsMarks(txs)) && SameStaking(l, m)
    ensures FundsAccountsExist(l, txs)
  {
    hide Wrap64, Wrap32, FundsStep, TxMoves, Net;
    if txs == [] {
      MovedNot(l);
    } else {
      var rest, tx := txs[..|txs| - 1], txs[|txs| - 1];
      FundsEffect(l, closed, rest, initialSetup);
      var m := FundsStateChange(l, closed, rest, initialSetup).ledger;
      FundsStepEffect(m, closed, tx, initialSetup);
      MovedTrans(l, m, FundsStep(m, closed, tx, initialSetup).ledger, FundsMoves(l.rootKeys, rest), FundsMarks(rest),
                 TxMoves(l.rootKeys, tx), [Move(tx.from, 1)]);
    }
  }

  lemma TxNet(roots: set<Hash>, tx: FundsTx, a: Hash)
    ensures Net(TxMoves(roots, tx), a) ==
      (if tx.from == a && a in roots then tx.amount + tx.fee else 0) - (if tx.from == a then tx.amount
        else 0) + (if tx.to == a then tx.amount else 0)
  {
    var root := if tx.from in roots then [Move(tx.from, tx.amount)] + [Move(tx.from, tx.fee)] else [];
    NetConcat(root + [Move(tx.from, 0 - tx.amount)], [Move(tx.to, tx.amount)], a);
    NetConcat(root, [Move(tx.from, 0 - tx.amount)], a);
    NetConcat([Move(tx.from, tx.amount)], [Move(tx.from, tx.fee)], a);
    NetOne(Move(tx.from, tx.amount), a);
    NetOne(Move(tx.from, tx.fee), a);
    NetOne(Move(tx.from, 0 - tx.amount), a);
    NetOne(Move(tx.to, tx.amount), a);
  }

  lemma TransferBackMoves(l: Ledger, tx: FundsTx)
    requires tx.from in l.accounts && tx.to in l.accounts
    ensures var m := l.CountTx(tx.from, -1).Credit(tx.from, tx.amount).Debit(tx.to, tx.amount);
            Moved(l, m, [Move(tx.from, tx.amount)] + [Move(tx.to, 0 - tx.amount)], [Move(tx.from, -1)])
              && SameStaking(l, m)
  {
    hide Wrap64, Wrap32, Net, Moved;
    var m := l.CountTx(tx.from, -1);
    CountMoves(l, tx.from, -1);
    TwoCreditsMove(m, tx.from, tx.amount, tx.to, 0 - tx.amount);
    CountThenMove(l, m, m.Credit(tx.from, tx.amount).Debit(tx.to, tx.amount), tx.from, -1,
                  [Move(tx.from, tx.amount)] + [Move(tx.to, 0 - tx.amount)]);
  }

  lemma TwoMovesNet(m: Move, n: Move, a: Hash)
    ensures Net([m] + [n], a) == (if m.account == a then m.amount else 0) + (if n.account == a then n.amount else 0)
  {
    NetConcat([m], [n], a);
    NetOne(m, a);
    NetOne(n, a);
  }

  lemma FundsUndoEffect(l: Ledger, tx: FundsTx)
    requires tx.from in l.accounts && tx.to in l.accounts
    ensures FundsUndo(l, tx).Done?
    ensures var m := FundsUndo(l, tx).ledger;
            MovedBack(l, m, TxMoves(l.rootKeys, tx), [Move(tx.from, 1)]) && SameStaking(l, m)
  {
    hide Wrap64, Wrap32, Net, TxMoves;
    var m := l.CountTx(tx.from, -1).Credit(tx.from, tx.amount).Debit(tx.to, tx.amount);
    var back, revoked := [Move(tx.from, tx.amount)] + [Move(tx.to, 0 - tx.amount)],
        [Move(tx.from, 0 - tx.amount)] + [Move(tx.from, 0 - tx.fee)];
    TransferBackMoves(l, tx);
    forall a ensures Net([Move(tx.from, -1)], a) == if tx.from == a then -1 else 0 { NetOne(Move(tx.from, -1), a); }
    if tx.from in l.rootKeys {
      TwoCreditsMove(m, tx.from, 0 - tx.amount, tx.from, 0 - tx.fee);
      MovedTrans(l, m, FundsUndo(l, tx).ledger, back, [Move(tx.from, -1)], revoked, []);
      assert [Move(tx.from, -1)] + [] == [Move(tx.from, -1)];
      forall a ensures Net(back + revoked, a) == 0 - Net(TxMoves(l.rootKeys, tx), a) {
        TxNet(l.rootKeys, tx, a);
        NetConcat(back, revoked, a);
        TwoMovesNet(Move(tx.from, tx.amount), Move(tx.to, 0 - tx.amount), a);
        TwoMovesNet(Move(tx.from, 0 - tx.amount), Move(tx.from, 0 - tx.fee), a);
      }
      FundsUndoNet(l, FundsUndo(l, tx).ledger, tx, back + revoked, [Move(tx.from, -1)]);
    } else {
      forall a ensures Net(back, a) == 0 - Net(TxMoves(l.rootKeys, tx), a) {
        TxNet(l.rootKeys, tx, a);
        TwoMovesNet(Move(tx.from, tx.amount), Move(tx.to, 0 - tx.amount), a);
      }
      FundsUndoNet(l, m, tx, back, [Move(tx.from, -1)]);
    }
  }

  lemma FundsUndoNet(l: Ledger, m: Ledger, tx: FundsTx, moves: seq<Move>, marks: seq<Move>)
    requires Moved(l, m, moves, marks)
    requires forall a :: Net(marks, a) == if tx.from == a then -1 else 0
    requires forall a :: Net(moves, a) == 0 - Net(TxMoves(l.rootKeys, tx), a)
    ensures MovedBack(l, m, TxMoves(l.rootKeys, tx), [Move(tx.from, 1)])
  {
    hide Wrap64, Wrap32, TxMoves, Moved;
    var moves', marks' := Opposite(TxMoves(l.rootKeys, tx)), Opposite([Move(tx.from, 1)]);
    forall a ensures Net(moves, a) == Net(moves', a) && Net(marks, a) == Net(marks', a) {
      NetOpposite(TxMoves(l.rootKeys, tx), a);
      NetOpposite([Move(tx.from, 1)], a);
      NetOne(Move(tx.from, 1), a);
    }
    MovedLike(l, m, moves, marks, moves', marks');
  }

  // Going back twice is going back over both, in either order.
  lemma MovedBackTrans(l: Ledger, m: Ledger, n: Ledger, moves: seq<Move>, marks: seq<Move>, moves': seq<Move>,
                       marks': seq<Move>)
    requires MovedBack(l, m, moves', marks') && MovedBack(m, n, moves, marks)
    ensures MovedBack(l, n, moves + moves', marks + marks')
  {
    hide Wrap64, Wrap32, Moved, Opposite;
    MovedTrans(l, m, n, Opposite(moves'), Opposite(marks'), Opposite(moves), Opposite(marks));
    forall a
      ensures Net(Opposite(moves') + Opposite(moves), a) == Net(Opposite(moves + moves'), a)
      ensures Net(Opposite(marks') + Opposite(marks), a) == Net(Opposite(marks + marks'), a)
    {
      NetBack(moves, moves', a);
      NetBack(marks, marks', a);
    }
    MovedLike(l, n, Opposite(moves') + Opposite(moves), Opposite(marks') + Opposite(marks), Opposite(moves + moves'),
              Opposite(marks + marks'));
  }

  lemma NetBack(ms: seq<Move>, ns: seq<Move>, a: Hash)
    ensures Net(Opposite(ns) + Opposite(ms), a) == Net(Opposite(ms + ns), a) == -Net(ms, a) - Net(ns, a)
  {
    NetConcat(Opposite(ns), Opposite(ms), a);
    NetOpposite(ms, a);
    NetOpposite(ns, a);
    NetOpposite(ms + ns, a);
    NetConcat(ms, ns, a);
  }

  lemma {:induction false} FundsRollbackEffect(l: Ledger, txs: seq<FundsTx>)
    requires FundsAccountsExist(l, txs)
    ensures FundsStateChangeRollback(l, txs).Done?
    ensures var m := FundsStateChangeRollback(l, txs).ledger;
            MovedBack(l, m, FundsMoves(l.rootKeys, txs), FundsMarks(txs)) && SameStaking(l, m)
    decreases txs
  {
    hide Wrap64, Wrap32, FundsUndo, TxMoves, Net;
    if txs == [] {
      MovedNot(l);
      assert Opposite([]) == [];
    } else {
      var rest, tx := txs[..|txs| - 1], txs[|txs| - 1];
      FundsUndoEffect(l, tx);
      var m := FundsUndo(l, tx).ledger;
      FundsRollbackEffect(m, rest);
      MovedBackTrans(l, m, FundsStateChangeRollback(m, rest).ledger, FundsMoves(l.rootKeys, rest), FundsMarks(rest),
                     TxMoves(l.rootKeys, tx), [Move(tx.from, 1)]);
    }
  }

  // -------------------- fees --------------------

  lemma PayFeeEffect(l: Ledger, miner: Hash, fee: Fee)
    requires miner in l.accounts && (fee.Charged? ==> fee.payer in l.accounts)
    ensures Moved(l, PayFee(l, miner, fee), OneFeeMoves(miner, fee), []) && SameStaking(l, PayFee(l, miner, fee))
  {
    hide Wrap64, Wrap32, Net, Moved, SameStaking;
    match fee
    case Minted(f) => CreditMoves(l, miner, f);
    case Charged(payer, f) => TwoCreditsMove(l, miner, f, payer, 0 - f);
  }

  lemma RefundFeeEffect(l: Ledger, miner: Hash, fee: Fee)
    requires miner in l.accounts && (fee.Charged? ==> fee.payer in l.accounts)
    ensures RefundFee(l, miner, fee).Done?
    ensures var m := RefundFee(l, miner, fee).ledger;
            MovedBack(l, m, OneFeeMoves(miner, fee), []) && SameStaking(l, m)
  {
    hide Wrap64, Wrap32, Net, Moved, SameStaking;
    var none: seq<Move> := [];
    assert Opposite(none) == none;
    match fee
    case Minted(f) =>
      CreditMoves(l, miner, 0 - f);
      assert Opposite([Move(miner, f)]) == [Move(miner, 0 - f)];
    case Charged(payer, f) =>
      TwoCreditsMove(l, miner, 0 - f, payer, f);
      assert Opposite([Move(miner, f)] + [Move(payer, 0 - f)]) == [Move(miner, 0 - f)] + [Move(payer, f)];
  }

  ghost predicate PayersExist(l: Ledger, fees: seq<Fee>) {
    forall i :: 0 <= i < |fees| ==> fees[i].Charged? ==> fees[i].payer in l.accounts
  }

  lemma {:induction false} FeesRollbackEffect(l: Ledger, miner: Hash, fees: seq<Fee>)
    requires miner in l.accounts && PayersExist(l, fees)
    ensures CollectTxFeesRollback(l, miner, fees).Done?
    ensures var m := CollectTxFeesRollback(l, miner, fees).ledger;
            MovedBack(l, m, FeeMoves(miner, fees), []) && SameStaking(l, m)
  {
    hide Wrap64, Wrap32, RefundFee, Net, OneFeeMoves;
    if fees == [] {
      MovedNot(l);
      assert Opposite([]) == [];
    } else {
      var rest, fee := fees[..|fees| - 1], fees[|fees| - 1];
      FeesRollbackEffect(l, miner, rest);
      var m := CollectTxFeesRollback(l, miner, rest).ledger;
      RefundFeeEffect(m, miner, fee);
      var n := RefundFee(m, miner, fee).ledger;
      MovedTrans(l, m, n, Opposite(FeeMoves(miner, rest)), Opposite([]), Opposite(OneFeeMoves(miner, fee)),
                 Opposite([]));
      assert Opposite(FeeMoves(miner, rest)) + Opposite(OneFeeMoves(miner, fee)) == Opposite(FeeMoves(miner, fees));
      assert Opposite([]) + Opposite([]) == Opposite([]);
    }
  }

  // A completed collection moved every fee; a refused one left the ledger as it found it.
  lemma {:induction false} FeesEffect(l: Ledger, miner: Hash, fees: seq<Fee>)
    requires miner in l.accounts
    ensures var o := CollectFees(l, miner, fees);
            match o
            case Done(m) => Moved(l, m, FeeMoves(miner, fees), []) && SameStaking(l, m) && PayersExist(l, fees)
            case Failed(m) => m == l
            case Crashed => false
  {
    hide Wrap64, Wrap32, FeeRefused, PayFee, OneFeeMoves, Net;
    if fees == [] {
      MovedNot(l);
    } else {
      var rest, fee := fees[..|fees| - 1], fees[|fees| - 1];
      FeesEffect(l, miner, rest);
      if CollectFees(l, miner, rest).Done? {
        var m := CollectFees(l, miner, rest).ledger;
        if FeeRefused(m, miner, fee) {
          RefusedFeesReturned(l, m, miner, rest);
        } else {
          assert fee.Charged? ==> fee.payer in m.accounts by { NotRefused(m, miner, fee); }
          PayFeeEffect(m, miner, fee);
          var none: seq<Move> := [];
          MovedTrans(l, m, PayFee(m, miner, fee), FeeMoves(miner, rest), none, OneFeeMoves(miner, fee), none);
          assert none + none == none;
        }
      }
    }
  }

  lemma NotRefused(l: Ledger, miner: Hash, fee: Fee)
    requires miner in l.accounts && !FeeRefused(l, miner, fee)
    ensures fee.Charged? ==> fee.payer in l.accounts
  {
  }

  lemma RefusedFeesReturned(l: Ledger, m: Ledger, miner: Hash, fees: seq<Fee>)
    requires miner in l.accounts && PayersExist(l, fees)
    requires Moved(l, m, FeeMoves(miner, fees), []) && SameStaking(l, m)
    ensures CollectTxFeesRollback(m, miner, fees) == Done(l)
  {
    hide Wrap64, Wrap32, Moved;
    assert miner in m.accounts && PayersExist(m, fees);
    FeesRollbackEffect(m, miner, fees);
    ThereAndBack(l, m, CollectTxFeesRollback(m, miner, fees).ledger, FeeMoves(miner, fees), []);
  }

  lemma ThereAndBack(l: Ledger, m: Ledger, n: Ledger, moves: seq<Move>, marks: seq<Move>)
    requires Moved(l, m, moves, marks) && MovedBack(m, n, moves, marks)
    ensures forall a :: a in l.accounts ==> n.accounts[a] == l.accounts[a].(isStaking := n.accounts[a].isStaking)
    ensures n.rootKeys == l.rootKeys && n.accounts.Keys == l.accounts.Keys
    ensures SameStaking(l, m) && SameStaking(m, n) ==> n == l
  {
    hide Wrap64, Wrap32, Opposite;
    MovedTrans(l, m, n, moves, marks, Opposite(moves), Opposite(marks));
    forall a ensures Net(moves + Opposite(moves), a) == 0 && Net(marks + Opposite(marks), a) == 0 {
      NetConcat(moves, Opposite(moves), a);
      NetOpposite(moves, a);
      NetConcat(marks, Opposite(marks), a);
      NetOpposite(marks, a);
    }
    MovedNowhere(l, n, moves + Opposite(moves), marks + Opposite(marks));
  }
}
