/** What a stage does to every account, in closed form: a list of signed amounts, to be added up
modulo 2^64 (balances) or 2^32 (transaction counters), whatever accounts coincide. */
module Effects {
  import opened Words
  import opened Protocol
  import opened Ledger

  datatype Move = Move(account: Hash, amount: int)

  // The sum of all amounts moved onto account a.
  ghost function Net(ms: seq<Move>, a: Hash): int {
    if ms == [] then 0
    else Net(ms[..|ms| - 1], a) + if ms[|ms| - 1].account == a then ms[|ms| - 1].amount else 0
  }

  ghost function Opposite(ms: seq<Move>): (r: seq<Move>)
    ensures |r| == |ms|
  {
    seq(|ms|, i requires 0 <= i < |ms| => Move(ms[i].account, 0 - ms[i].amount))
  }

  lemma {:induction false} NetConcat(ms: seq<Move>, ns: seq<Move>, a: Hash)
    ensures Net(ms + ns, a) == Net(ms, a) + Net(ns, a)
  {
    if ns == [] {
      assert ms + ns == ms;
    } else {
      assert (ms + ns)[..|ms + ns| - 1] == ms + ns[..|ns| - 1];
      NetConcat(ms, ns[..|ns| - 1], a);
    }
  }

  lemma {:induction false} NetOpposite(ms: seq<Move>, a: Hash)
    ensures Net(Opposite(ms), a) == -Net(ms, a)
  {
    if ms != [] {
      assert Opposite(ms)[..|ms| - 1] == Opposite(ms[..|ms| - 1]);
      NetOpposite(ms[..|ms| - 1], a);
    }
  }

  lemma NetOne(m: Move, a: Hash)
    ensures Net([m], a) == if m.account == a then m.amount else 0
  {
    assert [m][..0] == [];
  }

  // `after` is `before` with the moves added to balances and the marks to transaction counters.
  // Says nothing about isStaking.
  ghost predicate Moved(before: Ledger, after: Ledger, moves: seq<Move>, marks: seq<Move>) {
    && after.rootKeys == before.rootKeys
    && after.accounts.Keys == before.accounts.Keys
    && forall a :: a in before.accounts ==>
      && after.accounts[a].profile == before.accounts[a].profile
      && after.accounts[a].balance == Wrap64(before.accounts[a].balance + Net(moves, a))
      && after.accounts[a].txCnt == Wrap32(before.accounts[a].txCnt + Net(marks, a))
  }

  ghost predicate MovedBack(before: Ledger, after: Ledger, moves: seq<Move>, marks: seq<Move>) {
    Moved(before, after, Opposite(moves), Opposite(marks))
  }

  ghost predicate SameStaking(before: Ledger, after: Ledger) {
    && after.accounts.Keys == before.accounts.Keys
    && forall a :: a in before.accounts ==> after.accounts[a].isStaking == before.accounts[a].isStaking
  }

  lemma MovedTrans(l: Ledger, m: Ledger, n: Ledger, moves: seq<Move>, marks: seq<Move>, moves': seq<Move>,
                   marks': seq<Move>)
    requires Moved(l, m, moves, marks) && Moved(m, n, moves', marks')
    ensures Moved(l, n, moves + moves', marks + marks')
  {
    hide Wrap64, Wrap32;
    forall a | a in l.accounts
      ensures n.accounts[a].profile == l.accounts[a].profile
      ensures n.accounts[a].balance == Wrap64(l.accounts[a].balance + Net(moves + moves', a))
      ensures n.accounts[a].txCnt == Wrap32(l.accounts[a].txCnt + Net(marks + marks', a))
    {
      NetConcat(moves, moves', a);
      NetConcat(marks, marks', a);
      Wrap64Absorbs(l.accounts[a].balance + Net(moves, a), Net(moves', a));
      Wrap32Absorbs(l.accounts[a].txCnt + Net(marks, a), Net(marks', a));
    }
  }

  // Only the sum per account matters, not the order of the moves.
  lemma MovedLike(l: Ledger, m: Ledger, moves: seq<Move>, marks: seq<Move>, moves': seq<Move>, marks': seq<Move>)
    requires Moved(l, m, moves, marks)
    requires forall a :: Net(moves, a) == Net(moves', a) && Net(marks, a) == Net(marks', a)
    ensures Moved(l, m, moves', marks')
  {
    hide Wrap64, Wrap32;
  }

  // Moves that cancel on every account leave nothing but (perhaps) staking flags changed.
  lemma MovedNowhere(l: Ledger, m: Ledger, moves: seq<Move>, marks: seq<Move>)
    requires Moved(l, m, moves, marks)
    requires forall a :: Net(moves, a) == 0 && Net(marks, a) == 0
    ensures forall a :: a in l.accounts ==> m.accounts[a] == l.accounts[a].(isStaking := m.accounts[a].isStaking)
    ensures SameStaking(l, m) ==> m == l
  {
    if SameStaking(l, m) {
      assert m.accounts == l.accounts;
    }
  }

  // -------------------- moves of each stage --------------------

  ghost function TxMoves(roots: set<Hash>, tx: FundsTx): seq<Move> {
    (if tx.from in roots then [Move(tx.from, tx.amount)] + [Move(tx.from, tx.fee)] else [])
    + [Move(tx.from, 0 - tx.amount)] + [Move(tx.to, tx.amount)]
  }

  ghost function FundsMoves(roots: set<Hash>, txs: seq<FundsTx>): seq<Move> {
    if txs == [] then [] else FundsMoves(roots, txs[..|txs| - 1]) + TxMoves(roots, txs[|txs| - 1])
  }

  ghost function FundsMarks(txs: seq<FundsTx>): seq<Move> {
    if txs == [] then [] else FundsMarks(txs[..|txs| - 1]) + [Move(txs[|txs| - 1].from, 1)]
  }

  ghost function FeeMoves(miner: Hash, fees: seq<Fee>): seq<Move> {
    if fees == [] then [] else FeeMoves(miner, fees[..|fees| - 1]) + OneFeeMoves(miner, fees[|fees| - 1])
  }

  ghost function OneFeeMoves(miner: Hash, fee: Fee): seq<Move> {
    match fee
    case Minted(f) => [Move(miner, f)]
    case Charged(payer, f) => [Move(miner, f)] + [Move(payer, 0 - f)]
  }

  ghost function SlashMoves(p: Parameters, b: Block): seq<Move> {
    if b.CarriesSlashingProof()
    then [Move(b.beneficiary, p.slashReward)] + [Move(b.slashedAddress, 0 - p.stakingMinimum)]
    else []
  }

  lemma CreditMoves(l: Ledger, h: Hash, amount: int)
    requires h in l.accounts
    ensures Moved(l, l.Credit(h, amount), [Move(h, amount)], []) && SameStaking(l, l.Credit(h, amount))
  {
    hide Wrap64, Wrap32;
    forall a | a in l.accounts
      ensures l.Credit(h, amount).accounts[a].balance == Wrap64(l.accounts[a].balance + Net([Move(h, amount)], a))
      ensures l.Credit(h, amount).accounts[a].txCnt == Wrap32(l.accounts[a].txCnt + Net([], a))
    {
      NetOne(Move(h, amount), a);
      WrapSame(l.accounts[a].balance, l.accounts[a].txCnt);
    }
  }

  lemma CountMoves(l: Ledger, h: Hash, n: int)
    requires h in l.accounts
    ensures Moved(l, l.CountTx(h, n), [], [Move(h, n)]) && SameStaking(l, l.CountTx(h, n))
  {
    hide Wrap64, Wrap32;
    forall a | a in l.accounts
      ensures l.CountTx(h, n).accounts[a].balance == Wrap64(l.accounts[a].balance + Net([], a))
      ensures l.CountTx(h, n).accounts[a].txCnt == Wrap32(l.accounts[a].txCnt + Net([Move(h, n)], a))
    {
      NetOne(Move(h, n), a);
      WrapSame(l.accounts[a].balance, l.accounts[a].txCnt);
    }
  }

  lemma TwoCreditsMove(l: Ledger, h: Hash, x: int, k: Hash, y: int)
    requires h in l.accounts && k in l.accounts
    ensures var m := l.Credit(h, x).Credit(k, y);
      Moved(l, m, [Move(h, x)] + [Move(k, y)], []) && SameStaking(l, m)
  {
    hide Wrap64, Wrap32, Net, Moved;
    var none: seq<Move> := [];
    CreditMoves(l, h, x);
    CreditMoves(l.Credit(h, x), k, y);
    MovedTrans(l, l.Credit(h, x), l.Credit(h, x).Credit(k, y), [Move(h, x)], none, [Move(k, y)], none);
    assert none + none == none;
  }

  lemma MovedNot(l: Ledger)
    ensures Moved(l, l, [], []) && SameStaking(l, l)
  {
    hide Wrap64, Wrap32;
    forall a | a in l.accounts
      ensures Wrap64(l.accounts[a].balance) == l.accounts[a].balance
        && Wrap32(l.accounts[a].txCnt) == l.accounts[a].txCnt {
      WrapSame(l.accounts[a].balance, l.accounts[a].txCnt);
    }
  }
}
