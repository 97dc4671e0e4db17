/** What the checks of a funds transaction are for: exact arithmetic, covered senders, and balances within MAX_MONEY. */
module Solvency {
  import opened Words
  import opened Protocol
  import opened Ledger
  import opened Effects
  import opened StageEffects
  import opened Supply
  import opened Producer

  // No account holds more than the ceiling.
  ghost predicate Solvent(l: Ledger) { forall a :: a in l.accounts ==> l.accounts[a].balance <= MAX_MONEY }

  // Amount, fee and the least stake do not wrap when added up.
  predicate SumFits(tx: FundsTx) { tx.amount + tx.fee + MIN_STAKING_MINIMUM < TWO_64 }

  // What a root sender is issued before it spends.
  function Credit(l: Ledger, tx: FundsTx): nat { if tx.from in l.rootKeys then tx.amount + tx.fee else 0 }

  // The checks in unbounded arithmetic, on the ledger before the transaction: a root sender stays within the ceiling;
  // the sender covers amount and fee, and the least stake while staking; the receiver stays within the ceiling; and the
  // counter is not ahead, unless the transaction was aggregated.
  ghost predicate Covered(l: Ledger, tx: FundsTx)
    requires tx.from in l.accounts && tx.to in l.accounts
  {
    var funds := l.accounts[tx.from].balance + Credit(l, tx);
    && funds <= MAX_MONEY
    && tx.amount + tx.fee <= funds
    && (l.accounts[tx.from].isStaking ==> tx.amount + tx.fee + MIN_STAKING_MINIMUM <= funds)
    && (if tx.to == tx.from then funds else l.accounts[tx.to].balance) + tx.amount <= MAX_MONEY
    && (tx.aggregated || tx.txCnt <= l.accounts[tx.from].txCnt)
  }

  // The balances after an accepted transaction, as exact integers.
  ghost predicate Settles(l: Ledger, m: Ledger, tx: FundsTx)
    requires tx.from in l.accounts && tx.to in l.accounts
  {
    var sent := if tx.to == tx.from then 0 else tx.amount;
    && m.rootKeys == l.rootKeys && m.accounts.Keys == l.accounts.Keys
    && m.accounts[tx.from].balance == l.accounts[tx.from].balance + Credit(l, tx) - sent
    && (tx.to != tx.from ==> m.accounts[tx.to].balance == l.accounts[tx.to].balance + tx.amount)
    && forall a :: a in l.accounts && a != tx.from && a != tx.to ==> m.accounts[a] == l.accounts[a]
  }

  lemma IssuedExactly(l: Ledger, tx: FundsTx)
    requires tx.from in l.accounts && l.accounts[tx.from].balance + Credit(l, tx) < TWO_64
    ensures var sender := l.accounts[tx.from];
      IssueToRoot(l, tx) == l.(accounts := l.accounts[tx.from := sender.(balance := sender.balance + Credit(l, tx))])
  {
    if tx.from !in l.rootKeys {
      assert l.accounts[tx.from := l.accounts[tx.from]] == l.accounts;
    }
  }

  // With 64-bit wrap-around the code accepts exactly the covered transactions.
  lemma AcceptedIffCovered(l: Ledger, closed: set<Hash>, tx: FundsTx)
    requires Solvent(l) && SumFits(tx) && tx.hash !in closed && tx.from in l.accounts && tx.to in l.accounts
    ensures FundsStep(l, closed, tx, false).Done? <==> Covered(l, tx)
  {
    var credit, balance := Credit(l, tx), l.accounts[tx.from].balance;
    if balance + credit <= MAX_MONEY {
      IssuedExactly(l, tx);
      ChecksExactly(l, IssueToRoot(l, tx), tx);
    } else {
      assert tx.from in l.rootKeys;
      OverCeiling(balance, tx.amount, tx.fee);
      if balance + credit >= TWO_64 {
        IssuedWrapped(l, tx);
      }
    }
  }

  // Above the ceiling the sum is refused, or it wraps to less than what is spent.
  lemma OverCeiling(balance: nat, amount: nat, fee: nat)
    requires balance <= MAX_MONEY < balance + amount + fee && amount + fee < TWO_64
    ensures Wrap64(balance + amount + fee) > MAX_MONEY
      || (balance + amount + fee >= TWO_64 && Wrap64(balance + amount + fee) < amount + fee)
  {
  }

  lemma IssuedWrapped(l: Ledger, tx: FundsTx)
    requires Solvent(l) && SumFits(tx) && tx.from in l.rootKeys && tx.from in l.accounts && tx.to in l.accounts
    requires l.accounts[tx.from].balance + tx.amount + tx.fee >= TWO_64
    ensures FundsCheckFails(IssueToRoot(l, tx), tx, false)
  {
    Wrap64Absorbs(l.accounts[tx.from].balance + tx.amount, tx.fee);
  }

  lemma ChecksExactly(l: Ledger, issued: Ledger, tx: FundsTx)
    requires Solvent(l) && SumFits(tx) && tx.from in l.accounts && tx.to in l.accounts
    requires l.accounts[tx.from].balance + Credit(l, tx) <= MAX_MONEY
    requires var sender := l.accounts[tx.from];
      issued == l.(accounts := l.accounts[tx.from := sender.(balance := sender.balance + Credit(l, tx))])
    ensures !FundsCheckFails(issued, tx, false) <==> Covered(l, tx)
  {
  }

  // An accepted transaction moves exact amounts and keeps every balance within the ceiling.
  lemma AcceptedSettles(l: Ledger, closed: set<Hash>, tx: FundsTx)
    requires Solvent(l) && SumFits(tx) && tx.hash !in closed && FundsStep(l, closed, tx, false).Done?
    ensures tx.from in l.accounts && tx.to in l.accounts
    ensures Settles(l, FundsStep(l, closed, tx, false).ledger, tx) && Solvent(FundsStep(l, closed, tx, false).ledger)
  {
    assert tx.from in l.accounts && tx.to in l.accounts;
    AcceptedIffCovered(l, closed, tx);
    IssuedExactly(l, tx);
    SpentExactly(l, IssueToRoot(l, tx), tx);
  }

  lemma SpentExactly(l: Ledger, issued: Ledger, tx: FundsTx)
    requires Solvent(l) && tx.from in l.accounts && tx.to in l.accounts && Covered(l, tx)
    requires var sender := l.accounts[tx.from];
      issued == l.(accounts := l.accounts[tx.from := sender.(balance := sender.balance + Credit(l, tx))])
    ensures Settles(l, Transfer(issued, tx), tx) && Solvent(Transfer(issued, tx))
  {
    if tx.from == tx.to {
      SpentOnSelf(issued, tx);
    } else {
      TransferShape(issued, tx);
    }
  }

  lemma SpentOnSelf(l: Ledger, tx: FundsTx)
    requires tx.from == tx.to && tx.from in l.accounts
    ensures var m := Transfer(l, tx);
      && m.rootKeys == l.rootKeys && m.accounts.Keys == l.accounts.Keys
      && m.accounts[tx.from].balance == l.accounts[tx.from].balance
      && forall a :: a in l.accounts && a != tx.from ==> m.accounts[a] == l.accounts[a]
  {
    var b := l.accounts[tx.from].balance;
    assert Wrap64(Wrap64(b - tx.amount) + tx.amount) == b;
  }

  // One step adds exactly the root credit to the exact total.
  lemma SettledTotal(l: Ledger, m: Ledger, tx: FundsTx)
    requires tx.from in l.accounts && tx.to in l.accounts && Settles(l, m, tx)
    ensures Total(m) == Total(l) + Credit(l, tx)
  {
    hide SumOver;
    var s, f, g := l.accounts.Keys, Balances(l), Balances(m);
    SumWithout(s, tx.from, f); SumWithout(s, tx.from, g);
    if tx.from == tx.to {
      SumSame(s - {tx.from}, f, g);
    } else {
      SumWithout(s - {tx.from}, tx.to, f); SumWithout(s - {tx.from}, tx.to, g);
      SumSame(s - {tx.from} - {tx.to}, f, g);
    }
  }

  // A completed funds stage keeps every balance within the ceiling and changes the supply, as an integer, by what root
  // senders were issued: nothing wrapped.
  lemma {:induction false} FundsStageIsExact(l: Ledger, closed: set<Hash>, txs: seq<FundsTx>)
    requires Solvent(l) && NoneClosed(closed, txs, false) && forall i :: 0 <= i < |txs| ==> SumFits(txs[i])
    requires FundsStateChange(l, closed, txs, false).Done?
    ensures var m := FundsStateChange(l, closed, txs, false).ledger;
      Solvent(m) && m.rootKeys == l.rootKeys && Total(m) == Total(l) + RootIssued(l.rootKeys, txs)
  {
    hide Solvent, Total, FundsStep, Settles, SumFits;
    if txs != [] {
      var rest, tx := txs[..|txs| - 1], txs[|txs| - 1];
      FundsStageIsExact(l, closed, rest);
      var m := FundsStateChange(l, closed, rest, false).ledger;
      AcceptedSettles(m, closed, tx);
      SettledTotal(m, FundsStep(m, closed, tx, false).ledger, tx);
      SettledRoots(m, FundsStep(m, closed, tx, false).ledger, tx);
    }
  }

  lemma SettledRoots(l: Ledger, m: Ledger, tx: FundsTx)
    requires tx.from in l.accounts && tx.to in l.accounts && Settles(l, m, tx)
    ensures m.rootKeys == l.rootKeys
  {
  }

  // -------------------- fees --------------------

  // The fees are collected later, without a check of the sender. A sender other than the miner ends with its balance
  // less its fees exactly when the balance covers them all.
  lemma FeesExactIffCovered(s: Ledger, miner: Hash, txs: seq<FundsTx>, a: Hash)
    requires CollectTxFees(s, miner, FundsFees(txs)).Done? && a in s.accounts && a != miner
    ensures a in CollectTxFees(s, miner, FundsFees(txs)).ledger.accounts
    ensures CollectTxFees(s, miner, FundsFees(txs)).ledger.accounts[a].balance == s.accounts[a].balance - Owed(txs, a)
       <==> Owed(txs, a) <= s.accounts[a].balance
  {
    hide Owed, CollectFees, Moved, FeeMoves, Wrap64;
    FeesEffect(s, miner, FundsFees(txs));
    MovedAt(s, CollectTxFees(s, miner, FundsFees(txs)).ledger, FeeMoves(miner, FundsFees(txs)), a);
    FeesMovePending(miner, txs, a);
    OwedNonNegative(txs, a);
    WrapExactly(s.accounts[a].balance - Owed(txs, a));
  }

  lemma WrapExactly(x: int)
    requires x < TWO_64
    ensures Wrap64(x) == x <==> 0 <= x
  {
  }

  // -------------------- staking --------------------

  // A completed stake stage puts nobody into the validator set who holds less than the minimum.
  lemma {:induction false} StartersCovered(l: Ledger, minimum: uint64, txs: seq<StakeTx>)
    requires StakeStateChange(l, minimum, txs, false).Done? && forall i :: 0 <= i < |txs| ==>
      txs[i].fee + minimum < TWO_64
    ensures var m := StakeStateChange(l, minimum, txs, false).ledger;
      && m.accounts.Keys == l.accounts.Keys
      && forall a :: a in l.accounts ==>
        && m.accounts[a].balance == l.accounts[a].balance
        && (m.accounts[a].isStaking && !l.accounts[a].isStaking ==> l.accounts[a].balance >= minimum)
  {
    if txs != [] {
      StartersCovered(l, minimum, txs[..|txs| - 1]);
    }
  }

  // -------------------- what a block's preparation admits --------------------

  // What a was issued as the root sender of the transactions.
  ghost function RootCredit(roots: set<Hash>, txs: seq<FundsTx>, a: Hash): int {
    if txs == [] then 0
    else
      var tx := txs[|txs| - 1];
      RootCredit(roots, txs[..|txs| - 1], a) + if tx.from == a && a in roots then tx.amount + tx.fee else 0
  }

  // What a holds after the admitted transactions, read off the preparation: its copy with the pending fees and, for a
  // root, what it was issued.
  ghost function Held(l: Ledger, p: Prep, a: Hash): uint64
    requires a in l.accounts
  {
    Wrap64(CopyOr(l, p.copy, a).balance + Owed(p.admitted, a) + RootCredit(l.rootKeys, p.admitted, a))
  }

  // The state s reached by the admitted transactions of any senders, against the preparation.
  ghost predicate Tracks(l: Ledger, p: Prep, s: Ledger) {
    && s.rootKeys == l.rootKeys && p.copy.Keys <= l.accounts.Keys && SameStaking(l, s)
    && forall a :: a in l.accounts ==> TracksAt(l, p, s, a)
  }

  ghost predicate TracksAt(l: Ledger, p: Prep, s: Ledger, a: Hash)
    requires a in l.accounts && a in s.accounts
  {
    s.accounts[a].balance == Held(l, p, a) && s.accounts[a].txCnt == CopyOr(l, p.copy, a).txCnt
  }

  lemma CreditSnoc(roots: set<Hash>, txs: seq<FundsTx>, tx: FundsTx, a: Hash)
    ensures RootCredit(roots, txs + [tx], a)
      == RootCredit(roots, txs, a) + if tx.from == a && a in roots then tx.amount + tx.fee else 0
  {
    assert (txs + [tx])[..|txs|] == txs;
  }

  lemma Wrap64Subtracts(x: int, y: int)
    ensures Wrap64(x - Wrap64(y)) == Wrap64(x - y)
  {
  }

  lemma SpendNet(copy: Copy, tx: FundsTx, a: Hash)
    requires tx.from in copy && tx.to in copy && a in copy
    ensures var c := Spend(copy, tx);
      && c.Keys == copy.Keys
      && c[a].balance == Wrap64(copy[a].balance - (if tx.from == a then tx.amount + tx.fee else 0)
                                + if tx.to == a then tx.amount else 0)
      && c[a].txCnt == if tx.from == a then Wrap32(copy[a].txCnt + 1) else copy[a].txCnt
  {
    hide Wrap64, Wrap32;
    var b := copy[tx.from].balance;
    Wrap64Subtracts(b, tx.amount + tx.fee);
    Wrap64Absorbs(b - (tx.amount + tx.fee), tx.amount);
    WrapSame(copy[a].balance, copy[a].txCnt);
  }

  // Moving the amounts on the state, or amounts and fees on the copy.
  lemma SumsAgree(balance: int, owed: int, issued: int, credit: int, sent: int, fee: int, received: int)
    ensures Wrap64(Wrap64(balance + owed + issued) + (credit - sent + received))
         == Wrap64(Wrap64(balance - (sent + fee) + received) + (owed + fee) + (issued + credit))
  {
    Wrap64Absorbs(balance + owed + issued, credit - sent + received);
    Wrap64Absorbs(balance - (sent + fee) + received, (owed + fee) + (issued + credit));
  }

  lemma SpendTracksAt(l: Ledger, p: Prep, s: Ledger, t: Ledger, tx: FundsTx, a: Hash)
    requires a in l.accounts && a in s.accounts && s.rootKeys == l.rootKeys && TracksAt(l, p, s, a)
    requires tx.from in p.copy && tx.to in p.copy
    requires Moved(s, t, TxMoves(s.rootKeys, tx), [Move(tx.from, 1)])
    ensures a in t.accounts && TracksAt(l, p.(copy := Spend(p.copy, tx), admitted := p.admitted + [tx]), t, a)
  {
    hide Owed, RootCredit, TxMoves, Spend, Net, Wrap64, Wrap32;
    TxNet(s.rootKeys, tx, a);
    NetOne(Move(tx.from, 1), a);
    OwedSnoc(p.admitted, tx, a);
    CreditSnoc(l.rootKeys, p.admitted, tx, a);
    var balance := CopyOr(l, p.copy, a).balance;
    var owed, issued := Owed(p.admitted, a), RootCredit(l.rootKeys, p.admitted, a);
    WrapSame(balance, s.accounts[a].txCnt);
    SumsAgree(balance, owed, issued, if tx.from == a && a in s.rootKeys then tx.amount + tx.fee else 0,
              if tx.from == a then tx.amount else 0, if tx.from == a then tx.fee else 0, if tx.to == a then tx.amount
              else 0);
    if a in p.copy {
      SpendNet(p.copy, tx, a);
    } else {
      SpendKeys(p.copy, tx);
      Wrap64Absorbs(balance + owed + issued, 0);
    }
  }

  lemma SpendKeys(copy: Copy, tx: FundsTx)
    requires tx.from in copy && tx.to in copy
    ensures Spend(copy, tx).Keys == copy.Keys
  {
  }

  // One more transaction, admitted and accepted.
  lemma SpendTracks(l: Ledger, closed: set<Hash>, p: Prep, s: Ledger, tx: FundsTx)
    requires Tracks(l, p, s) && tx.from in p.copy && tx.to in p.copy
    requires tx.hash !in closed && FundsStep(s, closed, tx, false).Done?
    ensures Tracks(l, p.(copy := Spend(p.copy, tx), admitted := p.admitted + [tx]),
      FundsStep(s, closed, tx, false).ledger)
  {
    hide Held, Spend, FundsStep, TxMoves, Net, Wrap64, Wrap32, TracksAt;
    var t := FundsStep(s, closed, tx, false).ledger;
    FundsStepEffect(s, closed, tx, false);
    SpendKeys(p.copy, tx);
    StakingSame(l, s, t);
    forall a | a in l.accounts
      ensures a in t.accounts && TracksAt(l, p.(copy := Spend(p.copy, tx), admitted := p.admitted + [tx]), t, a)
    {
      SpendTracksAt(l, p, s, t, tx, a);
    }
  }

  // A copy of an account is the account.
  lemma CopyTracks(l: Ledger, addressHash: AddressHash, p: Prep, s: Ledger, h: Hash)
    requires Tracks(l, p, s) && h in l.accounts
    ensures Tracks(l, p.(copy := WithCopy(l, addressHash, p.copy, h)), s)
  {
    hide Owed, RootCredit, Wrap64;
  }

  // The preparation on which the checks of a transaction are made, once both accounts are copied.
  function Copied(l: Ledger, addressHash: AddressHash, p: Prep, tx: FundsTx): Prep
    requires tx.from in l.accounts && tx.to in l.accounts
  {
    p.(copy := WithCopy(l, addressHash, WithCopy(l, addressHash, p.copy, tx.from), tx.to))
  }

  // What addFundsTx does to the admitted transactions: nothing, or one more on the copies of its accounts.
  lemma AddedOne(l: Ledger, closed: set<Hash>, addressHash: AddressHash, p: Prep, s: Ledger, tx: FundsTx)
    requires Tracks(l, p, s)
    ensures var q := Add(l, closed, addressHash, p, tx).prep;
      || (q.admitted == p.admitted && Tracks(l, q, s))
      || (tx.from in l.accounts && tx.to in l.accounts
          && var c := Copied(l, addressHash, p, tx);
          && Tracks(l, c, s) && tx.from in c.copy && tx.to in c.copy
          && tx.txCnt == c.copy[tx.from].txCnt
          && q == c.(copy := Spend(c.copy, tx), admitted := p.admitted + [tx]))
  {
    hide Tracks, Spend, Wrap64;
    CopiesOfAccounts(l, p, s);
    if tx.from in l.accounts {
      var p1 := p.(copy := WithCopy(l, addressHash, p.copy, tx.from));
      CopyTracks(l, addressHash, p, s, tx.from);
      CopiesOfAccounts(l, p1, s);
      if tx.to in l.accounts {
        CopyTracks(l, addressHash, p1, s, tx.to);
      }
    }
    forall copy, invalid, open | Tracks(l, p.(copy := copy), s)
      ensures Tracks(l, p.(copy := copy, invalid := invalid, open := open), s)
    {
      PoolsApart(l, p, s, copy, invalid, open);
    }
  }

  lemma CopiesOfAccounts(l: Ledger, p: Prep, s: Ledger)
    requires Tracks(l, p, s)
    ensures p.copy.Keys <= l.accounts.Keys
  {
  }

  lemma PoolsApart(l: Ledger, p: Prep, s: Ledger, copy: Copy, invalid: map<Hash, FundsTx>, open: map<Hash, FundsTx>)
    requires Tracks(l, p.(copy := copy), s)
    ensures Tracks(l, p.(copy := copy, invalid := invalid, open := open), s)
  {
  }

  lemma FreshTracks(l: Ledger, p: Prep)
    requires p.copy == map[] && p.admitted == []
    ensures Tracks(l, p, l)
  {
    forall a | a in l.accounts ensures Held(l, p, a) == l.accounts[a].balance {
      NothingOwed(a, a);
      WrapSame(l.accounts[a].balance, l.accounts[a].txCnt);
    }
  }

  // Whatever is offered to a fresh block, root and staking senders and transfers to oneself included: as long as the
  // validator accepts the admitted transactions, its state is what the preparation says.
  lemma {:induction false} AdmittedAreTracked(l: Ledger, closed: set<Hash>, addressHash: AddressHash, start: Prep,
                                              txs: seq<FundsTx>)
    requires start.copy == map[] && start.admitted == [] && forall tx <- txs :: tx.hash !in closed
    ensures var p := AddAll(l, closed, addressHash, start, txs).prep;
      && (forall tx <- p.admitted :: tx in txs)
      && (FundsStateChange(l, closed, p.admitted, false).Done? ==>
          Tracks(l, p, FundsStateChange(l, closed, p.admitted, false).ledger))
  {
    hide Tracks, Add, FundsStep, Spend;
    if txs == [] {
      FreshTracks(l, start);
    } else {
      var rest, tx := txs[..|txs| - 1], txs[|txs| - 1];
      AdmittedAreTracked(l, closed, addressHash, start, rest);
      OfferedOne(l, closed, addressHash, AddAll(l, closed, addressHash, start, rest).prep, tx);
    }
  }

  // One step of the run.
  lemma OfferedOne(l: Ledger, closed: set<Hash>, addressHash: AddressHash, p: Prep, tx: FundsTx)
    requires tx.hash !in closed
    requires FundsStateChange(l, closed, p.admitted, false).Done? ==>
      Tracks(l, p, FundsStateChange(l, closed, p.admitted, false).ledger)
    ensures var q := Add(l, closed, addressHash, p, tx).prep;
      && (q.admitted == p.admitted || q.admitted == p.admitted + [tx])
      && (FundsStateChange(l, closed, q.admitted, false).Done? ==>
          Tracks(l, q, FundsStateChange(l, closed, q.admitted, false).ledger))
  {
    hide Tracks, FundsStep, Spend, Add;
    AddedShape(l, closed, addressHash, p, tx);
    assert (p.admitted + [tx])[..|p.admitted|] == p.admitted;
    if FundsStateChange(l, closed, p.admitted, false).Done? {
      var s := FundsStateChange(l, closed, p.admitted, false).ledger;
      AddedOne(l, closed, addressHash, p, s, tx);
      if Add(l, closed, addressHash, p, tx).prep.admitted == p.admitted + [tx]
        && FundsStep(s, closed, tx, false).Done? {
        assert |p.admitted + [tx]| != |p.admitted|;
        SpendTracks(l, closed, Copied(l, addressHash, p, tx), s, tx);
      }
    }
  }

  lemma AddedShape(l: Ledger, closed: set<Hash>, addressHash: AddressHash, p: Prep, tx: FundsTx)
    ensures Add(l, closed, addressHash, p, tx).prep.admitted in {p.admitted, p.admitted + [tx]}
  {
    hide Spend, Wrap64;
  }

  // What a sender holds covers amount, fee and, while staking, the least stake, and nobody passes the ceiling.
  ghost predicate HeldCovers(l: Ledger, p: Prep, tx: FundsTx)
    requires tx.from in l.accounts && tx.to in l.accounts
  {
    var funds := Held(l, p, tx.from) + Credit(l, tx);
    && tx.amount + tx.fee <= funds <= MAX_MONEY
    && (l.accounts[tx.from].isStaking ==> tx.amount + tx.fee + MIN_STAKING_MINIMUM <= funds)
    && (if tx.to == tx.from then funds else Held(l, p, tx.to)) + tx.amount <= MAX_MONEY
  }

  lemma CopiedHeld(l: Ledger, addressHash: AddressHash, p: Prep, tx: FundsTx, a: Hash)
    requires tx.from in l.accounts && tx.to in l.accounts && a in l.accounts
    ensures Held(l, Copied(l, addressHash, p, tx), a) == Held(l, p, a)
  {
    hide Owed, RootCredit, Wrap64;
  }

  lemma TrackedAccount(l: Ledger, p: Prep, s: Ledger, a: Hash)
    requires Tracks(l, p, s) && a in l.accounts
    ensures a in s.accounts && s.accounts[a].balance == Held(l, p, a)
      && s.accounts[a].txCnt == CopyOr(l, p.copy, a).txCnt
    ensures s.accounts[a].isStaking == l.accounts[a].isStaking && s.rootKeys == l.rootKeys
  {
  }

  // Whatever a block's preparation has admitted so far: the validator accepts the next transaction it admits exactly
  // when what the sender then holds covers it and nobody passes the ceiling.
  lemma AdmittedAcceptedIff(l: Ledger, closed: set<Hash>, addressHash: AddressHash, start: Prep, txs: seq<FundsTx>,
                            tx: FundsTx)
    requires Solvent(l) && start.copy == map[] && start.admitted == []
    requires forall t <- txs + [tx] :: SumFits(t) && t.hash !in closed
    requires FundsStateChange(l, closed, AddAll(l, closed, addressHash, start, txs).prep.admitted, false).Done?
    requires var p := AddAll(l, closed, addressHash, start, txs).prep;
      Add(l, closed, addressHash, p, tx).prep.admitted == p.admitted + [tx]
    ensures tx.from in l.accounts && tx.to in l.accounts
    ensures var p := AddAll(l, closed, addressHash, start, txs).prep;
      FundsStateChange(l, closed, p.admitted + [tx], false).Done? <==> HeldCovers(l, p, tx)
  {
    hide AddAll, Add, Tracks, FundsStep, Spend, Held, Solvent, Total, SumFits, Wrap64;
    var p := AddAll(l, closed, addressHash, start, txs).prep;
    var s := FundsStateChange(l, closed, p.admitted, false).ledger;
    assert forall t <- txs :: t in txs + [tx];
    assert tx in txs + [tx];
    AdmittedAreTracked(l, closed, addressHash, start, txs);
    FundsStageIsExact(l, closed, p.admitted);
    AddedOne(l, closed, addressHash, p, s, tx);
    assert |p.admitted + [tx]| != |p.admitted|;
    assert (p.admitted + [tx])[..|p.admitted|] == p.admitted;
    TrackedAccount(l, Copied(l, addressHash, p, tx), s, tx.from);
    TrackedAccount(l, Copied(l, addressHash, p, tx), s, tx.to);
    CopiedHeld(l, addressHash, p, tx, tx.from);
    CopiedHeld(l, addressHash, p, tx, tx.to);
    AcceptedIffCovered(s, closed, tx);
  }

  // Every transaction is covered when it is admitted.
  ghost predicate AllCovered(l: Ledger, closed: set<Hash>, addressHash: AddressHash, start: Prep, txs: seq<FundsTx>) {
    txs == [] ||
    (var rest, tx := txs[..|txs| - 1], txs[|txs| - 1];
     var p := AddAll(l, closed, addressHash, start, rest).prep;
     && AllCovered(l, closed, addressHash, start, rest)
     && (AddAll(l, closed, addressHash, start, txs).prep.admitted != p.admitted ==>
         tx.from in l.accounts && tx.to in l.accounts && HeldCovers(l, p, tx)))
  }

  // So a prepared block passes the validator's funds stage exactly when each of its transactions was covered.
  lemma {:induction false} PreparedAcceptedIff(l: Ledger, closed: set<Hash>, addressHash: AddressHash, start: Prep,
                                               txs: seq<FundsTx>)
    requires Solvent(l) && start.copy == map[] && start.admitted == []
    requires forall t <- txs :: SumFits(t) && t.hash !in closed
    ensures FundsStateChange(l, closed, AddAll(l, closed, addressHash, start, txs).prep.admitted, false).Done?
       <==> AllCovered(l, closed, addressHash, start, txs)
  {
    hide Add, FundsStep, HeldCovers, Solvent, SumFits;
    if txs != [] {
      var rest, tx := txs[..|txs| - 1], txs[|txs| - 1];
      var p := AddAll(l, closed, addressHash, start, rest).prep;
      PreparedAcceptedIff(l, closed, addressHash, start, rest);
      AddedShape(l, closed, addressHash, p, tx);
      assert rest + [tx] == txs;
      assert (p.admitted + [tx])[..|p.admitted|] == p.admitted;
      if AddAll(l, closed, addressHash, start, txs).prep.admitted != p.admitted
        && FundsStateChange(l, closed, p.admitted, false).Done?
      {
        AdmittedAcceptedIff(l, closed, addressHash, start, rest, tx);
      }
    }
  }
}
