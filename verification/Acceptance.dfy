/** When a stage of block validation completes: for every stage and for the whole block, exactly the conditions on the
    ledger before it, in unbounded arithmetic wherever the checks do not wrap, and openly modulo 2^64 where they do. */
module Acceptance {
  import opened Words
  import opened Protocol
  import opened Ledger
  import opened Effects
  import opened StageEffects
  import opened AccountStage
  import opened Validation
  import opened BlockEffects
  import opened Solvency

  // -------------------- accounts --------------------

  // The account of transaction i is there when the slice reaches it: held before, or created earlier in the slice.
  ghost predicate ThereAt(l: Ledger, txs: seq<AccTx>, i: nat)
    requires i < |txs|
  {
    txs[i].account in l.accounts || txs[i].account in Created(txs[..i])
  }

  // Header 2 names an account that is there, every other header one that is not.
  ghost predicate AccsFit(l: Ledger, txs: seq<AccTx>) {
    forall i :: 0 <= i < |txs| ==> (txs[i].header == 2 <==> ThereAt(l, txs, i))
  }

  // The accounts whose root role a header 2 withdraws.
  ghost function Withdrawn(txs: seq<AccTx>): set<Hash> {
    set i | 0 <= i < |txs| && txs[i].header == 2 :: txs[i].account
  }

  // The slice's accounts on top of the ledger, empty, with the profiles they were given, and its changes to the root
  // keys.
  ghost predicate AccsAdded(l: Ledger, txs: seq<AccTx>, m: Ledger) {
    && m.accounts.Keys == l.accounts.Keys + Created(txs)
    && (forall a :: a in l.accounts ==> m.accounts[a] == l.accounts[a])
    && (forall i :: 0 <= i < |txs| && txs[i].header != 2 ==>
        txs[i].account in m.accounts && m.accounts[txs[i].account] == Account(txs[i].profile, 0, 0, false))
    && Withdrawn(txs) <= m.accounts.Keys
    && m.rootKeys == l.rootKeys + NewRoots(txs) - Withdrawn(txs)
  }

  lemma {:induction false} AccsAcceptedIff(l: Ledger, txs: seq<AccTx>)
    ensures !AccStateChange(l, txs).Crashed?
    ensures AccStateChange(l, txs).Done? <==> AccsFit(l, txs)
    ensures AccStateChange(l, txs).Done? ==> AccsAdded(l, txs, AccStateChange(l, txs).ledger)
  {
    if txs != [] {
      var n := |txs| - 1;
      var rest, tx := txs[..n], txs[n];
      AccsAcceptedIff(l, rest);
      assert forall i :: 0 <= i < n ==> rest[i] == txs[i] && rest[..i] == txs[..i];
      assert AccsFit(l, txs) <==> AccsFit(l, rest) && (tx.header == 2 <==> ThereAt(l, txs, n)) by {
        assert forall i :: 0 <= i < n ==> ThereAt(l, rest, i) == ThereAt(l, txs, i);
      }
      if AccsFit(l, rest) {
        var m := AccStateChange(l, rest).ledger;
        AccsSnoc(l, txs, m);
      }
    }
  }

  lemma {:induction false} AccsSnoc(l: Ledger, txs: seq<AccTx>, m: Ledger)
    requires txs != [] && AccsAdded(l, txs[..|txs| - 1], m)
    ensures var tx := txs[|txs| - 1];
      && (AccStep(m, tx).Done? <==> (tx.header == 2 <==> ThereAt(l, txs, |txs| - 1)))
      && (AccStep(m, tx).Done? ==> AccsAdded(l, txs, AccStep(m, tx).ledger))
  {
    hide Created, NewRoots, Withdrawn;
    var n := |txs| - 1;
    var rest, tx := txs[..n], txs[n];
    CreatedSnoc(txs);
    RootsSnoc(txs);
    if AccStep(m, tx).Done? {
      var r := AccStep(m, tx).ledger;
      forall i | 0 <= i < |txs| && txs[i].header != 2
        ensures txs[i].account in r.accounts && r.accounts[txs[i].account] == Account(txs[i].profile, 0, 0, false)
      {
        if i < n { assert rest[i] == txs[i]; assert rest[i].account in m.accounts; }
      }
    }
  }

  lemma RootsSnoc(txs: seq<AccTx>)
    requires txs != []
    ensures var rest, tx := txs[..|txs| - 1], txs[|txs| - 1];
      && NewRoots(txs) == NewRoots(rest) + (if tx.header == 1 then {tx.account} else {})
      && Withdrawn(txs) == Withdrawn(rest) + if tx.header == 2 then {tx.account} else {}
  {
  }

  // Which transaction stopped the stage: everything before it stays applied.
  lemma {:induction false} AccsRefusedAt(l: Ledger, txs: seq<AccTx>) returns (k: nat)
    requires AccStateChange(l, txs).Failed?
    ensures k < |txs| && AccsFit(l, txs[..k]) && (txs[k].header == 2 <==> !ThereAt(l, txs, k))
    ensures AccsAdded(l, txs[..k], AccStateChange(l, txs).ledger)
  {
    AccsAcceptedIff(l, txs);
    var rest := txs[..|txs| - 1];
    AccsAcceptedIff(l, rest);
    if AccStateChange(l, rest).Done? {
      k := |txs| - 1;
      AccsSnoc(l, txs, AccStateChange(l, rest).ledger);
    } else {
      k := AccsRefusedAt(l, rest);
      assert rest[..k] == txs[..k] && rest[k] == txs[k];
    }
  }

  // -------------------- funds --------------------

  // The exact balance of a after the moves.
  ghost function Balance(l: Ledger, moves: seq<Move>, a: Hash): int
    requires a in l.accounts
  {
    l.accounts[a].balance + Net(moves, a)
  }

  // Sender and receiver of transaction i are there, and what the sender holds after the transactions before it covers
  // the transaction.
  ghost predicate CoveredAt(l: Ledger, txs: seq<FundsTx>, i: nat)
    requires i < |txs|
  {
    var tx, moves := txs[i], FundsMoves(l.rootKeys, txs[..i]);
    && tx.from in l.accounts && tx.to in l.accounts
    && var funds := Balance(l, moves, tx.from) + Credit(l, tx);
       && funds <= MAX_MONEY
       && tx.amount + tx.fee <= funds
       && (l.accounts[tx.from].isStaking ==> tx.amount + tx.fee + MIN_STAKING_MINIMUM <= funds)
       && (if tx.to == tx.from then funds else Balance(l, moves, tx.to)) + tx.amount <= MAX_MONEY
       && (tx.aggregated || tx.txCnt <= Wrap32(l.accounts[tx.from].txCnt + Net(FundsMarks(txs[..i]), tx.from)))
  }

  ghost predicate FundsFit(l: Ledger, txs: seq<FundsTx>) {
    forall i :: 0 <= i < |txs| ==> CoveredAt(l, txs, i)
  }

  ghost predicate SumsFit(txs: seq<FundsTx>) { forall i :: 0 <= i < |txs| ==> SumFits(txs[i]) }

  // m is l with the exact moves and within the ceiling.
  ghost predicate HeldExactly(l: Ledger, m: Ledger, moves: seq<Move>, marks: seq<Move>) {
    && Solvent(m) && SameStaking(l, m) && m.rootKeys == l.rootKeys
    && forall a :: a in l.accounts ==>
      && m.accounts[a].balance == Balance(l, moves, a)
      && m.accounts[a].txCnt == Wrap32(l.accounts[a].txCnt + Net(marks, a))
  }

  // The funds stage completes exactly when every transaction is covered after those before it; then no balance wrapped.
  lemma {:induction false} FundsAcceptedIff(l: Ledger, closed: set<Hash>, txs: seq<FundsTx>)
    requires Solvent(l) && NoneClosed(closed, txs, false) && SumsFit(txs)
    ensures FundsStateChange(l, closed, txs, false).Done? <==> FundsFit(l, txs)
    ensures FundsFit(l, txs) ==>
      HeldExactly(l, FundsStateChange(l, closed, txs, false).ledger, FundsMoves(l.rootKeys, txs), FundsMarks(txs))
  {
    hide Solvent, SumFits, FundsStep, HeldExactly, CoveredAt, Wrap32;
    if txs == [] {
      HeldAtFirst(l);
    } else {
      var n := |txs| - 1;
      var rest, tx := txs[..n], txs[n];
      FundsAcceptedIff(l, closed, rest);
      CoveredSnoc(l, txs);
      if FundsFit(l, rest) {
        var m := FundsStateChange(l, closed, rest, false).ledger;
        CoveredNext(l, m, closed, txs);
      }
    }
  }

  lemma HeldAtFirst(l: Ledger)
    requires Solvent(l)
    ensures HeldExactly(l, l, [], [])
  {
  }

  lemma {:induction false} CoveredSnoc(l: Ledger, txs: seq<FundsTx>)
    requires txs != []
    ensures FundsFit(l, txs) <==> FundsFit(l, txs[..|txs| - 1]) && CoveredAt(l, txs, |txs| - 1)
  {
    hide CoveredAt;
    var rest := txs[..|txs| - 1];
    forall i | 0 <= i < |rest| ensures CoveredAt(l, rest, i) == CoveredAt(l, txs, i) {
      CoveredPrefix(l, txs, |rest|, i);
    }
  }

  lemma {:induction false} CoveredPrefix(l: Ledger, txs: seq<FundsTx>, n: nat, i: nat)
    requires i < n <= |txs|
    ensures CoveredAt(l, txs[..n], i) == CoveredAt(l, txs, i)
  {
    assert txs[..n][..i] == txs[..i] && txs[..n][i] == txs[i];
  }

  lemma {:induction false} CoveredNext(l: Ledger, m: Ledger, closed: set<Hash>, txs: seq<FundsTx>)
    requires txs != [] && SumFits(txs[|txs| - 1]) && txs[|txs| - 1].hash !in closed
    requires HeldExactly(l, m, FundsMoves(l.rootKeys, txs[..|txs| - 1]), FundsMarks(txs[..|txs| - 1]))
    ensures FundsStep(m, closed, txs[|txs| - 1], false).Done? <==> CoveredAt(l, txs, |txs| - 1)
    ensures CoveredAt(l, txs, |txs| - 1) ==>
      HeldExactly(l, FundsStep(m, closed, txs[|txs| - 1], false).ledger, FundsMoves(l.rootKeys, txs), FundsMarks(txs))
  {
    hide Net, TxMoves, FundsStep, Wrap32, Wrap64;
    var n := |txs| - 1;
    var tx := txs[n];
    if tx.from in m.accounts && tx.to in m.accounts {
      CoveredThere(l, m, txs);
      AcceptedIffCovered(m, closed, tx);
      if Covered(m, tx) {
        var r := FundsStep(m, closed, tx, false).ledger;
        AcceptedSettles(m, closed, tx);
        FundsStepEffect(m, closed, tx, false);
        SettledNext(l, m, r, txs);
      }
    } else {
      AccountsNeeded(m, closed, tx, false);
    }
  }

  lemma AccountsNeeded(l: Ledger, closed: set<Hash>, tx: FundsTx, initialSetup: bool)
    requires initialSetup || tx.hash !in closed
    ensures FundsStep(l, closed, tx, initialSetup).Done? ==> tx.from in l.accounts && tx.to in l.accounts
  {
  }

  lemma {:induction false} CoveredThere(l: Ledger, m: Ledger, txs: seq<FundsTx>)
    requires txs != [] && txs[|txs| - 1].from in m.accounts && txs[|txs| - 1].to in m.accounts
    requires HeldExactly(l, m, FundsMoves(l.rootKeys, txs[..|txs| - 1]), FundsMarks(txs[..|txs| - 1]))
    ensures Covered(m, txs[|txs| - 1]) <==> CoveredAt(l, txs, |txs| - 1)
  {
    hide Net, FundsMoves, FundsMarks, Wrap32;
  }

  lemma {:induction false} SettledNext(l: Ledger, m: Ledger, r: Ledger, txs: seq<FundsTx>)
    requires txs != [] && HeldExactly(l, m, FundsMoves(l.rootKeys, txs[..|txs| - 1]), FundsMarks(txs[..|txs| - 1]))
    requires var tx := txs[|txs| - 1];
      && tx.from in m.accounts && tx.to in m.accounts && Solvent(r) && Settles(m, r, tx)
      && Moved(m, r, TxMoves(m.rootKeys, tx), [Move(tx.from, 1)]) && SameStaking(m, r)
    ensures HeldExactly(l, r, FundsMoves(l.rootKeys, txs), FundsMarks(txs))
  {
    hide Net, TxMoves, Wrap32, Wrap64, Solvent, FundsMoves, FundsMarks, Settles;
    SettledRoots(m, r, txs[|txs| - 1]);
    forall a | a in l.accounts
      ensures r.accounts[a].balance == Balance(l, FundsMoves(l.rootKeys, txs), a)
      ensures r.accounts[a].txCnt == Wrap32(l.accounts[a].txCnt + Net(FundsMarks(txs), a))
    {
      SettledAt(l, m, r, txs, a);
    }
  }

  lemma {:induction false} SettledAt(l: Ledger, m: Ledger, r: Ledger, txs: seq<FundsTx>, a: Hash)
    requires txs != [] && a in l.accounts && a in m.accounts && a in r.accounts && m.rootKeys == l.rootKeys
    requires m.accounts[a].balance == Balance(l, FundsMoves(l.rootKeys, txs[..|txs| - 1]), a)
    requires m.accounts[a].txCnt == Wrap32(l.accounts[a].txCnt + Net(FundsMarks(txs[..|txs| - 1]), a))
    requires var tx := txs[|txs| - 1];
      && tx.from in m.accounts && tx.to in m.accounts && Settles(m, r, tx)
      && r.accounts[a].txCnt == Wrap32(m.accounts[a].txCnt + Net([Move(tx.from, 1)], a))
    ensures r.accounts[a].balance == Balance(l, FundsMoves(l.rootKeys, txs), a)
    ensures r.accounts[a].txCnt == Wrap32(l.accounts[a].txCnt + Net(FundsMarks(txs), a))
  {
    hide Net, TxMoves, Wrap32, Wrap64;
    var rest, tx := txs[..|txs| - 1], txs[|txs| - 1];
    NetConcat(FundsMoves(l.rootKeys, rest), TxMoves(l.rootKeys, tx), a);
    TxNet(l.rootKeys, tx, a);
    NetConcat(FundsMarks(rest), [Move(tx.from, 1)], a);
    Wrap32Absorbs(l.accounts[a].txCnt + Net(FundsMarks(rest), a), Net([Move(tx.from, 1)], a));
  }

  // A funds transaction that is not applied leaves the ledger alone. The step crashes exactly on a missing account: a
  // sender that is no root, or a receiver outside the initial setup.
  lemma FundsRefused(l: Ledger, closed: set<Hash>, tx: FundsTx, initialSetup: bool)
    ensures FundsStep(l, closed, tx, initialSetup).Failed? ==> FundsStep(l, closed, tx, initialSetup).ledger == l
    ensures tx.hash in closed && !initialSetup ==> FundsStep(l, closed, tx, initialSetup) == Done(l)
    ensures FundsStep(l, closed, tx, initialSetup).Crashed? <==>
      && (initialSetup || tx.hash !in closed)
      && (if tx.from !in l.accounts then tx.from !in l.rootKeys
          else && tx.to !in l.accounts && !initialSetup
               && (tx.from in l.rootKeys ==> Wrap64(l.accounts[tx.from].balance + tx.amount + tx.fee) <= MAX_MONEY))
  {
  }

  // The initial setup checks the ceiling of a root sender and the least stake of a staking one, and no more.
  ghost predicate SetupAdmits(l: Ledger, tx: FundsTx)
    requires tx.from in l.accounts
  {
    var funds := Wrap64(l.accounts[tx.from].balance + Credit(l, tx));
    && (tx.from in l.rootKeys ==> funds <= MAX_MONEY)
    && (l.accounts[tx.from].isStaking ==> tx.amount + tx.fee + MIN_STAKING_MINIMUM <= funds)
  }

  lemma SetupAcceptedIff(l: Ledger, closed: set<Hash>, tx: FundsTx)
    requires SumFits(tx)
    ensures FundsStep(l, closed, tx, true).Done? <==>
      tx.from in l.accounts && tx.to in l.accounts && SetupAdmits(l, tx)
  {
    hide Transfer;
    if tx.from in l.accounts {
      SetupFunds(l, tx);
    }
  }

  lemma SetupFunds(l: Ledger, tx: FundsTx)
    requires tx.from in l.accounts
    ensures IssueToRoot(l, tx).accounts.Keys == l.accounts.Keys
    ensures IssueToRoot(l, tx).accounts[tx.from]
      == l.accounts[tx.from].(balance := Wrap64(l.accounts[tx.from].balance + Credit(l, tx)))
  {
    Wrap64Absorbs(l.accounts[tx.from].balance + tx.amount, tx.fee);
  }

  // -------------------- staking --------------------

  // Whether a stakes after the transactions: what its last one says.
  ghost function StakesAfter(l: Ledger, txs: seq<StakeTx>, a: Hash): bool
    requires a in l.accounts
  {
    if txs == [] then l.accounts[a].isStaking
    else if txs[|txs| - 1].account == a then txs[|txs| - 1].isStaking
    else StakesAfter(l, txs[..|txs| - 1], a)
  }

  // A stake transaction is accepted for an account with the balance and the flag: the flag differs, the balance covers
  // the fee, and whoever starts staking covers fee and minimum, whose sum the code takes modulo 2^64.
  ghost predicate MayStake(balance: int, stakes: bool, minimum: uint64, tx: StakeTx) {
    tx.isStaking != stakes && tx.fee <= balance && (tx.isStaking ==> Wrap64(tx.fee + minimum) <= balance)
  }

  // In unbounded arithmetic. Where fee and minimum do not fit 64 bits the fee alone decides: the minimum is not
  // checked.
  lemma MayStakeExactly(balance: int, stakes: bool, minimum: uint64, tx: StakeTx)
    ensures tx.fee + minimum < TWO_64 ==>
      (MayStake(balance, stakes, minimum, tx) <==>
       tx.isStaking != stakes && (if tx.isStaking then tx.fee + minimum else tx.fee) <= balance)
    ensures tx.fee + minimum >= TWO_64 ==>
      (MayStake(balance, stakes, minimum, tx) <==> tx.isStaking != stakes && tx.fee <= balance)
  {
  }

  lemma StakeAcceptedIff(l: Ledger, minimum: uint64, tx: StakeTx, initialSetup: bool)
    ensures StakeStep(l, minimum, tx, initialSetup).Crashed? <==> tx.account !in l.accounts
    ensures tx.account in l.accounts ==>
      var sender := l.accounts[tx.account];
      if if initialSetup then tx.isStaking != sender.isStaking
         else MayStake(sender.balance, sender.isStaking, minimum, tx)
      then StakeStep(l, minimum, tx, initialSetup)
        == Done(l.(accounts := l.accounts[tx.account := sender.(isStaking := tx.isStaking)]))
      else StakeStep(l, minimum, tx, initialSetup) == Failed(l)
  {
  }

  // Transaction i of the slice, for the balances l holds.
  ghost predicate StakeFits(l: Ledger, balance: Hash -> int, minimum: uint64, txs: seq<StakeTx>, i: nat)
    requires i < |txs|
  {
    && txs[i].account in l.accounts
    && MayStake(balance(txs[i].account), StakesAfter(l, txs[..i], txs[i].account), minimum, txs[i])
  }

  ghost predicate StakesFit(l: Ledger, balance: Hash -> int, minimum: uint64, txs: seq<StakeTx>) {
    forall i :: 0 <= i < |txs| ==> StakeFits(l, balance, minimum, txs, i)
  }

  ghost predicate StakesAs(l: Ledger, m: Ledger, txs: seq<StakeTx>) {
    && m.rootKeys == l.rootKeys && m.accounts.Keys == l.accounts.Keys
    && forall a :: a in l.accounts ==> m.accounts[a] == l.accounts[a].(isStaking := StakesAfter(l, txs, a))
  }

  // The stake stage completes exactly when every transaction finds its account, the other flag, and a balance that
  // covers it; then each account stakes as its last transaction says and nothing else changed.
  lemma {:induction false} StakesAcceptedIff(l: Ledger, balance: Hash -> int, minimum: uint64, txs: seq<StakeTx>)
    requires forall a :: a in l.accounts ==> balance(a) == l.accounts[a].balance
    ensures StakeStateChange(l, minimum, txs, false).Done? <==> StakesFit(l, balance, minimum, txs)
    ensures StakesFit(l, balance, minimum, txs) ==> StakesAs(l, StakeStateChange(l, minimum, txs, false).ledger, txs)
  {
    hide Wrap64;
    if txs != [] {
      var n := |txs| - 1;
      var rest, tx := txs[..n], txs[n];
      StakesAcceptedIff(l, balance, minimum, rest);
      StakesSnoc(l, balance, minimum, txs);
      if StakesFit(l, balance, minimum, rest) {
        StakeAcceptedIff(StakeStateChange(l, minimum, rest, false).ledger, minimum, tx, false);
      }
    }
  }

  lemma {:induction false} StakesSnoc(l: Ledger, balance: Hash -> int, minimum: uint64, txs: seq<StakeTx>)
    requires txs != []
    ensures StakesFit(l, balance, minimum, txs) <==>
      StakesFit(l, balance, minimum, txs[..|txs| - 1]) && StakeFits(l, balance, minimum, txs, |txs| - 1)
  {
    hide StakesAfter, MayStake;
    var rest := txs[..|txs| - 1];
    forall i | 0 <= i < |rest|
      ensures StakeFits(l, balance, minimum, rest, i) == StakeFits(l, balance, minimum, txs, i)
    {
      assert rest[..i] == txs[..i] && rest[i] == txs[i];
    }
  }

  // -------------------- fees --------------------

  // Fee i of the slice, for a miner that holds `base` before the collection: a minted fee must not lift the miner over
  // the ceiling, and a charged one only needs its payer.
  ghost predicate FeeFits(l: Ledger, base: int, miner: Hash, fees: seq<Fee>, i: nat)
    requires i < |fees|
  {
    match fees[i]
    case Minted(f) => Wrap64(base + Net(FeeMoves(miner, fees[..i]), miner) + f) <= MAX_MONEY
    case Charged(payer, _) => payer in l.accounts
  }

  ghost predicate FeesFit(l: Ledger, base: int, miner: Hash, fees: seq<Fee>) {
    forall i :: 0 <= i < |fees| ==> FeeFits(l, base, miner, fees, i)
  }

  lemma {:induction false} FeesSnoc(l: Ledger, base: int, miner: Hash, fees: seq<Fee>)
    requires fees != []
    ensures FeesFit(l, base, miner, fees) <==>
      FeesFit(l, base, miner, fees[..|fees| - 1]) && FeeFits(l, base, miner, fees, |fees| - 1)
  {
    hide FeeMoves, Net, Wrap64;
    var rest := fees[..|fees| - 1];
    forall i | 0 <= i < |rest| ensures FeeFits(l, base, miner, rest, i) == FeeFits(l, base, miner, fees, i) {
      assert rest[..i] == fees[..i] && rest[i] == fees[i];
    }
  }

  // The fee stage completes exactly when every fee fits; a refused collection leaves the ledger as it found it.
  lemma {:induction false} FeesAcceptedIff(l: Ledger, base: int, miner: Hash, fees: seq<Fee>)
    requires miner in l.accounts ==> Wrap64(base) == l.accounts[miner].balance
    ensures CollectTxFees(l, miner, fees).Done? <==> miner in l.accounts && FeesFit(l, base, miner, fees)
    ensures CollectTxFees(l, miner, fees).Done? || CollectTxFees(l, miner, fees) == Failed(l)
  {
    hide Wrap64, Net, FeeMoves, Moved, FeeFits;
    if miner in l.accounts {
      FeesEffect(l, miner, fees);
      if fees != [] {
        var rest := fees[..|fees| - 1];
        FeesAcceptedIff(l, base, miner, rest);
        FeesSnoc(l, base, miner, fees);
        if CollectFees(l, miner, rest).Done? {
          FeesEffect(l, miner, rest);
          FeeAccepted(l, CollectFees(l, miner, rest).ledger, base, miner, fees);
        }
      }
    }
  }

  lemma {:induction false} FeeAccepted(l: Ledger, m: Ledger, base: int, miner: Hash, fees: seq<Fee>)
    requires fees != [] && miner in l.accounts && Wrap64(base) == l.accounts[miner].balance
    requires Moved(l, m, FeeMoves(miner, fees[..|fees| - 1]), [])
    ensures FeeRefused(m, miner, fees[|fees| - 1]) <==> !FeeFits(l, base, miner, fees, |fees| - 1)
  {
    hide Wrap64, Net, FeeMoves;
    var n := |fees| - 1;
    var net := Net(FeeMoves(miner, fees[..n]), miner);
    Wrap64Absorbs(base, net);
    if fees[n].Minted? {
      Wrap64Absorbs(base + net, fees[n].fee);
    }
  }

  // -------------------- rewards --------------------

  // A reward fits under the ceiling, or the sum leaves the word: then it wraps to a small number and passes.
  ghost predicate RewardFits(balance: int, reward: uint64) { Wrap64(balance + reward) <= MAX_MONEY }

  lemma RewardFitsExactly(balance: nat, reward: uint64)
    requires balance <= MAX_MONEY
    ensures RewardFits(balance, reward) <==> balance + reward <= MAX_MONEY || balance + reward >= TWO_64
  {
  }

  lemma RewardAcceptedIff(l: Ledger, reward: uint64, miner: Hash, initialSetup: bool)
    ensures miner !in l.accounts ==>
      CollectBlockReward(l, reward, miner, initialSetup) == if initialSetup then Failed(l) else Crashed
    ensures miner in l.accounts ==>
      var acc := l.accounts[miner];
      if initialSetup || RewardFits(acc.balance, reward)
      then CollectBlockReward(l, reward, miner, initialSetup)
        == Done(l.(accounts := l.accounts[miner := acc.(balance := Wrap64(acc.balance + reward))]))
      else CollectBlockReward(l, reward, miner, initialSetup) == Failed(l)
  {
  }

  // Without a proof nothing happens. With one the beneficiary must be there, the slashed account too, and the reward
  // must fit; nothing asks whether the slashed account holds the minimum it loses.
  lemma SlashAcceptedIff(l: Ledger, reward: uint64, minimum: uint64, b: Block)
    ensures !b.CarriesSlashingProof() ==> CollectSlashReward(l, reward, minimum, b) == Done(l)
    ensures b.CarriesSlashingProof() ==>
      && (CollectSlashReward(l, reward, minimum, b).Crashed? <==> b.beneficiary !in l.accounts)
      && (CollectSlashReward(l, reward, minimum, b).Done? <==>
          && b.beneficiary in l.accounts && b.slashedAddress in l.accounts
          && RewardFits(l.accounts[b.beneficiary].balance, reward))
      && (CollectSlashReward(l, reward, minimum, b).Failed? ==> CollectSlashReward(l, reward, minimum, b).ledger == l)
  {
  }

  // Fees and rewards, for a miner that holds `base` before them.
  ghost predicate FeesAndRewardsFit(l: Ledger, base: int, p: Parameters, data: BlockData) {
    && data.block.beneficiary in l.accounts
    && FeesFit(l, base, data.block.beneficiary, AllFees(data))
    && RewardsFit(l, base + Net(FeeMoves(data.block.beneficiary, AllFees(data)), data.block.beneficiary), p, data)
  }

  ghost predicate RewardsFit(l: Ledger, balance: int, p: Parameters, data: BlockData) {
    && RewardFits(balance, p.blockReward)
    && (data.block.CarriesSlashingProof() ==>
        data.block.slashedAddress in l.accounts && RewardFits(balance + p.blockReward, p.slashReward))
  }

  // -------------------- the whole block --------------------

  // The conditions of all later stages on the ledger after the account transactions. Balances there are that ledger's
  // with the moves of the stages before added to them.
  ghost predicate BlockFits(l: Ledger, p: Parameters, data: BlockData) {
    var funds, miner := data.fundsTxs + data.aggFunds, data.block.beneficiary;
    var moves := FundsMoves(l.rootKeys, funds);
    && FundsFit(l, funds)
    && StakesFit(l, (a: Hash) => if a in l.accounts then Balance(l, moves, a) else 0, p.stakingMinimum, data.stakeTxs)
    && miner in l.accounts && FeesAndRewardsFit(l, Balance(l, moves, miner), p, data)
  }

  // The state change of a block completes exactly when its account transactions fit and every later stage fits on the
  // ledger with the new accounts.
  lemma BlockAcceptedIff(l: Ledger, closed: set<Hash>, p: Parameters, data: BlockData)
    requires Solvent(l) && BlockFresh(closed, data, false) && SumsFit(data.fundsTxs + data.aggFunds)
    ensures ValidateState(l, closed, p, data, false).Done? <==>
      AccsFit(l, data.accTxs) && exists m :: AccsAdded(l, data.accTxs, m) && BlockFits(m, p, data)
  {
    hide Solvent, BlockFresh, SumsFit, AccsFit, AccsAdded, BlockFits, AccStateChange, FundsAndLater;
    AccsAcceptedIff(l, data.accTxs);
    if AccsFit(l, data.accTxs) {
      var m := AccStateChange(l, data.accTxs).ledger;
      AccsAddedSolvent(l, data.accTxs, m);
      LaterAcceptedIff(m, closed, p, data);
      forall n | AccsAdded(l, data.accTxs, n) ensures n == m {
        AccsAddedOnce(l, data.accTxs, m, n);
      }
    }
  }

  lemma {:induction false} AccsAddedSolvent(l: Ledger, txs: seq<AccTx>, m: Ledger)
    requires Solvent(l) && AccsAdded(l, txs, m)
    ensures Solvent(m)
  {
  }

  lemma {:induction false} AccsAddedOnce(l: Ledger, txs: seq<AccTx>, m: Ledger, n: Ledger)
    requires AccsAdded(l, txs, m) && AccsAdded(l, txs, n)
    ensures m == n
  {
    forall a | a in m.accounts ensures m.accounts[a] == n.accounts[a] {
      if a !in l.accounts {
        assert a in Created(txs);
      }
    }
    assert m.accounts == n.accounts;
  }

  lemma {:induction false} FundsConcat(l: Ledger, closed: set<Hash>, txs: seq<FundsTx>, more: seq<FundsTx>,
                                       initialSetup: bool)
    ensures FundsStateChange(l, closed, txs + more, initialSetup) ==
      match FundsStateChange(l, closed, txs, initialSetup)
      case Done(m) => FundsStateChange(m, closed, more, initialSetup)
      case other => other
  {
    hide FundsStep;
    if more == [] {
      assert txs + more == txs;
    } else {
      var n := |more| - 1;
      FundsConcat(l, closed, txs, more[..n], initialSetup);
      assert (txs + more)[..|txs + more| - 1] == txs + more[..n] && (txs + more)[|txs + more| - 1] == more[n];
    }
  }

  lemma {:induction false} StakesSame(l: Ledger, m: Ledger, balance: Hash -> int, minimum: uint64, txs: seq<StakeTx>)
    requires SameStaking(l, m)
    ensures StakesFit(l, balance, minimum, txs) == StakesFit(m, balance, minimum, txs)
  {
    hide MayStake, StakesAfter;
    forall i | 0 <= i < |txs|
      ensures StakeFits(l, balance, minimum, txs, i) == StakeFits(m, balance, minimum, txs, i)
    {
      if txs[i].account in l.accounts {
        StakesAfterSame(l, m, txs[..i], txs[i].account);
      }
    }
  }

  lemma {:induction false} StakesAfterSame(l: Ledger, m: Ledger, txs: seq<StakeTx>, a: Hash)
    requires SameStaking(l, m) && a in l.accounts
    ensures StakesAfter(l, txs, a) == StakesAfter(m, txs, a)
  {
    if txs != [] {
      StakesAfterSame(l, m, txs[..|txs| - 1], a);
    }
  }

  lemma {:induction false} FeesSame(l: Ledger, m: Ledger, base: int, miner: Hash, fees: seq<Fee>)
    requires l.accounts.Keys == m.accounts.Keys
    ensures FeesFit(l, base, miner, fees) == FeesFit(m, base, miner, fees)
  {
    hide Wrap64, Net, FeeMoves;
    forall i | 0 <= i < |fees| ensures FeeFits(l, base, miner, fees, i) == FeeFits(m, base, miner, fees, i) {
    }
  }

  lemma RewardSame(balance: uint64, base: int, reward: uint64)
    requires balance == Wrap64(base)
    ensures RewardFits(balance, reward) == RewardFits(base, reward)
    ensures Wrap64(balance + reward) == Wrap64(base + reward)
  {
    Wrap64Absorbs(base, reward);
  }

  lemma RewardsAcceptedIff(l: Ledger, balance: int, p: Parameters, data: BlockData)
    requires data.block.beneficiary in l.accounts && l.accounts[data.block.beneficiary].balance == Wrap64(balance)
    ensures RewardAndLater(l, p, data, false).Done? <==> RewardsFit(l, balance, p, data)
  {
    hide RewardFits, ValidateStateRollback, UndoReward, UndoFees, Wrap64;
    var miner := data.block.beneficiary;
    RewardAcceptedIff(l, p.blockReward, miner, false);
    RewardSame(l.accounts[miner].balance, balance, p.blockReward);
    if RewardFits(balance, p.blockReward) {
      var m := l.Credit(miner, p.blockReward);
      SlashAcceptedIff(m, p.slashReward, p.stakingMinimum, data.block);
      RewardSame(m.accounts[miner].balance, balance + p.blockReward, p.slashReward);
    }
  }

  lemma FeesAndLaterIff(l: Ledger, base: int, p: Parameters, data: BlockData)
    requires data.block.beneficiary in l.accounts ==>
      Wrap64(base) == l.accounts[data.block.beneficiary].balance
    ensures FeesAndLater(l, p, data, false).Done? <==> FeesAndRewardsFit(l, base, p, data)
  {
    hide Wrap64, Net, FeeMoves, FeesFit, AllFees, CollectFees, RewardFits, RewardAndLater, UndoStake, RewardsFit;
    var miner, fees := data.block.beneficiary, AllFees(data);
    FeesAcceptedIff(l, base, miner, fees);
    if miner in l.accounts && FeesFit(l, base, miner, fees) {
      var m := CollectTxFees(l, miner, fees).ledger;
      FeesEffect(l, miner, fees);
      Wrap64Absorbs(base, Net(FeeMoves(miner, fees), miner));
      RewardsAcceptedIff(m, base + Net(FeeMoves(miner, fees), miner), p, data);
      RewardsSame(l, m, base + Net(FeeMoves(miner, fees), miner), p, data);
    }
  }

  lemma RewardsSame(l: Ledger, m: Ledger, balance: int, p: Parameters, data: BlockData)
    requires l.accounts.Keys == m.accounts.Keys
    ensures RewardsFit(l, balance, p, data) == RewardsFit(m, balance, p, data)
  {
  }

  lemma StakeAndLaterIff(l: Ledger, m: Ledger, p: Parameters, data: BlockData, moves: seq<Move>, marks: seq<Move>)
    requires HeldExactly(l, m, moves, marks)
    ensures StakeAndLater(m, p, data, false).Done? <==>
      && StakesFit(l, (a: Hash) => if a in l.accounts then Balance(l, moves, a) else 0, p.stakingMinimum, data.stakeTxs)
      && data.block.beneficiary in l.accounts
      && FeesAndRewardsFit(l, Balance(l, moves, data.block.beneficiary), p, data)
  {
    hide Solvent, StakeStateChange, StakesFit, FeesFit, RewardsFit, Net, FeeMoves, AllFees, FeesAndLater, Wrap64,
         Wrap32, UndoFunds, StakesAfter;
    var balance := (a: Hash) => if a in l.accounts then Balance(l, moves, a) else 0;
    var miner := data.block.beneficiary;
    StakesSame(l, m, balance, p.stakingMinimum, data.stakeTxs);
    StakesAcceptedIff(m, balance, p.stakingMinimum, data.stakeTxs);
    if StakesFit(l, balance, p.stakingMinimum, data.stakeTxs) {
      var n := StakeStateChange(m, p.stakingMinimum, data.stakeTxs, false).ledger;
      var base := if miner in l.accounts then Balance(l, moves, miner) else 0;
      if miner in l.accounts {
        WrapSame(n.accounts[miner].balance, 0);
        FeesSame(l, n, base, miner, AllFees(data));
        RewardsSame(l, n, base + Net(FeeMoves(miner, AllFees(data)), miner), p, data);
      }
      FeesAndLaterIff(n, base, p, data);
    }
  }

  lemma LaterAcceptedIff(l: Ledger, closed: set<Hash>, p: Parameters, data: BlockData)
    requires Solvent(l) && BlockFresh(closed, data, false) && SumsFit(data.fundsTxs + data.aggFunds)
    ensures FundsAndLater(l, closed, p, data, false).Done? <==> BlockFits(l, p, data)
  {
    hide Solvent, SumFits, FundsStateChange, StakeStateChange, FundsFit, HeldExactly, FundsMoves, FundsMarks,
         StakesFit, FeesAndRewardsFit, Net, AllFees, FeesAndLater;
    var funds := data.fundsTxs + data.aggFunds;
    FundsConcat(l, closed, data.fundsTxs, data.aggFunds, false);
    assert NoneClosed(closed, funds, false);
    FundsAcceptedIff(l, closed, funds);
    if FundsFit(l, funds) {
      var m := FundsStateChange(l, closed, funds, false).ledger;
      StakeAndLaterIff(l, m, p, data, FundsMoves(l.rootKeys, funds), FundsMarks(funds));
      assert FundsAndLater(l, closed, p, data, false).Done? <==> StakeAndLater(m, p, data, false).Done?;
    }
  }

  // A failure is late exactly when the account transactions fit and every funds transaction, the aggregated ones too,
  // is covered.
  lemma LateExactly(l: Ledger, closed: set<Hash>, data: BlockData)
    requires Solvent(l) && BlockFresh(closed, data, false) && SumsFit(data.fundsTxs + data.aggFunds)
    ensures FailsLate(l, closed, data, false) <==>
      AccsFit(l, data.accTxs) && exists m :: AccsAdded(l, data.accTxs, m) && FundsFit(m, data.fundsTxs + data.aggFunds)
  {
    hide Solvent, SumsFit, AccsFit, AccsAdded, FundsFit, AccStateChange, FundsStateChange, HeldExactly;
    AccsAcceptedIff(l, data.accTxs);
    if AccsFit(l, data.accTxs) {
      var m := AccStateChange(l, data.accTxs).ledger;
      AccsAddedSolvent(l, data.accTxs, m);
      FundsConcat(m, closed, data.fundsTxs, data.aggFunds, false);
      assert NoneClosed(closed, data.fundsTxs + data.aggFunds, false);
      FundsAcceptedIff(m, closed, data.fundsTxs + data.aggFunds);
      forall n | AccsAdded(l, data.accTxs, n) ensures n == m {
        AccsAddedOnce(l, data.accTxs, m, n);
      }
    }
  }
}
