/** Which blocks roll back, read off the block and the state it is applied to: the guards of the branches of the state
    change whose rollback is not their inverse, and reorganisations without such blocks. */
module RollbackConditions {
  import opened Words
  import opened Options
  import opened Protocol
  import opened Transactions
  import opened ClosedAggregations
  import opened AggregatedRollback
  import opened Ledger
  import opened Validation
  import opened AccountStage
  import opened BlockEffects
  import opened BlockInverse
  import opened UndoEffects
  import opened SystemParameters
  import opened Chain
  import opened Effects
  import opened Producer
  import opened Node
  import opened Runs
  import opened Reorganisation

  // -------------------- the configuration stage --------------------

  // The staking minimum is set above the balance.
  predicate RaisedAbove(txs: seq<ConfigTx>, balance: uint64) {
    exists tx <- txs :: Raises(tx, balance)
  }

  predicate Raises(tx: ConfigTx, balance: uint64) { tx.id == 6 && WithinBounds(6, tx.payload) && balance < tx.payload }

  // The interval in force after the slice.
  function LastInterval(interval: uint64, txs: seq<ConfigTx>): uint64 {
    if txs == [] then interval
    else
      var tx := txs[|txs| - 1];
      if tx.id == 2 && WithinBounds(2, tx.payload) then tx.payload else LastInterval(interval, txs[..|txs| - 1])
  }

  lemma {:induction false} ConfiguredStaking(p: Parameters, l: Ledger, txs: seq<ConfigTx>, a: Hash)
    requires a in l.accounts
    ensures var m := CheckAndChangeParameters(p, l, txs).ledger;
      && a in m.accounts && m.accounts[a].balance == l.accounts[a].balance
      && (m.accounts[a].isStaking <==> l.accounts[a].isStaking && !RaisedAbove(txs, l.accounts[a].balance))
  {
    if txs != [] {
      var rest, tx := txs[..|txs| - 1], txs[|txs| - 1];
      ConfiguredStaking(p, l, rest, a);
      RaisedSnoc(rest, tx, l.accounts[a].balance);
      assert txs == rest + [tx];
    }
  }

  lemma RaisedSnoc(rest: seq<ConfigTx>, tx: ConfigTx, balance: uint64)
    ensures RaisedAbove(rest + [tx], balance) <==> RaisedAbove(rest, balance) || Raises(tx, balance)
  {
    var txs := rest + [tx];
    assert tx in txs && forall t <- rest :: t in txs;
  }

  lemma {:induction false} ConfiguredInterval(p: Parameters, l: Ledger, txs: seq<ConfigTx>)
    ensures var r := CheckAndChangeParameters(p, l, txs);
      r.parameters.diffInterval == LastInterval(p.diffInterval, txs) && (!r.change ==> r.parameters == p)
  {
    if txs != [] {
      ConfiguredInterval(p, l, txs[..|txs| - 1]);
    }
  }

  // The statistics of a block roll back exactly if it leaves the interval open, or ends it under the interval it found;
  // without a change of the interval they always do.
  lemma BlockStatisticsRollBack(c: Core, data: BlockData, difficulty: Difficulty)
    requires c.Valid() && ApplyBlock(c, data, difficulty).CoreDone?
    ensures var found, left := Active(c.params).diffInterval,
      LastInterval(Active(c.params).diffInterval, data.configTxs);
      var back := CollectStatisticsRollback(ApplyBlock(c, data, difficulty).core.stats, Active(c.params));
      && (back == StatsDone(c.stats) <==> c.stats.localBlockCount + 1 < left || c.stats.localBlockCount + 1 == found)
      && (left == found ==> back == StatsDone(c.stats))
  {
    hide ValidateState, CollectStatistics, CollectStatisticsRollback, CheckAndChangeParameters, CloseBlock,
         LastInterval,
         Flips;
    var p := Active(c.params);
    var validated := ValidateState(c.ledger, c.closedTxs.Keys, p, data, false).ledger;
    var after := Active(ConfigStateChange(c.params, validated, data.configTxs, data.block.hash).0);
    ConfiguredInterval(p, validated, data.configTxs);
    ConfigOnlyUnstakes(p, validated, data.configTxs);
    StatisticsRollBack(c.stats, p, after, data.block.timestamp, difficulty);
  }

  // -------------------- the exact condition --------------------

  // What concerns accounts, parameters and statistics. `validated` is the ledger after validateState, before the
  // configuration stage.
  ghost predicate LedgerGuards(c: Core, validated: Ledger, data: BlockData) {
    var interval := LastInterval(Active(c.params).diffInterval, data.configTxs);
    && (forall tx <- data.accTxs :: tx.header == 0 || tx.header == 1)
    && (data.block.CarriesSlashingProof() && data.block.slashedAddress in c.ledger.accounts ==>
        c.ledger.accounts[data.block.slashedAddress].isStaking != Flips(data.stakeTxs, data.block.slashedAddress))
    && (forall a :: a in c.ledger.accounts && a in validated.accounts && validated.accounts[a].isStaking ==>
        !RaisedAbove(data.configTxs, validated.accounts[a].balance))
    && (c.stats.localBlockCount + 1 < interval || c.stats.localBlockCount + 1 == Active(c.params).diffInterval)
  }

  // And what concerns aggregations.
  ghost predicate Guards(c: Core, validated: Ledger, data: BlockData) {
    && LedgerGuards(c, validated, data) && StoreRollsBack(c.closedTxs, data) && ListedOnce(data)
    && FeesCancel(c.ledger.accounts.Keys, data)
  }

  // A block whose lists are as the network and the pool give them: a hash names one transaction, and a sender whose
  // transaction is listed twice was there before the block.
  ghost predicate Orderly(c: Core, data: BlockData) {
    && OneContent(data) && |Members(data.aggTxs)| < TWO_32
    && forall tx <- data.fundsTxs :: tx.hash in Members(data.aggTxs) ==> tx.from in c.ledger.accounts
  }

  lemma GuardedLedger(c: Core, data: BlockData)
    requires ValidateState(c.ledger, c.closedTxs.Keys, Active(c.params), data, false).Done?
    ensures BlockRollsBack(c, data)
       <==> && LedgerGuards(c, ValidateState(c.ledger, c.closedTxs.Keys, Active(c.params), data, false).ledger, data)
            && StoreRollsBack(c.closedTxs, data) && AggregatesRollBack(c, data)
  {
    hide ValidateState, CheckAndChangeParameters, Flips, RaisedAbove, StoreRollsBack, AggregatesRollBack;
    var p := Active(c.params);
    var validated := ValidateState(c.ledger, c.closedTxs.Keys, p, data, false).ledger;
    ConfiguredInterval(p, validated, data.configTxs);
    forall a | a in validated.accounts
      ensures var m := CheckAndChangeParameters(p, validated, data.configTxs).ledger;
        a in m.accounts
          && (m.accounts[a].isStaking
            <==> validated.accounts[a].isStaking && !RaisedAbove(data.configTxs, validated.accounts[a].balance))
    {
      ConfiguredStaking(p, validated, data.configTxs, a);
    }
    SlashedClause(c.ledger, data);
    HeadersClause(data.accTxs);
  }

  // Transactions listed once are undone once, and their fees given back once.
  lemma ListedOnceAgrees(c: Core, data: BlockData)
    requires FreshBlock(c, data) && AccStateChange(c.ledger, data.accTxs).Done?
    requires StoreRollsBack(c.closedTxs, data) && OneContent(data) && ListedOnce(data)
    ensures AggregatesRollBack(c, data) <==> FeesCancel(c.ledger.accounts.Keys, data)
  {
    hide FreshStore, StoreRollsBack, OneContent, NewOnesApplied, FeesCancel, ListedOnce, BlockGroups, NetsAgree,
         GroupsApplied, GroupsMatch, AccStateChange;
    GroupsMatchExactly(c.closedTxs, data);
    MatchingGroupsAgree(c.ledger.accounts.Keys, AccStateChange(c.ledger, data.accTxs).ledger.rootKeys, Active(c.params),
                        data, BlockGroups(c.closedTxs, data));
  }

  // A block rolls back if and only if its account headers are 0 or 1, the slashed account was staking after the block's
  // stake transactions, no in-bounds staking minimum exceeds the validated balance of an account still staking, the
  // interval it leaves does not end with it unless the one it found does, no aggregation was closed before, its old
  // members were not marked, its new members are funds transactions, none of these is also listed by itself, and fees
  // paid again by old members cancel.
  lemma GuardsAreExact(c: Core, data: BlockData)
    requires FreshBlock(c, data) && Orderly(c, data)
    requires ValidateState(c.ledger, c.closedTxs.Keys, Active(c.params), data, false).Done?
    ensures BlockRollsBack(c, data)
       <==> Guards(c, ValidateState(c.ledger, c.closedTxs.Keys, Active(c.params), data, false).ledger, data)
  {
    hide FreshStore, StoreRollsBack, OneContent, NewOnesApplied, FeesCancel, ListedOnce, BlockGroups, NetsAgree,
         AccStateChange, LedgerGuards, BlockRollsBack, Members, FundsAndLater;
    GuardedLedger(c, data);
    if StoreRollsBack(c.closedTxs, data) {
      if ListedOnce(data) {
        ListedOnceAgrees(c, data);
      } else {
        MissedDisagrees(c.closedTxs, c.ledger.accounts.Keys, AccStateChange(c.ledger, data.accTxs).ledger.rootKeys,
                        Active(c.params), data);
      }
    }
  }

  lemma HeadersClause(txs: seq<AccTx>)
    ensures HeadersRollBack(txs) <==> forall tx <- txs :: tx.header == 0 || tx.header == 1
  {
    forall tx | tx in txs && HeadersRollBack(txs) ensures tx.header == 0 || tx.header == 1 {
      var i :| 0 <= i < |txs| && txs[i] == tx;
    }
  }

  lemma SlashedClause(l: Ledger, data: BlockData)
    ensures (forall a :: a in l.accounts && IsSlashed(data.block, a) ==>
      l.accounts[a].isStaking != Flips(data.stakeTxs, a))
       <==> (data.block.CarriesSlashingProof() && data.block.slashedAddress in l.accounts ==>
             l.accounts[data.block.slashedAddress].isStaking != Flips(data.stakeTxs, data.block.slashedAddress))
  {
    hide Flips;
    assert data.block.CarriesSlashingProof() ==> IsSlashed(data.block, data.block.slashedAddress);
  }

  // -------------------- blocks that roll back --------------------

  // Account headers 0 or 1, a slashed account that is staking, no in-bounds change of the interval or the staking
  // minimum, and aggregations of new funds transactions that are not listed by themselves and pay once. Read off the
  // block and the state it finds.
  ghost predicate Plain(c: Core, data: BlockData) {
    && (forall tx <- data.accTxs :: tx.header == 0 || tx.header == 1)
    && (data.block.CarriesSlashingProof() && data.block.slashedAddress in c.ledger.accounts ==>
        c.ledger.accounts[data.block.slashedAddress].isStaking != Flips(data.stakeTxs, data.block.slashedAddress))
    && (forall tx <- data.configTxs :: tx.id == 2 || tx.id == 6 ==> !WithinBounds(tx.id, tx.payload))
    && PlainAggregations(c.closedTxs, data) && FeesCancel(c.ledger.accounts.Keys, data)
  }

  ghost predicate PlainAggregations(m: TxStore, data: BlockData) {
    && (forall agg <- data.aggTxs :: agg.hash !in m)
    && (forall k <- Members(data.aggTxs) :: k !in m && k in data.members && data.members[k].FundsT?)
    && ListedOnce(data) && OneContent(data)
  }

  lemma PlainBlocksRollBack(c: Core, data: BlockData)
    requires c.Valid() && FreshBlock(c, data) && Plain(c, data)
    ensures BlockRollsBack(c, data)
  {
    hide ValidateState, BlockRollsBack, Flips, FreshStore, ListedOnce, OneContent, FeesCancel, Members,
         AggregatesRollBack;
    SameInterval(Active(c.params).diffInterval, data.configTxs);
    if ValidateState(c.ledger, c.closedTxs.Keys, Active(c.params), data, false).Done? {
      assert StoreRollsBack(c.closedTxs, data);
      AccountsFirst(c, data);
      ListedOnceAgrees(c, data);
      GuardedLedger(c, data);
    } else {
      NothingToRollBack(c, data);
    }
  }

  lemma AccountsFirst(c: Core, data: BlockData)
    requires ValidateState(c.ledger, c.closedTxs.Keys, Active(c.params), data, false).Done?
    ensures AccStateChange(c.ledger, data.accTxs).Done?
  {
    hide AccStateChange, FundsAndLater;
  }

  // New members alone never bring an emptied block back.
  lemma PlainNotReactivated(c: Core, data: BlockData, w: World)
    requires FreshBlock(c, data) && PlainAggregations(c.closedTxs, data)
    requires w.core.closedTxs == CloseBlock(c.closedTxs, data)
    ensures ReactivateAggs(w, data.aggTxs, data.block.hashWithoutTx) == w
  {
    hide FreshStore, OneContent, Members, CloseBlock, Fetched;
    var hash := data.block.hashWithoutTx;
    forall k | k in Members(data.aggTxs) ensures ReactivateFor(w, k, hash) == w {
      MemberFound(c.closedTxs, data, k);
    }
    NothingReactivated(w, data.aggTxs, hash);
  }

  lemma {:induction false} NothingReactivated(w: World, aggs: seq<AggTx>, hash: Hash)
    requires forall k <- Members(aggs) :: ReactivateFor(w, k, hash) == w
    ensures ReactivateAggs(w, aggs, hash) == w
    decreases aggs
  {
    hide ReactivateFor, ReactivateMembers;
    if aggs != [] {
      var n := |aggs| - 1;
      NoMemberReactivated(w, aggs[n].members, hash);
      NothingReactivated(w, aggs[..n], hash);
    }
  }

  lemma {:induction false} NoMemberReactivated(w: World, hs: seq<Hash>, hash: Hash)
    requires forall k <- hs :: ReactivateFor(w, k, hash) == w
    ensures ReactivateMembers(w, hs, hash) == w
  {
    hide ReactivateFor;
    if hs != [] {
      NoMemberReactivated(w, hs[..|hs| - 1], hash);
    }
  }

  lemma NothingToRollBack(c: Core, data: BlockData)
    requires !ValidateState(c.ledger, c.closedTxs.Keys, Active(c.params), data, false).Done?
    ensures BlockRollsBack(c, data)
  {
    hide ValidateState;
  }

  lemma {:induction false} SameInterval(interval: uint64, txs: seq<ConfigTx>)
    requires forall tx <- txs :: tx.id == 2 ==> !WithinBounds(tx.id, tx.payload)
    ensures LastInterval(interval, txs) == interval
  {
    if txs != [] {
      SameInterval(interval, txs[..|txs| - 1]);
    }
  }

  // -------------------- fees of aggregated transactions --------------------

  // A closed member that is open as well pays its fee again.
  predicate PaysAgain(w: World, h: Hash) { h in w.core.closedTxs && h in w.openTxs && w.openTxs[h].FundsT? }

  ghost function PaidAgain(w: World, hs: seq<Hash>): seq<FundsTx> {
    if hs == [] then []
    else
      var h, rest := hs[|hs| - 1], PaidAgain(w, hs[..|hs| - 1]);
      if PaysAgain(w, h) then rest + [w.openTxs[h].funds] else rest
  }

  // The fees collected for a fetched block are those of the new members and those paid again.
  lemma FetchedFees(w: World, b: Block, env: Env)
    requires WellKeyed(w.openTxs) && WellKeyed(w.core.closedTxs) && FetchTransactions(w, b, env).DataFound?
    ensures var data := FetchTransactions(w, b, env).data;
      multiset(Bares(data.aggFees))
        == multiset(Bares(data.aggFunds)) + multiset(Bares(PaidAgain(w, Members(data.aggTxs))))
  {
    hide FetchTxs, FetchAggData, Members, NewFunds, PayingFunds, SortedByTxCount, Bares, PaidAgain;
    FetchedAggs(w, b.aggTxData, env);
    TakenFromOpen(w, b.aggTxData, env);
    var data := FetchTransactions(w, b, env).data;
    var hs := Members(data.aggTxs);
    BaresPermutation(data.aggFunds, NewFunds(data.members, hs));
    PayingAgainstNew(w, data.members, hs);
  }

  // They are those of the new members alone exactly when no member is closed and still open.
  lemma FetchedFeesMatch(w: World, b: Block, env: Env)
    requires WellKeyed(w.openTxs) && WellKeyed(w.core.closedTxs) && FetchTransactions(w, b, env).DataFound?
    ensures var data := FetchTransactions(w, b, env).data;
      FeesMatch(data) <==> forall h <- Members(data.aggTxs) :: !PaysAgain(w, h)
  {
    hide FetchTransactions, Members, PaidAgain, PaysAgain;
    var data := FetchTransactions(w, b, env).data;
    var again := PaidAgain(w, Members(data.aggTxs));
    FetchedFees(w, b, env);
    PaidAgainBy(w, Members(data.aggTxs));
    assert |multiset(Bares(data.aggFees))| == |multiset(Bares(data.aggFunds))| + |multiset(Bares(again))|;
  }

  lemma {:induction false} PaidAgainBy(w: World, hs: seq<Hash>)
    ensures PaidAgain(w, hs) == [] <==> forall h <- hs :: !PaysAgain(w, h)
  {
    hide PaysAgain;
    if hs != [] {
      PaidAgainBy(w, hs[..|hs| - 1]);
      assert hs == hs[..|hs| - 1] + [hs[|hs| - 1]];
    }
  }

  // What the block collects and its rollback does not give back is what was paid again: the fees cancel exactly when
  // these do, modulo 2^64, on every account there was before.
  lemma FetchedFeesCancel(w: World, b: Block, env: Env, accounts: set<Hash>)
    requires WellKeyed(w.openTxs) && WellKeyed(w.core.closedTxs) && FetchTransactions(w, b, env).DataFound?
    ensures var data := FetchTransactions(w, b, env).data;
      FeesCancel(accounts, data) <==> forall a <- accounts ::
        Wrap64(Net(FeeMoves(b.beneficiary, FundsFees(PaidAgain(w, Members(data.aggTxs)))), a)) == 0
  {
    hide FetchTransactions, Members, PaidAgain, Net, FeeMoves, FundsFees, Bares;
    var data := FetchTransactions(w, b, env).data;
    var again, miner := PaidAgain(w, Members(data.aggTxs)), b.beneficiary;
    FetchedFees(w, b, env);
    FetchedBlock(w, b, env);
    BaresConcat(data.aggFunds, again);
    forall a | a in accounts
      ensures Net(FeeMoves(miner, FundsFees(data.aggFees)), a) - Net(FeeMoves(miner, FundsFees(data.aggFunds)), a)
        == Net(FeeMoves(miner, FundsFees(again)), a)
    {
      FundsNetSame({}, miner, data.aggFees, data.aggFunds + again, a);
      FundsFeesConcat(data.aggFunds, again);
      FeeNetConcat(miner, FundsFees(data.aggFunds), FundsFees(again), a);
    }
  }

  lemma FetchedBlock(w: World, b: Block, env: Env)
    requires FetchTransactions(w, b, env).DataFound?
    ensures FetchTransactions(w, b, env).data.block == b
  {
    hide FetchTxs, FetchAggData, SortedByTxCount, PayingFunds;
  }

  lemma BaresConcat(xs: seq<FundsTx>, ys: seq<FundsTx>)
    ensures multiset(Bares(xs + ys)) == multiset(Bares(xs)) + multiset(Bares(ys))
  {
    assert Bares(xs + ys) == Bares(xs) + Bares(ys);
  }

  lemma FundsFeesConcat(xs: seq<FundsTx>, ys: seq<FundsTx>)
    ensures FundsFees(xs + ys) == FundsFees(xs) + FundsFees(ys)
  {
  }

  // Fees that add up to less than 2^64, of payers who were there before, cancel only if each is nothing or the miner's
  // own.
  lemma CancelIffFree(accounts: set<Hash>, miner: Hash, txs: seq<FundsTx>)
    requires FeeSum(txs) < TWO_64 && forall tx <- txs :: tx.from in accounts
    ensures (forall a <- accounts :: Wrap64(Net(FeeMoves(miner, FundsFees(txs)), a)) == 0)
       <==> forall tx <- txs :: tx.fee == 0 || tx.from == miner
  {
    hide Net, FeeMoves, FundsFees, FeeSum, Owed, Wrap64;
    forall a | a in accounts
      ensures a != miner ==> (Wrap64(Net(FeeMoves(miner, FundsFees(txs)), a)) == 0 <==> Owed(txs, a) == 0)
      ensures a == miner ==> (Wrap64(Net(FeeMoves(miner, FundsFees(txs)), a)) == 0 <==> FeeSum(txs) == Owed(txs, a))
    {
      FeesMovePending(miner, txs, a);
      OwedWithin(txs, a);
      SmallWrap(Owed(txs, a));
      SmallWrap(FeeSum(txs) - Owed(txs, a));
    }
    forall a ensures Owed(txs, a) == 0 <==> forall tx <- txs :: tx.from == a ==> tx.fee == 0 {
      OwedNothing(txs, a);
    }
    OwedAll(txs, miner);
  }

  lemma SmallWrap(x: int)
    requires 0 <= x < TWO_64
    ensures (Wrap64(x) == 0 <==> x == 0) && (Wrap64(0 - x) == 0 <==> x == 0)
  {
  }

  lemma OwedWithin(txs: seq<FundsTx>, a: Hash)
    ensures 0 <= Owed(txs, a) <= FeeSum(txs)
  {
    OwedPrefix(txs, 0, a);
    assert txs[..0] == [] && Pending([]) == [];
  }

  lemma {:induction false} OwedNothing(txs: seq<FundsTx>, a: Hash)
    ensures Owed(txs, a) == 0 <==> forall tx <- txs :: tx.from == a ==> tx.fee == 0
  {
    hide Owed;
    if txs == [] {
      OwedWithin(txs, a);
    } else {
      var rest, tx := txs[..|txs| - 1], txs[|txs| - 1];
      assert txs == rest + [tx];
      OwedNothing(rest, a);
      OwedSnoc(rest, tx, a);
      OwedWithin(rest, a);
    }
  }

  lemma {:induction false} OwedAll(txs: seq<FundsTx>, a: Hash)
    ensures Owed(txs, a) == FeeSum(txs) <==> forall tx <- txs :: tx.from == a || tx.fee == 0
  {
    hide Owed;
    if txs == [] {
      OwedWithin(txs, a);
    } else {
      var rest, tx := txs[..|txs| - 1], txs[|txs| - 1];
      assert txs == rest + [tx];
      OwedAll(rest, a);
      OwedSnoc(rest, tx, a);
      OwedWithin(rest, a);
    }
  }

  // An open member was taken as it is.
  ghost predicate FromOpen(w: World, members: TxStore) {
    forall h :: h in members ==> h !in w.core.closedTxs && (h in w.openTxs ==> members[h] == w.openTxs[h])
  }

  lemma {:induction false} MembersFromOpen(w: World, hs: seq<Hash>, members: TxStore, env: Env)
    requires FromOpen(w, members) && FetchMembers(w, hs, members, env).AggsFound?
    ensures FromOpen(w, FetchMembers(w, hs, members, env).members)
  {
    if hs != [] {
      MembersFromOpen(w, hs[..|hs| - 1], members, env);
    }
  }

  lemma {:induction false} TakenFromOpen(w: World, hs: seq<Hash>, env: Env)
    requires FetchAggData(w, hs, env).AggsFound?
    ensures FromOpen(w, FetchAggData(w, hs, env).members)
  {
    hide FetchMembers, FetchAgg;
    if hs != [] {
      var n := |hs| - 1;
      TakenFromOpen(w, hs[..n], env);
      var before := FetchAggData(w, hs[..n], env);
      MembersFromOpen(w, FetchAgg(w, hs[n], env).txs[0].agg.members, before.members, env);
    }
  }

  lemma {:induction false} PayingAgainstNew(w: World, members: TxStore, hs: seq<Hash>)
    requires FromOpen(w, members) && forall h <- hs :: h in members <==> h !in w.core.closedTxs
    ensures multiset(Bares(PayingFunds(w.openTxs, members, hs)))
      == multiset(Bares(NewFunds(members, hs))) + multiset(Bares(PaidAgain(w, hs)))
  {
    hide PayingFunds, NewFunds, PaidAgain, Bares;
    if hs == [] {
      NobodyPays(w, members);
    } else {
      var n := |hs| - 1;
      assert hs == hs[..n] + [hs[n]];
      PayingAgainstNew(w, members, hs[..n]);
      PayingSnoc(w, members, hs[..n], hs[n]);
    }
  }

  lemma NobodyPays(w: World, members: TxStore)
    ensures PayingFunds(w.openTxs, members, []) == NewFunds(members, []) == PaidAgain(w, []) == []
    ensures Bares([]) == []
  {
  }

  // One more member: new, paying again, or neither.
  lemma PayingSnoc(w: World, members: TxStore, hs: seq<Hash>, h: Hash)
    requires FromOpen(w, members) && (h in members <==> h !in w.core.closedTxs)
    ensures var paying, added, again := PayingFunds(w.openTxs, members, hs), NewFunds(members, hs), PaidAgain(w, hs);
      var paying', added', again' :=
        PayingFunds(w.openTxs, members, hs + [h]), NewFunds(members, hs + [h]), PaidAgain(w, hs + [h]);
      || (paying' == paying && added' == added && again' == again)
      || exists tx: FundsTx :: Bares(paying') == Bares(paying) + [Bare(tx)]
           && ((Bares(added') == Bares(added) + [Bare(tx)] && again' == again)
               || (added' == added && Bares(again') == Bares(again) + [Bare(tx)]))
  {
    assert (hs + [h])[..|hs|] == hs;
    if PaysAgain(w, h) {
      BaresAppend(PayingFunds(w.openTxs, members, hs), w.openTxs[h].funds);
      BaresAppend(PaidAgain(w, hs), w.openTxs[h].funds);
    } else if h in members && members[h].FundsT? {
      BaresAppend(PayingFunds(w.openTxs, members, hs), members[h].funds);
      BaresAppend(NewFunds(members, hs), members[h].funds);
    }
  }

  // -------------------- reorganisations --------------------

  // A reorganisation that rolls back plain, whole blocks is sound when the new blocks are linked and new.
  lemma PlainReorganisationIsSound(g: Genesis, w: World, chain: seq<BlockData>, b: Block, env: Env)
    requires Inv(g, w, chain) && env.bound >= |chain| && GetBlockSequences(w, b, env).Sequences?
    requires var s := GetBlockSequences(w, b, env); var k := |chain| - |s.toRollback|;
      && (forall i :: 0 <= k <= i < |chain| ==> Whole(w, chain[i].block))
      && (forall i :: 0 <= k <= i < |chain| ==> Replay(g, chain[..i]).CoreDone? ==>
        Plain(Replay(g, chain[..i]).core, chain[i]))
      && (0 <= k ==>
        DistinctHashes(Blocks(g, chain[..k]) + s.toValidate) && Linked(Blocks(g, chain[..k]) + s.toValidate))
    ensures Sound(g, w, chain, GetBlockSequences(w, b, env))
  {
    hide Plain, RollsBackAt, GetBlockSequences, DistinctHashes, Linked, Blocks, Follows, Replay;
    var s := GetBlockSequences(w, b, env);
    var k := ForkChoice(g, w, chain, b, env);
    forall i | k <= i < |chain| ensures RollsBackAt(g, chain, i) {
      PrefixValid(g, w, chain, i);
      PlainRollsBackAt(g, chain, i);
    }
  }

  lemma PlainRollsBackAt(g: Genesis, chain: seq<BlockData>, i: nat)
    requires i < |chain| && Replay(g, chain[..i]).CoreDone? && Replay(g, chain[..i]).core.Valid()
    requires FreshBlock(Replay(g, chain[..i]).core, chain[i]) && Plain(Replay(g, chain[..i]).core, chain[i])
    ensures RollsBackAt(g, chain, i)
  {
    hide FreshBlock, BlockRollsBack, ValidateState, Core.Valid;
    PlainBlocksRollBack(Replay(g, chain[..i]).core, chain[i]);
  }

  lemma PrefixValid(g: Genesis, w: World, chain: seq<BlockData>, i: nat)
    requires Inv(g, w, chain) && i <= |chain|
    ensures Replay(g, chain[..i]).CoreDone? && Replay(g, chain[..i]).core.Valid()
    ensures i < |chain| ==> FreshBlock(Replay(g, chain[..i]).core, chain[i])
  {
    hide Replay, GenesisOk, StoresExactly, DistinctHashes, Linked, WellKeyed, Blocks, Core.Valid, FreshBlock;
    ReplayPrefix(g, chain, i);
    ReplayValid(g, chain[..i]);
    if i < |chain| {
      ReplayPrefix(g, chain, i + 1);
      assert chain[..i + 1][..i] == chain[..i];
    }
  }

  // Two blocks replace the tip: `b` arrives, its parent `first` waits in the stash, and the parent of that is the block
  // below the tip, whole, emptied or brought back. The tip is rolled back and both are validated.
  lemma TwoBlocksReplaceTip(g: Genesis, w: World, chain: seq<BlockData>, first: Block, b: Block, env: Env)
    requires Inv(g, w, chain) && chain != [] && env.bound >= |chain|
    requires Whole(w, chain[|chain| - 1].block)
    requires Plain(Replay(g, chain[..|chain| - 1]).core, chain[|chain| - 1])
    requires FindInStash(w.stash, b.prevHash) == Some(first)
    requires DistinctHashes(Blocks(g, chain) + [first, b]) && Linked(Blocks(g, chain[..|chain| - 1]) + [first, b])
    ensures GetBlockSequences(w, b, env) == Sequences([chain[|chain| - 1].block], [first, b], w.stash)
    ensures Sound(g, w, chain, GetBlockSequences(w, b, env))
  {
    hide Plain, GetBlockSequences, Follows, Replay;
    var n := |chain|;
    BranchingOff(g, w, chain, first, b);
    ShortSearch(w, b, first, chain[n - 1].block, StoredCopy(w, Blocks(g, chain)[n - 1]), env);
    PrefixDistinct(g, chain, [first, b]);
    PrefixValid(g, w, chain, n - 1);
    PlainReorganisationIsSound(g, w, chain, b, env);
  }

  lemma BranchingOff(g: Genesis, w: World, chain: seq<BlockData>, first: Block, b: Block)
    requires Inv(g, w, chain) && chain != []
    requires Whole(w, chain[|chain| - 1].block)
    requires DistinctHashes(Blocks(g, chain) + [first, b]) && Linked(Blocks(g, chain[..|chain| - 1]) + [first, b])
    ensures Stored(w, Blocks(g, chain)[|chain| - 1])
    ensures var tip, below := chain[|chain| - 1].block, StoredCopy(w, Blocks(g, chain)[|chain| - 1]);
      && Parent(w, b).None? && Parent(w, first) == Some(below) && Parent(w, tip) == Some(below)
      && w.lastBlock == Some(tip) && !SameBlock(tip, below) && tip.hash in w.closedBlocks
  {
    hide Replays, Replay, GenesisOk, WellKeyed, Stored, StoredCopy, DistinctHashes, StoresExactly, Parent;
    var blocks, n := Blocks(g, chain), |chain|;
    var shorter := Blocks(g, chain[..n - 1]) + [first, b];
    assert shorter[n - 1] == blocks[n - 1] && shorter[n] == first && shorter[n + 1] == b;
    assert blocks[n] == chain[n - 1].block;
    AllStored(w, blocks);
    ParentByName(w, first, blocks[n - 1]);
    ParentByName(w, blocks[n], blocks[n - 1]);
    NewIsNot(w, blocks, first, b);
    CopySeen(w, blocks[n - 1]);
    TipBelow(blocks, n, [first, b]);
  }

  lemma ParentByName(w: World, b: Block, below: Block)
    requires Stored(w, below) && b.prevHash == below.hash && b.prevHashWithoutTx == below.hashWithoutTx
    ensures Parent(w, b) == Some(StoredCopy(w, below))
  {
  }

  lemma CopySeen(w: World, b: Block)
    requires Stored(w, b)
    ensures SeenAs(StoredCopy(w, b), b)
  {
  }

  lemma TipBelow(blocks: seq<Block>, n: nat, more: seq<Block>)
    requires DistinctHashes(blocks + more) && 0 < n < |blocks|
    ensures blocks[n].hash != blocks[n - 1].hash && blocks[n].hashWithoutTx != blocks[n - 1].hashWithoutTx
  {
    assert (blocks + more)[n] == blocks[n] && (blocks + more)[n - 1] == blocks[n - 1];
  }

  // A block whose parent is none of the chain's has no closed parent.
  lemma NewIsNot(w: World, blocks: seq<Block>, first: Block, b: Block)
    requires StoresExactly(w, blocks) && DistinctHashes(blocks + [first, b])
    requires b.prevHash == first.hash && b.prevHashWithoutTx == first.hashWithoutTx
    ensures Parent(w, b).None?
  {
    hide Stored;
    var all, n := blocks + [first, b], |blocks|;
    assert all[n] == first;
    forall i | 0 <= i < n ensures blocks[i].hash != first.hash && blocks[i].hashWithoutTx != first.hashWithoutTx {
      assert all[i] == blocks[i];
    }
  }

  lemma ShortSearch(w: World, b: Block, first: Block, tip: Block, below: Block, env: Env)
    requires Parent(w, b).None? && Parent(w, first) == Some(below) && Parent(w, tip) == Some(below)
    requires w.lastBlock == Some(tip) && !SameBlock(tip, below) && env.bound >= 1
    requires FindInStash(w.stash, b.prevHash) == Some(first)
    ensures GetBlockSequences(w, b, env) == Sequences([tip], [first, b], w.stash)
  {
    hide Parent, FindInStash;
    assert GetNewChain(w, w.stash, first, env, env.bound - 1) == Ancestor(below, [first], w.stash);
    assert GetNewChain(w, w.stash, b, env, env.bound) == Ancestor(below, [first, b], w.stash) by {
      assert [first] + [b] == [first, b];
    }
    assert WalkBack(w, below, below, env.bound - 1) == Reached([]);
    assert WalkBack(w, tip, below, env.bound) == Reached([tip]) by {
      assert [tip] + [] == [tip];
    }
  }

  lemma PrefixDistinct(g: Genesis, chain: seq<BlockData>, more: seq<Block>)
    requires chain != [] && DistinctHashes(Blocks(g, chain) + more)
    ensures DistinctHashes(Blocks(g, chain[..|chain| - 1]) + more)
  {
    var n := |chain|;
    var all, shorter := Blocks(g, chain) + more, Blocks(g, chain[..n - 1]) + more;
    assert forall i :: 0 <= i < n ==> shorter[i] == all[i];
    assert forall i :: n <= i < |shorter| ==> shorter[i] == all[i + 1];
    forall i, j | 0 <= i < j < |shorter|
      ensures shorter[i].hash != shorter[j].hash && shorter[i].hashWithoutTx != shorter[j].hashWithoutTx
    {
      var i', j' := if i < n then i else i + 1, if j < n then j else j + 1;
      assert shorter[i] == all[i'] && shorter[j] == all[j'];
    }
  }
}
