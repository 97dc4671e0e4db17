/** A block through each branch of the state change whose rollback is not its inverse: it passes the checks, applies,
    and rolling it back leaves another state behind. */
module RollbackWitnesses {
  import opened Words
  import opened Protocol
  import opened Transactions
  import opened ClosedAggregations
  import opened AggregatedRollback
  import opened Ledger
  import opened UndoEffects
  import opened Producer
  import opened Effects
  import opened Validation
  import opened SystemParameters
  import opened Chain
  import opened Node
  import opened Options
  import opened RollbackConditions
  import opened Reorganisation

  const PROFILE := Profile(1, 0, [], [], 0)

  // Account 1 mines and stakes the minimum of 1000, accounts 2 and 3 do not stake; the default parameters hold; five
  // blocks of the interval of 25 are counted.
  const ACCOUNTS := Ledger(map[1 := Account(PROFILE, 1000, 0, true), 2 := Account(PROFILE, 1000, 0, false),
                               3 := Account(PROFILE, 0, 0, false)], {1})

  function Start(closed: TxStore): Core {
    Core(ACCOUNTS, [DEFAULT_PARAMETERS], Stats(5, 5, [10], [], Timerange(0, 0)), closed)
  }

  const MINED := Block(7, 6, 77, 66, 5, 1, false, 100, [], [], [], [], [], 0, 0, 0, 0, 0, 0, 0)

  function WithAcc(header: uint8, account: Hash): BlockData {
    BlockData([AccTx(50, header, 0, account, PROFILE)], [], [], [], [], map[], [], [], MINED.(accTxData := [50]))
  }

  function WithConfig(id: uint8, payload: uint64): BlockData {
    BlockData([], [], [ConfigTx(51, id, payload, 0)], [], [], map[], [], [], MINED.(configTxData := [51]))
  }

  // A slashing proof names two different blocks.
  function WithProof(slashed: Hash): BlockData {
    BlockData([], [], [], [], [], map[], [], [],
              MINED.(slashedAddress := slashed, conflictingBlockHash1 := 91, conflictingBlockHash2 := 92,
                     conflictingBlockHashWithoutTx1 := 93, conflictingBlockHashWithoutTx2 := 94))
  }

  // One aggregation, without new funds transactions.
  function WithAgg(agg: AggTx, members: TxStore): BlockData {
    BlockData([], [], [], [], [agg], members, [], [], MINED.(aggTxData := [agg.hash], nrAggTx := 1))
  }

  // 10 from account 2 to account 3, with a fee of 1.
  const TRANSFER := FundsTx(60, 10, 1, 0, 2, 3, false, 0)
  const AGGREGATION := AggTx(70, [60], false, 0)

  // The block passes the modelled part of preValidate and the fetch, applies, and does not roll back.
  ghost predicate Leaves(c: Core, data: BlockData, difficulty: Difficulty) {
    && c.Valid() && FreshBlock(c, data) && NoDuplicates(BlockHashes(data.block)) && data.block.Counted()
    && data.block.beneficiary in c.ledger.accounts && c.ledger.accounts[data.block.beneficiary].isStaking
    && ApplyBlock(c, data, difficulty).CoreDone?
    && RollbackBlock(ApplyBlock(c, data, difficulty).core, data.block) != CoreDone(c)
  }

  lemma StartIsValid(closed: TxStore)
    requires WellKeyed(closed)
    ensures Start(closed).Valid()
  {
  }

  // What remains to be shown of a block whose miner is account 1.
  lemma LeavesUnlessRolledBack(closed: TxStore, data: BlockData, difficulty: Difficulty)
    requires WellKeyed(closed) && FreshBlock(Start(closed), data) && data.block.beneficiary == 1 && data.block.Counted()
    requires ValidateState(ACCOUNTS, closed.Keys, DEFAULT_PARAMETERS, data, false).Done?
    requires !BlockRollsBack(Start(closed), data)
    ensures Leaves(Start(closed), data, difficulty)
  {
    hide ValidateState, FreshBlock, BlockRollsBack, RollbackBlock;
    StartIsValid(closed);
    assert Active(Start(closed).params) == DEFAULT_PARAMETERS;
    StatisticsCollected(closed, data, difficulty);
    RollbackInvertsBlock(Start(closed), data, difficulty);
    DistinctLists(closed, data);
  }

  lemma DistinctLists(closed: TxStore, data: BlockData)
    requires FreshBlock(Start(closed), data)
    ensures NoDuplicates(BlockHashes(data.block))
  {
    hide FreshStore;
    BlockHashesAre(data);
  }

  lemma StatisticsCollected(closed: TxStore, data: BlockData, difficulty: Difficulty)
    requires ValidateState(ACCOUNTS, closed.Keys, DEFAULT_PARAMETERS, data, false).Done?
    ensures ApplyBlock(Start(closed), data, difficulty).CoreDone?
  {
    hide ValidateState, CloseBlock;
  }

  // Nothing but account and config transactions without fees and old members, and no slashing proof: only the account
  // stage acts.
  lemma OnlyAccounts(l: Ledger, closed: set<Hash>, data: BlockData)
    requires data.fundsTxs == [] && data.stakeTxs == [] && data.aggFunds == [] && data.aggFees == []
    requires data.block.beneficiary in l.accounts && l.accounts[data.block.beneficiary].balance <= MAX_MONEY
    requires |data.accTxs| <= 1 && |data.configTxs| <= 1
    requires forall tx <- data.accTxs :: tx.fee == 0
    requires forall tx <- data.configTxs :: tx.fee == 0
    requires !data.block.CarriesSlashingProof()
    ensures FundsAndLater(l, closed, DEFAULT_PARAMETERS, data, false) == Done(l)
  {
    var miner := data.block.beneficiary;
    assert l.Credit(miner, 0) == l;
    var fees := AllFees(data);
    NoFees(l, miner, fees);
  }

  lemma {:induction false} NoFees(l: Ledger, miner: Hash, fees: seq<Fee>)
    requires miner in l.accounts && l.accounts[miner].balance <= MAX_MONEY
    requires forall i :: 0 <= i < |fees| ==> fees[i] == Minted(0)
    ensures CollectTxFees(l, miner, fees) == Done(l)
  {
    assert l.Credit(miner, 0) == l;
    if fees != [] {
      NoFees(l, miner, fees[..|fees| - 1]);
    }
  }

  // Without aggregations nothing is asked of the lists.
  lemma OrderlyWithout(data: BlockData)
    requires data.aggTxs == [] && data.members == map[] && data.aggFunds == [] && data.aggFees == []
    ensures Orderly(Start(map[]), data)
  {
  }

  lemma FreshAcc(header: uint8, account: Hash)
    ensures FreshBlock(Start(map[]), WithAcc(header, account))
  {
    var data := WithAcc(header, account);
    assert HashesOf(Accs(data.accTxs)) == [50];
    assert |BlockTxs(data)| == 1;
  }

  lemma FreshConfig(id: uint8, payload: uint64)
    ensures FreshBlock(Start(map[]), WithConfig(id, payload))
  {
    var data := WithConfig(id, payload);
    assert HashesOf(Configs(data.configTxs)) == [51];
    assert |BlockTxs(data)| == 1;
  }

  lemma FreshProof(slashed: Hash)
    ensures FreshBlock(Start(map[]), WithProof(slashed))
  {
    assert |BlockTxs(WithProof(slashed))| == 0;
  }

  // -------------------- accounts, parameters and statistics --------------------

  lemma LeavesWhenGuardFails(data: BlockData, difficulty: Difficulty)
    requires FreshBlock(Start(map[]), data) && Orderly(Start(map[]), data)
    requires data.block.beneficiary == 1 && data.block.Counted()
    requires var v := ValidateState(ACCOUNTS, {}, DEFAULT_PARAMETERS, data, false);
      v.Done? && !Guards(Start(map[]), v.ledger, data)
    ensures Leaves(Start(map[]), data, difficulty)
  {
    hide ValidateState, Guards, FreshBlock, BlockRollsBack, Orderly, Leaves;
    var none: TxStore := map[];
    assert none.Keys == {};
    assert Active(Start(none).params) == DEFAULT_PARAMETERS;
    GuardsAreExact(Start(none), data);
    LeavesUnlessRolledBack(none, data, difficulty);
  }

  // Header 2 takes a root key away, and its rollback also takes the account away.
  lemma Header2Leaves(difficulty: Difficulty)
    ensures Leaves(Start(map[]), WithAcc(2, 1), difficulty)
  {
    hide Leaves, FreshBlock, FundsAndLater;
    var data := WithAcc(2, 1);
    assert AccStateChange(ACCOUNTS, data.accTxs[..0]) == Done(ACCOUNTS);
    var l := AccStateChange(ACCOUNTS, data.accTxs).ledger;
    OnlyAccounts(l, {}, data);
    FreshAcc(2, 1);
    OrderlyWithout(data);
    LeavesWhenGuardFails(data, difficulty);
  }

  // A header above 2 creates an account that its rollback leaves behind.
  lemma Header3Leaves(difficulty: Difficulty)
    ensures Leaves(Start(map[]), WithAcc(3, 9), difficulty)
  {
    hide Leaves, FreshBlock, FundsAndLater;
    var data := WithAcc(3, 9);
    assert AccStateChange(ACCOUNTS, data.accTxs[..0]) == Done(ACCOUNTS);
    var l := AccStateChange(ACCOUNTS, data.accTxs).ledger;
    OnlyAccounts(l, {}, data);
    FreshAcc(3, 9);
    OrderlyWithout(data);
    LeavesWhenGuardFails(data, difficulty);
  }

  // Slashing an account outside the validator set: its rollback sets the flag.
  lemma SlashedNonStakerLeaves(difficulty: Difficulty)
    ensures Leaves(Start(map[]), WithProof(2), difficulty)
  {
    hide Leaves, FreshBlock;
    var data := WithProof(2);
    NoFees(ACCOUNTS, 1, AllFees(data));
    assert ACCOUNTS.Credit(1, 0) == ACCOUNTS;
    FreshProof(2);
    OrderlyWithout(data);
    LeavesWhenGuardFails(data, difficulty);
  }

  // A staking minimum above a staker's balance takes it out of the validator set for good.
  lemma StakingMinimumLeaves(difficulty: Difficulty)
    ensures Leaves(Start(map[]), WithConfig(6, 2000), difficulty)
  {
    hide Leaves, FreshBlock, FundsAndLater;
    var data := WithConfig(6, 2000);
    OnlyAccounts(ACCOUNTS, {}, data);
    FreshConfig(6, 2000);
    OrderlyWithout(data);
    assert Raises(data.configTxs[0], 1000);
    assert RaisedAbove(data.configTxs, ACCOUNTS.accounts[1].balance);
    LeavesWhenGuardFails(data, difficulty);
  }

  // A shorter interval ends with the block, and its rollback takes it for one that went on.
  lemma IntervalLeaves(difficulty: Difficulty)
    ensures Leaves(Start(map[]), WithConfig(2, 3), difficulty)
  {
    hide Leaves, FreshBlock, FundsAndLater;
    var data := WithConfig(2, 3);
    OnlyAccounts(ACCOUNTS, {}, data);
    FreshConfig(2, 3);
    OrderlyWithout(data);
    LeavesWhenGuardFails(data, difficulty);
  }

  // -------------------- closed transactions --------------------

  lemma OneAggregation(agg: AggTx, members: TxStore)
    ensures var data := WithAgg(agg, members);
      Members(data.aggTxs) == agg.members && BlockTxs(data) == [] && HashesOf(Aggs(data.aggTxs)) == [agg.hash]
  {
    var aggs := [agg];
    assert aggs[..0] == [] && Members(aggs[..0]) == [];
    assert Members(aggs) == [] + agg.members;
  }

  lemma NoNewFunds(members: TxStore, hs: seq<Hash>)
    requires |hs| <= 1 && forall k :: k in members ==> members[k].AggT?
    ensures NewFunds(members, hs) == []
  {
    if hs != [] {
      assert hs[..0] == [];
    }
  }

  lemma FreshAgg(closed: TxStore, agg: AggTx, members: TxStore)
    requires |agg.members| <= 1 && forall k :: k in members <==> k in agg.members && k !in closed
    requires forall k :: k in members ==> members[k].Hash() == k && members[k].AggT?
    ensures FreshBlock(Start(closed), WithAgg(agg, members)) && Members(WithAgg(agg, members).aggTxs) == agg.members
  {
    hide Members, BlockTxs, NewFunds;
    OneAggregation(agg, members);
    NoNewFunds(members, agg.members);
    var none: seq<Tx> := [];
    assert HashesOf(none) + [agg.hash] == [agg.hash];
  }

  lemma LeavesWhenStoreFails(closed: TxStore, agg: AggTx, members: TxStore, difficulty: Difficulty)
    requires WellKeyed(closed) && |agg.members| <= 1 && forall k :: k in members <==> k in agg.members && k !in closed
    requires forall k :: k in members ==> members[k].Hash() == k && members[k].AggT?
    requires !StoreRollsBack(closed, WithAgg(agg, members))
    ensures Leaves(Start(closed), WithAgg(agg, members), difficulty)
  {
    hide FreshBlock, StoreRollsBack, Leaves, FundsAndLater;
    var data := WithAgg(agg, members);
    FreshAgg(closed, agg, members);
    OnlyAccounts(ACCOUNTS, closed.Keys, data);
    LeavesUnlessRolledBack(closed, data, difficulty);
  }

  // A member that was already marked as aggregated is unmarked by the rollback.
  lemma MarkedMemberLeaves(difficulty: Difficulty)
    ensures Leaves(Start(map[60 := FundsT(TRANSFER.(aggregated := true))]), WithAgg(AGGREGATION, map[]), difficulty)
  {
    var closed: TxStore := map[60 := FundsT(TRANSFER.(aggregated := true))];
    FreshAgg(closed, AGGREGATION, map[]);
    assert 60 in Members(WithAgg(AGGREGATION, map[]).aggTxs);
    LeavesWhenStoreFails(closed, AGGREGATION, map[], difficulty);
  }

  // A closed member that carries the block's own hash is undone and reopened, though the block did not apply it.
  lemma CarryingMemberLeaves(difficulty: Difficulty)
    ensures Leaves(Start(map[60 := FundsT(TRANSFER.(block := 77))]), WithAgg(AGGREGATION, map[]), difficulty)
  {
    var closed: TxStore := map[60 := FundsT(TRANSFER.(block := 77))];
    FreshAgg(closed, AGGREGATION, map[]);
    assert 60 in Members(WithAgg(AGGREGATION, map[]).aggTxs);
    LeavesWhenStoreFails(closed, AGGREGATION, map[], difficulty);
  }

  // An aggregation that is closed and marked passes the fetch once more; the rollback takes it out.
  lemma RelistedAggregationLeaves(difficulty: Difficulty)
    ensures Leaves(Start(map[70 := AggT(AggTx(70, [], true, 5))]), WithAgg(AggTx(70, [], true, 5), map[]), difficulty)
  {
    var agg := AggTx(70, [], true, 5);
    LeavesWhenStoreFails(map[70 := AggT(agg)], agg, map[], difficulty);
  }

  // An aggregation inside an aggregation that was never validated is closed, and stays closed.
  lemma NestedAggregationLeaves(difficulty: Difficulty)
    ensures Leaves(Start(map[]), WithAgg(AggTx(70, [80], false, 0), map[80 := AggT(AggTx(80, [], false, 0))]),
      difficulty)
  {
    hide Members, BlockTxs, Leaves, FreshBlock;
    var none: TxStore := map[];
    var agg, members: TxStore := AggTx(70, [80], false, 0), map[80 := AggT(AggTx(80, [], false, 0))];
    OneAggregation(agg, members);
    var data := WithAgg(agg, members);
    assert !MemberRollsBack(none, data, 80);
    LeavesWhenStoreFails(none, agg, members, difficulty);
  }
}
