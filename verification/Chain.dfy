/** One block applied to, and rolled back from, everything the chain determines: the ledger, the
parameter history, the difficulty statistics and the store of closed transactions. */
module Chain {
  import opened Words
  import opened Protocol
  import opened Transactions
  import opened ClosedAggregations
  import opened AggregatedRollback
  import opened Ledger
  import opened Validation
  import opened BlockEffects
  import opened StageEffects
  import opened BlockInverse
  import opened UndoEffects
  import opened SystemParameters
  import opened AccountStage

  // The fetched transactions are those the block lists, and the state change is given the new funds transactions of its
  // aggregations.
  ghost predicate Fetched(data: BlockData) {
    && HashesOf(Accs(data.accTxs)) == data.block.accTxData && HashesOf(Funds(data.fundsTxs)) == data.block.fundsTxData
    && HashesOf(Configs(data.configTxs)) == data.block.configTxData
    && HashesOf(Stakes(data.stakeTxs)) == data.block.stakeTxData
    && HashesOf(Aggs(data.aggTxs)) == data.block.aggTxData
    && NewOnesApplied(data)
  }

  // The listed transactions of each kind, without aggregations.
  function Assemble(accs: Lookup, funds: Lookup, configs: Lookup, stakes: Lookup, b: Block): BlockData
    requires accs.Found? && forall i :: 0 <= i < |accs.txs| ==> accs.txs[i].AccT?
    requires funds.Found? && forall i :: 0 <= i < |funds.txs| ==> funds.txs[i].FundsT?
    requires configs.Found? && forall i :: 0 <= i < |configs.txs| ==> configs.txs[i].ConfigT?
    requires stakes.Found? && forall i :: 0 <= i < |stakes.txs| ==> stakes.txs[i].StakeT?
  {
    BlockData(seq(|accs.txs|, i requires 0 <= i < |accs.txs| => accs.txs[i].acc),
              seq(|funds.txs|, i requires 0 <= i < |funds.txs| => funds.txs[i].funds),
              seq(|configs.txs|, i requires 0 <= i < |configs.txs| => configs.txs[i].config),
              seq(|stakes.txs|, i requires 0 <= i < |stakes.txs| => stakes.txs[i].stake), [], map[], [], [], b)
  }

  // -------------------- one block --------------------

  datatype Core = Core(ledger: Ledger, params: History, stats: Stats, closedTxs: TxStore)
  {
    ghost predicate Valid() {
      && ledger.Valid() && Active(params).diffInterval >= MIN_DIFF_INTERVAL && stats.Valid() && WellKeyed(closedTxs)
      && stats.localBlockCount < Active(params).diffInterval
    }
  }

  datatype CoreOutcome = CoreDone(core: Core) | CoreFailed(core: Core) | CoreCrashed

  // validateState and the part of postValidate that depends on the chain alone.
  function ApplyBlock(c: Core, data: BlockData, difficulty: Difficulty): CoreOutcome {
    match ValidateState(c.ledger, c.closedTxs.Keys, Active(c.params), data, false)
    case Done(l) =>
      var (params, configured) := ConfigStateChange(c.params, l, data.configTxs, data.block.hash);
      (match CollectStatistics(c.stats, Active(params), data.block.timestamp, difficulty)
       case StatsDone(stats) => CoreDone(Core(configured, params, stats, CloseBlock(c.closedTxs, data)))
       case StatsPanic => CoreCrashed)
    case Failed(l) =>
      var late := FailsLate(c.ledger, c.closedTxs.Keys, data, false);
      CoreFailed(c.(ledger := l,
                    closedTxs := if late then UnmarkAggs(c.closedTxs, data.aggTxs, data.block.hashWithoutTx)
                                              else c.closedTxs))
    case Crashed => CoreCrashed
  }

  function RollBackData(c: Core, data: BlockData): CoreOutcome {
    var params := ConfigStateChangeRollback(c.params, data.configTxs, data.block.hash);
    if params == [] then CoreCrashed
    else match ValidateStateRollback(c.ledger, Active(params), data,
                                     Groups(c.closedTxs, data.aggTxs, data.block.hashWithoutTx))
      case Done(l) =>
        (match CollectStatisticsRollback(c.stats, Active(params))
         case StatsDone(stats) => CoreDone(Core(l, params, stats, ReopenClosed(c.closedTxs, data)))
         case StatsPanic => CoreCrashed)
      case other => CoreCrashed
  }

  datatype DataLookup = DataFound(data: BlockData) | DataMissing | DataWrongType

  // All transactions a block lists, type by type.
  function ReadBlockData(m: TxStore, b: Block): DataLookup {
    var accs, funds := ReadTxs(m, b.accTxData, AccKind), ReadTxs(m, b.fundsTxData, FundsKind);
    var configs, stakes := ReadTxs(m, b.configTxData, ConfigKind), ReadTxs(m, b.stakeTxData, StakeKind);
    var aggs := ReadTxs(m, b.aggTxData, AggKind);
    if accs.Found? && funds.Found? && configs.Found? && stakes.Found? && aggs.Found?
    then DataFound(Assemble(accs, funds, configs, stakes, b).(
                     aggTxs := seq(|aggs.txs|, i requires 0 <= i < |aggs.txs| => aggs.txs[i].agg)))
    else if accs.Missing? then DataMissing else if accs.WrongType? then DataWrongType
    else if funds.Missing? then DataMissing else if funds.WrongType? then DataWrongType
    else if configs.Missing? then DataMissing else if configs.WrongType? then DataWrongType
    else if stakes.Missing? then DataMissing else if stakes.WrongType? then DataWrongType
    else if aggs.Missing? then DataMissing else DataWrongType
  }

  // The rollback of a block reads the block's transactions back from the closed ones.
  function RollbackBlock(c: Core, b: Block): CoreOutcome {
    match ReadBlockData(c.closedTxs, b)
    case DataFound(data) => RollBackData(c, data)
    case DataMissing => CoreFailed(c)
    case DataWrongType => CoreCrashed
  }

  // What the checks before the state change establish: no listed transaction is closed, none is listed twice, the new
  // members of the aggregations are known, and no entry of the parameter history carries the block's hash.
  ghost predicate FreshBlock(c: Core, data: BlockData) {
    && Fetched(data)
    && NoDuplicates(HashesOf(BlockTxs(data)) + HashesOf(Aggs(data.aggTxs)))
    && FreshStore(c.closedTxs, data)
    && forall i :: 0 <= i < |c.params| ==> c.params[i].blockHash != data.block.hash
  }

  // The exact condition under which a block that was applied to c rolls back to c.
  ghost predicate BlockRollsBack(c: Core, data: BlockData) {
    var p := Active(c.params);
    var validated := ValidateState(c.ledger, c.closedTxs.Keys, p, data, false);
    validated.Done? ==>
      var (params, configured) := ConfigStateChange(c.params, validated.ledger, data.configTxs, data.block.hash);
      && LedgerRollsBack(c.ledger, validated.ledger, configured, data)
      && IntervalRollsBack(c.stats, p, Active(params))
      && StoreRollsBack(c.closedTxs, data)
      && AggregatesRollBack(c, data)
  }

  // The rollback moves back what the aggregations moved.
  ghost predicate AggregatesRollBack(c: Core, data: BlockData) {
    var created := AccStateChange(c.ledger, data.accTxs);
    created.Done? && NetsAgree(c.ledger.accounts.Keys, created.ledger.rootKeys, Active(c.params), data,
                               BlockGroups(c.closedTxs, data))
  }

  // Everything a block closes.
  function AllHashes(data: BlockData): seq<Hash> {
    HashesOf(BlockTxs(data)) + HashesOf(Aggs(data.aggTxs)) + Members(data.aggTxs)
  }

  // -------------------- reading back --------------------

  // The same transactions but for marks and blocks.
  ghost predicate SameUpToMarks(data: BlockData, read: BlockData) {
    && read.block == data.block && read.accTxs == data.accTxs && read.configTxs == data.configTxs
    && read.stakeTxs == data.stakeTxs && SameAggs(data.aggTxs, read.aggTxs)
    && |read.fundsTxs| == |data.fundsTxs|
    && forall i :: 0 <= i < |data.fundsTxs| ==> Bare(read.fundsTxs[i]) == Bare(data.fundsTxs[i])
  }

  lemma SameListsRead(data: BlockData, read: BlockData)
    requires SameUpToMarks(data, read)
    ensures SameLists(data, read)
  {
    forall i | 0 <= i < |data.fundsTxs| ensures read.fundsTxs[i].hash == data.fundsTxs[i].hash {
      assert Bare(read.fundsTxs[i]).hash == Bare(data.fundsTxs[i]).hash;
    }
    assert HashesOf(Funds(read.fundsTxs)) == HashesOf(Funds(data.fundsTxs));
    BlockHashesAre(data);
    BlockHashesAre(read);
  }

  lemma BlockHashesAre(data: BlockData)
    ensures HashesOf(BlockTxs(data)) == HashesOf(Accs(data.accTxs)) + HashesOf(Funds(data.fundsTxs))
                                        + HashesOf(Configs(data.configTxs)) + HashesOf(Stakes(data.stakeTxs))
  {
  }

  lemma BareUndo(l: Ledger, tx: FundsTx)
    ensures FundsUndo(l, Bare(tx)) == FundsUndo(l, tx)
  {
  }

  lemma {:induction false} FundsRollbackSame(l: Ledger, txs: seq<FundsTx>, read: seq<FundsTx>)
    requires |read| == |txs| && forall i :: 0 <= i < |txs| ==> Bare(read[i]) == Bare(txs[i])
    ensures FundsStateChangeRollback(l, read) == FundsStateChangeRollback(l, txs)
    decreases |txs|
  {
    hide FundsUndo, Bare;
    if txs != [] {
      var n := |txs| - 1;
      BareUndo(l, read[n]);
      BareUndo(l, txs[n]);
      if FundsUndo(l, txs[n]).Done? {
        FundsRollbackSame(FundsUndo(l, txs[n]).ledger, txs[..n], read[..n]);
      }
    }
  }

  lemma FeesSame(txs: seq<FundsTx>, read: seq<FundsTx>)
    requires |read| == |txs| && forall i :: 0 <= i < |txs| ==> Bare(read[i]) == Bare(txs[i])
    ensures FundsFees(read) == FundsFees(txs)
  {
    forall i | 0 <= i < |txs| ensures FundsFees(read)[i] == FundsFees(txs)[i] {
      assert Bare(read[i]).fee == Bare(txs[i]).fee && Bare(read[i]).from == Bare(txs[i]).from;
    }
  }

  lemma RollbackSame(l: Ledger, p: Parameters, data: BlockData, read: BlockData, groups: seq<seq<FundsTx>>)
    requires SameUpToMarks(data, read)
    ensures ValidateStateRollback(l, p, read, groups) == ValidateStateRollback(l, p, data, groups)
  {
    hide Bare, FundsStateChangeRollback, CollectSlashRewardRollback, CollectBlockRewardRollback, CollectTxFeesRollback,
         StakeStateChangeRollback, AggregatedStateRollback, AccStateChangeRollback, FundsFees;
    forall m: Ledger
      ensures FundsStateChangeRollback(m, read.fundsTxs) == FundsStateChangeRollback(m, data.fundsTxs)
    {
      FundsRollbackSame(m, data.fundsTxs, read.fundsTxs);
    }
    FeesSame(data.fundsTxs, read.fundsTxs);
  }

  lemma {:induction false} GroupsSame(m: TxStore, aggs: seq<AggTx>, read: seq<AggTx>, hash: Hash)
    requires SameAggs(aggs, read)
    ensures Groups(m, read, hash) == Groups(m, aggs, hash)
  {
    if aggs != [] {
      GroupsSame(m, aggs[..|aggs| - 1], read[..|aggs| - 1], hash);
    }
  }

  // Every listed transaction is stored, marked at most.
  ghost predicate StoredListed(m: TxStore, txs: seq<Tx>) {
    forall i :: 0 <= i < |txs| ==>
      txs[i].Hash() in m && (m[txs[i].Hash()] == txs[i] || m[txs[i].Hash()] == Mark(txs[i], true))
  }

  lemma ClosedAreStored(c: Core, data: BlockData)
    requires FreshBlock(c, data)
    ensures var m := CloseBlock(c.closedTxs, data);
      && StoredListed(m, BlockTxs(data))
      && forall i :: 0 <= i < |data.aggTxs| ==>
        && data.aggTxs[i].hash in m && m[data.aggTxs[i].hash].AggT?
        && m[data.aggTxs[i].hash].agg.hash == data.aggTxs[i].hash
        && m[data.aggTxs[i].hash].agg.members == data.aggTxs[i].members
  {
    hide CloseAggs, WriteTxs, FreshStore, BlockTxs;
    var txs := BlockTxs(data);
    forall i | 0 <= i < |txs|
      ensures txs[i].Hash() in CloseBlock(c.closedTxs, data)
      ensures CloseBlock(c.closedTxs, data)[txs[i].Hash()] in {txs[i], Mark(txs[i], true)}
    {
      ListedNotNamed(data, i);
      ClosedListed(c.closedTxs, data, i);
    }
    var m1 := WriteTxs(c.closedTxs, txs);
    assert NoDuplicates(HashesOf(Aggs(data.aggTxs))) by { AggsDistinct(data); }
    forall i | 0 <= i < |data.aggTxs|
      ensures var m, k := CloseBlock(c.closedTxs, data), data.aggTxs[i].hash;
        k in m && m[k].AggT? && m[k].agg.hash == k && m[k].agg.members == data.aggTxs[i].members
    {
      ClosedAgg(m1, data.members, data.aggTxs, data.block.hashWithoutTx, i);
    }
  }

  lemma AggsDistinct(data: BlockData)
    requires NoDuplicates(HashesOf(BlockTxs(data)) + HashesOf(Aggs(data.aggTxs)))
    ensures NoDuplicates(HashesOf(BlockTxs(data))) && NoDuplicates(HashesOf(Aggs(data.aggTxs)))
  {
    var hs, more := HashesOf(BlockTxs(data)), HashesOf(Aggs(data.aggTxs));
    forall i, j | 0 <= i < j < |more| ensures more[i] != more[j] {
      assert (hs + more)[|hs| + i] != (hs + more)[|hs| + j];
    }
    forall i, j | 0 <= i < j < |hs| ensures hs[i] != hs[j] {
      assert (hs + more)[i] != (hs + more)[j];
    }
  }

  lemma ListedNotNamed(data: BlockData, i: nat)
    requires NoDuplicates(HashesOf(BlockTxs(data)) + HashesOf(Aggs(data.aggTxs))) && i < |BlockTxs(data)|
    ensures !Names(data.aggTxs, BlockTxs(data)[i].Hash())
  {
    var hs, more := HashesOf(BlockTxs(data)), HashesOf(Aggs(data.aggTxs));
    forall j | 0 <= j < |data.aggTxs| ensures data.aggTxs[j].hash != BlockTxs(data)[i].Hash() {
      assert (hs + more)[i] != (hs + more)[|hs| + j];
    }
  }

  // A rollback reads back the very transactions that were applied, but for marks and blocks.
  lemma RollbackReadsBack(c: Core, data: BlockData) returns (read: BlockData)
    requires FreshBlock(c, data)
    ensures ReadBlockData(CloseBlock(c.closedTxs, data), data.block) == DataFound(read) && SameUpToMarks(data, read)
  {
    hide CloseAggs, WriteTxs, FreshStore, CloseBlock, ReadTxs, NewOnesApplied;
    var m := CloseBlock(c.closedTxs, data);
    ClosedAreStored(c, data);
    var accs, funds, configs, stakes, aggs := Accs(data.accTxs), Funds(data.fundsTxs), Configs(data.configTxs),
      Stakes(data.stakeTxs), Aggs(data.aggTxs);
    PartsStored(m, data);
    ReadStored(m, accs, AccKind);
    ReadStored(m, funds, FundsKind);
    ReadStored(m, configs, ConfigKind);
    ReadStored(m, stakes, StakeKind);
    ReadStored(m, aggs, AggKind);
    var rc, rf, rg, rs, ra := ReadTxs(m, data.block.accTxData, AccKind), ReadTxs(m, data.block.fundsTxData, FundsKind),
      ReadTxs(m, data.block.configTxData, ConfigKind), ReadTxs(m, data.block.stakeTxData, StakeKind),
      ReadTxs(m, data.block.aggTxData, AggKind);
    read := Assemble(rc, rf, rg, rs,
                     data.block).(aggTxs := seq(|ra.txs|, i requires 0 <= i < |ra.txs| => ra.txs[i].agg));
    assert read.accTxs == data.accTxs && read.configTxs == data.configTxs && read.stakeTxs == data.stakeTxs;
  }

  lemma PartsStored(m: TxStore, data: BlockData)
    requires StoredListed(m, BlockTxs(data))
    ensures forall tx <- Accs(data.accTxs) + Configs(data.configTxs) + Stakes(data.stakeTxs) ::
      tx.Hash() in m && m[tx.Hash()] == tx
    ensures forall i :: 0 <= i < |data.fundsTxs| ==>
      && data.fundsTxs[i].hash in m && m[data.fundsTxs[i].hash].FundsT?
      && Bare(m[data.fundsTxs[i].hash].funds) == Bare(data.fundsTxs[i])
  {
    var accs, funds, configs, stakes := Accs(data.accTxs), Funds(data.fundsTxs), Configs(data.configTxs),
      Stakes(data.stakeTxs);
    forall tx: Tx | tx in accs + configs + stakes ensures tx.Hash() in m && m[tx.Hash()] == tx {
      assert tx in BlockTxs(data);
      var i :| 0 <= i < |BlockTxs(data)| && BlockTxs(data)[i] == tx;
    }
    forall i | 0 <= i < |funds|
      ensures var k := data.fundsTxs[i].hash; k in m && m[k].FundsT? && Bare(m[k].funds) == Bare(data.fundsTxs[i])
    {
      assert BlockTxs(data)[|accs| + i] == FundsT(data.fundsTxs[i]);
    }
  }

  // -------------------- the inverse --------------------

  // Rollback inverts one block, aggregations included: ledger, parameters, statistics and closed transactions are
  // exactly those from before the block, if and only if the block meets the condition.
  lemma RollbackInvertsBlock(c: Core, data: BlockData, difficulty: Difficulty)
    requires c.Valid() && FreshBlock(c, data) && ApplyBlock(c, data, difficulty).CoreDone?
    ensures RollbackBlock(ApplyBlock(c, data, difficulty).core, data.block) == CoreDone(c) <==> BlockRollsBack(c, data)
  {
    hide ReadBlockData, ValidateState, ValidateStateRollback, CollectStatistics, CollectStatisticsRollback,
         LedgerRollsBack, IntervalRollsBack, OnlyUnstakes, BlockTxs, NoDuplicates, HashesOf, CloseBlock, ReopenClosed,
         StoreRollsBack, NetsAgree, Groups, FreshStore, Fetched, AccStateChange;
    var d := ApplyBlock(c, data, difficulty).core;
    var p := Active(c.params);
    var validated := ValidateState(c.ledger, c.closedTxs.Keys, p, data, false).ledger;
    var read := RollbackReadsBack(c, data);
    ConfigRollsBack(c.params, validated, data.configTxs, data.block.hash);
    ConfigOnlyUnstakes(p, validated, data.configTxs);
    SameListsRead(data, read);
    StoreRestored(c.closedTxs, data, read);
    if StoreRollsBack(c.closedTxs, data) {
      var groups := BlockGroups(c.closedTxs, data);
      GroupsSame(d.closedTxs, data.aggTxs, read.aggTxs, data.block.hashWithoutTx);
      RollbackSame(d.ledger, p, data, read, groups);
      FreshForLedger(c, data);
      OnlyAppliedFound(c.closedTxs, data);
      RollbackInvertsLedger(c.ledger, c.closedTxs.Keys, p, data, false, d.ledger, groups);
      StatisticsRollBack(c.stats, p, Active(d.params), data.block.timestamp, difficulty);
    }
  }

  lemma FreshForLedger(c: Core, data: BlockData)
    requires FreshBlock(c, data)
    ensures BlockFresh(c.closedTxs.Keys, data, false) && NewOnesApplied(data)
  {
    hide Members, NewFunds, HashesOf, BlockTxs;
    forall i | 0 <= i < |data.fundsTxs| ensures data.fundsTxs[i].hash !in c.closedTxs {
      ListedFunds(data, i);
    }
    forall i | 0 <= i < |data.aggFunds| ensures data.aggFunds[i].hash !in c.closedTxs {
      AppliedIsMember(data, i);
    }
  }

  lemma ListedFunds(data: BlockData, i: nat)
    requires i < |data.fundsTxs|
    ensures |data.accTxs| + i < |BlockTxs(data)| && BlockTxs(data)[|data.accTxs| + i].Hash() == data.fundsTxs[i].hash
  {
  }

  lemma AppliedIsMember(data: BlockData, i: nat)
    requires NewOnesApplied(data) && i < |data.aggFunds|
    ensures exists h :: h in data.members && data.members[h] == FundsT(data.aggFunds[i])
  {
    assert data.aggFunds[i] in multiset(NewFunds(data.members, Members(data.aggTxs)));
    NewAreMembers(data.members, Members(data.aggTxs), data.aggFunds[i]);
  }

  lemma ApplyKeepsValid(c: Core, data: BlockData, difficulty: Difficulty)
    requires c.Valid() && FreshBlock(c, data) && ApplyBlock(c, data, difficulty).CoreDone?
    ensures ApplyBlock(c, data, difficulty).core.Valid()
    ensures var d := ApplyBlock(c, data, difficulty).core;
      forall h :: h in d.closedTxs <==> h in c.closedTxs || h in AllHashes(data)
  {
    hide ValidateState, CollectStatistics, BlockTxs, NoDuplicates, CloseBlock, Flips, Fetched, HashesOf, Members;
    var p := Active(c.params);
    var validated := ValidateState(c.ledger, c.closedTxs.Keys, p, data, false).ledger;
    FreshForLedger(c, data);
    ValidatedLedgerValid(c.ledger, c.closedTxs.Keys, p, data, false);
    ConfigOnlyUnstakes(p, validated, data.configTxs);
    StatisticsRollBack(c.stats, p, Active(ApplyBlock(c, data, difficulty).core.params), data.block.timestamp,
                       difficulty);
    ClosedKeys(c.closedTxs, data);
    forall h ensures h in HashesOf(Aggs(data.aggTxs)) <==> Names(data.aggTxs, h) {
      NamedHashes(data.aggTxs, h);
    }
  }

  lemma NamedHashes(aggs: seq<AggTx>, h: Hash)
    ensures h in HashesOf(Aggs(aggs)) <==> Names(aggs, h)
  {
    if Names(aggs, h) {
      var i :| 0 <= i < |aggs| && aggs[i].hash == h;
      assert HashesOf(Aggs(aggs))[i] == h;
    }
  }
}
