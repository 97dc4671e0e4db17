/** The pool of open transactions: what a validated block takes out of it, what a rollback puts back, and that no
    transaction is lost between the two. */
module OpenPool {
  import opened Words
  import opened Options
  import opened Protocol
  import opened Transactions
  import opened ClosedAggregations
  import opened Ledger
  import opened Validation
  import opened SystemParameters
  import opened Chain
  import opened Node
  import opened Runs
  import opened Reorganisation

  // -------------------- hash by hash --------------------

  // A written hash holds one of the transactions written under it.
  lemma {:induction false} WrittenAt(m: TxStore, txs: seq<Tx>, k: Hash)
    ensures var r := WriteTxs(m, txs);
      && (k in r <==> k in m || k in HashesOf(txs))
      && (k in HashesOf(txs) ==> exists tx <- txs :: tx.Hash() == k && r[k] == tx)
      && (k in m && k !in HashesOf(txs) ==> r[k] == m[k])
  {
    if txs != [] {
      var n := |txs| - 1;
      WrittenAt(m, txs[..n], k);
      HashesSnoc(txs, k);
      assert txs == txs[..n] + [txs[n]];
    }
  }

  lemma HashesSnoc(txs: seq<Tx>, k: Hash)
    requires txs != []
    ensures k in HashesOf(txs) <==> k in HashesOf(txs[..|txs| - 1]) || txs[|txs| - 1].Hash() == k
  {
    var n := |txs| - 1;
    assert HashesOf(txs) == HashesOf(txs[..n]) + [txs[n].Hash()];
  }

  lemma {:induction false} TakenMembersAt(o: TxStore, m: TxStore, hs: seq<Hash>, hash: Hash, k: Hash)
    ensures var r := TakeMembers(o, m, hs, hash);
      var taken := k in hs && k in m && Carries(m[k], hash);
      (k in r <==> k in o || taken) && (k in r ==> r[k] == if taken then m[k] else o[k])
  {
    hide Carries;
    if hs != [] {
      var n := |hs| - 1;
      TakenMembersAt(o, m, hs[..n], hash, k);
      DroppedMembersAt(m, hs[..n], hash, hs[n]);
      SnocMember(hs, k);
    }
  }

  lemma {:induction false} TakenAggsAt(o: TxStore, m: TxStore, aggs: seq<AggTx>, hash: Hash, k: Hash)
    ensures var r := TakeAggs(o, m, aggs, hash);
      var taken := k in Members(aggs) && k in m && Carries(m[k], hash);
      && (k in r <==> k in o || taken || Names(aggs, k))
      && (Names(aggs, k) ==> exists agg <- aggs :: agg.hash == k && r[k] == AggT(agg))
      && (!Names(aggs, k) && k in r ==> r[k] == if taken then m[k] else o[k])
  {
    hide TakeMembers, Carries;
    if aggs != [] {
      var n := |aggs| - 1;
      var left := DropAggs(m, aggs[..n], hash);
      TakenAggsAt(o, m, aggs[..n], hash, k);
      DroppedAggsAt(m, aggs[..n], hash, k);
      TakenMembersAt(TakeAggs(o, m, aggs[..n], hash), left, aggs[n].members, hash, k);
      NamesSnoc(aggs, k);
      assert aggs == aggs[..n] + [aggs[n]];
      assert k in Members(aggs) <==> k in Members(aggs[..n]) || k in aggs[n].members;
    }
  }

  // -------------------- rollback --------------------

  // Every listed transaction was read from the closed ones.
  ghost predicate ReadFrom(m: TxStore, data: BlockData) {
    && (forall tx <- BlockTxs(data) :: tx.Hash() in m && m[tx.Hash()] == tx)
    && (forall agg <- data.aggTxs :: agg.hash in m && m[agg.hash] == AggT(agg))
  }

  // The block lists the hash by itself, as an aggregation, or as a member that was closed under it.
  ghost predicate Listed(data: BlockData, k: Hash) { k in HashesOf(BlockTxs(data)) || Names(data.aggTxs, k) }

  lemma ReopenedAt(o: TxStore, m: TxStore, data: BlockData, k: Hash)
    requires ReadFrom(m, data)
    ensures var hash, closed, open := data.block.hashWithoutTx, ReopenClosed(m, data), ReopenOpen(o, m, data);
      && (k in closed <==> k in m && !Listed(data, k) && !(k in Members(data.aggTxs) && Carries(m[k], hash)))
      && (k in m && k !in closed ==>
          k in open && open[k] == if Listed(data, k) then m[k] else Unmarked(m[k], hash))
      && (k !in m || k in closed ==> (k in open <==> k in o) && (k in o ==> open[k] == o[k]))
  {
    hide UnmarkAggs, DropAggs, WriteTxs, DeleteTxs, TakeAggs, BlockTxs, HashesOf, Members, Names;
    var hash, txs := data.block.hashWithoutTx, BlockTxs(data);
    var m1 := UnmarkAggs(m, data.aggTxs, hash);
    UnmarkedAggsAt(m, data.aggTxs, hash, k);
    var m2 := DeleteTxs(m1, txs);
    DeletedAt(m1, txs, k);
    DroppedAggsAt(m2, data.aggTxs, hash, k);
    WrittenAt(o, txs, k);
    TakenAggsAt(WriteTxs(o, txs), m2, data.aggTxs, hash, k);
    ListedIsRead(m, data, k);
  }

  lemma ListedIsRead(m: TxStore, data: BlockData, k: Hash)
    requires ReadFrom(m, data)
    ensures k in HashesOf(BlockTxs(data)) ==> k in m
    ensures Names(data.aggTxs, k) ==> k in m && m[k].AggT?
  {
    if k in HashesOf(BlockTxs(data)) {
      var i :| 0 <= i < |BlockTxs(data)| && HashesOf(BlockTxs(data))[i] == k;
      assert BlockTxs(data)[i] in BlockTxs(data);
    }
    if Names(data.aggTxs, k) {
      var i :| 0 <= i < |data.aggTxs| && data.aggTxs[i].hash == k;
      assert data.aggTxs[i] in data.aggTxs;
    }
  }

  lemma {:induction false} ReadTxsAre(m: TxStore, hs: seq<Hash>, kind: Kind)
    requires WellKeyed(m) && ReadTxs(m, hs, kind).Found?
    ensures var txs := ReadTxs(m, hs, kind).txs;
      HashesOf(txs) == hs && forall i :: 0 <= i < |hs| ==> hs[i] in m && txs[i] == m[hs[i]]
  {
    if hs != [] {
      ReadTxsAre(m, hs[..|hs| - 1], kind);
      assert hs == hs[..|hs| - 1] + [hs[|hs| - 1]];
    }
  }

  // The rollback reads the transactions the block lists.
  lemma ReadData(m: TxStore, b: Block)
    requires WellKeyed(m) && ReadBlockData(m, b).DataFound?
    ensures var data := ReadBlockData(m, b).data;
      && data.block == b && ReadFrom(m, data)
      && (forall k :: Listed(data, k) <==> k in BlockHashes(b))
      && HashesOf(BlockTxs(data)) == b.accTxData + b.fundsTxData + b.configTxData + b.stakeTxData
      && HashesOf(Aggs(data.aggTxs)) == b.aggTxData
  {
    hide ReadTxs, Names;
    ReadTxsAre(m, b.accTxData, AccKind);
    ReadTxsAre(m, b.fundsTxData, FundsKind);
    ReadTxsAre(m, b.configTxData, ConfigKind);
    ReadTxsAre(m, b.stakeTxData, StakeKind);
    ReadTxsAre(m, b.aggTxData, AggKind);
    var data := ReadBlockData(m, b).data;
    var accs, funds, configs, stakes, aggs := ReadTxs(m, b.accTxData, AccKind).txs,
      ReadTxs(m, b.fundsTxData, FundsKind).txs,
      ReadTxs(m, b.configTxData, ConfigKind).txs, ReadTxs(m, b.stakeTxData, StakeKind).txs,
      ReadTxs(m, b.aggTxData, AggKind).txs;
    assert Accs(data.accTxs) == accs && Funds(data.fundsTxs) == funds && Configs(data.configTxs) == configs;
    assert Stakes(data.stakeTxs) == stakes && Aggs(data.aggTxs) == aggs;
    BlockHashesAre(data);
    AreRead(m, accs); AreRead(m, funds); AreRead(m, configs); AreRead(m, stakes); AreRead(m, aggs);
    AggsAreRead(m, data.aggTxs);
    forall k ensures Listed(data, k) <==> k in BlockHashes(b) {
      NamedHashes(data.aggTxs, k);
    }
  }

  lemma AreRead(m: TxStore, txs: seq<Tx>)
    requires WellKeyed(m) && forall i :: 0 <= i < |txs| ==> HashesOf(txs)[i] in m && txs[i] == m[HashesOf(txs)[i]]
    ensures forall tx <- txs :: tx.Hash() in m && m[tx.Hash()] == tx
  {
  }

  lemma AggsAreRead(m: TxStore, aggs: seq<AggTx>)
    requires forall tx <- Aggs(aggs) :: tx.Hash() in m && m[tx.Hash()] == tx
    ensures forall agg <- aggs :: agg.hash in m && m[agg.hash] == AggT(agg)
  {
    forall agg | agg in aggs ensures agg.hash in m && m[agg.hash] == AggT(agg) {
      var i :| 0 <= i < |aggs| && aggs[i] == agg;
      assert Aggs(aggs)[i] in Aggs(aggs);
    }
  }

  // The transaction but for its mark.
  ghost predicate SameButMark(tx: Tx, other: Tx) {
    tx == other || (tx.AggT? && other.AggT? && tx.agg == other.agg.(aggregated := false))
  }

  // What a rollback does under hash k: what the block lists was closed and is open now, whatever else left the closed
  // ones is open under its hash, but for its mark, and nothing else in the pool changes.
  ghost predicate ReopenedUnder(b: Block, closed: TxStore, open: TxStore, closed': TxStore, open': TxStore, k: Hash) {
    && (k in BlockHashes(b) ==> k in closed && k !in closed' && k in open' && open'[k] == closed[k])
    && (k in closed && k !in closed' ==> k in open' && open'[k].Hash() == k && SameButMark(open'[k], closed[k]))
    && (k !in closed || k in closed' ==> (k in open' <==> k in open) && (k in open ==> open'[k] == open[k]))
    && (k in closed' ==> k in closed)
  }

  lemma KeyedAt(m: TxStore, k: Hash)
    requires WellKeyed(m)
    ensures k in m ==> m[k].Hash() == k
  {
  }

  // A rollback moves transactions from the closed to the open ones: all that the block lists as they were closed, and
  // the members closed under it; nothing is in neither, and nothing else in the pool changes.
  lemma RollbackReopens(w: World, b: Block, k: Hash)
    requires WellKeyed(w.core.closedTxs) && RollbackOne(w, b).Accepted?
    ensures var w' := RollbackOne(w, b).world;
      ReopenedUnder(b, w.core.closedTxs, w.openTxs, w'.core.closedTxs, w'.openTxs, k)
  {
    hide ReadBlockData, ReopenOpen, ReopenClosed, Listed, ReadFrom, BlockHashes, RollbackOne, Members, WellKeyed;
    RolledBackStores(w, b);
    var m, data := w.core.closedTxs, ReadBlockData(w.core.closedTxs, b).data;
    ReadData(m, b);
    ReopenedAt(w.openTxs, m, data, k);
    ListedInStore(m, data, k);
    KeyedAt(m, k);
  }

  lemma ListedInStore(m: TxStore, data: BlockData, k: Hash)
    requires ReadFrom(m, data)
    ensures Listed(data, k) ==> k in m
  {
    ListedIsRead(m, data, k);
  }

  lemma RolledBackStores(w: World, b: Block)
    requires RollbackOne(w, b).Accepted?
    ensures ReadBlockData(w.core.closedTxs, b).DataFound?
    ensures var w', data := RollbackOne(w, b).world, ReadBlockData(w.core.closedTxs, b).data;
      && w'.core.closedTxs == ReopenClosed(w.core.closedTxs, data)
      && w'.openTxs == ReopenOpen(w.openTxs, w.core.closedTxs, data)
  {
    hide ReadBlockData, ReopenOpen, ReopenClosed, ReactivateAggs;
  }

  lemma {:induction false} InMembers(aggs: seq<AggTx>, k: Hash)
    ensures k in Members(aggs) <==> exists agg <- aggs :: k in agg.members
  {
    if aggs != [] {
      var n := |aggs| - 1;
      InMembers(aggs[..n], k);
      assert aggs == aggs[..n] + [aggs[n]];
      assert k in Members(aggs) <==> k in Members(aggs[..n]) || k in aggs[n].members;
      if k in aggs[n].members {
        assert aggs[n] in aggs;
      }
    }
  }

  // The hash is a member of one of the block's aggregations, and was closed under the block.
  ghost predicate ClosedInside(m: TxStore, b: Block, k: Hash) {
    k in m && Carries(m[k], b.hashWithoutTx)
    && exists a <- b.aggTxData :: a in m && m[a].AggT? && k in m[a].agg.members
  }

  lemma MembersRead(m: TxStore, data: BlockData, b: Block, k: Hash)
    requires ReadFrom(m, data) && HashesOf(Aggs(data.aggTxs)) == b.aggTxData
    ensures k in Members(data.aggTxs) <==> exists a <- b.aggTxData :: a in m && m[a].AggT? && k in m[a].agg.members
  {
    InMembers(data.aggTxs, k);
    if k in Members(data.aggTxs) {
      var agg :| agg in data.aggTxs && k in agg.members;
      var i :| 0 <= i < |data.aggTxs| && data.aggTxs[i] == agg;
      assert HashesOf(Aggs(data.aggTxs))[i] == agg.hash;
      assert agg.hash in b.aggTxData;
    }
    if a :| a in b.aggTxData && a in m && m[a].AggT? && k in m[a].agg.members {
      var i :| 0 <= i < |b.aggTxData| && b.aggTxData[i] == a;
      assert data.aggTxs[i] in data.aggTxs && data.aggTxs[i].hash == a;
    }
  }

  // What leaves the closed transactions: the hashes the block lists, and the members closed under it.
  lemma RollbackTakesOut(w: World, b: Block, k: Hash)
    requires WellKeyed(w.core.closedTxs) && RollbackOne(w, b).Accepted?
    ensures k in w.core.closedTxs && k !in RollbackOne(w, b).world.core.closedTxs
       <==> k in BlockHashes(b) || ClosedInside(w.core.closedTxs, b, k)
  {
    hide ReadBlockData, ReopenOpen, ReopenClosed, Listed, ReadFrom, BlockHashes;
    var m, data := w.core.closedTxs, ReadBlockData(w.core.closedTxs, b).data;
    ReadData(m, b);
    RolledBackStores(w, b);
    ReopenedAt(w.openTxs, m, data, k);
    ListedInStore(m, data, k);
    MembersRead(m, data, b, k);
  }

  // -------------------- validation --------------------

  lemma {:induction false} DeletedHashesAt(m: TxStore, hs: seq<Hash>, k: Hash)
    ensures var r := DeleteHashes(m, hs); (k in r <==> k in m && k !in hs) && (k in r ==> r[k] == m[k])
  {
    if hs != [] {
      DeletedHashesAt(m, hs[..|hs| - 1], k);
      SnocMember(hs, k);
    }
  }

  lemma {:induction false} DeletedAggsAt(m: TxStore, aggs: seq<AggTx>, k: Hash)
    ensures var r := DeleteAggs(m, aggs);
      (k in r <==> k in m && k !in Members(aggs) && !Names(aggs, k)) && (k in r ==> r[k] == m[k])
  {
    if aggs != [] {
      var n := |aggs| - 1;
      DeletedAggsAt(m, aggs[..n], k);
      DeletedHashesAt(DeleteAggs(m, aggs[..n]), aggs[n].members, k);
      NamesSnoc(aggs, k);
      assert k in Members(aggs) <==> k in Members(aggs[..n]) || k in aggs[n].members;
    }
  }

  lemma ClosedOpenAt(m: TxStore, data: BlockData, k: Hash)
    ensures var r := CloseOpen(m, data);
      (k in r <==> k in m && !Listed(data, k) && k !in Members(data.aggTxs)) && (k in r ==> r[k] == m[k])
  {
    hide DeleteTxs, DeleteAggs, BlockTxs, HashesOf, Members, Names;
    DeletedAt(m, BlockTxs(data), k);
    DeletedAggsAt(DeleteTxs(m, BlockTxs(data)), data.aggTxs, k);
  }

  // The hash is a member of one of the aggregations as they were fetched.
  ghost predicate FetchedInside(data: BlockData, k: Hash) { exists agg <- data.aggTxs :: k in agg.members }

  // A validated block: what it lists and the members of its aggregations are closed, and none of them is open any more;
  // everything else is closed or open as it was, but for the marks of members.
  lemma ValidationCloses(w: World, b: Block, env: Env)
    requires WellKeyed(w.openTxs) && WellKeyed(w.core.closedTxs) && ValidateOne(w, b, env).Accepted?
    ensures FetchTransactions(w, b, env).DataFound?
    ensures var w', data := ValidateOne(w, b, env).world, FetchTransactions(w, b, env).data;
      forall k ::
        (if k in BlockHashes(b) || FetchedInside(data, k)
         then k in w'.core.closedTxs && k !in w'.openTxs
         else && (k in w'.core.closedTxs <==> k in w.core.closedTxs)
              && (k in w.core.closedTxs ==> w'.core.closedTxs[k] == w.core.closedTxs[k])
              && (k in w'.openTxs <==> k in w.openTxs) && (k in w.openTxs ==> w'.openTxs[k] == w.openTxs[k]))
  {
    hide FetchTransactions, FreshStore, CloseBlock, CloseOpen, BlockTxs, HashesOf, Aggs, Members, Names, NoDuplicates,
         FetchedInside;
    var data := FetchTransactions(w, b, env).data;
    FetchedData(w, b, env);
    ValidatedStores(w, b, env);
    forall k
      ensures var m, o := CloseBlock(w.core.closedTxs, data), CloseOpen(w.openTxs, data);
        if k in BlockHashes(b) || FetchedInside(data, k) then k in m && k !in o
        else && (k in m <==> k in w.core.closedTxs) && (k in w.core.closedTxs ==> m[k] == w.core.closedTxs[k])
             && (k in o <==> k in w.openTxs) && (k in w.openTxs ==> o[k] == w.openTxs[k])
    {
      ClosedOpenAt(w.openTxs, data, k);
      InMembers(data.aggTxs, k);
      NamedHashes(data.aggTxs, k);
      assert FetchedInside(data, k) <==> k in Members(data.aggTxs) by { InMembersIs(data, k); }
      assert Listed(data, k) <==> k in BlockHashes(b);
      ClosedAt(w.core.closedTxs, data, k);
    }
  }

  lemma InMembersIs(data: BlockData, k: Hash)
    ensures FetchedInside(data, k) <==> k in Members(data.aggTxs)
  {
    InMembers(data.aggTxs, k);
  }

  lemma ClosedAt(m: TxStore, data: BlockData, k: Hash)
    requires FreshStore(m, data)
    ensures var r := CloseBlock(m, data);
      if Listed(data, k) || k in Members(data.aggTxs) then k in r
      else (k in r <==> k in m) && (k in m ==> r[k] == m[k])
  {
    hide CloseAggs, WriteTxs, BlockTxs, HashesOf, Members, Names;
    ListedAt(m, BlockTxs(data), k);
    ClosedAggsAt(WriteTxs(m, BlockTxs(data)), data.members, data.aggTxs, data.block.hashWithoutTx, k);
  }

  lemma ValidatedStores(w: World, b: Block, env: Env)
    requires ValidateOne(w, b, env).Accepted?
    ensures FetchTransactions(w, b, env).DataFound? && NoDuplicates(BlockHashes(b))
    ensures var w', data := ValidateOne(w, b, env).world, FetchTransactions(w, b, env).data;
      w'.core.closedTxs == CloseBlock(w.core.closedTxs, data) && w'.openTxs == CloseOpen(w.openTxs, data)
  {
    hide FetchTransactions, CloseBlock, CloseOpen, ValidateState, CollectStatistics;
    var data := FetchTransactions(w, b, env).data;
    var core := ApplyBlock(w.core, data, env.difficulty).core;
    EmptyingKeepsRest(w.(core := core, openTxs := CloseOpen(w.openTxs, data),
                         closedBlocks := w.closedBlocks[data.block.hash := data.block]), env.visits, data.block.height);
  }

  lemma {:induction false} EmptyingKeepsRest(w: World, visits: seq<Hash>, height: uint32)
    ensures OnlyBuckets(w, EmptyOldBlocks(w, visits, height))
  {
    hide BlockReadyToAggregate;
    if visits != [] {
      EmptyingKeepsRest(w, visits[..|visits| - 1], height);
    }
  }

  // The transaction with its mark set.
  ghost predicate MarkedCopy(tx: Tx, other: Tx) {
    if tx.FundsT? then other == FundsT(tx.funds.(aggregated := true))
    else if tx.AggT? then other == AggT(tx.agg.(aggregated := true)) else other == tx
  }

  // How a transaction is closed under hash k when the fetched block is validated. An aggregation is given the block. A
  // member is marked, and a new funds transaction among them is given the block as well. What is listed and no member
  // is closed as it was fetched.
  ghost predicate ClosedAs(data: BlockData, before: TxStore, after: TxStore, k: Hash) {
    var hash, inside := data.block.hashWithoutTx, FetchedInside(data, k);
    if Names(data.aggTxs, k) then
      && k in after && after[k].AggT?
      && exists i :: 0 <= i < |data.aggTxs| && data.aggTxs[i].hash == k
           && after[k].agg == data.aggTxs[i].(block := hash, aggregated := after[k].agg.aggregated)
    else if k in before then k in after && if inside then MarkedCopy(before[k], after[k]) else after[k] == before[k]
    else if k in HashesOf(BlockTxs(data)) then
      k in after && exists tx <- BlockTxs(data) :: tx.Hash() == k && if inside then MarkedCopy(tx, after[k])
                                                                      else after[k] == tx
    else if inside then
      && k in after && k in data.members
      && if data.members[k].FundsT?
         then after[k] == FundsT(data.members[k].funds.(block := hash, aggregated := true))
         else MarkedCopy(data.members[k], after[k])
    else k !in after
  }

  lemma ClosedValues(w: World, b: Block, env: Env, k: Hash)
    requires WellKeyed(w.openTxs) && WellKeyed(w.core.closedTxs) && ValidateOne(w, b, env).Accepted?
    ensures FetchTransactions(w, b, env).DataFound?
    ensures ClosedAs(FetchTransactions(w, b, env).data, w.core.closedTxs, ValidateOne(w, b, env).world.core.closedTxs,
      k)
  {
    hide FetchTransactions, FreshStore, CloseAggs, WriteTxs, BlockTxs, HashesOf, Aggs, Members, Names, NoDuplicates,
         FetchedInside, ValidateOne, BlockHashes;
    ValidatedStores(w, b, env);
    var data := FetchTransactions(w, b, env).data;
    FetchedData(w, b, env);
    FreshAt(w.core.closedTxs, data, k);
    var m := WriteTxs(w.core.closedTxs, BlockTxs(data));
    WrittenAt(w.core.closedTxs, BlockTxs(data), k);
    ClosedAggsAt(m, data.members, data.aggTxs, data.block.hashWithoutTx, k);
    InMembersIs(data, k);
    if Names(data.aggTxs, k) {
      ClosedAggIs(m, data.members, data.aggTxs, data.block.hashWithoutTx, k);
    }
  }

  lemma FreshAt(m: TxStore, data: BlockData, k: Hash)
    requires FreshStore(m, data)
    ensures k in data.members <==> k in Members(data.aggTxs) && k !in m
    ensures k in m ==> k !in HashesOf(BlockTxs(data))
    ensures k in data.members ==> data.members[k].FundsT? || data.members[k].AggT?
  {
    hide Members, BlockTxs;
  }

  // -------------------- nothing is lost --------------------

  ghost predicate Known(w: World, k: Hash) { k in w.openTxs || k in w.core.closedTxs }

  ghost predicate KeepsKnown(w: World, w': World) { forall k :: Known(w, k) ==> Known(w', k) }

  ghost predicate Keyed(w: World) { WellKeyed(w.openTxs) && WellKeyed(w.core.closedTxs) }

  lemma RollbackLosesNothing(w: World, b: Block)
    requires Keyed(w) && RollbackOne(w, b).Accepted?
    ensures KeepsKnown(w, RollbackOne(w, b).world) && Keyed(RollbackOne(w, b).world)
  {
    hide RollbackOne, BlockHashes, SameButMark;
    var w' := RollbackOne(w, b).world;
    RolledBackKeyed(w, b);
    forall k ensures (Known(w, k) ==> Known(w', k)) && (k in w'.openTxs ==> w'.openTxs[k].Hash() == k) {
      RollbackReopens(w, b, k);
    }
  }

  lemma RolledBackKeyed(w: World, b: Block)
    requires Keyed(w) && RollbackOne(w, b).Accepted?
    ensures WellKeyed(RollbackOne(w, b).world.core.closedTxs)
  {
    hide ReadBlockData, ReopenOpen, RollbackOne, UnmarkAggs, DeleteTxs, DropAggs, BlockTxs, Members, Names, HashesOf;
    RolledBackStores(w, b);
    var m, data := w.core.closedTxs, ReadBlockData(w.core.closedTxs, b).data;
    var hash := data.block.hashWithoutTx;
    var m1 := UnmarkAggs(m, data.aggTxs, hash);
    forall k ensures k in ReopenClosed(m, data) ==> ReopenClosed(m, data)[k].Hash() == k {
      UnmarkedAggsAt(m, data.aggTxs, hash, k);
      DeletedAt(m1, BlockTxs(data), k);
      DroppedAggsAt(DeleteTxs(m1, BlockTxs(data)), data.aggTxs, hash, k);
    }
  }

  lemma {:induction false} RollbacksLoseNothing(w: World, blocks: seq<Block>)
    requires Keyed(w) && !RollbackAll(w, blocks).Stuck?
    ensures KeepsKnown(w, RollbackAll(w, blocks).world) && Keyed(RollbackAll(w, blocks).world)
    decreases blocks
  {
    hide RollbackOne, Keyed;
    if blocks != [] {
      if RollbackOne(w, blocks[0]).Accepted? {
        RollbackLosesNothing(w, blocks[0]);
        RollbacksLoseNothing(RollbackOne(w, blocks[0]).world, blocks[1..]);
      } else {
        RefusedRollback(w, blocks[0]);
      }
    }
  }

  lemma RefusedRollback(w: World, b: Block)
    requires RollbackOne(w, b).Rejected?
    ensures RollbackOne(w, b).world == w
  {
  }

  lemma ValidationLosesNothing(w: World, b: Block, env: Env)
    requires Keyed(w) && !ValidateOne(w, b, env).Stuck?
    ensures KeepsKnown(w, ValidateOne(w, b, env).world) && Keyed(ValidateOne(w, b, env).world)
  {
    hide ValidateOne, BlockHashes, FetchTransactions, FetchedInside, CloseBlock, FreshStore;
    if ValidateOne(w, b, env).Accepted? {
      ValidationCloses(w, b, env);
      ValidatedStores(w, b, env);
      FetchedData(w, b, env);
      ClosedKeys(w.core.closedTxs, FetchTransactions(w, b, env).data);
      ClosedOpenWellKeyed(w.openTxs, FetchTransactions(w, b, env).data);
    } else {
      RefusedBlock(w, b, env);
    }
  }

  lemma RefusedBlock(w: World, b: Block, env: Env)
    requires Keyed(w) && ValidateOne(w, b, env).Rejected?
    ensures var w' := ValidateOne(w, b, env).world;
      w'.openTxs == w.openTxs && w'.core.closedTxs.Keys == w.core.closedTxs.Keys && WellKeyed(w'.core.closedTxs)
  {
    hide FetchTransactions, ValidateState, CollectStatistics, UnmarkAggs, ReactivateAggs, CloseBlock, PreValidate;
    if FetchTransactions(w, b, env).DataFound? {
      var data := FetchTransactions(w, b, env).data;
      var unmarked := UnmarkAggs(w.core.closedTxs, data.aggTxs, data.block.hashWithoutTx);
      forall k ensures k in unmarked <==> k in w.core.closedTxs ensures k in unmarked ==> unmarked[k].Hash() == k {
        UnmarkedAggsAt(w.core.closedTxs, data.aggTxs, data.block.hashWithoutTx, k);
      }
      assert unmarked.Keys == w.core.closedTxs.Keys;
    }
  }

  lemma {:induction false} ValidationsLoseNothing(w: World, blocks: seq<Block>, env: Env)
    requires Keyed(w) && !ValidateAll(w, blocks, env).Stuck?
    ensures KeepsKnown(w, ValidateAll(w, blocks, env).world) && Keyed(ValidateAll(w, blocks, env).world)
    decreases blocks
  {
    hide ValidateOne, Keyed;
    if blocks != [] {
      ValidationLosesNothing(w, blocks[0], env);
      if ValidateOne(w, blocks[0], env).Accepted? {
        ValidationsLoseNothing(ValidateOne(w, blocks[0], env).world, blocks[1..], env);
      }
    }
  }

  // No call of validate loses a transaction, whether it extends the chain, reorganises it or is turned away: what was
  // open or closed before is open or closed after.
  lemma CallLosesNothing(w: World, b: Block, env: Env)
    requires Keyed(w) && !Validate(w, b, env).Stuck?
    ensures KeepsKnown(w, Validate(w, b, env).world) && Keyed(Validate(w, b, env).world)
  {
    hide GetBlockSequences, RollbackAll, ValidateAll;
    var s := GetBlockSequences(w, b, env);
    if b.hash !in w.closedBlocks && s.Sequences? {
      var w0 := w.(stash := s.stash);
      RollbacksLoseNothing(w0, s.toRollback);
      if RollbackAll(w0, s.toRollback).Accepted? {
        ValidationsLoseNothing(RollbackAll(w0, s.toRollback).world, s.toValidate, env);
      }
    }
  }
}
