/** Whole runs: the node's state is the replay of its active chain, every transaction occurs once on
that chain, and every block of it stays reachable from the tip. */
module Runs {
  import opened Words
  import opened Options
  import opened Protocol
  import opened Transactions
  import opened ClosedAggregations
  import opened AggregatedRollback
  import opened Ledger
  import opened SystemParameters
  import opened Chain
  import opened Node

  // The state right after the genesis block.
  datatype Genesis = Genesis(core: Core, block: Block, difficulty: Difficulty)

  ghost function Replay(g: Genesis, chain: seq<BlockData>): CoreOutcome {
    if chain == [] then CoreDone(g.core)
    else match Replay(g, chain[..|chain| - 1])
      case CoreDone(c) => ApplyBlock(c, chain[|chain| - 1], g.difficulty)
      case other => other
  }

  // Every block of the chain applies to the replay of those before it, with fresh transactions.
  ghost predicate Replays(g: Genesis, chain: seq<BlockData>) {
    chain == [] ||
    (var prefix, data := chain[..|chain| - 1], chain[|chain| - 1];
     Replays(g, prefix) && Replay(g, prefix).CoreDone? && FreshBlock(Replay(g, prefix).core, data)
       && Replay(g, chain).CoreDone?)
  }

  // The active chain's blocks, genesis first.
  ghost function Blocks(g: Genesis, chain: seq<BlockData>): seq<Block> {
    [g.block] + seq(|chain|, i requires 0 <= i < |chain| => chain[i].block)
  }

  // SHA-3 hashes, with and without transactions, tell the blocks of a chain apart.
  ghost predicate DistinctHashes(blocks: seq<Block>) {
    forall i, j :: 0 <= i < j < |blocks| ==>
      blocks[i].hash != blocks[j].hash && blocks[i].hashWithoutTx != blocks[j].hashWithoutTx
  }

  // Every block names its parent by both hashes.
  ghost predicate Linked(blocks: seq<Block>) {
    forall i :: 0 < i < |blocks| ==>
      blocks[i].prevHash == blocks[i - 1].hash && blocks[i].prevHashWithoutTx == blocks[i - 1].hashWithoutTx
  }

  // The same block, but for the two lists that emptying and reactivation change, their counters and the mark.
  ghost predicate SeenAs(b: Block, c: Block) {
    b == c.(aggregated := b.aggregated, fundsTxData := b.fundsTxData, aggTxData := b.aggTxData,
            nrFundsTx := b.nrFundsTx,
            nrAggTx := b.nrAggTx)
  }

  // The block is in exactly one of the two closed stores: whole, emptied, or brought back.
  ghost predicate Stored(w: World, b: Block) {
    || (b.hash in w.closedBlocks && SeenAs(w.closedBlocks[b.hash], b) && b.hashWithoutTx !in w.closedBlocksWithoutTx)
    || (b.hash !in w.closedBlocks && b.hashWithoutTx in w.closedBlocksWithoutTx
      && SeenAs(w.closedBlocksWithoutTx[b.hashWithoutTx], b))
  }

  // As it was validated.
  ghost predicate Whole(w: World, b: Block) { b.hash in w.closedBlocks && w.closedBlocks[b.hash] == b }

  // The closed stores hold the given blocks and no others.
  ghost predicate StoresExactly(w: World, blocks: seq<Block>) {
    && (forall i :: 0 <= i < |blocks| ==> Stored(w, blocks[i]))
    && (forall h :: h in w.closedBlocks ==> exists i :: 0 <= i < |blocks| && blocks[i].hash == h)
    && (forall h :: h in w.closedBlocksWithoutTx ==> exists i :: 0 <= i < |blocks| && blocks[i].hashWithoutTx == h)
  }

  ghost predicate GenesisOk(g: Genesis) {
    && g.core.Valid() && g.block.height == 0
    && forall i :: 0 <= i < |g.core.params| ==> g.core.params[i].blockHash == g.block.hash
  }

  // What holds between any two blocks, during a reorganisation too.
  ghost predicate Follows(g: Genesis, w: World, chain: seq<BlockData>) {
    && GenesisOk(g) && Replays(g, chain) && Replay(g, chain) == CoreDone(w.core)
    && DistinctHashes(Blocks(g, chain)) && Linked(Blocks(g, chain)) && StoresExactly(w, Blocks(g, chain))
    && g.block.hash in w.closedBlocks
    && WellKeyed(w.openTxs)
  }

  // The tip is not among the emptied blocks.
  ghost predicate TipWhole(g: Genesis, w: World, chain: seq<BlockData>) {
    Blocks(g, chain)[|chain|].hash in w.closedBlocks
  }

  // What holds whenever no validation is going on.
  ghost predicate Inv(g: Genesis, w: World, chain: seq<BlockData>) {
    Follows(g, w, chain) && TipWhole(g, w, chain)
    && w.lastBlock == Some(w.closedBlocks[Blocks(g, chain)[|chain|].hash])
  }

  // -------------------- replay --------------------

  lemma {:induction false} ReplayPrefix(g: Genesis, chain: seq<BlockData>, n: nat)
    requires Replays(g, chain) && n <= |chain|
    ensures Replays(g, chain[..n]) && Replay(g, chain[..n]).CoreDone?
    decreases |chain|
  {
    hide ApplyBlock, FreshBlock;
    if n < |chain| {
      ReplayPrefix(g, chain[..|chain| - 1], n);
      assert chain[..|chain| - 1][..n] == chain[..n];
    } else {
      assert chain[..n] == chain;
    }
  }

  ghost predicate HashOfOne(h: Hash, blocks: seq<Block>) { exists j :: 0 <= j < |blocks| && blocks[j].hash == h }

  // Every entry of the parameter history carries the hash of one of the blocks.
  ghost predicate ParamsFrom(params: seq<Parameters>, blocks: seq<Block>) {
    forall i :: 0 <= i < |params| ==> HashOfOne(params[i].blockHash, blocks)
  }

  lemma ParamsFromMore(params: seq<Parameters>, params': seq<Parameters>, blocks: seq<Block>, b: Block)
    requires ParamsFrom(params, blocks)
    requires params' == params
      || (|params'| == |params| + 1 && params'[..|params|] == params && params'[|params|].blockHash == b.hash)
    ensures ParamsFrom(params', blocks + [b])
  {
    forall i | 0 <= i < |params'| ensures HashOfOne(params'[i].blockHash, blocks + [b]) {
      if i < |params| {
        assert params'[i] == params[i];
        var j :| 0 <= j < |blocks| && blocks[j].hash == params[i].blockHash;
        assert (blocks + [b])[j] == blocks[j];
      } else {
        assert (blocks + [b])[|blocks|] == b;
      }
    }
  }

  lemma {:induction false} ReplayValid(g: Genesis, chain: seq<BlockData>)
    requires GenesisOk(g) && Replays(g, chain)
    ensures Replay(g, chain).CoreDone? && Replay(g, chain).core.Valid()
    ensures ParamsFrom(Replay(g, chain).core.params, Blocks(g, chain))
  {
    hide ApplyBlock, FreshBlock, Core.Valid;
    if chain == [] {
      forall i | 0 <= i < |g.core.params| ensures HashOfOne(g.core.params[i].blockHash, Blocks(g, chain)) {
        assert Blocks(g, chain)[0].hash == g.core.params[i].blockHash;
      }
    } else {
      var prefix, data := chain[..|chain| - 1], chain[|chain| - 1];
      ReplayValid(g, prefix);
      var c := Replay(g, prefix).core;
      ApplyKeepsValid(c, data, g.difficulty);
      AppliedParams(c, data, g.difficulty);
      ParamsFromMore(c.params, Replay(g, chain).core.params, Blocks(g, prefix), data.block);
      BlocksSnoc(g, prefix, data);
      assert prefix + [data] == chain;
    }
  }

  lemma BlocksSnoc(g: Genesis, chain: seq<BlockData>, data: BlockData)
    ensures Blocks(g, chain + [data]) == Blocks(g, chain) + [data.block]
  {
  }

  lemma AppliedParams(c: Core, data: BlockData, difficulty: Difficulty)
    requires ApplyBlock(c, data, difficulty).CoreDone?
    ensures var ps := ApplyBlock(c, data, difficulty).core.params;
      ps == c.params
        || (|ps| == |c.params| + 1 && ps[..|c.params|] == c.params && ps[|c.params|].blockHash == data.block.hash)
  {
  }

  // -------------------- rollback --------------------

  // Nothing is lost from the bucket of whole blocks.
  ghost predicate KeepsBlocks(w: World, w': World) {
    forall h :: h in w.closedBlocks ==> h in w'.closedBlocks && w'.closedBlocks[h] == w.closedBlocks[h]
  }

  ghost predicate KeepsOthers(w: World, w': World, but: Hash) {
    forall h :: h in w.closedBlocks && h != but ==> h in w'.closedBlocks && w'.closedBlocks[h] == w.closedBlocks[h]
  }

  lemma RollbackStep(g: Genesis, w: World, chain: seq<BlockData>)
    requires chain != [] && Follows(g, w, chain) && Whole(w, chain[|chain| - 1].block)
    requires BlockRollsBack(Replay(g, chain[..|chain| - 1]).core, chain[|chain| - 1])
    ensures RollbackOne(w, chain[|chain| - 1].block).Accepted?
    ensures var w' := RollbackOne(w, chain[|chain| - 1].block).world;
      && Follows(g, w', chain[..|chain| - 1])
      && KeepsOthers(w, w', chain[|chain| - 1].block.hash)
      && (TipWhole(g, w', chain[..|chain| - 1]) ==> Inv(g, w', chain[..|chain| - 1]))
  {
    hide ApplyBlock, FreshBlock, Core.Valid, RollBackData, BlockRollsBack, ReadBlockData, Stored, WriteToReceivedStash,
         Members, ReopenOpen, SameUpToMarks, ReactivateAggs, StoresExactly, DistinctHashes, Linked;
    var prefix, data := chain[..|chain| - 1], chain[|chain| - 1];
    ReplayValid(g, chain);
    ReplayValid(g, prefix);
    var c := Replay(g, prefix).core;
    RollbackInvertsBlock(c, data, g.difficulty);
    var read := AppliedReadsBack(c, data, g.difficulty);
    SameData(data, read);
    var w1 := ReactivateAggs(w, read.aggTxs, data.block.hashWithoutTx);
    var w' := RollbackOne(w, data.block).world;
    BlocksSnoc(g, prefix, data);
    assert prefix + [data] == chain;
    ReactivatingAggsKeepsStores(w, read.aggTxs, data.block.hashWithoutTx, Blocks(g, chain));
    StoresWithoutLast(w1, w', Blocks(g, prefix), data.block);
    LinkedPrefix(Blocks(g, prefix), data.block);
    assert Blocks(g, chain)[0] == g.block && Blocks(g, chain)[|chain|] == data.block;
    ReopenedWellKeyed(w.core, read, w.openTxs);
    ParentName(g, chain);
  }

  // The tip names the block below it, and not itself.
  lemma ParentName(g: Genesis, chain: seq<BlockData>)
    requires chain != [] && Linked(Blocks(g, chain)) && DistinctHashes(Blocks(g, chain))
    ensures var n := |chain| - 1; var below, tip := Blocks(g, chain[..n])[n], chain[n].block;
      tip.prevHash == below.hash && tip.hash != below.hash && tip.hash != g.block.hash
  {
    var n := |chain| - 1;
    assert Blocks(g, chain)[n + 1] == chain[n].block && Blocks(g, chain)[n] == Blocks(g, chain[..n])[n];
    assert Blocks(g, chain)[0] == g.block;
  }

  lemma AppliedReadsBack(c: Core, data: BlockData, difficulty: Difficulty) returns (read: BlockData)
    requires FreshBlock(c, data) && ApplyBlock(c, data, difficulty).CoreDone?
    ensures ReadBlockData(ApplyBlock(c, data, difficulty).core.closedTxs, data.block) == DataFound(read)
    ensures SameUpToMarks(data, read)
  {
    hide FreshBlock, ReadBlockData, CloseBlock, SameUpToMarks;
    read := RollbackReadsBack(c, data);
  }

  lemma SameData(data: BlockData, read: BlockData)
    requires SameUpToMarks(data, read)
    ensures read.block == data.block
  {
  }

  lemma LinkedPrefix(blocks: seq<Block>, b: Block)
    requires Linked(blocks + [b])
    ensures Linked(blocks)
  {
    assert forall i :: 0 <= i < |blocks| ==> blocks[i] == (blocks + [b])[i];
  }

  lemma ReopenedWellKeyed(c: Core, data: BlockData, openTxs: TxStore)
    requires c.Valid() && WellKeyed(openTxs)
    ensures WellKeyed(ReopenOpen(openTxs, c.closedTxs, data))
  {
    hide BlockTxs, UnmarkAggs, DeleteTxs, TakeAggs, Members;
    var hash := data.block.hashWithoutTx;
    WrittenWellKeyed(openTxs, BlockTxs(data));
    var m := UnmarkAggs(c.closedTxs, data.aggTxs, hash);
    forall k ensures k in m ==> m[k].Hash() == k {
      UnmarkedAggsAt(c.closedTxs, data.aggTxs, hash, k);
    }
    DeletedWellKeyed(m, BlockTxs(data));
    TakenWellKeyed(WriteTxs(openTxs, BlockTxs(data)), DeleteTxs(m, BlockTxs(data)), data.aggTxs, hash);
  }

  lemma {:induction false} TakenMembersWellKeyed(o: TxStore, m: TxStore, hs: seq<Hash>, hash: Hash)
    requires WellKeyed(o) && WellKeyed(m)
    ensures WellKeyed(TakeMembers(o, m, hs, hash))
  {
    if hs != [] {
      TakenMembersWellKeyed(o, m, hs[..|hs| - 1], hash);
      DroppedMembersAt(m, hs[..|hs| - 1], hash, hs[|hs| - 1]);
    }
  }

  lemma {:induction false} TakenWellKeyed(o: TxStore, m: TxStore, aggs: seq<AggTx>, hash: Hash)
    requires WellKeyed(o) && WellKeyed(m)
    ensures WellKeyed(TakeAggs(o, m, aggs, hash))
  {
    hide TakeMembers, DropAggs, Members;
    if aggs != [] {
      var n := |aggs| - 1;
      TakenWellKeyed(o, m, aggs[..n], hash);
      var left := DropAggs(m, aggs[..n], hash);
      forall k ensures k in left ==> left[k].Hash() == k {
        DroppedAggsAt(m, aggs[..n], hash, k);
      }
      TakenMembersWellKeyed(TakeAggs(o, m, aggs[..n], hash), left, aggs[n].members, hash);
    }
  }

  lemma {:induction false} WrittenWellKeyed(m: TxStore, txs: seq<Tx>)
    requires WellKeyed(m)
    ensures WellKeyed(WriteTxs(m, txs))
  {
    if txs != [] {
      WrittenWellKeyed(m, txs[..|txs| - 1]);
    }
  }

  // -------------------- moves between the buckets --------------------

  lemma ReactivatedIsSeenAs(b: Block, c: Block, m: TxStore, k: Hash)
    requires SeenAs(b, c)
    ensures SeenAs(Reactivated(b, m, k), c)
  {
  }

  lemma EmptiedIsSeenAs(b: Block, c: Block)
    requires SeenAs(b, c)
    ensures SeenAs(Emptied(b), c)
  {
  }

  // A block that was emptied and brought back lists what is closed under it, with counters of zero, and is otherwise
  // the block it was.
  lemma BroughtBack(b: Block, m: TxStore, k: Hash)
    requires !b.CountsNone()
    ensures var back := Reactivated(Emptied(b), m, k);
      && SeenAs(back, b) && !back.aggregated && back.nrFundsTx == back.nrAggTx == 0
      && (forall h :: h in back.fundsTxData <==> h in m && m[h].FundsT? && m[h].funds.block == k)
      && (forall h :: h in back.aggTxData <==> h in m && m[h].AggT? && m[h].agg.block == k)
  {
    hide Ascending, ClosedUnder, SortedHashes;
    var funds, aggs := ClosedUnder(m, Ascending(m.Keys), FundsKind, k), ClosedUnder(m, Ascending(m.Keys), AggKind, k);
    assert Emptied(b).fundsTxData + funds == funds && Emptied(b).aggTxData + aggs == aggs;
    assert multiset(SortedHashes(aggs)) == multiset(aggs);
    forall h
      ensures h in funds <==> h in m && m[h].FundsT? && m[h].funds.block == k
      ensures h in SortedHashes(aggs) <==> h in m && m[h].AggT? && m[h].agg.block == k
    {
      ClosedUnderIs(m, Ascending(m.Keys), FundsKind, k, h);
      ClosedUnderIs(m, Ascending(m.Keys), AggKind, k, h);
      assert h in multiset(SortedHashes(aggs)) <==> h in multiset(aggs);
    }
  }

  // It is never the block that was validated: a member closed under it brings it back, and is listed but not counted.
  lemma BroughtBackDiffers(b: Block, m: TxStore, k: Hash, h: Hash)
    requires b.Counted() && h in m && Carries(m[h], k)
    ensures Reactivated(Emptied(b), m, k) != b
  {
    hide Ascending, ClosedUnder, SortedHashes;
    var funds, aggs := ClosedUnder(m, Ascending(m.Keys), FundsKind, k), ClosedUnder(m, Ascending(m.Keys), AggKind, k);
    ClosedUnderIs(m, Ascending(m.Keys), FundsKind, k, h);
    ClosedUnderIs(m, Ascending(m.Keys), AggKind, k, h);
    assert funds != [] || aggs != [];
    var back := Reactivated(Emptied(b), m, k);
    assert |SortedHashes(Emptied(b).aggTxData + aggs)| == |Emptied(b).aggTxData + aggs| by {
      assert |multiset(SortedHashes(Emptied(b).aggTxData + aggs))| == |multiset(Emptied(b).aggTxData + aggs)|;
    }
    assert back.fundsTxData != [] || back.aggTxData != [];
    assert back.nrFundsTx == back.nrAggTx == 0;
  }

  // Bringing a block back keeps every block of the chain in exactly one bucket, and the other whole blocks as they are.
  lemma ReactivationKeepsStores(w: World, k: Hash, blocks: seq<Block>)
    requires DistinctHashes(blocks) && StoresExactly(w, blocks)
    ensures StoresExactly(Reactivate(w, k), blocks) && KeepsBlocks(w, Reactivate(w, k))
  {
    hide Reactivated, Stored;
    var w' := Reactivate(w, k);
    if k in w.closedBlocksWithoutTx {
      var j :| 0 <= j < |blocks| && blocks[j].hashWithoutTx == k;
      assert Stored(w, blocks[j]);
      var back := Reactivated(w.closedBlocksWithoutTx[k], w.core.closedTxs, k);
      ReactivatedOne(w, w', blocks[j], back, blocks[j]);
      forall i | 0 <= i < |blocks| ensures Stored(w', blocks[i]) {
        assert Stored(w, blocks[i]);
        if i != j {
          assert blocks[i].hash != blocks[j].hash && blocks[i].hashWithoutTx != k;
        }
        ReactivatedOne(w, w', blocks[j], back, blocks[i]);
      }
    }
  }

  // Moving the emptied block b back leaves it and every other block stored.
  lemma ReactivatedOne(w: World, w': World, b: Block, back: Block, other: Block)
    requires Stored(w, b) && b.hashWithoutTx in w.closedBlocksWithoutTx && Stored(w, other)
    requires back == Reactivated(w.closedBlocksWithoutTx[b.hashWithoutTx], w.core.closedTxs, b.hashWithoutTx)
    requires w'.closedBlocks == w.closedBlocks[back.hash := back]
    requires w'.closedBlocksWithoutTx == w.closedBlocksWithoutTx - {b.hashWithoutTx}
    requires other == b || (other.hash != b.hash && other.hashWithoutTx != b.hashWithoutTx)
    ensures back.hash == b.hash && b.hash !in w.closedBlocks && Stored(w', other)
  {
    ReactivatedIsSeenAs(w.closedBlocksWithoutTx[b.hashWithoutTx], b, w.core.closedTxs, b.hashWithoutTx);
  }

  lemma {:induction false} ReactivatingKeepsStores(w: World, hs: seq<Hash>, hash: Hash, blocks: seq<Block>)
    requires DistinctHashes(blocks) && StoresExactly(w, blocks)
    ensures var w' := ReactivateMembers(w, hs, hash);
      StoresExactly(w', blocks) && KeepsBlocks(w, w')
  {
    hide StoresExactly, DistinctHashes, Reactivated;
    if hs != [] {
      var before := ReactivateMembers(w, hs[..|hs| - 1], hash);
      ReactivatingKeepsStores(w, hs[..|hs| - 1], hash, blocks);
      forall k ensures StoresExactly(Reactivate(before, k), blocks) && KeepsBlocks(before, Reactivate(before, k)) {
        ReactivationKeepsStores(before, k, blocks);
      }
    }
  }

  lemma {:induction false} ReactivatingAggsKeepsStores(w: World, aggs: seq<AggTx>, hash: Hash, blocks: seq<Block>)
    requires DistinctHashes(blocks) && StoresExactly(w, blocks)
    ensures var w' := ReactivateAggs(w, aggs, hash);
      StoresExactly(w', blocks) && KeepsBlocks(w, w')
    decreases aggs
  {
    hide StoresExactly, DistinctHashes, ReactivateMembers;
    if aggs != [] {
      var n := |aggs| - 1;
      ReactivatingKeepsStores(w, aggs[n].members, hash, blocks);
      ReactivatingAggsKeepsStores(ReactivateMembers(w, aggs[n].members, hash), aggs[..n], hash, blocks);
    }
  }

  // A member closed in block k brings it back, unless the rollback undoes the member.
  predicate CallsFor(m: TxStore, h: Hash, hash: Hash, k: Hash) {
    h in m && ((m[h].FundsT? && m[h].funds.block == k != hash) || (m[h].AggT? && m[h].agg.block == k))
  }

  lemma MemberBringsBack(w: World, h: Hash, hash: Hash, k: Hash)
    ensures k in ReactivateFor(w, h, hash).closedBlocksWithoutTx
       <==> k in w.closedBlocksWithoutTx && !CallsFor(w.core.closedTxs, h, hash, k)
  {
    hide Reactivated;
  }

  lemma {:induction false} MembersBringBack(w: World, hs: seq<Hash>, hash: Hash, k: Hash)
    ensures k in ReactivateMembers(w, hs, hash).closedBlocksWithoutTx
       <==> k in w.closedBlocksWithoutTx && forall h <- hs :: !CallsFor(w.core.closedTxs, h, hash, k)
  {
    hide ReactivateFor, CallsFor;
    if hs != [] {
      MembersBringBack(w, hs[..|hs| - 1], hash, k);
      MemberBringsBack(ReactivateMembers(w, hs[..|hs| - 1], hash), hs[|hs| - 1], hash, k);
      assert hs == hs[..|hs| - 1] + [hs[|hs| - 1]];
    }
  }

  // Exactly the emptied blocks in which a member was closed that is not undone leave the emptied ones.
  lemma {:induction false} BringsBackExactly(w: World, aggs: seq<AggTx>, hash: Hash, k: Hash)
    ensures k in ReactivateAggs(w, aggs, hash).closedBlocksWithoutTx
       <==> k in w.closedBlocksWithoutTx && forall h <- Members(aggs) :: !CallsFor(w.core.closedTxs, h, hash, k)
    decreases aggs
  {
    hide ReactivateMembers, CallsFor;
    if aggs != [] {
      var n := |aggs| - 1;
      var w' := ReactivateMembers(w, aggs[n].members, hash);
      MembersBringBack(w, aggs[n].members, hash, k);
      BringsBackExactly(w', aggs[..n], hash, k);
      assert Members(aggs) == Members(aggs[..n]) + aggs[n].members;
    }
  }

  // Deleting the last, whole block from its store.
  lemma StoresWithoutLast(w: World, w': World, blocks: seq<Block>, b: Block)
    requires DistinctHashes(blocks + [b]) && StoresExactly(w, blocks + [b]) && b.hash in w.closedBlocks
    requires w'.closedBlocks == w.closedBlocks - {b.hash} && w'.closedBlocksWithoutTx == w.closedBlocksWithoutTx
    ensures DistinctHashes(blocks) && StoresExactly(w', blocks)
  {
    hide DistinctHashes;
    var all, n := blocks + [b], |blocks|;
    DistinctWithoutLast(blocks, b);
    assert forall i :: 0 <= i < n ==> blocks[i] == all[i];
    assert all[n] == b && Stored(w, all[n]);
    forall i | 0 <= i < n ensures Stored(w', blocks[i]) {
      assert Stored(w, all[i]) && all[i].hash != b.hash;
    }
    forall h | h in w'.closedBlocks ensures exists i :: 0 <= i < n && blocks[i].hash == h {
      var i :| 0 <= i < |all| && all[i].hash == h;
      assert i < n && blocks[i].hash == h;
    }
    forall h | h in w'.closedBlocksWithoutTx ensures exists i :: 0 <= i < n && blocks[i].hashWithoutTx == h {
      var i :| 0 <= i < |all| && all[i].hashWithoutTx == h;
      assert i < n && blocks[i].hashWithoutTx == h;
    }
  }

  lemma DistinctWithoutLast(blocks: seq<Block>, b: Block)
    requires DistinctHashes(blocks + [b])
    ensures DistinctHashes(blocks)
    ensures forall i :: 0 <= i < |blocks| ==> blocks[i].hash != b.hash && blocks[i].hashWithoutTx != b.hashWithoutTx
  {
    var all := blocks + [b];
    assert forall i :: 0 <= i < |blocks| ==> blocks[i] == all[i];
    assert all[|blocks|] == b;
  }

  // -------------------- validation of one block --------------------

  lemma {:induction false} FetchedTxs(w: World, hs: seq<Hash>, kind: Kind, env: Env)
    requires WellKeyed(w.openTxs) && FetchTxs(w, hs, kind, env).Found?
    ensures HashesOf(FetchTxs(w, hs, kind, env).txs) == hs
    ensures forall i :: 0 <= i < |hs| ==> hs[i] !in w.core.closedTxs
  {
    if hs != [] {
      FetchedTxs(w, hs[..|hs| - 1], kind, env);
      assert hs == hs[..|hs| - 1] + [hs[|hs| - 1]];
    }
  }

  lemma {:induction false} FetchedMembers(w: World, hs: seq<Hash>, members: TxStore, env: Env)
    requires WellKeyed(w.openTxs) && WellKeyed(members) && FetchMembers(w, hs, members, env).AggsFound?
    requires forall k :: k in members ==> IsMember(members[k])
    ensures var more := FetchMembers(w, hs, members, env).members;
      && (forall k :: k in more <==> k in members || (k in hs && k !in w.core.closedTxs))
      && WellKeyed(more) && forall k :: k in more ==> IsMember(more[k])
  {
    if hs != [] {
      var rest := hs[..|hs| - 1];
      FetchedMembers(w, rest, members, env);
      assert hs == rest + [hs[|hs| - 1]];
    }
  }

  lemma {:induction false} FetchedAggs(w: World, hs: seq<Hash>, env: Env)
    requires WellKeyed(w.openTxs) && WellKeyed(w.core.closedTxs) && FetchAggData(w, hs, env).AggsFound?
    ensures var r := FetchAggData(w, hs, env);
      && HashesOf(Aggs(r.aggs)) == hs
      && (forall k :: k in r.members <==> k in Members(r.aggs) && k !in w.core.closedTxs)
      && WellKeyed(r.members) && forall k :: k in r.members ==> IsMember(r.members[k])
  {
    hide FetchMembers, FetchAgg, HashesOf, Aggs, Members, WellKeyed;
    if hs == [] {
      NoAggs();
    } else {
      var n := |hs| - 1;
      FetchedAggs(w, hs[..n], env);
      var before, after := FetchAggData(w, hs[..n], env), FetchAggData(w, hs, env);
      var agg := FetchAgg(w, hs[n], env).txs[0].agg;
      FetchedMembers(w, agg.members, before.members, env);
      FetchedAggHash(w, hs[n], env);
      AggsSnoc(before.aggs, agg);
      assert hs == hs[..n] + [hs[n]];
    }
  }

  lemma NoAggs()
    ensures HashesOf(Aggs([])) == [] && Members([]) == [] && WellKeyed(map[])
  {
  }

  lemma FetchedAggHash(w: World, h: Hash, env: Env)
    requires WellKeyed(w.openTxs) && WellKeyed(w.core.closedTxs) && FetchAgg(w, h, env).Found?
    ensures FetchAgg(w, h, env).txs[0].agg.hash == h
  {
  }

  lemma AggsSnoc(aggs: seq<AggTx>, agg: AggTx)
    ensures HashesOf(Aggs(aggs + [agg])) == HashesOf(Aggs(aggs)) + [agg.hash]
    ensures forall k :: k in Members(aggs + [agg]) <==> k in Members(aggs) || k in agg.members
  {
    assert (aggs + [agg])[..|aggs|] == aggs;
  }

  lemma FetchedData(w: World, b: Block, env: Env)
    requires WellKeyed(w.openTxs) && WellKeyed(w.core.closedTxs) && FetchTransactions(w, b, env).DataFound?
    ensures var data := FetchTransactions(w, b, env).data;
      && data.block == b && Fetched(data)
      && HashesOf(BlockTxs(data)) + HashesOf(Aggs(data.aggTxs)) == BlockHashes(b)
      && (NoDuplicates(BlockHashes(b)) ==> FreshStore(w.core.closedTxs, data))
  {
    hide FetchTxs, FetchAggData, Members, NewFunds, PayingFunds, SortedByTxCount, NoDuplicates;
    FetchedTxs(w, b.accTxData, AccKind, env);
    FetchedTxs(w, b.fundsTxData, FundsKind, env);
    FetchedTxs(w, b.configTxData, ConfigKind, env);
    FetchedTxs(w, b.stakeTxData, StakeKind, env);
    FetchedAggs(w, b.aggTxData, env);
    var data := FetchTransactions(w, b, env).data;
    assert Accs(data.accTxs) == FetchTxs(w, b.accTxData, AccKind, env).txs;
    assert Funds(data.fundsTxs) == FetchTxs(w, b.fundsTxData, FundsKind, env).txs;
    assert Configs(data.configTxs) == FetchTxs(w, b.configTxData, ConfigKind, env).txs;
    assert Stakes(data.stakeTxs) == FetchTxs(w, b.stakeTxData, StakeKind, env).txs;
    BlockHashesAre(data);
    assert HashesOf(BlockTxs(data)) == b.accTxData + b.fundsTxData + b.configTxData + b.stakeTxData;
    forall i | 0 <= i < |BlockTxs(data)| ensures BlockTxs(data)[i].Hash() !in w.core.closedTxs {
      var listed := b.accTxData + b.fundsTxData + b.configTxData + b.stakeTxData;
      assert HashesOf(BlockTxs(data))[i] == listed[i];
      assert listed[i] in b.accTxData || listed[i] in b.fundsTxData || listed[i] in b.configTxData
        || listed[i] in b.stakeTxData;
    }
    if NoDuplicates(BlockHashes(b)) {
      AggsDistinct(data);
    }
  }

  ghost predicate WholeGenesis(w: World, blocks: seq<Block>) {
    blocks != [] && blocks[0].height == 0 && blocks[0].hash in w.closedBlocks
  }

  lemma EmptyingKeepsStores(w: World, h: Hash, height: uint32, blocks: seq<Block>)
    requires DistinctHashes(blocks) && StoresExactly(w, blocks)
    ensures StoresExactly(EmptyOldBlock(w, h, height), blocks)
    ensures WholeGenesis(w, blocks) ==> WholeGenesis(EmptyOldBlock(w, h, height), blocks)
  {
    hide BlockReadyToAggregate, Stored, Emptied;
    var w' := EmptyOldBlock(w, h, height);
    if h in w.closedBlocks && w' != w {
      var k :| 0 <= k < |blocks| && blocks[k].hash == h;
      assert Stored(w, blocks[k]);
      StoredWhole(w, blocks[k]);
      EmptiedIsSeenAs(w.closedBlocks[h], blocks[k]);
      forall i | 0 <= i < |blocks| ensures Stored(w', blocks[i]) {
        assert Stored(w, blocks[i]);
        if i != k {
          assert blocks[i].hash != blocks[k].hash && blocks[i].hashWithoutTx != blocks[k].hashWithoutTx;
        }
        EmptiedOne(w, w', blocks[k], blocks[i]);
      }
    }
  }

  lemma StoredWhole(w: World, b: Block)
    requires Stored(w, b) && b.hash in w.closedBlocks
    ensures SeenAs(w.closedBlocks[b.hash], b)
  {
  }

  // Moving block b between the stores leaves it and every other block stored.
  lemma EmptiedOne(w: World, w': World, b: Block, other: Block)
    requires Stored(w, b) && b.hash in w.closedBlocks && Stored(w, other)
    requires SeenAs(Emptied(w.closedBlocks[b.hash]), b)
    requires w'.closedBlocks == w.closedBlocks - {b.hash}
    requires w'.closedBlocksWithoutTx == w.closedBlocksWithoutTx[b.hashWithoutTx := Emptied(w.closedBlocks[b.hash])]
    requires other == b || (other.hash != b.hash && other.hashWithoutTx != b.hashWithoutTx)
    ensures Stored(w', other)
  {
    hide Emptied;
  }

  // A block of this height or above is not emptied.
  lemma {:induction false} EmptyingAllKeepsStores(w: World, visits: seq<Hash>, height: uint32, blocks: seq<Block>,
                                                  tip: Block)
    requires DistinctHashes(blocks) && StoresExactly(w, blocks) && Whole(w, tip) && tip.height == height
    ensures var w' := EmptyOldBlocks(w, visits, height);
      StoresExactly(w', blocks) && w'.core == w.core && w'.openTxs == w.openTxs && Whole(w', tip)
    ensures WholeGenesis(w, blocks) ==> WholeGenesis(EmptyOldBlocks(w, visits, height), blocks)
  {
    hide StoresExactly, DistinctHashes, Emptied, BlockReadyToAggregate;
    if visits != [] {
      EmptyingAllKeepsStores(w, visits[..|visits| - 1], height, blocks, tip);
      EmptyingKeepsStores(EmptyOldBlocks(w, visits[..|visits| - 1], height), visits[|visits| - 1], height, blocks);
    }
  }

  // Writing a new block whole.
  lemma StoresWithNew(w: World, w': World, blocks: seq<Block>, b: Block)
    requires DistinctHashes(blocks + [b]) && StoresExactly(w, blocks)
    requires w'.closedBlocks == w.closedBlocks[b.hash := b] && w'.closedBlocksWithoutTx == w.closedBlocksWithoutTx
    ensures StoresExactly(w', blocks + [b])
  {
    var all, n := blocks + [b], |blocks|;
    forall i | 0 <= i < |all| ensures Stored(w', all[i]) {
      if i < n {
        assert Stored(w, blocks[i]) && all[i].hash != all[n].hash && all[i] == blocks[i];
      } else {
        forall h | h in w.closedBlocksWithoutTx ensures h != b.hashWithoutTx {
          var j :| 0 <= j < n && blocks[j].hashWithoutTx == h;
          assert all[j].hashWithoutTx != all[n].hashWithoutTx;
        }
      }
    }
    forall h | h in w'.closedBlocks ensures exists i :: 0 <= i < |all| && all[i].hash == h {
      if h != b.hash {
        var i :| 0 <= i < n && blocks[i].hash == h;
        assert all[i].hash == h;
      } else {
        assert all[n].hash == h;
      }
    }
    forall h | h in w'.closedBlocksWithoutTx ensures exists i :: 0 <= i < |all| && all[i].hashWithoutTx == h {
      var i :| 0 <= i < n && blocks[i].hashWithoutTx == h;
      assert all[i].hashWithoutTx == h;
    }
  }

  lemma {:induction false} DeletedWellKeyed(m: TxStore, txs: seq<Tx>)
    requires WellKeyed(m)
    ensures WellKeyed(DeleteTxs(m, txs))
  {
    if txs != [] {
      DeletedWellKeyed(m, txs[..|txs| - 1]);
    }
  }

  lemma ClosedOpenWellKeyed(m: TxStore, data: BlockData)
    requires WellKeyed(m)
    ensures WellKeyed(CloseOpen(m, data))
  {
    hide BlockTxs;
    DeletedWellKeyed(m, BlockTxs(data));
    DeletedAggsWellKeyed(DeleteTxs(m, BlockTxs(data)), data.aggTxs);
  }

  lemma {:induction false} DeletedAggsWellKeyed(m: TxStore, aggs: seq<AggTx>)
    requires WellKeyed(m)
    ensures WellKeyed(DeleteAggs(m, aggs))
  {
    if aggs != [] {
      DeletedAggsWellKeyed(m, aggs[..|aggs| - 1]);
      DeletedHashesWellKeyed(DeleteAggs(m, aggs[..|aggs| - 1]), aggs[|aggs| - 1].members);
    }
  }

  lemma {:induction false} DeletedHashesWellKeyed(m: TxStore, hs: seq<Hash>)
    requires WellKeyed(m)
    ensures WellKeyed(DeleteHashes(m, hs))
  {
    if hs != [] {
      DeletedHashesWellKeyed(m, hs[..|hs| - 1]);
    }
  }

  lemma PostValidateKeepsStores(w: World, core: Core, data: BlockData, visits: seq<Hash>, blocks: seq<Block>)
    requires WholeGenesis(w, blocks)
    requires DistinctHashes(blocks + [data.block]) && StoresExactly(w, blocks) && WellKeyed(w.openTxs)
    ensures var w' := PostValidate(w, core, data, visits);
      && w'.core == core && w'.lastBlock == Some(data.block) && WellKeyed(w'.openTxs) && Whole(w', data.block)
      && StoresExactly(w', blocks + [data.block]) && WholeGenesis(w', blocks)
  {
    hide CloseOpen, StoresExactly, DistinctHashes, EmptyOldBlocks;
    var written :=
      w.(core := core, openTxs := CloseOpen(w.openTxs, data),
         closedBlocks := w.closedBlocks[data.block.hash := data.block]);
    ClosedOpenWellKeyed(w.openTxs, data);
    StoresWithNew(w, written, blocks, data.block);
    EmptyingAllKeepsStores(written, visits, data.block.height, blocks + [data.block], data.block);
    var w' := EmptyOldBlocks(written, visits, data.block.height);
    SameStores(w', PostValidate(w, core, data, visits), blocks + [data.block]);
    assert (blocks + [data.block])[0] == blocks[0];
  }

  lemma SameStores(w: World, w': World, blocks: seq<Block>)
    requires StoresExactly(w, blocks)
    requires w'.closedBlocks == w.closedBlocks && w'.closedBlocksWithoutTx == w.closedBlocksWithoutTx
    ensures StoresExactly(w', blocks)
  {
    assert forall i :: 0 <= i < |blocks| ==> Stored(w, blocks[i]);
  }

  lemma ValidateStep(g: Genesis, w: World, chain: seq<BlockData>, b: Block, env: Env)
    requires Follows(g, w, chain) && ValidateOne(w, b, env).Accepted? && env.difficulty == g.difficulty
    requires DistinctHashes(Blocks(g, chain) + [b]) && Linked(Blocks(g, chain) + [b])
    ensures FetchTransactions(w, b, env).DataFound?
    ensures var data := FetchTransactions(w, b, env).data;
      data.block == b && Inv(g, ValidateOne(w, b, env).world, chain + [data])
  {
    hide ApplyBlock, Core.Valid, FetchTransactions, BlockTxs, PostValidate, StoresExactly, Blocks, DistinctHashes,
         Linked, WellKeyed, Replays, Replay, FreshBlock, PreValidate;
    var data := FetchTransactions(w, b, env).data;
    FreshlyFetched(g, w, chain, b, env);
    var core := ApplyBlock(w.core, data, env.difficulty).core;
    ReplayExtends(g, chain, w.core, data);
    BlocksSnoc(g, chain, data);
    FirstAndLast(g, chain, data);
    PostValidateKeepsStores(w, core, data, env.visits, Blocks(g, chain));
  }

  lemma FreshlyFetched(g: Genesis, w: World, chain: seq<BlockData>, b: Block, env: Env)
    requires Follows(g, w, chain) && PreValidate(w, b, env) && FetchTransactions(w, b, env).DataFound?
    requires DistinctHashes(Blocks(g, chain) + [b])
    ensures FreshBlock(w.core, FetchTransactions(w, b, env).data) && FetchTransactions(w, b, env).data.block == b
  {
    hide ApplyBlock, FetchTransactions, BlockTxs, StoresExactly, Blocks, DistinctHashes, Linked, WellKeyed, Replays,
         FreshStore, Fetched, HashesOf, NoDuplicates, Aggs;
    ReplayValid(g, chain);
    assert WellKeyed(w.core.closedTxs);
    FetchedData(w, b, env);
    NewParamsHash(w.core.params, Blocks(g, chain), b);
  }

  lemma ReplayExtends(g: Genesis, chain: seq<BlockData>, c: Core, data: BlockData)
    requires Replays(g, chain) && Replay(g, chain) == CoreDone(c)
    requires FreshBlock(c, data) && ApplyBlock(c, data, g.difficulty).CoreDone?
    ensures Replays(g, chain + [data]) && Replay(g, chain + [data]) == ApplyBlock(c, data, g.difficulty)
  {
    hide ApplyBlock, FreshBlock;
    assert (chain + [data])[..|chain|] == chain;
  }

  lemma FirstAndLast(g: Genesis, chain: seq<BlockData>, data: BlockData)
    ensures Blocks(g, chain) != [] && Blocks(g, chain)[0] == g.block && |Blocks(g, chain + [data])| == |chain| + 2
    ensures Blocks(g, chain + [data])[|chain + [data]|] == data.block
  {
  }

  lemma NewParamsHash(params: seq<Parameters>, blocks: seq<Block>, b: Block)
    requires ParamsFrom(params, blocks) && DistinctHashes(blocks + [b])
    ensures forall i :: 0 <= i < |params| ==> params[i].blockHash != b.hash
  {
    var all := blocks + [b];
    forall i | 0 <= i < |params| ensures params[i].blockHash != b.hash {
      assert HashOfOne(params[i].blockHash, blocks);
      var j :| 0 <= j < |blocks| && blocks[j].hash == params[i].blockHash;
      assert all[j].hash != all[|blocks|].hash;
    }
  }
}
