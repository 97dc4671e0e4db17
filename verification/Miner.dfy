/** The miner's imperative side: fork choice, parameter and statistics histories, validation and
rollback as loops over mutable stores, each method tied to the function it implements. */
module Miner {
  import opened Words
  import opened Options
  import opened Protocol
  import opened Transactions
  import opened ClosedAggregations
  import opened AggregatedRollback
  import L = Ledger
  import Validation
  import opened SystemParameters
  import opened Chain
  import opened Node
  import opened State

  // -------------------- reversing a slice in place --------------------

  function Reversed(bs: seq<Block>): (r: seq<Block>) {
    if bs == [] then [] else [bs[|bs| - 1]] + Reversed(bs[..|bs| - 1])
  }

  lemma {:induction false} ReversedAt(bs: seq<Block>)
    ensures |Reversed(bs)| == |bs| && forall i :: 0 <= i < |bs| ==> Reversed(bs)[i] == bs[|bs| - 1 - i]
  {
    if bs != [] {
      var n := |bs| - 1;
      var rest := Reversed(bs[..n]);
      ReversedAt(bs[..n]);
      assert Reversed(bs) == [bs[n]] + rest;
      forall i | 0 <= i < |bs| ensures Reversed(bs)[i] == bs[n - i] {
        if i > 0 {
          assert rest[i - 1] == bs[..n][n - i] == bs[n - i];
        }
      }
    }
  }

  method InvertBlockArray(array': array<Block>)
    modifies array'
    ensures array'[..] == Reversed(old(array'[..]))
  {
    ghost var was := array'[..];
    var i, j := 0, array'.Length - 1;
    while i < j
      invariant 0 <= i <= j + 1 && i + j == array'.Length - 1
      invariant forall k :: 0 <= k < i || j < k < array'.Length ==> array'[k] == was[array'.Length - 1 - k]
      invariant forall k :: i <= k <= j ==> array'[k] == was[k]
    {
      array'[i], array'[j] := array'[j], array'[i];
      i, j := i + 1, j - 1;
    }
    ReversedAt(was);
  }

  // -------------------- the node --------------------

  class Miner {
    const store: Store
    var parameterSlice: History
    var globalBlockCount: int
    var localBlockCount: int
    var target: seq<uint8>
    var targetTimes: seq<Timerange>
    var currentTargetTime: Timerange
    var closedTxs: TxStore
    var openTxs: TxStore
    var closedBlocks: map<Hash, Block>
    var closedBlocksWithoutTx: map<Hash, Block>
    var lastClosedBlock: Option<Block>
    var lastBlock: Option<Block>
    var receivedStash: seq<Block>

    ghost function Statistics(): Stats
      reads this
    {
      Stats(globalBlockCount, localBlockCount, target, targetTimes, currentTargetTime)
    }

    ghost function View(): World
      reads this, store, store.state.Values
    {
      World(Core(store.View(), parameterSlice, Statistics(), closedTxs), openTxs, closedBlocks, closedBlocksWithoutTx,
            lastClosedBlock, lastBlock, receivedStash)
    }

    constructor (store: Store)
      ensures this.store == store
    {
      this.store := store;
      parameterSlice := [DEFAULT_PARAMETERS];
      globalBlockCount, localBlockCount, target, targetTimes, currentTargetTime := -1, -1, [13], [], Timerange(0, 0);
      closedTxs, openTxs, closedBlocks, closedBlocksWithoutTx := map[], map[], map[], map[];
      lastClosedBlock, lastBlock, receivedStash := None, None, [];
    }

    // -------------------- parameters and statistics --------------------

    method UnstakeBelow(minimum: uint64)
      requires store.Valid()
      modifies store.state.Values`isStaking
      ensures store.View() == Unstake(old(store.View()), minimum)
    {
      hide UnstakeAllBut;
      ghost var before := store.View();
      var pending := store.state.Keys;
      assert before.accounts.Keys == store.state.Keys;
      UnstakeEnds(before, minimum);
      while pending != {}
        invariant pending <= store.state.Keys
        invariant store.View() == UnstakeAllBut(before, minimum, pending)
        decreases |pending|
      {
        var h :| h in pending;
        var account := store.state[h];
        if account.isStaking && account.balance < minimum {
          store.SetStaking(account, false, h);
        }
        UnstakeStep(before, minimum, pending, h);
        pending := pending - {h};
      }
    }

    method CheckAndChangeParameters(parameters: Parameters, txs: seq<ConfigTx>)
      returns (changed: Parameters, change: bool)
      requires store.Valid()
      modifies store.state.Values`isStaking
      ensures SystemParameters.CheckAndChangeParameters(parameters, old(store.View()), txs)
        == ConfigResult(changed, store.View(), change)
    {
      changed, change := parameters, false;
      for i := 0 to |txs|
        invariant SystemParameters.CheckAndChangeParameters(parameters, old(store.View()), txs[..i])
          == ConfigResult(changed, store.View(), change)
      {
        assert txs[..i + 1][..i] == txs[..i];
        var tx := txs[i];
        if WithinBounds(tx.id, tx.payload) {
          changed, change := ChangeParameter(changed, tx.id, tx.payload), true;
          if tx.id == 6 {
            UnstakeBelow(tx.payload);
          }
        }
      }
      assert txs[..|txs|] == txs;
    }

    method ConfigStateChange(txs: seq<ConfigTx>, blockHash: Hash)
      requires store.Valid()
      modifies `parameterSlice, store.state.Values`isStaking
      ensures (parameterSlice, store.View())
        == SystemParameters.ConfigStateChange(old(parameterSlice), old(store.View()), txs, blockHash)
    {
      if |txs| == 0 {
        return;
      }
      var newParameters, change := CheckAndChangeParameters(Active(parameterSlice), txs);
      if change {
        parameterSlice := parameterSlice + [newParameters.(blockHash := blockHash)];
      }
    }

    method ConfigStateChangeRollback(txs: seq<ConfigTx>, blockHash: Hash) returns (crash: bool)
      modifies `parameterSlice
      ensures var ps := SystemParameters.ConfigStateChangeRollback(old(parameterSlice), txs, blockHash);
        if crash then ps == [] && parameterSlice == old(parameterSlice) else parameterSlice == ps
    {
      if |txs| == 0 || Active(parameterSlice).blockHash != blockHash {
        return false;
      }
      if |parameterSlice| == 1 {
        return true;
      }
      parameterSlice := parameterSlice[..|parameterSlice| - 1];
      crash := false;
    }

    method CollectStatistics(b: Block, difficulty: Difficulty) returns (crash: bool)
      modifies `globalBlockCount, `localBlockCount, `target, `targetTimes, `currentTargetTime, `lastBlock
      ensures SystemParameters.CollectStatistics(old(Statistics()), Active(parameterSlice), b.timestamp, difficulty)
        == if crash then StatsPanic else StatsDone(Statistics())
      ensures !crash ==> lastBlock == Some(b)
    {
      globalBlockCount := globalBlockCount + 1;
      localBlockCount := localBlockCount + 1;
      if localBlockCount >= Active(parameterSlice).diffInterval {
        currentTargetTime := currentTargetTime.(last := b.timestamp);
        if target == [] {
          return true;
        }
        var newTarget := target[|target| - 1];
        if currentTargetTime.first != 0 {
          newTarget := difficulty(currentTargetTime, Active(parameterSlice), newTarget);
        }
        target := target + [newTarget];
        targetTimes := targetTimes + [currentTargetTime];
        localBlockCount := 0;
        currentTargetTime := Timerange(b.timestamp, 0);
      }
      lastBlock := Some(b);
      crash := false;
    }

    method CollectStatisticsRollback(b: Block) returns (crash: bool)
      modifies `globalBlockCount, `localBlockCount, `target, `targetTimes, `currentTargetTime, `lastBlock
      ensures SystemParameters.CollectStatisticsRollback(old(Statistics()), Active(parameterSlice))
        == if crash then StatsPanic else StatsDone(Statistics())
      ensures !crash ==> lastBlock == if b.prevHash in closedBlocks then Some(closedBlocks[b.prevHash]) else None
    {
      globalBlockCount := globalBlockCount - 1;
      if localBlockCount == 0 && globalBlockCount != 0 {
        if target == [] || targetTimes == [] {
          return true;
        }
        localBlockCount := Active(parameterSlice).diffInterval - 1;
        target := target[..|target| - 1];
        currentTargetTime := currentTargetTime.(first := targetTimes[|targetTimes| - 1].first);
        targetTimes := targetTimes[..|targetTimes| - 1];
      } else {
        localBlockCount := localBlockCount - 1;
      }
      lastBlock := if b.prevHash in closedBlocks then Some(closedBlocks[b.prevHash]) else None;
      crash := false;
    }

    // -------------------- fork choice --------------------

    method FindInReceivedStash(h: Hash) returns (found: Option<Block>)
      ensures found == FindInStash(receivedStash, h)
    {
      for i := 0 to |receivedStash|
        invariant FindInStash(receivedStash, h) == FindInStash(receivedStash[i..], h)
      {
        if receivedStash[i].hash == h {
          return Some(receivedStash[i]);
        }
      }
      found := None;
    }

    method WriteToReceivedStash(b: Block)
      modifies `receivedStash
      ensures receivedStash == Node.WriteToReceivedStash(old(receivedStash), b)
    {
      var already := FindInReceivedStash(b.hash);
      if already == None {
        receivedStash := receivedStash + [b];
        if |receivedStash| > STASH_SIZE {
          receivedStash := receivedStash[1..];
        }
      }
    }

    method ParentOf(b: Block) returns (parent: Option<Block>)
      ensures parent == Parent(View(), b)
    {
      if b.prevHash in closedBlocks {
        return Some(closedBlocks[b.prevHash]);
      }
      parent := if b.prevHashWithoutTx in closedBlocksWithoutTx then Some(closedBlocksWithoutTx[b.prevHashWithoutTx])
        else None;
    }

    method GetNewChain(b: Block, env: Env) returns (search: Search)
      modifies `receivedStash
      ensures search == Node.GetNewChain(old(View()), old(receivedStash), b, env, env.bound)
      ensures search.Unfinished? || receivedStash == search.stash
    {
      hide Store.Valid, Store.View, Node.WriteToReceivedStash, Reversed;
      ghost var w := View();
      var newChain, current, bound := [], b, env.bound;
      EmptyReversed();
      while true
        invariant w.closedBlocks == closedBlocks && w.closedBlocksWithoutTx == closedBlocksWithoutTx
        invariant Node.GetNewChain(w, old(receivedStash), b, env, env.bound)
          == Extended(Node.GetNewChain(w, receivedStash, current, env, bound), Reversed(newChain))
        decreases bound
      {
        var ancestor := ParentOf(current);
        ReversedSnoc(newChain, current);
        if ancestor.Some? {
          newChain := newChain + [current];
          var oldestFirst := new Block[|newChain|](i requires 0 <= i < |newChain| => newChain[i]);
          assert oldestFirst[..] == newChain;
          InvertBlockArray(oldestFirst);
          return Ancestor(ancestor.value, oldestFirst[..], receivedStash);
        }
        var stashed := FindInReceivedStash(current.prevHash);
        var next := if stashed.Some? then stashed else env.blocks(current.prevHash);
        if next.None? {
          return NoAncestor(receivedStash);
        }
        if bound == 0 {
          return Unfinished;
        }
        NewChainStep(w, receivedStash, current, env, bound, Reversed(newChain));
        if stashed.None? {
          WriteToReceivedStash(next.value);
        }
        newChain, current, bound := newChain + [current], next.value, bound - 1;
      }
    }

    method GetBlockSequences(b: Block, env: Env) returns (s: Sequences)
      modifies `receivedStash
      ensures s == Node.GetBlockSequences(old(View()), b, env)
      ensures s.NoEnd? || receivedStash == s.stash
    {
      hide Store.Valid, Store.View;
      ghost var w := View();
      var search := GetNewChain(b, env);
      if search.Unfinished? {
        return NoEnd;
      } else if search.NoAncestor? {
        return NoSequences(receivedStash);
      }
      var tip := if lastBlock.Some? then lastBlock else lastClosedBlock;
      if tip.None? {
        return NoSequences(receivedStash);
      }
      var blocksToRollback, tmpBlock, bound := [], tip.value, env.bound;
      while !SameBlock(tmpBlock, search.ancestor)
        invariant receivedStash == search.stash
        invariant WalkBack(w, tip.value, search.ancestor, env.bound)
          == Prefixed(blocksToRollback, WalkBack(w, tmpBlock, search.ancestor, bound))
        decreases bound
      {
        var parent := ParentOf(tmpBlock);
        assert parent == Parent(w, tmpBlock);
        if parent.None? {
          assert WalkBack(w, tmpBlock, search.ancestor, bound) == Lost;
          return NoSequences(receivedStash);
        }
        if bound == 0 {
          assert WalkBack(w, tmpBlock, search.ancestor, bound) == Endless;
          return NoEnd;
        }
        PrefixedSnoc(blocksToRollback, tmpBlock, WalkBack(w, parent.value, search.ancestor, bound - 1));
        blocksToRollback := blocksToRollback + [tmpBlock];
        tmpBlock, bound := parent.value, bound - 1;
      }
      assert blocksToRollback + [] == blocksToRollback;
      if |blocksToRollback| >= |search.newChain| {
        return NoSequences(receivedStash);
      }
      s := Sequences(blocksToRollback, search.newChain, receivedStash);
    }

    // -------------------- rollback --------------------

    method ReadClosedTxs(hs: seq<Hash>, kind: Kind) returns (r: Lookup)
      ensures r == ReadTxs(closedTxs, hs, kind)
    {
      var txs := [];
      for i := 0 to |hs|
        invariant ReadTxs(closedTxs, hs[..i], kind) == Found(txs)
      {
        assert hs[..i + 1][..i] == hs[..i];
        ReadPrefixFails(closedTxs, hs, kind, i + 1);
        if hs[i] !in closedTxs {
          return Missing;
        } else if closedTxs[hs[i]].Kind() != kind {
          return WrongType;
        }
        txs := txs + [closedTxs[hs[i]]];
      }
      assert hs[..|hs|] == hs;
      r := Found(txs);
    }

    method PreValidateRollback(b: Block) returns (r: DataLookup)
      ensures r == ReadBlockData(closedTxs, b)
    {
      var accs := ReadClosedTxs(b.accTxData, AccKind);
      if !accs.Found? { return if accs.Missing? then DataMissing else DataWrongType; }
      var funds := ReadClosedTxs(b.fundsTxData, FundsKind);
      if !funds.Found? { return if funds.Missing? then DataMissing else DataWrongType; }
      var configs := ReadClosedTxs(b.configTxData, ConfigKind);
      if !configs.Found? { return if configs.Missing? then DataMissing else DataWrongType; }
      var stakes := ReadClosedTxs(b.stakeTxData, StakeKind);
      if !stakes.Found? { return if stakes.Missing? then DataMissing else DataWrongType; }
      var aggs := ReadClosedTxs(b.aggTxData, AggKind);
      if !aggs.Found? { return if aggs.Missing? then DataMissing else DataWrongType; }
      r := DataFound(Assemble(accs, funds, configs, stakes, b).(
                       aggTxs := seq(|aggs.txs|, i requires 0 <= i < |aggs.txs| => aggs.txs[i].agg)));
    }

    // Every transaction goes back to the open ones and leaves the closed ones.
    method ReopenTxs(txs: seq<Tx>)
      modifies `openTxs, `closedTxs
      ensures openTxs == WriteTxs(old(openTxs), txs) && closedTxs == DeleteTxs(old(closedTxs), txs)
    {
      for i := 0 to |txs|
        invariant openTxs == WriteTxs(old(openTxs), txs[..i]) && closedTxs == DeleteTxs(old(closedTxs), txs[..i])
      {
        assert txs[..i + 1][..i] == txs[..i];
        openTxs := openTxs[txs[i].Hash() := txs[i]];
        closedTxs := closedTxs - {txs[i].Hash()};
      }
      assert txs[..|txs|] == txs;
    }

    // The funds transactions closed under the block among the members, prepended one by one.
    method ReadGroup(hs: seq<Hash>, hash: Hash) returns (group: seq<FundsTx>)
      ensures group == FoundIn(closedTxs, hs, hash)
    {
      group := [];
      for i := 0 to |hs|
        invariant group == FoundIn(closedTxs, hs[..i], hash)
      {
        assert hs[..i + 1][..i] == hs[..i];
        if hs[i] in closedTxs && closedTxs[hs[i]].FundsT? && closedTxs[hs[i]].funds.block == hash {
          group := [closedTxs[hs[i]].funds] + group;
        }
      }
      assert hs[..|hs|] == hs;
    }

    method ReadGroups(aggs: seq<AggTx>, hash: Hash) returns (groups: seq<seq<FundsTx>>)
      ensures groups == Groups(closedTxs, aggs, hash)
    {
      groups := [];
      for i := 0 to |aggs|
        invariant groups == Groups(closedTxs, aggs[..i], hash)
      {
        assert aggs[..i + 1][..i] == aggs[..i];
        var group := ReadGroup(aggs[i].members, hash);
        groups := groups + [SortedByTxCount(group)];
      }
      assert aggs[..|aggs|] == aggs;
    }

    // The members from earlier blocks are no longer aggregated, last aggregation first.
    method UnmarkClosed(aggs: seq<AggTx>, hash: Hash)
      modifies `closedTxs
      ensures closedTxs == UnmarkAggs(old(closedTxs), aggs, hash)
    {
      hide ClosedAggregations.UnmarkMembers;
      assert aggs[..|aggs|] == aggs;
      for cnt := |aggs| downto 0
        invariant UnmarkAggs(old(closedTxs), aggs, hash) == UnmarkAggs(closedTxs, aggs[..cnt], hash)
      {
        assert aggs[..cnt + 1][..cnt] == aggs[..cnt];
        UnmarkClosedMembers(aggs[cnt].members, hash);
      }
    }

    method UnmarkClosedMembers(hs: seq<Hash>, hash: Hash)
      modifies `closedTxs
      ensures closedTxs == UnmarkMembers(old(closedTxs), hs, hash)
    {
      for i := 0 to |hs|
        invariant closedTxs == UnmarkMembers(old(closedTxs), hs[..i], hash)
      {
        assert hs[..i + 1][..i] == hs[..i];
        var h := hs[i];
        if h in closedTxs && (closedTxs[h].AggT? || !Carries(closedTxs[h], hash)) {
          closedTxs := closedTxs[h := Mark(closedTxs[h], false)];
        }
      }
      assert hs[..|hs|] == hs;
    }

    // -------------------- emptied blocks that come back --------------------

    // The block closed under k, with what is closed under it, leaves the emptied ones.
    method ReactivateBlock(k: Hash)
      modifies `closedBlocks, `closedBlocksWithoutTx
      ensures View() == Reactivate(old(View()), k)
    {
      hide Store.View, Ascending, SortedHashes, ClosedUnder;
      if k !in closedBlocksWithoutTx { return; }
      var block := closedBlocksWithoutTx[k];
      var fundsTxData, aggTxData := ReadClosedUnder(k);
      block := block.(aggregated := false, fundsTxData := block.fundsTxData + fundsTxData,
                      aggTxData := SortedHashes(block.aggTxData + aggTxData));
      closedBlocks := closedBlocks[block.hash := block];
      closedBlocksWithoutTx := closedBlocksWithoutTx - {k};
    }

    method ReadClosedUnder(k: Hash) returns (fundsTxData: seq<Hash>, aggTxData: seq<Hash>)
      ensures fundsTxData == ClosedUnder(closedTxs, Ascending(closedTxs.Keys), FundsKind, k)
      ensures aggTxData == ClosedUnder(closedTxs, Ascending(closedTxs.Keys), AggKind, k)
    {
      hide Ascending;
      var hs := Ascending(closedTxs.Keys);
      fundsTxData, aggTxData := [], [];
      for i := 0 to |hs|
        invariant fundsTxData == ClosedUnder(closedTxs, hs[..i], FundsKind, k)
        invariant aggTxData == ClosedUnder(closedTxs, hs[..i], AggKind, k)
      {
        assert hs[..i + 1][..i] == hs[..i];
        var tx := closedTxs[hs[i]];
        if tx.FundsT? && tx.funds.block == k {
          fundsTxData := fundsTxData + [hs[i]];
        } else if tx.AggT? && tx.agg.block == k {
          aggTxData := aggTxData + [hs[i]];
        }
      }
      assert hs[..|hs|] == hs;
    }

    // For the members from earlier blocks, last aggregation first.
    method ReactivateHistoric(aggs: seq<AggTx>, hash: Hash)
      modifies `closedBlocks, `closedBlocksWithoutTx
      ensures View() == ReactivateAggs(old(View()), aggs, hash)
    {
      hide Store.View, Node.ReactivateMembers;
      assert aggs[..|aggs|] == aggs;
      for cnt := |aggs| downto 0
        invariant ReactivateAggs(old(View()), aggs, hash) == ReactivateAggs(View(), aggs[..cnt], hash)
      {
        assert aggs[..cnt + 1][..cnt] == aggs[..cnt];
        ReactivateForMembers(aggs[cnt].members, hash);
      }
    }

    method ReactivateForMembers(hs: seq<Hash>, hash: Hash)
      modifies `closedBlocks, `closedBlocksWithoutTx
      ensures View() == Node.ReactivateMembers(old(View()), hs, hash)
    {
      hide Store.View, Reactivate;
      for i := 0 to |hs|
        invariant View() == Node.ReactivateMembers(old(View()), hs[..i], hash)
      {
        assert hs[..i + 1][..i] == hs[..i];
        var h := hs[i];
        if h in closedTxs && closedTxs[h].FundsT? && closedTxs[h].funds.block != hash {
          ReactivateBlock(closedTxs[h].funds.block);
        } else if h in closedTxs && closedTxs[h].AggT? {
          ReactivateBlock(closedTxs[h].agg.block);
        }
      }
      assert hs[..|hs|] == hs;
    }

    // -------------------- reopening --------------------

    method ReopenMembers(hs: seq<Hash>, hash: Hash)
      modifies `openTxs, `closedTxs
      ensures openTxs == TakeMembers(old(openTxs), old(closedTxs), hs, hash)
      ensures closedTxs == DropMembers(old(closedTxs), hs, hash)
    {
      for i := 0 to |hs|
        invariant openTxs == TakeMembers(old(openTxs), old(closedTxs), hs[..i], hash)
        invariant closedTxs == DropMembers(old(closedTxs), hs[..i], hash)
      {
        assert hs[..i + 1][..i] == hs[..i];
        var h := hs[i];
        if h in closedTxs && Carries(closedTxs[h], hash) {
          openTxs := openTxs[h := closedTxs[h]];
          closedTxs := closedTxs - {h};
        }
      }
      assert hs[..|hs|] == hs;
    }

    // The new members of each aggregation, then the aggregation itself.
    method ReopenAggs(aggs: seq<AggTx>, hash: Hash)
      modifies `openTxs, `closedTxs
      ensures openTxs == TakeAggs(old(openTxs), old(closedTxs), aggs, hash)
      ensures closedTxs == DropAggs(old(closedTxs), aggs, hash)
    {
      hide TakeMembers, DropMembers;
      for i := 0 to |aggs|
        invariant openTxs == TakeAggs(old(openTxs), old(closedTxs), aggs[..i], hash)
        invariant closedTxs == DropAggs(old(closedTxs), aggs[..i], hash)
      {
        assert aggs[..i + 1][..i] == aggs[..i];
        ReopenMembers(aggs[i].members, hash);
        openTxs := openTxs[aggs[i].hash := AggT(aggs[i])];
        closedTxs := closedTxs - {aggs[i].hash};
      }
      assert aggs[..|aggs|] == aggs;
    }

    // The transactions of postValidateRollback, after the marks of aggregatedStateRollback.
    method ReopenBlock(data: BlockData)
      modifies `openTxs, `closedTxs
      ensures closedTxs == ReopenClosed(old(closedTxs), data)
      ensures openTxs == ReopenOpen(old(openTxs), old(closedTxs), data)
    {
      hide UnmarkAggs, TakeAggs, DropAggs, WriteTxs, DeleteTxs, BlockTxs;
      UnmarkClosed(data.aggTxs, data.block.hashWithoutTx);
      ReopenTxs(BlockTxs(data));
      ReopenAggs(data.aggTxs, data.block.hashWithoutTx);
    }

    // Parameters first, then the ledger, the transactions and the statistics.
    method RollbackCore(b: Block, data: BlockData) returns (status: Status)
      requires store.Valid() && data.block == b
      modifies this, store, store.state.Values
      ensures store.Valid() && fresh(store.state.Values - old(store.state.Values))
      ensures var o := RollBackData(old(View()).core, data);
        if o.CoreDone? then
          && status == Ok && View() == old(View()).(core := o.core,
                                                    openTxs := ReopenOpen(old(openTxs), old(closedTxs), data),
                                                    lastBlock :=
                                                      if b.prevHash in closedBlocks then Some(closedBlocks[b.prevHash])
                                                      else None)
        else status == Crash && o.CoreCrashed?
    {
      hide Store.Valid, Store.View, ReopenClosed, ReopenOpen, Groups, Validation.ValidateStateRollback,
           SystemParameters.CollectStatisticsRollback, SystemParameters.ConfigStateChangeRollback;
      ghost var w := View();
      var groups := ReadGroups(data.aggTxs, b.hashWithoutTx);
      status := RollbackState(b, data, groups);
      if status != Ok { return; }
      ghost var ledger := store.View();
      var crash := ReopenAndCount(b, data);
      assert store.View() == ledger;
      status := if crash then Crash else Ok;
    }

    // The transactions and the statistics.
    method ReopenAndCount(b: Block, data: BlockData) returns (crash: bool)
      modifies `openTxs, `closedTxs, `globalBlockCount, `localBlockCount, `target, `targetTimes, `currentTargetTime,
               `lastBlock
      ensures closedTxs == ReopenClosed(old(closedTxs), data)
      ensures openTxs == ReopenOpen(old(openTxs), old(closedTxs), data)
      ensures SystemParameters.CollectStatisticsRollback(old(Statistics()), Active(parameterSlice))
        == if crash then StatsPanic else StatsDone(Statistics())
      ensures !crash ==> lastBlock == if b.prevHash in closedBlocks then Some(closedBlocks[b.prevHash]) else None
    {
      hide ReopenClosed, ReopenOpen, SystemParameters.CollectStatisticsRollback;
      ReopenBlock(data);
      crash := CollectStatisticsRollback(b);
    }

    // The parameters, and the ledger under the parameters before the block.
    method RollbackState(b: Block, data: BlockData, groups: seq<seq<FundsTx>>) returns (status: Status)
      requires store.Valid()
      modifies `parameterSlice, store, store.state.Values
      ensures store.Valid() && fresh(store.state.Values - old(store.state.Values))
      ensures var params := SystemParameters.ConfigStateChangeRollback(old(parameterSlice), data.configTxs, b.hash);
        if params == [] then status == Crash
        else match Validation.ValidateStateRollback(old(store.View()), Active(params), data, groups)
          case Done(l) => status == Ok && parameterSlice == params && store.View() == l
          case other => status == Crash
    {
      hide Store.Valid, Store.View, Validation.ValidateStateRollback, SystemParameters.ConfigStateChangeRollback;
      ghost var l := store.View();
      var crash := ConfigStateChangeRollback(data.configTxs, b.hash);
      if crash { return Crash; }
      assert store.View() == l;
      status := store.ValidateStateRollback(Active(parameterSlice), data, groups);
      if status != Ok { return Crash; }
    }

    method Rollback(b: Block) returns (status: Status)
      requires store.Valid()
      modifies this, store, store.state.Values
      ensures store.Valid() && fresh(store.state.Values - old(store.state.Values))
      ensures Concludes(status, View(), RollbackOne(old(View()), b))
    {
      hide Store.Valid, Store.View, ReopenOpen, Node.WriteToReceivedStash, ReadBlockData, RollBackData, ReactivateAggs;
      var read := PreValidateRollback(b);
      if read.DataMissing? { return Err; }
      if read.DataWrongType? { return Crash; }
      assert read.data.block == b by { ReadShape(closedTxs, b); }
      status := RollbackRead(b, read.data);
    }

    // With the transactions of the block read back.
    method RollbackRead(b: Block, data: BlockData) returns (status: Status)
      requires store.Valid() && data.block == b
      modifies this, store, store.state.Values
      ensures store.Valid() && fresh(store.state.Values - old(store.state.Values))
      ensures match RollBackData(old(View()).core, data)
        case CoreDone(core) =>
          status == Ok
            && View() == RolledBackWorld(ReactivateAggs(old(View()), data.aggTxs, b.hashWithoutTx), core, data, b)
        case _ => status == Crash
    {
      hide Store.Valid, Store.View, ReopenOpen, Node.WriteToReceivedStash, RollBackData, ReactivateAggs;
      ReactivateHistoric(data.aggTxs, b.hashWithoutTx);
      status := RollbackCore(b, data);
      if status != Ok { return; }
      DropBlock(b);
    }

    // The end of postValidateRollback: the block leaves the closed ones and its parent is last again.
    method DropBlock(b: Block)
      modifies `closedBlocks, `receivedStash, `lastClosedBlock
      ensures closedBlocks == old(closedBlocks) - {b.hash}
        && receivedStash == Node.WriteToReceivedStash(old(receivedStash), b)
      ensures lastClosedBlock == if b.prevHash in closedBlocks then Some(closedBlocks[b.prevHash])
                                 else if b.prevHashWithoutTx in closedBlocks
                                   then Some(closedBlocks[b.prevHashWithoutTx]) else None
    {
      closedBlocks := closedBlocks - {b.hash};
      WriteToReceivedStash(b);
      lastClosedBlock := if b.prevHash in closedBlocks then Some(closedBlocks[b.prevHash])
                         else if b.prevHashWithoutTx in closedBlocks then Some(closedBlocks[b.prevHashWithoutTx])
                         else None;
    }

    // -------------------- validation --------------------

    method FetchTxData(hs: seq<Hash>, kind: Kind, env: Env) returns (r: Lookup)
      ensures r == FetchTxs(View(), hs, kind, env)
    {
      hide Store.View, FetchTx;
      ghost var w := View();
      var txs := [];
      for i := 0 to |hs|
        invariant FetchTxs(w, hs[..i], kind, env) == Found(txs)
      {
        assert hs[..i + 1][..i] == hs[..i];
        FetchPrefixFails(w, hs, kind, env, i + 1);
        var one := FetchOneTx(hs[i], kind, env);
        if !one.Found? { return one; }
        txs := txs + one.txs;
      }
      assert hs[..|hs|] == hs;
      r := Found(txs);
    }

    // One transaction of the block.
    method FetchOneTx(h: Hash, kind: Kind, env: Env) returns (r: Lookup)
      ensures r == FetchTx(View(), h, kind, env)
    {
      if h in closedTxs { return Missing; }
      var tx := if h in openTxs then Some(openTxs[h]) else env.txs(h, kind);
      if tx.None? || (h !in openTxs && tx.value.Hash() != h) { return Missing; }
      if tx.value.Kind() != kind { return WrongType; }
      r := Found([tx.value]);
    }

    // One aggregation of the block.
    method FetchOneAgg(h: Hash, env: Env) returns (r: Lookup)
      ensures r == FetchAgg(View(), h, env)
    {
      if h in closedTxs {
        if !closedTxs[h].AggT? { return WrongType; }
        if !closedTxs[h].agg.aggregated { return Missing; }
        return Found([closedTxs[h]]);
      }
      var tx := if h in openTxs then Some(openTxs[h]) else env.txs(h, AggKind);
      if tx.None? || (h !in openTxs && tx.value.Hash() != h) { return Missing; }
      if !tx.value.AggT? { return WrongType; }
      r := Found([tx.value]);
    }

    // Its members that are not closed.
    method FetchNewMembers(hs: seq<Hash>, members: TxStore, env: Env) returns (r: AggLookup)
      ensures r == FetchMembers(View(), hs, members, env)
    {
      var more := members;
      for i := 0 to |hs|
        invariant FetchMembers(View(), hs[..i], members, env) == AggsFound([], more)
      {
        assert hs[..i + 1][..i] == hs[..i];
        MembersPrefixFails(View(), hs, members, env, i + 1);
        var h := hs[i];
        if h !in closedTxs {
          var tx := if h in openTxs then Some(openTxs[h]) else env.unknown(h);
          if tx.None? || (h !in openTxs && (tx.value.Hash() != h || !IsMember(tx.value))) { return AggsMissing; }
          if !IsMember(tx.value) { return AggsWrongType; }
          more := more[h := tx.value];
        }
      }
      assert hs[..|hs|] == hs;
      r := AggsFound([], more);
    }

    method FetchAggTxData(hs: seq<Hash>, env: Env) returns (r: AggLookup)
      ensures r == FetchAggData(View(), hs, env)
    {
      hide FetchMembers, FetchAgg;
      var aggs: seq<AggTx>, members: TxStore := [], map[];
      for i := 0 to |hs|
        invariant FetchAggData(View(), hs[..i], env) == AggsFound(aggs, members)
      {
        assert hs[..i + 1][..i] == hs[..i];
        AggsPrefixFails(View(), hs, env, i + 1);
        var agg := FetchOneAgg(hs[i], env);
        if agg.Missing? { return AggsMissing; }
        if agg.WrongType? { return AggsWrongType; }
        var found := FetchNewMembers(agg.txs[0].agg.members, members, env);
        if !found.AggsFound? { return found; }
        aggs, members := aggs + [agg.txs[0].agg], found.members;
      }
      assert hs[..|hs|] == hs;
      r := AggsFound(aggs, members);
    }

    method FetchTransactions(b: Block, env: Env) returns (r: DataLookup)
      ensures r == Node.FetchTransactions(View(), b, env)
    {
      hide FetchTxs, FetchAggData, Assemble, WithAggs;
      var accs := FetchTxData(b.accTxData, AccKind, env);
      var funds := FetchTxData(b.fundsTxData, FundsKind, env);
      var configs := FetchTxData(b.configTxData, ConfigKind, env);
      var stakes := FetchTxData(b.stakeTxData, StakeKind, env);
      var aggs := FetchAggTxData(b.aggTxData, env);
      if !b.Counted() || accs.WrongType? || funds.WrongType? || configs.WrongType? || stakes.WrongType?
        || aggs.AggsWrongType? {
        return DataWrongType;
      } else if accs.Missing? || funds.Missing? || configs.Missing? || stakes.Missing? || aggs.AggsMissing? {
        return DataMissing;
      }
      r := DataFound(WithAggs(openTxs, Assemble(accs, funds, configs, stakes, b), aggs.aggs, aggs.members));
    }

    method CloseTxs(txs: seq<Tx>)
      modifies `openTxs, `closedTxs
      ensures closedTxs == WriteTxs(old(closedTxs), txs) && openTxs == DeleteTxs(old(openTxs), txs)
    {
      for i := 0 to |txs|
        invariant closedTxs == WriteTxs(old(closedTxs), txs[..i]) && openTxs == DeleteTxs(old(openTxs), txs[..i])
      {
        assert txs[..i + 1][..i] == txs[..i];
        closedTxs := closedTxs[txs[i].Hash() := txs[i]];
        openTxs := openTxs - {txs[i].Hash()};
      }
      assert txs[..|txs|] == txs;
    }

    // Every member is marked, or closed for the first time under the block, and leaves the open transactions.
    method CloseMembersOf(hs: seq<Hash>, members: TxStore, hash: Hash)
      modifies `openTxs, `closedTxs
      ensures closedTxs == CloseMembers(old(closedTxs), members, hs, hash) && openTxs == DeleteHashes(old(openTxs), hs)
    {
      for i := 0 to |hs|
        invariant closedTxs == CloseMembers(old(closedTxs), members, hs[..i], hash)
        invariant openTxs == DeleteHashes(old(openTxs), hs[..i])
      {
        assert hs[..i + 1][..i] == hs[..i];
        var h := hs[i];
        if h in closedTxs {
          closedTxs := closedTxs[h := Mark(closedTxs[h], true)];
        } else if h in members {
          closedTxs := closedTxs[h := Record(members[h], hash)];
        }
        openTxs := openTxs - {h};
      }
      assert hs[..|hs|] == hs;
    }

    method CloseAggregations(aggs: seq<AggTx>, members: TxStore, hash: Hash)
      modifies `openTxs, `closedTxs
      ensures closedTxs == CloseAggs(old(closedTxs), members, aggs, hash) && openTxs == DeleteAggs(old(openTxs), aggs)
    {
      hide CloseMembers, DeleteHashes;
      for i := 0 to |aggs|
        invariant closedTxs == CloseAggs(old(closedTxs), members, aggs[..i], hash)
        invariant openTxs == DeleteAggs(old(openTxs), aggs[..i])
      {
        assert aggs[..i + 1][..i] == aggs[..i];
        CloseMembersOf(aggs[i].members, members, hash);
        closedTxs := closedTxs[aggs[i].hash := AggT(aggs[i].(block := hash, aggregated := false))];
        openTxs := openTxs - {aggs[i].hash};
      }
      assert aggs[..|aggs|] == aggs;
    }

    // The transactions of postValidate.
    method CloseBlockTxs(data: BlockData)
      modifies `openTxs, `closedTxs
      ensures closedTxs == CloseBlock(old(closedTxs), data) && openTxs == CloseOpen(old(openTxs), data)
    {
      hide CloseAggs, DeleteAggs, WriteTxs, DeleteTxs, BlockTxs;
      CloseTxs(BlockTxs(data));
      CloseAggregations(data.aggTxs, data.members, data.block.hashWithoutTx);
    }

    method EmptyOldBlocks(visits: seq<Hash>, height: uint32)
      modifies `closedBlocks, `closedBlocksWithoutTx
      ensures View() == Node.EmptyOldBlocks(old(View()), visits, height)
    {
      for i := 0 to |visits|
        invariant View() == Node.EmptyOldBlocks(old(View()), visits[..i], height)
      {
        assert visits[..i + 1][..i] == visits[..i];
        var h := visits[i];
        if h in closedBlocks {
          var b := closedBlocks[h];
          if !b.aggregated && b.height > 0 && b.height < height - NO_EMPTYING_LENGTH
            && BlockReadyToAggregate(closedTxs, b) {
            closedBlocksWithoutTx := closedBlocksWithoutTx[b.hashWithoutTx := Emptied(b)];
            closedBlocks := closedBlocks - {h};
          }
        }
      }
      assert visits[..|visits|] == visits;
    }

    method ValidateNoDuplicateTx(b: Block) returns (ok: bool)
      ensures ok == NoDuplicates(BlockHashes(b))
    {
      var hashes := BlockHashes(b);
      var seenTxs := {};
      for i := 0 to |hashes|
        invariant forall h :: h in seenTxs <==> h in hashes[..i]
        invariant NoDuplicates(hashes[..i])
      {
        if hashes[i] in seenTxs {
          return false;
        }
        seenTxs := seenTxs + {hashes[i]};
      }
      assert hashes[..|hashes|] == hashes;
      ok := true;
    }

    // The part of postValidate that depends on the chain alone.
    method RecordBlock(b: Block, data: BlockData, difficulty: Difficulty) returns (crash: bool)
      requires store.Valid()
      modifies this, store.state.Values`isStaking
      ensures var (params, configured) :=
        SystemParameters.ConfigStateChange(old(parameterSlice), old(store.View()), data.configTxs, b.hash);
        match SystemParameters.CollectStatistics(old(Statistics()), Active(params), b.timestamp, difficulty)
        case StatsDone(stats) =>
          && !crash
          && View() == old(View()).(core := Core(configured, params, stats, CloseBlock(old(closedTxs), data)),
                                    openTxs := CloseOpen(old(openTxs), data), lastBlock := Some(b))
        case StatsPanic => crash
    {
      hide Store.Valid, Store.View, CloseBlock, CloseOpen, SystemParameters.CollectStatistics,
           SystemParameters.ConfigStateChange;
      ConfigStateChange(data.configTxs, b.hash);
      ghost var configured := store.View();
      crash := CollectStatistics(b, difficulty);
      if !crash {
        CloseBlockTxs(data);
        assert store.View() == configured;
      }
    }

    // The state change, then parameters, statistics and the closed transactions.
    method ApplyCore(b: Block, data: BlockData, env: Env) returns (status: Status)
      requires store.Valid() && data.block == b && SortAggregated(data) == data
      modifies this, store, store.state.Values
      ensures store.Valid() && fresh(store.state.Values - old(store.state.Values))
      ensures match ApplyBlock(old(View()).core, data, env.difficulty)
        case CoreDone(core) =>
          status == Ok
            && View() == old(View()).(core := core, openTxs := CloseOpen(old(openTxs), data),
                                      lastBlock := Some(b))
        case CoreFailed(core) => status == Err && View() == FailedWorld(old(View()), core, data)
        case CoreCrashed => status == Crash
    {
      hide Store.Valid, Store.View, CloseBlock, CloseOpen, UnmarkAggs, Validation.ValidateState, Validation.FailsLate,
           SystemParameters.CollectStatistics, SystemParameters.ConfigStateChange, SortedByTxCount, ReactivateAggs;
      ghost var w := View();
      var late;
      status, late := store.ValidateState(Active(parameterSlice), data, closedTxs.Keys, false);
      assert Ends(status, store.View(),
                  Validation.ValidateState(w.core.ledger, w.core.closedTxs.Keys, Active(w.core.params), data, false));
      if status == Err && late {
        ghost var failed, before := store.View(), View();
        ReactivatedWithLedger(w, before.core, data.aggTxs, b.hashWithoutTx);
        ReactivateHistoric(data.aggTxs, b.hashWithoutTx);
        UnmarkClosed(data.aggTxs, b.hashWithoutTx);
        assert store.View() == failed;
      }
      if status != Ok { return; }
      var crash := RecordBlock(b, data, env.difficulty);
      status := if crash then Crash else Ok;
    }

    // The end of postValidate: the block is closed, old blocks are emptied.
    method WriteBlock(b: Block, visits: seq<Hash>)
      modifies `closedBlocks, `closedBlocksWithoutTx, `lastClosedBlock
      ensures View()
        == Node.EmptyOldBlocks(old(View()).(closedBlocks := old(closedBlocks)[b.hash := b]), visits,
                               b.height).(lastClosedBlock := Some(b))
    {
      hide Node.EmptyOldBlocks;
      closedBlocks := closedBlocks[b.hash := b];
      EmptyOldBlocks(visits, b.height);
      lastClosedBlock := Some(b);
    }

    lemma SeenAccount(h: Hash)
      requires store.Valid()
      ensures h in store.state <==> h in View().core.ledger.accounts
      ensures h in store.state ==> store.state[h].isStaking == View().core.ledger.accounts[h].isStaking
    {
    }

    method ValidateBlock(b: Block, env: Env) returns (status: Status)
      requires store.Valid()
      modifies this, store, store.state.Values
      ensures store.Valid() && fresh(store.state.Values - old(store.state.Values))
      ensures Concludes(status, View(), ValidateOne(old(View()), b, env))
    {
      hide Store.Valid, Store.View, CloseOpen, SortAggregated, Node.EmptyOldBlocks, Node.FetchTransactions, ApplyBlock,
           NoDuplicates;
      var noDuplicates := ValidateNoDuplicateTx(b);
      SeenAccount(b.beneficiary);
      if b.beneficiary !in store.state || !store.state[b.beneficiary].isStaking || !noDuplicates || !env.checks(b) {
        return Err;
      }
      var fetched := FetchTransactions(b, env);
      if fetched.DataMissing? { return Err; }
      if fetched.DataWrongType? { return Crash; }
      FetchedShape(View(), b, env);
      status := ApplyCore(b, fetched.data, env);
      if status != Ok { return; }
      ghost var applied := View();
      WriteBlock(b, env.visits);
      EmptyingIgnoresLastBlock(applied.(closedBlocks := applied.closedBlocks[b.hash := b]), env.visits, b.height,
                               old(lastBlock));
    }

    method Validate(b: Block, env: Env) returns (status: Status)
      requires store.Valid()
      modifies this, store, store.state.Values
      ensures store.Valid() && fresh(store.state.Values - old(store.state.Values))
      ensures Concludes(status, View(), Node.Validate(old(View()), b, env))
    {
      hide Store.Valid, Store.View, RollbackOne, ValidateOne, Node.GetBlockSequences;
      if b.hash in closedBlocks {
        return Err;
      }
      var s := GetBlockSequences(b, env);
      if s.NoEnd? {
        return Crash;
      } else if s.NoSequences? {
        return Err;
      }
      ghost var w0 := View();
      for i := 0 to |s.toRollback|
        invariant store.Valid() && fresh(store.state.Values - old(store.state.Values))
        invariant RollbackAll(w0, s.toRollback) == RollbackAll(View(), s.toRollback[i..])
      {
        status := Rollback(s.toRollback[i]);
        if status != Ok { return; }
      }
      ghost var w1 := View();
      for i := 0 to |s.toValidate|
        invariant store.Valid() && fresh(store.state.Values - old(store.state.Values))
        invariant ValidateAll(w1, s.toValidate, env) == ValidateAll(View(), s.toValidate[i..], env)
      {
        status := ValidateBlock(s.toValidate[i], env);
        if status != Ok { return; }
      }
      status := Ok;
    }
  }

  ghost predicate Concludes(status: Status, view: World, v: Verdict) {
    match v
    case Accepted(w) => status == Ok && view == w
    case Rejected(w) => status == Err && view == w
    case Stuck => status == Crash
  }

  // Of the state only the closed transactions matter.
  lemma {:induction false} ReactivatedWithLedger(w: World, core: Core, aggs: seq<AggTx>, hash: Hash)
    requires core.closedTxs == w.core.closedTxs
    ensures ReactivateAggs(w.(core := core), aggs, hash) == ReactivateAggs(w, aggs, hash).(core := core)
    decreases aggs
  {
    hide Node.ReactivateMembers;
    if aggs != [] {
      var n := |aggs| - 1;
      var w' := Node.ReactivateMembers(w, aggs[n].members, hash);
      MembersWithLedger(w, core, aggs[n].members, hash);
      ReactivatedWithLedger(w', core, aggs[..n], hash);
    }
  }

  lemma {:induction false} MembersWithLedger(w: World, core: Core, hs: seq<Hash>, hash: Hash)
    requires core.closedTxs == w.core.closedTxs
    ensures Node.ReactivateMembers(w.(core := core), hs, hash) == Node.ReactivateMembers(w, hs, hash).(core := core)
  {
    if hs != [] {
      MembersWithLedger(w, core, hs[..|hs| - 1], hash);
    }
  }

  lemma ReadShape(m: TxStore, b: Block)
    requires ReadBlockData(m, b).DataFound?
    ensures ReadBlockData(m, b).data.block == b
  {
  }

  lemma FetchedShape(w: World, b: Block, env: Env)
    requires Node.FetchTransactions(w, b, env).DataFound?
    ensures var data := Node.FetchTransactions(w, b, env).data; data.block == b && SortAggregated(data) == data
  {
    hide FetchTxs, FetchAggData, NewFunds, PayingFunds, Members, SortedByTxCount;
    SortedSame(Node.FetchTransactions(w, b, env).data.aggFunds);
  }

  lemma EmptyingIgnoresLastBlock(w: World, visits: seq<Hash>, height: uint32, last: Option<Block>)
    ensures Node.EmptyOldBlocks(w.(lastBlock := last), visits, height)
      == Node.EmptyOldBlocks(w, visits, height).(lastBlock := last)
  {
    hide BlockReadyToAggregate;
    if visits != [] {
      EmptyingIgnoresLastBlock(w, visits[..|visits| - 1], height, last);
    }
  }

  // The accounts not pending have met the new minimum.
  ghost function UnstakeAllBut(l: L.Ledger, minimum: uint64, pending: set<Hash>): L.Ledger {
    l.(accounts := map a | a in l.accounts ::
      if a in pending then l.accounts[a]
      else l.accounts[a].(isStaking := l.accounts[a].isStaking && !(l.accounts[a].balance < minimum)))
  }

  lemma UnstakeStep(l: L.Ledger, minimum: uint64, pending: set<Hash>, h: Hash)
    requires h in pending && h in l.accounts
    ensures h in UnstakeAllBut(l, minimum, pending).accounts
    ensures var m := UnstakeAllBut(l, minimum, pending);
      UnstakeAllBut(l, minimum, pending - {h})
        == if m.accounts[h].isStaking && m.accounts[h].balance < minimum then m.SetStaking(h, false) else m
  {
    var m := UnstakeAllBut(l, minimum, pending);
    var next := if m.accounts[h].isStaking && m.accounts[h].balance < minimum then m.SetStaking(h, false) else m;
    assert UnstakeAllBut(l, minimum, pending - {h}).accounts == next.accounts;
  }

  lemma UnstakeEnds(l: L.Ledger, minimum: uint64)
    ensures UnstakeAllBut(l, minimum, l.accounts.Keys) == l && UnstakeAllBut(l, minimum, {}) == Unstake(l, minimum)
  {
    assert UnstakeAllBut(l, minimum, l.accounts.Keys).accounts == l.accounts;
    assert UnstakeAllBut(l, minimum, {}).accounts == Unstake(l, minimum).accounts;
  }

  ghost function Extended(search: Search, newer: seq<Block>): Search {
    match search
    case Ancestor(ancestor, newChain, stash) => Ancestor(ancestor, newChain + newer, stash)
    case other => other
  }

  ghost function Prefixed(path: seq<Block>, walk: Walk): Walk {
    match walk
    case Reached(rest) => Reached(path + rest)
    case other => other
  }

  lemma EmptyReversed()
    ensures Reversed([]) == []
    ensures forall search :: Extended(search, []) == search
  {
    forall search ensures Extended(search, []) == search {
      if search.Ancestor? { assert search.newChain + [] == search.newChain; }
    }
  }

  // One more step back puts one more block behind everything still to be found.
  lemma NewChainStep(w: World, stash: seq<Block>, b: Block, env: Env, bound: nat, newer: seq<Block>)
    requires bound > 0 && Parent(w, b).None?
    requires FindInStash(stash, b.prevHash).Some? || env.blocks(b.prevHash).Some?
    ensures var stashed := FindInStash(stash, b.prevHash);
      var next := if stashed.Some? then stashed.value else env.blocks(b.prevHash).value;
      var stash' := if stashed.Some? then stash else Node.WriteToReceivedStash(stash, next);
      Extended(Node.GetNewChain(w, stash, b, env, bound), newer)
        == Extended(Node.GetNewChain(w, stash', next, env, bound - 1), [b] + newer)
  {
    var stashed := FindInStash(stash, b.prevHash);
    var next := if stashed.Some? then stashed.value else env.blocks(b.prevHash).value;
    var stash' := if stashed.Some? then stash else Node.WriteToReceivedStash(stash, next);
    var search := Node.GetNewChain(w, stash', next, env, bound - 1);
    if search.Ancestor? {
      assert search.newChain + [b] + newer == search.newChain + ([b] + newer);
    }
  }

  lemma PrefixedSnoc(path: seq<Block>, b: Block, walk: Walk)
    ensures Prefixed(path, Prefixed([b], walk)) == Prefixed(path + [b], walk)
  {
    if walk.Reached? {
      assert path + ([b] + walk.path) == path + [b] + walk.path;
    }
  }

  lemma ReversedSnoc(bs: seq<Block>, b: Block)
    ensures Reversed(bs + [b]) == [b] + Reversed(bs)
  {
    assert (bs + [b])[..|bs|] == bs;
  }

  lemma ReadPrefixFails(m: TxStore, hs: seq<Hash>, kind: Kind, n: nat)
    requires n <= |hs|
    ensures !ReadTxs(m, hs[..n], kind).Found? ==> ReadTxs(m, hs, kind) == ReadTxs(m, hs[..n], kind)
    decreases |hs| - n
  {
    if n == |hs| {
      assert hs[..n] == hs;
    } else {
      assert hs[..n + 1][..n] == hs[..n];
      ReadPrefixFails(m, hs, kind, n + 1);
    }
  }

  lemma MembersPrefixFails(w: World, hs: seq<Hash>, members: TxStore, env: Env, n: nat)
    requires n <= |hs|
    ensures !FetchMembers(w, hs[..n], members, env).AggsFound? ==>
      FetchMembers(w, hs, members, env) == FetchMembers(w, hs[..n], members, env)
    decreases |hs| - n
  {
    if n == |hs| {
      assert hs[..n] == hs;
    } else {
      assert hs[..n + 1][..n] == hs[..n];
      MembersPrefixFails(w, hs, members, env, n + 1);
    }
  }

  lemma AggsPrefixFails(w: World, hs: seq<Hash>, env: Env, n: nat)
    requires n <= |hs|
    ensures !FetchAggData(w, hs[..n], env).AggsFound? ==> FetchAggData(w, hs, env) == FetchAggData(w, hs[..n], env)
    decreases |hs| - n
  {
    hide FetchMembers, FetchAgg;
    if n == |hs| {
      assert hs[..n] == hs;
    } else {
      assert hs[..n + 1][..n] == hs[..n];
      AggsPrefixFails(w, hs, env, n + 1);
    }
  }

  lemma FetchPrefixFails(w: World, hs: seq<Hash>, kind: Kind, env: Env, n: nat)
    requires n <= |hs|
    ensures !FetchTxs(w, hs[..n], kind, env).Found? ==> FetchTxs(w, hs, kind, env) == FetchTxs(w, hs[..n], kind, env)
    decreases |hs| - n
  {
    if n == |hs| {
      assert hs[..n] == hs;
    } else {
      assert hs[..n + 1][..n] == hs[..n];
      FetchPrefixFails(w, hs, kind, env, n + 1);
    }
  }
}
