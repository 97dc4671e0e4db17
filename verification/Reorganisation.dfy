/** Fork choice and reorganisation over whole runs. */
module Reorganisation {
  import opened Words
  import opened Options
  import opened Protocol
  import opened Transactions
  import opened ClosedAggregations
  import opened AggregatedRollback
  import opened Ledger
  import opened SystemParameters
  import opened Chain
  import opened Node
  import opened Runs

  // -------------------- fork choice --------------------

  // The network answers a request with the block asked for.
  ghost predicate HonestBlocks(env: Env) {
    forall h :: env.blocks(h).Some? ==> env.blocks(h).value.hash == h
  }

  // Each block names the one before it by hash.
  ghost predicate HashLinked(blocks: seq<Block>) {
    forall i :: 0 < i < |blocks| ==> blocks[i].prevHash == blocks[i - 1].hash
  }

  lemma {:induction false} StashedHash(stash: seq<Block>, h: Hash)
    requires FindInStash(stash, h).Some?
    ensures FindInStash(stash, h).value.hash == h
  {
    if stash[0].hash != h {
      StashedHash(stash[1..], h);
    }
  }

  // The new chain is the oldest-first path from the ancestor to the new block, and the ancestor is
  // the first closed block met on the way back.
  lemma {:induction false} NewChainIsPath(w: World, stash: seq<Block>, b: Block, env: Env, bound: nat)
    requires GetNewChain(w, stash, b, env, bound).Ancestor?
    ensures var r := GetNewChain(w, stash, b, env, bound);
      && r.newChain != [] && r.newChain[|r.newChain| - 1] == b
      && Parent(w, r.newChain[0]) == Some(r.ancestor)
      && (forall i :: 0 < i < |r.newChain| ==> Parent(w, r.newChain[i]).None?)
      && (HonestBlocks(env) ==> HashLinked(r.newChain))
    decreases bound
  {
    if Parent(w, b).None? {
      var stashed := FindInStash(stash, b.prevHash);
      if stashed.Some? { StashedHash(stash, b.prevHash); }
      var next := if stashed.Some? then stashed.value else env.blocks(b.prevHash).value;
      var stash' := if stashed.Some? then stash else WriteToReceivedStash(stash, next);
      NewChainIsPath(w, stash', next, env, bound - 1);
    }
  }

  // -------------------- reachability --------------------

  // A block as the closed stores hold it: whole, emptied or brought back.
  ghost function StoredCopy(w: World, b: Block): Block
    requires Stored(w, b)
  {
    if b.hash in w.closedBlocks then w.closedBlocks[b.hash] else w.closedBlocksWithoutTx[b.hashWithoutTx]
  }

  lemma ParentStored(w: World, blocks: seq<Block>, b: Block, i: nat)
    requires StoresExactly(w, blocks) && Linked(blocks) && 0 < i < |blocks| && SeenAs(b, blocks[i])
    ensures Stored(w, blocks[i - 1])
    ensures Parent(w, b) == Some(StoredCopy(w, blocks[i - 1]))
  {
    assert Stored(w, blocks[i - 1]);
  }

  lemma ParentOnChain(w: World, blocks: seq<Block>, b: Block) returns (k: nat)
    requires StoresExactly(w, blocks) && Parent(w, b).Some?
    ensures k < |blocks| && Stored(w, blocks[k]) && Parent(w, b) == Some(StoredCopy(w, blocks[k]))
  {
    if b.prevHash in w.closedBlocks {
      k :| k < |blocks| && blocks[k].hash == b.prevHash;
    } else {
      k :| k < |blocks| && blocks[k].hashWithoutTx == b.prevHashWithoutTx;
    }
    assert Stored(w, blocks[k]);
  }

  lemma AllStored(w: World, blocks: seq<Block>)
    requires StoresExactly(w, blocks)
    ensures forall j :: 0 <= j < |blocks| ==> Stored(w, blocks[j])
  {
  }

  lemma CopiesSeen(w: World, blocks: seq<Block>)
    requires forall j :: 0 <= j < |blocks| ==> Stored(w, blocks[j])
    ensures forall j :: 0 <= j < |blocks| ==> SeenAs(StoredCopy(w, blocks[j]), blocks[j])
  {
  }

  // From any block of the active chain the walk reaches any earlier one, visiting every block between.
  lemma {:induction false} WalkReaches(w: World, blocks: seq<Block>, b: Block, i: nat, k: nat, bound: nat)
    requires StoresExactly(w, blocks) && Linked(blocks) && DistinctHashes(blocks)
    requires k <= i < |blocks| && SeenAs(b, blocks[i]) && bound >= i - k
    ensures forall j :: 0 <= j < |blocks| ==> Stored(w, blocks[j])
    ensures var walk := WalkBack(w, b, StoredCopy(w, blocks[k]), bound);
      && walk.Reached? && |walk.path| == i - k
      && (i > k ==> walk.path[0] == b)
      && forall j :: 0 < j < i - k ==> walk.path[j] == StoredCopy(w, blocks[i - j])
    decreases i
  {
    hide StoresExactly, Linked, Stored, StoredCopy;
    AllStored(w, blocks);
    CopiesSeen(w, blocks);
    var ancestor := StoredCopy(w, blocks[k]);
    if i > k {
      assert !SameBlock(b, ancestor) by { assert blocks[k].hash != blocks[i].hash
        && blocks[k].hashWithoutTx != blocks[i].hashWithoutTx; }
      ParentStored(w, blocks, b, i);
      var parent := StoredCopy(w, blocks[i - 1]);
      WalkReaches(w, blocks, parent, i - 1, k, bound - 1);
      var path := WalkBack(w, parent, ancestor, bound - 1).path;
      assert WalkBack(w, b, ancestor, bound) == Reached([b] + path);
      forall j | 0 < j < i - k ensures ([b] + path)[j] == StoredCopy(w, blocks[i - j]) {
        assert ([b] + path)[j] == path[j - 1];
      }
    }
  }

  // Ancestors stay reachable, whatever was emptied and brought back: with the invariant, the walk from the tip finds
  // the closed parent of any block, down to genesis, and collects exactly the blocks above it, tip first.
  lemma AncestorsReachable(g: Genesis, w: World, chain: seq<BlockData>, b: Block, bound: nat) returns (k: nat)
    requires Inv(g, w, chain) && Parent(w, b).Some? && bound >= |chain|
    ensures k <= |chain| && Stored(w, Blocks(g, chain)[k]) && Parent(w, b) == Some(StoredCopy(w, Blocks(g, chain)[k]))
    ensures var walk := WalkBack(w, w.lastBlock.value, Parent(w, b).value, bound);
      && walk.Reached? && |walk.path| == |chain| - k
      && forall j :: 0 <= j < |chain| - k ==> SeenAs(walk.path[j], Blocks(g, chain)[|chain| - j])
    ensures (forall i :: k <= i < |chain| ==> Whole(w, chain[i].block)) ==>
      forall j :: 0 <= j < |chain| - k ==>
        WalkBack(w, w.lastBlock.value, Parent(w, b).value, bound).path[j] == chain[|chain| - 1 - j].block
  {
    hide Replays, GenesisOk, StoresExactly, DistinctHashes, Linked, Replay, Stored;
    var blocks := Blocks(g, chain);
    AllStored(w, blocks);
    CopiesSeen(w, blocks);
    k := ParentOnChain(w, blocks, b);
    WalkReaches(w, blocks, w.lastBlock.value, |chain|, k, bound);
    var path := WalkBack(w, w.lastBlock.value, Parent(w, b).value, bound).path;
    forall j | 0 <= j < |chain| - k
      ensures path[j] == StoredCopy(w, blocks[|chain| - j]) && SeenAs(path[j], blocks[|chain| - j])
    {
      assert path[j] == if j == 0 then w.lastBlock.value else StoredCopy(w, blocks[|chain| - j]);
    }
    if forall i :: k <= i < |chain| ==> Whole(w, chain[i].block) {
      forall j | 0 <= j < |chain| - k ensures path[j] == chain[|chain| - 1 - j].block {
        assert Whole(w, chain[|chain| - 1 - j].block);
        assert blocks[|chain| - j] == chain[|chain| - 1 - j].block;
      }
    }
  }

  // When a reorganisation is chosen, the new chain is strictly longer than what it replaces, the
  // blocks to roll back are the active chain above the fork point, tip first, and the blocks to
  // validate are a path from the fork point to the new block.
  lemma ForkChoice(g: Genesis, w: World, chain: seq<BlockData>, b: Block, env: Env) returns (k: nat)
    requires Inv(g, w, chain) && env.bound >= |chain| && GetBlockSequences(w, b, env).Sequences?
    ensures var s := GetBlockSequences(w, b, env);
      && |s.toRollback| < |s.toValidate| && s.toValidate[|s.toValidate| - 1] == b
      && k + |s.toRollback| == |chain|
      && Stored(w, Blocks(g, chain)[k])
      && Parent(w, s.toValidate[0]) == Some(StoredCopy(w, Blocks(g, chain)[k]))
      && (HonestBlocks(env) ==> HashLinked(s.toValidate))
      && (forall j :: 0 <= j < |s.toRollback| ==> SeenAs(s.toRollback[j], Blocks(g, chain)[|chain| - j]))
      && ((forall i :: k <= i < |chain| ==> Whole(w, chain[i].block)) ==>
          forall j :: 0 <= j < |s.toRollback| ==> s.toRollback[j] == chain[|chain| - 1 - j].block)
  {
    hide Inv, WalkBack, GetNewChain, SeenAs, HonestBlocks;
    NewChainIsPath(w, w.stash, b, env, env.bound);
    var r := GetNewChain(w, w.stash, b, env, env.bound);
    assert w.lastBlock.Some? by { InvTip(g, w, chain); }
    k := AncestorsReachable(g, w, chain, r.newChain[0], env.bound);
  }

  lemma InvTip(g: Genesis, w: World, chain: seq<BlockData>)
    requires Inv(g, w, chain)
    ensures w.lastBlock.Some?
  {
  }

  // -------------------- one call of validate --------------------

  // What a reorganisation needs beyond the checks made: every block rolled back is held as it was validated, neither
  // emptied nor brought back, and meets the exact condition of RollbackInvertsBlock; the new blocks name their parents
  // by both hashes, and no two blocks of the new active chain share a hash.
  ghost predicate Sound(g: Genesis, w: World, chain: seq<BlockData>, s: Sequences) {
    s.Sequences? && |s.toRollback| <= |chain| &&
    var k := |chain| - |s.toRollback|;
    && (forall i :: k <= i < |chain| ==> Whole(w, chain[i].block))
    && (forall i :: k <= i < |chain| ==> RollsBackAt(g, chain, i))
    && DistinctHashes(Blocks(g, chain[..k]) + s.toValidate)
    && Linked(Blocks(g, chain[..k]) + s.toValidate)
  }

  // Block i meets the exact condition.
  ghost predicate RollsBackAt(g: Genesis, chain: seq<BlockData>, i: nat)
    requires i < |chain|
  {
    Replay(g, chain[..i]).CoreDone? ==> BlockRollsBack(Replay(g, chain[..i]).core, chain[i])
  }

  // Rolling back any number of tips, whatever emptied blocks they bring back.
  lemma {:induction false} RollbackAllKeeps(g: Genesis, w: World, chain: seq<BlockData>, blocks: seq<Block>)
    requires Follows(g, w, chain) && |blocks| <= |chain|
    requires forall j :: 0 <= j < |blocks| ==> blocks[j] == chain[|chain| - 1 - j].block
    requires forall i :: |chain| - |blocks| <= i < |chain| ==> Whole(w, chain[i].block)
    requires forall i :: |chain| - |blocks| <= i < |chain| ==> RollsBackAt(g, chain, i)
    ensures RollbackAll(w, blocks).Accepted?
    ensures Follows(g, RollbackAll(w, blocks).world, chain[..|chain| - |blocks|])
    ensures var w', shorter := RollbackAll(w, blocks).world, chain[..|chain| - |blocks|];
      (blocks != [] || Inv(g, w, chain)) && TipWhole(g, w', shorter) ==> Inv(g, w', shorter)
    decreases blocks
  {
    hide Replays, GenesisOk, StoresExactly, Linked, Replay, RollbackOne, BlockRollsBack, WellKeyed;
    var n := |chain|;
    if blocks == [] {
      assert chain[..n] == chain;
    } else {
      var prefix := chain[..n - 1];
      ReplayPrefix(g, chain, n - 1);
      assert Whole(w, chain[n - 1].block) && RollsBackAt(g, chain, n - 1);
      RollbackStep(g, w, chain);
      var w' := RollbackOne(w, blocks[0]).world;
      forall i | n - |blocks| <= i < n - 1 ensures Whole(w', prefix[i].block) && RollsBackAt(g, prefix, i) {
        assert Blocks(g, chain)[i + 1].hash != Blocks(g, chain)[n].hash;
        assert Whole(w, chain[i].block) && RollsBackAt(g, chain, i);
        assert prefix[..i] == chain[..i];
      }
      RollbackAllKeeps(g, w', prefix, blocks[1..]);
      assert prefix[..|prefix| - |blocks[1..]|] == chain[..n - |blocks|];
    }
  }

  // The blocks a validation run has fetched, in order.
  ghost function ValidatedData(w: World, blocks: seq<Block>, env: Env): seq<BlockData>
    decreases blocks
  {
    if blocks == [] || !ValidateOne(w, blocks[0], env).Accepted?
      || !FetchTransactions(w, blocks[0], env).DataFound? then []
    else [FetchTransactions(w, blocks[0], env).data] + ValidatedData(ValidateOne(w, blocks[0], env).world, blocks[1..],
        env)
  }

  lemma {:induction false} ValidateAllKeeps(g: Genesis, w: World, chain: seq<BlockData>, blocks: seq<Block>, env: Env)
    requires Follows(g, w, chain) && env.difficulty == g.difficulty && ValidateAll(w, blocks, env).Accepted?
    requires DistinctHashes(Blocks(g, chain) + blocks) && Linked(Blocks(g, chain) + blocks)
    ensures var fetched := ValidatedData(w, blocks, env);
      && |fetched| == |blocks| && (forall i :: 0 <= i < |fetched| ==> fetched[i].block == blocks[i])
      && Follows(g, ValidateAll(w, blocks, env).world, chain + fetched)
      && (blocks != [] ==> Inv(g, ValidateAll(w, blocks, env).world, chain + fetched))
    decreases blocks
  {
    hide Replays, GenesisOk, StoresExactly, Linked, DistinctHashes, Replay, ValidateOne, FetchTransactions, WellKeyed,
         Blocks;
    if blocks == [] {
      assert chain + [] == chain;
    } else {
      var b, rest := blocks[0], blocks[1..];
      assert Blocks(g, chain) + blocks == Blocks(g, chain) + [b] + rest;
      PrefixDistinctLinked(Blocks(g, chain) + [b], rest);
      ValidateStep(g, w, chain, b, env);
      var data := FetchTransactions(w, b, env).data;
      var w' := ValidateOne(w, b, env).world;
      BlocksSnoc(g, chain, data);
      ValidateAllKeeps(g, w', chain + [data], rest, env);
      assert chain + [data] + ValidatedData(w', rest, env) == chain + ValidatedData(w, blocks, env);
      if rest == [] {
        assert chain + [data] + [] == chain + [data];
      }
    }
  }

  // The first block that is not accepted is turned away by its checks or its transactions, or fails without a trace in
  // what the chain determines; it may have brought emptied blocks back.
  ghost predicate FailsAtomically(w: World, blocks: seq<Block>, env: Env)
    decreases blocks
  {
    blocks != [] &&
    (var v := ValidateOne(w, blocks[0], env);
     if v.Accepted? then FailsAtomically(v.world, blocks[1..], env) else v.Rejected? && v.world.core == w.core)
  }

  // The blocks before it stay.
  lemma {:induction false} ValidateSomeKeeps(g: Genesis, w: World, chain: seq<BlockData>, blocks: seq<Block>, env: Env)
    requires Follows(g, w, chain) && env.difficulty == g.difficulty && FailsAtomically(w, blocks, env)
    requires DistinctHashes(Blocks(g, chain) + blocks) && Linked(Blocks(g, chain) + blocks)
    ensures ValidateAll(w, blocks, env).Rejected?
    ensures var fetched := ValidatedData(w, blocks, env);
      && |fetched| < |blocks| && (forall i :: 0 <= i < |fetched| ==> fetched[i].block == blocks[i])
      && Follows(g, ValidateAll(w, blocks, env).world, chain + fetched)
      && (fetched != [] || Inv(g, w, chain) ==> Inv(g, ValidateAll(w, blocks, env).world, chain + fetched))
    decreases blocks
  {
    hide Replays, GenesisOk, StoresExactly, Linked, DistinctHashes, Replay, ValidateOne, FetchTransactions, WellKeyed,
         Blocks;
    var b, rest := blocks[0], blocks[1..];
    if ValidateOne(w, b, env).Accepted? {
      assert Blocks(g, chain) + blocks == Blocks(g, chain) + [b] + rest;
      PrefixDistinctLinked(Blocks(g, chain) + [b], rest);
      ValidateStep(g, w, chain, b, env);
      var data := FetchTransactions(w, b, env).data;
      var w' := ValidateOne(w, b, env).world;
      BlocksSnoc(g, chain, data);
      ValidateSomeKeeps(g, w', chain + [data], rest, env);
      assert chain + [data] + ValidatedData(w', rest, env) == chain + ValidatedData(w, blocks, env);
    } else {
      assert chain + [] == chain;
      FailureKeeps(g, w, chain, b, env);
    }
  }

  // A failure without a trace keeps the invariant, whatever emptied blocks its compensation brings back.
  lemma FailureKeeps(g: Genesis, w: World, chain: seq<BlockData>, b: Block, env: Env)
    requires Follows(g, w, chain) && ValidateOne(w, b, env).Rejected? && ValidateOne(w, b, env).world.core == w.core
    ensures var w' := ValidateOne(w, b, env).world; Follows(g, w', chain) && (Inv(g, w, chain) ==> Inv(g, w', chain))
  {
    hide Replays, GenesisOk, StoresExactly, Linked, DistinctHashes, Replay, FetchTransactions, WellKeyed, Blocks,
         ApplyBlock,
         PreValidate, ReactivateAggs;
    if FetchTransactions(w, b, env).DataFound? {
      var data := FetchTransactions(w, b, env).data;
      ReactivatingAggsKeepsStores(w, data.aggTxs, data.block.hashWithoutTx, Blocks(g, chain));
      GenesisFirst(g, chain);
    }
  }

  lemma GenesisFirst(g: Genesis, chain: seq<BlockData>)
    ensures Blocks(g, chain) != [] && Blocks(g, chain)[0] == g.block
  {
  }

  lemma PrefixDistinctLinked(blocks: seq<Block>, more: seq<Block>)
    requires DistinctHashes(blocks + more) && Linked(blocks + more)
    ensures DistinctHashes(blocks) && Linked(blocks)
  {
    assert forall i :: 0 <= i < |blocks| ==> (blocks + more)[i] == blocks[i];
  }

  // The active chain after a successful call.
  ghost function NextChain(w: World, chain: seq<BlockData>, b: Block, env: Env): seq<BlockData> {
    var s := GetBlockSequences(w, b, env);
    if !s.Sequences? || |s.toRollback| > |chain|
      || !RollbackAll(w.(stash := s.stash), s.toRollback).Accepted? then chain
    else chain[..|chain| - |s.toRollback|] + ValidatedData(RollbackAll(w.(stash := s.stash), s.toRollback).world,
                                                           s.toValidate, env)
  }

  // A successful call of validate, reorganisations included, leaves the state equal to the replay
  // of a strictly longer active chain that ends in the new block.
  lemma ValidateKeepsInv(g: Genesis, w: World, chain: seq<BlockData>, b: Block, env: Env)
    requires Inv(g, w, chain) && env.difficulty == g.difficulty && env.bound >= |chain|
    requires Validate(w, b, env).Accepted? && Sound(g, w, chain, GetBlockSequences(w, b, env))
    ensures Inv(g, Validate(w, b, env).world, NextChain(w, chain, b, env))
    ensures |NextChain(w, chain, b, env)| > |chain|
    ensures Blocks(g, NextChain(w, chain, b, env))[|NextChain(w, chain, b, env)|] == b
  {
    hide Follows, Linked, DistinctHashes, Replay, GetBlockSequences, RollbackAll, ValidateAll, ValidatedData, SeenAs,
         HonestBlocks, StoredCopy, BlockRollsBack, Blocks;
    var s := GetBlockSequences(w, b, env);
    var k := ForkChoice(g, w, chain, b, env);
    var w0 := w.(stash := s.stash);
    StashIrrelevant(g, w, w0, chain);
    RollbackAllKeeps(g, w0, chain, s.toRollback);
    var w1 := RollbackAll(w0, s.toRollback).world;
    ValidateAllKeeps(g, w1, chain[..k], s.toValidate, env);
    LastBlock(g, NextChain(w, chain, b, env));
  }

  // The world once the rollbacks of a call are done.
  ghost function RolledBack(w: World, s: Sequences): Verdict
    requires s.Sequences?
  {
    RollbackAll(w.(stash := s.stash), s.toRollback)
  }

  // After a call that was turned away the last block is the tip again: nothing was rolled back, a block was validated,
  // or the last rollback found its parent whole.
  ghost predicate TipFound(g: Genesis, w: World, chain: seq<BlockData>, b: Block, env: Env) {
    var s := GetBlockSequences(w, b, env);
    s.Sequences? && |s.toRollback| <= |chain| && RolledBack(w, s).Accepted? &&
    var k := |chain| - |s.toRollback|;
    || s.toRollback == [] || |NextChain(w, chain, b, env)| > k
    || TipWhole(g, RolledBack(w, s).world, chain[..k])
  }

  // Every rollback of the call goes through, and then a validation fails without a trace.
  ghost predicate TurnedAwayLate(w: World, b: Block, env: Env) {
    var s := GetBlockSequences(w, b, env);
    b.hash !in w.closedBlocks && s.Sequences?
      && (RolledBack(w, s).Accepted? ==> FailsAtomically(RolledBack(w, s).world, s.toValidate, env))
  }

  // A call that is turned away after its rollbacks leaves the state equal to the replay of the shortened chain and of
  // the blocks it had validated by then.
  lemma RejectedCallFollows(g: Genesis, w: World, chain: seq<BlockData>, b: Block, env: Env)
    requires Inv(g, w, chain) && env.difficulty == g.difficulty && env.bound >= |chain|
    requires Sound(g, w, chain, GetBlockSequences(w, b, env)) && TurnedAwayLate(w, b, env)
    ensures Validate(w, b, env).Rejected?
    ensures Follows(g, Validate(w, b, env).world, NextChain(w, chain, b, env))
    ensures TipFound(g, w, chain, b, env) ==> Inv(g, Validate(w, b, env).world, NextChain(w, chain, b, env))
  {
    hide Follows, Linked, DistinctHashes, Replay, GetBlockSequences, RollbackAll, ValidateAll, ValidatedData, SeenAs,
         HonestBlocks, StoredCopy, BlockRollsBack, Blocks, FailsAtomically;
    var s := GetBlockSequences(w, b, env);
    var k := ForkChoice(g, w, chain, b, env);
    var w0 := w.(stash := s.stash);
    StashIrrelevant(g, w, w0, chain);
    RollbackAllKeeps(g, w0, chain, s.toRollback);
    var w1 := RollbackAll(w0, s.toRollback).world;
    ValidateSomeKeeps(g, w1, chain[..k], s.toValidate, env);
    var fetched := ValidatedData(w1, s.toValidate, env);
    assert NextChain(w, chain, b, env) == chain[..k] + fetched;
    if TipFound(g, w, chain, b, env) && fetched == [] && s.toRollback != [] {
      assert TipWhole(g, w1, chain[..k]);
    }
    if s.toRollback == [] {
      assert Inv(g, w0, chain) by { assert Inv(g, w, chain); }
      assert chain[..k] == chain && w1 == w0 by { NothingRolledBack(w0); }
    }
  }

  lemma LastBlock(g: Genesis, chain: seq<BlockData>)
    ensures chain != [] ==> Blocks(g, chain)[|chain|] == chain[|chain| - 1].block
  {
  }

  lemma StashIrrelevant(g: Genesis, w: World, w': World, chain: seq<BlockData>)
    requires Follows(g, w, chain) && w' == w.(stash := w'.stash)
    ensures Follows(g, w', chain)
  {
    hide Replays, GenesisOk, Linked, DistinctHashes, Replay, Blocks, WellKeyed;
    SameStores(w, w', Blocks(g, chain));
  }

  // -------------------- whole runs --------------------

  // A call of validate, with the open transactions and the stash as they are when it begins.
  datatype Call = Call(block: Block, env: Env, openTxs: TxStore, stash: seq<Block>)

  // Between two calls anything may enter or leave the pool of open transactions and the stash.
  ghost function Begun(w: World, call: Call): World { w.(openTxs := call.openTxs, stash := call.stash) }

  lemma BegunKeepsInv(g: Genesis, w: World, chain: seq<BlockData>, call: Call)
    requires Inv(g, w, chain) && WellKeyed(call.openTxs)
    ensures Inv(g, Begun(w, call), chain)
  {
    hide Replays, GenesisOk, Linked, DistinctHashes, Replay, Blocks, WellKeyed;
    SameStores(w, Begun(w, call), Blocks(g, chain));
  }

  // Nothing but the stash has changed.
  ghost predicate Untouched(w: World, v: Verdict) { v.Rejected? && v.world == w.(stash := v.world.stash) }

  ghost function AfterCall(w: World, chain: seq<BlockData>, b: Block, env: Env): seq<BlockData> {
    if Untouched(w, Validate(w, b, env)) then chain else NextChain(w, chain, b, env)
  }

  // Every call succeeds soundly, is turned away before anything is rolled back, or is turned away after sound rollbacks
  // by a validation that fails without a trace.
  ghost predicate SoundCall(g: Genesis, w: World, chain: seq<BlockData>, b: Block, env: Env) {
    var v := Validate(w, b, env);
    && env.difficulty == g.difficulty && env.bound >= |chain|
    && (|| Untouched(w, v)
        || (v.Accepted? && Sound(g, w, chain, GetBlockSequences(w, b, env)))
        || (TurnedAwayLate(w, b, env) && Sound(g, w, chain, GetBlockSequences(w, b, env))
          && TipFound(g, w, chain, b, env)))
  }

  ghost predicate SoundRun(g: Genesis, w: World, chain: seq<BlockData>, calls: seq<Call>)
    decreases calls
  {
    calls == [] ||
    (var b, env, begun := calls[0].block, calls[0].env, Begun(w, calls[0]);
     var v := Validate(begun, b, env);
     && WellKeyed(calls[0].openTxs) && SoundCall(g, begun, chain, b, env) && !v.Stuck?
     && SoundRun(g, v.world, AfterCall(begun, chain, b, env), calls[1..]))
  }

  ghost function RunEnd(w: World, calls: seq<Call>): World
    decreases calls
  {
    if calls == [] then w
    else match Validate(Begun(w, calls[0]), calls[0].block, calls[0].env)
      case Stuck => w
      case v => RunEnd(v.world, calls[1..])
  }

  ghost function RunChain(w: World, chain: seq<BlockData>, calls: seq<Call>): seq<BlockData>
    decreases calls
  {
    if calls == [] then chain
    else match Validate(Begun(w, calls[0]), calls[0].block, calls[0].env)
      case Stuck => chain
      case v => RunChain(v.world, AfterCall(Begun(w, calls[0]), chain, calls[0].block, calls[0].env), calls[1..])
  }

  // No call is turned away after it has rolled something back.
  ghost predicate NoLateRejection(w: World, calls: seq<Call>)
    decreases calls
  {
    calls == [] ||
    (var begun := Begun(w, calls[0]);
     var v := Validate(begun, calls[0].block, calls[0].env);
     (v.Accepted? || Untouched(begun, v)) && NoLateRejection(v.world, calls[1..]))
  }

  lemma CallKeepsInv(g: Genesis, w: World, chain: seq<BlockData>, b: Block, env: Env)
    requires Inv(g, w, chain) && SoundCall(g, w, chain, b, env)
    ensures !Validate(w, b, env).Stuck?
    ensures Inv(g, Validate(w, b, env).world, AfterCall(w, chain, b, env))
    ensures Validate(w, b, env).Accepted? || Untouched(w, Validate(w, b, env)) ==>
      |AfterCall(w, chain, b, env)| >= |chain|
  {
    hide Follows, Sound, TurnedAwayLate, TipFound, Validate, NextChain, Blocks, GetBlockSequences;
    var v := Validate(w, b, env);
    if Untouched(w, v) {
      StashIrrelevant(g, w, v.world, chain);
    } else if v.Accepted? {
      ValidateKeepsInv(g, w, chain, b, env);
    } else {
      RejectedCallFollows(g, w, chain, b, env);
    }
  }

  // Replay over whole runs: after any sound sequence of calls the ledger, root keys, parameter and difficulty histories
  // and closed transactions are the replay of the active chain from genesis. The active chain never becomes shorter,
  // unless a call is turned away after rollbacks.
  lemma {:induction false} RunsReplay(g: Genesis, w: World, chain: seq<BlockData>, calls: seq<Call>)
    requires Inv(g, w, chain) && SoundRun(g, w, chain, calls)
    ensures Inv(g, RunEnd(w, calls), RunChain(w, chain, calls))
    ensures Replay(g, RunChain(w, chain, calls)) == CoreDone(RunEnd(w, calls).core)
    ensures NoLateRejection(w, calls) ==> |RunChain(w, chain, calls)| >= |chain|
    decreases calls
  {
    hide Replays, GenesisOk, StoresExactly, Linked, DistinctHashes, Replay, Validate, WellKeyed, SoundCall, AfterCall,
         Untouched, Begun;
    if calls != [] {
      var b, env, begun := calls[0].block, calls[0].env, Begun(w, calls[0]);
      BegunKeepsInv(g, w, chain, calls[0]);
      CallKeepsInv(g, begun, chain, b, env);
      RunsReplay(g, Validate(begun, b, env).world, AfterCall(begun, chain, b, env), calls[1..]);
    }
  }

  // -------------------- no transaction twice --------------------

  // The members a block closes for the first time, as often as its aggregations list them.
  function NewMembers(members: TxStore, hs: seq<Hash>): seq<Hash> {
    if hs == [] then []
    else
      var h, rest := hs[|hs| - 1], NewMembers(members, hs[..|hs| - 1]);
      if h in members then rest + [h] else rest
  }

  // Everything a block lists that is not closed by an earlier one.
  ghost function ListedHashes(data: BlockData): seq<Hash> {
    HashesOf(BlockTxs(data)) + HashesOf(Aggs(data.aggTxs)) + NewMembers(data.members, Members(data.aggTxs))
  }

  ghost function ChainHashes(chain: seq<BlockData>): seq<Hash> {
    if chain == [] then [] else ChainHashes(chain[..|chain| - 1]) + ListedHashes(chain[|chain| - 1])
  }

  // The block lists no new transaction twice, by itself or inside its aggregations, and no aggregation that is closed.
  ghost predicate ListsOnce(c: Core, data: BlockData) {
    NoDuplicates(ListedHashes(data)) && forall agg <- data.aggTxs :: agg.hash !in c.closedTxs
  }

  ghost predicate AllListOnce(g: Genesis, chain: seq<BlockData>) {
    chain == [] ||
    (var prefix, data := chain[..|chain| - 1], chain[|chain| - 1];
     AllListOnce(g, prefix) && Replay(g, prefix).CoreDone? && ListsOnce(Replay(g, prefix).core, data))
  }

  // Given a genesis without transactions, the closed transactions are exactly those of the chain, and a transaction
  // occurs twice on it, within a block or across blocks, exactly if some block lists one twice or an aggregation again:
  // the checks of the code look at the listed hashes only.
  lemma {:induction false} NoTransactionTwice(g: Genesis, chain: seq<BlockData>)
    requires GenesisOk(g) && g.core.closedTxs == map[] && Replays(g, chain)
    ensures Replay(g, chain).CoreDone?
    ensures forall h :: h in Replay(g, chain).core.closedTxs <==> h in ChainHashes(chain)
    ensures NoDuplicates(ChainHashes(chain)) <==> AllListOnce(g, chain)
  {
    hide ApplyBlock, Core.Valid, BlockTxs, HashesOf, WellKeyed, Fetched, FreshBlock, ListedHashes;
    ReplayValid(g, chain);
    if chain != [] {
      var prefix, data := chain[..|chain| - 1], chain[|chain| - 1];
      NoTransactionTwice(g, prefix);
      var c := Replay(g, prefix).core;
      ReplayValid(g, prefix);
      ApplyKeepsValid(c, data, g.difficulty);
      var before, added := ChainHashes(prefix), ListedHashes(data);
      ListedOrClosed(c, data);
      AppendDistinct(before, added);
      ListedAgain(c, data);
    }
  }

  lemma AppendDistinct(before: seq<Hash>, added: seq<Hash>)
    ensures NoDuplicates(before + added)
       <==> NoDuplicates(before) && NoDuplicates(added) && forall h <- added :: h !in before
  {
    var all := before + added;
    assert forall i :: 0 <= i < |before| ==> all[i] == before[i];
    assert forall i :: 0 <= i < |added| ==> all[|before| + i] == added[i];
    if NoDuplicates(all) {
      forall i, j | 0 <= i < j < |added| ensures added[i] != added[j] {
        assert all[|before| + i] != all[|before| + j];
      }
      forall i, j | 0 <= i < j < |before| ensures before[i] != before[j] {
        assert all[i] != all[j];
      }
      forall i, j | 0 <= i < |before| && 0 <= j < |added| ensures before[i] != added[j] {
        assert all[i] != all[|before| + j];
      }
    }
    if NoDuplicates(before) && NoDuplicates(added) && forall h <- added :: h !in before {
      forall i, j | 0 <= i < j < |all| ensures all[i] != all[j] {
        if i < |before| <= j {
          assert added[j - |before|] in added;
        } else if |before| <= i {
          assert added[i - |before|] != added[j - |before|];
        }
      }
    }
  }

  lemma {:induction false} NewMembersAre(members: TxStore, hs: seq<Hash>, k: Hash)
    ensures k in NewMembers(members, hs) <==> k in hs && k in members
  {
    if hs != [] {
      NewMembersAre(members, hs[..|hs| - 1], k);
      SnocMember(hs, k);
    }
  }

  // What a block closes is what it lists and what was closed.
  lemma ListedOrClosed(c: Core, data: BlockData)
    requires FreshBlock(c, data)
    ensures forall h :: h in c.closedTxs || h in AllHashes(data) <==> h in c.closedTxs || h in ListedHashes(data)
  {
    hide BlockTxs, HashesOf, Members, NewMembers, Fetched, NoDuplicates;
    forall h ensures h in c.closedTxs || h in AllHashes(data) <==> h in c.closedTxs || h in ListedHashes(data) {
      NewMembersAre(data.members, Members(data.aggTxs), h);
    }
  }

  // Of the listed hashes only those of aggregations can be closed already.
  lemma ListedAgain(c: Core, data: BlockData)
    requires FreshBlock(c, data)
    ensures (forall h <- ListedHashes(data) :: h !in c.closedTxs)
      <==> forall agg <- data.aggTxs :: agg.hash !in c.closedTxs
  {
    hide BlockTxs, Members, NewMembers, Fetched, NoDuplicates;
    forall h
      ensures h in NewMembers(data.members, Members(data.aggTxs)) ==> h !in c.closedTxs
      ensures h in HashesOf(BlockTxs(data)) ==> h !in c.closedTxs
      ensures h in HashesOf(Aggs(data.aggTxs)) <==> Names(data.aggTxs, h)
    {
      NewMembersAre(data.members, Members(data.aggTxs), h);
      InHashes(BlockTxs(data), h);
      NamedHashes(data.aggTxs, h);
    }
    forall agg | agg in data.aggTxs ensures agg.hash in ListedHashes(data) {
      var i :| 0 <= i < |data.aggTxs| && data.aggTxs[i] == agg;
      assert HashesOf(Aggs(data.aggTxs))[i] == agg.hash;
    }
  }

  // So it is after any run of a node: exactly the transactions of its active chain are closed, each once if every block
  // of it lists them once.
  lemma RunsCloseOnce(g: Genesis, w: World, chain: seq<BlockData>, calls: seq<Call>)
    requires Inv(g, w, chain) && SoundRun(g, w, chain, calls) && g.core.closedTxs == map[]
    ensures var end := RunChain(w, chain, calls); NoDuplicates(ChainHashes(end)) <==> AllListOnce(g, end)
    ensures forall h :: h in RunEnd(w, calls).core.closedTxs <==> h in ChainHashes(RunChain(w, chain, calls))
  {
    hide SoundRun, RunEnd, RunChain, Replay, Replays, ChainHashes, GenesisOk, AllListOnce;
    RunsReplay(g, w, chain, calls);
    NoTransactionTwice(g, RunChain(w, chain, calls));
  }

  // -------------------- where runs start --------------------

  // The world after the genesis block satisfies the invariant with an empty chain.
  lemma GenesisHolds(g: Genesis, w: World)
    requires GenesisOk(g) && w.core == g.core && WellKeyed(w.openTxs) && w.lastBlock == Some(g.block)
    requires w.closedBlocks == map[g.block.hash := g.block] && w.closedBlocksWithoutTx == map[]
    ensures Inv(g, w, [])
  {
    assert Blocks(g, []) == [g.block];
    assert [g.block][0].hash == g.block.hash;
  }

  // A block that names the tip as its parent by both hashes, and whose own hashes are new, is sound whatever else
  // holds: nothing is rolled back.
  lemma ExtensionIsSound(g: Genesis, w: World, chain: seq<BlockData>, b: Block, env: Env)
    requires Inv(g, w, chain)
    requires var tip := Blocks(g, chain)[|chain|];
      b.prevHash == tip.hash && b.prevHashWithoutTx == tip.hashWithoutTx
    requires forall i :: 0 <= i <= |chain| ==>
      Blocks(g, chain)[i].hash != b.hash && Blocks(g, chain)[i].hashWithoutTx != b.hashWithoutTx
    ensures GetBlockSequences(w, b, env) == Sequences([], [b], w.stash)
    ensures Sound(g, w, chain, GetBlockSequences(w, b, env)) && |NextChain(w, chain, b, env)| >= |chain|
  {
    hide Replay, Replays, GenesisOk, WellKeyed, BlockRollsBack, Blocks, ValidatedData, RollbackAll;
    BlocksLength(g, chain);
    TipIsParent(g, w, chain, b);
    assert RollbackAll(w.(stash := w.stash), []).Accepted? by { NothingRolledBack(w); }
    assert chain[..|chain|] == chain;
    ExtendedChain(Blocks(g, chain), b);
  }

  lemma TipIsParent(g: Genesis, w: World, chain: seq<BlockData>, b: Block)
    requires Inv(g, w, chain) && b.prevHash == Blocks(g, chain)[|chain|].hash
    ensures Parent(w, b).Some? && w.lastBlock == Parent(w, b)
    ensures DistinctHashes(Blocks(g, chain)) && Linked(Blocks(g, chain))
  {
    hide Replay, Replays, GenesisOk, WellKeyed, DistinctHashes, Linked;
  }

  lemma NothingRolledBack(w: World)
    ensures RollbackAll(w, []) == Accepted(w)
  {
  }

  lemma ExtendedChain(blocks: seq<Block>, b: Block)
    requires blocks != [] && DistinctHashes(blocks) && Linked(blocks)
    requires b.prevHash == blocks[|blocks| - 1].hash && b.prevHashWithoutTx == blocks[|blocks| - 1].hashWithoutTx
    requires forall i :: 0 <= i < |blocks| ==> blocks[i].hash != b.hash && blocks[i].hashWithoutTx != b.hashWithoutTx
    ensures DistinctHashes(blocks + [b]) && Linked(blocks + [b])
  {
  }

  lemma BlocksLength(g: Genesis, chain: seq<BlockData>)
    ensures |Blocks(g, chain)| == |chain| + 1
  {
  }
}
