/** When the node does what: which chain it switches to, which blocks it accepts, which transactions it fetches, which
    old blocks it empties, and what its stash holds. */
module Decisions {
  import opened Words
  import opened Options
  import opened Protocol
  import opened Transactions
  import opened ClosedAggregations
  import opened Ledger
  import opened SystemParameters
  import opened Validation
  import opened Chain
  import opened Node
  import opened Runs
  import opened Reorganisation

  // -------------------- the stash --------------------

  ghost predicate InStash(stash: seq<Block>, h: Hash) { exists i :: 0 <= i < |stash| && stash[i].hash == h }

  ghost predicate StashDistinct(stash: seq<Block>) {
    forall i, j :: 0 <= i < j < |stash| ==> stash[i].hash != stash[j].hash
  }

  // A block is found exactly if one with the hash is there, and then the first of them.
  lemma {:induction false} StashFinds(stash: seq<Block>, h: Hash)
    ensures FindInStash(stash, h).Some? <==> InStash(stash, h)
    ensures FindInStash(stash, h).Some? ==>
      exists i :: 0 <= i < |stash| && stash[i] == FindInStash(stash, h).value && stash[i].hash == h
        && forall j :: 0 <= j < i ==> stash[j].hash != h
  {
    if stash != [] && stash[0].hash != h {
      StashFinds(stash[1..], h);
      if FindInStash(stash[1..], h).Some? {
        var i :| 0 <= i < |stash[1..]| && stash[1..][i] == FindInStash(stash, h).value && stash[1..][i].hash == h
          && forall j :: 0 <= j < i ==> stash[1..][j].hash != h;
        assert stash[i + 1] == stash[1..][i];
        forall j | 0 <= j < i + 1 ensures stash[j].hash != h {
          if j > 0 { assert stash[j] == stash[1..][j - 1]; }
        }
      } else if i :| 0 <= i < |stash| && stash[i].hash == h {
        assert stash[1..][i - 1].hash == h;
      }
    }
  }

  // Writing a block keeps a known one, else puts it behind the others; only a full stash gives up a block, the oldest.
  // It never holds two blocks of one hash or more than 100.
  lemma StashWritten(stash: seq<Block>, b: Block)
    ensures var after := WriteToReceivedStash(stash, b);
      && InStash(after, b.hash)
      && (InStash(stash, b.hash) ==> after == stash)
      && (!InStash(stash, b.hash) ==>
          && after != [] && after[|after| - 1] == b
          && after[..|after| - 1] == if |stash| < 100 then stash else stash[1..])
      && (|stash| <= 100 ==> |after| <= 100)
      && (StashDistinct(stash) ==> StashDistinct(after))
  {
    StashFinds(stash, b.hash);
    var after := WriteToReceivedStash(stash, b);
    if !InStash(stash, b.hash) {
      assert after[|after| - 1].hash == b.hash;
      forall i, j | StashDistinct(stash) && 0 <= i < j < |after| ensures after[i].hash != after[j].hash {
        var d := if |stash| < 100 then 0 else 1;
        assert after[i] == stash[i + d];
      }
    }
  }

  // -------------------- fork choice --------------------

  // A line of blocks that the network serves: each names the one before by its hash, only the first has a closed
  // parent, and the stash holds no other block under their hashes.
  ghost predicate Served(w: World, stash: seq<Block>, env: Env, line: seq<Block>) {
    && line != [] && Parent(w, line[0]).Some?
    && (forall i :: 0 < i < |line| ==> Parent(w, line[i]).None? && line[i].prevHash == line[i - 1].hash)
    && StashDistinct(line)
    && (forall i :: 0 <= i < |line| - 1 ==> env.blocks(line[i].hash) == Some(line[i]))
    && StashAgrees(stash, line)
  }

  ghost predicate StashAgrees(stash: seq<Block>, line: seq<Block>) {
    forall i, j :: 0 <= i < |stash| && 0 <= j < |line| && stash[i].hash == line[j].hash ==> stash[i] == line[j]
  }

  // The search finds the whole line.
  lemma {:induction false} SearchFinds(w: World, stash: seq<Block>, env: Env, line: seq<Block>, bound: nat)
    requires Served(w, stash, env, line) && bound >= |line| - 1
    ensures var r := GetNewChain(w, stash, line[|line| - 1], env, bound);
      r.Ancestor? && r.newChain == line && Some(r.ancestor) == Parent(w, line[0])
    decreases bound
  {
    hide WriteToReceivedStash, FindInStash, Parent;
    var n := |line| - 1;
    if n > 0 {
      var stash' := if FindInStash(stash, line[n].prevHash).Some? then stash
        else WriteToReceivedStash(stash, line[n - 1]);
      NextServed(w, stash, env, line);
      SearchFinds(w, stash', env, line[..n], bound - 1);
      assert line[..n] + [line[n]] == line;
    } else {
      assert [line[0]] == line;
    }
  }

  // One step back along the line.
  lemma {:induction false} NextServed(w: World, stash: seq<Block>, env: Env, line: seq<Block>)
    requires Served(w, stash, env, line) && |line| > 1
    ensures var n := |line| - 1;
      var stashed := FindInStash(stash, line[n].prevHash);
      && Parent(w, line[n]).None?
      && (if stashed.Some? then stashed else env.blocks(line[n].prevHash)) == Some(line[n - 1])
      && Served(w, if stashed.Some? then stash else WriteToReceivedStash(stash, line[n - 1]), env, line[..n])
  {
    hide WriteToReceivedStash, FindInStash, Parent;
    var n := |line| - 1;
    StashFinds(stash, line[n].prevHash);
    StashStillAgrees(stash, line, n - 1);
  }

  lemma StashStillAgrees(stash: seq<Block>, line: seq<Block>, k: nat)
    requires k < |line| && StashAgrees(stash, line) && StashDistinct(line)
    ensures StashAgrees(WriteToReceivedStash(stash, line[k]), line[..k + 1])
    ensures StashAgrees(stash, line[..k + 1])
  {
    StashWritten(stash, line[k]);
    var after := WriteToReceivedStash(stash, line[k]);
    forall i, j | 0 <= i < |after| && 0 <= j < k + 1 && after[i].hash == line[j].hash ensures after[i] == line[j] {
      if after != stash {
        if i == |after| - 1 {
          assert j == k;
        } else {
          var d := if |stash| < 100 then 0 else 1;
          assert after[i] == after[..|after| - 1][i] == stash[i + d];
        }
      }
    }
  }

  // The longest chain wins: between two calls the node switches to a line of blocks that the network serves exactly if
  // it is longer than the active chain above the block it forks from. Then it rolls back that part, tip first, and
  // validates the line.
  lemma LongerChainWins(g: Genesis, w: World, chain: seq<BlockData>, line: seq<Block>, env: Env) returns (k: nat)
    requires Inv(g, w, chain) && Served(w, w.stash, env, line)
    requires env.bound >= |chain| && env.bound >= |line| - 1
    ensures k <= |chain| && Stored(w, Blocks(g, chain)[k])
    ensures Parent(w, line[0]) == Some(StoredCopy(w, Blocks(g, chain)[k]))
    ensures var s := GetBlockSequences(w, line[|line| - 1], env);
      if |chain| - k < |line| then
        && s.Sequences? && s.toValidate == line && |s.toRollback| == |chain| - k
        && forall j :: 0 <= j < |chain| - k ==> SeenAs(s.toRollback[j], Blocks(g, chain)[|chain| - j])
      else s.NoSequences?
  {
    hide Inv, WalkBack, GetNewChain, SeenAs, Served;
    assert line != [] && Parent(w, line[0]).Some? by { ServedParent(w, w.stash, env, line); }
    SearchFinds(w, w.stash, env, line, env.bound);
    InvTip(g, w, chain);
    k := AncestorsReachable(g, w, chain, line[0], env.bound);
  }

  // The stash is looked at before the network: what the network says about blocks of the stash does not matter, as long
  // as the search does not drive them out.
  lemma {:induction false} StashComesFirst(w: World, stash: seq<Block>, b: Block, env: Env, env': Env, bound: nat)
    requires |stash| + bound <= 100 && forall h :: !InStash(stash, h) ==> env.blocks(h) == env'.blocks(h)
    ensures GetNewChain(w, stash, b, env, bound) == GetNewChain(w, stash, b, env', bound)
    decreases bound
  {
    hide FindInStash, WriteToReceivedStash, Parent;
    StashFinds(stash, b.prevHash);
    var stashed := FindInStash(stash, b.prevHash);
    var next := if stashed.Some? then stashed else env.blocks(b.prevHash);
    if Parent(w, b).None? && next.Some? && bound > 0 {
      var stash' := if stashed.Some? then stash else WriteToReceivedStash(stash, next.value);
      StashGrows(stash, next.value);
      StashComesFirst(w, stash', next.value, env, env', bound - 1);
    }
  }

  lemma StashGrows(stash: seq<Block>, b: Block)
    requires |stash| < 100
    ensures |WriteToReceivedStash(stash, b)| <= |stash| + 1
    ensures forall h :: InStash(stash, h) ==> InStash(WriteToReceivedStash(stash, b), h)
  {
    StashWritten(stash, b);
    var after := WriteToReceivedStash(stash, b);
    forall h | InStash(stash, h) ensures InStash(after, h) {
      if after != stash {
        var i :| 0 <= i < |stash| && stash[i].hash == h;
        assert after[i] == after[..|after| - 1][i];
      }
    }
  }

  lemma ServedParent(w: World, stash: seq<Block>, env: Env, line: seq<Block>)
    requires Served(w, stash, env, line)
    ensures line != [] && Parent(w, line[0]).Some?
  {
  }

  // -------------------- fetching --------------------

  // The transaction a block lists under h is not closed, and is open or served by the network under its own hash.
  ghost predicate Fetchable(w: World, h: Hash, kind: Kind, env: Env) {
    && h !in w.core.closedTxs
    && if h in w.openTxs then w.openTxs[h].Kind() == kind
       else env.txs(h, kind).Some? && env.txs(h, kind).value.Hash() == h && env.txs(h, kind).value.Kind() == kind
  }

  // A list is fetched exactly if every entry is; what comes back are the pool's transactions, and the network's where
  // the pool has none.
  lemma {:induction false} FetchedExactly(w: World, hs: seq<Hash>, kind: Kind, env: Env)
    ensures FetchTxs(w, hs, kind, env).Found? <==> forall i :: 0 <= i < |hs| ==> Fetchable(w, hs[i], kind, env)
    ensures FetchTxs(w, hs, kind, env).Found? ==>
      var txs := FetchTxs(w, hs, kind, env).txs;
      && |txs| == |hs|
      && forall i :: 0 <= i < |hs| ==>
        txs[i] == if hs[i] in w.openTxs then w.openTxs[hs[i]] else env.txs(hs[i], kind).value
  {
    if hs != [] {
      var n := |hs| - 1;
      FetchedExactly(w, hs[..n], kind, env);
      assert (forall i :: 0 <= i < |hs| ==> Fetchable(w, hs[i], kind, env))
        <==> (forall i :: 0 <= i < n ==> Fetchable(w, hs[..n][i], kind, env)) && Fetchable(w, hs[n], kind, env);
    }
  }

  // An aggregation may be closed already, if it is marked; otherwise it is fetched like a transaction.
  ghost predicate AggFetchable(w: World, h: Hash, env: Env) {
    if h in w.core.closedTxs then w.core.closedTxs[h].AggT? && w.core.closedTxs[h].agg.aggregated
    else Fetchable(w, h, AggKind, env)
  }

  ghost function AggFetched(w: World, h: Hash, env: Env): Tx
    requires AggFetchable(w, h, env)
  {
    if h in w.core.closedTxs then w.core.closedTxs[h]
    else if h in w.openTxs then w.openTxs[h] else env.txs(h, AggKind).value
  }

  // A member is closed already, open, or served under its own hash, and is a funds transaction or an aggregation.
  ghost predicate MemberFetchable(w: World, h: Hash, env: Env) {
    || h in w.core.closedTxs
    || if h in w.openTxs then IsMember(w.openTxs[h])
       else env.unknown(h).Some? && env.unknown(h).value.Hash() == h && IsMember(env.unknown(h).value)
  }

  // The new members of hs on top of those before: the pool's, and the network's where the pool has none.
  ghost predicate MembersAre(w: World, hs: seq<Hash>, members: TxStore, env: Env, more: TxStore) {
    && (forall k :: k in more <==> k in members || (k in hs && k !in w.core.closedTxs))
    && forall k :: k in more ==>
      if k in hs && k !in w.core.closedTxs then
        && (k in w.openTxs || env.unknown(k).Some?)
        && more[k] == if k in w.openTxs then w.openTxs[k] else env.unknown(k).value
      else k in members && more[k] == members[k]
  }

  lemma {:induction false} MembersFetchedExactly(w: World, hs: seq<Hash>, members: TxStore, env: Env)
    ensures FetchMembers(w, hs, members, env).AggsFound? <==>
      forall i :: 0 <= i < |hs| ==> MemberFetchable(w, hs[i], env)
    ensures FetchMembers(w, hs, members, env).AggsFound? ==>
      MembersAre(w, hs, members, env, FetchMembers(w, hs, members, env).members)
  {
    hide MembersAre, MemberFetchable;
    if hs == [] {
      NoMembersAre(w, members, env);
    } else {
      var n := |hs| - 1;
      MembersFetchedExactly(w, hs[..n], members, env);
      assert (forall i :: 0 <= i < |hs| ==> MemberFetchable(w, hs[i], env))
        <==> (forall i :: 0 <= i < n ==> MemberFetchable(w, hs[..n][i], env)) && MemberFetchable(w, hs[n], env);
      OneMember(w, hs, members, env);
    }
  }

  lemma NoMembersAre(w: World, members: TxStore, env: Env)
    ensures MembersAre(w, [], members, env, members)
  {
  }

  lemma {:induction false} OneMember(w: World, hs: seq<Hash>, members: TxStore, env: Env)
    requires hs != []
    requires var before := FetchMembers(w, hs[..|hs| - 1], members, env);
      before.AggsFound? ==> MembersAre(w, hs[..|hs| - 1], members, env, before.members)
    ensures FetchMembers(w, hs, members, env).AggsFound?
      <==> FetchMembers(w, hs[..|hs| - 1], members, env).AggsFound? && MemberFetchable(w, hs[|hs| - 1], env)
    ensures FetchMembers(w, hs, members, env).AggsFound? ==>
      MembersAre(w, hs, members, env, FetchMembers(w, hs, members, env).members)
  {
    var n := |hs| - 1;
    var before := FetchMembers(w, hs[..n], members, env);
    if before.AggsFound? && MemberFetchable(w, hs[n], env) {
      MoreMembers(w, hs, members, env, before.members, FetchMembers(w, hs, members, env).members);
    }
  }

  lemma {:induction false} MoreMembers(w: World, hs: seq<Hash>, members: TxStore, env: Env, before: TxStore,
                                       more: TxStore)
    requires hs != [] && MembersAre(w, hs[..|hs| - 1], members, env, before)
    requires var h := hs[|hs| - 1];
      if h in w.core.closedTxs then more == before
      else
        && (h in w.openTxs || env.unknown(h).Some?)
        && more == before[h := if h in w.openTxs then w.openTxs[h] else env.unknown(h).value]
    ensures MembersAre(w, hs, members, env, more)
  {
    assert hs == hs[..|hs| - 1] + [hs[|hs| - 1]];
  }

  lemma AggFetchedExactly(w: World, h: Hash, env: Env)
    ensures FetchAgg(w, h, env).Found? <==> AggFetchable(w, h, env)
    ensures FetchAgg(w, h, env).Found? ==> FetchAgg(w, h, env).txs == [AggFetched(w, h, env)]
  {
  }

  // The aggregations of a block are fetched exactly if each of them is and all their members are.
  lemma {:induction false} AggsFetchedExactly(w: World, hs: seq<Hash>, env: Env)
    ensures FetchAggData(w, hs, env).AggsFound? <==>
      forall i :: 0 <= i < |hs| ==>
        && AggFetchable(w, hs[i], env) && AggFetched(w, hs[i], env).AggT?
        && forall h <- AggFetched(w, hs[i], env).agg.members :: MemberFetchable(w, h, env)
    ensures FetchAggData(w, hs, env).AggsFound? ==>
      var r := FetchAggData(w, hs, env);
      && |r.aggs| == |hs|
      && forall i :: 0 <= i < |hs| ==> AggFetchable(w, hs[i], env) && AggT(r.aggs[i]) == AggFetched(w, hs[i], env)
  {
    hide FetchMembers, FetchAgg, AggFetchable, AggFetched, MemberFetchable;
    if hs != [] {
      var n := |hs| - 1;
      AggsFetchedExactly(w, hs[..n], env);
      AggFetchedExactly(w, hs[n], env);
      var before := FetchAggData(w, hs[..n], env);
      if before.AggsFound? && FetchAgg(w, hs[n], env).Found? {
        var ms := FetchAgg(w, hs[n], env).txs[0].agg.members;
        MembersFetchedExactly(w, ms, before.members, env);
        assert (forall h <- ms :: MemberFetchable(w, h, env))
          <==> forall i :: 0 <= i < |ms| ==> MemberFetchable(w, ms[i], env);
      }
      assert forall i :: 0 <= i < n ==> hs[..n][i] == hs[i];
    }
  }

  // What a block lists can be fetched, and its two counters are right.
  ghost predicate BlockFetchable(w: World, b: Block, env: Env) {
    && b.nrFundsTx == |b.fundsTxData| && b.nrAggTx == |b.aggTxData|
    && (forall i :: 0 <= i < |b.accTxData| ==> Fetchable(w, b.accTxData[i], AccKind, env))
    && (forall i :: 0 <= i < |b.fundsTxData| ==> Fetchable(w, b.fundsTxData[i], FundsKind, env))
    && (forall i :: 0 <= i < |b.configTxData| ==> Fetchable(w, b.configTxData[i], ConfigKind, env))
    && (forall i :: 0 <= i < |b.stakeTxData| ==> Fetchable(w, b.stakeTxData[i], StakeKind, env))
    && forall i :: 0 <= i < |b.aggTxData| ==>
      && AggFetchable(w, b.aggTxData[i], env) && AggFetched(w, b.aggTxData[i], env).AggT?
      && forall h <- AggFetched(w, b.aggTxData[i], env).agg.members :: MemberFetchable(w, h, env)
  }

  lemma BlockFetchedExactly(w: World, b: Block, env: Env)
    ensures FetchTransactions(w, b, env).DataFound? <==> BlockFetchable(w, b, env)
  {
    hide FetchTxs, FetchAggData, Fetchable, AggFetchable, AggFetched, MemberFetchable, WithAggs, Assemble;
    FetchedExactly(w, b.accTxData, AccKind, env);
    FetchedExactly(w, b.fundsTxData, FundsKind, env);
    FetchedExactly(w, b.configTxData, ConfigKind, env);
    FetchedExactly(w, b.stakeTxData, StakeKind, env);
    AggsFetchedExactly(w, b.aggTxData, env);
  }

  // -------------------- acceptance --------------------

  // How often the five lists of a block hold a hash.
  ghost function Listed(b: Block, h: Hash): nat {
    multiset(b.accTxData)[h] + multiset(b.fundsTxData)[h] + multiset(b.configTxData)[h] + multiset(b.stakeTxData)[h]
    + multiset(b.aggTxData)[h]
  }

  ghost predicate ListsNothingTwice(b: Block) { forall h :: Listed(b, h) <= 1 }

  // A block is accepted on the tip exactly if its beneficiary is a staking account, it lists nothing twice, the other
  // checks pass, everything it lists can be fetched, and the state change completes.
  lemma AcceptedExactly(w: World, b: Block, env: Env)
    requires w.core.Valid()
    ensures ValidateOne(w, b, env).Accepted? <==>
      && b.beneficiary in w.core.ledger.accounts && w.core.ledger.accounts[b.beneficiary].isStaking
      && ListsNothingTwice(b) && env.checks(b) && BlockFetchable(w, b, env)
      && FetchTransactions(w, b, env).DataFound?
      && ValidateState(w.core.ledger, w.core.closedTxs.Keys, Active(w.core.params), FetchTransactions(w, b, env).data,
                       false).Done?
  {
    hide ValidateState, FetchTransactions, BlockFetchable, CollectStatistics, ConfigStateChange, CloseBlock,
         PostValidate, FailedWorld;
    BlockFetchedExactly(w, b, env);
    TwiceIsTwice(b);
    if PreValidate(w, b, env) && FetchTransactions(w, b, env).DataFound? {
      AppliesExactly(w.core, FetchTransactions(w, b, env).data, env.difficulty);
    }
  }

  lemma AppliesExactly(c: Core, data: BlockData, difficulty: Difficulty)
    requires c.Valid()
    ensures ApplyBlock(c, data, difficulty).CoreDone?
      <==> ValidateState(c.ledger, c.closedTxs.Keys, Active(c.params), data, false).Done?
  {
    hide ValidateState, CloseBlock, ConfigStateChange, FailsLate;
  }

  ghost predicate OnceOnly(hs: seq<Hash>) { forall h :: multiset(hs)[h] <= 1 }

  lemma {:induction false} OnceEach(hs: seq<Hash>)
    ensures NoDuplicates(hs) <==> OnceOnly(hs)
  {
    if hs != [] {
      var n := |hs| - 1;
      var rest, last := hs[..n], hs[n];
      OnceEach(rest);
      assert hs == rest + [last];
      assert multiset(hs) == multiset(rest) + multiset{last};
      assert last in rest <==> multiset(rest)[last] > 0;
      if NoDuplicates(hs) {
        assert NoDuplicates(rest) && last !in rest;
        forall h ensures multiset(hs)[h] <= 1 {
          assert multiset(rest)[h] <= 1;
        }
      } else if NoDuplicates(rest) {
        assert last in rest;
        assert multiset(hs)[last] > 1;
      } else {
        var h :| multiset(rest)[h] > 1;
        assert multiset(hs)[h] > 1;
      }
    }
  }

  lemma TwiceIsTwice(b: Block)
    ensures NoDuplicates(BlockHashes(b)) <==> ListsNothingTwice(b)
  {
    OnceEach(BlockHashes(b));
    assert multiset(BlockHashes(b)) == multiset(b.accTxData) + multiset(b.fundsTxData) + multiset(b.configTxData)
      + multiset(b.stakeTxData) + multiset(b.aggTxData);
    forall h ensures Listed(b, h) == multiset(BlockHashes(b))[h] {
    }
  }

  // -------------------- pointers --------------------

  // After a rollback of the tip the last block is its parent, if that is held whole or brought back, and none if it is
  // emptied; the last closed block too. The tip has left the closed blocks for the stash.
  lemma RolledBackPointers(g: Genesis, w: World, chain: seq<BlockData>)
    requires Follows(g, w, chain) && chain != [] && Whole(w, chain[|chain| - 1].block)
    requires RollbackOne(w, chain[|chain| - 1].block).Accepted?
    ensures var w', tip, parent := RollbackOne(w, chain[|chain| - 1].block).world, chain[|chain| - 1].block,
        Blocks(g, chain)[|chain| - 1];
      && w'.lastBlock == (if parent.hash in w'.closedBlocks then Some(w'.closedBlocks[parent.hash]) else None)
      && (parent.hash in w'.closedBlocks ==> w'.lastClosedBlock == w'.lastBlock)
      && tip.hash !in w'.closedBlocks && InStash(w'.stash, tip.hash)
  {
    hide Replays, GenesisOk, StoresExactly, Replay, WellKeyed, RollBackData, ReadBlockData, ReopenOpen, ReactivateAggs,
         WriteToReceivedStash;
    var tip, parent := chain[|chain| - 1].block, Blocks(g, chain)[|chain| - 1];
    assert Blocks(g, chain)[|chain|] == tip;
    assert tip.prevHash == parent.hash && tip.hash != parent.hash;
    StashWritten(w.stash, tip);
    var data := ReadBlockData(w.core.closedTxs, tip).data;
    SameStash(w, data.aggTxs, tip.hashWithoutTx);
  }

  lemma SameStash(w: World, aggs: seq<AggTx>, hash: Hash)
    ensures ReactivateAggs(w, aggs, hash).stash == w.stash
  {
    hide ReactivateMembers;
  }

  // -------------------- emptying --------------------

  // A block can be emptied: it is not yet, lies between genesis and 100 blocks below the new one, and either counts no
  // transaction, or all its funds transactions and aggregations are closed and marked and one of its three other lists
  // is empty.
  ghost predicate Ripe(closed: TxStore, b: Block, height: uint32) {
    && !b.aggregated && 0 < b.height && b.height + 100 < height
    && (|| (b.nrFundsTx == 0 && b.nrAggTx == 0 && b.accTxData == [] && b.stakeTxData == [] && b.configTxData == [])
        || (&& (b.accTxData == [] || b.stakeTxData == [] || b.configTxData == [])
            && (forall h <- b.fundsTxData :: h in closed && closed[h].FundsT? && closed[h].funds.aggregated)
            && (forall h <- b.aggTxData :: h in closed && closed[h].AggT? && closed[h].agg.aggregated)))
  }

  // What is visited and ripe moves to the other store, and nothing else does.
  lemma {:induction false} EmptiedExactly(w: World, visits: seq<Hash>, height: uint32)
    ensures var w' := EmptyOldBlocks(w, visits, height);
      && w' == w.(closedBlocks := w'.closedBlocks, closedBlocksWithoutTx := w'.closedBlocksWithoutTx)
      && forall h :: h in w'.closedBlocks <==>
        h in w.closedBlocks && !(h in visits && Ripe(w.core.closedTxs, w.closedBlocks[h], height))
    ensures var w' := EmptyOldBlocks(w, visits, height);
      forall h :: h in w'.closedBlocks ==> w'.closedBlocks[h] == w.closedBlocks[h]
  {
    if visits != [] {
      var n := |visits| - 1;
      EmptiedExactly(w, visits[..n], height);
      assert visits == visits[..n] + [visits[n]];
      if visits[n] in w.closedBlocks {
        RipeIsReady(w.core.closedTxs, w.closedBlocks[visits[n]], height);
      }
    }
  }

  lemma RipeIsReady(closed: TxStore, b: Block, height: uint32)
    ensures !b.aggregated && b.height > 0 && b.height < height - NO_EMPTYING_LENGTH && BlockReadyToAggregate(closed, b)
      <==> Ripe(closed, b, height)
  {
    if BlockReadyToAggregate(closed, b) && !b.CountsNone() {
      forall h | h in b.fundsTxData ensures h in closed && closed[h].FundsT? && closed[h].funds.aggregated {
        var i :| 0 <= i < |b.fundsTxData| && b.fundsTxData[i] == h;
      }
      forall h | h in b.aggTxData ensures h in closed && closed[h].AggT? && closed[h].agg.aggregated {
        var i :| 0 <= i < |b.aggTxData| && b.aggTxData[i] == h;
      }
    }
    if Ripe(closed, b, height) {
      assert forall i :: 0 <= i < |b.fundsTxData| ==> b.fundsTxData[i] in b.fundsTxData;
      assert forall i :: 0 <= i < |b.aggTxData| ==> b.aggTxData[i] in b.aggTxData;
    }
  }

  // An emptied block is marked and gives up its funds transactions and aggregations; one that counted nothing keeps its
  // lists.
  ghost predicate EmptiedFrom(b: Block, e: Block) {
    if b.nrFundsTx == 0 && b.nrAggTx == 0 && b.accTxData == [] && b.stakeTxData == [] && b.configTxData == []
    then e == b.(aggregated := true)
    else e == b.(aggregated := true, fundsTxData := [], aggTxData := [], nrFundsTx := 0, nrAggTx := 0)
  }

  ghost predicate Moves(w: World, visits: seq<Hash>, height: uint32, h: Hash) {
    h in w.closedBlocks && h in visits && Ripe(w.core.closedTxs, w.closedBlocks[h], height)
  }

  // The hashes without transactions tell the closed blocks apart.
  ghost predicate ToldApart(w: World) {
    forall h, k :: h in w.closedBlocks && k in w.closedBlocks && h != k ==>
      w.closedBlocks[h].hashWithoutTx != w.closedBlocks[k].hashWithoutTx
  }

  // What moves is stored emptied under its hash without transactions.
  lemma {:induction false} EmptiedHolds(w: World, visits: seq<Hash>, height: uint32, h: Hash)
    requires ToldApart(w) && Moves(w, visits, height, h)
    ensures var w', b := EmptyOldBlocks(w, visits, height), w.closedBlocks[h];
      b.hashWithoutTx in w'.closedBlocksWithoutTx && EmptiedFrom(b, w'.closedBlocksWithoutTx[b.hashWithoutTx])
  {
    var n := |visits| - 1;
    var before, last := EmptyOldBlocks(w, visits[..n], height), visits[n];
    assert visits == visits[..n] + [last];
    EmptiedExactly(w, visits[..n], height);
    if h in visits[..n] {
      EmptiedHolds(w, visits[..n], height, h);
    }
    if last in w.closedBlocks {
      RipeIsReady(w.core.closedTxs, w.closedBlocks[last], height);
    }
  }

  // -------------------- failures --------------------

  // What a block leaves behind that fails in its state change. Pools, parameters, statistics and pointers are as they
  // were. Unless it failed late, so is everything but the ledger. A late failure also unmarks the closed members of its
  // aggregations, and brings back the emptied blocks in which they were closed.
  lemma FailedLeaves(w: World, b: Block, env: Env, k: Hash)
    requires PreValidate(w, b, env) && FetchTransactions(w, b, env).DataFound?
    requires w.core.Valid() && ValidateOne(w, b, env).Rejected?
    ensures var w', data := ValidateOne(w, b, env).world, FetchTransactions(w, b, env).data;
      var state := ValidateState(w.core.ledger, w.core.closedTxs.Keys, Active(w.core.params), data, false);
      && state.Failed? && w'.core == w.core.(ledger := state.ledger, closedTxs := w'.core.closedTxs)
      && w' == w.(core := w'.core, closedBlocks := w'.closedBlocks, closedBlocksWithoutTx := w'.closedBlocksWithoutTx)
    ensures var w', data := ValidateOne(w, b, env).world, FetchTransactions(w, b, env).data;
      if FailsLate(w.core.ledger, w.core.closedTxs.Keys, data, false) then
        && UnmarkedUnder(data, w.core.closedTxs, w'.core.closedTxs, k)
        && (k in w'.closedBlocksWithoutTx <==>
            && k in w.closedBlocksWithoutTx
            && forall h <- Members(data.aggTxs) :: !CallsFor(w.core.closedTxs, h, data.block.hashWithoutTx, k))
      else w' == w.(core := w.core.(ledger := w'.core.ledger))
  {
    hide ValidateState, FetchTransactions, PreValidate, ReactivateAggs, UnmarkAggs, CollectStatistics,
         ConfigStateChange,
         CloseBlock, FailsLate, Members;
    var data := FetchTransactions(w, b, env).data;
    UnmarkedAggsAt(w.core.closedTxs, data.aggTxs, data.block.hashWithoutTx, k);
    BringsBackExactly(w, data.aggTxs, data.block.hashWithoutTx, k);
  }

  // A member that is an aggregation, or a funds transaction closed under another block, loses its mark; nothing else
  // changes.
  ghost predicate UnmarkedUnder(data: BlockData, closed: TxStore, closed': TxStore, k: Hash) {
    && (k in closed' <==> k in closed)
    && (k in closed ==>
        closed'[k]
          == if k !in Members(data.aggTxs) then closed[k]
             else if closed[k].AggT? then AggT(closed[k].agg.(aggregated := false))
             else if closed[k].FundsT? && closed[k].funds.block != data.block.hashWithoutTx
             then FundsT(closed[k].funds.(aggregated := false))
             else closed[k])
  }
}
