/** Rolling back a block with aggregations: the rollback finds what is closed under the block, and this is what the
    block applied exactly when no transaction is listed both by itself and inside an aggregation. */
module AggregatedRollback {
  import opened Words
  import opened Protocol
  import opened Transactions
  import opened ClosedAggregations
  import opened Ledger
  import opened Effects
  import opened StageEffects
  import opened Validation
  import opened BlockEffects
  import opened UndoEffects
  import opened AccountStage
  import opened BlockInverse

  // What the rollback of the block finds, read from the transactions closed by postValidate.
  ghost function BlockGroups(m: TxStore, data: BlockData): seq<seq<FundsTx>> {
    Groups(CloseBlock(m, data), data.aggTxs, data.block.hashWithoutTx)
  }

  // The aggregated funds transactions are the new ones, in some order.
  ghost predicate NewOnesApplied(data: BlockData) {
    multiset(data.aggFunds) == multiset(NewFunds(data.members, Members(data.aggTxs)))
  }

  ghost predicate FeesMatch(data: BlockData) { multiset(Bares(data.aggFees)) == multiset(Bares(data.aggFunds)) }

  lemma MatchingFeesCancel(accounts: set<Hash>, data: BlockData)
    requires FeesMatch(data)
    ensures FeesCancel(accounts, data)
  {
    hide Net, FeeMoves, Bares;
    forall a | a in accounts
      ensures Net(FeeMoves(data.block.beneficiary, FundsFees(data.aggFees)), a)
        == Net(FeeMoves(data.block.beneficiary, FundsFees(data.aggFunds)), a)
    {
      FundsNetSame({}, data.block.beneficiary, data.aggFees, data.aggFunds, a);
    }
  }

  // No transaction is listed by itself and inside an aggregation, unless it came with the block's own hash.
  ghost predicate ListedOnce(data: BlockData) {
    forall tx <- data.fundsTxs :: tx.hash in Members(data.aggTxs) ==> tx.block == data.block.hashWithoutTx
  }

  // A hash names one transaction, whichever list it is read from.
  ghost predicate OneContent(data: BlockData) {
    forall k <- data.members ::
      && (data.members[k].FundsT? ==> !Names(data.aggTxs, k))
      && forall tx <- BlockTxs(data) :: tx.Hash() == k ==> SameFunds(tx, data.members[k])
  }

  predicate SameFunds(tx: Tx, other: Tx) { tx.FundsT? && other.FundsT? && Bare(tx.funds) == Bare(other.funds) }

  // -------------------- permutations --------------------

  lemma {:induction false} BaresPermutation(xs: seq<FundsTx>, ys: seq<FundsTx>)
    requires multiset(xs) == multiset(ys)
    ensures multiset(Bares(xs)) == multiset(Bares(ys))
    decreases |xs|
  {
    if xs == [] {
      assert |multiset(ys)| == 0;
      assert Bares(xs) == Bares(ys);
    } else {
      var last := |xs| - 1;
      assert xs[last] in multiset(ys);
      var i :| 0 <= i < |ys| && ys[i] == xs[last];
      WithoutOne(xs, last);
      WithoutOne(ys, i);
      BaresPermutation(Without(xs, last), Without(ys, i));
      BaresWithout(xs, last);
      BaresWithout(ys, i);
    }
  }

  lemma BaresWithout(xs: seq<FundsTx>, i: nat)
    requires i < |xs|
    ensures multiset(Bares(xs)) == multiset(Bares(Without(xs, i))) + multiset{Bare(xs[i])}
  {
    assert Bares(Without(xs, i)) == Without(Bares(xs), i);
    WithoutOne(Bares(xs), i);
  }

  lemma {:induction false} FoundConcat(m: TxStore, hs: seq<Hash>, more: seq<Hash>, hash: Hash)
    ensures multiset(FoundIn(m, hs + more, hash)) == multiset(FoundIn(m, hs, hash)) + multiset(FoundIn(m, more, hash))
  {
    if more == [] {
      assert hs + more == hs;
    } else {
      assert (hs + more)[..|hs + more| - 1] == hs + more[..|more| - 1];
      FoundConcat(m, hs, more[..|more| - 1], hash);
    }
  }

  lemma {:induction false} GroupsFlat(m: TxStore, aggs: seq<AggTx>, hash: Hash)
    ensures multiset(Flatten(Groups(m, aggs, hash))) == multiset(FoundIn(m, Members(aggs), hash))
  {
    hide FoundIn, SortedByTxCount;
    if aggs == [] {
      NoneFound(m, hash);
    } else {
      var n := |aggs| - 1;
      GroupsFlat(m, aggs[..n], hash);
      FoundConcat(m, Members(aggs[..n]), aggs[n].members, hash);
      assert Groups(m, aggs, hash)[..n] == Groups(m, aggs[..n], hash);
    }
  }

  lemma NoneFound(m: TxStore, hash: Hash)
    ensures FoundIn(m, [], hash) == []
  {
  }

  // -------------------- what is found --------------------

  predicate FoundAt(m: TxStore, h: Hash, hash: Hash) { h in m && m[h].FundsT? && m[h].funds.block == hash }

  // Of the members the rollback finds the new funds transactions, and of those listed by themselves only the ones that
  // came with the block's hash.
  lemma MemberFound(m: TxStore, data: BlockData, h: Hash)
    requires FreshStore(m, data) && StoreRollsBack(m, data) && OneContent(data) && h in Members(data.aggTxs)
    ensures var r, hash := CloseBlock(m, data), data.block.hashWithoutTx;
      && (FoundAt(r, h, hash) ==> h in data.members && SameFunds(r[h], data.members[h]))
      && (h in data.members && data.members[h].FundsT? ==>
          (FoundAt(r, h, hash) <==> forall tx <- data.fundsTxs :: tx.hash == h ==> tx.block == hash))
  {
    hide CloseAggs, WriteTxs, Members, Names, OneContent;
    var hash, txs := data.block.hashWithoutTx, BlockTxs(data);
    var m1 := WriteTxs(m, txs);
    WrittenTxs(m, txs);
    ListedAt(m, txs, h);
    ClosedAggsAt(m1, data.members, data.aggTxs, hash, h);
    assert MemberRollsBack(m, data, h);
    if h in data.members {
      ContentAt(data, h);
    }
    if h in HashesOf(txs) {
      var i :| 0 <= i < |txs| && HashesOf(txs)[i] == h;
      assert m1[h] == txs[i];
      OnlyListed(data, i);
    } else {
      NotListed(data, h);
    }
  }

  lemma ContentAt(data: BlockData, k: Hash)
    requires OneContent(data) && k in data.members
    ensures data.members[k].FundsT? ==> !Names(data.aggTxs, k)
    ensures forall tx <- BlockTxs(data) :: tx.Hash() == k ==> SameFunds(tx, data.members[k])
  {
  }

  lemma NotListed(data: BlockData, h: Hash)
    requires h !in HashesOf(BlockTxs(data))
    ensures forall tx <- data.fundsTxs :: tx.hash != h
  {
    forall tx | tx in data.fundsTxs ensures tx.hash != h {
      var j :| 0 <= j < |data.fundsTxs| && data.fundsTxs[j] == tx;
      assert HashesOf(BlockTxs(data))[|data.accTxs| + j] == tx.hash;
    }
  }

  // The listed transaction of a hash is the only one.
  lemma OnlyListed(data: BlockData, i: nat)
    requires NoDuplicates(HashesOf(BlockTxs(data))) && i < |BlockTxs(data)|
    ensures BlockTxs(data)[i] in BlockTxs(data)
    ensures forall tx <- data.fundsTxs :: tx.hash == BlockTxs(data)[i].Hash() ==> FundsT(tx) == BlockTxs(data)[i]
    ensures BlockTxs(data)[i].FundsT? ==> BlockTxs(data)[i].funds in data.fundsTxs
  {
    forall tx | tx in data.fundsTxs && tx.hash == BlockTxs(data)[i].Hash() ensures FundsT(tx) == BlockTxs(data)[i] {
      var j :| 0 <= j < |data.fundsTxs| && data.fundsTxs[j] == tx;
      assert HashesOf(BlockTxs(data))[|data.accTxs| + j] == tx.hash == HashesOf(BlockTxs(data))[i];
    }
  }

  lemma {:induction false} NewAreMembers(members: TxStore, hs: seq<Hash>, tx: FundsTx)
    requires tx in NewFunds(members, hs)
    ensures exists h <- hs :: h in members && members[h] == FundsT(tx)
  {
    var n := |hs| - 1;
    if n >= 0 {
      assert hs == hs[..n] + [hs[n]];
      if tx in NewFunds(members, hs[..n]) {
        NewAreMembers(members, hs[..n], tx);
        var h :| h in hs[..n] && h in members && members[h] == FundsT(tx);
        assert h in hs;
      } else {
        assert hs[n] in hs && members[hs[n]] == FundsT(tx);
      }
    }
  }

  lemma {:induction false} MembersAreNew(members: TxStore, hs: seq<Hash>, h: Hash)
    requires h in hs && h in members && members[h].FundsT?
    ensures members[h].funds in NewFunds(members, hs)
  {
    var n := |hs| - 1;
    assert hs == hs[..n] + [hs[n]];
    if h != hs[n] {
      MembersAreNew(members, hs[..n], h);
    }
  }

  lemma {:induction false} FoundAreClosed(r: TxStore, hs: seq<Hash>, hash: Hash, tx: FundsTx)
    requires tx in FoundIn(r, hs, hash)
    ensures exists h <- hs :: FoundAt(r, h, hash) && r[h].funds == tx
  {
    var n := |hs| - 1;
    if n >= 0 {
      assert hs == hs[..n] + [hs[n]];
      if tx in FoundIn(r, hs[..n], hash) {
        FoundAreClosed(r, hs[..n], hash, tx);
        var h :| h in hs[..n] && FoundAt(r, h, hash) && r[h].funds == tx;
        assert h in hs;
      } else {
        assert hs[n] in hs && FoundAt(r, hs[n], hash) && r[hs[n]].funds == tx;
      }
    }
  }

  // What is found was applied, by itself or inside an aggregation.
  lemma FoundWasApplied(m: TxStore, data: BlockData, h: Hash)
    requires FreshStore(m, data) && StoreRollsBack(m, data) && h in Members(data.aggTxs)
    requires FoundAt(CloseBlock(m, data), h, data.block.hashWithoutTx)
    ensures (exists tx <- data.fundsTxs :: Bare(tx) == Bare(CloseBlock(m, data)[h].funds))
         || (h in data.members && data.members[h].FundsT?
           && Bare(data.members[h].funds) == Bare(CloseBlock(m, data)[h].funds))
  {
    hide CloseAggs, WriteTxs, Members, Names;
    var hash, txs := data.block.hashWithoutTx, BlockTxs(data);
    var m1 := WriteTxs(m, txs);
    WrittenTxs(m, txs);
    ListedAt(m, txs, h);
    ClosedAggsAt(m1, data.members, data.aggTxs, hash, h);
    assert MemberRollsBack(m, data, h);
    if h in HashesOf(txs) {
      var i :| 0 <= i < |txs| && HashesOf(txs)[i] == h;
      assert m1[h] == txs[i];
      OnlyListed(data, i);
    }
  }

  lemma OnlyAppliedFound(m: TxStore, data: BlockData)
    requires FreshStore(m, data) && StoreRollsBack(m, data) && NewOnesApplied(data)
    ensures GroupsApplied(data, BlockGroups(m, data))
  {
    hide CloseBlock, Members, StoreRollsBack, FreshStore, FoundIn, NewFunds, Groups, Flatten, Bare;
    var r, hs, hash := CloseBlock(m, data), Members(data.aggTxs), data.block.hashWithoutTx;
    var groups := BlockGroups(m, data);
    GroupsFlat(r, data.aggTxs, hash);
    forall tx | tx in Flatten(groups) ensures Bare(tx) in Bares(data.fundsTxs) || Bare(tx) in Bares(data.aggFunds) {
      assert tx in multiset(FoundIn(r, hs, hash));
      FoundAreClosed(r, hs, hash, tx);
      var h :| h in hs && FoundAt(r, h, hash) && r[h].funds == tx;
      FoundWasApplied(m, data, h);
      if other :| other in data.fundsTxs && Bare(other) == Bare(tx) {
        BareIn(data.fundsTxs, other);
      } else {
        MembersAreNew(data.members, hs, h);
        assert data.members[h].funds in multiset(data.aggFunds);
        BareIn(data.aggFunds, data.members[h].funds);
      }
    }
  }

  lemma BareIn(txs: seq<FundsTx>, tx: FundsTx)
    requires tx in txs
    ensures Bare(tx) in Bares(txs)
  {
    var i :| 0 <= i < |txs| && txs[i] == tx;
    assert Bares(txs)[i] == Bare(tx);
  }

  // -------------------- the exact guard --------------------

  ghost function CountFrom(txs: seq<FundsTx>, a: Hash): nat {
    if txs == [] then 0 else CountFrom(txs[..|txs| - 1], a) + if txs[|txs| - 1].from == a then 1 else 0
  }

  lemma {:induction false} MarksCount(txs: seq<FundsTx>, a: Hash)
    ensures Net(FundsMarks(txs), a) == CountFrom(txs, a) <= |txs|
  {
    if txs != [] {
      MarksCount(txs[..|txs| - 1], a);
      NetConcat(FundsMarks(txs[..|txs| - 1]), [Move(txs[|txs| - 1].from, 1)], a);
      NetOne(Move(txs[|txs| - 1].from, 1), a);
    }
  }

  lemma CountSnoc(txs: seq<FundsTx>, tx: FundsTx, a: Hash)
    ensures CountFrom(txs + [tx], a) == CountFrom(txs, a) + if tx.from == a then 1 else 0
  {
    assert (txs + [tx])[..|txs|] == txs;
  }

  lemma {:induction false} CountFirst(tx: FundsTx, txs: seq<FundsTx>, a: Hash)
    ensures CountFrom([tx] + txs, a) == CountFrom(txs, a) + if tx.from == a then 1 else 0
  {
    if txs == [] {
      assert [tx] + txs == [] + [tx];
      CountSnoc([], tx, a);
    } else {
      var n := |txs| - 1;
      CountFirst(tx, txs[..n], a);
      assert [tx] + txs == [tx] + txs[..n] + [txs[n]];
      CountSnoc([tx] + txs[..n], txs[n], a);
    }
  }

  // A member is missed: a new funds transaction that the rollback does not find.
  ghost predicate MissedAt(r: TxStore, data: BlockData, h: Hash) {
    h in data.members && data.members[h].FundsT? && !FoundAt(r, h, data.block.hashWithoutTx)
  }

  ghost predicate FindsNewOnly(r: TxStore, data: BlockData, hs: seq<Hash>) {
    forall h <- hs :: FoundAt(r, h, data.block.hashWithoutTx) ==> h in data.members && SameFunds(r[h], data.members[h])
  }

  // One more hash, found and new.
  lemma FoundSnoc(r: TxStore, hs: seq<Hash>, h: Hash, hash: Hash)
    ensures FoundIn(r, hs + [h], hash) == if FoundAt(r, h, hash) then [r[h].funds] + FoundIn(r, hs, hash)
      else FoundIn(r, hs, hash)
  {
    assert (hs + [h])[..|hs|] == hs;
  }

  lemma NewSnoc(members: TxStore, hs: seq<Hash>, h: Hash)
    ensures NewFunds(members, hs + [h])
      == if h in members && members[h].FundsT? then NewFunds(members, hs) + [members[h].funds]
        else NewFunds(members, hs)
  {
    assert (hs + [h])[..|hs|] == hs;
  }

  // No more is found than is new, and less where a member of that sender is missed.
  lemma {:induction false} FoundCounts(r: TxStore, data: BlockData, hs: seq<Hash>, a: Hash)
    requires FindsNewOnly(r, data, hs)
    ensures var found, added := FoundIn(r, hs, data.block.hashWithoutTx), NewFunds(data.members, hs);
      && CountFrom(found, a) <= CountFrom(added, a) <= CountFrom(found, a) + |hs|
      && (forall h <- hs :: MissedAt(r, data, h) && data.members[h].funds.from == a ==>
          CountFrom(found, a) < CountFrom(added, a))
  {
    hide CountFrom, FoundIn, NewFunds;
    var hash := data.block.hashWithoutTx;
    if hs == [] {
      NoneCounted(r, data.members, hash, a);
    } else {
      var n := |hs| - 1;
      var h, rest := hs[n], hs[..n];
      assert hs == rest + [h];
      FoundCounts(r, data, rest, a);
      FoundSnoc(r, rest, h, hash);
      NewSnoc(data.members, rest, h);
      if h in data.members && data.members[h].FundsT? {
        CountSnoc(NewFunds(data.members, rest), data.members[h].funds, a);
      }
      if FoundAt(r, h, hash) {
        CountFirst(r[h].funds, FoundIn(r, rest, hash), a);
        assert SameFunds(r[h], data.members[h]);
      }
    }
  }

  lemma NoneCounted(r: TxStore, members: TxStore, hash: Hash, a: Hash)
    ensures FoundIn(r, [], hash) == NewFunds(members, []) == [] && CountFrom([], a) == 0
  {
  }

  // Everything found is new, and all that is new is found where nothing is missed.
  lemma {:induction false} FoundSame(r: TxStore, data: BlockData, hs: seq<Hash>)
    requires FindsNewOnly(r, data, hs)
    ensures var found, added := Bares(FoundIn(r, hs, data.block.hashWithoutTx)), Bares(NewFunds(data.members, hs));
      && (forall tx <- found :: tx in added)
      && ((forall h <- hs :: !MissedAt(r, data, h)) ==> multiset(found) == multiset(added))
  {
    hide FoundIn, NewFunds, Bare, Bares;
    var hash := data.block.hashWithoutTx;
    if hs == [] {
      NoneCounted(r, data.members, hash, 0);
    } else {
      var n := |hs| - 1;
      var h, rest := hs[n], hs[..n];
      assert hs == rest + [h];
      FoundSame(r, data, rest);
      FoundSnoc(r, rest, h, hash);
      NewSnoc(data.members, rest, h);
      var found, added := FoundIn(r, rest, hash), NewFunds(data.members, rest);
      assert forall k <- rest :: k in hs;
      assert MissedAt(r, data, h) ==> h in hs;
      if h in data.members && data.members[h].FundsT? {
        BaresAppend(added, data.members[h].funds);
      }
      if FoundAt(r, h, hash) {
        BaresPrepend(r[h].funds, found);
        assert SameFunds(r[h], data.members[h]);
        assert Bare(r[h].funds) == Bare(data.members[h].funds);
      }
    }
  }

  lemma BaresAppend(txs: seq<FundsTx>, tx: FundsTx)
    ensures Bares(txs + [tx]) == Bares(txs) + [Bare(tx)]
  {
  }

  lemma BaresPrepend(tx: FundsTx, txs: seq<FundsTx>)
    ensures Bares([tx] + txs) == [Bare(tx)] + Bares(txs)
  {
  }

  lemma NewOnly(m: TxStore, data: BlockData)
    requires FreshStore(m, data) && StoreRollsBack(m, data) && OneContent(data)
    ensures FindsNewOnly(CloseBlock(m, data), data, Members(data.aggTxs))
    ensures ListedOnce(data) <==> forall h <- Members(data.aggTxs) :: !MissedAt(CloseBlock(m, data), data, h)
  {
    hide CloseBlock, Members, StoreRollsBack, OneContent, FreshStore, SameFunds;
    var r := CloseBlock(m, data);
    forall h | h in Members(data.aggTxs)
      ensures FoundAt(r, h, data.block.hashWithoutTx) ==> h in data.members && SameFunds(r[h], data.members[h])
      ensures MissedAt(r, data, h) ==> exists tx <- data.fundsTxs ::
        tx.hash == h && tx.block != data.block.hashWithoutTx
    {
      MemberFound(m, data, h);
    }
    if !ListedOnce(data) {
      var tx :| tx in data.fundsTxs && tx.hash in Members(data.aggTxs) && tx.block != data.block.hashWithoutTx;
      ListedIsMember(m, data, tx);
      MemberFound(m, data, tx.hash);
    }
  }

  // A transaction listed twice was fetched for both lists.
  lemma ListedIsMember(m: TxStore, data: BlockData, tx: FundsTx)
    requires FreshStore(m, data) && OneContent(data) && tx in data.fundsTxs && tx.hash in Members(data.aggTxs)
    ensures tx.hash in data.members && data.members[tx.hash].FundsT? && data.members[tx.hash].funds.from == tx.from
  {
    var j :| 0 <= j < |data.fundsTxs| && data.fundsTxs[j] == tx;
    assert BlockTxs(data)[|data.accTxs| + j] == FundsT(tx);
    assert tx.hash !in m;
    assert SameFunds(FundsT(tx), data.members[tx.hash]);
  }

  // The groups the rollback finds are what the block applied exactly when every transaction is listed once.
  lemma GroupsMatchExactly(m: TxStore, data: BlockData)
    requires FreshStore(m, data) && StoreRollsBack(m, data) && OneContent(data) && NewOnesApplied(data)
    ensures GroupsApplied(data, BlockGroups(m, data))
    ensures GroupsMatch(data, BlockGroups(m, data)) <==> ListedOnce(data)
  {
    hide CloseBlock, Members, StoreRollsBack, OneContent, FreshStore, SameFunds, FoundIn, NewFunds, Groups, Flatten,
         Bares,
         Bare;
    var r, hs, hash := CloseBlock(m, data), Members(data.aggTxs), data.block.hashWithoutTx;
    var groups := BlockGroups(m, data);
    NewOnly(m, data);
    FoundSame(r, data, hs);
    GroupsFlat(r, data.aggTxs, hash);
    BaresPermutation(Flatten(groups), FoundIn(r, hs, hash));
    BaresPermutation(data.aggFunds, NewFunds(data.members, hs));
    AllBare(groups, FoundIn(r, hs, hash), NewFunds(data.members, hs), data);
    if !ListedOnce(data) {
      var h :| h in hs && MissedAt(r, data, h);
      var a := data.members[h].funds.from;
      FoundCounts(r, data, hs, a);
      SameCounts(Flatten(groups), FoundIn(r, hs, hash), a);
      SameCounts(data.aggFunds, NewFunds(data.members, hs), a);
      if GroupsMatch(data, groups) {
        SameCounts(Flatten(groups), data.aggFunds, a);
      }
    }
  }

  lemma AllBare(groups: seq<seq<FundsTx>>, found: seq<FundsTx>, added: seq<FundsTx>, data: BlockData)
    requires multiset(Flatten(groups)) == multiset(found) && multiset(Bares(added)) == multiset(Bares(data.aggFunds))
    requires forall tx <- Bares(found) :: tx in Bares(added)
    ensures GroupsApplied(data, groups)
  {
    forall tx | tx in Flatten(groups) ensures Bare(tx) in Bares(data.aggFunds) {
      assert tx in multiset(found);
      var i :| 0 <= i < |found| && found[i] == tx;
      assert Bares(found)[i] in Bares(added);
      assert Bare(tx) in multiset(Bares(data.aggFunds));
    }
  }

  lemma SameCounts(xs: seq<FundsTx>, ys: seq<FundsTx>, a: Hash)
    requires multiset(Bares(xs)) == multiset(Bares(ys))
    ensures CountFrom(xs, a) == CountFrom(ys, a)
  {
    hide Net, FundsMarks, CountFrom, Bares;
    FundsNetSame({}, 0, xs, ys, a);
    MarksCount(xs, a);
    MarksCount(ys, a);
  }

  // With a missed member of a sender who was there before, the counters do not agree.
  lemma MissedDisagrees(m: TxStore, accounts: set<Hash>, roots: set<Hash>, p: Parameters, data: BlockData)
    requires FreshStore(m, data) && StoreRollsBack(m, data) && OneContent(data) && NewOnesApplied(data)
    requires !ListedOnce(data) && |Members(data.aggTxs)| < TWO_32
    requires forall tx <- data.fundsTxs :: tx.hash in Members(data.aggTxs) ==> tx.from in accounts
    ensures !NetsAgree(accounts, roots, p, data, BlockGroups(m, data))
  {
    hide CloseBlock, Members, StoreRollsBack, OneContent, FreshStore, SameFunds, FoundIn, NewFunds, Groups, Flatten,
         Bares,
         Bare, Net, BlockMoves, UndoMoves, FundsMarks, CountFrom, FoundAt;
    var r, hs, hash := CloseBlock(m, data), Members(data.aggTxs), data.block.hashWithoutTx;
    var groups := BlockGroups(m, data);
    NewOnly(m, data);
    var tx :| tx in data.fundsTxs && tx.hash in hs && tx.block != hash;
    var a := tx.from;
    ListedIsMember(m, data, tx);
    MemberFound(m, data, tx.hash);
    FoundCounts(r, data, hs, a);
    GroupsFlat(r, data.aggTxs, hash);
    BaresPermutation(Flatten(groups), FoundIn(r, hs, hash));
    BaresPermutation(data.aggFunds, NewFunds(data.members, hs));
    SameCounts(Flatten(groups), FoundIn(r, hs, hash), a);
    SameCounts(data.aggFunds, NewFunds(data.members, hs), a);
    MarksNet(p, data, groups, roots, a);
    SmallDifference(CountFrom(data.aggFunds, a) - CountFrom(Flatten(groups), a));
  }

  lemma SmallDifference(d: int)
    requires 0 < d < TWO_32
    ensures Wrap32(d) != 0
  {
  }

  lemma MarksNet(p: Parameters, data: BlockData, groups: seq<seq<FundsTx>>, roots: set<Hash>, a: Hash)
    ensures Net(BlockMarks(data), a) - Net(UndoMarks(data, groups), a)
      == CountFrom(data.aggFunds, a) - CountFrom(Flatten(groups), a)
  {
    hide Net, FundsMarks, CountFrom, Flatten, BlockMarks, UndoMarks;
    UndoDifference(roots, p, data, groups, a);
    MarksCount(data.aggFunds, a);
    MarksCount(Flatten(groups), a);
  }

  // validateState, postValidate and the configuration stage, then the rollback with what it reads back: the ledger is
  // where it was if and only if the block meets the condition, lists no transaction both by itself and inside an
  // aggregation, and collects no fees for its aggregations but those of the applied transactions, up to what cancels.
  lemma AggregatesRollBackExactly(l: Ledger, m: TxStore, p: Parameters, data: BlockData, configured: Ledger)
    requires l.Valid() && BlockFresh(m.Keys, data, false) && ValidateState(l, m.Keys, p, data, false).Done?
    requires OnlyUnstakes(ValidateState(l, m.Keys, p, data, false).ledger, configured)
    requires FreshStore(m, data) && StoreRollsBack(m, data) && OneContent(data) && NewOnesApplied(data)
    requires |Members(data.aggTxs)| < TWO_32
    requires forall tx <- data.fundsTxs :: tx.hash in Members(data.aggTxs) ==> tx.from in l.accounts
    ensures ValidateStateRollback(configured, p, data, BlockGroups(m, data)) == Done(l)
      <==> && LedgerRollsBack(l, ValidateState(l, m.Keys, p, data, false).ledger, configured, data)
           && ListedOnce(data) && FeesCancel(l.accounts.Keys, data)
  {
    hide FreshStore, StoreRollsBack, OneContent, NewOnesApplied, FeesCancel, ListedOnce, BlockGroups, ValidateState,
         ValidateStateRollback, NetsAgree, GroupsApplied, GroupsMatch, LedgerRollsBack, OnlyUnstakes, BlockFresh,
           Members;
    var groups := BlockGroups(m, data);
    GroupsMatchExactly(m, data);
    RollbackInvertsLedger(l, m.Keys, p, data, false, configured, groups);
    var roots := AccStateChange(l, data.accTxs).ledger.rootKeys;
    if ListedOnce(data) {
      MatchingGroupsAgree(l.accounts.Keys, roots, p, data, groups);
    } else {
      MissedDisagrees(m, l.accounts.Keys, roots, p, data);
    }
  }
}
