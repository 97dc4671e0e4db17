/** What aggregations do to the closed transactions (miner/block_validation.go, miner/staterollback.go,
    miner/blockrollback.go): a new member is recorded under the block, an old one is marked as aggregated; the rollback
    undoes what it finds recorded under the block, unmarks the rest and takes its own transactions out again. */
module ClosedAggregations {
  import opened Words
  import opened Protocol
  import opened Transactions

  // The hashes inside the aggregations, one aggregation after the other.
  function Members(aggs: seq<AggTx>): seq<Hash> {
    if aggs == [] then [] else Members(aggs[..|aggs| - 1]) + aggs[|aggs| - 1].members
  }

  // tx.Aggregated = mark, for the kinds that have the field.
  function Mark(tx: Tx, mark: bool): Tx {
    if tx.FundsT? then FundsT(tx.funds.(aggregated := mark))
    else if tx.AggT? then AggT(tx.agg.(aggregated := mark))
    else tx
  }

  predicate IsMarked(tx: Tx) { (tx.FundsT? && tx.funds.aggregated) || (tx.AggT? && tx.agg.aggregated) }

  // tx.Block == hash
  predicate Carries(tx: Tx, hash: Hash) { (tx.FundsT? && tx.funds.block == hash) || (tx.AggT? && tx.agg.block == hash) }

  // A member closed for the first time: only a funds transaction is given the block.
  function Record(tx: Tx, hash: Hash): Tx {
    if tx.FundsT? then FundsT(tx.funds.(block := hash, aggregated := true)) else Mark(tx, true)
  }

  // -------------------- closing --------------------

  function CloseMember(m: TxStore, members: TxStore, h: Hash, hash: Hash): TxStore {
    if h in m then m[h := Mark(m[h], true)]
    else if h in members then m[h := Record(members[h], hash)]
    else m
  }

  function CloseMembers(m: TxStore, members: TxStore, hs: seq<Hash>, hash: Hash): TxStore {
    if hs == [] then m else CloseMember(CloseMembers(m, members, hs[..|hs| - 1], hash), members, hs[|hs| - 1], hash)
  }

  function CloseAgg(m: TxStore, members: TxStore, agg: AggTx, hash: Hash): TxStore {
    CloseMembers(m, members, agg.members, hash)[agg.hash := AggT(agg.(block := hash, aggregated := false))]
  }

  function CloseAggs(m: TxStore, members: TxStore, aggs: seq<AggTx>, hash: Hash): TxStore {
    if aggs == [] then m else CloseAgg(CloseAggs(m, members, aggs[..|aggs| - 1], hash), members, aggs[|aggs| - 1], hash)
  }

  // The closed transactions after postValidate. A listed transaction is written before it is given the block, so it
  // keeps the block it came with.
  function CloseBlock(m: TxStore, data: BlockData): TxStore {
    CloseAggs(WriteTxs(m, BlockTxs(data)), data.members, data.aggTxs, data.block.hashWithoutTx)
  }

  // The open ones.
  function DeleteHashes(m: TxStore, hs: seq<Hash>): TxStore {
    if hs == [] then m else DeleteHashes(m, hs[..|hs| - 1]) - {hs[|hs| - 1]}
  }

  function DeleteAggs(m: TxStore, aggs: seq<AggTx>): TxStore {
    if aggs == [] then m
    else DeleteHashes(DeleteAggs(m, aggs[..|aggs| - 1]), aggs[|aggs| - 1].members) - {aggs[|aggs| - 1].hash}
  }

  function CloseOpen(m: TxStore, data: BlockData): TxStore { DeleteAggs(DeleteTxs(m, BlockTxs(data)), data.aggTxs) }

  // -------------------- the rollback's groups --------------------

  // The funds transactions among the hashes that carry the block, last first.
  function FoundIn(m: TxStore, hs: seq<Hash>, hash: Hash): seq<FundsTx> {
    if hs == [] then []
    else
      var h, rest := hs[|hs| - 1], FoundIn(m, hs[..|hs| - 1], hash);
      if h in m && m[h].FundsT? && m[h].funds.block == hash then [m[h].funds] + rest else rest
  }

  function Groups(m: TxStore, aggs: seq<AggTx>, hash: Hash): (groups: seq<seq<FundsTx>>)
    ensures |groups| == |aggs|
  {
    if aggs == [] then []
    else Groups(m, aggs[..|aggs| - 1], hash) + [SortedByTxCount(FoundIn(m, aggs[|aggs| - 1].members, hash))]
  }

  // The new funds transactions among the hashes, as often as they are listed.
  function NewFunds(members: TxStore, hs: seq<Hash>): seq<FundsTx> {
    if hs == [] then []
    else
      var h, rest := hs[|hs| - 1], NewFunds(members, hs[..|hs| - 1]);
      if h in members && members[h].FundsT? then rest + [members[h].funds] else rest
  }

  // -------------------- what is closed under a block --------------------

  predicate IsLeast(h: Hash, s: set<Hash>) { h in s && forall x <- s :: h <= x }

  lemma {:induction false} LeastExists(s: set<Hash>)
    requires s != {}
    ensures exists h :: IsLeast(h, s)
    decreases |s|
  {
    var h :| h in s;
    var rest := s - {h};
    assert forall x <- s :: x == h || x in rest;
    if rest == {} {
      assert IsLeast(h, s);
    } else {
      LeastExists(rest);
      var l :| IsLeast(l, rest);
      assert IsLeast(if l <= h then l else h, s);
    }
  }

  function Least(s: set<Hash>): (h: Hash)
    requires s != {}
    ensures IsLeast(h, s)
  {
    LeastExists(s);
    var h :| h in s && IsLeast(h, s); h
  }

  // In the order in which the buckets are walked.
  function Ascending(s: set<Hash>): (hs: seq<Hash>)
    ensures forall h :: h in hs <==> h in s
    ensures forall i, j :: 0 <= i < j < |hs| ==> hs[i] < hs[j]
    decreases |s|
  {
    if s == {} then [] else [Least(s)] + Ascending(s - {Least(s)})
  }

  // Those of the hashes that are closed under block k.
  function ClosedUnder(m: TxStore, hs: seq<Hash>, kind: Kind, k: Hash): seq<Hash> {
    if hs == [] then []
    else
      var h, rest := hs[|hs| - 1], ClosedUnder(m, hs[..|hs| - 1], kind, k);
      if h in m && m[h].Kind() == kind && Carries(m[h], k) then rest + [h] else rest
  }

  // sort.Sort(ByHash(hs))
  function SortedHashes(hs: seq<Hash>): (r: seq<Hash>)
    ensures multiset(r) == multiset(hs)
    ensures forall i, j :: 0 <= i < j < |r| ==> r[i] <= r[j]
  {
    if hs == [] then []
    else
      assert hs == hs[..|hs| - 1] + [hs[|hs| - 1]];
      InsertHash(SortedHashes(hs[..|hs| - 1]), hs[|hs| - 1])
  }

  lemma BelowLast(hs: seq<Hash>, h: Hash, rest: seq<Hash>)
    requires hs != [] && h < hs[|hs| - 1] && forall i, j :: 0 <= i < j < |hs| ==> hs[i] <= hs[j]
    requires multiset(rest) == multiset(hs[..|hs| - 1]) + multiset{h}
    ensures forall i :: 0 <= i < |rest| ==> rest[i] <= hs[|hs| - 1]
  {
    forall i | 0 <= i < |rest| ensures rest[i] <= hs[|hs| - 1] {
      assert rest[i] in multiset(rest);
      assert rest[i] == h || rest[i] in hs[..|hs| - 1];
    }
  }

  function InsertHash(hs: seq<Hash>, h: Hash): (r: seq<Hash>)
    requires forall i, j :: 0 <= i < j < |hs| ==> hs[i] <= hs[j]
    ensures multiset(r) == multiset(hs) + multiset{h}
    ensures forall i, j :: 0 <= i < j < |r| ==> r[i] <= r[j]
  {
    if hs == [] || hs[|hs| - 1] <= h then hs + [h]
    else
      var rest, last := InsertHash(hs[..|hs| - 1], h), hs[|hs| - 1];
      assert hs == hs[..|hs| - 1] + [last];
      BelowLast(hs, h, rest);
      rest + [last]
  }

  lemma {:induction false} ClosedUnderIs(m: TxStore, hs: seq<Hash>, kind: Kind, k: Hash, h: Hash)
    ensures h in ClosedUnder(m, hs, kind, k) <==> h in hs && h in m && m[h].Kind() == kind && Carries(m[h], k)
  {
    if hs != [] {
      ClosedUnderIs(m, hs[..|hs| - 1], kind, k, h);
      SnocMember(hs, h);
    }
  }

  // -------------------- unmarking --------------------

  // reactivateHistoricBlockDueToRollback, as far as the transaction itself goes.
  function Unmark(m: TxStore, h: Hash, hash: Hash): TxStore {
    if h in m && (m[h].AggT? || !Carries(m[h], hash)) then m[h := Mark(m[h], false)] else m
  }

  function UnmarkMembers(m: TxStore, hs: seq<Hash>, hash: Hash): TxStore {
    if hs == [] then m else Unmark(UnmarkMembers(m, hs[..|hs| - 1], hash), hs[|hs| - 1], hash)
  }

  // The last aggregation first.
  function UnmarkAggs(m: TxStore, aggs: seq<AggTx>, hash: Hash): TxStore
    decreases aggs
  {
    if aggs == [] then m else UnmarkAggs(UnmarkMembers(m, aggs[|aggs| - 1].members, hash), aggs[..|aggs| - 1], hash)
  }

  // -------------------- reopening --------------------

  function DropMember(m: TxStore, h: Hash, hash: Hash): TxStore {
    if h in m && Carries(m[h], hash) then m - {h} else m
  }

  function DropMembers(m: TxStore, hs: seq<Hash>, hash: Hash): TxStore {
    if hs == [] then m else DropMember(DropMembers(m, hs[..|hs| - 1], hash), hs[|hs| - 1], hash)
  }

  function DropAggs(m: TxStore, aggs: seq<AggTx>, hash: Hash): TxStore {
    if aggs == [] then m
    else DropMembers(DropAggs(m, aggs[..|aggs| - 1], hash), aggs[|aggs| - 1].members, hash) - {aggs[|aggs| - 1].hash}
  }

  // The open transactions o, with the closed ones m that leave.
  function TakeMembers(o: TxStore, m: TxStore, hs: seq<Hash>, hash: Hash): TxStore {
    if hs == [] then o
    else
      var h, rest := hs[|hs| - 1], hs[..|hs| - 1];
      var left := DropMembers(m, rest, hash);
      if h in left && Carries(left[h], hash) then TakeMembers(o, m, rest, hash)[h := left[h]]
      else TakeMembers(o, m, rest, hash)
  }

  function TakeAggs(o: TxStore, m: TxStore, aggs: seq<AggTx>, hash: Hash): TxStore {
    if aggs == [] then o
    else
      var agg, rest := aggs[|aggs| - 1], aggs[..|aggs| - 1];
      TakeMembers(TakeAggs(o, m, rest, hash), DropAggs(m, rest, hash), agg.members, hash)[agg.hash := AggT(agg)]
  }

  // The closed transactions after the rollback of a block, `data` as it was read back.
  function ReopenClosed(m: TxStore, data: BlockData): TxStore {
    var hash := data.block.hashWithoutTx;
    DropAggs(DeleteTxs(UnmarkAggs(m, data.aggTxs, hash), BlockTxs(data)), data.aggTxs, hash)
  }

  // And the open ones.
  function ReopenOpen(o: TxStore, m: TxStore, data: BlockData): TxStore {
    var hash := data.block.hashWithoutTx;
    TakeAggs(WriteTxs(o, BlockTxs(data)), DeleteTxs(UnmarkAggs(m, data.aggTxs, hash), BlockTxs(data)), data.aggTxs,
             hash)
  }

  // -------------------- what happens to one hash --------------------

  predicate Names(aggs: seq<AggTx>, k: Hash) { exists i :: 0 <= i < |aggs| && aggs[i].hash == k }

  lemma NamesSnoc(aggs: seq<AggTx>, k: Hash)
    requires aggs != []
    ensures Names(aggs, k) <==> Names(aggs[..|aggs| - 1], k) || aggs[|aggs| - 1].hash == k
  {
    var n := |aggs| - 1;
    if Names(aggs[..n], k) {
      var i :| 0 <= i < n && aggs[..n][i].hash == k;
      assert aggs[i].hash == k;
    }
    if Names(aggs, k) {
      var i :| 0 <= i < |aggs| && aggs[i].hash == k;
      assert i < n ==> aggs[..n][i].hash == k;
    }
  }

  lemma SnocMember(hs: seq<Hash>, k: Hash)
    requires hs != []
    ensures k in hs <==> k in hs[..|hs| - 1] || hs[|hs| - 1] == k
  {
    assert hs == hs[..|hs| - 1] + [hs[|hs| - 1]];
  }

  // A closed or new transaction that is or is not a member.
  function Closed(m: TxStore, members: TxStore, listed: bool, hash: Hash, k: Hash): Tx
    requires k in m || (listed && k in members)
  {
    if k in m then (if listed then Mark(m[k], true) else m[k]) else Record(members[k], hash)
  }

  lemma {:induction false} ClosedMembersAt(m: TxStore, members: TxStore, hs: seq<Hash>, hash: Hash, k: Hash)
    ensures var r := CloseMembers(m, members, hs, hash);
      && (k in r <==> k in m || (k in hs && k in members))
      && (k in r ==> r[k] == Closed(m, members, k in hs, hash, k))
  {
    if hs != [] {
      ClosedMembersAt(m, members, hs[..|hs| - 1], hash, k);
      SnocMember(hs, k);
    }
  }

  // Every hash outside the aggregations' own is marked or recorded if it is a member; an aggregation itself is
  // recorded.
  lemma {:induction false} ClosedAggsAt(m: TxStore, members: TxStore, aggs: seq<AggTx>, hash: Hash, k: Hash)
    ensures var r := CloseAggs(m, members, aggs, hash);
      && (!Names(aggs, k) ==>
          && (k in r <==> k in m || (k in Members(aggs) && k in members))
          && (k in r ==> r[k] == Closed(m, members, k in Members(aggs), hash, k)))
      && (Names(aggs, k) ==> k in r && r[k].AggT? && r[k].agg.block == hash && r[k].Hash() == k)
  {
    hide CloseMembers;
    if aggs != [] {
      var n := |aggs| - 1;
      var before := CloseAggs(m, members, aggs[..n], hash);
      ClosedAggsAt(m, members, aggs[..n], hash, k);
      ClosedMembersAt(before, members, aggs[n].members, hash, k);
      NamesSnoc(aggs, k);
      assert k in Members(aggs) <==> k in Members(aggs[..n]) || k in aggs[n].members;
    }
  }

  // But for its mark and the block, an aggregation is closed as it was fetched.
  lemma {:induction false} ClosedAggIs(m: TxStore, members: TxStore, aggs: seq<AggTx>, hash: Hash, k: Hash)
    requires Names(aggs, k)
    ensures var r := CloseAggs(m, members, aggs, hash);
      && k in r && r[k].AggT?
      && exists i :: 0 <= i < |aggs| && aggs[i].hash == k
           && r[k].agg == aggs[i].(block := hash, aggregated := r[k].agg.aggregated)
  {
    hide CloseMembers;
    var n := |aggs| - 1;
    var before := CloseAggs(m, members, aggs[..n], hash);
    ClosedMembersAt(before, members, aggs[n].members, hash, k);
    NamesSnoc(aggs, k);
    if aggs[n].hash != k {
      ClosedAggIs(m, members, aggs[..n], hash, k);
      var i :| 0 <= i < n && aggs[..n][i].hash == k
        && before[k].agg == aggs[..n][i].(block := hash, aggregated := before[k].agg.aggregated);
      assert aggs[i].hash == k;
    }
  }

  lemma {:induction false} UnmarkedMembersAt(m: TxStore, hs: seq<Hash>, hash: Hash, k: Hash)
    ensures var r := UnmarkMembers(m, hs, hash);
      && (k in r <==> k in m)
      && (k in r ==> r[k] == if k in hs then Unmarked(m[k], hash) else m[k])
  {
    if hs != [] {
      UnmarkedMembersAt(m, hs[..|hs| - 1], hash, k);
      SnocMember(hs, k);
    }
  }

  function Unmarked(tx: Tx, hash: Hash): Tx { if tx.AggT? || !Carries(tx, hash) then Mark(tx, false) else tx }

  lemma {:induction false} UnmarkedAggsAt(m: TxStore, aggs: seq<AggTx>, hash: Hash, k: Hash)
    ensures var r := UnmarkAggs(m, aggs, hash);
      && (k in r <==> k in m)
      && (k in r ==> r[k] == if k in Members(aggs) then Unmarked(m[k], hash) else m[k])
    decreases aggs
  {
    hide UnmarkMembers;
    if aggs != [] {
      var n := |aggs| - 1;
      UnmarkedMembersAt(m, aggs[n].members, hash, k);
      UnmarkedAggsAt(UnmarkMembers(m, aggs[n].members, hash), aggs[..n], hash, k);
      assert k in Members(aggs) <==> k in Members(aggs[..n]) || k in aggs[n].members;
    }
  }

  lemma {:induction false} DroppedMembersAt(m: TxStore, hs: seq<Hash>, hash: Hash, k: Hash)
    ensures var r := DropMembers(m, hs, hash);
      && (k in r <==> k in m && !(k in hs && Carries(m[k], hash)))
      && (k in r ==> r[k] == m[k])
  {
    if hs != [] {
      DroppedMembersAt(m, hs[..|hs| - 1], hash, k);
      DroppedMembersAt(m, hs[..|hs| - 1], hash, hs[|hs| - 1]);
      SnocMember(hs, k);
    }
  }

  lemma {:induction false} DroppedAggsAt(m: TxStore, aggs: seq<AggTx>, hash: Hash, k: Hash)
    ensures var r := DropAggs(m, aggs, hash);
      && (k in r <==> k in m && !Names(aggs, k) && !(k in Members(aggs) && Carries(m[k], hash)))
      && (k in r ==> r[k] == m[k])
  {
    hide DropMembers;
    if aggs != [] {
      var n := |aggs| - 1;
      DroppedAggsAt(m, aggs[..n], hash, k);
      DroppedMembersAt(DropAggs(m, aggs[..n], hash), aggs[n].members, hash, k);
      NamesSnoc(aggs, k);
      assert k in Members(aggs) <==> k in Members(aggs[..n]) || k in aggs[n].members;
    }
  }

  // -------------------- when the closed transactions come back --------------------

  // No aggregation was closed before; a member that was closed was not marked and carries another block; a new member
  // that is neither listed nor one of the block's aggregations carries the block once it is recorded, as every funds
  // transaction does and an aggregation that was never validated does not.
  ghost predicate StoreRollsBack(m: TxStore, data: BlockData) {
    && (forall agg <- data.aggTxs :: agg.hash !in m)
    && forall k <- Members(data.aggTxs) :: MemberRollsBack(m, data, k)
  }

  ghost predicate MemberRollsBack(m: TxStore, data: BlockData, k: Hash) {
    var hash := data.block.hashWithoutTx;
    if k in m then !IsMarked(m[k]) && !Carries(m[k], hash)
    else k in HashesOf(BlockTxs(data)) || Names(data.aggTxs, k) || k !in data.members
         || (data.members[k].AggT? ==> data.members[k].agg.block == hash)
  }

  // The listed transactions are new, and the new members are funds transactions and aggregations.
  ghost predicate FreshStore(m: TxStore, data: BlockData) {
    && NoDuplicates(HashesOf(BlockTxs(data)))
    && (forall i :: 0 <= i < |BlockTxs(data)| ==> BlockTxs(data)[i].Hash() !in m)
    && (forall k :: k in data.members <==> k in Members(data.aggTxs) && k !in m)
    && (forall k :: k in data.members ==>
      data.members[k].Hash() == k && (data.members[k].FundsT? || data.members[k].AggT?))
  }

  // The same aggregations but for their marks and blocks.
  predicate SameAggs(aggs: seq<AggTx>, read: seq<AggTx>) {
    |aggs| == |read| && forall i :: 0 <= i < |aggs| ==>
      read[i].hash == aggs[i].hash && read[i].members == aggs[i].members
  }

  lemma {:induction false} SameAggsSameMembers(aggs: seq<AggTx>, read: seq<AggTx>, k: Hash)
    requires SameAggs(aggs, read)
    ensures Members(read) == Members(aggs) && (Names(read, k) <==> Names(aggs, k))
  {
    if aggs != [] {
      var n := |aggs| - 1;
      SameAggsSameMembers(aggs[..n], read[..n], k);
      NamesSnoc(aggs, k);
      NamesSnoc(read, k);
    }
  }

  lemma ListedAt(m: TxStore, txs: seq<Tx>, k: Hash)
    requires NoDuplicates(HashesOf(txs)) && forall i :: 0 <= i < |txs| ==> txs[i].Hash() !in m
    ensures var r := WriteTxs(m, txs);
      (k in r <==> k in m || k in HashesOf(txs)) && (k in m ==> r[k] == m[k]) && (k in HashesOf(txs) ==> k !in m)
  {
    hide WriteTxs;
    WrittenTxs(m, txs);
    WriteKeeps(m, txs);
    InHashes(txs, k);
  }

  lemma InHashes(txs: seq<Tx>, k: Hash)
    ensures k in HashesOf(txs) <==> k in set i | 0 <= i < |txs| :: txs[i].Hash()
  {
    if k in HashesOf(txs) {
      var i :| 0 <= i < |txs| && HashesOf(txs)[i] == k;
      assert txs[i].Hash() == k;
    }
    if i :| 0 <= i < |txs| && txs[i].Hash() == k {
      assert HashesOf(txs)[i] == k;
    }
  }

  // What the rollback reads back: the same lists, but for marks and blocks.
  ghost predicate SameLists(data: BlockData, read: BlockData) {
    read.block == data.block && HashesOf(BlockTxs(read)) == HashesOf(BlockTxs(data))
      && SameAggs(data.aggTxs, read.aggTxs)
  }

  lemma DeletedAt(m: TxStore, txs: seq<Tx>, k: Hash)
    ensures var r := DeleteTxs(m, txs); (k in r <==> k in m && k !in HashesOf(txs)) && (k in r ==> r[k] == m[k])
  {
    DeletedTxs(m, txs);
    InHashes(txs, k);
  }

  lemma RestoredAt(m: TxStore, data: BlockData, read: BlockData, k: Hash)
    requires FreshStore(m, data) && SameLists(data, read)
    ensures var r := ReopenClosed(CloseBlock(m, data), read);
      (k in r <==> k in m) && (k in m ==> r[k] == m[k])
      <==> (Names(data.aggTxs, k) ==> k !in m) && (k in Members(data.aggTxs) ==> MemberRollsBack(m, data, k))
  {
    hide CloseAggs, UnmarkAggs, DropAggs, WriteTxs, DeleteTxs, BlockTxs, HashesOf, Members, Names;
    var hash, txs := data.block.hashWithoutTx, BlockTxs(data);
    SameAggsSameMembers(data.aggTxs, read.aggTxs, k);
    ListedAt(m, txs, k);
    var m1 := WriteTxs(m, txs);
    ClosedAggsAt(m1, data.members, data.aggTxs, hash, k);
    var m2 := CloseAggs(m1, data.members, data.aggTxs, hash);
    UnmarkedAggsAt(m2, read.aggTxs, hash, k);
    var m3 := UnmarkAggs(m2, read.aggTxs, hash);
    DeletedAt(m3, BlockTxs(read), k);
    var m4 := DeleteTxs(m3, BlockTxs(read));
    DroppedAggsAt(m4, read.aggTxs, hash, k);
  }

  // Closing a block's transactions and reopening them restores the closed ones exactly under the condition.
  lemma StoreRestored(m: TxStore, data: BlockData, read: BlockData)
    requires FreshStore(m, data) && SameLists(data, read)
    ensures ReopenClosed(CloseBlock(m, data), read) == m <==> StoreRollsBack(m, data)
  {
    hide FreshStore, ReopenClosed, CloseBlock, MemberRollsBack, SameLists;
    var r := ReopenClosed(CloseBlock(m, data), read);
    forall k
      ensures (k in r <==> k in m) && (k in m ==> r[k] == m[k])
        <==> (Names(data.aggTxs, k) ==> k !in m) && (k in Members(data.aggTxs) ==> MemberRollsBack(m, data, k))
    {
      RestoredAt(m, data, read, k);
    }
    if r == m {
      forall agg | agg in data.aggTxs ensures agg.hash !in m {
        var i :| 0 <= i < |data.aggTxs| && data.aggTxs[i] == agg;
        assert Names(data.aggTxs, agg.hash);
      }
    }
    if StoreRollsBack(m, data) {
      forall k ensures (k in r <==> k in m) && (k in m ==> r[k] == m[k]) {
        assert Names(data.aggTxs, k) ==> k !in m;
      }
      assert r.Keys == m.Keys;
    }
  }

  // -------------------- what is closed afterwards --------------------

  lemma ClosedKeys(m: TxStore, data: BlockData)
    requires FreshStore(m, data)
    ensures forall k :: k in CloseBlock(m, data) <==>
      k in m || k in HashesOf(BlockTxs(data)) || Names(data.aggTxs, k) || k in data.members
    ensures WellKeyed(m) ==> WellKeyed(CloseBlock(m, data))
  {
    hide CloseAggs, WriteTxs, BlockTxs, HashesOf, Members, Names;
    var hash, txs := data.block.hashWithoutTx, BlockTxs(data);
    var m1 := WriteTxs(m, txs);
    WrittenTxs(m, txs);
    forall k
      ensures k in CloseBlock(m, data) <==>
        k in m || k in HashesOf(txs) || Names(data.aggTxs, k) || k in data.members
      ensures WellKeyed(m) && k in CloseBlock(m, data) ==> CloseBlock(m, data)[k].Hash() == k
    {
      ListedAt(m, txs, k);
      ClosedAggsAt(m1, data.members, data.aggTxs, hash, k);
    }
  }

  // A listed transaction is closed as it came, marked if it is a member too.
  lemma ClosedListed(m: TxStore, data: BlockData, i: nat)
    requires FreshStore(m, data) && i < |BlockTxs(data)| && !Names(data.aggTxs, BlockTxs(data)[i].Hash())
    ensures var tx, k := BlockTxs(data)[i], BlockTxs(data)[i].Hash();
      && k in CloseBlock(m, data)
      && CloseBlock(m, data)[k] == if k in Members(data.aggTxs) then Mark(tx, true) else tx
  {
    hide CloseAggs, WriteTxs, BlockTxs, Members, Names;
    var txs := BlockTxs(data);
    WrittenTxs(m, txs);
    ClosedAggsAt(WriteTxs(m, txs), data.members, data.aggTxs, data.block.hashWithoutTx, txs[i].Hash());
  }

  // An aggregation is closed with its members.
  lemma {:induction false} ClosedAgg(m: TxStore, members: TxStore, aggs: seq<AggTx>, hash: Hash, i: nat)
    requires i < |aggs| && NoDuplicates(HashesOf(Aggs(aggs)))
    ensures var k, r := aggs[i].hash, CloseAggs(m, members, aggs, hash);
      k in r && r[k].AggT? && r[k].agg.hash == k && r[k].agg.members == aggs[i].members
    decreases |aggs|
  {
    hide CloseMembers;
    var n, k := |aggs| - 1, aggs[i].hash;
    if i < n {
      var before := CloseAggs(m, members, aggs[..n], hash);
      assert HashesOf(Aggs(aggs[..n])) == HashesOf(Aggs(aggs))[..n];
      ClosedAgg(m, members, aggs[..n], hash, i);
      assert HashesOf(Aggs(aggs))[i] != HashesOf(Aggs(aggs))[n];
      ClosedMembersAt(before, members, aggs[n].members, hash, k);
    }
  }
}
