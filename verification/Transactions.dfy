/** Transactions by hash: open and closed ones, the lists of a block, and the order of aggregated transactions. */
module Transactions {
  import opened Words
  import opened Protocol

  type TxStore = map<Hash, Tx>

  // Every transaction is stored under its own hash.
  ghost predicate WellKeyed(m: TxStore) { forall h :: h in m ==> m[h].Hash() == h }

  // -------------------- a block's transactions --------------------

  function Accs(txs: seq<AccTx>): seq<Tx> { seq(|txs|, i requires 0 <= i < |txs| => AccT(txs[i])) }
  function Funds(txs: seq<FundsTx>): seq<Tx> { seq(|txs|, i requires 0 <= i < |txs| => FundsT(txs[i])) }
  function Configs(txs: seq<ConfigTx>): seq<Tx> { seq(|txs|, i requires 0 <= i < |txs| => ConfigT(txs[i])) }
  function Stakes(txs: seq<StakeTx>): seq<Tx> { seq(|txs|, i requires 0 <= i < |txs| => StakeT(txs[i])) }

  function Aggs(txs: seq<AggTx>): seq<Tx> { seq(|txs|, i requires 0 <= i < |txs| => AggT(txs[i])) }

  // What the block applies and closes by itself, without its aggregations.
  function BlockTxs(data: BlockData): seq<Tx> {
    Accs(data.accTxs) + Funds(data.fundsTxs) + Configs(data.configTxs) + Stakes(data.stakeTxs)
  }

  function HashesOf(txs: seq<Tx>): seq<Hash> { seq(|txs|, i requires 0 <= i < |txs| => txs[i].Hash()) }

  function BlockHashes(b: Block): seq<Hash> {
    b.accTxData + b.fundsTxData + b.configTxData + b.stakeTxData + b.aggTxData
  }

  predicate NoDuplicates(hs: seq<Hash>) { forall i, j :: 0 <= i < j < |hs| ==> hs[i] != hs[j] }

  function WriteTxs(m: TxStore, txs: seq<Tx>): TxStore {
    if txs == [] then m else WriteTxs(m, txs[..|txs| - 1])[txs[|txs| - 1].Hash() := txs[|txs| - 1]]
  }

  function DeleteTxs(m: TxStore, txs: seq<Tx>): TxStore {
    if txs == [] then m else DeleteTxs(m, txs[..|txs| - 1]) - {txs[|txs| - 1].Hash()}
  }

  datatype Lookup = Found(txs: seq<Tx>) | Missing | WrongType

  // Reads the listed hashes in order; a transaction of another type fails its type assertion.
  function ReadTxs(m: TxStore, hs: seq<Hash>, kind: Kind): (r: Lookup)
    ensures r.Found? ==> |r.txs| == |hs| && forall i :: 0 <= i < |hs| ==> r.txs[i].Kind() == kind
  {
    if hs == [] then Found([])
    else match ReadTxs(m, hs[..|hs| - 1], kind)
      case Found(txs) =>
        var h := hs[|hs| - 1];
        if h !in m then Missing else if m[h].Kind() != kind then WrongType else Found(txs + [m[h]])
      case other => other
  }

  // -------------------- writing and reading back --------------------

  lemma {:induction false} WrittenTxs(m: TxStore, txs: seq<Tx>)
    requires NoDuplicates(HashesOf(txs))
    ensures forall i :: 0 <= i < |txs| ==>
      txs[i].Hash() in WriteTxs(m, txs) && WriteTxs(m, txs)[txs[i].Hash()] == txs[i]
    ensures WriteTxs(m, txs).Keys == m.Keys + set i | 0 <= i < |txs| :: txs[i].Hash()
    ensures WellKeyed(m) ==> WellKeyed(WriteTxs(m, txs))
  {
    if txs != [] {
      var rest, last := txs[..|txs| - 1], txs[|txs| - 1];
      DistinctPrefix(txs);
      WrittenTxs(m, rest);
      forall i | 0 <= i < |rest| ensures rest[i].Hash() != last.Hash() {
        assert HashesOf(txs)[i] != HashesOf(txs)[|rest|];
      }
      HashSetSnoc(txs);
    }
  }

  lemma HashSetSnoc(txs: seq<Tx>)
    requires txs != []
    ensures var rest := txs[..|txs| - 1];
      (set i | 0 <= i < |txs| :: txs[i].Hash()) == (set i | 0 <= i < |rest| :: rest[i].Hash()) + {txs[|txs| - 1].Hash()}
  {
    var rest := txs[..|txs| - 1];
    assert forall i :: 0 <= i < |rest| ==> rest[i] == txs[i];
    forall i | 0 <= i < |txs|
      ensures txs[i].Hash() in (set j | 0 <= j < |rest| :: rest[j].Hash()) + {txs[|txs| - 1].Hash()}
    {
      assert i < |rest| ==> rest[i].Hash() == txs[i].Hash();
    }
  }

  lemma DistinctPrefix(txs: seq<Tx>)
    requires txs != [] && NoDuplicates(HashesOf(txs))
    ensures NoDuplicates(HashesOf(txs[..|txs| - 1]))
  {
    assert HashesOf(txs[..|txs| - 1]) == HashesOf(txs)[..|txs| - 1];
  }

  lemma {:induction false} DeletedTxs(m: TxStore, txs: seq<Tx>)
    ensures DeleteTxs(m, txs) == m - set i | 0 <= i < |txs| :: txs[i].Hash()
  {
    if txs != [] {
      DeletedTxs(m, txs[..|txs| - 1]);
    }
  }

  lemma {:induction false} WriteKeeps(m: TxStore, txs: seq<Tx>)
    requires forall i :: 0 <= i < |txs| ==> txs[i].Hash() !in m
    ensures forall h :: h in m ==> h in WriteTxs(m, txs) && WriteTxs(m, txs)[h] == m[h]
  {
    if txs != [] {
      WriteKeeps(m, txs[..|txs| - 1]);
    }
  }

  // Reading by hash finds what is stored.
  lemma {:induction false} ReadStored(m: TxStore, txs: seq<Tx>, kind: Kind)
    requires forall i :: 0 <= i < |txs| ==> txs[i].Hash() in m && m[txs[i].Hash()].Kind() == kind
    ensures ReadTxs(m, HashesOf(txs), kind).Found? && |ReadTxs(m, HashesOf(txs), kind).txs| == |txs|
    ensures forall i :: 0 <= i < |txs| ==> ReadTxs(m, HashesOf(txs), kind).txs[i] == m[txs[i].Hash()]
  {
    if txs != [] {
      assert HashesOf(txs)[..|txs| - 1] == HashesOf(txs[..|txs| - 1]);
      ReadStored(m, txs[..|txs| - 1], kind);
    }
  }

  // -------------------- marks and blocks --------------------

  // A funds transaction without what closing it adds.
  function Bare(tx: FundsTx): FundsTx { tx.(aggregated := false, block := ZERO_HASH) }

  function Bares(txs: seq<FundsTx>): (r: seq<FundsTx>)
    ensures |r| == |txs| && forall i :: 0 <= i < |txs| ==> r[i] == Bare(txs[i])
  {
    seq(|txs|, i requires 0 <= i < |txs| => Bare(txs[i]))
  }

  // -------------------- sorting --------------------

  ghost predicate ByTxCount(txs: seq<FundsTx>) { forall i, j :: 0 <= i < j < |txs| ==> txs[i].txCnt <= txs[j].txCnt }

  // sort.Sort(ByTxCount(txs)): a permutation in the order of the transaction counters.
  function SortedByTxCount(txs: seq<FundsTx>): (r: seq<FundsTx>)
    ensures multiset(r) == multiset(txs) && ByTxCount(r)
  {
    if txs == [] then []
    else
      assert txs == txs[..|txs| - 1] + [txs[|txs| - 1]];
      InsertByTxCount(SortedByTxCount(txs[..|txs| - 1]), txs[|txs| - 1])
  }

  function InsertByTxCount(txs: seq<FundsTx>, tx: FundsTx): (r: seq<FundsTx>)
    requires ByTxCount(txs)
    ensures multiset(r) == multiset(txs) + multiset{tx} && ByTxCount(r)
  {
    if txs == [] || txs[|txs| - 1].txCnt <= tx.txCnt then txs + [tx]
    else
      var rest, last := InsertByTxCount(txs[..|txs| - 1], tx), txs[|txs| - 1];
      assert txs == txs[..|txs| - 1] + [last];
      InsertedBelow(txs, tx, rest);
      LargerLast(rest, last);
      rest + [last]
  }

  lemma InsertedBelow(txs: seq<FundsTx>, tx: FundsTx, rest: seq<FundsTx>)
    requires ByTxCount(txs) && txs != [] && tx.txCnt < txs[|txs| - 1].txCnt
    requires multiset(rest) == multiset(txs[..|txs| - 1]) + multiset{tx}
    ensures forall x :: x in multiset(rest) ==> x.txCnt <= txs[|txs| - 1].txCnt
  {
    hide ByTxCount;
    LastIsLargest(txs);
  }

  lemma LastIsLargest(txs: seq<FundsTx>)
    requires ByTxCount(txs) && txs != []
    ensures forall x :: x in multiset(txs[..|txs| - 1]) ==> x.txCnt <= txs[|txs| - 1].txCnt
  {
  }

  lemma LargerLast(txs: seq<FundsTx>, last: FundsTx)
    requires ByTxCount(txs) && forall x :: x in multiset(txs) ==> x.txCnt <= last.txCnt
    ensures ByTxCount(txs + [last])
  {
    assert forall i :: 0 <= i < |txs| ==> txs[i] in multiset(txs);
  }

  lemma {:induction false} SortedSame(txs: seq<FundsTx>)
    requires ByTxCount(txs)
    ensures SortedByTxCount(txs) == txs
  {
    hide InsertByTxCount;
    if txs != [] {
      SortedSame(txs[..|txs| - 1]);
      InsertedLast(txs);
    }
  }

  lemma InsertedLast(txs: seq<FundsTx>)
    requires ByTxCount(txs) && txs != []
    ensures ByTxCount(txs[..|txs| - 1]) && InsertByTxCount(txs[..|txs| - 1], txs[|txs| - 1]) == txs
  {
    assert txs == txs[..|txs| - 1] + [txs[|txs| - 1]];
  }
}
