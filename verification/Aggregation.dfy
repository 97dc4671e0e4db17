/** Aggregating funds transactions by sender or receiver (miner/block_aggregatetx.go). Which historic transactions join
    an aggregation is the parameter `historic`, an arbitrary list of hashes per round. */
module Aggregation {
  import opened Words
  import opened Protocol

  datatype NewAggTx = NewAggTx(amount: uint64, fee: uint64, from: seq<Hash>, to: seq<Hash>,
                               aggregatedTxSlice: seq<Hash>)

  // One round of the splitting loop: the transactions it takes and the historic hashes that join them.
  datatype Round = Round(group: seq<FundsTx>, historic: seq<Hash>)

  // What aggregation adds to the block under preparation: directly listed hashes and aggregated transactions.
  datatype Listed = Listed(funds: seq<Hash>, aggs: seq<NewAggTx>)

  // -------------------- one aggregation --------------------

  function HashesOf(txs: seq<FundsTx>): (hs: seq<Hash>)
    ensures |hs| == |txs| && forall i :: 0 <= i < |txs| ==> hs[i] == txs[i].hash
  {
    seq(|txs|, i requires 0 <= i < |txs| => txs[i].hash)
  }

  function Senders(txs: seq<FundsTx>): (hs: seq<Hash>)
    ensures |hs| == |txs| && forall i :: 0 <= i < |txs| ==> hs[i] == txs[i].from
  {
    seq(|txs|, i requires 0 <= i < |txs| => txs[i].from)
  }

  function Receivers(txs: seq<FundsTx>): (hs: seq<Hash>)
    ensures |hs| == |txs| && forall i :: 0 <= i < |txs| ==> hs[i] == txs[i].to
  {
    seq(|txs|, i requires 0 <= i < |txs| => txs[i].to)
  }

  function Amounts(txs: seq<FundsTx>): nat {
    if txs == [] then 0 else Amounts(txs[..|txs| - 1]) + txs[|txs| - 1].amount
  }

  // A list of addresses that are all the same is shortened to one.
  function Shortened(addresses: seq<Hash>): seq<Hash> {
    if addresses != [] && forall a <- addresses :: a == addresses[0] then addresses[..1] else addresses
  }

  function Aggregated(r: Round): NewAggTx {
    NewAggTx(Wrap64(Amounts(r.group)), 0, Shortened(Senders(r.group)), Shortened(Receivers(r.group)),
          HashesOf(r.group) + r.historic)
  }

  function AfterRound(b: Listed, r: Round): Listed {
    if |r.group| + |r.historic| > 1 then b.(aggs := b.aggs + [Aggregated(r)])
    else if r.group != [] then b.(funds := b.funds + [r.group[0].hash])
    else b
  }

  function AfterRounds(b: Listed, rounds: seq<Round>): Listed {
    if rounds == [] then b else AfterRound(AfterRounds(b, rounds[..|rounds| - 1]), rounds[|rounds| - 1])
  }

  // The summing loop of AggregateTransactions; the keys of its two maps are the different senders and receivers.
  method Collect(txs: seq<FundsTx>)
    returns (amount: uint64, senders: seq<Hash>, receivers: seq<Hash>, hashes: seq<Hash>, nrOfSenders: map<Hash, nat>,
             nrOfReceivers: map<Hash, nat>)
    ensures amount == Wrap64(Amounts(txs)) && senders == Senders(txs) && receivers == Receivers(txs)
      && hashes == HashesOf(txs)
    ensures nrOfSenders.Keys == (set h | h in senders) && nrOfReceivers.Keys == (set h | h in receivers)
  {
    amount, senders, receivers, hashes, nrOfSenders, nrOfReceivers := 0, [], [], [], map[], map[];
    for i := 0 to |txs|
      invariant amount == Wrap64(Amounts(txs[..i])) && hashes == HashesOf(txs[..i])
      invariant senders == Senders(txs[..i]) && receivers == Receivers(txs[..i])
      invariant nrOfSenders.Keys == (set h | h in senders) && nrOfReceivers.Keys == (set h | h in receivers)
    {
      var trx := txs[i];
      assert txs[..i + 1][..i] == txs[..i];
      Wrap64Absorbs(Amounts(txs[..i]), trx.amount);
      amount := Wrap64(amount + trx.amount);
      senders, receivers, hashes := senders + [trx.from], receivers + [trx.to], hashes + [trx.hash];
      nrOfSenders := nrOfSenders[trx.from := (if trx.from in nrOfSenders then nrOfSenders[trx.from] else 0) + 1];
      nrOfReceivers := nrOfReceivers[trx.to := (if trx.to in nrOfReceivers then nrOfReceivers[trx.to] else 0) + 1];
    }
    assert txs[..|txs|] == txs;
  }

  // AggregateTransactions: the transactions of one round become an aggregation, or a direct entry when there is only
  // one hash.
  method AggregateTransactions(txs: seq<FundsTx>, historic: seq<Hash>, b: Listed) returns (r: Listed, ok: bool)
    ensures r == AfterRound(b, Round(txs, historic))
    ensures ok <==> txs != [] || |historic| > 1
  {
    hide Wrap64, Amounts, Shortened;
    var amount, transactionSenders, transactionReceivers, transactionHashes, nrOfSenders, nrOfReceivers := Collect(txs);
    OneAddress(transactionSenders, nrOfSenders.Keys);
    OneAddress(transactionReceivers, nrOfReceivers.Keys);
    if |nrOfSenders.Keys| == 1 { transactionSenders := transactionSenders[..1]; }
    if |nrOfReceivers.Keys| == 1 { transactionReceivers := transactionReceivers[..1]; }
    transactionHashes := transactionHashes + historic;
    if |transactionHashes| > 1 {
      var aggTx := NewAggTx(amount, 0, transactionSenders, transactionReceivers, transactionHashes);
      return b.(aggs := b.aggs + [aggTx]), true;
    } else if |txs| > 0 {
      return b.(funds := b.funds + [txs[0].hash]), true;
    }
    return b, false;
  }

  lemma OneAddress(addresses: seq<Hash>, keys: set<Hash>)
    requires keys == set h | h in addresses
    ensures |keys| == 1 ==> addresses != [] && Shortened(addresses) == addresses[..1]
    ensures |keys| != 1 ==> Shortened(addresses) == addresses
  {
    if addresses != [] {
      assert addresses[0] in keys;
      if |keys| == 1 {
        assert |keys - {addresses[0]}| == 0;
        assert keys == {addresses[0]};
        forall a | a in addresses ensures a == addresses[0] { assert a in keys; }
      }
      if forall a <- addresses :: a == addresses[0] {
        assert keys == {addresses[0]};
      }
    }
  }

  // -------------------- counting and choosing --------------------

  function Count(hs: seq<Hash>, h: Hash): nat { multiset(hs)[h] }

  // The most common key and its count; a key of count 0 is never chosen.
  method GetMaxKeyAndValueFromMap(m: map<Hash, uint32>) returns (max: uint32, biggestK: Hash)
    ensures forall k :: k in m ==> m[k] <= max
    ensures max > 0 ==> biggestK in m && m[biggestK] == max
    ensures max == 0 ==> biggestK == ZERO_HASH
  {
    max, biggestK := 0, ZERO_HASH;
    var keys := m.Keys;
    while keys != {}
      invariant keys <= m.Keys
      invariant forall k :: k in m && k !in keys ==> m[k] <= max
      invariant max > 0 ==> biggestK in m && m[biggestK] == max
      invariant max == 0 ==> biggestK == ZERO_HASH
      decreases |keys|
    {
      var k :| k in keys;
      if m[k] > max {
        max, biggestK := m[k], k;
      }
      keys := keys - {k};
    }
  }

  ghost predicate Counts(m: map<Hash, uint32>, hs: seq<Hash>) {
    m.Keys == (set h | h in hs) && forall h :: h in m ==> m[h] == Count(hs, h) > 0
  }

  method CountAddresses(hs: seq<Hash>) returns (m: map<Hash, uint32>)
    requires |hs| < TWO_32
    ensures Counts(m, hs)
  {
    m := map[];
    for i := 0 to |hs|
      invariant Counts(m, hs[..i])
    {
      assert hs[..i + 1] == hs[..i] + [hs[i]];
      CountBound(hs[..i], hs[i]);
      m := m[hs[i] := Wrap32((if hs[i] in m then m[hs[i]] else 0) + 1)];
    }
    assert hs[..|hs|] == hs;
  }

  lemma CountBound(hs: seq<Hash>, h: Hash)
    ensures Count(hs, h) <= |hs|
  {
    assert multiset(hs)[h] <= |multiset(hs)|;
  }

  // -------------------- one split --------------------

  // Whether a transaction is taken by the round that selects by sender, or by receiver.
  predicate Taken(tx: FundsTx, bySender: bool, address: Hash) {
    if bySender then tx.from == address else tx.to == address
  }

  function Chosen(txs: seq<FundsTx>, bySender: bool, address: Hash): (r: seq<FundsTx>)
    ensures forall tx <- r :: Taken(tx, bySender, address)
  {
    if txs == [] then []
    else
      var tx := txs[|txs| - 1];
      Chosen(txs[..|txs| - 1], bySender, address) + if Taken(tx, bySender, address) then [tx] else []
  }

  function Rest(txs: seq<FundsTx>, bySender: bool, address: Hash): (r: seq<FundsTx>)
    ensures |r| <= |txs|
  {
    if txs == [] then []
    else
      var tx := txs[|txs| - 1];
      Rest(txs[..|txs| - 1], bySender, address) + if Taken(tx, bySender, address) then [] else [tx]
  }

  lemma SplitStep(txs: seq<FundsTx>, k: nat, bySender: bool, address: Hash)
    requires k < |txs|
    ensures Chosen(txs[..k + 1], bySender, address)
         == Chosen(txs[..k], bySender, address) + if Taken(txs[k], bySender, address) then [txs[k]] else []
    ensures Rest(txs[..k + 1], bySender, address)
         == Rest(txs[..k], bySender, address) + if Taken(txs[k], bySender, address) then [] else [txs[k]]
  {
    assert txs[..k + 1][..k] == txs[..k];
  }

  lemma NothingSplit(txs: seq<FundsTx>, bySender: bool, address: Hash)
    ensures Chosen(txs[..0], bySender, address) == [] && Rest(txs[..0], bySender, address) == []
  {
  }

  lemma MultisetSnoc(txs: seq<FundsTx>, tx: FundsTx)
    ensures multiset(txs + [tx]) == multiset(txs) + multiset{tx}
  {
  }

  lemma {:induction false} SplitIsPartition(txs: seq<FundsTx>, bySender: bool, address: Hash)
    ensures multiset(Chosen(txs, bySender, address)) + multiset(Rest(txs, bySender, address)) == multiset(txs)
  {
    if txs == [] {
      NothingSplit(txs, bySender, address);
    } else {
      hide Taken, Chosen, Rest;
      var n := |txs| - 1;
      SplitIsPartition(txs[..n], bySender, address);
      SplitStep(txs, n, bySender, address);
      WholeSplit(txs, n);
      MultisetSnoc(txs[..n], txs[n]);
      MultisetSnoc(Chosen(txs[..n], bySender, address), txs[n]);
      MultisetSnoc(Rest(txs[..n], bySender, address), txs[n]);
    }
  }

  lemma WholeSplit(txs: seq<FundsTx>, n: nat)
    requires |txs| == n + 1
    ensures txs[..n + 1] == txs == txs[..n] + [txs[n]]
  {
  }

  lemma {:induction false} TakenIsChosen(txs: seq<FundsTx>, bySender: bool, address: Hash)
    requires exists tx <- txs :: Taken(tx, bySender, address)
    ensures Chosen(txs, bySender, address) != []
  {
    hide Taken;
    var init, last := txs[..|txs| - 1], txs[|txs| - 1];
    if !Taken(last, bySender, address) {
      TakenIsChosen(init, bySender, address);
    }
  }

  // Moves the transactions that stay to the front of the array, in place, and collects the others.
  method Split(a: array<FundsTx>, n: nat, bySender: bool, address: Hash) returns (txToAggregate: seq<FundsTx>, i: nat)
    requires n <= a.Length
    modifies a
    ensures i <= n && a[..i] == Rest(old(a[..n]), bySender, address)
      && txToAggregate == Chosen(old(a[..n]), bySender, address)
  {
    hide Taken, Chosen, Rest;
    txToAggregate := [];
    i := 0;
    ghost var txs := a[..n];
    NothingSplit(txs, bySender, address);
    for k := 0 to n
      invariant 0 <= i <= k && forall j :: k <= j < n ==> a[j] == txs[j]
      invariant a[..i] == Rest(txs[..k], bySender, address) && txToAggregate == Chosen(txs[..k], bySender, address)
    {
      SplitStep(txs, k, bySender, address);
      var tx := a[k];
      if Taken(tx, bySender, address) {
        txToAggregate := txToAggregate + [tx];
      } else {
        a[i] := tx;
        i := i + 1;
      }
    }
    assert txs[..n] == txs;
  }

  // -------------------- the splitting loop --------------------

  ghost function Groups(rounds: seq<Round>): seq<FundsTx> {
    if rounds == [] then [] else Groups(rounds[..|rounds| - 1]) + rounds[|rounds| - 1].group
  }

  ghost predicate SharedAddress(txs: seq<FundsTx>) {
    exists bySender, address :: AllTaken(txs, bySender, address)
  }

  predicate AllTaken(txs: seq<FundsTx>, bySender: bool, address: Hash) {
    forall tx <- txs :: Taken(tx, bySender, address)
  }

  // Every group shares a sender or a receiver, and only the first may be empty.
  ghost predicate Grouped(rounds: seq<Round>) {
    forall i :: 0 <= i < |rounds| ==> SharedAddress(rounds[i].group) && (i > 0 ==> rounds[i].group != [])
  }

  class Preparation {
    var differentSenders: map<Hash, uint32>
    var differentReceivers: map<Hash, uint32>
    var fundsTxBeforeAggregation: array<FundsTx>
    var listed: Listed

    constructor (differentSenders: map<Hash, uint32>, differentReceivers: map<Hash, uint32>, txs: array<FundsTx>,
                 listed: Listed)
      ensures this.differentSenders == differentSenders && this.differentReceivers == differentReceivers
      ensures this.fundsTxBeforeAggregation == txs && this.listed == listed
    {
      this.differentSenders, this.differentReceivers := differentSenders, differentReceivers;
      this.fundsTxBeforeAggregation, this.listed := txs, listed;
    }

    // splitSortedAggregatableTransactions, after the sort. It ends after at most one round per transaction and one
    // more, and its groups partition the transactions.
    method SplitSortedAggregatableTransactions(historic: nat -> seq<Hash>) returns (ghost rounds: seq<Round>)
      requires fundsTxBeforeAggregation.Length < TWO_32
      modifies this, fundsTxBeforeAggregation
      ensures |rounds| <= old(fundsTxBeforeAggregation.Length) + 1
      ensures multiset(Groups(rounds)) == multiset(old(fundsTxBeforeAggregation[..]))
      ensures Grouped(rounds)
      ensures forall i :: 0 <= i < |rounds| ==> rounds[i].historic == historic(i)
      ensures listed == AfterRounds(old(listed), rounds)
      ensures fundsTxBeforeAggregation.Length == 0
    {
      hide *;
      rounds := [];
      NoRounds(listed);
      var possible := fundsTxBeforeAggregation;
      var n: nat, round: nat := possible.Length, 0;
      ghost var all := possible[..];
      assert possible[..n] == possible[..];
      var moreTransactionsToAggregate := true;
      while moreTransactionsToAggregate
        invariant n <= possible.Length && possible == old(fundsTxBeforeAggregation) && round == |rounds|
        invariant multiset(Groups(rounds)) + multiset(possible[..n]) == multiset(all)
        invariant Grouped(rounds) && forall i :: 0 <= i < |rounds| ==> rounds[i].historic == historic(i)
        invariant listed == AfterRounds(old(listed), rounds)
        invariant |rounds| + n <= possible.Length + if |rounds| == 0 then 0 else 1
        invariant |rounds| > 0 ==> Exact(possible[..n])
        invariant moreTransactionsToAggregate <==> |rounds| == 0 || n > 0
        decreases moreTransactionsToAggregate, n, if |rounds| == 0 then 1 else 0
      {
        ghost var group;
        n, group := NextRound(possible, n, historic(round));
        ghost var r := Round(group, historic(round));
        AddRound(rounds, r);
        rounds := rounds + [r];
        round := round + 1;
        moreTransactionsToAggregate := n > 0 && |differentSenders| > 0 && |differentReceivers| > 0;
      }
      fundsTxBeforeAggregation := new FundsTx[0];
    }

    // The counters hold the senders and receivers of the given transactions.
    ghost predicate Exact(txs: seq<FundsTx>)
      reads this
    {
      Counts(differentSenders, Senders(txs)) && Counts(differentReceivers, Receivers(txs))
    }

    // One turn of the loop: the most common sender or receiver is taken, counted out and aggregated.
    method NextRound(possible: array<FundsTx>, n: nat, historic: seq<Hash>) returns (i: nat, ghost group: seq<FundsTx>)
      requires n <= possible.Length < TWO_32
      modifies this`differentSenders, this`differentReceivers, this`listed, possible
      ensures i <= n && i + |group| == n && multiset(group) + multiset(possible[..i]) == multiset(old(possible[..n]))
      ensures SharedAddress(group) && (n > 0 && old(Exact(possible[..n])) ==> group != [])
      ensures old(Exact(possible[..n])) ==> LargestGroup(group, old(possible[..n]))
      ensures listed == AfterRound(old(listed), Round(group, historic)) && Exact(possible[..i])
      ensures i > 0 ==> |differentSenders| > 0 && |differentReceivers| > 0
    {
      hide AfterRound, Counts, Chosen, Rest, Taken, MostShared, LargestGroup;
      var bySender, address := MostCommon(possible[..n]);
      ghost var before := possible[..n];
      if Exact(before) {
        LargestIsChosen(before, bySender, address);
      }
      SplitIsPartition(before, bySender, address);
      if exists tx <- before :: Taken(tx, bySender, address) {
        TakenIsChosen(before, bySender, address);
      }
      var txToAggregate;
      txToAggregate, i := Split(possible, n, bySender, address);
      group := txToAggregate;
      assert |multiset(group) + multiset(possible[..i])| == |group| + i;
      differentSenders := CountAddresses(Senders(possible[..i]));
      differentReceivers := CountAddresses(Receivers(possible[..i]));
      var ok;
      listed, ok := AggregateTransactions(txToAggregate, historic, listed);
      assert AllTaken(group, bySender, address);
      if i > 0 {
        NonEmptyCounts(differentSenders, Senders(possible[..i]));
        NonEmptyCounts(differentReceivers, Receivers(possible[..i]));
      }
    }

    // The most common sender or, if more common, receiver.
    method MostCommon(ghost txs: seq<FundsTx>) returns (bySender: bool, address: Hash)
      ensures txs != [] && Exact(txs) ==> exists tx <- txs :: Taken(tx, bySender, address)
      ensures Exact(txs) ==> MostShared(txs, bySender, address)
    {
      var maxSender, addressSender := GetMaxKeyAndValueFromMap(differentSenders);
      var maxReceiver, addressReceiver := GetMaxKeyAndValueFromMap(differentReceivers);
      bySender := maxSender >= maxReceiver;
      address := if bySender then addressSender else addressReceiver;
      if txs != [] && Exact(txs) {
        ChosenIsCounted(txs, differentSenders, differentReceivers, maxSender, addressSender, maxReceiver,
                        addressReceiver);
        SomeoneIsTaken(txs, differentSenders, differentReceivers, bySender, address);
      }
      if Exact(txs) {
        MaximaAreCounts(txs, differentSenders, differentReceivers, maxSender, addressSender, maxReceiver,
                        addressReceiver);
      }
    }
  }

  // No sender and no receiver occurs more often, and a receiver is chosen only if it occurs more often than any sender.
  ghost predicate MostShared(txs: seq<FundsTx>, bySender: bool, address: Hash) {
    var n := Count(if bySender then Senders(txs) else Receivers(txs), address);
    forall h :: Count(Senders(txs), h) <= n && Count(Receivers(txs), h) <= n && (!bySender ==>
      Count(Senders(txs), h) < n)
  }

  lemma CountsAll(m: map<Hash, uint32>, hs: seq<Hash>, max: uint32, address: Hash)
    requires Counts(m, hs) && (forall k :: k in m ==> m[k] <= max) && (max > 0 ==> address in m && m[address] == max)
    ensures forall h :: Count(hs, h) <= max
    ensures max > 0 ==> Count(hs, address) == max
  {
    forall h ensures Count(hs, h) <= max {
      if Count(hs, h) > 0 {
        assert h in hs;
        assert h in m;
      }
    }
  }

  lemma MaximaAreCounts(txs: seq<FundsTx>, senders: map<Hash, uint32>, receivers: map<Hash, uint32>,
                        maxSender: uint32, addressSender: Hash, maxReceiver: uint32, addressReceiver: Hash)
    requires Counts(senders, Senders(txs)) && Counts(receivers, Receivers(txs))
    requires (forall k :: k in senders ==> senders[k] <= maxSender)
      && (maxSender > 0 ==> addressSender in senders && senders[addressSender] == maxSender)
    requires (forall k :: k in receivers ==> receivers[k] <= maxReceiver)
      && (maxReceiver > 0 ==> addressReceiver in receivers && receivers[addressReceiver] == maxReceiver)
    ensures var bySender := maxSender >= maxReceiver;
      MostShared(txs, bySender, if bySender then addressSender else addressReceiver)
  {
    hide Counts, Count, Senders, Receivers;
    CountsAll(senders, Senders(txs), maxSender, addressSender);
    CountsAll(receivers, Receivers(txs), maxReceiver, addressReceiver);
  }

  lemma CountSnoc(hs: seq<Hash>, last: Hash, h: Hash)
    ensures Count(hs + [last], h) == Count(hs, h) + if last == h then 1 else 0
  {
    assert multiset(hs + [last]) == multiset(hs) + multiset{last};
  }

  // The round takes as many transactions as the address occurs.
  lemma {:induction false} ChosenCount(txs: seq<FundsTx>, bySender: bool, address: Hash)
    ensures |Chosen(txs, bySender, address)| == Count(if bySender then Senders(txs) else Receivers(txs), address)
  {
    hide Count;
    if txs == [] {
      assert Count([], address) == 0 by { NothingCounted(address); }
      assert Senders(txs) == [] && Receivers(txs) == [];
    } else {
      var n := |txs| - 1;
      ChosenCount(txs[..n], bySender, address);
      assert Senders(txs) == Senders(txs[..n]) + [txs[n].from];
      assert Receivers(txs) == Receivers(txs[..n]) + [txs[n].to];
      CountSnoc(Senders(txs[..n]), txs[n].from, address);
      CountSnoc(Receivers(txs[..n]), txs[n].to, address);
    }
  }

  lemma NothingCounted(h: Hash)
    ensures Count([], h) == 0
  {
  }

  // A group is everything one sender sent or one receiver receives, in order, and no address would have given a larger
  // one.
  ghost predicate LargestGroup(group: seq<FundsTx>, txs: seq<FundsTx>) {
    && (exists bySender, address :: IsChosen(group, txs, bySender, address))
    && forall h :: Count(Senders(txs), h) <= |group| && Count(Receivers(txs), h) <= |group|
  }

  lemma LargestIsChosen(txs: seq<FundsTx>, bySender: bool, address: Hash)
    requires MostShared(txs, bySender, address)
    ensures LargestGroup(Chosen(txs, bySender, address), txs)
  {
    ChosenCount(txs, bySender, address);
    assert IsChosen(Chosen(txs, bySender, address), txs, bySender, address);
  }

  ghost predicate IsChosen(group: seq<FundsTx>, txs: seq<FundsTx>, bySender: bool, address: Hash) {
    group == Chosen(txs, bySender, address)
  }

  lemma NonEmptyCounts(m: map<Hash, uint32>, hs: seq<Hash>)
    requires Counts(m, hs) && hs != []
    ensures |m| > 0
  {
    assert hs[0] in m;
  }

  lemma NoRounds(b: Listed)
    ensures Groups([]) == [] && Grouped([]) && AfterRounds(b, []) == b
  {
  }

  lemma AddRound(rounds: seq<Round>, r: Round)
    requires Grouped(rounds) && SharedAddress(r.group) && (rounds != [] ==> r.group != [])
    ensures Grouped(rounds + [r]) && Groups(rounds + [r]) == Groups(rounds) + r.group
    ensures forall b :: AfterRounds(b, rounds + [r]) == AfterRound(AfterRounds(b, rounds), r)
  {
    hide AfterRound, SharedAddress;
    assert (rounds + [r])[..|rounds|] == rounds;
  }

  lemma ChosenIsCounted(txs: seq<FundsTx>, senders: map<Hash, uint32>, receivers: map<Hash, uint32>,
                        maxSender: uint32, addressSender: Hash, maxReceiver: uint32, addressReceiver: Hash)
    requires txs != [] && Counts(senders, Senders(txs)) && Counts(receivers, Receivers(txs))
    requires (forall k :: k in senders ==> senders[k] <= maxSender) && (maxSender > 0 ==> addressSender in senders)
    requires maxReceiver > 0 ==> addressReceiver in receivers
    ensures if maxSender >= maxReceiver then addressSender in senders else addressReceiver in receivers
  {
    assert Senders(txs)[0] in senders;
  }

  // With exact counts and transactions left, the chosen address takes at least one.
  lemma SomeoneIsTaken(txs: seq<FundsTx>, senders: map<Hash, uint32>, receivers: map<Hash, uint32>, bySender: bool,
                       address: Hash)
    requires txs != [] && Counts(senders, Senders(txs)) && Counts(receivers, Receivers(txs))
    requires if bySender then address in senders else address in receivers
    ensures exists tx <- txs :: Taken(tx, bySender, address)
  {
    if bySender {
      var i :| 0 <= i < |txs| && Senders(txs)[i] == address;
      assert txs[i] in txs && Taken(txs[i], bySender, address);
    } else {
      var i :| 0 <= i < |txs| && Receivers(txs)[i] == address;
      assert txs[i] in txs && Taken(txs[i], bySender, address);
    }
  }

  // -------------------- what the rounds list --------------------

  // The transaction hashes inside the aggregations, historic ones included.
  ghost function Inside(aggs: seq<NewAggTx>): multiset<Hash> {
    if aggs == [] then multiset{} else Inside(aggs[..|aggs| - 1]) + multiset(aggs[|aggs| - 1].aggregatedTxSlice)
  }

  // The historic hashes that join aggregations.
  ghost function Joined(rounds: seq<Round>): multiset<Hash> {
    if rounds == [] then multiset{}
    else
      var r := rounds[|rounds| - 1];
      Joined(rounds[..|rounds| - 1]) + if |r.group| + |r.historic| > 1 then multiset(r.historic) else multiset{}
  }

  lemma RoundLists(b: Listed, r: Round)
    ensures var after := AfterRound(b, r);
      multiset(after.funds) + Inside(after.aggs)
        == multiset(b.funds) + Inside(b.aggs) + multiset(HashesOf(r.group))
           + if |r.group| + |r.historic| > 1 then multiset(r.historic) else multiset{}
  {
    hide Shortened;
    if |r.group| + |r.historic| > 1 {
      var aggs := b.aggs + [Aggregated(r)];
      assert aggs[..|b.aggs|] == b.aggs;
      assert Inside(aggs) == Inside(b.aggs) + multiset(HashesOf(r.group) + r.historic);
    } else if r.group != [] {
      assert HashesOf(r.group) == [r.group[0].hash];
    } else {
      assert HashesOf(r.group) == [];
    }
  }

  // Every transaction ends up in the block directly or inside exactly one aggregation, as often as it was given.
  lemma {:induction false} EveryHashListedOnce(b: Listed, rounds: seq<Round>)
    ensures var after := AfterRounds(b, rounds);
      multiset(after.funds) + Inside(after.aggs)
        == multiset(b.funds) + Inside(b.aggs) + multiset(HashesOf(Groups(rounds))) + Joined(rounds)
  {
    hide AfterRound, Inside;
    if rounds == [] {
      assert HashesOf(Groups(rounds)) == [];
    } else {
      var rest, r := rounds[..|rounds| - 1], rounds[|rounds| - 1];
      EveryHashListedOnce(b, rest);
      RoundLists(AfterRounds(b, rest), r);
      assert HashesOf(Groups(rounds)) == HashesOf(Groups(rest)) + HashesOf(r.group);
    }
  }

  // Each new aggregation is built from one round: its amount is its group's sum modulo 2^64.
  lemma {:induction false} AggregationsMatchRounds(b: Listed, rounds: seq<Round>)
    ensures var after := AfterRounds(b, rounds);
      && |after.aggs| >= |b.aggs| && after.aggs[..|b.aggs|] == b.aggs
      && forall i :: |b.aggs| <= i < |after.aggs| ==> FromRound(after.aggs[i], rounds)
  {
    if rounds != [] {
      var rest, r := rounds[..|rounds| - 1], rounds[|rounds| - 1];
      AggregationsMatchRounds(b, rest);
      var before, after := AfterRounds(b, rest), AfterRounds(b, rounds);
      forall i | |b.aggs| <= i < |after.aggs| ensures FromRound(after.aggs[i], rounds) {
        if i < |before.aggs| {
          assert FromRound(before.aggs[i], rest);
          var k :| 0 <= k < |rest| && BuiltFrom(before.aggs[i], rest[k]);
          assert rounds[k] == rest[k];
        } else {
          RoundBuilds(r);
          assert BuiltFrom(after.aggs[i], rounds[|rest|]);
        }
      }
    }
  }

  lemma RoundBuilds(r: Round)
    requires |r.group| + |r.historic| > 1
    ensures BuiltFrom(Aggregated(r), r)
  {
    ShortenedIs(Senders(r.group));
    ShortenedIs(Receivers(r.group));
  }

  // The addresses in order, or the one address if they are all the same.
  ghost predicate AddressesOf(shown: seq<Hash>, all: seq<Hash>) {
    if exists a :: AllAre(all, a) then |shown| == 1 && AllAre(all, shown[0]) else shown == all
  }

  ghost predicate AllAre(all: seq<Hash>, a: Hash) { all != [] && forall i :: 0 <= i < |all| ==> all[i] == a }

  lemma ShortenedIs(addresses: seq<Hash>)
    ensures AddressesOf(Shortened(addresses), addresses)
  {
    if a :| AllAre(addresses, a) {
      assert addresses[0] == a;
      forall b | b in addresses ensures b == addresses[0] {
      }
    } else if addresses != [] && forall a <- addresses :: a == addresses[0] {
      assert forall i :: 0 <= i < |addresses| ==> addresses[i] in addresses;
      assert AllAre(addresses, addresses[0]);
    }
  }

  // Amounts add up, group by group.
  lemma {:induction false} AmountsAdd(xs: seq<FundsTx>, ys: seq<FundsTx>)
    ensures Amounts(xs + ys) == Amounts(xs) + Amounts(ys)
    ensures forall tx: FundsTx :: Amounts([tx]) == tx.amount
  {
    assert forall tx: FundsTx :: [tx][..0] == [];
    if ys == [] {
      assert xs + ys == xs;
    } else {
      assert (xs + ys)[..|xs + ys| - 1] == xs + ys[..|ys| - 1];
      AmountsAdd(xs, ys[..|ys| - 1]);
    }
  }

  ghost predicate FromRound(agg: NewAggTx, rounds: seq<Round>) {
    exists k :: 0 <= k < |rounds| && BuiltFrom(agg, rounds[k])
  }

  // The group's sum modulo 2^64, no fee, its senders and receivers, and its hashes before the historic ones.
  ghost predicate BuiltFrom(agg: NewAggTx, r: Round) {
    && agg.amount == Wrap64(Amounts(r.group)) && agg.fee == 0
    && agg.aggregatedTxSlice == HashesOf(r.group) + r.historic && |agg.aggregatedTxSlice| > 1
    && AddressesOf(agg.from, Senders(r.group)) && AddressesOf(agg.to, Receivers(r.group))
  }
}
