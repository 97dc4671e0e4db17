/** Aggregations that do not come back, or not as they were: a transaction listed twice, a fee paid again, and a block
    that was emptied and brought back. */
module AggregationWitnesses {
  import opened Words
  import opened Protocol
  import opened Transactions
  import opened ClosedAggregations
  import opened AggregatedRollback
  import opened Ledger
  import opened UndoEffects
  import opened Producer
  import opened Effects
  import opened Validation
  import opened SystemParameters
  import opened Chain
  import opened Node
  import opened Options
  import opened RollbackConditions
  import opened Reorganisation
  import opened RollbackWitnesses

  // -------------------- a transaction listed twice --------------------

  // Listed by itself and inside an aggregation.
  const TWICE := BlockData([], [TRANSFER], [], [], [AGGREGATION], map[60 := FundsT(TRANSFER)], [TRANSFER], [TRANSFER],
                           MINED.(fundsTxData := [60], aggTxData := [70], nrFundsTx := 1, nrAggTx := 1))

  // Inside two aggregations.
  const IN_BOTH := BlockData([], [], [], [], [AGGREGATION, AGGREGATION.(hash := 71)], map[60 := FundsT(TRANSFER)],
                             [TRANSFER, TRANSFER], [TRANSFER, TRANSFER], MINED.(aggTxData := [70, 71], nrAggTx := 2))

  // The three accounts with these balances and this counter of account 2.
  function Purses(miner: uint64, sender: uint64, counter: uint32, receiver: uint64): Ledger {
    Ledger(map[1 := Account(PROFILE, miner, 0, true), 2 := Account(PROFILE, sender, counter, false),
               3 := Account(PROFILE, receiver, 0, false)], {1})
  }

  lemma TransferOnce(m: uint64, s: uint64, c: uint32, r: uint64)
    requires 11 <= s <= 1000 && c < 10 && r <= 1000
    ensures FundsStep(Purses(m, s, c, r), {}, TRANSFER, false) == Done(Purses(m, s - 10, c + 1, r + 10))
  {
    hide Transfer;
    TransferMoves(m, s, c, r);
  }

  lemma TransferMoves(m: uint64, s: uint64, c: uint32, r: uint64)
    requires 11 <= s <= 1000 && c < 10 && r <= 1000
    ensures Transfer(Purses(m, s, c, r), TRANSFER) == Purses(m, s - 10, c + 1, r + 10)
  {
  }

  lemma TransferBack(m: uint64, s: uint64, c: uint32, r: uint64)
    requires 11 <= s <= 1000 && c < 10 && r <= 1000
    ensures FundsUndo(Purses(m, s - 10, c + 1, r + 10), TRANSFER) == Done(Purses(m, s, c, r))
  {
  }

  lemma FeeOnce(m: uint64, s: uint64, c: uint32, r: uint64)
    requires 1 <= s <= 1000 && m <= 2000
    ensures PayFee(Purses(m, s, c, r), 1, Charged(2, 1)) == Purses(m + 1, s - 1, c, r)
    ensures RefundFee(Purses(m + 1, s - 1, c, r), 1, Charged(2, 1)) == Done(Purses(m, s, c, r))
  {
  }

  lemma TransferTwice()
    ensures FundsStateChange(ACCOUNTS, {}, [TRANSFER], false) == Done(Purses(1000, 990, 1, 10))
    ensures FundsStateChange(Purses(1000, 990, 1, 10), {}, [TRANSFER], false) == Done(Purses(1000, 980, 2, 20))
    ensures FundsStateChange(ACCOUNTS, {}, [TRANSFER, TRANSFER], false) == Done(Purses(1000, 980, 2, 20))
  {
    hide FundsStep;
    TransferOnce(1000, 1000, 0, 0);
    TransferOnce(1000, 990, 1, 10);
    assert ACCOUNTS == Purses(1000, 1000, 0, 0);
    assert [TRANSFER][..0] == [] && [TRANSFER, TRANSFER][..1] == [TRANSFER];
  }

  lemma FeeTwice()
    ensures CollectTxFees(Purses(1000, 980, 2, 20), 1, [Charged(2, 1), Charged(2, 1)]) == Done(Purses(1002, 978, 2, 20))
  {
    hide PayFee, RefundFee;
    FeeOnce(1000, 980, 2, 20);
    FeeOnce(1001, 979, 2, 20);
    var l, fees := Purses(1000, 980, 2, 20), [Charged(2, 1), Charged(2, 1)];
    assert fees[..1] == [Charged(2, 1)] && fees[..1][..0] == [];
    assert CollectFees(l, 1, fees[..1][..0]) == Done(l);
    assert CollectFees(l, 1, fees[..1]) == Done(Purses(1001, 979, 2, 20));
  }

  // The sender pays twice and the receiver is credited twice; the counter of the transaction, too low the second time,
  // is not checked.
  lemma AppliedTwice(data: BlockData)
    requires data == TWICE || data == IN_BOTH
    ensures ValidateState(ACCOUNTS, {}, DEFAULT_PARAMETERS, data, false) == Done(Purses(1002, 978, 2, 20))
  {
    hide FundsStep, PayFee, CollectTxFees, FundsStateChange;
    TransferTwice();
    FeeTwice();
    NoneTransferred(ACCOUNTS);
    assert AllFees(data) == [Charged(2, 1), Charged(2, 1)];
    assert Purses(1002, 978, 2, 20).Credit(1, 0) == Purses(1002, 978, 2, 20);
  }

  lemma NoneTransferred(l: Ledger)
    ensures FundsStateChange(l, {}, [], false) == Done(l)
  {
  }

  lemma TwiceMembers()
    ensures Members([AGGREGATION]) == [60] && Members([AGGREGATION, AGGREGATION.(hash := 71)]) == [60, 60]
    ensures NewFunds(TWICE.members, [60]) == [TRANSFER] && NewFunds(TWICE.members, [60, 60]) == [TRANSFER, TRANSFER]
    ensures NewMembers(TWICE.members, [60]) == [60] && NewMembers(TWICE.members, [60, 60]) == [60, 60]
  {
    var agg, more := [AGGREGATION], [AGGREGATION, AGGREGATION.(hash := 71)];
    assert agg[..0] == [] && more[..1] == agg;
    assert Members(agg) == Members(agg[..0]) + [60];
    assert Members(more) == Members(agg) + [60];
    var one, two: seq<Hash> := [60], [60, 60];
    assert one[..0] == [] && two[..1] == one;
  }

  lemma TwiceTxs()
    ensures BlockTxs(TWICE) == [FundsT(TRANSFER)] && BlockTxs(IN_BOTH) == []
    ensures HashesOf(BlockTxs(TWICE)) == [60] && HashesOf(BlockTxs(IN_BOTH)) == []
    ensures HashesOf(Aggs(TWICE.aggTxs)) == [70] && HashesOf(Aggs(IN_BOTH.aggTxs)) == [70, 71]
  {
  }

  lemma FetchedTwice(data: BlockData)
    requires data == TWICE || data == IN_BOTH
    ensures Fetched(data)
  {
    hide Members, NewFunds, NewMembers, BlockTxs;
    TwiceMembers();
    TwiceTxs();
  }

  lemma StoredTwice(data: BlockData)
    requires data == TWICE || data == IN_BOTH
    ensures FreshStore(map[], data)
  {
    hide Members, NewFunds, NewMembers, BlockTxs, HashesOf;
    TwiceMembers();
    TwiceTxs();
  }

  lemma FreshTwice(data: BlockData)
    requires data == TWICE || data == IN_BOTH
    ensures FreshBlock(Start(map[]), data)
  {
    hide Fetched, FreshStore, BlockTxs, HashesOf;
    FetchedTwice(data);
    StoredTwice(data);
    TwiceTxs();
    var none: seq<Hash> := [];
    assert [60] + [70] == [60, 70] && none + [70, 71] == [70, 71];
  }

  lemma OrderlyTwice(data: BlockData)
    requires data == TWICE || data == IN_BOTH
    ensures Orderly(Start(map[]), data)
  {
    hide Members, NewFunds, NewMembers, BlockTxs;
    TwiceMembers();
    TwiceTxs();
  }

  // Both blocks pass the checks, list transaction 60 twice, and apply it twice.
  lemma TransferredTwice(data: BlockData, difficulty: Difficulty)
    requires data == TWICE || data == IN_BOTH
    ensures var c := Start(map[]);
      && FreshBlock(c, data) && NoDuplicates(BlockHashes(data.block)) && !ListsOnce(c, data)
      && ApplyBlock(c, data, difficulty).CoreDone?
      && ApplyBlock(c, data, difficulty).core.ledger == Purses(1002, 978, 2, 20)
  {
    hide Members, NewFunds, NewMembers, FreshBlock, CloseBlock, ValidateState, BlockTxs;
    var none: TxStore := map[];
    assert none.Keys == {};
    FreshTwice(data);
    AppliedTwice(data);
    TwiceMembers();
    TwiceTxs();
    StatisticsCollected(none, data, difficulty);
    var listed := ListedHashes(data);
    assert listed == if data == TWICE then [60, 70, 60] else [70, 71, 60, 60];
    assert listed[if data == TWICE then 0 else 2] == listed[|listed| - 1];
  }

  lemma UndoneOnce(read: BlockData)
    requires SameUpToMarks(TWICE, read)
    ensures ValidateStateRollback(Purses(1002, 978, 2, 20), DEFAULT_PARAMETERS, read, [[]])
      == Done(Purses(1001, 989, 1, 10))
  {
    hide FundsUndo, RefundFee;
    RollbackSame(Purses(1002, 978, 2, 20), DEFAULT_PARAMETERS, TWICE, read, [[]]);
    FeeOnce(1001, 979, 2, 20);
    TransferBack(1001, 989, 1, 10);
    var fees, txs := [Charged(2, 1)], [TRANSFER];
    assert fees[..0] == [] && txs[..0] == [];
    assert BlockFees([], txs, [], []) == fees;
    var l := Purses(1002, 978, 2, 20);
    assert l.Debit(1, 0) == l;
    assert CollectTxFeesRollback(l, 1, fees) == Done(Purses(1001, 979, 2, 20));
    assert FundsStateChangeRollback(Purses(1001, 979, 2, 20), txs) == Done(Purses(1001, 989, 1, 10));
    var groups: seq<seq<FundsTx>> := [[]];
    assert groups[..0] == [];
  }

  // It is closed under the block it came with, 0.
  lemma NoneFoundTwice()
    ensures Groups(CloseBlock(map[], TWICE), TWICE.aggTxs, 77) == [[]]
  {
    hide CloseBlock, BlockTxs, Members;
    var none, m: TxStore := map[], CloseBlock(map[], TWICE);
    TwiceTxs();
    StoredTwice(TWICE);
    assert !Names(TWICE.aggTxs, 60) by {
      assert TWICE.aggTxs[0].hash == 70;
    }
    ClosedListed(none, TWICE, 0);
    var hs: seq<Hash> := [60];
    assert hs[..0] == [] && FoundIn(m, hs, 77) == [];
    assert TWICE.aggTxs[..0] == [];
    assert Groups(m, TWICE.aggTxs[..0], 77) == [];
  }

  // Listed by itself and inside an aggregation: the rollback finds the transaction under the block it came with, undoes
  // it once, and one transfer with its fee and its count stays.
  lemma DoubleListedLeaves(difficulty: Difficulty)
    ensures Leaves(Start(map[]), TWICE, difficulty)
    ensures var left := RollbackBlock(ApplyBlock(Start(map[]), TWICE, difficulty).core, TWICE.block);
      left.CoreDone? && left.core.ledger == Purses(1001, 989, 1, 10)
  {
    hide Members, FreshBlock, CloseBlock, ReopenClosed, Groups, ValidateState, ValidateStateRollback, BlockTxs,
         ReadBlockData,
         SameUpToMarks;
    var none: TxStore := map[];
    var c := Start(none);
    assert none.Keys == {};
    TransferredTwice(TWICE, difficulty);
    StartIsValid(none);
    var d := ApplyBlock(c, TWICE, difficulty).core;
    var read := RollbackReadsBack(c, TWICE);
    ReadAgain(TWICE, read, d.closedTxs);
    UndoneOnce(read);
    NoneFoundTwice();
  }

  lemma ReadAgain(data: BlockData, read: BlockData, m: TxStore)
    requires SameUpToMarks(data, read)
    ensures read.block == data.block && read.configTxs == data.configTxs
    ensures Groups(m, read.aggTxs, data.block.hashWithoutTx) == Groups(m, data.aggTxs, data.block.hashWithoutTx)
  {
    GroupsSame(m, data.aggTxs, read.aggTxs, data.block.hashWithoutTx);
  }

  // Inside two aggregations it is found and undone twice.
  lemma InBothRollsBack(difficulty: Difficulty)
    ensures var applied := ApplyBlock(Start(map[]), IN_BOTH, difficulty);
      applied.CoreDone? && RollbackBlock(applied.core, IN_BOTH.block) == CoreDone(Start(map[]))
  {
    hide Members, FreshBlock, CloseBlock, BlockTxs, ValidateState, ApplyBlock, RollbackBlock, BlockRollsBack, Orderly;
    var none: TxStore := map[];
    var c := Start(none);
    assert none.Keys == {};
    TransferredTwice(IN_BOTH, difficulty);
    StartIsValid(none);
    InBothMeetsGuards();
    RollbackInvertsBlock(c, IN_BOTH, difficulty);
  }

  lemma InBothMeetsGuards()
    ensures BlockRollsBack(Start(map[]), IN_BOTH)
  {
    hide Members, FreshBlock, BlockTxs, ValidateState, BlockRollsBack, Orderly;
    var none: TxStore := map[];
    assert none.Keys == {};
    FreshTwice(IN_BOTH);
    OrderlyTwice(IN_BOTH);
    AppliedTwice(IN_BOTH);
    TwiceMembers();
    GuardsAreExact(Start(none), IN_BOTH);
  }

  // -------------------- fees paid again --------------------

  // The member is closed under an earlier block and open as well.
  const CLOSED: TxStore := map[60 := FundsT(TRANSFER.(block := 5))]
  const OPEN: TxStore := map[60 := FundsT(TRANSFER), 70 := AggT(AGGREGATION)]
  const PAID_AGAIN := WithAgg(AGGREGATION, map[]).(aggFees := [TRANSFER])

  lemma AgainFetched(w: World, env: Env)
    requires w.core.closedTxs == CLOSED && w.openTxs == OPEN
    ensures FetchAggData(w, [70], env) == AggsFound([AGGREGATION], map[])
  {
    var none: TxStore := map[];
    var hs, members: seq<Hash> := [70], [60];
    assert hs[..0] == [] && members[..0] == [];
    assert FetchMembers(w, members, none, env) == AggsFound([], none);
  }

  lemma AgainPaying()
    ensures PayingFunds(OPEN, map[], [60]) == [TRANSFER] && SortedByTxCount([]) == []
  {
    var members: seq<Hash> := [60];
    assert members[..0] == [];
  }

  // The fetch takes its fee once more.
  lemma PaidAgainFetched(w: World, env: Env)
    requires w.core.closedTxs == CLOSED && w.openTxs == OPEN
    ensures FetchTransactions(w, PAID_AGAIN.block, env) == DataFound(PAID_AGAIN)
  {
    hide FetchAggData, PayingFunds, SortedByTxCount, Members, NewFunds, FetchTx;
    var none: TxStore := map[];
    AgainFetched(w, env);
    AgainPaying();
    OneAggregation(AGGREGATION, none);
    NoNewFunds(none, AGGREGATION.members);
  }

  lemma NothingListed(data: BlockData)
    requires data.accTxs == [] && data.fundsTxs == [] && data.configTxs == [] && data.stakeTxs == []
    ensures BlockTxs(data) == [] && HashesOf(BlockTxs(data)) == []
  {
  }

  lemma FreshAgain()
    ensures FreshBlock(Start(CLOSED), PAID_AGAIN) && Orderly(Start(CLOSED), PAID_AGAIN)
  {
    hide Members, BlockTxs, NewFunds;
    var none: TxStore := map[];
    OneAggregation(AGGREGATION, none);
    NoNewFunds(none, AGGREGATION.members);
    NothingListed(PAID_AGAIN);
    assert HashesOf(Aggs(PAID_AGAIN.aggTxs)) == [70];
    var listed: seq<Hash> := [];
    assert listed + [70] == [70];
  }

  lemma FeeAgain()
    ensures ValidateState(ACCOUNTS, CLOSED.Keys, DEFAULT_PARAMETERS, PAID_AGAIN, false) == Done(Purses(1001, 999, 0, 0))
  {
    hide PayFee;
    FeeOnce(1000, 1000, 0, 0);
    assert ACCOUNTS == Purses(1000, 1000, 0, 0);
    var fees := [Charged(2, 1)];
    assert fees[..0] == [] && AllFees(PAID_AGAIN) == fees;
    assert CollectFees(ACCOUNTS, 1, fees[..0]) == Done(ACCOUNTS);
    assert CollectFees(ACCOUNTS, 1, fees) == Done(Purses(1001, 999, 0, 0));
    assert Purses(1001, 999, 0, 0).Credit(1, 0) == Purses(1001, 999, 0, 0);
  }

  lemma AgainDoesNotCancel()
    ensures !FeesCancel(ACCOUNTS.accounts.Keys, PAID_AGAIN)
  {
    hide Net;
    var paid, nothing := FundsFees(PAID_AGAIN.aggFees), FundsFees(PAID_AGAIN.aggFunds);
    assert paid == [Charged(2, 1)] && nothing == [];
    assert paid[..0] == [];
    assert FeeMoves(1, paid) == [] + ([Move(1, 1)] + [Move(2, -1)]);
    NetConcat([Move(1, 1)], [Move(2, -1)], 2);
    NetOne(Move(1, 1), 2);
    NetOne(Move(2, -1), 2);
    NetEmpty(2);
    assert [] + ([Move(1, 1)] + [Move(2, -1)]) == [Move(1, 1)] + [Move(2, -1)];
    assert 2 in ACCOUNTS.accounts.Keys;
  }

  // A member that is closed and still open pays its fee again, and the rollback does not give it back.
  lemma PaidAgainLeaves(difficulty: Difficulty)
    ensures Leaves(Start(CLOSED), PAID_AGAIN, difficulty)
  {
    hide ValidateState, FreshBlock, BlockRollsBack, Orderly, Leaves, FeesCancel, LedgerGuards, StoreRollsBack,
         ListedOnce;
    FreshAgain();
    FeeAgain();
    AgainDoesNotCancel();
    assert Active(Start(CLOSED).params) == DEFAULT_PARAMETERS;
    GuardsAreExact(Start(CLOSED), PAID_AGAIN);
    LeavesUnlessRolledBack(CLOSED, PAID_AGAIN, difficulty);
  }

  // -------------------- a block that came back --------------------

  // One new transaction inside an aggregation, and what is closed then.
  const ONE_NEW := BlockData([], [], [], [], [AGGREGATION], map[60 := FundsT(TRANSFER)], [TRANSFER], [TRANSFER],
                             MINED.(aggTxData := [70], nrAggTx := 1))
  const MEMBER := TRANSFER.(block := 77, aggregated := true)
  const RECORDED := AGGREGATION.(block := 77)
  const CLOSED_THEN: TxStore := map[60 := FundsT(MEMBER), 70 := AggT(RECORDED)]

  // As it comes back after it was emptied.
  const CAME_BACK := MINED.(fundsTxData := [60], aggTxData := [70], nrFundsTx := 0, nrAggTx := 0)

  lemma ClosedThen()
    ensures CloseBlock(map[], ONE_NEW) == CLOSED_THEN
  {
    hide BlockTxs;
    NothingListed(ONE_NEW);
    var none: TxStore := map[];
    var hs: seq<Hash> := [60];
    var aggs := [AGGREGATION];
    assert hs[..0] == [] && aggs[..0] == [];
    assert WriteTxs(none, BlockTxs(ONE_NEW)) == none;
    assert CloseMembers(none, ONE_NEW.members, hs, 77) == map[60 := FundsT(MEMBER)];
    assert CloseAggs(none, ONE_NEW.members, aggs, 77) == CLOSED_THEN;
  }

  predicate Increasing(hs: seq<Hash>) {
    forall i, j :: 0 <= i < j < |hs| ==> hs[i] < hs[j]
  }

  lemma {:induction false} UnderAscends(m: TxStore, hs: seq<Hash>, kind: Kind, k: Hash)
    requires Increasing(hs)
    ensures forall h <- ClosedUnder(m, hs, kind, k) :: h in hs
    ensures Increasing(ClosedUnder(m, hs, kind, k))
  {
    if hs != [] {
      var n := |hs| - 1;
      UnderAscends(m, hs[..n], kind, k);
      assert hs == hs[..n] + [hs[n]];
      assert forall i :: 0 <= i < n ==> hs[..n][i] == hs[i] < hs[n];
      var rest := ClosedUnder(m, hs[..n], kind, k);
      forall i | 0 <= i < |rest| ensures rest[i] < hs[n] {
        assert rest[i] in hs[..n];
      }
    }
  }

  lemma {:induction false} AscendsBy(hs: seq<Hash>, i: nat)
    requires i < |hs| && Increasing(hs)
    ensures hs[i] >= hs[0] + i
  {
    if i > 0 {
      AscendsBy(hs, i - 1);
    }
  }

  lemma OnlyUnder(m: TxStore, kind: Kind, k: Hash, x: Hash)
    requires forall h :: h in m && m[h].Kind() == kind && Carries(m[h], k) <==> h == x
    ensures ClosedUnder(m, Ascending(m.Keys), kind, k) == [x]
  {
    hide ClosedUnder, Ascending;
    var r := ClosedUnder(m, Ascending(m.Keys), kind, k);
    UnderAscends(m, Ascending(m.Keys), kind, k);
    forall h ensures h in r <==> h == x {
      ClosedUnderIs(m, Ascending(m.Keys), kind, k, h);
    }
    assert x in r;
    forall i | 0 <= i < |r| ensures r[i] == x {
      assert r[i] in r;
    }
    AscendsBy(r, |r| - 1);
  }

  lemma OneSorted(h: Hash)
    ensures SortedHashes([h]) == [h]
  {
    assert [h][..0] == [];
  }

  lemma CameBack()
    ensures Reactivated(Emptied(ONE_NEW.block), CLOSED_THEN, 77) == CAME_BACK
  {
    hide ClosedUnder, Ascending, SortedHashes;
    OnlyUnder(CLOSED_THEN, FundsKind, 77, 60);
    OnlyUnder(CLOSED_THEN, AggKind, 77, 70);
    OneSorted(70);
    assert Emptied(ONE_NEW.block).fundsTxData + [60] == [60] && Emptied(ONE_NEW.block).aggTxData + [70] == [70];
  }

  lemma FetchedNew()
    ensures Fetched(ONE_NEW)
  {
    hide Members, NewFunds, NewMembers, BlockTxs;
    TwiceMembers();
    NothingListed(ONE_NEW);
    assert HashesOf(Aggs(ONE_NEW.aggTxs)) == [70];
  }

  lemma FreshNew()
    ensures FreshBlock(Start(map[]), ONE_NEW) && Orderly(Start(map[]), ONE_NEW)
  {
    hide Members, NewFunds, NewMembers, BlockTxs, Fetched;
    TwiceMembers();
    NothingListed(ONE_NEW);
    FetchedNew();
    var listed: seq<Hash> := [];
    assert HashesOf(Aggs(ONE_NEW.aggTxs)) == [70] && listed + [70] == [70];
  }

  lemma NewApplied()
    ensures ValidateState(ACCOUNTS, {}, DEFAULT_PARAMETERS, ONE_NEW, false) == Done(Purses(1001, 989, 1, 10))
  {
    hide FundsStep, PayFee, FundsStateChange;
    TransferTwice();
    NoneTransferred(ACCOUNTS);
    FeeOnce(1000, 990, 1, 10);
    var fees := [Charged(2, 1)];
    assert fees[..0] == [] && AllFees(ONE_NEW) == fees;
    assert CollectFees(Purses(1000, 990, 1, 10), 1, fees[..0]) == Done(Purses(1000, 990, 1, 10));
    assert CollectFees(Purses(1000, 990, 1, 10), 1, fees) == Done(Purses(1001, 989, 1, 10));
    assert Purses(1001, 989, 1, 10).Credit(1, 0) == Purses(1001, 989, 1, 10);
  }

  // As it was validated it rolls back.
  lemma NewRollsBack(difficulty: Difficulty)
    ensures var applied := ApplyBlock(Start(map[]), ONE_NEW, difficulty);
      && applied.CoreDone? && RollbackBlock(applied.core, ONE_NEW.block) == CoreDone(Start(map[]))
      && applied.core.ledger == Purses(1001, 989, 1, 10) && applied.core.closedTxs == CLOSED_THEN
      && applied.core.params == [DEFAULT_PARAMETERS]
  {
    hide Members, FreshBlock, CloseBlock, ValidateState, RollbackBlock, BlockRollsBack, Orderly;
    var none: TxStore := map[];
    assert none.Keys == {};
    StartIsValid(none);
    FreshNew();
    NewApplied();
    ClosedThen();
    StatisticsCollected(none, ONE_NEW, difficulty);
    NewMeetsGuards();
    RollbackInvertsBlock(Start(none), ONE_NEW, difficulty);
  }

  lemma NewMeetsGuards()
    ensures BlockRollsBack(Start(map[]), ONE_NEW)
  {
    hide Members, FreshBlock, BlockTxs, ValidateState, BlockRollsBack, Orderly, FeesCancel;
    var none: TxStore := map[];
    assert none.Keys == {};
    FreshNew();
    NewApplied();
    TwiceMembers();
    MatchingFeesCancel(ACCOUNTS.accounts.Keys, ONE_NEW);
    GuardsAreExact(Start(none), ONE_NEW);
  }

  const READ_BACK := BlockData([], [MEMBER], [], [], [RECORDED], map[], [], [], CAME_BACK)

  lemma ReadCameBack()
    ensures ReadBlockData(CLOSED_THEN, CAME_BACK) == DataFound(READ_BACK)
    ensures Groups(CLOSED_THEN, [RECORDED], 77) == [[MEMBER]]
  {
    var hs, more: seq<Hash> := [60], [70];
    assert hs[..0] == [] && more[..0] == [];
    assert ReadTxs(CLOSED_THEN, hs, FundsKind) == Found([FundsT(MEMBER)]);
    assert ReadTxs(CLOSED_THEN, more, AggKind) == Found([AggT(RECORDED)]);
    assert FoundIn(CLOSED_THEN, hs, 77) == [MEMBER];
    SortedSame([MEMBER]);
    var aggs := [RECORDED];
    assert aggs[..0] == [];
    assert Groups(CLOSED_THEN, aggs[..0], 77) == [];
  }

  // After the second undoing, and after its fee was given back.
  const BELOW_ZERO := Purses(1000, 1010, TWO_32 - 1, TWO_64 - 10)
  const LEFT := Purses(999, 1011, TWO_32 - 1, TWO_64 - 10)

  // Listed by itself now as well as inside its aggregation, the transaction is undone twice.
  lemma UndoneTwice()
    ensures ValidateStateRollback(Purses(1001, 989, 1, 10), DEFAULT_PARAMETERS, READ_BACK, [[MEMBER]]) == Done(LEFT)
  {
    hide CollectTxFeesRollback, FundsStateChangeRollback, AggregatedStateRollback;
    var l, fees := Purses(1001, 989, 1, 10), [Charged(2, 1)];
    assert BlockFees([], [MEMBER], [], []) == fees;
    assert l.Debit(1, 0) == l;
    UndoneFirst();
    UndoneGroups();
    assert UndoFunds(Purses(1000, 990, 1, 10), READ_BACK, [[MEMBER]]) == Done(LEFT);
  }

  lemma UndoneGroups()
    ensures AggregatedStateRollback(ACCOUNTS, 1, [[MEMBER]]) == Done(LEFT)
  {
    hide CollectTxFeesRollback, FundsStateChangeRollback;
    var groups := [[MEMBER]];
    assert groups[..0] == [] && FundsFees([MEMBER]) == [Charged(2, 1)];
    UndoneAgain();
  }

  lemma UndoneFirst()
    ensures CollectTxFeesRollback(Purses(1001, 989, 1, 10), 1, [Charged(2, 1)]) == Done(Purses(1000, 990, 1, 10))
    ensures FundsStateChangeRollback(Purses(1000, 990, 1, 10), [MEMBER]) == Done(ACCOUNTS)
  {
    hide FundsUndo, RefundFee;
    FeeOnce(1000, 990, 1, 10);
    TransferBack(1000, 1000, 0, 0);
    BareUndo(Purses(1000, 990, 1, 10), MEMBER);
    BareUndo(Purses(1000, 990, 1, 10), TRANSFER);
    var fees, txs := [Charged(2, 1)], [MEMBER];
    assert fees[..0] == [] && txs[..0] == [];
    assert ACCOUNTS == Purses(1000, 1000, 0, 0) && Bare(MEMBER) == Bare(TRANSFER);
  }

  lemma UndoneAgain()
    ensures FundsStateChangeRollback(ACCOUNTS, [MEMBER]) == Done(BELOW_ZERO)
    ensures CollectTxFeesRollback(BELOW_ZERO, 1, [Charged(2, 1)]) == Done(LEFT)
  {
    hide FundsUndo, RefundFee;
    UndoneBelowZero();
    var fees, txs := [Charged(2, 1)], [MEMBER];
    assert fees[..|fees| - 1] == [] && txs[..0] == [];
    assert CollectTxFeesRollback(BELOW_ZERO, 1, []) == Done(BELOW_ZERO);
    assert CollectTxFeesRollback(BELOW_ZERO, 1, fees) == RefundFee(BELOW_ZERO, 1, fees[0]);
  }

  lemma UndoneBelowZero()
    ensures FundsUndo(ACCOUNTS, MEMBER) == Done(BELOW_ZERO)
    ensures RefundFee(BELOW_ZERO, 1, Charged(2, 1)) == Done(LEFT)
  {
    hide FundsUndo, RefundFee;
    TransferBelowZero();
    FeeBelowZero();
  }

  lemma TransferBelowZero()
    ensures FundsUndo(ACCOUNTS, MEMBER) == Done(BELOW_ZERO)
  {
    var counted := ACCOUNTS.CountTx(2, -1);
    var credited := counted.Credit(2, 10);
    assert credited.accounts[2].balance == 1010;
    assert credited.Debit(3, 10) == BELOW_ZERO;
  }

  lemma FeeBelowZero()
    ensures RefundFee(BELOW_ZERO, 1, Charged(2, 1)) == Done(LEFT)
  {
    assert BELOW_ZERO.Debit(1, 1).Credit(2, 1) == LEFT;
  }

  // As it came back it does not: the counter of the sender and the balance of the receiver wrap.
  lemma CameBackLeaves(difficulty: Difficulty)
    ensures var applied := ApplyBlock(Start(map[]), ONE_NEW, difficulty);
      && applied.CoreDone?
      && RollbackBlock(applied.core, ONE_NEW.block) == CoreDone(Start(map[]))
      && (var back := Reactivated(Emptied(ONE_NEW.block), applied.core.closedTxs, 77);
          var left := RollbackBlock(applied.core, back);
          left.CoreDone? && left.core.ledger == LEFT)
  {
    hide ApplyBlock, ReadBlockData, Groups, ValidateStateRollback, ReopenClosed, Reactivated;
    NewRollsBack(difficulty);
    CameBack();
    ReadCameBack();
    UndoneTwice();
  }
}
