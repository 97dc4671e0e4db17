/** The supply equation: what a block, and a whole chain, adds to the sum of all balances, modulo 2^64. */
module Supply {
  import opened Words
  import opened Protocol
  import opened Transactions
  import opened ClosedAggregations
  import opened AggregatedRollback
  import opened Ledger
  import opened Effects
  import opened StageEffects
  import opened BlockEffects
  import opened Validation
  import opened AccountStage
  import opened SystemParameters
  import opened Chain
  import opened Runs
  import opened Node
  import B = BlockInverse

  // -------------------- sums over accounts --------------------

  ghost function SumOver(s: set<Hash>, f: Hash -> int): int {
    if s == {} then 0 else var a :| a in s; f(a) + SumOver(s - {a}, f)
  }

  lemma {:induction false} SumWithout(s: set<Hash>, a: Hash, f: Hash -> int)
    requires a in s
    ensures SumOver(s, f) == f(a) + SumOver(s - {a}, f)
    decreases |s|
  {
    var b :| b in s && SumOver(s, f) == f(b) + SumOver(s - {b}, f);
    if a != b {
      SumWithout(s - {b}, a, f);
      SumWithout(s - {a}, b, f);
      assert s - {b} - {a} == s - {a} - {b};
    }
  }

  lemma {:induction false} SumAdds(s: set<Hash>, f: Hash -> int, g: Hash -> int, h: Hash -> int)
    requires forall a :: a in s ==> h(a) == f(a) + g(a)
    ensures SumOver(s, h) == SumOver(s, f) + SumOver(s, g)
    decreases |s|
  {
    if s != {} {
      var a :| a in s;
      SumAdds(s - {a}, f, g, h);
      SumWithout(s, a, f); SumWithout(s, a, g); SumWithout(s, a, h);
    }
  }

  lemma {:induction false} SumZero(s: set<Hash>, f: Hash -> int)
    requires forall a :: a in s ==> f(a) == 0
    ensures SumOver(s, f) == 0
    decreases |s|
  {
    if s != {} {
      var a :| a in s;
      SumZero(s - {a}, f);
      SumWithout(s, a, f);
    }
  }

  lemma {:induction false} SumWraps(s: set<Hash>, f: Hash -> int, g: Hash -> int)
    requires forall a :: a in s ==> g(a) == Wrap64(f(a))
    ensures Wrap64(SumOver(s, g)) == Wrap64(SumOver(s, f))
    decreases |s|
  {
    if s != {} {
      var a :| a in s;
      SumWraps(s - {a}, f, g);
      SumWithout(s, a, f); SumWithout(s, a, g);
      Wrap64Absorbs(f(a), SumOver(s - {a}, g));
      Wrap64Absorbs(SumOver(s - {a}, g), f(a));
      Wrap64Absorbs(SumOver(s - {a}, f), f(a));
    }
  }

  ghost function Balance(l: Ledger, a: Hash): int { if a in l.accounts then l.accounts[a].balance else 0 }

  ghost function Balances(l: Ledger): Hash -> int { (a: Hash) => Balance(l, a) }

  // The sum of all balances.
  ghost function Total(l: Ledger): int { SumOver(l.accounts.Keys, Balances(l)) }

  // -------------------- moves --------------------

  ghost function Amounts(ms: seq<Move>): int {
    if ms == [] then 0 else Amounts(ms[..|ms| - 1]) + ms[|ms| - 1].amount
  }

  ghost function Nets(ms: seq<Move>): Hash -> int { (a: Hash) => Net(ms, a) }

  ghost predicate MovesWithin(ms: seq<Move>, s: set<Hash>) { forall i :: 0 <= i < |ms| ==> ms[i].account in s }

  lemma {:induction false} AmountsConcat(ms: seq<Move>, ns: seq<Move>)
    ensures Amounts(ms + ns) == Amounts(ms) + Amounts(ns)
  {
    if ns == [] {
      assert ms + ns == ms;
    } else {
      assert (ms + ns)[..|ms + ns| - 1] == ms + ns[..|ns| - 1];
      AmountsConcat(ms, ns[..|ns| - 1]);
    }
  }

  lemma AmountsOne(m: Move)
    ensures Amounts([m]) == m.amount
  {
    assert [m][..0] == [];
  }

  lemma {:induction false} NetSums(s: set<Hash>, ms: seq<Move>)
    requires MovesWithin(ms, s)
    ensures SumOver(s, Nets(ms)) == Amounts(ms)
  {
    if ms == [] {
      SumZero(s, Nets(ms));
    } else {
      var rest, last := ms[..|ms| - 1], ms[|ms| - 1];
      NetSums(s, rest);
      var one := (a: Hash) => if last.account == a then last.amount else 0;
      SumAdds(s, Nets(rest), one, Nets(ms));
      SumWithout(s, last.account, one);
      SumZero(s - {last.account}, one);
    }
  }

  lemma MovedTotal(l: Ledger, m: Ledger, moves: seq<Move>, marks: seq<Move>)
    requires Moved(l, m, moves, marks) && MovesWithin(moves, l.accounts.Keys)
    ensures Wrap64(Total(m)) == Wrap64(Total(l) + Amounts(moves))
  {
    hide Wrap64, Wrap32, Net, SumOver, Amounts;
    var s := l.accounts.Keys;
    var f := (a: Hash) => Balance(l, a) + Net(moves, a);
    SumWraps(s, f, Balances(m));
    SumAdds(s, Balances(l), Nets(moves), f);
    NetSums(s, moves);
  }

  // -------------------- what a block issues --------------------

  ghost function RootIssued(roots: set<Hash>, txs: seq<FundsTx>): int {
    if txs == [] then 0
    else
      var tx := txs[|txs| - 1];
      RootIssued(roots, txs[..|txs| - 1]) + if tx.from in roots then tx.amount + tx.fee else 0
  }

  ghost function MintedFees(fees: seq<Fee>): int {
    if fees == [] then 0
    else MintedFees(fees[..|fees| - 1]) + match fees[|fees| - 1] { case Minted(f) => f case Charged(_, _) => 0 }
  }

  ghost function AccFeeSum(txs: seq<AccTx>): int {
    if txs == [] then 0 else AccFeeSum(txs[..|txs| - 1]) + txs[|txs| - 1].fee
  }

  ghost function ConfigFeeSum(txs: seq<ConfigTx>): int {
    if txs == [] then 0 else ConfigFeeSum(txs[..|txs| - 1]) + txs[|txs| - 1].fee
  }

  // Root senders' amounts and fees, account and config fees, the block reward and, with a slashing proof, the slash
  // reward less the staking minimum.
  ghost function Issued(roots: set<Hash>, p: Parameters, data: BlockData): int {
    RootIssued(roots, data.fundsTxs) + RootIssued(roots,
                                                  data.aggFunds) + AccFeeSum(data.accTxs) + ConfigFeeSum(data.configTxs)
    + p.blockReward + if data.block.CarriesSlashingProof() then p.slashReward - p.stakingMinimum else 0
  }

  lemma {:induction false} FundsAmounts(roots: set<Hash>, txs: seq<FundsTx>)
    ensures Amounts(FundsMoves(roots, txs)) == RootIssued(roots, txs)
  {
    if txs != [] {
      var rest, tx := txs[..|txs| - 1], txs[|txs| - 1];
      FundsAmounts(roots, rest);
      AmountsConcat(FundsMoves(roots, rest), TxMoves(roots, tx));
      TxAmounts(roots, tx);
    }
  }

  lemma TxAmounts(roots: set<Hash>, tx: FundsTx)
    ensures Amounts(TxMoves(roots, tx)) == if tx.from in roots then tx.amount + tx.fee else 0
  {
    hide Amounts;
    var none: seq<Move> := [];
    var root := if tx.from in roots then [Move(tx.from, tx.amount)] + [Move(tx.from, tx.fee)] else none;
    AmountsConcat(root + [Move(tx.from, 0 - tx.amount)], [Move(tx.to, tx.amount)]);
    AmountsConcat(root, [Move(tx.from, 0 - tx.amount)]);
    AmountsConcat([Move(tx.from, tx.amount)], [Move(tx.from, tx.fee)]);
    AmountsOne(Move(tx.from, tx.amount)); AmountsOne(Move(tx.from, tx.fee));
    AmountsOne(Move(tx.from, 0 - tx.amount)); AmountsOne(Move(tx.to, tx.amount));
    assert Amounts(none) == 0 by { NoAmounts(); }
  }

  lemma NoAmounts()
    ensures Amounts([]) == 0
  {
  }

  lemma {:induction false} FeeAmounts(miner: Hash, fees: seq<Fee>)
    ensures Amounts(FeeMoves(miner, fees)) == MintedFees(fees)
  {
    if fees != [] {
      var rest, fee := fees[..|fees| - 1], fees[|fees| - 1];
      FeeAmounts(miner, rest);
      AmountsConcat(FeeMoves(miner, rest), OneFeeMoves(miner, fee));
      AmountsOne(Move(miner, fee.fee));
      if fee.Charged? {
        AmountsOne(Move(fee.payer, 0 - fee.fee));
        AmountsConcat([Move(miner, fee.fee)], [Move(fee.payer, 0 - fee.fee)]);
      }
    }
  }

  lemma {:induction false} MintedConcat(xs: seq<Fee>, ys: seq<Fee>)
    ensures MintedFees(xs + ys) == MintedFees(xs) + MintedFees(ys)
  {
    if ys == [] {
      assert xs + ys == xs;
    } else {
      assert (xs + ys)[..|xs + ys| - 1] == xs + ys[..|ys| - 1];
      MintedConcat(xs, ys[..|ys| - 1]);
    }
  }

  lemma {:induction false} MintedByAccounts(txs: seq<AccTx>)
    ensures MintedFees(AccFees(txs)) == AccFeeSum(txs)
  {
    if txs != [] {
      assert AccFees(txs)[..|txs| - 1] == AccFees(txs[..|txs| - 1]);
      MintedByAccounts(txs[..|txs| - 1]);
    }
  }

  lemma {:induction false} MintedByConfigs(txs: seq<ConfigTx>)
    ensures MintedFees(ConfigFees(txs)) == ConfigFeeSum(txs)
  {
    if txs != [] {
      assert ConfigFees(txs)[..|txs| - 1] == ConfigFees(txs[..|txs| - 1]);
      MintedByConfigs(txs[..|txs| - 1]);
    }
  }

  lemma {:induction false} ChargedMintsNothing(fees: seq<Fee>)
    requires forall i :: 0 <= i < |fees| ==> fees[i].Charged?
    ensures MintedFees(fees) == 0
  {
    if fees != [] {
      ChargedMintsNothing(fees[..|fees| - 1]);
    }
  }

  lemma MintedByBlock(data: BlockData)
    ensures MintedFees(AllFees(data)) == AccFeeSum(data.accTxs) + ConfigFeeSum(data.configTxs)
  {
    hide MintedFees;
    var accs, funds := AccFees(data.accTxs), FundsFees(data.fundsTxs + data.aggFees);
    var configs, stakes := ConfigFees(data.configTxs), StakeFees(data.stakeTxs);
    MintedConcat(accs + funds + configs, stakes);
    MintedConcat(accs + funds, configs);
    MintedConcat(accs, funds);
    MintedByAccounts(data.accTxs);
    MintedByConfigs(data.configTxs);
    ChargedMintsNothing(funds);
    ChargedMintsNothing(stakes);
  }

  lemma BlockAmounts(roots: set<Hash>, p: Parameters, data: BlockData)
    ensures Amounts(BlockMoves(roots, p, data)) == Issued(roots, p, data)
  {
    hide Amounts, FundsMoves, FeeMoves, RootIssued, MintedFees, AllFees;
    var none: seq<Move> := [];
    var funds, aggs := FundsMoves(roots, data.fundsTxs), FundsMoves(roots, data.aggFunds);
    var fees, reward, slash := FeeMoves(data.block.beneficiary, AllFees(data)),
        [Move(data.block.beneficiary, p.blockReward)], SlashMoves(p, data.block);
    AmountsConcat(funds + aggs + fees + reward, slash);
    AmountsConcat(funds + aggs + fees, reward);
    AmountsConcat(funds + aggs, fees);
    AmountsConcat(funds, aggs);
    FundsAmounts(roots, data.fundsTxs);
    FundsAmounts(roots, data.aggFunds);
    FeeAmounts(data.block.beneficiary, AllFees(data));
    MintedByBlock(data);
    AmountsOne(Move(data.block.beneficiary, p.blockReward));
    AmountsConcat([Move(data.block.beneficiary, p.slashReward)],
                  [Move(data.block.slashedAddress, 0 - p.stakingMinimum)]);
    AmountsOne(Move(data.block.beneficiary, p.slashReward));
    AmountsOne(Move(data.block.slashedAddress, 0 - p.stakingMinimum));
    assert Amounts(none) == 0 by { NoAmounts(); }
  }

  // -------------------- moves stay among the accounts --------------------

  lemma {:induction false} FundsWithin(roots: set<Hash>, txs: seq<FundsTx>, l: Ledger)
    requires FundsAccountsExist(l, txs)
    ensures MovesWithin(FundsMoves(roots, txs), l.accounts.Keys)
  {
    if txs != [] {
      assert FundsAccountsExist(l, txs[..|txs| - 1]);
      FundsWithin(roots, txs[..|txs| - 1], l);
    }
  }

  lemma {:induction false} FeesWithin(miner: Hash, fees: seq<Fee>, l: Ledger)
    requires PayersExist(l, fees) && miner in l.accounts
    ensures MovesWithin(FeeMoves(miner, fees), l.accounts.Keys)
  {
    if fees != [] {
      assert PayersExist(l, fees[..|fees| - 1]);
      FeesWithin(miner, fees[..|fees| - 1], l);
    }
  }

  lemma BlockWithin(roots: set<Hash>, p: Parameters, data: BlockData, l: Ledger)
    requires NamedAccountsExist(l, data)
    ensures MovesWithin(BlockMoves(roots, p, data), l.accounts.Keys)
  {
    hide FundsMoves, FeeMoves, AllFees;
    FundsWithin(roots, data.fundsTxs, l);
    FundsWithin(roots, data.aggFunds, l);
    FeesWithin(data.block.beneficiary, AllFees(data), l);
  }

  // New accounts start at zero.
  lemma AccountsAddNothing(l: Ledger, txs: seq<AccTx>)
    requires AccStateChange(l, txs).Done?
    ensures Total(AccStateChange(l, txs).ledger) == Total(l)
  {
    hide AccStateChange;
    var m := AccStateChange(l, txs).ledger;
    AccEffect(l, txs);
    SumWider(l.accounts.Keys, m.accounts.Keys, Balances(l), Balances(m));
  }

  lemma {:induction false} SumWider(s: set<Hash>, t: set<Hash>, f: Hash -> int, g: Hash -> int)
    requires s <= t && (forall a :: a in s ==> g(a) == f(a)) && forall a :: a in t - s ==> g(a) == 0
    ensures SumOver(t, g) == SumOver(s, f)
    decreases |s|
  {
    if s == {} {
      SumZero(t, g);
    } else {
      var a :| a in s;
      SumWithout(s, a, f);
      SumWithout(t, a, g);
      SumWider(s - {a}, t - {a}, f, g);
    }
  }

  // -------------------- the equation --------------------

  // A validated block changes the sum of all balances, modulo 2^64, by exactly what it issues, whatever accounts
  // coincide.
  lemma SupplyEquation(l: Ledger, closed: set<Hash>, p: Parameters, data: BlockData, initialSetup: bool)
    requires ValidateState(l, closed, p, data, initialSetup).Done? && BlockFresh(closed, data, initialSetup)
    ensures AccStateChange(l, data.accTxs).Done?
    ensures Wrap64(Total(ValidateState(l, closed, p, data, initialSetup).ledger))
         == Wrap64(Total(l) + Issued(AccStateChange(l, data.accTxs).ledger.rootKeys, p, data))
  {
    hide Wrap64, Wrap32, Net, FundsAndLater, AccStateChange, BlockMoves, BlockMarks, Moved, Issued, Total;
    var l1 := AccStateChange(l, data.accTxs).ledger;
    AccountsAddNothing(l, data.accTxs);
    StagesEffect(l1, closed, p, data, initialSetup);
    BlockWithin(l1.rootKeys, p, data, l1);
    BlockAmounts(l1.rootKeys, p, data);
    MovedTotal(l1, ValidateState(l, closed, p, data, initialSetup).ledger, BlockMoves(l1.rootKeys, p, data),
               BlockMarks(data));
  }

  // What the blocks of a chain have issued, each under the root keys and parameters in force.
  ghost function ChainIssued(g: Genesis, chain: seq<BlockData>): int
    requires Replays(g, chain)
  {
    if chain == [] then 0
    else
      var prefix, data := chain[..|chain| - 1], chain[|chain| - 1];
      var c := Replay(g, prefix).core;
      ChainIssued(g, prefix) + match AccStateChange(c.ledger, data.accTxs) {
        case Done(m) => Issued(m.rootKeys, Active(c.params), data)
        case other => 0
      }
  }

  lemma {:induction false} ReplaySupply(g: Genesis, chain: seq<BlockData>)
    requires GenesisOk(g) && Replays(g, chain)
    ensures Replay(g, chain).CoreDone?
    ensures Wrap64(Total(Replay(g, chain).core.ledger)) == Wrap64(Total(g.core.ledger) + ChainIssued(g, chain))
  {
    hide Wrap64, Total, Issued, ValidateState, FreshBlock, AccStateChange, ConfigStateChange, CollectStatistics;
    if chain != [] {
      var prefix, data := chain[..|chain| - 1], chain[|chain| - 1];
      ReplaySupply(g, prefix);
      ApplySupply(Replay(g, prefix).core, data, g.difficulty);
      var issued := ChainIssued(g, chain) - ChainIssued(g, prefix);
      Wrap64Absorbs(Total(Replay(g, prefix).core.ledger), issued);
      Wrap64Absorbs(Total(g.core.ledger) + ChainIssued(g, prefix), issued);
    }
  }

  // The supply of a node, between any two blocks of any run: reorganisations leave nothing behind.
  lemma NodeSupply(g: Genesis, w: World, chain: seq<BlockData>)
    requires Follows(g, w, chain)
    ensures Wrap64(Total(w.core.ledger)) == Wrap64(Total(g.core.ledger) + ChainIssued(g, chain))
  {
    ReplaySupply(g, chain);
  }

  lemma ApplySupply(c: Core, data: BlockData, difficulty: Difficulty)
    requires ApplyBlock(c, data, difficulty).CoreDone? && FreshBlock(c, data)
    ensures AccStateChange(c.ledger, data.accTxs).Done?
    ensures Wrap64(Total(ApplyBlock(c, data, difficulty).core.ledger))
         == Wrap64(Total(c.ledger) + Issued(AccStateChange(c.ledger, data.accTxs).ledger.rootKeys, Active(c.params),
                                            data))
  {
    hide Wrap64, Total, Issued, ValidateState, AccStateChange, WriteTxs;
    var p := Active(c.params);
    FreshForLedger(c, data);
    SupplyEquation(c.ledger, c.closedTxs.Keys, p, data, false);
    var l := ValidateState(c.ledger, c.closedTxs.Keys, p, data, false).ledger;
    ConfigOnlyUnstakes(p, l, data.configTxs);
    UnstakingKeepsTotal(l, CheckAndChangeParameters(p, l, data.configTxs).ledger);
  }

  lemma UnstakingKeepsTotal(l: Ledger, m: Ledger)
    requires B.OnlyUnstakes(l, m)
    ensures Total(m) == Total(l)
  {
    SumWider(l.accounts.Keys, m.accounts.Keys, Balances(l), Balances(m));
  }
}
