/** The node: stores, fork choice, and the validation of a received block with reorganisation. */
module Node {
  import opened Words
  import opened Options
  import opened Protocol
  import opened Transactions
  import opened ClosedAggregations
  import opened Ledger
  import opened SystemParameters
  import opened Validation
  import opened Chain

  datatype World = World(
    core: Core, openTxs: TxStore, closedBlocks: map<Hash, Block>, closedBlocksWithoutTx: map<Hash, Block>,
    lastClosedBlock: Option<Block>, lastBlock: Option<Block>, stash: seq<Block>)

  // What one call of validate meets outside the node: the difficulty formula, the outcome of the checks of preValidate
  // that are not modelled, the answers of the network (by kind, or to a request for a transaction of unknown kind), the
  // order in which the closed blocks are visited, and a bound on the steps of the two searches.
  datatype Env = Env(difficulty: Difficulty, checks: Block -> bool, blocks: Hash -> Option<Block>,
                     txs: (Hash, Kind) -> Option<Tx>, unknown: Hash -> Option<Tx>,
                     visits: seq<Hash>, bound: nat)

  const NO_EMPTYING_LENGTH := 100
  const STASH_SIZE := 100

  // -------------------- fork choice --------------------

  // The parent as the closed stores know it: by hash, else among the emptied blocks.
  function Parent(w: World, b: Block): Option<Block> {
    if b.prevHash in w.closedBlocks then Some(w.closedBlocks[b.prevHash])
    else if b.prevHashWithoutTx in w.closedBlocksWithoutTx then Some(w.closedBlocksWithoutTx[b.prevHashWithoutTx])
    else None
  }

  function FindInStash(stash: seq<Block>, h: Hash): Option<Block> {
    if stash == [] then None else if stash[0].hash == h then Some(stash[0]) else FindInStash(stash[1..], h)
  }

  function WriteToReceivedStash(stash: seq<Block>, b: Block): seq<Block> {
    if FindInStash(stash, b.hash).Some? then stash
    else if |stash| + 1 > STASH_SIZE then stash[1..] + [b]
    else stash + [b]
  }

  datatype Search = Ancestor(ancestor: Block, newChain: seq<Block>, stash: seq<Block>) | NoAncestor(stash: seq<Block>)
    | Unfinished

  // Back from the new block to the first closed ancestor, through the stash and the network. The
  // bound counts steps; a search that would go on is Unfinished.
  function GetNewChain(w: World, stash: seq<Block>, newBlock: Block, env: Env, bound: nat): Search
    decreases bound
  {
    match Parent(w, newBlock)
    case Some(ancestor) => Ancestor(ancestor, [newBlock], stash)
    case None =>
      var stashed := FindInStash(stash, newBlock.prevHash);
      var next := if stashed.Some? then stashed else env.blocks(newBlock.prevHash);
      if next.None? then NoAncestor(stash)
      else if bound == 0 then Unfinished
      else
        var stash' := if stashed.Some? then stash else WriteToReceivedStash(stash, next.value);
        match GetNewChain(w, stash', next.value, env, bound - 1)
        case Ancestor(ancestor, newChain, s) => Ancestor(ancestor, newChain + [newBlock], s)
        case other => other
  }

  predicate SameBlock(b: Block, c: Block) { b.hash == c.hash || b.hashWithoutTx == c.hashWithoutTx }

  datatype Walk = Reached(path: seq<Block>) | Lost | Endless

  // Back from a block of the active chain to the ancestor, collecting the blocks to roll back.
  function WalkBack(w: World, tip: Block, ancestor: Block, bound: nat): Walk
    decreases bound
  {
    if SameBlock(tip, ancestor) then Reached([])
    else match Parent(w, tip)
      case None => Lost
      case Some(parent) =>
        if bound == 0 then Endless
        else match WalkBack(w, parent, ancestor, bound - 1)
          case Reached(path) => Reached([tip] + path)
          case other => other
  }

  datatype Sequences = Sequences(toRollback: seq<Block>, toValidate: seq<Block>, stash: seq<Block>)
    | NoSequences(stash: seq<Block>) | NoEnd

  function GetBlockSequences(w: World, b: Block, env: Env): Sequences {
    match GetNewChain(w, w.stash, b, env, env.bound)
    case Unfinished => NoEnd
    case NoAncestor(stash) => NoSequences(stash)
    case Ancestor(ancestor, newChain, stash) =>
      var tip := if w.lastBlock.Some? then w.lastBlock else w.lastClosedBlock;
      if tip.None? then NoSequences(stash)
      else match WalkBack(w, tip.value, ancestor, env.bound)
        case Lost => NoSequences(stash)
        case Endless => NoEnd
        case Reached(path) => if |path| >= |newChain| then NoSequences(stash) else Sequences(path, newChain, stash)
  }

  // -------------------- rollback --------------------

  // Stuck: a search without end, or a crash.
  datatype Verdict = Accepted(world: World) | Rejected(world: World) | Stuck

  // An emptied block as it comes back: what is closed under it is appended to its lists, its counters stay as they are.
  function Reactivated(b: Block, m: TxStore, k: Hash): Block {
    b.(aggregated := false, fundsTxData := b.fundsTxData + ClosedUnder(m, Ascending(m.Keys), FundsKind, k),
       aggTxData := SortedHashes(b.aggTxData + ClosedUnder(m, Ascending(m.Keys), AggKind, k)))
  }

  // Nothing but the two buckets of blocks differs.
  predicate OnlyBuckets(w: World, w': World) {
    w' == w.(closedBlocks := w'.closedBlocks, closedBlocksWithoutTx := w'.closedBlocksWithoutTx)
  }

  // reactivateHistoricBlockDueToRollback, as far as the block closed under k goes.
  function Reactivate(w: World, k: Hash): World {
    if k !in w.closedBlocksWithoutTx then w
    else
      var b := Reactivated(w.closedBlocksWithoutTx[k], w.core.closedTxs, k);
      w.(closedBlocks := w.closedBlocks[b.hash := b], closedBlocksWithoutTx := w.closedBlocksWithoutTx - {k})
  }

  // A member that was closed in another block brings that block back.
  function ReactivateFor(w: World, h: Hash, hash: Hash): World {
    if h !in w.core.closedTxs then w
    else match w.core.closedTxs[h]
      case FundsT(tx) => if tx.block == hash then w else Reactivate(w, tx.block)
      case AggT(tx) => Reactivate(w, tx.block)
      case _ => w
  }

  function ReactivateMembers(w: World, hs: seq<Hash>, hash: Hash): (w': World)
    ensures OnlyBuckets(w, w')
  {
    if hs == [] then w else ReactivateFor(ReactivateMembers(w, hs[..|hs| - 1], hash), hs[|hs| - 1], hash)
  }

  // The last aggregation first.
  function ReactivateAggs(w: World, aggs: seq<AggTx>, hash: Hash): (w': World)
    ensures OnlyBuckets(w, w')
    decreases aggs
  {
    if aggs == [] then w
    else ReactivateAggs(ReactivateMembers(w, aggs[|aggs| - 1].members, hash), aggs[..|aggs| - 1], hash)
  }

  function RollbackOne(w: World, b: Block): Verdict {
    match ReadBlockData(w.core.closedTxs, b)
    case DataMissing => Rejected(w)
    case DataWrongType => Stuck
    case DataFound(data) =>
      match RollBackData(w.core, data)
      case CoreDone(core) => Accepted(RolledBackWorld(ReactivateAggs(w, data.aggTxs, b.hashWithoutTx), core, data, b))
      case other => Stuck
  }

  function RolledBackWorld(w: World, core: Core, data: BlockData, b: Block): World {
    var closed := w.closedBlocks - {b.hash};
    // The second lookup uses the wrong bucket for the hash without transactions.
    var prev := if b.prevHash in closed then Some(closed[b.prevHash])
                else if b.prevHashWithoutTx in closed then Some(closed[b.prevHashWithoutTx]) else None;
    World(core, ReopenOpen(w.openTxs, w.core.closedTxs, data), closed, w.closedBlocksWithoutTx, prev,
          if b.prevHash in w.closedBlocks then Some(w.closedBlocks[b.prevHash]) else None,
          WriteToReceivedStash(w.stash, b))
  }

  function RollbackAll(w: World, blocks: seq<Block>): Verdict
    decreases blocks
  {
    if blocks == [] then Accepted(w)
    else match RollbackOne(w, blocks[0])
      case Accepted(w') => RollbackAll(w', blocks[1..])
      case other => other
  }

  // -------------------- validation --------------------

  // Reads one of a block's transactions for a state change: a closed one rejects the block, an open one is taken, any
  // other is asked for and must have the hash it was asked by.
  function FetchTx(w: World, h: Hash, kind: Kind, env: Env): (r: Lookup)
    ensures r.Found? ==> |r.txs| == 1 && r.txs[0].Kind() == kind
  {
    if h in w.core.closedTxs then Missing
    else
      var tx := if h in w.openTxs then Some(w.openTxs[h]) else env.txs(h, kind);
      if tx.None? || (h !in w.openTxs && tx.value.Hash() != h) then Missing
      else if tx.value.Kind() != kind then WrongType
      else Found([tx.value])
  }

  function FetchTxs(w: World, hs: seq<Hash>, kind: Kind, env: Env): (r: Lookup)
    ensures r.Found? ==> |r.txs| == |hs| && forall i :: 0 <= i < |hs| ==> r.txs[i].Kind() == kind
  {
    if hs == [] then Found([])
    else match FetchTxs(w, hs[..|hs| - 1], kind, env)
      case Found(txs) =>
        (match FetchTx(w, hs[|hs| - 1], kind, env)
         case Found(last) => Found(txs + last)
         case other => other)
      case other => other
  }

  datatype AggLookup = AggsFound(aggs: seq<AggTx>, members: TxStore) | AggsMissing | AggsWrongType

  // One aggregation of the block. A closed one passes if it is marked as aggregated.
  function FetchAgg(w: World, h: Hash, env: Env): (r: Lookup)
    ensures r.Found? ==> |r.txs| == 1 && r.txs[0].AggT?
  {
    if h in w.core.closedTxs then
      if !w.core.closedTxs[h].AggT? then WrongType
      else if !w.core.closedTxs[h].agg.aggregated then Missing
      else Found([w.core.closedTxs[h]])
    else
      var tx := if h in w.openTxs then Some(w.openTxs[h]) else env.txs(h, AggKind);
      if tx.None? || (h !in w.openTxs && tx.value.Hash() != h) then Missing
      else if !tx.value.AggT? then WrongType
      else Found([tx.value])
  }

  // The members of an aggregation that are not closed: open ones are taken, others are asked for without knowing their
  // kind.
  function FetchMembers(w: World, hs: seq<Hash>, members: TxStore, env: Env): AggLookup {
    if hs == [] then AggsFound([], members)
    else match FetchMembers(w, hs[..|hs| - 1], members, env)
      case AggsFound(_, more) =>
        var h := hs[|hs| - 1];
        if h in w.core.closedTxs then AggsFound([], more)
        else
          var tx := if h in w.openTxs then Some(w.openTxs[h]) else env.unknown(h);
          if tx.None? || (h !in w.openTxs && (tx.value.Hash() != h || !IsMember(tx.value))) then AggsMissing
          else if !IsMember(tx.value) then AggsWrongType
          else AggsFound([], more[h := tx.value])
      case other => other
  }

  predicate IsMember(tx: Tx) { tx.FundsT? || tx.AggT? }

  function FetchAggData(w: World, hs: seq<Hash>, env: Env): AggLookup {
    if hs == [] then AggsFound([], map[])
    else match FetchAggData(w, hs[..|hs| - 1], env)
      case AggsFound(aggs, members) =>
        (match FetchAgg(w, hs[|hs| - 1], env)
         case Found(txs) =>
           (match FetchMembers(w, txs[0].agg.members, members, env)
            case AggsFound(_, more) => AggsFound(aggs + [txs[0].agg], more)
            case other => other)
         case Missing => AggsMissing
         case WrongType => AggsWrongType)
      case other => other
  }

  // getFundsTxFromAggTx: whatever is open pays its fee; members that were asked for are open by now.
  function PayingFunds(openTxs: TxStore, members: TxStore, hs: seq<Hash>): seq<FundsTx> {
    if hs == [] then []
    else
      var h, rest := hs[|hs| - 1], PayingFunds(openTxs, members, hs[..|hs| - 1]);
      var tx := if h in openTxs then Some(openTxs[h]) else if h in members then Some(members[h]) else None;
      if tx.Some? && tx.value.FundsT? then rest + [tx.value.funds] else rest
  }

  // With the aggregations and what the state change and the fee collection take from them.
  function WithAggs(openTxs: TxStore, data: BlockData, aggs: seq<AggTx>, members: TxStore): BlockData {
    data.(aggTxs := aggs, members := members, aggFunds := SortedByTxCount(NewFunds(members, Members(aggs))),
          aggFees := PayingFunds(openTxs, members, Members(aggs)))
  }

  function FetchTransactions(w: World, b: Block, env: Env): DataLookup {
    var accs, funds := FetchTxs(w, b.accTxData, AccKind, env), FetchTxs(w, b.fundsTxData, FundsKind, env);
    var configs, stakes := FetchTxs(w, b.configTxData, ConfigKind, env), FetchTxs(w, b.stakeTxData, StakeKind, env);
    var aggs := FetchAggData(w, b.aggTxData, env);
    if !b.Counted() || accs.WrongType? || funds.WrongType? || configs.WrongType? || stakes.WrongType?
      || aggs.AggsWrongType?
    then DataWrongType
    else if accs.Missing? || funds.Missing? || configs.Missing? || stakes.Missing? || aggs.AggsMissing? then DataMissing
    else DataFound(WithAggs(w.openTxs, Assemble(accs, funds, configs, stakes, b), aggs.aggs, aggs.members))
  }

  // A block can be emptied once all its funds transactions and aggregations are marked as aggregated. A block with
  // stake, account and configuration transactions at the same time never is.
  predicate BlockReadyToAggregate(closed: TxStore, b: Block) {
    || b.CountsNone()
    || (&& (b.stakeTxData == [] || b.accTxData == [] || b.configTxData == [])
        && (forall i :: 0 <= i < |b.fundsTxData| ==>
              var h := b.fundsTxData[i]; h in closed && closed[h].FundsT? && closed[h].funds.aggregated)
        && forall i :: 0 <= i < |b.aggTxData| ==>
             var h := b.aggTxData[i]; h in closed && closed[h].AggT? && closed[h].agg.aggregated)
  }

  // A block without counted transactions keeps its lists.
  function Emptied(b: Block): Block {
    if b.CountsNone() then b.(aggregated := true)
    else b.(aggregated := true, fundsTxData := [], aggTxData := [], nrFundsTx := 0, nrAggTx := 0)
  }

  function EmptyOldBlock(w: World, h: Hash, height: uint32): World {
    if h !in w.closedBlocks then w
    else
      var b := w.closedBlocks[h];
      if !b.aggregated && b.height > 0 && b.height < height - NO_EMPTYING_LENGTH
        && BlockReadyToAggregate(w.core.closedTxs, b) then
        w.(closedBlocks := w.closedBlocks - {h},
           closedBlocksWithoutTx := w.closedBlocksWithoutTx[b.hashWithoutTx := Emptied(b)])
      else w
  }

  function EmptyOldBlocks(w: World, visits: seq<Hash>, height: uint32): World {
    if visits == [] then w
    else EmptyOldBlock(EmptyOldBlocks(w, visits[..|visits| - 1], height), visits[|visits| - 1], height)
  }

  function PostValidate(w: World, core: Core, data: BlockData, visits: seq<Hash>): World {
    var written :=
      w.(core := core, openTxs := CloseOpen(w.openTxs, data),
         closedBlocks := w.closedBlocks[data.block.hash := data.block]);
    EmptyOldBlocks(written, visits, data.block.height).(lastClosedBlock := Some(data.block),
                                                        lastBlock := Some(data.block))
  }

  predicate PreValidate(w: World, b: Block, env: Env) {
    && b.beneficiary in w.core.ledger.accounts && w.core.ledger.accounts[b.beneficiary].isStaking
    && NoDuplicates(BlockHashes(b))
    && env.checks(b)
  }

  // A failed validation. The compensation of a late failure brings emptied blocks back like a rollback does.
  function FailedWorld(w: World, core: Core, data: BlockData): World {
    if FailsLate(w.core.ledger, w.core.closedTxs.Keys, data, false)
    then ReactivateAggs(w, data.aggTxs, data.block.hashWithoutTx).(core := core) else w.(core := core)
  }

  function ValidateOne(w: World, b: Block, env: Env): Verdict {
    if !PreValidate(w, b, env) then Rejected(w)
    else match FetchTransactions(w, b, env)
      case DataMissing => Rejected(w)
      case DataWrongType => Stuck
      case DataFound(data) =>
        match ApplyBlock(w.core, data, env.difficulty)
        case CoreDone(core) => Accepted(PostValidate(w, core, data, env.visits))
        case CoreFailed(core) => Rejected(FailedWorld(w, core, data))
        case CoreCrashed => Stuck
  }

  function ValidateAll(w: World, blocks: seq<Block>, env: Env): Verdict
    decreases blocks
  {
    if blocks == [] then Accepted(w)
    else match ValidateOne(w, blocks[0], env)
      case Accepted(w') => ValidateAll(w', blocks[1..], env)
      case other => other
  }

  // validate(b, false): fork choice, rollbacks, validations.
  function Validate(w: World, b: Block, env: Env): Verdict {
    if b.hash in w.closedBlocks then Rejected(w)
    else match GetBlockSequences(w, b, env)
      case NoEnd => Stuck
      case NoSequences(stash) => Rejected(w.(stash := stash))
      case Sequences(toRollback, toValidate, stash) =>
        match RollbackAll(w.(stash := stash), toRollback)
        case Accepted(w') => ValidateAll(w', toValidate, env)
        case other => other
  }
}
