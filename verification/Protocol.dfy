/** Transactions, blocks, accounts and system parameters, as the state machine sees them. */
module Protocol {
  import opened Words

  // A [32]byte value. Only equality and the all-zero array matter here.
  type Hash = nat
  const ZERO_HASH: Hash := 0

  // The parts of an account that no transaction changes after its creation.
  datatype Profile = Profile(address: nat, issuer: Hash, contract: seq<uint8>, contractVariables: seq<seq<uint8>>,
                             chParameters: nat)

  datatype AccTx = AccTx(hash: Hash, header: uint8, fee: uint64, account: Hash, profile: Profile)
  // `aggregated` marks a transaction that an aggregation lists; `block` is the hash without transactions of the block
  // that recorded it.
  datatype FundsTx = FundsTx(hash: Hash, amount: uint64, fee: uint64, txCnt: uint32, from: Hash, to: Hash,
                             aggregated: bool, block: Hash)
  datatype ConfigTx = ConfigTx(hash: Hash, id: uint8, payload: uint64, fee: uint64)
  datatype StakeTx = StakeTx(hash: Hash, fee: uint64, isStaking: bool, account: Hash, commitmentKey: nat)

  // An aggregation lists funds transactions and other aggregations by their hashes.
  datatype AggTx = AggTx(hash: Hash, members: seq<Hash>, aggregated: bool, block: Hash)

  datatype Kind = AccKind | FundsKind | ConfigKind | StakeKind | AggKind

  datatype Tx = AccT(acc: AccTx) | FundsT(funds: FundsTx) | ConfigT(config: ConfigTx) | StakeT(stake: StakeTx)
              | AggT(agg: AggTx)
  {
    function Hash(): Hash {
      match this
      case AccT(tx) => tx.hash
      case FundsT(tx) => tx.hash
      case ConfigT(tx) => tx.hash
      case StakeT(tx) => tx.hash
      case AggT(tx) => tx.hash
    }

    function Kind(): Kind {
      match this
      case AccT(_) => AccKind
      case FundsT(_) => FundsKind
      case ConfigT(_) => ConfigKind
      case StakeT(_) => StakeKind
      case AggT(_) => AggKind
    }
  }

  // The counters of the two lists that emptying clears and reactivation fills; those of the other lists are their
  // lengths.
  datatype Block = Block(
    hash: Hash, prevHash: Hash, hashWithoutTx: Hash, prevHashWithoutTx: Hash, height: uint32, beneficiary: Hash,
      aggregated: bool, timestamp: int,
    accTxData: seq<Hash>, fundsTxData: seq<Hash>, configTxData: seq<Hash>, stakeTxData: seq<Hash>, aggTxData: seq<Hash>,
      nrFundsTx: uint16, nrAggTx: uint16,
    slashedAddress: Hash, conflictingBlockHash1: Hash, conflictingBlockHash2: Hash,
    conflictingBlockHashWithoutTx1: Hash, conflictingBlockHashWithoutTx2: Hash)
  {
    // The guard under which the slashing stage and its rollback act.
    predicate CarriesSlashingProof() {
      slashedAddress != ZERO_HASH || conflictingBlockHash1 != ZERO_HASH || conflictingBlockHash2 != ZERO_HASH
      || conflictingBlockHashWithoutTx1 != ZERO_HASH || conflictingBlockHashWithoutTx2 != ZERO_HASH
    }

    predicate Counted() { nrFundsTx == |fundsTxData| && nrAggTx == |aggTxData| }

    // All counters are zero, whatever the lists hold.
    predicate CountsNone() { nrFundsTx == 0 && nrAggTx == 0 && accTxData == stakeTxData == configTxData == [] }
  }

  // A block with its transactions fetched. `members` are the new, not yet closed transactions that its aggregations
  // list, by hash; `aggFunds` are the funds transactions among them, as often as they are listed, in the order in which
  // the state change sorts them; `aggFees` are those whose fees are collected.
  datatype BlockData = BlockData(
    accTxs: seq<AccTx>, fundsTxs: seq<FundsTx>, configTxs: seq<ConfigTx>, stakeTxs: seq<StakeTx>, aggTxs: seq<AggTx>,
    members: map<Hash, Tx>, aggFunds: seq<FundsTx>, aggFees: seq<FundsTx>, block: Block)

  datatype Parameters = Parameters(
    blockHash: Hash, feeMinimum: uint64, blockSize: uint64, diffInterval: uint64, blockInterval: uint64,
      blockReward: uint64,
    stakingMinimum: uint64, waitingMinimum: uint64, acceptedTimeDiff: uint64, slashingWindowSize: uint64,
      slashReward: uint64)

  const MIN_STAKING_MINIMUM: uint64 := 5
}
