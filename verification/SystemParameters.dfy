/** System parameters and difficulty statistics: the history that configuration transactions and
passing blocks write, and its rollback. */
module SystemParameters {
  import opened Words
  import opened Protocol
  import opened Ledger
  import opened BlockInverse

  // -------------------- configuration --------------------

  const MIN_DIFF_INTERVAL := 3

  predicate WithinBounds(id: uint8, payload: uint64) {
    match id
    case 1 => 1000 <= payload <= 100_000_000
    case 2 => MIN_DIFF_INTERVAL <= payload <= MAX_MONEY
    case 3 => payload <= MAX_MONEY
    case 4 => 3 <= payload <= 86400
    case 5 => payload <= 1152921504606846976
    case 6 => MIN_STAKING_MINIMUM <= payload <= MAX_MONEY
    case 7 => payload <= 100_000
    case 8 => payload <= 60
    case 9 => payload <= 10_000
    case 10 => payload <= 1152921504606846976
    case _ => false
  }

  function ChangeParameter(p: Parameters, id: uint8, payload: uint64): Parameters {
    match id
    case 1 => p.(blockSize := payload)
    case 2 => p.(diffInterval := payload)
    case 3 => p.(feeMinimum := payload)
    case 4 => p.(blockInterval := payload)
    case 5 => p.(blockReward := payload)
    case 6 => p.(stakingMinimum := payload)
    case 7 => p.(waitingMinimum := payload)
    case 8 => p.(acceptedTimeDiff := payload)
    case 9 => p.(slashingWindowSize := payload)
    case 10 => p.(slashReward := payload)
    case _ => p
  }

  // A new staking minimum takes every staking account below it out of the validator set.
  function Unstake(l: Ledger, minimum: uint64): Ledger {
    l.(accounts := map a | a in l.accounts ::
      l.accounts[a].(isStaking := l.accounts[a].isStaking && !(l.accounts[a].balance < minimum)))
  }

  datatype ConfigResult = ConfigResult(parameters: Parameters, ledger: Ledger, change: bool)

  function CheckAndChangeParameters(p: Parameters, l: Ledger, txs: seq<ConfigTx>): ConfigResult {
    if txs == [] then ConfigResult(p, l, false)
    else
      var r, tx := CheckAndChangeParameters(p, l, txs[..|txs| - 1]), txs[|txs| - 1];
      if !WithinBounds(tx.id, tx.payload) then r
      else ConfigResult(ChangeParameter(r.parameters, tx.id, tx.payload),
                        if tx.id == 6 then Unstake(r.ledger, tx.payload) else r.ledger, true)
  }

  // The parameters a miner starts with.
  const DEFAULT_PARAMETERS := Parameters(ZERO_HASH, 1, 5000, 25, 15, 0, 1000, 0, 60, 100, 2)

  // parameterSlice, never empty. activeParameters always points at its last entry.
  type History = ps: seq<Parameters> | ps != [] witness [DEFAULT_PARAMETERS]

  function Active(params: History): Parameters { params[|params| - 1] }

  function ConfigStateChange(params: History, l: Ledger, txs: seq<ConfigTx>, blockHash: Hash): (History, Ledger) {
    var c := CheckAndChangeParameters(Active(params), l, txs);
    (if c.change then params + [c.parameters.(blockHash := blockHash)] else params, c.ledger)
  }

  // The result is empty, an index panic, only if the popped entry was the only one.
  function ConfigStateChangeRollback(params: History, txs: seq<ConfigTx>, blockHash: Hash): seq<Parameters> {
    if txs == [] || Active(params).blockHash != blockHash then params else params[..|params| - 1]
  }

  // The parameter history is restored exactly when it changed, or nothing was to be configured, or
  // the entry on top belongs to another block.
  lemma ConfigRollsBack(params: History, l: Ledger, txs: seq<ConfigTx>, blockHash: Hash)
    ensures ConfigStateChangeRollback(ConfigStateChange(params, l, txs, blockHash).0, txs, blockHash) == params
      <==> CheckAndChangeParameters(Active(params), l, txs).change || txs == [] || Active(params).blockHash != blockHash
  {
    var c := CheckAndChangeParameters(Active(params), l, txs);
    if c.change {
      assert (params + [c.parameters.(blockHash := blockHash)])[..|params|] == params;
    }
  }

  lemma {:induction false} ConfigOnlyUnstakes(p: Parameters, l: Ledger, txs: seq<ConfigTx>)
    ensures OnlyUnstakes(l, CheckAndChangeParameters(p, l, txs).ledger)
    ensures p.diffInterval >= MIN_DIFF_INTERVAL ==>
      CheckAndChangeParameters(p, l, txs).parameters.diffInterval >= MIN_DIFF_INTERVAL
  {
    if txs != [] {
      ConfigOnlyUnstakes(p, l, txs[..|txs| - 1]);
    }
  }

  // The payload of the last transaction with the id and within the bounds, or the value before.
  ghost function LastWithin(before: uint64, txs: seq<ConfigTx>, id: uint8, low: int, high: int): uint64 {
    if txs == [] then before
    else
      var tx := txs[|txs| - 1];
      if tx.id == id && low <= tx.payload <= high then tx.payload
      else LastWithin(before, txs[..|txs| - 1], id, low, high)
  }

  // What a slice configures: each id its own parameter, to the last payload within the bounds, and nothing else.
  lemma {:induction false} ConfiguredParameters(p: Parameters, l: Ledger, txs: seq<ConfigTx>)
    ensures CheckAndChangeParameters(p, l, txs).parameters == Parameters(
      p.blockHash,
      LastWithin(p.feeMinimum, txs, 3, 0, 9223372036854775807),
      LastWithin(p.blockSize, txs, 1, 1000, 100000000),
      LastWithin(p.diffInterval, txs, 2, 3, 9223372036854775807),
      LastWithin(p.blockInterval, txs, 4, 3, 86400),
      LastWithin(p.blockReward, txs, 5, 0, 1152921504606846976),
      LastWithin(p.stakingMinimum, txs, 6, 5, 9223372036854775807),
      LastWithin(p.waitingMinimum, txs, 7, 0, 100000),
      LastWithin(p.acceptedTimeDiff, txs, 8, 0, 60),
      LastWithin(p.slashingWindowSize, txs, 9, 0, 10000),
      LastWithin(p.slashReward, txs, 10, 0, 1152921504606846976))
  {
    if txs != [] {
      ConfiguredParameters(p, l, txs[..|txs| - 1]);
    }
  }

  // Every parameter a config transaction can set is within its bounds.
  predicate InBounds(p: Parameters) {
    && WithinBounds(1, p.blockSize) && WithinBounds(2, p.diffInterval) && WithinBounds(3, p.feeMinimum)
    && WithinBounds(4, p.blockInterval)
    && WithinBounds(5, p.blockReward) && WithinBounds(6, p.stakingMinimum) && WithinBounds(7, p.waitingMinimum)
    && WithinBounds(8, p.acceptedTimeDiff) && WithinBounds(9, p.slashingWindowSize) && WithinBounds(10, p.slashReward)
  }

  lemma {:induction false} ChangesStayInBounds(p: Parameters, l: Ledger, txs: seq<ConfigTx>)
    requires InBounds(p)
    ensures InBounds(CheckAndChangeParameters(p, l, txs).parameters)
  {
    if txs != [] {
      ChangesStayInBounds(p, l, txs[..|txs| - 1]);
    }
  }

  // The default parameters are within bounds, and so is every entry that configuration adds to a history within bounds.
  lemma HistoryStaysInBounds(params: History, l: Ledger, txs: seq<ConfigTx>, blockHash: Hash)
    requires forall i :: 0 <= i < |params| ==> InBounds(params[i])
    ensures InBounds(DEFAULT_PARAMETERS)
    ensures var after := ConfigStateChange(params, l, txs, blockHash).0; forall i :: 0 <= i < |after| ==>
      InBounds(after[i])
  {
    ChangesStayInBounds(Active(params), l, txs);
  }

  ghost predicate StakersHold(l: Ledger, minimum: uint64) {
    forall a :: a in l.accounts && l.accounts[a].isStaking ==> l.accounts[a].balance >= minimum
  }

  // Once a slice sets the staking minimum, every account still staking afterwards holds the minimum then in force.
  lemma {:induction false} StakersHoldMinimum(p: Parameters, l: Ledger, txs: seq<ConfigTx>)
    requires exists tx <- txs :: tx.id == 6 && WithinBounds(tx.id, tx.payload)
    ensures var r := CheckAndChangeParameters(p, l, txs); StakersHold(r.ledger, r.parameters.stakingMinimum)
  {
    var rest, last := txs[..|txs| - 1], txs[|txs| - 1];
    var before := CheckAndChangeParameters(p, l, rest);
    if last.id == 6 && WithinBounds(last.id, last.payload) {
      assert CheckAndChangeParameters(p, l, txs).ledger == Unstake(before.ledger, last.payload);
      assert CheckAndChangeParameters(p, l, txs).parameters.stakingMinimum == last.payload;
    } else {
      StakersHoldMinimum(p, l, rest);
      assert StakersHold(before.ledger, before.parameters.stakingMinimum);
      assert CheckAndChangeParameters(p, l, txs).ledger == before.ledger;
      assert CheckAndChangeParameters(p, l, txs).parameters.stakingMinimum == before.parameters.stakingMinimum;
    }
  }

  // -------------------- difficulty statistics --------------------

  datatype Timerange = Timerange(first: int, last: int)

  datatype Stats = Stats(globalBlockCount: int, localBlockCount: int, target: seq<uint8>, targetTimes: seq<Timerange>,
                         currentTargetTime: Timerange)
  {
    // Holds from the genesis block on.
    ghost predicate Valid() {
      globalBlockCount >= localBlockCount >= 0 && target != [] && currentTargetTime.last == 0
    }
  }

  // calculateNewDifficulty, a floating-point formula over the timespan, the parameters and the last target.
  type Difficulty = (Timerange, Parameters, uint8) -> uint8

  // StatsPanic: a history is too short, an index panic.
  datatype StatsOutcome = StatsDone(stats: Stats) | StatsPanic

  function CollectStatistics(s: Stats, p: Parameters, timestamp: int, difficulty: Difficulty): StatsOutcome {
    var counted := s.(globalBlockCount := s.globalBlockCount + 1, localBlockCount := s.localBlockCount + 1);
    if counted.localBlockCount < p.diffInterval then StatsDone(counted)
    else if s.target == [] then StatsPanic
    else
      var span := s.currentTargetTime.(last := timestamp);
      var last := s.target[|s.target| - 1];
      StatsDone(Stats(counted.globalBlockCount, 0,
                      s.target + [if span.first == 0 then last else difficulty(span, p, last)],
                      s.targetTimes + [span], Timerange(timestamp, 0)))
  }

  function CollectStatisticsRollback(s: Stats, p: Parameters): StatsOutcome {
    var g := s.globalBlockCount - 1;
    if s.localBlockCount == 0 && g != 0 then
      if s.target == [] || s.targetTimes == [] then StatsPanic
      else StatsDone(Stats(g, p.diffInterval - 1, s.target[..|s.target| - 1], s.targetTimes[..|s.targetTimes| - 1],
                           s.currentTargetTime.(first := s.targetTimes[|s.targetTimes| - 1].first)))
    else StatsDone(s.(globalBlockCount := g, localBlockCount := s.localBlockCount - 1))
  }

  // A block that completes an interval is counted under the parameters it leaves behind and
  // uncounted under those it found; these must then agree on where the interval ends.
  predicate IntervalRollsBack(s: Stats, before: Parameters, after: Parameters) {
    s.localBlockCount + 1 >= after.diffInterval ==> s.localBlockCount + 1 == before.diffInterval
  }

  lemma StatisticsRollBack(s: Stats, before: Parameters, after: Parameters, timestamp: int, difficulty: Difficulty)
    requires s.Valid() && after.diffInterval >= MIN_DIFF_INTERVAL
    ensures var t := CollectStatistics(s, after, timestamp, difficulty);
      && t.StatsDone? && t.stats.Valid()
      && t.stats.localBlockCount < after.diffInterval
      && (CollectStatisticsRollback(t.stats, before) == StatsDone(s) <==> IntervalRollsBack(s, before, after))
  {
    var t := CollectStatistics(s, after, timestamp, difficulty).stats;
    if s.localBlockCount + 1 >= after.diffInterval {
      assert t.target[..|t.target| - 1] == s.target;
      assert t.targetTimes[..|t.targetTimes| - 1] == s.targetTimes;
    }
  }
}
