/** The difficulty targets over a run of blocks: when they change, over which span of time, and from which target. */
module Difficulties {
  import opened Words
  import opened Protocol
  import opened Ledger
  import opened SystemParameters
  import opened Chain
  import opened Runs
  import opened Node
  import opened Validation
  import opened ClosedAggregations

  // A counted block: its timestamp and the parameters in force after it.
  datatype Counted = Counted(timestamp: int, parameters: Parameters)

  // The statistics after counting the blocks one by one.
  ghost function Collected(s: Stats, run: seq<Counted>, difficulty: Difficulty): StatsOutcome {
    if run == [] then StatsDone(s)
    else match Collected(s, run[..|run| - 1], difficulty)
      case StatsDone(t) =>
        CollectStatistics(t, run[|run| - 1].parameters, run[|run| - 1].timestamp, difficulty)
      case other => other
  }

  // Where the interval before end k began: at the end before it, or as many blocks before the run as were counted.
  ghost function Before(counted: int, ends: seq<nat>, k: nat): int
    requires k <= |ends|
  {
    if k == 0 then 0 - 1 - counted else ends[k - 1]
  }

  // Between two ends no block is as far from the one before as the interval in force there; an end is.
  ghost predicate EndsNext(counted: int, run: seq<Counted>, ends: seq<nat>, k: nat)
    requires k <= |ends| && forall j :: 0 <= j < |ends| ==> ends[j] < |run|
  {
    var from, to := Before(counted, ends, k), if k < |ends| then ends[k] else |run|;
    && (forall i :: 0 <= i < |run| && from < i < to ==> i - from < run[i].parameters.diffInterval)
    && (k < |ends| ==> from < to && to - from >= run[to].parameters.diffInterval)
  }

  // The blocks of the run that complete an interval, when `counted` blocks of the first one came before.
  ghost predicate IntervalEnds(counted: int, run: seq<Counted>, ends: seq<nat>) {
    && (forall j :: 0 <= j < |ends| ==> ends[j] < |run|)
    && forall k :: 0 <= k <= |ends| ==> EndsNext(counted, run, ends, k)
  }

  // The span that end k closes: from the timestamp of the end before it to its own.
  ghost function Span(s: Stats, run: seq<Counted>, ends: seq<nat>, k: nat): Timerange
    requires k < |ends| && forall j :: 0 <= j < |ends| ==> ends[j] < |run|
  {
    Timerange(if k == 0 then s.currentTargetTime.first else run[ends[k - 1]].timestamp, run[ends[k]].timestamp)
  }

  // One more target and one more span at every end, and nothing else; the target follows from the span, the parameters
  // and the target before, and is that target again where the span starts at 0.
  ghost predicate TargetsAt(s: Stats, run: seq<Counted>, ends: seq<nat>, difficulty: Difficulty, t: Stats)
    requires s.target != [] && forall j :: 0 <= j < |ends| ==> ends[j] < |run|
  {
    && s.target <= t.target && |t.target| == |s.target| + |ends|
    && s.targetTimes <= t.targetTimes && |t.targetTimes| == |s.targetTimes| + |ends|
    && forall k :: 0 <= k < |ends| ==>
      var span, last := Span(s, run, ends, k), t.target[|s.target| + k - 1];
      && t.targetTimes[|s.targetTimes| + k] == span
      && t.target[|s.target| + k]
        == if span.first == 0 then last else difficulty(span, run[ends[k]].parameters, last)
  }

  // Every block is counted, those since the last end apart, and the running span starts there.
  ghost predicate CountedAt(s: Stats, run: seq<Counted>, ends: seq<nat>, t: Stats)
    requires forall j :: 0 <= j < |ends| ==> ends[j] < |run|
  {
    && t.globalBlockCount == s.globalBlockCount + |run|
    && t.localBlockCount == |run| - 1 - Before(s.localBlockCount, ends, |ends|)
    && t.currentTargetTime
      == Timerange(if ends == [] then s.currentTargetTime.first else run[ends[|ends| - 1]].timestamp, 0)
  }

  // The statistics after a valid start exist, and count as the ends say.
  lemma {:induction false} RunTargets(s: Stats, run: seq<Counted>, difficulty: Difficulty) returns (ends: seq<nat>)
    requires s.Valid()
    ensures IntervalEnds(s.localBlockCount, run, ends) && Collected(s, run, difficulty).StatsDone?
    ensures var t := Collected(s, run, difficulty).stats;
      TargetsAt(s, run, ends, difficulty, t) && CountedAt(s, run, ends, t)
  {
    hide CollectStatistics, EndsNext, TargetsAt, CountedAt;
    if run == [] {
      ends := [];
      NothingCounted(s, difficulty);
    } else {
      var rest, last := run[..|run| - 1], run[|run| - 1];
      var before := RunTargets(s, rest, difficulty);
      var t := Collected(s, rest, difficulty).stats;
      if t.localBlockCount + 1 >= last.parameters.diffInterval {
        ends := before + [|rest|];
        IntervalEnded(s, run, before, difficulty, t);
      } else {
        ends := before;
        IntervalOpen(s, run, before, difficulty, t);
      }
    }
  }

  lemma NothingCounted(s: Stats, difficulty: Difficulty)
    requires s.Valid()
    ensures IntervalEnds(s.localBlockCount, [], [])
    ensures TargetsAt(s, [], [], difficulty, s) && CountedAt(s, [], [], s)
  {
  }

  // One more block within the interval.
  lemma {:induction false} IntervalOpen(s: Stats, run: seq<Counted>, ends: seq<nat>, difficulty: Difficulty, t: Stats)
    requires s.Valid() && run != [] && IntervalEnds(s.localBlockCount, run[..|run| - 1], ends)
    requires TargetsAt(s, run[..|run| - 1], ends, difficulty, t) && CountedAt(s, run[..|run| - 1], ends, t)
    requires t.localBlockCount + 1 < run[|run| - 1].parameters.diffInterval
    ensures IntervalEnds(s.localBlockCount, run, ends)
    ensures var next := CollectStatistics(t, run[|run| - 1].parameters, run[|run| - 1].timestamp, difficulty);
      next.StatsDone? && TargetsAt(s, run, ends, difficulty, next.stats) && CountedAt(s, run, ends, next.stats)
  {
    hide TargetsAt;
    var rest := run[..|run| - 1];
    forall k | 0 <= k <= |ends| ensures EndsNext(s.localBlockCount, run, ends, k) {
      NextOpen(s.localBlockCount, run, ends, k);
    }
    SameTargets(s, rest, run, ends, ends, difficulty, t);
    CountsDoNotMatter(s, run, ends, difficulty, t,
                      t.(globalBlockCount := t.globalBlockCount + 1, localBlockCount := t.localBlockCount + 1));
  }

  lemma {:induction false} NextOpen(counted: int, run: seq<Counted>, ends: seq<nat>, k: nat)
    requires run != [] && k <= |ends| && (forall j :: 0 <= j < |ends| ==> ends[j] < |run| - 1)
    requires EndsNext(counted, run[..|run| - 1], ends, k)
    requires k == |ends| ==> |run| - 1 - Before(counted, ends, k) < run[|run| - 1].parameters.diffInterval
    ensures EndsNext(counted, run, ends, k)
  {
    assert forall i :: 0 <= i < |run| - 1 ==> run[..|run| - 1][i] == run[i];
  }

  lemma {:induction false} CountsDoNotMatter(s: Stats, run: seq<Counted>, ends: seq<nat>, difficulty: Difficulty,
                                             t: Stats, u: Stats)
    requires s.target != [] && (forall j :: 0 <= j < |ends| ==> ends[j] < |run|) && TargetsAt(s, run, ends, difficulty,
      t)
    requires t.target == u.target && t.targetTimes == u.targetTimes
    ensures TargetsAt(s, run, ends, difficulty, u)
  {
  }

  // A longer run and more ends do not change the targets of the ends before.
  lemma {:induction false} SameTargets(s: Stats, rest: seq<Counted>, run: seq<Counted>, ends: seq<nat>,
                                       more: seq<nat>, difficulty: Difficulty, t: Stats)
    requires s.target != [] && (forall j :: 0 <= j < |ends| ==> ends[j] < |rest|)
      && (forall j :: 0 <= j < |more| ==> more[j] < |run|)
    requires rest <= run && ends <= more && TargetsAt(s, rest, ends, difficulty, t)
    ensures forall k :: 0 <= k < |ends| ==>
      Span(s, run, more, k) == Span(s, rest, ends, k) && run[more[k]] == rest[ends[k]]
    ensures more == ends ==> TargetsAt(s, run, more, difficulty, t)
  {
  }

  // One more block that completes it.
  lemma {:induction false} IntervalEnded(s: Stats, run: seq<Counted>, ends: seq<nat>, difficulty: Difficulty, t: Stats)
    requires s.Valid() && run != [] && IntervalEnds(s.localBlockCount, run[..|run| - 1], ends)
    requires TargetsAt(s, run[..|run| - 1], ends, difficulty, t) && CountedAt(s, run[..|run| - 1], ends, t)
    requires t.localBlockCount + 1 >= run[|run| - 1].parameters.diffInterval
    ensures IntervalEnds(s.localBlockCount, run, ends + [|run| - 1])
    ensures var next := CollectStatistics(t, run[|run| - 1].parameters, run[|run| - 1].timestamp, difficulty);
      && next.StatsDone? && TargetsAt(s, run, ends + [|run| - 1], difficulty, next.stats)
      && CountedAt(s, run, ends + [|run| - 1], next.stats)
  {
    hide TargetsAt, CollectStatistics, EndsNext;
    var more := ends + [|run| - 1];
    LastWithin(s.localBlockCount, run[..|run| - 1], ends);
    forall k | 0 <= k <= |more| ensures EndsNext(s.localBlockCount, run, more, k) {
      NextEnded(s.localBlockCount, run, ends, k);
    }
    SpanEnded(s, run, ends, difficulty, t);
  }

  lemma {:induction false} LastWithin(counted: int, run: seq<Counted>, ends: seq<nat>)
    requires IntervalEnds(counted, run, ends)
    ensures Before(counted, ends, |ends|) < |run| || ends == []
  {
  }

  lemma {:induction false} NextEnded(counted: int, run: seq<Counted>, ends: seq<nat>, k: nat)
    requires run != [] && k <= |ends| + 1 && (forall j :: 0 <= j < |ends| ==> ends[j] < |run| - 1)
    requires k <= |ends| ==> EndsNext(counted, run[..|run| - 1], ends, k)
    requires |run| - 1 - Before(counted, ends, |ends|) >= run[|run| - 1].parameters.diffInterval
    requires Before(counted, ends, |ends|) < |run| - 1
    ensures EndsNext(counted, run, ends + [|run| - 1], k)
  {
    assert forall i :: 0 <= i < |run| - 1 ==> run[..|run| - 1][i] == run[i];
    assert k <= |ends| ==> Before(counted, ends + [|run| - 1], k) == Before(counted, ends, k);
  }

  lemma {:induction false} SpanEnded(s: Stats, run: seq<Counted>, ends: seq<nat>, difficulty: Difficulty, t: Stats)
    requires s.Valid() && run != [] && forall j :: 0 <= j < |ends| ==> ends[j] < |run| - 1
    requires TargetsAt(s, run[..|run| - 1], ends, difficulty, t) && CountedAt(s, run[..|run| - 1], ends, t)
    requires t.localBlockCount + 1 >= run[|run| - 1].parameters.diffInterval
    ensures var next := CollectStatistics(t, run[|run| - 1].parameters, run[|run| - 1].timestamp, difficulty);
      && next.StatsDone? && TargetsAt(s, run, ends + [|run| - 1], difficulty, next.stats)
      && CountedAt(s, run, ends + [|run| - 1], next.stats)
  {
    var rest, more, last := run[..|run| - 1], ends + [|run| - 1], run[|run| - 1];
    var next := CollectStatistics(t, last.parameters, last.timestamp, difficulty).stats;
    SameTargets(s, rest, run, ends, more, difficulty, t);
    assert t.currentTargetTime.(last := last.timestamp) == Span(s, run, more, |ends|);
    TargetAdded(s, rest, run, ends, more, difficulty, t, next);
  }

  lemma {:induction false} TargetAdded(s: Stats, rest: seq<Counted>, run: seq<Counted>, ends: seq<nat>,
                                       more: seq<nat>, difficulty: Difficulty, t: Stats, next: Stats)
    requires s.target != [] && (forall j :: 0 <= j < |ends| ==> ends[j] < |rest|) && |more| == |ends| + 1
    requires (forall j :: 0 <= j < |more| ==> more[j] < |run|) && TargetsAt(s, rest, ends, difficulty, t)
    requires forall k :: 0 <= k < |ends| ==>
      Span(s, run, more, k) == Span(s, rest, ends, k) && run[more[k]] == rest[ends[k]]
    requires var span, last := Span(s, run, more, |ends|), t.target[|t.target| - 1];
      && next.targetTimes == t.targetTimes + [span]
      && next.target
        == t.target + [if span.first == 0 then last else difficulty(span, run[more[|ends|]].parameters, last)]
    ensures TargetsAt(s, run, more, difficulty, next)
  {
    hide Span;
    forall k | 0 <= k < |more|
      ensures next.targetTimes[|s.targetTimes| + k] == Span(s, run, more, k)
      ensures next.target[|s.target| + k] ==
        if Span(s, run, more, k).first == 0 then next.target[|s.target| + k - 1]
        else difficulty(Span(s, run, more, k), run[more[k]].parameters, next.target[|s.target| + k - 1])
    {
      if k < |ends| {
        assert t.targetTimes[|s.targetTimes| + k] == Span(s, rest, ends, k);
      }
    }
  }

  // From the genesis block on, only the first target is a copy, unless a block that completes an interval carries the
  // timestamp 0.
  lemma {:induction false} OnlyFirstIsCopied(s: Stats, run: seq<Counted>, ends: seq<nat>, difficulty: Difficulty,
                                             t: Stats)
    requires s.Valid() && IntervalEnds(s.localBlockCount, run, ends) && TargetsAt(s, run, ends, difficulty, t)
    requires s.currentTargetTime.first == 0 && forall i :: 0 <= i < |run| ==> run[i].timestamp != 0
    ensures ends != [] ==> t.target[|s.target|] == s.target[|s.target| - 1]
    ensures forall k :: 0 < k < |ends| ==>
      t.target[|s.target| + k]
        == difficulty(Timerange(run[ends[k - 1]].timestamp, run[ends[k]].timestamp), run[ends[k]].parameters,
                      t.target[|s.target| + k - 1])
  {
    assert ends != [] ==> Span(s, run, ends, 0).first == 0;
    forall k | 0 < k < |ends|
      ensures t.target[|s.target| + k]
        == difficulty(Timerange(run[ends[k - 1]].timestamp, run[ends[k]].timestamp), run[ends[k]].parameters,
                      t.target[|s.target| + k - 1])
    {
      assert Span(s, run, ends, k) == Timerange(run[ends[k - 1]].timestamp, run[ends[k]].timestamp);
    }
  }

  // While the interval stays d, every d-th block completes one.
  lemma {:induction false} EveryInterval(counted: nat, run: seq<Counted>, ends: seq<nat>, d: uint64)
    requires IntervalEnds(counted, run, ends) && counted < d
    requires forall i :: 0 <= i < |run| ==> run[i].parameters.diffInterval == d
    ensures forall k :: 0 <= k < |ends| ==> ends[k] == (k + 1) * d - 1 - counted
    ensures |ends| * d <= counted + |run| < (|ends| + 1) * d
  {
    forall k | 0 <= k < |ends| ensures ends[k] == (k + 1) * d - 1 - counted {
      EndAt(counted, run, ends, d, k + 1);
    }
    EndAt(counted, run, ends, d, |ends|);
    var from := Before(counted, ends, |ends|);
    assert EndsNext(counted, run, ends, |ends|);
    if |run| - 1 - from >= d {
      WithinInterval(counted, run, ends, |ends|, from + d);
    }
    assert (|ends| + 1) * d == |ends| * d + d;
  }

  lemma {:induction false} WithinInterval(counted: int, run: seq<Counted>, ends: seq<nat>, k: nat, i: int)
    requires k <= |ends| && (forall j :: 0 <= j < |ends| ==> ends[j] < |run|) && EndsNext(counted, run, ends, k)
    requires 0 <= i < |run| && Before(counted, ends, k) < i && (k < |ends| ==> i < ends[k])
    ensures i - Before(counted, ends, k) < run[i].parameters.diffInterval
  {
  }

  // End k - 1 closes k intervals.
  lemma {:induction false} EndAt(counted: nat, run: seq<Counted>, ends: seq<nat>, d: uint64, k: nat)
    requires IntervalEnds(counted, run, ends) && counted < d && k <= |ends|
    requires forall i :: 0 <= i < |run| ==> run[i].parameters.diffInterval == d
    ensures Before(counted, ends, k) == k * d - 1 - counted
  {
    if 0 < k {
      EndAt(counted, run, ends, d, k - 1);
      assert EndsNext(counted, run, ends, k - 1);
      var from, to := Before(counted, ends, k - 1), ends[k - 1];
      if to - from > d {
        WithinInterval(counted, run, ends, k - 1, from + d);
      }
      assert k * d == (k - 1) * d + d;
    }
  }

  // -------------------- the active chain --------------------

  // Block i of the chain, with the parameters the replay has after it.
  ghost function CountedOf(g: Genesis, chain: seq<BlockData>): seq<Counted>
    requires forall i :: 0 <= i <= |chain| ==> Replay(g, chain[..i]).CoreDone?
  {
    seq(|chain|, i requires 0 <= i < |chain| =>
      Counted(chain[i].block.timestamp, Active(Replay(g, chain[..i + 1]).core.params)))
  }

  lemma {:induction false} ReplaysPrefixes(g: Genesis, chain: seq<BlockData>)
    requires Replays(g, chain)
    ensures forall i :: 0 <= i <= |chain| ==> Replay(g, chain[..i]).CoreDone?
  {
    forall i | 0 <= i <= |chain| ensures Replay(g, chain[..i]).CoreDone? {
      ReplayPrefix(g, chain, i);
    }
  }

  lemma {:induction false} ReplayCollects(g: Genesis, chain: seq<BlockData>)
    requires Replays(g, chain) && forall i :: 0 <= i <= |chain| ==> Replay(g, chain[..i]).CoreDone?
    ensures Collected(g.core.stats, CountedOf(g, chain), g.difficulty)
      == StatsDone(Replay(g, chain[..|chain|]).core.stats)
  {
    hide CollectStatistics, FreshBlock, ApplyBlock;
    if chain != [] {
      var rest := chain[..|chain| - 1];
      assert forall i :: 0 <= i <= |rest| ==> rest[..i] == chain[..i];
      ReplayCollects(g, rest);
      assert CountedOf(g, chain)[..|chain| - 1] == CountedOf(g, rest);
      assert chain[..|chain|] == chain && rest[..|rest|] == rest;
      AppliedStats(Replay(g, rest).core, chain[|chain| - 1], g.difficulty);
    }
  }

  lemma AppliedStats(c: Core, data: BlockData, difficulty: Difficulty)
    requires ApplyBlock(c, data, difficulty).CoreDone?
    ensures var d := ApplyBlock(c, data, difficulty).core;
      CollectStatistics(c.stats, Active(d.params), data.block.timestamp, difficulty) == StatsDone(d.stats)
  {
    hide ValidateState, CollectStatistics, ConfigStateChange, CloseBlock;
  }

  // The targets of a node between any two blocks of any run, whatever was rolled back before.
  lemma NodeTargets(g: Genesis, w: World, chain: seq<BlockData>) returns (run: seq<Counted>, ends: seq<nat>)
    requires Follows(g, w, chain)
    ensures |run| == |chain| && forall i :: 0 <= i < |chain| ==> run[i].timestamp == chain[i].block.timestamp
    ensures forall i :: 0 <= i < |chain| ==>
      var replay := Replay(g, chain[..i + 1]); replay.CoreDone? && run[i].parameters == Active(replay.core.params)
    ensures g.core.stats.Valid() && IntervalEnds(g.core.stats.localBlockCount, run, ends)
    ensures TargetsAt(g.core.stats, run, ends, g.difficulty, w.core.stats)
    ensures CountedAt(g.core.stats, run, ends, w.core.stats)
  {
    hide Replay, Replays, Stored, StoresExactly, TargetsAt, CountedAt, IntervalEnds, Collected;
    ReplaysPrefixes(g, chain);
    run := CountedOf(g, chain);
    ReplayCollects(g, chain);
    assert chain[..|chain|] == chain;
    ends := RunTargets(g.core.stats, run, g.difficulty);
  }
}
