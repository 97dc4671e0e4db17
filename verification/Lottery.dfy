/** The proof-of-stake lottery (miner/proofofstake.go): SHA3 over the previous proofs, the commitment proof, the height
    and the time in seconds is divided by the balance and must start with `diff` zero bits. SHA3 is the parameter `sha`,
    the clock and the last block seen at each tick are the parameter `ticks`. */
module Lottery {
  import opened Encoding
  import opened NumberTheory
  import opened Options
  import opened Words

  const COMM_PROOF_LENGTH := 256
  const BLOCK_INTERVAL := 15

  type Proof = p: Bytes | |p| == COMM_PROOF_LENGTH witness Zeros(COMM_PROOF_LENGTH)
  type Digest = d: Bytes | |d| == 32 witness Zeros(32)

  function Concat(proofs: seq<Proof>): (b: Bytes)
    ensures |b| == |proofs| * COMM_PROOF_LENGTH
  {
    if proofs == [] then [] else Concat(proofs[..|proofs| - 1]) + proofs[|proofs| - 1]
  }

  function HashArgs(prevProofs: seq<Proof>, commitmentProof: Proof, height: uint32, timestamp: int): Bytes {
    Concat(prevProofs) + commitmentProof + FixedBigEndian(height, 4) + FixedBigEndian(Wrap64(timestamp), 8)
  }

  lemma {:induction false} ProofAt(proofs: seq<Proof>, i: nat)
    requires i < |proofs|
    ensures Concat(proofs)[i * COMM_PROOF_LENGTH..(i + 1) * COMM_PROOF_LENGTH] == proofs[i]
  {
    var n := |proofs| - 1;
    if i < n {
      ProofAt(proofs[..n], i);
      assert (i + 1) * COMM_PROOF_LENGTH <= n * COMM_PROOF_LENGTH;
    }
  }

  // Where everything stands in the hashed bytes: the proofs in their order, the commitment proof, the height and the
  // time.
  lemma HashedLayout(prevProofs: seq<Proof>, commitmentProof: Proof, height: uint32, timestamp: int)
    ensures var bytes, n := HashArgs(prevProofs, commitmentProof, height, timestamp), |prevProofs| * COMM_PROOF_LENGTH;
      && |bytes| == n + COMM_PROOF_LENGTH + 12
      && (forall i :: 0 <= i < |prevProofs| ==>
          bytes[i * COMM_PROOF_LENGTH..(i + 1) * COMM_PROOF_LENGTH] == prevProofs[i])
      && bytes[n..n + COMM_PROOF_LENGTH] == commitmentProof
      && Value(bytes[n + COMM_PROOF_LENGTH..n + COMM_PROOF_LENGTH + 4]) == height
      && Value(bytes[n + COMM_PROOF_LENGTH + 4..]) == Wrap64(timestamp)
  {
    hide Value, FixedBigEndian, Concat;
    var bytes, n := HashArgs(prevProofs, commitmentProof, height, timestamp), |prevProofs| * COMM_PROOF_LENGTH;
    var proofs, h, t := Concat(prevProofs), FixedBigEndian(height, 4), FixedBigEndian(Wrap64(timestamp), 8);
    assert bytes == proofs + commitmentProof + h + t;
    assert bytes[n + COMM_PROOF_LENGTH..n + COMM_PROOF_LENGTH + 4] == h && bytes[n + COMM_PROOF_LENGTH + 4..] == t;
    WordPowers();
    FixedValue(height, 4);
    FixedValue(Wrap64(timestamp), 8);
    forall i | 0 <= i < |prevProofs|
      ensures bytes[i * COMM_PROOF_LENGTH..(i + 1) * COMM_PROOF_LENGTH] == prevProofs[i]
    {
      ProofAt(prevProofs, i);
      assert (i + 1) * COMM_PROOF_LENGTH <= n;
      assert bytes[..n] == proofs;
      assert bytes[i * COMM_PROOF_LENGTH..(i + 1) * COMM_PROOF_LENGTH]
          == proofs[i * COMM_PROOF_LENGTH..(i + 1) * COMM_PROOF_LENGTH];
    }
  }

  lemma WordPowers()
    ensures Pow(256, 4) == TWO_32 && Pow(256, 8) == TWO_64
  {
    assert Pow(256, 2) == 65536;
    PowAdd(256, 2, 2);
    PowAdd(256, 4, 4);
  }

  // So the hashed bytes determine the proofs, the height and the time, up to the 64 bits the time is cut to.
  lemma HashArgsDetermine(proofs: seq<Proof>, commitment: Proof, height: uint32, timestamp: int, proofs': seq<Proof>,
                          commitment': Proof, height': uint32, timestamp': int)
    ensures HashArgs(proofs, commitment, height, timestamp) == HashArgs(proofs', commitment', height', timestamp') <==>
      && proofs == proofs' && commitment == commitment' && height == height' && Wrap64(timestamp) == Wrap64(timestamp')
  {
    hide HashArgs, Value;
    HashedLayout(proofs, commitment, height, timestamp);
    HashedLayout(proofs', commitment', height', timestamp');
    if HashArgs(proofs, commitment, height, timestamp) == HashArgs(proofs', commitment', height', timestamp') {
      assert |proofs| == |proofs'|;
      assert forall i :: 0 <= i < |proofs| ==> proofs[i] == proofs'[i];
    }
    if proofs == proofs' && commitment == commitment' && height == height'
      && Wrap64(timestamp) == Wrap64(timestamp') {
      SameArgs(proofs, commitment, height, timestamp, timestamp');
    }
  }

  lemma SameArgs(proofs: seq<Proof>, commitment: Proof, height: uint32, timestamp: int, timestamp': int)
    requires Wrap64(timestamp) == Wrap64(timestamp')
    ensures HashArgs(proofs, commitment, height, timestamp) == HashArgs(proofs, commitment, height, timestamp')
  {
  }

  // The digest with its first eight bytes divided by the balance.
  function Divided(pos: Digest, balance: uint64): Digest
    requires balance > 0
  {
    FixedBigEndian(Value(pos[..8]) / balance, 8) + pos[8..]
  }

  // Read as one 256-bit number, the divided digest has `diff` leading zeros.
  predicate Wins(diff: uint8, pos: Digest, balance: uint64)
    requires balance > 0
  {
    Value(Divided(pos, balance)) < Pow(2, 256 - diff)
  }

  // -------------------- leading zeros --------------------

  // The byte check and the bit check of the code.
  predicate LeadingZeros(bytes: Bytes, diff: nat)
    requires diff <= 8 * |bytes|
  {
    && (forall j :: 0 <= j < diff / 8 ==> bytes[j] == 0)
    && (diff % 8 != 0 ==> bytes[diff / 8] < Pow(2, 8 - diff % 8))
  }

  lemma {:induction false} ValueFront(bytes: Bytes)
    requires bytes != []
    ensures Value(bytes) == bytes[0] * Pow(256, |bytes| - 1) + Value(bytes[1..])
  {
    var n := |bytes| - 1;
    if n == 0 {
      assert bytes[..0] == [] && bytes[1..] == [];
    } else {
      ValueFront(bytes[..n]);
      assert bytes[..n][1..] == bytes[1..][..n - 1];
      calc {
        Value(bytes);
        256 * (bytes[0] * Pow(256, n - 1) + Value(bytes[1..n])) + bytes[n];
        bytes[0] * Pow(256, n) + (256 * Value(bytes[1..n]) + bytes[n]);
      }
    }
  }

  lemma BytePower(n: nat)
    ensures Pow(256, n) == Pow(2, 8 * n)
  {
    assert Pow(2, 8) == 256 by { assert Pow(2, 4) == 16; PowAdd(2, 4, 4); }
    PowMul(2, 8, n);
  }

  lemma {:induction false} PowMonotone(b: nat, e: nat, f: nat)
    requires b >= 1 && e <= f
    ensures Pow(b, e) <= Pow(b, f)
  {
    if e < f {
      PowMonotone(b, e, f - 1);
      PowPositive(b, f - 1);
      assert b * Pow(b, f - 1) >= Pow(b, f - 1);
    }
  }

  // Looking at bytes and bits is comparing the number.
  lemma {:induction false} LeadingZerosExact(bytes: Bytes, diff: nat)
    requires diff <= 8 * |bytes|
    ensures LeadingZeros(bytes, diff) <==> Value(bytes) < Pow(2, 8 * |bytes| - diff)
    decreases |bytes|
  {
    hide Pow, Value;
    ValueBound(bytes);
    BytePower(|bytes|);
    if diff > 0 {
      var n := |bytes| - 1;
      ValueFront(bytes);
      ValueBound(bytes[1..]);
      BytePower(n);
      PowPositive(256, n);
      if diff < 8 {
        PowAdd(2, 8 - diff, 8 * n);
        PowPositive(2, 8 - diff);
        FirstDigit(bytes[0], Pow(256, n), Value(bytes[1..]), Pow(2, 8 - diff));
      } else {
        LeadingZerosExact(bytes[1..], diff - 8);
        LeadingZerosFront(bytes, diff);
        PowMonotone(2, 8 * |bytes| - diff, 8 * n);
        FirstDigit(bytes[0], Pow(256, n), Value(bytes[1..]), 1);
      }
    }
  }

  lemma LeadingZerosFront(bytes: Bytes, diff: nat)
    requires 8 <= diff <= 8 * |bytes|
    ensures LeadingZeros(bytes, diff) <==> bytes[0] == 0 && LeadingZeros(bytes[1..], diff - 8)
  {
    var k := diff / 8;
    assert (diff - 8) / 8 == k - 1 && (diff - 8) % 8 == diff % 8;
    if LeadingZeros(bytes, diff) {
      assert bytes[0] == 0;
    }
    if bytes[0] == 0 && LeadingZeros(bytes[1..], diff - 8) {
      forall j | 0 <= j < k ensures bytes[j] == 0 {
        if j > 0 { assert bytes[1..][j - 1] == bytes[j]; }
      }
    }
  }

  // A number below a bound that is a multiple of its first digit's place is a first digit below the multiple.
  lemma FirstDigit(d: nat, place: nat, rest: nat, k: nat)
    requires place > 0 && rest < place
    ensures d < k <==> d * place + rest < k * place
  {
    if d < k {
      assert (d + 1) * place <= k * place;
      assert (d + 1) * place == d * place + place;
    } else {
      assert d * place >= k * place;
    }
  }

  // -------------------- exactness --------------------

  lemma DividedValue(pos: Digest, balance: uint64)
    requires balance > 0
    ensures Value(Divided(pos, balance)) == (Value(pos[..8]) / balance) * Pow(256, 24) + Value(pos[8..])
    ensures Value(pos[8..]) < Pow(256, 24) && Value(pos[..8]) < Pow(256, 8)
  {
    hide Pow, Value, FixedBigEndian;
    ValueBound(pos[..8]);
    ValueBound(pos[8..]);
    QuotientBound(Value(pos[..8]), balance);
    var data := Value(pos[..8]) / balance;
    FixedValue(data, 8);
    ValueConcat(FixedBigEndian(data, 8), pos[8..]);
  }

  lemma QuotientBound(h: nat, balance: nat)
    requires balance > 0
    ensures 0 <= h / balance <= h
  {
    DivideBelow(h, balance, h + 1);
    assert balance * (h + 1) == (h + 1) + (balance - 1) * (h + 1);
    assert (balance - 1) * (h + 1) >= 0;
  }

  lemma {:induction false} ValueConcat(a: Bytes, b: Bytes)
    ensures Value(a + b) == Value(a) * Pow(256, |b|) + Value(b)
  {
    if b == [] {
      assert a + b == a;
    } else {
      assert (a + b)[..|a + b| - 1] == a + b[..|b| - 1];
      ValueConcat(a, b[..|b| - 1]);
      assert 256 * (Value(a) * Pow(256, |b| - 1)) == Value(a) * Pow(256, |b|);
    }
  }

  lemma DivideBelow(h: nat, balance: nat, t: nat)
    requires balance > 0
    ensures h / balance < t <==> h < balance * t
  {
    var q := h / balance;
    assert h == balance * q + h % balance;
    if q < t {
      assert balance * (q + 1) <= balance * t;
    } else {
      assert balance * q >= balance * t;
    }
  }

  // Up to 64 leading zeros only the first eight bytes H of the digest matter: the draw wins exactly when
  // H < balance * 2^(64 - diff).
  lemma LotteryIsExact(diff: uint8, pos: Digest, balance: uint64)
    requires balance > 0 && diff <= 64
    ensures Wins(diff, pos, balance) <==> Value(pos[..8]) < balance * Pow(2, 64 - diff)
  {
    hide Pow, Value, Wins;
    QuotientDecides(diff, pos, balance);
    PowPositive(2, 64 - diff);
    DivideBelow(Value(pos[..8]), balance, Pow(2, 64 - diff));
  }

  lemma QuotientDecides(diff: uint8, pos: Digest, balance: uint64)
    requires balance > 0 && diff <= 64
    ensures Wins(diff, pos, balance) <==> Value(pos[..8]) / balance < Pow(2, 64 - diff)
  {
    hide Pow, Value, Divided;
    DividedValue(pos, balance);
    QuotientBound(Value(pos[..8]), balance);
    BytePower(24);
    PowAdd(2, 64 - diff, 192);
    PowPositive(256, 24);
    PowPositive(2, 64 - diff);
    FirstDigit(Value(pos[..8]) / balance, Pow(256, 24), Value(pos[8..]), Pow(2, 64 - diff));
  }

  // A richer stake or a lower difficulty wins with every digest that a poorer or harder draw wins with.
  lemma LotteryIsMonotone(diff: uint8, harder: uint8, pos: Digest, balance: uint64, richer: uint64)
    requires 0 < balance <= richer && diff <= harder <= 64
    requires Wins(harder, pos, balance)
    ensures Wins(diff, pos, richer)
  {
    hide Pow, Value, Wins;
    LotteryIsExact(harder, pos, balance);
    LotteryIsExact(diff, pos, richer);
    PowMonotone(2, 64 - harder, 64 - diff);
    assert balance * Pow(2, 64 - harder) <= richer * Pow(2, 64 - harder);
    assert richer * Pow(2, 64 - harder) <= richer * Pow(2, 64 - diff);
  }

  // Every digest whose first eight bytes read h wins.
  ghost predicate DrawWins(diff: uint8, h: nat, balance: uint64)
    requires balance > 0
  {
    forall pos: Digest :: Value(pos[..8]) == h ==> Wins(diff, pos, balance)
  }

  // The winning values of the first eight bytes.
  ghost function Winning(diff: uint8, balance: uint64): set<nat>
    requires balance > 0
  {
    set h: nat | h < TWO_64 && DrawWins(diff, h, balance)
  }

  lemma DrawWinsBelow(diff: uint8, h: nat, balance: uint64)
    requires balance > 0 && diff <= 64 && h < TWO_64
    ensures DrawWins(diff, h, balance) <==> h < balance * Pow(2, 64 - diff)
    ensures DrawWins(diff, h, balance) || forall pos: Digest :: Value(pos[..8]) == h ==> !Wins(diff, pos, balance)
  {
    hide Pow, Value, Wins, FixedBigEndian;
    forall pos: Digest | Value(pos[..8]) == h
      ensures Wins(diff, pos, balance) <==> h < balance * Pow(2, 64 - diff)
    {
      LotteryIsExact(diff, pos, balance);
    }
    EightBytes();
    FixedValue(h, 8);
    var pos: Digest := FixedBigEndian(h, 8) + Zeros(24);
    assert pos[..8] == FixedBigEndian(h, 8);
  }

  lemma EightBytes()
    ensures Pow(256, 8) == TWO_64
  {
    assert Pow(256, 4) == TWO_32 by { assert Pow(256, 2) == TWO_16; PowAdd(256, 2, 2); }
    PowAdd(256, 4, 4);
  }

  lemma {:induction false} BelowSize(n: nat, s: set<nat>)
    requires forall h: nat :: h in s <==> h < n
    ensures |s| == n
  {
    if n == 0 {
      assert s == {};
    } else {
      BelowSize(n - 1, s - {n - 1});
    }
  }

  // min(2^64, balance * 2^(64 - diff)) of the 2^64 values win; a digest with any other value loses.
  lemma WinningShare(diff: uint8, balance: uint64)
    requires balance > 0 && diff <= 64
    ensures var t := balance * Pow(2, 64 - diff); |Winning(diff, balance)| == if t < TWO_64 then t else TWO_64
  {
    hide Pow, DrawWins;
    PowPositive(2, 64 - diff);
    var t := balance * Pow(2, 64 - diff);
    forall h: nat | h < TWO_64 ensures DrawWins(diff, h, balance) <==> h < t {
      DrawWinsBelow(diff, h, balance);
    }
    BelowSize(if t < TWO_64 then t else TWO_64, Winning(diff, balance));
  }

  // -------------------- the code --------------------

  // copy(dst[index:index+len(src)], src)
  method CopyAt(dst: array<uint8>, index: nat, src: Bytes)
    requires index + |src| <= dst.Length
    modifies dst
    ensures dst[..] == old(dst[..index]) + src + old(dst[index + |src|..])
  {
    var i := 0;
    while i < |src|
      invariant 0 <= i <= |src|
      invariant dst[..] == old(dst[..index]) + src[..i] + old(dst[index + i..])
    {
      dst[index + i] := src[i];
      i := i + 1;
    }
    assert src[..i] == src;
  }

  // The previous proofs, one after the other; returns the index after them.
  method CopyProofs(hashArgs: array<uint8>, prevProofs: seq<Proof>) returns (index: nat)
    requires hashArgs.Length >= |prevProofs| * COMM_PROOF_LENGTH
    modifies hashArgs
    ensures index == |Concat(prevProofs)| && hashArgs[..index] == Concat(prevProofs)
  {
    index := 0;
    var i := 0;
    while i < |prevProofs|
      invariant 0 <= i <= |prevProofs| && index == i * COMM_PROOF_LENGTH
      invariant hashArgs[..index] == Concat(prevProofs[..i])
    {
      assert prevProofs[..i + 1][..i] == prevProofs[..i];
      ghost var before := hashArgs[..index];
      CopyAt(hashArgs, index, prevProofs[i]);
      assert hashArgs[..index + COMM_PROOF_LENGTH] == before + prevProofs[i];
      index := index + COMM_PROOF_LENGTH;
      i := i + 1;
    }
    assert prevProofs[..i] == prevProofs;
  }

  // The buffer up to the timestamp.
  method FillBuffer(prevProofs: seq<Proof>, commitmentProof: Proof, height: uint32)
    returns (hashArgs: array<uint8>, index: nat)
    ensures fresh(hashArgs) && hashArgs.Length == index + 8
    ensures hashArgs[..index] == Concat(prevProofs) + commitmentProof + FixedBigEndian(height, 4)
  {
    hashArgs := new uint8[|prevProofs| * COMM_PROOF_LENGTH + COMM_PROOF_LENGTH + 4 + 8];
    index := CopyProofs(hashArgs, prevProofs);
    CopyAt(hashArgs, index, commitmentProof);
    index := index + COMM_PROOF_LENGTH;
    assert hashArgs[..index] == Concat(prevProofs) + commitmentProof;
    CopyAt(hashArgs, index, FixedBigEndian(height, 4));
    index := index + 4;
    assert hashArgs[..index] == Concat(prevProofs) + commitmentProof + FixedBigEndian(height, 4);
  }

  // The byte loop and the bit test.
  method StartsWithZeros(pos: Digest, diff: uint8) returns (ok: bool)
    ensures ok <==> LeadingZeros(pos, diff)
  {
    var byteNr := 0;
    while byteNr < diff / 8
      invariant 0 <= byteNr <= diff / 8 && forall j :: 0 <= j < byteNr ==> pos[j] == 0
    {
      if pos[byteNr] != 0 { return false; }
      byteNr := byteNr + 1;
    }
    if diff % 8 != 0 && pos[byteNr] >= Pow(2, 8 - diff % 8) { return false; }
    return true;
  }

  // Writes the timestamp behind the rest and hashes the buffer.
  method Draw(hashArgs: array<uint8>, index: nat, prevProofs: seq<Proof>, commitmentProof: Proof, height: uint32,
              timestamp: int, sha: Bytes -> Digest) returns (pos: Digest)
    requires hashArgs.Length == index + 8
    requires hashArgs[..index] == Concat(prevProofs) + commitmentProof + FixedBigEndian(height, 4)
    modifies hashArgs
    ensures hashArgs[..index] == old(hashArgs[..index])
    ensures pos == sha(HashArgs(prevProofs, commitmentProof, height, timestamp))
  {
    hide Concat, FixedBigEndian;
    CopyAt(hashArgs, index, FixedBigEndian(Wrap64(timestamp), 8));
    assert hashArgs[..] == HashArgs(prevProofs, commitmentProof, height, timestamp);
    pos := sha(hashArgs[..]);
  }

  // Divides the first eight bytes by the balance and looks for the zeros.
  method Test(pos: Digest, balance: uint64, diff: uint8) returns (ok: bool)
    requires balance > 0
    ensures ok <==> Wins(diff, pos, balance)
  {
    hide LeadingZeros, Pow, Value, Divided;
    ok := StartsWithZeros(Divided(pos, balance), diff);
    LeadingZerosExact(Divided(pos, balance), diff);
  }

  method ValidateProofOfStake(diff: uint8, prevProofs: seq<Proof>, height: uint32, balance: uint64,
                              commitmentProof: Proof,
                              timestamp: int, sha: Bytes -> Digest) returns (ok: bool)
    requires balance > 0
    ensures ok <==> Wins(diff, sha(HashArgs(prevProofs, commitmentProof, height, timestamp)), balance)
  {
    hide Wins, HashArgs, FixedBigEndian, Concat;
    var hashArgs, index := FillBuffer(prevProofs, commitmentProof, height);
    var pos := Draw(hashArgs, index, prevProofs, commitmentProof, height, timestamp, sha);
    ok := Test(pos, balance, diff);
  }

  // -------------------- mining --------------------

  // One second: the clock, and the hash of the last block, if there is one.
  datatype Tick = Tick(now: int, lastBlock: Option<nat>)

  datatype Mined = Mined(timestamp: int) | Abort(code: int)

  // The outcome from the cnt-th tick on.
  function Mine(diff: uint8, prevHash: nat, prevProofs: seq<Proof>, height: uint32, balance: uint64,
                commitmentProof: Proof,
                sha: Bytes -> Digest, ticks: nat -> Tick, cnt: nat): Mined
    decreases 30 * BLOCK_INTERVAL - cnt
  {
    var tick := ticks(cnt);
    if cnt >= 30 * BLOCK_INTERVAL then Abort(-1)
    else if tick.lastBlock.None? then Abort(-1)
    else if prevHash != tick.lastBlock.value then Abort(-2)
    else if balance == 0 then Abort(-1)
    else if Wins(diff, sha(HashArgs(prevProofs, commitmentProof, height, tick.now)), balance) then Mined(tick.now)
    else Mine(diff, prevHash, prevProofs, height, balance, commitmentProof, sha, ticks, cnt + 1)
  }

  // The loop reuses one buffer, writing only the timestamp anew. What it returns is valid for the validator.
  method ProofOfStake(diff: uint8, prevHash: nat, prevProofs: seq<Proof>, height: uint32, balance: uint64,
                      commitmentProof: Proof, sha: Bytes -> Digest, ticks: nat -> Tick) returns (r: Mined)
    ensures r == Mine(diff, prevHash, prevProofs, height, balance, commitmentProof, sha, ticks, 1)
    ensures r.Mined? ==>
      balance > 0 && Wins(diff, sha(HashArgs(prevProofs, commitmentProof, height, r.timestamp)), balance)
  {
    hide Wins, HashArgs, FixedBigEndian, Concat;
    var hashArgs, index := FillBuffer(prevProofs, commitmentProof, height);
    var cnt := 0;
    while true
      invariant 0 <= cnt < 30 * BLOCK_INTERVAL
      invariant hashArgs[..index] == Concat(prevProofs) + commitmentProof + FixedBigEndian(height, 4)
      invariant Mine(diff, prevHash, prevProofs, height, balance, commitmentProof, sha, ticks, cnt + 1)
             == Mine(diff, prevHash, prevProofs, height, balance, commitmentProof, sha, ticks, 1)
      decreases 30 * BLOCK_INTERVAL - cnt
    {
      cnt := cnt + 1;
      var tick := ticks(cnt);
      if cnt >= 30 * BLOCK_INTERVAL { return Abort(-1); }
      if tick.lastBlock.None? { return Abort(-1); }
      if prevHash != tick.lastBlock.value { return Abort(-2); }
      var pos := Draw(hashArgs, index, prevProofs, commitmentProof, height, tick.now, sha);
      if balance == 0 { return Abort(-1); }
      var ok := Test(pos, balance, diff);
      if ok { return Mined(tick.now); }
    }
  }

  // Every timestamp the miner finds passes the validator's test on the same inputs, and it is the clock of the first
  // tick that does: every tick before it loses.
  lemma {:induction false} MinedIsFirstWinner(diff: uint8, prevHash: nat, prevProofs: seq<Proof>, height: uint32,
                                              balance: uint64,
                                              commitmentProof: Proof, sha: Bytes -> Digest, ticks: nat -> Tick,
                                                cnt: nat)
    returns (n: nat)
    requires Mine(diff, prevHash, prevProofs, height, balance, commitmentProof, sha, ticks, cnt).Mined?
    ensures balance > 0 && cnt <= n < 30 * BLOCK_INTERVAL
    ensures Mine(diff, prevHash, prevProofs, height, balance, commitmentProof, sha, ticks, cnt) == Mined(ticks(n).now)
    ensures Wins(diff, sha(HashArgs(prevProofs, commitmentProof, height, ticks(n).now)), balance)
    ensures forall k :: cnt <= k < n ==>
      !Wins(diff, sha(HashArgs(prevProofs, commitmentProof, height, ticks(k).now)), balance)
    ensures forall k :: cnt <= k <= n ==> ticks(k).lastBlock == Some(prevHash)
    decreases 30 * BLOCK_INTERVAL - cnt
  {
    hide Wins, HashArgs;
    if Wins(diff, sha(HashArgs(prevProofs, commitmentProof, height, ticks(cnt).now)), balance) {
      n := cnt;
    } else {
      n := MinedIsFirstWinner(diff, prevHash, prevProofs, height, balance, commitmentProof, sha, ticks, cnt + 1);
    }
  }
}
