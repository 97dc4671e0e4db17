/** Updating a stored transaction (miner/block_updatetx.go): its data and check string are replaced in place and it is
    written back under its hash. The two digests are parameters of the store. */
module TxUpdate {
  import opened ChameleonHash
  import opened Encoding
  import opened NumberTheory
  import opened Options
  import opened Words

  datatype Kind = AccTx | FundsTx | UpdateTx | ConfigTx | StakeTx | AggTx

  // `parameters` are those the Hash method uses: an account transaction's own, otherwise those registered for the
  // sender. `body` stands for the remaining hashed fields.
  datatype Tx = Tx(kind: Kind, parameters: Parameters, txCnt: uint32, body: Bytes, data: Bytes, check: CheckString)

  // What SHA3 digests. Only an update transaction commits to its own check string, and config, stake and aggregated
  // transactions do not commit to their data.
  datatype Content = Content(body: Bytes, data: Bytes, check: Option<CheckString>)

  datatype Digests = Digests(sha3: Content -> Bytes, sha256: Bytes -> Bytes)

  predicate Chameleon(kind: Kind) { kind in {AccTx, FundsTx, UpdateTx} }

  ghost predicate WellFormed(tx: Tx) { IsKey(tx.parameters) && IsCheckString(tx.check) }

  function Message(tx: Tx, digests: Digests): Bytes {
    if Chameleon(tx.kind)
      then digests.sha3(Content(tx.body, tx.data, if tx.kind == UpdateTx then Some(tx.check) else None))
    else digests.sha3(Content(tx.body, [], None))
  }

  function TxHash(tx: Tx, digests: Digests): Bytes
    requires WellFormed(tx)
  {
    if Chameleon(tx.kind) then Hash(tx.parameters, tx.check, Message(tx, digests), digests.sha256)
    else Message(tx, digests)
  }

  // SetData and SetCheckString.
  function Renew(tx: Tx, check: CheckString, data: Bytes): Tx { tx.(data := data, check := check) }

  // The check string an updater with the trapdoor computes for new data.
  function CheckFor(tx: Tx, data: Bytes, k: nat, digests: Digests): (check: CheckString)
    requires WellFormed(tx)
    ensures IsCheckString(check)
  {
    GenerateChCollision(tx.parameters, tx.check, Message(tx, digests), Message(tx.(data := data), digests), k,
                        digests.sha256)
  }

  class TxObject {
    var tx: Tx

    constructor (tx: Tx)
      ensures this.tx == tx
    {
      this.tx := tx;
    }
  }

  ghost predicate KeyedByHash(store: map<Bytes, Tx>, digests: Digests) {
    forall h <- store :: WellFormed(store[h]) && TxHash(store[h], digests) == h
  }

  class Storage {
    const digests: Digests
    var txMemPool: map<Bytes, TxObject>
    var txcntToTx: map<uint32, seq<Bytes>>
    var closed: map<Bytes, Tx>

    constructor (digests: Digests)
      ensures this.digests == digests && txMemPool == map[] && txcntToTx == map[] && closed == map[]
    {
      this.digests := digests;
      txMemPool, txcntToTx, closed := map[], map[], map[];
    }

    // The open transactions as values.
    ghost function Open(): map<Bytes, Tx>
      reads this, txMemPool.Values
    {
      map h <- txMemPool :: txMemPool[h].tx
    }

    ghost predicate Valid()
      reads this, txMemPool.Values
    {
      KeyedByHash(Open(), digests) && KeyedByHash(closed, digests)
    }

    method WriteOpenTx(transaction: TxObject)
      requires WellFormed(transaction.tx)
      modifies this`txMemPool, this`txcntToTx
      ensures txMemPool == old(txMemPool)[TxHash(transaction.tx, digests) := transaction]
      ensures transaction.tx.kind != FundsTx ==> txcntToTx == old(txcntToTx)
      ensures transaction.tx.kind == FundsTx ==>
        txcntToTx == Listed(old(txcntToTx), transaction.tx.txCnt, TxHash(transaction.tx, digests))
    {
      var hash := TxHash(transaction.tx, digests);
      txMemPool := txMemPool[hash := transaction];
      if transaction.tx.kind == FundsTx {
        var cnt := transaction.tx.txCnt;
        var listed := if cnt in txcntToTx then txcntToTx[cnt] else [];
        txcntToTx := txcntToTx[cnt := listed + [hash]];
      }
    }

    // updateLocalTx; false is its error.
    method UpdateLocalTx(txHash: Bytes, newCheck: CheckString, newData: Bytes) returns (found: bool)
      requires Valid() && IsCheckString(newCheck)
      modifies this, txMemPool.Values
      ensures found <==> txHash in old(txMemPool) || txHash in old(closed)
      ensures Open() == UpdatedOpen(old(Open()), txHash, newCheck, newData, digests)
      ensures closed == UpdatedClosed(old(Open()), old(closed), txHash, newCheck, newData, digests)
      ensures txcntToTx == (if txHash in old(Open()) && old(Open())[txHash].kind == FundsTx
        then Listed(old(txcntToTx), old(Open())[txHash].txCnt,
                    TxHash(Renew(old(Open())[txHash], newCheck, newData), digests))
        else old(txcntToTx))
    {
      ghost var before := Open();
      hide KeyedByHash, TxHash;
      if txHash in txMemPool {
        var txToUpdate := txMemPool[txHash];
        OwnEntry(txHash);
        txToUpdate.tx := Renew(txToUpdate.tx, newCheck, newData);
        assert Open() == before[txHash := txToUpdate.tx];
        WriteOpenTx(txToUpdate);
        return true;
      } else if txHash in closed {
        var txToUpdate := closed[txHash];
        assert WellFormed(txToUpdate) by { Entry(closed, txHash, digests); }
        txToUpdate := Renew(txToUpdate, newCheck, newData);
        closed := closed[TxHash(txToUpdate, digests) := txToUpdate];
        return true;
      }
      return false;
    }

    // No two keys share a transaction object.
    lemma OwnEntry(txHash: Bytes)
      requires KeyedByHash(Open(), digests) && txHash in txMemPool
      ensures WellFormed(txMemPool[txHash].tx)
      ensures forall h <- txMemPool :: h != txHash ==> txMemPool[h] != txMemPool[txHash]
    {
      assert Open()[txHash] == txMemPool[txHash].tx;
      forall h | h in txMemPool && h != txHash ensures txMemPool[h] != txMemPool[txHash] {
        assert Open()[h] == txMemPool[h].tx;
      }
    }
  }

  lemma Entry(store: map<Bytes, Tx>, h: Bytes, digests: Digests)
    requires KeyedByHash(store, digests) && h in store
    ensures WellFormed(store[h]) && TxHash(store[h], digests) == h
  {
  }

  function Listed(lists: map<uint32, seq<Bytes>>, cnt: uint32, hash: Bytes): map<uint32, seq<Bytes>> {
    lists[cnt := (if cnt in lists then lists[cnt] else []) + [hash]]
  }

  // The hash comes last in the list of its counter, and nothing else is listed anew.
  lemma ListedLast(lists: map<uint32, seq<Bytes>>, cnt: uint32, hash: Bytes)
    ensures var after := Listed(lists, cnt, hash);
      && cnt in after && after[cnt] != [] && after[cnt][|after[cnt]| - 1] == hash
      && (if cnt in lists then after[cnt][..|after[cnt]| - 1] == lists[cnt] else |after[cnt]| == 1)
      && after - {cnt} == lists - {cnt}
  {
    var after := Listed(lists, cnt, hash);
    assert forall c :: c in after - {cnt} <==> c in lists - {cnt};
  }

  ghost function UpdatedOpen(open: map<Bytes, Tx>, h: Bytes, check: CheckString, data: Bytes,
                             digests: Digests): map<Bytes, Tx>
    requires KeyedByHash(open, digests) && IsCheckString(check)
  {
    if h !in open then open
    else var tx := Renew(open[h], check, data); open[h := tx][TxHash(tx, digests) := tx]
  }

  ghost function UpdatedClosed(open: map<Bytes, Tx>, closed: map<Bytes, Tx>, h: Bytes, check: CheckString, data: Bytes,
                               digests: Digests): map<Bytes, Tx>
    requires KeyedByHash(closed, digests) && IsCheckString(check)
  {
    if h in open || h !in closed then closed
    else var tx := Renew(closed[h], check, data); closed[TxHash(tx, digests) := tx]
  }

  // Equal messages of two transactions of a kind commit to the same fields, or two different contents have one digest.
  lemma MessageCommits(a: Tx, b: Tx, digests: Digests)
    requires a.kind == b.kind
    ensures var same := a.body == b.body && (a.kind in {AccTx, FundsTx, UpdateTx} ==> a.data == b.data)
              && (a.kind == UpdateTx ==> a.check == b.check);
      && (same ==> Message(a, digests) == Message(b, digests))
      && (Message(a, digests) == Message(b, digests) ==>
          same || exists c, d :: c != d && digests.sha3(c) == digests.sha3(d))
  {
    if Message(a, digests) == Message(b, digests) {
      var update := a.kind == UpdateTx;
      var c := if Chameleon(a.kind) then Content(a.body, a.data, if update then Some(a.check) else None)
        else Content(a.body, [], None);
      var d := if Chameleon(b.kind) then Content(b.body, b.data, if update then Some(b.check) else None)
        else Content(b.body, [], None);
      assert digests.sha3(c) == digests.sha3(d);
    }
  }

  // -------------------- the promise --------------------

  // The parameters a chameleon hash uses are drawn by keygen.
  ghost predicate Usable(tx: Tx) { WellFormed(tx) && (Chameleon(tx.kind) ==> FromKeyGen(tx.parameters)) }

  // The exponent of hk the new check string was made for, and the one the renewed transaction hashes with. The message
  // of an update transaction changes with its check string.
  function Made(tx: Tx, data: Bytes, k: nat, digests: Digests): nat
    requires WellFormed(tx)
  {
    Exponent(Message(tx.(data := data), digests), CheckFor(tx, data, k, digests), digests.sha256)
  }

  function Met(tx: Tx, data: Bytes, k: nat, digests: Digests): nat
    requires WellFormed(tx)
  {
    var check := CheckFor(tx, data, k, digests);
    Exponent(Message(Renew(tx, check, data), digests), check, digests.sha256)
  }

  // What an updater can check beforehand: the old hash, moved by the two powers of g, is copied to itself.
  predicate Kept(tx: Tx, data: Bytes, k: nat, digests: Digests)
    requires WellFormed(tx)
  {
    Chameleon(tx.kind) ==>
      LeftAligned(BigEndian(Renumbered(tx.parameters, Value(TxHash(tx, digests)), Made(tx, data, k, digests),
                                       Met(tx, data, k, digests), k))) == TxHash(tx, digests)
  }

  lemma RenewedHash(tx: Tx, data: Bytes, k: nat, digests: Digests)
    requires Usable(tx) && Chameleon(tx.kind)
    ensures TxHash(Renew(tx, CheckFor(tx, data, k, digests), data), digests)
         == LeftAligned(BigEndian(Renumbered(tx.parameters, Value(TxHash(tx, digests)), Made(tx, data, k, digests),
                                             Met(tx, data, k, digests), k)))
  {
    hide Hash, HashNumber, GenerateChCollision, FromKeyGen, IsKey, Renumbered, Exponent, Value, LeftAligned, BigEndian;
    var check := CheckFor(tx, data, k, digests);
    var actual := Message(Renew(tx, check, data), digests);
    HashOfOther(tx.parameters, tx.check, Message(tx, digests), Message(tx.(data := data), digests), actual, k,
                digests.sha256);
    HashIs(tx.parameters, check, actual, digests.sha256);
  }

  // A collision check string keeps the hash of a transaction of any kind exactly when the moved hash is the old one;
  // for account and funds transactions that is when the old hash is stable.
  lemma RenewKeepsHash(tx: Tx, data: Bytes, k: nat, digests: Digests)
    requires Usable(tx)
    ensures TxHash(Renew(tx, CheckFor(tx, data, k, digests), data), digests) == TxHash(tx, digests)
       <==> Kept(tx, data, k, digests)
    ensures tx.kind in {AccTx, FundsTx} ==> (Kept(tx, data, k, digests) <==> Stable(tx.parameters, TxHash(tx, digests)))
  {
    hide Hash, HashNumber, GenerateChCollision, Stable, FromKeyGen, IsKey, Renumbered, Exponent, Value, LeftAligned,
         BigEndian;
    if Chameleon(tx.kind) {
      RenewedHash(tx, data, k, digests);
      if tx.kind != UpdateTx {
        CollisionIffStable(tx.parameters, tx.check, Message(tx, digests), Message(tx.(data := data), digests), k,
                           digests.sha256);
      }
    }
  }

  lemma HashIs(params: Parameters, check: CheckString, message: Bytes, sha: Bytes -> Bytes)
    requires IsKey(params) && IsCheckString(check)
    ensures Hash(params, check, message, sha) == LeftAligned(BigEndian(HashNumber(params, check, message, sha)))
  {
  }

  // A stable hash of an update transaction is kept when both exponents raise g to the same number modulo q, in
  // particular when they are equal; for a hash that does not end in a zero byte that is the only way.
  lemma UpdateTxKeepsHash(tx: Tx, data: Bytes, k: nat, digests: Digests)
    requires Usable(tx) && Chameleon(tx.kind)
    ensures var same := SamePower(tx.parameters, Made(tx, data, k, digests), Met(tx, data, k, digests), k);
            var stable := Stable(tx.parameters, TxHash(tx, digests));
            && (Made(tx, data, k, digests) == Met(tx, data, k, digests) ==> same)
            && (stable && same ==> Kept(tx, data, k, digests))
            && (TxHash(tx, digests)[31] != 0 && ParseHex(tx.parameters.Q) <= Pow(256, 32) ==>
                (Kept(tx, data, k, digests) <==> stable && same))
  {
    hide Hash, FromKeyGen, IsKey, Renumbered, CheckFor, Exponent, Value, LeftAligned, BigEndian, ParseHex, Stable,
         SamePower, Pow;
    var hash, made, met := TxHash(tx, digests), Made(tx, data, k, digests), Met(tx, data, k, digests);
    if made == met {
      SameExponentSamePower(tx.parameters, made, k);
    }
    MovedHash(tx.parameters, hash, made, met, k);
  }

  // Updating an update transaction loses even a stable hash: keys with x = 2, the draw k = 0, and digests whose
  // exponents differ so that tk * (met - made) is 1 modulo q. The new hash number is 3 less than the old one.
  lemma UpdateTxLosesHash(tx: Tx, p: nat, tk: nat, data: Bytes, digests: Digests)
    requires tx.kind == UpdateTx && p > 8 && Prime(p) && tx.parameters == KeyGen(p, 2, tk) && IsCheckString(tx.check)
    requires (tk * (Met(tx, data, 0, digests) - Made(tx, data, 0, digests))) % ((p - 1) / 2) == 1
    requires Pow(256, 31) + 3 <= Value(TxHash(tx, digests)) < (p - 1) / 2 <= Pow(256, 32)
    ensures Stable(tx.parameters, TxHash(tx, digests))
    ensures var renewed := TxHash(Renew(tx, CheckFor(tx, data, 0, digests), data), digests);
            renewed != TxHash(tx, digests) && Value(renewed) == Value(TxHash(tx, digests)) - 3
  {
    hide Hash, HashNumber, IsKey, CheckFor, Exponent, Value, LeftAligned, BigEndian, ParseHex, Stable, Pow, Hex, Prime,
         Made, Met;
    var params, hash, q := tx.parameters, TxHash(tx, digests), (p - 1) / 2;
    var made, met, check := Made(tx, data, 0, digests), Met(tx, data, 0, digests), CheckFor(tx, data, 0, digests);
    assert Drawn(params, p, 2, tk);
    HexRoundTrip(p); HexRoundTrip(q); HexRoundTrip(tk);
    PowersOfFour(p);
    HexRoundTrip(4);
    FullNumberOf(hash);
    SmallHashIsStable(params, hash);
    PowPositive(256, 31);
    SmallModulo(Value(hash) - 3, q);
    FullNumber(Value(hash) - 3);
    assert Renumbered(params, Value(hash), made, met, 0) == Value(hash) - 3;
    RenewedHash(tx, data, 0, digests);
  }

  // Such inputs exist for every prime of 256 bits: 32-byte digests that tell the committed check string from any other.
  function Committed(p: nat): (check: CheckString)
    requires p > 2
    ensures IsCheckString(check)
  {
    PowPositive(256, 31);
    HexRoundTrip(Pow(256, 31) + 7); HexRoundTrip(1);
    CheckString(Hex(Pow(256, 31) + 7), Hex(1))
  }

  function Telling(p: nat): Digests
    requires p > 2
  {
    Digests((c: Content) => Zeros(31) + [if c.check == Some(Committed(p)) then 0 else 1],
            (m: Bytes) => if |m| < 32 then Zeros(32) else m[..32])
  }

  lemma TellingValue(p: nat, c: Content, r: Bytes)
    requires p > 2
    ensures Value(Telling(p).sha256(Telling(p).sha3(c) + r)) == if c.check == Some(Committed(p)) then 0 else 1
  {
    hide Committed, Zeros;
    var digest := Telling(p).sha3(c);
    assert (digest + r)[..32] == digest;
    assert digest[..31] == Zeros(31);
    ValueOfZeros(31);
  }

  lemma KeyNumbers(p: nat)
    requires p > 8
    ensures var params := KeyGen(p, 2, 1);
      && ParseHex(params.G) == 4 && ParseHex(params.P) == p && ParseHex(params.Q) == (p - 1) / 2
      && ParseHex(params.HK) == 4 && ParseHex(params.TK) == 1
  {
    hide Hex, ParseHex, Exp;
    PowersOfFour(p);
    HexRoundTrip(4); HexRoundTrip(p); HexRoundTrip((p - 1) / 2); HexRoundTrip(1);
  }

  lemma TellingHash(p: nat, tx: Tx)
    requires 128 * Pow(256, 31) < p < 256 * Pow(256, 31)
    requires tx == Tx(UpdateTx, KeyGen(p, 2, 1), 0, [], [], Committed(p))
    ensures Value(TxHash(tx, Telling(p))) == Pow(256, 31) + 3 < (p - 1) / 2 <= Pow(256, 32)
  {
    hide Hash, HashNumber, Exp, Value, LeftAligned, BigEndian, ParseHex, Pow, Hex, KeyGen, Telling;
    var n, q, digests := Pow(256, 31) + 3, (p - 1) / 2, Telling(p);
    LargeModulus(p);
    KeyNumbers(p);
    PowersOfFour(p);
    HexRoundTrip(n + 4); HexRoundTrip(1);
    TellingValue(p, Content([], [], Some(tx.check)), Hex(n + 4));
    SmallModulo(n, q); SmallModulo(4, p);
    HashNumberIs(tx.parameters, tx.check, Message(tx, digests), digests.sha256, 4, p, q, 4, n + 4, 1);
    HashIs(tx.parameters, tx.check, Message(tx, digests), digests.sha256);
    FullNumber(n);
  }

  lemma LargeModulus(p: nat)
    requires 128 * Pow(256, 31) < p < 256 * Pow(256, 31)
    ensures p > 8 && Pow(256, 31) + 4 < (p - 1) / 2 <= Pow(256, 32)
  {
    hide Pow;
    PowPositive(256, 30);
    PowStep(256, 30); PowStep(256, 31);
  }

  lemma TellingCheck(p: nat, tx: Tx, data: Bytes)
    requires 128 * Pow(256, 31) < p < 256 * Pow(256, 31)
    requires tx == Tx(UpdateTx, KeyGen(p, 2, 1), 0, [], [], Committed(p))
    ensures CheckFor(tx, data, 0, Telling(p)) == CheckString(Hex(Pow(256, 31) + 4), Hex(0))
  {
    hide Hash, Exp, Value, ParseHex, Pow, Hex, KeyGen, Telling;
    var q, digests := (p - 1) / 2, Telling(p);
    LargeModulus(p);
    TellingHash(p, tx);
    KeyNumbers(p);
    PowersOfFour(p);
    SmallModulo(Pow(256, 31) + 4, q); SmallModulo(0, q);
    TellingValue(p, Content([], data, Some(tx.check)), Hex(Pow(256, 31) + 4));
  }

  lemma LossHappens(p: nat, data: Bytes)
    requires Prime(p) && 128 * Pow(256, 31) < p < 256 * Pow(256, 31)
    ensures var tx, digests := Tx(UpdateTx, KeyGen(p, 2, 1), 0, [], [], Committed(p)), Telling(p);
      && Stable(tx.parameters, TxHash(tx, digests))
      && TxHash(Renew(tx, CheckFor(tx, data, 0, digests), data), digests) != TxHash(tx, digests)
  {
    hide TxHash, Value, ParseHex, Stable, Pow, Hex, Prime, KeyGen, Telling, CheckFor;
    var digests := Telling(p);
    var tx := Tx(UpdateTx, KeyGen(p, 2, 1), 0, [], [], Committed(p));
    LargeModulus(p);
    TellingHash(p, tx);
    TellingCheck(p, tx, data);
    HexRoundTrip(0); HexRoundTrip(1); HexRoundTrip(Pow(256, 31) + 4);
    var check := CheckFor(tx, data, 0, digests);
    assert check != Committed(p);
    TellingValue(p, Content([], data, Some(tx.check)), check.R);
    TellingValue(p, Content([], data, Some(check)), check.R);
    assert Made(tx, data, 0, digests) == 0 && Met(tx, data, 0, digests) == 1;
    SmallModulo(1, (p - 1) / 2);
    UpdateTxLosesHash(tx, p, 1, data, digests);
  }

  lemma PowersOfFour(p: nat)
    requires p > 8
    ensures Exp(2, 2, p) == 4 && Exp(4, 0, p) == 1 && Exp(4, 1, p) == 4
  {
    assert Pow(2, 2) == 4 && Pow(4, 1) == 4;
  }

  // Config, stake and aggregated transactions keep their hash whatever is written.
  lemma PlainKeepsHash(tx: Tx, check: CheckString, data: Bytes, digests: Digests)
    requires WellFormed(tx) && IsCheckString(check) && !Chameleon(tx.kind)
    ensures TxHash(Renew(tx, check, data), digests) == TxHash(tx, digests)
  {
  }

  // After updating an open transaction the pool is keyed by hash exactly when the hash is kept, and then only that
  // entry changed.
  lemma OpenUpdate(open: map<Bytes, Tx>, h: Bytes, data: Bytes, k: nat, digests: Digests)
    requires KeyedByHash(open, digests) && h in open && Usable(open[h])
    ensures var check := CheckFor(open[h], data, k, digests);
            var after := UpdatedOpen(open, h, check, data, digests);
            && (Kept(open[h], data, k, digests) <==> KeyedByHash(after, digests))
            && (Kept(open[h], data, k, digests) ==> after == open[h := Renew(open[h], check, data)])
  {
    hide Hash, GenerateChCollision, FromKeyGen, IsKey, Kept;
    var tx := Renew(open[h], CheckFor(open[h], data, k, digests), data);
    RenewKeepsHash(open[h], data, k, digests);
    var after := UpdatedOpen(open, h, tx.check, data, digests);
    assert after[h] == tx;
  }

  // Updating a closed transaction keeps the bucket keyed by hash; the old key shows the new data when the hash is kept,
  // and otherwise still shows the old data.
  lemma ClosedUpdate(open: map<Bytes, Tx>, closed: map<Bytes, Tx>, h: Bytes, data: Bytes, k: nat, digests: Digests)
    requires KeyedByHash(closed, digests) && h in closed && h !in open && Usable(closed[h])
    ensures var check := CheckFor(closed[h], data, k, digests);
            var after := UpdatedClosed(open, closed, h, check, data, digests);
            && KeyedByHash(after, digests)
            && (Kept(closed[h], data, k, digests) ==> after == closed[h := Renew(closed[h], check, data)])
            && (!Kept(closed[h], data, k, digests) ==> after[h] == closed[h])
  {
    hide Hash, GenerateChCollision, FromKeyGen, IsKey, Kept;
    RenewKeepsHash(closed[h], data, k, digests);
  }

  // -------------------- blocks --------------------

  function Hashes(txs: seq<Tx>, digests: Digests): seq<Bytes>
    requires forall tx <- txs :: WellFormed(tx)
  {
    if txs == [] then [] else Hashes(txs[..|txs| - 1], digests) + [TxHash(txs[|txs| - 1], digests)]
  }

  lemma {:induction false} HashesAt(txs: seq<Tx>, digests: Digests)
    requires forall tx <- txs :: WellFormed(tx)
    ensures |Hashes(txs, digests)| == |txs|
    ensures forall i :: 0 <= i < |txs| ==> Hashes(txs, digests)[i] == TxHash(txs[i], digests)
  {
    hide TxHash, WellFormed;
    if txs != [] {
      HashesAt(txs[..|txs| - 1], digests);
    }
  }

  // One update of the transaction at position i of a block's list.
  datatype Update = Update(i: nat, data: Bytes, k: nat)

  function UpdateList(txs: seq<Tx>, updates: seq<Update>, digests: Digests): (after: seq<Tx>)
    requires forall tx <- txs :: WellFormed(tx)
    requires forall u <- updates :: u.i < |txs|
    ensures |after| == |txs| && forall tx <- after :: WellFormed(tx)
  {
    if updates == [] then txs
    else
      var before := UpdateList(txs, updates[..|updates| - 1], digests);
      var u := updates[|updates| - 1];
      var tx := before[u.i];
      before[u.i := Renew(tx, CheckFor(tx, u.data, u.k, digests), u.data)]
  }

  // Every update in turn keeps the hash of the transaction it rewrites.
  ghost predicate AllKept(txs: seq<Tx>, updates: seq<Update>, digests: Digests)
    requires forall tx <- txs :: WellFormed(tx)
    requires forall u <- updates :: u.i < |txs|
  {
    updates == [] ||
    (AllKept(txs, updates[..|updates| - 1], digests)
     && var u := updates[|updates| - 1];
        Kept(UpdateList(txs, updates[..|updates| - 1], digests)[u.i], u.data, u.k, digests))
  }

  // The block lists the hashes of its transactions after each of the updates.
  ghost predicate AlwaysListed(txs: seq<Tx>, updates: seq<Update>, digests: Digests)
    requires forall tx <- txs :: WellFormed(tx)
    requires forall u <- updates :: u.i < |txs|
  {
    forall j :: 0 <= j <= |updates| ==> Listing(txs, updates, j, digests) == Hashes(txs, digests)
  }

  ghost function Listing(txs: seq<Tx>, updates: seq<Update>, j: nat, digests: Digests): seq<Bytes>
    requires forall tx <- txs :: WellFormed(tx)
    requires j <= |updates| && forall u <- updates :: u.i < |txs|
  {
    Hashes(UpdateList(txs, updates[..j], digests), digests)
  }

  // However often a block's transactions are updated, the hashes it lists stay theirs exactly as long as every update
  // keeps the hash: the body is served unchanged except for data and check strings, and everything computed from the
  // hashes (the Merkle root, the block hash) stands.
  lemma {:induction false} BlockKeepsHashes(txs: seq<Tx>, updates: seq<Update>, digests: Digests)
    requires forall tx <- txs :: WellFormed(tx) && Usable(tx)
    requires forall u <- updates :: u.i < |txs|
    ensures AllKept(txs, updates, digests) <==> AlwaysListed(txs, updates, digests)
    ensures forall i :: 0 <= i < |txs| ==> SameButData(UpdateList(txs, updates, digests)[i], txs[i])
  {
    hide TxHash, CheckFor, WellFormed, FromKeyGen, Kept, Hashes;
    var n := |updates|;
    assert updates[..n] == updates;
    if n > 0 {
      var earlier, u := updates[..n - 1], updates[n - 1];
      BlockKeepsHashes(txs, earlier, digests);
      var before := UpdateList(txs, earlier, digests);
      assert SameButData(before[u.i], txs[u.i]);
      assert Usable(before[u.i]) by { assert Usable(txs[u.i]); }
      LastUpdate(txs, before, u, digests);
      ListedLonger(txs, updates, digests);
    } else {
      assert forall j :: 0 <= j <= n ==> updates[..j] == [];
    }
  }

  lemma ListedLonger(txs: seq<Tx>, updates: seq<Update>, digests: Digests)
    requires forall tx <- txs :: WellFormed(tx)
    requires updates != [] && forall u <- updates :: u.i < |txs|
    ensures var earlier := updates[..|updates| - 1];
            && (AlwaysListed(txs, earlier, digests) ==>
                Hashes(UpdateList(txs, earlier, digests), digests) == Hashes(txs, digests))
            && (AlwaysListed(txs, updates, digests) <==>
                AlwaysListed(txs, earlier, digests)
                  && Hashes(UpdateList(txs, updates, digests), digests) == Hashes(txs, digests))
  {
    hide UpdateList, Hashes;
    var n := |updates|;
    var earlier := updates[..n - 1];
    assert updates[..n] == updates && earlier[..n - 1] == earlier;
    assert Listing(txs, updates, n, digests) == Hashes(UpdateList(txs, updates, digests), digests);
    assert Listing(txs, earlier, n - 1, digests) == Hashes(UpdateList(txs, earlier, digests), digests);
    forall j | 0 <= j < n ensures Listing(txs, updates, j, digests) == Listing(txs, earlier, j, digests) {
      assert updates[..j] == earlier[..j];
    }
    if AlwaysListed(txs, updates, digests) {
      forall j | 0 <= j <= n - 1 ensures Listing(txs, earlier, j, digests) == Hashes(txs, digests) {
        assert Listing(txs, updates, j, digests) == Hashes(txs, digests);
      }
    }
  }

  lemma LastUpdate(txs: seq<Tx>, before: seq<Tx>, u: Update, digests: Digests)
    requires (forall tx <- txs :: WellFormed(tx)) && (forall tx <- before :: WellFormed(tx))
    requires u.i < |before| && Usable(before[u.i])
    ensures var tx := before[u.i];
            var after := before[u.i := Renew(tx, CheckFor(tx, u.data, u.k, digests), u.data)];
            && (forall tx <- after :: WellFormed(tx))
            && (Hashes(before, digests) == Hashes(txs, digests) ==>
                (Hashes(after, digests) == Hashes(txs, digests) <==> Kept(tx, u.data, u.k, digests)))
  {
    hide TxHash, CheckFor, FromKeyGen, Kept, Hashes;
    var tx := before[u.i];
    var after := before[u.i := Renew(tx, CheckFor(tx, u.data, u.k, digests), u.data)];
    assert forall tx <- after :: WellFormed(tx);
    HashesAt(before, digests);
    HashesAt(after, digests);
    RenewKeepsHash(tx, u.data, u.k, digests);
    if Kept(tx, u.data, u.k, digests) {
      assert Hashes(after, digests) == Hashes(before, digests);
    }
  }

  predicate SameButData(a: Tx, b: Tx) { a.(data := b.data, check := b.check) == b }

  // Where only account and funds transactions with a stable hash are updated, every hash is kept.
  lemma {:induction false} StableUpdatesKept(txs: seq<Tx>, updates: seq<Update>, digests: Digests)
    requires forall tx <- txs :: WellFormed(tx) && Usable(tx)
    requires forall u <- updates :: u.i < |txs| && StablePlain(txs[u.i], digests)
    ensures AllKept(txs, updates, digests) && AlwaysListed(txs, updates, digests)
  {
    hide TxHash, CheckFor, WellFormed, FromKeyGen, Kept, Stable, Hashes, AlwaysListed;
    if updates != [] {
      var n := |updates|;
      var earlier, u := updates[..n - 1], updates[n - 1];
      StableUpdatesKept(txs, earlier, digests);
      BlockKeepsHashes(txs, earlier, digests);
      var before := UpdateList(txs, earlier, digests);
      assert SameButData(before[u.i], txs[u.i]) && StablePlain(txs[u.i], digests);
      assert Usable(before[u.i]) by { assert Usable(txs[u.i]); }
      ListedAt(txs, earlier, u.i, digests);
      RenewKeepsHash(before[u.i], u.data, u.k, digests);
    }
    BlockKeepsHashes(txs, updates, digests);
  }

  ghost predicate StablePlain(tx: Tx, digests: Digests) {
    Usable(tx) && tx.kind in {AccTx, FundsTx} && Stable(tx.parameters, TxHash(tx, digests))
  }

  lemma ListedAt(txs: seq<Tx>, updates: seq<Update>, i: nat, digests: Digests)
    requires forall tx <- txs :: WellFormed(tx)
    requires forall u <- updates :: u.i < |txs|
    requires i < |txs| && AlwaysListed(txs, updates, digests)
    ensures TxHash(UpdateList(txs, updates, digests)[i], digests) == TxHash(txs[i], digests)
  {
    hide TxHash, UpdateList;
    assert updates[..|updates|] == updates;
    assert Listing(txs, updates, |updates|, digests) == Hashes(txs, digests);
    HashesAt(txs, digests);
    HashesAt(UpdateList(txs, updates, digests), digests);
  }
}
