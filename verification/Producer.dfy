/** Block production against block validation: what addFundsTx admits on the block's copy of the state, fundsStateChange
    accepts on the state itself, in the same order (miner/block_fundstx.go, miner/state.go).
    Contract execution is not part of this model. */
module Producer {
  import opened Words
  import opened Protocol
  import opened Ledger
  import opened Effects
  import opened StageEffects
  import opened Supply

  type Copy = map<Hash, Account>

  // SerializeHashContent of an account's address.
  type AddressHash = nat -> Hash

  // The block's copy of the accounts it touches, the admitted transactions, and the two pools of open transactions.
  datatype Prep = Prep(copy: Copy, admitted: seq<FundsTx>, open: map<Hash, FundsTx>, invalid: map<Hash, FundsTx>)

  datatype Status = Ok | Err | Crash

  datatype Added = Added(prep: Prep, status: Status)

  // The local copy of account h, made on first use when the account's address hashes to h.
  function WithCopy(l: Ledger, addressHash: AddressHash, copy: Copy, h: Hash): Copy
    requires h in copy || h in l.accounts
  {
    if h !in copy && addressHash(l.accounts[h].profile.address) == h then copy[h := l.accounts[h]] else copy
  }

  // addFundsTx. A missing copy is a nil pointer.
  function Add(l: Ledger, closed: set<Hash>, addressHash: AddressHash, p: Prep, tx: FundsTx): Added {
    var invalid := p.invalid[tx.hash := tx];
    if tx.from !in p.copy && tx.from !in l.accounts then Added(p.(invalid := invalid), Err)
    else
      var copy := WithCopy(l, addressHash, p.copy, tx.from);
      if tx.to !in copy && tx.to !in l.accounts then Added(p.(copy := copy, invalid := invalid), Err)
      else CheckAndAdd(l, closed, p.(copy := WithCopy(l, addressHash, copy, tx.to)), tx)
  }

  function CheckAndAdd(l: Ledger, closed: set<Hash>, p: Prep, tx: FundsTx): Added {
    var refused := Added(p.(invalid := p.invalid[tx.hash := tx]), Err);
    if tx.from !in p.copy then Added(p, Crash)
    else
      var sender := p.copy[tx.from];
      if tx.from !in l.rootKeys && Wrap64(tx.amount + tx.fee) > sender.balance then refused
      else if tx.txCnt < sender.txCnt then
        Added(if tx.hash in closed then p.(open := p.open - {tx.hash}, invalid := p.invalid - {tx.hash}) else p, Ok)
      else if tx.txCnt > sender.txCnt then refused
      else if tx.to !in p.copy then Added(p, Crash)
      else if Wrap64(p.copy[tx.to].balance + tx.amount) > MAX_MONEY then refused
      else Added(p.(copy := Spend(p.copy, tx), admitted := p.admitted + [tx]), Ok)
  }

  function Spend(copy: Copy, tx: FundsTx): Copy
    requires tx.from in copy && tx.to in copy
  {
    var sender := copy[tx.from];
    var spent :=
      copy[tx.from := sender.(txCnt := Wrap32(sender.txCnt + 1),
                              balance := Wrap64(sender.balance - Wrap64(tx.amount + tx.fee)))];
    spent[tx.to := spent[tx.to].(balance := Wrap64(spent[tx.to].balance + tx.amount))]
  }

  // Transactions offered one after the other, whatever becomes of each; a crash ends the run.
  function AddAll(l: Ledger, closed: set<Hash>, addressHash: AddressHash, p: Prep, txs: seq<FundsTx>): Added {
    if txs == [] then Added(p, Ok)
    else
      var before := AddAll(l, closed, addressHash, p, txs[..|txs| - 1]);
      if before.status == Crash then before else Add(l, closed, addressHash, before.prep, txs[|txs| - 1])
  }

  // The block under preparation, updated in place.
  class Preparation {
    var stateCopy: Copy
    var fundsTxBeforeAggregation: seq<FundsTx>
    var txMemPool: map<Hash, FundsTx>
    var txINVALIDMemPool: map<Hash, FundsTx>

    constructor (open: map<Hash, FundsTx>, invalid: map<Hash, FundsTx>)
      ensures View() == Prep(map[], [], open, invalid)
    {
      stateCopy, fundsTxBeforeAggregation, txMemPool, txINVALIDMemPool := map[], [], open, invalid;
    }

    ghost function View(): Prep
      reads this
    {
      Prep(stateCopy, fundsTxBeforeAggregation, txMemPool, txINVALIDMemPool)
    }

    method AddFundsTx(state: Ledger, closed: set<Hash>, addressHash: AddressHash, tx: FundsTx) returns (status: Status)
      modifies this
      ensures Added(View(), status) == Add(state, closed, addressHash, old(View()), tx)
    {
      hide CheckAndAdd;
      var found := EnsureCopy(state, addressHash, tx.from);
      if found {
        found := EnsureCopy(state, addressHash, tx.to);
      }
      if !found {
        txINVALIDMemPool := txINVALIDMemPool[tx.hash := tx];
        return Err;
      }
      status := CheckAndAddTx(state, closed, tx);
    }

    // The local copy of an account, unless the state has no such account.
    method EnsureCopy(state: Ledger, addressHash: AddressHash, h: Hash) returns (found: bool)
      modifies `stateCopy
      ensures found <==> h in old(stateCopy) || h in state.accounts
      ensures stateCopy == if found then WithCopy(state, addressHash, old(stateCopy), h) else old(stateCopy)
    {
      if h !in stateCopy {
        if h !in state.accounts { return false; }
        var acc := state.accounts[h];
        if addressHash(acc.profile.address) == h {
          stateCopy := stateCopy[h := acc];
        }
      }
      return true;
    }

    method CheckAndAddTx(state: Ledger, closed: set<Hash>, tx: FundsTx) returns (status: Status)
      modifies this
      ensures Added(View(), status) == CheckAndAdd(state, closed, old(View()), tx)
    {
      hide Wrap64, Wrap32;
      if tx.from !in stateCopy { return Crash; }
      if tx.from !in state.rootKeys {
        if Wrap64(tx.amount + tx.fee) > stateCopy[tx.from].balance {
          txINVALIDMemPool := txINVALIDMemPool[tx.hash := tx];
          return Err;
        }
      }
      if stateCopy[tx.from].txCnt != tx.txCnt {
        if tx.txCnt < stateCopy[tx.from].txCnt {
          if tx.hash in closed {
            txMemPool := txMemPool - {tx.hash};
            txINVALIDMemPool := txINVALIDMemPool - {tx.hash};
          }
          return Ok;
        }
        txINVALIDMemPool := txINVALIDMemPool[tx.hash := tx];
        return Err;
      }
      if tx.to !in stateCopy { return Crash; }
      if Wrap64(stateCopy[tx.to].balance + tx.amount) > MAX_MONEY {
        txINVALIDMemPool := txINVALIDMemPool[tx.hash := tx];
        return Err;
      }
      var accSender := stateCopy[tx.from];
      stateCopy := stateCopy[tx.from := accSender.(txCnt := Wrap32(accSender.txCnt + 1),
                                                  balance := Wrap64(accSender.balance - Wrap64(tx.amount + tx.fee)))];
      var accReceiver := stateCopy[tx.to];
      stateCopy := stateCopy[tx.to := accReceiver.(balance := Wrap64(accReceiver.balance + tx.amount))];
      fundsTxBeforeAggregation := fundsTxBeforeAggregation + [tx];
      return Ok;
    }
  }

  // -------------------- hypotheses --------------------

  // The sender is neither root nor staking nor the receiver, amount and fee do not wrap, and the transaction is new.
  ghost predicate Ordinary(l: Ledger, closed: set<Hash>, tx: FundsTx) {
    && tx.from !in l.rootKeys && (tx.from in l.accounts ==> !l.accounts[tx.from].isStaking)
    && tx.from != tx.to && tx.amount + tx.fee < TWO_64 && tx.hash !in closed
  }

  ghost predicate AllOrdinary(l: Ledger, closed: set<Hash>, txs: seq<FundsTx>) {
    forall i :: 0 <= i < |txs| ==> Ordinary(l, closed, txs[i])
  }

  // Every account is stored under the hash of its address.
  ghost predicate KeyedByAddress(l: Ledger, addressHash: AddressHash) {
    forall h :: h in l.accounts ==> addressHash(l.accounts[h].profile.address) == h
  }

  // -------------------- what is admitted --------------------

  // What the preparation knows of an account: its copy, or else the account of the state.
  function KnownAs(l: Ledger, p: Prep, h: Hash): Account
    requires h in p.copy || h in l.accounts
  {
    if h in p.copy then p.copy[h] else l.accounts[h]
  }

  // Sender and receiver are known, and a sender that is no root covers amount and fee.
  ghost predicate Spendable(l: Ledger, p: Prep, tx: FundsTx) {
    && (tx.from in p.copy || tx.from in l.accounts) && (tx.to in p.copy || tx.to in l.accounts)
    && (tx.from in l.rootKeys || tx.amount + tx.fee <= KnownAs(l, p, tx.from).balance)
  }

  // The transaction passes the checks.
  ghost predicate Admissible(l: Ledger, p: Prep, tx: FundsTx) {
    && Spendable(l, p, tx) && tx.txCnt == KnownAs(l, p, tx.from).txCnt
    && var after := KnownAs(l, p, tx.to).balance + tx.amount; after <= MAX_MONEY || after >= TWO_64
  }

  // An offered transaction is admitted exactly when it is spendable, its counter is the sender's, and it leaves the
  // receiver within the ceiling, or past the word, where the sum wraps. One whose counter has been used is passed over,
  // and leaves the pools once it is closed; every other one goes to the invalid pool.
  ghost predicate Offered(l: Ledger, closed: set<Hash>, p: Prep, tx: FundsTx, r: Added) {
    var used := Spendable(l, p, tx) && tx.txCnt < KnownAs(l, p, tx.from).txCnt;
    if Admissible(l, p, tx) then
      r.status == Ok && r.prep.admitted == p.admitted + [tx] && r.prep.open == p.open && r.prep.invalid == p.invalid
    else if used && tx.hash in closed then
      && r.status == Ok && r.prep.admitted == p.admitted
      && r.prep.open == p.open - {tx.hash} && r.prep.invalid == p.invalid - {tx.hash}
    else if used then
      r.status == Ok && r.prep.admitted == p.admitted && r.prep.open == p.open && r.prep.invalid == p.invalid
    else
      && r.status == Err && r.prep.admitted == p.admitted
      && r.prep.open == p.open && r.prep.invalid == p.invalid[tx.hash := tx]
  }

  // What is known of an account before is known after.
  ghost predicate KnownStays(l: Ledger, p: Prep, q: Prep, h: Hash) {
    (h in p.copy ==> h in q.copy)
    && (h in p.copy || h in l.accounts ==> KnownAs(l, q, h) == KnownAs(l, p, h))
  }

  // An admitted transaction takes amount and fee from the sender, counts it, and gives the amount to the receiver;
  // nothing else is known differently.
  ghost predicate SpentAs(l: Ledger, p: Prep, tx: FundsTx, q: Prep)
    requires Admissible(l, p, tx)
  {
    && tx.from in q.copy && tx.to in q.copy
    && var sender, receiver := KnownAs(l, p, tx.from), KnownAs(l, p, tx.to);
       && q.copy[tx.from].txCnt == Wrap32(sender.txCnt + 1)
       && (tx.from != tx.to ==>
           && q.copy[tx.from].balance == Wrap64(sender.balance - (tx.amount + tx.fee))
           && q.copy[tx.to] == receiver.(balance := Wrap64(receiver.balance + tx.amount)))
       && (tx.from == tx.to ==> q.copy[tx.from].balance == Wrap64(sender.balance - tx.fee))
  }

  lemma OfferedOutcome(l: Ledger, closed: set<Hash>, addressHash: AddressHash, p: Prep, tx: FundsTx)
    requires KeyedByAddress(l, addressHash) && tx.amount + tx.fee < TWO_64
    requires tx.to in p.copy || tx.to in l.accounts ==> KnownAs(l, p, tx.to).balance <= MAX_MONEY
    ensures var r := Add(l, closed, addressHash, p, tx);
      && Offered(l, closed, p, tx, r)
      && (if Admissible(l, p, tx) then SpentAs(l, p, tx, r.prep) else KnownStays(l, p, r.prep, tx.from))
      && forall h :: h != tx.from && h != tx.to ==> KnownStays(l, p, r.prep, h)
  {
    hide CheckAndAdd, SpentAs, Wrap64, Wrap32;
    if (tx.from in p.copy || tx.from in l.accounts) && (tx.to in p.copy || tx.to in l.accounts) {
      BothCopied(l, addressHash, p, tx);
      var copy := WithCopy(l, addressHash, WithCopy(l, addressHash, p.copy, tx.from), tx.to);
      CheckedOutcome(l, closed, p, p.(copy := copy), tx);
    }
  }

  lemma BothCopied(l: Ledger, addressHash: AddressHash, p: Prep, tx: FundsTx)
    requires KeyedByAddress(l, addressHash)
    requires (tx.from in p.copy || tx.from in l.accounts) && (tx.to in p.copy || tx.to in l.accounts)
    ensures var copy := WithCopy(l, addressHash, WithCopy(l, addressHash, p.copy, tx.from), tx.to);
      && tx.from in copy && tx.to in copy && forall h :: KnownStays(l, p, p.(copy := copy), h)
  {
  }

  lemma CheckedOutcome(l: Ledger, closed: set<Hash>, p: Prep, q: Prep, tx: FundsTx)
    requires q == p.(copy := q.copy) && tx.amount + tx.fee < TWO_64 && tx.from in q.copy && tx.to in q.copy
    requires (tx.from in p.copy || tx.from in l.accounts) && (tx.to in p.copy || tx.to in l.accounts)
    requires forall h :: KnownStays(l, p, q, h)
    requires KnownAs(l, p, tx.to).balance <= MAX_MONEY
    ensures var r := CheckAndAdd(l, closed, q, tx);
      && Offered(l, closed, p, tx, r)
      && (if Admissible(l, p, tx) then SpentAs(l, p, tx, r.prep) else r.prep.copy == q.copy)
      && forall h :: h != tx.from && h != tx.to ==> KnownStays(l, p, r.prep, h)
  {
    assert KnownStays(l, p, q, tx.from) && KnownStays(l, p, q, tx.to);
    var r := CheckAndAdd(l, closed, q, tx);
    forall h | h != tx.from && h != tx.to ensures KnownStays(l, p, r.prep, h) {
      assert KnownStays(l, p, q, h);
    }
    if Admissible(l, p, tx) {
      SpendsExactly(l, p, q, tx);
    }
  }

  lemma SpendsExactly(l: Ledger, p: Prep, q: Prep, tx: FundsTx)
    requires Admissible(l, p, tx) && tx.from in q.copy && tx.to in q.copy && tx.amount + tx.fee < TWO_64
    requires KnownStays(l, p, q, tx.from) && KnownStays(l, p, q, tx.to)
    ensures SpentAs(l, p, tx, q.(copy := Spend(q.copy, tx), admitted := p.admitted + [tx]))
  {
    var b := q.copy[tx.from].balance;
    Wrap64Absorbs(b - (tx.amount + tx.fee), tx.amount);
  }

  // -------------------- the simulation --------------------

  // The fees each sender still owes.
  ghost function Pending(txs: seq<FundsTx>): seq<Move> {
    seq(|txs|, i requires 0 <= i < |txs| => Move(txs[i].from, txs[i].fee))
  }

  ghost function Owed(txs: seq<FundsTx>, a: Hash): int { Net(Pending(txs), a) }

  // The state s reached by the admitted transactions, against the copy: the same counters, and the copy's balance plus
  // the pending fees. Accounts without a copy are untouched.
  ghost predicate Simulates(l: Ledger, p: Prep, s: Ledger) {
    && s.rootKeys == l.rootKeys && s.accounts.Keys == l.accounts.Keys && p.copy.Keys <= l.accounts.Keys
    && (forall a :: a in l.accounts ==> Agrees(l, p, s, a))
    && SameStaking(l, s)
    && Total(s) == Total(l)
  }

  ghost predicate Agrees(l: Ledger, p: Prep, s: Ledger, a: Hash)
    requires a in l.accounts && a in s.accounts
  {
    if a in p.copy then
      && s.accounts[a] == p.copy[a].(balance := s.accounts[a].balance)
      && s.accounts[a].balance == p.copy[a].balance + Owed(p.admitted, a)
    else s.accounts[a] == l.accounts[a] && Owed(p.admitted, a) == 0
  }

  lemma OwedSnoc(txs: seq<FundsTx>, tx: FundsTx, a: Hash)
    ensures Owed(txs + [tx], a) == Owed(txs, a) + if tx.from == a then tx.fee else 0
  {
    assert Pending(txs + [tx])[..|txs|] == Pending(txs);
  }

  lemma {:induction false} OwedNonNegative(txs: seq<FundsTx>, a: Hash)
    ensures Owed(txs, a) >= 0
  {
    if txs == [] {
    } else {
      OwedNonNegative(txs[..|txs| - 1], a);
      OwedSnoc(txs[..|txs| - 1], txs[|txs| - 1], a);
      assert txs[..|txs| - 1] + [txs[|txs| - 1]] == txs;
    }
  }

  // Two accounts together hold no more than everyone.
  lemma TwoWithinTotal(l: Ledger, a: Hash, b: Hash)
    requires a in l.accounts && b in l.accounts && a != b
    ensures l.accounts[a].balance + l.accounts[b].balance <= Total(l)
  {
    var s, f := l.accounts.Keys, Balances(l);
    SumWithout(s, a, f);
    SumWithout(s - {a}, b, f);
    SumNonNegative(s - {a} - {b}, f);
  }

  lemma {:induction false} SumNonNegative(s: set<Hash>, f: Hash -> int)
    requires forall a :: a in s ==> f(a) >= 0
    ensures SumOver(s, f) >= 0
    decreases |s|
  {
    if s != {} {
      var a :| a in s;
      SumNonNegative(s - {a}, f);
      SumWithout(s, a, f);
    }
  }

  lemma {:induction false} SumSame(s: set<Hash>, f: Hash -> int, g: Hash -> int)
    requires forall a :: a in s ==> f(a) == g(a)
    ensures SumOver(s, f) == SumOver(s, g)
    decreases |s|
  {
    if s != {} {
      var a :| a in s;
      SumSame(s - {a}, f, g);
      SumWithout(s, a, f);
      SumWithout(s, a, g);
    }
  }

  // A transfer between two accounts that stays within 64 bits keeps the exact total.
  lemma TransferKeepsTotal(l: Ledger, tx: FundsTx)
    requires tx.from in l.accounts && tx.to in l.accounts && tx.from != tx.to
    requires l.accounts[tx.from].balance >= tx.amount && l.accounts[tx.to].balance + tx.amount <= MAX_MONEY
    ensures Total(Transfer(l, tx)) == Total(l)
  {
    hide SumOver, Transfer;
    TransferShape(l, tx);
    var m := Transfer(l, tx);
    var s, f, g := l.accounts.Keys, Balances(l), Balances(m);
    SumWithout(s, tx.from, f); SumWithout(s, tx.from, g);
    SumWithout(s - {tx.from}, tx.to, f); SumWithout(s - {tx.from}, tx.to, g);
    SumSame(s - {tx.from} - {tx.to}, f, g);
  }

  // Making a copy of an untouched account changes nothing.
  lemma CopyKeeps(l: Ledger, addressHash: AddressHash, p: Prep, s: Ledger, h: Hash)
    requires Simulates(l, p, s) && KeyedByAddress(l, addressHash) && h in l.accounts
    ensures var copy := WithCopy(l, addressHash, p.copy, h); Simulates(l, p.(copy := copy), s) && h in copy
  {
    hide Owed, Total;
  }

  // The sender check on the copy covers the check on the state, and the supply covers the receiver check.
  lemma SpendAccepted(l: Ledger, closed: set<Hash>, p: Prep, s: Ledger, tx: FundsTx)
    requires Simulates(l, p, s) && Ordinary(l, closed, tx) && Total(l) <= MAX_MONEY
    requires tx.from in p.copy && tx.to in p.copy
    requires tx.amount + tx.fee <= p.copy[tx.from].balance && tx.txCnt == p.copy[tx.from].txCnt
    ensures FundsStep(s, closed, tx, false) == Done(Transfer(s, tx))
    ensures Simulates(l, p.(copy := Spend(p.copy, tx), admitted := p.admitted + [tx]), Transfer(s, tx))
  {
    hide Total, Owed, Transfer, Spend, FundsStep, SameStaking;
    SpendPasses(l, closed, p, s, tx);
    TransferKeepsTotal(s, tx);
    var q, t := p.(copy := Spend(p.copy, tx), admitted := p.admitted + [tx]), Transfer(s, tx);
    TransferShape(s, tx);
    SpendShape(p.copy, tx);
    forall a | a in l.accounts ensures Agrees(l, q, t, a) {
      SpendAgrees(l, p, s, tx, a);
    }
    assert SameStaking(l, t) by { StakingSame(l, s, t); }
  }

  lemma StakingSame(l: Ledger, s: Ledger, t: Ledger)
    requires SameStaking(l, s) && SameStaking(s, t)
    ensures SameStaking(l, t)
  {
  }

  lemma SpendPasses(l: Ledger, closed: set<Hash>, p: Prep, s: Ledger, tx: FundsTx)
    requires Simulates(l, p, s) && Ordinary(l, closed, tx) && Total(l) <= MAX_MONEY
    requires tx.from in p.copy && tx.to in p.copy
    requires tx.amount + tx.fee <= p.copy[tx.from].balance && tx.txCnt == p.copy[tx.from].txCnt
    ensures FundsStep(s, closed, tx, false) == Done(Transfer(s, tx))
    ensures tx.amount <= s.accounts[tx.from].balance && s.accounts[tx.to].balance + tx.amount <= MAX_MONEY
    ensures p.copy[tx.to].balance + tx.amount <= MAX_MONEY
  {
    hide Total, Owed, Transfer, Spend;
    assert Agrees(l, p, s, tx.from) && Agrees(l, p, s, tx.to);
    OwedNonNegative(p.admitted, tx.from);
    OwedNonNegative(p.admitted, tx.to);
    TwoWithinTotal(s, tx.from, tx.to);
  }

  lemma SpendAgrees(l: Ledger, p: Prep, s: Ledger, tx: FundsTx, a: Hash)
    requires a in l.accounts && a in s.accounts && Agrees(l, p, s, a)
    requires tx.from in p.copy && tx.to in p.copy && tx.from in s.accounts && tx.to in s.accounts && tx.from != tx.to
    requires tx.amount + tx.fee <= p.copy[tx.from].balance && p.copy[tx.to].balance + tx.amount <= MAX_MONEY
    requires tx.amount <= s.accounts[tx.from].balance && s.accounts[tx.to].balance + tx.amount <= MAX_MONEY
    ensures Agrees(l, p.(copy := Spend(p.copy, tx), admitted := p.admitted + [tx]), Transfer(s, tx), a)
  {
    hide Owed, Transfer, Spend;
    TransferShape(s, tx);
    SpendShape(p.copy, tx);
    OwedSnoc(p.admitted, tx, a);
  }

  lemma TransferShape(s: Ledger, tx: FundsTx)
    requires tx.from in s.accounts && tx.to in s.accounts && tx.from != tx.to
    requires tx.amount <= s.accounts[tx.from].balance && s.accounts[tx.to].balance + tx.amount <= MAX_MONEY
    ensures var t := Transfer(s, tx);
      && t.rootKeys == s.rootKeys && t.accounts.Keys == s.accounts.Keys && SameStaking(s, t)
      && (forall a :: a in s.accounts && a != tx.from && a != tx.to ==> t.accounts[a] == s.accounts[a])
      && t.accounts[tx.to] == s.accounts[tx.to].(balance := s.accounts[tx.to].balance + tx.amount)
      && t.accounts[tx.from]
           == s.accounts[tx.from].(txCnt := Wrap32(s.accounts[tx.from].txCnt + 1),
                                   balance := s.accounts[tx.from].balance - tx.amount)
  {
  }

  lemma SpendShape(copy: Copy, tx: FundsTx)
    requires tx.from in copy && tx.to in copy && tx.from != tx.to
    requires tx.amount + tx.fee <= copy[tx.from].balance && copy[tx.to].balance + tx.amount <= MAX_MONEY
    ensures var c := Spend(copy, tx);
      && c.Keys == copy.Keys && (forall a :: a in copy && a != tx.from && a != tx.to ==> c[a] == copy[a])
      && c[tx.to] == copy[tx.to].(balance := copy[tx.to].balance + tx.amount)
      && c[tx.from]
        == copy[tx.from].(txCnt := Wrap32(copy[tx.from].txCnt + 1),
                          balance := copy[tx.from].balance - (tx.amount + tx.fee))
  {
  }

  lemma AddSimulates(l: Ledger, closed: set<Hash>, addressHash: AddressHash, p: Prep, s: Ledger, tx: FundsTx)
    requires Simulates(l, p, s) && KeyedByAddress(l, addressHash) && Ordinary(l, closed, tx) && Total(l) <= MAX_MONEY
    ensures var added := Add(l, closed, addressHash, p, tx);
      && added.status != Crash
      && ((added.prep.admitted == p.admitted && Simulates(l, added.prep, s))
          || (added.prep.admitted == p.admitted + [tx]
              && FundsStep(s, closed, tx, false).Done?
              && Simulates(l, added.prep, FundsStep(s, closed, tx, false).ledger)))
  {
    hide Simulates, FundsStep, Total, Spend, KeyedByAddress;
    assert p.copy.Keys <= l.accounts.Keys by { CopiesExist(l, p, s); }
    if tx.from in l.accounts {
      CopyKeeps(l, addressHash, p, s, tx.from);
      var p1 := p.(copy := WithCopy(l, addressHash, p.copy, tx.from));
      CopiesExist(l, p1, s);
      OnlyCopy(l, p, p1, s, p1.invalid[tx.hash := tx], p1.open);
      if tx.to in l.accounts {
        CopyKeeps(l, addressHash, p1, s, tx.to);
        var p2 := p1.(copy := WithCopy(l, addressHash, p1.copy, tx.to));
        OnlyCopy(l, p, p2, s, p2.invalid[tx.hash := tx], p2.open);
        OnlyCopy(l, p, p2, s, p2.invalid - {tx.hash}, p2.open - {tx.hash});
        assert tx.from in p2.copy && tx.to in p2.copy;
        if CheckAndAdd(l, closed, p2, tx).prep.admitted != p2.admitted {
          SpendAccepted(l, closed, p2, s, tx);
        }
      }
    } else {
      OnlyCopy(l, p, p, s, p.invalid[tx.hash := tx], p.open);
    }
  }

  lemma CopiesExist(l: Ledger, p: Prep, s: Ledger)
    requires Simulates(l, p, s)
    ensures p.copy.Keys <= l.accounts.Keys
  {
  }

  // The pools play no part in the simulation.
  lemma OnlyCopy(l: Ledger, p: Prep, q: Prep, s: Ledger, invalid: map<Hash, FundsTx>, open: map<Hash, FundsTx>)
    requires Simulates(l, q, s)
    ensures Simulates(l, q.(invalid := invalid), s) && Simulates(l, q.(invalid := invalid, open := open), s)
  {
  }

  // -------------------- the simulation theorem --------------------

  lemma FreshSimulates(l: Ledger, open: map<Hash, FundsTx>, invalid: map<Hash, FundsTx>)
    ensures Simulates(l, Prep(map[], [], open, invalid), l)
  {
    forall a ensures Owed([], a) == 0 { assert Pending([]) == []; }
  }

  // Whatever ordinary transactions are offered to a fresh block, the validator accepts the admitted ones in their
  // order, and its state then holds the copy's balances plus the pending fees.
  lemma {:induction false} AdmittedIsAccepted(l: Ledger, closed: set<Hash>, addressHash: AddressHash,
                                              open: map<Hash, FundsTx>, invalid: map<Hash, FundsTx>, txs: seq<FundsTx>)
    requires KeyedByAddress(l, addressHash) && AllOrdinary(l, closed, txs) && Total(l) <= MAX_MONEY
    ensures var added := AddAll(l, closed, addressHash, Prep(map[], [], open, invalid), txs);
      && added.status != Crash
      && FundsStateChange(l, closed, added.prep.admitted, false).Done?
      && Simulates(l, added.prep, FundsStateChange(l, closed, added.prep.admitted, false).ledger)
      && AllOrdinary(l, closed, added.prep.admitted)
  {
    hide Simulates, Add, FundsStep, Total, KeyedByAddress, Ordinary;
    if txs == [] {
      FreshSimulates(l, open, invalid);
    } else {
      var rest, tx := txs[..|txs| - 1], txs[|txs| - 1];
      AdmittedIsAccepted(l, closed, addressHash, open, invalid, rest);
      var before := AddAll(l, closed, addressHash, Prep(map[], [], open, invalid), rest).prep;
      var s := FundsStateChange(l, closed, before.admitted, false).ledger;
      AddSimulates(l, closed, addressHash, before, s, tx);
      assert (before.admitted + [tx])[..|before.admitted|] == before.admitted;
    }
  }

  // -------------------- fees --------------------

  ghost function FeeSum(txs: seq<FundsTx>): int {
    if txs == [] then 0 else FeeSum(txs[..|txs| - 1]) + txs[|txs| - 1].fee
  }

  lemma {:induction false} PendingAmounts(txs: seq<FundsTx>)
    ensures Amounts(Pending(txs)) == FeeSum(txs)
  {
    if txs == [] {
      assert Pending(txs) == [];
    } else {
      PendingAmounts(txs[..|txs| - 1]);
      assert Pending(txs)[..|txs| - 1] == Pending(txs[..|txs| - 1]);
    }
  }

  lemma FeeMovesSnoc(miner: Hash, txs: seq<FundsTx>)
    requires txs != []
    ensures var rest, tx := txs[..|txs| - 1], txs[|txs| - 1];
      FeeMoves(miner, FundsFees(txs))
        == FeeMoves(miner, FundsFees(rest)) + ([Move(miner, tx.fee)] + [Move(tx.from, 0 - tx.fee)])
  {
    assert FundsFees(txs)[..|txs| - 1] == FundsFees(txs[..|txs| - 1]);
  }

  lemma NothingOwed(miner: Hash, a: Hash)
    ensures Net(FeeMoves(miner, FundsFees([])), a) == 0 && Owed([], a) == 0
  {
    assert Pending([]) == [] && FundsFees([]) == [];
  }

  lemma {:induction false} FeesMovePending(miner: Hash, txs: seq<FundsTx>, a: Hash)
    ensures Net(FeeMoves(miner, FundsFees(txs)), a) == (if a == miner then FeeSum(txs) else 0) - Owed(txs, a)
  {
    hide Owed, Net, FeeMoves, FundsFees;
    if txs == [] {
      NothingOwed(miner, a);
    } else {
      var rest, tx := txs[..|txs| - 1], txs[|txs| - 1];
      FeesMovePending(miner, rest, a);
      FeeMovesSnoc(miner, txs);
      assert rest + [tx] == txs;
      OwedSnoc(rest, tx, a);
      NetConcat(FeeMoves(miner, FundsFees(rest)), [Move(miner, tx.fee)] + [Move(tx.from, 0 - tx.fee)], a);
      TwoMovesNet(Move(miner, tx.fee), Move(tx.from, 0 - tx.fee), a);
    }
  }

  ghost function CopyOr(l: Ledger, copy: Copy, a: Hash): Account
    requires a in l.accounts
  {
    if a in copy then copy[a] else l.accounts[a]
  }

  // The miner's balance in the copy and all pending fees are within the supply.
  lemma FeesWithinSupply(l: Ledger, p: Prep, s: Ledger, miner: Hash)
    requires Simulates(l, p, s) && miner in l.accounts
    requires MovesWithin(Pending(p.admitted), l.accounts.Keys)
    ensures CopyOr(l, p.copy, miner).balance + FeeSum(p.admitted) <= Total(l)
  {
    hide Owed;
    var keys := l.accounts.Keys;
    var kept := (a: Hash) => Balance(s, a) - Net(Pending(p.admitted), a);
    NetSums(keys, Pending(p.admitted));
    SumAdds(keys, kept, Nets(Pending(p.admitted)), Balances(s));
    PendingAmounts(p.admitted);
    SumWithout(keys, miner, kept);
    forall a | a in keys ensures kept(a) == CopyOr(l, p.copy, a).balance {
      assert Agrees(l, p, s, a);
      assert Owed(p.admitted, a) == Net(Pending(p.admitted), a) by { OwedIs(p.admitted, a); }
    }
    SumNonNegative(keys - {miner}, kept);
  }

  lemma OwedIs(txs: seq<FundsTx>, a: Hash)
    ensures Owed(txs, a) == Net(Pending(txs), a)
  {
  }

  // The state after the fees of the admitted transactions: the copy itself, and for the miner all fees on top.
  ghost predicate Settled(l: Ledger, p: Prep, miner: Hash, n: Ledger) {
    && n.rootKeys == l.rootKeys && n.accounts.Keys == l.accounts.Keys && p.copy.Keys <= l.accounts.Keys
    && forall a :: a in l.accounts ==> SettledAt(l, p, miner, n, a)
  }

  ghost predicate SettledAt(l: Ledger, p: Prep, miner: Hash, n: Ledger, a: Hash)
    requires a in l.accounts && a in n.accounts
  {
    && n.accounts[a] == CopyOr(l, p.copy, a).(balance := n.accounts[a].balance)
    && n.accounts[a].balance == CopyOr(l, p.copy, a).balance + if a == miner then FeeSum(p.admitted) else 0
  }

  // Collecting the fees of what a producer admitted succeeds and leaves exactly the producer's copy, plus the miner's
  // fees; nothing wraps.
  lemma FeesSettle(l: Ledger, p: Prep, s: Ledger, miner: Hash)
    requires Simulates(l, p, s) && Total(l) <= MAX_MONEY && miner in l.accounts
    requires FundsAccountsExist(s, p.admitted)
    ensures CollectTxFees(s, miner, FundsFees(p.admitted)).Done?
    ensures Settled(l, p, miner, CollectTxFees(s, miner, FundsFees(p.admitted)).ledger)
  {
    hide Owed, Total, CollectFees, Moved, FeeMoves, Wrap64, Wrap32;
    var fees := FundsFees(p.admitted);
    AllCollected(s, miner, p.admitted);
    FeesEffect(s, miner, fees);
    FeesWithinSupply(l, p, s, miner);
    var n := CollectTxFees(s, miner, fees).ledger;
    forall a | a in l.accounts ensures a in n.accounts && SettledAt(l, p, miner, n, a) {
      SettledOne(l, p, s, miner, n, a);
    }
    assert n.rootKeys == s.rootKeys
      && n.accounts.Keys == s.accounts.Keys by { MovedFrame(s, n, FeeMoves(miner, fees)); }
  }

  lemma MovedFrame(s: Ledger, n: Ledger, moves: seq<Move>)
    requires Moved(s, n, moves, [])
    ensures n.rootKeys == s.rootKeys && n.accounts.Keys == s.accounts.Keys
  {
  }

  lemma SettledOne(l: Ledger, p: Prep, s: Ledger, miner: Hash, n: Ledger, a: Hash)
    requires Simulates(l, p, s) && a in l.accounts && miner in l.accounts
    requires Moved(s, n, FeeMoves(miner, FundsFees(p.admitted)), []) && SameStaking(s, n)
    requires CopyOr(l, p.copy, miner).balance + FeeSum(p.admitted) <= Total(l) <= MAX_MONEY
    ensures a in n.accounts && SettledAt(l, p, miner, n, a)
  {
    hide Owed, Total, FeeMoves, Net, FeeSum, Moved, Simulates, Wrap64, Wrap32;
    AgreesAt(l, p, s, a);
    MovedAt(s, n, FeeMoves(miner, FundsFees(p.admitted)), a);
    FeesMovePending(miner, p.admitted, a);
    FeeSumNonNegative(p.admitted);
    var x := CopyOr(l, p.copy, a).balance + if a == miner then FeeSum(p.admitted) else 0;
    assert s.accounts[a].balance == CopyOr(l, p.copy, a).balance + Owed(p.admitted, a);
    WrapWithin(x);
  }

  lemma AgreesAt(l: Ledger, p: Prep, s: Ledger, a: Hash)
    requires Simulates(l, p, s) && a in l.accounts
    ensures a in s.accounts && Agrees(l, p, s, a)
  {
  }

  lemma MovedAt(s: Ledger, n: Ledger, moves: seq<Move>, a: Hash)
    requires Moved(s, n, moves, []) && SameStaking(s, n) && a in s.accounts
    ensures a in n.accounts && n.accounts[a] == s.accounts[a].(balance := n.accounts[a].balance)
    ensures n.accounts[a].balance == Wrap64(s.accounts[a].balance + Net(moves, a))
  {
    WrapSame(s.accounts[a].balance, s.accounts[a].txCnt);
    assert Net([], a) == 0 by { NetEmpty(a); }
  }

  lemma WrapWithin(x: int)
    requires 0 <= x < TWO_64
    ensures Wrap64(x) == x
  {
  }

  lemma NetEmpty(a: Hash)
    ensures Net([], a) == 0
  {
  }

  lemma {:induction false} FeeSumNonNegative(txs: seq<FundsTx>)
    ensures FeeSum(txs) >= 0
  {
    if txs != [] {
      FeeSumNonNegative(txs[..|txs| - 1]);
    }
  }

  lemma {:induction false} AllCollected(s: Ledger, miner: Hash, txs: seq<FundsTx>)
    requires miner in s.accounts && FundsAccountsExist(s, txs)
    ensures CollectFees(s, miner, FundsFees(txs)).Done?
  {
    if txs != [] {
      var rest := txs[..|txs| - 1];
      assert FundsFees(txs)[..|txs| - 1] == FundsFees(rest);
      assert FundsAccountsExist(s, rest);
      AllCollected(s, miner, rest);
    }
  }

  lemma {:induction false} OwedPrefix(txs: seq<FundsTx>, i: nat, a: Hash)
    requires i <= |txs|
    ensures 0 <= Owed(txs, a) - Owed(txs[..i], a) <= FeeSum(txs) - FeeSum(txs[..i])
  {
    if i == |txs| {
      assert txs[..i] == txs;
    } else {
      var rest, tx := txs[..|txs| - 1], txs[|txs| - 1];
      OwedPrefix(rest, i, a);
      assert rest[..i] == txs[..i] && rest + [tx] == txs;
      OwedSnoc(rest, tx, a);
    }
  }

  // While those fees are being collected no balance wraps: after every prefix each account holds exactly what it held,
  // less the fees it has paid, plus, for the miner, all fees so far.
  lemma FeesNeverWrap(l: Ledger, p: Prep, s: Ledger, miner: Hash, i: nat, a: Hash)
    requires Simulates(l, p, s) && Total(l) <= MAX_MONEY && miner in l.accounts && a in l.accounts && i <= |p.admitted|
    requires FundsAccountsExist(s, p.admitted)
    ensures var o := CollectTxFees(s, miner, FundsFees(p.admitted[..i]));
      && o.Done? && a in o.ledger.accounts
      && o.ledger.accounts[a].balance
         == s.accounts[a].balance - Owed(p.admitted[..i], a) + (if a == miner then FeeSum(p.admitted[..i]) else 0)
  {
    hide Owed, Total, CollectFees, Moved, FeeMoves, Wrap64, Wrap32, Simulates, FeeSum;
    var paid := p.admitted[..i];
    AgreesAt(l, p, s, miner);
    AgreesAt(l, p, s, a);
    AllCollected(s, miner, paid);
    FeesEffect(s, miner, FundsFees(paid));
    MovedAt(s, CollectTxFees(s, miner, FundsFees(paid)).ledger, FeeMoves(miner, FundsFees(paid)), a);
    FeesMovePending(miner, paid, a);
    SimulatedKeys(l, p, s);
    FeesWithinSupply(l, p, s, miner);
    OwedNonNegative(paid, a);
    OwedPrefix(p.admitted, i, a);
    FeeSumNonNegative(paid);
    WrapWithin(s.accounts[a].balance - Owed(paid, a) + if a == miner then FeeSum(paid) else 0);
  }

  // Producer and validator agree: the admitted transactions are accepted in order and their fees collected, after which
  // every account but the miner's is exactly the producer's copy, and the miner's has all the fees on top.
  lemma ProducerSimulation(l: Ledger, closed: set<Hash>, addressHash: AddressHash, open: map<Hash, FundsTx>,
                           invalid: map<Hash, FundsTx>, txs: seq<FundsTx>, miner: Hash)
    requires KeyedByAddress(l, addressHash) && AllOrdinary(l, closed, txs) && Total(l) <= MAX_MONEY
      && miner in l.accounts
    ensures var p := AddAll(l, closed, addressHash, Prep(map[], [], open, invalid), txs).prep;
      && FundsStateChange(l, closed, p.admitted, false).Done?
      && var s := FundsStateChange(l, closed, p.admitted, false).ledger;
         CollectTxFees(s, miner, FundsFees(p.admitted)).Done?
         && Settled(l, p, miner, CollectTxFees(s, miner, FundsFees(p.admitted)).ledger)
  {
    hide AddAll, FundsStateChange, CollectTxFees, Simulates, Settled, Total, KeyedByAddress;
    AdmittedIsAccepted(l, closed, addressHash, open, invalid, txs);
    var p := AddAll(l, closed, addressHash, Prep(map[], [], open, invalid), txs).prep;
    var s := FundsStateChange(l, closed, p.admitted, false).ledger;
    FundsEffect(l, closed, p.admitted, false);
    assert FundsAccountsExist(s, p.admitted) by { SimulatedKeys(l, p, s); }
    FeesSettle(l, p, s, miner);
  }

  lemma SimulatedKeys(l: Ledger, p: Prep, s: Ledger)
    requires Simulates(l, p, s)
    ensures s.accounts.Keys == l.accounts.Keys
  {
  }
}
