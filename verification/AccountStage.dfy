/** Creating accounts and taking them away again: exactly which account transactions roll back. */
module AccountStage {
  import opened Words
  import opened Protocol
  import opened Ledger

  // The accounts a slice creates: every header but 2 creates one.
  ghost function Created(txs: seq<AccTx>): set<Hash> {
    set i | 0 <= i < |txs| && txs[i].header != 2 :: txs[i].account
  }

  ghost predicate HeadersRollBack(txs: seq<AccTx>) {
    forall i :: 0 <= i < |txs| ==> txs[i].header == 0 || txs[i].header == 1
  }

  lemma {:induction false} AccEffect(l: Ledger, txs: seq<AccTx>)
    requires AccStateChange(l, txs).Done?
    ensures var m := AccStateChange(l, txs).ledger;
      && m.accounts.Keys == l.accounts.Keys + Created(txs)
      && (forall a :: a in l.accounts ==> m.accounts[a] == l.accounts[a])
      && (forall a :: a in Created(txs) ==> m.accounts[a].balance == 0)
      && (l.Valid() ==> m.Valid())
    ensures l.accounts.Keys !! Created(txs)
    ensures forall i, j :: 0 <= i < j < |txs| && txs[i].header != 2 && txs[j].header != 2 ==>
      txs[i].account != txs[j].account
  {
    if txs != [] {
      var n := |txs| - 1;
      AccEffect(l, txs[..n]);
      CreatedSnoc(txs);
      DistinctSnoc(txs);
    }
  }

  lemma CreatedSnoc(txs: seq<AccTx>)
    requires txs != []
    ensures var n := |txs| - 1; Created(txs) == Created(txs[..n]) + if txs[n].header != 2 then {txs[n].account} else {}
  {
  }

  lemma DistinctSnoc(txs: seq<AccTx>)
    requires txs != []
    requires var n := |txs| - 1;
      && (txs[n].header != 2 ==> txs[n].account !in Created(txs[..n]))
      && forall i, j :: 0 <= i < j < n && txs[i].header != 2 && txs[j].header != 2 ==>
        txs[..n][i].account != txs[..n][j].account
    ensures forall i, j :: 0 <= i < j < |txs| && txs[i].header != 2 && txs[j].header != 2 ==>
      txs[i].account != txs[j].account
  {
    var n := |txs| - 1;
    forall i, j | 0 <= i < j < |txs| && txs[i].header != 2 && txs[j].header != 2
      ensures txs[i].account != txs[j].account {
      assert txs[..n][i] == txs[i];
      if j == n {
        assert txs[..n][i].account in Created(txs[..n]);
      }
    }
  }

  // The root keys after the slice, when every header is 0 or 1.
  ghost function NewRoots(txs: seq<AccTx>): set<Hash> {
    set i | 0 <= i < |txs| && txs[i].header == 1 :: txs[i].account
  }

  lemma {:induction false} AccRoots(l: Ledger, txs: seq<AccTx>)
    requires AccStateChange(l, txs).Done? && HeadersRollBack(txs)
    ensures AccStateChange(l, txs).ledger.rootKeys == l.rootKeys + NewRoots(txs)
  {
    if txs != [] {
      var n := |txs| - 1;
      AccRoots(l, txs[..n]);
      assert NewRoots(txs) == NewRoots(txs[..n]) + if txs[n].header == 1 then {txs[n].account} else {};
    }
  }

  // Taking away distinct accounts that are all there, in the order of the slice.
  lemma {:induction false} AccRollbackEffect(n: Ledger, txs: seq<AccTx>)
    requires HeadersRollBack(txs) && Created(txs) <= n.accounts.Keys
    requires forall i, j :: 0 <= i < j < |txs| ==> txs[i].account != txs[j].account
    ensures AccStateChangeRollback(n, txs) == Done(Ledger(n.accounts - Created(txs), n.rootKeys - NewRoots(txs)))
  {
    if txs == [] {
      assert n.accounts - Created(txs) == n.accounts && n.rootKeys - NewRoots(txs) == n.rootKeys;
    } else {
      var k := |txs| - 1;
      var rest, tx := txs[..k], txs[k];
      assert Created(txs) == Created(rest) + {tx.account};
      assert NewRoots(txs) == NewRoots(rest) + if tx.header == 1 then {tx.account} else {};
      forall i, j | 0 <= i < j < |rest| ensures rest[i].account != rest[j].account {
        assert txs[i].account != txs[j].account;
      }
      AccRollbackEffect(n, rest);
      assert tx.account !in Created(rest);
      assert (n.accounts - Created(rest)) - {tx.account} == n.accounts - Created(txs);
      assert n.rootKeys - NewRoots(rest) - (if tx.header == 1 then {tx.account} else {}) == n.rootKeys - NewRoots(txs);
    }
  }

  // Rollback never adds an account, and leaves a header-2 account out of the state but among the root keys.
  lemma {:induction false} RolledBackHeader2(n: Ledger, txs: seq<AccTx>, k: nat)
    requires k < |txs| && txs[k].header == 2
    requires AccStateChangeRollback(n, txs).Done?
    ensures var r := AccStateChangeRollback(n, txs).ledger;
      txs[k].account !in r.accounts && txs[k].account in r.rootKeys
    ensures AccStateChangeRollback(n, txs).ledger.accounts.Keys <= n.accounts.Keys
  {
    RollbackShrinks(n, txs[..|txs| - 1]);
    if k < |txs| - 1 {
      RolledBackHeader2(n, txs[..|txs| - 1], k);
    }
  }

  lemma {:induction false} RollbackShrinks(n: Ledger, txs: seq<AccTx>)
    requires AccStateChangeRollback(n, txs).Done?
    ensures AccStateChangeRollback(n, txs).ledger.accounts.Keys <= n.accounts.Keys
  {
    if txs != [] {
      RollbackShrinks(n, txs[..|txs| - 1]);
    }
  }

  // An account no rolled-back transaction names stays.
  lemma {:induction false} UnnamedStays(n: Ledger, txs: seq<AccTx>, a: Hash)
    requires AccStateChangeRollback(n, txs).Done? && a in n.accounts
    requires forall i :: 0 <= i < |txs| && txs[i].header <= 2 ==> txs[i].account != a
    ensures a in AccStateChangeRollback(n, txs).ledger.accounts
  {
    if txs != [] {
      UnnamedStays(n, txs[..|txs| - 1], a);
    }
  }

  // The account stage rolls back (same accounts, same root keys) exactly when every header is 0 or 1.
  // `n` is the state just before this last stage of the rollback: by then the other stages have
  // been undone, so it holds the same accounts and root keys as right after the forward stage.
  lemma AccStageRollsBack(l: Ledger, txs: seq<AccTx>, n: Ledger)
    requires l.Valid() && AccStateChange(l, txs).Done?
    requires n.accounts.Keys == AccStateChange(l, txs).ledger.accounts.Keys
      && n.rootKeys == AccStateChange(l, txs).ledger.rootKeys
    ensures HeadersRollBack(txs) ==>
      AccStateChangeRollback(n, txs)
        == Done(Ledger(map a | a in l.accounts && a in n.accounts :: n.accounts[a], l.rootKeys))
    ensures !HeadersRollBack(txs) ==>
      var o := AccStateChangeRollback(n, txs); o.Done? ==>
        o.ledger.accounts.Keys != l.accounts.Keys || o.ledger.rootKeys != l.rootKeys
  {
    AccEffect(l, txs);
    if HeadersRollBack(txs) {
      AccRoots(l, txs);
      AccRollbackEffect(n, txs);
      assert NewRoots(txs) <= Created(txs);
      assert n.accounts - Created(txs) == map a | a in l.accounts && a in n.accounts :: n.accounts[a];
      assert n.rootKeys - NewRoots(txs) == l.rootKeys;
    } else if AccStateChangeRollback(n, txs).Done? {
      OtherHeaderLeaves(l, txs, n);
    }
  }

  // A header other than 0 and 1 leaves its account behind or takes it away.
  lemma OtherHeaderLeaves(l: Ledger, txs: seq<AccTx>, n: Ledger)
    requires AccStateChange(l, txs).Done? && AccStateChangeRollback(n, txs).Done? && !HeadersRollBack(txs)
    requires l.Valid() && n.accounts.Keys == AccStateChange(l, txs).ledger.accounts.Keys
    ensures var r := AccStateChangeRollback(n, txs).ledger;
      r.accounts.Keys != l.accounts.Keys || r.rootKeys != l.rootKeys
  {
    hide AccStateChange, AccStateChangeRollback;
    AccEffect(l, txs);
    var k :| 0 <= k < |txs| && txs[k].header != 0 && txs[k].header != 1;
    if txs[k].header == 2 {
      RolledBackHeader2(n, txs, k);
    } else {
      var a := txs[k].account;
      assert a in Created(txs);
      if j :| 0 <= j < |txs| && txs[j].header <= 2 && txs[j].account == a {
        if txs[j].header == 2 {
          RolledBackHeader2(n, txs, j);
        } else {
          assert false;  // account a would have been created twice
        }
      } else {
        UnnamedStays(n, txs, a);
      }
    }
  }
}
