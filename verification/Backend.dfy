/** The backend's own methods, uninterrupted: each is one solo run of the machine
    in Transactions. */
module Backend {
  import opened Values
  import opened Transactions

  function OneMore(s: State, ok: bool): State {
    if CanAdvance(s, 0) then AdvanceCall(s, 0, ok) else s
  }

  /** The only call goes on to its answer, three library calls away at most; the
      flags say whether the driver succeeds at each. */
  function Solo(s: State, ok0: bool, ok1: bool, ok2: bool): State {
    OneMore(OneMore(OneMore(s, ok0), ok1), ok2)
  }

  function Only(s: State, call: Call): State { s.(calls := [call]) }

  lemma PutOnly(s: State, call: Call)
    requires |s.calls| == 1
    ensures Put(s, 0, call) == Only(s, call)
  {
  }

  /** A solo commit call, as a whole. */
  lemma SoloCommit(s: State, id: nat, commitOk: bool)
    requires s.calls == [CommitStart(id)] && RegistryOk(s)
    ensures Solo(s, true, commitOk, true) ==
              if StrKey(id) !in s.registry then Only(s, CommitAnswer(id, NotFound))
              else if s.txs[id].status == Open && commitOk
              then Only(TryCommit(s, id, true).(registry := s.registry - {StrKey(id)}), CommitAnswer(id, Success))
              else Only(TryCommit(s, id, commitOk), CommitAnswer(id, Failed))
  {
    if StrKey(id) !in s.registry {
      PutOnly(s, CommitAnswer(id, NotFound));
    } else {
      var s1 := Only(s, CommitLoaded(id, id));
      PutOnly(s, CommitLoaded(id, id));
      assert OneMore(s, true) == s1;
      var s2 := TryCommit(s1, id, commitOk);
      if s.txs[id].status == Open && commitOk {
        PutOnly(s2, CommitDone(id, id));
        assert OneMore(s1, commitOk) == Only(s2, CommitDone(id, id));
        PutOnly(Only(s2, CommitDone(id, id)).(registry := s.registry - {StrKey(id)}), CommitAnswer(id, Success));
      } else {
        PutOnly(s2, CommitAnswer(id, Failed));
        assert OneMore(s1, commitOk) == Only(s2, CommitAnswer(id, Failed));
      }
    }
  }

  /** A solo execute call on a registered transaction. */
  lemma SoloExec(s: State, id: nat, stmt: string, runOk: bool, commitOk: bool)
    requires s.calls == [ExecStart(id, stmt)] && RegistryOk(s) && StrKey(id) in s.registry
    ensures Solo(s, true, runOk, commitOk) ==
              if s.txs[id].status == Open && runOk
              then Only(TryCommit(Ran(s, id, stmt), id, commitOk), ExecAnswer(id, stmt, true))
              else Only(s, ExecAnswer(id, stmt, false))
  {
    var s1 := Only(s, ExecLoaded(id, stmt));
    PutOnly(s, ExecLoaded(id, stmt));
    assert OneMore(s, true) == s1;
    if s.txs[id].status == Open && runOk {
      PutOnly(Ran(s1, id, stmt), ExecRan(id, stmt));
      var s2 := Only(Ran(s, id, stmt), ExecRan(id, stmt));
      assert OneMore(s1, runOk) == s2;
      PutOnly(TryCommit(s2, id, commitOk), ExecAnswer(id, stmt, true));
    } else {
      PutOnly(s1, ExecAnswer(id, stmt, false));
      assert OneMore(s1, runOk) == Only(s, ExecAnswer(id, stmt, false));
    }
  }

  /** The statement has succeeded on the transaction. */
  function Ran(s: State, h: nat, stmt: string): State
    requires h < |s.txs|
  {
    s.(txs := s.txs[h := s.txs[h].(ran := s.txs[h].ran + [stmt])])
  }

  /** A solo execute call without a transaction. */
  lemma SoloImplicit(s: State, stmt: string, beginOk: bool, runOk: bool, commitOk: bool)
    requires s.calls == [ImplicitStart(stmt)]
    ensures Solo(s, beginOk, runOk, commitOk) ==
              if !beginOk then Only(s, ImplicitAnswer(false))
              else Only(TryCommit(BeginTx(Pooled(s, stmt, runOk), false), |s.txs|, commitOk), ImplicitAnswer(runOk))
  {
    var h := |s.txs|;
    if !beginOk {
      PutOnly(s, ImplicitAnswer(false));
    } else {
      var s1 := Only(BeginTx(s, false), ImplicitBegun(h, stmt));
      PutOnly(BeginTx(s, false), ImplicitBegun(h, stmt));
      assert OneMore(s, beginOk) == s1;
      var s2 := Only(BeginTx(Pooled(s, stmt, runOk), false), ImplicitRan(h, runOk));
      PutOnly(Pooled(s1, stmt, runOk), ImplicitRan(h, runOk));
      assert OneMore(s1, runOk) == s2;
      PutOnly(TryCommit(s2, h, commitOk), ImplicitAnswer(runOk));
    }
  }

  /** The statement has taken effect on the pool, if it succeeded. */
  function Pooled(s: State, stmt: string, ok: bool): State {
    if ok then s.(db := s.db + [Published(None, stmt)]) else s
  }

  /** The statements of a transaction have been added to the database, in order. */
  ghost predicate Adds(before: seq<Published>, after: seq<Published>, h: nat, stmts: seq<string>) {
    && |after| == |before| + |stmts| && before <= after
    && forall i :: |before| <= i < |after| ==> after[i] == Published(Some(h), stmts[i - |before|])
  }

  class SqlBackend {
    /** The registry. */
    var transactions: map<Key, nat>
    /** The driver's side: transactions begun so far, and the committed database. */
    var txs: seq<Tx>
    var db: seq<Published>

    constructor ()
      ensures View([]) == INITIAL
    {
      transactions, txs, db := map[], [], [];
    }

    ghost function View(calls: seq<Call>): State
      reads this
    {
      State(txs, transactions, calls, db)
    }

    method LoadTx(key: Key) returns (h: Option<nat>)
      ensures h == if key in transactions then Some(transactions[key]) else None
    {
      h := if key in transactions then Some(transactions[key]) else None;
    }

    method StoreTx(key: Key, h: nat)
      modifies this`transactions
      ensures transactions == old(transactions)[key := h]
    {
      transactions := transactions[key := h];
    }

    method DeleteTx(key: Key)
      modifies this`transactions
      ensures transactions == old(transactions) - {key}
    {
      transactions := transactions - {key};
    }

    /** `tx.Commit()` of database/sql. */
    method Commit(h: nat, driverOk: bool) returns (ok: bool)
      requires h < |txs|
      modifies this`txs, this`db
      ensures View([]) == TryCommit(old(View([])), h, driverOk)
      ensures ok == (old(txs[h].status) == Open && driverOk)
    {
      ok := txs[h].status == Open && driverOk;
      if txs[h].status == Open {
        if driverOk {
          db := db + Publish(h, txs[h].ran);
        }
        txs := txs[h := txs[h].(status := if driverOk then Committed else RolledBack)];
      }
    }

    method CreateTx(beginOk: bool) returns (id: Option<nat>)
      modifies this
      ensures View([CreateAnswer(id)]) == Solo(old(View([CreateStart])), beginOk, true, true)
      ensures if beginOk
              then && id == Some(old(|txs|)) && txs == old(txs) + [Tx(Open, [], true)]
                   && transactions == old(transactions)[StrKey(old(|txs|)) := old(|txs|)]
              else id == None && txs == old(txs) && transactions == old(transactions)
      ensures db == old(db)
    {
      ghost var s0 := View([CreateStart]);
      ghost var s1 := OneMore(s0, beginOk);
      if !beginOk {
        assert s1 == View([CreateAnswer(None)]);
        return None;
      }
      var h := |txs|;
      txs := txs + [Tx(Open, [], true)];
      assert s1 == View([CreateBegun(h)]);
      StoreTx(StrKey(h), h);
      assert OneMore(s1, true) == View([CreateAnswer(Some(h))]);
      return Some(h);
    }

    /** The commit route: 404 exactly for an unknown id, success exactly for an open
        transaction that the driver commits, an error for anything else. */
    method CommitTx(id: nat, commitOk: bool) returns (answer: Answer)
      requires RegistryOk(View([]))
      modifies this
      ensures View([CommitAnswer(id, answer)]) == Solo(old(View([CommitStart(id)])), true, commitOk, true)
      ensures answer == NotFound <==> StrKey(id) !in old(transactions)
      ensures answer == Success <==> StrKey(id) in old(transactions) && old(txs)[id].status == Open && commitOk
      ensures answer == Success <==> StrKey(id) in old(transactions) && StrKey(id) !in transactions
      ensures answer == Success ==>
                && txs == old(txs)[id := old(txs)[id].(status := Committed)]
                && transactions == old(transactions) - {StrKey(id)}
                && Adds(old(db), db, id, old(txs)[id].ran)
      ensures answer != Success ==> db == old(db) && transactions == old(transactions)
    {
      SoloCommit(View([CommitStart(id)]), id, commitOk);
      var tx := LoadTx(StrKey(id));
      if tx.None? { return NotFound; }
      var ok := Commit(tx.value, commitOk);
      if !ok { return Failed; }
      DeleteTx(StrKey(id));
      return Success;
    }

    /** Execution within a transaction, assumed to be registered. */
    method ExecInTransaction(id: nat, stmt: string, runOk: bool, commitOk: bool) returns (ok: bool)
      requires RegistryOk(View([])) && StrKey(id) in transactions
      modifies this
      ensures View([ExecAnswer(id, stmt, ok)]) == Solo(old(View([ExecStart(id, stmt)])), true, runOk, commitOk)
      ensures ok <==> old(txs)[id].status == Open && runOk
      ensures ok ==>
                && |txs| == |old(txs)| && txs[id].ran == old(txs)[id].ran + [stmt]
                && txs[id].status == (if commitOk then Committed else RolledBack)
                && (commitOk ==> Adds(old(db), db, id, txs[id].ran))
      ensures !ok ==> txs == old(txs)
      ensures !ok || !commitOk ==> db == old(db)
      ensures transactions == old(transactions)
    {
      SoloExec(View([ExecStart(id, stmt)]), id, stmt, runOk, commitOk);
      var tx := LoadTx(StrKey(id));
      var h := tx.value;
      if txs[h].status != Open || !runOk { return false; }
      txs := txs[h := txs[h].(ran := txs[h].ran + [stmt])];
      var _ := Commit(h, commitOk);
      return true;
    }

    /** Execution without a transaction: on the pool, inside an empty transaction. */
    method ExecImplicit(stmt: string, beginOk: bool, runOk: bool, commitOk: bool) returns (ok: bool)
      modifies this
      ensures View([ImplicitAnswer(ok)]) == Solo(old(View([ImplicitStart(stmt)])), beginOk, runOk, commitOk)
      ensures ok <==> beginOk && runOk
      ensures transactions == old(transactions)
      ensures db == if ok then old(db) + [Published(None, stmt)] else old(db)
    {
      SoloImplicit(View([ImplicitStart(stmt)]), stmt, beginOk, runOk, commitOk);
      if !beginOk { return false; }
      var h := |txs|;
      txs := txs + [Tx(Open, [], false)];
      if runOk {
        db := db + [Published(None, stmt)];
      }
      ghost var before := db;
      var _ := Commit(h, commitOk);
      assert db == before + [] == before;
      return runOk;
    }
  }
}
