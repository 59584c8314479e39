/** The registry of open transactions (db.go, sqlBackend.go) as a state machine:
    any number of create, commit and execute calls advance one library call at a
    time, in any interleaving, while timeouts strike whenever they like. */
module Transactions {
  import opened Values

  /** Registry keys are interface values, so the text of a UUID and the UUID itself
      are different keys. Handle and UUID of a transaction share one fresh number. */
  datatype Key = StrKey(id: nat) | UuidKey(id: nat)

  datatype Status = Open | Committed | RolledBack

  /** A `*sql.Tx`: its status, the statements that succeeded on it, in order, and
      whether it was begun with a timeout. */
  datatype Tx = Tx(status: Status, ran: seq<string>, timed: bool)

  /** A statement in the committed database, and the transaction that put it there;
      `None` when it ran on the connection pool. */
  datatype Published = Published(tx: Option<nat>, stmt: string)

  datatype Answer = Success | NotFound | Failed

  /** Where a call stands. */
  datatype Call =
    | CreateStart | CreateBegun(h: nat) | CreateAnswer(created: Option<nat>)
    | CommitStart(id: nat) | CommitLoaded(id: nat, h: nat) | CommitDone(id: nat, h: nat)
    | CommitAnswer(id: nat, answer: Answer)
    | ExecStart(id: nat, stmt: string) | ExecLoaded(h: nat, stmt: string) | ExecRan(h: nat, stmt: string)
    | ExecAnswer(h: nat, stmt: string, ok: bool)
    | ImplicitStart(stmt: string) | ImplicitBegun(h: nat, stmt: string) | ImplicitRan(h: nat, ok: bool)
    | ImplicitAnswer(ok: bool)

  datatype State = State(txs: seq<Tx>, registry: map<Key, nat>, calls: seq<Call>, db: seq<Published>)

  const INITIAL := State([], map[], [], [])

  // ----- library primitives -----

  function SetStatus(s: State, h: nat, status: Status): State
    requires h < |s.txs|
  {
    s.(txs := s.txs[h := s.txs[h].(status := status)])
  }

  function Publish(h: nat, stmts: seq<string>): (p: seq<Published>)
    ensures |p| == |stmts|
  {
    seq(|stmts|, i requires 0 <= i < |stmts| => Published(Some(h), stmts[i]))
  }

  /** `tx.Commit()`: refused once the transaction is done; otherwise it is done now,
      with its statements in the database if the driver manages to commit. */
  function TryCommit(s: State, h: nat, ok: bool): State
    requires h < |s.txs|
  {
    if s.txs[h].status != Open then s
    else if ok then SetStatus(s, h, Committed).(db := s.db + Publish(h, s.txs[h].ran))
    else SetStatus(s, h, RolledBack)
  }

  function BeginTx(s: State, timed: bool): State {
    s.(txs := s.txs + [Tx(Open, [], timed)])
  }

  // ----- steps -----

  datatype Step =
    | Arrive(call: Call)
    | Advance(c: nat, ok: bool)     // the next library call of call `c`, and whether the driver succeeds
    | Expire(h: nat)                // the deadline of a timed transaction: it is rolled back
    | Sweep(h: nat)                 // its timer, afterwards: delete the registry entry under the UUID

  predicate IsStart(call: Call) {
    call.CreateStart? || call.CommitStart? || call.ExecStart? || call.ImplicitStart?
  }

  predicate IsAnswer(call: Call) {
    call.CreateAnswer? || call.CommitAnswer? || call.ExecAnswer? || call.ImplicitAnswer?
  }

  function HandleOf(call: Call): Option<nat> {
    match call
    case CreateBegun(h) => Some(h)
    case CommitLoaded(_, h) => Some(h)
    case CommitDone(_, h) => Some(h)
    case ExecLoaded(h, _) => Some(h)
    case ExecRan(h, _) => Some(h)
    case ImplicitBegun(h, _) => Some(h)
    case ImplicitRan(h, _) => Some(h)
    case _ => None
  }

  /** A call can go on. An execute call relies on its transaction being registered. */
  predicate CanAdvance(s: State, c: nat) {
    && c < |s.calls|
    && !IsAnswer(s.calls[c])
    && (s.calls[c].ExecStart? ==> StrKey(s.calls[c].id) in s.registry)
    && (HandleOf(s.calls[c]).Some? ==> HandleOf(s.calls[c]).value < |s.txs|)
  }

  function Put(s: State, c: nat, call: Call): State
    requires c < |s.calls|
  {
    s.(calls := s.calls[c := call])
  }

  function AdvanceCreate(s: State, c: nat, ok: bool): State
    requires CanAdvance(s, c) && (s.calls[c].CreateStart? || s.calls[c].CreateBegun?)
  {
    match s.calls[c]
    case CreateStart =>
      if ok then Put(BeginTx(s, true), c, CreateBegun(|s.txs|)) else Put(s, c, CreateAnswer(None))
    case CreateBegun(h) =>
      Put(s.(registry := s.registry[StrKey(h) := h]), c, CreateAnswer(Some(h)))
  }

  function AdvanceCommit(s: State, c: nat, ok: bool): State
    requires CanAdvance(s, c) && (s.calls[c].CommitStart? || s.calls[c].CommitLoaded? || s.calls[c].CommitDone?)
  {
    match s.calls[c]
    case CommitStart(id) =>
      if StrKey(id) in s.registry then Put(s, c, CommitLoaded(id, s.registry[StrKey(id)]))
      else Put(s, c, CommitAnswer(id, NotFound))
    case CommitLoaded(id, h) =>
      Put(TryCommit(s, h, ok), c,
          if s.txs[h].status == Open && ok then CommitDone(id, h) else CommitAnswer(id, Failed))
    case CommitDone(id, h) =>
      Put(s.(registry := s.registry - {StrKey(id)}), c, CommitAnswer(id, Success))
  }

  /** Execution within a transaction commits it at once and ignores the outcome. */
  function AdvanceExec(s: State, c: nat, ok: bool): State
    requires CanAdvance(s, c) && (s.calls[c].ExecStart? || s.calls[c].ExecLoaded? || s.calls[c].ExecRan?)
  {
    match s.calls[c]
    case ExecStart(id, stmt) => Put(s, c, ExecLoaded(s.registry[StrKey(id)], stmt))
    case ExecLoaded(h, stmt) =>
      if s.txs[h].status == Open && ok
      then Put(s.(txs := s.txs[h := s.txs[h].(ran := s.txs[h].ran + [stmt])]), c, ExecRan(h, stmt))
      else Put(s, c, ExecAnswer(h, stmt, false))
    case ExecRan(h, stmt) => Put(TryCommit(s, h, ok), c, ExecAnswer(h, stmt, true))
  }

  /** Without a transaction the statement runs on the pool; the transaction begun
      around it stays empty and is committed even when the statement failed. */
  function AdvanceImplicit(s: State, c: nat, ok: bool): State
    requires CanAdvance(s, c) && (s.calls[c].ImplicitStart? || s.calls[c].ImplicitBegun? || s.calls[c].ImplicitRan?)
  {
    match s.calls[c]
    case ImplicitStart(stmt) =>
      if ok then Put(BeginTx(s, false), c, ImplicitBegun(|s.txs|, stmt)) else Put(s, c, ImplicitAnswer(false))
    case ImplicitBegun(h, stmt) =>
      Put(if ok then s.(db := s.db + [Published(None, stmt)]) else s, c, ImplicitRan(h, ok))
    case ImplicitRan(h, r) => Put(TryCommit(s, h, ok), c, ImplicitAnswer(r))
  }

  function AdvanceCall(s: State, c: nat, ok: bool): State
    requires CanAdvance(s, c)
  {
    var call := s.calls[c];
    if call.CreateStart? || call.CreateBegun? then AdvanceCreate(s, c, ok)
    else if call.CommitStart? || call.CommitLoaded? || call.CommitDone? then AdvanceCommit(s, c, ok)
    else if call.ExecStart? || call.ExecLoaded? || call.ExecRan? then AdvanceExec(s, c, ok)
    else AdvanceImplicit(s, c, ok)
  }

  predicate Enabled(s: State, step: Step) {
    match step
    case Arrive(call) => IsStart(call)
    case Advance(c, _) => CanAdvance(s, c)
    case Expire(h) => h < |s.txs| && s.txs[h].timed
    case Sweep(h) => h < |s.txs| && s.txs[h].timed
  }

  function Next(s: State, step: Step): State
    requires Enabled(s, step)
  {
    match step
    case Arrive(call) => s.(calls := s.calls + [call])
    case Advance(c, ok) => AdvanceCall(s, c, ok)
    case Expire(h) => if s.txs[h].status == Open then SetStatus(s, h, RolledBack) else s
    case Sweep(h) => if StrKey(h) in s.registry then s.(registry := s.registry - {UuidKey(h)}) else s
  }

  // ----- runs -----

  ghost predicate StepAt(run: seq<State>, steps: seq<Step>, i: nat)
    requires |run| == |steps| + 1 && i < |steps|
  {
    Enabled(run[i], steps[i]) && run[i + 1] == Next(run[i], steps[i])
  }

  /** A run from the empty registry. */
  ghost predicate IsRun(run: seq<State>, steps: seq<Step>) {
    && |run| == |steps| + 1
    && run[0] == INITIAL
    && forall i :: 0 <= i < |steps| ==> StepAt(run, steps, i)
  }

  // ----- the invariant -----

  /** What a transaction has put into the database. */
  function Contribution(db: seq<Published>, h: nat): seq<string> {
    if db == [] then []
    else
      var n := |db| - 1;
      Contribution(db[..n], h) + if db[n].tx == Some(h) then [db[n].stmt] else []
  }

  predicate Succeeding(call: Call, id: nat) {
    call == CommitAnswer(id, Success) || (call.CommitDone? && call.id == id)
  }

  predicate Owns(call: Call, h: nat) {
    (call.CreateBegun? || call.ImplicitBegun? || call.ImplicitRan?) && HandleOf(call) == Some(h)
  }

  ghost predicate RegistryOk(s: State) {
    forall k :: k in s.registry ==> k.StrKey? && s.registry[k] == k.id < |s.txs| && s.txs[k.id].timed
  }

  ghost predicate CallOk(s: State, call: Call) {
    && (HandleOf(call).Some? ==> HandleOf(call).value < |s.txs|)
    && match call
       case CreateBegun(h) => s.txs[h].timed && StrKey(h) !in s.registry
       case CommitLoaded(id, h) => id == h && s.txs[h].timed
       case CommitDone(id, h) => id == h && s.txs[h].status == Committed
       case CommitAnswer(id, answer) =>
         answer == Success ==> id < |s.txs| && s.txs[id].status == Committed && StrKey(id) !in s.registry
       case ExecLoaded(h, stmt) => s.txs[h].timed
       case ExecRan(h, stmt) => stmt in s.txs[h].ran && s.txs[h].timed
       case ExecAnswer(h, stmt, ok) => ok ==> h < |s.txs| && stmt in s.txs[h].ran && s.txs[h].status != Open
       case _ => true
  }

  /** A call that has loaded, or finished with, the transaction of an id. */
  predicate Past(call: Call, id: nat) {
    Succeeding(call, id) || (call.CommitLoaded? && call.id == id)
  }

  ghost predicate Compatible(a: Call, b: Call) {
    && (a.CreateBegun? ==> !Past(b, a.h) && !(b.CreateBegun? && b.h == a.h))
    && (forall id :: Succeeding(a, id) ==> !Succeeding(b, id))
  }

  ghost predicate Owned(s: State, h: nat) {
    StrKey(h) in s.registry || exists c :: 0 <= c < |s.calls| && Owns(s.calls[c], h)
  }

  ghost predicate TxOk(s: State, h: nat)
    requires h < |s.txs|
  {
    && Contribution(s.db, h) == (if s.txs[h].status == Committed then s.txs[h].ran else [])
    && (s.txs[h].status == Open ==> Owned(s, h))
  }

  ghost predicate Inv(s: State) {
    && RegistryOk(s)
    && (forall c :: 0 <= c < |s.calls| ==> CallOk(s, s.calls[c]))
    && (forall c, d :: 0 <= c < |s.calls| && 0 <= d < |s.calls| && c != d ==> Compatible(s.calls[c], s.calls[d]))
    && (forall h :: 0 <= h < |s.txs| ==> TxOk(s, h))
    && (forall p :: p in s.db && p.tx.Some? ==> p.tx.value < |s.txs|)
  }

  // ----- the database -----

  lemma {:induction false} ContributionAppend(a: seq<Published>, b: seq<Published>, h: nat)
    ensures Contribution(a + b, h) == Contribution(a, h) + Contribution(b, h)
  {
    if b == [] {
      assert a + b == a;
    } else {
      var n := |b| - 1;
      assert (a + b)[..|a| + n] == a + b[..n];
      ContributionAppend(a, b[..n], h);
    }
  }

  lemma {:induction false} ContributionOfPublish(h: nat, stmts: seq<string>, g: nat)
    ensures Contribution(Publish(h, stmts), g) == if g == h then stmts else []
  {
    if stmts != [] {
      var n := |stmts| - 1;
      assert Publish(h, stmts)[..n] == Publish(h, stmts[..n]);
      ContributionOfPublish(h, stmts[..n], g);
    }
  }

  lemma {:induction false} NoContribution(db: seq<Published>, h: nat)
    requires forall p :: p in db ==> p.tx != Some(h)
    ensures Contribution(db, h) == []
  {
    if db != [] {
      assert db[|db| - 1] in db;
      NoContribution(db[..|db| - 1], h);
    }
  }

  // ----- the invariant is kept -----

  /** Transactions only progress. */
  ghost predicate Grows(s: State, s': State) {
    && |s.txs| <= |s'.txs|
    && forall h :: 0 <= h < |s.txs| ==> TxGrows(s.txs[h], s'.txs[h])
  }

  ghost predicate TxGrows(t: Tx, t': Tx) {
    && t'.timed == t.timed && t.ran <= t'.ran
    && (t.status != Open ==> t' == t)
  }

  /** The call needs its id to be missing from the registry. */
  predicate NeedsAbsent(call: Call, id: nat) {
    call == CommitAnswer(id, Success) || call == CreateBegun(id)
  }

  lemma CallStaysOk(s: State, s': State, call: Call)
    requires CallOk(s, call) && Grows(s, s')
    requires forall id :: NeedsAbsent(call, id) ==> StrKey(id) !in s'.registry
    ensures CallOk(s', call)
  {
  }

  /** The invariant after call `c` has moved on, from what its move did. */
  lemma MovedOn(s: State, s': State, c: nat, call: Call)
    requires Inv(s) && c < |s.calls| && s'.calls == s.calls[c := call]
    requires Grows(s, s') && RegistryOk(s') && CallOk(s', call)
    requires forall d, id :: 0 <= d < |s.calls| && d != c && NeedsAbsent(s.calls[d], id) ==> StrKey(id) !in s'.registry
    requires forall d :: 0 <= d < |s.calls| && d != c ==> Compatible(call, s.calls[d]) && Compatible(s.calls[d], call)
    requires forall h :: 0 <= h < |s'.txs| ==> TxOk(s', h)
    requires forall p :: p in s'.db && p.tx.Some? ==> p.tx.value < |s'.txs|
    ensures Inv(s')
  {
  }

  /** Owners other than the moving call stay owners. */
  lemma StillOwned(s: State, s': State, c: nat, call: Call, h: nat)
    requires c < |s.calls| && s'.calls == s.calls[c := call]
    requires Owned(s, h)
    requires StrKey(h) in s.registry ==> StrKey(h) in s'.registry
    requires Owns(s.calls[c], h) ==> Owns(call, h) || StrKey(h) in s'.registry
    ensures Owned(s', h)
  {
    if StrKey(h) !in s.registry {
      var d :| 0 <= d < |s.calls| && Owns(s.calls[d], h);
      if d != c {
        assert Owns(s'.calls[d], h);
      } else if StrKey(h) !in s'.registry {
        assert Owns(s'.calls[c], h);
      }
    }
  }

  lemma ArriveTxOk(s: State, call: Call, h: nat)
    requires Inv(s) && IsStart(call) && h < |s.txs|
    ensures TxOk(Next(s, Arrive(call)), h)
  {
    var s' := Next(s, Arrive(call));
    assert TxOk(s, h);
    if s.txs[h].status == Open && StrKey(h) !in s.registry {
      var d :| 0 <= d < |s.calls| && Owns(s.calls[d], h);
      assert Owns(s'.calls[d], h);
    }
  }

  lemma ArriveKeeps(s: State, call: Call)
    requires Inv(s) && IsStart(call)
    ensures Inv(Next(s, Arrive(call)))
  {
    var s' := Next(s, Arrive(call));
    forall d | 0 <= d < |s'.calls| ensures CallOk(s', s'.calls[d]) {
      if d < |s.calls| { CallStaysOk(s, s', s.calls[d]); }
    }
    forall h | 0 <= h < |s'.txs| ensures TxOk(s', h) {
      ArriveTxOk(s, call, h);
    }
  }

  lemma BeginTxOk(s: State, c: nat, timed: bool, call: Call, h: nat)
    requires Inv(s) && CanAdvance(s, c) && IsStart(s.calls[c])
    requires Owns(call, |s.txs|) && h <= |s.txs|
    ensures TxOk(Put(BeginTx(s, timed), c, call), h)
  {
    var s' := Put(BeginTx(s, timed), c, call);
    if h < |s.txs| {
      assert TxOk(s, h);
      if s.txs[h].status == Open { StillOwned(s, s', c, call, h); }
    } else {
      NoContribution(s.db, h);
      assert Owns(s'.calls[c], h);
    }
  }

  lemma BeginCompatible(s: State, c: nat, call: Call, d: nat)
    requires Inv(s) && c < |s.calls| && d < |s.calls| && d != c
    requires Owns(call, |s.txs|)
    ensures Compatible(call, s.calls[d]) && Compatible(s.calls[d], call)
  {
    assert CallOk(s, s.calls[d]);
  }

  lemma BeginKeeps(s: State, c: nat, timed: bool, call: Call)
    requires Inv(s) && CanAdvance(s, c) && IsStart(s.calls[c])
    requires Owns(call, |s.txs|) && (call.CreateBegun? ==> timed)
    ensures Inv(Put(BeginTx(s, timed), c, call))
  {
    var s' := Put(BeginTx(s, timed), c, call);
    assert StrKey(|s.txs|) !in s.registry;
    forall h | 0 <= h < |s'.txs| ensures TxOk(s', h) {
      BeginTxOk(s, c, timed, call, h);
    }
    forall d | 0 <= d < |s.calls| && d != c ensures Compatible(call, s.calls[d]) && Compatible(s.calls[d], call) {
      BeginCompatible(s, c, call, d);
    }
    MovedOn(s, s', c, call);
  }

  /** A call that only changes where it stands. */
  lemma PutKeeps(s: State, c: nat, call: Call)
    requires Inv(s) && CanAdvance(s, c) && CallOk(s, call)
    requires forall h :: Owns(s.calls[c], h) ==> Owns(call, h)
    requires forall d :: 0 <= d < |s.calls| && d != c ==> Compatible(call, s.calls[d]) && Compatible(s.calls[d], call)
    ensures Inv(Put(s, c, call))
  {
    var s' := Put(s, c, call);
    forall h | 0 <= h < |s'.txs| ensures TxOk(s', h) {
      assert TxOk(s, h);
      if s.txs[h].status == Open { StillOwned(s, s', c, call, h); }
    }
    MovedOn(s, s', c, call);
  }

  lemma StoreKeeps(s: State, c: nat)
    requires Inv(s) && CanAdvance(s, c) && s.calls[c].CreateBegun?
    ensures Inv(AdvanceCreate(s, c, true))
  {
    var h0 := s.calls[c].h;
    var s' := AdvanceCreate(s, c, true);
    assert CallOk(s, s.calls[c]);
    forall h | 0 <= h < |s'.txs| ensures TxOk(s', h) {
      assert TxOk(s, h);
      if s.txs[h].status == Open { StillOwned(s, s', c, CreateAnswer(Some(h0)), h); }
    }
    forall d, id | 0 <= d < |s.calls| && d != c && NeedsAbsent(s.calls[d], id) ensures StrKey(id) !in s'.registry {
      assert CallOk(s, s.calls[d]) && Compatible(s.calls[c], s.calls[d]);
    }
    MovedOn(s, s', c, CreateAnswer(Some(h0)));
  }

  lemma DeleteKeeps(s: State, c: nat)
    requires Inv(s) && CanAdvance(s, c) && s.calls[c].CommitDone?
    ensures Inv(AdvanceCommit(s, c, true))
  {
    var id := s.calls[c].id;
    var s' := AdvanceCommit(s, c, true);
    assert CallOk(s, s.calls[c]);
    forall h | 0 <= h < |s'.txs| ensures TxOk(s', h) {
      assert TxOk(s, h);
      if s.txs[h].status == Open { StillOwned(s, s', c, CommitAnswer(id, Success), h); }
    }
    forall d | 0 <= d < |s.calls| && d != c
      ensures Compatible(CommitAnswer(id, Success), s.calls[d]) && Compatible(s.calls[d], CommitAnswer(id, Success))
    {
      assert Compatible(s.calls[c], s.calls[d]) && Compatible(s.calls[d], s.calls[c]);
    }
    MovedOn(s, s', c, CommitAnswer(id, Success));
  }

  /** A transaction ends: everything it ran is in the database, or nothing is. */
  lemma CommitContributes(s: State, h: nat, ok: bool, g: nat)
    requires h < |s.txs| && g < |s.txs| && TxOk(s, g)
    ensures var s' := TryCommit(s, h, ok);
            Contribution(s'.db, g) == if s'.txs[g].status == Committed then s'.txs[g].ran else []
  {
    ContributionAppend(s.db, Publish(h, s.txs[h].ran), g);
    ContributionOfPublish(h, s.txs[h].ran, g);
  }

  lemma CommitKeeps(s: State, c: nat, h: nat, ok: bool, call: Call)
    requires Inv(s) && CanAdvance(s, c) && HandleOf(s.calls[c]) == Some(h) && !s.calls[c].CreateBegun?
    requires CallOk(TryCommit(s, h, ok), call)
    requires forall d :: 0 <= d < |s.calls| && d != c ==> Compatible(call, s.calls[d]) && Compatible(s.calls[d], call)
    ensures Inv(Put(TryCommit(s, h, ok), c, call))
  {
    var s' := Put(TryCommit(s, h, ok), c, call);
    forall g | 0 <= g < |s'.txs| ensures TxOk(s', g) {
      assert TxOk(s, g);
      CommitContributes(s, h, ok, g);
      if s'.txs[g].status == Open {
        assert g != h;
        StillOwned(s, s', c, call, g);
      }
    }
    MovedOn(s, s', c, call);
  }

  lemma RunKeeps(s: State, c: nat)
    requires Inv(s) && CanAdvance(s, c) && s.calls[c].ExecLoaded? && s.txs[s.calls[c].h].status == Open
    ensures Inv(AdvanceExec(s, c, true))
  {
    var h0, stmt := s.calls[c].h, s.calls[c].stmt;
    var s' := AdvanceExec(s, c, true);
    assert CallOk(s, s.calls[c]);
    forall h | 0 <= h < |s'.txs| ensures TxOk(s', h) {
      assert TxOk(s, h);
      if s.txs[h].status == Open { StillOwned(s, s', c, ExecRan(h0, stmt), h); }
    }
    MovedOn(s, s', c, ExecRan(h0, stmt));
  }

  lemma PoolContribution(db: seq<Published>, stmt: string, h: nat)
    ensures Contribution(db + [Published(None, stmt)], h) == Contribution(db, h)
  {
  }

  lemma PoolKeeps(s: State, c: nat, ok: bool)
    requires Inv(s) && CanAdvance(s, c) && s.calls[c].ImplicitBegun?
    ensures Inv(AdvanceImplicit(s, c, ok))
  {
    var h0, stmt := s.calls[c].h, s.calls[c].stmt;
    var call := ImplicitRan(h0, ok);
    var s' := AdvanceImplicit(s, c, ok);
    assert CallOk(s, s.calls[c]);
    assert s'.txs == s.txs && s'.registry == s.registry && s'.calls == s.calls[c := call];
    forall h | 0 <= h < |s'.txs| ensures TxOk(s', h) {
      assert TxOk(s, h);
      PoolContribution(s.db, stmt, h);
      if s.txs[h].status == Open { StillOwned(s, s', c, call, h); }
    }
    CompatibleQuiet(s, c, call);
    MovedOn(s, s', c, call);
  }

  lemma CompatibleQuiet(s: State, c: nat, call: Call)
    requires Inv(s) && c < |s.calls|
    requires !call.CreateBegun?
    requires forall id :: Past(call, id) ==> Past(s.calls[c], id)
    requires forall id :: Succeeding(call, id) ==> Succeeding(s.calls[c], id)
    ensures forall d :: 0 <= d < |s.calls| && d != c ==> Compatible(call, s.calls[d]) && Compatible(s.calls[d], call)
  {
  }

  lemma LoadKeeps(s: State, c: nat)
    requires Inv(s) && CanAdvance(s, c) && (s.calls[c].CommitStart? || s.calls[c].ExecStart?)
    ensures Inv(AdvanceCall(s, c, true)) && AdvanceCall(s, c, false) == AdvanceCall(s, c, true)
  {
    var id := s.calls[c].id;
    var call := AdvanceCall(s, c, true).calls[c];
    forall d | 0 <= d < |s.calls| && d != c
      ensures Compatible(call, s.calls[d]) && Compatible(s.calls[d], call)
    {
      // a call still creating the transaction has not registered it
      assert CallOk(s, s.calls[d]);
    }
    PutKeeps(s, c, call);
  }

  lemma CommitCallKeeps(s: State, c: nat, ok: bool)
    requires Inv(s) && CanAdvance(s, c) && s.calls[c].CommitLoaded?
    ensures Inv(AdvanceCommit(s, c, ok))
  {
    var id, h := s.calls[c].id, s.calls[c].h;
    assert CallOk(s, s.calls[c]);
    if s.txs[h].status == Open && ok {
      forall d | 0 <= d < |s.calls| && d != c
        ensures Compatible(CommitDone(id, h), s.calls[d]) && Compatible(s.calls[d], CommitDone(id, h))
      {
        // no other call has succeeded: the transaction was still open
        assert CallOk(s, s.calls[d]) && Compatible(s.calls[d], s.calls[c]);
      }
      CommitKeeps(s, c, h, ok, CommitDone(id, h));
    } else {
      CompatibleQuiet(s, c, CommitAnswer(id, Failed));
      CommitKeeps(s, c, h, ok, CommitAnswer(id, Failed));
    }
  }

  lemma ExecCallKeeps(s: State, c: nat, ok: bool)
    requires Inv(s) && CanAdvance(s, c) && (s.calls[c].ExecLoaded? || s.calls[c].ExecRan?)
    ensures Inv(AdvanceExec(s, c, ok))
  {
    var h, stmt := s.calls[c].h, s.calls[c].stmt;
    assert CallOk(s, s.calls[c]);
    if s.calls[c].ExecRan? {
      CompatibleQuiet(s, c, ExecAnswer(h, stmt, true));
      CommitKeeps(s, c, h, ok, ExecAnswer(h, stmt, true));
    } else if s.txs[h].status == Open && ok {
      RunKeeps(s, c);
    } else {
      CompatibleQuiet(s, c, ExecAnswer(h, stmt, false));
      PutKeeps(s, c, ExecAnswer(h, stmt, false));
    }
  }

  lemma AdvanceKeeps(s: State, c: nat, ok: bool)
    requires Inv(s) && CanAdvance(s, c)
    ensures Inv(AdvanceCall(s, c, ok))
  {
    match s.calls[c]
    case CreateStart =>
      if ok {
        BeginKeeps(s, c, true, CreateBegun(|s.txs|));
      } else {
        PutKeeps(s, c, CreateAnswer(None));
      }
    case CreateBegun(_) => StoreKeeps(s, c);
    case CommitStart(_) => LoadKeeps(s, c);
    case CommitLoaded(_, _) => CommitCallKeeps(s, c, ok);
    case CommitDone(_, _) => DeleteKeeps(s, c);
    case ExecStart(_, _) => LoadKeeps(s, c);
    case ExecLoaded(_, _) => ExecCallKeeps(s, c, ok);
    case ExecRan(_, _) => ExecCallKeeps(s, c, ok);
    case ImplicitStart(stmt) =>
      if ok {
        BeginKeeps(s, c, false, ImplicitBegun(|s.txs|, stmt));
      } else {
        PutKeeps(s, c, ImplicitAnswer(false));
      }
    case ImplicitBegun(_, _) => PoolKeeps(s, c, ok);
    case ImplicitRan(h, r) =>
      CompatibleQuiet(s, c, ImplicitAnswer(r));
      CommitKeeps(s, c, h, ok, ImplicitAnswer(r));
    case _ =>
  }

  lemma TimerKeeps(s: State, step: Step)
    requires Inv(s) && Enabled(s, step) && (step.Expire? || step.Sweep?)
    ensures Inv(Next(s, step))
    ensures Next(s, step).registry == s.registry
  {
    var s' := Next(s, step);
    if step.Sweep? {
      assert UuidKey(step.h) !in s.registry;
      assert s'.registry == s.registry;
    }
    forall d | 0 <= d < |s'.calls| ensures CallOk(s', s'.calls[d]) {
      CallStaysOk(s, s', s.calls[d]);
    }
    forall h | 0 <= h < |s'.txs| ensures TxOk(s', h) {
      assert TxOk(s, h);
    }
  }

  lemma NextKeeps(s: State, step: Step)
    requires Inv(s) && Enabled(s, step)
    ensures Inv(Next(s, step))
  {
    match step
    case Arrive(call) => ArriveKeeps(s, call);
    case Advance(c, ok) => AdvanceKeeps(s, c, ok);
    case Expire(_) => TimerKeeps(s, step);
    case Sweep(_) => TimerKeeps(s, step);
  }

  /** The invariant holds throughout every run. */
  lemma {:induction false} RunInv(run: seq<State>, steps: seq<Step>, i: nat)
    requires IsRun(run, steps) && i < |run|
    ensures Inv(run[i])
  {
    if i > 0 {
      RunInv(run, steps, i - 1);
      assert StepAt(run, steps, i - 1);
      NextKeeps(run[i - 1], steps[i - 1]);
    }
  }

  // ----- what one step can and cannot do -----

  lemma AdvanceGrows(s: State, c: nat, ok: bool)
    requires CanAdvance(s, c)
    ensures Grows(s, AdvanceCall(s, c, ok))
  {
  }

  lemma NextGrows(s: State, step: Step)
    requires Enabled(s, step)
    ensures Grows(s, Next(s, step))
    ensures |s.calls| <= |Next(s, step).calls|
    ensures forall c :: 0 <= c < |s.calls| && IsAnswer(s.calls[c]) ==> Next(s, step).calls[c] == s.calls[c]
  {
    if step.Advance? {
      AdvanceGrows(s, step.c, step.ok);
      AdvanceOthers(s, step.c, step.ok);
    }
  }

  lemma AdvanceOthers(s: State, c: nat, ok: bool)
    requires CanAdvance(s, c)
    ensures |AdvanceCall(s, c, ok).calls| == |s.calls|
    ensures forall d :: 0 <= d < |s.calls| && d != c ==> AdvanceCall(s, c, ok).calls[d] == s.calls[d]
  {
    assert AdvanceCall(s, c, ok).calls == s.calls[c := AdvanceCall(s, c, ok).calls[c]];
  }

  lemma AdvanceNoNewSuccess(s: State, c: nat, ok: bool, id: nat)
    requires Inv(s) && CanAdvance(s, c)
    requires id < |s.txs| && s.txs[id].status != Open
    requires Succeeding(AdvanceCall(s, c, ok).calls[c], id)
    ensures Succeeding(s.calls[c], id)
  {
    assert CallOk(s, s.calls[c]);
    assert s.calls[c].CommitLoaded? || s.calls[c].CommitDone?;
  }

  lemma NoNewSuccess(run: seq<State>, steps: seq<Step>, i: nat, id: nat, c: nat)
    requires IsRun(run, steps) && i < |steps|
    requires id < |run[i].txs| && run[i].txs[id].status != Open
    requires c < |run[i + 1].calls| && Succeeding(run[i + 1].calls[c], id)
    ensures c < |run[i].calls| && Succeeding(run[i].calls[c], id)
  {
    RunInv(run, steps, i);
    assert StepAt(run, steps, i);
    if steps[i].Advance? {
      AdvanceOthers(run[i], steps[i].c, steps[i].ok);
      if steps[i].c == c {
        AdvanceNoNewSuccess(run[i], c, steps[i].ok, id);
      }
    }
  }

  /** Only a call that has committed the transaction removes it from the registry. */
  lemma LeavesRegistry(run: seq<State>, steps: seq<Step>, i: nat, id: nat)
    requires IsRun(run, steps) && i < |steps|
    requires StrKey(id) in run[i].registry && StrKey(id) !in run[i + 1].registry
    ensures steps[i].Advance? && steps[i].c < |run[i].calls| && Succeeding(run[i].calls[steps[i].c], id)
  {
    RunInv(run, steps, i);
    assert StepAt(run, steps, i);
  }

  // ----- theorems about every run -----

  lemma {:induction false} RunGrows(run: seq<State>, steps: seq<Step>, i: nat, j: nat)
    requires IsRun(run, steps) && i <= j < |run|
    ensures Grows(run[i], run[j])
    ensures |run[i].calls| <= |run[j].calls|
    ensures forall c :: 0 <= c < |run[i].calls| && IsAnswer(run[i].calls[c]) ==> run[j].calls[c] == run[i].calls[c]
  {
    if i < j {
      RunGrows(run, steps, i, j - 1);
      StepGrows(run, steps, j - 1);
      forall h | 0 <= h < |run[i].txs| ensures TxGrows(run[i].txs[h], run[j].txs[h]) {
        assert TxGrows(run[i].txs[h], run[j - 1].txs[h]) && TxGrows(run[j - 1].txs[h], run[j].txs[h]);
      }
    }
  }

  lemma StepGrows(run: seq<State>, steps: seq<Step>, i: nat)
    requires IsRun(run, steps) && i < |steps|
    ensures Grows(run[i], run[i + 1])
    ensures |run[i].calls| <= |run[i + 1].calls|
    ensures forall c :: 0 <= c < |run[i].calls| && IsAnswer(run[i].calls[c]) ==> run[i + 1].calls[c] == run[i].calls[c]
  {
    assert StepAt(run, steps, i);
    NextGrows(run[i], steps[i]);
  }

  /** Step `i` ends transaction `h`. */
  ghost predicate EndsAt(run: seq<State>, steps: seq<Step>, i: nat, h: nat)
    requires IsRun(run, steps) && i < |steps|
  {
    && h < |run[i].txs| <= |run[i + 1].txs|
    && run[i].txs[h].status == Open && run[i + 1].txs[h].status != Open
  }

  /** A transaction ends at most once, and nothing about it changes afterwards. */
  lemma OneTerminalEvent(run: seq<State>, steps: seq<Step>, h: nat, i: nat, j: nat)
    requires IsRun(run, steps) && i < j < |run| && EndsAt(run, steps, i, h)
    ensures h < |run[j].txs| && run[j].txs[h] == run[i + 1].txs[h]
    ensures j < |steps| ==> !EndsAt(run, steps, j, h)
  {
    RunGrows(run, steps, i + 1, j);
    assert TxGrows(run[i + 1].txs[h], run[j].txs[h]);
  }

  /** Every open transaction can be found under its text id, or belongs to a call
      that is still in progress. */
  lemma OpenIsOwned(run: seq<State>, steps: seq<Step>, i: nat, h: nat)
    requires IsRun(run, steps) && i < |run| && h < |run[i].txs| && run[i].txs[h].status == Open
    ensures || (StrKey(h) in run[i].registry && run[i].registry[StrKey(h)] == h)
            || exists c :: 0 <= c < |run[i].calls| && !IsAnswer(run[i].calls[c]) && HandleOf(run[i].calls[c]) == Some(h)
  {
    RunInv(run, steps, i);
    assert TxOk(run[i], h);
    if StrKey(h) !in run[i].registry {
      var c :| 0 <= c < |run[i].calls| && Owns(run[i].calls[c], h);
      assert !IsAnswer(run[i].calls[c]) && HandleOf(run[i].calls[c]) == Some(h);
    }
  }

  /** Among all calls that ever commit one id, at most one succeeds. */
  lemma AtMostOneSuccess(run: seq<State>, steps: seq<Step>, i: nat, id: nat, c: nat, d: nat)
    requires IsRun(run, steps) && i < |run| && c < |run[i].calls| && d < |run[i].calls|
    requires run[i].calls[c] == CommitAnswer(id, Success) && run[i].calls[d] == CommitAnswer(id, Success)
    ensures c == d
  {
    RunInv(run, steps, i);
    if c != d {
      assert Compatible(run[i].calls[c], run[i].calls[d]);
      assert Succeeding(run[i].calls[c], id);
    }
  }

  /** A deadline ends an open transaction: it is rolled back, and nothing else happens. */
  lemma ExpireEnds(run: seq<State>, steps: seq<Step>, i: nat, h: nat)
    requires IsRun(run, steps) && i < |steps| && steps[i] == Expire(h)
    ensures h < |run[i].txs| == |run[i + 1].txs| && run[i + 1].txs[h].status != Open
    ensures run[i].txs[h].status == Open ==> run[i + 1].txs[h] == Tx(RolledBack, run[i].txs[h].ran, run[i].txs[h].timed)
    ensures run[i].txs[h].status != Open ==> run[i + 1].txs[h] == run[i].txs[h]
    ensures forall g :: 0 <= g < |run[i].txs| && g != h ==> run[i + 1].txs[g] == run[i].txs[g]
    ensures run[i + 1].db == run[i].db && run[i + 1].registry == run[i].registry && run[i + 1].calls == run[i].calls
  {
    assert StepAt(run, steps, i);
  }

  /** A call on transaction `h` that commits it or fails to, or that reports success. */
  predicate EndingMove(before: Call, after: Call, h: nat) {
    || (before.CommitLoaded? && before.h == h && (after == CommitDone(h, h) || after == CommitAnswer(h, Failed)))
    || after == CommitAnswer(h, Success)
    || (before.ExecRan? && after == ExecAnswer(h, before.stmt, true))
  }

  /** Step `i` is the end of transaction `h`: its deadline, or such a move of a call. */
  ghost predicate Ending(run: seq<State>, steps: seq<Step>, i: nat, h: nat)
    requires IsRun(run, steps) && i < |steps|
  {
    || steps[i] == Expire(h)
    || (&& steps[i].Advance? && steps[i].c < |run[i].calls| && steps[i].c < |run[i + 1].calls|
        && EndingMove(run[i].calls[steps[i].c], run[i + 1].calls[steps[i].c], h))
  }

  lemma EndingMoveEnds(s: State, c: nat, ok: bool, h: nat)
    requires Inv(s) && CanAdvance(s, c) && EndingMove(s.calls[c], AdvanceCall(s, c, ok).calls[c], h)
    ensures h < |AdvanceCall(s, c, ok).txs| && AdvanceCall(s, c, ok).txs[h].status != Open
  {
    var s' := AdvanceCall(s, c, ok);
    AdvanceKeeps(s, c, ok);
    assert CallOk(s', s'.calls[c]);
    if s.calls[c].CommitLoaded? { assert s'.txs == TryCommit(s, h, ok).txs; }
  }

  /** That it is: the transaction is over, and a commit has published what it ran. */
  lemma EndingEnds(run: seq<State>, steps: seq<Step>, i: nat, h: nat)
    requires IsRun(run, steps) && i < |steps| && Ending(run, steps, i, h)
    ensures h < |run[i + 1].txs| && run[i + 1].txs[h].status != Open
    ensures Contribution(run[i + 1].db, h)
         == if run[i + 1].txs[h].status == Committed then run[i + 1].txs[h].ran else []
  {
    RunInv(run, steps, i);
    RunInv(run, steps, i + 1);
    assert StepAt(run, steps, i);
    if steps[i] == Expire(h) {
      ExpireEnds(run, steps, i, h);
    } else {
      EndingMoveEnds(run[i], steps[i].c, steps[i].ok, h);
    }
    assert TxOk(run[i + 1], h);
  }

  /** The move on which a commit call turns: it succeeds exactly if the transaction is
      open and the driver commits it, and then publishes what it ran; otherwise nothing
      is published. Either way the transaction is over and no other is affected. */
  lemma CommitDecides(run: seq<State>, steps: seq<Step>, i: nat, c: nat, ok: bool, h: nat)
    requires IsRun(run, steps) && i < |steps| && steps[i] == Advance(c, ok)
    requires c < |run[i].calls| && run[i].calls[c] == CommitLoaded(h, h)
    ensures h < |run[i].txs| == |run[i + 1].txs| && c < |run[i + 1].calls|
    ensures run[i + 1].calls[c]
         == if run[i].txs[h].status == Open && ok then CommitDone(h, h) else CommitAnswer(h, Failed)
    ensures run[i].txs[h].status == Open ==>
              && run[i + 1].txs[h] == Tx(if ok then Committed else RolledBack, run[i].txs[h].ran, run[i].txs[h].timed)
              && Contribution(run[i + 1].db, h) == if ok then run[i].txs[h].ran else []
    ensures run[i].txs[h].status != Open || !ok ==> run[i + 1].db == run[i].db
    ensures forall g :: 0 <= g < |run[i].txs| && g != h ==>
              run[i + 1].txs[g] == run[i].txs[g] && Contribution(run[i + 1].db, g) == Contribution(run[i].db, g)
  {
    RunInv(run, steps, i);
    assert StepAt(run, steps, i);
    assert CallOk(run[i], run[i].calls[c]);
    assert run[i + 1].db == TryCommit(run[i], h, ok).db && run[i + 1].txs == TryCommit(run[i], h, ok).txs;
    CommitPublishes(run[i], h, ok);
  }

  lemma CommitPublishes(s: State, h: nat, ok: bool)
    requires h < |s.txs| && TxOk(s, h)
    ensures s.txs[h].status == Open ==> Contribution(TryCommit(s, h, ok).db, h) == if ok then s.txs[h].ran else []
    ensures forall g :: 0 <= g < |s.txs| && g != h ==> Contribution(TryCommit(s, h, ok).db, g) == Contribution(s.db, g)
  {
    forall g | 0 <= g < |s.txs|
      ensures Contribution(s.db + Publish(h, s.txs[h].ran), g)
           == Contribution(s.db, g) + if g == h then s.txs[h].ran else []
    {
      ContributionAppend(s.db, Publish(h, s.txs[h].ran), g);
      ContributionOfPublish(h, s.txs[h].ran, g);
    }
  }

  /** A call that has not been answered can go on, unless it is to execute within a
      transaction that is not registered; and a registered transaction can time out. */
  lemma CanGoOn(run: seq<State>, steps: seq<Step>, i: nat, c: nat, ok: bool, h: nat)
    requires IsRun(run, steps) && i < |run|
    ensures c < |run[i].calls| && !IsAnswer(run[i].calls[c]) ==>
              (Enabled(run[i], Advance(c, ok)) <==>
                 (run[i].calls[c].ExecStart? ==> StrKey(run[i].calls[c].id) in run[i].registry))
    ensures StrKey(h) in run[i].registry ==> Enabled(run[i], Expire(h)) && Enabled(run[i], Sweep(h))
  {
    RunInv(run, steps, i);
    if c < |run[i].calls| { assert CallOk(run[i], run[i].calls[c]); }
  }

  /** The library calls a call has before it, at most. */
  function Remaining(call: Call): nat {
    match call
    case CreateStart => 2
    case CreateBegun(_) => 1
    case CommitStart(_) => 3
    case CommitLoaded(_, _) => 2
    case CommitDone(_, _) => 1
    case ExecStart(_, _) => 3
    case ExecLoaded(_, _) => 2
    case ExecRan(_, _) => 1
    case ImplicitStart(_) => 3
    case ImplicitBegun(_, _) => 2
    case ImplicitRan(_, _) => 1
    case _ => 0
  }

  /** Every call is answered after at most three of its own moves, whatever happens in between. */
  lemma GoesOn(run: seq<State>, steps: seq<Step>, i: nat, c: nat)
    requires IsRun(run, steps) && i < |steps| && c < |run[i].calls|
    ensures c < |run[i + 1].calls| && Remaining(run[i].calls[c]) <= 3
    ensures Remaining(run[i].calls[c]) == 0 <==> IsAnswer(run[i].calls[c])
    ensures if steps[i].Advance? && steps[i].c == c then Remaining(run[i + 1].calls[c]) < Remaining(run[i].calls[c])
            else run[i + 1].calls[c] == run[i].calls[c]
  {
    assert StepAt(run, steps, i);
    if steps[i].Advance? {
      AdvanceOthers(run[i], steps[i].c, steps[i].ok);
      AdvanceRemaining(run[i], steps[i].c, steps[i].ok);
    }
  }

  lemma AdvanceRemaining(s: State, c: nat, ok: bool)
    requires CanAdvance(s, c)
    ensures Remaining(AdvanceCall(s, c, ok).calls[c]) < Remaining(s.calls[c])
  {
    var call := s.calls[c];
    if call.CreateStart? || call.CreateBegun? {
      assert Remaining(AdvanceCreate(s, c, ok).calls[c]) < Remaining(call);
    } else if call.CommitStart? || call.CommitLoaded? || call.CommitDone? {
      assert Remaining(AdvanceCommit(s, c, ok).calls[c]) < Remaining(call);
    } else if call.ExecStart? || call.ExecLoaded? || call.ExecRan? {
      assert Remaining(AdvanceExec(s, c, ok).calls[c]) < Remaining(call);
    }
  }

  /** After the end of a transaction, by its deadline, a commit or an execute call, no
      call ever answers that it has committed it, unless it had done so by then. */
  lemma NoSuccessAfterEnd(run: seq<State>, steps: seq<Step>, i: nat, j: nat, h: nat, c: nat)
    requires IsRun(run, steps) && i < j < |run| && Ending(run, steps, i, h)
    requires c < |run[j].calls| && run[j].calls[c] == CommitAnswer(h, Success)
    ensures c < |run[i + 1].calls| && run[i + 1].calls[c] in {CommitDone(h, h), CommitAnswer(h, Success)}
  {
    EndingEnds(run, steps, i, h);
    NoSuccessOnceOver(run, steps, i + 1, j, h, c);
    RunInv(run, steps, i + 1);
    assert CallOk(run[i + 1], run[i + 1].calls[c]);
  }

  lemma {:induction false} NoSuccessOnceOver(run: seq<State>, steps: seq<Step>, i: nat, j: nat, id: nat, c: nat)
    requires IsRun(run, steps) && i <= j < |run|
    requires id < |run[i].txs| && run[i].txs[id].status != Open
    requires c < |run[j].calls| && Succeeding(run[j].calls[c], id)
    ensures c < |run[i].calls| && Succeeding(run[i].calls[c], id)
  {
    if i < j {
      RunGrows(run, steps, i, j - 1);
      assert TxGrows(run[i].txs[id], run[j - 1].txs[id]);
      NoNewSuccess(run, steps, j - 1, id, c);
      NoSuccessOnceOver(run, steps, i, j - 1, id, c);
    }
  }

  /** A call that looks an id up after a successful commit of it answers 404. */
  lemma NotFoundAfterSuccess(run: seq<State>, steps: seq<Step>, i: nat, j: nat, id: nat, c: nat, d: nat, ok: bool)
    requires IsRun(run, steps) && i <= j < |steps|
    requires c < |run[i].calls| && run[i].calls[c] == CommitAnswer(id, Success)
    requires steps[j] == Advance(d, ok) && d < |run[j].calls| && run[j].calls[d] == CommitStart(id)
    ensures d < |run[j + 1].calls| && run[j + 1].calls[d] == CommitAnswer(id, NotFound)
  {
    RunInv(run, steps, j);
    RunGrows(run, steps, i, j);
    assert CallOk(run[j], run[j].calls[c]);
    assert StepAt(run, steps, j);
  }

  /** A transaction that ended in any other way than a successful commit call stays
      registered for good, as the timer deletes the wrong key. */
  lemma {:induction false} DeadTransactionLingers(run: seq<State>, steps: seq<Step>, i: nat, j: nat, id: nat)
    requires IsRun(run, steps) && i <= j < |run|
    requires StrKey(id) in run[i].registry && id < |run[i].txs| && run[i].txs[id].status != Open
    requires forall c :: 0 <= c < |run[i].calls| ==> !Succeeding(run[i].calls[c], id)
    ensures StrKey(id) in run[j].registry
  {
    if i < j {
      DeadTransactionLingers(run, steps, i, j - 1, id);
      if StrKey(id) !in run[j].registry {
        LeavesRegistry(run, steps, j - 1, id);
        NoSuccessOnceOver(run, steps, i, j - 1, id, steps[j - 1].c);
      }
    }
  }

  /** So it is with a registered transaction that runs into its deadline. */
  lemma TimedOutLingers(run: seq<State>, steps: seq<Step>, i: nat, j: nat, id: nat)
    requires IsRun(run, steps) && i < j < |run| && steps[i] == Expire(id)
    requires StrKey(id) in run[i].registry && id < |run[i].txs| && run[i].txs[id].status == Open
    ensures StrKey(id) in run[j].registry && id < |run[j].txs| && run[j].txs[id].status == RolledBack
  {
    var calls := run[i].calls;
    RunInv(run, steps, i);
    ExpireEnds(run, steps, i, id);
    forall c | 0 <= c < |calls| ensures !Succeeding(calls[c], id) {
      assert CallOk(run[i], calls[c]);
    }
    DeadTransactionLingers(run, steps, i + 1, j, id);
    RunGrows(run, steps, i + 1, j);
    assert TxGrows(run[i + 1].txs[id], run[j].txs[id]);
  }

  /** So a call that commits it from then on finds it, and then fails instead of
      answering 404. */
  lemma DeadTransactionFails(
    run: seq<State>, steps: seq<Step>, i: nat, j: nat, id: nat, c: nat, ok: bool)
    requires IsRun(run, steps) && i <= j < |steps|
    requires StrKey(id) in run[i].registry && id < |run[i].txs| && run[i].txs[id].status != Open
    requires forall d :: 0 <= d < |run[i].calls| ==> !Succeeding(run[i].calls[d], id)
    requires steps[j] == Advance(c, ok) && c < |run[j].calls|
    requires run[j].calls[c] in [CommitStart(id), CommitLoaded(id, id)]
    ensures c < |run[j + 1].calls|
    ensures run[j + 1].calls[c]
         == if run[j].calls[c].CommitStart? then CommitLoaded(id, id) else CommitAnswer(id, Failed)
  {
    DeadTransactionLingers(run, steps, i, j, id);
    RunInv(run, steps, j);
    RunGrows(run, steps, i, j);
    assert TxGrows(run[i].txs[id], run[j].txs[id]);
    assert StepAt(run, steps, j);
  }

  // ----- all or nothing -----

  /** The statement that step `i` saw succeed on handle `h`, if any. */
  ghost function RanAt(before: State, step: Step, after: State, h: nat): seq<string> {
    if step.Advance? && step.c < |before.calls| && step.c < |after.calls|
       && before.calls[step.c].ExecLoaded? && before.calls[step.c].h == h && after.calls[step.c].ExecRan?
    then [before.calls[step.c].stmt]
    else []
  }

  /** All statements that calls have seen succeed on handle `h` so far. */
  ghost function RanOn(run: seq<State>, steps: seq<Step>, i: nat, h: nat): seq<string>
    requires IsRun(run, steps) && i < |run|
  {
    if i == 0 then [] else RanOn(run, steps, i - 1, h) + RanAt(run[i - 1], steps[i - 1], run[i], h)
  }

  lemma AdvanceRan(s: State, c: nat, ok: bool, h: nat)
    requires Inv(s) && CanAdvance(s, c)
    ensures var s' := AdvanceCall(s, c, ok);
            var ran := RanAt(s, Advance(c, ok), s', h);
            && (h < |s.txs| ==> h < |s'.txs| && s'.txs[h].ran == s.txs[h].ran + ran)
            && (h >= |s.txs| ==> ran == [])
            && (|s.txs| <= h < |s'.txs| ==> s'.txs[h].ran == [])
  {
  }

  lemma StepRan(run: seq<State>, steps: seq<Step>, i: nat, h: nat)
    requires IsRun(run, steps) && i < |steps|
    ensures var s, s', ran := run[i], run[i + 1], RanAt(run[i], steps[i], run[i + 1], h);
            && (h < |s.txs| ==> h < |s'.txs| && s'.txs[h].ran == s.txs[h].ran + ran)
            && (h >= |s.txs| ==> ran == [])
            && (|s.txs| <= h < |s'.txs| ==> s'.txs[h].ran == [])
  {
    RunInv(run, steps, i);
    assert StepAt(run, steps, i);
    match steps[i]
    case Advance(c, ok) => AdvanceRan(run[i], c, ok, h);
    case _ => if h < |run[i].txs| { assert run[i].txs[h].ran + [] == run[i].txs[h].ran; }
  }

  /** The statements that have succeeded on handle `h`, as its transaction records them. */
  function RecordedOn(s: State, h: nat): seq<string> {
    if h < |s.txs| then s.txs[h].ran else []
  }

  lemma StepRecorded(run: seq<State>, steps: seq<Step>, i: nat, h: nat)
    requires IsRun(run, steps) && i < |steps|
    ensures RecordedOn(run[i + 1], h) == RecordedOn(run[i], h) + RanAt(run[i], steps[i], run[i + 1], h)
  {
    StepRan(run, steps, i, h);
  }

  lemma {:induction false} RanRecorded(run: seq<State>, steps: seq<Step>, i: nat, h: nat)
    requires IsRun(run, steps) && i < |run|
    ensures RanOn(run, steps, i, h) == RecordedOn(run[i], h)
  {
    if i > 0 {
      var j := i - 1;
      RanRecorded(run, steps, j, h);
      RanOnStep(run, steps, j, h);
    }
  }

  lemma RanOnStep(run: seq<State>, steps: seq<Step>, i: nat, h: nat)
    requires IsRun(run, steps) && i < |steps|
    requires RanOn(run, steps, i, h) == RecordedOn(run[i], h)
    ensures RanOn(run, steps, i + 1, h) == RecordedOn(run[i + 1], h)
  {
    StepRecorded(run, steps, i, h);
    RanOnNext(run, steps, i, h);
  }

  lemma RanOnNext(run: seq<State>, steps: seq<Step>, i: nat, h: nat)
    requires IsRun(run, steps) && i < |steps|
    ensures RanOn(run, steps, i + 1, h) == RanOn(run, steps, i, h) + RanAt(run[i], steps[i], run[i + 1], h)
  {
  }

  /** What a transaction contributes to the database is nothing, or exactly the
      statements that succeeded on it, in order, whichever call committed it. */
  lemma AllOrNothing(run: seq<State>, steps: seq<Step>, i: nat, h: nat)
    requires IsRun(run, steps) && i < |run| && h < |run[i].txs|
    ensures Contribution(run[i].db, h)
         == if run[i].txs[h].status == Committed then RanOn(run, steps, i, h) else []
  {
    RunInv(run, steps, i);
    RanRecorded(run, steps, i, h);
    assert TxOk(run[i], h);
  }

  /** After the end of a transaction no statement succeeds on it. */
  lemma NothingRunsAfterEnd(run: seq<State>, steps: seq<Step>, i: nat, j: nat, h: nat)
    requires IsRun(run, steps) && i <= j < |run|
    requires h < |run[i].txs| && run[i].txs[h].status != Open
    ensures RanOn(run, steps, j, h) == RanOn(run, steps, i, h)
  {
    RanRecorded(run, steps, i, h);
    RanRecorded(run, steps, j, h);
    RunGrows(run, steps, i, j);
    assert TxGrows(run[i].txs[h], run[j].txs[h]);
  }

  /** An execute call that reports success has ended its transaction, and its
      statement is in the database if and only if that end was a commit. */
  lemma ExecutedIsDurableIffCommitted(run: seq<State>, steps: seq<Step>, i: nat, c: nat, h: nat, stmt: string)
    requires IsRun(run, steps) && i < |run| && c < |run[i].calls|
    requires run[i].calls[c] == ExecAnswer(h, stmt, true)
    ensures h < |run[i].txs| && run[i].txs[h].status != Open
    ensures stmt in Contribution(run[i].db, h) <==> run[i].txs[h].status == Committed
  {
    RunInv(run, steps, i);
    assert CallOk(run[i], run[i].calls[c]);
    assert TxOk(run[i], h);
  }

  // ----- a success that is lost -----

  /** A run in which an execute call reports success although its statement never
      reaches the database: the timeout falls between running and committing it. */
  function LostSteps(): seq<Step> {
    [Arrive(CreateStart), Advance(0, true), Advance(0, true),
     Arrive(ExecStart(0, "INSERT")), Advance(1, true), Advance(1, true),
     Expire(0), Advance(1, true)]
  }

  function LostRun(): seq<State> {
    var open_, ran, gone := Tx(Open, [], true), Tx(Open, ["INSERT"], true), Tx(RolledBack, ["INSERT"], true);
    var reg, a := map[StrKey(0) := 0], CreateAnswer(Some(0));
    [INITIAL,
     State([], map[], [CreateStart], []),
     State([open_], map[], [CreateBegun(0)], []),
     State([open_], reg, [a], []),
     State([open_], reg, [a, ExecStart(0, "INSERT")], []),
     State([open_], reg, [a, ExecLoaded(0, "INSERT")], []),
     State([ran], reg, [a, ExecRan(0, "INSERT")], []),
     State([gone], reg, [a, ExecRan(0, "INSERT")], []),
     State([gone], reg, [a, ExecAnswer(0, "INSERT", true)], [])]
  }

  lemma LostCreate()
    ensures forall i :: 0 <= i < 4 ==> StepAt(LostRun(), LostSteps(), i)
  {
  }

  lemma LostExecute()
    ensures forall i :: 4 <= i < 8 ==> StepAt(LostRun(), LostSteps(), i)
  {
    LostLoad();
    LostRan();
    LostEnd();
  }

  lemma LostLoad()
    ensures StepAt(LostRun(), LostSteps(), 4)
  {
    assert Next(LostRun()[4], LostSteps()[4]) == LostRun()[5];
  }

  lemma LostRan()
    ensures StepAt(LostRun(), LostSteps(), 5)
  {
    assert [] + ["INSERT"] == ["INSERT"];
    assert Next(LostRun()[5], LostSteps()[5]) == LostRun()[6];
  }

  lemma LostEnd()
    ensures StepAt(LostRun(), LostSteps(), 6) && StepAt(LostRun(), LostSteps(), 7)
  {
    assert Next(LostRun()[6], LostSteps()[6]) == LostRun()[7];
    assert Next(LostRun()[7], LostSteps()[7]) == LostRun()[8];
  }

  lemma SuccessCanBeLost()
    ensures IsRun(LostRun(), LostSteps())
    ensures var last := LostRun()[|LostSteps()|];
            last.calls[1] == ExecAnswer(0, "INSERT", true) && last.db == []
  {
    LostCreate();
    LostExecute();
  }
}
