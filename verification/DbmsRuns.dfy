/** Every interleaving of clients gives one serial history: each installed state is its statements
    executed on its immediate predecessor, and clients are told what that execution gave. */
module DbmsRuns {
  import opened Json
  import opened TxLog
  import opened Commits
  import opened Dbms
  import TxLogRuns

  /** The statements executed one after the other on a fresh transaction over json. */
  datatype Ran = Ran(json: Json, batches: seq<Batch>, signals: seq<Signal>, changed: bool)

  function Executions(engine: Engine, json: Json, sqls: seq<string>): Ran {
    if sqls == [] then Ran(json, [], [], false) else
    var before := Executions(engine, json, sqls[..|sqls| - 1]);
    var x := engine.execute(before.json, before.batches, sqls[|sqls| - 1]);
    Ran(x.json, x.batches, before.signals + [x.signal], before.changed || x.changed)
  }

  /** The metadata after the first i installed transactions. */
  function MdAt(initial: Md, installed: seq<Install>, i: nat): Md
    requires i <= |installed|
  {
    if i == 0 then initial else installed[i - 1].md
  }

  ghost predicate InstallOk(engine: Engine, initial: Md, installed: seq<Install>, i: nat) {
    i < |installed| ==>
      var x := installed[i];
      var ran := Executions(engine, x.base.json, x.sqls);
      && x.base == MdAt(initial, installed, i)
      && x.base.version < x.md.version
      && x.sqls != [] && x.signals == ran.signals
      && engine.constraintsHold(ran.json, ran.batches)
      && x.diff == TxDiff(x.base.json, ran.json, ran.batches) && Versioned(x.diff)
      && x.md.json == MergePatch(x.base.json, x.diff)
      && x.txId == LastTx(initial.json) + i + 1 == LastTx(x.md.json)
  }

  ghost predicate HistoryOk(engine: Engine, initial: Md, installed: seq<Install>) {
    forall i: nat :: InstallOk(engine, initial, installed, i)
  }

  /** A transaction began on some installed state and has executed exactly its statements on it. */
  ghost predicate TxOk(engine: Engine, initial: Md, installed: seq<Install>, clock: nat, tx: Tx) {
    var ran := Executions(engine, tx.original.json, tx.sqls);
    && tx.since <= |installed| && tx.original == MdAt(initial, installed, tx.since)
    && tx.db.json == ran.json && tx.db.batches == ran.batches && tx.signals == ran.signals
    && tx.original.version <= tx.db.version < clock
    && (Unchanged(tx) <==> !ran.changed)
  }

  ghost predicate SessionOk(engine: Engine, initial: Md, installed: seq<Install>, clock: nat, session: Session) {
    && TxOk(engine, initial, installed, clock, session.tx) && session.tx.sqls != []
    && (session.Waiting? && !session.interactive ==>
          |session.tx.sqls| == 1 && LastSignal(session.tx).Rows? && !Unchanged(session.tx))
    && (session.Waiting? && session.interactive ==> !session.http && LastSignal(session.tx) == Commit)
  }

  ghost predicate SessionsOk(engine: Engine, initial: Md, s: Server) {
    forall id | id in s.sessions :: SessionOk(engine, initial, s.installed, s.clock, s.sessions[id])
  }

  ghost predicate Inv(engine: Engine, initial: Md, s: Server) {
    && engine.Valid()
    && s.md == MdAt(initial, s.installed, |s.installed|) && s.md.version < s.clock
    && HistoryOk(engine, initial, s.installed)
    && SessionsOk(engine, initial, s)
  }

  // ---------- identities ----------

  lemma {:induction false} VersionsGrow(engine: Engine, initial: Md, installed: seq<Install>, i: nat, j: nat)
    requires HistoryOk(engine, initial, installed) && i <= j <= |installed|
    ensures MdAt(initial, installed, i).version <= MdAt(initial, installed, j).version
    ensures i < j ==> MdAt(initial, installed, i).version < MdAt(initial, installed, j).version
    decreases j
  {
    if i < j {
      VersionsGrow(engine, initial, installed, i, j - 1);
      assert InstallOk(engine, initial, installed, j - 1);
    }
  }

  lemma NewIdentity(engine: Engine, initial: Md, s: Server)
    requires Inv(engine, initial, s)
    ensures s.md.version < s.clock
  {
  }

  lemma {:induction false} NumbersConsecutive(engine: Engine, initial: Md, installed: seq<Install>, i: nat)
    requires HistoryOk(engine, initial, installed) && i <= |installed|
    ensures LastTx(MdAt(initial, installed, i).json) == LastTx(initial.json) + i
  {
    if i > 0 { assert InstallOk(engine, initial, installed, i - 1); }
  }

  lemma {:induction false} ExecutionsKeep(engine: Engine, json: Json, sqls: seq<string>)
    requires engine.Valid()
    ensures var ran := Executions(engine, json, sqls);
            && LastTx(ran.json) == LastTx(json) && Unreserved(ran.batches)
            && |ran.signals| == |sqls| && (!ran.changed ==> ran.json == json)
  {
    if sqls != [] { ExecutionsKeep(engine, json, sqls[..|sqls| - 1]); }
  }

  // ---------- steps of a transaction ----------

  lemma BeginOk(engine: Engine, initial: Md, s: Server)
    requires Inv(engine, initial, s)
    ensures TxOk(engine, initial, s.installed, s.clock, BeginWriteTx(s))
  {
  }

  lemma ExecuteOk(engine: Engine, initial: Md, installed: seq<Install>, clock: nat, tx: Tx, sql: string)
    requires engine.Valid() && TxOk(engine, initial, installed, clock, tx)
    ensures TxOk(engine, initial, installed, clock + 1, Execute(engine, clock, tx, sql))
    ensures Execute(engine, clock, tx, sql).sqls == tx.sqls + [sql]
    ensures var tx' := Execute(engine, clock, tx, sql); tx'.signals == tx.signals + [LastSignal(tx')]
  {
    assert (tx.sqls + [sql])[..|tx.sqls|] == tx.sqls;
    ExecutionsKeep(engine, tx.original.json, tx.sqls);
    ExecutionsKeep(engine, tx.original.json, tx.sqls + [sql]);
  }

  lemma TxLater(engine: Engine, initial: Md, installed: seq<Install>, clock: nat, more: seq<Install>, clock': nat,
      tx: Tx)
    requires TxOk(engine, initial, installed, clock, tx) && clock <= clock' && installed <= more
    ensures TxOk(engine, initial, more, clock', tx)
  {
  }

  lemma SessionsLater(engine: Engine, initial: Md, s: Server, s': Server)
    requires SessionsOk(engine, initial, s) && s.clock <= s'.clock && s.installed <= s'.installed
    requires forall id | id in s'.sessions :: id in s.sessions && s'.sessions[id] == s.sessions[id]
    ensures SessionsOk(engine, initial, s')
  {
    hide TxOk;
    forall id | id in s'.sessions ensures SessionOk(engine, initial, s'.installed, s'.clock, s'.sessions[id]) {
      TxLater(engine, initial, s.installed, s.clock, s'.installed, s'.clock, s.sessions[id].tx);
    }
  }

  lemma TickKeepsInv(engine: Engine, initial: Md, s: Server, id: nat)
    requires Inv(engine, initial, s)
    ensures Inv(engine, initial, Tick(s)) && Inv(engine, initial, Forget(s, id))
  {
    hide SessionsOk, HistoryOk;
    SessionsLater(engine, initial, s, Tick(s));
    SessionsLater(engine, initial, s, Forget(s, id));
  }

  lemma SetSessionKeepsInv(engine: Engine, initial: Md, s: Server, id: nat, session: Session)
    requires Inv(engine, initial, s) && SessionOk(engine, initial, s.installed, s.clock + 1, session)
    ensures Inv(engine, initial, SetSession(s, id, session))
  {
    hide SessionOk, HistoryOk;
    TickKeepsInv(engine, initial, s, id);
    assert SessionsOk(engine, initial, Tick(s));
  }

  // ---------- installing ----------

  /** What an install gives, given that the transaction began on the current state. */
  ghost predicate Installs(s: Server, s': Server, tx: Tx) {
    && |s'.installed| == |s.installed| + 1 && s'.installed == s.installed + [s'.installed[|s.installed|]]
    && s'.installed[|s.installed|].sqls == tx.sqls
    && s'.installed[|s.installed|].signals == tx.signals
  }

  lemma CommitKeepsInv(engine: Engine, initial: Md, s: Server, tx: Tx)
    requires Inv(engine, initial, s) && TxOk(engine, initial, s.installed, s.clock, tx)
    requires tx.original == s.md && tx.sqls != []
    ensures var c := CommitWriteTx(engine, s, tx);
            c.New? ==> Inv(engine, initial, c.server) && Installs(s, c.server, tx)
  {
    hide InstallOk, SessionsOk, TxDiff;
    var c := CommitWriteTx(engine, s, tx);
    if c.New? {
      var s' := c.server;
      SessionsLater(engine, initial, s, s');
      NewInstallOk(engine, initial, s, tx);
      forall i: nat ensures InstallOk(engine, initial, s'.installed, i) {
        if i < |s.installed| { InstallStays(engine, initial, s.installed, s'.installed[|s.installed|], i); }
        else if i > |s.installed| { NoInstall(engine, initial, s'.installed, i); }
      }
    }
  }

  lemma InstallStays(engine: Engine, initial: Md, installed: seq<Install>, x: Install, i: nat)
    requires i < |installed| && InstallOk(engine, initial, installed, i)
    ensures InstallOk(engine, initial, installed + [x], i)
  {
  }

  lemma NoInstall(engine: Engine, initial: Md, installed: seq<Install>, i: nat)
    requires i >= |installed|
    ensures InstallOk(engine, initial, installed, i)
  {
  }

  lemma NewInstallOk(engine: Engine, initial: Md, s: Server, tx: Tx)
    requires Inv(engine, initial, s) && TxOk(engine, initial, s.installed, s.clock, tx)
    requires tx.original == s.md && tx.sqls != []
    ensures var c := CommitWriteTx(engine, s, tx);
            c.New? ==> InstallOk(engine, initial, c.server.installed, |s.installed|)
  {
    hide SessionsOk, MergePatch, TxDiff, Versioned;
    ExecutionsKeep(engine, tx.original.json, tx.sqls);
    Advances(s.md.json, tx.db.json, tx.db.batches);
    NumbersConsecutive(engine, initial, s.installed, |s.installed|);
  }

  // ---------- every action keeps the invariant ----------

  lemma QueryKeepsInv(engine: Engine, initial: Md, s: Server, id: nat, sql: string, post: bool)
    requires Inv(engine, initial, s)
    ensures Inv(engine, initial, HttpQuery(engine, s, id, sql, post).server)
  {
    hide Inv, TxOk, Execute, BeginWriteTx, Executions;
    if id !in s.sessions {
      OneStatement(engine, initial, s, sql);
      TickKeepsInv(engine, initial, s, id);
      var tx := Execute(engine, s.clock, BeginWriteTx(s), sql);
      var w := Waiting(tx, true, false);
      if LastSignal(tx).Rows? && !Unchanged(tx) { SetSessionKeepsInv(engine, initial, s, id, w); }
    }
  }

  /** A statement on a fresh transaction. */
  lemma OneStatement(engine: Engine, initial: Md, s: Server, sql: string)
    requires Inv(engine, initial, s)
    ensures var tx := Execute(engine, s.clock, BeginWriteTx(s), sql);
            && TxOk(engine, initial, s.installed, s.clock + 1, tx) && tx.sqls == [sql]
            && tx.signals == [LastSignal(tx)] && tx.original == s.md && tx.since == |s.installed|
  {
    BeginOk(engine, initial, s);
    ExecuteOk(engine, initial, s.installed, s.clock, BeginWriteTx(s), sql);
  }

  lemma SignalKeepsInv(engine: Engine, initial: Md, s: Server, id: nat, tx: Tx, interactive: bool)
    requires Inv(engine, initial, s) && TxOk(engine, initial, s.installed, s.clock, tx) && tx.sqls != []
    ensures Inv(engine, initial, WsSignal(s, id, tx, LastSignal(tx), interactive).server)
    ensures WsSignal(s, id, tx, LastSignal(tx), interactive).server.installed == s.installed
  {
    hide Inv, TxOk;
    TickKeepsInv(engine, initial, s, id);
    TxLater(engine, initial, s.installed, s.clock, s.installed, s.clock + 1, tx);
    if LastSignal(tx) == Begin { SetSessionKeepsInv(engine, initial, s, id, Interactive(tx)); }
    else if LastSignal(tx) == Commit { SetSessionKeepsInv(engine, initial, s, id, Waiting(tx, false, true)); }
  }

  /** On a retry the transaction statements are handled with the stale transaction. */
  lemma StaleSignalKeepsInv(engine: Engine, initial: Md, s: Server, id: nat, tx: Tx, signal: Signal)
    requires Inv(engine, initial, s) && TxOk(engine, initial, s.installed, s.clock, tx) && tx.sqls != []
    ensures Inv(engine, initial, WsSignal(s, id, tx, signal, false).server)
    ensures var r := WsSignal(s, id, tx, signal, false);
            r.server.installed == s.installed && r.server.md == s.md && !r.reply.Created?
  {
    hide Inv, TxOk;
    TickKeepsInv(engine, initial, s, id);
    TxLater(engine, initial, s.installed, s.clock, s.installed, s.clock + 1, tx);
    if signal == Begin { SetSessionKeepsInv(engine, initial, s, id, Interactive(tx)); }
  }

  lemma MessageKeepsInv(engine: Engine, initial: Md, s: Server, id: nat, sql: string)
    requires Inv(engine, initial, s)
    ensures Inv(engine, initial, WsMessage(engine, s, id, sql).server)
    ensures WsMessage(engine, s, id, sql).server.installed == s.installed
  {
    if id in s.sessions && s.sessions[id].Waiting? {
    } else if id in s.sessions {
      InteractiveMessageKeepsInv(engine, initial, s, id, sql);
    } else {
      FirstMessageKeepsInv(engine, initial, s, id, sql);
    }
  }

  lemma InteractiveMessageKeepsInv(engine: Engine, initial: Md, s: Server, id: nat, sql: string)
    requires Inv(engine, initial, s) && id in s.sessions && s.sessions[id].Interactive?
    ensures Inv(engine, initial, WsMessage(engine, s, id, sql).server)
    ensures WsMessage(engine, s, id, sql).server.installed == s.installed
  {
    var before := s.sessions[id].tx;
    assert SessionOk(engine, initial, s.installed, s.clock, s.sessions[id]);
    ExecuteOk(engine, initial, s.installed, s.clock, before, sql);
    hide Inv, TxOk, Execute, WsSignal, Executions;
    var tx := Execute(engine, s.clock, before, sql);
    SetSessionKeepsInv(engine, initial, s, id, Interactive(tx));
    SignalKeepsInv(engine, initial, SetSession(s, id, Interactive(tx)), id, tx, true);
  }

  lemma FirstMessageKeepsInv(engine: Engine, initial: Md, s: Server, id: nat, sql: string)
    requires Inv(engine, initial, s) && id !in s.sessions
    ensures Inv(engine, initial, WsMessage(engine, s, id, sql).server)
    ensures WsMessage(engine, s, id, sql).server.installed == s.installed
  {
    hide Inv, TxOk, Execute, BeginWriteTx, WsSignal, Executions;
    OneStatement(engine, initial, s, sql);
    var tx := Execute(engine, s.clock, BeginWriteTx(s), sql);
    TickKeepsInv(engine, initial, s, id);
    SignalKeepsInv(engine, initial, Tick(s), id, tx, false);
    if LastSignal(tx).Rows? && !Unchanged(tx) {
      TxLater(engine, initial, s.installed, s.clock + 1, s.installed, s.clock + 2, tx);
      SetSessionKeepsInv(engine, initial, Tick(s), id, Waiting(tx, false, false));
    }
  }

  /** What a client is told at the lock, in terms of its statements executed on the current state: the
      outcome of that execution, "Constraint failed" exactly when it would change the state in a way that
      breaks a constraint, and Conflict for an interactive transaction that began on an older state. */
  ghost function LockReply(engine: Engine, s: Server, w: Session): Reply
    requires w.Waiting?
  {
    var ran := Executions(engine, s.md.json, w.tx.sqls);
    var refused := ran.changed && !engine.constraintsHold(ran.json, ran.batches);
    if w.interactive then
      if w.tx.since < |s.installed| then Failure("Conflict")
      else if refused then Failure("Constraint failed")
      else Done
    else if ran.signals == [] then NoReply
    else
      match ran.signals[0]
      case Rows(rows) =>
        if refused then Failure("Constraint failed")
        else if ran.changed && w.http then Created(rows)
        else Ok(rows)
      case Raised(message) => Failure(message)
      case Begin => if w.http then Failure("Explicit transactions not supported") else Done
      case Commit => Failure(if w.http then "Explicit transactions not supported" else "No active transaction")
      case Rollback => Done
  }

  /** The session ends, unless a statement that is executed again turns out to be a BEGIN on a connection. */
  ghost function LockSessions(engine: Engine, s: Server, id: nat, w: Session): map<nat, Session>
    requires w.Waiting?
  {
    var ran := Executions(engine, s.md.json, w.tx.sqls);
    if !w.interactive && !w.http && ran.signals == [Begin] then (s.sessions - {id})[id := Interactive(w.tx)]
    else s.sessions - {id}
  }

  /** What taking the lock does: the reply, the sessions, and what is installed if anything is, which
      LockInstallsIff decides. */
  ghost predicate LockOutcome(engine: Engine, s: Server, id: nat, r: Stepped)
    requires id in s.sessions && s.sessions[id].Waiting?
  {
    var w := s.sessions[id];
    && r.reply == LockReply(engine, s, w)
    && r.server.sessions == LockSessions(engine, s, id, w)
    && if r.server.installed == s.installed then r.server.md == s.md else
       && |r.server.installed| == |s.installed| + 1 && s.installed <= r.server.installed
       && var x := r.server.installed[|s.installed|];
          && x.sqls == w.tx.sqls && x.base == s.md && x.md == r.server.md
          && x.signals == Executions(engine, s.md.json, w.tx.sqls).signals
  }

  /** No client is told of a success while its change was refused, nor of a failure while it was made. */
  lemma SuccessMeansInstalled(engine: Engine, s: Server, w: Session)
    requires w.Waiting? && w.tx.since <= |s.installed|
    requires (w.interactive || |Executions(engine, s.md.json, w.tx.sqls).signals| == 1)
    ensures LockInstalls(engine, s, w) ==> !LockReply(engine, s, w).Failure?
    ensures var ran := Executions(engine, s.md.json, w.tx.sqls);
            ran.changed && !LockReply(engine, s, w).Failure? && (w.interactive || ran.signals[0].Rows?)
            ==> LockInstalls(engine, s, w)
    ensures LockReply(engine, s, w).Created? ==> LockInstalls(engine, s, w)
  {
    var ran := Executions(engine, s.md.json, w.tx.sqls);
    if !w.interactive && ran.signals[0].Rows? { assert ran.signals == [Rows(ran.signals[0].rows)]; }
  }

  lemma SameIdentity(engine: Engine, initial: Md, s: Server, tx: Tx)
    requires Inv(engine, initial, s) && TxOk(engine, initial, s.installed, s.clock, tx)
    ensures tx.original.version == s.md.version <==> tx.since == |s.installed|
    ensures tx.original.version == s.md.version ==> tx.original == s.md
    ensures |tx.signals| == |tx.sqls|
  {
    ExecutionsKeep(engine, tx.original.json, tx.sqls);
    VersionsGrow(engine, initial, s.installed, tx.since, |s.installed|);
  }

  /** Executing again on the current state. */
  lemma RetryKeepsInv(engine: Engine, initial: Md, s: Server, w: Session, sql: string, id: nat)
    requires Inv(engine, initial, s) && w.Waiting? && !w.interactive && w.tx.sqls == [sql] && id !in s.sessions
    requires TxOk(engine, initial, s.installed, s.clock, w.tx)
    ensures var r := Retry(engine, s, w, sql, id);
            && Inv(engine, initial, r.server)
            && r.reply == LockReply(engine, s, w)
            && r.server.sessions
               == (if !w.http && Executions(engine, s.md.json, [sql]).signals == [Begin]
                   then s.sessions[id := Interactive(w.tx)] else s.sessions)
            && if r.server.installed == s.installed then r.server.md == s.md else
               && |r.server.installed| == |s.installed| + 1 && s.installed <= r.server.installed
               && var x := r.server.installed[|s.installed|];
                  && x.sqls == [sql] && x.base == s.md && x.md == r.server.md
                  && x.signals == Executions(engine, s.md.json, [sql]).signals
  {
    hide Inv, Execute, BeginWriteTx, Executions, TxDiff;
    OneStatement(engine, initial, s, sql);
    var tx := Execute(engine, s.clock, BeginWriteTx(s), sql);
    assert tx.signals == [LastSignal(tx)] == Executions(engine, s.md.json, [sql]).signals;
    TickKeepsInv(engine, initial, s, id);
    NewIdentity(engine, initial, s);
    TxLater(engine, initial, s.installed, s.clock, s.installed, s.clock + 1, w.tx);
    if LastSignal(tx).Rows? {
      CommitKeepsInv(engine, initial, Tick(s), tx);
    } else if !w.http {
      StaleSignalKeepsInv(engine, initial, Tick(s), id, w.tx, LastSignal(tx));
      assert s.sessions - {id} == s.sessions;
    }
  }

  lemma LockKeepsInv(engine: Engine, initial: Md, s: Server, id: nat)
    requires Inv(engine, initial, s)
    ensures Inv(engine, initial, TakeLock(engine, s, id).server)
    ensures id in s.sessions && s.sessions[id].Waiting? ==> LockOutcome(engine, s, id, TakeLock(engine, s, id))
  {
    hide Inv, LockOutcome;
    if id in s.sessions && s.sessions[id].Waiting? {
      if s.sessions[id].tx.original.version == s.md.version {
        CurrentLock(engine, initial, s, id);
      } else {
        StaleLock(engine, initial, s, id);
      }
    }
  }

  /** Something was. */
  lemma StaleLock(engine: Engine, initial: Md, s: Server, id: nat)
    requires Inv(engine, initial, s) && id in s.sessions && s.sessions[id].Waiting?
    requires s.sessions[id].tx.original.version != s.md.version
    ensures Inv(engine, initial, TakeLock(engine, s, id).server)
    ensures LockOutcome(engine, s, id, TakeLock(engine, s, id))
  {
    var w := s.sessions[id];
    StaleFacts(engine, initial, s, id);
    hide Inv, TxOk, Retry, Executions;
    TickKeepsInv(engine, initial, s, id);
    if !w.interactive {
      var s' := Forget(s, id);
      assert w.tx.sqls == [w.tx.sqls[0]];
      RetryKeepsInv(engine, initial, s', w, w.tx.sqls[0], id);
      SameLockReply(engine, s, s', w);
      hide LockReply;
      assert TakeLock(engine, s, id) == Retry(engine, s', w, w.tx.sqls[0], id);
    }
  }

  lemma SameLockReply(engine: Engine, s: Server, s': Server, w: Session)
    requires w.Waiting? && s'.md == s.md && s'.installed == s.installed
    ensures LockReply(engine, s', w) == LockReply(engine, s, w)
  {
    hide Executions;
  }

  lemma StaleFacts(engine: Engine, initial: Md, s: Server, id: nat)
    requires Inv(engine, initial, s) && id in s.sessions && s.sessions[id].Waiting?
    requires s.sessions[id].tx.original.version != s.md.version
    ensures s.sessions[id].tx.since < |s.installed|
    ensures TxOk(engine, initial, s.installed, s.clock + 1, s.sessions[id].tx)
    ensures !s.sessions[id].interactive ==> |s.sessions[id].tx.sqls| == 1
  {
    assert SessionOk(engine, initial, s.installed, s.clock, s.sessions[id]);
    SameIdentity(engine, initial, s, s.sessions[id].tx);
    hide Inv;
    TxLater(engine, initial, s.installed, s.clock, s.installed, s.clock + 1, s.sessions[id].tx);
  }

  /** Nothing was installed since the transaction began. */
  lemma CurrentLock(engine: Engine, initial: Md, s: Server, id: nat)
    requires Inv(engine, initial, s) && id in s.sessions && s.sessions[id].Waiting?
    requires s.sessions[id].tx.original.version == s.md.version
    ensures Inv(engine, initial, TakeLock(engine, s, id).server)
    ensures LockOutcome(engine, s, id, TakeLock(engine, s, id))
  {
    var w := s.sessions[id];
    assert SessionOk(engine, initial, s.installed, s.clock, w);
    SameIdentity(engine, initial, s, w.tx);
    var s' := Forget(s, id);
    TickKeepsInv(engine, initial, s, id);
    TxLater(engine, initial, s.installed, s.clock, s.installed, s'.clock, w.tx);
    if !w.interactive { assert w.tx.signals == [LastSignal(w.tx)]; }
    hide Inv, Executions, TxDiff;
    CommitKeepsInv(engine, initial, s', w.tx);
  }

  /** Exactly when taking the lock installs something: the execution on the current state changes it and
      satisfies the constraints, and an interactive transaction is not stale. */
  ghost predicate LockInstalls(engine: Engine, s: Server, w: Session)
    requires w.Waiting?
  {
    var ran := Executions(engine, s.md.json, w.tx.sqls);
    && ran.changed && engine.constraintsHold(ran.json, ran.batches)
    && if w.interactive then w.tx.since == |s.installed| else exists rows :: ran.signals == [Rows(rows)]
  }

  lemma LockInstallsIff(engine: Engine, initial: Md, s: Server, id: nat)
    requires Inv(engine, initial, s) && id in s.sessions && s.sessions[id].Waiting?
    ensures TakeLock(engine, s, id).server.installed != s.installed <==> LockInstalls(engine, s, s.sessions[id])
  {
    var w := s.sessions[id];
    assert SessionOk(engine, initial, s.installed, s.clock, w);
    SameIdentity(engine, initial, s, w.tx);
    hide Inv;
    if w.tx.original.version == s.md.version {
      if !w.interactive { assert w.tx.signals == [LastSignal(w.tx)]; }
    } else if !w.interactive {
      assert w.tx.sqls == [w.tx.sqls[0]];
      TickKeepsInv(engine, initial, s, id);
      RetryInstallsIff(engine, initial, Forget(s, id), w, w.tx.sqls[0], id);
    }
  }

  lemma RetryInstallsIff(engine: Engine, initial: Md, s: Server, w: Session, sql: string, id: nat)
    requires Inv(engine, initial, s) && w.Waiting? && !w.interactive && w.tx.sqls == [sql]
    ensures Retry(engine, s, w, sql, id).server.installed != s.installed <==> LockInstalls(engine, s, w)
  {
    OneStatement(engine, initial, s, sql);
    hide Inv, Execute, BeginWriteTx;
    var tx := Execute(engine, s.clock, BeginWriteTx(s), sql);
    assert tx.signals == [LastSignal(tx)];
    assert Executions(engine, s.md.json, [sql]).signals == tx.signals;
  }

  /** What a request is told before it needs the lock: the rows of its execution on the current state if
      that changed nothing; a changing POST goes on to the lock, any other change is refused. */
  ghost predicate RequestOutcome(engine: Engine, s: Server, id: nat, sql: string, post: bool, r: Stepped) {
    var ran := Executions(engine, s.md.json, [sql]);
    && r.server.installed == s.installed && r.server.md == s.md && |ran.signals| == 1
    && (if post && ran.changed && ran.signals[0].Rows? then
          && r.server.sessions.Keys == s.sessions.Keys + {id} && r.server.sessions - {id} == s.sessions
          && r.server.sessions[id].Waiting? && r.server.sessions[id].http && !r.server.sessions[id].interactive
          && r.server.sessions[id].tx.original == s.md && r.server.sessions[id].tx.sqls == [sql]
        else r.server.sessions == s.sessions)
    && match ran.signals[0]
       case Rows(rows) => r.reply == if !ran.changed then Ok(rows) else if post then NoReply else Failure("")
       case Raised(message) => r.reply == Failure(message)
       case Rollback => r.reply == if post then Done else Failure("")
       case _ => r.reply == Failure("Explicit transactions not supported")
  }

  lemma RequestSeesInstalled(engine: Engine, initial: Md, s: Server, id: nat, sql: string, post: bool)
    requires Inv(engine, initial, s) && id !in s.sessions
    ensures RequestOutcome(engine, s, id, sql, post, HttpQuery(engine, s, id, sql, post))
  {
    OneStatement(engine, initial, s, sql);
    hide Inv, Execute, BeginWriteTx;
    var tx := Execute(engine, s.clock, BeginWriteTx(s), sql);
    assert tx.signals == [LastSignal(tx)] == Executions(engine, s.md.json, [sql]).signals;
  }

  /** A connection inside BEGIN sees its own statements on the state it began on, and nothing that others
      installed since. */
  ghost predicate InsideOutcome(engine: Engine, s: Server, id: nat, sql: string, r: Stepped)
    requires id in s.sessions
  {
    var tx := s.sessions[id].tx;
    var ran := Executions(engine, tx.original.json, tx.sqls + [sql]);
    var after := r.server.sessions;
    && |ran.signals| == |tx.sqls| + 1
    && (id in after ==> after[id].tx.original == tx.original && after[id].tx.sqls == tx.sqls + [sql])
    && match ran.signals[|tx.sqls|]
       case Rows(rows) => r.reply == Ok(rows) && id in after && after[id].Interactive?
       case Raised(message) => r.reply == Failure(message) && id in after && after[id].Interactive?
       case Begin => r.reply == Failure("Cannot nest transactions") && id in after && after[id].Interactive?
       case Commit =>
         r.reply == NoReply && id in after && after[id].Waiting? && after[id].interactive && !after[id].http
       case Rollback => r.reply == Done && id !in after
  }

  /** Outside it sees the current state. */
  ghost predicate OutsideOutcome(engine: Engine, s: Server, id: nat, sql: string, r: Stepped) {
    var ran := Executions(engine, s.md.json, [sql]);
    var after := r.server.sessions;
    && |ran.signals| == 1
    && (id in after ==> after[id].tx.original == s.md && after[id].tx.sqls == [sql])
    && match ran.signals[0]
       case Rows(rows) =>
         if ran.changed then
           r.reply == NoReply && id in after && after[id].Waiting? && !after[id].http && !after[id].interactive
         else r.reply == Ok(rows) && id !in after
       case Raised(message) => r.reply == Failure(message) && id !in after
       case Begin => r.reply == Done && id in after && after[id].Interactive?
       case Commit => r.reply == Failure("No active transaction") && id !in after
       case Rollback => r.reply == Done && id !in after
  }

  ghost predicate MessageOutcome(engine: Engine, s: Server, id: nat, sql: string, r: Stepped) {
    && r.server.installed == s.installed && r.server.md == s.md
    && r.server.sessions - {id} == s.sessions - {id}
    && if id in s.sessions then InsideOutcome(engine, s, id, sql, r) else OutsideOutcome(engine, s, id, sql, r)
  }

  lemma MessageSeesSnapshot(engine: Engine, initial: Md, s: Server, id: nat, sql: string)
    requires Inv(engine, initial, s) && (id in s.sessions ==> s.sessions[id].Interactive?)
    ensures MessageOutcome(engine, s, id, sql, WsMessage(engine, s, id, sql))
  {
    hide MessageOutcome, WsMessage;
    if id in s.sessions {
      MessageInside(engine, initial, s, id, sql);
    } else {
      MessageOutside(engine, initial, s, id, sql);
    }
  }

  lemma OthersStay(engine: Engine, s: Server, id: nat, sql: string)
    ensures var r := WsMessage(engine, s, id, sql);
            r.server.installed == s.installed && r.server.md == s.md && r.server.sessions - {id} == s.sessions - {id}
  {
    hide Execute, BeginWriteTx;
  }

  lemma MessageInside(engine: Engine, initial: Md, s: Server, id: nat, sql: string)
    requires Inv(engine, initial, s) && id in s.sessions && s.sessions[id].Interactive?
    ensures MessageOutcome(engine, s, id, sql, WsMessage(engine, s, id, sql))
  {
    assert SessionOk(engine, initial, s.installed, s.clock, s.sessions[id]);
    MessageRan(engine, initial, s, s.sessions[id].tx, sql);
    OthersStay(engine, s, id, sql);
    hide Inv, Execute, Executions, TxOk, SessionOk;
    assert InsideOutcome(engine, s, id, sql, WsMessage(engine, s, id, sql));
  }

  lemma MessageOutside(engine: Engine, initial: Md, s: Server, id: nat, sql: string)
    requires Inv(engine, initial, s) && id !in s.sessions
    ensures MessageOutcome(engine, s, id, sql, WsMessage(engine, s, id, sql))
  {
    BeginOk(engine, initial, s);
    MessageRan(engine, initial, s, BeginWriteTx(s), sql);
    OthersStay(engine, s, id, sql);
    assert [] + [sql] == [sql];
    hide Inv, Execute, Executions, TxOk;
    assert OutsideOutcome(engine, s, id, sql, WsMessage(engine, s, id, sql));
  }

  /** What the message executes. */
  lemma MessageRan(engine: Engine, initial: Md, s: Server, start: Tx, sql: string)
    requires engine.Valid() && TxOk(engine, initial, s.installed, s.clock, start)
    ensures var tx, sqls := Execute(engine, s.clock, start, sql), start.sqls + [sql];
            var ran := Executions(engine, start.original.json, sqls);
            && tx.original == start.original && tx.sqls == sqls && |ran.signals| == |sqls|
            && LastSignal(tx) == ran.signals[|sqls| - 1] && (Unchanged(tx) <==> !ran.changed)
  {
    ExecuteOk(engine, initial, s.installed, s.clock, start, sql);
    hide Execute, Executions;
    SignalsCount(engine, initial, s, Execute(engine, s.clock, start, sql));
  }

  lemma SignalsCount(engine: Engine, initial: Md, s: Server, tx: Tx)
    requires engine.Valid() && TxOk(engine, initial, s.installed, s.clock + 1, tx)
    ensures |tx.signals| == |tx.sqls|
  {
    ExecutionsKeep(engine, tx.original.json, tx.sqls);
  }

  /** A maintenance job installs its statement, run on the current state, exactly when that changes the
      state, ends in rows and meets the constraints. */
  ghost predicate JobOutcome(engine: Engine, s: Server, job: string, s': Server) {
    var ran := Executions(engine, s.md.json, [job]);
    && s'.sessions == s.sessions && |ran.signals| == 1
    && if ran.changed && ran.signals[0].Rows? && engine.constraintsHold(ran.json, ran.batches)
       then |s'.installed| == |s.installed| + 1 && s.installed <= s'.installed
            && s'.installed[|s.installed|].sqls == [job]
       else s'.installed == s.installed && s'.md == s.md
  }

  lemma JobKeepsInv(engine: Engine, initial: Md, s: Server, job: string)
    requires Inv(engine, initial, s)
    ensures var s' := Compact(engine, s, job).server; Inv(engine, initial, s') && JobOutcome(engine, s, job, s')
  {
    hide Inv, Execute, BeginWriteTx, TxDiff, InstallOk;
    OneStatement(engine, initial, s, job);
    var tx := Execute(engine, s.clock, BeginWriteTx(s), job);
    TickKeepsInv(engine, initial, s, 0);
    CommitKeepsInv(engine, initial, Tick(s), tx);
    assert tx.signals == [LastSignal(tx)] == Executions(engine, s.md.json, [job]).signals;
  }

  lemma StepKeepsInv(engine: Engine, initial: Md, s: Server, a: Action)
    requires Inv(engine, initial, s)
    ensures Inv(engine, initial, Step(engine, s, a).server)
  {
    hide Inv, HttpQuery, WsMessage, TakeLock, Compact;
    match a {
      case Request(id, sql, post) => QueryKeepsInv(engine, initial, s, id, sql, post);
      case Message(id, sql) => MessageKeepsInv(engine, initial, s, id, sql);
      case Lock(id) => LockKeepsInv(engine, initial, s, id);
      case Job(sql) => JobKeepsInv(engine, initial, s, sql);
    }
  }

  function Run(engine: Engine, s: Server, actions: seq<Action>): Server {
    if actions == [] then s else
    Step(engine, Run(engine, s, actions[..|actions| - 1]), actions[|actions| - 1]).server
  }

  function Fresh(initial: Md): Server {
    Server(initial, initial.version + 1, map[], [])
  }

  /** Main result: after any interleaving, the installed transactions form one serial history with
      consecutive ids that ends in the current state. */
  lemma {:induction false} OneSerialHistory(engine: Engine, initial: Md, actions: seq<Action>)
    requires engine.Valid()
    ensures var s := Run(engine, Fresh(initial), actions);
            && Inv(engine, initial, s)
            && LastTx(s.md.json) == LastTx(initial.json) + |s.installed|
    decreases |actions|
  {
    hide Step;
    if actions == [] {
      forall i: nat ensures InstallOk(engine, initial, [], i) {
      }
    } else {
      OneSerialHistory(engine, initial, actions[..|actions| - 1]);
      StepKeepsInv(engine, initial, Run(engine, Fresh(initial), actions[..|actions| - 1]), actions[|actions| - 1]);
    }
    var s := Run(engine, Fresh(initial), actions);
    NumbersConsecutive(engine, initial, s.installed, |s.installed|);
  }

  /** Every installed state has the checksums and sizes of the batches that its statements wrote. */
  lemma InstalledReads(engine: Engine, initial: Md, installed: seq<Install>, i: nat, b: Batch)
    requires HistoryOk(engine, initial, installed) && i < |installed|
    requires var x := installed[i];
             var ran := Executions(engine, x.base.json, x.sqls);
             && x.base.json.Obj? && ran.json.Obj? && b in ran.batches
             && AllDescribed(ran.json, ran.batches) && DistinctFiles(ran.batches)
    ensures Reads(installed[i].md.json, b)
  {
    hide TxDiff, MergePatch, Executions, AllDescribed, DistinctFiles, Reads;
    assert InstallOk(engine, initial, installed, i);
    var ran := Executions(engine, installed[i].base.json, installed[i].sqls);
    NewMdReads(installed[i].base.json, ran.json, ran.batches);
  }

  // ---------- the log ----------

  function LogOf(installed: seq<Install>): seq<TxLogRuns.Tx> {
    seq(|installed|, i requires 0 <= i < |installed| => TxLogRuns.Tx(installed[i].diff, []))
  }

  /** What replay computes from the log entries of the installed transactions is the current state. */
  lemma {:induction false} LogGivesState(engine: Engine, initial: Md, installed: seq<Install>, i: nat)
    requires HistoryOk(engine, initial, installed) && initial.json == EmptyObj && i <= |installed|
    ensures TxLogRuns.Md(LogOf(installed)[..i]) == MdAt(initial, installed, i).json
    ensures i < |installed| ==> installed[i].txId == i + 1 && Versioned(installed[i].diff)
    decreases i
  {
    hide MergePatch, TxDiff, Executions;
    assert InstallOk(engine, initial, installed, i);
    if i > 0 {
      assert InstallOk(engine, initial, installed, i - 1);
      LogGivesState(engine, initial, installed, i - 1);
      assert LogOf(installed)[..i][..i - 1] == LogOf(installed)[..i - 1];
    }
  }
}
