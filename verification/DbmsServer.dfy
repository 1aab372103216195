/** The server as the program has it: an object whose fields the request handlers assign. Valid() is the
    invariant of every interleaving, and each handler says what its client is told. */
module DbmsServer {
  import opened Json
  import opened TxLog
  import opened Commits
  import opened Dbms
  import DbmsRuns

  class DbServer {
    const engine: Engine
    var md: Md
    var clock: nat
    var sessions: map<nat, Session>
    var installed: seq<Install>

    /** The metadata the server started on. */
    ghost const initial: Md

    constructor (engine: Engine, initial: Md)
      requires engine.Valid()
      ensures Valid() && this.engine == engine && this.initial == initial && State() == DbmsRuns.Fresh(initial)
    {
      this.engine, this.initial := engine, initial;
      md, clock, sessions, installed := initial, initial.version + 1, map[], [];
      new;
      DbmsRuns.OneSerialHistory(engine, initial, []);
    }

    ghost function State(): Server
      reads this
    {
      Server(md, clock, sessions, installed)
    }

    /** The installed transactions are one serial history that ends in md, each the execution of its
        statements on its predecessor; sessions hold what their statements gave. */
    ghost predicate Valid()
      reads this
    {
      DbmsRuns.Inv(engine, initial, State())
    }

    /** The new metadata, once its log entry is written; the caller makes it the current one. */
    method Commit(tx: Tx) returns (failed: bool, newMd: Md)
      modifies this`clock, this`installed
      ensures match CommitWriteTx(engine, old(State()), tx)
              case Same => !failed && newMd == md && State() == old(State())
              case ConstraintFailed => failed && State() == old(State())
              case New(s) => !failed && s == Server(newMd, clock, sessions, installed)
      ensures !failed && tx.db.version != md.version && md.json.Obj? && tx.db.json.Obj?
              && AllDescribed(tx.db.json, tx.db.batches) && DistinctFiles(tx.db.batches)
              ==> forall b | b in tx.db.batches :: Reads(newMd.json, b)
    {
      hide AllDescribed, DistinctFiles, Reads;
      if tx.db.version == md.version { return false, md; }
      if !engine.constraintsHold(tx.db.json, tx.db.batches) { return true, md; }
      var txId := LastTx(tx.db.json) + 1;
      var txMd := With(tx.db.json, "_last_tx", Num(txId));
      var mdDiff := Diff(md.json, txMd);
      mdDiff := With(mdDiff, "_tx_log_version", Num(TX_LOG_VERSION));
      var bs := tx.db.batches;
      for i := 0 to |bs|
        invariant mdDiff == AddBatches(BaseDiff(md.json, tx.db.json), bs[..i])
      {
        var tableMd := Lookup(mdDiff, bs[i].table);
        var batchMd := Obj(Fields(Lookup(tableMd, bs[i].file)) + Stamp(bs[i]));
        mdDiff := With(mdDiff, bs[i].table, With(tableMd, bs[i].file, batchMd));
        assert bs[..i + 1][..i] == bs[..i];
      }
      assert bs[..|bs|] == bs;
      newMd := Md(clock, MergePatch(md.json, mdDiff));
      if md.json.Obj? && tx.db.json.Obj? && AllDescribed(tx.db.json, bs) && DistinctFiles(bs) {
        NewMdReads(md.json, tx.db.json, bs);
      }
      clock := clock + 1;
      installed := installed + [Install(md, newMd, mdDiff, txId, tx.sqls, tx.signals)];
      failed := false;
    }

    /** A request, up to the write lock: it sees the current state. */
    method Query(id: nat, sql: string, post: bool) returns (reply: Reply)
      requires id !in sessions
      requires Valid()
      modifies this`clock, this`sessions
      ensures Valid()
      ensures DbmsRuns.RequestOutcome(engine, old(State()), id, sql, post, Stepped(State(), reply))
      ensures Stepped(State(), reply) == HttpQuery(engine, old(State()), id, sql, post)
    {
      ghost var before := State();
      hide DbmsRuns.Inv, DbmsRuns.RequestOutcome, Execute;
      DbmsRuns.QueryKeepsInv(engine, initial, before, id, sql, post);
      DbmsRuns.RequestSeesInstalled(engine, initial, before, id, sql, post);
      var writeDb := Execute(engine, clock, BeginWriteTx(Server(md, clock, sessions, installed)), sql);
      clock := clock + 1;
      reply := NoReply;
      match LastSignal(writeDb)
      case Rows(rows) =>
        if writeDb.db.version == writeDb.original.version {
          reply := Ok(rows);
        } else if post {
          sessions := sessions[id := Waiting(writeDb, true, false)];
        } else {
          reply := Failure("");
        }
      case other => reply := HttpSignal(other, post);
    }

    /** Executes a stale statement again, on the current state, and commits that. */
    method ExecuteAgain(id: nat, w: Session, sql: string) returns (reply: Reply)
      requires w.Waiting? && md.version < clock
      modifies this
      ensures Stepped(State(), reply) == Retry(engine, old(State()), w, sql, id)
    {
      hide Execute;
      var retryMd := md;
      var retryDb := Execute(engine, clock, BeginWriteTx(Server(md, clock, sessions, installed)), sql);
      clock := clock + 1;
      match LastSignal(retryDb)
      case Rows(rows) =>
        var failed, newMd := Commit(retryDb);
        if failed { return Failure("Constraint failed"); }
        reply := if newMd.version == retryMd.version then Ok(rows) else Installed(w, Rows(rows));
        md := newMd;
      case other =>
        if w.http { return HttpSignal(other, true); }
        reply := Handle(id, w.tx, other, false);
    }

    /** Compares, commits, executes again or refuses. */
    method CommitOrRetry(id: nat) returns (reply: Reply)
      requires id in sessions && sessions[id].Waiting? && md.version < clock
      modifies this
      ensures Stepped(State(), reply) == TakeLock(engine, old(State()), id)
    {
      hide Retry, CommitWriteTx;
      var w := sessions[id];
      clock, sessions := clock + 1, sessions - {id};
      if w.tx.original.version == md.version {
        var failed, newMd := Commit(w.tx);
        if failed {
          reply := Failure("Constraint failed");
        } else {
          md := newMd;
          reply := Installed(w, LastSignal(w.tx));
        }
      } else if w.interactive {
        reply := Failure("Conflict");
      } else {
        reply := ExecuteAgain(id, w, if w.tx.sqls == [] then "" else w.tx.sqls[0]);
      }
    }

    /** The critical section of a request, of an interactive COMMIT and of any other message: what is
        installed, exactly when, and what the client is told. */
    method WithLockHeld(id: nat) returns (reply: Reply)
      requires id in sessions && sessions[id].Waiting?
      requires Valid()
      modifies this
      ensures Valid()
      ensures DbmsRuns.LockOutcome(engine, old(State()), id, Stepped(State(), reply))
      ensures installed != old(installed) <==> DbmsRuns.LockInstalls(engine, old(State()), old(sessions[id]))
    {
      ghost var before := State();
      DbmsRuns.NewIdentity(engine, initial, before);
      hide DbmsRuns.Inv, DbmsRuns.LockOutcome, DbmsRuns.LockInstalls, TakeLock;
      DbmsRuns.LockKeepsInv(engine, initial, before, id);
      DbmsRuns.LockInstallsIff(engine, initial, before, id);
      reply := CommitOrRetry(id);
    }

    /** A message on a connection, up to the write lock: inside BEGIN it sees the state it began on. */
    method OnMessage(id: nat, sql: string) returns (reply: Reply)
      requires id in sessions ==> sessions[id].Interactive?
      requires Valid()
      modifies this`clock, this`sessions
      ensures Valid()
      ensures DbmsRuns.MessageOutcome(engine, old(State()), id, sql, Stepped(State(), reply))
      ensures Stepped(State(), reply) == WsMessage(engine, old(State()), id, sql)
    {
      ghost var before := State();
      hide DbmsRuns.Inv, DbmsRuns.MessageOutcome, Execute;
      DbmsRuns.MessageKeepsInv(engine, initial, before, id, sql);
      DbmsRuns.MessageSeesSnapshot(engine, initial, before, id, sql);
      var interactive := id in sessions;
      var writeDb := if interactive then sessions[id].tx else BeginWriteTx(Server(md, clock, sessions, installed));
      writeDb := Execute(engine, clock, writeDb, sql);
      clock := clock + 1;
      if interactive { sessions := sessions[id := Interactive(writeDb)]; }
      match LastSignal(writeDb)
      case Rows(rows) =>
        if writeDb.db.version == writeDb.original.version || interactive {
          reply := Ok(rows);
        } else {
          clock, sessions := clock + 1, sessions[id := Waiting(writeDb, false, false)];
          reply := NoReply;
        }
      case other => reply := Handle(id, writeDb, other, interactive);
    }

    /** The handlers of the transaction statements and of errors: only this connection's transaction
        changes. */
    method Handle(id: nat, writeDb: Tx, signal: Signal, interactive: bool) returns (reply: Reply)
      modifies this`clock, this`sessions
      ensures sessions - {id} == old(sessions) - {id} && clock >= old(clock)
      ensures Stepped(State(), reply) == WsSignal(old(State()), id, writeDb, signal, interactive)
    {
      match signal
      case Raised(message) => reply := Failure(message);
      case Begin =>
        if interactive { return Failure("Cannot nest transactions"); }
        clock, sessions := clock + 1, sessions[id := Interactive(writeDb)];
        reply := Done;
      case Commit =>
        if !interactive { return Failure("No active transaction"); }
        clock, sessions := clock + 1, sessions[id := Waiting(writeDb, false, true)];
        reply := NoReply;
      case Rollback =>
        clock, sessions := clock + 1, sessions - {id};
        reply := Done;
      case Rows(rows) => reply := Ok(rows);
    }

    /** A compaction transaction. */
    method Maintain(job: string)
      requires Valid()
      modifies this
      ensures Valid() && DbmsRuns.JobOutcome(engine, old(State()), job, State())
      ensures Stepped(State(), NoReply) == Compact(engine, old(State()), job)
    {
      ghost var before := State();
      hide DbmsRuns.Inv, DbmsRuns.JobOutcome, Execute;
      DbmsRuns.JobKeepsInv(engine, initial, before, job);
      var writeDb := Execute(engine, clock, BeginWriteTx(Server(md, clock, sessions, installed)), job);
      clock := clock + 1;
      if LastSignal(writeDb).Rows? {
        var failed, newMd := Commit(writeDb);
        if !failed { md := newMd; }
      }
    }
  }
}
