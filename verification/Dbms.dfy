/** The server: HTTP requests and WebSocket connections that execute statements on a snapshot and
    install the result under the write lock, retrying or refusing when the snapshot is stale. */
module Dbms {
  import opened Json
  import opened TxLog
  import opened Commits

  /** Metadata with its identity, which is what `eq` compares. */
  datatype Md = Md(version: nat, json: Json)

  datatype WriteDb = WriteDb(version: nat, json: Json, batches: seq<Batch>)

  /** How executing a text of statements ends: with rows, a runtime or parse error, or one of the
      conditions that BEGIN, COMMIT and ROLLBACK signal. */
  datatype Signal = Rows(rows: string) | Raised(message: string) | Begin | Commit | Rollback

  datatype Executed = Executed(json: Json, batches: seq<Batch>, changed: bool, signal: Signal)

  predicate Unreserved(batches: seq<Batch>) {
    forall b | b in batches :: b.table !in {"_last_tx", "_tx_log_version"}
  }

  /** Statement execution and the check of the constraint definitions. */
  datatype Engine = Engine(execute: (Json, seq<Batch>, string) -> Executed, constraintsHold: (Json,
      seq<Batch>) -> bool) {
    /** Unchanged metadata stays the same object; statements never touch the reserved keys. */
    ghost predicate Valid() {
      forall json, batches, sql | Unreserved(batches) ::
        var x := execute(json, batches, sql);
        (!x.changed ==> x.json == json) && LastTx(x.json) == LastTx(json) && Unreserved(x.batches)
    }
  }

  /** A transaction in progress. since, sqls and signals record, for the statements below, how many
      transactions were installed when it began and what it has executed. */
  datatype Tx = Tx(original: Md, db: WriteDb, since: nat, sqls: seq<string>, signals: seq<Signal>)

  /** A connection inside BEGIN, or a client about to take the write lock. */
  datatype Session = Interactive(tx: Tx) | Waiting(tx: Tx, http: bool, interactive: bool)

  /** A transaction that was installed: its log entry and what it executed. */
  datatype Install = Install(base: Md, md: Md, diff: Json, txId: int, sqls: seq<string>, signals: seq<Signal>)

  datatype Server = Server(md: Md, clock: nat, sessions: map<nat, Session>, installed: seq<Install>)

  datatype Reply = NoReply | Ok(rows: string) | Created(rows: string) | Done | Failure(message: string)

  datatype Stepped = Stepped(server: Server, reply: Reply)

  // ---------- transactions ----------

  function BeginWriteTx(s: Server): Tx {
    Tx(s.md, WriteDb(s.md.version, s.md.json, []), |s.installed|, [], [])
  }

  function Execute(engine: Engine, clock: nat, tx: Tx, sql: string): Tx {
    var x := engine.execute(tx.db.json, tx.db.batches, sql);
    Tx(tx.original, WriteDb(if x.changed then clock else tx.db.version, x.json, x.batches),
       tx.since, tx.sqls + [sql], tx.signals + [x.signal])
  }

  function LastSignal(tx: Tx): Signal {
    if tx.signals == [] then Rows("") else tx.signals[|tx.signals| - 1]
  }

  predicate Unchanged(tx: Tx) { tx.db.version == tx.original.version }

  datatype Committed = Same | ConstraintFailed | New(server: Server)

  /** commit-write-tx and, for New, the assignment of dbms-db. */
  function CommitWriteTx(engine: Engine, s: Server, tx: Tx): Committed {
    if tx.db.version == s.md.version then Same
    else if !engine.constraintsHold(tx.db.json, tx.db.batches) then ConstraintFailed
    else
      var diff := TxDiff(s.md.json, tx.db.json, tx.db.batches);
      var md := Md(s.clock, MergePatch(s.md.json, diff));
      New(Server(md, s.clock + 1, s.sessions,
                 s.installed + [Install(s.md, md, diff, LastTx(tx.db.json) + 1, tx.sqls, tx.signals)]))
  }

  // ---------- one client, one step ----------

  function SetSession(s: Server, id: nat, session: Session): Server {
    Server(s.md, s.clock + 1, s.sessions[id := session], s.installed)
  }

  function Tick(s: Server): Server {
    Server(s.md, s.clock + 1, s.sessions, s.installed)
  }

  function Forget(s: Server, id: nat): Server {
    Server(s.md, s.clock + 1, s.sessions - {id}, s.installed)
  }

  /** A request up to the point where it needs the lock. */
  function HttpQuery(engine: Engine, s: Server, id: nat, sql: string, post: bool): Stepped {
    if id in s.sessions then Stepped(s, NoReply) else
    var tx := Execute(engine, s.clock, BeginWriteTx(s), sql);
    match LastSignal(tx)
    case Rows(rows) =>
      if Unchanged(tx) then Stepped(Tick(s), Ok(rows))
      else if post then Stepped(SetSession(s, id, Waiting(tx, true, false)), NoReply)
      else Stepped(Tick(s), Failure(""))
    case other => Stepped(Tick(s), HttpSignal(other, post))
  }

  function HttpSignal(signal: Signal, post: bool): Reply {
    match signal
    case Raised(message) => Failure(message)
    case Rollback => if post then Done else Failure("")
    case _ => Failure("Explicit transactions not supported")
  }

  /** A client takes the lock: installs if nothing was installed since it began; otherwise an
      interactive transaction is refused and any other is executed again on the current state. */
  function TakeLock(engine: Engine, s: Server, id: nat): Stepped {
    if id !in s.sessions || s.sessions[id].Interactive? then Stepped(s, NoReply) else
    var w := s.sessions[id];
    var s' := Forget(s, id);
    if w.tx.original.version == s.md.version then
      match CommitWriteTx(engine, s', w.tx)
      case ConstraintFailed => Stepped(s', Failure("Constraint failed"))
      case Same => Stepped(s', Installed(w, LastSignal(w.tx)))
      case New(s'') => Stepped(s'', Installed(w, LastSignal(w.tx)))
    else if w.interactive then Stepped(s', Failure("Conflict"))
    else Retry(engine, s', w, if w.tx.sqls == [] then "" else w.tx.sqls[0], id)
  }

  function Installed(w: Session, signal: Signal): Reply
    requires w.Waiting?
  {
    if w.interactive then Done
    else if w.http then Created(if signal.Rows? then signal.rows else "")
    else Ok(if signal.Rows? then signal.rows else "")
  }

  function Retry(engine: Engine, s: Server, w: Session, sql: string, id: nat): Stepped
    requires w.Waiting?
  {
    var tx := Execute(engine, s.clock, BeginWriteTx(s), sql);
    var s' := Tick(s);
    match LastSignal(tx)
    case Rows(rows) =>
      (match CommitWriteTx(engine, s', tx)
       case ConstraintFailed => Stepped(s', Failure("Constraint failed"))
       case Same => Stepped(s', Ok(rows))
       case New(s'') => Stepped(s'', Installed(w, Rows(rows))))
    case other =>
      if w.http then Stepped(s', HttpSignal(other, true))
      else WsSignal(s', id, w.tx, other, false)
  }

  /** A message on a connection up to the point where it needs the lock. */
  function WsMessage(engine: Engine, s: Server, id: nat, sql: string): Stepped {
    if id in s.sessions && s.sessions[id].Waiting? then Stepped(s, NoReply) else
    var interactive := id in s.sessions;
    var tx := Execute(engine, s.clock, if interactive then s.sessions[id].tx else BeginWriteTx(s), sql);
    var s' := if interactive then SetSession(s, id, Interactive(tx)) else Tick(s);
    match LastSignal(tx)
    case Rows(rows) =>
      if Unchanged(tx) || interactive then Stepped(s', Ok(rows))
      else Stepped(SetSession(s', id, Waiting(tx, false, false)), NoReply)
    case other => WsSignal(s', id, tx, other, interactive)
  }

  /** The handlers for errors and for the transaction statements; tx is what the message ran on. */
  function WsSignal(s: Server, id: nat, tx: Tx, signal: Signal, interactive: bool): Stepped {
    match signal
    case Raised(message) => Stepped(s, Failure(message))
    case Begin =>
      if interactive then Stepped(s, Failure("Cannot nest transactions"))
      else Stepped(SetSession(s, id, Interactive(tx)), Done)
    case Commit =>
      if interactive then Stepped(SetSession(s, id, Waiting(tx, false, true)), NoReply)
      else Stepped(s, Failure("No active transaction"))
    case Rollback => Stepped(Forget(s, id), Done)
    case Rows(rows) => Stepped(s, Ok(rows))
  }

  /** A maintenance job, which runs on a write transaction under the lock. */
  function Compact(engine: Engine, s: Server, job: string): Stepped {
    var tx := Execute(engine, s.clock, BeginWriteTx(s), job);
    if !LastSignal(tx).Rows? then Stepped(Tick(s), NoReply) else
    match CommitWriteTx(engine, Tick(s), tx)
    case New(s') => Stepped(s', NoReply)
    case _ => Stepped(Tick(s), NoReply)
  }

  datatype Action =
    | Request(id: nat, sql: string, post: bool)
    | Message(id: nat, sql: string)
    | Lock(id: nat)
    | Job(sql: string)

  function Step(engine: Engine, s: Server, a: Action): Stepped {
    match a
    case Request(id, sql, post) => HttpQuery(engine, s, id, sql, post)
    case Message(id, sql) => WsMessage(engine, s, id, sql)
    case Lock(id) => TakeLock(engine, s, id)
    case Job(sql) => Compact(engine, s, sql)
  }
}
