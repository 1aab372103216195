/** What happens outside the condition of TxLogObjects.ObjectsStayReadable, in general: a commit that
    writes other bytes to a path than its log already has can always be followed by commits without
    objects, snapshot steps, crashes and starts after which an object reads back wrongly. So the
    condition is exact. */
module TxLogStaleRead {
  import opened Json
  import opened TxLog
  import opened Wrappers
  import opened TxLogRuns
  import opened TxLogObjects

  const DIFF := Obj(map["_tx_log_version" := Num(TX_LOG_VERSION)])

  /** A commit of nothing that fills the log. */
  const FILL := Commit(DIFF, [], true)

  lemma VersionedDiff()
    ensures Versioned(DIFF)
  {
    assert "_tx_log_version" in DIFF.fields;
  }

  // ---------- continuations of a run ----------

  ghost function Next(s: Sys, walsPerSnapshot: nat, a: Action): (t: Sys)
    requires Inv(s)
    ensures Inv(t)
  {
    StepKeepsInv(s, walsPerSnapshot, a);
    Step(s, walsPerSnapshot, a)
  }

  ghost function RunFrom(s: Sys, walsPerSnapshot: nat, more: seq<Action>): (t: Sys)
    requires Inv(s)
    ensures Inv(t)
  {
    if more == [] then s
    else Next(RunFrom(s, walsPerSnapshot, more[..|more| - 1]), walsPerSnapshot, more[|more| - 1])
  }

  lemma {:induction false} RunContinues(walsPerSnapshot: nat, actions: seq<Action>, more: seq<Action>)
    ensures Run(walsPerSnapshot, actions + more) == RunFrom(Run(walsPerSnapshot, actions), walsPerSnapshot, more)
  {
    hide Inv, Step;
    if more == [] {
      assert actions + more == actions;
    } else {
      RunContinues(walsPerSnapshot, actions, more[..|more| - 1]);
      assert (actions + more)[..|actions + more| - 1] == actions + more[..|more| - 1];
    }
  }

  lemma {:induction false} RunFromJoins(s: Sys, walsPerSnapshot: nat, a: seq<Action>, b: seq<Action>)
    requires Inv(s)
    ensures RunFrom(s, walsPerSnapshot, a + b) == RunFrom(RunFrom(s, walsPerSnapshot, a), walsPerSnapshot, b)
  {
    hide Inv, Next;
    if b == [] {
      assert a + b == a;
    } else {
      RunFromJoins(s, walsPerSnapshot, a, b[..|b| - 1]);
      assert (a + b)[..|a + b| - 1] == a + b[..|b| - 1];
    }
  }

  /** Nothing but snapshot steps, mem-table deletions, crashes, starts and commits without objects. */
  ghost predicate Quiet(more: seq<Action>) {
    forall a | a in more && a.Commit? :: a.objects == []
  }

  ghost predicate Reaches(s: Sys, walsPerSnapshot: nat, t: Sys) {
    Inv(s) && exists more :: Quiet(more) && RunFrom(s, walsPerSnapshot, more) == t
  }

  lemma ReachesSelf(s: Sys, walsPerSnapshot: nat)
    requires Inv(s)
    ensures Reaches(s, walsPerSnapshot, s)
  {
    hide Inv;
    var more: seq<Action> := [];
    assert Quiet(more) && RunFrom(s, walsPerSnapshot, more) == s;
  }

  lemma ReachesThen(s: Sys, walsPerSnapshot: nat, t: Sys, u: Sys)
    requires Reaches(s, walsPerSnapshot, t) && Reaches(t, walsPerSnapshot, u)
    ensures Reaches(s, walsPerSnapshot, u) && Inv(u)
  {
    hide Inv, RunFrom;
    var a :| Quiet(a) && RunFrom(s, walsPerSnapshot, a) == t;
    var b :| Quiet(b) && RunFrom(t, walsPerSnapshot, b) == u;
    RunFromJoins(s, walsPerSnapshot, a, b);
    assert Quiet(a + b);
  }

  lemma ReachesStep(s: Sys, walsPerSnapshot: nat, a: Action)
    requires Inv(s) && (a.Commit? ==> a.objects == [])
    ensures Reaches(s, walsPerSnapshot, Next(s, walsPerSnapshot, a))
  {
    hide Inv, Next;
    assert [a][..0] == [];
    assert RunFrom(s, walsPerSnapshot, []) == s;
    assert RunFrom(s, walsPerSnapshot, [a]) == Next(s, walsPerSnapshot, a);
    assert Quiet([a]);
  }

  // ---------- the leftover entry ----------

  /** Entry `entry` of log file `name` has other bytes for the path of e, an object of transaction
      index `tx`. */
  datatype Leftover = Leftover(name: nat, entry: nat, tx: nat, e: Entry)

  ghost predicate OtherBytes(wals: map<nat, Wal>, x: Leftover) {
    && x.e.Object? && x.name in wals && x.entry < |wals[x.name]|
    && var other := wals[x.name][x.entry];
       other.Object? && other.path == x.e.path && other.bytes != x.e.bytes
  }

  ghost predicate Later(wals: map<nat, Wal>, name: nat) {
    forall n, y | n in wals && name < n && y in wals[n] :: y.Log?
  }

  ghost predicate Trapped(s: Sys, x: Leftover) {
    && Inv(s) && x.tx < |s.txs| && x.name <= x.tx + 1 && x.e in s.txs[x.tx].objects
    && OtherBytes(s.store.disk.wals, x) && Later(s.store.disk.wals, x.name)
  }

  ghost predicate Idle(s: Sys) {
    s.store.mem.Up? && s.store.mem.queue == [] && s.store.mem.running == None
  }

  lemma TrappedSame(s: Sys, t: Sys, x: Leftover)
    requires Trapped(s, x) && Inv(t) && t.txs == s.txs && t.store.disk.wals == s.store.disk.wals
    ensures Trapped(t, x)
  {
  }

  // ---------- restarting ----------

  lemma Restart(s: Sys, walsPerSnapshot: nat) returns (t: Sys)
    requires Inv(s) && s.store.disk.wals != map[]
    ensures Reaches(s, walsPerSnapshot, t) && Inv(t) && Idle(t)
    ensures t.txs == s.txs && t.store.disk == s.store.disk
    ensures SnapshotMd(s.store.disk.snapshots, s.store.disk.latest).Some? && t.store.mem == BootedMem(s.store.disk)
    ensures BootedWals(s.store.disk) == s.store.disk.wals
  {
    hide Md, Inv, Replay, SnapshotMd, BootedMem, BootedWals, Reaches;
    var keep := if s.store.mem.Up? && s.store.mem.active in s.store.disk.wals
                then |s.store.disk.wals[s.store.mem.active]| else 0;
    DiskOf(s);
    hide DiskInv;
    ReachesStep(s, walsPerSnapshot, CrashAt(keep));
    CrashKeepsInv(s, keep);
    var down := Next(s, walsPerSnapshot, CrashAt(keep));
    assert Surviving(s, keep) == |s.txs|;
    assert s.txs[..|s.txs|] == s.txs;
    assert down == Sys(Store(s.store.disk, Down), s.txs, s.cuts);
    DiskOf(down);
    ReachesStep(down, walsPerSnapshot, Start);
    StartKeepsInv(down);
    BootActive(down);
    BootKeepsDisk(down, Down);
    t := Next(down, walsPerSnapshot, Start);
    ReachesThen(s, walsPerSnapshot, down, t);
  }

  // ---------- filling logs until a snapshot job is queued ----------

  /** The store after such a commit: one log entry, the log closed and archived, the next one opened. */
  ghost predicate Filled(s: Store, t: Store, walsPerSnapshot: nat, id: nat)
    requires s.mem.Up?
  {
    var mem, wals := s.mem, s.disk.wals;
    && mem.active in wals
    && t.disk.wals == wals[mem.active := wals[mem.active] + [Log(id, DIFF)]][id + 1 := []]
    && t.mem.Up? && t.mem.memTable == mem.memTable && t.mem.running == mem.running
    && if walsPerSnapshot <= mem.pendingWals + 1
       then |t.mem.queue| == |mem.queue| + 1 && t.mem.queue[|mem.queue|].txId == id
            && t.mem.queue[|mem.queue|].walFiles == Listing(wals.Keys)
       else t.mem.queue == mem.queue && t.mem.pendingWals == mem.pendingWals + 1
  }

  lemma WriteFills(s: Store, walsPerSnapshot: nat, id: nat, md: Json)
    requires s.mem.Up? && s.mem.active in s.disk.wals
    ensures Filled(s, WriteTx(s, walsPerSnapshot, id, md, DIFF, [], true), walsPerSnapshot, id)
  {
    hide Listing, Increasing, ActiveName;
    var last := s.mem.active;
    assert s.disk.wals[last] + [] + [Log(id, DIFF)] == s.disk.wals[last] + [Log(id, DIFF)];
    assert Append(s, id, DIFF, []).disk.wals.Keys == s.disk.wals.Keys;
  }

  lemma FillState(s: Sys, walsPerSnapshot: nat)
    requires Inv(s) && s.store.mem.Up?
    ensures var t := Next(s, walsPerSnapshot, FILL);
            t.txs == s.txs + [Tx(DIFF, [])] && Filled(s.store, t.store, walsPerSnapshot, |s.txs| + 1)
  {
    VersionedDiff();
    DiskOf(s);
    ActiveStays(s);
    hide Inv, DiskInv, Md, MergePatch, Versioned, Filled, WriteTx;
    WriteFills(s.store, walsPerSnapshot, |s.txs| + 1, MergePatch(Md(s.txs), DIFF));
  }

  lemma FillOne(s: Sys, walsPerSnapshot: nat, x: Leftover)
    requires Trapped(s, x) && Idle(s)
    ensures var t := Next(s, walsPerSnapshot, FILL);
            && Trapped(t, x) && t.store.mem.Up? && t.store.mem.running == None
            && t.store.mem.memTable == s.store.mem.memTable
            && if walsPerSnapshot <= s.store.mem.pendingWals + 1
               then |t.store.mem.queue| == 1
                    && x.name in t.store.mem.queue[0].walFiles && x.name < t.store.mem.queue[0].txId
               else Idle(t) && t.store.mem.pendingWals == s.store.mem.pendingWals + 1
  {
    hide Inv, DiskInv, Next, Increasing, Later, OtherBytes, Listing;
    FillState(s, walsPerSnapshot);
    LeftoverStays(s.store.disk.wals, s.store.mem.active, |s.txs| + 1, x);
    assert x.name in s.store.disk.wals.Keys by { TrappedName(s, x); }
  }

  lemma TrappedName(s: Sys, x: Leftover)
    requires Trapped(s, x)
    ensures x.name in s.store.disk.wals
  {
  }

  lemma LeftoverStays(wals: map<nat, Wal>, last: nat, id: nat, x: Leftover)
    requires last in wals && OtherBytes(wals, x) && Later(wals, x.name) && x.name < id + 1
    ensures var wals' := wals[last := wals[last] + [Log(id, DIFF)]][id + 1 := []];
            OtherBytes(wals', x) && Later(wals', x.name)
  {
  }

  lemma {:induction false} Fill(s: Sys, walsPerSnapshot: nat, x: Leftover) returns (t: Sys, job: Job)
    requires Trapped(s, x) && Idle(s)
    ensures Reaches(s, walsPerSnapshot, t) && Trapped(t, x) && t.store.mem.Up?
    ensures t.store.mem.memTable == s.store.mem.memTable && t.store.mem.running == None
    ensures t.store.mem.queue == [job] && x.name in job.walFiles && x.name < job.txId
    decreases walsPerSnapshot - s.store.mem.pendingWals
  {
    hide Inv, Next, Trapped, Reaches;
    TrappedInv(s, x);
    ReachesStep(s, walsPerSnapshot, FILL);
    FillOne(s, walsPerSnapshot, x);
    t := Next(s, walsPerSnapshot, FILL);
    if walsPerSnapshot <= s.store.mem.pendingWals + 1 {
      job := t.store.mem.queue[0];
    } else {
      var first := t;
      t, job := Fill(first, walsPerSnapshot, x);
      ReachesThen(s, walsPerSnapshot, first, t);
    }
  }

  lemma TrappedInv(s: Sys, x: Leftover)
    requires Trapped(s, x)
    ensures Inv(s) && s.store.disk.wals != map[]
  {
  }

  // ---------- running a job ----------

  /** s with its snapshot thread at another phase and other objects stored. */
  ghost predicate Working(s: Sys, t: Sys, job: Job, phase: Phase) {
    && Inv(t) && t.txs == s.txs && t.store.disk.wals == s.store.disk.wals
    && t.store.mem.Up? && s.store.mem.Up? && t.store.mem.memTable == s.store.mem.memTable
    && t.store.mem.running == Some(Running(job, Existing(job.walFiles, s.store.disk.wals), phase))
  }

  lemma WorkOne(s: Sys, t: Sys, walsPerSnapshot: nat, job: Job, phase: Phase)
    requires Working(s, t, job, phase) && (phase.Unpack? || phase.PutSnapshot? || phase.PutLatest?)
    ensures var r := Running(job, Existing(job.walFiles, s.store.disk.wals), phase);
            var u := Next(t, walsPerSnapshot, Snapshotter);
            && Reaches(t, walsPerSnapshot, u) && u.store.disk == JobDisk(t.store.disk, r)
            && JobNext(t.store.disk, r).Some? && Working(s, u, job, JobNext(t.store.disk, r).value.phase)
  {
    hide Reaches, Existing;
    ReachesStep(t, walsPerSnapshot, Snapshotter);
    hide Inv;
  }

  lemma TakeQueued(s: Sys, walsPerSnapshot: nat, job: Job)
    requires Inv(s) && s.store.mem.Up? && s.store.mem.queue == [job] && s.store.mem.running == None
    ensures var t := Next(s, walsPerSnapshot, Snapshotter);
            Reaches(s, walsPerSnapshot, t) && Working(s, t, job, Unpack(0, 0))
  {
    hide Reaches, Existing;
    ReachesStep(s, walsPerSnapshot, Snapshotter);
    hide Inv;
  }

  /** Entry by entry, file by file. */
  lemma {:induction false} UnpackTo(s: Sys, t: Sys, walsPerSnapshot: nat, job: Job, i: nat, j: nat, m: nat, q: nat)
    returns (u: Sys)
    requires Working(s, t, job, Unpack(i, j))
    requires var files := Existing(job.walFiles, s.store.disk.wals);
             && i <= m <= |files| && (i == m ==> j <= q) && (m == |files| ==> q == 0)
             && (m < |files| ==> q <= |s.store.disk.wals[files[m]]|)
             && (i < m ==> j <= |s.store.disk.wals[files[i]]|)
    ensures Reaches(t, walsPerSnapshot, u) && Working(s, u, job, Unpack(m, q))
    decreases m - i, if i < m then |s.store.disk.wals[Existing(job.walFiles, s.store.disk.wals)[i]]| - j else q - j
  {
    hide Inv, Next, Reaches, Existing;
    if i == m && j == q {
      ReachesSelf(t, walsPerSnapshot);
      u := t;
    } else {
      WorkOne(s, t, walsPerSnapshot, job, Unpack(i, j));
      var next := Next(t, walsPerSnapshot, Snapshotter);
      var files := Existing(job.walFiles, s.store.disk.wals);
      assert files[i] in files;
      if j < |s.store.disk.wals[files[i]]| {
        u := UnpackTo(s, next, walsPerSnapshot, job, i, j + 1, m, q);
      } else {
        u := UnpackTo(s, next, walsPerSnapshot, job, i + 1, 0, m, q);
      }
      ReachesThen(t, walsPerSnapshot, next, u);
    }
  }

  /** The job up to the change of the latest snapshot, before anything is deleted. */
  lemma ChangePointer(s: Sys, walsPerSnapshot: nat, job: Job) returns (t: Sys)
    requires Inv(s) && s.store.mem.Up? && s.store.mem.queue == [job] && s.store.mem.running == None
    ensures Reaches(s, walsPerSnapshot, t) && Inv(t) && t.txs == s.txs && t.store.disk.wals == s.store.disk.wals
    ensures t.store.disk.latest == Some(job.txId)
  {
    hide Inv, Next, Reaches, Existing;
    TakeQueued(s, walsPerSnapshot, job);
    var taken := Next(s, walsPerSnapshot, Snapshotter);
    var files := Existing(job.walFiles, s.store.disk.wals);
    assert forall f | f in files :: f in s.store.disk.wals;
    var unpacked := UnpackTo(s, taken, walsPerSnapshot, job, 0, 0, |files|, 0);
    WorkOne(s, unpacked, walsPerSnapshot, job, Unpack(|files|, 0));
    var put := Next(unpacked, walsPerSnapshot, Snapshotter);
    WorkOne(s, put, walsPerSnapshot, job, PutSnapshot);
    var moved := Next(put, walsPerSnapshot, Snapshotter);
    WorkOne(s, moved, walsPerSnapshot, job, PutLatest(put.store.disk.latest));
    t := Next(moved, walsPerSnapshot, Snapshotter);
    ReachesThen(s, walsPerSnapshot, taken, unpacked);
    ReachesThen(s, walsPerSnapshot, unpacked, put);
    ReachesThen(s, walsPerSnapshot, put, moved);
    ReachesThen(s, walsPerSnapshot, moved, t);
  }

  // ---------- the stale read ----------

  /** Once the snapshot pointer has passed the log, a restart forgets the good copy. */
  lemma BootedEmpty(s: Sys, x: Leftover)
    requires Trapped(s, x) && s.store.disk.latest.Some? && x.name < s.store.disk.latest.value
    requires SnapshotMd(s.store.disk.snapshots, s.store.disk.latest).Some?
    requires BootedWals(s.store.disk) == s.store.disk.wals
    ensures BootedMem(s.store.disk).memTable == map[]
  {
    assert Later(s.store.disk.wals, x.name);
    BootedNewer(s, x.name);
    hide Inv, Trapped, Later, BootedFiles, BootedWals, BootedMem, SnapshotMd, ExtractFiles;
    NoObjectsInFiles(BootedFiles(s.store.disk), s.store.disk.wals, x.name);
  }

  lemma BootedNewer(s: Sys, name: nat)
    requires Inv(s) && s.store.disk.latest.Some? && name < s.store.disk.latest.value
    requires SnapshotMd(s.store.disk.snapshots, s.store.disk.latest).Some?
    requires BootedWals(s.store.disk) == s.store.disk.wals
    ensures forall f | f in BootedFiles(s.store.disk) :: f in s.store.disk.wals && name < f
    ensures BootedMem(s.store.disk).memTable == ExtractFiles(map[], BootedFiles(s.store.disk), s.store.disk.wals)
  {
    hide Md, BootedWals, Increasing, ExtractFiles;
    DiskOf(s);
    DiskSnapshot(s);
    FilesInOrder(s, BootedFiles(s.store.disk));
  }

  lemma {:induction false} NoObjectsInFiles(files: seq<nat>, wals: map<nat, Wal>, name: nat)
    requires Later(wals, name) && forall f | f in files :: f in wals && name < f
    ensures ExtractFiles(map[], files, wals) == map[]
  {
    if files != [] {
      var last := files[|files| - 1];
      assert forall f | f in files[..|files| - 1] :: f in files;
      NoObjectsInFiles(files[..|files| - 1], wals, name);
      assert last in files && last in wals && name < last;
      assert forall y | y in wals[last] :: y.Log?;
      NothingToExtract(map[], wals[last]);
    }
  }

  lemma {:induction false} NothingToExtract(os: map<Path, Bytes>, w: Wal)
    requires forall y | y in w :: y.Log?
    ensures Extract(os, w) == os
  {
    if w != [] {
      assert w[|w| - 1] in w;
      NothingToExtract(os, w[..|w| - 1]);
    }
  }

  ghost predicate Stale(s: Sys, k: nat, e: Entry) {
    && s.store.mem.Up? && k < |s.txs| && e in s.txs[k].objects
    && !(e.Object? && GetObject(s.store, e.path) == Some(e.bytes))
  }

  /** The next job unpacks the log once more, and is at the leftover entry. */
  lemma UnpackLeftover(s: Sys, walsPerSnapshot: nat, x: Leftover, job: Job) returns (t: Sys)
    requires Trapped(s, x) && s.store.mem.Up? && s.store.mem.queue == [job] && s.store.mem.running == None
    requires s.store.mem.memTable == map[] && x.name in job.walFiles
    ensures Reaches(s, walsPerSnapshot, t) && Stale(t, x.tx, x.e)
  {
    hide Inv, Next, Reaches, Existing;
    TakeQueued(s, walsPerSnapshot, job);
    var taken := Next(s, walsPerSnapshot, Snapshotter);
    var files := Existing(job.walFiles, s.store.disk.wals);
    assert forall f | f in files :: f in s.store.disk.wals;
    assert x.name in files;
    var m: nat :| m < |files| && files[m] == x.name;
    var at := UnpackTo(s, taken, walsPerSnapshot, job, 0, 0, m, x.entry);
    WorkOne(s, at, walsPerSnapshot, job, Unpack(m, x.entry));
    t := Next(at, walsPerSnapshot, Snapshotter);
    assert t.store.disk.objects == PutEntry(at.store.disk.objects, s.store.disk.wals[x.name][x.entry]);
    assert x.e.path in t.store.disk.objects && x.e.path !in t.store.mem.memTable;
    ReachesThen(s, walsPerSnapshot, taken, at);
    ReachesThen(s, walsPerSnapshot, at, t);
  }

  lemma {:induction false} LeftoverComesBack(s: Sys, walsPerSnapshot: nat, x: Leftover) returns (t: Sys)
    requires Trapped(s, x)
    ensures Reaches(s, walsPerSnapshot, t) && Stale(t, x.tx, x.e)
  {
    hide Inv, Trapped, Reaches, Later, OtherBytes, BootedMem, BootedWals, SnapshotMd, Stale;
    TrappedInv(s, x);
    var idle := Restart(s, walsPerSnapshot);
    TrappedSame(s, idle, x);
    var queued, job := Fill(idle, walsPerSnapshot, x);
    TrappedInv(queued, x);
    var pointed := ChangePointer(queued, walsPerSnapshot, job);
    TrappedSame(queued, pointed, x);
    TrappedInv(pointed, x);
    var again := Restart(pointed, walsPerSnapshot);
    TrappedSame(pointed, again, x);
    BootedEmpty(pointed, x);
    var queued2, job2 := Fill(again, walsPerSnapshot, x);
    t := UnpackLeftover(queued2, walsPerSnapshot, x, job2);
    ReachesThen(s, walsPerSnapshot, idle, queued);
    ReachesThen(s, walsPerSnapshot, queued, pointed);
    ReachesThen(s, walsPerSnapshot, pointed, again);
    ReachesThen(s, walsPerSnapshot, again, queued2);
    ReachesThen(s, walsPerSnapshot, queued2, t);
  }

  // ---------- the exact condition ----------

  ghost predicate ReadsRight(s: Sys) {
    forall k: nat, e | k < |s.txs| && e in s.txs[k].objects ::
      e.Object? && GetObject(Boot(s.store), e.path) == Some(e.bytes)
  }

  lemma CommitState(s: Sys, walsPerSnapshot: nat, diff: Json, objs: Wal, full: bool)
    requires Inv(s) && CanCommit(s, diff, objs)
    ensures var t, id, mem := Next(s, walsPerSnapshot, Commit(diff, objs, full)), |s.txs| + 1, s.store.mem;
            var wals := s.store.disk.wals[mem.active := s.store.disk.wals[mem.active] + objs + [Log(id, diff)]];
            && t.txs == s.txs + [Tx(diff, objs)] && t.store.mem.Up?
            && t.store.disk.wals == if full then wals[id + 1 := []] else wals
  {
    hide Inv, Md, MergePatch, Versioned, Listing, Increasing, ActiveName;
  }

  lemma TrapSprings(s: Sys, walsPerSnapshot: nat, diff: Json, objs: Wal, full: bool, x: Leftover)
    requires Inv(s) && CanCommit(s, diff, objs) && x.e in objs && x.tx == |s.txs|
    requires x.name == s.store.mem.active && OtherBytes(s.store.disk.wals, x)
    ensures Trapped(Next(s, walsPerSnapshot, Commit(diff, objs, full)), x)
  {
    hide Next, Increasing, OtherBytes, Later;
    CommitState(s, walsPerSnapshot, diff, objs, full);
    DiskOf(s);
    ActiveStays(s);
    LastCutBound(s);
    ActiveIsNewest(s);
    hide Inv, DiskInv, CanCommit;
    LeftoverWritten(s.store.disk.wals, objs, Log(|s.txs| + 1, diff), |s.txs| + 1, x);
  }

  lemma ActiveIsNewest(s: Sys)
    requires DiskInv(s) && s.store.mem.Up?
    ensures forall n | n in s.store.disk.wals :: n <= s.store.mem.active
  {
    ActiveStays(s);
    CutsBelowLast(s.cuts, |s.txs|);
    forall n | n in s.store.disk.wals ensures n <= s.store.mem.active { assert n in s.store.disk.wals.Keys; }
  }

  lemma LeftoverWritten(wals: map<nat, Wal>, objs: Wal, log: Entry, id: nat, x: Leftover)
    requires OtherBytes(wals, x) && x.name < id + 1 && forall n | n in wals :: n <= x.name
    ensures var wals' := wals[x.name := wals[x.name] + objs + [log]];
            && OtherBytes(wals', x) && Later(wals', x.name)
            && OtherBytes(wals'[id + 1 := []], x) && Later(wals'[id + 1 := []], x.name)
  {
    var w := wals[x.name];
    assert (w + objs + [log])[x.entry] == w[x.entry];
  }

  lemma FindLeftover(wals: map<nat, Wal>, name: nat, tx: nat, e: Entry, other: Entry) returns (x: Leftover)
    requires name in wals && other in wals[name]
    requires e.Object? && other.Object? && other.path == e.path && other.bytes != e.bytes
    ensures x.name == name && x.tx == tx && x.e == e && OtherBytes(wals, x)
  {
    var j: nat :| j < |wals[name]| && wals[name][j] == other;
    x := Leftover(name, j, tx, e);
  }

  /** After an unclean commit of any run, clean or not, some quiet continuation reads other bytes. */
  lemma UncleanGoesStale(s: Sys, walsPerSnapshot: nat, a: Action) returns (t: Sys, k: nat, e: Entry)
    requires Inv(s) && !Clean(s, a)
    ensures Reaches(Next(s, walsPerSnapshot, a), walsPerSnapshot, t) && Stale(t, k, e)
  {
    hide Inv, Next, Reaches, OtherBytes, Trapped;
    var w := s.store.disk.wals[s.store.mem.active];
    var e1, e2 :| e1 in a.objects && e2 in w + a.objects && e1.Object? && e2.Object? && e2.path == e1.path
                  && e2.bytes != e1.bytes;
    t, k := Next(s, walsPerSnapshot, a), |s.txs|;
    CommitState(s, walsPerSnapshot, a.diff, a.objects, a.full);
    if e2 in a.objects {
      ReachesSelf(t, walsPerSnapshot);
      e := if GetObject(t.store, e1.path) == Some(e1.bytes) then e2 else e1;
    } else {
      var x := FindLeftover(s.store.disk.wals, s.store.mem.active, k, e1, e2);
      TrapSprings(s, walsPerSnapshot, a.diff, a.objects, a.full, x);
      t := LeftoverComesBack(t, walsPerSnapshot, x);
      e := e1;
    }
  }

  lemma {:induction false} CleanPrefix(walsPerSnapshot: nat, actions: seq<Action>, k: nat)
    requires CleanRun(walsPerSnapshot, actions) && k <= |actions|
    ensures CleanRun(walsPerSnapshot, actions[..k])
  {
    hide Clean, Run;
    if k == |actions| {
      assert actions[..k] == actions;
    } else {
      CleanPrefix(walsPerSnapshot, actions[..|actions| - 1], k);
      assert actions[..|actions| - 1][..k] == actions[..k];
    }
  }

  lemma {:induction false} QuietIsClean(walsPerSnapshot: nat, actions: seq<Action>, more: seq<Action>)
    requires CleanRun(walsPerSnapshot, actions) && Quiet(more)
    ensures CleanRun(walsPerSnapshot, actions + more)
    decreases |more|
  {
    hide Run;
    if more == [] {
      assert actions + more == actions;
    } else {
      var front, a := more[..|more| - 1], more[|more| - 1];
      assert a in more;
      QuietIsClean(walsPerSnapshot, actions, front);
      assert (actions + more)[..|actions + more| - 1] == actions + front;
      assert Clean(Run(walsPerSnapshot, actions + front), a);
    }
  }

  lemma {:induction false} UncleanAt(walsPerSnapshot: nat, actions: seq<Action>) returns (k: nat)
    requires !CleanRun(walsPerSnapshot, actions)
    ensures k < |actions| && !Clean(Run(walsPerSnapshot, actions[..k]), actions[k])
  {
    hide Clean, Run;
    var front := actions[..|actions| - 1];
    if CleanRun(walsPerSnapshot, front) {
      k := |front|;
    } else {
      k := UncleanAt(walsPerSnapshot, front);
      assert front[..k] == actions[..k];
    }
  }

  /** Whatever a run has done so far, no quiet continuation of it ever reads a logged object wrongly. */
  ghost predicate AlwaysReadsRight(walsPerSnapshot: nat, actions: seq<Action>) {
    forall k: nat, more | k <= |actions| && Quiet(more) :: ReadsRight(Run(walsPerSnapshot, actions[..k] + more))
  }

  lemma {:induction false} CleanReadsRight(walsPerSnapshot: nat, actions: seq<Action>)
    requires CleanRun(walsPerSnapshot, actions)
    ensures ReadsRight(Run(walsPerSnapshot, actions))
  {
    hide Run, Boot, GetObject, CleanRun;
    var s := Run(walsPerSnapshot, actions);
    forall k: nat, e | k < |s.txs| && e in s.txs[k].objects
      ensures e.Object? && GetObject(Boot(s.store), e.path) == Some(e.bytes)
    {
      ObjectsStayReadable(walsPerSnapshot, actions, k, e);
    }
  }

  /** Some quiet continuation of the run up to and including action k reads wrongly. */
  lemma {:induction false} UncleanReadsWrong(walsPerSnapshot: nat, actions: seq<Action>, k: nat)
    returns (more: seq<Action>)
    requires k < |actions| && !Clean(Run(walsPerSnapshot, actions[..k]), actions[k])
    ensures Quiet(more) && !ReadsRight(Run(walsPerSnapshot, actions[..k + 1] + more))
  {
    hide Run, Clean, Inv, Next, RunFrom, GetObject, Quiet;
    var s := Run(walsPerSnapshot, actions[..k]);
    var t, i, e := UncleanGoesStale(s, walsPerSnapshot, actions[k]);
    RunOne(walsPerSnapshot, actions[..k], actions[k]);
    assert actions[..k] + [actions[k]] == actions[..k + 1];
    more :| Quiet(more) && RunFrom(Next(s, walsPerSnapshot, actions[k]), walsPerSnapshot, more) == t;
    RunContinues(walsPerSnapshot, actions[..k + 1], more);
  }

  lemma {:induction false} RunOne(walsPerSnapshot: nat, actions: seq<Action>, a: Action)
    ensures Run(walsPerSnapshot, actions + [a]) == Next(Run(walsPerSnapshot, actions), walsPerSnapshot, a)
  {
    hide Inv, Step;
    assert (actions + [a])[..|actions|] == actions;
  }

  /** Main result: objects stay readable through every quiet continuation of every part of a run exactly
      when each of its commits met the condition. */
  lemma {:induction false} ReadableIff(walsPerSnapshot: nat, actions: seq<Action>)
    ensures CleanRun(walsPerSnapshot, actions) <==> AlwaysReadsRight(walsPerSnapshot, actions)
  {
    hide CleanRun, Run, Clean, ReadsRight, Quiet;
    if CleanRun(walsPerSnapshot, actions) {
      forall k: nat, more | k <= |actions| && Quiet(more)
        ensures ReadsRight(Run(walsPerSnapshot, actions[..k] + more))
      {
        CleanPrefix(walsPerSnapshot, actions, k);
        QuietIsClean(walsPerSnapshot, actions[..k], more);
        CleanReadsRight(walsPerSnapshot, actions[..k] + more);
      }
    } else {
      var k := UncleanAt(walsPerSnapshot, actions);
      var more := UncleanReadsWrong(walsPerSnapshot, actions, k);
    }
  }

  // ---------- a run that is not clean ----------

  const P := Path("t", 1)
  const TORN: Entry := Object(P, [0])
  const KEPT: Entry := Object(P, [1])

  /** A crash tears transaction 1 off after its object; the restarted store reuses id and path. */
  const REUSE: seq<Action> := [Start, Commit(DIFF, [TORN], false), CrashAt(1), Start, Commit(DIFF, [KEPT], false)]

  lemma {:induction false} FirstStart(walsPerSnapshot: nat)
    ensures var s := Run(walsPerSnapshot, REUSE[..1]);
            s.txs == [] && s.cuts == [1] && s.store.mem.Up? && s.store.mem.active == 1
            && s.store.disk.wals == map[1 := []]
  {
    hide Increasing, KeepFrom, Md;
    RunOne(walsPerSnapshot, [], Start);
    assert [] + [Start] == REUSE[..1];
    var s := Init();
    StartKeepsInv(s);
    BootActive(s);
    BootKeepsDisk(s, Down);
    FirstWal(s);
  }

  lemma {:induction false} TornCommit(walsPerSnapshot: nat)
    ensures var s := Run(walsPerSnapshot, REUSE[..2]);
            && s.txs == [Tx(DIFF, [TORN])] && s.cuts == [1] && s.store.mem.Up? && s.store.mem.active == 1
            && s.store.disk.wals == map[1 := [TORN, Log(1, DIFF)]]
  {
    hide Md, MergePatch, Run, Inv, Versioned;
    FirstStart(walsPerSnapshot);
    VersionedDiff();
    RunOne(walsPerSnapshot, REUSE[..1], REUSE[1]);
    assert REUSE[..1] + [REUSE[1]] == REUSE[..2];
    assert [] + [TORN] + [Log(1, DIFF)] == [TORN, Log(1, DIFF)];
    CommitState(Run(walsPerSnapshot, REUSE[..1]), walsPerSnapshot, DIFF, [TORN], false);
  }

  lemma {:induction false} TornOff(walsPerSnapshot: nat)
    ensures var s := Run(walsPerSnapshot, REUSE[..3]); s.txs == [] && s.store.disk.wals == map[1 := [TORN]]
  {
    hide Md, MergePatch, Run, Inv, Versioned;
    TornCommit(walsPerSnapshot);
    RunOne(walsPerSnapshot, REUSE[..2], REUSE[2]);
    assert REUSE[..2] + [REUSE[2]] == REUSE[..3];
    assert [TORN, Log(1, DIFF)][..1] == [TORN];
    assert Logs([TORN]) == [] by { NoLogs([TORN]); }
  }

  lemma {:induction false} ReuseIsUnclean(walsPerSnapshot: nat)
    ensures !CleanRun(walsPerSnapshot, REUSE)
  {
    hide Md, Run, Inv;
    TornOff(walsPerSnapshot);
    RunOne(walsPerSnapshot, REUSE[..3], Start);
    assert REUSE[..3] + [Start] == REUSE[..4];
    var down, s := Run(walsPerSnapshot, REUSE[..3]), Run(walsPerSnapshot, REUSE[..4]);
    StartKeepsInv(down);
    DiskOf(down);
    BootKeepsDisk(down, Down);
    BootActive(down);
    VersionedDiff();
    assert !Clean(s, REUSE[4]);
    assert REUSE[..4] == REUSE[..|REUSE| - 1];
  }

  /** Whatever number of logs makes a snapshot, this run can go on to a stale read. */
  lemma {:induction false} StaleRead(walsPerSnapshot: nat)
    ensures !AlwaysReadsRight(walsPerSnapshot, REUSE)
  {
    ReuseIsUnclean(walsPerSnapshot);
    ReadableIff(walsPerSnapshot, REUSE);
  }
}
