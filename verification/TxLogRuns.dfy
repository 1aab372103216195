/** Runs of the disk store: commits, rotations, snapshot-thread steps, crashes and restarts in any
    order. The history (`txs`, `cuts`) is what the run has made durable so far; the theorems say
    that replay, which sees only the disk, gets exactly that history back. */
module TxLogRuns {
  import opened Json
  import opened JsonPatches
  import opened TxLog
  import opened Wrappers

  datatype Tx = Tx(diff: Json, objects: Wal)

  /** txs: the transactions whose log entry is on disk, ids from 1. cuts: the names given to log
      files so far; the last one is the file being appended to. */
  datatype Sys = Sys(store: Store, txs: seq<Tx>, cuts: seq<nat>)

  datatype Action =
    | Commit(diff: Json, objects: Wal, full: bool)
    | Snapshotter
    | DropMemPath(path: Path)
    | CrashAt(keep: nat)
    | Start

  function Md(txs: seq<Tx>): Json {
    if txs == [] then EmptyObj else MergePatch(Md(txs[..|txs| - 1]), txs[|txs| - 1].diff)
  }

  function Logs(w: Wal): Wal {
    if w == [] then []
    else Logs(w[..|w| - 1]) + if w[|w| - 1].Log? then [w[|w| - 1]] else []
  }

  function LogSlice(txs: seq<Tx>, lo: nat, hi: nat): (r: Wal)
    requires 1 <= lo <= hi <= |txs| + 1
  {
    seq(hi - lo, i requires 0 <= i < hi - lo => Log(lo + i, txs[lo + i - 1].diff))
  }

  function Init(): Sys {
    Sys(Store(Disk(map[], map[], map[], None, map[]), Down), [], [1])
  }

  predicate CanCommit(s: Sys, diff: Json, objs: Wal) {
    && s.store.mem.Up? && s.store.mem.active in s.store.disk.wals
    && Versioned(diff)
    && forall e | e in objs :: e.Object? && e.path.txId == |s.txs| + 1
  }

  function Last(cuts: seq<nat>): nat
    requires cuts != []
  {
    cuts[|cuts| - 1]
  }

  /** How many transactions a crash leaves when `keep` entries of the active log survive. */
  function Surviving(s: Sys, keep: nat): int
    requires s.cuts != []
  {
    var st := s.store;
    if st.mem.Up? && st.mem.active in st.disk.wals && keep < |st.disk.wals[st.mem.active]|
    then Last(s.cuts) + |Logs(st.disk.wals[st.mem.active][..keep])| - 1 else |s.txs|
  }

  function Step(s: Sys, walsPerSnapshot: nat, a: Action): Sys
    requires s.cuts != []
  {
    match a
    case Commit(diff, objs, full) =>
      if !CanCommit(s, diff, objs) then s else
      var txId := |s.txs| + 1;
      Sys(WriteTx(s.store, walsPerSnapshot, txId, MergePatch(Md(s.txs), diff), diff, objs, full),
          s.txs + [Tx(diff, objs)],
          if full then s.cuts + [txId + 1] else s.cuts)
    case Snapshotter => s.(store := SnapshotStep(s.store))
    case DropMemPath(p) => s.(store := DropMem(s.store, p))
    case CrashAt(keep) =>
      var left := Surviving(s, keep);
      s.(store := Crash(s.store, keep), txs := if 0 <= left <= |s.txs| then s.txs[..left] else s.txs)
    case Start => s.(store := Boot(s.store))
  }

  // ---------- invariant ----------

  ghost predicate CutsInv(cuts: seq<nat>, n: nat) {
    cuts != [] && cuts[0] == 1 && Increasing(cuts) && Last(cuts) <= n + 1
  }

  ghost predicate NamesInv(cuts: seq<nat>, wals: set<nat>, archive: set<nat>)
    requires cuts != []
  {
    && (forall n :: n in archive <==> n in cuts && n != Last(cuts))
    && (forall n | n in wals :: n in cuts)
  }

  /** The active log is the one named last; only a store that was never started has none. */
  ghost predicate ActiveInv(s: Sys)
    requires s.cuts != []
  {
    && (s.store.mem.Up? ==> s.store.mem.active == Last(s.cuts))
    && (Last(s.cuts) in s.store.disk.wals
        || (s.store.disk.wals == map[] && s.txs == [] && s.cuts == [1] && s.store.mem.Down? &&
            s.store.disk.latest.None?))
  }

  ghost predicate AllVersioned(txs: seq<Tx>) {
    forall i | 0 <= i < |txs| :: Versioned(txs[i].diff)
  }

  /** Log file w holds exactly the log entries of transactions lo up to hi. */
  ghost predicate Holds(txs: seq<Tx>, lo: nat, hi: nat, w: Wal) {
    1 <= lo <= hi <= |txs| + 1 && Logs(w) == LogSlice(txs, lo, hi)
  }

  ghost predicate ArchivedAt(txs: seq<Tx>, cuts: seq<nat>, archive: map<nat, Wal>, i: nat) {
    i < |cuts| - 1 ==> cuts[i] in archive && Holds(txs, cuts[i], cuts[i + 1], archive[cuts[i]])
  }

  ghost predicate ArchiveInv(txs: seq<Tx>, cuts: seq<nat>, archive: map<nat, Wal>) {
    forall i: nat :: ArchivedAt(txs, cuts, archive, i)
  }

  ghost predicate WalsInv(txs: seq<Tx>, last: nat, wals: map<nat, Wal>, archive: map<nat, Wal>) {
    && (forall n | n in wals && n in archive :: wals[n] == archive[n])
    && (last in wals ==> Holds(txs, last, |txs| + 1, wals[last]))
  }

  /** The transaction the snapshot pointer stands at, 0 without a snapshot. */
  function Covered(latest: Option<nat>): nat {
    if latest.Some? then latest.value else 0
  }

  ghost predicate SnapInv(txs: seq<Tx>, cuts: seq<nat>, latest: Option<nat>, snapshots: map<nat, Json>) {
    latest.Some? ==>
      && 1 <= latest.value <= |txs| && latest.value + 1 in cuts
      && latest.value in snapshots && snapshots[latest.value] == Md(txs[..latest.value])
  }

  /** No log newer than the snapshot is missing. */
  ghost predicate KeptInv(cuts: seq<nat>, covered: nat, wals: set<nat>) {
    wals != {} ==> forall c | c in cuts && covered < c :: c in wals
  }

  ghost predicate JobInv(txs: seq<Tx>, cuts: seq<nat>, job: Job) {
    && 1 <= job.txId <= |txs| && job.txId + 1 in cuts
    && job.md == Md(txs[..job.txId])
    && (forall f | f in job.walFiles :: f <= job.txId)
  }

  ghost predicate PhaseInv(r: Running, latest: Option<nat>, snapshots: map<nat, Json>) {
    && (forall f | f in r.files :: f in r.job.walFiles)
    && match r.phase
       case Unpack(_, _) => Covered(latest) < r.job.txId
       case PutSnapshot => Covered(latest) < r.job.txId
       case PutLatest(prev) =>
         && Covered(latest) < r.job.txId && prev == latest
         && r.job.txId in snapshots && snapshots[r.job.txId] == r.job.md
       case DeletePrevious(prev) => latest == Some(r.job.txId) && (prev.Some? ==> prev.value < r.job.txId)
       case DeleteWals(_) => latest == Some(r.job.txId)
       case DeleteMem(_) => latest == Some(r.job.txId)
  }

  ghost predicate QueueInv(txs: seq<Tx>, cuts: seq<nat>, floor: nat, queue: seq<Job>) {
    && (forall i | 0 <= i < |queue| :: JobInv(txs, cuts, queue[i]) && floor < queue[i].txId)
    && (forall i, j | 0 <= i < j < |queue| :: queue[i].txId < queue[j].txId)
  }

  /** The transaction that every waiting job must be newer than. */
  function Floor(running: Option<Running>, latest: Option<nat>): nat {
    if running.Some? then running.value.job.txId else Covered(latest)
  }

  ghost predicate ThreadInv(txs: seq<Tx>, cuts: seq<nat>, mem: Mem, latest: Option<nat>, snapshots: map<nat, Json>) {
    mem.Up? ==>
      && QueueInv(txs, cuts, Floor(mem.running, latest), mem.queue)
      && (mem.running.Some? ==> JobInv(txs, cuts, mem.running.value.job) && PhaseInv(mem.running.value, latest,
          snapshots))
  }

  ghost predicate DiskInv(s: Sys) {
    && CutsInv(s.cuts, |s.txs|)
    && NamesInv(s.cuts, s.store.disk.wals.Keys, s.store.disk.archive.Keys)
    && ActiveInv(s)
    && AllVersioned(s.txs)
    && ArchiveInv(s.txs, s.cuts, s.store.disk.archive)
    && WalsInv(s.txs, Last(s.cuts), s.store.disk.wals, s.store.disk.archive)
    && SnapInv(s.txs, s.cuts, s.store.disk.latest, s.store.disk.snapshots)
    && KeptInv(s.cuts, Covered(s.store.disk.latest), s.store.disk.wals.Keys)
  }

  ghost predicate Inv(s: Sys) {
    DiskInv(s) && ThreadInv(s.txs, s.cuts, s.store.mem, s.store.disk.latest, s.store.disk.snapshots)
  }

  // ---------- small facts about logs ----------

  lemma {:induction false} LogsAppend(a: Wal, b: Wal)
    ensures Logs(a + b) == Logs(a) + Logs(b)
    decreases |b|
  {
    if b == [] {
      assert a + b == a;
    } else {
      var w := a + b;
      assert w[..|w| - 1] == a + b[..|b| - 1];
      LogsAppend(a, b[..|b| - 1]);
    }
  }

  lemma {:induction false} NoLogs(w: Wal)
    requires AllObjects(w)
    ensures Logs(w) == []
  {
    if w != [] {
      assert w[|w| - 1] in w;
      NoLogs(w[..|w| - 1]);
    }
  }

  lemma {:induction false} LogsOfPrefix(w: Wal, keep: nat)
    requires keep <= |w|
    ensures Logs(w[..keep]) <= Logs(w)
  {
    LogsAppend(w[..keep], w[keep..]);
    assert w[..keep] + w[keep..] == w;
  }

  lemma {:induction false} MdVersioned(txs: seq<Tx>)
    requires txs != [] && AllVersioned(txs)
    ensures Versioned(Md(txs)) && Md(txs) != EmptyObj
  {
    var diff := txs[|txs| - 1].diff;
    assert "_tx_log_version" in diff.fields;
    assert MergePatch(Lookup(Md(txs[..|txs| - 1]), "_tx_log_version"), Num(TX_LOG_VERSION)) == Num(TX_LOG_VERSION);
    assert "_tx_log_version" in Md(txs).fields;
  }

  lemma {:induction false} HoldsExtend(txs: seq<Tx>, more: seq<Tx>, lo: nat, hi: nat, w: Wal)
    requires Holds(txs, lo, hi, w)
    ensures Holds(txs + more, lo, hi, w)
  {
    assert LogSlice(txs + more, lo, hi) == LogSlice(txs, lo, hi);
  }

  lemma {:induction false} HoldsCut(txs: seq<Tx>, left: nat, lo: nat, hi: nat, w: Wal)
    requires Holds(txs, lo, hi, w) && hi - 1 <= left <= |txs|
    ensures Holds(txs[..left], lo, hi, w)
  {
    assert LogSlice(txs[..left], lo, hi) == LogSlice(txs, lo, hi);
  }

  lemma LogsWritten(w: Wal, objs: Wal, e: Entry)
    requires AllObjects(objs) && e.Log?
    ensures Logs(w + objs + [e]) == Logs(w) + [e]
  {
    LogsAppend(w + objs, [e]);
    LogsAppend(w, objs);
    NoLogs(objs);
    assert Logs([e]) == [e];
    hide Logs;
    assert Logs(w) + [] == Logs(w);
  }

  lemma SliceGrows(txs: seq<Tx>, tx: Tx, lo: nat)
    requires 1 <= lo <= |txs| + 1
    ensures LogSlice(txs + [tx], lo, |txs| + 2) == LogSlice(txs, lo, |txs| + 1) + [Log(|txs| + 1, tx.diff)]
  {
  }

  lemma {:induction false} HoldsAppend(txs: seq<Tx>, tx: Tx, lo: nat, w: Wal, objs: Wal)
    requires Holds(txs, lo, |txs| + 1, w) && AllObjects(objs)
    ensures Holds(txs + [tx], lo, |txs| + 2, w + objs + [Log(|txs| + 1, tx.diff)])
  {
    hide Logs, LogSlice, AllObjects;
    LogsWritten(w, objs, Log(|txs| + 1, tx.diff));
    SliceGrows(txs, tx, lo);
  }

  lemma {:induction false} HoldsPrefix(txs: seq<Tx>, lo: nat, w: Wal, keep: nat)
    requires Holds(txs, lo, |txs| + 1, w) && keep <= |w|
    ensures lo + |Logs(w[..keep])| - 1 <= |txs|
    ensures Holds(txs[..lo + |Logs(w[..keep])| - 1], lo, lo + |Logs(w[..keep])|, w[..keep])
  {
    LogsOfPrefix(w, keep);
    var k := |Logs(w[..keep])|;
    assert |LogSlice(txs, lo, |txs| + 1)| == |txs| + 1 - lo;
    assert LogSlice(txs[..lo + k - 1], lo, lo + k) == LogSlice(txs, lo, |txs| + 1)[..k];
  }

  lemma {:induction false} CutsBelowLast(cuts: seq<nat>, n: nat)
    requires CutsInv(cuts, n)
    ensures forall c | c in cuts :: 1 <= c <= Last(cuts)
    ensures 1 <= Last(cuts)
    ensures forall i | 0 <= i < |cuts| - 1 :: cuts[i] < Last(cuts)
  {
  }

  // ---------- one lemma per piece of the invariant ----------

  lemma {:induction false} CutsAppend(cuts: seq<nat>, n: nat)
    requires CutsInv(cuts, n) && Last(cuts) <= n
    ensures CutsInv(cuts + [n + 1], n) && Last(cuts + [n + 1]) == n + 1
    ensures forall c :: c in cuts + [n + 1] <==> c in cuts || c == n + 1
    ensures forall c | c in cuts :: c <= n
  {
    CutsBelowLast(cuts, n);
  }

  lemma {:induction false} ArchiveExtends(txs: seq<Tx>, more: seq<Tx>, cuts: seq<nat>, archive: map<nat, Wal>)
    requires ArchiveInv(txs, cuts, archive)
    ensures ArchiveInv(txs + more, cuts, archive)
  {
    forall i: nat ensures ArchivedAt(txs + more, cuts, archive, i) {
      assert ArchivedAt(txs, cuts, archive, i);
      if i < |cuts| - 1 { HoldsExtend(txs, more, cuts[i], cuts[i + 1], archive[cuts[i]]); }
    }
  }

  lemma {:induction false} ArchiveCut(txs: seq<Tx>, left: nat, cuts: seq<nat>, archive: map<nat, Wal>)
    requires CutsInv(cuts, |txs|) && ArchiveInv(txs, cuts, archive) && Last(cuts) - 1 <= left <= |txs|
    ensures ArchiveInv(txs[..left], cuts, archive)
  {
    forall i: nat ensures ArchivedAt(txs[..left], cuts, archive, i) {
      assert ArchivedAt(txs, cuts, archive, i);
      if i < |cuts| - 1 {
        assert cuts[i + 1] <= Last(cuts);
        HoldsCut(txs, left, cuts[i], cuts[i + 1], archive[cuts[i]]);
      }
    }
  }

  lemma {:induction false} ArchiveRotates(txs: seq<Tx>, cuts: seq<nat>, archive: map<nat, Wal>, w: Wal)
    requires CutsInv(cuts, |txs|) && ArchiveInv(txs, cuts, archive) && Holds(txs, Last(cuts), |txs| + 1, w)
    ensures ArchiveInv(txs, cuts + [|txs| + 1], archive[Last(cuts) := w])
  {
    var cuts', archive' := cuts + [|txs| + 1], archive[Last(cuts) := w];
    forall i: nat ensures ArchivedAt(txs, cuts', archive', i) {
      assert ArchivedAt(txs, cuts, archive, i);
      if i < |cuts| - 1 { assert cuts[i] < Last(cuts); }
    }
  }

  lemma {:induction false} SnapExtends(txs: seq<Tx>, more: seq<Tx>, cuts: seq<nat>, moreCuts: seq<nat>,
                                       latest: Option<nat>, snapshots: map<nat, Json>)
    requires SnapInv(txs, cuts, latest, snapshots)
    ensures SnapInv(txs + more, cuts + moreCuts, latest, snapshots)
  {
    if latest.Some? { assert (txs + more)[..latest.value] == txs[..latest.value]; }
  }

  lemma {:induction false} JobExtends(txs: seq<Tx>, more: seq<Tx>, cuts: seq<nat>, moreCuts: seq<nat>, job: Job)
    requires JobInv(txs, cuts, job)
    ensures JobInv(txs + more, cuts + moreCuts, job)
  {
    assert (txs + more)[..job.txId] == txs[..job.txId];
  }

  lemma {:induction false} ThreadExtends(txs: seq<Tx>, more: seq<Tx>, cuts: seq<nat>, moreCuts: seq<nat>,
                                         mem: Mem, mem': Mem, latest: Option<nat>, snapshots: map<nat, Json>)
    requires ThreadInv(txs, cuts, mem, latest, snapshots)
    requires mem.Up? && mem'.Up? && mem'.queue == mem.queue && mem'.running == mem.running
    ensures ThreadInv(txs + more, cuts + moreCuts, mem', latest, snapshots)
  {
    hide JobInv, PhaseInv;
    forall i | 0 <= i < |mem.queue| ensures JobInv(txs + more, cuts + moreCuts, mem.queue[i]) {
      JobExtends(txs, more, cuts, moreCuts, mem.queue[i]);
    }
    if mem.running.Some? { JobExtends(txs, more, cuts, moreCuts, mem.running.value.job); }
  }

  // ---------- commit ----------

  ghost function AppendOnly(s: Sys, diff: Json, objs: Wal): Sys
    requires CanCommit(s, diff, objs)
  {
    Sys(Append(s.store, |s.txs| + 1, diff, objs), s.txs + [Tx(diff, objs)], s.cuts)
  }

  lemma {:induction false} AppendKeepsDisk(s: Sys, diff: Json, objs: Wal)
    requires DiskInv(s) && CanCommit(s, diff, objs)
    ensures DiskInv(AppendOnly(s, diff, objs))
  {
    hide Increasing, Holds, ArchiveInv, Md;
    var s' := AppendOnly(s, diff, objs);
    var tx, last := Tx(diff, objs), Last(s.cuts);
    HoldsAppend(s.txs, tx, last, s.store.disk.wals[last], objs);
    ArchiveExtends(s.txs, [tx], s.cuts, s.store.disk.archive);
    assert s.cuts + [] == s.cuts;
    SnapExtends(s.txs, [tx], s.cuts, [], s.store.disk.latest, s.store.disk.snapshots);
    assert last !in s.store.disk.archive.Keys;
    assert s'.store.disk.wals.Keys == s.store.disk.wals.Keys;
  }

  lemma {:induction false} RotateKeepsDisk(s: Sys, mem: Mem)
    requires DiskInv(s) && s.store.disk.wals.Keys != {} && Last(s.cuts) <= |s.txs|
    requires mem.Up? && mem.active == |s.txs| + 1
    ensures DiskInv(Sys(Store(RotatedDisk(s.store.disk, |s.txs|), mem), s.txs, s.cuts + [|s.txs| + 1]))
  {
    hide Holds, ArchiveInv, Md, Increasing;
    var n, last := |s.txs|, Last(s.cuts);
    var disk, disk' := s.store.disk, RotatedDisk(s.store.disk, n);
    CutsAppend(s.cuts, n);
    ActiveIsLast(s);
    ArchiveRotates(s.txs, s.cuts, disk.archive, disk.wals[last]);
    SnapExtends(s.txs, [], s.cuts, [n + 1], disk.latest, disk.snapshots);
    assert s.txs + [] == s.txs;
    EmptyHolds(s.txs);
    assert n + 1 !in disk'.archive;
  }

  lemma {:induction false} EmptyHolds(txs: seq<Tx>)
    ensures Holds(txs, |txs| + 1, |txs| + 1, [])
  {
  }

  lemma {:induction false} ActiveIsLast(s: Sys)
    requires DiskInv(s) && s.store.disk.wals.Keys != {}
    ensures ActiveName(s.store.disk.wals) == Last(s.cuts) && Last(s.cuts) in s.store.disk.wals
    ensures Last(s.cuts) !in s.store.disk.archive
  {
    hide Holds, ArchiveInv, Md, Increasing, WalsInv, SnapInv;
    CutsBelowLast(s.cuts, |s.txs|);
    assert Last(s.cuts) in s.store.disk.wals;
  }

  lemma {:induction false} RotateKeepsThread(s: Sys, walsPerSnapshot: nat)
    requires DiskInv(s) && s.store.mem.Up? && Last(s.cuts) <= |s.txs|
    requires ThreadInv(s.txs, s.cuts, s.store.mem, s.store.disk.latest, s.store.disk.snapshots)
    requires JobsBelow(s.store.mem, s.store.disk.latest, |s.txs|)
    ensures var n := |s.txs|;
            ThreadInv(s.txs, s.cuts + [n + 1], RotatedMem(s.store, walsPerSnapshot, n, Md(s.txs)),
                      s.store.disk.latest, s.store.disk.snapshots)
  {
    hide PhaseInv, DiskInv, Md;
    var n, mem := |s.txs|, s.store.mem;
    var mem' := RotatedMem(s.store, walsPerSnapshot, n, Md(s.txs));
    assert s.txs + [] == s.txs;
    ThreadExtends(s.txs, [], s.cuts, [n + 1], mem, mem'.(queue := mem.queue), s.store.disk.latest,
        s.store.disk.snapshots);
    if |mem'.queue| > |mem.queue| { NewJob(s); }
  }

  ghost predicate JobsBelow(mem: Mem, latest: Option<nat>, n: nat) {
    mem.Up? ==> Floor(mem.running, latest) < n && forall i | 0 <= i < |mem.queue| :: mem.queue[i].txId < n
  }

  lemma {:induction false} NewJob(s: Sys)
    requires DiskInv(s) && s.store.mem.Up? && Last(s.cuts) <= |s.txs|
    ensures JobInv(s.txs, s.cuts + [|s.txs| + 1],
                   Job(Listing(s.store.disk.wals.Keys), Md(s.txs), |s.txs|, s.store.mem.memTable.Keys))
  {
    hide Holds, ArchiveInv, Increasing, Md;
    CutsAppend(s.cuts, |s.txs|);
    CutsBelowLast(s.cuts, |s.txs|);
    assert s.txs[..|s.txs|] == s.txs;
  }

  lemma {:induction false} JobsOlder(s: Sys)
    requires Inv(s)
    ensures JobsBelow(s.store.mem, s.store.disk.latest, |s.txs| + 1)
  {
  }

  lemma {:induction false} CommitKeepsInv(s: Sys, walsPerSnapshot: nat, diff: Json, objs: Wal, full: bool)
    requires Inv(s) && CanCommit(s, diff, objs)
    ensures Inv(Step(s, walsPerSnapshot, Commit(diff, objs, full)))
  {
    hide ThreadInv, DiskInv, JobsBelow;
    var s1 := AppendOnly(s, diff, objs);
    AppendKeepsDisk(s, diff, objs);
    assert s.cuts + [] == s.cuts;
    ThreadExtends(s.txs, [Tx(diff, objs)], s.cuts, [], s.store.mem, s1.store.mem, s.store.disk.latest,
        s.store.disk.snapshots);
    if full {
      CommitRotates(s, diff, objs);
      JobsOlder(s);
      JobsBelowSame(s.store.mem, s1.store.mem, s.store.disk.latest, |s1.txs|);
      RotateKeepsThread(s1, walsPerSnapshot);
      RotateKeepsDisk(s1, RotatedMem(s1.store, walsPerSnapshot, |s1.txs|, Md(s1.txs)));
    }
  }

  lemma {:induction false} JobsBelowSame(mem: Mem, mem': Mem, latest: Option<nat>, n: nat)
    requires JobsBelow(mem, latest, n) && mem.Up? && mem'.Up? && mem'.queue == mem.queue && mem'.running == mem.running
    ensures JobsBelow(mem', latest, n)
  {
  }

  lemma {:induction false} CommitRotates(s: Sys, diff: Json, objs: Wal)
    requires DiskInv(s) && CanCommit(s, diff, objs)
    ensures var s1 := AppendOnly(s, diff, objs);
            Last(s1.cuts) <= |s1.txs| && s1.store.disk.wals.Keys != {} && Md(s1.txs) == MergePatch(Md(s.txs), diff)
  {
    var s1 := AppendOnly(s, diff, objs);
    assert s1.txs[..|s.txs|] == s.txs;
    assert s.store.mem.active in s1.store.disk.wals.Keys;
  }

  // ---------- snapshot thread ----------

  lemma {:induction false} TakeJobKeepsThread(txs: seq<Tx>, cuts: seq<nat>, mem: Mem, disk: Disk)
    requires ThreadInv(txs, cuts, mem, disk.latest, disk.snapshots)
    requires mem.Up? && mem.running.None? && mem.queue != []
    ensures ThreadInv(txs, cuts, mem.(queue := mem.queue[1..], running := Some(TakeJob(mem.queue[0], disk.wals))),
                      disk.latest, disk.snapshots)
  {
    hide JobInv;
    assert JobInv(txs, cuts, mem.queue[0]);
  }

  lemma {:induction false} NextKeepsPhase(disk: Disk, r: Running)
    requires PhaseInv(r, disk.latest, disk.snapshots)
    ensures var disk', next := JobDisk(disk, r), JobNext(disk, r);
            if next.Some? then PhaseInv(next.value, disk'.latest, disk'.snapshots) && next.value.job == r.job
            else disk' == disk && disk.latest == Some(r.job.txId)
  {
  }

  lemma {:induction false} NextKeepsThread(txs: seq<Tx>, cuts: seq<nat>, mem: Mem, disk: Disk)
    requires ThreadInv(txs, cuts, mem, disk.latest, disk.snapshots) && mem.Up? && mem.running.Some?
    ensures var disk' := JobDisk(disk, mem.running.value);
            ThreadInv(txs, cuts, mem.(running := JobNext(disk, mem.running.value)), disk'.latest, disk'.snapshots)
  {
    hide JobInv, PhaseInv, JobDisk, JobNext;
    NextKeepsPhase(disk, mem.running.value);
  }

  lemma {:induction false} SnapshotKeepsThread(s: Sys)
    requires ThreadInv(s.txs, s.cuts, s.store.mem, s.store.disk.latest, s.store.disk.snapshots)
    ensures var st := SnapshotStep(s.store); ThreadInv(s.txs, s.cuts, st.mem, st.disk.latest, st.disk.snapshots)
  {
    hide ThreadInv, JobDisk, JobNext;
    var mem := s.store.mem;
    if mem.Up? {
      if mem.running.Some? {
        NextKeepsThread(s.txs, s.cuts, mem, s.store.disk);
      } else if mem.queue != [] {
        TakeJobKeepsThread(s.txs, s.cuts, mem, s.store.disk);
      }
    }
  }

  /** Only logs covered by the new snapshot are ever deleted. */
  lemma {:induction false} JobWals(s: Sys, r: Running)
    requires DiskInv(s) && JobInv(s.txs, s.cuts, r.job) && PhaseInv(r, s.store.disk.latest, s.store.disk.snapshots)
    requires Last(s.cuts) in s.store.disk.wals
    ensures var disk, disk' := s.store.disk, JobDisk(s.store.disk, r);
            && disk'.wals.Keys <= disk.wals.Keys && (forall n | n in disk'.wals :: disk'.wals[n] == disk.wals[n])
            && Last(s.cuts) in disk'.wals
            && (forall n | n in disk.wals && Covered(disk'.latest) < n :: n in disk'.wals)
            && Covered(disk.latest) <= Covered(disk'.latest)
            && disk'.archive == disk.archive
  {
    hide Holds, ArchiveInv, Md, Increasing, ActiveInv, KeptInv, SnapInv, WalsInv;
    CutsBelowLast(s.cuts, |s.txs|);
    assert r.job.txId < Last(s.cuts);
    if r.phase.DeleteWals? && r.phase.file < |r.files| {
      assert r.files[r.phase.file] in r.files;
    }
  }

  lemma {:induction false} JobSnaps(txs: seq<Tx>, cuts: seq<nat>, disk: Disk, r: Running)
    requires JobInv(txs, cuts, r.job) && PhaseInv(r, disk.latest, disk.snapshots)
    requires SnapInv(txs, cuts, disk.latest, disk.snapshots)
    ensures SnapInv(txs, cuts, JobDisk(disk, r).latest, JobDisk(disk, r).snapshots)
  {
    hide Md;
  }

  lemma {:induction false} JobDiskKeeps(s: Sys, r: Running, mem: Mem)
    requires DiskInv(s) && JobInv(s.txs, s.cuts, r.job) && PhaseInv(r, s.store.disk.latest, s.store.disk.snapshots)
    requires s.store.mem.Up? && mem.Up? && mem.active == s.store.mem.active
    ensures DiskInv(Sys(Store(JobDisk(s.store.disk, r), mem), s.txs, s.cuts))
  {
    hide Holds, ArchiveInv, Md, Increasing, SnapInv, JobDisk, JobInv, PhaseInv;
    JobWals(s, r);
    JobSnaps(s.txs, s.cuts, s.store.disk, r);
    assert JobDisk(s.store.disk, r).wals.Keys <= s.store.disk.wals.Keys;
  }

  lemma {:induction false} SnapshotKeepsInv(s: Sys)
    requires Inv(s)
    ensures Inv(s.(store := SnapshotStep(s.store)))
  {
    hide DiskInv, JobDisk, JobNext, JobInv, PhaseInv, QueueInv;
    SnapshotKeepsThread(s);
    if s.store.mem.Up? && s.store.mem.running.Some? {
      JobDiskKeeps(s, s.store.mem.running.value, SnapshotStep(s.store).mem);
    } else {
      SameDiskKeeps(s, SnapshotStep(s.store).mem);
    }
  }

  lemma {:induction false} SameDiskKeeps(s: Sys, mem: Mem)
    requires DiskInv(s) && mem.Up? == s.store.mem.Up?
    requires mem.Up? ==> mem.active == s.store.mem.active
    ensures DiskInv(Sys(Store(s.store.disk, mem), s.txs, s.cuts))
  {
  }

  lemma {:induction false} DropKeepsInv(s: Sys, p: Path)
    requires Inv(s)
    ensures Inv(s.(store := DropMem(s.store, p)))
  {
    hide DiskInv, JobInv;
    if CanDrop(s.store, p) { SameDiskKeeps(s, DropMem(s.store, p).mem); }
  }

  // ---------- crash ----------

  lemma {:induction false} CrashKeepsInv(s: Sys, keep: nat)
    requires Inv(s)
    ensures 0 <= Last(s.cuts) - 1 <= Surviving(s, keep) <= |s.txs|
    ensures Inv(Sys(Crash(s.store, keep), s.txs[..Surviving(s, keep)], s.cuts))
  {
    hide ThreadInv;
    CrashKeepsActive(s, keep);
    CrashKeepsDisk(s, keep);
    assert ThreadInv(s.txs[..Surviving(s, keep)], s.cuts, Down, s.store.disk.latest, s.store.disk.snapshots) by {
      DownThread(s.txs[..Surviving(s, keep)], s.cuts, s.store.disk.latest, s.store.disk.snapshots);
    }
  }

  lemma {:induction false} DownThread(txs: seq<Tx>, cuts: seq<nat>, latest: Option<nat>, snapshots: map<nat, Json>)
    ensures ThreadInv(txs, cuts, Down, latest, snapshots)
  {
  }

  lemma {:induction false} CrashKeepsActive(s: Sys, keep: nat)
    requires DiskInv(s)
    ensures Last(s.cuts) - 1 <= Surviving(s, keep) <= |s.txs|
    ensures CrashedWals(s.store, keep).Keys == s.store.disk.wals.Keys
    ensures forall n | n in s.store.disk.wals && n != Last(s.cuts) :: CrashedWals(s.store,
        keep)[n] == s.store.disk.wals[n]
    ensures WalsInv(s.txs[..Surviving(s, keep)], Last(s.cuts), CrashedWals(s.store, keep), s.store.disk.archive)
  {
    hide Increasing, ArchiveInv, SnapInv, KeptInv, Md;
    var st, last := s.store, Last(s.cuts);
    if st.mem.Up? && st.mem.active in st.disk.wals && keep < |st.disk.wals[st.mem.active]| {
      HoldsPrefix(s.txs, last, st.disk.wals[last], keep);
    } else {
      assert s.txs[..|s.txs|] == s.txs;
    }
    assert last !in st.disk.archive.Keys;
  }

  lemma {:induction false} CrashKeepsDisk(s: Sys, keep: nat)
    requires DiskInv(s)
    requires Last(s.cuts) - 1 <= Surviving(s, keep) <= |s.txs|
    requires CrashedWals(s.store, keep).Keys == s.store.disk.wals.Keys
    requires WalsInv(s.txs[..Surviving(s, keep)], Last(s.cuts), CrashedWals(s.store, keep), s.store.disk.archive)
    ensures DiskInv(Sys(Crash(s.store, keep), s.txs[..Surviving(s, keep)], s.cuts))
  {
    hide Increasing, ArchiveInv, WalsInv, Md, Surviving, CrashedWals;
    var left := Surviving(s, keep);
    CutsBelowLast(s.cuts, |s.txs|);
    ArchiveCut(s.txs, left, s.cuts, s.store.disk.archive);
    if s.store.disk.latest.Some? {
      var t := s.store.disk.latest.value;
      assert t + 1 <= Last(s.cuts);
      assert s.txs[..left][..t] == s.txs[..t];
    }
    if s.store.disk.wals == map[] { assert CrashedWals(s.store, keep) == map[]; }
  }

  // ---------- restart ----------

  function End(txs: seq<Tx>, cuts: seq<nat>, i: nat): nat
    requires i < |cuts|
  {
    if i + 1 < |cuts| then cuts[i + 1] else |txs| + 1
  }

  /** Opening the latest log and fetching the archive changes at most one thing: a store that was
      never started gets its first, empty log. */
  lemma {:induction false} BootKeepsDisk(s: Sys, mem: Mem)
    requires DiskInv(s) && (mem.Up? ==> mem.active == Last(s.cuts))
    ensures ActiveName(s.store.disk.wals) == Last(s.cuts)
    ensures var wals := BootedWals(s.store.disk);
            && Last(s.cuts) in wals
            && DiskInv(Sys(Store(s.store.disk.(wals := wals), mem), s.txs, s.cuts))
            && (s.store.disk.wals != map[] ==> wals == s.store.disk.wals)
  {
    hide Md, ArchiveInv, Increasing;
    var disk := s.store.disk;
    if Last(s.cuts) in disk.wals {
      assert Last(s.cuts) in disk.wals.Keys;
      ActiveIsLast(s);
      assert Opened(disk.wals) == disk.wals;
      FetchChangesNothing(s);
    } else {
      assert disk.wals.Keys == {};
      assert Opened(disk.wals) == map[1 := []];
      assert BootedWals(disk) == map[1 := []];
      EmptyHolds(s.txs);
    }
  }

  /** Every archived log newer than the snapshot is still here, unchanged. */
  lemma {:induction false} FetchChangesNothing(s: Sys)
    requires DiskInv(s) && Last(s.cuts) in s.store.disk.wals
    ensures Fetched(s.store.disk.wals, s.store.disk.archive, s.store.disk.latest) == s.store.disk.wals
  {
    hide Md, ArchiveInv, Increasing, Holds, SnapInv;
    var disk := s.store.disk;
    forall n | n in disk.archive && disk.latest.Some? && disk.latest.value < n
      ensures n in disk.wals && disk.wals[n] == disk.archive[n]
    {
      assert n in disk.archive.Keys;
      assert Last(s.cuts) in disk.wals.Keys;
    }
  }

  /** The log files that replay applies: those after the snapshot, plus possibly one more, the log
      that is named with the snapshot's own transaction id and holds only that transaction. */
  lemma {:induction false} FilesAreSuffix(s: Sys, names: seq<nat>) returns (i: nat)
    requires CutsInv(s.cuts, |s.txs|) && NamesInv(s.cuts, s.store.disk.wals.Keys, s.store.disk.archive.Keys)
    requires KeptInv(s.cuts, Covered(s.store.disk.latest), s.store.disk.wals.Keys) && s.store.disk.wals.Keys != {}
    requires SnapInv(s.txs, s.cuts, s.store.disk.latest, s.store.disk.snapshots)
    requires Increasing(names)
    requires forall x :: x in names <==> x in s.store.disk.wals.Keys && Covered(s.store.disk.latest) <= x
    ensures i < |s.cuts| && names == s.cuts[i..]
    ensures var t := Covered(s.store.disk.latest);
            s.cuts[i] == t + 1 || (i + 1 < |s.cuts| && s.cuts[i] == t && s.cuts[i + 1] == t + 1)
  {
    hide Md, SnapInv, Increasing;
    var t := Covered(s.store.disk.latest);
    var j := NextCut(s);
    i := if j > 0 && s.cuts[j - 1] == t && t in s.store.disk.wals.Keys then j - 1 else j;
    SuffixOf(s.cuts, t, j, i, s.store.disk.wals.Keys, names);
  }

  lemma {:induction false} SuffixOf(cuts: seq<nat>, t: nat, j: nat, i: nat, wals: set<nat>, names: seq<nat>)
    requires Increasing(cuts) && Increasing(names) && j < |cuts| && cuts[j] == t + 1
    requires i == if j > 0 && cuts[j - 1] == t && t in wals then j - 1 else j
    requires forall n | n in wals :: n in cuts
    requires forall c | c in cuts && t < c :: c in wals
    requires forall x :: x in names <==> x in wals && t <= x
    ensures names == cuts[i..]
  {
    SuffixElements(cuts, i);
    SuffixElements(cuts, j);
    forall x ensures x in names <==> x in cuts[i..] {
      if x == t && t in wals { PreviousCut(cuts, t, j); }
    }
    SuffixIncreasing(cuts, i);
    IncreasingUnique(names, cuts[i..]);
  }

  lemma {:induction false} SuffixIncreasing(cuts: seq<nat>, i: nat)
    requires Increasing(cuts) && i <= |cuts|
    ensures Increasing(cuts[i..])
  {
  }

  lemma {:induction false} PreviousCut(cuts: seq<nat>, t: nat, j: nat)
    requires Increasing(cuts) && j < |cuts| && cuts[j] == t + 1 && t in cuts
    ensures j > 0 && cuts[j - 1] == t
  {
    var k :| 0 <= k < |cuts| && cuts[k] == t;
    assert k < j;
    assert cuts[j - 1] < cuts[j];
  }

  lemma {:induction false} SuffixElements(cuts: seq<nat>, i: nat)
    requires Increasing(cuts) && i < |cuts|
    ensures forall x :: x in cuts[i..] <==> x in cuts && cuts[i] <= x
  {
    forall x | x in cuts && cuts[i] <= x ensures x in cuts[i..] {
      var k :| 0 <= k < |cuts| && cuts[k] == x;
      assert i <= k;
      assert cuts[i..][k - i] == x;
    }
  }

  lemma {:induction false} NextCut(s: Sys) returns (j: nat)
    requires CutsInv(s.cuts, |s.txs|)
    requires SnapInv(s.txs, s.cuts, s.store.disk.latest, s.store.disk.snapshots)
    ensures j < |s.cuts| && s.cuts[j] == Covered(s.store.disk.latest) + 1
  {
    if s.store.disk.latest.None? {
      j := 0;
    } else {
      j :| 0 <= j < |s.cuts| && s.cuts[j] == s.store.disk.latest.value + 1;
    }
  }

  lemma {:induction false} ReplayWalIsFold(w: Wal, txs: seq<Tx>, lo: nat, hi: nat)
    requires Holds(txs, lo, hi, w) && AllVersioned(txs)
    ensures ReplayWal(Some(Md(txs[..lo - 1])), w) == Some(Md(txs[..hi - 1]))
    decreases |w|
  {
    hide MergePatch;
    var logs := LogSlice(txs, lo, hi);
    if w != [] {
      var front, e := w[..|w| - 1], w[|w| - 1];
      if e.Log? {
        assert logs == Logs(front) + [e];
        assert e == logs[|logs| - 1] == Log(hi - 1, txs[hi - 2].diff);
        assert Logs(front) == logs[..|logs| - 1] == LogSlice(txs, lo, hi - 1);
        ReplayWalIsFold(front, txs, lo, hi - 1);
        assert txs[..hi - 1][..hi - 2] == txs[..hi - 2];
      } else {
        ReplayWalIsFold(front, txs, lo, hi);
      }
    }
  }

  function Diffs(w: Wal): seq<Json> {
    if w == [] then [] else
    Diffs(w[..|w| - 1]) + match w[|w| - 1] case Log(_, diff) => [diff] case Object(_, _) => []
  }

  predicate LogVersioned(w: Wal) {
    forall e | e in w && e.Log? :: Versioned(e.diff)
  }

  lemma {:induction false} ReplayIsPatchAll(md: Option<Json>, w: Wal)
    ensures ReplayWal(md, w)
            == if md.None? || !LogVersioned(w) then None else Some(PatchAll(md.value, Diffs(w)))
  {
    hide MergePatch, Versioned;
    if w != [] {
      var front, e := w[..|w| - 1], w[|w| - 1];
      ReplayIsPatchAll(md, front);
      assert forall x :: x in w <==> x in front || x == e;
      if e.Log? {
        assert (Diffs(front) + [e.diff])[..|Diffs(front)|] == Diffs(front);
      } else {
        assert Diffs(front) + [] == Diffs(front);
      }
    }
  }

  /** Replaying any log again changes nothing, whatever its transactions overwrote or deleted. */
  lemma ReplayTwice(md: Option<Json>, w: Wal)
    ensures ReplayWal(ReplayWal(md, w), w) == ReplayWal(md, w)
  {
    hide ReplayWal, LogVersioned, PatchAll;
    var once := ReplayWal(md, w);
    ReplayIsPatchAll(md, w);
    ReplayIsPatchAll(once, w);
    if md.Some? { PatchAllTwice(md.value, Diffs(w)); }
  }

  /** In particular the log named with the snapshot's own transaction. */
  lemma ReplayOwnLog(w: Wal, txs: seq<Tx>, t: nat)
    requires Holds(txs, t, t + 1, w) && AllVersioned(txs)
    ensures ReplayWal(Some(Md(txs[..t])), w) == Some(Md(txs[..t]))
  {
    hide Md, ReplayWal;
    ReplayWalIsFold(w, txs, t, t + 1);
    ReplayTwice(Some(Md(txs[..t - 1])), w);
  }

  ghost predicate FilesHold(txs: seq<Tx>, cuts: seq<nat>, wals: map<nat, Wal>, i: nat) {
    forall m: nat | i <= m < |cuts| :: FileHolds(txs, cuts, wals, m)
  }

  ghost predicate FileHolds(txs: seq<Tx>, cuts: seq<nat>, wals: map<nat, Wal>, m: nat)
    requires m < |cuts|
  {
    cuts[m] in wals && Holds(txs, cuts[m], End(txs, cuts, m), wals[cuts[m]])
  }

  /** Once the first file has brought the metadata up to its own end, each further file continues. */
  lemma {:induction false} ReplayFilesIsFold(txs: seq<Tx>, cuts: seq<nat>, wals: map<nat, Wal>, md: Json, i: nat,
      k: nat)
    requires i < k <= |cuts| && AllVersioned(txs) && FilesHold(txs, cuts, wals, i)
    requires FileHolds(txs, cuts, wals, i) && FileHolds(txs, cuts, wals, k - 1)
    requires ReplayWal(Some(md), wals[cuts[i]]) == Some(Md(txs[..End(txs, cuts, i) - 1]))
    requires forall f | f in cuts[i..k] :: f in wals
    ensures ReplayFiles(Some(md), cuts[i..k], wals) == Some(Md(txs[..End(txs, cuts, k - 1) - 1]))
    decreases k
  {
    hide Md;
    var files := cuts[i..k];
    assert files[|files| - 1] == cuts[k - 1];
    assert files[..|files| - 1] == cuts[i..k - 1];
    if k == i + 1 {
      assert files[..|files| - 1] == [];
      assert ReplayFiles(Some(md), [], wals) == Some(md);
    } else {
      assert FileHolds(txs, cuts, wals, k - 2);
      ReplayFilesIsFold(txs, cuts, wals, md, i, k - 1);
      ReplayWalIsFold(wals[cuts[k - 1]], txs, cuts[k - 1], End(txs, cuts, k - 1));
    }
  }

  lemma {:induction false} SuffixHolds(s: Sys, i: nat)
    requires CutsInv(s.cuts, |s.txs|) && Last(s.cuts) in s.store.disk.wals
    requires ArchiveInv(s.txs, s.cuts, s.store.disk.archive)
    requires WalsInv(s.txs, Last(s.cuts), s.store.disk.wals, s.store.disk.archive)
    requires i < |s.cuts| && forall f | f in s.cuts[i..] :: f in s.store.disk.wals
    ensures FilesHold(s.txs, s.cuts, s.store.disk.wals, i)
  {
    hide Holds, Increasing;
    forall m: nat | i <= m < |s.cuts| ensures FileHolds(s.txs, s.cuts, s.store.disk.wals, m) {
      assert s.cuts[i..][m - i] == s.cuts[m];
      assert ArchivedAt(s.txs, s.cuts, s.store.disk.archive, m);
    }
  }

  lemma {:induction false} ReplayOpened(s: Sys)
    requires DiskInv(s) && Last(s.cuts) in s.store.disk.wals
    ensures var disk := s.store.disk;
            var md := SnapshotMd(disk.snapshots, disk.latest);
            && md == Some(Md(s.txs[..Covered(disk.latest)]))
            && ReplayFiles(md, FilesToApply(disk.wals, md.value, disk.latest), disk.wals) == Some(Md(s.txs))
  {
    hide Md, ArchiveInv, WalsInv, Holds, AllVersioned;
    var disk := s.store.disk;
    var t := Covered(disk.latest);
    SnapshotIsMd(s);
    var md := Md(s.txs[..t]);
    var files := FilesToApply(disk.wals, md, disk.latest);
    assert Last(s.cuts) in disk.wals.Keys;
    FilesInOrder(s, files);
    var i := FilesAreSuffix(s, files);
    ReplaySuffix(s, i);
  }

  lemma {:induction false} FilesInOrder(s: Sys, files: seq<nat>)
    requires DiskInv(s)
    requires files == FilesToApply(s.store.disk.wals, Md(s.txs[..Covered(s.store.disk.latest)]), s.store.disk.latest)
    ensures Increasing(files)
    ensures forall x :: x in files <==> x in s.store.disk.wals.Keys && Covered(s.store.disk.latest) <= x
  {
    hide ArchiveInv, WalsInv, Holds, ActiveInv, KeptInv, NamesInv, Increasing, Md;
    var disk := s.store.disk;
    if disk.latest.Some? {
      MdVersioned(s.txs[..disk.latest.value]);
    }
  }

  lemma {:induction false} SnapshotIsMd(s: Sys)
    requires SnapInv(s.txs, s.cuts, s.store.disk.latest, s.store.disk.snapshots) && AllVersioned(s.txs)
    ensures SnapshotMd(s.store.disk.snapshots, s.store.disk.latest) == Some(Md(s.txs[..Covered(s.store.disk.latest)]))
  {
    if s.store.disk.latest.Some? {
      MdVersioned(s.txs[..s.store.disk.latest.value]);
    }
  }

  lemma {:induction false} ReplaySuffix(s: Sys, i: nat)
    requires DiskInv(s) && Last(s.cuts) in s.store.disk.wals && i < |s.cuts|
    requires Covered(s.store.disk.latest) <= |s.txs|
    requires forall f | f in s.cuts[i..] :: f in s.store.disk.wals
    requires var t := Covered(s.store.disk.latest);
             s.cuts[i] == t + 1 || (i + 1 < |s.cuts| && s.cuts[i] == t && s.cuts[i + 1] == t + 1)
    ensures ReplayFiles(Some(Md(s.txs[..Covered(s.store.disk.latest)])), s.cuts[i..],
        s.store.disk.wals) == Some(Md(s.txs))
  {
    hide Md, ArchiveInv, WalsInv, Holds, NamesInv, ActiveInv, KeptInv, SnapInv, Increasing;
    var t, wals := Covered(s.store.disk.latest), s.store.disk.wals;
    SuffixHolds(s, i);
    assert FileHolds(s.txs, s.cuts, wals, i);
    assert FileHolds(s.txs, s.cuts, wals, |s.cuts| - 1);
    if s.cuts[i] == t + 1 {
      ReplayWalIsFold(wals[s.cuts[i]], s.txs, s.cuts[i], End(s.txs, s.cuts, i));
    } else {
      ReplayOwnLog(wals[s.cuts[i]], s.txs, t);
    }
    assert s.cuts[i..|s.cuts|] == s.cuts[i..];
    ReplayFilesIsFold(s.txs, s.cuts, wals, Md(s.txs[..t]), i, |s.cuts|);
    assert s.txs[..|s.txs|] == s.txs;
  }

  /** Main result for one state: whatever is on the disk, replay returns the metadata after the last
      transaction whose log entry is there. */
  lemma {:induction false} ReplayIsHistory(s: Sys)
    requires DiskInv(s)
    ensures Replay(s.store.disk) == Some(Md(s.txs))
  {
    hide DiskInv, Md;
    var wals := BootedWals(s.store.disk);
    BootKeepsDisk(s, Down);
    ReplayOpened(Sys(Store(s.store.disk.(wals := wals), Down), s.txs, s.cuts));
  }

  lemma {:induction false} StartKeepsInv(s: Sys)
    requires Inv(s)
    ensures Inv(s.(store := Boot(s.store)))
    ensures Boot(s.store).mem.Up?
  {
    hide DiskInv, Md, BootedWals, BootedMem, BootedFiles, Replay, SnapshotMd;
    if s.store.mem.Down? {
      ReplayIsHistory(s);
      BootActive(s);
      BootKeepsDisk(s, BootedMem(s.store.disk));
      FreshThread(s.txs, s.cuts, BootedMem(s.store.disk), s.store.disk.latest, s.store.disk.snapshots);
    }
  }

  lemma {:induction false} FreshThread(txs: seq<Tx>, cuts: seq<nat>, mem: Mem, latest: Option<nat>,
      snapshots: map<nat, Json>)
    requires mem.Up? && mem.queue == [] && mem.running.None?
    ensures ThreadInv(txs, cuts, mem, latest, snapshots)
  {
  }

  lemma {:induction false} BootActive(s: Sys)
    requires DiskInv(s)
    ensures SnapshotMd(s.store.disk.snapshots, s.store.disk.latest).Some?
    ensures var mem := BootedMem(s.store.disk);
            mem.Up? && mem.active == Last(s.cuts) && mem.queue == [] && mem.running.None?
  {
    hide Md;
    BootKeepsDisk(s, Down);
    SnapshotIsMd(s);
  }

  // ---------- runs ----------

  lemma {:induction false} StepKeepsInv(s: Sys, walsPerSnapshot: nat, a: Action)
    requires Inv(s)
    ensures Inv(Step(s, walsPerSnapshot, a))
  {
    hide Inv, CanCommit, SnapshotStep, DropMem, Crash, Boot, WriteTx, Md;
    match a {
      case Commit(diff, objs, full) =>
        if CanCommit(s, diff, objs) { CommitKeepsInv(s, walsPerSnapshot, diff, objs, full); }
      case Snapshotter => SnapshotKeepsInv(s);
      case DropMemPath(p) => DropKeepsInv(s, p);
      case CrashAt(keep) => CrashKeepsInv(s, keep);
      case Start => StartKeepsInv(s);
    }
  }

  /** The state after a run. */
  ghost function Run(walsPerSnapshot: nat, actions: seq<Action>): (s: Sys)
    ensures Inv(s)
  {
    if actions == [] then InitInv(); Init()
    else
      var before := Run(walsPerSnapshot, actions[..|actions| - 1]);
      StepKeepsInv(before, walsPerSnapshot, actions[|actions| - 1]);
      Step(before, walsPerSnapshot, actions[|actions| - 1])
  }

  lemma InitInv()
    ensures Inv(Init())
  {
  }

  /** The log entries that are on the disk, oldest first: the archive holds every rotated log. */
  ghost function LogsOnDisk(disk: Disk, cuts: seq<nat>, k: nat): Wal
    requires k < |cuts|
  {
    if k == 0 then [] else LogsOnDisk(disk, cuts, k - 1) + Logs(WalOrEmpty(disk.archive, cuts[k - 1]))
  }

  lemma {:induction false} ArchiveIsHistory(s: Sys, k: nat)
    requires DiskInv(s) && k < |s.cuts|
    ensures 1 <= s.cuts[k] <= |s.txs| + 1
    ensures LogsOnDisk(s.store.disk, s.cuts, k) == LogSlice(s.txs, 1, s.cuts[k])
  {
    CutsBelowLast(s.cuts, |s.txs|);
    if k > 0 {
      hide Logs, LogSlice, ArchiveInv, WalsInv, Increasing;
      ArchiveIsHistory(s, k - 1);
      ArchivedPart(s, k - 1);
      hide DiskInv;
      SliceJoins(s.txs, 1, s.cuts[k - 1], s.cuts[k]);
    }
  }

  lemma ArchivedPart(s: Sys, k: nat)
    requires DiskInv(s) && k < |s.cuts| - 1
    ensures 1 <= s.cuts[k] <= s.cuts[k + 1] <= |s.txs| + 1
    ensures Logs(WalOrEmpty(s.store.disk.archive, s.cuts[k])) == LogSlice(s.txs, s.cuts[k], s.cuts[k + 1])
  {
    hide Md, Logs, LogSlice, Increasing;
    assert ArchivedAt(s.txs, s.cuts, s.store.disk.archive, k);
  }

  lemma SliceJoins(txs: seq<Tx>, lo: nat, mid: nat, hi: nat)
    requires 1 <= lo <= mid <= hi <= |txs| + 1
    ensures LogSlice(txs, lo, hi) == LogSlice(txs, lo, mid) + LogSlice(txs, mid, hi)
  {
  }

  /** Main result: after every run of commits, rotations, snapshot steps, crashes and restarts,
      replay returns exactly the fold of all log entries on the disk, the rotated ones read from the
      archive and the rest from the active log; and a crash in that state would leave exactly the
      transactions whose log entries survive it. */
  lemma {:induction false} ReplayAfterEveryRun(walsPerSnapshot: nat, actions: seq<Action>)
    ensures var s := Run(walsPerSnapshot, actions);
            var k: nat := |s.cuts| - 1;
            && Replay(s.store.disk) == Some(Md(s.txs))
            && LogsOnDisk(s.store.disk, s.cuts, k) + Logs(WalOrEmpty(s.store.disk.wals, s.cuts[k]))
               == LogSlice(s.txs, 1, |s.txs| + 1)
  {
    hide Run, Replay, Md, Logs, LogSlice, LogsOnDisk, ThreadInv;
    var s := Run(walsPerSnapshot, actions);
    var k: nat := |s.cuts| - 1;
    ReplayIsHistory(s);
    ArchiveIsHistory(s, k);
    LastFileIsRest(s);
  }

  lemma {:induction false} LastFileIsRest(s: Sys)
    requires DiskInv(s) && 1 <= Last(s.cuts)
    ensures LogSlice(s.txs, 1, Last(s.cuts)) + Logs(WalOrEmpty(s.store.disk.wals, Last(s.cuts)))
            == LogSlice(s.txs, 1, |s.txs| + 1)
  {
    hide Md, ArchiveInv, Increasing;
    if Last(s.cuts) in s.store.disk.wals {
      assert LogSlice(s.txs, 1, |s.txs| + 1)
             == LogSlice(s.txs, 1, Last(s.cuts)) + LogSlice(s.txs, Last(s.cuts), |s.txs| + 1);
    }
  }
}
