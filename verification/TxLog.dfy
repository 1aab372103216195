/** The disk store of src/storage.lisp as a transition system: write-ahead logs, their archive,
    snapshots, extracted objects, and the volatile parts (active log, mem-table, snapshot queue). */
module TxLog {
  import opened Json
  import opened Wrappers

  const TX_LOG_VERSION := 3

  type Bytes = seq<bv8>

  /** Object paths carry the id of the transaction that writes them (src/sql/db.lisp:570-572). */
  datatype Path = Path(table: string, txId: nat)

  datatype Entry = Log(txId: nat, diff: Json) | Object(path: Path, bytes: Bytes)

  type Wal = seq<Entry>

  datatype Job = Job(walFiles: seq<nat>, md: Json, txId: nat, toDelete: set<Path>)

  /** Where the snapshot thread stands inside its current job. */
  datatype Phase =
    | Unpack(file: nat, entry: nat)
    | PutSnapshot
    | PutLatest(prev: Option<nat>)
    | DeletePrevious(prev: Option<nat>)
    | DeleteWals(file: nat)
    | DeleteMem(remaining: set<Path>)

  datatype Running = Running(job: Job, files: seq<nat>, phase: Phase)

  /** Log files and snapshots are named by transaction id; the zero-padded hexadecimal names of
      the source sort like the numbers. */
  datatype Disk = Disk(
    wals: map<nat, Wal>,
    archive: map<nat, Wal>,
    snapshots: map<nat, Json>,
    latest: Option<nat>,
    objects: map<Path, Bytes>)

  /** What a crash loses: the open log, the mem-table and the snapshot thread with its queue. */
  datatype Mem =
    | Down
    | Up(active: nat, memTable: map<Path, Bytes>, pendingWals: nat, queue: seq<Job>, running: Option<Running>)

  datatype Store = Store(disk: Disk, mem: Mem)

  // ---------- directory listings ----------

  ghost predicate Increasing(ns: seq<nat>) {
    forall i, j | 0 <= i < j < |ns| :: ns[i] < ns[j]
  }

  lemma {:induction false} HasLeast(s: set<nat>, bound: nat)
    requires bound in s
    ensures exists m :: m in s && forall y | y in s :: m <= y
    decreases bound
  {
    if y :| y in s && y < bound { HasLeast(s, y); }
  }

  lemma LeastExists(s: set<nat>)
    requires s != {}
    ensures exists m :: m in s && forall y | y in s :: m <= y
  {
    var n :| n in s;
    HasLeast(s, n);
  }

  lemma IncreasingCons(m: nat, rest: seq<nat>)
    requires Increasing(rest) && forall x | x in rest :: m < x
    ensures Increasing([m] + rest)
  {
    assert forall i | 0 <= i < |rest| :: rest[i] in rest;
  }

  /** %wal-files: the names in the log directory, sorted. */
  function Listing(names: set<nat>): (ns: seq<nat>)
    ensures forall x :: x in ns <==> x in names
    ensures Increasing(ns)
  {
    if names == {} then [] else
    LeastExists(names);
    var m :| m in names && forall y | y in names :: m <= y;
    var rest := Listing(names - {m});
    IncreasingCons(m, rest);
    [m] + rest
  }

  /** The files that replay does not skip: those whose name is not below `from`. */
  function KeepFrom(ns: seq<nat>, from: nat): (kept: seq<nat>)
    requires Increasing(ns)
    ensures forall x :: x in kept <==> x in ns && from <= x
    ensures Increasing(kept)
  {
    if ns == [] then [] else
    var rest := KeepFrom(ns[1..], from);
    assert forall x :: x in ns <==> x == ns[0] || x in ns[1..];
    assert forall i | 0 <= i < |rest| :: rest[i] in ns[1..] && ns[0] < rest[i] by {
      assert forall i | 0 <= i < |rest| :: rest[i] in rest;
    }
    if from <= ns[0] then [ns[0]] + rest else rest
  }

  lemma {:induction false} IncreasingUnique(a: seq<nat>, b: seq<nat>)
    requires Increasing(a) && Increasing(b)
    requires forall x :: x in a <==> x in b
    ensures a == b
  {
    assert |a| > 0 ==> a[0] in a;
    assert |b| > 0 ==> b[0] in b;
    if a != [] {
      assert a[0] == b[0];
      forall x ensures x in a[1..] <==> x in b[1..] {
        assert x in a[1..] ==> x in a && x > a[0];
        assert x in b[1..] ==> x in b && x > b[0];
      }
      IncreasingUnique(a[1..], b[1..]);
    }
  }

  // ---------- reading logs ----------

  function PutEntry(os: map<Path, Bytes>, e: Entry): map<Path, Bytes> {
    if e.Object? then os[e.path := e.bytes] else os
  }

  /** %extract-tar-into-object-store: entries under "_" (the log entries) are skipped. */
  function Extract(os: map<Path, Bytes>, w: Wal): map<Path, Bytes> {
    if w == [] then os else PutEntry(Extract(os, w[..|w| - 1]), w[|w| - 1])
  }

  predicate Versioned(md: Json) {
    Lookup(md, "_tx_log_version") == Num(TX_LOG_VERSION)
  }

  /** One turn of the loop in %replay-wal; None is the version mismatch error. */
  function ApplyEntry(md: Option<Json>, e: Entry): Option<Json> {
    if md.None? || e.Object? then md
    else if Versioned(e.diff) then Some(MergePatch(md.value, e.diff))
    else None
  }

  function ReplayWal(md: Option<Json>, w: Wal): Option<Json> {
    if w == [] then md else ApplyEntry(ReplayWal(md, w[..|w| - 1]), w[|w| - 1])
  }

  function ReplayFiles(md: Option<Json>, files: seq<nat>, wals: map<nat, Wal>): Option<Json>
    requires forall f | f in files :: f in wals
  {
    if files == [] then md
    else ReplayWal(ReplayFiles(md, files[..|files| - 1], wals), wals[files[|files| - 1]])
  }

  function ExtractFiles(os: map<Path, Bytes>, files: seq<nat>, wals: map<nat, Wal>): map<Path, Bytes>
    requires forall f | f in files :: f in wals
  {
    if files == [] then os
    else Extract(ExtractFiles(os, files[..|files| - 1], wals), wals[files[|files| - 1]])
  }

  // ---------- start-up: open the latest log, then replay ----------

  function ActiveName(wals: map<nat, Wal>): (active: nat)
    ensures wals.Keys == {} ==> active == 1
    ensures wals.Keys != {} ==> active in wals && forall n | n in wals :: n <= active
  {
    var names := Listing(wals.Keys);
    assert wals.Keys != {} ==> var n :| n in wals.Keys; n in names;
    if names == [] then 1 else
    assert forall n | n in wals :: n in names;
    names[|names| - 1]
  }

  function Opened(wals: map<nat, Wal>): map<nat, Wal> {
    var active := ActiveName(wals);
    if active in wals then wals else wals[active := []]
  }

  /** Archived logs newer than the snapshot are copied back over the local files. */
  function Fetched(wals: map<nat, Wal>, archive: map<nat, Wal>, latest: Option<nat>): map<nat, Wal> {
    wals + map n | n in archive && latest.Some? && latest.value < n :: archive[n]
  }

  function SnapshotMd(snapshots: map<nat, Json>, latest: Option<nat>): Option<Json> {
    if latest.None? then Some(EmptyObj)
    else if latest.value in snapshots && Versioned(snapshots[latest.value]) then Some(snapshots[latest.value])
    else None
  }

  function FilesToApply(wals: map<nat, Wal>, snapshotMd: Json, latest: Option<nat>): (files: seq<nat>)
    ensures Increasing(files)
    ensures forall f | f in files :: f in wals
  {
    if latest.Some? && snapshotMd != EmptyObj then KeepFrom(Listing(wals.Keys), latest.value)
    else Listing(wals.Keys)
  }

  /** What store-replay would return on this disk: None stands for its errors. */
  function Replay(disk: Disk): Option<Json> {
    var wals := Fetched(Opened(disk.wals), disk.archive, disk.latest);
    match SnapshotMd(disk.snapshots, disk.latest)
    case None => None
    case Some(md) => ReplayFiles(Some(md), FilesToApply(wals, md, disk.latest), wals)
  }

  function BootedWals(disk: Disk): map<nat, Wal> {
    Fetched(Opened(disk.wals), disk.archive, disk.latest)
  }

  function BootedFiles(disk: Disk): (files: seq<nat>)
    requires SnapshotMd(disk.snapshots, disk.latest).Some?
    ensures forall f | f in files :: f in BootedWals(disk)
  {
    FilesToApply(BootedWals(disk), SnapshotMd(disk.snapshots, disk.latest).value, disk.latest)
  }

  function BootedMem(disk: Disk): Mem
    requires SnapshotMd(disk.snapshots, disk.latest).Some?
  {
    var files := BootedFiles(disk);
    Up(ActiveName(disk.wals), ExtractFiles(map[], files, BootedWals(disk)),
       if |files| == 0 then 0 else |files| - 1, [], None)
  }

  function Boot(s: Store): Store {
    if s.mem.Up? || Replay(s.disk).None? then s
    else Store(s.disk.(wals := BootedWals(s.disk)), BootedMem(s.disk))
  }

  // ---------- writing ----------

  predicate AllObjects(w: Wal) {
    forall e | e in w :: e.Object?
  }

  /** store-write-tx up to the log size test. */
  function Append(s: Store, txId: nat, diff: Json, objs: Wal): Store
    requires s.mem.Up? && s.mem.active in s.disk.wals
  {
    var w := s.disk.wals[s.mem.active] + objs + [Log(txId, diff)];
    Store(s.disk.(wals := s.disk.wals[s.mem.active := w]), s.mem.(memTable := Extract(s.mem.memTable, objs)))
  }

  function RotatedDisk(disk: Disk, txId: nat): Disk
    requires disk.wals.Keys != {}
  {
    var closed := ActiveName(disk.wals);
    disk.(archive := disk.archive[closed := disk.wals[closed]], wals := disk.wals[txId + 1 := []])
  }

  function RotatedMem(s: Store, walsPerSnapshot: nat, txId: nat, md: Json): Mem
    requires s.mem.Up?
  {
    var pending := s.mem.pendingWals + 1;
    if walsPerSnapshot <= pending then
      s.mem.(active := txId + 1, pendingWals := 0,
             queue := s.mem.queue + [Job(Listing(s.disk.wals.Keys), md, txId, s.mem.memTable.Keys)])
    else s.mem.(active := txId + 1, pendingWals := pending)
  }

  function Rotate(s: Store, walsPerSnapshot: nat, txId: nat, md: Json): Store
    requires s.mem.Up? && s.disk.wals.Keys != {}
  {
    Store(RotatedDisk(s.disk, txId), RotatedMem(s, walsPerSnapshot, txId, md))
  }

  /** store-write-tx; `full` is the outcome of the log size test. */
  function WriteTx(s: Store, walsPerSnapshot: nat, txId: nat, md: Json, diff: Json, objs: Wal, full: bool): Store
    requires s.mem.Up? && s.mem.active in s.disk.wals
  {
    var s' := Append(s, txId, diff, objs);
    assert s.mem.active in s'.disk.wals.Keys;
    if full then Rotate(s', walsPerSnapshot, txId, md) else s'
  }

  function GetObject(s: Store, p: Path): Option<Bytes> {
    if s.mem.Up? && p in s.mem.memTable then Some(s.mem.memTable[p])
    else if p in s.disk.objects then Some(s.disk.objects[p])
    else None
  }

  // ---------- the snapshot thread, one store operation at a time ----------

  function Existing(files: seq<nat>, wals: map<nat, Wal>): (kept: seq<nat>)
    ensures forall f :: f in kept <==> f in files && f in wals
  {
    if files == [] then [] else
    var rest := Existing(files[1..], wals);
    assert forall f :: f in files <==> f == files[0] || f in files[1..];
    if files[0] in wals then [files[0]] + rest else rest
  }

  function WalOrEmpty(wals: map<nat, Wal>, name: nat): Wal {
    if name in wals then wals[name] else []
  }

  /** What the operation at the current phase of %build-snapshot does to the disk. */
  function JobDisk(disk: Disk, r: Running): Disk {
    match r.phase
    case Unpack(i, j) =>
      if i < |r.files| && j < |WalOrEmpty(disk.wals, r.files[i])|
      then disk.(objects := PutEntry(disk.objects, WalOrEmpty(disk.wals, r.files[i])[j]))
      else disk
    case PutSnapshot => disk.(snapshots := disk.snapshots[r.job.txId := r.job.md])
    case PutLatest(_) => disk.(latest := Some(r.job.txId))
    case DeletePrevious(prev) => if prev.Some? then disk.(snapshots := disk.snapshots - {prev.value}) else disk
    case DeleteWals(i) => if i < |r.files| then disk.(wals := disk.wals - {r.files[i]}) else disk
    case DeleteMem(_) => disk
  }

  /** The phase that follows; None when the job is over. */
  function JobNext(disk: Disk, r: Running): Option<Running> {
    match r.phase
    case Unpack(i, j) =>
      if |r.files| <= i then Some(r.(phase := PutSnapshot))
      else if j < |WalOrEmpty(disk.wals, r.files[i])| then Some(r.(phase := Unpack(i, j + 1)))
      else Some(r.(phase := Unpack(i + 1, 0)))
    case PutSnapshot => Some(r.(phase := PutLatest(disk.latest)))
    case PutLatest(prev) => Some(r.(phase := DeletePrevious(prev)))
    case DeletePrevious(_) => Some(r.(phase := DeleteWals(0)))
    case DeleteWals(i) => Some(r.(phase := if i < |r.files| then DeleteWals(i + 1) else DeleteMem(r.job.toDelete)))
    case DeleteMem(remaining) => if remaining == {} then None else Some(r)
  }

  function TakeJob(job: Job, wals: map<nat, Wal>): Running {
    Running(job, Existing(job.walFiles, wals), Unpack(0, 0))
  }

  function SnapshotStep(s: Store): Store {
    if s.mem.Down? then s
    else if s.mem.running.Some? then
      var r := s.mem.running.value;
      Store(JobDisk(s.disk, r), s.mem.(running := JobNext(s.disk, r)))
    else if s.mem.queue == [] then s
    else s.(mem := s.mem.(queue := s.mem.queue[1..], running := Some(TakeJob(s.mem.queue[0], s.disk.wals))))
  }

  predicate CanDrop(s: Store, p: Path) {
    s.mem.Up? && s.mem.running.Some? && s.mem.running.value.phase.DeleteMem? && p in s.mem.running.value.phase.remaining
  }

  /** The mem-table deletions of a finished job, in whatever order the listing gives. */
  function DropMem(s: Store, p: Path): Store {
    if !CanDrop(s, p) then s else
    var r := s.mem.running.value;
    s.(mem := s.mem.(memTable := s.mem.memTable - {p},
        running := Some(r.(phase := DeleteMem(r.phase.remaining - {p})))))
  }

  // ---------- crash ----------

  /** Of the active log a prefix of whole entries survives; memory is lost. */
  function CrashedWals(s: Store, keep: nat): map<nat, Wal> {
    if s.mem.Up? && s.mem.active in s.disk.wals && keep < |s.disk.wals[s.mem.active]|
    then s.disk.wals[s.mem.active := s.disk.wals[s.mem.active][..keep]]
    else s.disk.wals
  }

  function Crash(s: Store, keep: nat): Store {
    Store(s.disk.(wals := CrashedWals(s, keep)), Down)
  }
}
