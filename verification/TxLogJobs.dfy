/** What one snapshot job does when nothing else happens meanwhile: the many operations of the thread add
    up to unpacking, moving the pointer and cleaning up, in whatever order the mem-table is emptied. */
module TxLogJobs {
  import opened Json
  import opened TxLog
  import opened Wrappers
  import opened TxLogRuns

  function Names(files: seq<nat>): set<nat> {
    set f | f in files
  }

  /** The disk after the job: objects extracted, the new snapshot current, the previous one and the
      unpacked logs gone. */
  ghost function JobbedDisk(disk: Disk, job: Job): Disk {
    var files := Existing(job.walFiles, disk.wals);
    Disk(disk.wals - Names(files),
         disk.archive,
         WithoutPrevious(disk.snapshots[job.txId := job.md], disk.latest),
         Some(job.txId),
         ExtractFiles(disk.objects, files, disk.wals))
  }

  function WithoutPrevious(snapshots: map<nat, Json>, prev: Option<nat>): map<nat, Json> {
    if prev.Some? then snapshots - {prev.value} else snapshots
  }

  /** The store after the job: the mem-table has lost exactly what was in it when the job was queued. */
  ghost function Jobbed(s: Store): Store
    requires s.mem.Up? && s.mem.queue != []
  {
    var job := s.mem.queue[0];
    Store(JobbedDisk(s.disk, job),
          s.mem.(queue := s.mem.queue[1..], running := None, memTable := s.mem.memTable - job.toDelete))
  }

  // ---------- when a job is queued ----------

  /** A rotation queues a job exactly when enough logs are pending. The job unpacks every log there is, and
      empties the mem-table of everything that is in it. */
  lemma RotationQueues(s: Store, walsPerSnapshot: nat, txId: nat, md: Json)
    requires s.mem.Up? && s.disk.wals.Keys != {}
    ensures var mem, mem' := s.mem, Rotate(s, walsPerSnapshot, txId, md).mem;
            if mem.pendingWals + 1 < walsPerSnapshot then
              mem'.queue == mem.queue && mem'.pendingWals == mem.pendingWals + 1
            else
              && |mem'.queue| == |mem.queue| + 1 && mem.queue <= mem'.queue && mem'.pendingWals == 0
              && var job := mem'.queue[|mem.queue|];
                 && job.txId == txId && job.md == md && job.toDelete == mem.memTable.Keys
                 && Increasing(job.walFiles) && (forall n :: n in job.walFiles <==> n in s.disk.wals)
  {
  }

  lemma {:induction false} IncreasingSize(ns: seq<nat>)
    requires Increasing(ns)
    ensures |Names(ns)| == |ns|
  {
    if ns != [] {
      var init, last := ns[..|ns| - 1], ns[|ns| - 1];
      assert last !in init;
      assert Names(ns) == Names(init) + {last};
      IncreasingSize(init);
    }
  }

  function From(names: set<nat>, from: nat): set<nat> {
    set n | n in names && from <= n
  }

  lemma CountFrom(files: seq<nat>, names: set<nat>, from: nat, last: nat)
    requires Increasing(files) && forall x :: x in files <==> x in names && from <= x
    requires last in names && from <= last
    ensures |files| == |From(names, from)| && files != []
  {
    IncreasingSize(files);
    assert Names(files) == From(names, from);
    assert last in files;
  }

  /** After a start the pending logs are those that the snapshot does not cover, the open one not counted. */
  lemma PendingAfterStart(s: Sys)
    requires Inv(s) && s.store.mem.Down? && s.store.disk.wals != map[]
    ensures var mem := Boot(s.store).mem;
            mem.Up? && mem.pendingWals + 1 == |From(s.store.disk.wals.Keys, Covered(s.store.disk.latest))|
  {
    BootedPending(s);
    SomeUncovered(s);
    hide Inv, Boot, BootedFiles, From, Increasing;
    CountFrom(BootedFiles(s.store.disk), s.store.disk.wals.Keys, Covered(s.store.disk.latest), Last(s.cuts));
  }

  lemma BootedPending(s: Sys)
    requires Inv(s) && s.store.mem.Down? && s.store.disk.wals != map[]
    ensures SnapshotMd(s.store.disk.snapshots, s.store.disk.latest).Some?
    ensures var mem, files := Boot(s.store).mem, BootedFiles(s.store.disk);
            && mem.Up? && mem.pendingWals == (if |files| == 0 then 0 else |files| - 1)
            && Increasing(files)
            && forall x :: x in files <==> x in s.store.disk.wals.Keys && Covered(s.store.disk.latest) <= x
  {
    BootKeepsDisk(s, Down);
    SnapshotIsMd(s);
    hide Md, DiskInv, BootedWals, SnapshotMd, Replay, Increasing, FilesToApply, ExtractFiles;
    StartKeepsInv(s);
    FilesInOrder(s, BootedFiles(s.store.disk));
  }

  lemma SomeUncovered(s: Sys)
    requires Inv(s) && s.store.disk.wals != map[]
    ensures Last(s.cuts) in s.store.disk.wals && Covered(s.store.disk.latest) <= Last(s.cuts)
  {
    CutsBelowLast(s.cuts, |s.txs|);
  }

  // ---------- how far it is ----------

  ghost function UnpackedSoFar(disk: Disk, files: seq<nat>, i: nat, j: nat): map<Path, Bytes>
    requires i <= |files| && forall f | f in files :: f in disk.wals
    requires i < |files| ==> j <= |disk.wals[files[i]]|
  {
    FilesIn(files, disk.wals, i);
    var whole := ExtractFiles(disk.objects, files[..i], disk.wals);
    if i < |files| then Extract(whole, disk.wals[files[i]][..j]) else whole
  }

  lemma FilesIn(files: seq<nat>, wals: map<nat, Wal>, i: nat)
    requires i <= |files| && forall f | f in files :: f in wals
    ensures forall f | f in files[..i] :: f in wals
  {
  }

  /** The disk of a job in progress, from the disk it started on. */
  ghost predicate DiskAt(start: Disk, job: Job, phase: Phase, disk: Disk) {
    var files := Existing(job.walFiles, start.wals);
    var unpacked := start.(objects := ExtractFiles(start.objects, files, start.wals));
    var put := unpacked.(snapshots := start.snapshots[job.txId := job.md]);
    var pointed := put.(latest := Some(job.txId));
    var cleaned := pointed.(snapshots := WithoutPrevious(put.snapshots, start.latest));
    match phase
    case Unpack(i, j) =>
      && i <= |files| && (i < |files| ==> j <= |start.wals[files[i]]|)
      && disk == start.(objects := UnpackedSoFar(start, files, i, j))
    case PutSnapshot => disk == unpacked
    case PutLatest(prev) => prev == start.latest && disk == put
    case DeletePrevious(prev) => prev == start.latest && disk == pointed
    case DeleteWals(i) => i <= |files| && disk == cleaned.(wals := start.wals - Names(files[..i]))
    case DeleteMem(remaining) => remaining <= job.toDelete && disk == JobbedDisk(start, job)
  }

  ghost predicate MemAt(start: Mem, job: Job, phase: Phase, mem: Mem)
    requires start.Up? && mem.Up? && start.queue != []
  {
    && mem.active == start.active && mem.pendingWals == start.pendingWals && mem.queue == start.queue[1..]
    && mem.memTable
       == match phase
          case DeleteMem(remaining) => start.memTable - (job.toDelete - remaining)
          case _ => start.memTable
  }

  /** s is on the way from start through its first queued job, or at its end. */
  ghost predicate OnTheWay(start: Store, s: Store)
    requires start.mem.Up? && start.mem.queue != []
  {
    var job := start.mem.queue[0];
    && s.mem.Up?
    && match s.mem.running
       case None => s == Jobbed(start)
       case Some(r) =>
         && r.job == job && r.files == Existing(job.walFiles, start.disk.wals)
         && DiskAt(start.disk, job, r.phase, s.disk) && MemAt(start.mem, job, r.phase, s.mem)
  }

  lemma JobTaken(s: Store)
    requires s.mem.Up? && s.mem.queue != [] && s.mem.running.None?
    ensures OnTheWay(s, SnapshotStep(s))
  {
    var job := s.mem.queue[0];
    var files := Existing(job.walFiles, s.disk.wals);
    assert files[..0] == [];
    if files != [] {
      assert files[0] in files;
      assert s.disk.wals[files[0]][..0] == [];
    }
  }

  lemma UnpackStep(start: Disk, job: Job, i: nat, j: nat, disk: Disk)
    requires DiskAt(start, job, Unpack(i, j), disk)
    ensures var r := Running(job, Existing(job.walFiles, start.wals), Unpack(i, j));
            JobNext(disk, r).Some? && DiskAt(start, job, JobNext(disk, r).value.phase, JobDisk(disk, r))
  {
    hide Existing;
    var files := Existing(job.walFiles, start.wals);
    assert forall f | f in files :: f in start.wals;
    if i < |files| {
      var w := start.wals[files[i]];
      assert files[i] in files;
      if j < |w| {
        assert w[..j + 1][..j] == w[..j];
      } else {
        assert w[..j] == w;
        assert files[..i + 1][..i] == files[..i];
        if i + 1 < |files| {
          assert files[i + 1] in files;
          assert start.wals[files[i + 1]][..0] == [];
        }
      }
    } else {
      assert files[..i] == files;
    }
  }

  lemma DeleteWalStep(start: Disk, job: Job, i: nat, disk: Disk)
    requires DiskAt(start, job, DeleteWals(i), disk)
    ensures var r := Running(job, Existing(job.walFiles, start.wals), DeleteWals(i));
            JobNext(disk, r).Some? && DiskAt(start, job, JobNext(disk, r).value.phase, JobDisk(disk, r))
  {
    hide Existing;
    var files := Existing(job.walFiles, start.wals);
    if i < |files| {
      assert Names(files[..i + 1]) == Names(files[..i]) + {files[i]};
      assert start.wals - Names(files[..i]) - {files[i]} == start.wals - Names(files[..i + 1]);
    } else {
      assert files[..i] == files;
    }
  }

  /** Every operation of the thread goes on, and the last one ends at Jobbed. */
  lemma ThreadGoesOn(start: Store, s: Store)
    requires start.mem.Up? && start.mem.queue != [] && OnTheWay(start, s) && s.mem.running.Some?
    ensures OnTheWay(start, SnapshotStep(s))
  {
    hide Existing, ExtractFiles, UnpackedSoFar;
    var r := s.mem.running.value;
    var none: set<Path> := {};
    assert r.job.toDelete - r.job.toDelete == none && r.job.toDelete - none == r.job.toDelete;
    assert start.mem.memTable - none == start.mem.memTable;
    match r.phase {
      case Unpack(i, j) => UnpackStep(start.disk, r.job, i, j, s.disk);
      case DeleteWals(i) => DeleteWalStep(start.disk, r.job, i, s.disk);
      case _ =>
    }
  }

  lemma DropGoesOn(start: Store, s: Store, p: Path)
    requires start.mem.Up? && start.mem.queue != [] && OnTheWay(start, s) && CanDrop(s, p)
    ensures OnTheWay(start, DropMem(s, p))
  {
    hide Existing, ExtractFiles;
    var remaining := s.mem.running.value.phase.remaining;
    var toDelete := start.mem.queue[0].toDelete;
    assert start.mem.memTable - (toDelete - remaining) - {p} == start.mem.memTable - (toDelete - (remaining - {p}));
  }

  // ---------- from beginning to end ----------

  datatype Work = Operation | Drop(path: Path)

  function Worked(s: Store, work: seq<Work>): Store {
    if work == [] then s else
    var before := Worked(s, work[..|work| - 1]);
    match work[|work| - 1]
    case Operation => SnapshotStep(before)
    case Drop(p) => DropMem(before, p)
  }

  /** Still inside the job after each of these but the last. */
  ghost predicate OneJob(s: Store, work: seq<Work>) {
    && work != [] && work[0] == Operation
    && forall k | 1 <= k < |work| ::
         Worked(s, work[..k]).mem.Up? && Worked(s, work[..k]).mem.running.Some?
  }

  lemma {:induction false} StaysOnTheWay(s: Store, work: seq<Work>)
    requires s.mem.Up? && s.mem.queue != [] && s.mem.running.None? && OneJob(s, work)
    ensures OnTheWay(s, Worked(s, work))
  {
    hide OnTheWay, SnapshotStep, DropMem;
    var init, last := work[..|work| - 1], work[|work| - 1];
    if |work| == 1 {
      assert init == [];
      JobTaken(s);
    } else {
      forall k | 1 <= k < |init| ensures Worked(s, init[..k]).mem.Up? && Worked(s, init[..k]).mem.running.Some? {
        assert init[..k] == work[..k];
      }
      StaysOnTheWay(s, init);
      var before := Worked(s, init);
      assert init == work[..|work| - 1];
      match last {
        case Operation => ThreadGoesOn(s, before);
        case Drop(p) => if CanDrop(before, p) { DropGoesOn(s, before, p); } else { DropsNothing(before, p); }
      }
    }
  }

  lemma DropsNothing(s: Store, p: Path)
    requires !CanDrop(s, p)
    ensures DropMem(s, p) == s
  {
  }

  /** Main result: however the operations of a job and its mem-table deletions are ordered, when the job is
      over the store is Jobbed. */
  lemma JobEndsJobbed(s: Store, work: seq<Work>)
    requires s.mem.Up? && s.mem.queue != [] && s.mem.running.None? && OneJob(s, work)
    requires Worked(s, work).mem.Up? ==> Worked(s, work).mem.running.None?
    ensures Worked(s, work) == Jobbed(s)
  {
    hide SnapshotStep, DropMem, Worked, Jobbed;
    StaysOnTheWay(s, work);
  }

  /** What is left to do. */
  ghost function Left(start: Store, s: Store): (nat, nat, nat)
    requires start.mem.Up? && start.mem.queue != [] && OnTheWay(start, s) && s.mem.running.Some?
  {
    var r := s.mem.running.value;
    match r.phase
    case Unpack(i, j) =>
      (6, |r.files| - i, if i < |r.files| then |start.disk.wals[r.files[i]]| - j else 0)
    case PutSnapshot => (5, 0, 0)
    case PutLatest(_) => (4, 0, 0)
    case DeletePrevious(_) => (3, 0, 0)
    case DeleteWals(i) => (2, |r.files| - i, 0)
    case DeleteMem(remaining) => (1, |remaining|, 0)
  }

  /** The operation that comes next. */
  ghost function NextWork(s: Store): Work
    requires s.mem.Up? && s.mem.running.Some?
  {
    match s.mem.running.value.phase
    case DeleteMem(remaining) => if remaining == {} then Operation else var p :| p in remaining; Drop(p)
    case _ => Operation
  }

  lemma LessLeft(start: Store, s: Store)
    requires start.mem.Up? && start.mem.queue != [] && OnTheWay(start, s) && s.mem.running.Some?
    ensures var work := NextWork(s);
            var s' := if work.Operation? then SnapshotStep(s) else DropMem(s, work.path);
            && OnTheWay(start, s')
            && (s'.mem.running.Some? ==>
                  var a, b := Left(start, s'), Left(start, s);
                  a.0 < b.0 || (a.0 == b.0 && (a.1 < b.1 || (a.1 == b.1 && a.2 < b.2))))
  {
    hide ExtractFiles, UnpackedSoFar, Existing;
    var work := NextWork(s);
    if work.Operation? { ThreadGoesOn(start, s); } else { DropGoesOn(start, s, work.path); }
    if s.mem.running.value.phase.Unpack? {
      var files, i := s.mem.running.value.files, s.mem.running.value.phase.file;
      if i < |files| { assert files[i] in files; }
    }
  }

  lemma {:induction false} FinishFrom(s: Store, work: seq<Work>) returns (all: seq<Work>)
    requires s.mem.Up? && s.mem.queue != [] && s.mem.running.None? && OneJob(s, work)
    requires OnTheWay(s, Worked(s, work)) && Worked(s, work).mem.running.Some?
    ensures OneJob(s, all) && Worked(s, all) == Jobbed(s)
    decreases Left(s, Worked(s, work)).0, Left(s, Worked(s, work)).1, Left(s, Worked(s, work)).2
  {
    hide SnapshotStep, DropMem, Left, NextWork, Jobbed, DiskAt, MemAt;
    var before := Worked(s, work);
    LessLeft(s, before);
    all := work + [NextWork(before)];
    assert all[..|work|] == work;
    forall k | 1 <= k < |all| ensures Worked(s, all[..k]).mem.Up? && Worked(s, all[..k]).mem.running.Some? {
      assert all[..k] == work[..k];
      if k == |work| { assert work[..k] == work; }
    }
    if Worked(s, all).mem.running.Some? { all := FinishFrom(s, all); }
  }

  /** And it does end. */
  lemma JobCanEnd(s: Store) returns (work: seq<Work>)
    requires s.mem.Up? && s.mem.queue != [] && s.mem.running.None?
    ensures OneJob(s, work) && Worked(s, work) == Jobbed(s)
  {
    JobTaken(s);
    assert [Operation][..0] == [];
    assert Worked(s, [Operation]) == SnapshotStep(s);
    work := FinishFrom(s, [Operation]);
  }
}
