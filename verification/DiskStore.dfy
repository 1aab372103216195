/** The disk-store class itself: its slots and the methods that update them in place. The ghost history
    says which transactions are durable; Valid() is the invariant of every run, and each method says
    what it means for that history. */
module DiskStores {
  import opened Json
  import opened TxLog
  import opened TxLogRuns
  import opened TxLogObjects
  import opened Wrappers

  ghost function FetchedSome(wals: map<nat, Wal>, archive: map<nat, Wal>, latest: Option<nat>,
      names: seq<nat>): map<nat, Wal> {
    wals + map n | n in archive && n in names && latest.Some? && latest.value < n :: archive[n]
  }

  lemma FetchNext(wals: map<nat, Wal>, archive: map<nat, Wal>, latest: Option<nat>, names: seq<nat>, i: nat)
    requires i < |names| && names[i] in archive && latest.Some?
    ensures FetchedSome(wals, archive, latest, names[..i + 1])
            == if latest.value < names[i]
               then FetchedSome(wals, archive, latest, names[..i])[names[i] := archive[names[i]]]
               else FetchedSome(wals, archive, latest, names[..i])
  {
    assert forall n :: n in names[..i + 1] <==> n in names[..i] || n == names[i];
  }

  lemma FetchedAll(wals: map<nat, Wal>, archive: map<nat, Wal>, latest: Option<nat>, names: seq<nat>)
    requires latest.Some? ==> forall n :: n in names <==> n in archive.Keys
    ensures latest.Some? ==> FetchedSome(wals, archive, latest, names) == Fetched(wals, archive, latest)
    ensures latest.None? ==> wals == Fetched(wals, archive, latest)
  {
    if latest.None? {
      assert Fetched(wals, archive, latest).Keys == wals.Keys;
    }
  }

  lemma FetchedNone(wals: map<nat, Wal>, archive: map<nat, Wal>, latest: Option<nat>)
    ensures FetchedSome(wals, archive, latest, []) == wals
  {
  }

  lemma OpenedIs(wals: map<nat, Wal>)
    ensures Opened(wals) == if ActiveName(wals) in wals then wals else wals[ActiveName(wals) := []]
  {
  }

  lemma BootIs(disk: Disk)
    ensures SnapshotMd(disk.snapshots, disk.latest).None? ==> Replay(disk) == None
    ensures var wals, md := BootedWals(disk), SnapshotMd(disk.snapshots, disk.latest);
            md.Some? ==>
              var files := FilesToApply(wals, md.value, disk.latest);
              && Replay(disk) == ReplayFiles(md, files, wals)
              && (Replay(disk).Some? ==>
                    Boot(Store(disk, Down))
                    == Store(disk.(wals := wals),
                             Up(ActiveName(disk.wals), ExtractFiles(map[], files, wals),
                                if |files| == 0 then 0 else |files| - 1, [], None)))
  {
    hide ReplayFiles, ExtractFiles, FilesToApply, SnapshotMd, ActiveName, Fetched, Opened;
  }

  lemma ExtractNone(os: map<Path, Bytes>)
    ensures Extract(os, []) == os
  {
  }

  lemma ExtractPut(os: map<Path, Bytes>, w: Wal, e: Entry)
    ensures Extract(os, w + [e]) == PutEntry(Extract(os, w), e)
  {
    assert (w + [e])[..|w|] == w;
  }

  // ---------- what the steps mean for the history ----------

  lemma RotationKeeps(s: Sys, walsPerSnapshot: nat)
    requires Inv(s) && s.store.mem.Up? && Last(s.cuts) <= |s.txs| && s.store.disk.wals.Keys != {}
    requires JobsBelow(s.store.mem, s.store.disk.latest, |s.txs|)
    ensures var t := Sys(Rotate(s.store, walsPerSnapshot, |s.txs|, Md(s.txs)), s.txs, s.cuts + [|s.txs| + 1]);
            Inv(t) && Replay(t.store.disk) == Some(Md(s.txs))
  {
    hide DiskInv, ThreadInv, Md, Replay, Listing, RotatedMem, RotatedDisk, JobsBelow;
    RotateKeepsThread(s, walsPerSnapshot);
    ActiveAfter(s, walsPerSnapshot);
    RotateKeepsDisk(s, RotatedMem(s.store, walsPerSnapshot, |s.txs|, Md(s.txs)));
    ReplayIsHistory(Sys(Rotate(s.store, walsPerSnapshot, |s.txs|, Md(s.txs)), s.txs, s.cuts + [|s.txs| + 1]));
  }

  lemma ActiveAfter(s: Sys, walsPerSnapshot: nat)
    requires s.store.mem.Up?
    ensures var mem := RotatedMem(s.store, walsPerSnapshot, |s.txs|, Md(s.txs)); mem.Up? && mem.active == |s.txs| + 1
    ensures s.store.disk.wals.Keys != {} ==>
              var disk := RotatedDisk(s.store.disk, |s.txs|);
              disk.latest == s.store.disk.latest && disk.snapshots == s.store.disk.snapshots
  {
    hide Md, Listing;
  }

  lemma ActiveHolds(s: Sys)
    requires Inv(s) && s.store.mem.Up?
    ensures s.cuts != [] && Last(s.cuts) in s.store.disk.wals
    ensures Holds(s.txs, Last(s.cuts), |s.txs| + 1, s.store.disk.wals[Last(s.cuts)])
  {
    ActiveStays(s);
  }

  lemma NamedActive(s: Sys)
    requires Inv(s) && s.store.mem.Up?
    ensures s.store.disk.wals.Keys != {} && ActiveName(s.store.disk.wals) == Last(s.cuts)
    ensures Last(s.cuts) in s.store.disk.wals
  {
    ActiveStays(s);
    NonEmptyNames(s.store.disk.wals, Last(s.cuts));
    ActiveIsLast(s);
  }

  lemma NonEmptyNames(wals: map<nat, Wal>, n: nat)
    requires n in wals
    ensures wals.Keys != {}
  {
    assert n in wals.Keys;
  }

  lemma CommitKeepsHistory(s: Sys, walsPerSnapshot: nat, diff: Json, objs: Wal, full: bool)
    requires Inv(s) && CanCommit(s, diff, objs)
    ensures var s1 := AppendOnly(s, diff, objs);
            && Inv(s1) && Md(s1.txs) == MergePatch(Md(s.txs), diff) && Last(s1.cuts) <= |s1.txs|
            && JobsBelow(s1.store.mem, s1.store.disk.latest, |s1.txs|)
    ensures var t := Step(s, walsPerSnapshot, Commit(diff, objs, full));
            && Inv(t) && Replay(t.store.disk) == Some(MergePatch(Md(s.txs), diff))
            && (ObjInv(s) && SameBytes(objs, s.store.disk.wals[s.store.mem.active] + objs) ==> ObjInv(t))
  {
    assert s.cuts != [];
    hide Replay, Md, MergePatch, ObjInv, DiskInv, ThreadInv, SameBytes, JobsBelow, WriteTx;
    CommitKeepsInv(s, walsPerSnapshot, diff, objs, full);
    CommitKeepsInv(s, walsPerSnapshot, diff, objs, false);
    var s1, t := AppendOnly(s, diff, objs), Step(s, walsPerSnapshot, Commit(diff, objs, full));
    AppendIsCommit(s, walsPerSnapshot, diff, objs);
    DiskOf(s);
    CommitRotates(s, diff, objs);
    JobsOlder(s);
    JobsBelowSame(s.store.mem, s1.store.mem, s.store.disk.latest, |s1.txs|);
    DiskOf(t);
    ReplayIsHistory(t);
    assert t.txs == s1.txs;
    if ObjInv(s) && SameBytes(objs, s.store.disk.wals[s.store.mem.active] + objs) {
      CommitKeepsObjects(s, walsPerSnapshot, diff, objs, full);
    }
  }

  lemma AppendIsCommit(s: Sys, walsPerSnapshot: nat, diff: Json, objs: Wal)
    requires s.cuts != [] && CanCommit(s, diff, objs)
    ensures Step(s, walsPerSnapshot, Commit(diff, objs, false)) == AppendOnly(s, diff, objs)
  {
  }

  lemma StartKeepsHistory(s: Sys)
    ensures Inv(s) && s.store.mem.Down? ==> Inv(s.(store := Boot(s.store))) && Replay(s.store.disk) == Some(Md(s.txs))
    ensures ObjInv(s) ==> Inv(s) && ObjInv(s.(store := Boot(s.store)))
  {
    hide Boot, Replay, Md, ObjDiskInv, ObjMemInv, DiskInv;
    if Inv(s) { DiskOf(s); StartKeepsInv(s); ReplayIsHistory(s); }
    if ObjInv(s) { BootKeepsObjects(s); }
  }

  lemma SnapshotKeepsHistory(s: Sys)
    requires Inv(s)
    ensures var t := s.(store := SnapshotStep(s.store));
            Inv(t) && Replay(t.store.disk) == Some(Md(s.txs)) && (ObjInv(s) ==> ObjInv(t))
  {
    hide SnapshotStep, Replay, Md, ObjInv, DiskInv;
    SnapshotKeepsInv(s);
    var t := s.(store := SnapshotStep(s.store));
    DiskOf(t);
    ReplayIsHistory(t);
    if ObjInv(s) { SnapshotKeepsObjects(s); }
  }

  lemma DropKeepsHistory(s: Sys, p: Path)
    requires Inv(s)
    ensures var t := s.(store := DropMem(s.store, p)); Inv(t) && (ObjInv(s) ==> ObjInv(t))
  {
    hide DropMem, ObjInv, Inv;
    DropKeepsInv(s, p);
    if ObjInv(s) { DropKeepsObjects(s, p); }
  }

  class DiskStore {
    const walsPerSnapshot: nat
    var wals: map<nat, Wal>
    var archive: map<nat, Wal>
    var snapshots: map<nat, Json>
    var latest: Option<nat>
    var objects: map<Path, Bytes>
    var up: bool
    var active: nat
    var memTable: map<Path, Bytes>
    var pendingWals: nat
    var queue: seq<Job>
    var running: Option<Running>

    /** The transactions whose log entry is on disk, and the names given to log files. */
    ghost var txs: seq<Tx>
    ghost var cuts: seq<nat>

    ghost function State(): Store
      reads this
    {
      Store(Disk(wals, archive, snapshots, latest, objects),
            if up then Up(active, memTable, pendingWals, queue, running) else Down)
    }

    ghost function History(): Sys
      reads this
    {
      Sys(State(), txs, cuts)
    }

    ghost predicate Valid()
      reads this
    {
      Inv(History())
    }

    /** Every object of the history has a readable copy, and no other bytes are stored for its path. */
    ghost predicate Intact()
      reads this
    {
      ObjInv(History())
    }

    /** A store over a directory, empty or as an earlier one left it: a crash leaves a history by
        TxLogRuns.CrashKeepsInv and TxLogObjects.CrashKeepsObjects. */
    constructor (walsPerSnapshot: nat, disk: Disk, ghost txs: seq<Tx>, ghost cuts: seq<nat>)
      ensures State() == Store(disk, Down) && this.walsPerSnapshot == walsPerSnapshot
      ensures this.txs == txs && this.cuts == cuts
      ensures History() == Init() ==> Valid() && Intact()
    {
      this.walsPerSnapshot, this.txs, this.cuts := walsPerSnapshot, txs, cuts;
      wals, archive, snapshots, latest, objects := disk.wals, disk.archive, disk.snapshots, disk.latest, disk.objects;
      up, active, memTable, pendingWals, queue, running := false, 0, map[], 0, [], None;
      new;
      hide Inv, ObjInv;
      RunKeepsObjects(walsPerSnapshot, []);
    }

    /** A logged object is returned with the bytes of the transaction that wrote it. */
    method StoreGetObject(p: Path) returns (bytes: Option<Bytes>)
      requires up
      ensures bytes == GetObject(State(), p)
      ensures Intact() ==> forall k: nat, b | k < |txs| && Object(p, b) in txs[k].objects :: bytes == Some(b)
    {
      if p in memTable {
        bytes := Some(memTable[p]);
      } else if p in objects {
        bytes := Some(objects[p]);
      } else {
        bytes := None;
      }
      hide ObjInv, State;
      if Intact() {
        forall k: nat, b | k < |txs| && Object(p, b) in txs[k].objects ensures bytes == Some(b) {
          ReadOne(History(), k, Object(p, b));
        }
      }
    }

    /** Counts the archived log and queues a snapshot when enough are pending. */
    method CountRotation(txId: nat, md: Json)
      modifies this`pendingWals, this`queue
      ensures pendingWals == if walsPerSnapshot <= old(pendingWals) + 1 then 0 else old(pendingWals) + 1
      ensures queue == old(queue) + if walsPerSnapshot <= old(pendingWals) + 1
                                    then [Job(Listing(wals.Keys), md, txId, memTable.Keys)] else []
    {
      pendingWals := pendingWals + 1;
      if pendingWals >= walsPerSnapshot {
        pendingWals := 0;
        queue := queue + [Job(Listing(wals.Keys), md, txId, memTable.Keys)];
      }
    }

    /** The archive gets the closed log, which holds exactly the log entries from its name on; the new
        log is empty; nothing that replay depends on changes. */
    method RotateWal(txId: nat, md: Json)
      requires Valid() && up && txId == |txs| && md == Md(txs) && Last(cuts) <= txId
      requires JobsBelow(State().mem, latest, txId)
      modifies this
      ensures Valid() && up && txs == old(txs) && cuts == old(cuts) + [txId + 1]
      ensures Replay(State().disk) == Some(md)
      ensures Last(old(cuts)) in archive && Holds(txs, Last(old(cuts)), txId + 1, archive[Last(old(cuts))])
      ensures active == txId + 1 && active in wals && wals[active] == []
      ensures State() == Rotate(old(State()), walsPerSnapshot, txId, md)
    {
      hide Inv, Md, Holds, Replay, Listing, Increasing, ActiveName, JobsBelow;
      ghost var before := History();
      NamedActive(before);
      var closed := ActiveName(wals);
      archive := archive[closed := wals[closed]];
      CountRotation(txId, md);
      wals := wals[txId + 1 := []];
      active := txId + 1;
      cuts := cuts + [txId + 1];
      assert State().disk == RotatedDisk(before.store.disk, txId);
      assert State().mem == RotatedMem(before.store, walsPerSnapshot, txId, md);
      hide State, RotatedDisk, RotatedMem;
      ActiveHolds(before);
      RotationKeeps(before, walsPerSnapshot);
    }

    /** The log gets every buffer, then the log entry; the mem-table gets the buffers. The transaction is
        durable: replay, now or after a crash that leaves its entry, gives the new metadata; and its
        objects read back if the log has no other bytes for their paths. */
    method StoreWriteTx(txId: nat, md: Json, diff: Json, objs: Wal, full: bool)
      requires Valid() && CanCommit(History(), diff, objs)
      requires txId == |txs| + 1 && md == MergePatch(Md(txs), diff)
      modifies this
      ensures Valid() && txs == old(txs) + [Tx(diff, objs)]
      ensures Replay(State().disk) == Some(md)
      ensures old(Intact()) && SameBytes(objs, old(wals[active]) + objs) ==> Intact()
      ensures History() == Step(old(History()), walsPerSnapshot, Commit(diff, objs, full))
    {
      hide Inv, ObjInv, Md, MergePatch, Versioned, Rotate, SameBytes, Replay, Holds, Extract;
      ghost var before := History();
      CommitKeepsHistory(before, walsPerSnapshot, diff, objs, full);
      var i := 0;
      assert wals[active] + objs[..0] == wals[active];
      assert wals == wals[active := wals[active] + objs[..0]];
      assert objs[..0] == [];
      assert Extract(memTable, []) == memTable by { ExtractNone(memTable); }
      while i < |objs|
        modifies this`wals, this`memTable
        invariant i <= |objs| && active in wals
        invariant wals == old(wals)[active := old(wals)[active] + objs[..i]]
        invariant memTable == Extract(old(memTable), objs[..i])
      {
        assert objs[i] in objs;
        assert objs[..i + 1] == objs[..i] + [objs[i]];
        assert old(wals)[active] + objs[..i] + [objs[i]] == old(wals)[active] + objs[..i + 1];
        ExtractPut(old(memTable), objs[..i], objs[i]);
        wals := wals[active := wals[active] + [objs[i]]];
        memTable := memTable[objs[i].path := objs[i].bytes];
        i := i + 1;
      }
      assert objs[..i] == objs;
      wals := wals[active := wals[active] + [Log(txId, diff)]];
      txs := txs + [Tx(diff, objs)];
      assert History() == AppendOnly(before, diff, objs);
      if full { RotateWal(txId, md); }
    }

    /** %replay-wal over one file. */
    static method ReplayFile(w: Wal, md0: Option<Json>) returns (md: Option<Json>)
      ensures md == ReplayWal(md0, w)
    {
      md := md0;
      var i := 0;
      while i < |w|
        invariant i <= |w| && md == ReplayWal(md0, w[..i])
      {
        assert w[..i + 1][..i] == w[..i];
        if md.Some? && w[i].Log? {
          md := if Versioned(w[i].diff) then Some(MergePatch(md.value, w[i].diff)) else None;
        }
        i := i + 1;
      }
      assert w[..i] == w;
    }

    static method ExtractFile(w: Wal, os0: map<Path, Bytes>) returns (os: map<Path, Bytes>)
      ensures os == Extract(os0, w)
    {
      os := os0;
      var i := 0;
      while i < |w|
        invariant i <= |w| && os == Extract(os0, w[..i])
      {
        assert w[..i + 1][..i] == w[..i];
        if w[i].Object? { os := os[w[i].path := w[i].bytes]; }
        i := i + 1;
      }
      assert w[..i] == w;
    }

    /** Copies archived logs newer than the snapshot back into the log directory. */
    method FetchArchived()
      modifies this`wals
      ensures wals == Fetched(old(wals), archive, latest)
    {
      hide FetchedSome, Fetched, Increasing;
      var names := if latest.Some? then Listing(archive.Keys) else [];
      FetchedAll(wals, archive, latest, names);
      FetchedNone(wals, archive, latest);
      var i := 0;
      assert names[..0] == [];
      while i < |names|
        invariant i <= |names| && wals == FetchedSome(old(wals), archive, latest, names[..i])
      {
        assert names[i] in names;
        FetchNext(old(wals), archive, latest, names, i);
        if latest.value < names[i] {
          wals := wals[names[i] := archive[names[i]]];
        }
        i := i + 1;
      }
      assert names[..i] == names;
    }

    method OpenLogs() returns (latestLog: nat)
      modifies this`wals
      ensures latestLog == ActiveName(old(wals)) && wals == BootedWals(old(State()).disk)
    {
      hide Fetched, Increasing, Opened;
      latestLog := ActiveName(wals);
      if latestLog !in wals { wals := wals[latestLog := []]; }
      OpenedIs(old(wals));
      FetchArchived();
    }

    /** The log loop of store-replay: metadata and mem-table over the files, in order. */
    static method ReplayAll(files: seq<nat>, wals: map<nat, Wal>, md0: Json)
      returns (md: Option<Json>, mem: map<Path, Bytes>)
      requires forall f | f in files :: f in wals
      ensures md == ReplayFiles(Some(md0), files, wals)
      ensures mem == ExtractFiles(map[], files, wals)
    {
      md, mem := Some(md0), map[];
      var i := 0;
      while i < |files|
        invariant i <= |files|
        invariant forall f | f in files[..i] :: f in wals
        invariant md == ReplayFiles(Some(md0), files[..i], wals)
        invariant mem == ExtractFiles(map[], files[..i], wals)
      {
        assert files[i] in files;
        assert files[..i + 1][..i] == files[..i];
        md := ReplayFile(wals[files[i]], md);
        mem := ExtractFile(wals[files[i]], mem);
        i := i + 1;
      }
      assert files[..i] == files;
    }

    /** Snapshot, filter and fold. */
    method ApplyLogs() returns (md: Option<Json>, mem: map<Path, Bytes>, count: nat)
      ensures SnapshotMd(snapshots, latest).None? ==> md.None?
      ensures SnapshotMd(snapshots, latest).Some? ==>
                var files := FilesToApply(wals, SnapshotMd(snapshots, latest).value, latest);
                && md == ReplayFiles(SnapshotMd(snapshots, latest), files, wals)
                && mem == ExtractFiles(map[], files, wals) && count == |files|
    {
      hide ReplayFiles, ExtractFiles, FilesToApply, SnapshotMd;
      var snapshotMd := SnapshotMd(snapshots, latest);
      if snapshotMd.None? { return None, map[], 0; }
      var files := FilesToApply(wals, snapshotMd.value, latest);
      md, mem := ReplayAll(files, wals, snapshotMd.value);
      count := |files|;
    }

    /** Start-up: open the latest log, then store-replay. None is a failed validation. The result is the
        metadata of the whole history, and the store is as it was before it went down. */
    method StoreReplay() returns (md: Option<Json>)
      requires !up
      modifies this
      ensures txs == old(txs) && cuts == old(cuts)
      ensures old(Valid()) ==> Valid() && up && md == Some(Md(txs))
      ensures old(Intact()) ==> Intact()
      ensures md == Replay(old(State()).disk)
      ensures md.Some? ==> State() == Boot(old(State()))
    {
      hide Inv, ObjInv, Md, ReplayFiles, ExtractFiles, FilesToApply, SnapshotMd, BootedWals, Replay, Boot, ActiveName;
      ghost var before := History();
      var latestLog := OpenLogs();
      var mem, count;
      md, mem, count := ApplyLogs();
      if md.Some? {
        up, active, memTable, queue, running := true, latestLog, mem, [], None;
        pendingWals := if count == 0 then 0 else count - 1;
      }
      BootIs(before.store.disk);
      assert md == Replay(before.store.disk) && (md.Some? ==> State() == Boot(before.store));
      hide State;
      StartKeepsHistory(before);
    }

    /** One operation of %build-snapshot. */
    method BuildSnapshot(r: Running)
      requires up && running == Some(r)
      modifies this`objects, this`snapshots, this`latest, this`wals, this`running
      ensures State() == SnapshotStep(old(State()))
    {
      match r.phase
      case Unpack(i, j) =>
        if i < |r.files| {
          var w := WalOrEmpty(wals, r.files[i]);
          if j < |w| {
            if w[j].Object? { objects := objects[w[j].path := w[j].bytes]; }
            running := Some(r.(phase := Unpack(i, j + 1)));
          } else {
            running := Some(r.(phase := Unpack(i + 1, 0)));
          }
        } else {
          running := Some(r.(phase := PutSnapshot));
        }
      case PutSnapshot =>
        running := Some(r.(phase := PutLatest(latest)));
        snapshots := snapshots[r.job.txId := r.job.md];
      case PutLatest(prev) =>
        latest := Some(r.job.txId);
        running := Some(r.(phase := DeletePrevious(prev)));
      case DeletePrevious(prev) =>
        if prev.Some? { snapshots := snapshots - {prev.value}; }
        running := Some(r.(phase := DeleteWals(0)));
      case DeleteWals(i) =>
        if i < |r.files| {
          wals := wals - {r.files[i]};
          running := Some(r.(phase := DeleteWals(i + 1)));
        } else {
          running := Some(r.(phase := DeleteMem(r.job.toDelete)));
        }
      case DeleteMem(remaining) =>
        if remaining == {} { running := None; }
    }

    /** The snapshot thread, one operation or one job taken: whatever it deletes, the history stays
        replayable and its objects readable. */
    method SnapshotThread()
      requires Valid() && up
      modifies this
      ensures Valid() && txs == old(txs) && cuts == old(cuts)
      ensures Replay(State().disk) == Some(Md(txs))
      ensures old(Intact()) ==> Intact()
      ensures State() == SnapshotStep(old(State()))
    {
      hide Inv, ObjInv, Md, Replay, JobDisk, JobNext, TakeJob;
      ghost var before := History();
      if running.Some? {
        BuildSnapshot(running.value);
      } else if queue != [] {
        running := Some(TakeJob(queue[0], wals));
        queue := queue[1..];
      }
      assert State() == SnapshotStep(before.store);
      hide SnapshotStep, State;
      SnapshotKeepsHistory(before);
    }

    /** One mem-table deletion of a finished job. */
    method DropFromMemTable(p: Path)
      requires Valid() && CanDrop(State(), p)
      modifies this
      ensures Valid() && txs == old(txs) && cuts == old(cuts)
      ensures old(Intact()) ==> Intact()
      ensures State() == DropMem(old(State()), p)
    {
      hide Inv, ObjInv;
      ghost var before := History();
      var r := running.value;
      memTable := memTable - {p};
      running := Some(r.(phase := DeleteMem(r.phase.remaining - {p})));
      assert State() == DropMem(before.store, p);
      hide DropMem, State;
      DropKeepsHistory(before, p);
    }
  }
}
