/** Restoring a store whose local log directory is lost, from snapshot and archive: what comes back, and
    what becomes of the commits that follow. */
module TxLogRestore {
  import opened Json
  import opened TxLog
  import opened TxLogRuns
  import opened Wrappers

  /** The history without the transactions of the active log, which are in no archive. */
  function Archived(s: Sys): seq<Tx>
    requires s.cuts != []
  {
    if 1 <= Last(s.cuts) <= |s.txs| + 1 then s.txs[..Last(s.cuts) - 1] else s.txs
  }

  /** Local log files that a restored store can have: of archived names, and not the snapshot's own. */
  predicate OnlyArchivedNames(wals: map<nat, Wal>, disk: Disk) {
    forall n | n in wals :: n in disk.archive && n != Covered(disk.latest)
  }

  lemma {:induction false} SameFilesReplay(md: Option<Json>, files: seq<nat>, a: map<nat, Wal>, b: map<nat, Wal>)
    requires forall f | f in files :: f in a && f in b && a[f] == b[f]
    ensures ReplayFiles(md, files, a) == ReplayFiles(md, files, b)
  {
    if files != [] {
      SameFilesReplay(md, files[..|files| - 1], a, b);
    }
  }

  lemma {:induction false} FirstFile(md: Option<Json>, f: nat, files: seq<nat>, wals: map<nat, Wal>)
    requires f in wals && forall g | g in files :: g in wals
    ensures ReplayFiles(md, [f] + files, wals) == ReplayFiles(ReplayWal(md, wals[f]), files, wals)
  {
    var all := [f] + files;
    if files == [] {
      assert all[..|all| - 1] == [];
    } else {
      var n := |files| - 1;
      assert all[..|all| - 1] == [f] + files[..n];
      FirstFile(md, f, files[..n], wals);
    }
  }

  lemma SliceElements(cuts: seq<nat>, j: nat, n: nat)
    requires Increasing(cuts) && j <= n < |cuts|
    ensures forall x :: x in cuts[j..n] <==> x in cuts && cuts[j] <= x < cuts[n]
  {
    Sorted(cuts);
    hide Increasing;
    forall x | x in cuts && cuts[j] <= x < cuts[n] ensures x in cuts[j..n] {
      var k :| 0 <= k < |cuts| && cuts[k] == x;
      assert j <= k < n;
      assert cuts[j..n][k - j] == x;
    }
  }

  /** The archived logs after the snapshot. */
  lemma NewerArchived(s: Sys, files: seq<nat>) returns (j: nat)
    requires DiskInv(s) && Increasing(files)
    requires forall x :: x in files <==> x in s.store.disk.archive && Covered(s.store.disk.latest) < x
    ensures j < |s.cuts| && s.cuts[j] == Covered(s.store.disk.latest) + 1 && files == s.cuts[j..|s.cuts| - 1]
  {
    hide Md, ArchiveInv, Holds, WalsInv, AllVersioned, Increasing, ActiveInv, KeptInv;
    j := NextCut(s);
    var n := |s.cuts| - 1;
    SliceElements(s.cuts, j, n);
    CutsBelowLast(s.cuts, |s.txs|);
    forall x ensures x in files <==> x in s.cuts[j..n] {
      assert x in s.store.disk.archive <==> x in s.store.disk.archive.Keys;
    }
    Increases(s.cuts, j, n);
    IncreasingUnique(files, s.cuts[j..n]);
  }

  lemma Sorted(cuts: seq<nat>)
    requires Increasing(cuts)
    ensures forall i, j | 0 <= i < j < |cuts| :: cuts[i] < cuts[j]
  {
  }

  lemma Increases(cuts: seq<nat>, j: nat, n: nat)
    requires Increasing(cuts) && j <= n <= |cuts|
    ensures Increasing(cuts[j..n])
  {
  }

  /** Applying the archived logs to the snapshot gives everything up to the last archived transaction. */
  lemma ArchiveReplays(s: Sys, j: nat)
    requires DiskInv(s) && j < |s.cuts| && s.cuts[j] == Covered(s.store.disk.latest) + 1
    requires forall f | f in s.cuts[j..|s.cuts| - 1] :: f in s.store.disk.archive
    ensures ReplayFiles(Some(Md(s.txs[..Covered(s.store.disk.latest)])), s.cuts[j..|s.cuts| - 1], s.store.disk.archive)
            == Some(Md(Archived(s)))
  {
    hide Md, Holds, WalsInv, Increasing, ReplayWal, NamesInv, ActiveInv, KeptInv;
    var t, n := Covered(s.store.disk.latest), |s.cuts| - 1;
    if j < n {
      var cuts, txs, archive := s.cuts[..n], Archived(s), s.store.disk.archive;
      forall m: nat | j <= m < n ensures FileHolds(txs, cuts, archive, m) { ArchivedHolds(s, m); }
      assert forall i: nat | i < |txs| :: txs[i] == s.txs[i];
      assert FileHolds(txs, cuts, archive, j) && FileHolds(txs, cuts, archive, n - 1);
      ReplayWalIsFold(archive[cuts[j]], txs, cuts[j], End(txs, cuts, j));
      Sorted(s.cuts);
      assert txs[..t] == s.txs[..t];
      assert cuts[j..n] == s.cuts[j..n];
      ReplayFilesIsFold(txs, cuts, archive, Md(txs[..t]), j, n);
      assert txs[..End(txs, cuts, n - 1) - 1] == txs;
    }
  }

  lemma ArchivedHolds(s: Sys, m: nat)
    requires DiskInv(s) && m < |s.cuts| - 1
    ensures FileHolds(Archived(s), s.cuts[..|s.cuts| - 1], s.store.disk.archive, m)
  {
    hide Md, WalsInv, NamesInv, ActiveInv, KeptInv, SnapInv, Increasing;
    var n := |s.cuts| - 1;
    assert ArchivedAt(s.txs, s.cuts, s.store.disk.archive, m);
    Sorted(s.cuts);
    var lo, hi := s.cuts[m], s.cuts[m + 1];
    assert hi <= s.cuts[n];
    assert End(Archived(s), s.cuts[..n], m) == hi;
    assert LogSlice(Archived(s), lo, hi) == LogSlice(s.txs, lo, hi);
  }

  /** Once there is a snapshot of a later transaction than the first, a log directory with nothing but
      archived names does not count: whatever is in its files, replay gives the archived history. */
  lemma LocalLogsIgnored(s: Sys, wals: map<nat, Wal>)
    requires DiskInv(s) && Covered(s.store.disk.latest) > 1 && OnlyArchivedNames(wals, s.store.disk)
    ensures Replay(s.store.disk.(wals := wals)) == Some(Md(Archived(s)))
    ensures OnlyArchivedNames(BootedWals(s.store.disk.(wals := wals)), s.store.disk)
    ensures ActiveName(wals) in BootedWals(s.store.disk.(wals := wals))
  {
    hide Md, ArchiveInv, WalsInv, Holds, Increasing, ReplayFiles;
    var disk := s.store.disk;
    var t, booted := Covered(disk.latest), BootedWals(disk.(wals := wals));
    FirstArchived(s);
    SnapshotIsMd(s);
    MdVersioned(s.txs[..t]);
    var md := Md(s.txs[..t]);
    var files := FilesToApply(booted, md, disk.latest);
    forall n ensures n in files <==> n in disk.archive && t < n {
      assert n in booted <==> n in Opened(wals) || (n in disk.archive && t < n);
    }
    var j := NewerArchived(s, files);
    SameFilesReplay(Some(md), files, booted, disk.archive);
    ArchiveReplays(s, j);
  }

  lemma FirstArchived(s: Sys)
    requires DiskInv(s) && s.store.disk.latest.Some?
    ensures 1 in s.store.disk.archive
  {
    hide Md, ArchiveInv, WalsInv, Holds, Increasing;
    var j := NextCut(s);
    assert s.cuts[0] in s.cuts;
    Sorted(s.cuts);
    assert 1 in s.store.disk.archive.Keys;
  }

  function LostLocal(disk: Disk): Disk {
    disk.(wals := map[])
  }

  /** The logs after a start without local ones, w being what was appended to the new first log since. */
  function RestoredWals(disk: Disk, w: Wal): map<nat, Wal> {
    BootedWals(LostLocal(disk))[1 := w]
  }

  function NewerFiles(disk: Disk): (files: seq<nat>)
    ensures forall x :: x in files <==> x in disk.archive && Covered(disk.latest) < x
    ensures Increasing(files)
  {
    KeepFrom(Listing(disk.archive.Keys), Covered(disk.latest) + 1)
  }

  /** What replay makes of the logs after a restore. With a snapshot of a later transaction than the first
      it ignores the new log; with one of the first it applies the new log before the archived ones; only
      without a snapshot, when nothing was restored, it is as one would expect. */
  lemma AppendedSince(s: Sys, w: Wal)
    requires DiskInv(s)
    ensures var disk := s.store.disk;
            Replay(disk.(wals := RestoredWals(disk, w)))
            == if disk.latest.None? then ReplayWal(Some(EmptyObj), w)
               else if disk.latest.value > 1 then Some(Md(Archived(s)))
               else ReplayFiles(ReplayWal(Some(Md(s.txs[..1])), w), NewerFiles(disk), disk.archive)
  {
    hide Md, ArchiveInv, WalsInv, Holds, Increasing, Replay, Archived, ReplayWal, ReplayFiles;
    var disk := s.store.disk;
    if disk.latest.None? {
      NothingFetched(disk, w);
    } else if disk.latest.value > 1 {
      FirstArchived(s);
      LocalLogsIgnored(s, RestoredWals(disk, w));
    } else {
      FromFirst(s, w);
    }
  }

  lemma NothingFetched(disk: Disk, w: Wal)
    requires disk.latest.None?
    ensures Replay(disk.(wals := RestoredWals(disk, w))) == ReplayWal(Some(EmptyObj), w)
  {
    hide ReplayWal;
    var wals := BootedWals(disk.(wals := RestoredWals(disk, w)));
    assert wals == map[1 := w];
    var files := FilesToApply(wals, EmptyObj, None);
    IncreasingUnique(files, [1]);
    FirstFile(Some(EmptyObj), 1, [], wals);
  }

  lemma OneFirst(files: seq<nat>, archive: map<nat, Wal>)
    requires Increasing(files) && forall n :: n in files <==> n == 1 || (n in archive && 1 < n)
    ensures files != [] && files[0] == 1 && Increasing(files[1..])
    ensures forall n :: n in files[1..] <==> n in archive && 1 < n
  {
    Sorted(files);
    assert 1 in files;
    assert files[0] in files;
    forall n ensures n in files[1..] <==> n in archive && 1 < n {
      assert n in files <==> n == files[0] || n in files[1..];
    }
  }

  lemma FromFirst(s: Sys, w: Wal)
    requires DiskInv(s) && s.store.disk.latest == Some(1)
    ensures var disk := s.store.disk;
            Replay(disk.(wals := RestoredWals(disk, w)))
            == ReplayFiles(ReplayWal(Some(Md(s.txs[..1])), w), NewerFiles(disk), disk.archive)
  {
    hide Md, ArchiveInv, WalsInv, Holds, ReplayFiles, ReplayWal, Increasing, NamesInv, ActiveInv, KeptInv, CutsInv;
    var disk := s.store.disk;
    var booted := BootedWals(disk.(wals := RestoredWals(disk, w)));
    SnapshotIsMd(s);
    MdVersioned(s.txs[..1]);
    var md := Md(s.txs[..1]);
    var files := FilesToApply(booted, md, disk.latest);
    FirstBooted(disk, w);
    OneFirst(files, disk.archive);
    IncreasingUnique(files[1..], NewerFiles(disk));
    assert files == [1] + NewerFiles(disk);
    FirstFile(Some(md), 1, NewerFiles(disk), booted);
    SameFilesReplay(ReplayWal(Some(md), w), NewerFiles(disk), booted, disk.archive);
  }

  lemma FirstBooted(disk: Disk, w: Wal)
    requires disk.latest == Some(1)
    ensures var booted := BootedWals(disk.(wals := RestoredWals(disk, w)));
            && 1 in booted && booted[1] == w
            && (forall n :: n in booted <==> n == 1 || (n in disk.archive && 1 < n))
            && forall n | n in booted && n != 1 :: booted[n] == disk.archive[n]
  {
  }

  /** With a snapshot everything comes back but the active log; without one nothing does, although the
      archive may have every log. */
  lemma RestoreIsArchived(s: Sys)
    requires DiskInv(s)
    ensures Replay(LostLocal(s.store.disk))
            == Some(if s.store.disk.latest.Some? then Md(Archived(s)) else EmptyObj)
  {
    hide Md, ArchiveInv, WalsInv, Holds, Increasing, Replay, Archived, ReplayFiles;
    var disk := s.store.disk;
    SameStart(disk);
    AppendedSince(s, []);
    if disk.latest == Some(1) {
      var j := NewerArchived(s, NewerFiles(disk));
      ArchiveReplays(s, j);
    }
  }

  lemma SameStart(disk: Disk)
    requires disk.latest.Some? ==> disk.latest.value >= 1
    ensures Replay(LostLocal(disk)) == Replay(disk.(wals := RestoredWals(disk, [])))
  {
    assert BootedWals(LostLocal(disk)) == BootedWals(disk.(wals := RestoredWals(disk, [])));
  }

  // ---------- commits after a restore ----------

  datatype Later = Commit(txId: nat, diff: Json, objects: Wal) | Crash(keep: nat) | Start

  /** Commits that do not fill the log, crashes and starts. */
  function Then(s: Store, a: Later): Store {
    match a
    case Commit(txId, diff, objects) =>
      if s.mem.Up? && s.mem.active in s.disk.wals then Append(s, txId, diff, objects) else s
    case Crash(keep) => TxLog.Crash(s, keep)
    case Start => Boot(s)
  }

  function AllThen(s: Store, later: seq<Later>): Store {
    if later == [] then s else Then(AllThen(s, later[..|later| - 1]), later[|later| - 1])
  }

  /** Only the contents of local files change, and their names stay archived ones. */
  ghost predicate OnlyLocalDiffers(s: Sys, st: Store) {
    st.disk == s.store.disk.(wals := st.disk.wals) && OnlyArchivedNames(st.disk.wals, s.store.disk)
  }

  lemma ThenOnlyLocal(s: Sys, st: Store, a: Later)
    requires DiskInv(s) && Covered(s.store.disk.latest) > 1 && OnlyLocalDiffers(s, st)
    ensures OnlyLocalDiffers(s, Then(st, a))
  {
    hide Md, DiskInv, Replay, BootedWals, BootedMem, SnapshotMd;
    LocalLogsIgnored(s, st.disk.wals);
  }

  /** After such a restore no commit lasts until the log is rotated: the store appends to a file that
      replay skips, or overwrites with the archived one. */
  lemma {:induction false} RestoredCommitsLost(s: Sys, later: seq<Later>)
    requires DiskInv(s) && Covered(s.store.disk.latest) > 1
    ensures var st := AllThen(Store(LostLocal(s.store.disk), Down), later);
            OnlyLocalDiffers(s, st) && Replay(st.disk) == Some(Md(Archived(s)))
  {
    hide Md, DiskInv, Replay, Then;
    var restored := Store(LostLocal(s.store.disk), Down);
    if later != [] {
      var n := |later| - 1;
      RestoredCommitsLost(s, later[..n]);
      ThenOnlyLocal(s, AllThen(restored, later[..n]), later[n]);
    }
    LocalLogsIgnored(s, AllThen(restored, later).disk.wals);
  }
}
