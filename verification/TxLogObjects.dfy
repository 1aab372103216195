/** Objects of logged transactions stay readable, through extraction, pointer change, log deletion,
    mem-table deletion, crash and replay, as long as no log ever holds two different contents for
    one path. TxLogStaleRead proves that this condition is exact. */
module TxLogObjects {
  import opened Json
  import opened TxLog
  import opened Wrappers
  import opened TxLogRuns

  // ---------- invariant ----------

  ghost predicate OwnIds(txs: seq<Tx>) {
    forall k: nat, e | k < |txs| && e in txs[k].objects :: e.Object? && e.path.txId == k + 1
  }

  /** The store never holds other bytes for a path than the transaction that owns it wrote. */
  ghost predicate Agrees(txs: seq<Tx>, os: map<Path, Bytes>) {
    forall k: nat, e | k < |txs| && e in txs[k].objects && e.Object? && e.path in os :: os[e.path] == e.bytes
  }

  ghost predicate RightWal(txs: seq<Tx>, w: Wal) {
    forall k: nat, e, x | k < |txs| && e in txs[k].objects && x in w && e.Object? && x.Object? && x.path == e.path ::
      x.bytes == e.bytes
  }

  ghost predicate IdsBelow(w: Wal, hi: nat) {
    forall x | x in w && x.Object? :: x.path.txId < hi
  }

  ghost predicate HoldsObjects(txs: seq<Tx>, lo: nat, hi: nat, w: Wal) {
    forall k: nat, e | lo <= k + 1 < hi && k < |txs| && e in txs[k].objects :: e in w
  }

  ghost predicate StoredAt(txs: seq<Tx>, cuts: seq<nat>, wals: map<nat, Wal>, i: nat) {
    i < |cuts| && cuts[i] in wals ==> HoldsObjects(txs, cuts[i], End(txs, cuts, i), wals[cuts[i]])
  }

  /** In the active log the objects of a transaction come before its log entry, and after the log
      entry before it. */
  ghost predicate PrefixClosed(txs: seq<Tx>, lo: nat, w: Wal) {
    forall keep: nat | keep <= |w| :: PrefixAt(txs, lo, w, keep)
  }

  ghost predicate PrefixAt(txs: seq<Tx>, lo: nat, w: Wal, keep: nat)
    requires keep <= |w|
  {
    var next := lo + |Logs(w[..keep])|;
    HoldsObjects(txs, lo, next, w[..keep]) && IdsBelow(w[..keep], next + 1)
  }

  ghost predicate Stored(txs: seq<Tx>, hi: nat, os: map<Path, Bytes>) {
    forall k: nat, e | k < hi && k < |txs| && e in txs[k].objects && e.Object? :: e.path in os
  }

  ghost predicate WalsRight(txs: seq<Tx>, last: nat, wals: map<nat, Wal>) {
    forall n | n in wals :: RightWal(txs, wals[n]) && IdsBelow(wals[n], if n == last then |txs| + 2 else last)
  }

  ghost predicate ObjDiskInv(txs: seq<Tx>, cuts: seq<nat>, disk: Disk)
    requires cuts != []
  {
    && OwnIds(txs)
    && Agrees(txs, disk.objects) && (forall p | p in disk.objects :: p.txId < Last(cuts))
    && WalsRight(txs, Last(cuts), disk.wals)
    && (forall i: nat :: StoredAt(txs, cuts, disk.wals, i))
    && (Last(cuts) in disk.wals ==> PrefixClosed(txs, Last(cuts), disk.wals[Last(cuts)]))
    && Stored(txs, Covered(disk.latest), disk.objects)
  }

  ghost predicate Readable(txs: seq<Tx>, memTable: map<Path, Bytes>, objects: map<Path, Bytes>) {
    forall k: nat, e | k < |txs| && e in txs[k].objects && e.Object? :: e.path in memTable || e.path in objects
  }

  ghost predicate Complete(job: Job, wals: set<nat>) {
    && (forall n | n in wals && n <= job.txId :: n in job.walFiles)
    && (forall p | p in job.toDelete :: p.txId <= job.txId)
  }

  /** An entry that the unpacking at (i, j) has still ahead of it. */
  ghost predicate Ahead(wals: map<nat, Wal>, files: seq<nat>, i: nat, j: nat, e: Entry) {
    exists m: nat, q: nat :: At(wals, files, m, q, e) && (i < m || (i == m && j <= q))
  }

  ghost predicate At(wals: map<nat, Wal>, files: seq<nat>, m: nat, q: nat, e: Entry) {
    m < |files| && q < |WalOrEmpty(wals, files[m])| && WalOrEmpty(wals, files[m])[q] == e
  }

  ghost predicate UnpackInv(txs: seq<Tx>, disk: Disk, r: Running) {
    match r.phase
    case Unpack(i, j) =>
      forall k: nat, e | k < r.job.txId && k < |txs| && e in txs[k].objects && e.Object? ::
        e.path in disk.objects || Ahead(disk.wals, r.files, i, j, e)
    case DeleteMem(remaining) =>
      Stored(txs, r.job.txId, disk.objects) && forall p | p in remaining :: p.txId <= r.job.txId
    case _ => Stored(txs, r.job.txId, disk.objects)
  }

  ghost predicate ObjMemInv(txs: seq<Tx>, disk: Disk, mem: Mem) {
    mem.Up? ==>
      && Agrees(txs, mem.memTable)
      && (forall p | p in mem.memTable :: p.txId <= |txs| + 1)
      && Readable(txs, mem.memTable, disk.objects)
      && (forall i | 0 <= i < |mem.queue| :: Complete(mem.queue[i], disk.wals.Keys))
      && (mem.running.Some? ==> Complete(mem.running.value.job, disk.wals.Keys) && UnpackInv(txs, disk,
          mem.running.value))
  }

  ghost predicate ObjInv(s: Sys) {
    Inv(s) && ObjDiskInv(s.txs, s.cuts, s.store.disk) && ObjMemInv(s.txs, s.store.disk, s.store.mem)
  }

  /** The condition on a commit: the active log has no other bytes for the paths it writes. A log
      has some only after a crash tore off a transaction whose id the commit reuses. */
  ghost predicate SameBytes(objs: Wal, w: Wal) {
    forall e, x | e in objs && x in w && e.Object? && x.Object? && x.path == e.path :: x.bytes == e.bytes
  }

  ghost predicate Clean(s: Sys, a: Action) {
    a.Commit? && CanCommit(s, a.diff, a.objects) ==> SameBytes(a.objects,
        s.store.disk.wals[s.store.mem.active] + a.objects)
  }

  // ---------- extraction ----------

  lemma {:induction false} PutAgrees(txs: seq<Tx>, os: map<Path, Bytes>, w: Wal, e: Entry)
    requires Agrees(txs, os) && RightWal(txs, w) && e in w
    ensures Agrees(txs, PutEntry(os, e))
  {
  }

  lemma {:induction false} ExtractAgrees(txs: seq<Tx>, os: map<Path, Bytes>, w: Wal)
    requires Agrees(txs, os) && RightWal(txs, w)
    ensures Agrees(txs, Extract(os, w))
  {
    if w != [] {
      RightPrefix(txs, w);
      ExtractAgrees(txs, os, w[..|w| - 1]);
      PutAgrees(txs, Extract(os, w[..|w| - 1]), w, w[|w| - 1]);
    }
  }

  lemma {:induction false} RightPrefix(txs: seq<Tx>, w: Wal)
    requires RightWal(txs, w) && w != []
    ensures RightWal(txs, w[..|w| - 1])
  {
    assert forall x | x in w[..|w| - 1] :: x in w;
  }

  /** Extraction adds exactly the paths of the object entries. */
  lemma {:induction false} ExtractKeys(os: map<Path, Bytes>, w: Wal)
    ensures forall p :: p in Extract(os, w) <==> p in os || exists e :: e in w && e.Object? && e.path == p
  {
    if w != [] {
      var front, last := w[..|w| - 1], w[|w| - 1];
      ExtractKeys(os, front);
      assert forall e :: e in w <==> e in front || e == last;
    }
  }

  lemma {:induction false} ExtractFilesAgree(txs: seq<Tx>, last: nat, files: seq<nat>, wals: map<nat, Wal>)
    requires WalsRight(txs, last, wals) && forall f | f in files :: f in wals
    ensures Agrees(txs, ExtractFiles(map[], files, wals))
  {
    hide RightWal, IdsBelow;
    if files != [] {
      ExtractFilesAgree(txs, last, files[..|files| - 1], wals);
      ExtractAgrees(txs, ExtractFiles(map[], files[..|files| - 1], wals), wals[files[|files| - 1]]);
    }
  }

  lemma {:induction false} ExtractFilesKeys(files: seq<nat>, wals: map<nat, Wal>)
    requires forall f | f in files :: f in wals
    ensures forall p :: p in ExtractFiles(map[], files, wals)
                        <==> exists f, e :: f in files && e in wals[f] && e.Object? && e.path == p
  {
    if files != [] {
      var front, last := files[..|files| - 1], files[|files| - 1];
      ExtractFilesKeys(front, wals);
      ExtractKeys(ExtractFiles(map[], front, wals), wals[last]);
      assert forall f :: f in files <==> f in front || f == last;
    }
  }

  // ---------- commit ----------

  lemma {:induction false} AgreesExtend(txs: seq<Tx>, tx: Tx, os: map<Path, Bytes>)
    requires Agrees(txs, os) && forall e | e in tx.objects && e.Object? && e.path in os :: os[e.path] == e.bytes
    ensures Agrees(txs + [tx], os)
  {
  }

  lemma {:induction false} RightExtend(txs: seq<Tx>, tx: Tx, w: Wal)
    requires RightWal(txs, w) && SameBytes(tx.objects, w)
    ensures RightWal(txs + [tx], w)
  {
  }

  lemma {:induction false} SameBytesByIds(objs: Wal, w: Wal, id: nat)
    requires forall e | e in objs :: e.Object? && e.path.txId == id
    requires IdsBelow(w, id)
    ensures SameBytes(objs, w)
  {
  }

  lemma {:induction false} RightAppend(txs: seq<Tx>, w: Wal, objs: Wal, e: Entry)
    requires RightWal(txs, w) && OwnIds(txs) && e.Log?
    requires forall x | x in objs :: x.Object? && x.path.txId == |txs| + 1
    ensures RightWal(txs, w + objs + [e])
  {
    forall x | x in w + objs + [e] ensures x in w || x in objs || x == e {}
  }

  lemma {:induction false} SameBytesLog(objs: Wal, w: Wal, e: Entry)
    requires SameBytes(objs, w) && e.Log?
    ensures SameBytes(objs, w + [e])
  {
    forall x | x in w + [e] ensures x in w || x == e {}
  }

  lemma {:induction false} HoldsExtends(txs: seq<Tx>, tx: Tx, lo: nat, hi: nat, w: Wal)
    requires HoldsObjects(txs, lo, hi, w) && hi <= |txs| + 1
    ensures HoldsObjects(txs + [tx], lo, hi, w)
  {
  }

  lemma {:induction false} PrefixAppend(txs: seq<Tx>, tx: Tx, lo: nat, w: Wal)
    requires Holds(txs, lo, |txs| + 1, w) && PrefixClosed(txs, lo, w)
    requires forall x | x in tx.objects :: x.Object? && x.path.txId == |txs| + 1
    ensures PrefixClosed(txs + [tx], lo, w + tx.objects + [Log(|txs| + 1, tx.diff)])
  {
    var w' := w + tx.objects + [Log(|txs| + 1, tx.diff)];
    forall keep: nat | keep <= |w'| ensures PrefixAt(txs + [tx], lo, w', keep) {
      PrefixAppendAt(txs, tx, lo, w, keep);
    }
  }

  lemma {:induction false} PrefixAppendAt(txs: seq<Tx>, tx: Tx, lo: nat, w: Wal, keep: nat)
    requires Holds(txs, lo, |txs| + 1, w) && PrefixClosed(txs, lo, w)
    requires (forall x | x in tx.objects :: x.Object? && x.path.txId == |txs| + 1) && keep <= |w| + |tx.objects| + 1
    ensures PrefixAt(txs + [tx], lo, w + tx.objects + [Log(|txs| + 1, tx.diff)], keep)
  {
    hide PrefixAt, PrefixClosed, Holds;
    var w' := w + tx.objects + [Log(|txs| + 1, tx.diff)];
    WholeAt(txs, lo, w);
    if keep <= |w| {
      assert w'[..keep] == w[..keep];
      PrefixInOld(txs, tx, lo, w, keep);
      PrefixSame(txs + [tx], lo, w, w', keep);
    } else if keep <= |w| + |tx.objects| {
      PrefixInObjects(txs, tx, lo, w, tx.objects[..keep - |w|]);
      assert w'[..keep] == (w + tx.objects[..keep - |w|])[..keep];
      PrefixSame(txs + [tx], lo, w + tx.objects[..keep - |w|], w', keep);
    } else {
      PrefixAtEnd(txs, tx, lo, w);
    }
  }

  lemma {:induction false} PrefixSame(txs: seq<Tx>, lo: nat, w: Wal, w': Wal, keep: nat)
    requires keep <= |w| && keep <= |w'| && w[..keep] == w'[..keep] && PrefixAt(txs, lo, w, keep)
    ensures PrefixAt(txs, lo, w', keep)
  {
  }

  lemma {:induction false} PrefixInOld(txs: seq<Tx>, tx: Tx, lo: nat, w: Wal, keep: nat)
    requires Holds(txs, lo, |txs| + 1, w) && PrefixClosed(txs, lo, w) && keep <= |w|
    ensures PrefixAt(txs + [tx], lo, w, keep)
  {
    hide HoldsObjects;
    LogsOfPrefix(w, keep);
    assert PrefixAt(txs, lo, w, keep);
    HoldsExtends(txs, tx, lo, lo + |Logs(w[..keep])|, w[..keep]);
  }

  lemma {:induction false} PrefixInObjects(txs: seq<Tx>, tx: Tx, lo: nat, w: Wal, some: Wal)
    requires HoldsObjects(txs, lo, |txs| + 1, w) && IdsBelow(w, |txs| + 2) && lo + |Logs(w)| == |txs| + 1
    requires (forall x | x in tx.objects :: x.Object? && x.path.txId == |txs| + 1) && some <= tx.objects
    ensures PrefixAt(txs + [tx], lo, w + some, |w + some|)
  {
    forall x | x in some ensures x in tx.objects {}
    LogsAppend(w, some);
    NoLogs(some);
    HoldsExtends(txs, tx, lo, |txs| + 1, w);
    HoldsMore(txs + [tx], lo, |txs| + 1, w, some);
    IdsAppend(w, some, |txs| + 2);
    assert (w + some)[..|w + some|] == w + some;
  }

  lemma {:induction false} PrefixAtEnd(txs: seq<Tx>, tx: Tx, lo: nat, w: Wal)
    requires HoldsObjects(txs, lo, |txs| + 1, w) && IdsBelow(w, |txs| + 2) && lo + |Logs(w)| == |txs| + 1
    requires forall x | x in tx.objects :: x.Object? && x.path.txId == |txs| + 1
    ensures var w' := w + tx.objects + [Log(|txs| + 1, tx.diff)]; PrefixAt(txs + [tx], lo, w', |w'|)
  {
    var e := Log(|txs| + 1, tx.diff);
    var w' := w + tx.objects + [e];
    LogsAppend(w + tx.objects, [e]);
    LogsAppend(w, tx.objects);
    NoLogs(tx.objects);
    assert Logs([e]) == [e];
    assert w'[..|w'|] == w + (tx.objects + [e]);
    assert w' == w + (tx.objects + [e]);
    HoldsExtends(txs, tx, lo, |txs| + 1, w);
    HoldsMore(txs + [tx], lo, |txs| + 1, w, tx.objects + [e]);
    HoldsLast(txs, tx, lo, w, [e]);
    IdsAppend(w, tx.objects + [e], |txs| + 3);
  }

  lemma {:induction false} IdsAppend(w: Wal, more: Wal, hi: nat)
    requires IdsBelow(w, hi) && IdsBelow(more, hi)
    ensures IdsBelow(w + more, hi)
  {
    forall x | x in w + more ensures x in w || x in more {}
  }

  lemma {:induction false} HoldsMore(txs: seq<Tx>, lo: nat, hi: nat, w: Wal, more: Wal)
    requires HoldsObjects(txs, lo, hi, w)
    ensures HoldsObjects(txs, lo, hi, w + more)
  {
    forall x | x in w ensures x in w + more {}
  }

  lemma {:induction false} HoldsLast(txs: seq<Tx>, tx: Tx, lo: nat, w: Wal, more: Wal)
    requires HoldsObjects(txs + [tx], lo, |txs| + 1, w + (tx.objects + more))
    ensures HoldsObjects(txs + [tx], lo, |txs| + 2, w + (tx.objects + more))
  {
    forall x | x in tx.objects ensures x in w + (tx.objects + more) {
      assert x in tx.objects + more;
    }
  }

  lemma {:induction false} WholeAt(txs: seq<Tx>, lo: nat, w: Wal)
    requires Holds(txs, lo, |txs| + 1, w) && PrefixClosed(txs, lo, w)
    ensures HoldsObjects(txs, lo, |txs| + 1, w) && IdsBelow(w, |txs| + 2)
    ensures |Logs(w)| == |txs| + 1 - lo
  {
    assert w[..|w|] == w;
    assert PrefixAt(txs, lo, w, |w|);
  }

  /** Unlike in general, right after a commit the log has no object of a later transaction. */
  lemma {:induction false} IdsAfterCommit(txs: seq<Tx>, tx: Tx, lo: nat, w: Wal)
    requires Holds(txs, lo, |txs| + 1, w) && PrefixClosed(txs, lo, w)
    requires forall x | x in tx.objects :: x.Object? && x.path.txId == |txs| + 1
    ensures IdsBelow(w + tx.objects + [Log(|txs| + 1, tx.diff)], |txs| + 2)
  {
    WholeAt(txs, lo, w);
    IdsAppend(w, tx.objects, |txs| + 2);
    IdsAppend(w + tx.objects, [Log(|txs| + 1, tx.diff)], |txs| + 2);
  }

  /** When entries for one path agree, extraction stores just those bytes. */
  lemma {:induction false} ExtractSame(os: map<Path, Bytes>, objs: Wal, e: Entry)
    requires SameBytes(objs, objs) && e in objs && e.Object?
    ensures e.path in Extract(os, objs) && Extract(os, objs)[e.path] == e.bytes
  {
    var front, last := objs[..|objs| - 1], objs[|objs| - 1];
    assert last in objs;
    if last.Object? && last.path == e.path {
    } else {
      assert e in front;
      forall x | x in front ensures x in objs {}
      ExtractSame(os, front, e);
    }
  }

  lemma {:induction false} CommitAgrees(txs: seq<Tx>, tx: Tx, os: map<Path, Bytes>)
    requires Agrees(txs, os) && SameBytes(tx.objects, tx.objects) && OwnIds(txs)
    requires forall x | x in tx.objects :: x.Object? && x.path.txId == |txs| + 1
    ensures Agrees(txs + [tx], Extract(os, tx.objects))
  {
    ExtractAgrees(txs, os, tx.objects);
    forall e | e in tx.objects ensures e.path in Extract(os, tx.objects) && Extract(os, tx.objects)[e.path] == e.bytes {
      ExtractSame(os, tx.objects, e);
    }
    AgreesExtend(txs, tx, Extract(os, tx.objects));
  }

  lemma {:induction false} CommitWalsRight(txs: seq<Tx>, tx: Tx, last: nat, wals: map<nat, Wal>)
    requires WalsRight(txs, last, wals) && last in wals && last <= |txs| + 1 && OwnIds(txs)
    requires forall x | x in tx.objects :: x.Object? && x.path.txId == |txs| + 1
    requires SameBytes(tx.objects, wals[last] + tx.objects)
    requires Holds(txs, last, |txs| + 1, wals[last]) && PrefixClosed(txs, last, wals[last])
    ensures WalsRight(txs + [tx], last, wals[last := wals[last] + tx.objects + [Log(|txs| + 1, tx.diff)]])
  {
    hide PrefixClosed, Holds, OwnIds, RightWal, SameBytes, IdsBelow;
    var e := Log(|txs| + 1, tx.diff);
    var w' := wals[last] + tx.objects + [e];
    var wals' := wals[last := w'];
    forall n | n in wals'
      ensures RightWal(txs + [tx], wals'[n]) && IdsBelow(wals'[n], if n == last then |txs + [tx]| + 2 else last)
    {
      if n == last {
        RightAppend(txs, wals[last], tx.objects, e);
        SameBytesLog(tx.objects, wals[last] + tx.objects, e);
        RightExtend(txs, tx, w');
        IdsAfterCommit(txs, tx, last, wals[last]);
        IdsWeaken(w', |txs| + 2, |txs| + 3);
      } else {
        IdsWeaken(wals[n], last, |txs| + 1);
        SameBytesByIds(tx.objects, wals[n], |txs| + 1);
        RightExtend(txs, tx, wals[n]);
      }
    }
  }

  lemma {:induction false} IdsWeaken(w: Wal, hi: nat, hi': nat)
    requires IdsBelow(w, hi) && hi <= hi'
    ensures IdsBelow(w, hi')
  {
  }

  lemma {:induction false} CommitStored(s: Sys, tx: Tx, i: nat)
    requires DiskInv(s) && ObjDiskInv(s.txs, s.cuts, s.store.disk) && CanCommit(s, tx.diff, tx.objects)
    ensures var wals := s.store.disk.wals[Last(s.cuts) :=
                          s.store.disk.wals[Last(s.cuts)] + tx.objects + [Log(|s.txs| + 1, tx.diff)]];
            StoredAt(s.txs + [tx], s.cuts, wals, i)
  {
    hide Md, WalsRight, Agrees, Stored, ArchiveInv, OwnIds, SnapInv, KeptInv, NamesInv, HoldsObjects, RightWal;
    var last := Last(s.cuts);
    var w := s.store.disk.wals[last];
    assert StoredAt(s.txs, s.cuts, s.store.disk.wals, i);
    if i < |s.cuts| - 1 {
      assert s.cuts[i] < last && s.cuts[i + 1] <= last;
      if s.cuts[i] in s.store.disk.wals {
        HoldsExtends(s.txs, tx, s.cuts[i], s.cuts[i + 1], s.store.disk.wals[s.cuts[i]]);
      }
    } else if i == |s.cuts| - 1 {
      PrefixAppend(s.txs, tx, last, w);
      HoldsAppend(s.txs, tx, last, w, tx.objects);
      WholeAt(s.txs + [tx], last, w + tx.objects + [Log(|s.txs| + 1, tx.diff)]);
    }
  }

  lemma {:induction false} CommitDisk(s: Sys, tx: Tx)
    requires DiskInv(s) && ObjDiskInv(s.txs, s.cuts, s.store.disk) && CanCommit(s, tx.diff, tx.objects)
    requires SameBytes(tx.objects, s.store.disk.wals[Last(s.cuts)] + tx.objects)
    ensures ObjDiskInv(s.txs + [tx], s.cuts, AppendOnly(s, tx.diff, tx.objects).store.disk)
    ensures IdsBelow(AppendOnly(s, tx.diff, tx.objects).store.disk.wals[Last(s.cuts)], |s.txs| + 2)
  {
    hide Md, ArchiveInv, KeptInv, NamesInv, RightWal, HoldsObjects, WalsRight, StoredAt, Increasing, PrefixClosed,
        SameBytes;
    var last := Last(s.cuts);
    CommitWalsRight(s.txs, tx, last, s.store.disk.wals);
    IdsAfterCommit(s.txs, tx, last, s.store.disk.wals[last]);
    PrefixAppend(s.txs, tx, last, s.store.disk.wals[last]);
    AgreesExtend(s.txs, tx, s.store.disk.objects);
    forall i: nat ensures StoredAt(s.txs + [tx], s.cuts, AppendOnly(s, tx.diff, tx.objects).store.disk.wals, i) {
      CommitStored(s, tx, i);
    }
    StoredExtends(s.txs, tx, Covered(s.store.disk.latest), s.store.disk.objects);
    OwnIdsExtend(s.txs, tx);
  }

  lemma {:induction false} StoredExtends(txs: seq<Tx>, tx: Tx, hi: nat, os: map<Path, Bytes>)
    requires Stored(txs, hi, os) && hi <= |txs|
    ensures Stored(txs + [tx], hi, os)
  {
  }

  lemma {:induction false} OwnIdsExtend(txs: seq<Tx>, tx: Tx)
    requires OwnIds(txs) && forall x | x in tx.objects :: x.Object? && x.path.txId == |txs| + 1
    ensures OwnIds(txs + [tx])
  {
  }

  lemma {:induction false} SameAhead(wals: map<nat, Wal>, wals': map<nat, Wal>, files: seq<nat>, i: nat, j: nat,
      e: Entry)
    requires Ahead(wals, files, i, j, e)
    requires forall f | f in files :: WalOrEmpty(wals', f) == WalOrEmpty(wals, f)
    ensures Ahead(wals', files, i, j, e)
  {
    var m: nat, q: nat :| At(wals, files, m, q, e) && (i < m || (i == m && j <= q));
    assert files[m] in files;
    assert At(wals', files, m, q, e);
  }

  /** Unpacking only concerns transactions up to the job's, and files that no commit touches. */
  lemma {:induction false} UnpackStays(txs: seq<Tx>, txs': seq<Tx>, disk: Disk, disk': Disk, r: Running)
    requires UnpackInv(txs, disk, r) && txs <= txs' && r.job.txId <= |txs| && disk'.objects == disk.objects
    requires forall f | f in r.files :: WalOrEmpty(disk'.wals, f) == WalOrEmpty(disk.wals, f)
    ensures UnpackInv(txs', disk', r)
  {
    if r.phase.Unpack? {
      forall k: nat, e | k < r.job.txId && k < |txs'| && e in txs'[k].objects && e.Object?
        ensures e.path in disk'.objects || Ahead(disk'.wals, r.files, r.phase.file, r.phase.entry, e)
      {
        assert txs'[k] == txs[k];
        if e.path !in disk'.objects {
          SameAhead(disk.wals, disk'.wals, r.files, r.phase.file, r.phase.entry, e);
        }
      }
    }
  }

  lemma {:induction false} JobFilesRotated(s: Sys)
    requires DiskInv(s) && s.store.mem.Up? && s.store.mem.running.Some?
    requires ThreadInv(s.txs, s.cuts, s.store.mem, s.store.disk.latest, s.store.disk.snapshots)
    ensures forall f | f in s.store.mem.running.value.files :: f < Last(s.cuts)
    ensures s.store.mem.running.value.job.txId < Last(s.cuts) && s.store.mem.running.value.job.txId <= |s.txs|
  {
    hide Md, ArchiveInv, KeptInv, NamesInv, WalsInv, Increasing;
    CutsBelowLast(s.cuts, |s.txs|);
  }

  lemma {:induction false} CommitMem(s: Sys, tx: Tx)
    requires Inv(s) && CanCommit(s, tx.diff, tx.objects)
    requires ObjDiskInv(s.txs, s.cuts, s.store.disk) && ObjMemInv(s.txs, s.store.disk, s.store.mem)
    requires SameBytes(tx.objects, s.store.disk.wals[Last(s.cuts)] + tx.objects)
    ensures var s1 := AppendOnly(s, tx.diff, tx.objects);
            ObjMemInv(s1.txs, s1.store.disk, s1.store.mem)
            && forall p | p in s1.store.mem.memTable :: p.txId <= |s1.txs|
  {
    hide Md, DiskInv, WalsRight, StoredAt, PrefixClosed, Increasing, ThreadInv, UnpackInv, Stored, Extract, Complete,
        Agrees;
    ActiveStays(s);
    var s1 := AppendOnly(s, tx.diff, tx.objects);
    var mem, last := s.store.mem, Last(s.cuts);
    SameBytesPart(tx.objects, s.store.disk.wals[last]);
    CommitAgrees(s.txs, tx, mem.memTable);
    ExtractKeys(mem.memTable, tx.objects);
    assert s1.store.disk.wals.Keys == s.store.disk.wals.Keys;
    if mem.running.Some? {
      JobFilesRotated(s);
      UnpackStays(s.txs, s1.txs, s.store.disk, s1.store.disk, mem.running.value);
    }
  }

  lemma {:induction false} ActiveStays(s: Sys)
    requires DiskInv(s) && s.store.mem.Up?
    ensures s.cuts != [] && s.store.mem.active == Last(s.cuts) && Last(s.cuts) in s.store.disk.wals
  {
  }

  lemma {:induction false} SameBytesPart(objs: Wal, w: Wal)
    requires SameBytes(objs, w + objs)
    ensures SameBytes(objs, objs)
  {
    forall x | x in objs ensures x in w + objs {}
  }

  // ---------- rotation ----------

  lemma {:induction false} RotateDisk(s: Sys)
    requires DiskInv(s) && s.store.disk.wals.Keys != {} && Last(s.cuts) <= |s.txs|
    requires ObjDiskInv(s.txs, s.cuts, s.store.disk)
    requires Last(s.cuts) in s.store.disk.wals ==> IdsBelow(s.store.disk.wals[Last(s.cuts)], |s.txs| + 1)
    ensures ObjDiskInv(s.txs, s.cuts + [|s.txs| + 1], RotatedDisk(s.store.disk, |s.txs|))
  {
    hide Md, ArchiveInv, WalsInv, KeptInv, SnapInv, RightWal, HoldsObjects, OwnIds, Agrees, Stored, Increasing;
    var n, last := |s.txs|, Last(s.cuts);
    var wals, wals' := s.store.disk.wals, RotatedDisk(s.store.disk, n).wals;
    ActiveIsLast(s);
    forall m | m in wals' ensures RightWal(s.txs, wals'[m]) && IdsBelow(wals'[m], if m == n + 1 then n + 2 else n + 1) {
      if m == n + 1 {
        EmptyRight(s.txs);
      } else if m != last {
        IdsWeaken(wals[m], last, n + 1);
      }
    }
    var cuts' := s.cuts + [n + 1];
    forall i: nat ensures StoredAt(s.txs, cuts', wals', i) {
      assert StoredAt(s.txs, s.cuts, wals, i);
      if i < |s.cuts| { CutsBelowLast(s.cuts, n); }
      else if i == |s.cuts| { EmptyStores(s.txs); }
    }
    EmptyPrefix(s.txs);
  }

  lemma {:induction false} EmptyRight(txs: seq<Tx>)
    ensures RightWal(txs, [])
  {
  }

  lemma {:induction false} EmptyStores(txs: seq<Tx>)
    ensures HoldsObjects(txs, |txs| + 1, |txs| + 1, [])
  {
  }

  lemma {:induction false} EmptyPrefix(txs: seq<Tx>)
    ensures PrefixClosed(txs, |txs| + 1, [])
  {
    var lo, w: Wal := |txs| + 1, [];
    forall keep: nat | keep <= |w| ensures PrefixAt(txs, lo, w, keep) {}
  }

  lemma {:induction false} RotateMem(s: Sys, walsPerSnapshot: nat)
    requires Inv(s) && s.store.mem.Up? && Last(s.cuts) <= |s.txs|
    requires ObjMemInv(s.txs, s.store.disk, s.store.mem) && s.store.disk.wals.Keys != {}
    requires forall p | p in s.store.mem.memTable :: p.txId <= |s.txs|
    requires JobsBelow(s.store.mem, s.store.disk.latest, |s.txs|)
    ensures var n := |s.txs|;
            ObjMemInv(s.txs, RotatedDisk(s.store.disk, n), RotatedMem(s.store, walsPerSnapshot, n, Md(s.txs)))
  {
    hide Md, Agrees, Readable, UnpackInv, Increasing, DiskInv, ThreadInv, QueueInv, JobInv;
    var n, mem := |s.txs|, s.store.mem;
    var disk' := RotatedDisk(s.store.disk, n);
    var mem' := RotatedMem(s.store, walsPerSnapshot, n, Md(s.txs));
    assert disk'.wals.Keys == s.store.disk.wals.Keys + {n + 1};
    forall i | 0 <= i < |mem.queue| ensures Complete(mem.queue[i], disk'.wals.Keys) {
      assert Complete(mem.queue[i], s.store.disk.wals.Keys);
    }
    if mem.running.Some? {
      JobFilesRotated(s);
      UnpackStays(s.txs, s.txs, s.store.disk, disk', mem.running.value);
    }
  }

  lemma {:induction false} CommitKeepsObjects(s: Sys, walsPerSnapshot: nat, diff: Json, objs: Wal, full: bool)
    requires ObjInv(s) && CanCommit(s, diff, objs)
    requires SameBytes(objs, s.store.disk.wals[s.store.mem.active] + objs)
    ensures ObjInv(Step(s, walsPerSnapshot, Commit(diff, objs, full)))
  {
    hide DiskInv, ObjDiskInv, ObjMemInv, Md, SameBytes, JobsBelow, ThreadInv;
    ActiveStays(s);
    var tx := Tx(diff, objs);
    var s1 := AppendOnly(s, diff, objs);
    CommitKeepsInv(s, walsPerSnapshot, diff, objs, full);
    CommitDisk(s, tx);
    CommitMem(s, tx);
    if full {
      CommitKeepsInv(s, walsPerSnapshot, diff, objs, false);
      assert s1 == Step(s, walsPerSnapshot, Commit(diff, objs, false));
      CommitRotates(s, diff, objs);
      JobsOlder(s);
      JobsBelowSame(s.store.mem, s1.store.mem, s.store.disk.latest, |s1.txs|);
      RotateDisk(s1);
      RotateMem(s1, walsPerSnapshot);
    }
  }

  // ---------- snapshot thread ----------

  /** The log that holds transaction k + 1. */
  lemma {:induction false} CutOf(cuts: seq<nat>, n: nat, k: nat) returns (i: nat)
    requires CutsInv(cuts, n) && k < n
    ensures i < |cuts| && cuts[i] <= k + 1 && (i + 1 < |cuts| ==> k + 1 < cuts[i + 1])
  {
    i := 0;
    while i + 1 < |cuts| && cuts[i + 1] <= k + 1
      invariant i < |cuts| && cuts[i] <= k + 1
      decreases |cuts| - i
    {
      i := i + 1;
    }
  }

  /** Every object of a transaction up to the job's is stored already or is in a file to unpack. */
  lemma {:induction false} TakeJobUnpacks(s: Sys, job: Job)
    requires DiskInv(s) && ObjDiskInv(s.txs, s.cuts, s.store.disk) && JobInv(s.txs, s.cuts, job)
    requires Complete(job, s.store.disk.wals.Keys) && s.store.mem.Up?
    ensures UnpackInv(s.txs, s.store.disk, TakeJob(job, s.store.disk.wals))
  {
    hide Md, ArchiveInv, WalsInv, WalsRight, Agrees, Increasing, PrefixClosed, OwnIds, ObjDiskInv, DiskInv, JobInv;
    var disk := s.store.disk;
    var files := Existing(job.walFiles, disk.wals);
    forall k: nat, e | k < job.txId && k < |s.txs| && e in s.txs[k].objects && e.Object?
      ensures e.path in disk.objects || Ahead(disk.wals, files, 0, 0, e)
    {
      if e.path !in disk.objects { UnpacksOne(s, job, k, e); }
    }
  }

  lemma {:induction false} UnpacksOne(s: Sys, job: Job, k: nat, e: Entry)
    requires DiskInv(s) && ObjDiskInv(s.txs, s.cuts, s.store.disk) && s.store.mem.Up?
    requires Complete(job, s.store.disk.wals.Keys)
    requires k < job.txId && k < |s.txs| && e in s.txs[k].objects && e.Object? && e.path !in s.store.disk.objects
    ensures Ahead(s.store.disk.wals, Existing(job.walFiles, s.store.disk.wals), 0, 0, e)
  {
    hide Md, ArchiveInv, WalsInv, WalsRight, Agrees, Increasing, PrefixClosed, OwnIds;
    var disk := s.store.disk;
    var files := Existing(job.walFiles, disk.wals);
    var i := UncoveredCut(s, k);
    StoredEntry(s, k, e, i);
    var w := disk.wals[s.cuts[i]];
    assert s.cuts[i] in files;
    var m: nat :| m < |files| && files[m] == s.cuts[i];
    var q: nat :| q < |w| && w[q] == e;
    assert At(disk.wals, files, m, q, e);
  }

  /** A transaction after the snapshot has its log in place. */
  lemma {:induction false} UncoveredCut(s: Sys, k: nat) returns (i: nat)
    requires DiskInv(s) && k < |s.txs|
    ensures i < |s.cuts| && s.cuts[i] <= k + 1 < End(s.txs, s.cuts, i)
    ensures Covered(s.store.disk.latest) <= k ==>
              s.cuts[i] in s.store.disk.wals && Covered(s.store.disk.latest) < s.cuts[i]
  {
    hide Md, ArchiveInv, WalsInv;
    i := CutOf(s.cuts, |s.txs|, k);
    var t := Covered(s.store.disk.latest);
    if t <= k {
      var j := NextCut(s);
      NextBefore(s.cuts, |s.txs|, i, j);
      assert s.cuts[i] in s.cuts;
      NonEmptyWals(s);
    }
  }

  lemma {:induction false} NextBefore(cuts: seq<nat>, n: nat, i: nat, j: nat)
    requires CutsInv(cuts, n) && i < |cuts| && j < |cuts|
    requires i + 1 < |cuts| ==> cuts[j] < cuts[i + 1]
    ensures cuts[j] <= cuts[i]
  {
  }

  lemma {:induction false} NonEmptyWals(s: Sys)
    requires DiskInv(s) && s.txs != []
    ensures s.store.disk.wals.Keys != {}
  {
    assert Last(s.cuts) in s.store.disk.wals.Keys;
  }

  lemma {:induction false} StoredEntry(s: Sys, k: nat, e: Entry, i: nat)
    requires DiskInv(s) && ObjDiskInv(s.txs, s.cuts, s.store.disk)
    requires k < |s.txs| && e in s.txs[k].objects && e.Object?
    requires i < |s.cuts| && s.cuts[i] <= k + 1 < End(s.txs, s.cuts, i)
    requires Covered(s.store.disk.latest) <= k ==> s.cuts[i] in s.store.disk.wals
    ensures e.path in s.store.disk.objects || (s.cuts[i] in s.store.disk.wals && e in s.store.disk.wals[s.cuts[i]])
  {
    hide Md, ArchiveInv, WalsInv, WalsRight, Agrees, Increasing, PrefixClosed, OwnIds;
    assert StoredAt(s.txs, s.cuts, s.store.disk.wals, i);
  }

  lemma {:induction false} UnpackAdvances(txs: seq<Tx>, disk: Disk, r: Running)
    requires UnpackInv(txs, disk, r) && r.phase.Unpack?
    ensures JobNext(disk, r).Some? && UnpackInv(txs, JobDisk(disk, r), JobNext(disk, r).value)
  {
    var i, j := r.phase.file, r.phase.entry;
    var disk' := JobDisk(disk, r);
    var next := JobNext(disk, r).value;
    forall k: nat, e | k < r.job.txId && k < |txs| && e in txs[k].objects && e.Object?
      ensures e.path in disk'.objects
              || (next.phase.Unpack? && Ahead(disk'.wals, next.files, next.phase.file, next.phase.entry, e))
    {
      if e.path !in disk.objects {
        var m: nat, q: nat :| At(disk.wals, r.files, m, q, e) && (i < m || (i == m && j <= q));
        assert At(disk'.wals, r.files, m, q, e);
      }
    }
  }

  lemma {:induction false} JobAdvances(txs: seq<Tx>, disk: Disk, r: Running)
    requires UnpackInv(txs, disk, r) && Complete(r.job, disk.wals.Keys)
    ensures JobNext(disk, r).Some? ==> UnpackInv(txs, JobDisk(disk, r), JobNext(disk, r).value)
  {
    if r.phase.Unpack? {
      UnpackAdvances(txs, disk, r);
    } else {
      hide Stored;
    }
  }

  lemma {:induction false} PutKeepsAgrees(txs: seq<Tx>, last: nat, disk: Disk, r: Running)
    requires Agrees(txs, disk.objects) && WalsRight(txs, last, disk.wals)
    requires (forall p | p in disk.objects :: p.txId < last) && forall f | f in r.files :: f != last
    ensures Agrees(txs, JobDisk(disk, r).objects) && forall p | p in JobDisk(disk, r).objects :: p.txId < last
    ensures forall p | p in disk.objects :: p in JobDisk(disk, r).objects
  {
    hide RightWal, Agrees;
    if r.phase.Unpack? && r.phase.file < |r.files| {
      var f := r.files[r.phase.file];
      assert f in r.files;
      var w := WalOrEmpty(disk.wals, f);
      if r.phase.entry < |w| {
        PutAgrees(txs, disk.objects, w, w[r.phase.entry]);
      }
    }
  }

  lemma {:induction false} JobKeepsObjDisk(s: Sys, r: Running)
    requires DiskInv(s) && ObjDiskInv(s.txs, s.cuts, s.store.disk) && UnpackInv(s.txs, s.store.disk, r)
    requires JobInv(s.txs, s.cuts, r.job) && PhaseInv(r, s.store.disk.latest, s.store.disk.snapshots)
    requires Last(s.cuts) in s.store.disk.wals && forall f | f in r.files :: f < Last(s.cuts)
    ensures ObjDiskInv(s.txs, s.cuts, JobDisk(s.store.disk, r))
  {
    assert s.cuts != [];
    hide Md, ArchiveInv, WalsInv, Agrees, Increasing, PrefixClosed, OwnIds, DiskInv, RightWal, HoldsObjects, JobInv,
        PhaseInv, IdsBelow;
    var disk, disk' := s.store.disk, JobDisk(s.store.disk, r);
    var last := Last(s.cuts);
    PutKeepsAgrees(s.txs, last, disk, r);
    JobWals(s, r);
    forall n | n in disk'.wals ensures n in disk.wals && disk'.wals[n] == disk.wals[n] {
      assert n in disk'.wals.Keys;
    }
    forall i: nat ensures StoredAt(s.txs, s.cuts, disk'.wals, i) {
      assert StoredAt(s.txs, s.cuts, disk.wals, i);
    }
    JobKeepsStored(s.txs, disk, r);
  }

  lemma {:induction false} JobKeepsStored(txs: seq<Tx>, disk: Disk, r: Running)
    requires Stored(txs, Covered(disk.latest), disk.objects) && UnpackInv(txs, disk, r)
    ensures Stored(txs, Covered(JobDisk(disk, r).latest), JobDisk(disk, r).objects)
  {
  }

  lemma {:induction false} ReadableMore(txs: seq<Tx>, memTable: map<Path, Bytes>, os: map<Path, Bytes>,
      os': map<Path, Bytes>)
    requires Readable(txs, memTable, os) && forall p | p in os :: p in os'
    ensures Readable(txs, memTable, os')
  {
  }

  lemma {:induction false} CompleteLess(job: Job, wals: set<nat>, wals': set<nat>)
    requires Complete(job, wals) && wals' <= wals
    ensures Complete(job, wals')
  {
  }

  lemma {:induction false} JobKeepsObjMem(s: Sys)
    requires Inv(s) && ObjDiskInv(s.txs, s.cuts, s.store.disk) && ObjMemInv(s.txs, s.store.disk, s.store.mem)
    requires s.store.mem.Up? && s.store.mem.running.Some?
    ensures var st := SnapshotStep(s.store); ObjMemInv(s.txs, st.disk, st.mem)
  {
    hide Md, Agrees, Readable, UnpackInv, Increasing, DiskInv, ThreadInv, QueueInv, JobInv, JobDisk, JobNext,
        Complete, WalsRight, Stored, PrefixClosed, PhaseInv, StoredAt;
    var disk, mem := s.store.disk, s.store.mem;
    var r := mem.running.value;
    var disk' := JobDisk(disk, r);
    ActiveStays(s);
    JobFilesRotated(s);
    RunningFacts(s);
    JobWals(s, r);
    PutKeepsAgrees(s.txs, Last(s.cuts), disk, r);
    ReadableMore(s.txs, mem.memTable, disk.objects, disk'.objects);
    JobAdvances(s.txs, disk, r);
    NextKeepsPhase(disk, r);
    forall i | 0 <= i < |mem.queue| ensures Complete(mem.queue[i], disk'.wals.Keys) {
      CompleteLess(mem.queue[i], disk.wals.Keys, disk'.wals.Keys);
    }
    CompleteLess(r.job, disk.wals.Keys, disk'.wals.Keys);
  }

  lemma {:induction false} RunningFacts(s: Sys)
    requires Inv(s) && s.store.mem.Up? && s.store.mem.running.Some?
    ensures var r := s.store.mem.running.value;
            JobInv(s.txs, s.cuts, r.job) && PhaseInv(r, s.store.disk.latest, s.store.disk.snapshots)
  {
    hide DiskInv, JobInv, PhaseInv, QueueInv;
  }

  lemma {:induction false} QueueFacts(s: Sys)
    requires Inv(s) && s.store.mem.Up? && s.store.mem.queue != []
    ensures JobInv(s.txs, s.cuts, s.store.mem.queue[0])
  {
    hide DiskInv, JobInv, PhaseInv;
  }

  lemma {:induction false} SnapshotKeepsObjects(s: Sys)
    requires ObjInv(s)
    ensures ObjInv(s.(store := SnapshotStep(s.store)))
  {
    hide Inv, ObjDiskInv, JobDisk, JobNext, UnpackInv, Agrees, Readable, Complete, TakeJob;
    SnapshotKeepsInv(s);
    var mem := s.store.mem;
    if mem.Up? {
      if mem.running.Some? {
        JobObjects(s);
      } else if mem.queue != [] {
        QueueFacts(s);
        DiskOf(s);
        TakeJobUnpacks(s, mem.queue[0]);
        assert TakeJob(mem.queue[0], s.store.disk.wals).job == mem.queue[0] by { JobTaken(mem.queue[0],
            s.store.disk.wals); }
      }
    }
  }

  lemma {:induction false} JobTaken(job: Job, wals: map<nat, Wal>)
    ensures TakeJob(job, wals).job == job
  {
  }

  lemma {:induction false} DiskOf(s: Sys)
    requires Inv(s)
    ensures DiskInv(s)
  {
  }

  lemma {:induction false} JobObjects(s: Sys)
    requires ObjInv(s) && s.store.mem.Up? && s.store.mem.running.Some?
    ensures var st := SnapshotStep(s.store); ObjDiskInv(s.txs, s.cuts, st.disk) && ObjMemInv(s.txs, st.disk, st.mem)
  {
    hide DiskInv, ObjDiskInv, ThreadInv, JobDisk, JobNext, UnpackInv, Agrees, Readable, Complete, JobInv, PhaseInv;
    DiskOf(s);
    RunningFacts(s);
    ActiveStays(s);
    JobFilesRotated(s);
    JobKeepsObjDisk(s, s.store.mem.running.value);
    JobKeepsObjMem(s);
  }

  lemma {:induction false} DropKeepsObjects(s: Sys, p: Path)
    requires ObjInv(s)
    ensures ObjInv(s.(store := DropMem(s.store, p)))
  {
    hide Inv, ObjDiskInv, Complete;
    DropKeepsInv(s, p);
    if CanDrop(s.store, p) {
      OwnIdsOf(s);
    }
  }

  lemma {:induction false} OwnIdsOf(s: Sys)
    requires Inv(s) && ObjDiskInv(s.txs, s.cuts, s.store.disk)
    ensures OwnIds(s.txs)
  {
  }

  // ---------- crash and restart ----------

  lemma {:induction false} HoldsCutTxs(txs: seq<Tx>, left: nat, lo: nat, hi: nat, w: Wal)
    requires HoldsObjects(txs, lo, hi, w) && left <= |txs|
    ensures HoldsObjects(txs[..left], lo, hi, w)
  {
  }

  lemma {:induction false} PrefixCrash(txs: seq<Tx>, left: nat, lo: nat, w: Wal, keep: nat)
    requires PrefixClosed(txs, lo, w) && keep <= |w| && left <= |txs|
    ensures PrefixClosed(txs[..left], lo, w[..keep])
  {
    hide HoldsObjects;
    forall k: nat | k <= |w[..keep]| ensures PrefixAt(txs[..left], lo, w[..keep], k) {
      assert w[..keep][..k] == w[..k];
      assert PrefixAt(txs, lo, w, k);
      HoldsCutTxs(txs, left, lo, lo + |Logs(w[..k])|, w[..k]);
    }
  }

  lemma {:induction false} RightCrash(txs: seq<Tx>, left: nat, w: Wal, keep: nat)
    requires RightWal(txs, w) && left <= |txs| && keep <= |w|
    ensures RightWal(txs[..left], w[..keep])
  {
    forall x | x in w[..keep] ensures x in w {}
  }

  lemma {:induction false} CrashWalsRight(s: Sys, keep: nat)
    requires DiskInv(s) && ObjDiskInv(s.txs, s.cuts, s.store.disk)
    requires 0 <= Last(s.cuts) - 1 <= Surviving(s, keep) <= |s.txs|
    ensures var txs', wals' := s.txs[..Surviving(s, keep)], CrashedWals(s.store, keep);
            && WalsRight(txs', Last(s.cuts), wals')
            && (Last(s.cuts) in wals' ==> PrefixClosed(txs', Last(s.cuts), wals'[Last(s.cuts)]))
  {
    hide Md, ArchiveInv, SnapInv, KeptInv, NamesInv, Agrees, Increasing, PrefixClosed, OwnIds, Stored, RightWal,
        Holds, StoredAt;
    var wals, last, left := s.store.disk.wals, Last(s.cuts), Surviving(s, keep);
    var wals' := CrashedWals(s.store, keep);
    CrashKeepsActive(s, keep);
    forall n | n in wals' ensures RightWal(s.txs[..left], wals'[n]) && IdsBelow(wals'[n],
        if n == last then left + 2 else last) {
      assert n in wals'.Keys;
      if n != last {
        assert wals[n][..|wals[n]|] == wals[n];
        RightCrash(s.txs, left, wals[n], |wals[n]|);
      } else {
        LastCrash(s, keep);
      }
    }
    if last in wals' { assert last in wals'.Keys; LastCrash(s, keep); }
  }

  lemma {:induction false} LastCrash(s: Sys, keep: nat)
    requires DiskInv(s) && ObjDiskInv(s.txs, s.cuts, s.store.disk) && Last(s.cuts) in s.store.disk.wals
    requires 0 <= Last(s.cuts) - 1 <= Surviving(s, keep) <= |s.txs|
    ensures var txs', wals' := s.txs[..Surviving(s, keep)], CrashedWals(s.store, keep);
            Last(s.cuts) in wals' && PrefixClosed(txs', Last(s.cuts), wals'[Last(s.cuts)])
            && RightWal(txs', wals'[Last(s.cuts)]) && IdsBelow(wals'[Last(s.cuts)], Surviving(s, keep) + 2)
  {
    hide Md, ArchiveInv, SnapInv, KeptInv, NamesInv, Agrees, Increasing, OwnIds, Stored, HoldsObjects, RightWal,
        StoredAt;
    var last, left := Last(s.cuts), Surviving(s, keep);
    var w := s.store.disk.wals[last];
    var k: nat := if s.store.mem.Up? && keep < |w| then keep else |w|;
    assert w[..|w|] == w;
    assert CrashedWals(s.store, keep)[last] == w[..k];
    PrefixCrash(s.txs, left, last, w, k);
    RightCrash(s.txs, left, w, k);
    assert PrefixAt(s.txs, last, w, k);
    if k == |w| { WholeAt(s.txs, last, w); }
  }

  lemma {:induction false} CrashKeepsObjects(s: Sys, keep: nat)
    requires ObjInv(s)
    ensures 0 <= Surviving(s, keep) <= |s.txs|
    ensures ObjInv(Sys(Crash(s.store, keep), s.txs[..Surviving(s, keep)], s.cuts))
  {
    assert s.cuts != [];
    hide Md, DiskInv, ThreadInv, WalsRight, Increasing, PrefixClosed, Surviving, CrashedWals, HoldsObjects, Agrees,
        OwnIds, Stored;
    CrashKeepsInv(s, keep);
    CrashWalsRight(s, keep);
    var left := Surviving(s, keep);
    CutObjects(s.txs, left, Covered(s.store.disk.latest), s.store.disk.objects);
    var wals' := CrashedWals(s.store, keep);
    forall i: nat ensures StoredAt(s.txs[..left], s.cuts, wals', i) {
      CrashStored(s, keep, i);
    }
  }

  lemma CutObjects(txs: seq<Tx>, left: nat, hi: nat, os: map<Path, Bytes>)
    requires OwnIds(txs) && Agrees(txs, os) && Stored(txs, hi, os) && left <= |txs|
    ensures OwnIds(txs[..left]) && Agrees(txs[..left], os) && Stored(txs[..left], hi, os)
  {
  }

  lemma {:induction false} CrashStored(s: Sys, keep: nat, i: nat)
    requires DiskInv(s) && ObjDiskInv(s.txs, s.cuts, s.store.disk)
    requires 0 <= Last(s.cuts) - 1 <= Surviving(s, keep) <= |s.txs|
    ensures StoredAt(s.txs[..Surviving(s, keep)], s.cuts, CrashedWals(s.store, keep), i)
  {
    hide Md, ArchiveInv, SnapInv, KeptInv, NamesInv, Agrees, OwnIds, Stored, HoldsObjects, RightWal, WalsRight,
        PrefixClosed, Increasing;
    var left := Surviving(s, keep);
    var wals' := CrashedWals(s.store, keep);
    CrashKeepsActive(s, keep);
    assert StoredAt(s.txs, s.cuts, s.store.disk.wals, i);
    if i < |s.cuts| && s.cuts[i] in wals' {
      assert s.cuts[i] in wals'.Keys;
      if i == |s.cuts| - 1 {
        CrashWalsRight(s, keep);
        WholeAt(s.txs[..left], Last(s.cuts), wals'[Last(s.cuts)]);
      } else {
        CutsBelowLast(s.cuts, |s.txs|);
        HoldsCutTxs(s.txs, left, s.cuts[i], s.cuts[i + 1], s.store.disk.wals[s.cuts[i]]);
      }
    }
  }

  lemma {:induction false} BootDisk(s: Sys)
    requires DiskInv(s) && ObjDiskInv(s.txs, s.cuts, s.store.disk)
    ensures ObjDiskInv(s.txs, s.cuts, s.store.disk.(wals := BootedWals(s.store.disk)))
  {
    hide Md, ArchiveInv, SnapInv, KeptInv, NamesInv, Agrees, OwnIds, Stored, HoldsObjects, RightWal, Holds,
        Increasing, BootedWals;
    BootKeepsDisk(s, Down);
    if s.store.disk.wals == map[] {
      assert s.txs == [] && s.cuts == [1];
      FirstWal(s);
      EmptyRight([]);
      EmptyStores([]);
      EmptyPrefix([]);
    }
  }

  lemma {:induction false} FirstWal(s: Sys)
    requires s.store.disk.wals == map[] && s.store.disk.latest.None?
    ensures BootedWals(s.store.disk) == map[1 := []]
  {
    assert Opened(s.store.disk.wals) == map[1 := []];
  }

  lemma {:induction false} BootReadable(s: Sys)
    requires DiskInv(s) && ObjDiskInv(s.txs, s.cuts, s.store.disk) && Last(s.cuts) in s.store.disk.wals
    requires SnapshotMd(s.store.disk.snapshots, s.store.disk.latest) == Some(Md(s.txs[..Covered(s.store.disk.latest)]))
    ensures var disk := s.store.disk;
            var files := FilesToApply(disk.wals, Md(s.txs[..Covered(disk.latest)]), disk.latest);
            var memTable := ExtractFiles(map[], files, disk.wals);
            && Agrees(s.txs, memTable)
            && (forall p | p in memTable :: p.txId <= |s.txs| + 1)
            && Readable(s.txs, memTable, disk.objects)
  {
    assert s.cuts != [] && Covered(s.store.disk.latest) <= |s.txs|;
    hide Md, DiskInv, Agrees, OwnIds, Stored, Increasing, PrefixClosed, RightWal;
    var disk := s.store.disk;
    var files := FilesToApply(disk.wals, Md(s.txs[..Covered(disk.latest)]), disk.latest);
    var memTable := ExtractFiles(map[], files, disk.wals);
    ExtractFilesAgree(s.txs, Last(s.cuts), files, disk.wals);
    ExtractFilesKeys(files, disk.wals);
    FileIds(s, files);
    forall k: nat, e | k < |s.txs| && e in s.txs[k].objects && e.Object? && e.path !in disk.objects
      ensures e.path in memTable
    {
      var f := FileWithEntry(s, k, e);
    }
  }

  lemma {:induction false} FileIds(s: Sys, files: seq<nat>)
    requires DiskInv(s) && ObjDiskInv(s.txs, s.cuts, s.store.disk) && forall f | f in files :: f in s.store.disk.wals
    ensures forall p | p in ExtractFiles(map[], files, s.store.disk.wals) :: p.txId <= |s.txs| + 1
  {
    ExtractFilesKeys(files, s.store.disk.wals);
    LastCutBound(s);
    hide DiskInv, Agrees, OwnIds, Stored, PrefixClosed, RightWal, StoredAt, ExtractFiles;
    forall p | p in ExtractFiles(map[], files, s.store.disk.wals) ensures p.txId <= |s.txs| + 1 {
      var f, e :| f in files && e in s.store.disk.wals[f] && e.Object? && e.path == p;
      assert IdsBelow(s.store.disk.wals[f], |s.txs| + 2);
    }
  }

  /** An object that is not stored yet is in a file that start-up extracts. */
  lemma {:induction false} FileWithEntry(s: Sys, k: nat, e: Entry) returns (f: nat)
    requires DiskInv(s) && ObjDiskInv(s.txs, s.cuts, s.store.disk)
    requires k < |s.txs| && e in s.txs[k].objects && e.Object? && e.path !in s.store.disk.objects
    ensures Covered(s.store.disk.latest) <= |s.txs| && f in s.store.disk.wals && e in s.store.disk.wals[f]
    ensures f in FilesToApply(s.store.disk.wals, Md(s.txs[..Covered(s.store.disk.latest)]), s.store.disk.latest)
  {
    assert s.cuts != [] && Covered(s.store.disk.latest) <= |s.txs|;
    hide Md, DiskInv, ObjDiskInv, Increasing, FilesToApply;
    var i := UncoveredCut(s, k);
    StoredEntryUncovered(s, k, e);
    StoredEntry(s, k, e, i);
    FilesInOrder(s, FilesToApply(s.store.disk.wals, Md(s.txs[..Covered(s.store.disk.latest)]), s.store.disk.latest));
    f := s.cuts[i];
    assert f in s.store.disk.wals.Keys;
  }

  lemma {:induction false} LastCutBound(s: Sys)
    requires DiskInv(s)
    ensures Last(s.cuts) <= |s.txs| + 1
  {
  }

  lemma {:induction false} StoredEntryUncovered(s: Sys, k: nat, e: Entry)
    requires s.cuts != [] && ObjDiskInv(s.txs, s.cuts, s.store.disk)
    requires k < |s.txs| && e in s.txs[k].objects && e.Object? && e.path !in s.store.disk.objects
    ensures Covered(s.store.disk.latest) <= k
  {
    hide Agrees, OwnIds, PrefixClosed, WalsRight, StoredAt;
  }

  lemma {:induction false} BootKeepsObjects(s: Sys)
    requires ObjInv(s)
    ensures ObjInv(s.(store := Boot(s.store)))
  {
    hide Md, DiskInv, ThreadInv, ObjDiskInv, BootedWals, Agrees, Readable, Replay;
    StartKeepsInv(s);
    if s.store.mem.Down? {
      ReplayIsHistory(s);
      BootDisk(s);
      BootKeepsDisk(s, Down);
      var disk2 := s.store.disk.(wals := BootedWals(s.store.disk));
      var s2 := Sys(Store(disk2, Down), s.txs, s.cuts);
      DiskSnapshot(s);
      BootReadable(s2);
      BootActive(s);
    }
  }

  lemma {:induction false} DiskSnapshot(s: Sys)
    requires DiskInv(s)
    ensures SnapshotMd(s.store.disk.snapshots, s.store.disk.latest) == Some(Md(s.txs[..Covered(s.store.disk.latest)]))
  {
    hide Md;
    SnapshotIsMd(s);
  }

  // ---------- runs ----------

  ghost predicate CleanRun(walsPerSnapshot: nat, actions: seq<Action>) {
    actions != [] ==>
      CleanRun(walsPerSnapshot, actions[..|actions| - 1])
      && Clean(Run(walsPerSnapshot, actions[..|actions| - 1]), actions[|actions| - 1])
  }

  lemma {:induction false} StepKeepsObjects(s: Sys, walsPerSnapshot: nat, a: Action)
    requires ObjInv(s) && Clean(s, a)
    ensures ObjInv(Step(s, walsPerSnapshot, a))
  {
    hide ObjInv, SameBytes, CanCommit, SnapshotStep, DropMem, Crash, Boot, WriteTx, Md;
    match a {
      case Commit(diff, objs, full) =>
        if CanCommit(s, diff, objs) { CommitKeepsObjects(s, walsPerSnapshot, diff, objs, full); }
      case Snapshotter => SnapshotKeepsObjects(s);
      case DropMemPath(p) => DropKeepsObjects(s, p);
      case CrashAt(keep) => CrashKeepsObjects(s, keep);
      case Start => BootKeepsObjects(s);
    }
  }

  lemma {:induction false} RunKeepsObjects(walsPerSnapshot: nat, actions: seq<Action>)
    requires CleanRun(walsPerSnapshot, actions)
    ensures ObjInv(Run(walsPerSnapshot, actions))
  {
    if actions == [] {
      InitInv();
      EmptyRight([]);
      forall i: nat ensures StoredAt([], [1], map[], i) {}
    } else {
      RunKeepsObjects(walsPerSnapshot, actions[..|actions| - 1]);
      StepKeepsObjects(Run(walsPerSnapshot, actions[..|actions| - 1]), walsPerSnapshot, actions[|actions| - 1]);
    }
  }

  /** Main result: at every moment of every clean run, each object of each transaction whose log
      entry is on disk reads back with the bytes that transaction wrote, right away while the store
      is up and after the restart while it is down. */
  lemma {:induction false} ObjectsStayReadable(walsPerSnapshot: nat, actions: seq<Action>, k: nat, e: Entry)
    requires CleanRun(walsPerSnapshot, actions)
    requires k < |Run(walsPerSnapshot, actions).txs| && e in Run(walsPerSnapshot, actions).txs[k].objects
    ensures e.Object? && GetObject(Boot(Run(walsPerSnapshot, actions).store), e.path) == Some(e.bytes)
  {
    hide Inv, Boot, WalsRight, StoredAt, Stored, PrefixClosed, Complete, UnpackInv;
    var s := Run(walsPerSnapshot, actions);
    RunKeepsObjects(walsPerSnapshot, actions);
    StartKeepsInv(s);
    BootKeepsObjects(s);
    ReadOne(s.(store := Boot(s.store)), k, e);
  }

  lemma {:induction false} ReadOne(s: Sys, k: nat, e: Entry)
    requires ObjInv(s) && s.store.mem.Up? && k < |s.txs| && e in s.txs[k].objects
    ensures e.Object? && GetObject(s.store, e.path) == Some(e.bytes)
  {
    hide Inv, WalsRight, StoredAt, Stored, PrefixClosed, Complete, UnpackInv;
    OwnIdsOf(s);
  }
}
