/** What commit-write-tx writes and installs: the diff between the current metadata and the
    transaction's, completed with the log version and the checksums of the written batches. */
module Commits {
  import opened Json
  import opened TxLog

  /** A buffer of the transaction's buffer pool, stored under "table/file". */
  datatype Batch = Batch(table: string, file: string, sha1: string, byteSize: nat)

  function With(j: Json, k: string, v: Json): Json {
    Obj(Fields(j)[k := v])
  }

  function LastTx(md: Json): int {
    var last := Lookup(md, "_last_tx");
    if last.Num? then last.n else 0
  }

  function Numbered(tx: Json): Json {
    With(tx, "_last_tx", Num(LastTx(tx) + 1))
  }

  function Stamp(b: Batch): map<string, Json> {
    map["sha1" := Str(b.sha1), "byte_size" := Num(b.byteSize)]
  }

  /** One turn of the maphash over the buffer pool. */
  function AddBatch(diff: Json, b: Batch): Json {
    var tableMd := Lookup(diff, b.table);
    With(diff, b.table, With(tableMd, b.file, Obj(Fields(Lookup(tableMd, b.file)) + Stamp(b))))
  }

  function AddBatches(diff: Json, bs: seq<Batch>): Json {
    if bs == [] then diff else AddBatch(AddBatches(diff, bs[..|bs| - 1]), bs[|bs| - 1])
  }

  function BaseDiff(current: Json, tx: Json): Json {
    With(Diff(current, Numbered(tx)), "_tx_log_version", Num(TX_LOG_VERSION))
  }

  function TxDiff(current: Json, tx: Json, bs: seq<Batch>): Json {
    AddBatches(BaseDiff(current, tx), bs)
  }

  function NewMd(current: Json, tx: Json, bs: seq<Batch>): Json {
    MergePatch(current, TxDiff(current, tx, bs))
  }

  // ---------- what it means ----------

  /** The checksums of one batch, as a patch of their own. */
  function BatchPatch(b: Batch): Json {
    Obj(map[b.table := Obj(map[b.file := Obj(Stamp(b))])])
  }

  function Stamped(md: Json, bs: seq<Batch>): Json {
    if bs == [] then md else MergePatch(Stamped(md, bs[..|bs| - 1]), BatchPatch(bs[|bs| - 1]))
  }

  /** A patch followed by a batch's patch can be written as one patch when nothing but objects is on the
      way to the batch. */
  predicate OpenTo(diff: Json, b: Batch) {
    && diff.Obj?
    && (b.table in diff.fields ==>
          && diff.fields[b.table].Obj?
          && (b.file in diff.fields[b.table].fields ==> diff.fields[b.table].fields[b.file].Obj?))
  }

  /** The transaction's metadata describes the batch. */
  predicate Describes(md: Json, b: Batch) {
    && b.table !in {"_last_tx", "_tx_log_version"}
    && Lookup(md, b.table).Obj? && Lookup(Lookup(md, b.table), b.file).Obj?
  }

  lemma {:induction false} DiffOpen(current: Json, tx: Json, b: Batch)
    requires current.Obj? && tx.Obj? && Describes(tx, b)
    ensures OpenTo(Diff(current, tx), b)
  {
    var d := Diff(current, tx);
    if b.table in d.fields {
      var table := Lookup(current, b.table);
      assert d.fields[b.table] == Diff(table, tx.fields[b.table]);
      var sub := d.fields[b.table].fields;
      if b.file in sub && table.Obj? {
        assert sub[b.file] == Diff(Lookup(table, b.file), tx.fields[b.table].fields[b.file]);
      }
    }
  }

  lemma AddBatchOpen(diff: Json, b: Batch, b': Batch)
    requires OpenTo(diff, b) && OpenTo(diff, b')
    ensures OpenTo(AddBatch(diff, b), b')
  {
  }

  /** Merging at one key. */
  lemma MergeAt(target: Json, patch: Json, k: string)
    requires patch.Obj? && k in patch.fields && patch.fields[k] != Null
    ensures Lookup(MergePatch(target, patch), k) == MergePatch(Lookup(target, k), patch.fields[k])
    ensures k in MergePatch(target, patch).fields
  {
  }

  /** Two patches that differ at one key give results that differ at most there. */
  lemma MergeElsewhere(target: Json, patch: Json, k: string, v: Json, v': Json)
    requires patch.Obj? && v != Null && MergePatch(Lookup(target, k), v) == v'
    ensures MergePatch(target, With(patch, k, v)) == With(MergePatch(target, patch), k, v')
  {
    var one, two := MergePatch(target, With(patch, k, v)), With(MergePatch(target, patch), k, v');
    assert one.fields.Keys == two.fields.Keys;
    forall x | x in one.fields ensures one.fields[x] == two.fields[x] {
    }
    assert one.fields == two.fields;
  }

  /** A patch with one key. */
  lemma SingleKey(target: Json, k: string, v: Json)
    requires v != Null && target.Obj?
    ensures MergePatch(target, Obj(map[k := v])) == With(target, k, MergePatch(Lookup(target, k), v))
  {
    var empty: map<string, Json> := map[];
    assert empty[k := v] == map[k := v];
    MergeElsewhere(target, Obj(empty), k, v, MergePatch(Lookup(target, k), v));
    assert MergePatch(target, Obj(empty)).fields == target.fields;
  }

  /** A patch that only sets plain values. */
  lemma FlatPatch(target: Json, patch: map<string, Json>)
    requires forall k | k in patch :: patch[k] != Null && !patch[k].Obj?
    ensures MergePatch(target, Obj(patch)) == Obj(Fields(target) + patch)
  {
    assert MergePatch(target, Obj(patch)).fields == Fields(target) + patch;
  }

  lemma BatchLevel(target: Json, diff: Json, b: Batch)
    requires diff.Obj?
    ensures MergePatch(target, Obj(diff.fields + Stamp(b))) == MergePatch(MergePatch(target, diff), Obj(Stamp(b)))
  {
    FlatPatch(MergePatch(target, diff), Stamp(b));
    var one, two := MergePatch(target, Obj(diff.fields + Stamp(b))), Obj(MergePatch(target, diff).fields + Stamp(b));
    assert one.fields.Keys == two.fields.Keys;
    forall k | k in one.fields ensures one.fields[k] == two.fields[k] {
      if k in Stamp(b) { PlainPatch(Lookup(target, k), Stamp(b)[k]); }
    }
    assert one.fields == two.fields;
  }

  /** An entry of a diff, with nothing for a missing one. */
  function Sub(diff: Json, k: string): Json {
    if diff.Obj? && k in diff.fields then diff.fields[k] else EmptyObj
  }

  /** At one level: adding v below k in the diff is patching k afterwards. */
  lemma OneLevel(target: Json, diff: Json, k: string, inner: Json, v: Json)
    requires diff.Obj? && Sub(diff, k).Obj? && inner.Obj? && v.Obj?
    requires MergePatch(Lookup(target, k), v) == MergePatch(MergePatch(Lookup(target, k), Sub(diff, k)), inner)
    ensures MergePatch(target, With(diff, k, v)) == MergePatch(MergePatch(target, diff), Obj(map[k := inner]))
  {
    var md := MergePatch(target, diff);
    SingleKey(md, k, inner);
    if k in diff.fields {
      MergeAt(target, diff, k);
    } else {
      SubMissing(Lookup(target, k), inner);
      assert Lookup(md, k) == Lookup(target, k);
    }
    MergeElsewhere(target, diff, k, v, MergePatch(Lookup(md, k), inner));
  }

  lemma SubMissing(target: Json, inner: Json)
    requires inner.Obj?
    ensures MergePatch(MergePatch(target, EmptyObj), inner) == MergePatch(target, inner)
  {
    assert Fields(MergePatch(target, EmptyObj)) == Fields(target);
    var one, two := MergePatch(MergePatch(target, EmptyObj), inner), MergePatch(target, inner);
    assert one.fields == two.fields;
  }

  /** Writing the checksums into the diff is patching them in after the diff. */
  lemma AddBatchPatches(current: Json, diff: Json, b: Batch)
    requires OpenTo(diff, b)
    ensures MergePatch(current, AddBatch(diff, b)) == MergePatch(MergePatch(current, diff), BatchPatch(b))
  {
    hide MergePatch;
    var tableDiff := Sub(diff, b.table);
    var fileDiff := Sub(tableDiff, b.file);
    var table := Lookup(current, b.table);
    BatchLevel(Lookup(table, b.file), fileDiff, b);
    var file := Obj(fileDiff.fields + Stamp(b));
    assert Fields(Lookup(Lookup(diff, b.table), b.file)) == fileDiff.fields;
    OneLevel(table, tableDiff, b.file, Obj(Stamp(b)), file);
    OneLevel(current, diff, b.table, Obj(map[b.file := Obj(Stamp(b))]), With(tableDiff, b.file, file));
    assert With(Lookup(diff, b.table), b.file, file) == With(tableDiff, b.file, file);
  }

  lemma {:induction false} AddBatchesPatches(current: Json, diff: Json, bs: seq<Batch>)
    requires forall b | b in bs :: OpenTo(diff, b)
    ensures forall b | OpenTo(diff, b) :: OpenTo(AddBatches(diff, bs), b)
    ensures MergePatch(current, AddBatches(diff, bs)) == Stamped(MergePatch(current, diff), bs)
  {
    hide MergePatch, OpenTo, AddBatch;
    if bs != [] {
      var init, b := bs[..|bs| - 1], bs[|bs| - 1];
      AddBatchesPatches(current, diff, init);
      forall b' | OpenTo(diff, b') ensures OpenTo(AddBatches(diff, bs), b') {
        AddBatchOpen(AddBatches(diff, init), b, b');
      }
      AddBatchPatches(current, AddBatches(diff, init), b);
    }
  }

  /** Main result: when the diff can express the change at all (Json.PatchOfDiff), what is installed is
      the transaction's own metadata with its number, the log version and the checksums. */
  lemma NewMdIsStamped(current: Json, tx: Json, bs: seq<Batch>)
    requires current.Obj? && tx.Obj? && RoundTrips(current, Numbered(tx))
    requires forall b | b in bs :: Describes(tx, b)
    ensures NewMd(current, tx, bs) == Stamped(With(Numbered(tx), "_tx_log_version", Num(TX_LOG_VERSION)), bs)
  {
    hide MergePatch, RoundTrips, Diff, OpenTo, Describes;
    var d := Diff(current, Numbered(tx));
    assert d.Obj? by { DiffIsObject(current, Numbered(tx)); }
    PatchOfDiff(current, Numbered(tx));
    SetPlain(current, d, "_tx_log_version", Num(TX_LOG_VERSION));
    forall b | b in bs ensures OpenTo(BaseDiff(current, tx), b) {
      BaseDiffOpen(current, tx, b);
    }
    AddBatchesPatches(current, BaseDiff(current, tx), bs);
  }

  lemma DiffIsObject(a: Json, b: Json)
    requires b.Obj?
    ensures Diff(a, b).Obj?
  {
  }

  lemma SetPlain(current: Json, diff: Json, k: string, v: Json)
    requires diff.Obj? && v != Null && !v.Obj?
    ensures MergePatch(current, With(diff, k, v)) == With(MergePatch(current, diff), k, v)
  {
    MergeElsewhere(current, diff, k, v, v);
  }

  lemma BaseDiffOpen(current: Json, tx: Json, b: Batch)
    requires current.Obj? && tx.Obj? && Describes(tx, b)
    ensures OpenTo(BaseDiff(current, tx), b)
  {
    assert Describes(Numbered(tx), b);
    DiffOpen(current, Numbered(tx), b);
  }

  /** Whatever the diff can express, the number advances by one and the log entry carries the version,
      so replay accepts it. */
  lemma {:induction false} Advances(current: Json, tx: Json, bs: seq<Batch>)
    requires LastTx(current) == LastTx(tx)
    requires forall b | b in bs :: b.table !in {"_last_tx", "_tx_log_version"}
    ensures LastTx(NewMd(current, tx, bs)) == LastTx(current) + 1
    ensures Versioned(TxDiff(current, tx, bs))
  {
    hide MergePatch, Diff;
    var n := Num(LastTx(tx) + 1);
    assert DiffAt(current, Numbered(tx), "_last_tx", n) by { DiffSets(current, Numbered(tx), "_last_tx"); }
    AddBatchesElsewhere(BaseDiff(current, tx), bs, "_last_tx");
    AddBatchesElsewhere(BaseDiff(current, tx), bs, "_tx_log_version");
    MergeAt(current, TxDiff(current, tx, bs), "_last_tx");
    assert MergePatch(Lookup(current, "_last_tx"), n) == n by { PlainPatch(Lookup(current, "_last_tx"), n); }
  }

  predicate DiffAt(a: Json, b: Json, k: string, v: Json) {
    var d := Diff(a, b);
    d.Obj? && k in d.fields && d.fields[k] == v
  }

  lemma DiffSets(a: Json, b: Json, k: string)
    requires b.Obj? && k in b.fields && Lookup(a, k) != b.fields[k] && !b.fields[k].Obj?
    ensures DiffAt(a, b, k, b.fields[k])
  {
  }

  lemma PlainPatch(target: Json, patch: Json)
    requires !patch.Obj?
    ensures MergePatch(target, patch) == patch
  {
  }

  lemma {:induction false} AddBatchesElsewhere(diff: Json, bs: seq<Batch>, k: string)
    requires diff.Obj? && forall b | b in bs :: b.table != k
    ensures AddBatches(diff, bs).Obj?
    ensures k in AddBatches(diff, bs).fields <==> k in diff.fields
    ensures Lookup(AddBatches(diff, bs), k) == Lookup(diff, k)
  {
    if bs != [] { AddBatchesElsewhere(diff, bs[..|bs| - 1], k); }
  }

  predicate SameFile(b: Batch, c: Batch) {
    b.table == c.table && b.file == c.file
  }

  /** The keys of the buffer pool: one batch per table and file. */
  predicate DistinctFiles(bs: seq<Batch>) {
    forall i, j | 0 <= i < j < |bs| :: !SameFile(bs[i], bs[j])
  }

  function EntryOf(md: Json, table: string, file: string): Json {
    Lookup(Lookup(md, table), file)
  }

  /** The checksum and size of the batch are in its entry. */
  predicate Reads(md: Json, b: Batch) {
    var file := EntryOf(md, b.table, b.file);
    file.Obj? && "sha1" in file.fields && file.fields["sha1"] == Str(b.sha1)
    && "byte_size" in file.fields && file.fields["byte_size"] == Num(b.byteSize)
  }

  /** Every other key of an entry is as before. */
  ghost predicate SameOtherwise(md: Json, md': Json, table: string, file: string) {
    forall k | k !in {"sha1", "byte_size"} ::
      Lookup(EntryOf(md', table, file), k) == Lookup(EntryOf(md, table, file), k)
      && (k in Fields(EntryOf(md', table, file)) <==> k in Fields(EntryOf(md, table, file)))
  }

  /** The order in which the buffer pool is walked does not matter: a batch's checksum and size are read
      back from the result whatever was stamped before and after it, and nothing else of its entry has
      changed. */
  lemma {:induction false} ChecksumInstalled(md: Json, bs: seq<Batch>, i: nat)
    requires i < |bs| && md.Obj? && DistinctFiles(bs)
    ensures Reads(Stamped(md, bs), bs[i])
    ensures SameOtherwise(md, Stamped(md, bs), bs[i].table, bs[i].file)
    decreases |bs|
  {
    hide MergePatch;
    var init, b := bs[..|bs| - 1], bs[|bs| - 1];
    StampedIsObject(md, init);
    PatchReads(Stamped(md, init), b, bs[i]);
    if i < |bs| - 1 {
      assert !SameFile(bs[i], b);
      ChecksumInstalled(md, init, i);
    } else {
      forall c | c in init ensures !SameFile(c, b) {
        var j :| 0 <= j < |init| && init[j] == c;
      }
      EntryUntouched(md, init, b);
    }
  }

  /** An entry that no batch stands for is left alone. */
  lemma {:induction false} EntryUntouched(md: Json, bs: seq<Batch>, c: Batch)
    requires md.Obj? && forall b | b in bs :: !SameFile(b, c)
    ensures EntryOf(Stamped(md, bs), c.table, c.file) == EntryOf(md, c.table, c.file)
  {
    hide MergePatch;
    if bs != [] {
      var init, b := bs[..|bs| - 1], bs[|bs| - 1];
      assert b in bs && !SameFile(b, c);
      StampedIsObject(md, init);
      EntryUntouched(md, init, c);
      PatchReads(Stamped(md, init), b, c);
    }
  }

  predicate AllDescribed(md: Json, bs: seq<Batch>) {
    forall b | b in bs :: Describes(md, b)
  }

  /** The same for what commit-write-tx installs, even where the diff cannot express the whole change. */
  lemma NewMdReads(current: Json, tx: Json, bs: seq<Batch>)
    requires current.Obj? && tx.Obj? && AllDescribed(tx, bs) && DistinctFiles(bs)
    ensures forall b | b in bs :: Reads(NewMd(current, tx, bs), b)
  {
    hide MergePatch, Diff, OpenTo, Describes, Reads, DistinctFiles;
    var md := MergePatch(current, BaseDiff(current, tx));
    assert md.Obj? by { MergedIsObject(current, BaseDiff(current, tx)); }
    forall b | b in bs ensures OpenTo(BaseDiff(current, tx), b) { BaseDiffOpen(current, tx, b); }
    AddBatchesPatches(current, BaseDiff(current, tx), bs);
    forall b | b in bs ensures Reads(NewMd(current, tx, bs), b) {
      var i :| 0 <= i < |bs| && bs[i] == b;
      ChecksumInstalled(md, bs, i);
    }
  }

  lemma MergedIsObject(target: Json, patch: Json)
    requires patch.Obj?
    ensures MergePatch(target, patch).Obj?
  {
  }

  /** When the diff does express it, everything else in the tables is as the transaction has it: the other
      keys of a written file, and every file that was not written. */
  lemma NewMdKeepsRest(current: Json, tx: Json, bs: seq<Batch>, c: Batch)
    requires current.Obj? && tx.Obj? && RoundTrips(current, Numbered(tx))
    requires AllDescribed(tx, bs) && DistinctFiles(bs) && c.table !in {"_last_tx", "_tx_log_version"}
    ensures SameOtherwise(tx, NewMd(current, tx, bs), c.table, c.file)
    ensures (forall b | b in bs :: !SameFile(b, c)) ==>
              EntryOf(NewMd(current, tx, bs), c.table, c.file) == EntryOf(tx, c.table, c.file)
  {
    hide MergePatch, RoundTrips, Describes, DistinctFiles, Stamped, NewMd;
    NewMdIsStamped(current, tx, bs);
    var md := With(Numbered(tx), "_tx_log_version", Num(TX_LOG_VERSION));
    if b :| b in bs && SameFile(b, c) {
      var i :| 0 <= i < |bs| && bs[i] == b;
      ChecksumInstalled(md, bs, i);
    } else {
      EntryUntouched(md, bs, c);
    }
  }

  lemma {:induction false} StampedIsObject(md: Json, bs: seq<Batch>)
    requires md.Obj?
    ensures Stamped(md, bs).Obj?
  {
    if bs != [] { StampedIsObject(md, bs[..|bs| - 1]); }
  }

  /** One batch's patch inside a table, which may be missing. */
  lemma PatchedTable(table: Json, b: Batch)
    ensures MergePatch(table, Obj(map[b.file := Obj(Stamp(b))]))
            == With(table, b.file, Obj(Fields(Lookup(table, b.file)) + Stamp(b)))
  {
    hide MergePatch;
    FlatPatch(Lookup(table, b.file), Stamp(b));
    if table.Obj? {
      SingleKey(table, b.file, Obj(Stamp(b)));
    } else {
      SubMissing(table, Obj(map[b.file := Obj(Stamp(b))]));
      NothingPatched(table);
      SingleKey(EmptyObj, b.file, Obj(Stamp(b)));
    }
  }

  lemma NothingPatched(target: Json)
    requires !target.Obj?
    ensures MergePatch(target, EmptyObj) == EmptyObj
  {
    assert MergePatch(target, EmptyObj).fields == map[];
  }

  lemma PatchReads(md: Json, b: Batch, c: Batch)
    requires md.Obj?
    ensures var before := Lookup(Lookup(md, c.table), c.file);
            var after := Lookup(Lookup(MergePatch(md, BatchPatch(b)), c.table), c.file);
            if b.table == c.table && b.file == c.file then after == Obj(Fields(before) + Stamp(b)) else after == before
  {
    hide MergePatch, Stamp;
    PatchedTable(Lookup(md, b.table), b);
    SingleKey(md, b.table, Obj(map[b.file := Obj(Stamp(b))]));
  }
}
