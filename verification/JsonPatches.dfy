/** Sequences of merge patches, as a log holds them: applying a whole sequence again changes nothing,
    although later patches may overwrite, delete and rebuild what earlier ones wrote. */
module JsonPatches {
  import opened Json
  import opened Wrappers

  function PatchAll(target: Json, patches: seq<Json>): Json {
    if patches == [] then target
    else MergePatch(PatchAll(target, patches[..|patches| - 1]), patches[|patches| - 1])
  }

  // ---------- one key ----------

  function FieldOf(j: Json, k: string): Option<Json> {
    if j.Obj? && k in j.fields then Some(j.fields[k]) else None
  }

  function ValueOf(o: Option<Json>): Json {
    if o.Some? then o.value else False
  }

  /** What becomes of the value under k. */
  function KeyFold(o: Option<Json>, patches: seq<Json>, k: string): Option<Json> {
    if patches == [] then o else
    var before := KeyFold(o, patches[..|patches| - 1], k);
    match FieldOf(patches[|patches| - 1], k)
    case None => before
    case Some(v) => if v == Null then None else Some(MergePatch(ValueOf(before), v))
  }

  predicate AllMaps(patches: seq<Json>) {
    forall p | p in patches :: p.Obj?
  }

  lemma {:induction false} PatchAllAt(target: Json, patches: seq<Json>, k: string)
    requires AllMaps(patches) && patches != []
    ensures PatchAll(target, patches).Obj?
    ensures FieldOf(PatchAll(target, patches), k) == KeyFold(FieldOf(target, k), patches, k)
  {
    var init := patches[..|patches| - 1];
    assert patches[|patches| - 1] in patches;
    if init != [] { PatchAllAt(target, init, k); }
    FieldAfter(PatchAll(target, init), patches[|patches| - 1], k);
  }

  lemma FieldAfter(target: Json, patch: Json, k: string)
    requires patch.Obj?
    ensures FieldOf(MergePatch(target, patch), k)
            == match FieldOf(patch, k)
               case None => FieldOf(target, k)
               case Some(v) => if v == Null then None else Some(MergePatch(ValueOf(FieldOf(target, k)), v))
  {
  }

  predicate Deletes(p: Json, k: string) {
    FieldOf(p, k) == Some(Null)
  }

  /** After a deletion the old value no longer matters. */
  lemma {:induction false} DeletedForgets(o: Option<Json>, o': Option<Json>, patches: seq<Json>, k: string)
    requires exists p | p in patches :: Deletes(p, k)
    ensures KeyFold(o, patches, k) == KeyFold(o', patches, k)
  {
    var init, last := patches[..|patches| - 1], patches[|patches| - 1];
    if !Deletes(last, k) {
      var p :| p in patches && Deletes(p, k);
      assert p in init;
      DeletedForgets(o, o', init, k);
    }
  }

  /** The values that the patches have under k. */
  function Under(patches: seq<Json>, k: string): seq<Json> {
    if patches == [] then [] else
    var rest := Under(patches[..|patches| - 1], k);
    match FieldOf(patches[|patches| - 1], k)
    case None => rest
    case Some(v) => rest + [v]
  }

  lemma {:induction false} NestedPatches(o: Option<Json>, patches: seq<Json>, k: string)
    requires forall p | p in patches :: !Deletes(p, k)
    ensures KeyFold(o, patches, k)
            == if Under(patches, k) == [] then o else Some(PatchAll(ValueOf(o), Under(patches, k)))
  {
    if patches != [] {
      var init, last := patches[..|patches| - 1], patches[|patches| - 1];
      assert last in patches && forall p | p in init :: p in patches;
      NestedPatches(o, init, k);
      var rest := Under(init, k);
      if FieldOf(last, k).Some? {
        assert (rest + [FieldOf(last, k).value])[..|rest|] == rest;
      }
    }
  }

  // ---------- nesting depth ----------

  ghost function Depth(j: Json): nat
    decreases j, 0, 0
  {
    if j.Obj? then 1 + DeepestField(j, j.fields.Keys) else 0
  }

  ghost function DeepestField(j: Json, keys: set<string>): (d: nat)
    requires j.Obj? && keys <= j.fields.Keys
    ensures forall k | k in keys :: Depth(j.fields[k]) <= d
    decreases j, -1, |keys|
  {
    if keys == {} then 0 else
    var k :| k in keys;
    Max(Depth(j.fields[k]), DeepestField(j, keys - {k}))
  }

  function Max(a: nat, b: nat): nat { if a > b then a else b }

  lemma FieldDepth(j: Json, k: string)
    requires j.Obj? && k in j.fields
    ensures Depth(j.fields[k]) < Depth(j)
  {
    assert Depth(j) == 1 + DeepestField(j, j.fields.Keys);
  }

  ghost function Deepest(patches: seq<Json>): nat {
    if patches == [] then 0 else Max(Deepest(patches[..|patches| - 1]), Depth(patches[|patches| - 1]))
  }

  lemma {:induction false} UnderShallower(patches: seq<Json>, k: string)
    ensures Under(patches, k) != [] ==> Deepest(Under(patches, k)) < Deepest(patches)
  {
    if patches != [] {
      var init, last := patches[..|patches| - 1], patches[|patches| - 1];
      UnderShallower(init, k);
      var rest := Under(init, k);
      if FieldOf(last, k).Some? {
        FieldDepth(last, k);
        assert (rest + [last.fields[k]])[..|rest|] == rest;
      }
    }
  }

  // ---------- the whole sequence again ----------

  /** A patch that is no object replaces everything. */
  lemma {:induction false} ReplacedForgets(target: Json, target': Json, patches: seq<Json>)
    requires exists p | p in patches :: !p.Obj?
    ensures PatchAll(target, patches) == PatchAll(target', patches)
  {
    var init, last := patches[..|patches| - 1], patches[|patches| - 1];
    if last.Obj? {
      var p :| p in patches && !p.Obj?;
      assert p in init;
      ReplacedForgets(target, target', init);
    }
  }

  /** Main result: applying any sequence of patches twice equals applying it once. */
  lemma {:induction false} PatchAllTwice(target: Json, patches: seq<Json>)
    ensures PatchAll(PatchAll(target, patches), patches) == PatchAll(target, patches)
    decreases Deepest(patches), 1
  {
    var once := PatchAll(target, patches);
    if patches == [] {
    } else if p :| p in patches && !p.Obj? {
      ReplacedForgets(once, target, patches);
    } else {
      var twice := PatchAll(once, patches);
      forall k ensures FieldOf(twice, k) == FieldOf(once, k) {
        PatchAllAt(target, patches, k);
        PatchAllAt(once, patches, k);
        KeyTwice(FieldOf(target, k), patches, k);
      }
      PatchAllAt(target, patches, "");
      PatchAllAt(once, patches, "");
      SameFields(once, twice);
    }
  }

  lemma SameFields(a: Json, b: Json)
    requires a.Obj? && b.Obj? && forall k :: FieldOf(a, k) == FieldOf(b, k)
    ensures a == b
  {
    forall k ensures k in a.fields <==> k in b.fields { assert FieldOf(a, k) == FieldOf(b, k); }
    forall k | k in a.fields ensures a.fields[k] == b.fields[k] { assert FieldOf(a, k) == FieldOf(b, k); }
    assert a.fields == b.fields;
  }

  lemma {:induction false} KeyTwice(o: Option<Json>, patches: seq<Json>, k: string)
    ensures KeyFold(KeyFold(o, patches, k), patches, k) == KeyFold(o, patches, k)
    decreases Deepest(patches), 0
  {
    if p :| p in patches && Deletes(p, k) {
      DeletedForgets(KeyFold(o, patches, k), o, patches, k);
    } else {
      NestedPatches(o, patches, k);
      NestedPatches(KeyFold(o, patches, k), patches, k);
      if Under(patches, k) != [] {
        UnderShallower(patches, k);
        PatchAllTwice(ValueOf(o), Under(patches, k));
      }
    }
  }
}
