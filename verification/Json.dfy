/** JSON merge patch (RFC 7386) and the diff that the transaction log stores.
    Lisp's NIL is both FALSE and the answer for a missing key, so Lookup
    answers False when the key is absent. */
module Json {

  datatype Json =
    | Null
    | False
    | True
    | Num(n: int)
    | Str(s: string)
    | Arr(items: seq<Json>)
    | Obj(fields: map<string, Json>)

  const EmptyObj := Obj(map[])

  function Lookup(j: Json, k: string): Json {
    if j.Obj? && k in j.fields then j.fields[k] else False
  }

  function Fields(j: Json): map<string, Json> {
    if j.Obj? then j.fields else map[]
  }

  function MergePatch(target: Json, patch: Json): Json
    decreases patch
  {
    if !patch.Obj? then patch else
    var base := Fields(target);
    Obj(map k | k in base.Keys + patch.fields.Keys && !(k in patch.fields && patch.fields[k] == Null)
          :: if k in patch.fields then MergePatch(Lookup(target, k), patch.fields[k]) else base[k])
  }

  function Diff(a: Json, b: Json): Json
    decreases b
  {
    if !(a.Obj? && b.Obj?) then b else
    Obj((map k | k in a.fields.Keys - b.fields.Keys :: Null)
        + map k | k in b.fields && Lookup(a, k) != b.fields[k] :: Diff(Lookup(a, k), b.fields[k]))
  }

  /** A diff of objects mentions exactly the keys whose value changes or that are gone. */
  lemma DiffMentionsChanges(a: Json, b: Json, k: string)
    requires a.Obj? && b.Obj?
    ensures Diff(a, b).Obj?
    ensures k in Diff(a, b).fields
            <==> (k in a.fields && k !in b.fields) || (k in b.fields && Lookup(a, k) != b.fields[k])
    ensures k in Diff(a, b).fields ==>
              Diff(a, b).fields[k] == if k in b.fields then Diff(Lookup(a, k), b.fields[k]) else Null
  {
  }

  /** So nothing is logged when nothing changes. */
  lemma DiffOfSame(a: Json)
    requires a.Obj?
    ensures Diff(a, a) == EmptyObj
  {
    assert Diff(a, a).fields == map[];
  }

  /** When a diff survives patching: every key of b either already has its value in a (and is
      really there, so that it is not FALSE standing in for "missing"), or gets a new value that
      is not NULL and that itself survives. */
  predicate RoundTrips(a: Json, b: Json)
    decreases b
  {
    b.Obj? ==>
      forall k | k in b.fields ::
        if a.Obj? && Lookup(a, k) == b.fields[k] then k in a.fields
        else b.fields[k] != Null && RoundTrips(Lookup(a, k), b.fields[k])
  }

  lemma {:induction false} PatchOfDiff(a: Json, b: Json)
    ensures MergePatch(a, Diff(a, b)) == b <==> RoundTrips(a, b)
    decreases b
  {
    if b.Obj? {
      var d := Diff(a, b);
      var r := MergePatch(a, d);
      forall k | k in b.fields
        ensures k in r.fields && r.fields[k] == b.fields[k] <==>
                if a.Obj? && Lookup(a, k) == b.fields[k] then k in a.fields
                else b.fields[k] != Null && RoundTrips(Lookup(a, k), b.fields[k])
      {
        PatchOfDiff(Lookup(a, k), b.fields[k]);
        if !a.Obj? {
          assert Diff(Lookup(a, k), b.fields[k]) == b.fields[k];
        }
      }
      assert r.fields.Keys <= b.fields.Keys;
      if RoundTrips(a, b) {
        assert r.fields == b.fields;
      }
    }
  }

  /** The simple sufficient condition: no NULL under a key of b, no FALSE at a key that a lacks. */
  predicate PlainTarget(a: Json, b: Json)
    decreases b
  {
    b.Obj? ==>
      forall k | k in b.fields ::
        && b.fields[k] != Null
        && (a.Obj? && b.fields[k] == False ==> k in a.fields)
        && PlainTarget(Lookup(a, k), b.fields[k])
  }

  lemma {:induction false} PlainTargetRoundTrips(a: Json, b: Json)
    requires PlainTarget(a, b)
    ensures MergePatch(a, Diff(a, b)) == b
  {
    PlainImplies(a, b);
    PatchOfDiff(a, b);
  }

  lemma {:induction false} PlainImplies(a: Json, b: Json)
    requires PlainTarget(a, b)
    ensures RoundTrips(a, b)
    decreases b
  {
    if b.Obj? {
      forall k | k in b.fields
        ensures RoundTrips(Lookup(a, k), b.fields[k])
      {
        PlainImplies(Lookup(a, k), b.fields[k]);
      }
    }
  }

  lemma {:induction false} PatchIdempotent(target: Json, patch: Json)
    ensures MergePatch(MergePatch(target, patch), patch) == MergePatch(target, patch)
    decreases patch
  {
    if patch.Obj? {
      var once := MergePatch(target, patch);
      var twice := MergePatch(once, patch);
      forall k | k in once.fields
        ensures k in twice.fields && twice.fields[k] == once.fields[k]
      {
        if k in patch.fields {
          PatchIdempotent(Lookup(target, k), patch.fields[k]);
        }
      }
      assert twice.fields.Keys == once.fields.Keys;
      assert twice.fields == once.fields;
    }
  }

  /** A new NULL and a FALSE at a missing key are both lost. */
  lemma DiffLosesNullAndMissingFalse()
    ensures MergePatch(EmptyObj, Diff(EmptyObj, Obj(map["a" := Null]))) != Obj(map["a" := Null])
    ensures MergePatch(EmptyObj, Diff(EmptyObj, Obj(map["a" := False]))) != Obj(map["a" := False])
  {
    PatchOfDiff(EmptyObj, Obj(map["a" := Null]));
    PatchOfDiff(EmptyObj, Obj(map["a" := False]));
    assert "a" in map["a" := Null];
    assert "a" in map["a" := False];
  }
}
