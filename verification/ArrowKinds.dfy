/** Which types an array has: exactly the kinds of the values it holds, at every level. */
module ArrowKinds {
  import opened Arrow

  datatype Kind = IntKind | FloatKind | StrKind | ListKind | StructKind(keys: set<string>)

  function KindOf(x: Value): Kind
    requires !x.Null?
  {
    match x
    case Int(_) => IntKind
    case Float(_) => FloatKind
    case Str(_) => StrKind
    case List(_) => ListKind
    case Struct(fields) => StructKind(fields.Keys)
  }

  function AddKind(kinds: seq<Kind>, x: Value): seq<Kind> {
    if x.Null? || KindOf(x) in kinds then kinds else kinds + [KindOf(x)]
  }

  /** The kinds of the values, in order of first occurrence; NULL has none. */
  function KindsIn(xs: seq<Value>): seq<Kind> {
    if xs == [] then [] else AddKind(KindsIn(xs[..|xs| - 1]), xs[|xs| - 1])
  }

  function Flat(kindss: seq<seq<Kind>>): seq<Kind> {
    if kindss == [] then [] else Flat(kindss[..|kindss| - 1]) + kindss[|kindss| - 1]
  }

  /** The kinds that an array is made for: none, one, or those of a union's children. */
  function Kinds(a: Array): seq<Kind> {
    match a
    case NullArray(_) => []
    case IntArray(_, _) => [IntKind]
    case FloatArray(_, _) => [FloatKind]
    case Utf8Array(_, _, _) => [StrKind]
    case ListArray(_, _, _) => [ListKind]
    case StructArray(_, fields) => [StructKind(fields.Keys)]
    case UnionArray(_, _, children) => Flat(ChildKinds(children))
  }

  function ChildKinds(children: seq<Array>): seq<seq<Kind>> {
    seq(|children|, c requires 0 <= c < |children| => Kinds(children[c]))
  }

  /** The array is made for exactly the kinds of the values that it holds, in order of first occurrence, is
      a union only for two or more, and so are the arrays in it. */
  ghost predicate Compact(a: Array) {
    && Kinds(a) == KindsIn(Contents(a))
    && match a
       case ListArray(_, _, values) => Compact(values)
       case StructArray(_, fields) => forall k | k in fields :: Compact(fields[k])
       case UnionArray(_, _, children) =>
         |children| >= 2 && forall c | 0 <= c < |children| :: Compact(children[c])
       case _ => true
  }

  /** Made for x, and holding nothing but NULLs. */
  ghost predicate Blank(a: Array, x: Value)
    decreases x
  {
    && KindsIn(Contents(a)) == [] && Takes(a, x)
    && (a.ListArray? ==> Compact(a.values))
    && (a.StructArray? ==> forall k | k in a.fields :: Blank(a.fields[k], x.fields[k]))
  }

  ghost predicate Ready(a: Array, x: Value) {
    Compact(a) || Blank(a, x)
  }

  lemma KindsGrow(xs: seq<Value>, x: Value)
    ensures KindsIn(xs + [x]) == AddKind(KindsIn(xs), x)
  {
    assert (xs + [x])[..|xs|] == xs;
  }

  lemma {:induction false} NullsHaveNone(n: nat)
    ensures KindsIn(seq(n, _ => Null)) == []
  {
    if n > 0 {
      NullsHaveNone(n - 1);
      assert seq(n, _ => Null)[..n - 1] == seq(n - 1, _ => Null);
    }
  }

  lemma {:induction false} InFlat(kindss: seq<seq<Kind>>, k: Kind)
    ensures k in Flat(kindss) <==> exists c :: 0 <= c < |kindss| && k in kindss[c]
  {
    if kindss != [] {
      var n := |kindss| - 1;
      InFlat(kindss[..n], k);
      if k in kindss[n] {
      } else if c :| 0 <= c < |kindss| && k in kindss[c] {
        assert kindss[..n][c] == kindss[c];
      }
    }
  }

  /** The order of first occurrence, without repeats and with every value's kind. */
  lemma {:induction false} KindsOnce(xs: seq<Value>)
    ensures forall i, j | 0 <= i < j < |KindsIn(xs)| :: KindsIn(xs)[i] != KindsIn(xs)[j]
    ensures forall k :: k in KindsIn(xs) <==> exists x :: x in xs && !x.Null? && KindOf(x) == k
  {
    if xs != [] {
      var init, x := xs[..|xs| - 1], xs[|xs| - 1];
      KindsOnce(init);
      assert xs == init + [x];
      forall k ensures k in KindsIn(xs) <==> exists y :: y in xs && !y.Null? && KindOf(y) == k {
        if k in KindsIn(xs) && k !in KindsIn(init) {
          assert x in xs && !x.Null? && KindOf(x) == k;
        }
        if y :| y in xs && !y.Null? && KindOf(y) == k {
          if y in init { assert k in KindsIn(init); }
        }
      }
    }
  }

  lemma TakesItsKind(a: Array, x: Value)
    requires Typed(a)
    ensures |Kinds(a)| == 1
    ensures Takes(a, x) <==> !x.Null? && KindOf(x) == Kinds(a)[0]
  {
  }

  lemma {:induction false} MadeBlank(x: Value)
    requires ValueOk(x)
    ensures Blank(MakeArrayFor(x), x)
    decreases x
  {
    MadeEmpty(x);
    if x.Struct? {
      var a := MakeArrayFor(x);
      forall k | k in a.fields ensures Blank(a.fields[k], x.fields[k]) { MadeBlank(x.fields[k]); }
    }
  }

  // ---------- one push ----------

  ghost predicate CompactInside(a: Array) {
    match a
    case ListArray(_, _, values) => Compact(values)
    case StructArray(_, fields) => forall k | k in fields :: Compact(fields[k])
    case UnionArray(_, _, children) => |children| >= 2 && forall c | 0 <= c < |children| :: Compact(children[c])
    case _ => true
  }

  /** What a pushed NULL keeps. */
  ghost predicate NullKeeps(a: Array, r: Array) {
    && (Compact(a) ==> Compact(r))
    && forall x :: Blank(a, x) ==> Blank(r, x)
  }

  ghost predicate NullsKeep(before: map<string, Array>, fields: map<string, Array>) {
    before.Keys == fields.Keys && forall k | k in before :: NullKeeps(before[k], fields[k])
  }

  lemma BlankHasKind(a: Array, x: Value)
    requires Blank(a, x)
    ensures Kinds(a) == if x.Null? then [] else [KindOf(x)]
  {
  }

  lemma BlankNulls(a: Array)
    requires Ready(a, Null)
    ensures Compact(a)
  {
  }

  lemma CompactPushed(a: Array, r: Array, x: Value)
    requires Ready(a, x) && Contents(r) == Contents(a) + [x]
    requires Kinds(r) == AddKind(Kinds(a), x) && CompactInside(r)
    ensures Compact(r)
  {
    KindsGrow(Contents(a), x);
    if !Compact(a) { BlankHasKind(a, x); }
  }

  lemma LeafKeeps(a: Array, r: Array)
    requires Contents(r) == Contents(a) + [Null]
    requires a.NullArray? || a.IntArray? || a.FloatArray? || a.Utf8Array?
    requires r.NullArray? == a.NullArray? && r.IntArray? == a.IntArray? && r.FloatArray? == a.FloatArray?
    requires r.Utf8Array? == a.Utf8Array?
    ensures NullKeeps(a, r)
  {
    KindsGrow(Contents(a), Null);
  }

  lemma LeafPushed(a: Array, r: Array, x: Value)
    requires Contents(r) == Contents(a) + [x] && !x.Null? && Takes(a, x)
    requires a.IntArray? || a.FloatArray? || a.Utf8Array?
    requires r.IntArray? == a.IntArray? && r.FloatArray? == a.FloatArray? && r.Utf8Array? == a.Utf8Array?
    ensures Ready(a, x) ==> Compact(r)
  {
    if Ready(a, x) { CompactPushed(a, r, x); }
  }

  lemma ListKeeps(a: Array, r: Array)
    requires Contents(r) == Contents(a) + [Null] && a.ListArray? && r.ListArray? && r.values == a.values
    ensures NullKeeps(a, r)
  {
    KindsGrow(Contents(a), Null);
  }

  lemma StructKeeps(a: Array, r: Array)
    requires Contents(r) == Contents(a) + [Null] && a.StructArray? && r.StructArray? && NullsKeep(a.fields, r.fields)
    ensures NullKeeps(a, r)
  {
    KindsGrow(Contents(a), Null);
    hide Contents, KindsIn;
    forall x | Blank(a, x) ensures Blank(r, x) {
      forall k | k in r.fields ensures Blank(r.fields[k], x.fields[k]) {
        assert Blank(a.fields[k], x.fields[k]) && NullKeeps(a.fields[k], r.fields[k]);
      }
    }
    if Compact(a) {
      forall k | k in r.fields ensures Compact(r.fields[k]) { assert NullKeeps(a.fields[k], r.fields[k]); }
    }
  }

  lemma UnionKeeps(a: Array, r: Array)
    requires Contents(r) == Contents(a) + [Null] && a.UnionArray? && r.UnionArray? && a.children != []
    requires |r.children| == |a.children| && r.children == a.children[0 := r.children[0]]
    requires NullKeeps(a.children[0], r.children[0])
    requires Kinds(r.children[0]) == Kinds(a.children[0])
    ensures NullKeeps(a, r)
  {
    KindsGrow(Contents(a), Null);
    assert ChildKinds(r.children) == ChildKinds(a.children);
  }

  /** One child of a union has grown by a value that it takes. */
  lemma ChildPushed(a: Array, r: Array, id: nat, x: Value)
    requires Ready(a, x) && Contents(r) == Contents(a) + [x] && !x.Null? && a.UnionArray? && r.UnionArray?
    requires id < |a.children| && Takes(a.children[id], x) && Typed(a.children[id])
    requires |r.children| == |a.children| && r.children == a.children[id := r.children[id]]
    requires Kinds(r.children[id]) == Kinds(a.children[id]) && (Ready(a.children[id], x) ==> Compact(r.children[id]))
    ensures Compact(r)
  {
    hide Contents, KindsIn, Valid;
    assert ChildKinds(r.children) == ChildKinds(a.children);
    TakesItsKind(a.children[id], x);
    assert KindOf(x) in ChildKinds(a.children)[id];
    InFlat(ChildKinds(a.children), KindOf(x));
    CompactPushed(a, r, x);
  }

  /** No child takes the value, so there is one more. */
  lemma ChildAdded(a: Array, r: Array, x: Value)
    requires Ready(a, x) && Contents(r) == Contents(a) + [x] && !x.Null? && a.UnionArray? && r.UnionArray?
    requires forall c | 0 <= c < |a.children| :: Typed(a.children[c]) && !Takes(a.children[c], x)
    requires |r.children| == |a.children| + 1 && r.children[..|a.children|] == a.children
    requires var c := r.children[|a.children|]; Compact(c) && Kinds(c) == [KindOf(x)]
    ensures Compact(r)
  {
    hide Contents, KindsIn, Valid;
    var kindss := ChildKinds(a.children);
    assert ChildKinds(r.children) == kindss + [[KindOf(x)]];
    assert (kindss + [[KindOf(x)]])[..|kindss|] == kindss;
    InFlat(kindss, KindOf(x));
    forall c | 0 <= c < |kindss| ensures KindOf(x) !in kindss[c] { TakesItsKind(a.children[c], x); }
    CompactPushed(a, r, x);
  }

  /** A typed array and a new one become a union. */
  lemma UnionMade(a: Array, r: Array, x: Value)
    requires Ready(a, x) && Contents(r) == Contents(a) + [x] && !x.Null? && Typed(a) && !Takes(a, x)
    requires r.UnionArray? && |r.children| == 2 && r.children[0] == a
    requires Compact(r.children[1]) && Kinds(r.children[1]) == [KindOf(x)]
    ensures Compact(r)
  {
    hide Contents, KindsIn, Valid;
    var kindss := ChildKinds(r.children);
    assert kindss == [Kinds(a), [KindOf(x)]];
    assert kindss[..1] == [Kinds(a)];
    assert Flat([Kinds(a)]) == Flat([Kinds(a)][..0]) + Kinds(a) == Kinds(a);
    assert Kinds(r) == Kinds(a) + [KindOf(x)];
    TakesItsKind(a, x);
    CompactPushed(a, r, x);
  }

  lemma WidenedCompact(a: Array, r: Array, x: Value)
    requires Ready(a, x) && Contents(r) == Contents(a) + [x] && !x.Null? && Typed(a) && !Takes(a, x)
    requires if Contents(a) == [] then Compact(r) else
               r.UnionArray? && |r.children| == 2 && r.children[0] == a
               && Compact(r.children[1]) && Kinds(r.children[1]) == [KindOf(x)]
    ensures Compact(r)
  {
    if Contents(a) != [] { UnionMade(a, r, x); }
  }

  // ---------- what this says ----------

  lemma {:induction false} OneKindEach(children: seq<Array>)
    requires forall c | 0 <= c < |children| :: Typed(children[c])
    ensures |Flat(ChildKinds(children))| == |children|
    ensures forall c | 0 <= c < |children| :: Kinds(children[c]) == [Flat(ChildKinds(children))[c]]
  {
    if children != [] {
      var n := |children| - 1;
      OneKindEach(children[..n]);
      assert ChildKinds(children)[..n] == ChildKinds(children[..n]);
      assert forall c | 0 <= c < n :: children[..n][c] == children[c];
    }
  }

  /** An array is a union exactly when it holds values of several kinds, is without a type exactly when it
      holds only NULLs, and a union has one child for each kind, in order of first occurrence. */
  lemma UnionIffMixed(a: Array)
    requires Valid(a) && Compact(a)
    ensures a.UnionArray? <==> |KindsIn(Contents(a))| >= 2
    ensures a.NullArray? <==> forall x | x in Contents(a) :: x.Null?
    ensures a.UnionArray? ==>
              |a.children| == |KindsIn(Contents(a))|
              && forall c | 0 <= c < |a.children| :: Kinds(a.children[c]) == [KindsIn(Contents(a))[c]]
  {
    KindsOnce(Contents(a));
    if a.UnionArray? { OneKindEach(a.children); }
    if a.NullArray? {
    } else {
      assert KindsIn(Contents(a))[0] in KindsIn(Contents(a));
    }
  }
}
