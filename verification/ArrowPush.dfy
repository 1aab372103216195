/** Pushing and reading, with the loops that backfill nulls, append list items and go through the
    columns of a struct. */
module ArrowPush {
  import opened Arrow
  import opened ArrowKinds

  predicate SameType(a: Array, r: Array) {
    match a
    case NullArray(_) => r.NullArray?
    case IntArray(_, _) => r.IntArray?
    case FloatArray(_, _) => r.FloatArray?
    case Utf8Array(_, _, _) => r.Utf8Array?
    case ListArray(_, _, _) => r.ListArray?
    case StructArray(_, fields) => r.StructArray? && r.fields.Keys == fields.Keys
    case UnionArray(_, _, _) => r.UnionArray?
  }

  lemma StructChild(a: Array, k: string)
    requires Valid(a) && a.StructArray? && k in a.fields
    ensures Valid(a.fields[k]) && |Contents(a.fields[k])| == |Contents(a)|
  {
  }

  /** One more column has been pushed to. */
  lemma GrownStep(before: map<string, Array>, fields: map<string, Array>, done: set<string>, xs: map<string, Value>,
      k: string, c: Array)
    requires Grown(before, fields, done, xs) && k in before && k !in done && fields[k] == before[k]
    requires Valid(c) && Contents(c) == Contents(before[k]) + [xs[k]]
    ensures Grown(before, fields[k := c], done + {k}, xs)
  {
    hide Contents, Valid;
  }

  /** Pushing NULL widens nothing. */
  method PushNull(a: Array) returns (r: Array)
    requires Valid(a)
    ensures Valid(r) && Contents(r) == Contents(a) + [Null]
    ensures SameType(a, r) && Kinds(r) == Kinds(a) && NullKeeps(a, r)
    decreases a, 1
  {
    match a
    case NullArray(count) =>
      r := NullArray(count + 1);
      LeafKeeps(a, r);
    case IntArray(v, ints) =>
      r := IntArray(PushInvalid(v, |ints|), ints + [0]);
      IntPushed(v, ints, 0);
      LeafKeeps(a, r);
    case FloatArray(v, floats) =>
      r := FloatArray(PushInvalid(v, |floats|), floats + [0]);
      FloatPushed(v, floats, 0);
      LeafKeeps(a, r);
    case Utf8Array(v, offsets, data) =>
      r := Utf8Array(PushInvalid(v, |offsets| - 1), offsets + [|data|], data);
      Utf8Pushed(v, offsets, data, []);
      assert data + [] == data;
      LeafKeeps(a, r);
    case StructArray(_, _) => r := PushNullStruct(a);
    case ListArray(_, _, _) => r := PushNullList(a);
    case UnionArray(_, _, _) => r := PushNullUnion(a);
  }

  method PushNullList(a: Array) returns (r: Array)
    requires Valid(a) && a.ListArray?
    ensures Valid(r) && Contents(r) == Contents(a) + [Null] && SameType(a, r)
    ensures Kinds(r) == Kinds(a) && NullKeeps(a, r)
  {
    assert Contents(a.values) + [] == Contents(a.values);
    ListPushed(a.validity, a.offsets, a.values, [], a.values);
    var n := Length(a.values);
    r := ListArray(PushInvalid(a.validity, |a.offsets| - 1), a.offsets + [n], a.values);
    ListKeeps(a, r);
  }

  /** The NULL goes into the first child. */
  method PushNullUnion(a: Array) returns (r: Array)
    requires Valid(a) && a.UnionArray?
    ensures Valid(r) && Contents(r) == Contents(a) + [Null] && SameType(a, r)
    ensures Kinds(r) == Kinds(a) && NullKeeps(a, r)
    decreases a, 0
  {
    UnionChild(a, 0);
    hide Contents, Valid, NullKeeps;
    var c := PushNull(a.children[0]);
    var n := Length(c);
    r := UnionArray(a.typeIds + [0], a.unionOffsets + [n - 1], a.children[0 := c]);
    UnionPushed(a, 0, c, Null);
    UnionKeeps(a, r);
    assert ChildKinds(r.children) == ChildKinds(a.children);
  }

  lemma UnionChild(a: Array, id: nat)
    requires Valid(a) && a.UnionArray?
    ensures a.children != [] && (id < |a.children| ==> Valid(a.children[id]) && Typed(a.children[id]))
  {
  }

  method PushNullStruct(a: Array) returns (r: Array)
    requires Valid(a) && a.StructArray?
    ensures Valid(r) && Contents(r) == Contents(a) + [Null] && SameType(a, r)
    ensures Kinds(r) == Kinds(a) && NullKeeps(a, r)
    decreases a, 0
  {
    hide Contents, Valid, Grown, NullKeeps;
    forall k | k in a.fields ensures Valid(a.fields[k]) { StructChild(a, k); }
    var n := Length(a);
    var fields := a.fields;
    var nulls := map k | k in fields :: Null;
    ghost var done: set<string> := {};
    var left := fields.Keys;
    Untouched(a.fields, nulls);
    while left != {}
      invariant left <= a.fields.Keys && done == a.fields.Keys - left
      invariant fields.Keys == a.fields.Keys && Grown(a.fields, fields, done, nulls)
      invariant forall k | k in done :: NullKeeps(a.fields[k], fields[k])
      invariant forall k | k in left :: fields[k] == a.fields[k]
      decreases left
    {
      var k :| k in left;
      var c := PushNull(a.fields[k]);
      GrownStep(a.fields, fields, done, nulls, k, c);
      fields := fields[k := c];
      left := left - {k};
      done := done + {k};
    }
    assert done == a.fields.Keys;
    r := StructArray(PushInvalid(a.validity, n), fields);
    StructPushed(a.validity, a.fields, fields, nulls);
    StructKeeps(a, r);
  }

  lemma Untouched(fields: map<string, Array>, xs: map<string, Value>)
    requires fields.Keys == xs.Keys && forall k | k in fields :: Valid(fields[k])
    ensures Grown(fields, fields, {}, xs)
  {
  }

  /** A value pushed onto an array whose own method takes it. */
  method PushTyped(a: Array, x: Value) returns (r: Array)
    requires Valid(a) && ValueOk(x) && !x.Null? && Takes(a, x)
    ensures Valid(r) && Contents(r) == Contents(a) + [x] && Typed(r)
    ensures SameType(a, r) && Kinds(r) == Kinds(a)
    ensures Ready(a, x) ==> Compact(r)
    decreases x, 0, 2
  {
    hide Ready, Compact;
    match a
    case IntArray(v, ints) =>
      r := IntArray(PushValid(v), ints + [x.n]);
      IntPushed(v, ints, x.n);
      LeafPushed(a, r, x);
    case FloatArray(v, floats) =>
      r := FloatArray(PushValid(v), floats + [x.bits]);
      FloatPushed(v, floats, x.bits);
      LeafPushed(a, r, x);
    case Utf8Array(v, offsets, data) =>
      r := Utf8Array(PushValid(v), offsets + [|data + x.bytes|], data + x.bytes);
      Utf8Pushed(v, offsets, data, x.bytes);
      LeafPushed(a, r, x);
    case ListArray(_, _, _) => r := PushList(a, x);
    case StructArray(_, _) => r := PushStruct(a, x);
  }

  method PushList(a: Array, x: Value) returns (r: Array)
    requires Valid(a) && ValueOk(x) && a.ListArray? && x.List?
    ensures Valid(r) && Contents(r) == Contents(a) + [x]
    ensures SameType(a, r) && Kinds(r) == Kinds(a)
    ensures Ready(a, x) ==> Compact(r)
    decreases x, 0, 1
  {
    hide KindsIn;
    var values := PushItems(a.values, x);
    var n := Length(values);
    r := ListArray(PushValid(a.validity), a.offsets + [n], values);
    ListPushed(a.validity, a.offsets, a.values, x.items, values);
    if Ready(a, x) { CompactPushed(a, r, x); }
  }

  method PushStruct(a: Array, x: Value) returns (r: Array)
    requires Valid(a) && ValueOk(x) && a.StructArray? && x.Struct? && a.fields.Keys == x.fields.Keys
    ensures Valid(r) && Contents(r) == Contents(a) + [x]
    ensures SameType(a, r) && Kinds(r) == Kinds(a)
    ensures Ready(a, x) ==> Compact(r)
    decreases x, 0, 1
  {
    hide Contents, KindsIn, Grown;
    forall k | k in a.fields ensures Valid(a.fields[k]) { StructChild(a, k); }
    var fields := PushFields(a.fields, x);
    r := StructArray(PushValid(a.validity), fields);
    StructPushed(a.validity, a.fields, fields, x.fields);
    assert fields.Keys == a.fields.Keys;
    if Ready(a, x) { CompactPushed(a, r, x); }
  }

  /** The items one after the other; any of them may widen the array they go to. */
  method PushItems(a: Array, x: Value) returns (values: Array)
    requires Valid(a) && ValueOk(x) && x.List?
    ensures Valid(values) && Contents(values) == Contents(a) + x.items
    ensures Compact(a) ==> Compact(values)
    decreases x, 0, 0
  {
    hide Compact, KindsIn;
    values := a;
    assert Contents(a) + [] == Contents(a);
    for i := 0 to |x.items|
      invariant Valid(values) && Contents(values) == Contents(a) + x.items[..i]
      invariant Compact(a) ==> Compact(values)
    {
      values := Push(values, x.items[i]);
      assert x.items[..i + 1] == x.items[..i] + [x.items[i]];
    }
    assert x.items[..|x.items|] == x.items;
  }

  method PushFields(before: map<string, Array>, x: Value) returns (fields: map<string, Array>)
    requires x.Struct? && ValueOk(x) && before.Keys == x.fields.Keys && forall k | k in before :: Valid(before[k])
    ensures fields.Keys == before.Keys && Grown(before, fields, before.Keys, x.fields)
    ensures forall k | k in before.Keys && Ready(before[k], x.fields[k]) :: Compact(fields[k])
    decreases x, 0, 0
  {
    hide Contents, Valid, Grown, Compact, Ready;
    fields := before;
    ghost var done: set<string> := {};
    var left := x.fields.Keys;
    Untouched(before, x.fields);
    while left != {}
      invariant left <= before.Keys && done == before.Keys - left
      invariant fields.Keys == before.Keys && Grown(before, fields, done, x.fields)
      invariant forall k | k in done && Ready(before[k], x.fields[k]) :: Compact(fields[k])
      invariant forall k | k in left :: fields[k] == before[k]
      decreases left
    {
      var k :| k in left;
      var c := Push(before[k], x.fields[k]);
      GrownStep(before, fields, done, x.fields, k, c);
      fields := fields[k := c];
      left := left - {k};
      done := done + {k};
    }
    assert done == before.Keys;
  }

  /** arrow-push: NULLs and values of the array's type go in; a null array becomes one of the value's
      type; a typed array that does not take the value becomes a union; a union looks for a child
      that takes it, or gets a new one. So an array stays made for exactly the kinds that it holds. */
  method Push(a: Array, x: Value) returns (r: Array)
    requires Valid(a) && ValueOk(x)
    ensures Valid(r) && Contents(r) == Contents(a) + [x]
    ensures Ready(a, x) ==> Compact(r)
    decreases x, 1, 0
  {
    hide Contents, Valid, Compact, KindsIn;
    if x.Null? {
      r := PushNull(a);
      if Ready(a, x) { BlankNulls(a); }
    } else if Takes(a, x) {
      r := PushTyped(a, x);
    } else if a.NullArray? {
      r := Backfilled(a.count, x);
    } else if a.UnionArray? {
      r := PushUnion(a, x);
    } else {
      r := Widen(a, x);
      if Ready(a, x) { WidenedCompact(a, r, x); }
    }
  }

  method Backfilled(count: nat, x: Value) returns (r: Array)
    requires ValueOk(x) && !x.Null?
    ensures Valid(r) && Contents(r) == Contents(NullArray(count)) + [x] && Compact(r)
    decreases x, 0, 3
  {
    hide Compact, Blank, KindsIn;
    var a := MakeArrayFor(x);
    MadeEmpty(x);
    MadeBlank(x);
    for i := 0 to count
      invariant Valid(a) && Contents(a) == Contents(NullArray(i)) && Takes(a, x) && Blank(a, x)
    {
      a := PushNull(a);
    }
    r := PushTyped(a, x);
  }

  method NewArray(x: Value) returns (r: Array)
    requires ValueOk(x) && !x.Null?
    ensures Valid(r) && Contents(r) == [x] && Typed(r) && Compact(r) && Kinds(r) == [KindOf(x)]
    decreases x, 0, 3
  {
    hide Compact, KindsIn;
    MadeEmpty(x);
    MadeBlank(x);
    BlankHasKind(MakeArrayFor(x), x);
    r := PushTyped(MakeArrayFor(x), x);
  }

  method Widen(a: Array, x: Value) returns (r: Array)
    requires Valid(a) && Typed(a) && ValueOk(x) && !x.Null?
    ensures Valid(r) && Contents(r) == Contents(a) + [x]
    ensures if Contents(a) == [] then Compact(r) && Kinds(r) == [KindOf(x)] else
              r.UnionArray? && |r.children| == 2 && r.children[0] == a
              && Compact(r.children[1]) && Kinds(r.children[1]) == [KindOf(x)]
    decreases x, 0, 4
  {
    hide Compact, KindsIn;
    var len := Length(a);
    var newArray := NewArray(x);
    if len == 0 {
      r := newArray;
    } else {
      var offsets: seq<nat> := [];
      for n := 0 to len
        invariant |offsets| == n && forall i | 0 <= i < n :: offsets[i] == i
      {
        offsets := offsets + [n];
      }
      r := UnionArray(seq(len, _ => 0) + [1], offsets + [0], [a, newArray]);
      Widened(a, newArray, x, offsets);
    }
  }

  method PushUnion(a: Array, x: Value) returns (r: Array)
    requires Valid(a) && a.UnionArray? && ValueOk(x) && !x.Null?
    ensures Valid(r) && Contents(r) == Contents(a) + [x]
    ensures r.UnionArray? && r.typeIds == a.typeIds + [FirstTaking(a.children, x)]
    ensures ToOneChild(a, r, x)
    ensures Ready(a, x) ==> Compact(r)
    decreases x, 0, 4
  {
    hide Ready, Compact, KindsIn, Contents, Valid, Takes;
    var id := 0;
    while id < |a.children|
      invariant 0 <= id <= |a.children|
      invariant forall c | 0 <= c < id :: !Takes(a.children[c], x)
    {
      UnionChild(a, id);
      if Takes(a.children[id], x) {
        var n := Length(a.children[id]);
        var c := PushTyped(a.children[id], x);
        r := UnionArray(a.typeIds + [id], a.unionOffsets + [n], a.children[id := c]);
        UnionPushed(a, id, c, x);
        FirstTakingIs(a.children, x, id);
        if Ready(a, x) { ChildPushed(a, r, id, x); }
        return;
      }
      id := id + 1;
    }
    forall c | 0 <= c < |a.children| ensures Typed(a.children[c]) { UnionChild(a, c); }
    var newArray := NewArray(x);
    r := UnionArray(a.typeIds + [|a.children|], a.unionOffsets + [0], a.children + [newArray]);
    UnionWidened(a, newArray, x);
    FirstTakingIs(a.children, x, |a.children|);
    if Ready(a, x) { ChildAdded(a, r, x); }
  }

  /** The first child that takes the value, or the place of a new one. */
  function FirstTaking(children: seq<Array>, x: Value): (id: nat)
    ensures id <= |children|
  {
    if children == [] then 0 else if Takes(children[0], x) then 0 else 1 + FirstTaking(children[1..], x)
  }

  lemma {:induction false} FirstTakingIs(children: seq<Array>, x: Value, id: nat)
    requires id <= |children| && forall c | 0 <= c < id :: !Takes(children[c], x)
    requires id < |children| ==> Takes(children[id], x)
    ensures FirstTaking(children, x) == id
  {
    if id > 0 { FirstTakingIs(children[1..], x, id - 1); }
  }

  /** All other children stay as they are. */
  ghost predicate ToOneChild(a: Array, r: Array, x: Value)
    requires a.UnionArray? && r.UnionArray?
  {
    var id := FirstTaking(a.children, x);
    && |r.children| == (if id < |a.children| then |a.children| else |a.children| + 1)
    && forall c | 0 <= c < |a.children| && c != id :: r.children[c] == a.children[c]
  }

  // ---------- reading ----------

  /** arrow-get */
  method Get(a: Array, n: nat) returns (x: Value)
    requires Valid(a) && n < |Contents(a)|
    ensures x == Contents(a)[n]
    decreases a, 1
  {
    match a
    case NullArray(_) => x := Null;
    case IntArray(v, ints) => x := if Bit(v, n) then Int(ints[n]) else Null;
    case FloatArray(v, floats) => x := if Bit(v, n) then Float(floats[n]) else Null;
    case Utf8Array(v, offsets, data) => x := if Bit(v, n) then Str(Slice(data, offsets[n], offsets[n + 1])) else Null;
    case ListArray(_, _, _) => x := GetList(a, n);
    case StructArray(_, _) => x := GetStruct(a, n);
    case UnionArray(typeIds, offsets, children) =>
      x := Get(children[typeIds[n]], offsets[n]);
  }

  lemma OffsetsInside(offsets: seq<nat>, total: nat, n: nat)
    requires OffsetsOk(offsets, total) && n < Entries(offsets)
    ensures offsets[n] <= offsets[n + 1] <= total
  {
    assert offsets[n + 1] <= offsets[|offsets| - 1];
  }

  method GetList(a: Array, n: nat) returns (x: Value)
    requires Valid(a) && a.ListArray? && n < |Contents(a)|
    ensures x == Contents(a)[n]
    decreases a, 0
  {
    ListItem(a, n);
    hide Contents, Valid;
    if !Bit(a.validity, n) { return Null; }
    var items: seq<Value> := [];
    for i := a.offsets[n] to a.offsets[n + 1]
      invariant items == Contents(a.values)[a.offsets[n]..i]
    {
      var item := Get(a.values, i);
      items := items + [item];
    }
    x := List(items);
  }

  lemma ListItem(a: Array, n: nat)
    requires Valid(a) && a.ListArray? && n < |Contents(a)|
    ensures n + 1 < |a.offsets| && Valid(a.values) && a.offsets[n] <= a.offsets[n + 1] <= |Contents(a.values)|
    ensures Contents(a)[n] == if Bit(a.validity,
        n) then List(Contents(a.values)[a.offsets[n]..a.offsets[n + 1]]) else Null
  {
    OffsetsInside(a.offsets, |Contents(a.values)|, n);
  }

  method GetStruct(a: Array, n: nat) returns (x: Value)
    requires Valid(a) && a.StructArray? && n < |Contents(a)|
    ensures x == Contents(a)[n]
    decreases a, 0
  {
    hide Contents, Valid;
    forall k | k in a.fields ensures Valid(a.fields[k]) && |Contents(a.fields[k])| == |Contents(a)| { StructChild(a,
        k); }
    if !Bit(a.validity, n) {
      StructRow(a, n);
      return Null;
    }
    var acc: map<string, Value> := map[];
    var left := a.fields.Keys;
    while left != {}
      invariant left <= a.fields.Keys && acc.Keys == a.fields.Keys - left
      invariant forall k | k in acc :: acc[k] == Contents(a.fields[k])[n]
      decreases left
    {
      var k :| k in left;
      var v := Get(a.fields[k], n);
      acc := acc[k := v];
      left := left - {k};
    }
    x := Struct(acc);
    StructRow(a, n);
    assert acc == map k | k in a.fields :: Contents(a.fields[k])[n];
  }

  lemma StructRow(a: Array, n: nat)
    requires Valid(a) && a.StructArray? && n < |Contents(a)|
    ensures forall k | k in a.fields :: n < |Contents(a.fields[k])|
    ensures Contents(a)[n] == if Bit(a.validity, n) then Struct(map k | k in a.fields ::
        Contents(a.fields[k])[n]) else Null
  {
    assert Contents(a) == Masked(a.validity, Rows(Columns(a.fields)));
    forall k | k in a.fields ensures n < |Contents(a.fields[k])| { StructChild(a, k); }
  }

  // ---------- a column ----------

  class Column {
    var held: Array

    constructor ()
      ensures Valid(held) && Contents(held) == [] && Compact(held)
    {
      held := NullArray(0);
    }

    /** Main result: a push appends exactly the value; all earlier elements stay what they were. */
    method Append(x: Value)
      requires Valid(held) && ValueOk(x)
      modifies this
      ensures Valid(held) && Contents(held) == old(Contents(held)) + [x]
      ensures old(Compact(held)) ==> Compact(held)
    {
      held := Push(held, x);
    }
  }

  /** to-arrow, and back. */
  method ToArrow(xs: seq<Value>) returns (a: Array)
    requires forall x | x in xs :: ValueOk(x)
    ensures Valid(a) && Contents(a) == xs && Compact(a)
  {
    hide Compact, KindsIn;
    var column := new Column();
    for i := 0 to |xs|
      invariant Valid(column.held) && Contents(column.held) == xs[..i] && Compact(column.held)
    {
      column.Append(xs[i]);
      assert xs[..i + 1] == xs[..i] + [xs[i]];
    }
    assert xs[..|xs|] == xs;
    a := column.held;
  }

  method FromArrow(a: Array) returns (xs: seq<Value>)
    requires Valid(a)
    ensures xs == Contents(a)
  {
    var n := Length(a);
    xs := [];
    for i := 0 to n
      invariant xs == Contents(a)[..i]
    {
      var x := Get(a, i);
      xs := xs + [x];
    }
  }
}
