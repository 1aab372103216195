/** Self-widening columnar arrays: whatever value is pushed onto whatever array, the array behaves as a
    sequence that has grown by that value. */
module Arrow {

  datatype Value =
    | Null
    | Int(n: int)
    | Float(bits: int)
    | Str(bytes: seq<nat>)
    | List(items: seq<Value>)
    | Struct(fields: map<string, Value>)

  /** The values of the claim: 64-bit integers, and no empty struct anywhere. */
  predicate ValueOk(x: Value) {
    match x
    case Int(n) => -0x8000_0000_0000_0000 <= n < 0x8000_0000_0000_0000
    case List(items) => forall i | 0 <= i < |items| :: ValueOk(items[i])
    case Struct(fields) => fields.Keys != {} && forall k | k in fields :: ValueOk(fields[k])
    case _ => true
  }

  /** Without a bit vector everything is valid. */
  datatype Validity = AllValid | Bits(bits: seq<bool>)

  datatype Array =
    | NullArray(count: nat)
    | IntArray(validity: Validity, ints: seq<int>)
    | FloatArray(validity: Validity, floats: seq<int>)
    | Utf8Array(validity: Validity, offsets: seq<nat>, data: seq<nat>)
    | ListArray(validity: Validity, offsets: seq<nat>, values: Array)
    | StructArray(validity: Validity, fields: map<string, Array>)
    | UnionArray(typeIds: seq<nat>, unionOffsets: seq<nat>, children: seq<Array>)

  // ---------- what an array holds ----------

  predicate Valid1(v: Validity, n: nat) {
    v.Bits? ==> |v.bits| == n
  }

  predicate Bit(v: Validity, i: nat) {
    v.Bits? ==> i < |v.bits| && v.bits[i]
  }

  predicate OffsetsOk(offsets: seq<nat>, n: nat) {
    && offsets != [] && offsets[|offsets| - 1] == n
    && forall i, j | 0 <= i <= j < |offsets| :: offsets[i] <= offsets[j]
  }

  function Slice<T>(xs: seq<T>, from: nat, to: nat): seq<T> {
    if from <= to <= |xs| then xs[from..to] else []
  }

  /** The abstract sequence. */
  ghost function Contents(a: Array): seq<Value>
    decreases a
  {
    match a
    case NullArray(count) => seq(count, _ => Null)
    case IntArray(validity, ints) => Masked(validity, seq(|ints|, i requires 0 <= i < |ints| => Int(ints[i])))
    case FloatArray(validity, floats) => Masked(validity, seq(|floats|,
        i requires 0 <= i < |floats| => Float(floats[i])))
    case Utf8Array(validity, offsets, data) =>
      Masked(validity, Strings(Slices(offsets, data)))
    case ListArray(validity, offsets, values) =>
      Masked(validity, Lists(Slices(offsets, Contents(values))))
    case StructArray(validity, fields) =>
      var columns := map k | k in fields :: Contents(fields[k]);
      Masked(validity, Rows(columns))
    case UnionArray(typeIds, offsets, children) =>
      var columns := seq(|children|, c requires 0 <= c < |children| => Contents(children[c]));
      seq(|typeIds|, i requires 0 <= i < |typeIds| => At(columns, typeIds[i], if i < |offsets| then offsets[i] else 0))
  }

  function Entries(offsets: seq<nat>): nat {
    if offsets == [] then 0 else |offsets| - 1
  }

  /** The slices of a buffer between consecutive offsets. */
  function Slices<T>(offsets: seq<nat>, data: seq<T>): (r: seq<seq<T>>)
    ensures |r| == Entries(offsets)
  {
    seq(Entries(offsets), i requires 0 <= i < Entries(offsets) => Slice(data, offsets[i], offsets[i + 1]))
  }

  function Strings(xs: seq<seq<nat>>): seq<Value> {
    seq(|xs|, i requires 0 <= i < |xs| => Str(xs[i]))
  }

  function Lists(xs: seq<seq<Value>>): seq<Value> {
    seq(|xs|, i requires 0 <= i < |xs| => List(xs[i]))
  }

  function Masked(v: Validity, values: seq<Value>): (r: seq<Value>)
    ensures |r| == |values|
  {
    seq(|values|, i requires 0 <= i < |values| => if Bit(v, i) then values[i] else Null)
  }

  function At(columns: seq<seq<Value>>, id: nat, offset: nat): Value {
    if id < |columns| && offset < |columns[id]| then columns[id][offset] else Null
  }

  /** The rows of equally long columns. */
  ghost function Rows(columns: map<string, seq<Value>>): seq<Value> {
    seq(Height(columns), i requires 0 <= i < Height(columns) => Struct(map k | k in columns ::
        if i < |columns[k]| then columns[k][i] else Null))
  }

  ghost function Height(columns: map<string, seq<Value>>): nat {
    if columns.Keys == {} then 0 else var k :| k in columns; |columns[k]|
  }

  ghost predicate Valid(a: Array)
    decreases a
  {
    match a
    case NullArray(_) => true
    case IntArray(validity, ints) => Valid1(validity, |ints|)
    case FloatArray(validity, floats) => Valid1(validity, |floats|)
    case Utf8Array(validity, offsets, data) => OffsetsOk(offsets, |data|) && Valid1(validity, Entries(offsets))
    case ListArray(validity, offsets, values) =>
      Valid(values) && OffsetsOk(offsets, |Contents(values)|) && Valid1(validity, Entries(offsets))
    case StructArray(validity, fields) =>
      && fields.Keys != {}
      && (forall k | k in fields :: Valid(fields[k]) && |Contents(fields[k])| == |Contents(a)|)
      && Valid1(validity, |Contents(a)|)
    case UnionArray(typeIds, offsets, children) =>
      && children != [] && |typeIds| == |offsets|
      && (forall c | 0 <= c < |children| :: Valid(children[c]) && Typed(children[c]))
      && forall i | 0 <= i < |typeIds| :: typeIds[i] < |children| && offsets[i] < |Contents(children[typeIds[i]])|
  }

  /** The arrays that a union may have as children. */
  predicate Typed(a: Array) {
    !a.NullArray? && !a.UnionArray?
  }

  /** Whether the array's own push method takes this value. */
  predicate Takes(a: Array, x: Value) {
    match a
    case NullArray(_) => x.Null?
    case IntArray(_, _) => x.Int?
    case FloatArray(_, _) => x.Float?
    case Utf8Array(_, _, _) => x.Str?
    case ListArray(_, _, _) => x.List?
    case StructArray(_, fields) => x.Struct? && fields.Keys == x.fields.Keys
    case UnionArray(_, _, _) => false
  }

  function MakeArrayFor(x: Value): (a: Array)
    decreases x
  {
    match x
    case Null => NullArray(0)
    case Int(_) => IntArray(AllValid, [])
    case Float(_) => FloatArray(AllValid, [])
    case Str(_) => Utf8Array(AllValid, [0], [])
    case List(_) => ListArray(AllValid, [0], NullArray(0))
    case Struct(fields) => StructArray(AllValid, map k | k in fields :: MakeArrayFor(fields[k]))
  }

  lemma {:induction false} MadeEmpty(x: Value)
    requires ValueOk(x)
    ensures Valid(MakeArrayFor(x)) && Contents(MakeArrayFor(x)) == [] && Takes(MakeArrayFor(x), x)
    decreases x
  {
    if x.Struct? {
      var a := MakeArrayFor(x);
      forall k | k in a.fields ensures Valid(a.fields[k]) && Contents(a.fields[k]) == [] {
        MadeEmpty(x.fields[k]);
      }
      StructHeight(a, 0);
    }
  }

  lemma StructHeight(a: Array, n: nat)
    requires a.StructArray? && a.fields.Keys != {} && forall k | k in a.fields :: |Contents(a.fields[k])| == n
    ensures |Contents(a)| == n
  {
    var columns := map k | k in a.fields :: Contents(a.fields[k]);
    assert columns.Keys == a.fields.Keys;
    var k :| k in columns;
    assert Height(columns) == n;
  }

  /** arrow-length, which for a struct looks at any one child. */
  method Length(a: Array) returns (n: nat)
    requires Valid(a)
    ensures n == |Contents(a)|
    decreases a
  {
    match a
    case NullArray(count) => n := count;
    case IntArray(_, ints) => n := |ints|;
    case FloatArray(_, floats) => n := |floats|;
    case Utf8Array(_, offsets, _) => n := |offsets| - 1;
    case ListArray(_, offsets, _) => n := |offsets| - 1;
    case StructArray(_, fields) =>
      var k :| k in fields;
      n := Length(fields[k]);
    case UnionArray(typeIds, _, _) => n := |typeIds|;
  }

  // ---------- validity ----------

  function PushValid(v: Validity): Validity {
    if v.Bits? then Bits(v.bits + [true]) else v
  }

  function PushInvalid(v: Validity, n: nat): Validity {
    Bits((if v.Bits? then v.bits else seq(n, _ => true)) + [false])
  }

  lemma MaskedPush(v: Validity, values: seq<Value>, x: Value)
    requires Valid1(v, |values|)
    ensures Masked(PushValid(v), values + [x]) == Masked(v, values) + [x]
    ensures Masked(PushInvalid(v, |values|), values + [x]) == Masked(v, values) + [Null]
    ensures Valid1(PushValid(v), |values| + 1) && Valid1(PushInvalid(v, |values|), |values| + 1)
  {
  }

  // ---------- one kind of array at a time ----------

  lemma IntPushed(v: Validity, ints: seq<int>, n: int)
    requires Valid(IntArray(v, ints))
    ensures var a := IntArray(v, ints);
            && Valid(IntArray(PushValid(v), ints + [n])) && Contents(IntArray(PushValid(v),
                ints + [n])) == Contents(a) + [Int(n)]
            && Valid(IntArray(PushInvalid(v, |ints|), ints + [n]))
            && Contents(IntArray(PushInvalid(v, |ints|), ints + [n])) == Contents(a) + [Null]
  {
    var plain := seq(|ints|, i requires 0 <= i < |ints| => Int(ints[i]));
    MaskedPush(v, plain, Int(n));
    assert seq(|ints + [n]|, i requires 0 <= i < |ints + [n]| => Int((ints + [n])[i])) == plain + [Int(n)];
  }

  lemma FloatPushed(v: Validity, floats: seq<int>, n: int)
    requires Valid(FloatArray(v, floats))
    ensures var a := FloatArray(v, floats);
            && Valid(FloatArray(PushValid(v), floats + [n])) && Contents(FloatArray(PushValid(v),
                floats + [n])) == Contents(a) + [Float(n)]
            && Valid(FloatArray(PushInvalid(v, |floats|), floats + [n]))
            && Contents(FloatArray(PushInvalid(v, |floats|), floats + [n])) == Contents(a) + [Null]
  {
    var plain := seq(|floats|, i requires 0 <= i < |floats| => Float(floats[i]));
    MaskedPush(v, plain, Float(n));
    assert seq(|floats + [n]|, i requires 0 <= i < |floats + [n]| => Float((floats + [n])[i])) == plain + [Float(n)];
  }

  lemma SlicesPush<T>(offsets: seq<nat>, data: seq<T>, more: seq<T>)
    requires OffsetsOk(offsets, |data|)
    ensures Slices(offsets + [|data + more|], data + more) == Slices(offsets, data) + [more]
    ensures OffsetsOk(offsets + [|data + more|], |data + more|)
  {
    var offsets', data' := offsets + [|data + more|], data + more;
    forall i | 0 <= i < Entries(offsets') ensures Slices(offsets', data')[i] == (Slices(offsets, data) + [more])[i] {
      if i < Entries(offsets) {
        assert offsets[i + 1] <= offsets[|offsets| - 1];
        assert data'[offsets[i]..offsets[i + 1]] == data[offsets[i]..offsets[i + 1]];
      } else {
        assert data'[|data|..] == more;
      }
    }
  }

  lemma Utf8Pushed(v: Validity, offsets: seq<nat>, data: seq<nat>, bytes: seq<nat>)
    requires Valid(Utf8Array(v, offsets, data))
    ensures var a := Utf8Array(v, offsets, data);
            var r := Utf8Array(PushValid(v), offsets + [|data + bytes|], data + bytes);
            Valid(r) && Contents(r) == Contents(a) + [Str(bytes)]
    ensures var a := Utf8Array(v, offsets, data);
            var r := Utf8Array(PushInvalid(v, Entries(offsets)), offsets + [|data + bytes|], data + bytes);
            Valid(r) && Contents(r) == Contents(a) + [Null]
  {
    SlicesPush(offsets, data, bytes);
    MaskedPush(v, Strings(Slices(offsets, data)), Str(bytes));
    assert Strings(Slices(offsets, data) + [bytes]) == Strings(Slices(offsets, data)) + [Str(bytes)];
  }

  lemma ListPushed(v: Validity, offsets: seq<nat>, values: Array, items: seq<Value>, values': Array)
    requires Valid(ListArray(v, offsets, values))
    requires Valid(values') && Contents(values') == Contents(values) + items
    ensures var a := ListArray(v, offsets, values);
            var r := ListArray(PushValid(v), offsets + [|Contents(values')|], values');
            Valid(r) && Contents(r) == Contents(a) + [List(items)]
    ensures var a := ListArray(v, offsets, values);
            var r := ListArray(PushInvalid(v, Entries(offsets)), offsets + [|Contents(values')|], values');
            Valid(r) && Contents(r) == Contents(a) + [Null]
  {
    var data := Contents(values);
    SlicesPush(offsets, data, items);
    MaskedPush(v, Lists(Slices(offsets, data)), List(items));
    assert Lists(Slices(offsets, data) + [items]) == Lists(Slices(offsets, data)) + [List(items)];
  }

  /** Every column has grown by the value under its key in xs. */
  ghost predicate Grown(fields: map<string, Array>, fields': map<string, Array>, keys: set<string>, xs: map<string,
      Value>) {
    && fields'.Keys == fields.Keys == xs.Keys
    && forall k | k in fields ::
         && Valid(fields'[k])
         && Contents(fields'[k]) == Contents(fields[k]) + if k in keys then [xs[k]] else []
  }

  ghost function Columns(fields: map<string, Array>): map<string, seq<Value>> {
    map k | k in fields :: Contents(fields[k])
  }

  lemma RowsPush(fields: map<string, Array>, fields': map<string, Array>, xs: map<string, Value>, n: nat)
    requires fields.Keys != {} && Grown(fields, fields', fields.Keys, xs) && forall k | k in fields ::
        |Contents(fields[k])| == n
    ensures Rows(Columns(fields')) == Rows(Columns(fields)) + [Struct(xs)]
    ensures Height(Columns(fields)) == n && Height(Columns(fields')) == n + 1
  {
    var c, c' := Columns(fields), Columns(fields');
    var k :| k in fields;
    assert k in c && k in c' && c.Keys == fields.Keys == c'.Keys;
    assert Height(c) == n && Height(c') == n + 1;
    forall i | 0 <= i < n + 1 ensures Rows(c')[i] == (Rows(c) + [Struct(xs)])[i] {
      RowAt(fields, fields', xs, n, i);
    }
  }

  lemma RowAt(fields: map<string, Array>, fields': map<string, Array>, xs: map<string, Value>, n: nat, i: nat)
    requires fields.Keys != {} && Grown(fields, fields', fields.Keys, xs) && forall k | k in fields ::
        |Contents(fields[k])| == n
    requires i <= n
    ensures var c, c' := Columns(fields), Columns(fields');
            (map k | k in c' :: if i < |c'[k]| then c'[k][i] else Null)
            == if i < n then map k | k in c :: (if i < |c[k]| then c[k][i] else Null) else xs
  {
  }

  lemma StructPushed(v: Validity, fields: map<string, Array>, fields': map<string, Array>, xs: map<string, Value>)
    requires Valid(StructArray(v, fields)) && Grown(fields, fields', fields.Keys, xs)
    ensures var a, r := StructArray(v, fields), StructArray(PushValid(v), fields');
            Valid(r) && Contents(r) == Contents(a) + [Struct(xs)]
    ensures var a := StructArray(v, fields);
            var r := StructArray(PushInvalid(v, |Contents(a)|), fields');
            Valid(r) && Contents(r) == Contents(a) + [Null]
  {
    var a := StructArray(v, fields);
    var n := |Contents(a)|;
    RowsPush(fields, fields', xs, n);
    MaskedPush(v, Rows(Columns(fields)), Struct(xs));
    StructHeight(StructArray(PushValid(v), fields'), n + 1);
    StructHeight(StructArray(PushInvalid(v, n), fields'), n + 1);
    assert Contents(a) == Masked(v, Rows(Columns(fields)));
    assert Contents(StructArray(PushValid(v), fields')) == Masked(PushValid(v), Rows(Columns(fields')));
    assert Contents(StructArray(PushInvalid(v, n), fields')) == Masked(PushInvalid(v, n), Rows(Columns(fields')));
  }

  /** A child of a union has grown by x, and the union points at it. */
  lemma UnionPushed(a: Array, id: nat, child: Array, x: Value)
    requires Valid(a) && a.UnionArray? && id < |a.children|
    requires Valid(child) && Typed(child) && Contents(child) == Contents(a.children[id]) + [x]
    ensures var r := UnionArray(a.typeIds + [id], a.unionOffsets + [|Contents(a.children[id])|],
        a.children[id := child]);
            Valid(r) && Contents(r) == Contents(a) + [x]
  {
    hide Contents;
    var r := UnionArray(a.typeIds + [id], a.unionOffsets + [|Contents(a.children[id])|], a.children[id := child]);
    assert Valid(r);
    UnionSize(a);
    UnionSize(r);
    forall i: nat | i < |r.typeIds| ensures Contents(r)[i] == (Contents(a) + [x])[i] {
      UnionAt(r, i);
      if i < |a.typeIds| { UnionAt(a, i); }
    }
  }

  lemma UnionSize(a: Array)
    requires Valid(a) && a.UnionArray?
    ensures |Contents(a)| == |a.typeIds|
  {
  }

  lemma UnionAt(a: Array, i: nat)
    requires Valid(a) && a.UnionArray? && i < |a.typeIds| && |Contents(a)| == |a.typeIds|
    ensures Contents(a)[i] == Contents(a.children[a.typeIds[i]])[a.unionOffsets[i]]
  {
  }

  /** A new child for a value that no child takes. */
  lemma UnionWidened(a: Array, child: Array, x: Value)
    requires Valid(a) && a.UnionArray? && Valid(child) && Typed(child) && Contents(child) == [x]
    ensures var r := UnionArray(a.typeIds + [|a.children|], a.unionOffsets + [0], a.children + [child]);
            Valid(r) && Contents(r) == Contents(a) + [x]
  {
    var r := UnionArray(a.typeIds + [|a.children|], a.unionOffsets + [0], a.children + [child]);
    forall i | 0 <= i < |r.typeIds| ensures Contents(r)[i] == (Contents(a) + [x])[i] {
      if i < |a.typeIds| {
        assert r.typeIds[i] == a.typeIds[i] && r.unionOffsets[i] == a.unionOffsets[i];
      }
    }
  }

  /** A typed array becomes the first child of a union whose second holds the new value. */
  lemma Widened(a: Array, child: Array, x: Value, offsets: seq<nat>)
    requires Valid(a) && Typed(a) && Valid(child) && Typed(child) && Contents(child) == [x]
    requires |offsets| == |Contents(a)| && forall i | 0 <= i < |offsets| :: offsets[i] == i
    ensures var r := UnionArray(seq(|Contents(a)|, _ => 0) + [1], offsets + [0], [a, child]);
            Valid(r) && Contents(r) == Contents(a) + [x]
  {
    var n := |Contents(a)|;
    var r := UnionArray(seq(n, _ => 0) + [1], offsets + [0], [a, child]);
    forall i | 0 <= i < n + 1 ensures Contents(r)[i] == (Contents(a) + [x])[i] {
    }
  }
}
