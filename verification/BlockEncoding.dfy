/** The block encoding of byte strings, and rows of structs made of such encodings. */
module BlockEncoding {
  import opened RowEncoding
  import opened Wrappers

  const SMALL: nat := 8
  const LARGE: nat := 32
  const NUMBER_OF_SMALL: nat := 4

  function Zeros(n: nat): (r: Bytes)
    ensures |r| == n && forall i | 0 <= i < n :: r[i] == 0
  {
    seq(n, _ => 0)
  }

  lemma ZerosStep(n: nat)
    requires n > 0
    ensures Zeros(n) == [0] + Zeros(n - 1)
  {
  }

  /** The block size when `small` small blocks are left. */
  function Size(small: nat): nat {
    if small > 0 then SMALL else LARGE
  }

  function Pred(small: nat): nat {
    if small > 0 then small - 1 else 0
  }

  /** Content in blocks: a full block with more to come is followed by 255, the last one is padded and
      followed by how much of it is content. Content that ends with the last small block is
      followed by an empty large block. */
  function Blocks(x: Bytes, small: nat): Bytes
    decreases |x|
  {
    if |x| > Size(small) then x[..Size(small)] + [255] + Blocks(x[Size(small)..], Pred(small))
    else Padded(x, Size(small), |x|) + Tail(x, small)
  }

  /** A last block, padded and counted. */
  function Padded(x: Bytes, size: nat, count: nat): Bytes
    requires |x| <= size
  {
    x + Zeros(size - |x|) + [count]
  }

  function Tail(x: Bytes, small: nat): Bytes {
    if small == 1 && |x| == SMALL then Zeros(LARGE) + [0] else []
  }

  function BlockRow(x: Option<Bytes>): Bytes {
    match x
    case None => [0]
    case Some(s) => if s == [] then [1] else [2] + Blocks(s, NUMBER_OF_SMALL)
  }

  predicate BytesLess(x: Option<Bytes>, y: Option<Bytes>) {
    y.Some? && (x.None? || Less(x.value, y.value))
  }

  // ---------- order ----------

  lemma {:induction false} PaddedOrder(x: Bytes, y: Bytes, size: nat)
    requires Less(x, y) && |x| <= size && |y| <= size
    ensures DiffersBelow(Padded(x, size, |x|), Padded(y, size, |y|))
  {
    PaddedOrderFrom(x, y, size, |x|, |y|);
  }

  lemma {:induction false} PaddedOrderFrom(x: Bytes, y: Bytes, size: nat, m: nat, n: nat)
    requires Less(x, y) && |x| <= size && |y| <= size && (|x| < |y| <==> m < n)
    ensures DiffersBelow(Padded(x, size, m), Padded(y, size, n))
    decreases size
  {
    var a, b := Padded(x, size, m), Padded(y, size, n);
    if x == [] {
      ZerosBelow(y, size, m, n);
    } else if x[0] == y[0] {
      assert a[1..] == Padded(x[1..], size - 1, m);
      assert b[1..] == Padded(y[1..], size - 1, n);
      PaddedOrderFrom(x[1..], y[1..], size - 1, m, n);
    }
  }

  lemma {:induction false} ZerosBelow(y: Bytes, size: nat, m: nat, n: nat)
    requires |y| <= size && m < n
    ensures DiffersBelow(Padded([], size, m), Padded(y, size, n))
    decreases size
  {
    var a, b := Padded([], size, m), Padded(y, size, n);
    if size > 0 {
      var rest := if y == [] then [] else y[1..];
      assert a[1..] == Padded([], size - 1, m);
      assert b[1..] == Padded(rest, size - 1, n);
      ZerosBelow(rest, size - 1, m, n);
    }
  }

  /** A last block against a full block with more to come. */
  lemma {:induction false} LastAgainstFull(x: Bytes, y: Bytes, size: nat, m: nat)
    requires |x| <= size == |y| && m < 255
    requires x == y || Less(x, y)
    ensures DiffersBelow(Padded(x, size, m), y + [255])
    decreases size
  {
    var a := Padded(x, size, m);
    if size > 0 {
      if x == [] {
        assert a[1..] == Padded([], size - 1, m);
        assert (y + [255])[1..] == y[1..] + [255];
        EmptyLess(y[1..]);
        LastAgainstFull([], y[1..], size - 1, m);
      } else if x[0] == y[0] {
        assert a[1..] == Padded(x[1..], size - 1, m);
        assert (y + [255])[1..] == y[1..] + [255];
        LastAgainstFull(x[1..], y[1..], size - 1, m);
      }
    }
  }

  lemma EmptyLess(y: Bytes)
    ensures [] == y || Less([], y)
  {
  }

  /** Comparing x with the first n bytes of y. */
  lemma {:induction false} LessTake(x: Bytes, y: Bytes, n: nat)
    requires Less(x, y) && |x| <= n <= |y|
    ensures x == y[..n] || Less(x, y[..n])
    decreases |x|
  {
    if x == [] {
      EmptyLess(y[..n]);
    } else if x[0] == y[0] {
      LessTake(x[1..], y[1..], n - 1);
      assert y[1..][..n - 1] == y[..n][1..];
      assert x == [x[0]] + x[1..] && y[..n] == [y[0]] + y[..n][1..];
    }
  }

  /** A longer string that is less differs within the shorter one. */
  lemma {:induction false} LongerLess(x: Bytes, y: Bytes)
    requires Less(x, y) && |x| > |y|
    ensures DiffersBelow(x, y)
    decreases |y|
  {
    if x[0] == y[0] { LongerLess(x[1..], y[1..]); }
  }

  lemma {:induction false} DiffersWithin(x: Bytes, y: Bytes, n: nat)
    requires DiffersBelow(x, y) && |y| <= n <= |x|
    ensures DiffersBelow(x[..n], y)
    decreases |y|
  {
    if x[0] == y[0] {
      assert x[..n][1..] == x[1..][..n - 1];
      DiffersWithin(x[1..], y[1..], n - 1);
    }
  }

  /** Two strings longer than n: they differ within the first n bytes, or after them. */
  lemma {:induction false} LessSplit(x: Bytes, y: Bytes, n: nat)
    requires Less(x, y) && n <= |x| && n <= |y|
    ensures DiffersBelow(x[..n], y[..n]) || (x[..n] == y[..n] && Less(x[n..], y[n..]))
    decreases n
  {
    if n > 0 && x[0] == y[0] {
      LessSplit(x[1..], y[1..], n - 1);
      assert x[..n][1..] == x[1..][..n - 1] && y[..n][1..] == y[1..][..n - 1];
      assert x[..n] == [x[0]] + x[1..][..n - 1] && y[..n] == [y[0]] + y[1..][..n - 1];
      assert x[n..] == x[1..][n - 1..] && y[n..] == y[1..][n - 1..];
    }
  }

  lemma {:induction false} BlocksOrder(x: Bytes, y: Bytes, small: nat)
    requires Less(x, y) && x != [] && y != []
    ensures DiffersBelow(Blocks(x, small), Blocks(y, small))
    decreases |x|
  {
    var size := Size(small);
    if |x| <= size && |y| <= size {
      PaddedOrder(x, y, size);
      BelowMeans(Padded(x, size, |x|), Padded(y, size, |y|), Tail(x, small), Tail(y, small));
    } else if |x| <= size {
      LessTake(x, y, size);
      LastAgainstFull(x, y[..size], size, |x|);
      BelowMeans(Padded(x, size, |x|), y[..size] + [255], Tail(x, small), Blocks(y[size..], Pred(small)));
    } else if |y| <= size {
      LongerLess(x, y);
      DiffersWithin(x, y, size);
      LongAgainstShort(x, y, small);
    } else {
      BothLong(x, y, small);
    }
  }

  lemma LongAgainstShort(x: Bytes, y: Bytes, small: nat)
    requires |y| <= Size(small) < |x| && DiffersBelow(x[..Size(small)], y)
    ensures DiffersBelow(Blocks(x, small), Blocks(y, small))
  {
    var size := Size(small);
    var restX := [255] + Blocks(x[size..], Pred(small));
    var restY := Zeros(size - |y|) + [|y|] + Tail(y, small);
    BelowMeans(x[..size], y, restX, restY);
    assert Blocks(x, small) == x[..size] + restX;
    assert Blocks(y, small) == y + restY;
  }

  lemma {:induction false} BothLong(x: Bytes, y: Bytes, small: nat)
    requires Less(x, y) && |x| > Size(small) && |y| > Size(small)
    ensures DiffersBelow(Blocks(x, small), Blocks(y, small))
    decreases |x|, 0
  {
    var size := Size(small);
    var restX, restY := [255] + Blocks(x[size..], Pred(small)), [255] + Blocks(y[size..], Pred(small));
    LessSplit(x, y, size);
    assert Blocks(x, small) == x[..size] + restX && Blocks(y, small) == y[..size] + restY;
    if DiffersBelow(x[..size], y[..size]) {
      BelowMeans(x[..size], y[..size], restX, restY);
    } else {
      BlocksOrder(x[size..], y[size..], Pred(small));
      SamePrefix([255], Blocks(x[size..], Pred(small)), Blocks(y[size..], Pred(small)));
      SamePrefix(x[..size], restX, restY);
    }
  }

  /** Main result for byte strings: NULL, then the empty string, then by content. */
  lemma BlockRowOrder(x: Option<Bytes>, y: Option<Bytes>)
    requires BytesLess(x, y)
    ensures DiffersBelow(BlockRow(x), BlockRow(y))
  {
    if x.Some? && x.value != [] {
      BlocksOrder(x.value, y.value, NUMBER_OF_SMALL);
      SamePrefix([2], Blocks(x.value, NUMBER_OF_SMALL), Blocks(y.value, NUMBER_OF_SMALL));
    }
  }

  // ---------- the encoder ----------

  /** What the loop of write-blocks still has to write at idx, with blockIdx bytes in the block. */
  function Rest(x: Bytes, idx: nat, end: nat, blockIdx: nat, size: nat): Bytes
    requires idx <= end <= |x| && blockIdx <= size
    decreases end - idx
  {
    if idx == end then if idx == |x| then Zeros(size - blockIdx) + [blockIdx] else []
    else if idx + 1 < |x| && blockIdx + 1 == size then [x[idx], 255] + Rest(x, idx + 1, end, 0, size)
    else [x[idx]] + Rest(x, idx + 1, end, if blockIdx < size then blockIdx + 1 else blockIdx, size)
  }

  /** A full block with more content to come. */
  lemma {:induction false} FullBlock(x: Bytes, idx: nat, end: nat, blockIdx: nat, size: nat)
    requires blockIdx < size && idx + (size - blockIdx) <= end <= |x| && idx + (size - blockIdx) < |x|
    ensures var next := idx + (size - blockIdx);
            Rest(x, idx, end, blockIdx, size) == x[idx..next] + [255] + Rest(x, next, end, 0, size)
    decreases size - blockIdx
  {
    if blockIdx + 1 < size {
      FullBlock(x, idx + 1, end, blockIdx + 1, size);
      assert x[idx..idx + (size - blockIdx)] == [x[idx]] + x[idx + 1..idx + (size - blockIdx)];
    } else {
      assert x[idx..idx + 1] == [x[idx]];
    }
  }

  lemma {:induction false} LastBlock(x: Bytes, idx: nat, blockIdx: nat, size: nat)
    requires idx <= |x| && blockIdx + (|x| - idx) <= size
    ensures var n := blockIdx + (|x| - idx);
            Rest(x, idx, |x|, blockIdx, size) == x[idx..] + Zeros(size - n) + [n]
    decreases |x| - idx
  {
    if idx < |x| {
      LastBlock(x, idx + 1, blockIdx + 1, size);
      assert x[idx..] == [x[idx]] + x[idx + 1..];
    } else {
      assert x[idx..] == [];
    }
  }

  /** The large blocks from idx on. */
  lemma {:induction false} LargeBlocks(x: Bytes, idx: nat)
    requires idx < |x|
    ensures Rest(x, idx, |x|, 0, LARGE) == Blocks(x[idx..], 0)
    decreases |x| - idx
  {
    if |x| - idx > LARGE {
      FullBlock(x, idx, |x|, 0, LARGE);
      LargeBlocks(x, idx + LARGE);
      assert x[idx..][..LARGE] == x[idx..idx + LARGE] && x[idx..][LARGE..] == x[idx + LARGE..];
    } else {
      LastBlock(x, idx, 0, LARGE);
    }
  }

  function Min(a: nat, b: nat): nat { if a < b then a else b }

  /** What the call for the large blocks writes, which is an empty one for a string of 32 bytes. */
  function Large(x: Bytes): Bytes {
    if |x| >= 32 then Rest(x, 32, |x|, 0, LARGE) else []
  }

  /** Both calls together, with k small blocks left. */
  lemma {:induction false} SmallBlocks(x: Bytes, idx: nat, k: nat)
    requires 1 <= k <= NUMBER_OF_SMALL && idx == (NUMBER_OF_SMALL - k) * SMALL && idx < |x|
    ensures Rest(x, idx, Min(32, |x|), 0, SMALL) + Large(x) == Blocks(x[idx..], k)
    decreases k
  {
    hide Rest, Large, Blocks;
    if |x| - idx > SMALL {
      if k > 1 {
        SmallBlocks(x, idx + SMALL, k - 1);
      } else {
        OnlyLarge(x);
      }
      SmallStep(x, idx, k);
    } else {
      LastSmall(x, idx, k);
    }
  }

  lemma SmallStep(x: Bytes, idx: nat, k: nat)
    requires 1 <= k <= NUMBER_OF_SMALL && idx == (NUMBER_OF_SMALL - k) * SMALL && |x| - idx > SMALL
    requires Rest(x, idx + SMALL, Min(32, |x|), 0, SMALL) + Large(x) == Blocks(x[idx + SMALL..], k - 1)
    ensures Rest(x, idx, Min(32, |x|), 0, SMALL) + Large(x) == Blocks(x[idx..], k)
  {
    hide Rest, Large, Blocks;
    FullBlock(x, idx, Min(32, |x|), 0, SMALL);
    MoreBlocks(x[idx..], k);
    assert x[idx..][..SMALL] == x[idx..idx + SMALL] && x[idx..][SMALL..] == x[idx + SMALL..];
  }

  lemma MoreBlocks(x: Bytes, small: nat)
    requires |x| > Size(small)
    ensures Blocks(x, small) == x[..Size(small)] + [255] + Blocks(x[Size(small)..], Pred(small))
  {
  }

  lemma OnlyLarge(x: Bytes)
    requires |x| > 32
    ensures Rest(x, 32, Min(32, |x|), 0, SMALL) + Large(x) == Blocks(x[32..], 0)
  {
    LargeBlocks(x, 32);
    assert Rest(x, 32, 32, 0, SMALL) == [];
  }

  lemma LastSmall(x: Bytes, idx: nat, k: nat)
    requires 1 <= k <= NUMBER_OF_SMALL && idx == (NUMBER_OF_SMALL - k) * SMALL && idx < |x| <= idx + SMALL
    ensures Rest(x, idx, Min(32, |x|), 0, SMALL) + Large(x) == Blocks(x[idx..], k)
  {
    LastBlock(x, idx, 0, SMALL);
    if |x| == 32 {
      LastBlock(x, 32, 0, LARGE);
      assert x[32..] == [];
    }
  }

  /** write-blocks */
  method WriteBlocks(row: Bytes, x: Bytes, start: nat, end: nat, size: nat) returns (r: Bytes)
    requires size > 0 && end <= |x|
    ensures r == row + if start <= end then Rest(x, start, end, 0, size) else []
  {
    r := row;
    if start > end { return; }
    var blockIdx: nat := 0;
    var idx: nat := start;
    while idx < end
      invariant start <= idx <= end && blockIdx <= size
      invariant blockIdx == size ==> idx == |x|
      invariant r + Rest(x, idx, end, blockIdx, size) == row + Rest(x, start, end, 0, size)
    {
      r := r + [x[idx]];
      blockIdx := blockIdx + 1;
      if idx + 1 < |x| && blockIdx == size {
        r := r + [255];
        blockIdx := 0;
      }
      idx := idx + 1;
    }
    if idx == |x| {
      var pad := size - blockIdx;
      var written := size - pad;
      for n := 0 to pad
        invariant r + Zeros(pad - n) + [written] == row + Rest(x, start, end, 0, size)
      {
        ZerosStep(pad - n);
        r := r + [0];
      }
      r := r + [written];
    }
  }

  /** %block-encoded-row, proved against the block-wise definition. */
  method BlockEncodedRow(x: Option<Bytes>) returns (row: Bytes)
    ensures row == BlockRow(x)
  {
    hide Rest, Blocks;
    match x
    case None => row := [0];
    case Some(s) =>
      if |s| == 0 { return [1]; }
      row := [2];
      row := WriteBlocks(row, s, 0, Min(32, |s|), SMALL);
      row := WriteBlocks(row, s, 32, |s|, LARGE);
      SmallBlocks(s, 0, NUMBER_OF_SMALL);
      assert s[0..] == s;
  }

  // ---------- rows of structs ----------

  /** A struct row is a validity byte and the rows of its columns. */
  datatype Cell = IntCell(n: Option<int>) | BytesCell(bytes: Option<Bytes>) | StructCell(valid: bool, cells: seq<Cell>)

  predicate CellOk(c: Cell) {
    match c
    case IntCell(n) => n.Some? ==> Int64(n.value)
    case BytesCell(_) => true
    case StructCell(_, cells) => forall i | 0 <= i < |cells| :: CellOk(cells[i])
  }

  function CellRow(c: Cell): Bytes
    requires CellOk(c)
    decreases c, 0
  {
    match c
    case IntCell(n) => IntRow(n)
    case BytesCell(bytes) => BlockRow(bytes)
    case StructCell(valid, cells) => [if valid then 1 else 0] + CellRows(cells)
  }

  function CellRows(cells: seq<Cell>): Bytes
    requires forall i | 0 <= i < |cells| :: CellOk(cells[i])
    decreases cells, 1
  {
    if cells == [] then [] else CellRow(cells[0]) + CellRows(cells[1..])
  }

  /** Values of the same columns. */
  predicate SameColumns(a: Cell, b: Cell) {
    match a
    case IntCell(_) => b.IntCell?
    case BytesCell(_) => b.BytesCell?
    case StructCell(_, cells) => b.StructCell? && |b.cells| == |cells| && forall i | 0 <= i < |cells| ::
        SameColumns(cells[i], b.cells[i])
  }

  /** Field by field, the first difference decides. */
  predicate CellLess(a: Cell, b: Cell)
    requires SameColumns(a, b)
    decreases a, 0
  {
    match a
    case IntCell(n) => IntLess(n, b.n)
    case BytesCell(bytes) => BytesLess(bytes, b.bytes)
    case StructCell(valid, cells) => (!valid && b.valid) || (valid == b.valid && CellsLess(cells, b.cells))
  }

  predicate CellsLess(a: seq<Cell>, b: seq<Cell>)
    requires |a| == |b| && forall i | 0 <= i < |a| :: SameColumns(a[i], b[i])
    decreases a, 1
  {
    a != [] && (CellLess(a[0], b[0]) || (a[0] == b[0] && CellsLess(a[1..], b[1..])))
  }

  lemma {:induction false} CellOrder(a: Cell, b: Cell)
    requires CellOk(a) && CellOk(b) && SameColumns(a, b) && CellLess(a, b)
    ensures DiffersBelow(CellRow(a), CellRow(b))
    decreases a, 0
  {
    match a {
      case IntCell(n) => IntRowOrder(n, b.n);
      case BytesCell(bytes) => BlockRowOrder(bytes, b.bytes);
      case StructCell(valid, cells) =>
        if valid == b.valid {
          CellsOrder(cells, b.cells);
          SamePrefix([if valid then 1 else 0], CellRows(cells), CellRows(b.cells));
        }
    }
  }

  lemma {:induction false} CellsOrder(a: seq<Cell>, b: seq<Cell>)
    requires |a| == |b| && forall i | 0 <= i < |a| :: CellOk(a[i]) && CellOk(b[i]) && SameColumns(a[i], b[i])
    requires CellsLess(a, b)
    ensures DiffersBelow(CellRows(a), CellRows(b))
    decreases a, 1
  {
    if CellLess(a[0], b[0]) {
      CellOrder(a[0], b[0]);
      BelowMeans(CellRow(a[0]), CellRow(b[0]), CellRows(a[1..]), CellRows(b[1..]));
    } else {
      CellsOrder(a[1..], b[1..]);
      SamePrefix(CellRow(a[0]), CellRows(a[1..]), CellRows(b[1..]));
    }
  }

  lemma {:induction false} CellTotal(a: Cell, b: Cell)
    requires SameColumns(a, b)
    ensures a == b || CellLess(a, b) || (SameColumns(b, a) && CellLess(b, a))
    decreases a, 0
  {
    Symmetric(a, b);
    match a {
      case IntCell(_) =>
      case BytesCell(bytes) => if bytes.Some? && b.bytes.Some? { LessTotal(bytes.value, b.bytes.value); }
      case StructCell(valid, cells) => CellsTotal(cells, b.cells);
    }
  }

  lemma {:induction false} Symmetric(a: Cell, b: Cell)
    requires SameColumns(a, b)
    ensures SameColumns(b, a)
  {
    if a.StructCell? {
      forall i | 0 <= i < |a.cells| ensures SameColumns(b.cells[i], a.cells[i]) { Symmetric(a.cells[i], b.cells[i]); }
    }
  }

  lemma {:induction false} CellsTotal(a: seq<Cell>, b: seq<Cell>)
    requires |a| == |b| && forall i | 0 <= i < |a| :: SameColumns(a[i], b[i])
    ensures forall i | 0 <= i < |a| :: SameColumns(b[i], a[i])
    ensures a == b || CellsLess(a, b) || CellsLess(b, a)
    decreases a, 1
  {
    forall i | 0 <= i < |a| ensures SameColumns(b[i], a[i]) { Symmetric(a[i], b[i]); }
    if a != [] {
      CellTotal(a[0], b[0]);
      CellsTotal(a[1..], b[1..]);
      assert a == [a[0]] + a[1..] && b == [b[0]] + b[1..];
    }
  }

  /** Main result: for values of the same columns, the order of the encodings is the order of the
      values, different values have different encodings, and none is a prefix of another. */
  lemma RowsCompare(a: Cell, b: Cell)
    requires CellOk(a) && CellOk(b) && SameColumns(a, b)
    ensures Less(CellRow(a), CellRow(b)) <==> CellLess(a, b)
    ensures CellRow(a) <= CellRow(b) ==> a == b
  {
    Symmetric(a, b);
    CellTotal(a, b);
    LessTotal(CellRow(a), CellRow(b));
    if CellLess(a, b) {
      CellOrder(a, b);
      BelowMeans(CellRow(a), CellRow(b), [], []);
      assert CellRow(a) + [] == CellRow(a) && CellRow(b) + [] == CellRow(b);
    } else if a != b {
      CellOrder(b, a);
      BelowMeans(CellRow(b), CellRow(a), [], []);
      assert CellRow(a) + [] == CellRow(a) && CellRow(b) + [] == CellRow(b);
    }
  }
}
