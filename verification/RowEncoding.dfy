/** Row encodings: comparing the bytes of two encoded values is comparing the values. Every proof goes
    through DiffersBelow, which also says that neither encoding is a prefix of the other. */
module RowEncoding {
  import opened Wrappers

  type Bytes = seq<nat>

  predicate AreBytes(x: Bytes) {
    forall b | b in x :: b < 256
  }

  /** Byte-lexicographic order, a prefix first. */
  predicate Less(a: Bytes, b: Bytes) {
    b != [] && (a == [] || a[0] < b[0] || (a[0] == b[0] && Less(a[1..], b[1..])))
  }

  /** At the first place where they differ, both have a byte and a's is smaller. */
  predicate DiffersBelow(a: Bytes, b: Bytes) {
    a != [] && b != [] && (a[0] < b[0] || (a[0] == b[0] && DiffersBelow(a[1..], b[1..])))
  }

  /** What DiffersBelow gives: order, distinctness and no prefix, whatever follows the two. */
  lemma {:induction false} BelowMeans(a: Bytes, b: Bytes, x: Bytes, y: Bytes)
    requires DiffersBelow(a, b)
    ensures DiffersBelow(a + x, b + y) && Less(a + x, b + y) && !Less(b + y, a + x)
    ensures !(a <= b) && !(b <= a)
  {
    assert (a + x)[1..] == a[1..] + x && (b + y)[1..] == b[1..] + y;
    if a[0] == b[0] {
      BelowMeans(a[1..], b[1..], x, y);
    }
  }

  lemma {:induction false} SamePrefix(p: Bytes, a: Bytes, b: Bytes)
    requires DiffersBelow(a, b)
    ensures DiffersBelow(p + a, p + b)
  {
    if p == [] {
      assert p + a == a && p + b == b;
    } else {
      assert (p + a)[1..] == p[1..] + a && (p + b)[1..] == p[1..] + b;
      SamePrefix(p[1..], a, b);
    }
  }

  lemma {:induction false} LessTotal(a: Bytes, b: Bytes)
    ensures Less(a, b) || Less(b, a) || a == b
    ensures !(Less(a, b) && Less(b, a)) && !Less(a, a)
  {
    if a != [] && b != [] {
      LessTotal(a[1..], b[1..]);
      assert a == [a[0]] + a[1..] && b == [b[0]] + b[1..];
    }
    if a != [] { LessTotal(a[1..], a[1..]); }
  }

  // ---------- 64-bit integers ----------

  predicate Int64(x: int) {
    -0x8000_0000_0000_0000 <= x < 0x8000_0000_0000_0000
  }

  /** The n lowest bytes of u, the highest first. */
  function BigEndian(u: nat, n: nat): (r: Bytes)
    ensures |r| == n && AreBytes(r)
  {
    if n == 0 then [] else BigEndian(u / 256, n - 1) + [u % 256]
  }

  function Power256(n: nat): nat {
    if n == 0 then 1 else 256 * Power256(n - 1)
  }

  lemma {:induction false} BigEndianOrder(u: nat, w: nat, n: nat)
    requires u < w < Power256(n)
    ensures DiffersBelow(BigEndian(u, n), BigEndian(w, n))
  {
    if u / 256 == w / 256 {
      SamePrefix(BigEndian(u / 256, n - 1), [u % 256], [w % 256]);
    } else {
      BigEndianOrder(u / 256, w / 256, n - 1);
      BelowMeans(BigEndian(u / 256, n - 1), BigEndian(w / 256, n - 1), [u % 256], [w % 256]);
    }
  }

  const ZEROS8: Bytes := [0, 0, 0, 0, 0, 0, 0, 0]

  /** NULL is nine zeros. */
  function IntRow(x: Option<int>): Bytes
    requires x.Some? ==> Int64(x.value)
  {
    match x
    case None => [0] + ZEROS8
    case Some(n) => [1] + BigEndian(n + 0x8000_0000_0000_0000, 8)
  }

  /** The number that bytes stand for, the highest first. */
  function Number(bs: Bytes): nat {
    if bs == [] then 0 else 256 * Number(bs[..|bs| - 1]) + bs[|bs| - 1]
  }

  lemma {:induction false} BigEndianReads(u: nat, n: nat)
    requires u < Power256(n)
    ensures Number(BigEndian(u, n)) == u
  {
    if n > 0 {
      BigEndianReads(u / 256, n - 1);
      assert BigEndian(u, n)[..n - 1] == BigEndian(u / 256, n - 1);
    }
  }

  /** Nine bytes that can be read back: a validity byte, then the number with its sign flipped. */
  lemma IntRowReads(x: Option<int>)
    requires x.Some? ==> Int64(x.value)
    ensures |IntRow(x)| == 9 && AreBytes(IntRow(x))
    ensures if x.Some? then IntRow(x)[0] == 1 && Number(IntRow(x)[1..]) == x.value + 0x8000_0000_0000_0000
            else forall i | 0 <= i < 9 :: IntRow(x)[i] == 0
  {
    if x.Some? {
      SixtyFourBits();
      BigEndianReads(x.value + 0x8000_0000_0000_0000, 8);
      assert IntRow(x)[1..] == BigEndian(x.value + 0x8000_0000_0000_0000, 8);
    }
  }

  lemma SixtyFourBits()
    ensures Power256(8) == 0x1_0000_0000_0000_0000
  {
    assert Power256(4) == 0x1_0000_0000;
  }

  predicate IntLess(x: Option<int>, y: Option<int>) {
    y.Some? && (x.None? || x.value < y.value)
  }

  lemma IntRowOrder(x: Option<int>, y: Option<int>)
    requires x.Some? ==> Int64(x.value)
    requires y.Some? ==> Int64(y.value)
    requires IntLess(x, y)
    ensures DiffersBelow(IntRow(x), IntRow(y))
  {
    if x.Some? {
      SixtyFourBits();
      BigEndianOrder(x.value + 0x8000_0000_0000_0000, y.value + 0x8000_0000_0000_0000, 8);
      SamePrefix([1], BigEndian(x.value + 0x8000_0000_0000_0000, 8), BigEndian(y.value + 0x8000_0000_0000_0000, 8));
    }
  }

  /** ldb (byte 8 position), for the sign-flipped number. */
  function Ldb(u: nat, power: nat): nat
    requires power > 0
  {
    u / power % 256
  }

  method Int64RowEncode(row: array<nat>, x: int)
    requires row.Length == 9 && Int64(x)
    modifies row
    ensures row[..] == IntRow(Some(x))
  {
    var u: nat := x + 0x8000_0000_0000_0000;
    row[0] := 1;
    row[1] := Ldb(u, 0x100_0000_0000_0000);
    row[2] := Ldb(u, 0x1_0000_0000_0000);
    row[3] := Ldb(u, 0x100_0000_0000);
    row[4] := Ldb(u, 0x1_0000_0000);
    row[5] := Ldb(u, 0x100_0000);
    row[6] := Ldb(u, 0x1_0000);
    row[7] := Ldb(u, 0x100);
    row[8] := Ldb(u, 1);
    EightBytes(u);
    assert row[..] == [1] + BigEndian(u, 8);
  }

  lemma EightBytes(u: nat)
    ensures BigEndian(u, 8) == [Ldb(u, 0x100_0000_0000_0000), Ldb(u, 0x1_0000_0000_0000), Ldb(u, 0x100_0000_0000),
                                Ldb(u, 0x1_0000_0000), Ldb(u, 0x100_0000), Ldb(u, 0x1_0000), Ldb(u, 0x100), Ldb(u, 1)]
  {
    hide BigEndian, Ldb;
    FourBytes(u);
    FourBytes(u / 0x1_0000_0000);
    HighFour(u);
    LdbHigh(u);
  }

  lemma LdbHigh(u: nat)
    ensures Ldb(u / 0x1_0000_0000, 0x100_0000) == Ldb(u, 0x100_0000_0000_0000)
    ensures Ldb(u / 0x1_0000_0000, 0x1_0000) == Ldb(u, 0x1_0000_0000_0000)
    ensures Ldb(u / 0x1_0000_0000, 0x100) == Ldb(u, 0x100_0000_0000)
    ensures Ldb(u / 0x1_0000_0000, 1) == Ldb(u, 0x1_0000_0000)
  {
  }

  lemma FourBytes(u: nat)
    ensures BigEndian(u, 4) == [Ldb(u, 0x100_0000), Ldb(u, 0x1_0000), Ldb(u, 0x100), Ldb(u, 1)]
  {
    assert u / 256 / 256 == u / 0x1_0000 && u / 256 / 256 / 256 == u / 0x100_0000;
    assert BigEndian(u / 0x100_0000, 1) == [u / 0x100_0000 % 256];
    assert BigEndian(u / 0x1_0000, 2) == [u / 0x100_0000 % 256, u / 0x1_0000 % 256];
    assert BigEndian(u / 256, 3) == [u / 0x100_0000 % 256, u / 0x1_0000 % 256, u / 256 % 256];
  }

  lemma HighFour(u: nat)
    ensures BigEndian(u, 8) == BigEndian(u / 0x1_0000_0000, 4) + BigEndian(u, 4)
  {
    hide BigEndian;
    var a, b, c := u / 256, u / 0x1_0000, u / 0x100_0000;
    assert a / 256 == b && b / 256 == c && c / 256 == u / 0x1_0000_0000;
    TopBytes(u, 8); TopBytes(a, 7); TopBytes(b, 6); TopBytes(c, 5);
    TopBytes(u, 4); TopBytes(a, 3); TopBytes(b, 2); TopBytes(c, 1);
    NoBytes(c / 256);
  }

  lemma TopBytes(u: nat, n: nat)
    requires n > 0
    ensures BigEndian(u, n) == BigEndian(u / 256, n - 1) + [u % 256]
  {
  }

  lemma NoBytes(u: nat)
    ensures BigEndian(u, 0) == []
  {
  }
}
