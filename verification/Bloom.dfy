/** The split block bloom filter over its byte array: every bit index is in bounds, inserts only set the
    bits of what is inserted, and nothing inserted is ever reported missing. */
module Bloom {

  const WORD: nat := 0x1_0000_0000

  function Salt(i: nat): nat
    requires i < 8
  {
    [0x47b6137b, 0x44974d91, 0x8824ad5b, 0xa2b7289d, 0x705495c7, 0x2df1424b, 0x9efc4947, 0x5c6bfb31][i]
  }

  /** Bits for so many values at a fill ratio of num / den: whole blocks of 256. */
  function BitSize(expectedSize: nat, num: nat, den: nat): nat
    requires num > 0
  {
    256 * ((expectedSize * den + 256 * num - 1) / (256 * num))
  }

  /** The least number of whole blocks that holds expectedSize / fillRatio bits. */
  lemma SizeIsLeast(expectedSize: nat, num: nat, den: nat)
    requires num > 0
    ensures var bits := BitSize(expectedSize, num, den);
            && bits % 256 == 0 && bits * num >= expectedSize * den
            && (bits > 0 ==> (bits - 256) * num < expectedSize * den)
  {
    var total, unit := expectedSize * den, 256 * num;
    var q := (total + unit - 1) / unit;
    assert q * unit <= total + unit - 1 < q * unit + unit;
    assert q * unit == 256 * q * num;
    if q > 0 { assert (256 * q - 256) * num == q * unit - unit; }
  }

  /** The number of blocks is the byte length shifted by 8, not by 5. */
  function NumberOfBlocks(length: nat): nat {
    length / 256
  }

  function BlockIdx(length: nat, x: nat): nat {
    (x / WORD % WORD) * NumberOfBlocks(length) / WORD % WORD
  }

  /** The bit that word i of the block sets for x. */
  function ElementIdx(length: nat, i: nat, x: nat): nat
    requires i < 8
  {
    BlockIdx(length, x) * 256 + i * 32 + (x % WORD * Salt(i)) % WORD / 0x800_0000
  }

  function Mask(bit: nat): bv8
    requires bit < 8
  {
    [1, 2, 4, 8, 16, 32, 64, 128][bit]
  }

  predicate BitSet(filter: seq<bv8>, e: nat) {
    e / 8 < |filter| && filter[e / 8] & Mask(e % 8) != 0
  }

  /** All eight bits of x are set. */
  predicate Contains(filter: seq<bv8>, x: nat) {
    forall i: nat | i < 8 :: BitSet(filter, ElementIdx(|filter|, i, x))
  }

  predicate Sized(length: nat) {
    length > 0 && length % 32 == 0
  }

  // ---------- bounds ----------

  /** The blocks share the upper halves of the hashes out evenly, in order. */
  lemma BlockShare(length: nat, x: nat, b: nat)
    requires x < WORD * WORD && NumberOfBlocks(length) <= WORD
    ensures BlockIdx(length, x) == b
            <==> b * WORD <= (x / WORD) * NumberOfBlocks(length) < (b + 1) * WORD
  {
    DivBelow(x, WORD, WORD);
    ProductAtMost(x / WORD, NumberOfBlocks(length), WORD);
    ProductBelow(x / WORD, WORD, WORD);
    hide NumberOfBlocks;
    Quotient((x / WORD) * NumberOfBlocks(length), WORD, b);
  }

  lemma Quotient(p: nat, w: nat, b: nat)
    requires w > 0 && p < w * w
    ensures p / w % w == b <==> b * w <= p < (b + 1) * w
  {
    DivBelow(p, w, w);
    SmallMod(p / w, w);
    DivIs(p, w, b);
  }

  lemma SmallMod(q: nat, w: nat)
    requires q < w
    ensures q % w == q
  {
  }

  lemma DivBelow(p: nat, w: nat, q: nat)
    requires w > 0 && p < q * w
    ensures p / w < q
  {
    if p / w >= q { ProductAtMost(w, q, p / w); }
  }

  lemma ProductAtMost(a: nat, b: nat, c: nat)
    requires b <= c
    ensures a * b <= a * c
  {
  }

  lemma DivIs(p: nat, w: nat, b: nat)
    requires w > 0
    ensures p / w == b <==> b * w <= p < (b + 1) * w
  {
    var q := p / w;
    assert q * w <= p < q * w + w;
    assert (b + 1) * w == b * w + w;
    if b < q { ProductAtMost(w, b + 1, q); }
    if q < b { ProductAtMost(w, q + 1, b); }
  }

  lemma BlockInBounds(length: nat, x: nat)
    ensures BlockIdx(length, x) <= NumberOfBlocks(length)
    ensures NumberOfBlocks(length) > 0 ==> BlockIdx(length, x) < NumberOfBlocks(length)
  {
    var hi, blocks := x / WORD % WORD, NumberOfBlocks(length);
    if blocks > 0 {
      ProductBelow(hi, WORD, blocks);
      QuotientBelow(hi * blocks, blocks);
    } else {
      assert hi * blocks == 0;
    }
  }

  lemma ProductBelow(a: nat, b: nat, c: nat)
    requires a < b && c > 0
    ensures a * c < b * c
  {
  }

  lemma QuotientBelow(p: nat, blocks: nat)
    requires p < WORD * blocks
    ensures p / WORD % WORD <= p / WORD < blocks
  {
  }

  /** Every bit index is inside the filter, and the filters made for a positive size are of that kind. */
  lemma InBounds(length: nat, i: nat, x: nat)
    requires Sized(length) && i < 8
    ensures ElementIdx(length, i, x) / 8 < length
  {
    BlockInBounds(length, x);
    var low := (x % WORD * Salt(i)) % WORD;
    assert low / 0x800_0000 < 32;
    assert length >= 32;
  }

  /** The eight bits of a value lie in one block of 256, one in each of its eight words. */
  lemma OneBitPerWord(length: nat, i: nat, x: nat)
    requires i < 8
    ensures ElementIdx(length, i, x) / 256 == BlockIdx(length, x)
    ensures ElementIdx(length, i, x) % 256 / 32 == i
  {
    var low := (x % WORD * Salt(i)) % WORD / 0x800_0000;
    assert low < 32;
    assert ElementIdx(length, i, x) == 256 * BlockIdx(length, x) + (i * 32 + low);
    InBlock(BlockIdx(length, x), i * 32 + low);
  }

  lemma InBlock(block: nat, rest: nat)
    requires rest < 256
    ensures (256 * block + rest) / 256 == block && (256 * block + rest) % 256 == rest
  {
  }

  /** So a value sets eight different bits. */
  lemma EightBits(length: nat, i: nat, j: nat, x: nat)
    requires i < j < 8
    ensures ElementIdx(length, i, x) != ElementIdx(length, j, x)
  {
    OneBitPerWord(length, i, x);
    OneBitPerWord(length, j, x);
  }

  lemma MadeSized(expectedSize: nat, num: nat, den: nat)
    requires expectedSize > 0 && num > 0 && den > 0
    ensures Sized(BitSize(expectedSize, num, den) / 8)
  {
    var total, unit := expectedSize * den, 256 * num;
    assert total >= 1;
    assert (total + unit - 1) / unit >= 1 by {
      assert total + unit - 1 >= unit;
      DivAtLeastOne(total + unit - 1, unit);
    }
  }

  lemma DivAtLeastOne(a: nat, b: nat)
    requires 0 < b <= a
    ensures a / b >= 1
  {
  }

  // ---------- bits ----------

  lemma Masks(b: bv8, i: nat, j: nat)
    requires i < 8 && j < 8
    ensures (b | Mask(i)) & Mask(j) != 0 <==> i == j || b & Mask(j) != 0
  {
    OneMask(b, Mask(i), Mask(j));
    if i == j { SameMask(b, Mask(i)); } else { OtherMask(i, j); }
  }

  lemma OneMask(b: bv8, m: bv8, k: bv8)
    ensures (b | m) & k == (b & k) | (m & k)
  {
  }

  lemma SameMask(b: bv8, m: bv8)
    requires m != 0
    ensures (b | m) & m == m
  {
  }

  lemma OtherMask(i: nat, j: nat)
    requires i < 8 && j < 8 && i != j
    ensures Mask(i) & Mask(j) == 0
  {
    var m, k := Mask(i), Mask(j);
    assert m == 1 || m == 2 || m == 4 || m == 8 || m == 16 || m == 32 || m == 64 || m == 128;
    assert k == 1 || k == 2 || k == 4 || k == 8 || k == 16 || k == 32 || k == 64 || k == 128;
    assert m != k;
  }

  /** One bit set. */
  function WithBit(filter: seq<bv8>, e: nat): seq<bv8>
    requires e / 8 < |filter|
  {
    filter[e / 8 := filter[e / 8] | Mask(e % 8)]
  }

  lemma WithBitSets(filter: seq<bv8>, e: nat, e': nat)
    requires e / 8 < |filter|
    ensures BitSet(WithBit(filter, e), e') <==> e' == e || BitSet(filter, e')
  {
    if e' / 8 == e / 8 {
      Masks(filter[e / 8], e % 8, e' % 8);
      assert e' == e <==> e' % 8 == e % 8;
    }
  }

  // ---------- operations ----------

  method MakeSbbf(expectedSize: nat, num: nat, den: nat) returns (filter: array<bv8>)
    requires num > 0
    ensures fresh(filter) && filter.Length == BitSize(expectedSize, num, den) / 8
    ensures forall e: nat :: !BitSet(filter[..], e)
    ensures expectedSize > 0 && den > 0 ==> Sized(filter.Length)
  {
    if expectedSize > 0 && den > 0 { MadeSized(expectedSize, num, den); }
    filter := new bv8[BitSize(expectedSize, num, den) / 8](_ => 0);
  }

  /** Exactly the bits of x are set in addition. */
  method Insert(filter: array<bv8>, x: nat)
    requires Sized(filter.Length)
    modifies filter
    ensures forall e: nat :: BitSet(filter[..], e) <==>
              BitSet(old(filter[..]), e) || exists i: nat | i < 8 :: e == ElementIdx(filter.Length, i, x)
    ensures Contains(filter[..], x)
    ensures forall y :: Contains(old(filter[..]), y) ==> Contains(filter[..], y)
  {
    hide BitSet, ElementIdx;
    ghost var before := filter[..];
    for i := 0 to 8
      invariant forall e: nat :: BitSet(filter[..], e) <==>
                  BitSet(before, e) || exists j: nat | j < i :: e == ElementIdx(filter.Length, j, x)
    {
      InBounds(filter.Length, i, x);
      var elementIdx := ElementIdx(filter.Length, i, x);
      var byteIdx, bitIdx := elementIdx / 8, elementIdx % 8;
      ghost var was := filter[..];
      filter[byteIdx] := filter[byteIdx] | Mask(bitIdx);
      assert filter[..] == WithBit(was, elementIdx);
      forall e: nat ensures BitSet(filter[..], e) <==> e == elementIdx || BitSet(was, e) { WithBitSets(was,
          elementIdx, e); }
    }
  }

  /** A missing filter contains nothing. */
  method Check(filter: array?<bv8>, x: nat) returns (found: bool)
    requires filter != null ==> Sized(filter.Length)
    ensures found <==> filter != null && Contains(filter[..], x)
  {
    if filter == null { return false; }
    for i := 0 to 8
      invariant forall j: nat | j < i :: BitSet(filter[..], ElementIdx(filter.Length, j, x))
    {
      InBounds(filter.Length, i, x);
      var elementIdx := ElementIdx(filter.Length, i, x);
      if filter[elementIdx / 8] & Mask(elementIdx % 8) == 0 {
        assert !BitSet(filter[..], ElementIdx(filter.Length, i, x));
        return false;
      }
    }
    found := true;
  }

  /** Main result: after any sequence of inserts there are no false negatives, and no bit is set that
      no inserted value accounts for. */
  method BuildFilter(xs: seq<nat>, expectedSize: nat) returns (filter: array<bv8>)
    requires expectedSize > 0
    ensures fresh(filter) && Sized(filter.Length)
    ensures forall x | x in xs :: Contains(filter[..], x)
    ensures forall e: nat | BitSet(filter[..], e) :: exists x, i: nat | x in xs && i < 8 ::
        e == ElementIdx(filter.Length, i, x)
  {
    hide BitSet, ElementIdx, Contains;
    filter := MakeSbbf(expectedSize, 1, 10);
    for k := 0 to |xs|
      invariant Sized(filter.Length) && fresh(filter)
      invariant forall x | x in xs[..k] :: Contains(filter[..], x)
      invariant forall e: nat | BitSet(filter[..], e) :: exists x, i: nat | x in xs[..k] && i < 8 ::
          e == ElementIdx(filter.Length, i, x)
    {
      ghost var was := filter[..];
      Insert(filter, xs[k]);
      assert xs[..k + 1] == xs[..k] + [xs[k]];
      forall e: nat | BitSet(filter[..], e)
        ensures exists x, i: nat | x in xs[..k + 1] && i < 8 :: e == ElementIdx(filter.Length, i, x)
      {
        if BitSet(was, e) {
          var x, i: nat :| x in xs[..k] && i < 8 && e == ElementIdx(filter.Length, i, x);
          assert x in xs[..k + 1];
        } else {
          var i: nat :| i < 8 && e == ElementIdx(filter.Length, i, xs[k]);
          assert xs[k] in xs[..k + 1];
        }
      }
    }
    assert xs[..|xs|] == xs;
  }
}
