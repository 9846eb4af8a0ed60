/** Packed bits: bytes are 8-bit vectors, bit k of a byte has weight 2^k. */
module Bits {

  type byte = bv8
  type bytes = seq<bv8>

  /** 1 << k */
  function BitMask(k: nat): byte
    requires k < 8
  {
    match k
    case 0 => 0x01
    case 1 => 0x02
    case 2 => 0x04
    case 3 => 0x08
    case 4 => 0x10
    case 5 => 0x20
    case 6 => 0x40
    case _ => 0x80
  }

  /** ((b >> k) & 1) == 1 */
  predicate Bit(b: byte, k: nat)
    requires k < 8
  {
    b & BitMask(k) != 0
  }

  /** 0xFF for a set bit, 0x00 for a clear one. */
  function MaskOf(bit: bool): byte { if bit then 0xFF else 0x00 }

  predicate BitAt(s: bytes, i: nat)
    requires i < 8 * |s|
  {
    Bit(s[i / 8], i % 8)
  }

  lemma ByteBitAt(s: bytes, b: nat, k: nat)
    requires b < |s| && k < 8
    ensures BitAt(s, 8 * b + k) == Bit(s[b], k)
  {
    hide Bit;
    assert (8 * b + k) / 8 == b && (8 * b + k) % 8 == k;
  }

  lemma BitXor(a: byte, b: byte, k: nat)
    requires k < 8
    ensures Bit(a ^ b, k) == (Bit(a, k) != Bit(b, k))
  {
    match k { case 0 => case 1 => case 2 => case 3 => case 4 => case 5 => case 6 => case _ => }
  }

  lemma BitAnd(a: byte, b: byte, k: nat)
    requires k < 8
    ensures Bit(a & b, k) == (Bit(a, k) && Bit(b, k))
  {
    var m := BitMask(k);
    SingleBit(a, k);
    SingleBit(b, k);
    assert (a & b) & m == (a & m) & (b & m);
    MaskNonZero(k);
  }

  lemma SingleBit(a: byte, k: nat)
    requires k < 8
    ensures a & BitMask(k) == 0 || a & BitMask(k) == BitMask(k)
  {
    match k { case 0 => case 1 => case 2 => case 3 => case 4 => case 5 => case 6 => case _ => }
  }

  lemma MaskNonZero(k: nat)
    requires k < 8
    ensures BitMask(k) != 0 && BitMask(k) & BitMask(k) == BitMask(k)
  {
    match k { case 0 => case 1 => case 2 => case 3 => case 4 => case 5 => case 6 => case _ => }
  }

  lemma BitMaskOf(a: byte, bit: bool, k: nat)
    requires k < 8
    ensures Bit(a & MaskOf(bit), k) == (Bit(a, k) && bit)
  {
    match k { case 0 => case 1 => case 2 => case 3 => case 4 => case 5 => case 6 => case _ => }
  }

  /** OR-ing in the mask of bit k sets bit k when asked and leaves the others alone. */
  lemma BitSet(a: byte, k: nat, bit: bool, j: nat)
    requires k < 8 && j < 8
    ensures Bit(a | (BitMask(k) & MaskOf(bit)), j) == (Bit(a, j) || (j == k && bit))
  {
    if !bit {
      assert a | (BitMask(k) & MaskOf(bit)) == a;
    } else {
      BitOrMask(a, k, j);
      assert BitMask(k) & 0xFF == BitMask(k);
    }
  }

  lemma BitOrMask(a: byte, k: nat, j: nat)
    requires k < 8 && j < 8
    ensures Bit(a | BitMask(k), j) == (Bit(a, j) || j == k)
  {
    assert (a | BitMask(k)) & BitMask(j) == (a & BitMask(j)) | (BitMask(k) & BitMask(j));
    if j == k {
      assert BitMask(k) & BitMask(k) == BitMask(k);
      OrNonZero(a & BitMask(j), BitMask(k));
    } else {
      MasksDisjoint(k, j);
    }
  }

  lemma OrNonZero(a: byte, b: byte)
    requires b != 0
    ensures a | b != 0
  {
  }

  lemma MasksDisjoint(k: nat, j: nat)
    requires k < 8 && j < 8 && j != k
    ensures BitMask(k) & BitMask(j) == 0
  {
    match k { case 0 => case 1 => case 2 => case 3 => case 4 => case 5 => case 6 => case _ => }
  }

  lemma ZeroBits(k: nat)
    requires k < 8
    ensures !Bit(0, k)
  {
  }

  /** Bytes with the same eight bits are equal. */
  lemma ByteExt(a: byte, b: byte)
    requires forall k :: 0 <= k < 8 ==> Bit(a, k) == Bit(b, k)
    ensures a == b
  {
    assert Bit(a, 0) == Bit(b, 0) && Bit(a, 1) == Bit(b, 1) && Bit(a, 2) == Bit(b, 2) && Bit(a, 3) == Bit(b, 3);
    assert Bit(a, 4) == Bit(b, 4) && Bit(a, 5) == Bit(b, 5) && Bit(a, 6) == Bit(b, 6) && Bit(a, 7) == Bit(b, 7);
    BitXor(a, b, 0); BitXor(a, b, 1); BitXor(a, b, 2); BitXor(a, b, 3);
    BitXor(a, b, 4); BitXor(a, b, 5); BitXor(a, b, 6); BitXor(a, b, 7);
    NoBits(a ^ b);
  }

  lemma NoBits(x: byte)
    requires !Bit(x, 0) && !Bit(x, 1) && !Bit(x, 2) && !Bit(x, 3)
    requires !Bit(x, 4) && !Bit(x, 5) && !Bit(x, 6) && !Bit(x, 7)
    ensures x == 0
  {
  }

  /** Byte strings of equal length with the same bits are equal. */
  lemma BytesExt(s: bytes, t: bytes)
    requires |s| == |t|
    requires forall i :: 0 <= i < 8 * |s| ==> BitAt(s, i) == BitAt(t, i)
    ensures s == t
  {
    forall b | 0 <= b < |s| ensures s[b] == t[b] {
      forall k | 0 <= k < 8 ensures Bit(s[b], k) == Bit(t[b], k) {
        assert BitAt(s, 8 * b + k) == BitAt(t, 8 * b + k);
        assert (8 * b + k) / 8 == b && (8 * b + k) % 8 == k;
      }
      ByteExt(s[b], t[b]);
    }
  }

  function XorBytes(a: bytes, b: bytes): (c: bytes)
    requires |a| == |b|
    ensures |c| == |a|
  {
    seq(|a|, i requires 0 <= i < |a| => a[i] ^ b[i])
  }

  function MaskBytes(a: bytes, bit: bool): (c: bytes)
    ensures |c| == |a|
  {
    seq(|a|, i requires 0 <= i < |a| => a[i] & MaskOf(bit))
  }

  lemma XorBytesBit(a: bytes, b: bytes, i: nat)
    requires |a| == |b| && i < 8 * |a|
    ensures BitAt(XorBytes(a, b), i) == (BitAt(a, i) != BitAt(b, i))
  {
    BitXor(a[i / 8], b[i / 8], i % 8);
  }

  lemma MaskBytesBit(a: bytes, bit: bool, i: nat)
    requires i < 8 * |a|
    ensures BitAt(MaskBytes(a, bit), i) == (BitAt(a, i) && bit)
  {
    BitMaskOf(a[i / 8], bit, i % 8);
  }

  /** s with bit i OR-ed with v */
  function SetBitAt(s: bytes, i: nat, v: bool): (t: bytes)
    requires i < 8 * |s|
    ensures |t| == |s|
  {
    s[i / 8 := s[i / 8] | (BitMask(i % 8) & MaskOf(v))]
  }

  lemma SetBitAtBit(s: bytes, i: nat, v: bool, k: nat)
    requires i < 8 * |s| && k < 8 * |s|
    ensures BitAt(SetBitAt(s, i, v), k) == (BitAt(s, k) || (k == i && v))
  {
    if k / 8 == i / 8 { BitSet(s[i / 8], i % 8, v, k % 8); }
  }

  // ---------- columns of a bit matrix ----------

  /** b with bit k set to v, for a byte whose bits k.. are clear */
  function PutBit(b: byte, k: nat, v: bool): byte
    requires k < 8
  {
    if v then b | BitMask(k) else b
  }

  /** The byte whose bit k is bits[k]. */
  function PackByte(bits: seq<bool>): byte
    requires |bits| <= 8
  {
    if bits == [] then 0 else PutBit(PackByte(bits[..|bits| - 1]), |bits| - 1, bits[|bits| - 1])
  }

  lemma {:induction false} PackByteBit(bits: seq<bool>, k: nat)
    requires |bits| <= 8 && k < 8
    ensures Bit(PackByte(bits), k) == (k < |bits| && bits[k])
  {
    if bits == [] {
      ZeroBits(k);
    } else {
      var m := |bits| - 1;
      PackByteBit(bits[..m], k);
      if bits[m] { BitOrMask(PackByte(bits[..m]), m, k); }
    }
  }

  /** Bit k of a byte has weight 2^k. */
  lemma ByteValue(b: byte)
    ensures b as nat == Weighted(Bit(b, 0), 1) + Weighted(Bit(b, 1), 2) + Weighted(Bit(b, 2), 4)
      + Weighted(Bit(b, 3), 8) + Weighted(Bit(b, 4), 16) + Weighted(Bit(b, 5), 32) + Weighted(Bit(b, 6), 64)
      + Weighted(Bit(b, 7), 128)
  {
  }

  function Weighted(bit: bool, w: nat): nat { if bit then w else 0 }

  /** Column i of the packed matrix, as |rows| packed bits. */
  function Column(rows: seq<bytes>, i: nat): (c: bytes)
    requires |rows| % 8 == 0
    requires forall r :: 0 <= r < |rows| ==> i < 8 * |rows[r]|
    ensures |c| == |rows| / 8
  {
    seq(|rows| / 8, b requires 0 <= b < |rows| / 8 =>
      PackByte(seq(8, k requires 0 <= k < 8 => BitAt(rows[8 * b + k], i))))
  }

  lemma ColumnBit(rows: seq<bytes>, i: nat, r: nat)
    requires |rows| % 8 == 0
    requires forall r :: 0 <= r < |rows| ==> i < 8 * |rows[r]|
    requires r < |rows|
    ensures BitAt(Column(rows, i), r) == BitAt(rows[r], i)
  {
    var b, k := r / 8, r % 8;
    assert r == 8 * b + k;
    PackByteBit(seq(8, k requires 0 <= k < 8 => BitAt(rows[8 * b + k], i)), k);
  }

  // ---------- inner products over GF(2) ----------

  /** parity of chi[i] * row[i] over i < l */
  predicate Dot(chi: bytes, row: bytes, l: nat)
    requires l <= 8 * |chi| && l <= 8 * |row|
  {
    if l == 0 then false else Dot(chi, row, l - 1) != (BitAt(chi, l - 1) && BitAt(row, l - 1))
  }

  /** parity of chi[i] * rows[i][j] over i < l */
  predicate DotColumn(chi: bytes, rows: seq<bytes>, j: nat, l: nat)
    requires l <= 8 * |chi| && l <= |rows|
    requires forall i :: 0 <= i < |rows| ==> j < 8 * |rows[i]|
  {
    if l == 0 then false else DotColumn(chi, rows, j, l - 1) != (BitAt(chi, l - 1) && BitAt(rows[l - 1], j))
  }

  lemma {:induction false} DotColumnIsDot(chi: bytes, rows: seq<bytes>, j: nat, row: bytes, l: nat)
    requires l <= 8 * |chi| && l <= |rows| && l <= 8 * |row|
    requires forall i :: 0 <= i < |rows| ==> j < 8 * |rows[i]|
    requires forall i :: 0 <= i < l ==> BitAt(rows[i], j) == BitAt(row, i)
    ensures DotColumn(chi, rows, j, l) == Dot(chi, row, l)
  {
    if l > 0 { DotColumnIsDot(chi, rows, j, row, l - 1); }
  }

  /** The inner product is linear in its second argument. */
  lemma {:induction false} DotXor(chi: bytes, a: bytes, b: bytes, l: nat)
    requires |a| == |b| && l <= 8 * |chi| && l <= 8 * |a|
    ensures Dot(chi, XorBytes(a, b), l) == (Dot(chi, a, l) != Dot(chi, b, l))
  {
    if l > 0 {
      DotXor(chi, a, b, l - 1);
      XorBytesBit(a, b, l - 1);
    }
  }

  lemma {:induction false} DotMask(chi: bytes, a: bytes, bit: bool, l: nat)
    requires l <= 8 * |chi| && l <= 8 * |a|
    ensures Dot(chi, MaskBytes(a, bit), l) == (bit && Dot(chi, a, l))
  {
    if l > 0 {
      DotMask(chi, a, bit, l - 1);
      MaskBytesBit(a, bit, l - 1);
    }
  }

  lemma {:induction false} DotColumnSkip(chi: bytes, rows: seq<bytes>, j: nat, l: nat, m: nat)
    requires l <= m <= 8 * |chi| && m <= |rows|
    requires forall i :: 0 <= i < |rows| ==> j < 8 * |rows[i]|
    requires forall i :: l <= i < m ==> !BitAt(chi, i)
    ensures DotColumn(chi, rows, j, m) == DotColumn(chi, rows, j, l)
    decreases m
  {
    if l < m { DotColumnSkip(chi, rows, j, l, m - 1); }
  }
}
