/** Canonical variable-length integers (src/wire.rs): the writer, the reader and their exact correspondence. */
module Varint {
  import opened NumberTheory
  import opened Results
  import opened Bn

  type Byte = b: nat | b < 256

  datatype WireError = UnexpectedEof | TooLong | Invalid(what: string) | TrailingBytes

  const U128_END: nat := 0x1_0000_0000_0000_0000_0000_0000_0000_0000
  const MAX_VARINT: nat := 19

  // ---------- powers of two ----------

  function Pow2(k: nat): (p: nat)
    ensures p > 0
  {
    if k == 0 then 1 else 2 * Pow2(k - 1)
  }

  lemma {:induction false} Pow2Add(j: nat, k: nat)
    ensures Pow2(j + k) == Pow2(j) * Pow2(k)
    decreases j
  {
    if j > 0 {
      Pow2Add(j - 1, k);
      var a, b := Pow2(j - 1), Pow2(k);
      assert Pow2(j + k) == 2 * Pow2(j - 1 + k) && Pow2(j) == 2 * a;
      hide *;
      TwiceProduct(a, b);
    }
  }

  lemma TwiceProduct(a: int, b: int)
    ensures 2 * (a * b) == (2 * a) * b
  {
  }

  lemma {:induction false} Pow2Monotone(j: nat, k: nat)
    requires j <= k
    ensures Pow2(j) <= Pow2(k)
    decreases k
  {
    if j < k { Pow2Monotone(j, k - 1); }
  }

  lemma Pow2At128()
    ensures Pow2(128) == U128_END
  {
    assert Pow2(8) == 256;
    hide Pow2;
    Pow2Add(8, 8);
    assert Pow2(16) == 0x1_0000;
    Pow2Add(16, 16);
    assert Pow2(32) == 0x1_0000_0000;
    Pow2Add(32, 32);
    assert Pow2(64) == 0x1_0000_0000_0000_0000;
    Pow2Add(64, 64);
  }

  lemma Pow2At7()
    ensures Pow2(7) == 128 && Pow2(0) == 1
  {
  }

  /** BitLen counts the bits: 2^(len-1) <= v < 2^len for v > 0. */
  lemma {:induction false} BitLenBounds(v: nat)
    ensures v < Pow2(BitLen(v)) && (v > 0 ==> BitLen(v) > 0 && Pow2(BitLen(v) - 1) <= v)
  {
    if v > 0 {
      BitLenBounds(v / 2);
      if v / 2 > 0 { assert Pow2(BitLen(v) - 1) == 2 * Pow2(BitLen(v / 2) - 1); }
    }
  }

  // ---------- writing ----------

  /** Seven bits a byte, least significant first, the top bit set on all but the last. */
  function VarintBytes(v: nat): (bs: seq<Byte>)
    ensures |bs| > 0
  {
    if v < 128 then [v] else [v % 128 + 128] + VarintBytes(v / 128)
  }

  lemma {:induction false} VarintLength(v: nat, k: nat)
    requires k > 0 && v < Pow2(7 * k)
    ensures |VarintBytes(v)| <= k
  {
    Pow2At7();
    if v >= 128 {
      Pow2Add(7, 7 * (k - 1));
      VarintLength(v / 128, k - 1);
    }
  }

  /** No varint takes more than 19 bytes, the size of the writer's buffer. */
  lemma VarintFits(v: nat)
    requires v < U128_END
    ensures |VarintBytes(v)| <= MAX_VARINT
  {
    Pow2At128();
    Pow2Monotone(128, 133);
    VarintLength(v, 19);
  }

  lemma VarintStep(v: nat)
    ensures v / 128 == 0 ==> VarintBytes(v) == [v % 128]
    ensures v / 128 > 0 ==> VarintBytes(v) == [v % 128 + 128] + VarintBytes(v / 128)
  {
  }

  /** A byte sink: what was written so far. */
  class Sink {
    var out: seq<Byte>

    constructor ()
      ensures out == []
    {
      out := [];
    }

    method WriteAll(buf: seq<Byte>)
      modifies this
      ensures out == old(out) + buf
    {
      out := out + buf;
    }
  }

  /** write_varint: the bytes are collected in a 19-byte buffer. */
  method WriteVarint(w: Sink, v0: nat)
    requires v0 < U128_END
    modifies w
    ensures w.out == old(w.out) + VarintBytes(v0)
  {
    hide VarintBytes;
    var buf := new Byte[MAX_VARINT];
    var v, n := v0, 0;
    VarintFits(v0);
    while true
      invariant w.out == old(w.out)
      invariant n + |VarintBytes(v)| == |VarintBytes(v0)| <= MAX_VARINT
      invariant buf[..n] + VarintBytes(v) == VarintBytes(v0)
      decreases v
    {
      VarintStep(v);
      var byte: Byte := v % 128;
      ghost var before := buf[..n];
      v := v / 128;
      if v == 0 {
        buf[n] := byte;
        n := n + 1;
        assert buf[..n] == before + [byte];
        break;
      }
      buf[n] := byte + 128;
      n := n + 1;
      assert buf[..n] == before + [byte + 128];
      assert before + ([byte + 128] + VarintBytes(v)) == (before + [byte + 128]) + VarintBytes(v);
    }
    w.WriteAll(buf[..n]);
  }

  // ---------- reading ----------

  /** A shifted part leaves the 128 bits. */
  predicate Overflows(part: nat, shift: nat) { shift >= 128 || (shift > 0 && BitLen(part) + shift > 128) }

  /** The reader's loop: v holds the shift bits read so far. */
  function ParseVarint(bs: seq<Byte>, v: nat, shift: nat): Result<(nat, seq<Byte>), WireError>
  {
    if bs == [] then Err(UnexpectedEof)
    else
      var byte, part := bs[0], bs[0] % 128;
      if Overflows(part, shift) then Err(Invalid("varint overflow"))
      else if byte < 128 then
        if byte == 0 && shift > 0 then Err(Invalid("non-canonical varint"))
        else Ok((v + part * Pow2(shift), bs[1..]))
      else ParseVarint(bs[1..], v + part * Pow2(shift), shift + 7)
  }

  function ReadUint(bs: seq<Byte>, max: nat): Result<(nat, seq<Byte>), WireError>
  {
    var r := ParseVarint(bs, 0, 0);
    if r.Err? then r else if r.value.0 > max then Err(Invalid("integer out of range")) else r
  }

  /** What was parsed on the way in is what the writer would write; every accepted varint is canonical. */
  lemma {:induction false} ParsedIsWritten(bs: seq<Byte>, v: nat, shift: nat) returns (u: nat)
    requires ParseVarint(bs, v, shift).Ok?
    ensures var (w, rest) := ParseVarint(bs, v, shift).value; w == v + u * Pow2(shift) && bs == VarintBytes(u) + rest
    ensures shift > 0 ==> u > 0
    ensures u * Pow2(shift) < U128_END
    decreases |bs|
  {
    var byte, part := bs[0], bs[0] % 128;
    Pow2At7();
    hide Overflows, Pow2;
    if byte < 128 {
      u := byte;
      PartFits(part, shift);
      assert bs == [byte] + bs[1..];
    } else {
      var u' := ParsedIsWritten(bs[1..], v + part * Pow2(shift), shift + 7);
      Pow2Add(7, shift);
      u := part + 128 * u';
      ShiftedSum(part, u', Pow2(shift), v);
      assert VarintBytes(u) == [byte] + VarintBytes(u') by { assert u / 128 == u' && u % 128 == part && u >= 128; }
      assert bs == [byte] + bs[1..];
      SumFits(part, u', shift);
    }
  }

  lemma ShiftedSum(part: int, u: int, p: int, v: int)
    ensures v + part * p + u * (128 * p) == v + (part + 128 * u) * p
  {
    assert (part + 128 * u) * p == part * p + 128 * u * p;
    assert u * (128 * p) == 128 * u * p;
  }

  /** A part that does not overflow stays below 2^128. */
  lemma PartFits(part: nat, shift: nat)
    requires part < 128 && !Overflows(part, shift)
    ensures part * Pow2(shift) < U128_END
  {
    Pow2At128();
    Pow2At7();
    hide Pow2, BitLen;
    if shift > 0 {
      BitLenBounds(part);
      Pow2Add(BitLen(part), shift);
      Pow2Monotone(BitLen(part) + shift, 128);
      MulMono(part + 1, Pow2(BitLen(part)), Pow2(shift));
      assert (part + 1) * Pow2(shift) == part * Pow2(shift) + Pow2(shift);
    }
  }

  /** Disjoint bits below 2^128 add up below it. */
  lemma SumFits(part: nat, u: nat, shift: nat)
    requires part < 128 && u > 0 && u * Pow2(shift + 7) < U128_END
    ensures (part + 128 * u) * Pow2(shift) < U128_END
  {
    Pow2At128();
    Pow2At7();
    hide *;
    Pow2Add(7, shift);
    if shift + 7 >= 128 {
      Pow2Monotone(128, shift + 7);
      MulMono(1, u, Pow2(shift + 7));
      assert false;
    }
    Pow2Add(121 - shift, shift + 7);
    BelowMultiple(u, Pow2(121 - shift), Pow2(shift + 7));
    MulMono(u + 1, Pow2(121 - shift), Pow2(shift + 7));
    SumArithmetic(part, u, Pow2(shift));
  }

  lemma SumArithmetic(part: nat, u: nat, p: nat)
    requires part < 128 && p > 0
    ensures (part + 128 * u) * p < (u + 1) * (128 * p)
  {
    ShiftedSum(part, u, p, 0);
    MulMono(part + 1, 128, p);
    assert (part + 1) * p == part * p + p;
    assert (u + 1) * (128 * p) == u * (128 * p) + 128 * p;
  }

  lemma BelowMultiple(u: nat, q: nat, m: nat)
    requires m > 0 && u * m < q * m
    ensures u < q
  {
    if u >= q { MulMono(q, u, m); }
  }

  /** Reading back what the writer wrote, followed by anything, gives the value and exactly what followed. */
  lemma {:induction false} WrittenIsParsed(u: nat, tail: seq<Byte>, v: nat, shift: nat)
    requires (shift > 0 ==> u > 0) && u * Pow2(shift) < U128_END
    ensures v + u * Pow2(shift) >= 0 && ParseVarint(VarintBytes(u) + tail, v, shift) == Ok((v + u * Pow2(shift), tail))
    decreases u
  {
    var bs, part, u' := VarintBytes(u) + tail, u % 128, u / 128;
    PartDoesNotOverflow(u, part, shift);
    hide Overflows, Pow2;
    if u < 128 {
      assert bs[1..] == tail;
    } else {
      NextPart(u, v, shift);
      assert bs[1..] == VarintBytes(u') + tail;
      WrittenIsParsed(u', tail, v + part * Pow2(shift), shift + 7);
    }
  }

  lemma NextPart(u: nat, v: nat, shift: nat)
    ensures v + (u % 128) * Pow2(shift) + (u / 128) * Pow2(shift + 7) == v + u * Pow2(shift)
    ensures (u / 128) * Pow2(shift + 7) <= u * Pow2(shift) && (u % 128) * Pow2(shift) >= 0
  {
    Pow2At7();
    hide Pow2;
    Pow2Add(7, shift);
    ShiftedSum(u % 128, u / 128, Pow2(shift), v);
    MulMono(0, u % 128, Pow2(shift));
  }

  lemma PartDoesNotOverflow(u: nat, part: nat, shift: nat)
    requires part <= u && (shift > 0 ==> u > 0) && u * Pow2(shift) < U128_END
    ensures !Overflows(part, shift)
  {
    Pow2At128();
    assert BitLen(0) == 0;
    hide Pow2, BitLen;
    if shift > 0 {
      if shift >= 128 {
        Pow2Monotone(128, shift);
        MulMono(1, u, Pow2(shift));
        assert false;
      }
      if part > 0 && BitLen(part) + shift > 128 {
        BitLenBounds(part);
        MulMono(Pow2(BitLen(part) - 1), u, Pow2(shift));
        Pow2Add(BitLen(part) - 1, shift);
        Pow2Monotone(128, BitLen(part) - 1 + shift);
        assert false;
      }
    }
  }

  /** Varints and the 128-bit integers are in bijection. */
  lemma VarintExact(bs: seq<Byte>, max: nat, v: nat, rest: seq<Byte>)
    requires max < U128_END
    ensures ReadUint(bs, max) == Ok((v, rest)) <==> v <= max && bs == VarintBytes(v) + rest
  {
    assert Pow2(0) == 1;
    if ReadUint(bs, max) == Ok((v, rest)) {
      var u := ParsedIsWritten(bs, 0, 0);
    }
    if v <= max && bs == VarintBytes(v) + rest { WrittenIsParsed(v, rest, 0, 0); }
  }

  /** A byte source: what is left to read. */
  class Source {
    var rest: seq<Byte>

    constructor (bytes: seq<Byte>)
      ensures rest == bytes
    {
      rest := bytes;
    }

    /** read_exact of the slice reader: on a short source nothing is consumed. */
    method ReadExact(n: nat) returns (res: Result<seq<Byte>, WireError>)
      modifies this
      ensures n <= |old(rest)| ==> res == Ok(old(rest)[..n]) && rest == old(rest)[n..]
      ensures n > |old(rest)| ==> res == Err(UnexpectedEof) && rest == old(rest)
    {
      if |rest| < n { return Err(UnexpectedEof); }
      res := Ok(rest[..n]);
      rest := rest[n..];
    }
  }

  /** read_varint. The bits of a part lie above those already read, so OR-ing them in is adding them. */
  method ReadVarint(r: Source, max: nat) returns (res: Result<nat, WireError>)
    modifies r
    ensures res.Ok? <==> ReadUint(old(r.rest), max).Ok?
    ensures res.Ok? ==> ReadUint(old(r.rest), max) == Ok((res.value, r.rest))
    ensures res.Err? ==> ReadUint(old(r.rest), max) == Err(res.error)
  {
    hide Overflows, Pow2;
    var v: nat, shift: nat := 0, 0;
    while true
      invariant ParseVarint(old(r.rest), 0, 0) == ParseVarint(r.rest, v, shift)
      decreases |r.rest|
    {
      var b := r.ReadExact(1);
      if b.Err? { return Err(b.error); }
      var byte := b.value[0];
      var part := byte % 128;
      if Overflows(part, shift) { return Err(Invalid("varint overflow")); }
      v := v + part * Pow2(shift);
      if byte < 128 {
        if byte == 0 && shift > 0 { return Err(Invalid("non-canonical varint")); }
        break;
      }
      shift := shift + 7;
    }
    if v > max { return Err(Invalid("integer out of range")); }
    return Ok(v);
  }

  // ---------- zigzag ----------

  const I128_MIN: int := -0x8000_0000_0000_0000_0000_0000_0000_0000
  const I128_MAX: int := 0x7fff_ffff_ffff_ffff_ffff_ffff_ffff_ffff

  /** (v << 1) ^ (v >> 127): twice v, complemented when v is negative */
  function Zigzag(v: int): (u: nat)
    requires I128_MIN <= v <= I128_MAX
    ensures u < U128_END
  {
    var twice := 2 * v;
    if v < 0 then -1 - twice else twice
  }

  /** (v >> 1) ^ -(v & 1): half of v, complemented when v is odd */
  function Unzigzag(u: nat): (v: int)
    requires u < U128_END
    ensures I128_MIN <= v <= I128_MAX
  {
    var half := u / 2;
    if u % 2 == 1 then -1 - half else half
  }

  /** zigzag is a bijection between the signed and the unsigned 128-bit integers. */
  lemma ZigzagBijection(v: int, u: nat)
    requires I128_MIN <= v <= I128_MAX && u < U128_END
    ensures Unzigzag(Zigzag(v)) == v && Zigzag(Unzigzag(u)) == u
    ensures Zigzag(v) == u <==> v == Unzigzag(u)
  {
  }
}
