/** The type-directed binary codec (src/wire.rs): what is written for a type is read back exactly, and nothing else is
    read. */
module Wire {
  import opened NumberTheory
  import opened Results
  import opened Varint

  const MAX_LEN: nat := 0x100_0000
  const READ_CHUNK: nat := 4096
  const KEY_ENCODING_VERSION: Byte := 1
  const U32_MAX: nat := 0xffff_ffff
  const U64_MAX: nat := 0xffff_ffff_ffff_ffff

  datatype Width = W16 | W32 | W64 | W128

  function UintMax(w: Width): (m: nat)
    ensures m < U128_END
  {
    match w case W16 => 0xffff case W32 => U32_MAX case W64 => U64_MAX case W128 => U128_END - 1
  }

  function IntMax(w: Width): (m: int)
    ensures 0 <= m <= I128_MAX
  {
    match w case W16 => 0x7fff case W32 => 0x7fff_ffff case W64 => 0x7fff_ffff_ffff_ffff case W128 => I128_MAX
  }

  /** The serde types of the format. A newtype struct is its inner type, a struct a tuple of its fields, an enum
      variant's content a unit, an inner type or a tuple; a map is a sequence of pairs. */
  datatype Schema =
    | SBool | SU8 | SI8 | SUint(w: Width) | SInt(w: Width) | SF32 | SF64 | SChar | SStr | SBytes | SUnit
    | SOption(inner: Schema) | SSeq(elem: Schema) | STuple(fields: Schemas) | SEnum(variants: Schemas)
  datatype Schemas = Nil | Cons(head: Schema, tail: Schemas)

  datatype Value =
    | VBool(b: bool) | VUint(n: nat) | VInt(i: int) | VRaw(raw: seq<Byte>) | VUnit | VNone | VSome(v: Value)
    | VList(vs: seq<Value>) | VVariant(idx: nat, content: Value)

  /** A Unicode scalar value. */
  predicate IsScalar(c: nat) { c < 0xd800 || 0xe000 <= c < 0x11_0000 }

  /** An i8 as a byte, and back. */
  function ByteOf(i: int): Byte
    requires -128 <= i < 128
  {
    if i < 0 then i + 256 else i
  }

  function SignedByte(b: Byte): (i: int)
    ensures -128 <= i < 128 && ByteOf(i) == b
  {
    var wide: int := b;
    if wide < 128 then wide else wide - 256
  }

  // ---------- the meaning of the writer ----------

  const ILL_TYPED := Invalid("value of another type")

  function LenBytes(n: nat): Result<seq<Byte>, WireError> {
    if n > MAX_LEN then Err(TooLong) else Ok(VarintBytes(n))
  }

  /** A length, then the bytes. */
  function EncBytes(bs: seq<Byte>): Result<seq<Byte>, WireError> {
    var l := LenBytes(|bs|);
    if l.Err? then l else Ok(l.value + bs)
  }

  /** The bytes of a value of a type; utf8 says which byte strings are text. */
  function Enc(utf8: seq<Byte> -> bool, s: Schema, v: Value): Result<seq<Byte>, WireError>
    decreases s, 0
  {
    match s
    case SBool => if v.VBool? then Ok([if v.b then 1 else 0]) else Err(ILL_TYPED)
    case SU8 => if v.VUint? && v.n < 256 then Ok([v.n]) else Err(ILL_TYPED)
    case SI8 => if v.VInt? && -128 <= v.i < 128 then Ok([ByteOf(v.i)]) else Err(ILL_TYPED)
    case SUint(w) => if v.VUint? && v.n <= UintMax(w) then Ok(VarintBytes(v.n)) else Err(ILL_TYPED)
    case SInt(w) =>
      if v.VInt? && -IntMax(w) - 1 <= v.i <= IntMax(w) then Ok(VarintBytes(Zigzag(v.i))) else Err(ILL_TYPED)
    case SF32 => if v.VRaw? && |v.raw| == 4 then Ok(v.raw) else Err(ILL_TYPED)
    case SF64 => if v.VRaw? && |v.raw| == 8 then Ok(v.raw) else Err(ILL_TYPED)
    case SChar => if v.VUint? && IsScalar(v.n) then Ok(VarintBytes(v.n)) else Err(ILL_TYPED)
    case SStr => if v.VRaw? && utf8(v.raw) then EncBytes(v.raw) else Err(ILL_TYPED)
    case SBytes => if v.VRaw? then EncBytes(v.raw) else Err(ILL_TYPED)
    case SUnit => if v.VUnit? then Ok([]) else Err(ILL_TYPED)
    case SOption(inner) =>
      if v.VNone? then Ok([0])
      else if v.VSome? then
        var r := Enc(utf8, inner, v.v);
        if r.Err? then r else Ok([1] + r.value)
      else Err(ILL_TYPED)
    case SSeq(elem) =>
      if !v.VList? then Err(ILL_TYPED)
      else
        var l := LenBytes(|v.vs|);
        if l.Err? then l
        else
          var r := EncAll(utf8, elem, v.vs);
          if r.Err? then r else Ok(l.value + r.value)
    case STuple(fields) => if v.VList? then EncFields(utf8, fields, v.vs) else Err(ILL_TYPED)
    case SEnum(variants) =>
      if !v.VVariant? || v.idx > U32_MAX then Err(ILL_TYPED)
      else
        var r := EncVariant(utf8, variants, v.idx, v.content);
        if r.Err? then r else Ok(VarintBytes(v.idx) + r.value)
  }

  function EncAll(utf8: seq<Byte> -> bool, elem: Schema, vs: seq<Value>): Result<seq<Byte>, WireError>
    decreases elem, |vs| + 1
  {
    if vs == [] then Ok([])
    else
      var first := Enc(utf8, elem, vs[0]);
      if first.Err? then first
      else
        var rest := EncAll(utf8, elem, vs[1..]);
        if rest.Err? then rest else Ok(first.value + rest.value)
  }

  function EncFields(utf8: seq<Byte> -> bool, fields: Schemas, vs: seq<Value>): Result<seq<Byte>, WireError>
    decreases fields, 0
  {
    match fields
    case Nil => if vs == [] then Ok([]) else Err(ILL_TYPED)
    case Cons(head, tail) =>
      if vs == [] then Err(ILL_TYPED)
      else
        var first := Enc(utf8, head, vs[0]);
        if first.Err? then first
        else
          var rest := EncFields(utf8, tail, vs[1..]);
          if rest.Err? then rest else Ok(first.value + rest.value)
  }

  /** The content of variant idx. */
  function EncVariant(utf8: seq<Byte> -> bool, variants: Schemas, idx: nat, v: Value): Result<seq<Byte>, WireError>
    decreases variants, 0
  {
    match variants
    case Nil => Err(ILL_TYPED)
    case Cons(head, tail) => if idx == 0 then Enc(utf8, head, v) else EncVariant(utf8, tail, idx - 1, v)
  }

  // ---------- the meaning of the reader ----------

  type Read<T> = Result<(T, seq<Byte>), WireError>

  function Take(n: nat, bs: seq<Byte>): Read<seq<Byte>> {
    if |bs| < n then Err(UnexpectedEof) else Ok((bs[..n], bs[n..]))
  }

  function DecLen(bs: seq<Byte>): Read<nat> {
    var r := ReadUint(bs, U64_MAX);
    if r.Err? then Err(r.error) else if r.value.0 > MAX_LEN then Err(TooLong) else r
  }

  function DecBytes(bs: seq<Byte>): Read<seq<Byte>> {
    var l := DecLen(bs);
    if l.Err? then Err(l.error) else Take(l.value.0, l.value.1)
  }

  function Dec(utf8: seq<Byte> -> bool, s: Schema, bs: seq<Byte>): Read<Value>
    decreases s, 0
  {
    match s
    case SBool =>
      if bs == [] then Err(UnexpectedEof)
      else if bs[0] == 0 then Ok((VBool(false), bs[1..]))
      else if bs[0] == 1 then Ok((VBool(true), bs[1..]))
      else Err(Invalid("bool must be 0 or 1"))
    case SU8 => if bs == [] then Err(UnexpectedEof) else Ok((VUint(bs[0]), bs[1..]))
    case SI8 => if bs == [] then Err(UnexpectedEof) else Ok((VInt(SignedByte(bs[0])), bs[1..]))
    case SUint(w) =>
      var r := ReadUint(bs, UintMax(w));
      if r.Err? then Err(r.error) else Ok((VUint(r.value.0), r.value.1))
    case SInt(w) =>
      var r := ReadUint(bs, U128_END - 1);
      if r.Err? then Err(r.error)
      else if r.value.0 >= U128_END then Err(Invalid("integer out of range"))
      else
        var i := Unzigzag(r.value.0);
        if i < -IntMax(w) - 1 || i > IntMax(w) then Err(Invalid("integer out of range")) else Ok((VInt(i), r.value.1))
    case SF32 =>
      var r := Take(4, bs);
      if r.Err? then Err(r.error) else Ok((VRaw(r.value.0), r.value.1))
    case SF64 =>
      var r := Take(8, bs);
      if r.Err? then Err(r.error) else Ok((VRaw(r.value.0), r.value.1))
    case SChar =>
      var r := ReadUint(bs, U32_MAX);
      if r.Err? then Err(r.error) else if !IsScalar(r.value.0) then Err(Invalid("invalid char"))
      else Ok((VUint(r.value.0), r.value.1))
    case SStr =>
      var r := DecBytes(bs);
      if r.Err? then Err(r.error) else if !utf8(r.value.0) then Err(Invalid("invalid UTF-8")) else Ok((VRaw(r.value.0),
        r.value.1))
    case SBytes =>
      var r := DecBytes(bs);
      if r.Err? then Err(r.error) else Ok((VRaw(r.value.0), r.value.1))
    case SUnit => Ok((VUnit, bs))
    case SOption(inner) =>
      if bs == [] then Err(UnexpectedEof)
      else if bs[0] == 0 then Ok((VNone, bs[1..]))
      else if bs[0] == 1 then
        var r := Dec(utf8, inner, bs[1..]);
        if r.Err? then r else Ok((VSome(r.value.0), r.value.1))
      else Err(Invalid("option tag must be 0 or 1"))
    case SSeq(elem) =>
      var l := DecLen(bs);
      if l.Err? then Err(l.error)
      else
        var r := DecAll(utf8, elem, l.value.0, l.value.1);
        if r.Err? then Err(r.error) else Ok((VList(r.value.0), r.value.1))
    case STuple(fields) =>
      var r := DecFields(utf8, fields, bs);
      if r.Err? then Err(r.error) else Ok((VList(r.value.0), r.value.1))
    case SEnum(variants) =>
      var idx := ReadUint(bs, U32_MAX);
      if idx.Err? then Err(idx.error)
      else
        var r := DecVariant(utf8, variants, idx.value.0, idx.value.1);
        if r.Err? then r else Ok((VVariant(idx.value.0, r.value.0), r.value.1))
  }

  /** count elements, one after the other */
  function DecAll(utf8: seq<Byte> -> bool, elem: Schema, count: nat, bs: seq<Byte>): Read<seq<Value>>
    decreases elem, count + 1
  {
    if count == 0 then Ok(([], bs))
    else
      var first := Dec(utf8, elem, bs);
      if first.Err? then Err(first.error)
      else
        var rest := DecAll(utf8, elem, count - 1, first.value.1);
        if rest.Err? then rest else Ok(([first.value.0] + rest.value.0, rest.value.1))
  }

  function DecFields(utf8: seq<Byte> -> bool, fields: Schemas, bs: seq<Byte>): Read<seq<Value>>
    decreases fields, 0
  {
    match fields
    case Nil => Ok(([], bs))
    case Cons(head, tail) =>
      var first := Dec(utf8, head, bs);
      if first.Err? then Err(first.error)
      else
        var rest := DecFields(utf8, tail, first.value.1);
        if rest.Err? then rest else Ok(([first.value.0] + rest.value.0, rest.value.1))
  }

  function DecVariant(utf8: seq<Byte> -> bool, variants: Schemas, idx: nat, bs: seq<Byte>): Read<Value>
    decreases variants, 0
  {
    match variants
    case Nil => Err(Invalid("unknown variant"))
    case Cons(head, tail) => if idx == 0 then Dec(utf8, head, bs) else DecVariant(utf8, tail, idx - 1, bs)
  }

  // ---------- which values can be written ----------

  /** The values of a type: numbers in the range of their width, four or eight raw bytes for a float, text that is
      UTF-8, sequences and byte strings of at most 2^24 elements, a variant the enum has. */
  ghost predicate Writable(utf8: seq<Byte> -> bool, s: Schema, v: Value)
    decreases s, 0
  {
    match s
    case SBool => v.VBool?
    case SU8 => v.VUint? && v.n <= 255
    case SI8 => v.VInt? && -128 <= v.i <= 127
    case SUint(w) => v.VUint? && v.n < Pow2(BitsOf(w))
    case SInt(w) => v.VInt? && 0 <= v.i + Pow2(BitsOf(w) - 1) < Pow2(BitsOf(w))
    case SF32 => v.VRaw? && |v.raw| == 4
    case SF64 => v.VRaw? && |v.raw| == 8
    case SChar => v.VUint? && (v.n < 0xd800 || 0xe000 <= v.n < 0x11_0000)
    case SStr => v.VRaw? && utf8(v.raw) && |v.raw| <= 0x100_0000
    case SBytes => v.VRaw? && |v.raw| <= 0x100_0000
    case SUnit => v.VUnit?
    case SOption(inner) => v.VNone? || (v.VSome? && Writable(utf8, inner, v.v))
    case SSeq(elem) =>
      v.VList? && |v.vs| <= 0x100_0000 && forall k :: 0 <= k < |v.vs| ==> Writable(utf8, elem, v.vs[k])
    case STuple(fields) =>
      && v.VList? && |v.vs| == Length(fields)
      && forall k :: 0 <= k < |v.vs| ==> WritableAt(utf8, fields, k, v.vs[k])
    case SEnum(variants) =>
      v.VVariant? && v.idx < 0x1_0000_0000 && WritableAt(utf8, variants, v.idx, v.content)
  }

  /** The list has a type at position k and v is a value of it. */
  ghost predicate WritableAt(utf8: seq<Byte> -> bool, list: Schemas, k: nat, v: Value)
    decreases list, 0
  {
    match list
    case Nil => false
    case Cons(head, tail) => if k == 0 then Writable(utf8, head, v) else WritableAt(utf8, tail, k - 1, v)
  }

  function Length(list: Schemas): nat { match list case Nil => 0 case Cons(_, tail) => 1 + Length(tail) }

  function BitsOf(w: Width): (bits: nat)
    ensures bits >= 16
  {
    match w case W16 => 16 case W32 => 32 case W64 => 64 case W128 => 128
  }

  lemma WidthRanges(w: Width)
    ensures UintMax(w) == Pow2(BitsOf(w)) - 1 && IntMax(w) == Pow2(BitsOf(w) - 1) - 1
  {
    Pow2Halves();
  }

  lemma Pow2Halves()
    ensures Pow2(16) == 0x1_0000 && Pow2(15) == 0x8000
    ensures Pow2(32) == 0x1_0000_0000 && Pow2(31) == 0x8000_0000
    ensures Pow2(64) == 0x1_0000_0000_0000_0000 && Pow2(63) == 0x8000_0000_0000_0000
    ensures Pow2(128) == U128_END && 2 * Pow2(127) == U128_END
  {
    assert Pow2(8) == 256 && Pow2(16) == 2 * Pow2(15) && Pow2(32) == 2 * Pow2(31) && Pow2(64) == 2 * Pow2(63);
    assert Pow2(128) == 2 * Pow2(127);
    hide Pow2;
    Pow2Add(8, 8);
    Pow2Add(16, 16);
    Pow2Add(32, 32);
    Pow2At128();
  }

  /** The writer accepts exactly the values of the type. */
  lemma {:induction false} WritesExactly(utf8: seq<Byte> -> bool, s: Schema, v: Value)
    ensures Enc(utf8, s, v).Ok? <==> Writable(utf8, s, v)
    decreases s, 0
  {
    hide VarintBytes, Pow2;
    match s
    case SUint(w) => WidthRanges(w);
    case SInt(w) => WidthRanges(w);
    case SOption(inner) => if v.VSome? { WritesExactly(utf8, inner, v.v); }
    case SSeq(elem) => if v.VList? { WritesAll(utf8, elem, v.vs); }
    case STuple(fields) => if v.VList? { WritesFields(utf8, fields, v.vs); }
    case SEnum(variants) => if v.VVariant? { WritesVariant(utf8, variants, v.idx, v.content); }
    case _ =>
  }

  lemma {:induction false} WritesAll(utf8: seq<Byte> -> bool, elem: Schema, vs: seq<Value>)
    ensures EncAll(utf8, elem, vs).Ok? <==> forall k :: 0 <= k < |vs| ==> Writable(utf8, elem, vs[k])
    decreases elem, |vs| + 1
  {
    hide Enc, Writable;
    if vs != [] {
      WritesExactly(utf8, elem, vs[0]);
      WritesAll(utf8, elem, vs[1..]);
      assert forall k :: 1 <= k < |vs| ==> vs[k] == vs[1..][k - 1];
    }
  }

  lemma {:induction false} WritesFields(utf8: seq<Byte> -> bool, fields: Schemas, vs: seq<Value>)
    ensures EncFields(utf8, fields, vs).Ok? <==>
      |vs| == Length(fields) && forall k :: 0 <= k < |vs| ==> WritableAt(utf8, fields, k, vs[k])
    decreases fields, 0
  {
    hide Enc, Writable;
    match fields
    case Nil =>
    case Cons(head, tail) =>
      if vs != [] {
        WritesExactly(utf8, head, vs[0]);
        WritesFields(utf8, tail, vs[1..]);
        assert forall k :: 1 <= k < |vs| ==> vs[k] == vs[1..][k - 1];
        assert WritableAt(utf8, fields, 0, vs[0]) == Writable(utf8, head, vs[0]);
        forall k | 1 <= k < |vs|
          ensures WritableAt(utf8, fields, k, vs[k]) == WritableAt(utf8, tail, k - 1, vs[1..][k - 1])
        {
        }
        if EncFields(utf8, tail, vs[1..]).Err? && |vs| == Length(fields) {
          var k :| 0 <= k < |vs| - 1 && !WritableAt(utf8, tail, k, vs[1..][k]);
          assert !WritableAt(utf8, fields, k + 1, vs[k + 1]);
        }
      }
  }

  lemma {:induction false} WritesVariant(utf8: seq<Byte> -> bool, variants: Schemas, idx: nat, v: Value)
    ensures EncVariant(utf8, variants, idx, v).Ok? <==> WritableAt(utf8, variants, idx, v)
    decreases variants, 0
  {
    hide Enc, Writable;
    match variants
    case Nil =>
    case Cons(head, tail) =>
      if idx == 0 { WritesExactly(utf8, head, v); } else { WritesVariant(utf8, tail, idx - 1, v); }
  }

  // ---------- the two are inverse ----------

  /** The reader takes exactly what the writer gives for the value, and nothing else. */
  ghost predicate Matches(utf8: seq<Byte> -> bool, s: Schema, v: Value, bs: seq<Byte>, rest: seq<Byte>) {
    Enc(utf8, s, v).Ok? && bs == Enc(utf8, s, v).value + rest
  }

  lemma LenExact(bs: seq<Byte>, n: nat, rest: seq<Byte>)
    ensures DecLen(bs) == Ok((n, rest)) <==> LenBytes(n).Ok? && bs == LenBytes(n).value + rest
  {
    VarintExact(bs, U64_MAX, n, rest);
  }

  lemma BytesExact(bs: seq<Byte>, raw: seq<Byte>, rest: seq<Byte>)
    ensures DecBytes(bs) == Ok((raw, rest)) <==> EncBytes(raw).Ok? && bs == EncBytes(raw).value + rest
  {
    hide LenBytes, DecLen;
    LenExact(bs, |raw|, raw + rest);
    if DecBytes(bs) == Ok((raw, rest)) {
      var l := DecLen(bs).value;
      assert l.1 == l.1[..l.0] + l.1[l.0..];
      assert LenBytes(|raw|).value + (raw + rest) == (LenBytes(|raw|).value + raw) + rest;
    }
    if EncBytes(raw).Ok? && bs == EncBytes(raw).value + rest {
      assert bs == LenBytes(|raw|).value + (raw + rest);
      assert (raw + rest)[..|raw|] == raw && (raw + rest)[|raw|..] == rest;
    }
  }

  lemma HeadExact(bs: seq<Byte>, b: Byte, rest: seq<Byte>)
    ensures bs == [b] + rest <==> bs != [] && bs[0] == b && bs[1..] == rest
  {
    if bs != [] { assert bs == [bs[0]] + bs[1..]; }
  }

  lemma TakeExact(n: nat, bs: seq<Byte>, raw: seq<Byte>, rest: seq<Byte>)
    ensures Take(n, bs) == Ok((raw, rest)) <==> |raw| == n && bs == raw + rest
  {
    if |bs| >= n { assert bs == bs[..n] + bs[n..]; }
    if |raw| == n && bs == raw + rest { assert bs[..n] == raw && bs[n..] == rest; }
  }

  /** Decoding the encoding followed by any tail returns the value and that tail. */
  lemma {:induction false} RoundTrip(utf8: seq<Byte> -> bool, s: Schema, v: Value, bs: seq<Byte>, tail: seq<Byte>)
    requires Matches(utf8, s, v, bs, tail)
    ensures Dec(utf8, s, bs) == Ok((v, tail))
    decreases s, 0
  {
    match s
    case SBool => HeadExact(bs, if v.b then 1 else 0, tail);
    case SU8 => HeadExact(bs, v.n, tail);
    case SI8 => HeadExact(bs, ByteOf(v.i), tail);
    case SUint(w) => VarintExact(bs, UintMax(w), v.n, tail);
    case SInt(w) =>
      VarintExact(bs, U128_END - 1, Zigzag(v.i), tail);
      ZigzagBijection(v.i, 0);
    case SF32 => TakeExact(4, bs, v.raw, tail);
    case SF64 => TakeExact(8, bs, v.raw, tail);
    case SChar => VarintExact(bs, U32_MAX, v.n, tail);
    case SStr => BytesExact(bs, v.raw, tail);
    case SBytes => BytesExact(bs, v.raw, tail);
    case SUnit => assert bs == tail;
    case SOption(inner) =>
      if v.VSome? {
        var e := Enc(utf8, inner, v.v).value;
        assert bs == [1] + (e + tail);
        RoundTrip(utf8, inner, v.v, e + tail, tail);
      }
    case SSeq(elem) =>
      var l, e := LenBytes(|v.vs|).value, EncAll(utf8, elem, v.vs).value;
      assert bs == l + (e + tail);
      LenExact(bs, |v.vs|, e + tail);
      RoundTripAll(utf8, elem, v.vs, e + tail, tail);
    case STuple(fields) => RoundTripFields(utf8, fields, v.vs, bs, tail);
    case SEnum(variants) =>
      var e := EncVariant(utf8, variants, v.idx, v.content).value;
      assert bs == VarintBytes(v.idx) + (e + tail);
      VarintExact(bs, U32_MAX, v.idx, e + tail);
      RoundTripVariant(utf8, variants, v.idx, v.content, e + tail, tail);
  }

  lemma {:induction false} RoundTripAll(utf8: seq<Byte> -> bool, elem: Schema, vs: seq<Value>, bs: seq<Byte>,
    tail: seq<Byte>)
    requires EncAll(utf8, elem, vs).Ok? && bs == EncAll(utf8, elem, vs).value + tail
    ensures DecAll(utf8, elem, |vs|, bs) == Ok((vs, tail))
    decreases elem, |vs| + 1
  {
    hide Dec, Enc;
    if vs != [] {
      var first, rest := Enc(utf8, elem, vs[0]).value, EncAll(utf8, elem, vs[1..]).value;
      assert bs == first + (rest + tail);
      RoundTrip(utf8, elem, vs[0], bs, rest + tail);
      RoundTripAll(utf8, elem, vs[1..], rest + tail, tail);
      assert [vs[0]] + vs[1..] == vs;
    } else {
      assert bs == tail;
    }
  }

  lemma {:induction false} RoundTripFields(utf8: seq<Byte> -> bool, fields: Schemas, vs: seq<Value>, bs: seq<Byte>,
    tail: seq<Byte>)
    requires EncFields(utf8, fields, vs).Ok? && bs == EncFields(utf8, fields, vs).value + tail
    ensures DecFields(utf8, fields, bs) == Ok((vs, tail))
    decreases fields, 0
  {
    hide Dec, Enc;
    match fields
    case Nil => assert bs == tail;
    case Cons(head, more) =>
      var first, rest := Enc(utf8, head, vs[0]).value, EncFields(utf8, more, vs[1..]).value;
      assert bs == first + (rest + tail);
      RoundTrip(utf8, head, vs[0], bs, rest + tail);
      RoundTripFields(utf8, more, vs[1..], rest + tail, tail);
      assert [vs[0]] + vs[1..] == vs;
  }

  lemma {:induction false} RoundTripVariant(utf8: seq<Byte> -> bool, variants: Schemas, idx: nat, v: Value,
    bs: seq<Byte>, tail: seq<Byte>)
    requires EncVariant(utf8, variants, idx, v).Ok? && bs == EncVariant(utf8, variants, idx, v).value + tail
    ensures DecVariant(utf8, variants, idx, bs) == Ok((v, tail))
    decreases variants, 0
  {
    hide Dec, Enc;
    match variants
    case Cons(head, more) =>
      if idx == 0 { RoundTrip(utf8, head, v, bs, tail); } else { RoundTripVariant(utf8, more, idx - 1, v, bs, tail); }
  }

  lemma Reassociate(a: seq<Byte>, b: seq<Byte>, c: seq<Byte>)
    ensures a + (b + c) == (a + b) + c
  {
  }

  predicate IsLeaf(s: Schema) { !s.SOption? && !s.SSeq? && !s.STuple? && !s.SEnum? }

  lemma CanonicalLeaf(utf8: seq<Byte> -> bool, s: Schema, bs: seq<Byte>)
    requires IsLeaf(s) && Dec(utf8, s, bs).Ok?
    ensures Matches(utf8, s, Dec(utf8, s, bs).value.0, bs, Dec(utf8, s, bs).value.1)
  {
    hide ReadUint, VarintBytes, DecBytes, EncBytes, LenBytes, DecLen, Take;
    var (v, rest) := Dec(utf8, s, bs).value;
    match s
    case SBool => HeadExact(bs, bs[0], rest);
    case SU8 => HeadExact(bs, bs[0], rest);
    case SI8 => HeadExact(bs, bs[0], rest);
    case SUint(w) => VarintExact(bs, UintMax(w), v.n, rest);
    case SInt(w) =>
      var u := ReadUint(bs, U128_END - 1).value.0;
      VarintExact(bs, U128_END - 1, u, rest);
      ZigzagBijection(v.i, u);
    case SF32 => TakeExact(4, bs, v.raw, rest);
    case SF64 => TakeExact(8, bs, v.raw, rest);
    case SChar => VarintExact(bs, U32_MAX, v.n, rest);
    case SStr => BytesExact(bs, v.raw, rest);
    case SBytes => BytesExact(bs, v.raw, rest);
    case SUnit => assert bs == [] + rest;
  }

  /** Whatever is accepted is the encoding of the value it decodes to. */
  lemma {:induction false} Canonical(utf8: seq<Byte> -> bool, s: Schema, bs: seq<Byte>)
    requires Dec(utf8, s, bs).Ok?
    ensures Matches(utf8, s, Dec(utf8, s, bs).value.0, bs, Dec(utf8, s, bs).value.1)
    decreases s, 0
  {
    hide ReadUint, VarintBytes, DecBytes, EncBytes, LenBytes, DecLen, IsScalar, Take, Zigzag, Unzigzag;
    var (v, rest) := Dec(utf8, s, bs).value;
    match s
    case SOption(inner) =>
      if bs[0] == 1 {
        Canonical(utf8, inner, bs[1..]);
        assert bs == [1] + bs[1..];
        assert [1] + (Enc(utf8, inner, v.v).value + rest) == ([1] + Enc(utf8, inner, v.v).value) + rest;
      } else {
        HeadExact(bs, 0, rest);
      }
    case SSeq(elem) =>
      var (n, more) := DecLen(bs).value;
      LenExact(bs, n, more);
      CanonicalAll(utf8, elem, n, more);
      assert LenBytes(n).value + (EncAll(utf8, elem, v.vs).value + rest) == (LenBytes(n).value + EncAll(utf8, elem,
        v.vs).value) + rest;
    case STuple(fields) => CanonicalFields(utf8, fields, bs);
    case SEnum(variants) =>
      var (idx, more) := ReadUint(bs, U32_MAX).value;
      VarintExact(bs, U32_MAX, idx, more);
      CanonicalVariant(utf8, variants, idx, more);
      var e := EncVariant(utf8, variants, idx, v.content).value;
      assert VarintBytes(idx) + (e + rest) == (VarintBytes(idx) + e) + rest;
    case _ => CanonicalLeaf(utf8, s, bs);
  }

  lemma {:induction false} CanonicalAll(utf8: seq<Byte> -> bool, elem: Schema, count: nat, bs: seq<Byte>)
    requires DecAll(utf8, elem, count, bs).Ok?
    ensures var (vs, rest) := DecAll(utf8, elem, count, bs).value;
      |vs| == count && EncAll(utf8, elem, vs).Ok? && bs == EncAll(utf8, elem, vs).value + rest
    decreases elem, count + 1
  {
    hide Dec, Enc;
    if count > 0 {
      var (v, more) := Dec(utf8, elem, bs).value;
      Canonical(utf8, elem, bs);
      CanonicalAll(utf8, elem, count - 1, more);
      var (vs, rest) := DecAll(utf8, elem, count - 1, more).value;
      assert ([v] + vs)[1..] == vs;
      Reassociate(Enc(utf8, elem, v).value, EncAll(utf8, elem, vs).value, rest);
    } else {
      assert bs == [] + bs;
    }
  }

  lemma {:induction false} CanonicalFields(utf8: seq<Byte> -> bool, fields: Schemas, bs: seq<Byte>)
    requires DecFields(utf8, fields, bs).Ok?
    ensures var (vs, rest) := DecFields(utf8, fields, bs).value;
      EncFields(utf8, fields, vs).Ok? && bs == EncFields(utf8, fields, vs).value + rest
    decreases fields, 0
  {
    hide Dec, Enc;
    match fields
    case Nil => assert bs == [] + bs;
    case Cons(head, tail) =>
      var (v, more) := Dec(utf8, head, bs).value;
      Canonical(utf8, head, bs);
      CanonicalFields(utf8, tail, more);
      var (vs, rest) := DecFields(utf8, tail, more).value;
      assert ([v] + vs)[1..] == vs;
      Reassociate(Enc(utf8, head, v).value, EncFields(utf8, tail, vs).value, rest);
  }

  lemma {:induction false} CanonicalVariant(utf8: seq<Byte> -> bool, variants: Schemas, idx: nat, bs: seq<Byte>)
    requires DecVariant(utf8, variants, idx, bs).Ok?
    ensures var (v, rest) := DecVariant(utf8, variants, idx, bs).value;
      EncVariant(utf8, variants, idx, v).Ok? && bs == EncVariant(utf8, variants, idx, v).value + rest
    decreases variants, 0
  {
    hide Dec, Enc;
    match variants
    case Cons(head, tail) =>
      if idx == 0 { Canonical(utf8, head, bs); } else { CanonicalVariant(utf8, tail, idx - 1, bs); }
  }

  /** Byte strings and values of a type are in bijection: reading gives v and leaves rest exactly when the input is the
      encoding of v followed by rest. */
  lemma CodecExact(utf8: seq<Byte> -> bool, s: Schema, v: Value, bs: seq<Byte>, rest: seq<Byte>)
    ensures Dec(utf8, s, bs) == Ok((v, rest)) <==> Matches(utf8, s, v, bs, rest)
  {
    if Dec(utf8, s, bs) == Ok((v, rest)) { Canonical(utf8, s, bs); }
    if Matches(utf8, s, v, bs, rest) { RoundTrip(utf8, s, v, bs, rest); }
  }

  /** Encodings of one type are prefix-free and injective. */
  lemma PrefixFree(utf8: seq<Byte> -> bool, s: Schema, v: Value, v': Value)
    requires Enc(utf8, s, v).Ok? && Enc(utf8, s, v').Ok? && Enc(utf8, s, v).value <= Enc(utf8, s, v').value
    ensures v == v'
  {
    var a, b := Enc(utf8, s, v).value, Enc(utf8, s, v').value;
    assert b == a + b[|a|..] && b == b + [];
    RoundTrip(utf8, s, v, b, b[|a|..]);
    RoundTrip(utf8, s, v', b, []);
  }
}
