/** The serializer and deserializer of src/wire.rs, writing to a sink and reading from a source, against the codec's
    meaning. */
module WireCodec {
  import opened NumberTheory
  import opened Results
  import opened Varint
  import opened Wire

  // ---------- the serializer ----------

  /** Serializer::len */
  method WriteLen(w: Sink, n: nat) returns (err: Option<WireError>)
    modifies w
    ensures err == None <==> LenBytes(n).Ok?
    ensures err == None ==> w.out == old(w.out) + LenBytes(n).value
    ensures err.Some? ==> LenBytes(n) == Err(err.value) && w.out == old(w.out)
  {
    if n > MAX_LEN { return Some(TooLong); }
    SmallLength(n);
    WriteVarint(w, n);
    return None;
  }

  lemma SmallLength(n: nat)
    requires n <= MAX_LEN
    ensures n < U128_END
  {
  }

  method WriteBytes(w: Sink, bs: seq<Byte>) returns (err: Option<WireError>)
    modifies w
    ensures err == None <==> EncBytes(bs).Ok?
    ensures err == None ==> w.out == old(w.out) + EncBytes(bs).value
    ensures err.Some? ==> EncBytes(bs) == Err(err.value) && w.out == old(w.out)
  {
    hide LenBytes;
    err := WriteLen(w, |bs|);
    if err.Some? { return; }
    w.WriteAll(bs);
    assert w.out == old(w.out) + (LenBytes(|bs|).value + bs);
  }

  /** Everything written so far is kept, and a success appends exactly the bytes of the value. */
  ghost predicate Wrote(before: seq<Byte>, after: seq<Byte>, r: Result<seq<Byte>, WireError>, err: Option<WireError>) {
    && before <= after
    && (err == None <==> r.Ok?)
    && (err == None ==> after == before + r.value)
    && (err.Some? ==> r == Err(err.value))
  }

  /** A value of a type without parts. */
  method SerializeLeaf(utf8: seq<Byte> -> bool, s: Schema, v: Value, w: Sink) returns (err: Option<WireError>)
    requires IsLeaf(s)
    modifies w
    ensures Wrote(old(w.out), w.out, Enc(utf8, s, v), err)
  {
    hide VarintBytes, EncBytes, LenBytes, Zigzag;
    match s {
      case SBool =>
        if !v.VBool? { return Some(ILL_TYPED); }
        w.WriteAll([if v.b then 1 else 0]);
      case SU8 =>
        if !v.VUint? || v.n >= 256 { return Some(ILL_TYPED); }
        w.WriteAll([v.n]);
      case SI8 =>
        if !v.VInt? || v.i < -128 || v.i >= 128 { return Some(ILL_TYPED); }
        w.WriteAll([ByteOf(v.i)]);
      case SUint(width) =>
        if !v.VUint? || v.n > UintMax(width) { return Some(ILL_TYPED); }
        WriteVarint(w, v.n);
      case SInt(width) =>
        if !v.VInt? || v.i < -IntMax(width) - 1 || v.i > IntMax(width) { return Some(ILL_TYPED); }
        WriteVarint(w, Zigzag(v.i));
      case SF32 =>
        if !v.VRaw? || |v.raw| != 4 { return Some(ILL_TYPED); }
        w.WriteAll(v.raw);
      case SF64 =>
        if !v.VRaw? || |v.raw| != 8 { return Some(ILL_TYPED); }
        w.WriteAll(v.raw);
      case SChar =>
        if !v.VUint? || !IsScalar(v.n) { return Some(ILL_TYPED); }
        WriteVarint(w, v.n);
      case SStr =>
        if !v.VRaw? || !utf8(v.raw) { return Some(ILL_TYPED); }
        err := WriteBytes(w, v.raw);
        return;
      case SBytes =>
        if !v.VRaw? { return Some(ILL_TYPED); }
        err := WriteBytes(w, v.raw);
        return;
      case SUnit =>
        if !v.VUnit? { return Some(ILL_TYPED); }
    }
    return None;
  }

  /** to_writer */
  method Serialize(utf8: seq<Byte> -> bool, s: Schema, v: Value, w: Sink) returns (err: Option<WireError>)
    modifies w
    ensures Wrote(old(w.out), w.out, Enc(utf8, s, v), err)
    decreases s, 0
  {
    hide VarintBytes, LenBytes;
    if IsLeaf(s) {
      err := SerializeLeaf(utf8, s, v, w);
      return;
    }
    match s
    case SOption(inner) =>
      if v.VNone? {
        w.WriteAll([0]);
        return None;
      }
      if !v.VSome? { return Some(ILL_TYPED); }
      w.WriteAll([1]);
      err := Serialize(utf8, inner, v.v, w);
      if err == None { Regroup3(old(w.out), [1], Enc(utf8, inner, v.v).value); }
    case SSeq(elem) =>
      if !v.VList? { return Some(ILL_TYPED); }
      err := WriteLen(w, |v.vs|);
      if err.Some? { return; }
      err := SerializeAll(utf8, elem, v.vs, w);
      if err == None { Regroup3(old(w.out), LenBytes(|v.vs|).value, EncAll(utf8, elem, v.vs).value); }
    case STuple(fields) =>
      if !v.VList? { return Some(ILL_TYPED); }
      err := SerializeFields(utf8, fields, v.vs, w);
    case SEnum(variants) =>
      if !v.VVariant? || v.idx > U32_MAX { return Some(ILL_TYPED); }
      WriteVarint(w, v.idx);
      err := SerializeVariant(utf8, variants, v.idx, v.content, w);
      if err == None { Regroup3(old(w.out), VarintBytes(v.idx), EncVariant(utf8, variants, v.idx, v.content).value); }
  }

  lemma Regroup3(a: seq<Byte>, b: seq<Byte>, c: seq<Byte>)
    ensures (a + b) + c == a + (b + c)
  {
  }

  /** The elements of a sequence, in order. */
  method SerializeAll(utf8: seq<Byte> -> bool, elem: Schema, vs: seq<Value>, w: Sink) returns (err: Option<WireError>)
    modifies w
    ensures Wrote(old(w.out), w.out, EncAll(utf8, elem, vs), err)
    decreases elem, 1
  {
    hide Enc;
    for k := 0 to |vs|
      invariant old(w.out) <= w.out
      invariant EncAll(utf8, elem, vs).Ok? <==> EncAll(utf8, elem, vs[k..]).Ok?
      invariant EncAll(utf8, elem, vs[k..]).Ok? ==>
        old(w.out) + EncAll(utf8, elem, vs).value == w.out + EncAll(utf8, elem, vs[k..]).value
      invariant EncAll(utf8, elem, vs[k..]).Err? ==> EncAll(utf8, elem, vs) == EncAll(utf8, elem, vs[k..])
    {
      assert vs[k..][0] == vs[k] && vs[k..][1..] == vs[k + 1..];
      ghost var before := w.out;
      err := Serialize(utf8, elem, vs[k], w);
      if err.Some? { return; }
      if EncAll(utf8, elem, vs[k + 1..]).Ok? {
        Regroup3(before, Enc(utf8, elem, vs[k]).value, EncAll(utf8, elem, vs[k + 1..]).value);
      }
    }
    assert w.out + [] == w.out;
    return None;
  }

  method SerializeFields(utf8: seq<Byte> -> bool, fields: Schemas, vs: seq<Value>,
    w: Sink) returns (err: Option<WireError>)
    modifies w
    ensures Wrote(old(w.out), w.out, EncFields(utf8, fields, vs), err)
    decreases fields, 0
  {
    hide Enc;
    match fields
    case Nil =>
      if vs != [] { return Some(ILL_TYPED); }
      assert w.out + [] == w.out;
      return None;
    case Cons(head, tail) =>
      if vs == [] { return Some(ILL_TYPED); }
      err := Serialize(utf8, head, vs[0], w);
      if err.Some? { return; }
      err := SerializeFields(utf8, tail, vs[1..], w);
      if err == None { Regroup3(old(w.out), Enc(utf8, head, vs[0]).value, EncFields(utf8, tail, vs[1..]).value); }
  }

  method SerializeVariant(utf8: seq<Byte> -> bool, variants: Schemas, idx: nat, v: Value,
    w: Sink) returns (err: Option<WireError>)
    modifies w
    ensures Wrote(old(w.out), w.out, EncVariant(utf8, variants, idx, v), err)
    decreases variants, 0
  {
    hide Enc;
    match variants
    case Nil => return Some(ILL_TYPED);
    case Cons(head, tail) =>
      if idx == 0 {
        err := Serialize(utf8, head, v, w);
      } else {
        err := SerializeVariant(utf8, tail, idx - 1, v, w);
      }
  }

  /** to_vec */
  method ToVec(utf8: seq<Byte> -> bool, s: Schema, v: Value) returns (res: Result<seq<Byte>, WireError>)
    ensures res == Enc(utf8, s, v)
  {
    hide Enc;
    var w := new Sink();
    var err := Serialize(utf8, s, v, w);
    if err.Some? { return Err(err.value); }
    assert [] + Enc(utf8, s, v).value == Enc(utf8, s, v).value;
    return Ok(w.out);
  }

  // ---------- the deserializer ----------

  /** A read agrees with its meaning: the value and what is left of the source. */
  ghost predicate Got<T>(rest: seq<Byte>, meaning: Read<T>, res: Result<T, WireError>) {
    if res.Ok? then meaning == Ok((res.value, rest)) else meaning == Err(res.error)
  }

  method ReadLen(r: Source) returns (res: Result<nat, WireError>)
    modifies r
    ensures Got(r.rest, DecLen(old(r.rest)), res)
  {
    hide ReadUint;
    res := ReadVarint(r, U64_MAX);
    if res.Err? { return; }
    if res.value > MAX_LEN { return Err(TooLong); }
  }

  /** read_bytes: the buffer grows by at most a chunk at a time, and only as bytes arrive. */
  method ReadBytes(r: Source, len: nat) returns (res: Result<seq<Byte>, WireError>)
    modifies r
    ensures Got(r.rest, Take(len, old(r.rest)), res)
  {
    var out: seq<Byte> := [];
    assert out + r.rest == old(r.rest);
    while |out| < len
      invariant |out| <= len && out + r.rest == old(r.rest)
      decreases len - |out|
    {
      var n := if len - |out| < READ_CHUNK then len - |out| else READ_CHUNK;
      ghost var before := r.rest;
      var chunk := r.ReadExact(n);
      if chunk.Err? { return Err(chunk.error); }
      assert before == before[..n] + before[n..];
      Regroup3(out, chunk.value, r.rest);
      out := out + chunk.value;
    }
    assert old(r.rest)[..len] == out && old(r.rest)[len..] == r.rest;
    return Ok(out);
  }

  method ReadByteString(r: Source) returns (res: Result<seq<Byte>, WireError>)
    modifies r
    ensures Got(r.rest, DecBytes(old(r.rest)), res)
  {
    hide DecLen;
    var len := ReadLen(r);
    if len.Err? { return Err(len.error); }
    res := ReadBytes(r, len.value);
  }

  method ReadByte(r: Source) returns (res: Result<Byte, WireError>)
    modifies r
    ensures old(r.rest) == [] <==> res.Err?
    ensures res.Err? ==> res.error == UnexpectedEof
    ensures res.Ok? ==> res.value == old(r.rest)[0] && r.rest == old(r.rest)[1..]
  {
    var b := r.ReadExact(1);
    return if b.Err? then Err(b.error) else Ok(b.value[0]);
  }

  /** A value of a type without parts. */
  method DeserializeLeaf(utf8: seq<Byte> -> bool, s: Schema, r: Source) returns (res: Result<Value, WireError>)
    requires IsLeaf(s)
    modifies r
    ensures Got(r.rest, Dec(utf8, s, old(r.rest)), res)
  {
    hide ReadUint, DecBytes, DecLen, Unzigzag;
    match s
    case SBool =>
      var b := ReadByte(r);
      if b.Err? { return Err(b.error); }
      return if b.value == 0 then Ok(VBool(false)) else if b.value == 1 then Ok(VBool(true))
        else Err(Invalid("bool must be 0 or 1"));
    case SU8 =>
      var b := ReadByte(r);
      return if b.Err? then Err(b.error) else Ok(VUint(b.value));
    case SI8 =>
      var b := ReadByte(r);
      return if b.Err? then Err(b.error) else Ok(VInt(SignedByte(b.value)));
    case SUint(w) =>
      var n := ReadVarint(r, UintMax(w));
      return if n.Err? then Err(n.error) else Ok(VUint(n.value));
    case SInt(w) =>
      var n := ReadVarint(r, U128_END - 1);
      if n.Err? { return Err(n.error); }
      if n.value >= U128_END { return Err(Invalid("integer out of range")); }
      var i := Unzigzag(n.value);
      return if i < -IntMax(w) - 1 || i > IntMax(w) then Err(Invalid("integer out of range")) else Ok(VInt(i));
    case SF32 =>
      var b := r.ReadExact(4);
      return if b.Err? then Err(b.error) else Ok(VRaw(b.value));
    case SF64 =>
      var b := r.ReadExact(8);
      return if b.Err? then Err(b.error) else Ok(VRaw(b.value));
    case SChar =>
      var n := ReadVarint(r, U32_MAX);
      if n.Err? { return Err(n.error); }
      return if !IsScalar(n.value) then Err(Invalid("invalid char")) else Ok(VUint(n.value));
    case SStr =>
      var b := ReadByteString(r);
      if b.Err? { return Err(b.error); }
      return if !utf8(b.value) then Err(Invalid("invalid UTF-8")) else Ok(VRaw(b.value));
    case SBytes =>
      var b := ReadByteString(r);
      return if b.Err? then Err(b.error) else Ok(VRaw(b.value));
    case SUnit => return Ok(VUnit);
  }

  /** from_reader */
  method Deserialize(utf8: seq<Byte> -> bool, s: Schema, r: Source) returns (res: Result<Value, WireError>)
    modifies r
    ensures Got(r.rest, Dec(utf8, s, old(r.rest)), res)
    decreases s, 0
  {
    hide ReadUint, DecLen;
    if IsLeaf(s) {
      res := DeserializeLeaf(utf8, s, r);
      return;
    }
    match s
    case SOption(inner) =>
      var tag := ReadByte(r);
      if tag.Err? { return Err(tag.error); }
      if tag.value == 0 { return Ok(VNone); }
      if tag.value != 1 { return Err(Invalid("option tag must be 0 or 1")); }
      var v := Deserialize(utf8, inner, r);
      return if v.Err? then v else Ok(VSome(v.value));
    case SSeq(elem) =>
      var n := ReadLen(r);
      if n.Err? { return Err(n.error); }
      var vs := DeserializeAll(utf8, elem, n.value, r);
      return if vs.Err? then Err(vs.error) else Ok(VList(vs.value));
    case STuple(fields) =>
      var vs := DeserializeFields(utf8, fields, r);
      return if vs.Err? then Err(vs.error) else Ok(VList(vs.value));
    case SEnum(variants) =>
      var idx := ReadVarint(r, U32_MAX);
      if idx.Err? { return Err(idx.error); }
      var v := DeserializeVariant(utf8, variants, idx.value, r);
      return if v.Err? then v else Ok(VVariant(idx.value, v.value));
  }

  /** Counted: elements are asked for while any are left. */
  method DeserializeAll(utf8: seq<Byte> -> bool, elem: Schema, count: nat, r: Source) returns (res: Result<seq<Value>,
    WireError>)
    modifies r
    ensures Got(r.rest, DecAll(utf8, elem, count, old(r.rest)), res)
    decreases elem, 1
  {
    hide Dec;
    var vs: seq<Value> := [];
    var left := count;
    ghost var all := DecAll(utf8, elem, count, r.rest);
    assert all.Ok? ==> [] + all.value.0 == all.value.0;
    while left > 0
      invariant DecAll(utf8, elem, count, old(r.rest)).Ok? <==> DecAll(utf8, elem, left, r.rest).Ok?
      invariant DecAll(utf8, elem, left, r.rest).Err? ==>
        DecAll(utf8, elem, count, old(r.rest)) == DecAll(utf8, elem, left, r.rest)
      invariant DecAll(utf8, elem, left, r.rest).Ok? ==>
        DecAll(utf8, elem, count, old(r.rest)) == Ok((vs + DecAll(utf8, elem, left, r.rest).value.0,
          DecAll(utf8, elem, left, r.rest).value.1))
    {
      left := left - 1;
      ghost var before := r.rest;
      var v := Deserialize(utf8, elem, r);
      if v.Err? { return Err(v.error); }
      if DecAll(utf8, elem, left, r.rest).Ok? {
        ListStep(vs, v.value, DecAll(utf8, elem, left, r.rest).value.0);
      }
      vs := vs + [v.value];
    }
    assert vs + [] == vs;
    return Ok(vs);
  }

  lemma ListStep(vs: seq<Value>, v: Value, rest: seq<Value>)
    ensures vs + ([v] + rest) == (vs + [v]) + rest
  {
  }

  method DeserializeFields(utf8: seq<Byte> -> bool, fields: Schemas, r: Source) returns (res: Result<seq<Value>,
    WireError>)
    modifies r
    ensures Got(r.rest, DecFields(utf8, fields, old(r.rest)), res)
    decreases fields, 0
  {
    hide Dec;
    match fields
    case Nil => return Ok([]);
    case Cons(head, tail) =>
      var v := Deserialize(utf8, head, r);
      if v.Err? { return Err(v.error); }
      var vs := DeserializeFields(utf8, tail, r);
      return if vs.Err? then vs else Ok([v.value] + vs.value);
  }

  method DeserializeVariant(utf8: seq<Byte> -> bool, variants: Schemas, idx: nat, r: Source) returns (res: Result<Value,
    WireError>)
    modifies r
    ensures Got(r.rest, DecVariant(utf8, variants, idx, old(r.rest)), res)
    decreases variants, 0
  {
    hide Dec;
    match variants
    case Nil => return Err(Invalid("unknown variant"));
    case Cons(head, tail) =>
      if idx == 0 {
        res := Deserialize(utf8, head, r);
      } else {
        res := DeserializeVariant(utf8, tail, idx - 1, r);
      }
  }

  /** from_slice: the value must span the whole input, so it accepts exactly the encodings. */
  method FromSlice(utf8: seq<Byte> -> bool, s: Schema, bytes: seq<Byte>) returns (res: Result<Value, WireError>)
    ensures res.Ok? ==> Enc(utf8, s, res.value) == Ok(bytes)
    ensures res.Err? ==> forall v :: Enc(utf8, s, v) != Ok(bytes)
  {
    var r := new Source(bytes);
    res := Deserialize(utf8, s, r);
    hide Enc, Dec;
    assert bytes + [] == bytes;
    if res.Err? || r.rest != [] {
      forall v ensures Enc(utf8, s, v) != Ok(bytes) { CodecExact(utf8, s, v, bytes, []); }
    }
    if res.Ok? && r.rest != [] { return Err(TrailingBytes); }
    if res.Ok? {
      CodecExact(utf8, s, res.value, bytes, []);
      assert Enc(utf8, s, res.value).value + [] == Enc(utf8, s, res.value).value;
    }
  }

  // ---------- keys ----------

  /** write_key: a version byte, then the key's wire struct. */
  method WriteKey(utf8: seq<Byte> -> bool, s: Schema, v: Value, w: Sink) returns (err: Option<WireError>)
    modifies w
    ensures err == None <==> Enc(utf8, s, v).Ok?
    ensures err == None ==> w.out == old(w.out) + ([KEY_ENCODING_VERSION] + Enc(utf8, s, v).value)
    ensures err.Some? ==> Enc(utf8, s, v) == Err(err.value)
  {
    hide Enc;
    w.WriteAll([KEY_ENCODING_VERSION]);
    err := Serialize(utf8, s, v, w);
    if err == None { Regroup3(old(w.out), [KEY_ENCODING_VERSION], Enc(utf8, s, v).value); }
  }

  /** key_to_vec: the counting pass sizes the buffer exactly. */
  method KeyToVec(utf8: seq<Byte> -> bool, s: Schema, v: Value) returns (res: Result<seq<Byte>, WireError>,
    capacity: nat)
    ensures res.Ok? <==> Enc(utf8, s, v).Ok?
    ensures res.Ok? ==> res.value == [KEY_ENCODING_VERSION] + Enc(utf8, s, v).value && capacity == |res.value|
    ensures res.Err? ==> Enc(utf8, s, v) == Err(res.error)
  {
    hide Enc;
    var counter := new Sink();
    var err := WriteKey(utf8, s, v, counter);
    if err.Some? { return Err(err.value), 0; }
    capacity := |counter.out|;
    var w := new Sink();
    err := WriteKey(utf8, s, v, w);
    assert err == None;
    res := Ok(w.out);
  }

  /** What the key codec needs of a key type: the schema of its wire struct and the conversions, either of which may
      refuse. */
  datatype KeyForm<!K> = KeyForm(schema: Schema, toWire: K -> Result<Value, WireError>, fromWire: Value -> Result<K,
    WireError>)

  /** The bytes are the version and the encoding of the wire struct v. */
  ghost predicate KeyBytes(utf8: seq<Byte> -> bool, s: Schema, v: Value, bytes: seq<Byte>) {
    Enc(utf8, s, v).Ok? && bytes == [1] + Enc(utf8, s, v).value
  }

  /** to_bytes of a key */
  method KeyToBytes<K>(utf8: seq<Byte> -> bool, f: KeyForm<K>, key: K) returns (res: Result<seq<Byte>, WireError>)
    ensures res.Ok? <==> f.toWire(key).Ok? && Enc(utf8, f.schema, f.toWire(key).value).Ok?
    ensures res.Ok? ==> KeyBytes(utf8, f.schema, f.toWire(key).value, res.value)
  {
    hide Enc;
    var v := f.toWire(key);
    if v.Err? { return Err(v.error); }
    var capacity;
    res, capacity := KeyToVec(utf8, f.schema, v.value);
  }

  /** from_bytes of a key: version, wire struct, conversion, and only then the check for trailing bytes. It accepts
      exactly the encodings of wire structs that convert, and yields the converted key. */
  method KeyFromBytes<K>(utf8: seq<Byte> -> bool, f: KeyForm<K>, bytes: seq<Byte>) returns (res: Result<K, WireError>)
    ensures res.Ok? ==> exists v :: KeyBytes(utf8, f.schema, v, bytes) && f.fromWire(v) == Ok(res.value)
    ensures forall v :: KeyBytes(utf8, f.schema, v, bytes) ==> (res.Ok? <==> f.fromWire(v).Ok?)
    ensures forall v :: KeyBytes(utf8, f.schema, v, bytes) && res.Ok? ==> f.fromWire(v) == Ok(res.value)
  {
    hide Enc, Dec;
    var r := new Source(bytes);
    var version := ReadByte(r);
    if version.Err? { return Err(version.error); }
    if version.value != KEY_ENCODING_VERSION { return Err(Invalid("unsupported key encoding version")); }
    var body := r.rest;
    var v := Deserialize(utf8, f.schema, r);
    forall w ensures KeyBytes(utf8, f.schema, w, bytes) <==>
      Dec(utf8, f.schema, body) == Ok((w, [])) { KeyBytesMean(utf8, f.schema, w, bytes, body); }
    if v.Err? { return Err(v.error); }
    var key := f.fromWire(v.value);
    if key.Err? { return Err(key.error); }
    if r.rest != [] { return Err(TrailingBytes); }
    assert KeyBytes(utf8, f.schema, v.value, bytes);
    return Ok(key.value);
  }

  lemma KeyBytesMean(utf8: seq<Byte> -> bool, s: Schema, v: Value, bytes: seq<Byte>, body: seq<Byte>)
    requires bytes == [KEY_ENCODING_VERSION] + body
    ensures KeyBytes(utf8, s, v, bytes) <==> Dec(utf8, s, body) == Ok((v, []))
  {
    hide Enc, Dec;
    CodecExact(utf8, s, v, body, []);
    if Enc(utf8, s, v).Ok? {
      var e := Enc(utf8, s, v).value;
      assert e + [] == e;
      assert ([KEY_ENCODING_VERSION] + e)[1..] == e && bytes[1..] == body;
    }
  }

  /** Writing a key and reading the bytes back gives the key, whenever its wire struct converts back to it. */
  method KeyRoundTrip<K>(utf8: seq<Byte> -> bool, f: KeyForm<K>, key: K) returns (back: Result<K, WireError>)
    requires f.toWire(key).Ok? ==> f.fromWire(f.toWire(key).value) == Ok(key)
    ensures back.Ok? <==> f.toWire(key).Ok? && Enc(utf8, f.schema, f.toWire(key).value).Ok?
    ensures back.Ok? ==> back.value == key
  {
    hide Enc, KeyBytes;
    var bytes := KeyToBytes(utf8, f, key);
    if bytes.Err? { return Err(bytes.error); }
    back := KeyFromBytes(utf8, f, bytes.value);
  }
}
