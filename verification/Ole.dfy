/** Gilboa multiplication over OT extension (src/dklstss/ole.rs): Alice holds alpha, Bob holds
    beta, and they end with u_A + u_B = alpha * beta modulo n. */
module Ole {
  import opened NumberTheory
  import opened Bits
  import opened Results
  import opened Secp
  import opened OtExtension
  import opened BaseOt

  const SCALAR_BITS: nat := 256
  const PAD_BITS: nat := SIGMA + 80
  const EXT_BITS: nat := SCALAR_BITS + PAD_BITS

  /** The group order fits in a 32-byte scalar, as secp256k1's does. */
  ghost predicate FitsScalar(n: int) { 0 < n <= TWO_TO_256 }

  const TWO_TO_256: int := 0x1_0000000000000000_0000000000000000_0000000000000000_0000000000000000

  lemma PowerIs(k: nat)
    requires k == SCALAR_BITS
    ensures Pow(2, k) == TWO_TO_256
  {
    PowOnce(2);
    hide Pow;
    PowAdd(2, 1, 1);
    PowAdd(2, 2, 2);
    PowAdd(2, 4, 4);
    PowAdd(2, 8, 8);
    PowAdd(2, 16, 16);
    PowAdd(2, 32, 32);
    PowAdd(2, 64, 64);
    PowAdd(2, 128, 128);
  }

  // ---------- bits of an integer ----------

  /** a / 2^k */
  function Shifted(a: nat, k: nat): nat {
    if k == 0 then a else Shifted(a, k - 1) / 2
  }

  predicate NatBit(a: nat, k: nat) { Shifted(a, k) % 2 == 1 }

  /** sum over i < k of bit_i(a) * 2^i */
  function BitSum(a: nat, k: nat): int {
    if k == 0 then 0 else BitSum(a, k - 1) + if NatBit(a, k - 1) then Pow(2, k - 1) else 0
  }

  lemma {:induction false} PowPositive(k: nat)
    ensures Pow(2, k) > 0
  {
    if k > 0 { PowPositive(k - 1); }
  }

  lemma {:induction false} SplitAtBit(a: nat, k: nat)
    ensures a == BitSum(a, k) + Pow(2, k) * Shifted(a, k)
  {
    if k > 0 {
      SplitAtBit(a, k - 1);
      var s, p := Shifted(a, k - 1), Pow(2, k - 1);
      assert Pow(2, k) == 2 * p;
      SplitIdentity(p, s);
    }
  }

  lemma {:induction false} BitSumNonNegative(a: nat, k: nat)
    ensures BitSum(a, k) >= 0
  {
    if k > 0 {
      BitSumNonNegative(a, k - 1);
      PowPositive(k - 1);
    }
  }

  lemma SplitIdentity(p: int, s: nat)
    ensures p * s == (if s % 2 == 1 then p else 0) + (2 * p) * (s / 2)
  {
    var h := s / 2;
    if s % 2 == 1 {
      assert s == 2 * h + 1;
      assert p * (2 * h + 1) == p + (2 * p) * h;
    } else {
      assert s == 2 * h;
      assert p * (2 * h) == (2 * p) * h;
    }
  }

  /** An integer below 2^k is the sum of its k low bits. */
  lemma BitsRecompose(a: nat, k: nat)
    requires a < Pow(2, k)
    ensures BitSum(a, k) == a
  {
    SplitAtBit(a, k);
    BitSumNonNegative(a, k);
    if Shifted(a, k) > 0 {
      MulMono(1, Shifted(a, k), Pow(2, k));
      assert false;
    }
  }

  /** Numbers with the same low bits have the same sum of them. */
  lemma {:induction false} SameBitsSameSum(a: nat, b: nat, k: nat)
    requires forall i :: 0 <= i < k ==> NatBit(a, i) == NatBit(b, i)
    ensures BitSum(a, k) == BitSum(b, k)
  {
    if k > 0 { SameBitsSameSum(a, b, k - 1); }
  }

  /** The low `width` bytes of an integer, most significant first. */
  function BytesBE(a: nat, width: nat): (be: bytes)
    ensures |be| == width
  {
    seq(width, p requires 0 <= p < width => ByteAt(a, width - 1 - p))
  }

  /** Byte j of an integer. */
  function ByteAt(a: nat, j: nat): byte { PackByte(seq(8, k requires 0 <= k < 8 => NatBit(a, 8 * j + k))) }

  /** The 32 big-endian bytes of a scalar. */
  function ToBytesBE(a: nat): (be: bytes)
    ensures |be| == 32
  {
    BytesBE(a, 32)
  }

  /** Bit i of a big-endian scalar: (be[31 - i/8] >> (i & 7)) & 1. */
  predicate BeBit(be: bytes, i: nat)
    requires |be| == 32 && i < SCALAR_BITS
  {
    Bit(be[31 - i / 8], i % 8)
  }

  lemma BeBitIsNatBit(a: nat, i: nat)
    requires i < SCALAR_BITS
    ensures BeBit(ToBytesBE(a), i) == NatBit(a, i)
  {
    hide Bit, NatBit;
    var j, k := i / 8, i % 8;
    assert ToBytesBE(a)[31 - j] == ByteAt(a, j);
    PackByteBit(seq(8, m requires 0 <= m < 8 => NatBit(a, 8 * j + m)), k);
  }

  /** Little-endian repacking of a big-endian scalar, for use as choice bits. */
  method BitsLE(be: bytes) returns (out: bytes)
    requires |be| == 32
    ensures |out| == SCALAR_BITS / 8
    ensures forall i :: 0 <= i < SCALAR_BITS ==> BitAt(out, i) == BeBit(be, i)
  {
    out := seq(SCALAR_BITS / 8, _ => 0);
    ZeroString(out);
    for i := 0 to SCALAR_BITS
      invariant |out| == SCALAR_BITS / 8
      invariant forall k :: 0 <= k < SCALAR_BITS ==> BitAt(out, k) == (k < i && BeBit(be, k))
    {
      var bit := BeBit(be, i);
      ghost var before := out;
      out := SetBitAt(out, i, bit);
      forall k | 0 <= k < SCALAR_BITS ensures BitAt(out, k) == (k < i + 1 && BeBit(be, k)) {
        SetBitAtBit(before, i, bit, k);
      }
    }
  }

  /** Big-endian value of a byte string. */
  function BeValue(b: bytes): nat {
    if b == [] then 0 else 256 * BeValue(b[..|b| - 1]) + b[|b| - 1] as nat
  }

  // ---------- the bytes of an integer ----------

  lemma {:induction false} ShiftedMore(a: nat, j: nat, k: nat)
    ensures Shifted(a, j + k) == Shifted(Shifted(a, j), k)
  {
    if k > 0 { ShiftedMore(a, j, k - 1); }
  }

  lemma ByteAtBit(a: nat, j: nat, k: nat)
    requires k < 8
    ensures Bit(ByteAt(a, j), k) == NatBit(Shifted(a, 8 * j), k)
  {
    hide Bit, PackByte, Shifted;
    PackByteBit(seq(8, k requires 0 <= k < 8 => NatBit(a, 8 * j + k)), k);
    ShiftedMore(a, 8 * j, k);
  }

  /** Byte j is digit j in base 256. */
  lemma ByteAtValue(a: nat, j: nat)
    ensures ByteAt(a, j) as nat == Shifted(a, 8 * j) % 256
    ensures Shifted(a, 8 * (j + 1)) == Shifted(a, 8 * j) / 256
  {
    hide *;
    forall k: nat | k < 8 ensures Bit(ByteAt(a, j), k) == NatBit(Shifted(a, 8 * j), k) { ByteAtBit(a, j, k); }
    ByteValue(ByteAt(a, j));
    ShiftedMore(a, 8 * j, 8);
    LowByte(Shifted(a, 8 * j));
  }

  lemma LowByte(v: nat)
    ensures v % 256 == Weighted(NatBit(v, 0), 1) + Weighted(NatBit(v, 1), 2) + Weighted(NatBit(v, 2), 4)
      + Weighted(NatBit(v, 3), 8) + Weighted(NatBit(v, 4), 16) + Weighted(NatBit(v, 5), 32)
      + Weighted(NatBit(v, 6), 64) + Weighted(NatBit(v, 7), 128)
    ensures Shifted(v, 8) == v / 256
  {
    hide *;
    PowersOfTwo();
    SplitAtBit(v, 8);
    BitSumStep(v, 0);
    BitSumStep(v, 1);
    BitSumStep(v, 2);
    BitSumStep(v, 3);
    BitSumStep(v, 4);
    BitSumStep(v, 5);
    BitSumStep(v, 6);
    BitSumStep(v, 7);
  }

  lemma BitSumStep(v: nat, k: nat)
    ensures Pow(2, k) > 0 && BitSum(v, 0) == 0
    ensures BitSum(v, k + 1) == BitSum(v, k) + Weighted(NatBit(v, k), Pow(2, k))
    ensures 0 <= Weighted(NatBit(v, k), Pow(2, k)) <= Pow(2, k)
  {
    PowPositive(k);
  }

  lemma PowersOfTwo()
    ensures Pow(2, 0) == 1 && Pow(2, 1) == 2 && Pow(2, 2) == 4 && Pow(2, 3) == 8 && Pow(2, 4) == 16
    ensures Pow(2, 5) == 32 && Pow(2, 6) == 64 && Pow(2, 7) == 128 && Pow(2, 8) == 256
  {
  }

  /** The bytes of an integer stand for it, as far as they reach. */
  lemma BytesBEValue(a: nat, width: nat)
    ensures Pow(256, width) > 0 && BeValue(BytesBE(a, width)) == a % Pow(256, width)
  {
    LeadingBytes(a, width, width);
    assert BytesBE(a, width)[..width] == BytesBE(a, width);
  }

  lemma {:induction false} LeadingBytes(a: nat, width: nat, p: nat)
    requires p <= width
    ensures Pow(256, p) > 0 && BeValue(BytesBE(a, width)[..p]) == Shifted(a, 8 * (width - p)) % Pow(256, p)
  {
    if p > 0 {
      LeadingBytes(a, width, p - 1);
      var be, j := BytesBE(a, width), width - p;
      assert be[..p][..p - 1] == be[..p - 1] && be[..p][p - 1] == ByteAt(a, j);
      ByteAtValue(a, j);
      assert Pow(256, p) == 256 * Pow(256, p - 1);
      hide Shifted, ByteAt, Pow;
      NextDigit(Shifted(a, 8 * j), Pow(256, p - 1));
    }
  }

  lemma NextDigit(v: nat, m: nat)
    requires m > 0
    ensures 256 * ((v / 256) % m) + v % 256 == v % (256 * m)
  {
    var u, r := v / 256, v % 256;
    var c, d := u / m, u % m;
    assert v == (256 * m) * c + (256 * d + r) by { DigitIdentity(m, c, d, r); }
    assert 0 <= 256 * d + r < 256 * m;
    QuotientUnique(v, 256 * m, c, 256 * d + r);
  }

  lemma DigitIdentity(m: int, c: int, d: int, r: int)
    ensures 256 * (m * c + d) + r == (256 * m) * c + (256 * d + r)
  {
  }

  lemma QuotientUnique(v: int, m: int, c: int, r: int)
    requires m > 0 && v == m * c + r && 0 <= r < m
    ensures v % m == r
  {
    var q, s := v / m, v % m;
    assert m * (q - c) == r - s;
    if q != c { MulMono(1, if q > c then q - c else c - q, m); }
  }

  /** The 32 bytes of a scalar are exactly it. */
  lemma ScalarBytes(a: nat)
    requires a < TWO_TO_256
    ensures BeValue(ToBytesBE(a)) == a
  {
    BytesBEValue(a, 32);
    WidthOf32();
    hide Pow;
  }

  lemma WidthOf32()
    ensures Pow(256, 32) == TWO_TO_256
  {
    PowOnce(256);
    PowAdd(256, 1, 1);
    PowAdd(256, 2, 2);
    PowAdd(256, 4, 4);
    PowAdd(256, 8, 8);
    PowAdd(256, 16, 16);
  }

  /** Scalar::from_bytes_be_reduce */
  function FromBytesReduce(n: int, b: bytes): (r: Scalar)
    requires n > 0
    ensures 0 <= r < n
  {
    BeValue(b) % n
  }

  // ---------- the three steps ----------

  datatype AliceState = AliceState(alphaBe: bytes, keys: seq<bytes>) {
    predicate Valid() { |alphaBe| == 32 && |keys| == SCALAR_BITS }
  }

  datatype BobMsg = BobMsg(corrections: seq<Scalar>)

  datatype OleError = UnexpectedL | Extension(e: OtError) | WrongCorrectionCount

  /** Alice's state and message belong to an honest run on alpha with the given pad. */
  ghost predicate AliceRun(o: Oracle, rcv: ExtReceiver, sid: bytes, alpha: Scalar, msg: ExtendMsg, st: AliceState)
    requires o.Valid() && rcv.Valid()
  {
    && alpha >= 0 && st.Valid() && st.alphaBe == ToBytesBE(alpha)
    && exists c: bytes :: |c| == EXT_BITS / 8 && AliceChoice(o, rcv, sid, alpha, msg, st, c)
  }

  ghost predicate AliceChoice(o: Oracle, rcv: ExtReceiver, sid: bytes, alpha: Scalar, msg: ExtendMsg, st: AliceState,
    c: bytes)
    requires o.Valid() && rcv.Valid() && alpha >= 0 && st.Valid() && |c| == EXT_BITS / 8
  {
    && msg.l == EXT_BITS && HonestMessage(o, rcv, sid, c, msg)
    && (forall i :: 0 <= i < SCALAR_BITS ==> BitAt(c, i) == NatBit(alpha, i))
    && (forall i :: 0 <= i < SCALAR_BITS ==>
         st.keys[i] == KeyZero(o, sid, Expand(o, rcv.seeds0, sid, EXT_BITS / 8), i))
  }

  /** The choice bits after those of alpha are the drawn pad. */
  ghost predicate Padded(o: Oracle, rcv: ExtReceiver, sid: bytes, alpha: Scalar, msg: ExtendMsg, st: AliceState,
    pad: bytes)
    requires o.Valid() && rcv.Valid() && alpha >= 0 && st.Valid()
  {
    exists c: bytes :: |c| == EXT_BITS / 8 && AliceChoice(o, rcv, sid, alpha, msg, st, c) && c[32..] == pad
  }

  method AliceStep1(o: Oracle, rcv: ExtReceiver, sid: bytes, alpha: Scalar, pad: bytes)
    returns (res: Result<(ExtendMsg, AliceState), OleError>)
    requires o.Valid() && rcv.Valid() && alpha >= 0 && |pad| == PAD_BITS / 8
    ensures res.Ok? && AliceRun(o, rcv, sid, alpha, res.value.0, res.value.1)
    ensures Padded(o, rcv, sid, alpha, res.value.0, res.value.1, pad) && res.value.0.l == 416
  {
    hide Bit, BitAt, BeBit, NatBit, Challenge, CorrectionRows, Dot;
    var alphaBe := ToBytesBE(alpha);
    var alphaBits := BitsLE(alphaBe);
    var choice := alphaBits + pad;
    forall i | 0 <= i < SCALAR_BITS ensures BitAt(choice, i) == NatBit(alpha, i) {
      BitAtPrefix(alphaBits, pad, i);
      BeBitIsNatBit(alpha, i);
    }
    var r := ReceiverExtend(o, rcv, sid, choice, EXT_BITS);
    assert choice[..EXT_BITS / 8] == choice;
    var (msg, keys) := r.value;
    var st := AliceState(alphaBe, keys[..SCALAR_BITS]);
    assert AliceChoice(o, rcv, sid, alpha, msg, st, choice) && choice[32..] == pad;
    return Ok((msg, st));
  }

  lemma BitAtPrefix(a: bytes, b: bytes, i: nat)
    requires i < 8 * |a|
    ensures BitAt(a + b, i) == BitAt(a, i)
  {
  }

  /** c_i = m0_i - m1_i + beta * 2^i */
  function Correction(n: int, m0: bytes, m1: bytes, beta: Scalar, twoToI: Scalar): (c: Scalar)
    requires n > 0
    ensures 0 <= c < n
  {
    FAdd(n, FSub(n, FromBytesReduce(n, m0), FromBytesReduce(n, m1)), FMul(n, beta, twoToI))
  }

  /** sum over i < k of the scalars of m0 */
  function KeySum(n: int, m0: seq<bytes>, k: nat): int
    requires n > 0 && k <= |m0|
  {
    if k == 0 then 0 else KeySum(n, m0, k - 1) + FromBytesReduce(n, m0[k - 1])
  }

  method BobStep1(o: Oracle, n: int, snd: ExtSender, sid: bytes, beta: Scalar, msg: ExtendMsg)
    returns (res: Result<(BobMsg, Scalar), OleError>)
    requires o.Valid() && snd.Valid() && msg.Shaped() && n > 0
    ensures msg.l != EXT_BITS <==> res == Err(UnexpectedL)
    ensures res.Ok? <==> msg.l == EXT_BITS && Sized(msg.u, KAPPA, EXT_BITS / 8) && CheckPasses(o, snd, sid, msg)
    ensures res.Ok? ==> BobReply(o, n, snd, sid, beta, msg, res.value.0, res.value.1)
  {
    hide Bit, BitAt, Challenge, Dot, Column, FAdd, FSub, FMul, FromBytesReduce, Correction, CheckPasses, Pow;
    if msg.l != EXT_BITS { return Err(UnexpectedL); }
    var r := SenderExtend(o, snd, sid, msg);
    if r.Err? { return Err(Extension(r.error)); }
    var (m0, m1) := r.value;
    ghost var z0, z1 := BobZeros(o, snd, sid, msg.u), BobOnes(o, snd, sid, msg.u);
    assert forall i :: 0 <= i < SCALAR_BITS ==> m0[i] == z0[i] && m1[i] == z1[i];
    var corrections: seq<Scalar> := [];
    var uB := 0;
    var twoToI := 1 % n;
    SmallMod(0, n);
    PowZero(2);
    for i := 0 to SCALAR_BITS
      invariant |corrections| == i && twoToI == Pow(2, i) % n
      invariant forall k :: 0 <= k < i ==> corrections[k] == Correction(n, z0[k], z1[k], beta, Pow(2, k) % n)
      invariant uB == (-KeySum(n, z0, i)) % n
    {
      corrections := corrections + [Correction(n, m0[i], m1[i], beta, twoToI)];
      var m0i := FromBytesReduce(n, m0[i]);
      SubStep(n, uB, -KeySum(n, z0, i), m0i, m0i);
      uB := FSub(n, uB, m0i);
      Doubling(n, i);
      twoToI := FAdd(n, twoToI, twoToI);
    }
    return Ok((BobMsg(corrections), uB));
  }

  lemma PowZero(b: int)
    ensures Pow(b, 0) == 1
  {
  }

  lemma Doubling(n: int, i: nat)
    requires n > 0
    ensures FAdd(n, Pow(2, i) % n, Pow(2, i) % n) == Pow(2, i + 1) % n
  {
    var p := Pow(2, i);
    CongMod(p, n);
    SumStep(n, p % n, p, p % n, p);
  }

  /** Bob's outputs for the row keys that the extension gives him. */
  ghost predicate BobReply(o: Oracle, n: int, snd: ExtSender, sid: bytes, beta: Scalar, msg: ExtendMsg,
    reply: BobMsg, uB: Scalar)
    requires o.Valid() && snd.Valid() && n > 0 && Sized(msg.u, KAPPA, EXT_BITS / 8)
  {
    var m0, m1 := BobZeros(o, snd, sid, msg.u), BobOnes(o, snd, sid, msg.u);
    && |reply.corrections| == SCALAR_BITS
    && (forall k :: 0 <= k < SCALAR_BITS ==>
         reply.corrections[k] == Correction(n, m0[k], m1[k], beta, Pow(2, k) % n))
    && uB == (-KeySum(n, m0, SCALAR_BITS)) % n
  }

  function BobZeros(o: Oracle, snd: ExtSender, sid: bytes, u: seq<bytes>): (m: seq<bytes>)
    requires o.Valid() && snd.Valid() && Sized(u, KAPPA, EXT_BITS / 8)
    ensures |m| == SCALAR_BITS
  {
    var q := SenderRows(o, snd, sid, u, EXT_BITS / 8);
    seq(SCALAR_BITS, i requires 0 <= i < SCALAR_BITS => KeyZero(o, sid, q, i))
  }

  function BobOnes(o: Oracle, snd: ExtSender, sid: bytes, u: seq<bytes>): (m: seq<bytes>)
    requires o.Valid() && snd.Valid() && Sized(u, KAPPA, EXT_BITS / 8)
    ensures |m| == SCALAR_BITS
  {
    var q := SenderRows(o, snd, sid, u, EXT_BITS / 8);
    seq(SCALAR_BITS, i requires 0 <= i < SCALAR_BITS => KeyOne(o, sid, q, i, snd.delta))
  }

  /** sum over i < k of key_i + alpha_i * c_i */
  function AliceSum(n: int, keys: seq<bytes>, be: bytes, corrections: seq<Scalar>, k: nat): int
    requires n > 0 && |be| == 32 && k <= SCALAR_BITS && k <= |keys| && k <= |corrections|
  {
    if k == 0 then 0 else
      AliceSum(n, keys, be, corrections, k - 1)
        + (FromBytesReduce(n, keys[k - 1]) + if BeBit(be, k - 1) then corrections[k - 1] else 0)
  }

  method AliceStep2(n: int, st: AliceState, msg: BobMsg) returns (res: Result<Scalar, OleError>)
    requires n > 0 && st.Valid()
    ensures |msg.corrections| != SCALAR_BITS <==> res == Err(WrongCorrectionCount)
    ensures res.Ok? <==> |msg.corrections| == SCALAR_BITS
    ensures res.Ok? ==> res.value == AliceSum(n, st.keys, st.alphaBe, msg.corrections, SCALAR_BITS) % n
  {
    hide BeBit, FromBytesReduce, FAdd, FMul;
    if |msg.corrections| != SCALAR_BITS { return Err(WrongCorrectionCount); }
    var uA := 0;
    SmallMod(0, n);
    for i := 0 to SCALAR_BITS
      invariant uA == AliceSum(n, st.keys, st.alphaBe, msg.corrections, i) % n
    {
      var base := FromBytesReduce(n, st.keys[i]);
      var bit := if BeBit(st.alphaBe, i) then 1 else 0;
      var term := FMul(n, msg.corrections[i], bit);
      AliceTerm(n, base, msg.corrections[i], BeBit(st.alphaBe, i));
      SumStep(n, uA, AliceSum(n, st.keys, st.alphaBe, msg.corrections, i), FAdd(n, base, term),
        base + if BeBit(st.alphaBe, i) then msg.corrections[i] else 0);
      uA := FAdd(n, uA, FAdd(n, base, term));
    }
    return Ok(uA);
  }

  lemma AliceTerm(n: int, base: int, c: int, bit: bool)
    requires n > 0
    ensures Cong(FAdd(n, base, FMul(n, c, if bit then 1 else 0)), base + if bit then c else 0, n)
  {
    var b := if bit then 1 else 0;
    var t := FMul(n, c, b);
    assert c * b == if bit then c else 0;
    hide *;
    FieldOps(n, c, b);
    FieldOps(n, base, t);
    CongAdd(base, base, t, c * b, n) by { CongSelf(base, n); }
    CongTrans(FAdd(n, base, t), base + t, base + c * b, n);
  }

  // ---------- correctness ----------

  /** sum over i < k of alpha_i * d_i */
  function OffsetSum(a: nat, d: seq<int>, k: nat): int
    requires k <= |d|
  {
    if k == 0 then 0 else OffsetSum(a, d, k - 1) + if NatBit(a, k - 1) then d[k - 1] else 0
  }

  /** key_k is the row key selected by bit k of alpha. */
  ghost predicate KeysChosen(a: nat, keys: seq<bytes>, m0: seq<bytes>, m1: seq<bytes>)
    requires |keys| == |m0| == |m1| == SCALAR_BITS
  {
    forall k :: 0 <= k < SCALAR_BITS ==> keys[k] == if NatBit(a, k) then m1[k] else m0[k]
  }

  /** The corrections cs are those of the reply plus the offsets d. */
  ghost predicate OffBy(n: int, cs: seq<Scalar>, honest: seq<Scalar>, d: seq<int>)
    requires n > 0
  {
    && |cs| == |honest| == |d| == SCALAR_BITS
    && forall i :: 0 <= i < SCALAR_BITS ==> Cong(cs[i], honest[i] + d[i], n)
  }

  lemma OffByLength(n: int, cs: seq<Scalar>, honest: seq<Scalar>, d: seq<int>)
    requires n > 0 && OffBy(n, cs, honest, d)
    ensures |cs| == |honest| == |d| == SCALAR_BITS
  {
  }

  /** Correction i is the honest one plus d_i. */
  ghost predicate CorrectionsOff(n: int, cs: seq<Scalar>, m0: seq<bytes>, m1: seq<bytes>, beta: int, d: seq<int>)
    requires n > 0 && |m0| == |m1| == |cs| == |d| == SCALAR_BITS
  {
    forall i :: 0 <= i < SCALAR_BITS ==> Cong(cs[i], Correction(n, m0[i], m1[i], beta, Pow(2, i) % n) + d[i], n)
  }

  /** Alice's accumulator after k bits, when correction k is off by d_k. */
  lemma {:induction false} AccumulatorInvariant(n: int, a: nat, beta: int, keys: seq<bytes>, m0: seq<bytes>,
    m1: seq<bytes>,
    cs: seq<Scalar>, d: seq<int>, k: nat)
    requires n > 0 && k <= SCALAR_BITS && |keys| == |m0| == |m1| == |cs| == |d| == SCALAR_BITS
    requires KeysChosen(a, keys, m0, m1)
    requires CorrectionsOff(n, cs, m0, m1, beta, d)
    ensures Cong(AliceSum(n, keys, ToBytesBE(a), cs, k), KeySum(n, m0, k) + beta * BitSum(a, k) + OffsetSum(a, d, k), n)
  {
    hide BeBit, NatBit, FromBytesReduce, Cong, Correction, ToBytesBE, Pow;
    if k == 0 {
      BaseCase(n, beta);
    } else {
      AccumulatorInvariant(n, a, beta, keys, m0, m1, cs, d, k - 1);
      BeBitIsNatBit(a, k - 1);
      var bit := NatBit(a, k - 1);
      var p := Pow(2, k - 1);
      CorrectionIs(n, m0[k - 1], m1[k - 1], beta, p);
      AccumulatorStep(n, beta, bit, p,
        AliceSum(n, keys, ToBytesBE(a), cs, k - 1), KeySum(n, m0, k - 1), BitSum(a, k - 1), OffsetSum(a, d, k - 1),
        FromBytesReduce(n, keys[k - 1]), FromBytesReduce(n, m0[k - 1]), FromBytesReduce(n, m1[k - 1]),
        cs[k - 1], Correction(n, m0[k - 1], m1[k - 1], beta, p % n), d[k - 1]);
    }
  }

  lemma BaseCase(n: int, beta: int)
    requires n > 0
    ensures Cong(0, 0 + beta * 0 + 0, n)
  {
  }

  lemma CorrectionIs(n: int, m0: bytes, m1: bytes, beta: int, p: int)
    requires n > 0
    ensures Cong(Correction(n, m0, m1, beta, p % n), FromBytesReduce(n, m0) - FromBytesReduce(n, m1) + beta * p, n)
  {
    var a, b := FromBytesReduce(n, m0), FromBytesReduce(n, m1);
    var x, y := FSub(n, a, b), FMul(n, beta, p % n);
    assert Correction(n, m0, m1, beta, p % n) == FAdd(n, x, y);
    hide *;
    FieldOps(n, a, b);
    FieldOps(n, beta, p % n);
    CongMod(p, n);
    CongScale(beta, p % n, p, n);
    CongTrans(y, beta * (p % n), beta * p, n);
    FieldOps(n, x, y);
    CongAdd(x, a - b, y, beta * p, n);
    CongTrans(FAdd(n, x, y), x + y, a - b + beta * p, n);
  }

  lemma Regroup(beta: int, bs: int, p: int, ks: int, os: int, m0: int, m1: int, d: int)
    ensures (ks + beta * bs + os) + (m1 + (m0 - m1 + beta * p + d)) == (ks + m0) + beta * (bs + p) + (os + d)
  {
    assert beta * (bs + p) == beta * bs + beta * p;
  }

  lemma AccumulatorStep(n: int, beta: int, bit: bool, p: int, acc: int, ks: int, bs: int, os: int,
    key: int, m0: int, m1: int, c: int, corr: int, d: int)
    requires n > 0 && Cong(acc, ks + beta * bs + os, n)
    requires key == if bit then m1 else m0
    requires Cong(c, corr + d, n) && Cong(corr, m0 - m1 + beta * p, n)
    ensures Cong(acc + (key + if bit then c else 0),
                 (ks + m0) + beta * (bs + if bit then p else 0) + (os + if bit then d else 0), n)
  {
    hide *;
    if bit {
      BitStep(n, acc, ks + beta * bs + os, key, c, corr, m0 - m1 + beta * p, d);
      Regroup(beta, bs, p, ks, os, m0, m1, d);
    } else {
      CongSelf(key + 0, n);
      CongAdd(acc, ks + beta * bs + os, key + 0, key + 0, n);
    }
  }

  lemma BitStep(n: int, acc: int, sum: int, key: int, c: int, corr: int, v: int, d: int)
    requires n > 0 && Cong(acc, sum, n) && Cong(c, corr + d, n) && Cong(corr, v, n)
    ensures Cong(acc + (key + c), sum + (key + (v + d)), n)
  {
    hide *;
    CongSelf(d, n);
    CongSelf(key, n);
    CongAdd(corr, v, d, d, n);
    CongTrans(c, corr + d, v + d, n);
    CongAdd(key, key, c, v + d, n);
    CongAdd(acc, sum, key + c, key + (v + d), n);
  }

  /** The outputs when Bob's correction i is off by d_i: u_A + u_B = alpha * beta + sum alpha_i * d_i. */
  lemma OutputsWithOffsets(o: Oracle, n: int, rcv: ExtReceiver, snd: ExtSender, sid: bytes, alpha: Scalar, beta: Scalar,
    msg: ExtendMsg, st: AliceState, reply: BobMsg, uB: Scalar, cs: seq<Scalar>, d: seq<int>)
    requires o.Valid() && rcv.Valid() && snd.Valid() && SeedsMatch(snd, rcv)
    requires FitsScalar(n) && 0 <= alpha < n
    requires AliceRun(o, rcv, sid, alpha, msg, st)
    requires Sized(msg.u, KAPPA, EXT_BITS / 8) && BobReply(o, n, snd, sid, beta, msg, reply, uB)
    requires OffBy(n, cs, reply.corrections, d)
    ensures st.Valid() && |cs| == |d| == SCALAR_BITS
    ensures Cong(AliceSum(n, st.keys, st.alphaBe, cs, SCALAR_BITS) + uB,
      alpha * beta + OffsetSum(alpha, d, SCALAR_BITS), n)
  {
    hide *;
    StateFields(o, rcv, sid, alpha, msg, st);
    var m0, m1 := BobZeros(o, snd, sid, msg.u), BobOnes(o, snd, sid, msg.u);
    ReplyLength(o, n, snd, sid, beta, msg, reply, uB);
    OffByLength(n, cs, reply.corrections, d);
    OffsetsOfReply(o, n, snd, sid, beta, msg, reply, uB, cs, d);
    RunKeysChosen(o, rcv, snd, sid, alpha, msg, st);
    SharesFromKeys(n, alpha, beta, st.keys, m0, m1, cs, d, uB, SCALAR_BITS);
  }

  lemma SharesFromKeys(n: int, a: nat, beta: int, keys: seq<bytes>, m0: seq<bytes>, m1: seq<bytes>,
    cs: seq<Scalar>, d: seq<int>, uB: int, k: nat)
    requires FitsScalar(n) && a < n && |keys| == |m0| == |m1| == |cs| == |d| == SCALAR_BITS
    requires KeysChosen(a, keys, m0, m1) && k == SCALAR_BITS
    requires CorrectionsOff(n, cs, m0, m1, beta, d)
    requires uB == (-KeySum(n, m0, k)) % n
    ensures Cong(AliceSum(n, keys, ToBytesBE(a), cs, k) + uB, a * beta + OffsetSum(a, d, k), n)
  {
    hide *;
    BelowPower(n, a, k);
    AccumulatorInvariant(n, a, beta, keys, m0, m1, cs, d, k);
    BitsRecompose(a, k);
    FinalSum(n, AliceSum(n, keys, ToBytesBE(a), cs, k), KeySum(n, m0, k), beta,
      BitSum(a, k), a, OffsetSum(a, d, k), uB);
  }

  lemma BelowPower(n: int, a: nat, k: nat)
    requires FitsScalar(n) && a < n && k == SCALAR_BITS
    ensures a < Pow(2, k)
  {
    hide Pow;
    PowerIs(k);
  }

  lemma FinalSum(n: int, acc: int, ks: int, beta: int, bs: int, alpha: int, os: int, uB: int)
    requires n > 0 && Cong(acc, ks + beta * bs + os, n) && bs == alpha && uB == (-ks) % n
    ensures Cong(acc + uB, alpha * beta + os, n)
  {
    CongMod(-ks, n);
    CongAdd(acc, ks + beta * alpha + os, uB, -ks, n);
    assert ks + beta * alpha + os + -ks == alpha * beta + os;
  }

  lemma RunKeysChosen(o: Oracle, rcv: ExtReceiver, snd: ExtSender, sid: bytes, alpha: Scalar, msg: ExtendMsg,
    st: AliceState)
    requires o.Valid() && rcv.Valid() && snd.Valid() && SeedsMatch(snd, rcv)
    requires AliceRun(o, rcv, sid, alpha, msg, st) && Sized(msg.u, KAPPA, EXT_BITS / 8)
    ensures KeysChosen(alpha, st.keys, BobZeros(o, snd, sid, msg.u), BobOnes(o, snd, sid, msg.u))
  {
    hide Bit, BitAt, NatBit, Column, KeyZero, KeyOne, Challenge, Dot;
    var c: bytes :| |c| == EXT_BITS / 8 && AliceChoice(o, rcv, sid, alpha, msg, st, c);
    forall k | 0 <= k < SCALAR_BITS
      ensures st.keys[k] == if NatBit(alpha, k) then BobOnes(o, snd, sid, msg.u)[k] else BobZeros(o, snd, sid, msg.u)[k]
    {
      ChosenKey(o, snd, rcv, sid, c, msg.u, k);
    }
  }

  lemma RunAccepted(o: Oracle, rcv: ExtReceiver, snd: ExtSender, sid: bytes, alpha: Scalar, msg: ExtendMsg,
    st: AliceState)
    requires o.Valid() && rcv.Valid() && snd.Valid() && SeedsMatch(snd, rcv)
    requires AliceRun(o, rcv, sid, alpha, msg, st)
    ensures msg.Shaped() && msg.l == EXT_BITS && Sized(msg.u, KAPPA, EXT_BITS / 8) && CheckPasses(o, snd, sid, msg)
  {
    hide Bit, BitAt, NatBit, Challenge, Dot;
    var c: bytes :| |c| == EXT_BITS / 8 && AliceChoice(o, rcv, sid, alpha, msg, st, c);
    HonestAccepted(o, snd, rcv, sid, c, msg);
  }

  /** The whole multiplication. When the two OT states match no step errors and the outputs are additive
      shares of alpha * beta, whatever the pad and the session id. */
  method Multiply(o: Oracle, n: int, rcv: ExtReceiver, snd: ExtSender, sid: bytes, alpha: Scalar, beta: Scalar,
    pad: bytes)
    returns (res: Result<(Scalar, Scalar), OleError>)
    requires o.Valid() && rcv.Valid() && snd.Valid() && n > 0 && alpha >= 0 && |pad| == PAD_BITS / 8
    ensures SeedsMatch(snd, rcv) && FitsScalar(n) && alpha < n ==>
      res.Ok? && Cong(res.value.0 + res.value.1, alpha * beta, n)
  {
    hide *;
    var started := AliceStep1(o, rcv, sid, alpha, pad);
    var (msg, st) := started.value;
    StateFields(o, rcv, sid, alpha, msg, st);
    if SeedsMatch(snd, rcv) { RunAccepted(o, rcv, snd, sid, alpha, msg, st); }
    MessageShaped(o, rcv, sid, alpha, msg, st);
    var replied := BobStep1(o, n, snd, sid, beta, msg);
    if replied.Err? { return Err(replied.error); }
    var (reply, b) := replied.value;
    ReplyLength(o, n, snd, sid, beta, msg, reply, b);
    var a := AliceStep2(n, st, reply);
    if a.Err? { return Err(a.error); }
    if SeedsMatch(snd, rcv) && FitsScalar(n) && alpha < n {
      HonestOutputs(o, n, rcv, snd, sid, alpha, beta, msg, st, reply, b);
    }
    return Ok((a.value, b));
  }

  /** From an honest base-OT batch to shares of the product. */
  method MultiplyFromBaseOt(o: Oracle, n: int, baseSid: bytes, draws: PairDraws, sid: bytes, alpha: Scalar,
    beta: Scalar,
    pad: bytes) returns (uA: Scalar, uB: Scalar)
    requires o.Valid() && draws.Valid() && FitsScalar(n) && 0 <= alpha < n && |pad| == PAD_BITS / 8
    ensures Cong(uA + uB, alpha * beta, n)
  {
    hide *;
    Positive(n);
    var rcv, snd := RunBaseOtPair(o, n, baseSid, draws);
    var product := Multiply(o, n, rcv, snd, sid, alpha, beta, pad);
    return product.value.0, product.value.1;
  }

  lemma Positive(n: int)
    requires FitsScalar(n)
    ensures n > 0
  {
  }

  lemma MessageShaped(o: Oracle, rcv: ExtReceiver, sid: bytes, alpha: Scalar, msg: ExtendMsg, st: AliceState)
    requires o.Valid() && rcv.Valid() && AliceRun(o, rcv, sid, alpha, msg, st)
    ensures msg.Shaped()
  {
  }

  lemma HonestOutputs(o: Oracle, n: int, rcv: ExtReceiver, snd: ExtSender, sid: bytes, alpha: Scalar, beta: Scalar,
    msg: ExtendMsg, st: AliceState, reply: BobMsg, uB: Scalar)
    requires o.Valid() && rcv.Valid() && snd.Valid() && SeedsMatch(snd, rcv) && FitsScalar(n) && 0 <= alpha < n
    requires AliceRun(o, rcv, sid, alpha, msg, st)
    requires Sized(msg.u, KAPPA, EXT_BITS / 8) && BobReply(o, n, snd, sid, beta, msg, reply, uB)
    ensures |st.alphaBe| == 32 && |st.keys| == SCALAR_BITS == |reply.corrections|
    ensures Cong(AliceSum(n, st.keys, st.alphaBe, reply.corrections, SCALAR_BITS) % n + uB, alpha * beta, n)
  {
    hide *;
    StateFields(o, rcv, sid, alpha, msg, st);
    ReplyLength(o, n, snd, sid, beta, msg, reply, uB);
    var zeros := seq(SCALAR_BITS, _ => 0);
    ZeroOffsets(n, reply.corrections, zeros);
    OutputsWithOffsets(o, n, rcv, snd, sid, alpha, beta, msg, st, reply, uB, reply.corrections, zeros);
    NoOffsets(alpha, zeros, SCALAR_BITS);
    ReducedSum(n, AliceSum(n, st.keys, st.alphaBe, reply.corrections, SCALAR_BITS), uB, alpha * beta);
  }

  lemma OffsetsOfReply(o: Oracle, n: int, snd: ExtSender, sid: bytes, beta: Scalar, msg: ExtendMsg, reply: BobMsg,
    uB: Scalar, cs: seq<Scalar>, d: seq<int>)
    requires o.Valid() && snd.Valid() && n > 0 && Sized(msg.u, KAPPA, EXT_BITS / 8)
    requires BobReply(o, n, snd, sid, beta, msg, reply, uB)
    requires OffBy(n, cs, reply.corrections, d)
    ensures CorrectionsOff(n, cs, BobZeros(o, snd, sid, msg.u), BobOnes(o, snd, sid, msg.u), beta, d)
  {
    hide Correction, KeySum, Pow;
  }

  lemma StateFields(o: Oracle, rcv: ExtReceiver, sid: bytes, alpha: Scalar, msg: ExtendMsg, st: AliceState)
    requires o.Valid() && rcv.Valid() && AliceRun(o, rcv, sid, alpha, msg, st)
    ensures st.Valid() && st.alphaBe == ToBytesBE(alpha) && |st.alphaBe| == 32 && |st.keys| == SCALAR_BITS
  {
  }

  lemma ReplyLength(o: Oracle, n: int, snd: ExtSender, sid: bytes, beta: Scalar, msg: ExtendMsg, reply: BobMsg,
    uB: Scalar)
    requires o.Valid() && snd.Valid() && n > 0 && Sized(msg.u, KAPPA, EXT_BITS / 8)
    requires BobReply(o, n, snd, sid, beta, msg, reply, uB)
    ensures |reply.corrections| == SCALAR_BITS && 0 <= uB < n
    ensures uB == (-KeySum(n, BobZeros(o, snd, sid, msg.u), SCALAR_BITS)) % n
  {
    hide Correction, KeySum, Pow;
  }

  lemma ZeroOffsets(n: int, cs: seq<Scalar>, zeros: seq<int>)
    requires n > 0 && |cs| == |zeros| == SCALAR_BITS && forall i :: 0 <= i < |zeros| ==> zeros[i] == 0
    ensures OffBy(n, cs, cs, zeros)
  {
    forall i | 0 <= i < SCALAR_BITS ensures Cong(cs[i], cs[i] + zeros[i], n) {
      CongSelf(cs[i], n);
    }
  }

  lemma {:induction false} NoOffsets(a: nat, d: seq<int>, k: nat)
    requires k <= |d| && forall i :: 0 <= i < |d| ==> d[i] == 0
    ensures OffsetSum(a, d, k) == 0
  {
    if k > 0 { NoOffsets(a, d, k - 1); }
  }

  lemma ReducedSum(n: int, acc: int, uB: int, v: int)
    requires n > 0 && Cong(acc + uB, v, n)
    ensures Cong(acc % n + uB, v, n)
  {
    CongMod(acc, n);
    CongAdd(acc % n, acc, uB, uB, n);
  }
}
