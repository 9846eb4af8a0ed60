/** Mul-then-check (src/dklstss/ole_check.rs): the multiplication is run twice with the same alpha
    and Alice compares the difference of the runs with Bob's consistency value z. */
module OleCheck {
  import opened NumberTheory
  import opened Bits
  import opened Results
  import opened Secp
  import opened OtExtension
  import opened Ole

  datatype CheckedBobMsg = CheckedBobMsg(msg1: BobMsg, msg2: BobMsg, z: Scalar)
  datatype CheckedAliceState = CheckedAliceState(state1: AliceState, state2: AliceState)
  datatype CheckError = Inner(e: OleError) | MulCheckFailed

  const BAR: byte := 0x7c
  const TAG_ONE: byte := 0x31
  const TAG_TWO: byte := 0x32

  function SubSid(sid: bytes, tag: byte): bytes { sid + [BAR] + [tag] }

  /** The two sub-sessions never collide with each other, nor across different sids. */
  lemma SubSidInjective(sid: bytes, tag: byte, sid': bytes, tag': byte)
    requires SubSid(sid, tag) == SubSid(sid', tag')
    ensures sid == sid' && tag == tag'
  {
    var a, b := SubSid(sid, tag), SubSid(sid', tag');
    assert a[..|a| - 2] == sid && b[..|b| - 2] == sid';
    assert a[|a| - 1] == tag && b[|b| - 1] == tag';
  }

  lemma SubSessionsDiffer(sid: bytes, sid': bytes)
    ensures SubSid(sid, TAG_ONE) != SubSid(sid', TAG_TWO)
  {
    if SubSid(sid, TAG_ONE) == SubSid(sid', TAG_TWO) { SubSidInjective(sid, TAG_ONE, sid', TAG_TWO); }
  }

  method CheckedAliceStep1(o: Oracle, rcv: ExtReceiver, sid: bytes, alpha: Scalar, pad1: bytes, pad2: bytes)
    returns (res: Result<(ExtendMsg, ExtendMsg, CheckedAliceState), CheckError>)
    requires o.Valid() && rcv.Valid() && alpha >= 0 && |pad1| == |pad2| == PAD_BITS / 8
    ensures res.Ok?
    ensures AliceRun(o, rcv, SubSid(sid, TAG_ONE), alpha, res.value.0, res.value.2.state1)
    ensures AliceRun(o, rcv, SubSid(sid, TAG_TWO), alpha, res.value.1, res.value.2.state2)
    ensures Padded(o, rcv, SubSid(sid, TAG_ONE), alpha, res.value.0, res.value.2.state1, pad1)
    ensures Padded(o, rcv, SubSid(sid, TAG_TWO), alpha, res.value.1, res.value.2.state2, pad2)
  {
    hide AliceRun, Padded;
    var r1 := AliceStep1(o, rcv, SubSid(sid, TAG_ONE), alpha, pad1);
    var r2 := AliceStep1(o, rcv, SubSid(sid, TAG_TWO), alpha, pad2);
    return Ok((r1.value.0, r2.value.0, CheckedAliceState(r1.value.1, r2.value.1)));
  }

  method CheckedBobStep1(o: Oracle, n: int, snd: ExtSender, sid: bytes, beta: Scalar, m1: ExtendMsg, m2: ExtendMsg)
    returns (res: Result<(CheckedBobMsg, Scalar), CheckError>)
    requires o.Valid() && snd.Valid() && m1.Shaped() && m2.Shaped() && n > 0
    ensures res.Ok? <==>
      && m1.l == EXT_BITS && Sized(m1.u, KAPPA, EXT_BITS / 8) && CheckPasses(o, snd, SubSid(sid, TAG_ONE), m1)
      && m2.l == EXT_BITS && Sized(m2.u, KAPPA, EXT_BITS / 8) && CheckPasses(o, snd, SubSid(sid, TAG_TWO), m2)
    ensures res.Ok? ==> exists uB2 ::
      && BobReply(o, n, snd, SubSid(sid, TAG_ONE), beta, m1, res.value.0.msg1, res.value.1)
      && BobReply(o, n, snd, SubSid(sid, TAG_TWO), beta, m2, res.value.0.msg2, uB2)
      && res.value.0.z == FSub(n, res.value.1, uB2)
  {
    hide CheckPasses, BobReply;
    var r1 := BobStep1(o, n, snd, SubSid(sid, TAG_ONE), beta, m1);
    if r1.Err? { return Err(Inner(r1.error)); }
    var r2 := BobStep1(o, n, snd, SubSid(sid, TAG_TWO), beta, m2);
    if r2.Err? { return Err(Inner(r2.error)); }
    var (msg1, uB1) := r1.value;
    var (msg2, uB2) := r2.value;
    return Ok((CheckedBobMsg(msg1, msg2, FSub(n, uB1, uB2)), uB1));
  }

  method CheckedAliceStep2(n: int, st: CheckedAliceState, msg: CheckedBobMsg) returns (res: Result<Scalar, CheckError>)
    requires n > 0 && st.state1.Valid() && st.state2.Valid()
    ensures res.Ok? <==>
      |msg.msg1.corrections| == SCALAR_BITS && |msg.msg2.corrections| == SCALAR_BITS && Consistent(n, st, msg)
    ensures res.Ok? ==>
      res.value == AliceSum(n, st.state1.keys, st.state1.alphaBe, msg.msg1.corrections, SCALAR_BITS) % n
  {
    var r1 := AliceStep2(n, st.state1, msg.msg1);
    if r1.Err? { return Err(Inner(r1.error)); }
    var r2 := AliceStep2(n, st.state2, msg.msg2);
    if r2.Err? { return Err(Inner(r2.error)); }
    var uA1, uA2 := r1.value, r2.value;
    var zA := FSub(n, uA1, uA2);
    var sum := FAdd(n, zA, msg.z);
    ConsistentIff(n, AliceSum(n, st.state1.keys, st.state1.alphaBe, msg.msg1.corrections, SCALAR_BITS),
      AliceSum(n, st.state2.keys, st.state2.alphaBe, msg.msg2.corrections, SCALAR_BITS), msg.z);
    if sum != 0 { return Err(MulCheckFailed); }
    return Ok(uA1);
  }

  /** Alice's accumulators of the two runs differ by -z. */
  ghost predicate Consistent(n: int, st: CheckedAliceState, msg: CheckedBobMsg)
    requires n > 0 && st.state1.Valid() && st.state2.Valid()
    requires |msg.msg1.corrections| == SCALAR_BITS && |msg.msg2.corrections| == SCALAR_BITS
  {
    Cong(AliceSum(n, st.state1.keys, st.state1.alphaBe, msg.msg1.corrections, SCALAR_BITS)
      - AliceSum(n, st.state2.keys, st.state2.alphaBe, msg.msg2.corrections, SCALAR_BITS) + msg.z, 0, n)
  }

  lemma ConsistentIff(n: int, a1: int, a2: int, z: int)
    requires n > 0
    ensures FAdd(n, FSub(n, a1 % n, a2 % n), z) == 0 <==> Cong(a1 - a2 + z, 0, n)
  {
    var x := FSub(n, a1 % n, a2 % n);
    CongMod(a1, n);
    CongMod(a2, n);
    CongSub(a1 % n, a1, a2 % n, a2, n);
    FieldOps(n, a1 % n, a2 % n);
    CongAdd(x, a1 - a2, z, z, n);
    FieldOps(n, x, z);
    SmallMod(0, n);
    SmallMod(FAdd(n, x, z), n);
  }

  /** The check is exact. Bob may use different beta in the two runs, shift correction i of run r by
      d_r[i], and shift z by zeta: Alice accepts if and only if
      alpha * (beta1 - beta2) + sum alpha_i * (d1_i - d2_i) + zeta = 0 (mod n). */
  lemma CheckIsExact(o: Oracle, n: int, rcv: ExtReceiver, snd: ExtSender, sid1: bytes, sid2: bytes,
    alpha: Scalar, beta1: Scalar, beta2: Scalar, m1: ExtendMsg, m2: ExtendMsg, st: CheckedAliceState,
    reply1: BobMsg, uB1: Scalar, reply2: BobMsg, uB2: Scalar, d1: seq<int>, d2: seq<int>, zeta: int, msg: CheckedBobMsg)
    requires o.Valid() && rcv.Valid() && snd.Valid() && SeedsMatch(snd, rcv) && FitsScalar(n) && 0 <= alpha < n
    requires AliceRun(o, rcv, sid1, alpha, m1, st.state1) && AliceRun(o, rcv, sid2, alpha, m2, st.state2)
    requires Sized(m1.u, KAPPA, EXT_BITS / 8) && BobReply(o, n, snd, sid1, beta1, m1, reply1, uB1)
    requires Sized(m2.u, KAPPA, EXT_BITS / 8) && BobReply(o, n, snd, sid2, beta2, m2, reply2, uB2)
    requires OffBy(n, msg.msg1.corrections, reply1.corrections, d1)
    requires OffBy(n, msg.msg2.corrections, reply2.corrections, d2)
    requires Cong(msg.z, uB1 - uB2 + zeta, n)
    ensures st.state1.Valid() && st.state2.Valid()
    ensures |msg.msg1.corrections| == |msg.msg2.corrections| == |d1| == |d2| == SCALAR_BITS
    ensures Consistent(n, st, msg) <==>
      Cong(alpha * (beta1 - beta2) + (OffsetSum(alpha, d1, SCALAR_BITS) - OffsetSum(alpha, d2, SCALAR_BITS)) + zeta, 0,
        n)
    ensures Cong(AliceSum(n, st.state1.keys, st.state1.alphaBe, msg.msg1.corrections, SCALAR_BITS) + uB1,
      alpha * beta1 + OffsetSum(alpha, d1, SCALAR_BITS), n)
  {
    hide *;
    StateFields(o, rcv, sid1, alpha, m1, st.state1);
    StateFields(o, rcv, sid2, alpha, m2, st.state2);
    OutputsWithOffsets(o, n, rcv, snd, sid1, alpha, beta1, m1, st.state1, reply1, uB1, msg.msg1.corrections, d1);
    OutputsWithOffsets(o, n, rcv, snd, sid2, alpha, beta2, m2, st.state2, reply2, uB2, msg.msg2.corrections, d2);
    ConsistencyDefinition(n, st, msg);
    ExactAlgebra(n, AliceSum(n, st.state1.keys, st.state1.alphaBe, msg.msg1.corrections, SCALAR_BITS),
      AliceSum(n, st.state2.keys, st.state2.alphaBe, msg.msg2.corrections, SCALAR_BITS),
      uB1, uB2, alpha, beta1, beta2, OffsetSum(alpha, d1, SCALAR_BITS), OffsetSum(alpha, d2, SCALAR_BITS), zeta, msg.z);
  }

  lemma ConsistencyDefinition(n: int, st: CheckedAliceState, msg: CheckedBobMsg)
    requires n > 0 && st.state1.Valid() && st.state2.Valid()
    requires |msg.msg1.corrections| == SCALAR_BITS && |msg.msg2.corrections| == SCALAR_BITS
    ensures Consistent(n, st, msg) <==>
      Cong(AliceSum(n, st.state1.keys, st.state1.alphaBe, msg.msg1.corrections, SCALAR_BITS)
        - AliceSum(n, st.state2.keys, st.state2.alphaBe, msg.msg2.corrections, SCALAR_BITS) + msg.z, 0, n)
  {
  }

  lemma ExactAlgebra(n: int, a1: int, a2: int, u1: int, u2: int, alpha: int, b1: int, b2: int, s1: int, s2: int,
    zeta: int, z: int)
    requires n > 0 && Cong(a1 + u1, alpha * b1 + s1, n) && Cong(a2 + u2, alpha * b2 + s2, n)
    requires Cong(z, u1 - u2 + zeta, n)
    ensures Cong(a1 - a2 + z, 0, n) <==> Cong(alpha * (b1 - b2) + (s1 - s2) + zeta, 0, n)
  {
    CongSub(a1 + u1, alpha * b1 + s1, a2 + u2, alpha * b2 + s2, n);
    CongSub(z, u1 - u2 + zeta, u1 - u2, u1 - u2, n);
    CongAdd((a1 + u1) - (a2 + u2), (alpha * b1 + s1) - (alpha * b2 + s2), z - (u1 - u2), zeta, n);
    assert (a1 + u1) - (a2 + u2) + (z - (u1 - u2)) == a1 - a2 + z;
    assert (alpha * b1 + s1) - (alpha * b2 + s2) + zeta == alpha * (b1 - b2) + (s1 - s2) + zeta;
  }

  /** One checked multiplication that went through, from Alice's two messages to the shares out: Bob accepted both,
      answered both with the same beta, and the runs agree. */
  ghost predicate CheckedRun(o: Oracle, n: int, rcv: ExtReceiver, snd: ExtSender, sid: bytes, alpha: Scalar,
    beta: Scalar, m1: ExtendMsg, m2: ExtendMsg, st: CheckedAliceState, msg: CheckedBobMsg, uB2: Scalar,
    out: (Scalar, Scalar))
    requires o.Valid() && rcv.Valid() && snd.Valid() && n > 0
  {
    && AliceRun(o, rcv, SubSid(sid, TAG_ONE), alpha, m1, st.state1)
    && AliceRun(o, rcv, SubSid(sid, TAG_TWO), alpha, m2, st.state2)
    && m1.Shaped() && m1.l == EXT_BITS && Sized(m1.u, KAPPA, EXT_BITS / 8)
    && m2.Shaped() && m2.l == EXT_BITS && Sized(m2.u, KAPPA, EXT_BITS / 8)
    && CheckPasses(o, snd, SubSid(sid, TAG_ONE), m1) && CheckPasses(o, snd, SubSid(sid, TAG_TWO), m2)
    && BobReply(o, n, snd, SubSid(sid, TAG_ONE), beta, m1, msg.msg1, out.1)
    && BobReply(o, n, snd, SubSid(sid, TAG_TWO), beta, m2, msg.msg2, uB2) && msg.z == FSub(n, out.1, uB2)
    && st.state1.Valid() && st.state2.Valid()
    && |msg.msg1.corrections| == |msg.msg2.corrections| == SCALAR_BITS && Consistent(n, st, msg)
    && out.0 == AliceSum(n, st.state1.keys, st.state1.alphaBe, msg.msg1.corrections, SCALAR_BITS) % n
  }

  ghost predicate Checked(o: Oracle, n: int, rcv: ExtReceiver, snd: ExtSender, sid: bytes, alpha: Scalar, beta: Scalar,
    out: (Scalar, Scalar))
    requires o.Valid() && rcv.Valid() && snd.Valid() && n > 0
  {
    exists m1, m2, st, msg, uB2 :: CheckedRun(o, n, rcv, snd, sid, alpha, beta, m1, m2, st, msg, uB2, out)
  }

  lemma CheckedFrom(o: Oracle, n: int, rcv: ExtReceiver, snd: ExtSender, sid: bytes, alpha: Scalar, beta: Scalar,
    m1: ExtendMsg, m2: ExtendMsg, st: CheckedAliceState, msg: CheckedBobMsg, uB2: Scalar, out: (Scalar, Scalar))
    requires o.Valid() && rcv.Valid() && snd.Valid() && n > 0
    requires AliceRun(o, rcv, SubSid(sid, TAG_ONE), alpha, m1, st.state1)
    requires AliceRun(o, rcv, SubSid(sid, TAG_TWO), alpha, m2, st.state2)
    requires m1.Shaped() && m1.l == EXT_BITS && Sized(m1.u, KAPPA, EXT_BITS / 8)
    requires m2.Shaped() && m2.l == EXT_BITS && Sized(m2.u, KAPPA, EXT_BITS / 8)
    requires CheckPasses(o, snd, SubSid(sid, TAG_ONE), m1) && CheckPasses(o, snd, SubSid(sid, TAG_TWO), m2)
    requires BobReply(o, n, snd, SubSid(sid, TAG_ONE), beta, m1, msg.msg1, out.1)
    requires BobReply(o, n, snd, SubSid(sid, TAG_TWO), beta, m2, msg.msg2, uB2) && msg.z == FSub(n, out.1, uB2)
    requires st.state1.Valid() && st.state2.Valid()
    requires |msg.msg1.corrections| == |msg.msg2.corrections| == SCALAR_BITS && Consistent(n, st, msg)
    requires |st.state1.alphaBe| == 32 && |st.state1.keys| == SCALAR_BITS
    requires out.0 == AliceSum(n, st.state1.keys, st.state1.alphaBe, msg.msg1.corrections, SCALAR_BITS) % n
    ensures Checked(o, n, rcv, snd, sid, alpha, beta, out)
  {
    hide AliceRun, Sized, CheckPasses, BobReply, SubSid, FSub, AliceSum, Consistent;
    assert CheckedRun(o, n, rcv, snd, sid, alpha, beta, m1, m2, st, msg, uB2, out);
  }

  /** The whole checked multiplication: whatever comes out passed the check, and when the OT states match the check
      passes and the outputs are shares of alpha * beta. */
  method CheckedMultiply(o: Oracle, n: int, rcv: ExtReceiver, snd: ExtSender, sid: bytes, alpha: Scalar, beta: Scalar,
    pad1: bytes, pad2: bytes) returns (res: Result<(Scalar, Scalar), CheckError>)
    requires o.Valid() && rcv.Valid() && snd.Valid() && n > 0 && alpha >= 0 && |pad1| == |pad2| == PAD_BITS / 8
    ensures SeedsMatch(snd, rcv) && FitsScalar(n) && alpha < n ==>
      res.Ok? && Cong(res.value.0 + res.value.1, alpha * beta, n)
    ensures res.Ok? ==> Checked(o, n, rcv, snd, sid, alpha, beta, res.value)
  {
    hide *;
    var started := CheckedAliceStep1(o, rcv, sid, alpha, pad1, pad2);
    var (m1, m2, st) := started.value;
    StateFields(o, rcv, SubSid(sid, TAG_ONE), alpha, m1, st.state1);
    StateFields(o, rcv, SubSid(sid, TAG_TWO), alpha, m2, st.state2);
    MessageShaped(o, rcv, SubSid(sid, TAG_ONE), alpha, m1, st.state1);
    MessageShaped(o, rcv, SubSid(sid, TAG_TWO), alpha, m2, st.state2);
    if SeedsMatch(snd, rcv) {
      RunAccepted(o, rcv, snd, SubSid(sid, TAG_ONE), alpha, m1, st.state1);
      RunAccepted(o, rcv, snd, SubSid(sid, TAG_TWO), alpha, m2, st.state2);
    }
    var replied := CheckedBobStep1(o, n, snd, sid, beta, m1, m2);
    if replied.Err? { return Err(replied.error); }
    var (msg, b) := replied.value;
    ghost var uB2 :|
      && BobReply(o, n, snd, SubSid(sid, TAG_ONE), beta, m1, msg.msg1, b)
      && BobReply(o, n, snd, SubSid(sid, TAG_TWO), beta, m2, msg.msg2, uB2)
      && msg.z == FSub(n, b, uB2);
    ghost var honest := SeedsMatch(snd, rcv) && FitsScalar(n) && alpha < n;
    if honest {
      HonestRun(o, n, rcv, snd, SubSid(sid, TAG_ONE), SubSid(sid, TAG_TWO), alpha, beta, m1, m2, st, msg, b, uB2);
      ReducedSum(n, AliceSum(n, st.state1.keys, st.state1.alphaBe, msg.msg1.corrections, SCALAR_BITS), b, alpha * beta);
    }
    var r := CheckedAliceStep2(n, st, msg);
    if r.Err? { return Err(r.error); }
    CheckedFrom(o, n, rcv, snd, sid, alpha, beta, m1, m2, st, msg, uB2, (r.value, b));
    return Ok((r.value, b));
  }

  /** Nothing is off: the check passes and the first run gives the product. */
  lemma HonestRun(o: Oracle, n: int, rcv: ExtReceiver, snd: ExtSender, sid1: bytes, sid2: bytes, alpha: Scalar,
    beta: Scalar,
    m1: ExtendMsg, m2: ExtendMsg, st: CheckedAliceState, msg: CheckedBobMsg, uB1: Scalar, uB2: Scalar)
    requires o.Valid() && rcv.Valid() && snd.Valid() && SeedsMatch(snd, rcv) && FitsScalar(n) && 0 <= alpha < n
    requires AliceRun(o, rcv, sid1, alpha, m1, st.state1) && AliceRun(o, rcv, sid2, alpha, m2, st.state2)
    requires Sized(m1.u, KAPPA, EXT_BITS / 8) && BobReply(o, n, snd, sid1, beta, m1, msg.msg1, uB1)
    requires Sized(m2.u, KAPPA, EXT_BITS / 8) && BobReply(o, n, snd, sid2, beta, m2, msg.msg2, uB2)
    requires msg.z == FSub(n, uB1, uB2)
    ensures st.state1.Valid() && st.state2.Valid() && |st.state1.alphaBe| == 32 && |st.state1.keys| == SCALAR_BITS
    ensures |msg.msg1.corrections| == |msg.msg2.corrections| == SCALAR_BITS
    ensures Consistent(n, st, msg)
    ensures Cong(AliceSum(n, st.state1.keys, st.state1.alphaBe, msg.msg1.corrections, SCALAR_BITS) + uB1, alpha * beta,
      n)
  {
    hide *;
    var zeros := seq(SCALAR_BITS, _ => 0);
    StateFields(o, rcv, sid1, alpha, m1, st.state1);
    StateFields(o, rcv, sid2, alpha, m2, st.state2);
    ReplyLength(o, n, snd, sid1, beta, m1, msg.msg1, uB1);
    ReplyLength(o, n, snd, sid2, beta, m2, msg.msg2, uB2);
    ZeroOffsets(n, msg.msg1.corrections, zeros);
    ZeroOffsets(n, msg.msg2.corrections, zeros);
    FieldOps(n, uB1, uB2);
    CheckIsExact(o, n, rcv, snd, sid1, sid2, alpha, beta, beta, m1, m2, st,
      msg.msg1, uB1, msg.msg2, uB2, zeros, zeros, 0, msg);
    NoOffsets(alpha, zeros, SCALAR_BITS);
    Vanishes(n, alpha, beta);
  }

  lemma Vanishes(n: int, alpha: int, beta: int)
    requires n > 0
    ensures Cong(alpha * (beta - beta) + (0 - 0) + 0, 0, n)
  {
  }

  /** A deviation applied identically to both runs always passes the check, and Alice ends with a wrong share exactly
      when the sum of alpha_i * d_i does not vanish: the limitation the module documentation names. */
  lemma SameOffsetUndetected(o: Oracle, n: int, rcv: ExtReceiver, snd: ExtSender, sid1: bytes, sid2: bytes,
    alpha: Scalar, beta: Scalar, m1: ExtendMsg, m2: ExtendMsg, st: CheckedAliceState,
    reply1: BobMsg, uB1: Scalar, reply2: BobMsg, uB2: Scalar, d: seq<int>, msg: CheckedBobMsg)
    requires o.Valid() && rcv.Valid() && snd.Valid() && SeedsMatch(snd, rcv) && FitsScalar(n) && 0 <= alpha < n
    requires AliceRun(o, rcv, sid1, alpha, m1, st.state1) && AliceRun(o, rcv, sid2, alpha, m2, st.state2)
    requires Sized(m1.u, KAPPA, EXT_BITS / 8) && BobReply(o, n, snd, sid1, beta, m1, reply1, uB1)
    requires Sized(m2.u, KAPPA, EXT_BITS / 8) && BobReply(o, n, snd, sid2, beta, m2, reply2, uB2)
    requires OffBy(n, msg.msg1.corrections, reply1.corrections, d)
    requires OffBy(n, msg.msg2.corrections, reply2.corrections, d)
    requires msg.z == FSub(n, uB1, uB2)
    ensures st.state1.Valid() && st.state2.Valid()
    ensures |msg.msg1.corrections| == |msg.msg2.corrections| == |d| == SCALAR_BITS && Consistent(n, st, msg)
    ensures var uA1 := AliceSum(n, st.state1.keys, st.state1.alphaBe, msg.msg1.corrections, SCALAR_BITS);
      && Cong(uA1 + uB1, alpha * beta + OffsetSum(alpha, d, SCALAR_BITS), n)
      && (Cong(uA1 + uB1, alpha * beta, n) <==> Cong(OffsetSum(alpha, d, SCALAR_BITS), 0, n))
  {
    hide *;
    StateFields(o, rcv, sid1, alpha, m1, st.state1);
    FieldOps(n, uB1, uB2);
    CheckIsExact(o, n, rcv, snd, sid1, sid2, alpha, beta, beta, m1, m2, st, reply1, uB1, reply2, uB2, d, d, 0, msg);
    SameShift(n, alpha, beta, OffsetSum(alpha, d, SCALAR_BITS));
    WrongByOffset(n, AliceSum(n, st.state1.keys, st.state1.alphaBe, msg.msg1.corrections, SCALAR_BITS) + uB1,
      alpha * beta,
      OffsetSum(alpha, d, SCALAR_BITS));
  }

  lemma SameShift(n: int, alpha: int, beta: int, s: int)
    requires n > 0
    ensures Cong(alpha * (beta - beta) + (s - s) + 0, 0, n)
  {
  }

  lemma WrongByOffset(n: int, u: int, product: int, s: int)
    requires n > 0 && Cong(u, product + s, n)
    ensures Cong(u, product, n) <==> Cong(s, 0, n)
  {
    hide *;
    if Cong(u, product, n) {
      CongSub(u, product + s, u, product, n);
      assert u - u == 0 && product + s - product == s;
      CongFlip(0, s, n);
    }
    if Cong(s, 0, n) {
      CongSelf(product, n);
      CongAdd(product, product, s, 0, n);
      CongTrans(u, product + s, product + 0, n);
    }
  }

  /** One unit added to correction 0. */
  function FirstOff(): (d: seq<int>)
    ensures |d| == SCALAR_BITS
  {
    seq(SCALAR_BITS, i => if i == 0 then 1 else 0)
  }

  lemma {:induction false} FirstOffSum(alpha: nat, k: nat)
    requires k <= SCALAR_BITS
    ensures OffsetSum(alpha, FirstOff(), k) == if k > 0 && NatBit(alpha, 0) then 1 else 0
  {
    hide NatBit;
    if k > 0 { FirstOffSum(alpha, k - 1); }
  }

  /** An input that shows it: with alpha odd and correction 0 one too high in both runs, the check passes and the shares
      miss the product. */
  lemma UndetectedExample(o: Oracle, n: int, rcv: ExtReceiver, snd: ExtSender, sid1: bytes, sid2: bytes,
    alpha: Scalar, beta: Scalar, m1: ExtendMsg, m2: ExtendMsg, st: CheckedAliceState,
    reply1: BobMsg, uB1: Scalar, reply2: BobMsg, uB2: Scalar, msg: CheckedBobMsg)
    requires o.Valid() && rcv.Valid() && snd.Valid() && SeedsMatch(snd, rcv) && FitsScalar(n) && 0 <= alpha < n
    requires alpha % 2 == 1
    requires AliceRun(o, rcv, sid1, alpha, m1, st.state1) && AliceRun(o, rcv, sid2, alpha, m2, st.state2)
    requires Sized(m1.u, KAPPA, EXT_BITS / 8) && BobReply(o, n, snd, sid1, beta, m1, reply1, uB1)
    requires Sized(m2.u, KAPPA, EXT_BITS / 8) && BobReply(o, n, snd, sid2, beta, m2, reply2, uB2)
    requires OffBy(n, msg.msg1.corrections, reply1.corrections, FirstOff())
    requires OffBy(n, msg.msg2.corrections, reply2.corrections, FirstOff())
    requires msg.z == FSub(n, uB1, uB2)
    ensures st.state1.Valid() && st.state2.Valid() && |msg.msg1.corrections| == |msg.msg2.corrections| == SCALAR_BITS
    ensures Consistent(n, st, msg)
    ensures !Cong(AliceSum(n, st.state1.keys, st.state1.alphaBe, msg.msg1.corrections, SCALAR_BITS) + uB1, alpha * beta,
      n)
  {
    OddBit(n, alpha);
    hide *;
    SameOffsetUndetected(o, n, rcv, snd, sid1, sid2, alpha, beta, m1, m2, st, reply1, uB1, reply2, uB2, FirstOff(),
      msg);
    FirstOffSum(alpha, SCALAR_BITS);
  }

  lemma OddBit(n: int, alpha: nat)
    requires alpha % 2 == 1 && alpha < n
    ensures NatBit(alpha, 0) && !Cong(1, 0, n)
  {
    SmallMod(0, n);
    SmallMod(1, n);
  }
}
