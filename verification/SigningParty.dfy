/** Broker-driven signing of one party (src/dklstss/signing_party.rs): message handlers over mutex-protected
    state, fired in any order the broker chooses. Each method is one atomic step. Dictionaries keyed by peer are
    listed in the order of the other signers. */
module SigningParty {
  import opened NumberTheory
  import opened Results
  import opened Bits
  import opened Secp
  import opened OtExtension
  import opened BaseOt
  import opened Ole
  import opened CrossTerms
  import opened SignEncoding
  import opened Signing
  import opened Echo
  import opened Committee
  import opened SigningView

  datatype Failure =
    | Undecodable | InvalidNonce(j: nat) | NonceX | PeerFailed(j: nat) | EchoFailed(e: EchoError)
    | Combine(s: SignError)

  /** Round 2: Alice's two messages, absent when malformed. Round 3: Bob's two replies. */
  datatype R2 = R2(aliceK: Option<ExtendMsg>, aliceX: Option<ExtendMsg>) {
    ghost predicate Shaped() {
      (aliceK.Some? ==> aliceK.value.Shaped()) && (aliceX.Some? ==> aliceX.value.Shaped())
    }
  }

  datatype R3 = R3(bobK: seq<bytes>, bobX: seq<bytes>)

  // ---------- own value first, then the others ----------

  function OthersSum(xs: seq<int>, me: nat, k: nat): int
    requires me < |xs| && k < |xs|
  {
    if k == 0 then 0 else OthersSum(xs, me, k - 1) + xs[Other(me, k - 1)]
  }

  lemma {:induction false} OwnFirst(xs: seq<int>, me: nat, j: nat)
    requires me < |xs| && j <= |xs|
    ensures Sum(xs, j) == OthersSum(xs, me, if j <= me then j else j - 1) + if j <= me then 0 else xs[me]
  {
    if j > 0 { OwnFirst(xs, me, j - 1); }
  }

  /** The code's accumulation: my value, then every other one in order. */
  method OwnThenOthers(n: int, ghost xs: seq<int>, me: nat, mine: Scalar, others: seq<Scalar>) returns (total: Scalar)
    requires n > 0 && me < |xs| && |others| == |xs| - 1 && mine == xs[me] && 0 <= mine < n
    requires forall k :: 0 <= k < |others| ==> others[k] == xs[Other(me, k)]
    ensures total == Total(xs) % n
  {
    total := mine;
    SmallMod(mine, n);
    for k := 0 to |others|
      invariant total == (mine + OthersSum(xs, me, k)) % n
    {
      SumStep(n, total, mine + OthersSum(xs, me, k), others[k], others[k]);
      total := FAdd(n, total, others[k]);
    }
    OwnFirst(xs, me, |xs|);
  }

  // ---------- round 1 ----------

  method ParseNonces(c: SignConfig, msgs: seq<R1>) returns (err: Option<Failure>, peerK: seq<Point>)
    requires c.codec.Valid(c.curve.n) && |msgs| == c.count - 1
    ensures err == None ==> |peerK| == |msgs| && forall k :: 0 <= k < |msgs| ==>
      c.codec.parse(msgs[k].x, msgs[k].y) == Some(peerK[k])
    ensures err.Some? ==> err.value.InvalidNonce? && exists k ::
      0 <= k < |msgs| && c.codec.parse(msgs[k].x, msgs[k].y) == None
  {
    peerK := [];
    for k := 0 to |msgs|
      invariant |peerK| == k && forall m :: 0 <= m < k ==> c.codec.parse(msgs[m].x, msgs[m].y) == Some(peerK[m])
    {
      var p := c.codec.parse(msgs[k].x, msgs[k].y);
      if p == None { return Some(InvalidNonce(Other(c.me, k))), peerK; }
      peerK := peerK + [p.value];
    }
    err := None;
  }

  /** Every nonce was decoded and parses. */
  ghost predicate NoncesParse(c: SignConfig, msgs: seq<Option<R1>>) {
    forall k :: 0 <= k < |msgs| ==> msgs[k].Some? && c.codec.parse(msgs[k].value.x, msgs[k].value.y).Some?
  }

  /** The nonces that the messages carry. */
  function Nonces(c: SignConfig, msgs: seq<Option<R1>>): (peerK: seq<Point>)
    ensures |peerK| == |msgs|
    ensures forall k :: 0 <= k < |msgs| ==> peerK[k] == NonceIn(c, msgs[k])
  {
    seq(|msgs|, k requires 0 <= k < |msgs| => NonceIn(c, msgs[k]))
  }

  function NonceIn(c: SignConfig, m: Option<R1>): Point {
    if m.Some? && c.codec.parse(m.value.x, m.value.y).Some? then c.codec.parse(m.value.x, m.value.y).value else 0
  }

  method SumNonces(c: SignConfig, s: Secrets, peerK: seq<Point>) returns (rPoint: Point)
    requires c.curve.n > 0 && c.me < c.count && |peerK| == c.count - 1 && s.Valid(c)
    ensures rPoint == GroupNonce(c, s, peerK)
  {
    var mine := MulBase(c.curve.n, s.k);
    rPoint := OwnThenOthers(c.curve.n, AllNonces(c, s, peerK), c.me, mine, peerK);
  }

  /** Alice's messages for every peer. */
  method AliceRoundTwo(c: SignConfig, s: Secrets, ssid: bytes) returns (alice: seq<AliceSide>)
    requires c.Valid() && s.Valid(c)
    ensures |alice| == c.count - 1 && AliceSides(c, s, ssid, alice)
  {
    hide AliceRun, Padded, Curve.Valid, Codec.Valid;
    alice := [];
    for m := 0 to c.count - 1
      invariant |alice| == m && AliceSides(c, s, ssid, alice)
    {
      var j := Other(c.me, m);
      var k := AliceStep1(c.oracle, c.pairs[m].asAlice, c.mulSid(ssid, false, c.me, j), s.k, s.pad(j, false));
      var x := AliceStep1(c.oracle, c.pairs[m].asAlice, c.mulSid(ssid, true, c.me, j), c.sx, s.pad(j, true));
      alice := alice + [AliceSide(k.value.0, k.value.1, x.value.0, x.value.1)];
    }
  }

  // ---------- round 3: playing Bob ----------

  /** Both messages of the m-th other signer pass the extension's checks. */
  ghost predicate BobAccepts(c: SignConfig, ssid: bytes, m: nat, inK: ExtendMsg, inX: ExtendMsg)
    requires c.Valid() && m < c.count - 1 && inK.Shaped() && inX.Shaped()
  {
    && inK.l == EXT_BITS && Sized(inK.u, KAPPA, EXT_BITS / 8)
    && CheckPasses(c.oracle, c.pairs[m].asBob, c.mulSid(ssid, false, Other(c.me, m), c.me), inK)
    && inX.l == EXT_BITS && Sized(inX.u, KAPPA, EXT_BITS / 8)
    && CheckPasses(c.oracle, c.pairs[m].asBob, c.mulSid(ssid, true, Other(c.me, m), c.me), inX)
  }

  ghost predicate R2Accepted(c: SignConfig, ssid: bytes, m: nat, r2: R2)
    requires c.Valid() && m < c.count - 1 && r2.Shaped()
  {
    r2.aliceK.Some? && r2.aliceX.Some? && BobAccepts(c, ssid, m, r2.aliceK.value, r2.aliceX.value)
  }

  ghost predicate AllR2Accepted(c: SignConfig, ssid: bytes, r2s: seq<R2>, upTo: nat)
    requires c.Valid() && |r2s| == c.count - 1 && (forall m :: 0 <= m < |r2s| ==> r2s[m].Shaped()) && upTo <= |r2s|
  {
    forall m :: 0 <= m < upTo ==> R2Accepted(c, ssid, m, r2s[m])
  }

  method BobAnswers(c: SignConfig, s: Secrets, ssid: bytes, m: nat, inK: ExtendMsg,
    inX: ExtendMsg) returns (b: Option<BobSide>)
    requires c.Valid() && s.Valid(c) && m < c.count - 1 && inK.Shaped() && inX.Shaped()
    ensures b.Some? ==> BobSideOk(c, s, ssid, m, b.value) && b.value.inK == inK && b.value.inX == inX
    ensures b.Some? <==> BobAccepts(c, ssid, m, inK, inX)
  {
    ValidParts(c, m);
    hide CheckPasses, BobReply, SignConfig.Valid, Secrets.Valid, Oracle.Valid;
    var j := Other(c.me, m);
    var k := BobStep1(c.oracle, c.curve.n, c.pairs[m].asBob, c.mulSid(ssid, false, j, c.me), s.rho, inK);
    if k.Err? { return None; }
    var x := BobStep1(c.oracle, c.curve.n, c.pairs[m].asBob, c.mulSid(ssid, true, j, c.me), s.rho, inX);
    if x.Err? { return None; }
    return Some(BobSide(inK, inX, k.value.0, k.value.1, x.value.0, x.value.1));
  }

  lemma ValidParts(c: SignConfig, m: nat)
    requires c.Valid()
    ensures c.oracle.Valid() && c.curve.n >= 2 && c.curve.Valid() && c.me < c.count && |c.pairs| == c.count - 1
    ensures m < c.count - 1 ==> c.pairs[m].Valid()
  {
    PositiveOrder(c.curve);
  }

  /** Bob's answers to every peer; the shares are updated as the answers are computed. */
  method BobRound(c: SignConfig, s: Secrets, ssid: bytes, r2s: seq<R2>, kRho0: Scalar, xRho0: Scalar, ghost k0: int,
    ghost x0: int)
    returns (err: Option<Failure>, bob: seq<BobSide>, kRho: Scalar, xRho: Scalar)
    requires c.Valid() && s.Valid(c) && |r2s| == c.count - 1 && forall m :: 0 <= m < |r2s| ==> r2s[m].Shaped()
    requires kRho0 == k0 % c.curve.n && xRho0 == x0 % c.curve.n
    ensures err.Some? ==> err.value.PeerFailed?
    ensures err == None <==> AllR2Accepted(c, ssid, r2s, |r2s|)
    ensures err == None ==> |bob| == c.count - 1 && BobSides(c, s, ssid, bob) && AnswersTo(r2s, bob)
    ensures err == None ==> kRho == (k0 + BobSum(bob, false, |bob|)) % c.curve.n
    ensures err == None ==> xRho == (x0 + BobSum(bob, true, |bob|)) % c.curve.n
  {
    hide *;
    ValidParts(c, 0);
    bob, kRho, xRho := [], kRho0, xRho0;
    NoBobSides(c, s, ssid, k0, x0);
    NothingAnswered(c, ssid, r2s);
    for m := 0 to |r2s|
      invariant |bob| == m && BobSides(c, s, ssid, bob) && AnswersTo(r2s, bob) && AllR2Accepted(c, ssid, r2s, m)
      invariant kRho == BobResidue(c, k0, bob, false) && xRho == BobResidue(c, x0, bob, true)
    {
      var r2 := r2s[m];
      R2Step(c, ssid, r2s, m);
      if r2.aliceK == None || r2.aliceX == None { return Some(PeerFailed(Other(c.me, m))), bob, kRho, xRho; }
      ShapedR2(r2);
      var b := BobAnswers(c, s, ssid, m, r2.aliceK.value, r2.aliceX.value);
      if b == None { return Some(PeerFailed(Other(c.me, m))), bob, kRho, xRho; }
      MoreBobSides(c, s, ssid, bob, b.value);
      OneMoreAnswer(r2s, bob, b.value);
      BobAccumulates(c, k0, bob, b.value, false);
      BobAccumulates(c, x0, bob, b.value, true);
      kRho := FAdd(c.curve.n, kRho, b.value.uK);
      xRho := FAdd(c.curve.n, xRho, b.value.uX);
      bob := bob + [b.value];
    }
    err := None;
    BobResidueIs(c, k0, bob, false);
    BobResidueIs(c, x0, bob, true);
  }

  /** Bob's sides belong to the messages received. */
  ghost predicate AnswersTo(r2s: seq<R2>, bob: seq<BobSide>) {
    |bob| <= |r2s| && forall m :: 0 <= m < |bob| ==>
      r2s[m].aliceK == Some(bob[m].inK) && r2s[m].aliceX == Some(bob[m].inX)
  }

  lemma NothingAnswered(c: SignConfig, ssid: bytes, r2s: seq<R2>)
    requires c.Valid() && |r2s| == c.count - 1 && forall m :: 0 <= m < |r2s| ==> r2s[m].Shaped()
    ensures AnswersTo(r2s, []) && AllR2Accepted(c, ssid, r2s, 0)
  {
  }

  lemma OneMoreAnswer(r2s: seq<R2>, bob: seq<BobSide>, b: BobSide)
    requires AnswersTo(r2s, bob) && |bob| < |r2s| && r2s[|bob|].aliceK == Some(b.inK)
    requires r2s[|bob|].aliceX == Some(b.inX)
    ensures AnswersTo(r2s, bob + [b])
  {
  }

  /** One more accepted message, or the reason why not all are. */
  lemma R2Step(c: SignConfig, ssid: bytes, r2s: seq<R2>, m: nat)
    requires c.Valid() && |r2s| == c.count - 1 && (forall i :: 0 <= i < |r2s| ==> r2s[i].Shaped()) && m < |r2s|
    requires AllR2Accepted(c, ssid, r2s, m)
    ensures AllR2Accepted(c, ssid, r2s, m + 1) <==> R2Accepted(c, ssid, m, r2s[m])
    ensures AllR2Accepted(c, ssid, r2s, |r2s|) ==> R2Accepted(c, ssid, m, r2s[m])
    ensures R2Accepted(c, ssid, m, r2s[m]) <==>
      r2s[m].aliceK.Some? && r2s[m].aliceX.Some? && BobAccepts(c, ssid, m, r2s[m].aliceK.value, r2s[m].aliceX.value)
  {
    hide BobAccepts, SignConfig.Valid, R2.Shaped;
  }

  function BobResidue(c: SignConfig, start: int, bob: seq<BobSide>, forX: bool): Scalar
    requires c.curve.n > 0
  {
    (start + BobSum(bob, forX, |bob|)) % c.curve.n
  }

  lemma BobResidueIs(c: SignConfig, start: int, bob: seq<BobSide>, forX: bool)
    requires c.curve.n > 0
    ensures BobResidue(c, start, bob, forX) == (start + BobSum(bob, forX, |bob|)) % c.curve.n
  {
  }

  lemma ShapedR2(r2: R2)
    requires r2.Shaped() && r2.aliceK.Some? && r2.aliceX.Some?
    ensures r2.aliceK.value.Shaped() && r2.aliceX.value.Shaped()
  {
  }

  lemma NoBobSides(c: SignConfig, s: Secrets, ssid: bytes, k0: int, x0: int)
    requires c.Valid() && s.Valid(c) && c.curve.n > 0
    ensures BobSides(c, s, ssid, []) && BobResidue(c, k0, [], false) == k0 % c.curve.n
    ensures BobResidue(c, x0, [], true) == x0 % c.curve.n
  {
  }

  lemma MoreBobSides(c: SignConfig, s: Secrets, ssid: bytes, bob: seq<BobSide>, b: BobSide)
    requires c.Valid() && s.Valid(c) && BobSides(c, s, ssid, bob) && |bob| < c.count - 1
    requires BobSideOk(c, s, ssid, |bob|, b)
    ensures BobSides(c, s, ssid, bob + [b])
  {
    hide BobSideOk, SignConfig.Valid, Secrets.Valid;
  }

  lemma BobAccumulates(c: SignConfig, start: int, bob: seq<BobSide>, b: BobSide, forX: bool)
    requires c.curve.n > 0
    ensures var u := if forX then b.uX else b.uK;
      FAdd(c.curve.n, BobResidue(c, start, bob, forX), u) == BobResidue(c, start, bob + [b], forX)
  {
    BobSumPrefix(bob, b, forX, |bob|);
    var u := if forX then b.uX else b.uK;
    SumStep(c.curve.n, BobResidue(c, start, bob, forX), start + BobSum(bob, forX, |bob|), u, u);
  }

  lemma {:induction false} BobSumPrefix(bob: seq<BobSide>, b: BobSide, forX: bool, m: nat)
    requires m <= |bob|
    ensures BobSum(bob + [b], forX, m) == BobSum(bob, forX, m)
    ensures m == |bob| ==> BobSum(bob + [b], forX, m + 1) == BobSum(bob, forX, m) + if forX then b.uX else b.uK
  {
    if m > 0 { BobSumPrefix(bob, b, forX, m - 1); }
  }

  // ---------- round 4: playing Alice to the end ----------

  /** decode_bob */
  function DecodeBob(n: int, corrections: seq<bytes>): (b: BobMsg)
    requires n > 0
    ensures |b.corrections| == |corrections|
  {
    BobMsg(seq(|corrections|, i requires 0 <= i < |corrections| => BeValue(corrections[i]) % n))
  }

  function Replies(n: int, r3s: seq<R3>): (replies: seq<(BobMsg, BobMsg)>)
    requires n > 0
    ensures |replies| == |r3s| && forall m :: 0 <= m < |r3s| ==>
      replies[m] == (DecodeBob(n, r3s[m].bobK), DecodeBob(n, r3s[m].bobX))
  {
    seq(|r3s|, m requires 0 <= m < |r3s| => (DecodeBob(n, r3s[m].bobK), DecodeBob(n, r3s[m].bobX)))
  }

  ghost predicate FullReplies(replies: seq<(BobMsg, BobMsg)>) {
    forall m :: 0 <= m < |replies| ==> |replies[m].0.corrections| == |replies[m].1.corrections| == SCALAR_BITS
  }

  /** Alice's two outputs towards one peer. */
  method AliceOutputs(c: SignConfig, a: AliceSide, reply: (BobMsg, BobMsg)) returns (out: Option<(Scalar, Scalar)>)
    requires c.curve.n > 0 && a.stK.Valid() && a.stX.Valid()
    ensures out.Some? <==> |reply.0.corrections| == |reply.1.corrections| == SCALAR_BITS
    ensures out.Some? ==>
      out.value.0 == AliceOut(c.curve.n, a.stK, reply.0) % c.curve.n && out.value.1 == AliceOut(c.curve.n, a.stX,
        reply.1) % c.curve.n
  {
    hide AliceSum;
    var k := AliceStep2(c.curve.n, a.stK, reply.0);
    if k.Err? { return None; }
    var x := AliceStep2(c.curve.n, a.stX, reply.1);
    if x.Err? { return None; }
    return Some((k.value, x.value));
  }

  method AliceRound(c: SignConfig, s: Secrets, ghost ssid: bytes, alice: seq<AliceSide>, replies: seq<(BobMsg, BobMsg)>,
    kRho0: Scalar, xRho0: Scalar, ghost k0: int, ghost x0: int)
    returns (err: Option<Failure>, kRho: Scalar, xRho: Scalar)
    requires c.Valid() && s.Valid(c) && AliceSides(c, s, ssid, alice) && |alice| == |replies| == c.count - 1
    requires kRho0 == k0 % c.curve.n && xRho0 == x0 % c.curve.n
    ensures err.Some? ==> err.value.PeerFailed?
    ensures err == None <==> FullReplies(replies)
    ensures err == None ==> kRho == (k0 + AliceSumOut(c.curve.n, alice, replies, false, |alice|)) % c.curve.n
    ensures err == None ==> xRho == (x0 + AliceSumOut(c.curve.n, alice, replies, true, |alice|)) % c.curve.n
  {
    hide *;
    ValidParts(c, 0);
    var n := c.curve.n;
    kRho, xRho := kRho0, xRho0;
    AliceResidueZero(n, k0, alice, replies, false);
    AliceResidueZero(n, x0, alice, replies, true);
    for m := 0 to |replies|
      invariant forall i :: 0 <= i < m ==> |replies[i].0.corrections| == |replies[i].1.corrections| == SCALAR_BITS
      invariant kRho == AliceResidue(n, k0, alice, replies, false, m) && xRho == AliceResidue(n, x0, alice, replies,
        true, m)
    {
      AliceStates(c, s, ssid, alice, m);
      var out := AliceOutputs(c, alice[m], replies[m]);
      if out == None {
        NotFull(replies, m);
        return Some(PeerFailed(Other(c.me, m))), kRho, xRho;
      }
      AliceAccumulates(n, k0, alice, replies, false, m);
      AliceAccumulates(n, x0, alice, replies, true, m);
      kRho, xRho := FAdd(n, kRho, out.value.0), FAdd(n, xRho, out.value.1);
    }
    err := None;
    AllFull(replies);
    AliceResidueIs(n, k0, alice, replies, false);
    AliceResidueIs(n, x0, alice, replies, true);
  }

  function AliceResidue(n: int, start: int, alice: seq<AliceSide>, replies: seq<(BobMsg, BobMsg)>, forX: bool,
    m: nat): Scalar
    requires n > 0 && m <= |alice| && m <= |replies|
  {
    (start + AliceSumOut(n, alice, replies, forX, m)) % n
  }

  lemma AliceResidueZero(n: int, start: int, alice: seq<AliceSide>, replies: seq<(BobMsg, BobMsg)>, forX: bool)
    requires n > 0
    ensures AliceResidue(n, start, alice, replies, forX, 0) == start % n
  {
  }

  lemma AliceResidueIs(n: int, start: int, alice: seq<AliceSide>, replies: seq<(BobMsg, BobMsg)>, forX: bool)
    requires n > 0 && |alice| <= |replies|
    ensures AliceResidue(n, start, alice, replies, forX, |alice|) == (start + AliceSumOut(n, alice, replies, forX,
      |alice|)) % n
  {
  }

  lemma NotFull(replies: seq<(BobMsg, BobMsg)>, m: nat)
    requires m < |replies| && !(|replies[m].0.corrections| == |replies[m].1.corrections| == SCALAR_BITS)
    ensures !FullReplies(replies)
  {
  }

  lemma AllFull(replies: seq<(BobMsg, BobMsg)>)
    requires forall m :: 0 <= m < |replies| ==> |replies[m].0.corrections| == |replies[m].1.corrections| == SCALAR_BITS
    ensures FullReplies(replies)
  {
  }

  lemma AliceAccumulates(n: int, start: int, alice: seq<AliceSide>, replies: seq<(BobMsg, BobMsg)>, forX: bool, m: nat)
    requires n > 0 && m < |alice| && m < |replies|
    ensures var out := if forX then AliceOut(n, alice[m].stX, replies[m].1) else AliceOut(n, alice[m].stK,
      replies[m].0);
      FAdd(n, AliceResidue(n, start, alice, replies, forX, m), out % n) == AliceResidue(n, start, alice, replies, forX,
        m + 1)
  {
    hide AliceOut;
    var out := if forX then AliceOut(n, alice[m].stX, replies[m].1) else AliceOut(n, alice[m].stK, replies[m].0);
    CongMod(out, n);
    SumStep(n, AliceResidue(n, start, alice, replies, forX, m), start + AliceSumOut(n, alice, replies, forX, m),
      out % n, out);
  }

  lemma AliceStates(c: SignConfig, s: Secrets, ssid: bytes, alice: seq<AliceSide>, m: nat)
    requires c.Valid() && s.Valid(c) && AliceSides(c, s, ssid, alice) && m < |alice|
    ensures alice[m].stK.Valid() && alice[m].stX.Valid()
  {
    assert AliceSideOk(c, s, ssid, m, alice[m]);
  }

  // ---------- finalize ----------

  /** The revealed totals. */
  method AddReveals(c: SignConfig, s: Secrets, ghost v: View, phi: Scalar, shat: Scalar, r4s: seq<R4>)
    returns (phiTotal: Scalar, shatTotal: Scalar)
    requires c.Valid() && s.Valid(c) && c.curve.n > 0 && |v.alice| <= |v.replies| && |r4s| == c.count - 1
    requires phi == PhiShare(c, s, v) && shat == ShatShare(c, s, v)
    ensures phiTotal == Total(PhiValues(c, OwnR4(c, s, v), r4s)) % c.curve.n
    ensures shatTotal == Total(ShatValues(c, OwnR4(c, s, v), r4s)) % c.curve.n
  {
    hide *;
    ValidParts(c, 0);
    var n := c.curve.n;
    ghost var own := OwnR4(c, s, v);
    ghost var phis, shats := PhiValues(c, own, r4s), ShatValues(c, own, r4s);
    OwnRevealRoundTrip(c, s, v, r4s);
    var otherPhis := seq(|r4s|, k requires 0 <= k < |r4s| => BeValue(r4s[k].phi) % n);
    var otherShats := seq(|r4s|, k requires 0 <= k < |r4s| => BeValue(r4s[k].shat) % n);
    OtherReveals(c, own, r4s);
    phiTotal := OwnThenOthers(n, phis, c.me, phi, otherPhis);
    shatTotal := OwnThenOthers(n, shats, c.me, shat, otherShats);
  }

  /** Whatever the sums, a delivered signature passed the gate; for the sums of an honest committee the gate opens
      exactly when neither rho nor e + r x vanishes. */
  method Aggregate(c: SignConfig, s: Secrets, ghost v: View, peerK: seq<Point>, phi: Scalar, shat: Scalar, r4s: seq<R4>,
    ghost rho: int, ghost x: int)
    returns (res: Result<Signature, Failure>)
    requires c.Valid() && s.Valid(c) && c.curve.n > 0 && |v.alice| <= |v.replies| && |r4s| == c.count - 1
    requires |v.peerK| == c.count - 1
    requires phi == PhiShare(c, s, v) && shat == ShatShare(c, s, v) && peerK == v.peerK
    ensures res.Ok? ==>
      res.value == Combined(c, GroupNonce(c, s, v.peerK), PhiValues(c, OwnR4(c, s, v), r4s),
        ShatValues(c, OwnR4(c, s, v), r4s))
    ensures res.Ok? ==>
      EcdsaVerify(c.curve, c.verifyPub, c.E(), res.value.r, res.value.s) && !IsHighS(c.curve.n, res.value.s)
    ensures SumsShared(c, s, v.(r4s := r4s), rho, x) ==> GateExact(c, s, v, rho, x, res)
  {
    hide *;
    ValidParts(c, 0);
    var phiTotal, shatTotal := AddReveals(c, s, v, phi, shat, r4s);
    var rPoint := SumNonces(c, s, peerK);
    var r := c.curve.XScalar(rPoint);
    SumsMean(c, s, v.(r4s := r4s), rho, x);
    ViewRevealed(c, s, v, r4s);
    var sig := Finish(c.curve, c.verifyPub, rPoint, r, c.E(), phiTotal, shatTotal, rho, x);
    res := if sig.Ok? then Ok(sig.value) else Err(Combine(sig.error));
    GateMeans(c, s, v, rho, x, res);
    CombinedIs(c, rPoint, PhiValues(c, OwnR4(c, s, v), r4s), ShatValues(c, OwnR4(c, s, v), r4s));
  }

  lemma ViewRevealed(c: SignConfig, s: Secrets, v: View, r4s: seq<R4>)
    requires c.curve.n > 0 && |v.alice| <= |v.replies|
    ensures OwnR4(c, s, v.(r4s := r4s)) == OwnR4(c, s, v)
  {
    RevealIgnoresR4s(c, s, v, r4s);
    hide PhiShare, ShatShare;
  }

  /** What the final step makes of honest sums. */
  ghost predicate GateExact(c: SignConfig, s: Secrets, v: View, rho: int, x: int, res: Result<Signature, Failure>)
    requires c.curve.n > 0
  {
    var r := c.curve.XScalar(GroupNonce(c, s, v.peerK));
    r != 0 ==>
      && (res.Ok? <==> !Cong(rho, 0, c.curve.n) && !Cong(c.E() + r * x, 0, c.curve.n))
      && (res.Ok? ==> GoodSignature(c.curve, c.verifyPub, c.E(), res.value))
  }

  lemma GateMeans(c: SignConfig, s: Secrets, v: View, rho: int, x: int, res: Result<Signature, Failure>)
    requires c.curve.n > 0
    ensures var r := c.curve.XScalar(GroupNonce(c, s, v.peerK));
      GateExact(c, s, v, rho, x, res) <==> (r != 0 ==>
        && (res.Ok? <==> !Cong(rho, 0, c.curve.n) && !Cong(c.E() + r * x, 0, c.curve.n))
        && (res.Ok? ==> GoodSignature(c.curve, c.verifyPub, c.E(), res.value)))
  {
    hide GoodSignature, Cong, GroupNonce;
  }

  lemma SumsMean(c: SignConfig, s: Secrets, v: View, rho: int, x: int)
    requires c.curve.n > 0 && |v.alice| <= |v.replies|
    ensures var p := GroupNonce(c, s, v.peerK);
      SumsShared(c, s, v, rho, x) <==>
        HonestSums(c.curve, c.verifyPub, p, c.curve.XScalar(p), c.E(), Total(PhiValues(c, OwnR4(c, s, v),
          v.r4s)) % c.curve.n,
          Total(ShatValues(c, OwnR4(c, s, v), v.r4s)) % c.curve.n, rho, x)
  {
    hide HonestSums, GroupNonce, PhiValues, ShatValues, OwnR4;
  }

  lemma OwnRevealRoundTrip(c: SignConfig, s: Secrets, v: View, r4s: seq<R4>)
    requires c.curve.n > 0 && c.me < c.count && |v.alice| <= |v.replies|
    ensures PhiValues(c, OwnR4(c, s, v), r4s)[c.me] == PhiShare(c, s, v)
    ensures ShatValues(c, OwnR4(c, s, v), r4s)[c.me] == ShatShare(c, s, v)
  {
    hide PhiShare, ShatShare;
    BeMinValue(PhiShare(c, s, v));
    BeMinValue(ShatShare(c, s, v));
    SmallMod(PhiShare(c, s, v), c.curve.n);
    SmallMod(ShatShare(c, s, v), c.curve.n);
  }

  lemma OtherReveals(c: SignConfig, own: R4, r4s: seq<R4>)
    requires c.curve.n > 0 && c.me < c.count && |r4s| == c.count - 1
    ensures forall k :: 0 <= k < |r4s| ==> Other(c.me, k) < c.count
    ensures forall k :: 0 <= k < |r4s| ==> PhiValues(c, own, r4s)[Other(c.me, k)] == BeValue(r4s[k].phi) % c.curve.n
    ensures forall k :: 0 <= k < |r4s| ==> ShatValues(c, own, r4s)[Other(c.me, k)] == BeValue(r4s[k].shat) % c.curve.n
  {
    forall k | 0 <= k < |r4s| ensures Other(c.me, k) < c.count && Slot(c.me, Other(c.me, k)) == k && Other(c.me,
      k) != c.me {
    }
  }

  lemma CombinedIs(c: SignConfig, rPoint: Point, phis: seq<Scalar>, shats: seq<Scalar>)
    requires c.curve.n > 0
    ensures Combined(c, rPoint, phis, shats) == Normalize(c.curve, rPoint, c.curve.XScalar(rPoint),
      FMul(c.curve.n, Total(shats) % c.curve.n, Inv(c.curve.n, Total(phis) % c.curve.n)))
  {
  }

  // ---------- what the handlers compute ----------

  /** Round 1: the nonces, R.x, the mixed session id and Alice's messages. */
  method ComputeNonces(c: SignConfig, s: Secrets, base: bytes, msgs: seq<Option<R1>>)
    returns (err: Option<Failure>, nonces: seq<Point>, x: Scalar, mixed: bytes, sides: seq<AliceSide>)
    requires c.Valid() && s.Valid(c) && c.curve.n > 0 && base == c.baseSsid && |msgs| == c.count - 1
    ensures err == None <==> NoncesParse(c, msgs) && c.curve.XScalar(GroupNonce(c, s, Nonces(c, msgs))) != 0
    ensures err == None ==> nonces == Nonces(c, msgs) && x == c.curve.XScalar(GroupNonce(c, s, nonces)) && x != 0
    ensures err == None ==>
      mixed == RoundTwoSsid(c, s, nonces) && |sides| == c.count - 1 && AliceSides(c, s, mixed, sides)
  {
    hide *;
    ValidParts(c, 0);
    CodecOf(c);
    NoncesMean(c, msgs);
    nonces, x, mixed, sides := [], 0, base, [];
    if !Decoded(msgs) { return Some(Undecodable), nonces, x, mixed, sides; }
    err, nonces := ParseNonces(c, Payloads(msgs));
    if err.Some? { return; }
    NoncesAre(c, msgs, nonces);
    var rPoint := SumNonces(c, s, nonces);
    x := c.curve.XScalar(rPoint);
    if x == 0 { return Some(NonceX), nonces, x, mixed, sides; }
    SsidIs(c, s, nonces);
    mixed := c.mix(base, AllNonces(c, s, nonces));
    sides := AliceRoundTwo(c, s, mixed);
  }

  lemma NoncesMean(c: SignConfig, msgs: seq<Option<R1>>)
    ensures !Decoded(msgs) ==> !NoncesParse(c, msgs)
    ensures Decoded(msgs) ==>
      (NoncesParse(c, msgs) <==>
        forall k :: 0 <= k < |msgs| ==> c.codec.parse(Payloads(msgs)[k].x, Payloads(msgs)[k].y).Some?)
  {
    if Decoded(msgs) && forall k :: 0 <= k < |msgs| ==> c.codec.parse(Payloads(msgs)[k].x, Payloads(msgs)[k].y).Some? {
      forall k | 0 <= k < |msgs| ensures msgs[k].Some? && c.codec.parse(msgs[k].value.x, msgs[k].value.y).Some? {
        assert Payloads(msgs)[k] == msgs[k].value;
      }
    }
  }

  lemma NoncesAre(c: SignConfig, msgs: seq<Option<R1>>, nonces: seq<Point>)
    requires Decoded(msgs) && |nonces| == |msgs|
    requires forall k :: 0 <= k < |msgs| ==> c.codec.parse(Payloads(msgs)[k].x, Payloads(msgs)[k].y) == Some(nonces[k])
    ensures nonces == Nonces(c, msgs)
  {
    forall k | 0 <= k < |msgs| ensures nonces[k] == NonceIn(c, msgs[k]) { assert Payloads(msgs)[k] == msgs[k].value; }
  }

  method CheckReports(count: nat, me: nat, mine: map<nat, bytes>,
    msgs: seq<Option<EchoMsg>>) returns (err: Option<Failure>, echoes: seq<EchoMsg>)
    requires me < count && |msgs| == count - 1
    ensures err == None ==> ReportsAgree(count, me, mine, echoes)
    ensures err == None <==>
      Decoded(msgs) && ReportsAgree(count, me, mine, Payloads(msgs)) && ReportsSized(count, Payloads(msgs))
    ensures err == None ==> echoes == Payloads(msgs)
  {
    hide Agrees;
    echoes := [];
    if !Decoded(msgs) { return Some(Undecodable), echoes; }
    echoes := Payloads(msgs);
    var bad := VerifyEchoes(mine, me, OtherParties(count, me), echoes, Everyone(count, me));
    if bad.Some? { return Some(EchoFailed(bad.value)), echoes; }
    err := None;
  }

  /** No report has more entries than there are parties. */
  ghost predicate ReportsSized(count: nat, echoes: seq<EchoMsg>) {
    forall k :: 0 <= k < |echoes| ==> |echoes[k].digests| <= count
  }

  method ComputeAnswers(c: SignConfig, s: Secrets, ssid: bytes, msgs: seq<Option<R2>>, kRho0: Scalar, xRho0: Scalar)
    returns (err: Option<Failure>, bob: seq<BobSide>, kRho: Scalar, xRho: Scalar)
    requires c.Valid() && s.Valid(c) && c.curve.n > 0 && |msgs| == c.count - 1 && ShapedAll(msgs)
    requires kRho0 == FMul(c.curve.n, s.k, s.rho) && xRho0 == FMul(c.curve.n, c.sx, s.rho)
    ensures err == None ==>
      |bob| == c.count - 1 && BobSides(c, s, ssid, bob) && Decoded(msgs) && AnswersTo(Payloads(msgs), bob)
    ensures err == None <==> AllAccepted(c, ssid, msgs)
    ensures err == None ==> kRho == (s.k * s.rho + BobSum(bob, false, |bob|)) % c.curve.n
    ensures err == None ==> xRho == (c.sx * s.rho + BobSum(bob, true, |bob|)) % c.curve.n
  {
    hide *;
    ProductResidues(c, s);
    ShapedPayloads(msgs);
    AcceptedMeans(c, ssid, msgs);
    if !Decoded(msgs) { return Some(Undecodable), [], kRho0, xRho0; }
    err, bob, kRho, xRho := BobRound(c, s, ssid, Payloads(msgs), kRho0, xRho0, s.k * s.rho, c.sx * s.rho);
  }

  /** Every round-2 message decodes and passes Bob's checks. */
  ghost predicate AllAccepted(c: SignConfig, ssid: bytes, msgs: seq<Option<R2>>)
    requires c.Valid() && |msgs| == c.count - 1 && ShapedAll(msgs)
  {
    forall m :: 0 <= m < |msgs| ==> msgs[m].Some? && R2Accepted(c, ssid, m, msgs[m].value)
  }

  lemma AcceptedMeans(c: SignConfig, ssid: bytes, msgs: seq<Option<R2>>)
    requires c.Valid() && |msgs| == c.count - 1 && ShapedAll(msgs)
    ensures !Decoded(msgs) ==> !AllAccepted(c, ssid, msgs)
    ensures Decoded(msgs) ==>
      && (forall m :: 0 <= m < |msgs| ==> Payloads(msgs)[m].Shaped())
      && (AllAccepted(c, ssid, msgs) <==> AllR2Accepted(c, ssid, Payloads(msgs), |msgs|))
  {
    hide R2Accepted, SignConfig.Valid, R2.Shaped;
    if Decoded(msgs) && AllR2Accepted(c, ssid, Payloads(msgs), |msgs|) {
      forall m | 0 <= m < |msgs| ensures R2Accepted(c, ssid, m, msgs[m].value) { assert R2Accepted(c, ssid, m,
        Payloads(msgs)[m]); }
    }
  }

  method ComputeReveal(c: SignConfig, s: Secrets, ssid: bytes, alice: seq<AliceSide>, r: Scalar, msgs: seq<Option<R3>>,
    kRho0: Scalar, xRho0: Scalar,
    ghost v: View) returns (err: Option<Failure>, replies: seq<(BobMsg,
      BobMsg)>, kRho: Scalar, xRho: Scalar, shat: Scalar)
    requires c.Valid() && s.Valid(c) && c.curve.n > 0 && |msgs| == |alice| == c.count - 1
    requires AliceSides(c, s, ssid, alice) && v.alice == alice
    requires r == c.curve.XScalar(GroupNonce(c, s, v.peerK))
    requires kRho0 == (s.k * s.rho + BobSum(v.bob, false, |v.bob|)) % c.curve.n
    requires xRho0 == (c.sx * s.rho + BobSum(v.bob, true, |v.bob|)) % c.curve.n
    ensures err == None ==> |replies| == c.count - 1 && FullReplies(replies)
    ensures err == None <==> Decoded(msgs) && FullReplies(Replies(c.curve.n, Payloads(msgs)))
    ensures err == None ==> replies == Replies(c.curve.n, Payloads(msgs))
    ensures err == None ==>
      kRho == PhiShare(c, s, v.(replies := replies)) && shat == ShatShare(c, s, v.(replies := replies))
  {
    DecodedMeans(msgs);
    hide *;
    replies, shat := [], 0;
    if !Decoded(msgs) { return Some(Undecodable), replies, kRho0, xRho0, shat; }
    replies := Replies(c.curve.n, Payloads(msgs));
    err, kRho, xRho := AliceRound(c, s, ssid, alice, replies, kRho0, xRho0,
      s.k * s.rho + BobSum(v.bob, false, |v.bob|), c.sx * s.rho + BobSum(v.bob, true, |v.bob|));
    if err.Some? { return; }
    SharesAre(c, s, v.(replies := replies), kRho, xRho);
    shat := FAdd(c.curve.n, FMul(c.curve.n, s.rho, c.E()), FMul(c.curve.n, r, xRho));
  }

  // ---------- what every step keeps ----------

  /** The state under the mutex, with the echoes broadcast, the replies sent once every peer has been answered, and the
      handlers registered so far: for the round-1 echo and round 2, round 3, round 4 and the round-4 echo. */
  datatype State = State(ssid: bytes, r: Scalar, peerK: seq<Point>, alice: seq<AliceSide>, kRho: Scalar, xRho: Scalar,
    phi: Scalar, shat: Scalar, r4msgs: seq<R4>, echoOk: bool, r2Msgs: Option<seq<Option<R2>>>, round3Started: bool,
    sentEcho: Option<EchoMsg>, sentR3: Option<seq<R3>>, sentR4Echo: Option<EchoMsg>, awaitEcho: bool, awaitR3: bool,
    awaitR4: bool, awaitR4Echo: bool)

  /** encode_bob */
  function EncodeBob(n: int, b: BobMsg): (e: seq<bytes>)
    requires n > 0
    ensures |e| == |b.corrections|
  {
    seq(|b.corrections|, i requires 0 <= i < |b.corrections| => BeMin(b.corrections[i] % n))
  }

  /** Bob's replies, one message for every peer. */
  function RepliesOut(n: int, bob: seq<BobSide>): (r3s: seq<R3>)
    requires n > 0
    ensures |r3s| == |bob|
    ensures forall m :: 0 <= m < |bob| ==> r3s[m] == R3(EncodeBob(n, bob[m].replyK), EncodeBob(n, bob[m].replyX))
  {
    seq(|bob|, m requires 0 <= m < |bob| => R3(EncodeBob(n, bob[m].replyK), EncodeBob(n, bob[m].replyX)))
  }

  /** How often round 3 ran, and the messages used so far. */
  datatype History = History(runs: nat, used: View)

  ghost predicate Initial(c: SignConfig, s: Secrets, st: State, h: History)
    requires c.curve.n > 0
  {
    st.kRho == FMul(c.curve.n, s.k, s.rho) && st.xRho == FMul(c.curve.n, c.sx, s.rho)
  }

  /** Round 1 is in: the nonces parse, R is usable, and Alice's messages are out under the mixed session id. */
  ghost predicate NoncesIn(c: SignConfig, s: Secrets, st: State, h: History)
    requires c.Valid() && s.Valid(c) && c.curve.n > 0
  {
    && |st.peerK| == c.count - 1 && h.used.peerK == st.peerK
    && st.r == c.curve.XScalar(GroupNonce(c, s, st.peerK)) && st.r != 0 && st.ssid == RoundTwoSsid(c, s, st.peerK)
    && |st.alice| == c.count - 1 && h.used.alice == st.alice && AliceSides(c, s, st.ssid, st.alice)
  }

  ghost predicate EchoesIn(c: SignConfig, s: Secrets, st: State, h: History)
    requires c.curve.n > 0
  {
    ReportsAgree(c.count, c.me, NonceDigests(c, s, st.peerK), h.used.r1Echoes)
  }

  /** Bob has answered every peer. */
  ghost predicate Answered(c: SignConfig, s: Secrets, st: State, h: History)
    requires c.Valid() && s.Valid(c)
  {
    |h.used.bob| == c.count - 1 && BobSides(c, s, st.ssid, h.used.bob)
  }

  /** The shares are those of the products so far. */
  ghost predicate SharesSoFar(c: SignConfig, s: Secrets, st: State, h: History)
    requires c.curve.n > 0
  {
    && st.kRho == (s.k * s.rho + BobSum(h.used.bob, false, |h.used.bob|)) % c.curve.n
    && st.xRho == (c.sx * s.rho + BobSum(h.used.bob, true, |h.used.bob|)) % c.curve.n
  }

  ghost predicate Revealed(c: SignConfig, s: Secrets, st: State, h: History)
    requires c.curve.n > 0
  {
    && |h.used.replies| == c.count - 1 && FullReplies(h.used.replies) && |h.used.alice| == c.count - 1
    && st.phi == PhiShare(c, s, h.used) && st.shat == ShatShare(c, s, h.used)
  }

  /** Round 3 has run at most once, and only after every round-1 echo verified; each stage has what the stages before it
      established. */
  ghost predicate StateOk(c: SignConfig, s: Secrets, st: State, h: History)
    requires c.Valid() && s.Valid(c) && c.curve.n > 0
  {
    && (!st.awaitEcho ==> st.ssid == c.baseSsid) && (!st.round3Started ==> Initial(c, s, st, h))
    && (st.awaitEcho ==> NoncesIn(c, s, st, h))
    && (st.r2Msgs.Some? ==> st.awaitEcho && |st.r2Msgs.value| == c.count - 1 && ShapedAll(st.r2Msgs.value))
    && (st.echoOk ==> st.awaitEcho && EchoesIn(c, s, st, h))
    && h.runs == (if st.round3Started then 1 else 0) && (st.round3Started ==> st.echoOk)
    && (st.awaitR3 ==> st.sentR3 == Some(RepliesOut(c.curve.n, h.used.bob)))
    && (st.awaitR3 ==> st.round3Started && Answered(c, s, st, h)) && (st.awaitR3 && !st.awaitR4 ==> SharesSoFar(c, s,
      st, h))
    && (st.awaitR4 ==> st.awaitR3 && Revealed(c, s, st, h))
    && (st.awaitR4Echo ==> st.awaitR4 && |st.r4msgs| == c.count - 1 && h.used.r4s == st.r4msgs)
    && (st.awaitEcho ==> st.sentEcho == Some(NonceEcho(c, st.peerK)))
    && (st.awaitR4Echo ==> st.sentR4Echo == Some(RevealEcho(c, st.r4msgs)))
  }

  lemma AfterR1(c: SignConfig, s: Secrets, st: State, h: History, nonces: seq<Point>, ssid: bytes,
    alice: seq<AliceSide>, st': State, h': History)
    requires c.Valid() && s.Valid(c) && c.curve.n > 0 && StateOk(c, s, st, h) && !st.awaitEcho
    requires |nonces| == c.count - 1 && c.curve.XScalar(GroupNonce(c, s, nonces)) != 0
    requires ssid == RoundTwoSsid(c, s, nonces)
    requires |alice| == c.count - 1 && AliceSides(c, s, ssid, alice)
    requires st' == st.(peerK := nonces, r := c.curve.XScalar(GroupNonce(c, s, nonces)), ssid := ssid, alice := alice,
      sentEcho := Some(NonceEcho(c, nonces)), awaitEcho := true)
    requires h' == h.(used := h.used.(peerK := nonces, alice := alice))
    ensures StateOk(c, s, st', h')
  {
    hide RepliesOut, AliceSides, GroupNonce, RoundTwoSsid, FMul, SignConfig.Valid, Secrets.Valid, EchoesIn, Answered,
      SharesSoFar, Revealed;
  }

  lemma AfterEchoes(c: SignConfig, s: Secrets, st: State, h: History, echoes: seq<EchoMsg>, st': State, h': History)
    requires c.Valid() && s.Valid(c) && c.curve.n > 0 && StateOk(c, s, st, h) && st.awaitEcho && !st.echoOk
    requires ReportsAgree(c.count, c.me, NonceDigests(c, s, st.peerK), echoes)
    requires st' == st.(echoOk := true) && h' == h.(used := h.used.(r1Echoes := echoes))
    ensures StateOk(c, s, st', h')
  {
    hide RepliesOut, AliceSides, GroupNonce, RoundTwoSsid, FMul, SignConfig.Valid, Secrets.Valid, ReportsAgree,
      NonceDigests, Answered, SharesSoFar, Revealed;
  }

  lemma AfterR2(c: SignConfig, s: Secrets, st: State, h: History, msgs: Option<seq<Option<R2>>>, st': State,
    h': History)
    requires c.Valid() && s.Valid(c) && c.curve.n > 0 && StateOk(c, s, st, h) && st.awaitEcho
    requires msgs.Some? ==> |msgs.value| == c.count - 1 && ShapedAll(msgs.value)
    requires st' == st.(r2Msgs := msgs) && h' == h
    ensures StateOk(c, s, st', h')
  {
    hide RepliesOut, SignConfig.Valid, Secrets.Valid, NoncesIn, EchoesIn, Answered, SharesSoFar, Revealed, Initial,
      ShapedAll;
    StagesIgnoreR2(c, s, st, h, msgs);
  }

  lemma StagesIgnoreR2(c: SignConfig, s: Secrets, st: State, h: History, msgs: Option<seq<Option<R2>>>)
    requires c.Valid() && s.Valid(c) && c.curve.n > 0
    ensures var st', h' := st.(r2Msgs := msgs), h;
      && Initial(c, s, st', h') == Initial(c, s, st, h) && NoncesIn(c, s, st', h') == NoncesIn(c, s, st,
        h) && EchoesIn(c, s, st', h') == EchoesIn(c, s, st, h)
      && Answered(c, s, st', h') == Answered(c, s, st, h) && SharesSoFar(c, s, st', h') == SharesSoFar(c, s, st,
        h) && Revealed(c, s, st', h') == Revealed(c, s, st, h)
  {
    hide RepliesOut, AliceSides, BobSides, GroupNonce, RoundTwoSsid, FMul, ReportsAgree, NonceDigests, PhiShare,
      ShatShare, FullReplies, BobSum;
  }

  /** Claiming round 3. */
  lemma AfterClaim(c: SignConfig, s: Secrets, st: State, h: History, st': State, h': History)
    requires c.Valid() && s.Valid(c) && c.curve.n > 0 && StateOk(c, s, st, h) && st.echoOk && !st.round3Started
    requires st' == st.(round3Started := true, r2Msgs := None) && h' == h.(runs := h.runs + 1)
    ensures StateOk(c, s, st', h') && Initial(c, s, st, h) && !st'.awaitR3 && h'.runs == 1
  {
    hide RepliesOut, AliceSides, BobSides, GroupNonce, RoundTwoSsid, FMul, ReportsAgree, NonceDigests, NonceEcho,
      RevealEcho, SignConfig.Valid, Secrets.Valid, Answered, SharesSoFar, Revealed;
  }

  lemma AfterRound3(c: SignConfig, s: Secrets, st: State, h: History, bob: seq<BobSide>, k: Scalar, x: Scalar, ok: bool,
    st': State, h': History)
    requires c.Valid() && s.Valid(c) && c.curve.n > 0 && StateOk(c, s, st, h) && st.round3Started && !st.awaitR3
    requires ok ==> |bob| == c.count - 1 && BobSides(c, s, st.ssid, bob)
    requires ok ==>
      k == (s.k * s.rho + BobSum(bob, false, |bob|)) % c.curve.n && x == (c.sx * s.rho + BobSum(bob, true,
        |bob|)) % c.curve.n
    requires st' == st.(kRho := k, xRho := x, awaitR3 := ok,
      sentR3 := if ok then Some(RepliesOut(c.curve.n, bob)) else st.sentR3)
    requires h' == if ok then h.(used := h.used.(bob := bob)) else h
    ensures StateOk(c, s, st', h')
  {
    hide RepliesOut, AliceSides, BobSides, GroupNonce, RoundTwoSsid, FMul, ReportsAgree, NonceDigests, NonceEcho,
      RevealEcho, SignConfig.Valid, Secrets.Valid, Revealed, BobSum;
  }

  lemma AfterR3(c: SignConfig, s: Secrets, st: State, h: History, replies: seq<(BobMsg, BobMsg)>, k: Scalar, x: Scalar,
    shat: Scalar, st': State, h': History)
    requires c.Valid() && s.Valid(c) && c.curve.n > 0 && StateOk(c, s, st, h) && st.awaitR3 && !st.awaitR4
    requires |replies| == c.count - 1 && FullReplies(replies) && |h.used.alice| <= |replies|
    requires k == PhiShare(c, s, h.used.(replies := replies)) && shat == ShatShare(c, s, h.used.(replies := replies))
    requires st' == st.(kRho := k, xRho := x, phi := k, shat := shat, awaitR4 := true)
    requires h' == h.(used := h.used.(replies := replies))
    ensures StateOk(c, s, st', h')
  {
    hide RepliesOut, AliceSides, BobSides, GroupNonce, RoundTwoSsid, FMul, ReportsAgree, NonceDigests, NonceEcho,
      RevealEcho, SignConfig.Valid, Secrets.Valid, PhiShare, ShatShare, FullReplies, BobSum;
  }

  lemma AfterR4(c: SignConfig, s: Secrets, st: State, h: History, r4s: seq<R4>, st': State, h': History)
    requires c.Valid() && s.Valid(c) && c.curve.n > 0 && StateOk(c, s, st, h) && st.awaitR4 && |r4s| == c.count - 1
    requires st' == st.(r4msgs := r4s, sentR4Echo := Some(RevealEcho(c, r4s)), awaitR4Echo := true)
    requires h' == h.(used := h.used.(r4s := r4s))
    ensures StateOk(c, s, st', h')
  {
    assert |h.used.alice| == |h.used.replies| by {
      hide RepliesOut, AliceSides, BobSides, GroupNonce, RoundTwoSsid, FMul, ReportsAgree, PhiShare, ShatShare;
    }
    RevealIgnoresR4s(c, s, h.used, r4s);
    hide RepliesOut, AliceSides, BobSides, GroupNonce, RoundTwoSsid, FMul, ReportsAgree, NonceDigests, NonceEcho,
      RevealEcho, SignConfig.Valid, Secrets.Valid, PhiShare, ShatShare, FullReplies, BobSum;
  }

  /** What the last step needs, and what it then delivers. */
  lemma AfterFinalize(c: SignConfig, s: Secrets, st: State, h: History, echoes: seq<EchoMsg>, sig: Signature)
    requires c.Valid() && s.Valid(c) && c.curve.n > 0 && StateOk(c, s, st, h) && st.awaitR4Echo
    requires |h.used.alice| <= |h.used.replies|
    requires ReportsAgree(c.count, c.me, RevealDigests(c, OwnR4(c, s, h.used), st.r4msgs), echoes)
    requires EcdsaVerify(c.curve, c.verifyPub, c.E(), sig.r, sig.s)
    requires sig == Combined(c, GroupNonce(c, s, st.peerK), PhiValues(c, OwnR4(c, s, h.used), st.r4msgs),
      ShatValues(c, OwnR4(c, s, h.used), st.r4msgs))
    ensures Finished(c, s, h.used.(r4Echoes := echoes), sig)
  {
    ViewKeepsShares(c, s, h.used, h.used.(r4Echoes := echoes));
    hide RepliesOut, AliceSides, BobSides, GroupNonce, RoundTwoSsid, FMul, ReportsAgree, NonceDigests, NonceEcho,
      RevealEcho, SignConfig.Valid, Secrets.Valid, PhiShare, ShatShare, BobSum, RevealDigests, OwnR4, EcdsaVerify,
      Combined, PhiValues, ShatValues;
  }

  lemma AfterEchoesIn(c: SignConfig, s: Secrets, st: State, h: History, echoes: seq<EchoMsg>, st': State, h': History)
    requires c.Valid() && s.Valid(c) && c.curve.n > 0 && StateOk(c, s, st, h) && st.awaitR4Echo
    requires |h.used.alice| <= |h.used.replies|
    requires st' == st && h' == h.(used := h.used.(r4Echoes := echoes))
    ensures StateOk(c, s, st', h')
  {
    ViewKeepsShares(c, s, h.used, h.used.(r4Echoes := echoes));
    hide RepliesOut, AliceSides, BobSides, GroupNonce, RoundTwoSsid, FMul, ReportsAgree, NonceDigests, NonceEcho,
      RevealEcho, SignConfig.Valid, Secrets.Valid, PhiShare, ShatShare, FullReplies, BobSum;
  }

  /** The facts a step may read off the state. */
  lemma StateFacts(c: SignConfig, s: Secrets, st: State, h: History)
    requires c.Valid() && s.Valid(c) && c.curve.n > 0 && StateOk(c, s, st, h)
    ensures !st.awaitEcho ==> st.ssid == c.baseSsid
    ensures st.awaitEcho ==>
      |st.peerK| == |st.alice| == c.count - 1 && h.used.peerK == st.peerK && h.used.alice == st.alice
    ensures st.awaitEcho ==> AliceSides(c, s, st.ssid, st.alice) && st.r == c.curve.XScalar(GroupNonce(c, s, st.peerK))
    ensures st.r2Msgs.Some? ==> st.awaitEcho && |st.r2Msgs.value| == c.count - 1 && ShapedAll(st.r2Msgs.value)
    ensures st.round3Started ==> st.echoOk && h.runs == 1
    ensures !st.round3Started ==> h.runs == 0 && !st.awaitR3
    ensures st.awaitR3 ==> st.awaitEcho && st.round3Started
    ensures st.awaitR4 ==> st.awaitR3
    ensures st.awaitR3 && !st.awaitR4 ==> SharesSoFar(c, s, st, h)
    ensures st.awaitR4 ==>
      |h.used.replies| == |h.used.alice| == c.count - 1 && st.phi == PhiShare(c, s, h.used) && st.shat == ShatShare(c,
        s, h.used)
    ensures st.awaitR4Echo ==> st.awaitR4 && st.echoOk && |st.r4msgs| == c.count - 1 && h.used.r4s == st.r4msgs
    ensures st.awaitEcho ==> st.sentEcho == Some(NonceEcho(c, st.peerK))
    ensures st.awaitEcho ==> st.ssid == RoundTwoSsid(c, s, st.peerK)
    ensures st.awaitR3 ==> st.sentR3 == Some(RepliesOut(c.curve.n, h.used.bob))
    ensures st.awaitR3 ==> |h.used.bob| == c.count - 1 && BobSides(c, s, st.ssid, h.used.bob)
    ensures st.awaitR4Echo ==> st.sentR4Echo == Some(RevealEcho(c, st.r4msgs)) && st.r != 0
  {
    hide RepliesOut, AliceSides, BobSides, GroupNonce, RoundTwoSsid, FMul, ReportsAgree, NonceDigests, NonceEcho,
      RevealEcho, SignConfig.Valid, Secrets.Valid, PhiShare, ShatShare, FullReplies, BobSum, ShapedAll;
  }

  // ---------- the party ----------

  class Shared {
    const c: SignConfig
    const s: Secrets

    var st: State

    /** The result channel: its sender is taken by the first delivery. */
    var resultTx: bool
    var deliveries: seq<Result<Signature, Failure>>

    ghost var h: History

    /** At most one result, and a delivered signature is backed by both echo phases and the final gate. */
    ghost predicate Delivered() reads this {
      && |deliveries| <= 1 && (resultTx <==> deliveries == [])
      && forall k :: 0 <= k < |deliveries| && deliveries[k].Ok? ==>
        st.awaitR4Echo && Finished(c, s, h.used, deliveries[k].value)
    }

    ghost predicate Inv() reads this {
      c.Valid() && s.Valid(c) && c.curve.n > 0 && StateOk(c, s, st, h) && Delivered()
    }

    /** No signature has been delivered yet. */
    ghost predicate NoSignature() reads this { forall k :: 0 <= k < |deliveries| ==> deliveries[k].Err? }

    constructor (c: SignConfig, s: Secrets)
      requires c.Valid() && s.Valid(c)
      ensures Inv() && this.c == c && this.s == s && deliveries == [] && h.runs == 0
      ensures !st.awaitEcho && !st.awaitR3 && !st.awaitR4 && !st.awaitR4Echo && !st.echoOk && !st.round3Started
      ensures st.r2Msgs == None && h.used == View([], [], [], [], [], [], [])
    {
      ValidParts(c, 0);
      this.c, this.s := c, s;
      st := State(c.baseSsid, 0, [], [], FMul(c.curve.n, s.k, s.rho), FMul(c.curve.n, c.sx, s.rho), 0, 0, [], false,
        None, false, None, None, None, false, false, false, false);
      resultTx, deliveries := true, [];
      h := History(0, View([], [], [], [], [], [], []));
    }

    /** The first result wins; later ones are dropped. */
    method Deliver(res: Result<Signature, Failure>)
      requires Inv() && (res.Ok? && deliveries == [] ==> st.awaitR4Echo && Finished(c, s, h.used, res.value))
      modifies this`resultTx, this`deliveries
      ensures Inv() && deliveries == (if old(deliveries) == [] then [res] else old(deliveries))
    {
      hide StateOk, Finished, SignConfig.Valid, Secrets.Valid;
      if resultTx {
        resultTx := false;
        deliveries := deliveries + [res];
      }
    }

    /** A failing step delivers its error, if nothing was delivered before. */
    method Fail(e: Failure)
      requires Inv() && NoSignature()
      modifies this`resultTx, this`deliveries
      ensures Inv() && NoSignature() && deliveries == if old(deliveries) == [] then [Err(e)] else old(deliveries)
    {
      hide StateOk, Finished, SignConfig.Valid, Secrets.Valid;
      Deliver(Err(e));
    }

    /** Moves to a state the invariant allows. */
    method Move(st': State, ghost h': History)
      requires Inv() && NoSignature() && StateOk(c, s, st', h')
      modifies this`st, this`h
      ensures Inv() && NoSignature() && st == st' && h == h'
    {
      hide StateOk, Finished, SignConfig.Valid, Secrets.Valid;
      st := st';
      h := h';
    }

    lemma Begin()
      requires Inv() && deliveries == []
      ensures NoSignature()
    {
    }

    lemma Unfold()
      requires Inv()
      ensures c.Valid() && s.Valid(c) && c.curve.n > 0 && StateOk(c, s, st, h) && |deliveries| <= 1
      ensures deliveries != [] && deliveries[0].Ok? ==> st.awaitR4Echo && Finished(c, s, h.used, deliveries[0].value)
    {
      hide StateOk, Finished, SignConfig.Valid, Secrets.Valid;
    }

    /** Round-1 nonces: parse, compute R, send the echo and, under the session id mixed from all nonces, Alice's
        messages. It fails exactly on a nonce that does not parse or a vanishing R.x. */
    method OnR1(msgs: seq<Option<R1>>)
      requires Inv() && NoSignature() && !st.awaitEcho && |msgs| == c.count - 1
      modifies this
      ensures Inv() && NoSignature() && h.runs == old(h.runs)
      ensures st.r2Msgs.Some? || st.round3Started ==> old(st.r2Msgs.Some? || st.round3Started)
      ensures c.curve.n > 0
      ensures st.awaitEcho <==> NoncesParse(c, msgs) && c.curve.XScalar(GroupNonce(c, s, Nonces(c, msgs))) != 0
      ensures st.awaitEcho ==>
        deliveries == old(deliveries) && st.peerK == Nonces(c, msgs) && st.sentEcho == Some(NonceEcho(c, st.peerK))
      ensures st.awaitEcho ==> h.used == old(h.used).(peerK := st.peerK, alice := st.alice)
      ensures st.r2Msgs == old(st.r2Msgs) && st.round3Started == old(st.round3Started)
      ensures !st.awaitEcho ==> deliveries != []
      ensures st.awaitR3 == old(st.awaitR3) && st.awaitR4 == old(st.awaitR4) && st.awaitR4Echo == old(st.awaitR4Echo)
      ensures st.echoOk == old(st.echoOk)
    {
      hide *;
      Unfold();
      StateFacts(c, s, st, h);
      var err, nonces, x, mixed, sides := ComputeNonces(c, s, st.ssid, msgs);
      if err.Some? {
        Fail(err.value);
        return;
      }
      var st' := st.(peerK := nonces, r := x, ssid := mixed, alice := sides, sentEcho := Some(NonceEcho(c, nonces)),
        awaitEcho := true);
      ghost var h' := h.(used := h.used.(peerK := nonces, alice := sides));
      AfterR1(c, s, st, h, nonces, mixed, sides, st', h');
      Move(st', h');
    }

    /** The reports are checked against this signer's view: it fails exactly on one that does not agree. */
    method OnR1Echoes(msgs: seq<Option<EchoMsg>>)
      requires Inv() && NoSignature() && st.awaitEcho && !st.echoOk && |msgs| == c.count - 1
      modifies this
      ensures Inv() && NoSignature() && old(h.runs) <= h.runs
      ensures st.r2Msgs.Some? || st.round3Started ==> old(st.r2Msgs.Some? || st.round3Started)
      ensures c.curve.n > 0 && st.peerK == old(st.peerK)
      ensures st.echoOk <==>
        && Decoded(msgs) && ReportsAgree(c.count, c.me, NonceDigests(c, s, st.peerK), Payloads(msgs))
        && ReportsSized(c.count, Payloads(msgs))
      ensures !st.echoOk ==> deliveries != []
      ensures st.echoOk && old(st.r2Msgs) == None ==>
        && st == old(st).(echoOk := true) && deliveries == old(deliveries)
        && h.used == old(h.used).(r1Echoes := Payloads(msgs))
      ensures st.awaitEcho && st.awaitR4 == old(st.awaitR4) && st.awaitR4Echo == old(st.awaitR4Echo)
    {
      hide *;
      Unfold();
      ValidParts(c, 0);
      var err, echoes := CheckReports(c.count, c.me, NonceDigests(c, s, st.peerK), msgs);
      if err.Some? {
        Fail(err.value);
        return;
      }
      var st' := st.(echoOk := true);
      ghost var h' := h.(used := h.used.(r1Echoes := echoes));
      AfterEchoes(c, s, st, h, echoes, st', h');
      Move(st', h');
      TryRound3();
    }

    method OnR2(msgs: seq<Option<R2>>)
      requires Inv() && NoSignature() && st.awaitEcho && |msgs| == c.count - 1 && ShapedAll(msgs)
      modifies this
      ensures Inv() && NoSignature() && old(h.runs) <= h.runs
      ensures st.awaitEcho && st.echoOk == old(st.echoOk) && st.awaitR4 == old(st.awaitR4)
      ensures st.awaitR4Echo == old(st.awaitR4Echo)
      ensures old(st.echoOk) && !old(st.round3Started) ==>
        Round3Ran(c, old(st), old(h), old(deliveries), msgs, st, h, deliveries)
    {
      hide *;
      Unfold();
      StateFacts(c, s, st, h);
      Round3Alike(c, st, Some(msgs), h, deliveries, msgs);
      var st' := st.(r2Msgs := Some(msgs));
      AfterR2(c, s, st, h, Some(msgs), st', h);
      Move(st', h);
      TryRound3();
    }

    /** Round 3 starts once the echoes have verified and every envelope is in, and only once. */
    method TryRound3()
      requires Inv() && (NoSignature() || st.round3Started) && st.awaitEcho
      modifies this
      ensures Inv() && (old(NoSignature()) ==> NoSignature()) && old(h.runs) <= h.runs <= 1
      ensures h.runs > old(h.runs) ==> old(st.echoOk) && old(st.r2Msgs).Some? && !old(st.round3Started)
      ensures !old(st.round3Started) && old(st.echoOk) && old(st.r2Msgs).Some? ==> h.runs == 1
      ensures old(st.round3Started) || !old(st.echoOk) || old(st.r2Msgs) == None ==>
        st == old(st) && deliveries == old(deliveries) && h == old(h)
      ensures !old(st.round3Started) && old(st.echoOk) && old(st.r2Msgs).Some? ==>
        Round3Ran(c, old(st), old(h), old(deliveries), old(st.r2Msgs).value, st, h, deliveries)
      ensures st.r2Msgs.Some? || st.round3Started ==> old(st.r2Msgs.Some? || st.round3Started)
      ensures st.peerK == old(st.peerK)
      ensures st.awaitEcho && st.echoOk == old(st.echoOk) && st.awaitR4 == old(st.awaitR4)
      ensures st.awaitR4Echo == old(st.awaitR4Echo)
    {
      hide *;
      Unfold();
      StateFacts(c, s, st, h);
      if st.round3Started || !st.echoOk || st.r2Msgs == None { return; }
      var msgs := st.r2Msgs.value;
      var st' := st.(round3Started := true, r2Msgs := None);
      ghost var h' := h.(runs := h.runs + 1);
      AfterClaim(c, s, st, h, st', h');
      InitialMeans(c, s, st, h);
      Move(st', h');
      Round3(msgs);
      Round3RanIntro(c, old(st), old(h), old(deliveries), msgs, st, h, deliveries);
    }

    /** Bob answers every peer; the shares move with the answers computed, even when a later peer fails. It fails
        exactly on a message that Bob's checks refuse. */
    method Round3(msgs: seq<Option<R2>>)
      requires Inv() && NoSignature() && st.round3Started && !st.awaitR3 && |msgs| == c.count - 1 && ShapedAll(msgs)
      requires st.kRho == FMul(c.curve.n, s.k, s.rho) && st.xRho == FMul(c.curve.n, c.sx, s.rho)
      modifies this
      ensures Inv() && NoSignature() && h.runs == old(h.runs)
      ensures c.Valid() && st.ssid == old(st.ssid) && st.peerK == old(st.peerK) && (st.awaitR3 <==> AllAccepted(c,
        st.ssid, msgs))
      ensures st.awaitR3 ==> deliveries == old(deliveries) && Decoded(msgs) && AnswersTo(Payloads(msgs), h.used.bob)
      ensures st.round3Started && st.r2Msgs == old(st.r2Msgs) && h.used == old(h.used).(bob := h.used.bob)
      ensures st.awaitEcho == old(st.awaitEcho) && st.echoOk == old(st.echoOk) && st.awaitR4 == old(st.awaitR4)
      ensures st.awaitR4Echo == old(st.awaitR4Echo)
    {
      hide *;
      Unfold();
      var err, bob, k, x := ComputeAnswers(c, s, st.ssid, msgs, st.kRho, st.xRho);
      var st' := st.(kRho := k, xRho := x, awaitR3 := err == None,
        sentR3 := if err == None then Some(RepliesOut(c.curve.n, bob)) else st.sentR3);
      ghost var h' := if err == None then h.(used := h.used.(bob := bob)) else h;
      AfterRound3(c, s, st, h, bob, k, x, err == None, st', h');
      Move(st', h');
      if err.Some? { Fail(err.value); }
    }

    /** Alice finishes her products and reveals her partial signature; it fails exactly on replies of a wrong size. */
    method OnR3(msgs: seq<Option<R3>>)
      requires Inv() && NoSignature() && st.awaitR3 && !st.awaitR4 && |msgs| == c.count - 1
      modifies this
      ensures Inv() && NoSignature() && h.runs == old(h.runs)
      ensures st.r2Msgs.Some? || st.round3Started ==> old(st.r2Msgs.Some? || st.round3Started)
      ensures c.curve.n > 0 && (st.awaitR4 <==> Decoded(msgs) && FullReplies(Replies(c.curve.n, Payloads(msgs))))
      ensures st.awaitR4 ==>
        deliveries == old(deliveries) && Decoded(msgs) && h.used.replies == Replies(c.curve.n, Payloads(msgs))
      ensures !st.awaitR4 ==> deliveries != []
      ensures h.used == old(h.used).(replies := h.used.replies) && st.r2Msgs == old(st.r2Msgs)
      ensures st.awaitEcho == old(st.awaitEcho) && st.echoOk == old(st.echoOk) && st.awaitR3
      ensures st.awaitR4Echo == old(st.awaitR4Echo)
    {
      hide *;
      Unfold();
      StateFacts(c, s, st, h);
      SharesMean(c, s, st, h);
      var err, replies, k, x, sh := ComputeReveal(c, s, st.ssid, st.alice, st.r, msgs, st.kRho, st.xRho, h.used);
      if err.Some? {
        Fail(err.value);
        return;
      }
      var st' := st.(kRho := k, xRho := x, phi := k, shat := sh, awaitR4 := true);
      ghost var h' := h.(used := h.used.(replies := replies));
      AfterR3(c, s, st, h, replies, k, x, sh, st', h');
      Move(st', h');
    }

    /** The peers' reveals are stored and echoed. */
    method OnR4(msgs: seq<Option<R4>>)
      requires Inv() && NoSignature() && st.awaitR4 && !st.awaitR4Echo && |msgs| == c.count - 1
      modifies this
      ensures Inv() && NoSignature() && h.runs == old(h.runs)
      ensures st.r2Msgs.Some? || st.round3Started ==> old(st.r2Msgs.Some? || st.round3Started)
      ensures st.awaitR4Echo <==> Decoded(msgs)
      ensures st.awaitR4Echo ==>
        && deliveries == old(deliveries) && st.r4msgs == h.used.r4s == Payloads(msgs)
        && st.sentR4Echo == Some(RevealEcho(c, st.r4msgs))
      ensures !st.awaitR4Echo ==> deliveries != []
      ensures h.used == old(h.used).(r4s := h.used.r4s) && st.r2Msgs == old(st.r2Msgs)
      ensures st.awaitEcho == old(st.awaitEcho) && st.echoOk == old(st.echoOk) && st.awaitR3 == old(st.awaitR3)
      ensures st.awaitR4
    {
      hide *;
      Unfold();
      if !Decoded(msgs) {
        Fail(Undecodable);
        return;
      }
      var r4s := Payloads(msgs);
      var st' := st.(r4msgs := r4s, sentR4Echo := Some(RevealEcho(c, r4s)), awaitR4Echo := true);
      ghost var h' := h.(used := h.used.(r4s := r4s));
      AfterR4(c, s, st, h, r4s, st', h');
      Move(st', h');
    }

    /** The round-4 echoes are checked, the reveals summed, and the signature passes the final gate. When the reports
        agree and the revealed totals are those of an honest committee, the gate opens exactly when rho and e + r x do
        not vanish. */
    method Finalize(msgs: seq<Option<EchoMsg>>, ghost rho: int, ghost x: int)
      requires Inv() && NoSignature() && st.awaitR4Echo && |msgs| == c.count - 1
      modifies this
      ensures Inv() && |deliveries| == 1 && h.runs == old(h.runs) && st == old(st)
      ensures h.used == old(h.used).(r4Echoes := h.used.r4Echoes)
      ensures deliveries[0].Ok? ==> Finished(c, s, h.used, deliveries[0].value)
      ensures c.curve.n > 0 && |old(h.used).alice| <= |old(h.used).replies|
      ensures old(deliveries) == [] && SumsShared(c, s, old(h.used), rho, x) && RevealsReported(c, s, old(h.used),
        msgs) ==>
        GateExact(c, s, old(h.used), rho, x, deliveries[0])
    {
      hide *;
      Unfold();
      ValidParts(c, 0);
      StateFacts(c, s, st, h);
      OwnRevealIs(c, s, h.used, st.phi, st.shat);
      ReportedMeans(c, s, h.used, msgs);
      var err, echoes := CheckReports(c.count, c.me, RevealDigests(c, R4(BeMin(st.phi), BeMin(st.shat)), st.r4msgs),
        msgs);
      if err.Some? {
        Fail(err.value);
        Unfold();
        return;
      }
      var res := Aggregate(c, s, h.used, st.peerK, st.phi, st.shat, st.r4msgs, rho, x);
      if res.Ok? { AfterFinalize(c, s, st, h, echoes, res.value); }
      ghost var h' := h.(used := h.used.(r4Echoes := echoes));
      AfterEchoesIn(c, s, st, h, echoes, st, h');
      Move(st, h');
      Deliver(res);
      Unfold();
    }
  }

  /** What running round 3 on these envelopes does to a state: it goes through exactly when Bob accepts them all, and
      then every one of them is answered and nothing is delivered. */
  ghost predicate Round3Ran(c: SignConfig, st: State, h: History, was: seq<Result<Signature, Failure>>,
    msgs: seq<Option<R2>>, st': State, h': History, now: seq<Result<Signature, Failure>>) {
    && c.Valid() && |msgs| == c.count - 1 && ShapedAll(msgs)
    && st'.round3Started && st'.r2Msgs == None && st'.peerK == st.peerK && h'.used == h.used.(bob := h'.used.bob)
    && (st'.awaitR3 <==> AllAccepted(c, st.ssid, msgs))
    && (st'.awaitR3 ==> now == was && Decoded(msgs) && AnswersTo(Payloads(msgs), h'.used.bob))
  }

  lemma Round3RanIntro(c: SignConfig, st: State, h: History, was: seq<Result<Signature, Failure>>,
    msgs: seq<Option<R2>>, st': State, h': History, now: seq<Result<Signature, Failure>>)
    requires c.Valid() && |msgs| == c.count - 1 && ShapedAll(msgs)
    requires st'.round3Started && st'.r2Msgs == None && st'.peerK == st.peerK && h'.used == h.used.(bob := h'.used.bob)
    requires st'.awaitR3 <==> AllAccepted(c, st.ssid, msgs)
    requires st'.awaitR3 ==> now == was && Decoded(msgs) && AnswersTo(Payloads(msgs), h'.used.bob)
    ensures Round3Ran(c, st, h, was, msgs, st', h', now)
  {
    hide AllAccepted, AnswersTo, ShapedAll, SignConfig.Valid;
  }

  /** Filing the envelopes first makes no difference. */
  lemma Round3Alike(c: SignConfig, st: State, filed: Option<seq<Option<R2>>>, h: History,
    was: seq<Result<Signature, Failure>>, msgs: seq<Option<R2>>)
    ensures forall st', h', now ::
      Round3Ran(c, st.(r2Msgs := filed), h, was, msgs, st', h', now) <==> Round3Ran(c, st, h, was, msgs, st', h', now)
  {
    hide AllAccepted, AnswersTo, ShapedAll, SignConfig.Valid;
  }

  /** The round-4 reports decode and agree with this signer's view. */
  ghost predicate RevealsReported(c: SignConfig, s: Secrets, v: View, msgs: seq<Option<EchoMsg>>)
    requires c.curve.n > 0 && |v.alice| <= |v.replies|
  {
    && Decoded(msgs) && ReportsSized(c.count, Payloads(msgs))
    && ReportsAgree(c.count, c.me, RevealDigests(c, OwnR4(c, s, v), v.r4s), Payloads(msgs))
  }

  lemma ReportedMeans(c: SignConfig, s: Secrets, v: View, msgs: seq<Option<EchoMsg>>)
    requires c.curve.n > 0 && |v.alice| <= |v.replies|
    ensures RevealsReported(c, s, v, msgs) <==>
      && Decoded(msgs) && ReportsSized(c.count, Payloads(msgs))
      && ReportsAgree(c.count, c.me, RevealDigests(c, OwnR4(c, s, v), v.r4s), Payloads(msgs))
  {
    hide ReportsSized, ReportsAgree, RevealDigests, OwnR4;
  }

  lemma InitialMeans(c: SignConfig, s: Secrets, st: State, h: History)
    requires c.curve.n > 0 && Initial(c, s, st, h)
    ensures st.kRho == FMul(c.curve.n, s.k, s.rho) && st.xRho == FMul(c.curve.n, c.sx, s.rho)
  {
  }

  lemma SharesMean(c: SignConfig, s: Secrets, st: State, h: History)
    requires c.curve.n > 0 && SharesSoFar(c, s, st, h)
    ensures st.kRho == (s.k * s.rho + BobSum(h.used.bob, false, |h.used.bob|)) % c.curve.n
    ensures st.xRho == (c.sx * s.rho + BobSum(h.used.bob, true, |h.used.bob|)) % c.curve.n
  {
  }

  lemma DecodedMeans<T>(msgs: seq<Option<T>>)
    ensures Decoded(msgs) <==> forall k :: 0 <= k < |msgs| ==> msgs[k].Some?
  {
  }

  ghost predicate ShapedAll(msgs: seq<Option<R2>>) {
    forall k :: 0 <= k < |msgs| && msgs[k].Some? ==> msgs[k].value.Shaped()
  }

  lemma ShapedPayloads(msgs: seq<Option<R2>>)
    requires ShapedAll(msgs)
    ensures Decoded(msgs) ==> forall m :: 0 <= m < |msgs| ==> Payloads(msgs)[m].Shaped()
  {
    hide R2.Shaped;
  }

  lemma CodecOf(c: SignConfig)
    requires c.Valid()
    ensures c.codec.Valid(c.curve.n)
  {
  }

  lemma ProductResidues(c: SignConfig, s: Secrets)
    requires c.curve.n > 0
    ensures FMul(c.curve.n, s.k, s.rho) == (s.k * s.rho) % c.curve.n
    ensures FMul(c.curve.n, c.sx, s.rho) == (c.sx * s.rho) % c.curve.n
  {
  }

  lemma SsidIs(c: SignConfig, s: Secrets, peerK: seq<Point>)
    requires c.curve.n > 0
    ensures RoundTwoSsid(c, s, peerK) == c.mix(c.baseSsid, AllNonces(c, s, peerK))
  {
  }

  lemma SharesAre(c: SignConfig, s: Secrets, v: View, k: Scalar, x: Scalar)
    requires c.curve.n > 0 && |v.alice| <= |v.replies|
    requires k == (s.k * s.rho + BobSum(v.bob, false, |v.bob|) + AliceSumOut(c.curve.n, v.alice, v.replies, false,
      |v.alice|)) % c.curve.n
    requires x == (c.sx * s.rho + BobSum(v.bob, true, |v.bob|) + AliceSumOut(c.curve.n, v.alice, v.replies, true,
      |v.alice|)) % c.curve.n
    ensures k == PhiShare(c, s, v)
    ensures FAdd(c.curve.n, FMul(c.curve.n, s.rho, c.E()), FMul(c.curve.n, c.curve.XScalar(GroupNonce(c, s, v.peerK)),
      x)) == ShatShare(c, s, v)
  {
    hide BobSum, AliceSumOut, GroupNonce;
  }

  lemma RevealIgnoresR4s(c: SignConfig, s: Secrets, v: View, r4s: seq<R4>)
    requires c.curve.n > 0
    ensures |v.alice| <= |v.replies| ==>
      PhiShare(c, s, v.(r4s := r4s)) == PhiShare(c, s, v) && ShatShare(c, s, v.(r4s := r4s)) == ShatShare(c, s, v)
  {
    hide BobSum, AliceSumOut, GroupNonce;
  }

  lemma OwnRevealIs(c: SignConfig, s: Secrets, v: View, phi: Scalar, shat: Scalar)
    requires c.curve.n > 0 && |v.alice| <= |v.replies| && phi == PhiShare(c, s, v) && shat == ShatShare(c, s, v)
    ensures OwnR4(c, s, v) == R4(BeMin(phi), BeMin(shat))
  {
  }

  lemma ViewKeepsShares(c: SignConfig, s: Secrets, v: View, w: View)
    requires c.curve.n > 0 && w == v.(r4Echoes := w.r4Echoes) && |v.alice| <= |v.replies|
    ensures PhiShare(c, s, w) == PhiShare(c, s, v) && ShatShare(c, s, w) == ShatShare(c, s, v)
    ensures OwnR4(c, s, w) == OwnR4(c, s, v)
  {
    hide BobSum, AliceSumOut, GroupNonce;
  }

  // ---------- any run ----------

  /** What the broker or the scheduler may do next. */
  datatype Event =
    | R1Arrives(r1: seq<Option<R1>>)
    | R1EchoArrives(r1Echo: seq<Option<EchoMsg>>)
    | R2Arrives(r2: seq<Option<R2>>)
    | R3Arrives(r3: seq<Option<R3>>)
    | R4Arrives(r4: seq<Option<R4>>)
    | R4EchoArrives(r4Echo: seq<Option<EchoMsg>>)
    | TryAgain

  ghost predicate WellShaped(e: Event) { e.R2Arrives? ==> ShapedAll(e.r2) }

  /** The handlers that fire once however often the broker is asked. */
  datatype Fired = Fired(r2: bool, r4Echo: bool)

  ghost predicate RunOk(party: Shared, fired: Fired)
    reads party
  {
    && party.Inv() && (party.st.r2Msgs.Some? || party.st.round3Started ==> fired.r2)
    && (if fired.r4Echo then party.st.awaitR4Echo && |party.deliveries| == 1 else party.NoSignature())
  }

  /** Every run: whatever arrives, in whatever order, at most one result is delivered, round 3 runs at most once and
      only after every round-1 echo verified, and a delivered signature is backed by both echo phases and the final
      gate. */
  method Run(party: Shared, events: seq<Event>)
    requires party.Inv() && party.deliveries == [] && party.h.runs == 0 && party.st.r2Msgs == None
    requires !party.st.round3Started
    requires !party.st.awaitEcho && !party.st.awaitR3 && !party.st.awaitR4 && !party.st.awaitR4Echo && !party.st.echoOk
    requires forall i :: 0 <= i < |events| ==> WellShaped(events[i])
    modifies party
    ensures party.Inv() && |party.deliveries| <= 1 && party.h.runs <= 1
    ensures party.h.runs == 1 ==> party.st.echoOk
    ensures party.deliveries != [] && party.deliveries[0].Ok? ==>
      Finished(party.c, party.s, party.h.used, party.deliveries[0].value)
  {
    party.Begin();
    var fired := Fired(false, false);
    for i := 0 to |events|
      invariant RunOk(party, fired)
    {
      hide *;
      fired := Dispatch(party, events[i], fired);
    }
    hide *;
    RunMeans(party, fired);
    party.Unfold();
    StateFacts(party.c, party.s, party.st, party.h);
  }

  lemma RunMeans(party: Shared, fired: Fired)
    ensures RunOk(party, fired) <==>
      && party.Inv() && (party.st.r2Msgs.Some? || party.st.round3Started ==> fired.r2)
      && (if fired.r4Echo then party.st.awaitR4Echo && |party.deliveries| == 1 else party.NoSignature())
  {
    hide Shared.Inv, Shared.NoSignature;
  }

  /** One event; the broker only delivers to registered handlers, one message per other signer, once. */
  method Dispatch(party: Shared, e: Event, fired: Fired) returns (after: Fired)
    requires RunOk(party, fired) && WellShaped(e)
    modifies party
    ensures RunOk(party, after)
  {
    hide *;
    ShapeOf(e);
    RunMeans(party, fired);
    party.Unfold();
    StateFacts(party.c, party.s, party.st, party.h);
    after := fired;
    match e {
      case R1Arrives(m) => if !party.st.awaitEcho && |m| == party.c.count - 1 { party.OnR1(m); }
      case R1EchoArrives(m) =>
        if party.st.awaitEcho && !party.st.echoOk && |m| == party.c.count - 1 { party.OnR1Echoes(m); }
      case R2Arrives(m) =>
        if party.st.awaitEcho && !fired.r2 && |m| == party.c.count - 1 {
          party.OnR2(m);
          after := fired.(r2 := true);
        }
      case R3Arrives(m) => if party.st.awaitR3 && !party.st.awaitR4 && |m| == party.c.count - 1 { party.OnR3(m); }
      case R4Arrives(m) => if party.st.awaitR4 && !party.st.awaitR4Echo && |m| == party.c.count - 1 { party.OnR4(m); }
      case R4EchoArrives(m) =>
        if party.st.awaitR4Echo && !fired.r4Echo && |m| == party.c.count - 1 {
          party.Finalize(m, 0, 0);
          after := fired.(r4Echo := true);
        }
      case TryAgain => if party.st.awaitEcho { party.TryRound3(); }
    }
    RunMeans(party, after);
  }

  lemma ShapeOf(e: Event)
    requires WellShaped(e)
    ensures e.R2Arrives? ==> ShapedAll(e.r2)
  {
  }

  // ---------- two runs ----------

  /** What one signer of a run ended with. */
  ghost predicate Ended(p: Shared, a: Signer)
    reads p
  {
    p.Inv() && p.deliveries == [Ok(a.sig)] && a.c == p.c && a.s == p.s && a.v == p.h.used
  }

  /** The echoes q recorded as sent are the ones p used. */
  ghost predicate EchoesTaken(p: Shared, q: Shared)
    reads p, q
  {
    var slot := Slot(p.c.me, q.c.me);
    && slot < |p.h.used.r1Echoes| && q.st.sentEcho == Some(p.h.used.r1Echoes[slot])
    && slot < |p.h.used.r4Echoes| && q.st.sentR4Echo == Some(p.h.used.r4Echoes[slot])
  }

  /** Any two runs of one session that deliver signatures and took each other's echoes deliver the same one. */
  lemma RunsAgree(p: Shared, q: Shared, a: Signer, b: Signer)
    requires Ended(p, a) && Ended(q, b) && SameSession(a, b) && NoCollisions(a.c) && EchoesTaken(p, q)
    requires EchoesTaken(q, p)
    ensures p.deliveries == q.deliveries
  {
    hide *;
    EndedEchoes(p, a);
    EndedEchoes(q, b);
    TakenMeans(p, q);
    TakenMeans(q, p);
    EchoesArrived(a, b);
    EchoesArrived(b, a);
    SignersAgree(a, b);
  }

  lemma EndedEchoes(p: Shared, a: Signer)
    requires Ended(p, a)
    ensures a.Done() && p.st.sentEcho == Some(NonceEcho(a.c, a.v.peerK))
    ensures p.st.sentR4Echo == Some(RevealEcho(a.c, a.v.r4s))
    ensures p.deliveries == [Ok(a.sig)] && a.c == p.c && a.v == p.h.used
  {
    p.Unfold();
    hide StateOk, Finished, NonceEcho, RevealEcho;
    StateFacts(p.c, p.s, p.st, p.h);
  }

  lemma TakenMeans(p: Shared, q: Shared)
    requires EchoesTaken(p, q)
    ensures var slot := Slot(p.c.me, q.c.me);
      && slot < |p.h.used.r1Echoes| && q.st.sentEcho == Some(p.h.used.r1Echoes[slot])
      && slot < |p.h.used.r4Echoes| && q.st.sentR4Echo == Some(p.h.used.r4Echoes[slot])
  {
  }

  lemma EchoesArrived(a: Signer, b: Signer)
    requires SameSession(a, b) && Slot(b.c.me, a.c.me) < |b.v.r1Echoes| && Slot(b.c.me, a.c.me) < |b.v.r4Echoes|
    requires b.v.r1Echoes[Slot(b.c.me, a.c.me)] == NonceEcho(a.c, a.v.peerK)
    requires b.v.r4Echoes[Slot(b.c.me, a.c.me)] == RevealEcho(a.c, a.v.r4s)
    ensures EchoesDelivered(a, b) && SameSession(b, a) && (NoCollisions(a.c) ==> NoCollisions(b.c))
  {
    hide NonceEcho, RevealEcho;
  }
}
