/** What one signer of the broker protocol (src/dklstss/signing_party.rs) checks and computes, as functions of the
    messages it received, and why two honest signers that finish deliver the same signature. A signer is named
    by its position in the sorted signing subset. */
module SigningView {
  import opened NumberTheory
  import opened Results
  import opened Bits
  import opened Secp
  import opened OtExtension
  import opened BaseOt
  import opened Ole
  import opened CrossTerms
  import opened SignEncoding
  import opened Signing
  import opened Echo
  import opened Committee

  datatype R1 = R1(x: bytes, y: bytes)
  datatype R4 = R4(phi: bytes, shat: bytes)

  /** One signer's session. Its pairwise OT state is listed in the order of the other signers. */
  datatype SignConfig = SignConfig(curve: Curve, codec: Codec, count: nat, me: nat, baseSsid: bytes,
    digestK: (nat, Point) -> bytes, digestR4: (nat, R4) -> bytes, mix: (bytes, seq<Point>) -> bytes,
    mulSid: (bytes, bool, nat, nat) -> bytes, oracle: Oracle, pairs: seq<PairOt>, sx: Scalar,
    hash: bytes, verifyPub: Point)
  {
    ghost predicate Valid() {
      && curve.Valid() && codec.Valid(curve.n) && oracle.Valid() && me < count && |pairs| == count - 1
      && (forall k :: 0 <= k < |pairs| ==> pairs[k].Valid()) && 0 <= sx < curve.n && hash != []
    }

    /** The message scalar: the leftmost 32 bytes of the hash. */
    function E(): (e: Scalar)
      requires curve.n > 0
      ensures e == BeValue(if |hash| > 32 then hash[..32] else hash) % curve.n
    {
      ShortHashValue(curve.n, hash);
      assert |hash| == 32 ==> hash[..32] == hash;
      HashToScalar(curve.n, hash)
    }
  }

  /** A signer's nonce, mask and multiplication pads. */
  datatype Secrets = Secrets(k: Scalar, rho: Scalar, pad: (nat, bool) -> bytes) {
    ghost predicate Valid(c: SignConfig) {
      0 <= k < c.curve.n && 0 <= rho < c.curve.n && forall j, x :: |pad(j, x)| == PAD_BITS / 8
    }
  }

  /** Alice's side towards one peer: the messages sent and the states kept for the two products. */
  datatype AliceSide = AliceSide(msgK: ExtendMsg, stK: AliceState, msgX: ExtendMsg, stX: AliceState)

  /** Bob's side towards one peer: the messages received, the replies and the outputs. */
  datatype BobSide = BobSide(inK: ExtendMsg, inX: ExtendMsg, replyK: BobMsg, uK: Scalar, replyX: BobMsg, uX: Scalar)

  /** The messages a signer used, one per other signer in order. */
  datatype View = View(peerK: seq<Point>, r1Echoes: seq<EchoMsg>, alice: seq<AliceSide>, bob: seq<BobSide>,
    replies: seq<(BobMsg, BobMsg)>, r4s: seq<R4>, r4Echoes: seq<EchoMsg>)

  // ---------- nonces ----------

  /** K_j as this signer knows it. */
  function NonceOf(c: SignConfig, s: Secrets, peerK: seq<Point>, j: nat): Point
    requires c.curve.n > 0
  {
    if j == c.me then MulBase(c.curve.n, s.k) else if Slot(c.me, j) < |peerK| then peerK[Slot(c.me, j)] else 0
  }

  function AllNonces(c: SignConfig, s: Secrets, peerK: seq<Point>): (ks: seq<Point>)
    requires c.curve.n > 0
    ensures |ks| == c.count && forall j :: 0 <= j < c.count ==> ks[j] == NonceOf(c, s, peerK, j)
  {
    seq(c.count, j requires 0 <= j < c.count => NonceOf(c, s, peerK, j))
  }

  /** R and its x-coordinate. */
  function GroupNonce(c: SignConfig, s: Secrets, peerK: seq<Point>): (p: Point)
    requires c.curve.n > 0
    ensures 0 <= p < c.curve.n
  {
    Total(AllNonces(c, s, peerK)) % c.curve.n
  }

  function RoundTwoSsid(c: SignConfig, s: Secrets, peerK: seq<Point>): bytes
    requires c.curve.n > 0
  {
    c.mix(c.baseSsid, AllNonces(c, s, peerK))
  }

  function NonceDigests(c: SignConfig, s: Secrets, peerK: seq<Point>): (m: map<nat, bytes>)
    requires c.curve.n > 0
    ensures forall d: nat :: d in m <==> d < c.count
    ensures forall d: nat :: d < c.count ==> m[d] == c.digestK(d, NonceOf(c, s, peerK, d))
  {
    map d: nat | 0 <= d < c.count :: c.digestK(d, NonceOf(c, s, peerK, d))
  }

  function NonceEcho(c: SignConfig, peerK: seq<Point>): (e: EchoMsg)
    ensures |e.digests| == |peerK|
    ensures forall k :: 0 <= k < |peerK| ==> e.digests[k] == (Other(c.me, k), c.digestK(Other(c.me, k), peerK[k]))
  {
    EchoMsg(seq(|peerK|, k requires 0 <= k < |peerK| => (Other(c.me, k), c.digestK(Other(c.me, k), peerK[k]))))
  }

  /** All reports agree with this signer's digests. */
  ghost predicate ReportsAgree(count: nat, me: nat, mine: map<nat, bytes>, echoes: seq<EchoMsg>) {
    && me < count && |echoes| == count - 1
    && forall k :: 0 <= k < count - 1 ==> Agrees(mine, Other(me, k), echoes[k], Everyone(count, me))
  }

  // ---------- products ----------

  /** The states Alice keeps belong to honest runs on (k, sx). */
  ghost predicate AliceSides(c: SignConfig, s: Secrets, ssid: bytes, alice: seq<AliceSide>)
    requires c.Valid() && s.Valid(c)
  {
    |alice| <= c.count - 1 && forall m :: 0 <= m < |alice| ==> AliceSideOk(c, s, ssid, m, alice[m])
  }

  ghost predicate AliceSideOk(c: SignConfig, s: Secrets, ssid: bytes, m: nat, a: AliceSide)
    requires c.Valid() && s.Valid(c) && m < c.count - 1
  {
    && AliceRun(c.oracle, c.pairs[m].asAlice, c.mulSid(ssid, false, c.me, Other(c.me, m)), s.k, a.msgK, a.stK)
    && AliceRun(c.oracle, c.pairs[m].asAlice, c.mulSid(ssid, true, c.me, Other(c.me, m)), c.sx, a.msgX, a.stX)
    && Padded(c.oracle, c.pairs[m].asAlice, c.mulSid(ssid, false, c.me, Other(c.me, m)), s.k, a.msgK, a.stK,
      s.pad(Other(c.me, m), false))
    && Padded(c.oracle, c.pairs[m].asAlice, c.mulSid(ssid, true, c.me, Other(c.me, m)), c.sx, a.msgX, a.stX,
      s.pad(Other(c.me, m), true))
  }

  /** Bob's answers are those of the multiplication with rho, after the consistency check passed. */
  ghost predicate BobSides(c: SignConfig, s: Secrets, ssid: bytes, bob: seq<BobSide>)
    requires c.Valid() && s.Valid(c)
  {
    |bob| <= c.count - 1 && forall m :: 0 <= m < |bob| ==> BobSideOk(c, s, ssid, m, bob[m])
  }

  ghost predicate BobSideOk(c: SignConfig, s: Secrets, ssid: bytes, m: nat, b: BobSide)
    requires c.Valid() && s.Valid(c) && m < c.count - 1
  {
    && b.inK.Shaped() && b.inX.Shaped() && b.inK.l == b.inX.l == EXT_BITS
    && Sized(b.inK.u, KAPPA, EXT_BITS / 8) && Sized(b.inX.u, KAPPA, EXT_BITS / 8)
    && CheckPasses(c.oracle, c.pairs[m].asBob, c.mulSid(ssid, false, Other(c.me, m), c.me), b.inK)
    && CheckPasses(c.oracle, c.pairs[m].asBob, c.mulSid(ssid, true, Other(c.me, m), c.me), b.inX)
    && BobReply(c.oracle, c.curve.n, c.pairs[m].asBob, c.mulSid(ssid, false, Other(c.me, m), c.me), s.rho, b.inK,
      b.replyK, b.uK)
    && BobReply(c.oracle, c.curve.n, c.pairs[m].asBob, c.mulSid(ssid, true, Other(c.me, m), c.me), s.rho, b.inX,
      b.replyX, b.uX)
  }

  /** sum of Bob's first m outputs, for the k- or the x-product */
  function BobSum(bob: seq<BobSide>, forX: bool, m: nat): int
    requires m <= |bob|
  {
    if m == 0 then 0 else BobSum(bob, forX, m - 1) + if forX then bob[m - 1].uX else bob[m - 1].uK
  }

  /** Alice's output towards one peer. */
  function AliceOut(n: int, st: AliceState, reply: BobMsg): int
    requires n > 0
  {
    if |st.alphaBe| == 32 && |st.keys| == SCALAR_BITS && |reply.corrections| == SCALAR_BITS
    then AliceSum(n, st.keys, st.alphaBe, reply.corrections, SCALAR_BITS) else 0
  }

  function AliceSumOut(n: int, alice: seq<AliceSide>, replies: seq<(BobMsg, BobMsg)>, forX: bool, m: nat): int
    requires n > 0 && m <= |alice| && m <= |replies|
  {
    if m == 0 then 0 else
      AliceSumOut(n, alice, replies, forX, m - 1)
        + if forX then AliceOut(n, alice[m - 1].stX, replies[m - 1].1) else AliceOut(n, alice[m - 1].stK,
          replies[m - 1].0)
  }

  // ---------- partial signatures ----------

  /** This signer's share of k*rho. */
  function PhiShare(c: SignConfig, s: Secrets, v: View): (phi: Scalar)
    requires c.curve.n > 0 && |v.alice| <= |v.replies|
    ensures 0 <= phi < c.curve.n
  {
    (s.k * s.rho + BobSum(v.bob, false, |v.bob|) + AliceSumOut(c.curve.n, v.alice, v.replies, false,
      |v.alice|)) % c.curve.n
  }

  /** This signer's share of x*rho. */
  function XRhoShare(c: SignConfig, s: Secrets, v: View): (x: Scalar)
    requires c.curve.n > 0 && |v.alice| <= |v.replies|
    ensures 0 <= x < c.curve.n
  {
    (c.sx * s.rho + BobSum(v.bob, true, |v.bob|) + AliceSumOut(c.curve.n, v.alice, v.replies, true,
      |v.alice|)) % c.curve.n
  }

  function ShatShare(c: SignConfig, s: Secrets, v: View): (shat: Scalar)
    requires c.curve.n > 0 && |v.alice| <= |v.replies|
    ensures 0 <= shat < c.curve.n
  {
    var r := c.curve.XScalar(GroupNonce(c, s, v.peerK));
    FAdd(c.curve.n, FMul(c.curve.n, s.rho, c.E()), FMul(c.curve.n, r, XRhoShare(c, s, v)))
  }

  function OwnR4(c: SignConfig, s: Secrets, v: View): R4
    requires c.curve.n > 0 && |v.alice| <= |v.replies|
  {
    R4(BeMin(PhiShare(c, s, v)), BeMin(ShatShare(c, s, v)))
  }

  /** Signer j's reveal as this signer knows it. */
  function RevealOf(c: SignConfig, own: R4, r4s: seq<R4>, j: nat): R4 {
    if j == c.me then own else if Slot(c.me, j) < |r4s| then r4s[Slot(c.me, j)] else R4([], [])
  }

  function RevealDigests(c: SignConfig, own: R4, r4s: seq<R4>): (m: map<nat, bytes>)
    ensures forall d: nat :: d in m <==> d < c.count
    ensures forall d: nat :: d < c.count ==> m[d] == c.digestR4(d, RevealOf(c, own, r4s, d))
  {
    map d: nat | 0 <= d < c.count :: c.digestR4(d, RevealOf(c, own, r4s, d))
  }

  function RevealEcho(c: SignConfig, r4s: seq<R4>): (e: EchoMsg)
    ensures |e.digests| == |r4s|
    ensures forall k :: 0 <= k < |r4s| ==> e.digests[k] == (Other(c.me, k), c.digestR4(Other(c.me, k), r4s[k]))
  {
    EchoMsg(seq(|r4s|, k requires 0 <= k < |r4s| => (Other(c.me, k), c.digestR4(Other(c.me, k), r4s[k]))))
  }

  /** The scalars revealed by signer j, by position. */
  function PhiValues(c: SignConfig, own: R4, r4s: seq<R4>): (phis: seq<Scalar>)
    requires c.curve.n > 0
    ensures |phis| == c.count && forall j :: 0 <= j < c.count ==>
      phis[j] == BeValue(RevealOf(c, own, r4s, j).phi) % c.curve.n
  {
    seq(c.count, j requires 0 <= j < c.count => BeValue(RevealOf(c, own, r4s, j).phi) % c.curve.n)
  }

  function ShatValues(c: SignConfig, own: R4, r4s: seq<R4>): (shats: seq<Scalar>)
    requires c.curve.n > 0
    ensures |shats| == c.count && forall j :: 0 <= j < c.count ==>
      shats[j] == BeValue(RevealOf(c, own, r4s, j).shat) % c.curve.n
  {
    seq(c.count, j requires 0 <= j < c.count => BeValue(RevealOf(c, own, r4s, j).shat) % c.curve.n)
  }

  /** s before normalisation, from the revealed totals. */
  function RawS(n: int, phis: seq<Scalar>, shats: seq<Scalar>): (s: Scalar)
    requires n > 0
    ensures 0 <= s < n
  {
    FMul(n, Total(shats) % n, Inv(n, Total(phis) % n))
  }

  /** The signature these totals and this nonce give. */
  function Combined(c: SignConfig, rPoint: Point, phis: seq<Scalar>, shats: seq<Scalar>): Signature
    requires c.curve.n > 0
  {
    Normalize(c.curve, rPoint, c.curve.XScalar(rPoint), RawS(c.curve.n, phis, shats))
  }

  /** A signer that delivers a signature: both echo phases agreed, the products are those of the protocol and the
      final gate passed. */
  ghost predicate Finished(c: SignConfig, s: Secrets, v: View, sig: Signature) {
    && c.Valid() && s.Valid(c) && Sizes(c, v)
    && ReportsAgree(c.count, c.me, NonceDigests(c, s, v.peerK), v.r1Echoes)
    && AliceSides(c, s, RoundTwoSsid(c, s, v.peerK), v.alice) && BobSides(c, s, RoundTwoSsid(c, s, v.peerK), v.bob)
    && ReportsAgree(c.count, c.me, RevealDigests(c, OwnR4(c, s, v), v.r4s), v.r4Echoes)
    && c.curve.XScalar(GroupNonce(c, s, v.peerK)) != 0
    && sig == Combined(c, GroupNonce(c, s, v.peerK), PhiValues(c, OwnR4(c, s, v), v.r4s),
      ShatValues(c, OwnR4(c, s, v), v.r4s))
    && EcdsaVerify(c.curve, c.verifyPub, c.E(), sig.r, sig.s)
  }

  /** The revealed totals are k rho and rho (e + r x), for the nonce behind R and the logarithm x of the public key. */
  ghost predicate SumsShared(c: SignConfig, s: Secrets, v: View, rho: int, x: int)
    requires c.curve.n > 0 && |v.alice| <= |v.replies|
  {
    var p, own := GroupNonce(c, s, v.peerK), OwnR4(c, s, v);
    HonestSums(c.curve, c.verifyPub, p, c.curve.XScalar(p), c.E(), Total(PhiValues(c, own, v.r4s)) % c.curve.n,
      Total(ShatValues(c, own, v.r4s)) % c.curve.n, rho, x)
  }

  ghost predicate Sizes(c: SignConfig, v: View) {
    && |v.peerK| == |v.alice| == |v.bob| == |v.replies| == |v.r4s| == c.count - 1
    && forall m :: 0 <= m < |v.replies| ==> |v.replies[m].0.corrections| == |v.replies[m].1.corrections| == SCALAR_BITS
  }

  // ---------- agreement ----------

  datatype Signer = Signer(c: SignConfig, s: Secrets, v: View, sig: Signature) {
    ghost predicate Done() { Finished(c, s, v, sig) }
  }

  /** Same request, same primitives, different positions. */
  ghost predicate SameSession(a: Signer, b: Signer) {
    && a.c.me != b.c.me && b.c.curve == a.c.curve && b.c.codec == a.c.codec && b.c.count == a.c.count
    && b.c.digestK == a.c.digestK && b.c.digestR4 == a.c.digestR4 && b.c.mix == a.c.mix && b.c.baseSsid == a.c.baseSsid
    && b.c.mulSid == a.c.mulSid && b.c.oracle == a.c.oracle && b.c.hash == a.c.hash && b.c.verifyPub == a.c.verifyPub
  }

  ghost predicate NoCollisions(c: SignConfig) {
    && (forall d, x, y :: c.digestK(d, x) == c.digestK(d, y) ==> x == y)
    && (forall d, x, y :: c.digestR4(d, x) == c.digestR4(d, y) ==> x == y)
  }

  /** b used the two echoes that a sent. */
  ghost predicate EchoesDelivered(a: Signer, b: Signer) {
    && a.c.me != b.c.me && Slot(b.c.me, a.c.me) < |b.v.r1Echoes| && Slot(b.c.me, a.c.me) < |b.v.r4Echoes|
    && b.v.r1Echoes[Slot(b.c.me, a.c.me)] == NonceEcho(a.c, a.v.peerK)
    && b.v.r4Echoes[Slot(b.c.me, a.c.me)] == RevealEcho(a.c, a.v.r4s)
  }

  lemma DoneFacts(a: Signer)
    requires a.Done()
    ensures a.c.Valid() && a.s.Valid(a.c) && a.c.curve.n >= 2 && a.c.me < a.c.count
    ensures |a.v.peerK| == |a.v.alice| == |a.v.bob| == |a.v.replies| == |a.v.r4s| == a.c.count - 1
    ensures |a.v.r1Echoes| == |a.v.r4Echoes| == a.c.count - 1
    ensures a.sig == Combined(a.c, GroupNonce(a.c, a.s, a.v.peerK), PhiValues(a.c, OwnR4(a.c, a.s, a.v), a.v.r4s),
      ShatValues(a.c, OwnR4(a.c, a.s, a.v), a.v.r4s))
    ensures ReportsAgree(a.c.count, a.c.me, NonceDigests(a.c, a.s, a.v.peerK), a.v.r1Echoes)
    ensures ReportsAgree(a.c.count, a.c.me, RevealDigests(a.c, OwnR4(a.c, a.s, a.v), a.v.r4s), a.v.r4Echoes)
  {
    hide AliceSides, BobSides, Agrees, Combined, EcdsaVerify, GroupNonce, PhiValues, ShatValues, OwnR4, NonceDigests,
      RevealDigests;
    PositiveOrder(a.c.curve);
  }

  /** If b accepted a's report, the entry for any dealer d other than a is b's own digest. */
  lemma ReportedEntry(count: nat, me: nat, from: nat, mine: map<nat, bytes>, echoes: seq<EchoMsg>, k: nat)
    requires ReportsAgree(count, me, mine, echoes) && from != me && from < count && Slot(me, from) < |echoes|
    requires k < |echoes[Slot(me, from)].digests|
    ensures EntryAgrees(mine, from, echoes[Slot(me, from)].digests[k])
  {
    var slot := Slot(me, from);
    assert Other(me, slot) == from;
    assert Agrees(mine, Other(me, slot), echoes[slot], Everyone(count, me));
  }

  lemma SameNonce(a: Signer, b: Signer, d: nat)
    requires a.Done() && b.Done() && SameSession(a, b) && EchoesDelivered(a, b) && NoCollisions(a.c)
    requires d < a.c.count && d != a.c.me
    ensures a.c.curve.n > 0 && b.c.curve.n > 0 && NonceOf(a.c, a.s, a.v.peerK, d) == NonceOf(b.c, b.s, b.v.peerK, d)
  {
    hide Finished, ReportsAgree, SignConfig.Valid, Secrets.Valid;
    DoneFacts(a);
    DoneFacts(b);
    var k := Slot(a.c.me, d);
    assert Other(a.c.me, k) == d;
    ReportedEntry(b.c.count, b.c.me, a.c.me, NonceDigests(b.c, b.s, b.v.peerK), b.v.r1Echoes, k);
    assert NonceEcho(a.c, a.v.peerK).digests[k] == (d, a.c.digestK(d, a.v.peerK[k]));
  }

  lemma SameReveal(a: Signer, b: Signer, d: nat)
    requires a.Done() && b.Done() && SameSession(a, b) && EchoesDelivered(a, b) && NoCollisions(a.c)
    requires d < a.c.count && d != a.c.me
    ensures a.c.curve.n > 0 && b.c.curve.n > 0 && |a.v.alice| <= |a.v.replies| && |b.v.alice| <= |b.v.replies|
    ensures RevealOf(a.c, OwnR4(a.c, a.s, a.v), a.v.r4s, d) == RevealOf(b.c, OwnR4(b.c, b.s, b.v), b.v.r4s, d)
  {
    hide Finished, ReportsAgree, OwnR4;
    DoneFacts(a);
    DoneFacts(b);
    var k := Slot(a.c.me, d);
    assert Other(a.c.me, k) == d;
    ReportedEntry(b.c.count, b.c.me, a.c.me, RevealDigests(b.c, OwnR4(b.c, b.s, b.v), b.v.r4s), b.v.r4Echoes, k);
    assert RevealEcho(a.c, a.v.r4s).digests[k] == (d, a.c.digestR4(d, a.v.r4s[k]));
  }

  lemma SessionFacts(a: Signer, b: Signer)
    requires SameSession(a, b) && NoCollisions(a.c)
    ensures SameSession(b, a) && NoCollisions(b.c) && b.c.curve == a.c.curve && b.c.count == a.c.count
    ensures a.c.me != b.c.me
  {
  }

  lemma SameNonces(a: Signer, b: Signer)
    requires a.Done() && b.Done() && SameSession(a, b) && EchoesDelivered(a, b) && EchoesDelivered(b, a)
    requires NoCollisions(a.c)
    ensures a.c.curve.n > 0 && b.c.curve.n > 0 && AllNonces(a.c, a.s, a.v.peerK) == AllNonces(b.c, b.s, b.v.peerK)
  {
    hide *;
    DoneFacts(a);
    DoneFacts(b);
    SessionFacts(a, b);
    forall d | 0 <= d < a.c.count ensures NonceOf(a.c, a.s, a.v.peerK, d) == NonceOf(b.c, b.s, b.v.peerK, d) {
      if d == a.c.me { SameNonce(b, a, d); } else { SameNonce(a, b, d); }
    }
  }

  lemma SameTotals(a: Signer, b: Signer)
    requires a.Done() && b.Done() && SameSession(a, b) && EchoesDelivered(a, b) && EchoesDelivered(b, a)
    requires NoCollisions(a.c)
    ensures a.c.curve.n > 0 && b.c.curve.n > 0 && |a.v.alice| <= |a.v.replies| && |b.v.alice| <= |b.v.replies|
    ensures PhiValues(a.c, OwnR4(a.c, a.s, a.v), a.v.r4s) == PhiValues(b.c, OwnR4(b.c, b.s, b.v), b.v.r4s)
    ensures ShatValues(a.c, OwnR4(a.c, a.s, a.v), a.v.r4s) == ShatValues(b.c, OwnR4(b.c, b.s, b.v), b.v.r4s)
  {
    hide *;
    DoneFacts(a);
    DoneFacts(b);
    SessionFacts(a, b);
    var ra, rb := OwnR4(a.c, a.s, a.v), OwnR4(b.c, b.s, b.v);
    forall d | 0 <= d < a.c.count ensures RevealOf(a.c, ra, a.v.r4s, d) == RevealOf(b.c, rb, b.v.r4s, d) {
      if d == a.c.me { SameReveal(b, a, d); } else { SameReveal(a, b, d); }
    }
    assert |PhiValues(a.c, ra, a.v.r4s)| == |PhiValues(b.c, rb, b.v.r4s)|;
  }

  /** Agreement: two honest signers that deliver a signature deliver the same (r, s, v), whatever the other signers did
      and however the messages were interleaved. */
  lemma SignersAgree(a: Signer, b: Signer)
    requires a.Done() && b.Done() && SameSession(a, b) && EchoesDelivered(a, b) && EchoesDelivered(b, a)
    requires NoCollisions(a.c)
    ensures a.sig == b.sig
  {
    hide Finished, EchoesDelivered, NoCollisions, PhiValues, ShatValues, OwnR4, AllNonces, ReportsAgree, RawS, Total;
    DoneFacts(a);
    DoneFacts(b);
    SameNonces(a, b);
    SameTotals(a, b);
  }

  /** What a delivered signature has passed, whoever the peers are: it verifies under the key with the message scalar,
      its s is in the lower half and its r not zero; every peer's round-1 messages passed the consistency check under
      that pair's own session ids, and every reply had 256 corrections. */
  lemma DeliveredMeans(a: Signer)
    requires a.Done()
    ensures a.c.curve.n > 0 && 2 * a.sig.s <= a.c.curve.n && a.sig.r != 0 && a.c.Valid() && a.s.Valid(a.c)
    ensures EcdsaVerify(a.c.curve, a.c.verifyPub, HashToScalar(a.c.curve.n, a.c.hash), a.sig.r, a.sig.s)
    ensures |a.v.bob| == |a.v.replies| == a.c.count - 1
    ensures forall m :: 0 <= m < a.c.count - 1 ==>
      && BobSideOk(a.c, a.s, RoundTwoSsid(a.c, a.s, a.v.peerK), m, a.v.bob[m])
      && |a.v.replies[m].0.corrections| == |a.v.replies[m].1.corrections| == 256
  {
    PositiveOrder(a.c.curve);
    hide EcdsaVerify, BobSideOk, AliceSides, ReportsAgree, Curve.Valid, HashToScalar, SignConfig.Valid, Secrets.Valid;
    var n, raw := a.c.curve.n, RawS(a.c.curve.n, PhiValues(a.c, OwnR4(a.c, a.s, a.v), a.v.r4s),
      ShatValues(a.c, OwnR4(a.c, a.s, a.v), a.v.r4s));
    LowOrNegated(n, raw);
  }

  lemma LowOrNegated(n: int, s: Scalar)
    requires 0 <= s < n
    ensures 2 * (if IsHighS(n, s) then FNeg(n, s) else s) <= n
  {
    if IsHighS(n, s) { NegatedIsLow(n, s); }
  }

  /** They also derived the same session id for their multiplications. */
  lemma SignersShareSsid(a: Signer, b: Signer)
    requires a.Done() && b.Done() && SameSession(a, b) && EchoesDelivered(a, b) && EchoesDelivered(b, a)
    requires NoCollisions(a.c)
    ensures a.c.curve.n > 0 && b.c.curve.n > 0 && RoundTwoSsid(a.c, a.s, a.v.peerK) == RoundTwoSsid(b.c, b.s, b.v.peerK)
  {
    hide Finished, EchoesDelivered, NoCollisions, AllNonces;
    SameNonces(a, b);
  }
}
