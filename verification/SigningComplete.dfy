/** Completeness of the broker signing protocol (src/dklstss/signing_party.rs): what the signers of an honest committee
    reveal adds up to an honest signature, whatever they drew. */
module SigningComplete {
  import opened NumberTheory
  import opened Results
  import opened Bits
  import opened Secp
  import opened OtExtension
  import opened BaseOt
  import opened Ole
  import opened CrossTerms
  import opened SignEncoding
  import opened Signing
  import opened Echo
  import opened Committee
  import opened SigningView
  import Sums
  import SigningParty

  /** A signer's session, draws and used messages. */
  datatype Seat = Seat(c: SignConfig, s: Secrets, v: View)

  /** The signer computed its products as the protocol says. */
  ghost predicate Computed(a: Seat) {
    && a.c.Valid() && a.s.Valid(a.c) && Sizes(a.c, a.v) && a.c.curve.n > 0
    && AliceSides(a.c, a.s, RoundTwoSsid(a.c, a.s, a.v.peerK), a.v.alice) && BobSides(a.c, a.s,
      RoundTwoSsid(a.c, a.s, a.v.peerK), a.v.bob)
  }

  /** Same request and same primitives. */
  ghost predicate SameRequest(a: Seat, b: Seat) {
    && b.c.curve == a.c.curve && b.c.count == a.c.count && b.c.mix == a.c.mix && b.c.baseSsid == a.c.baseSsid
    && b.c.mulSid == a.c.mulSid && b.c.oracle == a.c.oracle && b.c.hash == a.c.hash && b.c.verifyPub == a.c.verifyPub
    && b.c.digestK == a.c.digestK && b.c.digestR4 == a.c.digestR4
  }

  /** What j sent i arrived as sent, and what i sent j as Alice; their OT states match. */
  ghost predicate Exchanged(a: Seat, b: Seat) {
    var m, w := Slot(a.c.me, b.c.me), Slot(b.c.me, a.c.me);
    && a.c.curve.n > 0 && b.c.curve.n > 0
    && m < |a.v.peerK| && m < |a.v.alice| && m < |a.v.replies| && m < |a.v.r4s| && m < |a.c.pairs|
    && w < |b.v.bob| && w < |b.c.pairs|
    && a.v.peerK[m] == MulBase(b.c.curve.n, b.s.k)
    && b.v.bob[w].inK == a.v.alice[m].msgK && b.v.bob[w].inX == a.v.alice[m].msgX
    && a.v.replies[m] == (b.v.bob[w].replyK, b.v.bob[w].replyX)
    && |b.v.alice| <= |b.v.replies| && a.v.r4s[m] == OwnR4(b.c, b.s, b.v)
    && a.c.pairs[m].Valid() && b.c.pairs[w].Valid() && SeedsMatch(b.c.pairs[w].asBob, a.c.pairs[m].asAlice)
  }

  function Ks(hs: seq<Seat>): (xs: seq<int>)
    ensures |xs| == |hs| && forall i :: 0 <= i < |hs| ==> xs[i] == hs[i].s.k
  {
    seq(|hs|, i requires 0 <= i < |hs| => hs[i].s.k)
  }

  function Rhos(hs: seq<Seat>): (xs: seq<int>)
    ensures |xs| == |hs| && forall i :: 0 <= i < |hs| ==> xs[i] == hs[i].s.rho
  {
    seq(|hs|, i requires 0 <= i < |hs| => hs[i].s.rho)
  }

  function Sxs(hs: seq<Seat>): (xs: seq<int>)
    ensures |xs| == |hs| && forall i :: 0 <= i < |hs| ==> xs[i] == hs[i].c.sx
  {
    seq(|hs|, i requires 0 <= i < |hs| => hs[i].c.sx)
  }

  /** A whole committee signing under the key with logarithm x: signer i at position i, every message arrived as sent,
      and the effective shares add up to x. */
  ghost predicate Traffic(hs: seq<Seat>, x: int) {
    && hs != [] && hs[0].c.curve.n > 0
    && (forall i :: 0 <= i < |hs| ==> hs[i].c.me == i && hs[i].c.count == |hs| && SameRequest(hs[0], hs[i]))
    && (forall i, j :: 0 <= i < |hs| && 0 <= j < |hs| && i != j ==> Exchanged(hs[i], hs[j]))
    && FitsScalar(hs[0].c.curve.n) && Cong(Sums.Sum(Sxs(hs)), x, hs[0].c.curve.n) && Cong(hs[0].c.verifyPub, x,
      hs[0].c.curve.n)
  }

  ghost predicate HonestCommittee(hs: seq<Seat>, x: int) {
    Traffic(hs, x) && forall i :: 0 <= i < |hs| ==> Computed(hs[i])
  }

  lemma SeatOf(hs: seq<Seat>, x: int, i: nat)
    requires HonestCommittee(hs, x) && i < |hs|
    ensures hs[i].c.Valid() && hs[i].s.Valid(hs[i].c) && hs[i].c.curve.n >= 2 && hs[i].c.me == i
    ensures hs[i].c.count == |hs|
    ensures SameRequest(hs[0], hs[i]) && hs[i].c.curve == hs[0].c.curve && FitsScalar(hs[0].c.curve.n)
    ensures Sizes(hs[i].c, hs[i].v)
    ensures |hs[i].v.peerK| == |hs[i].v.alice| == |hs[i].v.bob| == |hs[i].v.replies| == |hs[i].v.r4s| == |hs| - 1
    ensures AliceSides(hs[i].c, hs[i].s, RoundTwoSsid(hs[i].c, hs[i].s, hs[i].v.peerK), hs[i].v.alice)
    ensures BobSides(hs[i].c, hs[i].s, RoundTwoSsid(hs[i].c, hs[i].s, hs[i].v.peerK), hs[i].v.bob)
    ensures 0 <= hs[i].s.k < hs[0].c.curve.n && 0 <= hs[i].c.sx < hs[0].c.curve.n
  {
    hide AliceSides, BobSides, RoundTwoSsid, Exchanged, Curve.Valid, Codec.Valid, Oracle.Valid, FitsScalar;
    PositiveOrder(hs[i].c.curve);
  }

  lemma PairOf(hs: seq<Seat>, x: int, i: nat, j: nat)
    requires HonestCommittee(hs, x) && i < |hs| && j < |hs| && i != j
    ensures hs[i].c.curve.n > 0 && hs[j].c.curve.n > 0 && Exchanged(hs[i], hs[j])
  {
    hide Exchanged, SameRequest, AliceSides, BobSides, RoundTwoSsid;
  }

  // ---------- one nonce, one session id ----------

  function NoncePoints(n: int, ks: seq<int>): (ps: seq<Point>)
    requires n > 0
    ensures |ps| == |ks| && forall j :: 0 <= j < |ks| ==> ps[j] == MulBase(n, ks[j])
  {
    seq(|ks|, j requires 0 <= j < |ks| => MulBase(n, ks[j]))
  }

  lemma OwnNonce(a: Seat, n: int)
    requires n > 0 && a.c.curve.n == n
    ensures NonceOf(a.c, a.s, a.v.peerK, a.c.me) == MulBase(n, a.s.k)
  {
  }

  lemma PeerNonce(a: Seat, b: Seat, n: int)
    requires n > 0 && a.c.curve.n == b.c.curve.n == n && a.c.me != b.c.me && Exchanged(a, b)
    ensures NonceOf(a.c, a.s, a.v.peerK, b.c.me) == MulBase(n, b.s.k)
  {
    hide MulBase, OwnR4, SeedsMatch;
  }

  lemma NoncesFrom(a: Seat, n: int, ks: seq<int>)
    requires n > 0 && a.c.curve.n == n && a.c.count == |ks|
    requires forall j :: 0 <= j < |ks| ==> NonceOf(a.c, a.s, a.v.peerK, j) == MulBase(n, ks[j])
    ensures AllNonces(a.c, a.s, a.v.peerK) == NoncePoints(n, ks)
  {
    hide NonceOf, MulBase;
  }

  /** Every signer knows the same nonces. */
  lemma NoncesCommon(hs: seq<Seat>, x: int, i: nat)
    requires HonestCommittee(hs, x) && i < |hs|
    ensures hs[0].c.curve.n > 0 && hs[i].c.curve.n > 0
    ensures AllNonces(hs[i].c, hs[i].s, hs[i].v.peerK) == NoncePoints(hs[0].c.curve.n, Ks(hs))
  {
    hide *;
    SeatOf(hs, x, i);
    var a, n := hs[i], hs[0].c.curve.n;
    forall j | 0 <= j < |hs| ensures NonceOf(a.c, a.s, a.v.peerK, j) == MulBase(n, Ks(hs)[j]) {
      if j == i {
        OwnNonce(a, n);
      } else {
        SeatOf(hs, x, j);
        PairOf(hs, x, i, j);
        PeerNonce(a, hs[j], n);
      }
    }
    NoncesFrom(a, n, Ks(hs));
  }

  lemma SsidCommon(hs: seq<Seat>, x: int, i: nat, j: nat)
    requires HonestCommittee(hs, x) && i < |hs| && j < |hs|
    ensures hs[i].c.curve.n > 0 && hs[j].c.curve.n > 0
    ensures RoundTwoSsid(hs[i].c, hs[i].s, hs[i].v.peerK) == RoundTwoSsid(hs[j].c, hs[j].s, hs[j].v.peerK)
  {
    NoncesCommon(hs, x, i);
    NoncesCommon(hs, x, j);
    SeatOf(hs, x, i);
    SeatOf(hs, x, j);
    hide HonestCommittee, AllNonces;
  }

  // ---------- one product ----------

  /** Alice's output of i towards j, and Bob's output of i towards j. */
  function AliceAt(hs: seq<Seat>, n: int, forX: bool, i: nat, j: nat): int
    requires n > 0
  {
    if i < |hs| && Slot(i, j) < |hs[i].v.alice| && Slot(i, j) < |hs[i].v.replies| then
      var a, r := hs[i].v.alice[Slot(i, j)], hs[i].v.replies[Slot(i, j)];
      if forX then AliceOut(n, a.stX, r.1) else AliceOut(n, a.stK, r.0)
    else 0
  }

  function BobAt(hs: seq<Seat>, forX: bool, i: nat, j: nat): int {
    if i < |hs| && Slot(i, j) < |hs[i].v.bob| then
      if forX then hs[i].v.bob[Slot(i, j)].uX else hs[i].v.bob[Slot(i, j)].uK
    else 0
  }

  function Alices(hs: seq<Seat>, n: int, forX: bool): Sums.Matrix
    requires n > 0
  {
    (i: nat, j: nat) => AliceAt(hs, n, forX, i, j)
  }

  function Bobs(hs: seq<Seat>, forX: bool): Sums.Matrix { (i: nat, j: nat) => BobAt(hs, forX, i, j) }

  lemma OneProduct(o: Oracle, n: int, alice: ExtReceiver, bob: ExtSender, sid: bytes, alpha: Scalar, rho: Scalar,
    msg: ExtendMsg,
    st: AliceState, reply: BobMsg, u: Scalar)
    requires o.Valid() && alice.Valid() && bob.Valid() && SeedsMatch(bob, alice) && FitsScalar(n) && 0 <= alpha < n
    requires AliceRun(o, alice, sid, alpha, msg, st) && Sized(msg.u, KAPPA, EXT_BITS / 8)
    requires BobReply(o, n, bob, sid, rho, msg, reply, u)
    ensures Cong(AliceOut(n, st, reply) + u, alpha * rho, n)
  {
    hide *;
    HonestOutputs(o, n, alice, bob, sid, alpha, rho, msg, st, reply, u);
    OutIs(n, st, reply);
    var total := AliceSum(n, st.keys, st.alphaBe, reply.corrections, SCALAR_BITS);
    CongMod(total, n);
    CongSelf(u, n);
    CongAdd(total % n, total, u, u, n);
    CongTrans(total + u, total % n + u, alpha * rho, n);
  }

  lemma OutIs(n: int, st: AliceState, reply: BobMsg)
    requires n > 0 && |st.alphaBe| == 32 && |st.keys| == SCALAR_BITS && |reply.corrections| == SCALAR_BITS
    ensures AliceOut(n, st, reply) == AliceSum(n, st.keys, st.alphaBe, reply.corrections, SCALAR_BITS)
  {
    hide AliceSum;
  }

  lemma AliceSideParts(c: SignConfig, s: Secrets, ssid: bytes, m: nat, alice: seq<AliceSide>)
    requires c.Valid() && s.Valid(c) && AliceSides(c, s, ssid, alice) && m < |alice|
    ensures m < |c.pairs| && c.oracle.Valid() && c.pairs[m].asAlice.Valid()
    ensures AliceRun(c.oracle, c.pairs[m].asAlice, c.mulSid(ssid, false, c.me, Other(c.me, m)), s.k, alice[m].msgK,
      alice[m].stK)
    ensures AliceRun(c.oracle, c.pairs[m].asAlice, c.mulSid(ssid, true, c.me, Other(c.me, m)), c.sx, alice[m].msgX,
      alice[m].stX)
  {
    hide AliceRun, Curve.Valid, Codec.Valid, Oracle.Valid;
    assert AliceSideOk(c, s, ssid, m, alice[m]);
  }

  lemma BobSideParts(c: SignConfig, s: Secrets, ssid: bytes, m: nat, bob: seq<BobSide>)
    requires c.Valid() && s.Valid(c) && BobSides(c, s, ssid, bob) && m < |bob|
    ensures m < |c.pairs| && c.oracle.Valid() && c.pairs[m].asBob.Valid() && c.curve.n > 0
    ensures Sized(bob[m].inK.u, KAPPA, EXT_BITS / 8) && Sized(bob[m].inX.u, KAPPA, EXT_BITS / 8)
    ensures BobReply(c.oracle, c.curve.n, c.pairs[m].asBob, c.mulSid(ssid, false, Other(c.me, m), c.me), s.rho,
      bob[m].inK, bob[m].replyK, bob[m].uK)
    ensures BobReply(c.oracle, c.curve.n, c.pairs[m].asBob, c.mulSid(ssid, true, Other(c.me, m), c.me), s.rho,
      bob[m].inX, bob[m].replyX, bob[m].uX)
  {
    hide BobReply, CheckPasses, Codec.Valid, Oracle.Valid, Sized;
    PositiveOrder(c.curve);
    assert BobSideOk(c, s, ssid, m, bob[m]);
  }

  lemma ExchangedParts(a: Seat, b: Seat)
    requires a.c.curve.n > 0 && b.c.curve.n > 0 && Exchanged(a, b)
    ensures var m, w := Slot(a.c.me, b.c.me), Slot(b.c.me, a.c.me);
      && m < |a.v.alice| && m < |a.v.replies| && m < |a.v.r4s| && m < |a.c.pairs|
      && w < |b.v.bob| && w < |b.c.pairs|
      && b.v.bob[w].inK == a.v.alice[m].msgK && b.v.bob[w].inX == a.v.alice[m].msgX
      && a.v.replies[m] == (b.v.bob[w].replyK, b.v.bob[w].replyX)
      && |b.v.alice| <= |b.v.replies| && a.v.r4s[m] == OwnR4(b.c, b.s, b.v)
      && a.c.pairs[m].Valid() && b.c.pairs[w].Valid() && SeedsMatch(b.c.pairs[w].asBob, a.c.pairs[m].asAlice)
  {
    hide OwnR4, SeedsMatch, MulBase, PairOt.Valid;
  }

  lemma BackAndForth(i: nat, j: nat)
    requires i != j
    ensures Other(i, Slot(i, j)) == j && Other(j, Slot(j, i)) == i
  {
  }

  lemma RequestFields(a: Seat, b: Seat)
    requires SameRequest(a, b)
    ensures b.c.curve == a.c.curve && b.c.mulSid == a.c.mulSid && b.c.oracle == a.c.oracle && b.c.hash == a.c.hash
    ensures b.c.verifyPub == a.c.verifyPub
    ensures b.c.mix == a.c.mix && b.c.baseSsid == a.c.baseSsid && b.c.digestK == a.c.digestK
    ensures b.c.digestR4 == a.c.digestR4
  {
  }

  /** Both conversions of an ordered pair share their products. */
  lemma PairShares(hs: seq<Seat>, x: int, i: nat, j: nat)
    requires HonestCommittee(hs, x) && i < |hs| && j < |hs| && i != j
    ensures var n := hs[0].c.curve.n;
      && n > 0 && Cong(AliceAt(hs, n, false, i, j) + BobAt(hs, false, j, i), hs[i].s.k * hs[j].s.rho, n)
      && Cong(AliceAt(hs, n, true, i, j) + BobAt(hs, true, j, i), hs[i].c.sx * hs[j].s.rho, n)
  {
    hide *;
    SeatOf(hs, x, i);
    SeatOf(hs, x, j);
    PairOf(hs, x, i, j);
    SsidCommon(hs, x, i, j);
    RequestFields(hs[0], hs[i]);
    RequestFields(hs[0], hs[j]);
    BackAndForth(i, j);
    var a, b, n := hs[i], hs[j], hs[0].c.curve.n;
    var m, w := Slot(i, j), Slot(j, i);
    var ssid := RoundTwoSsid(a.c, a.s, a.v.peerK);
    ExchangedParts(a, b);
    AliceSideParts(a.c, a.s, ssid, m, a.v.alice);
    BobSideParts(b.c, b.s, ssid, w, b.v.bob);
    OneProduct(a.c.oracle, n, a.c.pairs[m].asAlice, b.c.pairs[w].asBob, a.c.mulSid(ssid, false, i, j), a.s.k, b.s.rho,
      a.v.alice[m].msgK, a.v.alice[m].stK, b.v.bob[w].replyK, b.v.bob[w].uK);
    OneProduct(a.c.oracle, n, a.c.pairs[m].asAlice, b.c.pairs[w].asBob, a.c.mulSid(ssid, true, i, j), a.c.sx, b.s.rho,
      a.v.alice[m].msgX, a.v.alice[m].stX, b.v.bob[w].replyX, b.v.bob[w].uX);
    OutputsAt(hs, n, i, j);
  }

  lemma OutputsAt(hs: seq<Seat>, n: int, i: nat, j: nat)
    requires n > 0 && i < |hs| && j < |hs| && Slot(i, j) < |hs[i].v.alice| && Slot(i, j) < |hs[i].v.replies|
    requires Slot(j, i) < |hs[j].v.bob|
    ensures AliceAt(hs, n, false, i, j) == AliceOut(n, hs[i].v.alice[Slot(i, j)].stK, hs[i].v.replies[Slot(i, j)].0)
    ensures AliceAt(hs, n, true, i, j) == AliceOut(n, hs[i].v.alice[Slot(i, j)].stX, hs[i].v.replies[Slot(i, j)].1)
    ensures BobAt(hs, false, j, i) == hs[j].v.bob[Slot(j, i)].uK && BobAt(hs, true, j, i) == hs[j].v.bob[Slot(j, i)].uX
  {
    hide AliceOut;
  }

  // ---------- one signer's shares ----------

  lemma {:induction false} BobRow(hs: seq<Seat>, forX: bool, i: nat, j: nat)
    requires i < |hs| && |hs[i].v.bob| == |hs| - 1 && j <= |hs|
    ensures Sums.OffRow(Bobs(hs, forX), i, j) == BobSum(hs[i].v.bob, forX, if j <= i then j else j - 1)
  {
    if j > 0 { BobRow(hs, forX, i, j - 1); }
  }

  lemma {:induction false} AliceRow(hs: seq<Seat>, n: int, forX: bool, i: nat, j: nat)
    requires n > 0 && i < |hs| && |hs[i].v.alice| == |hs[i].v.replies| == |hs| - 1 && j <= |hs|
    ensures Sums.OffRow(Alices(hs, n, forX), i, j)
      == AliceSumOut(n, hs[i].v.alice, hs[i].v.replies, forX, if j <= i then j else j - 1)
  {
    hide AliceOut;
    if j > 0 { AliceRow(hs, n, forX, i, j - 1); }
  }

  /** A signer's shares of k rho and x rho are its own products plus its row of outputs. */
  lemma SharesAre(hs: seq<Seat>, x: int, i: nat)
    requires HonestCommittee(hs, x) && i < |hs|
    ensures hs[0].c.curve.n > 0 && hs[i].c.curve.n == hs[0].c.curve.n && |hs[i].v.alice| <= |hs[i].v.replies|
    ensures var n := hs[0].c.curve.n;
      && Cong(PhiShare(hs[i].c, hs[i].s, hs[i].v),
              hs[i].s.k * hs[i].s.rho + Sums.OffRow(Sums.Added(Alices(hs, n, false), Bobs(hs, false)), i, |hs|), n)
      && Cong(XRhoShare(hs[i].c, hs[i].s, hs[i].v),
              hs[i].c.sx * hs[i].s.rho + Sums.OffRow(Sums.Added(Alices(hs, n, true), Bobs(hs, true)), i, |hs|), n)
  {
    hide *;
    SeatOf(hs, x, i);
    var n := hs[0].c.curve.n;
    BobRow(hs, false, i, |hs|);
    BobRow(hs, true, i, |hs|);
    AliceRow(hs, n, false, i, |hs|);
    AliceRow(hs, n, true, i, |hs|);
    Sums.RowAdded(Alices(hs, n, false), Bobs(hs, false), i, |hs|);
    Sums.RowAdded(Alices(hs, n, true), Bobs(hs, true), i, |hs|);
    SharesUnfold(hs[i].c, hs[i].s, hs[i].v);
  }

  lemma SharesUnfold(c: SignConfig, s: Secrets, v: View)
    requires c.curve.n > 0 && |v.alice| <= |v.replies|
    ensures Cong(PhiShare(c, s, v), s.k * s.rho + (AliceSumOut(c.curve.n, v.alice, v.replies, false,
      |v.alice|) + BobSum(v.bob, false, |v.bob|)), c.curve.n)
    ensures Cong(XRhoShare(c, s, v), c.sx * s.rho + (AliceSumOut(c.curve.n, v.alice, v.replies, true,
      |v.alice|) + BobSum(v.bob, true, |v.bob|)), c.curve.n)
  {
    hide AliceSumOut, BobSum;
    CongMod(s.k * s.rho + BobSum(v.bob, false, |v.bob|) + AliceSumOut(c.curve.n, v.alice, v.replies, false, |v.alice|),
      c.curve.n);
    CongMod(c.sx * s.rho + BobSum(v.bob, true, |v.bob|) + AliceSumOut(c.curve.n, v.alice, v.replies, true, |v.alice|),
      c.curve.n);
  }

  function Phis(hs: seq<Seat>): (xs: seq<int>)
    ensures |xs| == |hs|
    ensures forall i :: 0 <= i < |hs| && hs[i].c.curve.n > 0 && |hs[i].v.alice| <= |hs[i].v.replies| ==>
      xs[i] == PhiShare(hs[i].c, hs[i].s, hs[i].v)
  {
    seq(|hs|, i requires 0 <= i < |hs| =>
      if hs[i].c.curve.n > 0 && |hs[i].v.alice| <= |hs[i].v.replies| then PhiShare(hs[i].c, hs[i].s, hs[i].v) else 0)
  }

  function XRhos(hs: seq<Seat>): (xs: seq<int>)
    ensures |xs| == |hs|
    ensures forall i :: 0 <= i < |hs| && hs[i].c.curve.n > 0 && |hs[i].v.alice| <= |hs[i].v.replies| ==>
      xs[i] == XRhoShare(hs[i].c, hs[i].s, hs[i].v)
  {
    seq(|hs|, i requires 0 <= i < |hs| =>
      if hs[i].c.curve.n > 0 && |hs[i].v.alice| <= |hs[i].v.replies| then XRhoShare(hs[i].c, hs[i].s, hs[i].v) else 0)
  }

  function Shats(hs: seq<Seat>): (xs: seq<int>)
    ensures |xs| == |hs|
    ensures forall i :: 0 <= i < |hs| && hs[i].c.curve.n > 0 && |hs[i].v.alice| <= |hs[i].v.replies| ==>
      xs[i] == ShatShare(hs[i].c, hs[i].s, hs[i].v)
  {
    seq(|hs|, i requires 0 <= i < |hs| =>
      if hs[i].c.curve.n > 0 && |hs[i].v.alice| <= |hs[i].v.replies| then ShatShare(hs[i].c, hs[i].s, hs[i].v) else 0)
  }

  /** The shares add up to the products of the sums. */
  lemma ProductsShared(hs: seq<Seat>, x: int)
    requires HonestCommittee(hs, x)
    ensures hs != [] && hs[0].c.curve.n > 0
    ensures Cong(Sums.Sum(Phis(hs)), Sums.Sum(Ks(hs)) * Sums.Sum(Rhos(hs)), hs[0].c.curve.n)
    ensures Cong(Sums.Sum(XRhos(hs)), Sums.Sum(Sxs(hs)) * Sums.Sum(Rhos(hs)), hs[0].c.curve.n)
  {
    hide *;
    NotEmpty(hs, x);
    SeatOf(hs, x, 0);
    var n := hs[0].c.curve.n;
    var aK, bK, aX, bX := Alices(hs, n, false), Bobs(hs, false), Alices(hs, n, true), Bobs(hs, true);
    forall i | 0 <= i < |hs|
      ensures Cong(Phis(hs)[i], Ks(hs)[i] * Rhos(hs)[i] + Sums.OffRow(Sums.Added(aK, bK), i, |hs|), n)
      ensures Cong(XRhos(hs)[i], Sxs(hs)[i] * Rhos(hs)[i] + Sums.OffRow(Sums.Added(aX, bX), i, |hs|), n)
    {
      SharesAre(hs, x, i);
    }
    forall i: nat, j: nat | i < |hs| && j < |hs| && i != j
      ensures Cong(aK(i, j) + bK(j, i), Ks(hs)[i] * Rhos(hs)[j], n)
      ensures Cong(aX(i, j) + bX(j, i), Sxs(hs)[i] * Rhos(hs)[j], n)
    {
      PairShares(hs, x, i, j);
      MatrixAt(hs, n, i, j);
    }
    Sums.HoldsFrom(n, Ks(hs), Rhos(hs), aK, bK, Phis(hs));
    Sums.HoldsFrom(n, Sxs(hs), Rhos(hs), aX, bX, XRhos(hs));
    Sums.SharesOfProduct(n, Ks(hs), Rhos(hs), aK, bK, Phis(hs));
    Sums.SharesOfProduct(n, Sxs(hs), Rhos(hs), aX, bX, XRhos(hs));
  }

  lemma NotEmpty(hs: seq<Seat>, x: int)
    requires HonestCommittee(hs, x)
    ensures hs != [] && hs[0].c.curve.n > 0 && Cong(Sums.Sum(Sxs(hs)), x, hs[0].c.curve.n)
    ensures Cong(hs[0].c.verifyPub, x, hs[0].c.curve.n)
  {
    hide Computed, Exchanged, FitsScalar;
    assert Computed(hs[0]);
    ComputedOrder(hs[0]);
  }

  lemma ComputedOrder(a: Seat)
    requires Computed(a)
    ensures a.c.curve.n > 0
  {
  }

  lemma MatrixAt(hs: seq<Seat>, n: int, i: nat, j: nat)
    requires n > 0
    ensures Alices(hs, n, false)(i, j) == AliceAt(hs, n, false, i, j)
    ensures Alices(hs, n, true)(i, j) == AliceAt(hs, n, true, i, j)
    ensures Bobs(hs, false)(j, i) == BobAt(hs, false, j, i) && Bobs(hs, true)(j, i) == BobAt(hs, true, j, i)
  {
  }

  // ---------- the revealed totals ----------

  lemma ShatUnfold(c: SignConfig, s: Secrets, v: View)
    requires c.curve.n > 0 && |v.alice| <= |v.replies|
    ensures ShatShare(c, s, v) ==
      FAdd(c.curve.n, FMul(c.curve.n, s.rho, c.E()), FMul(c.curve.n, c.curve.XScalar(GroupNonce(c, s, v.peerK)),
        XRhoShare(c, s, v)))
  {
    hide XRhoShare, GroupNonce;
  }

  /** shat_i = rho_i e + r (x rho)_i */
  lemma ShatIs(hs: seq<Seat>, x: int, i: nat)
    requires HonestCommittee(hs, x) && i < |hs|
    ensures hs[0].c.curve.n > 0
    ensures var n, r := hs[0].c.curve.n, hs[0].c.curve.XScalar(GroupNonce(hs[0].c, hs[0].s, hs[0].v.peerK));
      Cong(Shats(hs)[i], hs[0].c.E() * Rhos(hs)[i] + r * XRhos(hs)[i], n)
  {
    hide *;
    SeatOf(hs, x, i);
    NonceSum(hs, x, i);
    RequestOf(hs[0], hs[i]);
    var n, a := hs[0].c.curve.n, hs[i];
    ShatUnfold(a.c, a.s, a.v);
    ShatTerms(n, a.s.rho, a.c.E(), a.c.curve.XScalar(GroupNonce(a.c, a.s, a.v.peerK)), XRhoShare(a.c, a.s, a.v));
  }

  lemma ShatTerms(n: int, rho: int, e: int, r: int, xRho: int)
    requires n > 0
    ensures Cong(FAdd(n, FMul(n, rho, e), FMul(n, r, xRho)), e * rho + r * xRho, n)
  {
    var a, b := FMul(n, rho, e), FMul(n, r, xRho);
    FieldOps(n, rho, e);
    FieldOps(n, r, xRho);
    FieldOps(n, a, b);
    hide *;
    CongAdd(a, rho * e, b, r * xRho, n);
    CongTrans(FAdd(n, a, b), a + b, rho * e + r * xRho, n);
    assert rho * e == e * rho;
  }

  lemma ShatSum(hs: seq<Seat>, x: int)
    requires HonestCommittee(hs, x)
    ensures hs != [] && hs[0].c.curve.n > 0
    ensures var n, r := hs[0].c.curve.n, hs[0].c.curve.XScalar(GroupNonce(hs[0].c, hs[0].s, hs[0].v.peerK));
      Cong(Sums.Sum(Shats(hs)), Sums.Sum(Rhos(hs)) * (hs[0].c.E() + r * x), n)
  {
    hide *;
    NotEmpty(hs, x);
    var n, r, e := hs[0].c.curve.n, hs[0].c.curve.XScalar(GroupNonce(hs[0].c, hs[0].s, hs[0].v.peerK)), hs[0].c.E();
    var rhos, xRhos := Rhos(hs), XRhos(hs);
    var target := Sums.Plus(Sums.Scaled(e, rhos), Sums.Scaled(r, xRhos));
    forall i | 0 <= i < |hs| ensures Cong(Shats(hs)[i], target[i], n) { ShatIs(hs, x, i); }
    Sums.SumCong(n, Shats(hs), target);
    Sums.SumPlus(Sums.Scaled(e, rhos), Sums.Scaled(r, xRhos));
    Sums.SumScaled(e, rhos);
    Sums.SumScaled(r, xRhos);
    ProductsShared(hs, x);
    ShatAlgebra(n, Sums.Sum(Shats(hs)), e, r, Sums.Sum(rhos), Sums.Sum(xRhos), Sums.Sum(Sxs(hs)), x);
  }

  lemma ShatAlgebra(n: int, total: int, e: int, r: int, rho: int, xRho: int, sx: int, x: int)
    requires n > 0 && Cong(total, e * rho + r * xRho, n) && Cong(xRho, sx * rho, n) && Cong(sx, x, n)
    ensures Cong(total, rho * (e + r * x), n)
  {
    hide *;
    CongScale(rho, sx, x, n);
    CongTrans(xRho, sx * rho, x * rho, n);
    CongScale(r, xRho, x * rho, n);
    CongSelf(e * rho, n);
    CongAdd(e * rho, e * rho, r * xRho, r * (x * rho), n);
    CongTrans(total, e * rho + r * xRho, e * rho + r * (x * rho), n);
    Collected(e, r, rho, x);
  }

  lemma Collected(e: int, r: int, rho: int, x: int)
    ensures e * rho + r * (x * rho) == rho * (e + r * x)
  {
    assert r * (x * rho) == rho * (r * x);
  }

  lemma {:induction false} TotalIsSum(xs: seq<int>)
    ensures Total(xs) == Sums.Sum(xs)
    decreases |xs|
  {
    if xs != [] {
      var m := |xs| - 1;
      TotalIsSum(xs[..m]);
      PrefixSum(xs, m);
    }
  }

  lemma {:induction false} PrefixSum(xs: seq<int>, k: nat)
    requires k < |xs|
    ensures Sum(xs[..|xs| - 1], k) == Sum(xs, k)
  {
    if k > 0 { PrefixSum(xs, k - 1); }
  }

  /** A reveal decodes to the shares it was made of. */
  lemma RevealDecodes(b: Seat, r4: R4)
    requires b.c.curve.n > 0 && |b.v.alice| <= |b.v.replies| && r4 == OwnR4(b.c, b.s, b.v)
    ensures BeValue(r4.phi) % b.c.curve.n == PhiShare(b.c, b.s, b.v)
    ensures BeValue(r4.shat) % b.c.curve.n == ShatShare(b.c, b.s, b.v)
  {
    hide PhiShare, ShatShare, BeValue, BeMin;
    BeMinValue(PhiShare(b.c, b.s, b.v));
    BeMinValue(ShatShare(b.c, b.s, b.v));
    SmallMod(PhiShare(b.c, b.s, b.v), b.c.curve.n);
    SmallMod(ShatShare(b.c, b.s, b.v), b.c.curve.n);
  }

  lemma RevealKnown(a: Seat, own: R4, j: nat)
    ensures j == a.c.me ==> RevealOf(a.c, own, a.v.r4s, j) == own
    ensures j != a.c.me && Slot(a.c.me, j) < |a.v.r4s| ==> RevealOf(a.c, own, a.v.r4s, j) == a.v.r4s[Slot(a.c.me, j)]
  {
  }

  lemma ValuesFrom(a: Seat, own: R4, phis: seq<int>, shats: seq<int>)
    requires a.c.curve.n > 0 && |phis| == |shats| == a.c.count
    requires forall j :: 0 <= j < a.c.count ==>
      && BeValue(RevealOf(a.c, own, a.v.r4s, j).phi) % a.c.curve.n == phis[j]
      && BeValue(RevealOf(a.c, own, a.v.r4s, j).shat) % a.c.curve.n == shats[j]
    ensures PhiValues(a.c, own, a.v.r4s) == phis && ShatValues(a.c, own, a.v.r4s) == shats
  {
    hide RevealOf, BeValue;
  }

  /** Every signer sees the reveals of all. */
  lemma RevealsSeen(hs: seq<Seat>, x: int, i: nat)
    requires HonestCommittee(hs, x) && i < |hs|
    ensures hs[i].c.curve.n > 0 && |hs[i].v.alice| <= |hs[i].v.replies|
    ensures PhiValues(hs[i].c, OwnR4(hs[i].c, hs[i].s, hs[i].v), hs[i].v.r4s) == Phis(hs)
    ensures ShatValues(hs[i].c, OwnR4(hs[i].c, hs[i].s, hs[i].v), hs[i].v.r4s) == Shats(hs)
  {
    hide *;
    SeatOf(hs, x, i);
    var a := hs[i];
    var own := OwnR4(a.c, a.s, a.v);
    forall j | 0 <= j < |hs|
      ensures BeValue(RevealOf(a.c, own, a.v.r4s, j).phi) % a.c.curve.n == Phis(hs)[j]
      ensures BeValue(RevealOf(a.c, own, a.v.r4s, j).shat) % a.c.curve.n == Shats(hs)[j]
    {
      SeatOf(hs, x, j);
      RevealKnown(a, own, j);
      if j != i {
        PairOf(hs, x, i, j);
        ExchangedParts(a, hs[j]);
      }
      RevealDecodes(hs[j], OwnR4(hs[j].c, hs[j].s, hs[j].v));
    }
    ValuesFrom(a, own, Phis(hs), Shats(hs));
  }

  /** R is the sum of the nonces, for everyone. */
  lemma NonceSum(hs: seq<Seat>, x: int, i: nat)
    requires HonestCommittee(hs, x) && i < |hs|
    ensures hs[i].c.curve.n > 0 && hs[0].c.curve.n > 0
    ensures GroupNonce(hs[i].c, hs[i].s, hs[i].v.peerK) == GroupNonce(hs[0].c, hs[0].s, hs[0].v.peerK)
    ensures Cong(GroupNonce(hs[0].c, hs[0].s, hs[0].v.peerK), Sums.Sum(Ks(hs)), hs[0].c.curve.n)
  {
    NoncesCommon(hs, x, i);
    NoncesCommon(hs, x, 0);
    SeatOf(hs, x, i);
    hide HonestCommittee, AllNonces, Total, Cong, MulBase;
    var n := hs[0].c.curve.n;
    var ps := NoncePoints(n, Ks(hs));
    TotalIsSum(ps);
    CongMod(Total(ps), n);
    forall j | 0 <= j < |ps| ensures Cong(ps[j], Ks(hs)[j], n) { FieldOps(n, Ks(hs)[j], 0); }
    Sums.SumCong(n, ps, Ks(hs));
    CongTrans(Total(ps) % n, Total(ps), Sums.Sum(Ks(hs)), n);
  }

  /** The theorem behind the final gate: everyone in an honest committee sees the totals k rho and rho (e + r x). */
  lemma HonestTotals(hs: seq<Seat>, x: int, i: nat)
    requires HonestCommittee(hs, x) && i < |hs|
    ensures hs[i].c.curve.n > 0 && |hs[i].v.alice| <= |hs[i].v.replies|
    ensures SumsShared(hs[i].c, hs[i].s, hs[i].v, Sums.Sum(Rhos(hs)), x)
  {
    hide *;
    NotEmpty(hs, x);
    SeatOf(hs, x, i);
    RevealsSeen(hs, x, i);
    NonceSum(hs, x, i);
    ProductsShared(hs, x);
    ShatSum(hs, x);
    TotalIsSum(Phis(hs));
    TotalIsSum(Shats(hs));
    var n, p, rho := hs[0].c.curve.n, GroupNonce(hs[0].c, hs[0].s, hs[0].v.peerK), Sums.Sum(Rhos(hs));
    ReducedTotal(n, Sums.Sum(Phis(hs)), Sums.Sum(Ks(hs)) * rho);
    CongScale(rho, p, Sums.Sum(Ks(hs)), n);
    CongTrans(Sums.Sum(Phis(hs)) % n, Sums.Sum(Ks(hs)) * rho, p * rho, n);
    ReducedTotal(n, Sums.Sum(Shats(hs)), rho * (hs[0].c.E() + hs[0].c.curve.XScalar(p) * x));
    RequestOf(hs[0], hs[i]);
    SharedIntro(hs[i].c, hs[i].s, hs[i].v, rho, x);
  }

  lemma ReducedTotal(n: int, total: int, target: int)
    requires n > 0 && Cong(total, target, n)
    ensures Cong(total % n, target, n) && 0 <= total % n < n
  {
    CongMod(total, n);
    CongTrans(total % n, total, target, n);
  }

  lemma RequestOf(a: Seat, b: Seat)
    requires SameRequest(a, b) && a.c.curve.n > 0
    ensures b.c.verifyPub == a.c.verifyPub && b.c.curve == a.c.curve && b.c.E() == a.c.E()
  {
  }

  lemma SharedIntro(c: SignConfig, s: Secrets, v: View, rho: int, x: int)
    requires c.curve.n > 0 && |v.alice| <= |v.replies|
    requires var p, own, n := GroupNonce(c, s, v.peerK), OwnR4(c, s, v), c.curve.n;
      && Cong(Total(PhiValues(c, own, v.r4s)) % n, p * rho, n) && Cong(c.verifyPub, x, n)
      && Cong(Total(ShatValues(c, own, v.r4s)) % n, rho * (c.E() + c.curve.XScalar(p) * x), n)
    ensures SumsShared(c, s, v, rho, x)
  {
    hide Cong, GroupNonce, OwnR4, PhiValues, ShatValues, Total;
  }

  // ---------- honest reports agree ----------

  lemma RevealAgreed(hs: seq<Seat>, x: int, i: nat, d: nat)
    requires HonestCommittee(hs, x) && i < |hs| && d < |hs|
    ensures hs[i].c.curve.n > 0 && |hs[i].v.alice| <= |hs[i].v.replies| && hs[d].c.curve.n > 0
    ensures |hs[d].v.alice| <= |hs[d].v.replies|
    ensures RevealOf(hs[i].c, OwnR4(hs[i].c, hs[i].s, hs[i].v), hs[i].v.r4s, d) == OwnR4(hs[d].c, hs[d].s, hs[d].v)
  {
    hide *;
    SeatOf(hs, x, i);
    SeatOf(hs, x, d);
    RevealKnown(hs[i], OwnR4(hs[i].c, hs[i].s, hs[i].v), d);
    if d != i {
      PairOf(hs, x, i, d);
      ExchangedParts(hs[i], hs[d]);
    }
  }

  /** A report on everyone but its sender, with the digests that the reader has. */
  lemma AgreesFrom(count: nat, i: nat, j: nat, mine: map<nat, bytes>, echo: EchoMsg)
    requires i < count && j < count && i != j && |echo.digests| == count - 1
    requires forall k :: 0 <= k < |echo.digests| ==>
      echo.digests[k].0 == Other(j, k) && echo.digests[k].0 in mine && mine[echo.digests[k].0] == echo.digests[k].1
    ensures Agrees(mine, j, echo, Everyone(count, i))
  {
    forall p | p in Everyone(count, i) && p != j ensures echo.Has(p) {
      assert Other(j, Slot(j, p)) == p;
      assert echo.digests[Slot(j, p)].0 == p;
    }
  }

  /** An honest signer's round-4 report agrees with every other honest signer's view. */
  lemma ReportAgrees(hs: seq<Seat>, x: int, i: nat, j: nat)
    requires HonestCommittee(hs, x) && i < |hs| && j < |hs| && i != j
    ensures hs[i].c.curve.n > 0 && |hs[i].v.alice| <= |hs[i].v.replies|
    ensures var echo := RevealEcho(hs[j].c, hs[j].v.r4s);
      && Agrees(RevealDigests(hs[i].c, OwnR4(hs[i].c, hs[i].s, hs[i].v), hs[i].v.r4s), j, echo, Everyone(|hs|, i))
      && |echo.digests| <= |hs|
  {
    hide *;
    SeatOf(hs, x, i);
    SeatOf(hs, x, j);
    RequestFields(hs[0], hs[i]);
    RequestFields(hs[0], hs[j]);
    var a, b := hs[i], hs[j];
    var mine, echo := RevealDigests(a.c, OwnR4(a.c, a.s, a.v), a.v.r4s), RevealEcho(b.c, b.v.r4s);
    forall k | 0 <= k < |echo.digests|
      ensures echo.digests[k].0 == Other(j, k) && echo.digests[k].0 in mine
      ensures mine[echo.digests[k].0] == echo.digests[k].1
    {
      PeerReveal(hs, x, j, k);
      RevealAgreed(hs, x, i, Other(j, k));
    }
    AgreesFrom(|hs|, i, j, mine, echo);
  }

  lemma PeerReveal(hs: seq<Seat>, x: int, j: nat, k: nat)
    requires HonestCommittee(hs, x) && j < |hs| && k < |hs| - 1
    ensures k < |hs[j].v.r4s| && Other(j, k) < |hs| && Other(j, k) != j
    ensures var d := Other(j, k);
      hs[d].c.curve.n > 0 && |hs[d].v.alice| <= |hs[d].v.replies| && hs[j].v.r4s[k] == OwnR4(hs[d].c, hs[d].s, hs[d].v)
  {
    hide *;
    SeatOf(hs, x, j);
    OtherBelow(j, k, |hs|);
    SeatOf(hs, x, Other(j, k));
    PairOf(hs, x, j, Other(j, k));
    ExchangedParts(hs[j], hs[Other(j, k)]);
  }

  lemma OtherBelow(j: nat, k: nat, count: nat)
    requires j < count && k < count - 1
    ensures Other(j, k) < count && Other(j, k) != j && Slot(j, Other(j, k)) == k
  {
  }

  lemma ReportedIntro(c: SignConfig, s: Secrets, v: View, reports: seq<Option<EchoMsg>>)
    requires c.curve.n > 0 && |v.alice| <= |v.replies| && c.me < c.count && |reports| == c.count - 1 && Decoded(reports)
    requires forall m :: 0 <= m < |reports| ==>
      && Agrees(RevealDigests(c, OwnR4(c, s, v), v.r4s), Other(c.me, m), Payloads(reports)[m], Everyone(c.count, c.me))
      && |Payloads(reports)[m].digests| <= c.count
    ensures SigningParty.RevealsReported(c, s, v, reports)
  {
    hide Agrees, RevealDigests, OwnR4, Everyone;
  }

  /** The reports the other signers of the committee sent pass. */
  lemma ReportsPass(hs: seq<Seat>, x: int, i: nat, reports: seq<Option<EchoMsg>>)
    requires HonestCommittee(hs, x) && i < |hs| && |reports| == |hs| - 1 && Decoded(reports)
    requires forall m :: 0 <= m < |reports| ==>
      Other(i, m) < |hs| && Payloads(reports)[m] == RevealEcho(hs[Other(i, m)].c, hs[Other(i, m)].v.r4s)
    ensures hs[i].c.curve.n > 0 && |hs[i].v.alice| <= |hs[i].v.replies|
    ensures SigningParty.RevealsReported(hs[i].c, hs[i].s, hs[i].v, reports)
  {
    hide *;
    SeatOf(hs, x, i);
    forall m | 0 <= m < |reports|
      ensures Agrees(RevealDigests(hs[i].c, OwnR4(hs[i].c, hs[i].s, hs[i].v), hs[i].v.r4s), Other(i, m),
        Payloads(reports)[m], Everyone(|hs|, i))
      ensures |Payloads(reports)[m].digests| <= |hs|
    {
      OtherBelow(i, m, |hs|);
      ReportAgrees(hs, x, i, Other(i, m));
    }
    ReportedIntro(hs[i].c, hs[i].s, hs[i].v, reports);
  }

  // ---------- the runs of a whole committee ----------

  /** Where a signer of a run stands when only the round-4 echoes are missing. */
  ghost predicate Waiting(p: SigningParty.Shared, a: Seat)
    reads p
  {
    && p.Inv() && p.st.awaitR4Echo && p.deliveries == [] && a == Seat(p.c, p.s, p.h.used)
  }

  /** What such a signer has computed. */
  lemma WaitingComputed(p: SigningParty.Shared, a: Seat)
    requires Waiting(p, a)
    ensures Computed(a)
  {
    p.Unfold();
    hide SigningParty.Shared.Inv, AliceSides, BobSides, PhiShare, ShatShare, BobSum, GroupNonce, RoundTwoSsid,
      ReportsAgree, NonceEcho, RevealEcho, SignConfig.Valid, Secrets.Valid;
    assert SigningParty.NoncesIn(p.c, p.s, p.st, p.h) && SigningParty.Answered(p.c, p.s, p.st,
      p.h) && SigningParty.Revealed(p.c, p.s, p.st, p.h);
  }

  ghost predicate AllWaiting(ps: seq<SigningParty.Shared>, hs: seq<Seat>)
    reads set k | 0 <= k < |ps| :: ps[k]
  {
    |ps| == |hs| && forall k :: 0 <= k < |ps| ==> Waiting(ps[k], hs[k])
  }

  /** The other signers' round-4 echoes, as they recorded them when sending. */
  ghost predicate ReportsSent(ps: seq<SigningParty.Shared>, i: nat, reports: seq<Option<EchoMsg>>)
    reads set k | 0 <= k < |ps| :: ps[k]
  {
    |reports| == |ps| - 1 && forall m :: 0 <= m < |reports| ==>
      Other(i, m) < |ps| && reports[m] == ps[Other(i, m)].st.sentR4Echo
  }

  lemma WaitingOf(ps: seq<SigningParty.Shared>, hs: seq<Seat>, k: nat)
    requires AllWaiting(ps, hs) && k < |ps|
    ensures |ps| == |hs| && Waiting(ps[k], hs[k])
  {
    hide Waiting;
  }

  lemma ReportsAre(ps: seq<SigningParty.Shared>, hs: seq<Seat>, i: nat, reports: seq<Option<EchoMsg>>)
    requires AllWaiting(ps, hs) && ReportsSent(ps, i, reports)
    ensures |reports| == |ps| - 1 == |hs| - 1 && Decoded(reports)
    ensures forall m :: 0 <= m < |reports| ==>
      Other(i, m) < |hs| && Payloads(reports)[m] == RevealEcho(hs[Other(i, m)].c, hs[Other(i, m)].v.r4s)
  {
    hide AllWaiting, Waiting, RevealEcho;
    WaitingSize(ps, hs);
    forall m | 0 <= m < |reports| ensures Other(i, m) < |hs| && reports[m] == Some(RevealEcho(hs[Other(i, m)].c,
      hs[Other(i, m)].v.r4s)) {
      WaitingOf(ps, hs, Other(i, m));
      WaitingParts(ps[Other(i, m)], hs[Other(i, m)]);
    }
  }

  lemma WaitingSize(ps: seq<SigningParty.Shared>, hs: seq<Seat>)
    requires AllWaiting(ps, hs)
    ensures |ps| == |hs|
  {
  }

  /** What the final gate makes of an honest committee's run. */
  ghost predicate GateOutcome(hs: seq<Seat>, x: int, i: nat, res: Result<Signature, SigningParty.Failure>)
    requires i < |hs| && hs[i].c.curve.n > 0
  {
    var c, r := hs[i].c, hs[i].c.curve.XScalar(GroupNonce(hs[i].c, hs[i].s, hs[i].v.peerK));
    r != 0 ==>
      && (res.Ok? <==> !Cong(Sums.Sum(Rhos(hs)), 0, c.curve.n) && !Cong(c.E() + r * x, 0, c.curve.n))
      && (res.Ok? ==> GoodSignature(c.curve, c.verifyPub, c.E(), res.value))
  }

  /** The last step of one signer, on the reports the others sent. */
  method FinishOne(p: SigningParty.Shared, ghost hs: seq<Seat>, ghost x: int, ghost i: nat,
    reports: seq<Option<EchoMsg>>)
    requires HonestCommittee(hs, x) && i < |hs| && Waiting(p, hs[i]) && |reports| == |hs| - 1 && Decoded(reports)
    requires forall m :: 0 <= m < |reports| ==>
      Other(i, m) < |hs| && Payloads(reports)[m] == RevealEcho(hs[Other(i, m)].c, hs[Other(i, m)].v.r4s)
    modifies p
    ensures p.Inv() && |p.deliveries| == 1 && hs[i].c.curve.n > 0 && GateOutcome(hs, x, i, p.deliveries[0])
    ensures p.deliveries[0].Ok? ==>
      Finished(p.c, p.s, p.h.used, p.deliveries[0].value) && p.h.used == hs[i].v.(r4Echoes := p.h.used.r4Echoes)
  {
    hide *;
    WaitingParts(p, hs[i]);
    SeatOf(hs, x, i);
    ReportsPass(hs, x, i, reports);
    HonestTotals(hs, x, i);
    ghost var rho := Sums.Sum(Rhos(hs));
    p.Finalize(reports, rho, x);
    SigningParty.GateMeans(hs[i].c, hs[i].s, hs[i].v, rho, x, p.deliveries[0]);
    GateIs(hs, x, i, p.deliveries[0]);
  }

  lemma GateIs(hs: seq<Seat>, x: int, i: nat, res: Result<Signature, SigningParty.Failure>)
    requires i < |hs| && hs[i].c.curve.n > 0
    ensures var c, r := hs[i].c, hs[i].c.curve.XScalar(GroupNonce(hs[i].c, hs[i].s, hs[i].v.peerK));
      GateOutcome(hs, x, i, res) <==> (r != 0 ==>
        && (res.Ok? <==> !Cong(Sums.Sum(Rhos(hs)), 0, c.curve.n) && !Cong(c.E() + r * x, 0, c.curve.n))
        && (res.Ok? ==> GoodSignature(c.curve, c.verifyPub, c.E(), res.value)))
  {
    hide GoodSignature, Cong, GroupNonce, Rhos;
  }

  /** Signing completeness of the last step. When all signers of a committee have come to it with every message
      delivered as sent, finishing on the echoes they sent delivers a low-S signature that verifies, unless R.x, rho or
      e + r x vanishes. */
  method FinishHonestly(ps: seq<SigningParty.Shared>, ghost hs: seq<Seat>, ghost x: int, i: nat,
    reports: seq<Option<EchoMsg>>)
    requires i < |ps| == |hs| && Traffic(hs, x) && AllWaiting(ps, hs) && ReportsSent(ps, i, reports)
    modifies ps[i]
    ensures ps[i].Inv() && |ps[i].deliveries| == 1 && hs[i].c.curve.n > 0
    ensures var r, res := hs[i].c.curve.XScalar(GroupNonce(hs[i].c, hs[i].s, hs[i].v.peerK)), ps[i].deliveries[0];
      r != 0 ==>
        && (res.Ok? <==> !Cong(Sums.Sum(Rhos(hs)), 0, hs[i].c.curve.n) && !Cong(hs[i].c.E() + r * x, 0,
          hs[i].c.curve.n))
        && (res.Ok? ==> GoodSignature(hs[i].c.curve, hs[i].c.verifyPub, hs[i].c.E(), res.value))
  {
    hide *;
    forall k | 0 <= k < |ps| ensures Computed(hs[k]) {
      WaitingOf(ps, hs, k);
      WaitingComputed(ps[k], hs[k]);
    }
    CommitteeIntro(hs, x);
    WaitingOf(ps, hs, i);
    ReportsAre(ps, hs, i, reports);
    FinishOne(ps[i], hs, x, i, reports);
    GateIs(hs, x, i, ps[i].deliveries[0]);
  }

  lemma CommitteeIntro(hs: seq<Seat>, x: int)
    requires Traffic(hs, x) && forall k :: 0 <= k < |hs| ==> Computed(hs[k])
    ensures HonestCommittee(hs, x)
  {
    hide Traffic, Computed;
  }

  /** Before that, what an honest signer sends as Alice passes every check of a Bob whose OT state matches hers. */
  lemma HonestMessagesAccepted(a: Seat, ssid: bytes, m: nat, b: SignConfig, w: nat)
    requires a.c.Valid() && a.s.Valid(a.c) && AliceSides(a.c, a.s, ssid, a.v.alice) && m < |a.v.alice|
    requires b.Valid() && w < b.count - 1 && b.oracle == a.c.oracle && b.mulSid == a.c.mulSid
    requires Other(a.c.me, m) == b.me && Other(b.me, w) == a.c.me
    requires a.c.pairs[m].Valid() && b.pairs[w].Valid() && SeedsMatch(b.pairs[w].asBob, a.c.pairs[m].asAlice)
    ensures var side := a.v.alice[m];
      side.msgK.Shaped() && side.msgX.Shaped() && SigningParty.BobAccepts(b, ssid, w, side.msgK, side.msgX)
  {
    AliceSideParts(a.c, a.s, ssid, m, a.v.alice);
    hide AliceSides, AliceRun, CheckPasses, SeedsMatch, Curve.Valid, Codec.Valid, Oracle.Valid, Sized;
    var rcv, snd := a.c.pairs[m].asAlice, b.pairs[w].asBob;
    RunAccepted(b.oracle, rcv, snd, b.mulSid(ssid, false, a.c.me, b.me), a.s.k, a.v.alice[m].msgK, a.v.alice[m].stK);
    RunAccepted(b.oracle, rcv, snd, b.mulSid(ssid, true, a.c.me, b.me), a.c.sx, a.v.alice[m].msgX, a.v.alice[m].stX);
  }

  lemma WaitingParts(p: SigningParty.Shared, a: Seat)
    requires Waiting(p, a)
    ensures p.Inv() && p.NoSignature() && p.st.awaitR4Echo && p.deliveries == [] && a.c == p.c && a.s == p.s
    ensures a.v == p.h.used
    ensures p.st.sentR4Echo == Some(RevealEcho(a.c, a.v.r4s))
  {
    p.Unfold();
    hide SigningParty.Shared.Inv, SigningParty.StateOk, RevealEcho;
    SigningParty.StateFacts(p.c, p.s, p.st, p.h);
  }
}
