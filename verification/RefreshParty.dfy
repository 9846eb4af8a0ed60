/** The broker-driven refresh of one party (src/dklstss/refresh_party.rs): its dealing, and message handlers over
    mutex-protected state, fired in any order the broker chooses. */
module RefreshParty {
  import opened NumberTheory
  import opened Polynomial
  import opened Results
  import opened Bits
  import opened Secp
  import opened OtExtension
  import opened BaseOt
  import opened Ole
  import opened Vss
  import opened Keys
  import opened SignEncoding
  import opened Echo
  import opened Committee
  import opened Dkg
  import opened DkgAgreement
  import opened RefreshView
  import KeygenParty
  import Resharing

  // ---------- polynomials with constant term zero ----------

  /** eval_zero_const_poly: the power of x is advanced after each term. */
  method EvalZeroConstPoly(n: int, coeffs: seq<Scalar>, x: Scalar) returns (acc: Scalar)
    requires n > 0
    ensures acc == Eval([0] + coeffs, x) % n
  {
    acc := 0;
    var xpow := x;
    NoTerms(n, coeffs, x);
    for k := 0 to |coeffs|
      invariant acc == Eval([0] + coeffs[..k], x) % n && Cong(xpow, Pow(x, k + 1), n)
    {
      NextTerm(n, coeffs, x, k, acc, xpow);
      acc := FAdd(n, acc, FMul(n, coeffs[k], xpow));
      xpow := FMul(n, xpow, x);
    }
    assert coeffs[..|coeffs|] == coeffs;
  }

  lemma NoTerms(n: int, coeffs: seq<int>, x: int)
    requires n > 0
    ensures Eval([0] + coeffs[..0], x) % n == 0 && Cong(x, Pow(x, 1), n)
  {
    SmallMod(0, n);
    PowOnce(x);
    assert [0] + coeffs[..0] == [0];
    EvalSnoc([], 0, x);
    assert [] + [0] == [0];
  }

  lemma NextTerm(n: int, coeffs: seq<int>, x: int, k: nat, acc: int, xpow: int)
    requires n > 0 && k < |coeffs| && acc == Eval([0] + coeffs[..k], x) % n && Cong(xpow, Pow(x, k + 1), n)
    ensures FAdd(n, acc, FMul(n, coeffs[k], xpow)) == Eval([0] + coeffs[..k + 1], x) % n
    ensures FAdd(n, acc, PointMul(n, coeffs[k], xpow)) == Eval([0] + coeffs[..k + 1], x) % n
    ensures Cong(FMul(n, xpow, x), Pow(x, k + 2), n)
  {
    var f, p := [0] + coeffs[..k], Pow(x, k + 1);
    assert [0] + coeffs[..k + 1] == f + [coeffs[k]];
    EvalSnoc(f, coeffs[k], x);
    PowOneMore(x, k + 1);
    hide *;
    FieldOps(n, coeffs[k], xpow);
    CongScale(coeffs[k], xpow, p, n);
    CongTrans(FMul(n, coeffs[k], xpow), coeffs[k] * xpow, coeffs[k] * p, n);
    CongTrans(PointMul(n, coeffs[k], xpow), coeffs[k] * xpow, coeffs[k] * p, n);
    SumStep(n, acc, Eval(f, x), FMul(n, coeffs[k], xpow), coeffs[k] * p);
    SumStep(n, acc, Eval(f, x), PointMul(n, coeffs[k], xpow), coeffs[k] * p);
    FieldOps(n, xpow, x);
    CongScale(x, xpow, p, n);
    CongTrans(FMul(n, xpow, x), xpow * x, x * p, n);
  }

  lemma PowOneMore(x: int, k: nat)
    ensures Pow(x, k + 1) == x * Pow(x, k)
  {
  }

  /** The point an accumulator stands for. */
  function PointOf(acc: Option<Point>): Point { if acc.Some? then acc.value else 0 }

  /** eval_commitment_zero_const: nothing at all for an empty commitment. */
  method EvalCommitmentZeroConst(n: int, vs: seq<Point>, id: Scalar) returns (acc: Option<Point>)
    requires n > 0
    ensures acc == None <==> vs == []
    ensures PointOf(acc) == Eval([0] + vs, id) % n
  {
    acc := None;
    var idpow := id;
    NoTerms(n, vs, id);
    for k := 0 to |vs|
      invariant (acc == None <==> k == 0) && Cong(idpow, Pow(id, k + 1), n)
      invariant PointOf(acc) == Eval([0] + vs[..k], id) % n
    {
      var term := PointMul(n, vs[k], idpow);
      NextTerm(n, vs, id, k, PointOf(acc), idpow);
      SmallMod(term, n);
      acc := Some(match acc case None => term case Some(a) => PointAdd(n, a, term));
      idpow := FMul(n, idpow, id);
    }
    assert vs[..|vs|] == vs;
  }

  /** verify_zero_const_share */
  method VerifyZeroConstShare(n: int, vs: seq<Point>, id: Scalar, share: Scalar) returns (ok: bool)
    requires n > 0
    ensures ok <==> vs != [] && Cong(share, Eval([0] + vs, id), n)
  {
    hide Eval;
    var expected := EvalCommitmentZeroConst(n, vs, id);
    ok := expected.Some? && MulBase(n, share) == expected.value;
  }

  // ---------- round 1 ----------

  /** What a party deals: commitments to its coefficients, and each peer's value with a base-OT message. */
  method RoundOne(c: Config, own: Own) returns (selfShare: Scalar, bcast: R1Bcast, unicasts: seq<R1Unicast>)
    requires c.me < c.Count() && OwnOk(c, own)
    ensures selfShare == OwnDelta(c, own, c.me) && bcast.vss == Flatten(c.codec, own.poly)
    ensures |unicasts| == c.Count() - 1
    ensures forall k :: 0 <= k < |unicasts| ==> unicasts[k] == DealtUnicast(c, own, Other(c.me, k))
  {
    hide Eval, OtMessageOk, MySender;
    selfShare := EvalZeroConstPoly(c.n, own.poly, c.Id(c.me));
    bcast := R1Bcast(Flatten(c.codec, own.poly), own.pok);
    unicasts := [];
    for k := 0 to c.Count() - 1
      invariant |unicasts| == k && forall m :: 0 <= m < k ==> unicasts[m] == DealtUnicast(c, own, Other(c.me, m))
    {
      var j := Other(c.me, k);
      var share := EvalZeroConstPoly(c.n, own.poly, c.Id(j));
      unicasts := unicasts + [R1Unicast(BeMin(share), c.codec.coords(MulBase(c.n, own.y(j))), own.alpha(j),
        own.potT(j))];
    }
  }

  function DealtUnicast(c: Config, own: Own, j: nat): R1Unicast {
    R1Unicast(BeMin(OwnDelta(c, own, j)), c.codec.coords(MulBase(c.n, own.y(j))), own.alpha(j), own.potT(j))
  }

  /** An honest dealer whose coefficients are all non-zero passes every check of an honest receiver, given a base-OT
      message that the receiver accepts. */
  lemma HonestDeltaAccepted(a: Config, own: Own, b: Config, bc: R1Bcast)
    requires IsPrime(a.n) && a.codec.Valid(a.n) && OwnOk(a, own) && a.t > 0 && b == a.(me := b.me)
    requires bc.vss == Flatten(a.codec, own.poly)
    ensures DeltaOk(b, bc, DealtUnicast(a, own, b.me).share) <==> 0 !in own.poly
  {
    var v := OwnDelta(a, own, b.me);
    FlattenRoundTrip(a.codec, a.n, own.poly);
    hide Flatten, PointsOf, Eval, IsPrime, Codec.Valid, Cong;
    CongMod(Eval([0] + own.poly, a.Id(b.me)), a.n);
    BeMinValue(v);
    CanonicalIff(a.n, BeMin(v));
    hide BeMin, BeValue, IsCanonicalScalar, OwnDelta;
    SmallMod(v, a.n);
    SameIds(a, b);
  }

  // ---------- round 2 ----------

  datatype RefreshError =
    | Garbled | EchoRefused(e: EchoError) | WrongCoords(j: nat) | BadCommitments(j: nat) | NonCanonical(j: nat)
    | BadDelta(j: nat) | BadOt(j: nat) | BadR2(j: nat) | Inconsistent | InvalidNewKey

  /** The checks on one peer, in the code's order. */
  method CheckRefresher(c: Config, j: nat, bc: R1Bcast, uc: R1Unicast) returns (err: Option<RefreshError>)
    ensures err == None <==> RefresherOk(c, j, bc, uc)
    ensures err.Some? ==> !err.value.Inconsistent?
  {
    hide Cong, Eval, IsCanonicalScalar, OtMessageOk;
    if |bc.vss| != 2 * c.t { return Some(WrongCoords(j)); }
    var points := Unflatten(c.codec, bc.vss);
    if points.Err? { return Some(BadCommitments(j)); }
    if !IsCanonicalScalar(c.n, uc.share) { return Some(NonCanonical(j)); }
    var ok := VerifyZeroConstShare(c.n, points.value, c.Id(c.me), BeValue(uc.share) % c.n);
    if !ok { return Some(BadDelta(j)); }
    ok := CheckOtMessage(c, j, uc);
    if !ok { return Some(BadOt(j)); }
    return None;
  }

  /** What round 2 keeps and sends for the first m peers. */
  ghost predicate Kept(c: Config, bcasts: seq<R1Bcast>, unicasts: seq<R1Unicast>, peerVs: seq<seq<Point>>,
    peerShares: seq<Scalar>, m: nat)
  {
    && m <= |bcasts| == |unicasts| && |peerVs| == |peerShares| == m
    && forall k :: 0 <= k < m ==> peerVs[k] == PeerPoints(c, bcasts[k]) && peerShares[k] == PeerShare(c, unicasts[k])
  }

  ghost predicate Answered(c: Config, own: Own, unicasts: seq<R1Unicast>, receivers: seq<Receiver>, sent: seq<R2>,
    m: nat) {
    && own.Drawn() && m <= |unicasts| && |receivers| == |sent| == m
    && forall k :: 0 <= k < m ==>
      receivers[k] == MyReceiver(c, own, unicasts[k], Other(c.me, k)) && sent[k] == OwnR2(c, own, unicasts[k],
        Other(c.me, k))
  }

  method CheckRefreshers(c: Config, own: Own, bcasts: seq<R1Bcast>, ucs: seq<R1Unicast>)
    returns (err: Option<RefreshError>, peerVs: seq<seq<Point>>, peerShares: seq<Scalar>, receivers: seq<Receiver>,
      sent: seq<R2>)
    requires c.me < c.Count() && own.Drawn() && |bcasts| == |ucs| == c.Count() - 1
    ensures err == None <==> AllRefreshersOk(c, bcasts, ucs)
    ensures err.Some? ==> !err.value.Inconsistent?
    ensures err == None ==>
      Kept(c, bcasts, ucs, peerVs, peerShares, |bcasts|) && Answered(c, own, ucs, receivers, sent, |ucs|)
  {
    hide RefresherOk, PeerPoints, PeerShare, MyReceiver, OwnR2;
    peerVs, peerShares, receivers, sent := [], [], [], [];
    for k := 0 to |bcasts|
      invariant forall m :: 0 <= m < k ==> RefresherOk(c, Other(c.me, m), bcasts[m], ucs[m])
      invariant Kept(c, bcasts, ucs, peerVs, peerShares, k) && Answered(c, own, ucs, receivers, sent, k)
    {
      var j := Other(c.me, k);
      err := CheckRefresher(c, j, bcasts[k], ucs[k]);
      if err.Some? { return; }
      peerVs, peerShares := peerVs + [PeerPoints(c, bcasts[k])], peerShares + [PeerShare(c, ucs[k])];
      receivers, sent := receivers + [MyReceiver(c, own, ucs[k], j)], sent + [OwnR2(c, own, ucs[k], j)];
    }
    err := None;
  }

  // ---------- finalize ----------

  /** old x_i plus the own value and the peers' */
  method AddDeltas(rc: RefreshConfig, own: Own, mine: Scalar, ghost unicasts: seq<R1Unicast>,
    peerShares: seq<Scalar>) returns (xi: Scalar)
    requires mine == OwnDelta(rc.base, own, rc.base.me) && |peerShares| == |unicasts|
    requires forall k :: 0 <= k < |unicasts| ==> peerShares[k] == PeerShare(rc.base, unicasts[k])
    ensures xi == NewShare(rc, own, unicasts)
  {
    hide PeerShare, OwnDelta;
    var delta := mine;
    SmallMod(mine, rc.base.n);
    for k := 0 to |peerShares|
      invariant delta == (OwnDelta(rc.base, own, rc.base.me) + PeerShareSum(rc.base, unicasts, k)) % rc.base.n
    {
      SumStep(rc.base.n, delta, OwnDelta(rc.base, own, rc.base.me) + PeerShareSum(rc.base, unicasts, k), peerShares[k],
        peerShares[k]);
      delta := FAdd(rc.base.n, delta, peerShares[k]);
    }
    xi := FAdd(rc.base.n, rc.prior.xi, delta);
  }

  /** The dealers' sum at one id, with nothing standing for the identity. */
  method SumCommitments(c: Config, ownVs: seq<Point>, peerVs: seq<seq<Point>>, id: Scalar, ghost vss: seq<seq<Point>>)
    returns (acc: Option<Point>)
    requires c.me < c.Count() == |vss| && |peerVs| == c.Count() - 1
    requires vss[c.me] == [0] + ownVs && forall k :: 0 <= k < |peerVs| ==> vss[Other(c.me, k)] == [0] + peerVs[k]
    ensures PointOf(acc) == SumEval(vss, id, |vss|) % c.n
  {
    hide Eval;
    acc := EvalCommitmentZeroConst(c.n, ownVs, id);
    for k := 0 to |peerVs|
      invariant PointOf(acc) == (Eval(vss[c.me], id) + OthersEval(vss, c.me, id, k)) % c.n
    {
      var term := EvalCommitmentZeroConst(c.n, peerVs[k], id);
      var e := Eval(vss[Other(c.me, k)], id);
      CongMod(e, c.n);
      SumStep(c.n, PointOf(acc), Eval(vss[c.me], id) + OthersEval(vss, c.me, id, k), PointOf(term), e);
      ghost var before := acc;
      acc :=
        if acc.Some? && term.Some? then Some(PointAdd(c.n, acc.value, term.value)) else if acc.Some? then acc else term;
      MergedPoint(c.n, before, term, acc, Eval(vss[c.me], id) + OthersEval(vss, c.me, id, k), e);
    }
    OwnFirst(vss, c.me, id, |vss|);
  }

  /** Leaving out an absent summand is adding the identity. */
  lemma MergedPoint(n: int, a: Option<Point>, b: Option<Point>, r: Option<Point>, x: int, y: int)
    requires n > 0 && PointOf(a) == x % n && PointOf(b) == y % n
    requires r == if a.Some? && b.Some? then Some(PointAdd(n, a.value, b.value)) else if a.Some? then a else b
    ensures PointOf(r) == FAdd(n, PointOf(a), PointOf(b))
  {
    SmallMod(x % n, n);
    SmallMod(y % n, n);
  }

  method MovePoints(rc: RefreshConfig, ownVs: seq<Point>, peerVs: seq<seq<Point>>,
    ghost vss: seq<seq<Point>>) returns (big: seq<Point>)
    requires rc.base.me < rc.base.Count() == |vss| == |rc.prior.bigXj| && |peerVs| == rc.base.Count() - 1
    requires Reduced(rc.base.n, rc.prior.bigXj)
    requires vss[rc.base.me] == [0] + ownVs && forall k :: 0 <= k < |peerVs| ==>
      vss[Other(rc.base.me, k)] == [0] + peerVs[k]
    ensures big == NewPoints(rc, vss)
  {
    hide SumEval;
    big := [];
    for j := 0 to rc.base.Count()
      invariant |big| == j && forall d :: 0 <= d < j ==> big[d] == NewPoint(rc, vss, d)
    {
      var deltaG := SumCommitments(rc.base, ownVs, peerVs, rc.base.Id(j), vss);
      SmallMod(rc.prior.bigXj[j], rc.base.n);
      var moved := match deltaG
        case Some(d) => PointAdd(rc.base.n, rc.prior.bigXj[j], d)
        case None => rc.prior.bigXj[j];
      big := big + [moved];
    }
  }

  /** What round 2 left behind: reports and shares verified, peers' data kept. */
  ghost predicate PeersIn(rc: RefreshConfig, own: Own, st: State, u: Transcript) {
    && u.bcasts == st.r1Bcasts && EchoesAgree(rc.base, own, u.bcasts, u.echoes) && AllRefreshersOk(rc.base, u.bcasts,
      u.unicasts)
    && |st.peerVs| == |u.bcasts| && (forall k :: 0 <= k < |u.bcasts| ==> st.peerVs[k] == PeerPoints(rc.base,
      u.bcasts[k]))
    && Answered(rc.base, own, u.unicasts, st.receivers, st.sentR2, |u.unicasts|)
  }

  ghost predicate SharesIn(rc: RefreshConfig, own: Own, st: State, u: Transcript) {
    && st.selfShare == OwnDelta(rc.base, own, rc.base.me) && |st.peerShares| == |u.unicasts|
    && forall k :: 0 <= k < |u.unicasts| ==> st.peerShares[k] == PeerShare(rc.base, u.unicasts[k])
  }

  lemma VssOf(c: Config, own: Own, bcasts: seq<R1Bcast>, peerVs: seq<seq<Point>>)
    requires c.me < c.Count() && |bcasts| == |peerVs| == c.Count() - 1
    requires forall k :: 0 <= k < |bcasts| ==> peerVs[k] == PeerPoints(c, bcasts[k])
    ensures var vss := ZeroVss(c, own, bcasts);
      |vss| == c.Count() && vss[c.me] == [0] + own.poly && forall k :: 0 <= k < |peerVs| ==>
        vss[Other(c.me, k)] == [0] + peerVs[k]
  {
    hide PeerPoints;
    forall k | 0 <= k < |peerVs| ensures Slot(c.me, Other(c.me, k)) == k && Other(c.me, k) != c.me { }
  }

  /** The new share, the new public shares, the check of one against the other, and the rotated OT state. */
  method BuildKey(rc: RefreshConfig, own: Own, st: State, r2s: seq<R2>, ghost u: Transcript) returns (res: Result<Key,
    RefreshError>)
    requires rc.Valid() && OwnOk(rc.base, own) && PeersIn(rc, own, st, u) && SharesIn(rc, own, st, u)
    requires |r2s| == rc.base.Count() - 1
    ensures res.Ok? ==> RefreshDone(rc, own, u.(r2s := r2s), res.value)
    ensures rc.base.me < |rc.prior.bigXj| && (res == Err(Inconsistent) <==> !Cong(rc.prior.xi,
      rc.prior.bigXj[rc.base.me], rc.base.n))
    ensures res.Ok? <==>
      && Cong(rc.prior.xi, rc.prior.bigXj[rc.base.me], rc.base.n) && AllResponsesOk(rc.base, r2s)
      && Basic(rc.base.n, RefreshedKey(rc, own, u.(r2s := r2s)))
  {
    hide *;
    var c := rc.base;
    ConfigParts(rc, own);
    PeersParts(rc, own, st, u);
    SharesParts(rc, own, st, u);
    ghost var vss := ZeroVss(c, own, u.bcasts);
    VssOf(c, own, u.bcasts, st.peerVs);
    var xi := AddDeltas(rc, own, st.selfShare, u.unicasts, st.peerShares);
    var big := MovePoints(rc, own.poly, st.peerVs, vss);
    CheckExact(rc, own, u.bcasts, u.unicasts);
    PointsAt(rc, vss, c.me);
    ShareMeets(rc, own, u.unicasts);
    if MulBase(c.n, xi) != big[c.me] { return Err(Inconsistent); }
    var bad, ot := KeygenParty.AssembleStates(c, own, st.receivers, u.unicasts, r2s);
    if bad.Some? { return Err(BadR2(bad.value)); }
    var key := rc.prior.(xi := xi, bigXj := big, ot := ot);
    KeyIs(rc, own, u.(r2s := r2s), key);
    var valid := ValidateBasic(c.n, key);
    if !valid { return Err(InvalidNewKey); }
    DoneIntro(rc, own, u.(r2s := r2s), key);
    return Ok(key);
  }

  lemma ConfigParts(rc: RefreshConfig, own: Own)
    requires rc.Valid() && OwnOk(rc.base, own)
    ensures rc.base.n > 0 && rc.base.me < rc.base.Count() == |rc.prior.bigXj| && Reduced(rc.base.n, rc.prior.bigXj)
    ensures own.Drawn()
  {
    hide Codec.Valid, Oracle.Valid, Own.Drawn;
  }

  lemma PeersParts(rc: RefreshConfig, own: Own, st: State, u: Transcript)
    requires PeersIn(rc, own, st, u)
    ensures u.bcasts == st.r1Bcasts && EchoesAgree(rc.base, own, u.bcasts, u.echoes)
    ensures AllRefreshersOk(rc.base, u.bcasts, u.unicasts)
    ensures |st.peerVs| == |u.bcasts| == |u.unicasts| == |st.receivers| == rc.base.Count() - 1
    ensures forall k :: 0 <= k < |u.bcasts| ==> st.peerVs[k] == PeerPoints(rc.base, u.bcasts[k])
    ensures forall k :: 0 <= k < |st.receivers| ==>
      st.receivers[k] == MyReceiver(rc.base, own, u.unicasts[k], Other(rc.base.me, k))
  {
    hide EchoesAgree, RefresherOk, PeerPoints, MyReceiver, OwnR2, Own.Drawn;
  }

  lemma SharesParts(rc: RefreshConfig, own: Own, st: State, u: Transcript)
    requires SharesIn(rc, own, st, u)
    ensures st.selfShare == OwnDelta(rc.base, own, rc.base.me) && |st.peerShares| == |u.unicasts|
    ensures forall k :: 0 <= k < |u.unicasts| ==> st.peerShares[k] == PeerShare(rc.base, u.unicasts[k])
  {
    hide OwnDelta, PeerShare;
  }

  lemma PointsAt(rc: RefreshConfig, vss: seq<seq<Point>>, j: nat)
    requires j < rc.base.Count()
    ensures |NewPoints(rc, vss)| == rc.base.Count() && NewPoints(rc, vss)[j] == NewPoint(rc, vss, j)
  {
    hide NewPoint;
  }

  lemma ShareMeets(rc: RefreshConfig, own: Own, unicasts: seq<R1Unicast>)
    ensures MulBase(rc.base.n, NewShare(rc, own, unicasts)) == NewShare(rc, own, unicasts)
  {
    hide NewShare;
    SmallMod(NewShare(rc, own, unicasts), rc.base.n);
  }

  lemma KeyIs(rc: RefreshConfig, own: Own, tr: Transcript, key: Key)
    requires key == rc.prior.(xi := NewShare(rc, own, tr.unicasts), bigXj := NewPoints(rc,
      ZeroVss(rc.base, own, tr.bcasts)),
      ot := OtStates(rc.base, own, tr.unicasts, tr.r2s))
    ensures key == RefreshedKey(rc, own, tr)
  {
  }

  lemma DoneIntro(rc: RefreshConfig, own: Own, tr: Transcript, key: Key)
    requires rc.Valid() && OwnOk(rc.base, own) && EchoesAgree(rc.base, own, tr.bcasts, tr.echoes)
    requires AllRefreshersOk(rc.base, tr.bcasts, tr.unicasts) && AllResponsesOk(rc.base, tr.r2s)
    requires key == RefreshedKey(rc, own, tr) && rc.base.n > 0 && Basic(rc.base.n, key)
    requires rc.base.me < |key.bigXj| && key.xi == key.bigXj[rc.base.me]
    ensures RefreshDone(rc, own, tr, key)
  {
    hide EchoesAgree, AllRefreshersOk, AllResponsesOk, RefreshedKey, Basic, OwnOk;
  }

  // ---------- the handlers ----------

  /** The state under the mutex, what has been sent, and the handlers registered so far. */
  datatype State = State(r1Bcasts: seq<R1Bcast>, r1Unicasts: seq<R1Unicast>, haveBcasts: bool, haveUnicasts: bool,
    selfShare: Scalar, peerVs: seq<seq<Point>>, peerShares: seq<Scalar>, receivers: seq<Receiver>,
    sentEcho: Option<EchoMsg>, sentR2: seq<R2>, awaitEcho: bool, echoed: bool, awaitR2: bool, settled: bool)

  ghost predicate StateOk(rc: RefreshConfig, own: Own, st: State, u: Transcript) {
    && (st.haveBcasts ==> |st.r1Bcasts| == rc.base.Count() - 1)
    && (st.haveUnicasts && !st.echoed ==> |st.r1Unicasts| == rc.base.Count() - 1)
    && (st.awaitEcho <==> st.haveBcasts && st.haveUnicasts)
    && (st.awaitEcho ==> st.sentEcho == Some(OwnEcho(rc.base, st.r1Bcasts)))
    && (!st.settled ==> st.selfShare == OwnDelta(rc.base, own, rc.base.me))
    && (st.echoed ==> st.awaitEcho) && (st.awaitR2 ==> st.echoed && PeersIn(rc, own, st,
      u)) && (st.settled ==> st.awaitR2)
    && (st.awaitR2 && !st.settled ==> SharesIn(rc, own, st, u))
  }

  // ---------- steps of the invariant ----------

  /** Broadcasts or unicasts have been stored; the second of the two sends the echo. */
  lemma AfterJoin(rc: RefreshConfig, own: Own, st: State, u: Transcript, st': State)
    requires StateOk(rc, own, st, u) && !st.awaitEcho && st'.awaitEcho == (st'.haveBcasts && st'.haveUnicasts)
    requires st' == st.(r1Bcasts := st'.r1Bcasts, r1Unicasts := st'.r1Unicasts, haveBcasts := st'.haveBcasts,
      haveUnicasts := st'.haveUnicasts, sentEcho := st'.sentEcho, awaitEcho := st'.awaitEcho)
    requires st'.haveBcasts ==> |st'.r1Bcasts| == rc.base.Count() - 1
    requires st'.haveUnicasts ==> |st'.r1Unicasts| == rc.base.Count() - 1
    requires st'.awaitEcho ==> st'.sentEcho == Some(OwnEcho(rc.base, st'.r1Bcasts))
    ensures StateOk(rc, own, st', u)
  {
    hide PeersIn, SharesIn, OwnEcho, OwnDelta;
  }

  /** The unicasts have been taken out for round 2. */
  lemma AfterTaken(rc: RefreshConfig, own: Own, st: State, u: Transcript)
    requires StateOk(rc, own, st, u) && st.awaitEcho && !st.awaitR2
    ensures StateOk(rc, own, st.(r1Unicasts := [], echoed := true), u)
  {
    hide PeersIn, SharesIn, OwnEcho, OwnDelta;
  }

  lemma AfterRoundTwo(rc: RefreshConfig, own: Own, st: State, u: Transcript, ucs: seq<R1Unicast>, echoes: seq<EchoMsg>,
    peerVs: seq<seq<Point>>, peerShares: seq<Scalar>, receivers: seq<Receiver>, sent: seq<R2>)
    requires StateOk(rc, own, st, u) && st.echoed && !st.awaitR2 && EchoesAgree(rc.base, own, st.r1Bcasts, echoes)
    requires AllRefreshersOk(rc.base, st.r1Bcasts, ucs)
    requires Kept(rc.base, st.r1Bcasts, ucs, peerVs, peerShares, |st.r1Bcasts|)
    requires Answered(rc.base, own, ucs, receivers, sent, |ucs|)
    ensures StateOk(rc, own,
      st.(peerVs := peerVs, peerShares := peerShares, receivers := receivers, sentR2 := sent, awaitR2 := true),
      u.(bcasts := st.r1Bcasts, unicasts := ucs, echoes := echoes))
  {
    hide EchoesAgree, AllRefreshersOk, OwnEcho, OwnDelta, PeerPoints, PeerShare, Answered;
  }

  lemma AfterSettled(rc: RefreshConfig, own: Own, st: State, u: Transcript, r2s: seq<R2>)
    requires StateOk(rc, own, st, u) && st.awaitR2
    ensures StateOk(rc, own, st.(selfShare := 0, peerShares := [], settled := true), u.(r2s := r2s))
  {
    hide EchoesAgree, AllRefreshersOk, OwnEcho, OwnDelta, PeerPoints, PeerShare, Answered;
  }

  class Shared {
    const rc: RefreshConfig
    const own: Own

    var st: State
    var resultTx: bool
    var deliveries: seq<Result<Key, RefreshError>>

    /** The messages used so far. */
    ghost var u: Transcript

    /** At most one result; a delivered key is backed by agreeing echoes, verified shares and the consistency check. */
    ghost predicate Inv() reads this {
      && rc.Valid() && OwnOk(rc.base, own) && StateOk(rc, own, st, u)
      && |deliveries| <= 1 && (resultTx <==> deliveries == [])
      && (deliveries != [] && deliveries[0].Ok? ==> st.settled && RefreshDone(rc, own, u, deliveries[0].value))
    }

    ghost predicate NoKey() reads this { deliveries != [] ==> deliveries[0].Err? }

    constructor (rc: RefreshConfig, own: Own, selfShare: Scalar)
      requires rc.Valid() && OwnOk(rc.base, own) && selfShare == OwnDelta(rc.base, own, rc.base.me)
      ensures Inv() && deliveries == [] && this.rc == rc && this.own == own
      ensures !st.haveBcasts && !st.haveUnicasts && !st.echoed && !st.awaitR2 && !st.settled
    {
      this.rc, this.own := rc, own;
      st := State([], [], false, false, selfShare, [], [], [], None, [], false, false, false, false);
      resultTx, deliveries := true, [];
      u := Transcript([], [], [], []);
    }

    method Deliver(res: Result<Key, RefreshError>)
      requires Inv() && NoKey() && (res.Ok? ==> st.settled && RefreshDone(rc, own, u, res.value))
      modifies this`resultTx, this`deliveries
      ensures Inv() && (res.Err? ==> NoKey())
      ensures deliveries == (if old(deliveries) == [] then [res] else old(deliveries))
    {
      hide StateOk, RefreshDone, RefreshConfig.Valid, OwnOk;
      if resultTx {
        resultTx := false;
        deliveries := deliveries + [res];
      }
    }

    method Move(st': State, ghost u': Transcript)
      requires Inv() && NoKey() && StateOk(rc, own, st', u')
      modifies this`st, this`u
      ensures Inv() && NoKey() && st == st' && u == u'
    {
      hide StateOk, RefreshDone, RefreshConfig.Valid, OwnOk;
      st := st';
      u := u';
    }

    method OnR1Bcasts(msgs: seq<Option<R1Bcast>>)
      requires Inv() && NoKey() && !st.haveBcasts && |msgs| == rc.base.Count() - 1
      modifies this
      ensures Inv() && NoKey() && (st.haveBcasts || deliveries != [])
      ensures st.haveUnicasts == old(st.haveUnicasts) && !st.settled
      ensures st.haveBcasts ==> Decoded(msgs) && st.r1Bcasts == Payloads(msgs)
      ensures old(deliveries) <= deliveries && st.echoed == old(st.echoed) && st.awaitR2 == old(st.awaitR2)
    {
      hide StateOk, RefreshDone, RefreshConfig.Valid, OwnOk, OwnEcho;
      StateFacts(rc, own, st, u);
      if !Decoded(msgs) {
        Deliver(Err(Garbled));
        return;
      }
      var ready := st.haveUnicasts;
      var st' := st.(r1Bcasts := Payloads(msgs), haveBcasts := true, awaitEcho := ready,
        sentEcho := if ready then Some(OwnEcho(rc.base, Payloads(msgs))) else st.sentEcho);
      AfterJoin(rc, own, st, u, st');
      Move(st', u);
    }

    method OnR1Unicasts(msgs: seq<Option<R1Unicast>>)
      requires Inv() && NoKey() && !st.haveUnicasts && |msgs| == rc.base.Count() - 1
      modifies this
      ensures Inv() && NoKey() && (st.haveUnicasts || deliveries != [])
      ensures st.haveBcasts == old(st.haveBcasts) && !st.settled
      ensures st.haveUnicasts ==> Decoded(msgs) && st.r1Unicasts == Payloads(msgs)
      ensures old(deliveries) <= deliveries && st.echoed == old(st.echoed) && st.awaitR2 == old(st.awaitR2)
    {
      hide StateOk, RefreshDone, RefreshConfig.Valid, OwnOk, OwnEcho;
      StateFacts(rc, own, st, u);
      if !Decoded(msgs) {
        Deliver(Err(Garbled));
        return;
      }
      var ready := st.haveBcasts;
      var st' := st.(r1Unicasts := Payloads(msgs), haveUnicasts := true, awaitEcho := ready,
        sentEcho := if ready then Some(OwnEcho(rc.base, st.r1Bcasts)) else st.sentEcho);
      AfterJoin(rc, own, st, u, st');
      Move(st', u);
    }

    /** The echoes are checked, then every peer's commitments, share and base-OT message. */
    method OnEchoes(msgs: seq<Option<EchoMsg>>)
      requires Inv() && NoKey() && st.awaitEcho && !st.echoed && |msgs| == rc.base.Count() - 1
      modifies this
      ensures Inv() && NoKey() && !st.settled && (st.awaitR2 || deliveries != [])
      ensures st.haveBcasts == old(st.haveBcasts) && st.haveUnicasts == old(st.haveUnicasts)
      ensures old(deliveries) <= deliveries
    {
      hide StateOk, RefreshDone, RefreshConfig.Valid, OwnOk, OwnEcho, EchoesAgree;
      StateFacts(rc, own, st, u);
      ConfigParts(rc, own);
      if !Decoded(msgs) {
        Deliver(Err(Garbled));
        return;
      }
      var bad := CheckReports(rc.base, own, st.r1Bcasts, Payloads(msgs));
      if bad.Some? {
        Deliver(Err(EchoRefused(bad.value)));
        return;
      }
      RoundTwo(Payloads(msgs));
    }

    method RoundTwo(ghost echoes: seq<EchoMsg>)
      requires Inv() && NoKey() && st.awaitEcho && !st.echoed && EchoesAgree(rc.base, own, st.r1Bcasts, echoes)
      modifies this
      ensures Inv() && NoKey() && !st.settled && (st.awaitR2 || deliveries != [])
      ensures st.haveBcasts == old(st.haveBcasts) && st.haveUnicasts == old(st.haveUnicasts)
      ensures old(deliveries) <= deliveries
    {
      hide StateOk, RefreshDone, RefreshConfig.Valid, OwnOk, OwnEcho, EchoesAgree, AllRefreshersOk, Kept, Answered;
      StateFacts(rc, own, st, u);
      ConfigParts(rc, own);
      var ucs := st.r1Unicasts;
      AfterTaken(rc, own, st, u);
      Move(st.(r1Unicasts := [], echoed := true), u);
      var err, peerVs, peerShares, receivers, sent := CheckRefreshers(rc.base, own, st.r1Bcasts, ucs);
      if err.Some? {
        Deliver(Err(err.value));
        return;
      }
      AfterRoundTwo(rc, own, st, u, ucs, echoes, peerVs, peerShares, receivers, sent);
      Move(st.(peerVs := peerVs, peerShares := peerShares, receivers := receivers, sentR2 := sent, awaitR2 := true),
        u.(bcasts := st.r1Bcasts, unicasts := ucs, echoes := echoes));
    }

    /** Builds, checks and delivers the key; the individual shares are dropped. */
    method Finalize(msgs: seq<Option<R2>>)
      requires Inv() && NoKey() && st.awaitR2 && !st.settled && |msgs| == rc.base.Count() - 1
      modifies this
      ensures Inv() && |deliveries| == 1 && st.awaitEcho && st.echoed && st.awaitR2 && (st.settled || NoKey())
      ensures deliveries[0].Ok? ==> RefreshDone(rc, own, u, deliveries[0].value)
      ensures old(deliveries) <= deliveries
    {
      hide StateOk, RefreshDone, RefreshConfig.Valid, OwnOk, PeersIn, SharesIn;
      StateFacts(rc, own, st, u);
      if !Decoded(msgs) {
        Deliver(Err(Garbled));
        return;
      }
      var r2s := Payloads(msgs);
      var res := BuildKey(rc, own, st, r2s, u);
      AfterSettled(rc, own, st, u, r2s);
      Move(st.(selfShare := 0, peerShares := [], settled := true), u.(r2s := r2s));
      Deliver(res);
    }
  }

  lemma StateFacts(rc: RefreshConfig, own: Own, st: State, u: Transcript)
    requires StateOk(rc, own, st, u)
    ensures st.awaitEcho <==> st.haveBcasts && st.haveUnicasts
    ensures (st.echoed ==> st.awaitEcho) && (st.awaitR2 ==> st.echoed)
    ensures (st.settled ==> st.awaitR2) && (st.haveBcasts ==> |st.r1Bcasts| == rc.base.Count() - 1)
    ensures st.haveUnicasts && !st.echoed ==> |st.r1Unicasts| == rc.base.Count() - 1
    ensures st.awaitR2 ==> PeersIn(rc, own, st, u) && (!st.settled ==> SharesIn(rc, own, st, u))
    ensures st.awaitEcho ==> st.sentEcho == Some(OwnEcho(rc.base, st.r1Bcasts))
  {
    hide PeersIn, SharesIn, OwnEcho, OwnDelta;
  }

  /** The reports of all peers against this party's view. */
  method CheckReports(c: Config, own: Own, bcasts: seq<R1Bcast>, echoes: seq<EchoMsg>) returns (bad: Option<EchoError>)
    requires c.me < c.Count() && |echoes| == c.Count() - 1
    ensures bad == None ==> EchoesAgree(c, own, bcasts, echoes)
    ensures EchoesAgree(c, own, bcasts, echoes) ==>
      (forall k :: 0 <= k < |echoes| ==> |echoes[k].digests| <= c.Count()) ==> bad == None
  {
    hide Agrees, MyDigest;
    var mine := MyDigestMap(c, own, bcasts);
    bad := VerifyEchoes(mine, c.me, OtherParties(c.Count(), c.me), echoes, Everyone(c.Count(), c.me));
  }

  // ---------- any run ----------

  /** RefreshParty::new: an invalid key and a committee other than the key's own are refused before the dealing. */
  method Start(base: Config, prior: Key, own: Own) returns (party: Option<Shared>)
    requires IsPrime(base.n) && base.codec.Valid(base.n) && base.oracle.Valid() && base.me < base.Count()
    requires base.t == prior.t
    requires 0 <= prior.xi < base.n && 0 <= prior.ecdsaPub < base.n && Reduced(base.n, prior.bigXj) && OwnOk(base, own)
    ensures party.Some? <==> Basic(base.n, prior) && base.partyIds == prior.partyIds
    ensures party.Some? ==>
      var p := party.value; fresh(p) && p.Inv() && p.deliveries == [] && !p.st.haveBcasts && !p.st.haveUnicasts
  {
    hide Basic, IsPrime, Codec.Valid, Oracle.Valid, OwnDelta;
    var ok := ValidateBasic(base.n, prior);
    if !ok || base.partyIds != prior.partyIds { return None; }
    var selfShare, bcast, unicasts := RoundOne(base, own);
    var p := new Shared(RefreshConfig(base, prior), own, selfShare);
    return Some(p);
  }

  datatype Event =
    | BcastsArrive(bcasts: seq<Option<R1Bcast>>)
    | UnicastsArrive(unicasts: seq<Option<R1Unicast>>)
    | EchoesArrive(echoes: seq<Option<EchoMsg>>)
    | ResponsesArrive(responses: seq<Option<R2>>)

  /** Every run: at most one result, and a key only after every report and every share verified, under the old public
      key and chain code; once all four sets of messages have arrived exactly one result has been delivered. */
  method Run(party: Shared, events: seq<Event>) returns (all: bool)
    requires party.Inv() && party.deliveries == [] && !party.st.haveBcasts && !party.st.haveUnicasts
    modifies party
    ensures party.Inv() && |party.deliveries| <= 1
    ensures party.deliveries != [] && party.deliveries[0].Ok? ==>
      && RefreshDone(party.rc, party.own, party.u, party.deliveries[0].value)
      && party.deliveries[0].value.ecdsaPub == party.rc.prior.ecdsaPub
      && party.deliveries[0].value.chainCode == party.rc.prior.chainCode
    ensures all ==> |party.deliveries| == 1
  {
    hide StateOk, RefreshDone, RefreshConfig.Valid, OwnOk, PeersIn, SharesIn, OwnEcho;
    var gotB, gotU, gotE, gotR := false, false, false, false;
    StateFacts(party.rc, party.own, party.st, party.u);
    for i := 0 to |events|
      invariant party.Inv() && (gotR || party.NoKey()) && (!gotR ==> !party.st.settled)
      invariant (party.st.haveBcasts ==> gotB) && (party.st.haveUnicasts ==> gotU) && (party.st.echoed ==> gotE)
      invariant gotB ==> party.st.haveBcasts || party.deliveries != []
      invariant gotU ==> party.st.haveUnicasts || party.deliveries != []
      invariant gotE ==> party.st.awaitR2 || party.deliveries != []
      invariant gotR ==> party.deliveries != [] && gotB && gotU && gotE
    {
      StateFacts(party.rc, party.own, party.st, party.u);
      var others := party.rc.base.Count() - 1;
      match events[i] {
        case BcastsArrive(m) =>
          if !gotB && |m| == others {
            gotB := true;
            party.OnR1Bcasts(m);
          }
        case UnicastsArrive(m) =>
          if !gotU && |m| == others {
            gotU := true;
            party.OnR1Unicasts(m);
          }
        case EchoesArrive(m) =>
          if party.st.awaitEcho && !gotE && |m| == others {
            gotE := true;
            party.OnEchoes(m);
          }
        case ResponsesArrive(m) =>
          if party.st.awaitR2 && !gotR && |m| == others {
            gotR := true;
            party.Finalize(m);
          }
      }
      StateFacts(party.rc, party.own, party.st, party.u);
    }
    all := gotB && gotU && gotE && gotR;
    if party.deliveries != [] && party.deliveries[0].Ok? {
      PublicKept(Refresher(party.rc, party.own, party.u, party.deliveries[0].value));
    }
  }

  /** What one party of a run ended with. */
  ghost predicate Ended(p: Shared, a: Refresher)
    reads p
  {
    p.Inv() && p.deliveries == [Ok(a.key)] && a.rc == p.rc && a.own == p.own && a.tr == p.u
  }

  /** The echo q recorded as sent is the one p used. */
  ghost predicate EchoTaken(p: Shared, q: Shared)
    reads p, q
  {
    var slot := Slot(p.rc.base.me, q.rc.base.me);
    slot < |p.u.echoes| && q.st.sentEcho == Some(p.u.echoes[slot])
  }

  /** Any two runs of one session that deliver keys and took each other's echoes agree on everything public. */
  lemma RunsAgree(p: Shared, q: Shared, a: Refresher, b: Refresher)
    requires Ended(p, a) && Ended(q, b) && SameRefresh(a, b) && CollisionFree(p.rc.base.digest)
    requires EchoTaken(p, q) && EchoTaken(q, p)
    ensures a.key.bigXj == b.key.bigXj && a.key.ecdsaPub == b.key.ecdsaPub && a.key.chainCode == b.key.chainCode
  {
    hide RefreshDone, CollisionFree, OwnEcho;
    EndedEcho(p, a);
    EndedEcho(q, b);
    RefreshersAgree(a, b);
  }

  lemma EndedEcho(p: Shared, a: Refresher)
    requires Ended(p, a)
    ensures a.Done() && p.st.sentEcho == Some(OwnEcho(p.rc.base, p.u.bcasts))
  {
    hide RefreshDone, OwnEcho, RefreshConfig.Valid, OwnOk, SharesIn, EchoesAgree, AllRefreshersOk, Answered;
  }
}
