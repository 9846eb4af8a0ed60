/** GG18 threshold signing (src/ecdsatss/signing.rs): the rounds of one party over the state they share. */
module GgSigning {
  import opened NumberTheory
  import opened Polynomial
  import opened Results
  import opened Bn
  import opened Paillier
  import opened Secp
  import opened Committee
  import opened Sums
  import opened Lagrange
  import opened Mta
  import opened KeyConsistency

  datatype GgError =
    | BadHash | BadKey(key: KeyError) | BadPeerParams | IndexOutOfRange | ShareMismatch | TooFewParties | DuplicateIndex
    | Undecodable | BadRangeProof | BadProofBob | WcPartCount | MtaFailed(mta: MtaError) | ThetaNotInvertible
    | BadGamma | BadOpening | OffCurvePub | NotConsistent | FinalVerification

  datatype SignatureData = SignatureData(r: nat, s: Scalar, recovery: nat, m: Scalar)

  /** What a session never changes. The openings stand for decommitting a payload against an earlier commitment, mapping
      the coordinates to points and verifying the proofs that come with them. */
  datatype Env = Env(g: Setting, c: Curve, count: nat, me: nat, sk: PrivateKey, rings: seq<Ring>, moduli: seq<nat>,
    pub: Option<Point>, m: Scalar, context: nat -> string,
    openGamma: (nat, nat, nat) -> Option<Point>, openVA: (nat, nat, Point, nat) -> Option<(Point, Point)>,
    openUT: (nat, nat) -> Option<(Point, Point)>)
  {
    /** With a single party no conversion is run and the Paillier and ring parameters may be zero placeholders. */
    predicate Valid() {
      && g.q > 0 && c.n == g.q && me < count && |rings| == |moduli| == count
      && (count > 1 ==> sk.n > 0 && sk.n * sk.n > 0)
      && (count > 1 ==> forall j :: 0 <= j < count ==> rings[j].nt > 0 && moduli[j] > 0 && moduli[j] * moduli[j] > 0)
    }
  }

  datatype R1Proof = R1Proof(c: nat, range: Option<RangeProof>)
  datatype R2Msg = R2Msg(c1: nat, bob: Option<BobProof>, c2: nat, wcParts: nat, bobWc: Option<BobProof>)

  datatype State = State(
    k: nat, gamma: nat, pointGamma: Point, w: nat, bigWs: seq<Point>, cis: seq<Option<nat>>,
    betas: seq<Option<nat>>, vs: seq<Option<nat>>, r1Proofs: seq<R1Proof>, r1Commitments: seq<Option<nat>>, r1Join: nat,
    theta: Scalar, sigma: Scalar, thetaInverse: Scalar,
    si: Scalar, bigR: Point, li: Scalar, roi: Scalar, bigAi: Point, bigVi: Point, r5Commitments: seq<Option<nat>>,
    ui: Point, ti: Point, r7Commitments: seq<Option<nat>>, result: Option<Result<SignatureData, GgError>>)

  function Held(xs: seq<Option<nat>>, j: nat): nat { if j < |xs| && xs[j].Some? then xs[j].value else 0 }

  function PointAt(xs: seq<Point>, j: nat): Point { if j < |xs| then xs[j] else 0 }

  function Store(xs: seq<Option<nat>>, j: nat, v: nat): (r: seq<Option<nat>>)
    ensures |r| == |xs| && forall i :: 0 <= i < |xs| ==> r[i] == if i == j then Some(v) else xs[i]
  {
    if j < |xs| then xs[j := Some(v)] else xs
  }

  /** deliver: only the first result is kept. */
  function Deliver(st: State, r: Result<SignatureData, GgError>): (d: State)
    ensures st.result.Some? ==> d == st
    ensures st.result.None? ==> d.result == Some(r) && d.(result := None) == st
  {
    if st.result.None? then st.(result := Some(r)) else st
  }

  /** A round ends in a new state or delivers its error. */
  function Settle(st: State, r: Result<State, GgError>): State {
    match r case Ok(s) => s case Err(x) => Deliver(st, Err(x))
  }

  // ---------- sums over the other parties ----------

  /** own value plus those of the others, modulo n */
  function OwnPlus(n: int, own: int, others: seq<int>): (r: int)
    requires n > 0
    ensures 0 <= r < n
  {
    (own + Sum(others)) % n
  }

  lemma OwnPlusStep(n: int, own: int, others: seq<int>, x: int)
    requires n > 0
    ensures FAdd(n, OwnPlus(n, own, others), x) == OwnPlus(n, own, others + [x])
    ensures PointAdd(n, OwnPlus(n, own, others), x) == OwnPlus(n, own, others + [x])
  {
    assert (others + [x])[..|others|] == others;
    CongMod(own + Sum(others), n);
    CongAdd(OwnPlus(n, own, others), own + Sum(others), x, x, n);
  }

  /** The values of a list of decoded messages. */
  function Received(msgs: seq<Option<nat>>): (vs: seq<int>)
    ensures |vs| == |msgs| && forall k :: 0 <= k < |msgs| ==> vs[k] == Held(msgs, k)
  {
    seq(|msgs|, k requires 0 <= k < |msgs| => Held(msgs, k))
  }

  ghost predicate AllDecoded<T>(msgs: seq<Option<T>>) { forall k :: 0 <= k < |msgs| ==> msgs[k].Some? }

  /** Adding up scalars received from the others: rounds 4 and 9. */
  method AddReceived(n: int, own: Scalar, msgs: seq<Option<nat>>) returns (total: Result<Scalar, GgError>)
    requires n > 0 && 0 <= own < n
    ensures total == if AllDecoded(msgs) then Ok(OwnPlus(n, own, Received(msgs))) else Err(Undecodable)
  {
    var acc := own;
    SmallMod(own, n);
    assert Received(msgs)[..0] == [];
    for k := 0 to |msgs|
      invariant forall i :: 0 <= i < k ==> msgs[i].Some?
      invariant acc == OwnPlus(n, own, Received(msgs)[..k])
    {
      if msgs[k].None? { return Err(Undecodable); }
      OwnPlusStep(n, own, Received(msgs)[..k], msgs[k].value);
      assert Received(msgs)[..k + 1] == Received(msgs)[..k] + [msgs[k].value as int];
      acc := FAdd(n, acc, msgs[k].value);
    }
    assert Received(msgs)[..|msgs|] == Received(msgs);
    return Ok(acc);
  }

  // ---------- prepare_for_signing ----------

  /** The difference of two ids can be inverted; for a prime order this says that they differ modulo n. */
  ghost predicate Apart(n: int, a: int, b: int) { Coprime(a - b, n) }

  ghost predicate ApartFrom(n: int, ks: seq<int>, i: nat, upTo: nat) {
    i < |ks| && forall j :: 0 <= j < upTo && j < |ks| && j != i ==> Apart(n, ks[j], ks[i])
  }

  /** w_i: the share times the product of the ratios. */
  method WeightedShare(n: int, ks: seq<int>, i: nat, xi: int) returns (res: Result<int, GgError>)
    requires n > 0 && i < |ks|
    ensures res.Ok? <==> ApartFrom(n, ks, i, |ks|)
    ensures res.Err? ==> res.error == DuplicateIndex
    ensures res.Ok? ==> Cong(res.value, Weight(n, ks, i) * xi, n)
    ensures res.Ok? && 0 <= xi ==> 0 <= res.value && (xi < n ==> res.value < n)
  {
    hide WeightOver, Cong, Apart, FMul, FSub, Inv, ModInv;
    var wi := xi;
    ShareStart(n, xi, ks[i]);
    assert Seen(ks, i, 0) == [];
    for j := 0 to |ks|
      invariant Cong(wi, WeightOver(n, Seen(ks, i, j), ks[i]) * xi, n)
      invariant ApartFrom(n, ks, i, j) && (0 <= xi ==> 0 <= wi && (xi < n ==> wi < n))
    {
      if j == i {
        assert Seen(ks, i, j + 1) == Seen(ks, i, j);
        continue;
      }
      var denom := FSub(n, ks[j], ks[i]);
      DifferenceUnit(n, ks[j], ks[i]);
      var inv := ModInv(denom, n);
      if !inv.0 { return Err(DuplicateIndex); }
      assert Seen(ks, i, j + 1) == Seen(ks, i, j) + [ks[j]];
      ShareStep(n, wi, Seen(ks, i, j), ks[j], ks[i], xi);
      wi := FMul(n, wi, FMul(n, ks[j], inv.1));
    }
    assert Seen(ks, i, |ks|) == Polynomial.Others(ks, i);
    return Ok(wi);
  }

  lemma ShareStart(n: int, xi: int, a: int)
    requires n > 0
    ensures Cong(xi, WeightOver(n, [], a) * xi, n)
  {
  }

  lemma DifferenceUnit(n: int, a: int, b: int)
    requires n > 0
    ensures ModInv(FSub(n, a, b), n).0 <==> Apart(n, a, b)
    ensures ModInv(FSub(n, a, b), n).1 == Inv(n, FSub(n, a, b))
  {
    ModInvCorrect(FSub(n, a, b), n);
    CongMod(a - b, n);
    if Coprime(a - b, n) { CongFlip(FSub(n, a, b), a - b, n); CoprimeCong(a - b, FSub(n, a, b), n); }
    if Coprime(FSub(n, a, b), n) { CoprimeCong(FSub(n, a, b), a - b, n); }
  }

  lemma ShareStep(n: int, wi: int, seen: seq<int>, y: int, a: int, xi: int)
    requires n > 0 && Cong(wi, WeightOver(n, seen, a) * xi, n)
    ensures Cong(FMul(n, wi, FMul(n, y, Inv(n, FSub(n, y, a)))), WeightOver(n, seen + [y], a) * xi, n)
  {
    var f, w, ratio := FMul(n, y, Inv(n, FSub(n, y, a))), WeightOver(n, seen, a), Ratio(n, y, a);
    WeightOverConcat(n, seen, [y], a);
    InvReduced(n, y - a);
    assert WeightOver(n, [y], a) == ratio * WeightOver(n, [], a);
    CongMod(ratio, n);
    hide WeightOver, Inv, Cong;
    FieldOps(n, wi, f);
    CongMul(wi, w * xi, f, ratio, n);
    assert (w * xi) * ratio == (w * ratio) * xi by { SwapLast(w, xi, ratio); }
    CongTrans(FMul(n, wi, f), wi * f, (w * ratio) * xi, n);
  }

  ghost predicate AllApart(n: int, ks: seq<int>) { forall i :: 0 <= i < |ks| ==> ApartFrom(n, ks, i, |ks|) }

  /** prepare_for_signing: the party's weighted share and everyone's weighted public share. */
  method PrepareForSigning(n: int, ks: seq<int>, me: nat, t: nat, xi: int, bigXs: seq<int>)
    returns (res: Result<(int, seq<int>), GgError>)
    requires n > 0 && me < |ks| == |bigXs|
    ensures res.Ok? <==> t + 1 <= |ks| && AllApart(n, ks)
    ensures res.Ok? ==> |res.value.1| == |ks| && Cong(res.value.0, Weight(n, ks, me) * xi, n)
    ensures res.Ok? ==> forall j :: 0 <= j < |ks| ==> Cong(res.value.1[j], Weight(n, ks, j) * bigXs[j], n)
    ensures res.Ok? && 0 <= xi ==> 0 <= res.value.0 && (xi < n ==> res.value.0 < n)
    ensures res.Ok? ==> forall j :: 0 <= j < |ks| && 0 <= bigXs[j] < n ==> 0 <= res.value.1[j] < n
  {
    hide Weight, Cong, ApartFrom;
    if t + 1 > |ks| { return Err(TooFewParties); }
    var wi := WeightedShare(n, ks, me, xi);
    if wi.Err? { return Err(wi.error); }
    var bigWs: seq<int> := [];
    for j := 0 to |ks|
      invariant |bigWs| == j
      invariant forall i :: 0 <= i < j ==> Cong(bigWs[i], Weight(n, ks, i) * bigXs[i], n)
      invariant forall i :: 0 <= i < j ==> ApartFrom(n, ks, i, |ks|)
      invariant forall i :: 0 <= i < j && 0 <= bigXs[i] < n ==> 0 <= bigWs[i] < n
    {
      var point := WeightedShare(n, ks, j, bigXs[j]);
      if point.Err? { return Err(point.error); }
      bigWs := bigWs + [point.value];
    }
    return Ok((wi.value, bigWs));
  }

  // ---------- rounds 1 to 3: the conversions ----------

  datatype InitDraw = InitDraw(ra: nat, d: RangeDraws)
  datatype BobDraw = BobDraw(betaprm: nat, rb: nat, d: BobDraws)

  /** alice_init towards peer j */
  function InitFor(e: Env, k: nat, j: nat, draw: InitDraw): Result<(nat, RangeProof), MtaError>
    requires e.Valid() && j < e.count && e.count > 1
  {
    AliceInit(e.g, e.sk.n, k, e.rings[j], draw.ra, draw.d)
  }

  /** Both answers to peer j's ciphertext: for gamma, and for w with the check against W. */
  function BobFor(e: Env, st: State, j: nat, m: R1Proof, draws: (BobDraw, BobDraw)): Result<(BobMessage,
    BobMessage), GgError>
    requires e.Valid() && j < e.count && e.count > 1
  {
    if m.range.None? then Err(BadRangeProof)
    else
      var first := BobMid(e.g, e.context(e.me), e.moduli[j], m.range.value, st.gamma, m.c, e.rings[j], e.rings[e.me],
                          None, draws.0.betaprm, draws.0.rb, draws.0.d);
      if first.Err? then Err(MtaFailed(first.error))
      else
        var second := BobMid(e.g, e.context(e.me), e.moduli[j], m.range.value, st.w, m.c, e.rings[j], e.rings[e.me],
                             Some(PointAt(st.bigWs, e.me)), draws.1.betaprm, draws.1.rb, draws.1.d);
        if second.Err? then Err(MtaFailed(second.error)) else Ok((first.value, second.value))
  }

  function Answer(b: (BobMessage, BobMessage)): R2Msg {
    R2Msg(b.0.cb, Some(b.0.pi), b.1.cb, if b.1.pi.u.Some? then 12 else 10, Some(b.1.pi))
  }

  function Answered(st: State, j: nat, b: (BobMessage, BobMessage)): State {
    st.(betas := Store(st.betas, j, b.0.beta), vs := Store(st.vs, j, b.1.beta))
  }

  datatype Round2Out = Round2Out(st: State, sent: seq<R2Msg>, err: Option<GgError>)

  /** Round 2 from the k-th message on. */
  function AnswerAll(e: Env, st: State, proofs: seq<R1Proof>, draws: nat -> (BobDraw, BobDraw), k: nat,
    sent: seq<R2Msg>): Round2Out
    requires e.Valid() && k <= |proofs| < e.count
    decreases |proofs| - k
  {
    if k == |proofs| then Round2Out(st, sent, None)
    else
      var j := Other(e.me, k);
      var b := BobFor(e, st, j, proofs[k], draws(j));
      if b.Err? then Round2Out(st, sent, Some(b.error))
      else AnswerAll(e, Answered(st, j, b.value), proofs, draws, k + 1, sent + [Answer(b.value)])
  }

  /** Both of Alice's final steps for peer j's answer. */
  function AliceFor(e: Env, st: State, j: nat, m: Option<R2Msg>): Result<(nat, nat), GgError>
    requires e.Valid() && j < e.count && e.count > 1
  {
    if m.None? then Err(Undecodable)
    else if m.value.bob.None? then Err(BadProofBob)
    else
      var alpha := AliceEnd(e.g, e.context(j), e.sk, m.value.bob.value, None, e.rings[e.me], Held(st.cis, j),
        m.value.c1);
      if alpha.Err? then Err(MtaFailed(alpha.error))
      else if m.value.wcParts != 12 then Err(WcPartCount)
      else if m.value.bobWc.None? then Err(BadProofBob)
      else
        var u := AliceEnd(e.g, e.context(j), e.sk, m.value.bobWc.value, Some(PointAt(st.bigWs, j)), e.rings[e.me],
                          Held(st.cis, j), m.value.c2);
        if u.Err? then Err(MtaFailed(u.error)) else Ok((alpha.value, u.value))
  }

  /** Round 3 from the k-th answer on: theta and sigma gather the conversion shares of both directions. */
  function Collect(e: Env, st: State, msgs: seq<Option<R2Msg>>, k: nat, theta: Scalar, sigma: Scalar): Result<(Scalar,
    Scalar), GgError>
    requires e.Valid() && k <= |msgs| < e.count
    decreases |msgs| - k
  {
    if k == |msgs| then Ok((theta, sigma))
    else
      var j := Other(e.me, k);
      var a := AliceFor(e, st, j, msgs[k]);
      if a.Err? then Err(a.error)
      else
        var n := e.g.q;
        Collect(e, st, msgs, k + 1, FAdd(n, theta, FAdd(n, a.value.0, Held(st.betas, j))),
               FAdd(n, sigma, FAdd(n, a.value.1, Held(st.vs, j))))
  }

  function AfterRound3(e: Env, st: State, msgs: seq<Option<R2Msg>>): Result<State, GgError>
    requires e.Valid() && |msgs| < e.count
  {
    var r := Collect(e, st, msgs, 0, FMul(e.g.q, st.k, st.gamma), FMul(e.g.q, st.k, st.w));
    if r.Err? then Err(r.error) else Ok(st.(theta := r.value.0, sigma := r.value.1))
  }

  // ---------- rounds 4 and 5: the nonce point ----------

  function AfterRound4(e: Env, st: State, msgs: seq<Option<nat>>): Result<State, GgError>
    requires e.Valid()
  {
    if exists k :: 0 <= k < |msgs| && msgs[k].None? then Err(Undecodable)
    else
      var inv := ModInv(OwnPlus(e.g.q, st.theta, Received(msgs)), e.g.q);
      if !inv.0 then Err(ThetaNotInvertible) else Ok(st.(thetaInverse := inv.1))
  }

  /** The opening of the k-th peer's payload against its stored commitment. */
  function GammaOf(e: Env, st: State, k: nat, payload: nat): Option<Point> {
    var j := Other(e.me, k);
    if j < |st.r1Commitments| && st.r1Commitments[j].Some? then e.openGamma(st.r1Commitments[j].value, j,
      payload) else None
  }

  function SumGammas(e: Env, st: State, msgs: seq<nat>, k: nat, acc: Point): Option<Point>
    requires e.Valid() && k <= |msgs|
    decreases |msgs| - k
  {
    if k == |msgs| then Some(acc)
    else
      var p := GammaOf(e, st, k, msgs[k]);
      if p.None? then None else SumGammas(e, st, msgs, k + 1, PointAdd(e.g.q, acc, p.value))
  }

  /** With the drawn l and rho: R, the signature share and the two blinding points. */
  function AfterRound5(e: Env, st: State, msgs: seq<nat>, li: Scalar, roi: Scalar): Result<State, GgError>
    requires e.Valid()
  {
    var n, sum := e.g.q, SumGammas(e, st, msgs, 0, st.pointGamma);
    if sum.None? then Err(BadGamma)
    else
      var r := PointMul(n, sum.value, st.thetaInverse);
      var si := FAdd(n, FMul(n, e.m, st.k), FMul(n, e.c.xOf(r), st.sigma));
      Ok(st.(bigR := r, si := si, li := li, roi := roi, bigAi := MulBase(n, roi),
             bigVi := PointAdd(n, PointMul(n, r, si), MulBase(n, li))))
  }

  // ---------- rounds 6 to 9: the consistency check ----------

  /** Commitments from the k-th message on, filed under their senders. */
  function FileAll(me: nat, xs: seq<Option<nat>>, msgs: seq<Option<nat>>, k: nat): seq<Option<nat>>
    requires k <= |msgs|
    decreases |msgs| - k
  {
    if k == |msgs| || msgs[k].None? then xs else FileAll(me, Store(xs, Other(me, k), msgs[k].value), msgs, k + 1)
  }

  function VaOf(e: Env, st: State, k: nat, payload: nat): Option<(Point, Point)> {
    var j := Other(e.me, k);
    if j < |st.r5Commitments| && st.r5Commitments[j].Some?
    then e.openVA(st.r5Commitments[j].value, j, st.bigR, payload) else None
  }

  function SumVa(e: Env, st: State, msgs: seq<nat>, k: nat, v: Point, a: Point): Option<(Point, Point)>
    requires e.Valid() && k <= |msgs|
    decreases |msgs| - k
  {
    if k == |msgs| then Some((v, a))
    else
      var p := VaOf(e, st, k, msgs[k]);
      if p.None? then None
      else SumVa(e, st, msgs, k + 1, PointAdd(e.g.q, v, p.value.0), PointAdd(e.g.q, a, p.value.1))
  }

  /** -mG - rQ */
  function Offset(n: int, m: Scalar, rx: nat, pub: Point): (v: Point)
    requires n > 0
    ensures 0 <= v < n
  {
    PointAdd(n, MulBase(n, FNeg(n, m)), PointMul(n, pub, FNeg(n, rx)))
  }

  function AfterRound7(e: Env, st: State, msgs: seq<nat>): Result<State, GgError>
    requires e.Valid()
  {
    if e.pub.None? then Err(OffCurvePub)
    else
      var n := e.g.q;
      var sums := SumVa(e, st, msgs, 0, PointAdd(n, Offset(n, e.m, e.c.xOf(st.bigR), e.pub.value), st.bigVi), st.bigAi);
      if sums.None? then Err(BadOpening)
      else Ok(st.(ui := PointMul(n, sums.value.0, st.roi), ti := PointMul(n, sums.value.1, st.li)))
  }

  function UtOf(e: Env, st: State, k: nat, payload: nat): Option<(Point, Point)> {
    var j := Other(e.me, k);
    if j < |st.r7Commitments| && st.r7Commitments[j].Some? then e.openUT(st.r7Commitments[j].value, payload) else None
  }

  function SumUt(e: Env, st: State, msgs: seq<nat>, k: nat, u: Point, t: Point): Option<(Point, Point)>
    requires e.Valid() && k <= |msgs|
    decreases |msgs| - k
  {
    if k == |msgs| then Some((u, t))
    else
      var p := UtOf(e, st, k, msgs[k]);
      if p.None? then None
      else SumUt(e, st, msgs, k + 1, PointAdd(e.g.q, u, p.value.0), PointAdd(e.g.q, t, p.value.1))
  }

  /** The signature share is released only when the sums agree. */
  function AfterRound9(e: Env, st: State, msgs: seq<nat>): Result<State, GgError>
    requires e.Valid()
  {
    var sums := SumUt(e, st, msgs, 0, st.ui, st.ti);
    if sums.None? then Err(BadOpening) else if sums.value.0 != sums.value.1 then Err(NotConsistent) else Ok(st)
  }

  // ---------- finalize ----------

  /** ecdsa_verify: r is reduced first, and zero r or s is refused. */
  predicate GgVerify(c: Curve, m: Scalar, rx: nat, s: Scalar, pub: Point)
    requires c.n > 0
  {
    var r := rx % c.n;
    r != 0 && s != 0 && ModInv(s, c.n).0 && c.XScalar(RecoveredPoint(c, pub, m, r, s)) == r
  }

  /** The normalised signature: a high s is negated, which flips the parity bit of the recovery id. */
  function Assemble(c: Curve, m: Scalar, bigR: Point, sum: Scalar): SignatureData
    requires c.n > 0
  {
    var high, odd := IsHighS(c.n, sum), c.yOdd(bigR);
    SignatureData(c.xOf(bigR), if high then c.n - sum else sum,
                  (if c.xOf(bigR) > c.n then 2 else 0) + (if odd != high then 1 else 0), m)
  }

  function Final(e: Env, bigR: Point, sum: Scalar): Result<SignatureData, GgError>
    requires e.Valid()
  {
    var sig := Assemble(e.c, e.m, bigR, sum);
    if e.pub.None? then Err(OffCurvePub)
    else if !GgVerify(e.c, e.m, sig.r, sig.s, e.pub.value) then Err(FinalVerification)
    else Ok(sig)
  }

  function AfterFinalize(e: Env, st: State, msgs: seq<Option<nat>>): Result<SignatureData, GgError>
    requires e.Valid()
  {
    if exists k :: 0 <= k < |msgs| && msgs[k].None? then Err(Undecodable)
    else Final(e, st.bigR, OwnPlus(e.g.q, st.si, Received(msgs)))
  }

  // ---------- the party ----------

  class Shared {
    const e: Env
    var st: State

    ghost predicate Valid()
      reads this
    {
      && e.Valid() && 0 <= st.theta < e.g.q && 0 <= st.si < e.g.q
    }

    constructor (e: Env, st: State)
      ensures this.e == e && this.st == st
    {
      this.e, this.st := e, st;
    }

    /** Round 2: answer every peer's ciphertext twice. */
    method Round2(draws: nat -> (BobDraw, BobDraw)) returns (sent: seq<R2Msg>)
      requires Valid() && |st.r1Proofs| < e.count
      modifies this
      ensures var out := AnswerAll(e, old(st), old(st.r1Proofs), draws, 0, []);
        sent == out.sent && st == if out.err.None? then out.st else Deliver(out.st, Err(out.err.value))
      ensures Valid()
    {
      hide BobFor, Env.Valid;
      sent := [];
      ghost var out := AnswerAll(e, st, st.r1Proofs, draws, 0, []);
      for k := 0 to |st.r1Proofs|
        invariant Valid() && st.r1Proofs == old(st.r1Proofs)
        invariant AnswerAll(e, st, st.r1Proofs, draws, k, sent) == out
      {
        var j := Other(e.me, k);
        var b := BobFor(e, st, j, st.r1Proofs[k], draws(j));
        if b.Err? {
          st := Deliver(st, Err(b.error));
          return;
        }
        st := st.(betas := Store(st.betas, j, b.value.0.beta));
        st := st.(vs := Store(st.vs, j, b.value.1.beta));
        sent := sent + [Answer(b.value)];
      }
    }

    /** on_r1_1 and on_r1_2 fire once each in either order; the second one runs round 2. */
    method OnR1Proofs(msgs: Option<seq<R1Proof>>, draws: nat -> (BobDraw, BobDraw)) returns (sent: seq<R2Msg>)
      requires Valid() && (msgs.Some? ==> |msgs.value| < e.count)
      modifies this
      ensures Valid()
      ensures msgs == None ==> st == Deliver(old(st), Err(Undecodable)) && sent == []
      ensures msgs.Some? && old(st.r1Join) + 1 != 2 ==>
        st == old(st).(r1Proofs := msgs.value, r1Join := old(st.r1Join) + 1) && sent == []
      ensures msgs.Some? && old(st.r1Join) + 1 == 2 ==>
        var out := AnswerAll(e, old(st).(r1Proofs := msgs.value, r1Join := 2), msgs.value, draws, 0, []);
        sent == out.sent && st == if out.err.None? then out.st else Deliver(out.st, Err(out.err.value))
    {
      sent := [];
      if msgs.None? {
        st := Deliver(st, Err(Undecodable));
        return;
      }
      st := st.(r1Proofs := msgs.value);
      st := st.(r1Join := st.r1Join + 1);
      if st.r1Join == 2 { sent := Round2(draws); }
    }

    method OnR1Commitments(msgs: seq<Option<nat>>, draws: nat -> (BobDraw, BobDraw)) returns (sent: seq<R2Msg>)
      requires Valid() && |st.r1Proofs| < e.count
      modifies this
      ensures Valid()
      ensures var filed := old(st).(r1Commitments := FileAll(e.me, old(st.r1Commitments), msgs, 0));
        if !AllDecoded(msgs) then st == Deliver(filed, Err(Undecodable)) && sent == []
        else if old(st.r1Join) + 1 != 2 then st == filed.(r1Join := old(st.r1Join) + 1) && sent == []
        else
          var out := AnswerAll(e, filed.(r1Join := 2), old(st.r1Proofs), draws, 0, []);
          sent == out.sent && st == if out.err.None? then out.st else Deliver(out.st, Err(out.err.value))
    {
      sent := [];
      for k := 0 to |msgs|
        invariant Valid() && forall i :: 0 <= i < k ==> msgs[i].Some?
        invariant st == old(st).(r1Commitments := st.r1Commitments)
        invariant FileAll(e.me, old(st.r1Commitments), msgs, 0) == FileAll(e.me, st.r1Commitments, msgs, k)
      {
        if msgs[k].None? {
          st := Deliver(st, Err(Undecodable));
          return;
        }
        st := st.(r1Commitments := Store(st.r1Commitments, Other(e.me, k), msgs[k].value));
      }
      st := st.(r1Join := st.r1Join + 1);
      if st.r1Join == 2 { sent := Round2(draws); }
    }

    method Round3(msgs: seq<Option<R2Msg>>)
      requires Valid() && |msgs| < e.count
      modifies this
      ensures Valid() && st == Settle(old(st), AfterRound3(e, old(st), msgs))
    {
      hide AliceFor;
      var n := e.g.q;
      var theta, sigma := FMul(n, st.k, st.gamma), FMul(n, st.k, st.w);
      for k := 0 to |msgs|
        invariant st == old(st) && 0 <= theta < n
        invariant Collect(e, st, msgs, 0, FMul(n, st.k, st.gamma), FMul(n, st.k, st.w)) == Collect(e, st, msgs, k,
          theta, sigma)
      {
        var j := Other(e.me, k);
        var a := AliceFor(e, st, j, msgs[k]);
        if a.Err? {
          st := Deliver(st, Err(a.error));
          return;
        }
        theta := FAdd(n, theta, FAdd(n, a.value.0, Held(st.betas, j)));
        sigma := FAdd(n, sigma, FAdd(n, a.value.1, Held(st.vs, j)));
      }
      st := st.(theta := theta, sigma := sigma);
    }

    method Round4(msgs: seq<Option<nat>>)
      requires Valid()
      modifies this
      ensures Valid() && st == Settle(old(st), AfterRound4(e, old(st), msgs))
    {
      var total := AddReceived(e.g.q, st.theta, msgs);
      if total.Err? {
        st := Deliver(st, Err(total.error));
        return;
      }
      var inv := ModInv(total.value, e.g.q);
      if !inv.0 {
        st := Deliver(st, Err(ThetaNotInvertible));
        return;
      }
      st := st.(thetaInverse := inv.1);
    }

    method Round5(msgs: seq<nat>, li: Scalar, roi: Scalar)
      requires Valid()
      modifies this
      ensures Valid() && st == Settle(old(st), AfterRound5(e, old(st), msgs, li, roi))
    {
      var n := e.g.q;
      var r := st.pointGamma;
      for k := 0 to |msgs|
        invariant st == old(st) && SumGammas(e, st, msgs, 0, st.pointGamma) == SumGammas(e, st, msgs, k, r)
      {
        var p := GammaOf(e, st, k, msgs[k]);
        if p.None? {
          st := Deliver(st, Err(BadGamma));
          return;
        }
        r := PointAdd(n, r, p.value);
      }
      r := PointMul(n, r, st.thetaInverse);
      var si := FAdd(n, FMul(n, e.m, st.k), FMul(n, e.c.xOf(r), st.sigma));
      st := st.(li := li, roi := roi, bigAi := MulBase(n, roi), bigVi := PointAdd(n, PointMul(n, r, si),
        MulBase(n, li)));
      st := st.(si := si, bigR := r);
    }

    method Round6(msgs: seq<Option<nat>>)
      requires Valid()
      modifies this
      ensures Valid()
      ensures var filed := old(st).(r5Commitments := FileAll(e.me, old(st.r5Commitments), msgs, 0));
        st == if AllDecoded(msgs) then filed else Deliver(filed, Err(Undecodable))
    {
      for k := 0 to |msgs|
        invariant Valid() && forall i :: 0 <= i < k ==> msgs[i].Some?
        invariant st == old(st).(r5Commitments := st.r5Commitments)
        invariant FileAll(e.me, old(st.r5Commitments), msgs, 0) == FileAll(e.me, st.r5Commitments, msgs, k)
      {
        if msgs[k].None? {
          st := Deliver(st, Err(Undecodable));
          return;
        }
        st := st.(r5Commitments := Store(st.r5Commitments, Other(e.me, k), msgs[k].value));
      }
    }

    method Round7(msgs: seq<nat>)
      requires Valid()
      modifies this
      ensures Valid() && st == Settle(old(st), AfterRound7(e, old(st), msgs))
    {
      var n := e.g.q;
      if e.pub.None? {
        st := Deliver(st, Err(OffCurvePub));
        return;
      }
      var v := PointAdd(n, MulBase(n, FNeg(n, e.m)), PointMul(n, e.pub.value, FNeg(n, e.c.xOf(st.bigR))));
      v := PointAdd(n, v, st.bigVi);
      var a := st.bigAi;
      ghost var v0 := v;
      for k := 0 to |msgs|
        invariant st == old(st) && SumVa(e, st, msgs, 0, v0, st.bigAi) == SumVa(e, st, msgs, k, v, a)
      {
        var p := VaOf(e, st, k, msgs[k]);
        if p.None? {
          st := Deliver(st, Err(BadOpening));
          return;
        }
        v := PointAdd(n, v, p.value.0);
        a := PointAdd(n, a, p.value.1);
      }
      st := st.(ui := PointMul(n, v, st.roi), ti := PointMul(n, a, st.li));
    }

    method Round8(msgs: seq<Option<nat>>)
      requires Valid()
      modifies this
      ensures Valid()
      ensures var filed := old(st).(r7Commitments := FileAll(e.me, old(st.r7Commitments), msgs, 0));
        st == if AllDecoded(msgs) then filed else Deliver(filed, Err(Undecodable))
    {
      for k := 0 to |msgs|
        invariant Valid() && forall i :: 0 <= i < k ==> msgs[i].Some?
        invariant st == old(st).(r7Commitments := st.r7Commitments)
        invariant FileAll(e.me, old(st.r7Commitments), msgs, 0) == FileAll(e.me, st.r7Commitments, msgs, k)
      {
        if msgs[k].None? {
          st := Deliver(st, Err(Undecodable));
          return;
        }
        st := st.(r7Commitments := Store(st.r7Commitments, Other(e.me, k), msgs[k].value));
      }
    }

    /** The share is sent exactly when the sums agree. */
    method Round9(msgs: seq<nat>) returns (sent: Option<Scalar>)
      requires Valid()
      modifies this
      ensures Valid() && st == Settle(old(st), AfterRound9(e, old(st), msgs))
      ensures sent == if AfterRound9(e, old(st), msgs).Ok? then Some(old(st.si)) else None
    {
      var u, t := st.ui, st.ti;
      for k := 0 to |msgs|
        invariant st == old(st) && SumUt(e, st, msgs, 0, st.ui, st.ti) == SumUt(e, st, msgs, k, u, t)
      {
        var p := UtOf(e, st, k, msgs[k]);
        if p.None? {
          st := Deliver(st, Err(BadOpening));
          return None;
        }
        u := PointAdd(e.g.q, u, p.value.0);
        t := PointAdd(e.g.q, t, p.value.1);
      }
      if u != t {
        st := Deliver(st, Err(NotConsistent));
        return None;
      }
      return Some(st.si);
    }

    method Finalize(msgs: seq<Option<nat>>)
      requires Valid()
      modifies this
      ensures Valid() && st == Deliver(old(st), AfterFinalize(e, old(st), msgs))
    {
      var total := AddReceived(e.g.q, st.si, msgs);
      if total.Err? {
        st := Deliver(st, Err(total.error));
        return;
      }
      var q, sum := e.g.q, total.value;
      var rx := e.c.xOf(st.bigR);
      var high := sum > q / 2;
      var odd := e.c.yOdd(st.bigR);
      var recid: nat := if rx > q then 2 else 0;
      if odd { recid := recid + 1; }
      if high {
        sum := q - sum;
        recid := if recid % 2 == 1 then recid - 1 else recid + 1;
      }
      if e.pub.None? {
        st := Deliver(st, Err(OffCurvePub));
        return;
      }
      if !GgVerify(e.c, e.m, rx, sum, e.pub.value) {
        st := Deliver(st, Err(FinalVerification));
        return;
      }
      st := Deliver(st, Ok(SignatureData(rx, sum, recid, e.m)));
    }
  }

  // ---------- starting a session ----------

  const SAFE_PRIME_BITS: nat := 1024
  const MIN_PEER_MODULUS_BITS: nat := 2 * SAFE_PRIME_BITS
  const MAX_PEER_MODULUS_BITS: nat := 4 * SAFE_PRIME_BITS

  /** check_peer_modulus and has_small_factor */
  predicate PeerModulusOk(n: nat) {
    MIN_PEER_MODULUS_BITS <= BitLen(n) <= MAX_PEER_MODULUS_BITS && n % 2 == 1 && !HasSmallFactor(n)
  }

  /** validate_peer_params */
  predicate PeerParamsOk(k: SaveKey) {
    && |k.ntildeJ| == |k.h1J| == |k.h2J| == |k.paillierJ| == |k.ks|
    && forall j :: 0 <= j < |k.ks| ==>
      && PeerModulusOk(k.paillierJ[j]) && PeerModulusOk(k.ntildeJ[j])
      && 1 < k.h1J[j] && k.h1J[j] + 1 < k.ntildeJ[j] && Gcd(k.h1J[j], k.ntildeJ[j]) == 1
      && 1 < k.h2J[j] && k.h2J[j] + 1 < k.ntildeJ[j] && Gcd(k.h2J[j], k.ntildeJ[j]) == 1
      && k.h1J[j] != k.h2J[j]
  }

  /** From 2048 to 4096 bits, odd, and without a prime factor below 1000. */
  ghost predicate StrongModulus(n: nat) {
    Pow(2, 2047) <= n < Pow(2, 4096) && n % 2 == 1 && forall p :: 2 <= p < 1000 && IsPrime(p) ==> n % p != 0
  }

  lemma PeerModulusMeans(n: nat)
    ensures PeerModulusOk(n) <==> StrongModulus(n)
  {
    BitLenAtLeast(n, 2048);
    BitLenAtLeast(n, 4097);
    SmallFactorIsPrime(n);
    hide Pow, BitLen, HasSmallFactor, IsPrime;
  }

  /** What is required of every party's parameters: strong Paillier and ring moduli, and two different units of the ring
      other than 1 and -1. */
  lemma PeerParamsMean(k: SaveKey)
    ensures PeerParamsOk(k) <==>
      && |k.ntildeJ| == |k.h1J| == |k.h2J| == |k.paillierJ| == |k.ks|
      && forall j :: 0 <= j < |k.ks| ==>
        && StrongModulus(k.paillierJ[j]) && StrongModulus(k.ntildeJ[j])
        && 1 < k.h1J[j] < k.ntildeJ[j] - 1 && Coprime(k.h1J[j], k.ntildeJ[j])
        && 1 < k.h2J[j] < k.ntildeJ[j] - 1 && Coprime(k.h2J[j], k.ntildeJ[j]) && k.h1J[j] != k.h2J[j]
  {
    hide PeerModulusOk, StrongModulus, Coprime, Gcd;
    if |k.ntildeJ| == |k.h1J| == |k.h2J| == |k.paillierJ| == |k.ks| {
      forall j | 0 <= j < |k.ks|
        ensures PeerModulusOk(k.paillierJ[j]) <==> StrongModulus(k.paillierJ[j])
        ensures PeerModulusOk(k.ntildeJ[j]) <==> StrongModulus(k.ntildeJ[j])
        ensures k.ntildeJ[j] > 1 ==> (Gcd(k.h1J[j], k.ntildeJ[j]) == 1 <==> Coprime(k.h1J[j], k.ntildeJ[j]))
        ensures k.ntildeJ[j] > 1 ==> (Gcd(k.h2J[j], k.ntildeJ[j]) == 1 <==> Coprime(k.h2J[j], k.ntildeJ[j]))
      {
        PeerModulusMeans(k.paillierJ[j]);
        PeerModulusMeans(k.ntildeJ[j]);
        if k.ntildeJ[j] > 1 {
          CoprimeIffGcd(k.h1J[j], k.ntildeJ[j]);
          CoprimeIffGcd(k.h2J[j], k.ntildeJ[j]);
        }
      }
    }
  }

  function RingsOf(k: SaveKey): (rings: seq<Ring>)
    requires |k.ntildeJ| == |k.h1J| == |k.h2J| == |k.ks|
    ensures |rings| == |k.ks| && forall j :: 0 <= j < |k.ks| ==> rings[j] == Ring(k.ntildeJ[j], k.h1J[j], k.h2J[j])
  {
    seq(|k.ks|, j requires 0 <= j < |k.ks| => Ring(k.ntildeJ[j], k.h1J[j], k.h2J[j]))
  }

  function Blank(count: nat): (none: seq<Option<nat>>)
    ensures |none| == count && forall i :: 0 <= i < count ==> none[i] == None
  {
    seq(count, _ => None)
  }

  /** A valid hash, known parties, a consistent narrowed key with good peer parameters, and a share that fits it. */
  ghost predicate StartOk(n: int, key: SaveKey, ids: seq<nat>, me: nat, m: nat)
    requires n > 0 && |key.ntildeJ| == |key.h1J| == |key.h2J| == |key.paillierJ| == |key.bigXj| == |key.ks|
  {
    && 0 < m < n && (forall a :: 0 <= a < |ids| ==> ids[a] in key.ks)
    && var subset := SubsetOf(key, ids);
      && Consistent(n, subset) && me < |Points(subset)| && MulBase(n, key.xi) == Points(subset)[me]
      && (|ids| > 1 ==> PeerParamsOk(subset))
  }

  /** The checks of SigningParty::new on the hash and the key narrowed to the committee. */
  method CheckStart(n: int, key: SaveKey, ids: seq<nat>, me: nat, m: nat) returns (res: Result<SaveKey, GgError>)
    requires n > 0 && |key.ntildeJ| == |key.h1J| == |key.h2J| == |key.paillierJ| == |key.bigXj| == |key.ks|
    ensures res.Ok? <==> StartOk(n, key, ids, me, m)
    ensures res.Ok? ==> res.value == SubsetOf(key, ids)
  {
    if m == 0 || m >= n { return Err(BadHash); }
    var subset := SubsetForParties(n, key, ids);
    if subset.Err? { return Err(BadKey(subset.error)); }
    hide PeerParamsOk;
    if |ids| > 1 && !PeerParamsOk(subset.value) { return Err(BadPeerParams); }
    if me >= |subset.value.bigXj| { return Err(IndexOutOfRange); }
    if MulBase(n, key.xi) != Points(subset.value)[me] { return Err(ShareMismatch); }
    return Ok(subset.value);
  }

  /** What round 1 leaves behind: the weighted shares, and one ciphertext with its range proof for every peer. */
  ghost predicate Started(e: Env, st: State, key: SaveKey, k: nat, gamma: nat, draws: nat -> InitDraw,
    sent: seq<R1Proof>)
    requires e.Valid()
  {
    && e.me < |key.ks| == e.count && |key.bigXj| == |key.ks| && |st.bigWs| == |key.ks| && |sent| == e.count - 1
    && st.k == k && st.gamma == gamma && st.pointGamma == MulBase(e.g.q,
      gamma) && st.theta == 0 && st.si == 0 && st.result == None
    && |st.betas| == |st.vs| == e.count
    && Cong(st.w, Weight(e.g.q, key.ks, e.me) * key.xi, e.g.q) && (0 <= key.xi < e.g.q ==> st.w < e.g.q)
    && (forall j :: 0 <= j < |key.ks| ==> Cong(st.bigWs[j], Weight(e.g.q, key.ks, j) * Points(key)[j], e.g.q))
    && (forall j :: 0 <= j < |key.ks| && 0 <= Points(key)[j] < e.g.q ==> 0 <= st.bigWs[j] < e.g.q)
    && forall i :: 0 <= i < |sent| ==> SentTo(e, st, i, draws, sent[i])
  }

  ghost predicate SentTo(e: Env, st: State, i: nat, draws: nat -> InitDraw, m: R1Proof)
    requires e.Valid()
  {
    var j := Other(e.me, i);
    && j < e.count && e.count > 1 && InitFor(e, st.k, j, draws(j)).Ok?
    && Held(st.cis, j) == InitFor(e, st.k, j, draws(j)).value.0
    && m == R1Proof(InitFor(e, st.k, j, draws(j)).value.0, Some(InitFor(e, st.k, j, draws(j)).value.1))
  }

  /** Round 1 goes through: enough parties with separable ids, and every encryption succeeds. */
  ghost predicate Round1Ok(e: Env, ks: seq<int>, t: nat, k: nat, draws: nat -> InitDraw)
    requires e.Valid()
  {
    && t + 1 <= |ks| && AllApart(e.g.q, ks)
    && forall i :: 0 <= i < e.count - 1 ==> InitOk(e, k, Other(e.me, i), draws)
  }

  ghost predicate InitOk(e: Env, k: nat, j: nat, draws: nat -> InitDraw)
    requires e.Valid()
  {
    j < e.count && e.count > 1 && InitFor(e, k, j, draws(j)).Ok?
  }

  /** round1: a ciphertext of k with its range proof for every peer. */
  method Round1(e: Env, key: SaveKey, t: nat, k: nat, gamma: nat, draws: nat -> InitDraw)
    returns (res: Result<(State, seq<R1Proof>), GgError>)
    requires e.Valid() && e.me < |key.ks| == e.count && |key.bigXj| == |key.ks| && key.xi >= 0
    ensures res.Ok? <==> Round1Ok(e, key.ks, t, k, draws)
    ensures res.Ok? ==> Started(e, res.value.0, key, k, gamma, draws, res.value.1)
  {
    var n := e.g.q;
    assert n > 0;
    hide Env.Valid, Weight, InitFor, Cong;
    var w := PrepareForSigning(n, key.ks, e.me, t, key.xi, Points(key));
    if w.Err? { return Err(w.error); }
    var none := Blank(e.count);
    var st := State(k, gamma, MulBase(n, gamma), w.value.0, w.value.1, none, none, none, [], none, 0, 0, 0, 0, 0, 0, 0,
      0, 0, 0, none,
                    0, 0, none, None);
    ghost var first := st;
    var sent: seq<R1Proof> := [];
    for i := 0 to e.count - 1
      invariant |sent| == i && |st.cis| == e.count && st == first.(cis := st.cis)
      invariant forall l :: 0 <= l < i ==> SentTo(e, st, l, draws, sent[l])
      invariant forall l :: 0 <= l < i ==> InitOk(e, k, Other(e.me, l), draws)
    {
      var j := Other(e.me, i);
      assert InitOk(e, k, Other(e.me, i), draws) <==> InitFor(e, k, j, draws(j)).Ok?;
      var c := InitFor(e, k, j, draws(j));
      if c.Err? { return Err(MtaFailed(c.error)); }
      ghost var before := st;
      st := st.(cis := Store(st.cis, j, c.value.0));
      sent := sent + [R1Proof(c.value.0, Some(c.value.1))];
      forall l | 0 <= l < i + 1 ensures SentTo(e, st, l, draws, sent[l]) {
        if l < i { assert SentTo(e, before, l, draws, sent[l]); }
      }
    }
    return Ok((st, sent));
  }

  /** The environment of a started session: rings and moduli come from the narrowed key. */
  function EnvOf(g: Setting, c: Curve, key: SaveKey, me: nat, sk: PrivateKey, m: nat, context: nat -> string,
    openGamma: (nat, nat, nat) -> Option<Point>, openVA: (nat, nat, Point, nat) -> Option<(Point, Point)>,
    openUT: (nat, nat) -> Option<(Point, Point)>): (e: Env)
    requires |key.ntildeJ| == |key.h1J| == |key.h2J| == |key.ks|
    ensures e.g == g && e.c == c && e.count == |key.ks| == |e.rings| && e.me == me && e.sk == sk && e.m == m
    ensures e.moduli == key.paillierJ && e.pub == key.ecdsaPub.point && e.context == context
    ensures e.openGamma == openGamma && e.openVA == openVA && e.openUT == openUT
    ensures forall j :: 0 <= j < |e.rings| ==> e.rings[j] == Ring(key.ntildeJ[j], key.h1J[j], key.h2J[j])
  {
    Env(g, c, |key.ks|, me, sk, RingsOf(key), key.paillierJ, key.ecdsaPub.point, m, context, openGamma, openVA, openUT)
  }

  /** SigningParty::new */
  method Start(g: Setting, c: Curve, ids: seq<nat>, me: nat, t: nat, key: SaveKey, sk: PrivateKey, m: nat,
    context: nat -> string, openGamma: (nat, nat, nat) -> Option<Point>, openVA: (nat, nat, Point,
      nat) -> Option<(Point, Point)>,
    openUT: (nat, nat) -> Option<(Point, Point)>, k: nat, gamma: nat, draws: nat -> InitDraw)
    returns (res: Result<(State, seq<R1Proof>), GgError>, party: Option<Shared>)
    requires g.q > 0 && c.n == g.q && me < |ids| && key.xi >= 0 && (|ids| > 1 ==> sk.n > 0 && sk.n * sk.n > 0)
    requires |key.ntildeJ| == |key.h1J| == |key.h2J| == |key.paillierJ| == |key.bigXj| == |key.ks|
    ensures res.Ok? <==> party.Some?
    ensures res.Ok? ==> StartOk(g.q, key, ids, me, m)
    ensures StartOk(g.q, key, ids, me, m) ==> var subset := SubsetOf(key, ids);
      var e := EnvOf(g, c, subset, me, sk, m, context, openGamma, openVA, openUT);
      e.Valid() && (res.Ok? <==> Round1Ok(e, subset.ks, t, k, draws))
    ensures res.Ok? ==> var subset := SubsetOf(key, ids);
      var e := EnvOf(g, c, subset, me, sk, m, context, openGamma, openVA, openUT);
      && e.Valid() && Started(e, res.value.0, subset, k, gamma, draws, res.value.1)
      && party.value.e == e && party.value.st == res.value.0 && party.value.Valid() && fresh(party.value)
  {
    hide Started, Consistent, PeerParamsOk, SubsetOf, Round1Ok;
    var subset := CheckStart(g.q, key, ids, me, m);
    if subset.Err? { return Err(subset.error), None; }
    SubsetShape(g.q, subset.value, key, ids);
    var e := EnvOf(g, c, subset.value, me, sk, m, context, openGamma, openVA, openUT);
    ValidEnv(e, subset.value);
    var first := Round1(e, subset.value, t, k, gamma, draws);
    if first.Err? { return Err(first.error), None; }
    StartedFields(e, first.value.0, subset.value, k, gamma, draws, first.value.1);
    var shared := new Shared(e, first.value.0);
    return Ok(first.value), Some(shared);
  }

  lemma SubsetShape(n: int, subset: SaveKey, key: SaveKey, ids: seq<nat>)
    requires |key.ntildeJ| == |key.h1J| == |key.h2J| == |key.paillierJ| == |key.bigXj| == |key.ks|
    requires (forall a :: 0 <= a < |ids| ==> ids[a] in key.ks) && subset == SubsetOf(key, ids)
    ensures |subset.ntildeJ| == |subset.h1J| == |subset.h2J| == |subset.paillierJ| == |ids|
    ensures |subset.bigXj| == |subset.ks| == |ids|
    ensures subset.xi == key.xi && subset.ecdsaPub == key.ecdsaPub
  {
  }

  lemma ValidEnv(e: Env, key: SaveKey)
    requires |key.ntildeJ| == |key.h1J| == |key.h2J| == |key.paillierJ| == |key.bigXj| == |key.ks|
    requires e.g.q > 0 && e.c.n == e.g.q && e.me < e.count == |key.ks| && e.rings == RingsOf(key)
    requires e.moduli == key.paillierJ
    requires e.count > 1 ==> e.sk.n > 0 && e.sk.n * e.sk.n > 0 && PeerParamsOk(key)
    ensures e.Valid()
  {
    if e.count > 1 {
      forall j | 0 <= j < e.count ensures e.rings[j].nt > 0 && e.moduli[j] > 0 && e.moduli[j] * e.moduli[j] > 0 {
        PositiveProduct(key.paillierJ[j], key.paillierJ[j]);
      }
    }
  }

  lemma StartedFields(e: Env, st: State, key: SaveKey, k: nat, gamma: nat, draws: nat -> InitDraw, sent: seq<R1Proof>)
    requires e.Valid() && Started(e, st, key, k, gamma, draws, sent)
    ensures st.theta == 0 && st.si == 0
  {
  }
}
