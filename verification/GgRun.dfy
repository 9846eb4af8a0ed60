/** The theorems about a GG18 signing committee (src/ecdsatss/signing.rs). */
module GgRun {
  import opened NumberTheory
  import opened Polynomial
  import opened Results
  import opened Paillier
  import opened Secp
  import opened Committee
  import opened Sums
  import opened Mta
  import opened KeyConsistency
  import opened GgSigning
  import opened GgCommittee

  // ---------- the values of a committee ----------

  function Each(sts: seq<State>, f: State -> int): (xs: seq<int>)
    ensures |xs| == |sts| && forall i :: 0 <= i < |sts| ==> xs[i] == f(sts[i])
  {
    seq(|sts|, i requires 0 <= i < |sts| => f(sts[i]))
  }

  function KOf(st: State): int { st.k }
  function GammaShare(st: State): int { st.gamma }
  function WOf(st: State): int { st.w }
  function GammaPoint(st: State): int { st.pointGamma }
  function ThetaOf(st: State): int { st.theta }
  function SigmaOf(st: State): int { st.sigma }
  function SOf(st: State): int { st.si }
  function LOf(st: State): int { st.li }
  function RhoOf(st: State): int { st.roi }
  function VOf(st: State): int { st.bigVi }
  function AOf(st: State): int { st.bigAi }
  function UOf(st: State): int { st.ui }
  function TOf(st: State): int { st.ti }

  /** One session: the parties differ only in their index and secret keys. */
  ghost predicate SameSession(es: seq<Env>) {
    && es != []
    && forall i :: 0 <= i < |es| ==>
      && es[i].Valid() && es[i].me == i && es[i].count == |es|
      && es[i] == es[0].(me := i, sk := es[i].sk)
  }

  lemma MemberOf(es: seq<Env>, i: nat)
    requires SameSession(es) && i < |es|
    ensures es[i].Valid() && es[i].me == i && es[i].count == |es| && es[i].g == es[0].g && es[i].c == es[0].c
    ensures es[i].m == es[0].m && es[i].pub == es[0].pub && es[0].Valid() && es[0].c.n == es[0].g.q > 0
    ensures es[i].rings == es[0].rings && es[i].moduli == es[0].moduli && es[i].context == es[0].context
  {
  }

  // ---------- the consistency check ----------

  /** V_i = s_i R + l_i G and A_i = rho_i G, from whatever s_i, l_i and rho_i the party holds. */
  ghost predicate Blinded(n: int, bigR: Point, st: State)
    requires n > 0
  {
    && st.bigR == bigR && st.bigAi == MulBase(n, st.roi)
    && st.bigVi == PointAdd(n, PointMul(n, bigR, st.si), MulBase(n, st.li))
  }

  /** The parties after round 6, each blinded with the common R. */
  ghost predicate AllBlinded(n: int, bigR: Point, sts: seq<State>)
    requires n > 0
  {
    forall i :: 0 <= i < |sts| ==> Blinded(n, bigR, sts[i])
  }

  /** The parties before round 9: round 7 ran on everyone's openings, round 8 filed commitments. */
  ghost predicate AfterSeven(es: seq<Env>, before: seq<State>, after: seq<State>, msgs: seq<seq<nat>>) {
    && SameSession(es) && |before| == |after| == |es| == |msgs|
    && forall i :: 0 <= i < |es| ==>
      && es[i].Valid() && OpensVA(es[i], before[i], msgs[i], Each(before, VOf), Each(before, AOf))
      && AfterRound7(es[i], before[i], msgs[i]) == Ok(after[i].(r7Commitments := before[i].r7Commitments))
  }

  /** Sum s_i R = mG + rQ */
  ghost predicate SignatureEquation(n: int, bigR: Point, rx: nat, m: Scalar, pub: Point, s: int)
    requires n > 0
  {
    Cong(bigR * s, m + rx * pub, n)
  }

  lemma VTotal(n: int, bigR: Point, sts: seq<State>)
    requires n > 0 && AllBlinded(n, bigR, sts)
    ensures Cong(Sum(Each(sts, VOf)), bigR * Sum(Each(sts, SOf)) + Sum(Each(sts, LOf)), n)
    ensures Cong(Sum(Each(sts, AOf)), Sum(Each(sts, RhoOf)), n)
  {
    var ss, ls := Each(sts, SOf), Each(sts, LOf);
    forall i | 0 <= i < |sts| ensures Cong(Each(sts, VOf)[i], Plus(Scaled(bigR, ss), ls)[i],
      n) && Cong(Each(sts, AOf)[i], Each(sts, RhoOf)[i], n) {
      BlindedLog(n, bigR, sts[i]);
    }
    hide *;
    SumCong(n, Each(sts, VOf), Plus(Scaled(bigR, ss), ls));
    SumPlus(Scaled(bigR, ss), ls);
    SumScaled(bigR, ss);
    SumCong(n, Each(sts, AOf), Each(sts, RhoOf));
  }

  lemma BlindedLog(n: int, bigR: Point, st: State)
    requires n > 0 && Blinded(n, bigR, st)
    ensures Cong(st.bigVi, bigR * st.si + st.li, n) && Cong(st.bigAi, st.roi, n) && 0 <= st.bigAi < n
    ensures 0 <= st.bigVi < n
  {
    var p, l := PointMul(n, bigR, st.si), MulBase(n, st.li);
    FieldOps(n, bigR, st.si);
    FieldOps(n, st.li, 0);
    FieldOps(n, st.roi, 0);
    FieldOps(n, p, l);
    CongAdd(p, bigR * st.si, l, st.li, n);
    CongTrans(st.bigVi, p + l, bigR * st.si + st.li, n);
  }

  /** The common V and A of round 7. */
  function CommonV(e: Env, bigR: Point, vs: seq<Point>): (v: Point)
    requires e.Valid() && e.pub.Some?
  {
    (Offset(e.g.q, e.m, e.c.xOf(bigR), e.pub.value) + Sum(vs)) % e.g.q
  }

  lemma VLog(e: Env, bigR: Point, sts: seq<State>)
    requires e.Valid() && e.pub.Some? && AllBlinded(e.g.q, bigR, sts)
    ensures Cong(CommonV(e, bigR, Each(sts, VOf)),
                 bigR * Sum(Each(sts, SOf)) - (e.m + e.c.xOf(bigR) * e.pub.value) + Sum(Each(sts, LOf)), e.g.q)
  {
    var n, rx, pub := e.g.q, e.c.xOf(bigR), e.pub.value;
    var off, total := Offset(n, e.m, rx, pub), Sum(Each(sts, VOf));
    VTotal(n, bigR, sts);
    OffsetLog(n, e.m, rx, pub);
    hide *;
    VFinish(n, off, total, bigR * Sum(Each(sts, SOf)), Sum(Each(sts, LOf)), e.m + rx * pub);
    CommonVIs(e, bigR, Each(sts, VOf));
  }

  lemma CommonVIs(e: Env, bigR: Point, vs: seq<Point>)
    requires e.Valid() && e.pub.Some?
    ensures CommonV(e, bigR, vs) == (Offset(e.g.q, e.m, e.c.xOf(bigR), e.pub.value) + Sum(vs)) % e.g.q
  {
  }

  lemma VFinish(n: int, off: int, total: int, rs: int, l: int, target: int)
    requires n > 0 && Cong(off, 0 - target, n) && Cong(total, rs + l, n)
    ensures Cong((off + total) % n, rs - target + l, n)
  {
    CongMod(off + total, n);
    CongAdd(off, 0 - target, total, rs + l, n);
    assert 0 - target + (rs + l) == rs - target + l;
    CongTrans((off + total) % n, off + total, rs - target + l, n);
  }

  lemma OffsetLog(n: int, m: Scalar, rx: nat, pub: Point)
    requires n > 0
    ensures Cong(Offset(n, m, rx, pub), 0 - (m + rx * pub), n)
  {
    var nm, nr := FNeg(n, m), FNeg(n, rx);
    var a, b := MulBase(n, nm), PointMul(n, pub, nr);
    FieldOps(n, m, 0);
    FieldOps(n, rx, 0);
    FieldOps(n, nm, 0);
    FieldOps(n, pub, nr);
    FieldOps(n, a, b);
    hide *;
    NegatedTerms(n, m, rx, pub, nm, nr, a, b);
    CongTrans(PointAdd(n, a, b), a + b, 0 - (m + rx * pub), n);
    OffsetIs(n, m, rx, pub);
  }

  lemma OffsetIs(n: int, m: Scalar, rx: nat, pub: Point)
    requires n > 0
    ensures Offset(n, m, rx, pub) == PointAdd(n, MulBase(n, FNeg(n, m)), PointMul(n, pub, FNeg(n, rx)))
  {
  }

  lemma NegatedTerms(n: int, m: int, rx: int, pub: int, nm: int, nr: int, a: int, b: int)
    requires n > 0 && Cong(nm, -m, n) && Cong(nr, -rx, n) && Cong(a, nm, n) && Cong(b, pub * nr, n)
    ensures Cong(a + b, 0 - (m + rx * pub), n)
  {
    CongTrans(a, nm, -m, n);
    CongScale(pub, nr, -rx, n);
    CongTrans(b, pub * nr, pub * -rx, n);
    CongAdd(a, -m, b, pub * -rx, n);
    assert -m + pub * -rx == 0 - (m + rx * pub);
  }

  /** sum U = (sum rho) V and sum T = (sum l) A */
  lemma UtTotal(es: seq<Env>, bigR: Point, before: seq<State>, after: seq<State>, msgs: seq<seq<nat>>)
    requires AfterSeven(es, before, after, msgs) && es[0].pub.Some?
    requires AllBlinded(es[0].g.q, bigR, before)
    ensures var n, v, a := es[0].g.q, CommonV(es[0], bigR, Each(before, VOf)), Sum(Each(before, AOf)) % es[0].g.q;
      && Each(after, UOf) == MulEach(n, v, Each(before, RhoOf)) && Each(after, TOf) == MulEach(n, a, Each(before, LOf))
  {
    var n, v, a := es[0].g.q, CommonV(es[0], bigR, Each(before, VOf)), Sum(Each(before, AOf)) % es[0].g.q;
    hide Sum, CommonV, OpensVA, AfterRound7, Blinded;
    forall i | 0 <= i < |es| ensures after[i].ui == PointMul(n, v, before[i].roi) && after[i].ti == PointMul(n, a,
      before[i].li) {
      assert Blinded(n, bigR, before[i]);
      SevenOf(es, bigR, before, after, msgs, i);
    }
  }

  function MulEach(n: int, p: Point, xs: seq<int>): (ys: seq<Point>)
    requires n > 0
    ensures |ys| == |xs| && forall i :: 0 <= i < |xs| ==> ys[i] == PointMul(n, p, xs[i])
  {
    seq(|xs|, i requires 0 <= i < |xs| => PointMul(n, p, xs[i]))
  }

  lemma SevenOf(es: seq<Env>, bigR: Point, before: seq<State>, after: seq<State>, msgs: seq<seq<nat>>, i: nat)
    requires AfterSeven(es, before, after, msgs) && es[0].pub.Some? && i < |es| && Blinded(es[0].g.q, bigR, before[i])
    ensures var n := es[0].g.q;
      && after[i].ui == PointMul(n, CommonV(es[0], bigR, Each(before, VOf)), before[i].roi)
      && after[i].ti == PointMul(n, Sum(Each(before, AOf)) % n, before[i].li)
      && after[i].si == before[i].si && after[i].bigR == bigR && after[i].result == before[i].result
  {
    MemberOf(es, i);
    BlindedLog(es[0].g.q, bigR, before[i]);
    hide Sum, OpensVA, SameSession;
    Round7Is(es[i], before[i], msgs[i], Each(before, VOf), Each(before, AOf));
    CommonVIs(es[0], bigR, Each(before, VOf));
  }

  lemma MulEachTotal(n: int, p: Point, xs: seq<int>)
    requires n > 0
    ensures Cong(Sum(MulEach(n, p, xs)), p * Sum(xs), n)
  {
    forall i | 0 <= i < |xs| ensures Cong(MulEach(n, p, xs)[i], Scaled(p, xs)[i], n) { FieldOps(n, p, xs[i]); }
    SumCong(n, MulEach(n, p, xs), Scaled(p, xs));
    SumScaled(p, xs);
  }

  /** The test U = T reads P V = P L for P the sum of the rho's and L that of the l's. */
  lemma CheckAlgebra(n: int, u: int, t: int, v: int, a: int, p: int, l: int, d: int)
    requires IsPrime(n) && Cong(u, v * p, n) && Cong(t, a * l, n) && Cong(a, p, n) && Cong(v, d + l, n)
    ensures u % n == t % n <==> Cong(p, 0, n) || Cong(d, 0, n)
  {
    CongScale(p, v, d + l, n);
    CongTrans(u, v * p, (d + l) * p, n);
    CongScale(l, a, p, n);
    CongTrans(t, a * l, p * l, n);
    CongSub(u, (d + l) * p, t, p * l, n);
    assert (d + l) * p - p * l == p * d;
    CongDiff(u, t, n);
    if Cong(u - t, 0, n) {
      CongFlip(u - t, p * d, n);
      CongTrans(p * d, u - t, 0, n);
      PrimeProduct(n, p, d);
    }
    if Cong(p, 0, n) { CongScale(d, p, 0, n); CongTrans(u - t, p * d, 0, n); }
    if Cong(d, 0, n) { CongScale(p, d, 0, n); CongTrans(u - t, p * d, 0, n); }
  }

  /** The consistency check is exact. Whatever s_i, l_i and rho_i the parties used to form V_i and A_i, every party's
      round-9 test passes if and only if the rho's sum to zero or the s's satisfy the signature equation. */
  lemma ConsistencyExact(es: seq<Env>, bigR: Point, before: seq<State>, after: seq<State>, msgs: seq<seq<nat>>, i: nat,
    payloads: seq<nat>)
    requires AfterSeven(es, before, after, msgs) && es[0].pub.Some? && i < |es| && IsPrime(es[0].g.q)
    requires AllBlinded(es[0].g.q, bigR, before)
    requires OpensUT(es[i], after[i], payloads, Each(after, UOf), Each(after, TOf))
    ensures es[i].Valid()
    ensures AfterRound9(es[i], after[i], payloads) == Ok(after[i]) || AfterRound9(es[i], after[i],
      payloads) == Err(NotConsistent)
    ensures AfterRound9(es[i], after[i], payloads).Ok? <==>
      || Cong(Sum(Each(before, RhoOf)), 0, es[0].g.q)
      || SignatureEquation(es[0].g.q, bigR, es[0].c.xOf(bigR), es[0].m, es[0].pub.value, Sum(Each(before, SOf)))
  {
    hide *;
    SessionOf(es, before, after, msgs, i);
    var n := es[0].g.q;
    UtTotal(es, bigR, before, after, msgs);
    NineOf(es, bigR, before, after, msgs, i, payloads);
    VLog(es[0], bigR, before);
    VTotal(n, bigR, before);
    var v, a := CommonV(es[0], bigR, Each(before, VOf)), Sum(Each(before, AOf)) % n;
    var p, l := Sum(Each(before, RhoOf)), Sum(Each(before, LOf));
    var d := bigR * Sum(Each(before, SOf)) - (es[0].m + es[0].c.xOf(bigR) * es[0].pub.value);
    MulEachTotal(n, v, Each(before, RhoOf));
    MulEachTotal(n, a, Each(before, LOf));
    CongMod(Sum(Each(before, AOf)), n);
    CongTrans(a, Sum(Each(before, AOf)), p, n);
    CheckAlgebra(n, Sum(Each(after, UOf)), Sum(Each(after, TOf)), v, a, p, l, d);
    CongDiff(bigR * Sum(Each(before, SOf)), es[0].m + es[0].c.xOf(bigR) * es[0].pub.value, n);
    EquationIs(n, bigR, es[0].c.xOf(bigR), es[0].m, es[0].pub.value, Sum(Each(before, SOf)));
  }

  lemma SessionOf(es: seq<Env>, before: seq<State>, after: seq<State>, msgs: seq<seq<nat>>, i: nat)
    requires AfterSeven(es, before, after, msgs) && i < |es|
    ensures es[i].Valid() && es[0].Valid() && es[i].g.q == es[0].g.q > 0 && SameSession(es)
  {
    MemberOf(es, i);
  }

  lemma EquationIs(n: int, bigR: Point, rx: nat, m: Scalar, pub: Point, s: int)
    requires n > 0
    ensures SignatureEquation(n, bigR, rx, m, pub, s) <==> Cong(bigR * s, m + rx * pub, n)
  {
  }

  lemma NineOf(es: seq<Env>, bigR: Point, before: seq<State>, after: seq<State>, msgs: seq<seq<nat>>, i: nat,
    payloads: seq<nat>)
    requires AfterSeven(es, before, after, msgs) && es[0].pub.Some? && i < |es| && AllBlinded(es[0].g.q, bigR, before)
    requires OpensUT(es[i], after[i], payloads, Each(after, UOf), Each(after, TOf))
    ensures es[i].Valid()
    ensures AfterRound9(es[i], after[i], payloads)
         == if Sum(Each(after, UOf)) % es[0].g.q == Sum(Each(after,
           TOf)) % es[0].g.q then Ok(after[i]) else Err(NotConsistent)
  {
    MemberOf(es, i);
    assert Blinded(es[0].g.q, bigR, before[i]);
    SevenOf(es, bigR, before, after, msgs, i);
    hide OpensUT, OpensVA, AfterSeven, SameSession, Sum, CommonV;
    Round9Is(es[i], after[i], payloads, Each(after, UOf), Each(after, TOf));
  }

  // ---------- the signature equation in an honest run ----------

  /** After round 3 the theta's share (sum k)(sum gamma) and the sigma's share (sum k)(sum w). */
  ghost predicate ProductsShared(n: int, sts: seq<State>)
    requires n > 0
  {
    && Cong(Sum(Each(sts, ThetaOf)), Sum(Each(sts, KOf)) * Sum(Each(sts, GammaShare)), n)
    && Cong(Sum(Each(sts, SigmaOf)), Sum(Each(sts, KOf)) * Sum(Each(sts, WOf)), n)
    && forall i :: 0 <= i < |sts| ==> sts[i].pointGamma == MulBase(n, sts[i].gamma)
  }

  ghost predicate AfterFour(es: seq<Env>, before: seq<State>, after: seq<State>, msgs: seq<seq<Option<nat>>>) {
    && SameSession(es) && |before| == |after| == |es| == |msgs|
    && forall i :: 0 <= i < |es| ==>
      && es[i].Valid() && Delivered(i, msgs[i], Each(before, ThetaOf))
      && AfterRound4(es[i], before[i], msgs[i]) == Ok(after[i])
  }

  ghost predicate AfterFive(es: seq<Env>, before: seq<State>, after: seq<State>, msgs: seq<seq<nat>>) {
    && SameSession(es) && |before| == |after| == |es| == |msgs|
    && forall i :: 0 <= i < |es| ==>
      && es[i].Valid() && OpensGamma(es[i], before[i], msgs[i], Each(before, GammaPoint))
      && AfterRound5(es[i], before[i], msgs[i], after[i].li, after[i].roi) == Ok(after[i])
  }

  /** The inverse everyone uses, and the nonce point. */
  function CommonInverse(n: int, sts: seq<State>): int
    requires n > 0
  {
    ModInv(Sum(Each(sts, ThetaOf)) % n, n).1
  }

  function CommonR(n: int, sts: seq<State>): (r: Point)
    requires n > 0
    ensures 0 <= r < n
  {
    PointMul(n, Sum(Each(sts, GammaPoint)) % n, CommonInverse(n, sts))
  }

  lemma FourOf(es: seq<Env>, s3: seq<State>, s4: seq<State>, msgs: seq<seq<Option<nat>>>, i: nat)
    requires AfterFour(es, s3, s4, msgs) && i < |es|
    ensures es[0].g.q > 0 && s4[i] == s3[i].(thetaInverse := CommonInverse(es[0].g.q, s3))
    ensures ModInv(Sum(Each(s3, ThetaOf)) % es[0].g.q, es[0].g.q).0
  {
    MemberOf(es, i);
    hide SameSession, Sum, ModInv;
    Round4Is(es[i], s3[i], msgs[i], Each(s3, ThetaOf));
  }

  lemma FiveOf(es: seq<Env>, s3: seq<State>, s4: seq<State>, s5: seq<State>, m4: seq<seq<Option<nat>>>,
    m5: seq<seq<nat>>, i: nat)
    requires AfterFour(es, s3, s4, m4) && AfterFive(es, s4, s5, m5) && i < |es|
    ensures es[0].g.q > 0
    ensures var n := es[0].g.q; var r := CommonR(n, s3);
      && Blinded(n, r, s5[i]) && s5[i].k == s3[i].k && s5[i].sigma == s3[i].sigma
      && s5[i].si == FAdd(n, FMul(n, es[0].m, s3[i].k), FMul(n, es[0].c.xOf(r), s3[i].sigma))
  {
    MemberOf(es, i);
    FourOf(es, s3, s4, m4, i);
    forall j | 0 <= j < |es| ensures s4[j].pointGamma == s3[j].pointGamma { FourOf(es, s3, s4, m4, j); }
    assert Each(s4, GammaPoint) == Each(s3, GammaPoint);
    hide SameSession, Sum, ModInv, CommonInverse, AfterFour, OpensGamma;
    Round5Is(es[i], s4[i], m5[i], Each(s4, GammaPoint), s5[i].li, s5[i].roi);
  }

  /** R k = 1 for R = gamma (k gamma)^-1 G. */
  lemma NonceInverse(n: int, k: int, gamma: int, theta: int, points: int, inv: int)
    requires n > 0 && Cong(theta, k * gamma, n) && Cong((theta % n) * inv, 1, n) && Cong(points, gamma, n)
    ensures Cong(PointMul(n, points % n, inv) * k, 1, n)
  {
    var r := PointMul(n, points % n, inv);
    CongMod(points, n);
    CongTrans(points % n, points, gamma, n);
    FieldOps(n, points % n, inv);
    CongScale(inv, points % n, gamma, n);
    CongTrans(r, (points % n) * inv, gamma * inv, n);
    CongScale(k, r, gamma * inv, n);
    CongMod(theta, n);
    CongTrans(theta % n, theta, k * gamma, n);
    CongScale(inv, theta % n, k * gamma, n);
    CongFlip((theta % n) * inv, (k * gamma) * inv, n);
    CongTrans((k * gamma) * inv, (theta % n) * inv, 1, n);
    assert (gamma * inv) * k == (k * gamma) * inv by { Rotate(gamma, inv, k); }
    CongTrans(r * k, (gamma * inv) * k, 1, n);
  }

  lemma Rotate(a: int, b: int, c: int)
    ensures (a * b) * c == (c * a) * b
  {
  }

  /** R s = m + rx x for s = m k + rx sigma, sigma = k x and R k = 1. */
  lemma EquationAlgebra(n: int, r: int, k: int, m: int, rx: int, s: int, sigma: int, x: int)
    requires n > 0 && Cong(r * k, 1, n) && Cong(s, m * k + rx * sigma, n) && Cong(sigma, k * x, n)
    ensures Cong(r * s, m + rx * x, n)
  {
    CongScale(rx, sigma, k * x, n);
    CongAdd(m * k, m * k, rx * sigma, rx * (k * x), n);
    CongTrans(s, m * k + rx * sigma, m * k + rx * (k * x), n);
    CongScale(r, s, m * k + rx * (k * x), n);
    FactorOut(r, k, m, rx, x);
    CongScale(m + rx * x, r * k, 1, n);
    CongTrans(r * s, r * (m * k + rx * (k * x)), (m + rx * x) * 1, n);
  }

  lemma FactorOut(r: int, k: int, m: int, rx: int, x: int)
    ensures r * (m * k + rx * (k * x)) == (m + rx * x) * (r * k)
  {
    assert r * (m * k) == m * (r * k);
    assert rx * (k * x) == (rx * x) * k;
    assert r * ((rx * x) * k) == (rx * x) * (r * k);
  }

  lemma ShareLog(n: int, m: int, k: int, rx: int, sigma: int)
    requires n > 0
    ensures Cong(FAdd(n, FMul(n, m, k), FMul(n, rx, sigma)), m * k + rx * sigma, n)
  {
    var a, b := FMul(n, m, k), FMul(n, rx, sigma);
    FieldOps(n, m, k);
    FieldOps(n, rx, sigma);
    FieldOps(n, a, b);
    CongAdd(a, m * k, b, rx * sigma, n);
    CongTrans(FAdd(n, a, b), a + b, m * k + rx * sigma, n);
  }

  lemma ValuesOf(a: State, b: State)
    ensures KOf(a) == a.k && SigmaOf(a) == a.sigma && SOf(b) == b.si
  {
  }

  lemma FiveShare(es: seq<Env>, s3: seq<State>, s4: seq<State>, s5: seq<State>, m4: seq<seq<Option<nat>>>,
    m5: seq<seq<nat>>, i: nat)
    requires AfterFour(es, s3, s4, m4) && AfterFive(es, s4, s5, m5) && i < |es|
    ensures es[0].g.q > 0 && |s3| == |s5| == |es|
    ensures var n := es[0].g.q; var rx := es[0].c.xOf(CommonR(n, s3));
      Cong(SOf(s5[i]), es[0].m * KOf(s3[i]) + rx * SigmaOf(s3[i]), n)
  {
    hide *;
    FiveOf(es, s3, s4, s5, m4, m5, i);
    FiveSizes(es, s3, s4, s5, m4, m5);
    ValuesOf(s3[i], s5[i]);
    ShareLog(es[0].g.q, es[0].m, s3[i].k, es[0].c.xOf(CommonR(es[0].g.q, s3)), s3[i].sigma);
  }

  lemma AllFive(es: seq<Env>, s3: seq<State>, s4: seq<State>, s5: seq<State>, m4: seq<seq<Option<nat>>>,
    m5: seq<seq<nat>>)
    requires AfterFour(es, s3, s4, m4) && AfterFive(es, s4, s5, m5)
    ensures es[0].g.q > 0 && AllBlinded(es[0].g.q, CommonR(es[0].g.q, s3), s5)
  {
    FourOf(es, s3, s4, m4, 0);
    FiveSizes(es, s3, s4, s5, m4, m5);
    hide AfterFour, AfterFive, Blinded, CommonR;
    forall i | 0 <= i < |es| ensures Blinded(es[0].g.q, CommonR(es[0].g.q, s3),
      s5[i]) { FiveOf(es, s3, s4, s5, m4, m5, i); }
  }

  lemma ShareTotal(es: seq<Env>, s3: seq<State>, s4: seq<State>, s5: seq<State>, m4: seq<seq<Option<nat>>>,
    m5: seq<seq<nat>>)
    requires AfterFour(es, s3, s4, m4) && AfterFive(es, s4, s5, m5)
    ensures es[0].g.q > 0
    ensures var n := es[0].g.q; var rx := es[0].c.xOf(CommonR(n, s3));
      Cong(Sum(Each(s5, SOf)), es[0].m * Sum(Each(s3, KOf)) + rx * Sum(Each(s3, SigmaOf)), n)
  {
    hide *;
    FiveSizes(es, s3, s4, s5, m4, m5);
    FourOf(es, s3, s4, m4, 0);
    var n, m := es[0].g.q, es[0].m;
    var rx := es[0].c.xOf(CommonR(n, s3));
    var ks, sigmas := Each(s3, KOf), Each(s3, SigmaOf);
    var target := Plus(Scaled(m, ks), Scaled(rx, sigmas));
    forall i | 0 <= i < |es| ensures Cong(Each(s5, SOf)[i], target[i], n) { FiveShare(es, s3, s4, s5, m4, m5, i); }
    SumCong(n, Each(s5, SOf), target);
    SumPlus(Scaled(m, ks), Scaled(rx, sigmas));
    SumScaled(m, ks);
    SumScaled(rx, sigmas);
  }

  lemma FiveSizes(es: seq<Env>, s3: seq<State>, s4: seq<State>, s5: seq<State>, m4: seq<seq<Option<nat>>>,
    m5: seq<seq<nat>>)
    requires AfterFour(es, s3, s4, m4) && AfterFive(es, s4, s5, m5)
    ensures |s3| == |s4| == |s5| == |es| > 0
  {
  }

  lemma GammaTotal(n: int, sts: seq<State>)
    requires n > 0 && ProductsShared(n, sts)
    ensures Cong(Sum(Each(sts, GammaPoint)), Sum(Each(sts, GammaShare)), n)
  {
    forall i | 0 <= i < |sts| ensures Cong(Each(sts, GammaPoint)[i], Each(sts, GammaShare)[i],
      n) { FieldOps(n, sts[i].gamma, 0); }
    SumCong(n, Each(sts, GammaPoint), Each(sts, GammaShare));
  }

  /** In an honest run the summed shares satisfy the signature equation for the key sum w. */
  lemma HonestEquation(es: seq<Env>, s3: seq<State>, s4: seq<State>, s5: seq<State>, m4: seq<seq<Option<nat>>>,
    m5: seq<seq<nat>>, pub: Point)
    requires AfterFour(es, s3, s4, m4) && AfterFive(es, s4, s5, m5) && es[0].g.q > 0 && ProductsShared(es[0].g.q, s3)
    requires Cong(pub, Sum(Each(s3, WOf)), es[0].g.q)
    ensures var n := es[0].g.q; var r := CommonR(n, s3);
      && AllBlinded(n, r, s5)
      && SignatureEquation(n, r, es[0].c.xOf(r), es[0].m, pub, Sum(Each(s5, SOf)))
  {
    hide *;
    FiveSizes(es, s3, s4, s5, m4, m5);
    var n := es[0].g.q;
    var r := CommonR(n, s3);
    AllFive(es, s3, s4, s5, m4, m5);
    ShareTotal(es, s3, s4, s5, m4, m5);
    SharedFacts(n, s3, pub);
    CommonNonce(es, s3, s4, m4);
    EquationAlgebra(n, r, Sum(Each(s3, KOf)), es[0].m, es[0].c.xOf(r), Sum(Each(s5, SOf)), Sum(Each(s3, SigmaOf)), pub);
    EquationIs(n, r, es[0].c.xOf(r), es[0].m, pub, Sum(Each(s5, SOf)));
  }

  /** R is the inverse of the summed nonces, times G. */
  lemma CommonNonce(es: seq<Env>, s3: seq<State>, s4: seq<State>, m4: seq<seq<Option<nat>>>)
    requires AfterFour(es, s3, s4, m4) && es != [] && es[0].g.q > 0 && ProductsShared(es[0].g.q, s3)
    ensures Cong(CommonR(es[0].g.q, s3) * Sum(Each(s3, KOf)), 1, es[0].g.q)
  {
    var n := es[0].g.q;
    FourOf(es, s3, s4, m4, 0);
    ModInvCorrect(Sum(Each(s3, ThetaOf)) % n, n);
    GammaTotal(n, s3);
    hide AfterFour, ModInv, Sum, PointMul, Cong;
    NonceInverse(n, Sum(Each(s3, KOf)), Sum(Each(s3, GammaShare)), Sum(Each(s3, ThetaOf)), Sum(Each(s3, GammaPoint)),
      CommonInverse(n, s3));
  }

  lemma SharedFacts(n: int, sts: seq<State>, pub: Point)
    requires n > 0 && ProductsShared(n, sts) && Cong(pub, Sum(Each(sts, WOf)), n)
    ensures Cong(Sum(Each(sts, ThetaOf)), Sum(Each(sts, KOf)) * Sum(Each(sts, GammaShare)), n)
    ensures Cong(Sum(Each(sts, SigmaOf)), Sum(Each(sts, KOf)) * pub, n)
  {
    var k, w := Sum(Each(sts, KOf)), Sum(Each(sts, WOf));
    hide Sum;
    CongFlip(pub, w, n);
    CongScale(k, w, pub, n);
    CongTrans(Sum(Each(sts, SigmaOf)), k * w, k * pub, n);
  }

  // ---------- the delivered signature ----------

  /** Low s, accepted by the reduced check, and the recovery id describes the point the verifier recomputes. */
  ghost predicate GoodSignature(c: Curve, m: Scalar, pub: Point, bigR: Point, sig: SignatureData)
    requires c.n > 0
  {
    && sig.m == m && sig.r == c.xOf(bigR) && 0 < sig.s < c.n && !IsHighS(c.n, sig.s) && GgVerify(c, m, sig.r, sig.s,
      pub)
    && (sig.recovery % 2 == 1 <==> c.yOdd(RecoveredPoint(c, pub, m, sig.r % c.n, sig.s)))
    && (sig.recovery >= 2 <==> sig.r > c.n) && sig.recovery < 4
  }

  /** The last check, for any r and any s between 0 and the order: with p the point that satisfies
      s*p = m + r*pub, the x-coordinate of p and the given r leave the same residue, and it is not zero. */
  lemma GgVerifyExact(c: Curve, m: Scalar, rx: nat, s: Scalar, pub: Point, p: Point)
    requires IsPrime(c.n) && 0 < s < c.n && 0 <= p < c.n && Cong(s * p, m + (rx % c.n) * pub, c.n)
    ensures GgVerify(c, m, rx, s, pub) <==> rx % c.n != 0 && c.xOf(p) % c.n == rx % c.n
  {
    PrimeUnit(c.n, s);
    SmallMod(s, c.n);
    SmallMod(0, c.n);
    VerifiesExactly(c, pub, m, rx % c.n, s, p);
  }

  /** finalize on shares that satisfy the signature equation: it succeeds exactly when neither r nor s vanishes, and
      then the signature is good. */
  lemma FinalExact(e: Env, bigR: Point, total: int)
    requires e.Valid() && e.c.Valid() && e.pub.Some? && 0 <= bigR < e.g.q
    requires SignatureEquation(e.g.q, bigR, e.c.xOf(bigR), e.m, e.pub.value, total)
    ensures var n, r := e.g.q, Final(e, bigR, total % e.g.q);
      && (r.Ok? <==> e.c.xOf(bigR) % n != 0 && total % n != 0)
      && (r.Err? ==> r.error == FinalVerification)
      && (r.Ok? ==> GoodSignature(e.c, e.m, e.pub.value, bigR, r.value))
  {
    var c, n, pub := e.c, e.g.q, e.pub.value;
    var rx, sum := c.xOf(bigR), total % n;
    var sig := Assemble(c, e.m, bigR, sum);
    if rx % n != 0 && sum != 0 {
      ReducedEquation(n, bigR, rx, e.m, pub, total);
      CongSelf(pub, n);
      NormalizedVerifies(c, bigR, pub, e.m, rx % n, sum, pub);
      NegatedScalar(n, sum);
      hide RecoveredPoint, Cong;
      NormalIs(c, bigR, rx % n, sum);
      PrimeUnit(n, sig.s);
    }
  }

  lemma NegatedScalar(n: int, s: Scalar)
    requires 0 < s < n
    ensures FNeg(n, s) == n - s
  {
    ModUnique(-s, -1, n - s, n);
  }

  lemma NormalIs(c: Curve, bigR: Point, r: Scalar, s: Scalar)
    requires c.n > 0
    ensures Normalize(c, bigR, r, s).r == r
    ensures Normalize(c, bigR, r, s).s == (if IsHighS(c.n, s) then FNeg(c.n, s) else s)
    ensures Normalize(c, bigR, r, s).v <==> c.yOdd(bigR) != IsHighS(c.n, s)
  {
  }

  lemma PrimeUnit(n: int, s: int)
    requires IsPrime(n) && 0 < s < n
    ensures ModInv(s, n).0
  {
    SmallMod(s, n);
    SmallMod(0, n);
    PrimeCoprime(n, s);
    ModInvCorrect(s, n);
  }

  lemma ReducedEquation(n: int, bigR: Point, rx: nat, m: Scalar, pub: Point, total: int)
    requires n > 0 && SignatureEquation(n, bigR, rx, m, pub, total)
    ensures Cong((total % n) * bigR, m + (rx % n) * pub, n) && 0 <= total % n < n
  {
    CongMod(total, n);
    CongMod(rx, n);
    CongScale(bigR, total % n, total, n);
    assert total * bigR == bigR * total;
    CongTrans((total % n) * bigR, bigR * total, m + rx * pub, n);
    CongScale(pub, rx % n, rx, n);
    CongAdd(m, m, (rx % n) * pub, rx * pub, n);
    CongFlip(m + (rx % n) * pub, m + rx * pub, n);
    CongTrans((total % n) * bigR, m + rx * pub, m + (rx % n) * pub, n);
  }

  /** The delivered r is the x-coordinate of R itself, not its residue: what finalize delivers passes SEC 1 exactly when
      that coordinate is below the group order, whatever the summed share. */
  lemma Sec1Exactly(e: Env, bigR: Point, sum: Scalar)
    requires e.Valid() && e.c.Valid() && e.pub.Some? && 0 <= sum < e.c.n && Final(e, bigR, sum).Ok?
    ensures var sig := Final(e, bigR, sum).value;
      Sec1Verify(e.c, e.pub.value, e.m, sig.r, sig.s) <==> e.c.xOf(bigR) < e.c.n
  {
    var c, sig := e.c, Final(e, bigR, sum).value;
    SmallMod(0, c.n);
    if sig.r < c.n {
      SmallMod(sig.r, c.n);
      var p := RecoveredPoint(c, e.pub.value, e.m, sig.r, sig.s);
      hide RecoveredPoint, IsPrime;
      assert c.XScalar(p) == sig.r;
    }
  }

  /** The group of order three, with x-coordinates above the order. */
  function TinyCurve(): Curve { Curve(3, p => if p == 0 then 0 else 4, p => p == 2) }

  function TinyEnv(): Env {
    Env(Setting(3, (_, _) => 0, _ => (0, 0)), TinyCurve(), 1, 0, PrivateKey(0, 0, 0, 0, 0), [Ring(0, 0, 0)], [0],
      Some(2), 2, _ => "",
      (_, _, _) => None, (_, _, _, _) => None, (_, _) => None)
  }

  /** An input that shows it: with R of x-coordinate 4 in a group of order 3, finalize delivers r = 4, which SEC 1
      refuses. */
  lemma Sec1Example()
    ensures TinyEnv().Valid() && TinyEnv().c.Valid() && Final(TinyEnv(), 1, 1).Ok?
    ensures var sig := Final(TinyEnv(), 1, 1).value;
      sig.r == 4 && !Sec1Verify(TinyCurve(), 2, 2, sig.r, sig.s)
  {
    ThreeIsPrime();
    FinalExact(TinyEnv(), 1, 1);
    Sec1Exactly(TinyEnv(), 1, 1);
  }

  // ---------- the honest run ----------

  /** A whole run from round 4 on, every message delivered as sent: the states after rounds 3, 4, 5, 6 and 8, and the
      messages of rounds 4, 5, 7, 9 and finalize. */
  ghost predicate Run(es: seq<Env>, s3: seq<State>, s4: seq<State>, s5: seq<State>, s6: seq<State>, s8: seq<State>,
    m4: seq<seq<Option<nat>>>, m5: seq<seq<nat>>, m7: seq<seq<nat>>, m9: seq<seq<nat>>, m10: seq<seq<Option<nat>>>)
  {
    && AfterFour(es, s3, s4, m4) && AfterFive(es, s4, s5, m5) && AfterSeven(es, s6, s8, m7)
    && |m9| == |m10| == |es|
    && (forall i :: 0 <= i < |es| ==> s6[i] == s5[i].(r5Commitments := s6[i].r5Commitments))
    && (forall i :: 0 <= i < |es| ==> OpensUT(es[i], s8[i], m9[i], Each(s8, UOf), Each(s8, TOf)))
    && (forall i :: 0 <= i < |es| ==> Delivered(i, m10[i], Each(s8, SOf)))
  }

  lemma RunSizes(es: seq<Env>, s3: seq<State>, s4: seq<State>, s5: seq<State>, s6: seq<State>, s8: seq<State>,
    m4: seq<seq<Option<nat>>>, m5: seq<seq<nat>>, m7: seq<seq<nat>>, m9: seq<seq<nat>>, m10: seq<seq<Option<nat>>>)
    requires Run(es, s3, s4, s5, s6, s8, m4, m5, m7, m9, m10)
    ensures es != [] && |s3| == |s4| == |s5| == |s6| == |s8| == |m9| == |m10| == |es| && es[0].Valid() && es[0].g.q > 0
    ensures AfterFour(es, s3, s4, m4) && AfterFive(es, s4, s5, m5) && AfterSeven(es, s6, s8, m7)
  {
  }

  lemma SixIsFive(es: seq<Env>, s3: seq<State>, s4: seq<State>, s5: seq<State>, s6: seq<State>, s8: seq<State>,
    m4: seq<seq<Option<nat>>>, m5: seq<seq<nat>>, m7: seq<seq<nat>>, m9: seq<seq<nat>>, m10: seq<seq<Option<nat>>>)
    requires Run(es, s3, s4, s5, s6, s8, m4, m5, m7, m9, m10)
    ensures es[0].g.q > 0 && |s6| == |s5| && Each(s6, SOf) == Each(s5, SOf)
    ensures AllBlinded(es[0].g.q, CommonR(es[0].g.q, s3), s6)
  {
    RunSizes(es, s3, s4, s5, s6, s8, m4, m5, m7, m9, m10);
    AllFive(es, s3, s4, s5, m4, m5);
    hide AfterFour, AfterFive, AfterSeven, OpensUT, Delivered, CommonR;
    var n, r := es[0].g.q, CommonR(es[0].g.q, s3);
    forall i | 0 <= i < |es| ensures s6[i].si == s5[i].si && Blinded(n, r, s6[i]) { assert Blinded(n, r, s5[i]); }
  }

  lemma EightIsSix(es: seq<Env>, s3: seq<State>, s4: seq<State>, s5: seq<State>, s6: seq<State>, s8: seq<State>,
    m4: seq<seq<Option<nat>>>, m5: seq<seq<nat>>, m7: seq<seq<nat>>, m9: seq<seq<nat>>, m10: seq<seq<Option<nat>>>)
    requires Run(es, s3, s4, s5, s6, s8, m4, m5, m7, m9, m10) && es[0].pub.Some?
    ensures es[0].g.q > 0 && |s8| == |s5| == |es| && Each(s8, SOf) == Each(s5, SOf)
    ensures forall i :: 0 <= i < |es| ==> s8[i].bigR == CommonR(es[0].g.q, s3) && s8[i].si == Each(s8, SOf)[i]
  {
    RunSizes(es, s3, s4, s5, s6, s8, m4, m5, m7, m9, m10);
    SixIsFive(es, s3, s4, s5, s6, s8, m4, m5, m7, m9, m10);
    hide Run, AfterFour, AfterFive, AfterSeven, CommonR, Blinded;
    var n, r := es[0].g.q, CommonR(es[0].g.q, s3);
    forall i | 0 <= i < |es| ensures s8[i].si == s6[i].si && s8[i].bigR == r {
      assert Blinded(n, r, s6[i]);
      SevenOf(es, r, s6, s8, m7, i);
    }
    assert Each(s8, SOf) == Each(s6, SOf);
  }

  /** The consistency check never stops an honest run. */
  lemma HonestPassesCheck(es: seq<Env>, s3: seq<State>, s4: seq<State>, s5: seq<State>, s6: seq<State>, s8: seq<State>,
    m4: seq<seq<Option<nat>>>, m5: seq<seq<nat>>, m7: seq<seq<nat>>, m9: seq<seq<nat>>, m10: seq<seq<Option<nat>>>,
    pub: Point, i: nat)
    requires Run(es, s3, s4, s5, s6, s8, m4, m5, m7, m9, m10) && i < |es| && es[0].pub == Some(pub)
    requires es[0].g.q > 0 && IsPrime(es[0].g.q) && ProductsShared(es[0].g.q, s3)
    requires Cong(pub, Sum(Each(s3, WOf)), es[0].g.q)
    ensures es[i].Valid() && AfterRound9(es[i], s8[i], m9[i]) == Ok(s8[i])
  {
    hide *;
    RunSizes(es, s3, s4, s5, s6, s8, m4, m5, m7, m9, m10);
    SixIsFive(es, s3, s4, s5, s6, s8, m4, m5, m7, m9, m10);
    HonestEquation(es, s3, s4, s5, m4, m5, pub);
    RunOpens(es, s3, s4, s5, s6, s8, m4, m5, m7, m9, m10, i);
    ConsistencyExact(es, CommonR(es[0].g.q, s3), s6, s8, m7, i, m9[i]);
  }

  lemma RunOpens(es: seq<Env>, s3: seq<State>, s4: seq<State>, s5: seq<State>, s6: seq<State>, s8: seq<State>,
    m4: seq<seq<Option<nat>>>, m5: seq<seq<nat>>, m7: seq<seq<nat>>, m9: seq<seq<nat>>, m10: seq<seq<Option<nat>>>,
    i: nat)
    requires Run(es, s3, s4, s5, s6, s8, m4, m5, m7, m9, m10) && i < |es|
    ensures |s8| == |m9| == |m10| == |es|
    ensures OpensUT(es[i], s8[i], m9[i], Each(s8, UOf), Each(s8, TOf)) && Delivered(i, m10[i], Each(s8, SOf))
  {
    hide OpensUT, Delivered, AfterFour, AfterFive;
  }

  /** Signing completeness. In an honest run every party passes the check and ends with the same result: an error only
      when r or s vanishes, otherwise one good signature under the public key. */
  lemma HonestSigning(es: seq<Env>, s3: seq<State>, s4: seq<State>, s5: seq<State>, s6: seq<State>, s8: seq<State>,
    m4: seq<seq<Option<nat>>>, m5: seq<seq<nat>>, m7: seq<seq<nat>>, m9: seq<seq<nat>>, m10: seq<seq<Option<nat>>>,
    pub: Point, i: nat)
    requires Run(es, s3, s4, s5, s6, s8, m4, m5, m7, m9, m10) && i < |es| && es[0].pub == Some(pub)
    requires es[0].c.Valid() && es[0].c.n == es[0].g.q && es[0].g.q > 0
    requires ProductsShared(es[0].g.q, s3) && Cong(pub, Sum(Each(s3, WOf)), es[0].g.q)
    ensures es[i].Valid() && |s8| == |m9| == |m10| == |es|
    ensures AfterRound9(es[i], s8[i], m9[i]) == Ok(s8[i])
    ensures AfterFinalize(es[i], s8[i], m10[i]) == AfterFinalize(es[0], s8[0], m10[0])
    ensures var bigR := CommonR(es[0].g.q, s3); var r := AfterFinalize(es[i], s8[i], m10[i]);
      && (r.Ok? <==> es[0].c.xOf(bigR) % es[0].g.q != 0 && Sum(Each(s5, SOf)) % es[0].g.q != 0)
      && (r.Ok? ==> GoodSignature(es[0].c, es[0].m, pub, bigR, r.value))
  {
    ValidPrime(es[0].c);
    RunSizes(es, s3, s4, s5, s6, s8, m4, m5, m7, m9, m10);
    hide *;
    HonestPassesCheck(es, s3, s4, s5, s6, s8, m4, m5, m7, m9, m10, pub, i);
    HonestEquation(es, s3, s4, s5, m4, m5, pub);
    FinalOf(es, s3, s4, s5, s6, s8, m4, m5, m7, m9, m10, pub, i);
    FinalOf(es, s3, s4, s5, s6, s8, m4, m5, m7, m9, m10, pub, 0);
  }

  lemma ValidPrime(c: Curve)
    requires c.Valid()
    ensures IsPrime(c.n) && c.n > 0
  {
  }

  lemma FinalOf(es: seq<Env>, s3: seq<State>, s4: seq<State>, s5: seq<State>, s6: seq<State>, s8: seq<State>,
    m4: seq<seq<Option<nat>>>, m5: seq<seq<nat>>, m7: seq<seq<nat>>, m9: seq<seq<nat>>, m10: seq<seq<Option<nat>>>,
    pub: Point, i: nat)
    requires Run(es, s3, s4, s5, s6, s8, m4, m5, m7, m9, m10) && i < |es| && es[0].pub == Some(pub)
    requires es[0].c.Valid() && es[0].g.q > 0
    requires var r := CommonR(es[0].g.q, s3);
      SignatureEquation(es[0].g.q, r, es[0].c.xOf(r), es[0].m, pub, Sum(Each(s5, SOf)))
    ensures es[0].Valid() && es[i].Valid() && |s8| == |m10| == |es|
    ensures var bigR := CommonR(es[0].g.q, s3); var r := AfterFinalize(es[i], s8[i], m10[i]);
      && r == Final(es[0], bigR, Sum(Each(s5, SOf)) % es[0].g.q)
      && (r.Ok? <==> es[0].c.xOf(bigR) % es[0].g.q != 0 && Sum(Each(s5, SOf)) % es[0].g.q != 0)
      && (r.Ok? ==> GoodSignature(es[0].c, es[0].m, pub, bigR, r.value))
  {
    hide *;
    RunSizes(es, s3, s4, s5, s6, s8, m4, m5, m7, m9, m10);
    EightIsSix(es, s3, s4, s5, s6, s8, m4, m5, m7, m9, m10);
    RunOpens(es, s3, s4, s5, s6, s8, m4, m5, m7, m9, m10, i);
    SessionOf(es, s6, s8, m7, i);
    MemberOf(es, i);
    FinalizeIs(es[i], s8[i], m10[i], Each(s8, SOf));
    FinalExact(es[i], s8[i].bigR, Sum(Each(s5, SOf)));
    SameFinal(es[0], es[i], s8[i].bigR, Sum(Each(s5, SOf)) % es[0].g.q);
  }

  lemma SameFinal(a: Env, b: Env, bigR: Point, sum: Scalar)
    requires a.Valid() && b.Valid() && a.c == b.c && a.m == b.m && a.pub == b.pub
    ensures Final(a, bigR, sum) == Final(b, bigR, sum)
  {
    hide Assemble, GgVerify;
  }

  // ---------- round 3 of an honest committee ----------

  function MessageAt(msgs: seq<Option<R2Msg>>, k: nat): Option<R2Msg> { if k < |msgs| then msgs[k] else None }

  /** What party i finishes with peer j. */
  function Finished(es: seq<Env>, s2: seq<State>, m3: seq<seq<Option<R2Msg>>>, i: nat, j: nat): (nat, nat) {
    if i < |es| && i < |s2| && i < |m3| && es[i].Valid() && j < es[i].count && es[i].count > 1 then
      var a := AliceFor(es[i], s2[i], j, MessageAt(m3[i], Slot(i, j)));
      if a.Ok? then a.value else (0, 0)
    else (0, 0)
  }

  function HeldAt(xs: seq<Option<nat>>, j: nat): int { Held(xs, j) }

  function Alphas(es: seq<Env>, s2: seq<State>, m3: seq<seq<Option<R2Msg>>>): Matrix {
    (i: nat, j: nat) => Finished(es, s2, m3, i, j).0
  }
  function Us(es: seq<Env>, s2: seq<State>, m3: seq<seq<Option<R2Msg>>>): Matrix {
    (i: nat, j: nat) => Finished(es, s2, m3, i, j).1
  }
  function Betas(s2: seq<State>): Matrix { (i: nat, j: nat) => if i < |s2| then HeldAt(s2[i].betas, j) else 0 }
  function Nus(s2: seq<State>): Matrix { (i: nat, j: nat) => if i < |s2| then HeldAt(s2[i].vs, j) else 0 }

  /** The conversions between parties i (first) and j (second) completed and share k_i gamma_j and k_i w_j. */
  ghost predicate PairShared(n: int, es: seq<Env>, s2: seq<State>, m3: seq<seq<Option<R2Msg>>>, i: nat, j: nat)
    requires n > 0 && i < |es| == |s2| == |m3| && j < |es|
  {
    && es[i].Valid() && j < es[i].count && es[i].count > 1
    && AliceFor(es[i], s2[i], j, MessageAt(m3[i], Slot(i, j))).Ok?
    && Cong(Finished(es, s2, m3, i, j).0 + Held(s2[j].betas, i), s2[i].k * s2[j].gamma, n)
    && Cong(Finished(es, s2, m3, i, j).1 + Held(s2[j].vs, i), s2[i].k * s2[j].w, n)
  }

  ghost predicate AfterThree(es: seq<Env>, s2: seq<State>, s3: seq<State>, m3: seq<seq<Option<R2Msg>>>) {
    && SameSession(es) && |s2| == |s3| == |m3| == |es| && es[0].g.q > 0
    && (forall i :: 0 <= i < |es| ==>
      es[i].Valid() && |m3[i]| == |es| - 1 && AfterRound3(es[i], s2[i], m3[i]) == Ok(s3[i]))
    && (forall i, j :: 0 <= i < |es| && 0 <= j < |es| && i != j ==> PairShared(es[0].g.q, es, s2, m3, i, j))
    && forall i :: 0 <= i < |es| ==> s2[i].pointGamma == MulBase(es[0].g.q, s2[i].gamma)
  }

  lemma ThreeParts(es: seq<Env>, s2: seq<State>, s3: seq<State>, m3: seq<seq<Option<R2Msg>>>, i: nat)
    requires AfterThree(es, s2, s3, m3) && i < |es|
    ensures es[0].g.q > 0 && |s2| == |s3| == |m3| == |es|
    ensures es[i].Valid() && es[i].me == i && es[i].count == |es| && es[i].g == es[0].g
    ensures |m3[i]| == |es| - 1 && AfterRound3(es[i], s2[i], m3[i]) == Ok(s3[i])
    ensures s2[i].pointGamma == MulBase(es[0].g.q, s2[i].gamma)
  {
    hide PairShared, AfterRound3;
    MemberOf(es, i);
  }

  lemma PairOf(es: seq<Env>, s2: seq<State>, s3: seq<State>, m3: seq<seq<Option<R2Msg>>>, i: nat, j: nat)
    requires AfterThree(es, s2, s3, m3) && i < |es| && j < |es| && i != j
    ensures es[0].g.q > 0 && |s2| == |m3| == |es| && PairShared(es[0].g.q, es, s2, m3, i, j)
  {
    hide PairShared, AfterRound3, SameSession;
  }

  lemma PairHeld(es: seq<Env>, s2: seq<State>, s3: seq<State>, m3: seq<seq<Option<R2Msg>>>, i: nat, j: nat)
    requires AfterThree(es, s2, s3, m3) && i < |es| && j < |es| && i != j
    ensures es[0].g.q > 0 && |s2| == |es|
    ensures Cong(Alphas(es, s2, m3)(i, j) + Betas(s2)(j, i), s2[i].k * s2[j].gamma, es[0].g.q)
    ensures Cong(Us(es, s2, m3)(i, j) + Nus(s2)(j, i), s2[i].k * s2[j].w, es[0].g.q)
  {
    hide *;
    PairOf(es, s2, s3, m3, i, j);
    PairMeans(es[0].g.q, es, s2, m3, i, j);
  }

  lemma PairMeans(n: int, es: seq<Env>, s2: seq<State>, m3: seq<seq<Option<R2Msg>>>, i: nat, j: nat)
    requires n > 0 && i < |es| == |s2| == |m3| && j < |es| && PairShared(n, es, s2, m3, i, j)
    ensures Cong(Alphas(es, s2, m3)(i, j) + Betas(s2)(j, i), s2[i].k * s2[j].gamma, n)
    ensures Cong(Us(es, s2, m3)(i, j) + Nus(s2)(j, i), s2[i].k * s2[j].w, n)
  {
    hide Cong, AliceFor, Finished, Env.Valid;
  }

  lemma ConvertedPair(es: seq<Env>, s2: seq<State>, s3: seq<State>, m3: seq<seq<Option<R2Msg>>>, i: nat, k: nat)
    requires AfterThree(es, s2, s3, m3) && i < |es| && k < |es| - 1
    ensures es[i].Valid() && |s2| == |m3| == |es| && |m3[i]| == |es| - 1
    ensures ConvertedWith(es[i], s2[i], Other(i, k), m3[i][k],
      RowOf(Added(Alphas(es, s2, m3), Betas(s2)), i, |es|), RowOf(Added(Us(es, s2, m3), Nus(s2)), i, |es|))
  {
    hide AfterThree, AliceFor, SameSession, Cong, AfterRound3;
    var j := Other(i, k);
    ThreeParts(es, s2, s3, m3, i);
    PairOf(es, s2, s3, m3, i, j);
    assert Slot(i, j) == k && MessageAt(m3[i], Slot(i, j)) == m3[i][k];
  }

  lemma ThreeOf(es: seq<Env>, s2: seq<State>, s3: seq<State>, m3: seq<seq<Option<R2Msg>>>, i: nat)
    requires AfterThree(es, s2, s3, m3) && i < |es|
    ensures es[0].g.q > 0 && |s2| == |s3| == |es| && s3[i] == s2[i].(theta := s3[i].theta, sigma := s3[i].sigma)
    ensures Cong(s3[i].theta, s2[i].k * s2[i].gamma + OffRow(Added(Alphas(es, s2, m3), Betas(s2)), i, |es|), es[0].g.q)
    ensures Cong(s3[i].sigma, s2[i].k * s2[i].w + OffRow(Added(Us(es, s2, m3), Nus(s2)), i, |es|), es[0].g.q)
  {
    hide *;
    ThreeParts(es, s2, s3, m3, i);
    ThreeConverted(es, s2, s3, m3, i);
    Round3Is(es[i], s2[i], m3[i], Alphas(es, s2, m3), Betas(s2), Us(es, s2, m3), Nus(s2));
  }

  lemma ThreeConverted(es: seq<Env>, s2: seq<State>, s3: seq<State>, m3: seq<seq<Option<R2Msg>>>, i: nat)
    requires AfterThree(es, s2, s3, m3) && i < |es|
    ensures es[i].Valid() && |s2| == |m3| == |es|
    ensures Converted(es[i], s2[i], m3[i], RowOf(Added(Alphas(es, s2, m3), Betas(s2)), i, |es|),
      RowOf(Added(Us(es, s2, m3), Nus(s2)), i, |es|))
  {
    hide AfterThree, ConvertedWith, Env.Valid, Alphas, Us, Betas, Nus, Added, RowOf, SameSession;
    ThreeParts(es, s2, s3, m3, i);
    forall k | 0 <= k < |m3[i]|
      ensures ConvertedWith(es[i], s2[i], Other(i, k), m3[i][k],
        RowOf(Added(Alphas(es, s2, m3), Betas(s2)), i, |es|), RowOf(Added(Us(es, s2, m3), Nus(s2)), i, |es|))
    {
      ConvertedPair(es, s2, s3, m3, i, k);
    }
  }

  lemma RowsHeld(es: seq<Env>, s2: seq<State>, s3: seq<State>, m3: seq<seq<Option<R2Msg>>>)
    requires AfterThree(es, s2, s3, m3)
    ensures es != [] && es[0].g.q > 0 && |s2| == |s3| == |es|
    ensures HoldsShares(es[0].g.q, Each(s2, KOf), Each(s2, GammaShare), Alphas(es, s2, m3), Betas(s2),
      Each(s3, ThetaOf))
    ensures HoldsShares(es[0].g.q, Each(s2, KOf), Each(s2, WOf), Us(es, s2, m3), Nus(s2), Each(s3, SigmaOf))
  {
    hide *;
    NotEmpty(es, s2, s3, m3);
    ThreeParts(es, s2, s3, m3, 0);
    forall i | 0 <= i < |es|
      ensures Cong(Each(s3, ThetaOf)[i], Each(s2, KOf)[i] * Each(s2, GammaShare)[i] + OffRow(Added(Alphas(es, s2, m3),
        Betas(s2)), i, |es|), es[0].g.q)
      ensures Cong(Each(s3, SigmaOf)[i], Each(s2, KOf)[i] * Each(s2, WOf)[i] + OffRow(Added(Us(es, s2, m3), Nus(s2)), i,
        |es|), es[0].g.q)
    {
      ThreeValues(es, s2, s3, m3, i);
    }
    forall i: nat, j: nat | i < |es| && j < |es| && i != j
      ensures Cong(Alphas(es, s2, m3)(i, j) + Betas(s2)(j, i), Each(s2, KOf)[i] * Each(s2, GammaShare)[j], es[0].g.q)
      ensures Cong(Us(es, s2, m3)(i, j) + Nus(s2)(j, i), Each(s2, KOf)[i] * Each(s2, WOf)[j], es[0].g.q)
    {
      PairValues(es, s2, s3, m3, i, j);
    }
    HoldsFrom(es[0].g.q, Each(s2, KOf), Each(s2, GammaShare), Alphas(es, s2, m3), Betas(s2), Each(s3, ThetaOf));
    HoldsFrom(es[0].g.q, Each(s2, KOf), Each(s2, WOf), Us(es, s2, m3), Nus(s2), Each(s3, SigmaOf));
  }

  lemma ThreeValues(es: seq<Env>, s2: seq<State>, s3: seq<State>, m3: seq<seq<Option<R2Msg>>>, i: nat)
    requires AfterThree(es, s2, s3, m3) && i < |es|
    ensures es[0].g.q > 0 && |s2| == |s3| == |es|
    ensures Cong(Each(s3, ThetaOf)[i], Each(s2, KOf)[i] * Each(s2, GammaShare)[i] + OffRow(Added(Alphas(es, s2, m3),
      Betas(s2)), i, |es|), es[0].g.q)
    ensures Cong(Each(s3, SigmaOf)[i], Each(s2, KOf)[i] * Each(s2, WOf)[i] + OffRow(Added(Us(es, s2, m3), Nus(s2)), i,
      |es|), es[0].g.q)
  {
    hide AfterThree, Cong, OffRow, Added, Alphas, Us, Betas, Nus;
    ThreeOf(es, s2, s3, m3, i);
  }

  lemma PairValues(es: seq<Env>, s2: seq<State>, s3: seq<State>, m3: seq<seq<Option<R2Msg>>>, i: nat, j: nat)
    requires AfterThree(es, s2, s3, m3) && i < |es| && j < |es| && i != j
    ensures es[0].g.q > 0 && |s2| == |es|
    ensures Cong(Alphas(es, s2, m3)(i, j) + Betas(s2)(j, i), Each(s2, KOf)[i] * Each(s2, GammaShare)[j], es[0].g.q)
    ensures Cong(Us(es, s2, m3)(i, j) + Nus(s2)(j, i), Each(s2, KOf)[i] * Each(s2, WOf)[j], es[0].g.q)
  {
    hide AfterThree, Cong, Alphas, Us, Betas, Nus;
    PairHeld(es, s2, s3, m3, i, j);
  }

  lemma NotEmpty(es: seq<Env>, s2: seq<State>, s3: seq<State>, m3: seq<seq<Option<R2Msg>>>)
    requires AfterThree(es, s2, s3, m3)
    ensures es != []
  {
    hide PairShared, AfterRound3;
  }

  /** Round 3 leaves the committee with shares of (sum k)(sum gamma) and (sum k)(sum w). */
  lemma Round3Products(es: seq<Env>, s2: seq<State>, s3: seq<State>, m3: seq<seq<Option<R2Msg>>>)
    requires AfterThree(es, s2, s3, m3)
    ensures es != [] && es[0].g.q > 0 && ProductsShared(es[0].g.q, s3) && |s2| == |s3| && Each(s3, WOf) == Each(s2, WOf)
  {
    hide AfterThree, HoldsShares, Sum, Cong, OffRow, Alphas, Us, Betas, Nus, Added;
    NotEmpty(es, s2, s3, m3);
    RowsHeld(es, s2, s3, m3);
    var n := es[0].g.q;
    var ks, gs, ws := Each(s2, KOf), Each(s2, GammaShare), Each(s2, WOf);
    SharesOfProduct(n, ks, gs, Alphas(es, s2, m3), Betas(s2), Each(s3, ThetaOf));
    SharesOfProduct(n, ks, ws, Us(es, s2, m3), Nus(s2), Each(s3, SigmaOf));
    forall i | 0 <= i < |es| ensures s3[i].k == s2[i].k && s3[i].gamma == s2[i].gamma && s3[i].w == s2[i].w
      && s3[i].pointGamma == MulBase(n, s3[i].gamma)
    {
      ThreeOf(es, s2, s3, m3, i);
      ThreeParts(es, s2, s3, m3, i);
    }
    assert Each(s3, KOf) == ks && Each(s3, GammaShare) == gs && Each(s3, WOf) == ws;
  }

  // ---------- the conversions between two honest parties ----------

  /** Party j answers what party i sent it in round 1, party i finishes: both conversions are single honest runs. */
  ghost predicate PairRan(ei: Env, ej: Env, si: State, sj: State, draw: InitDraw, draws: (BobDraw, BobDraw),
    answer: (BobMessage, BobMessage))
  {
    && ei.Valid() && ej.Valid() && ei.me != ej.me && ei.count == ej.count && ei.g == ej.g && ei.rings == ej.rings
    && ei.context == ej.context && ei.moduli == ej.moduli && ei.count > 1 && ej.moduli[ei.me] == ei.sk.n
    && InitFor(ei, si.k, ej.me, draw).Ok?
    && var (ca, pf) := InitFor(ei, si.k, ej.me, draw).value;
       && Held(si.cis, ej.me) == ca && BobFor(ej, sj, ei.me, R1Proof(ca, Some(pf)), draws) == Ok(answer)
       && Held(sj.betas, ei.me) == answer.0.beta && Held(sj.vs, ei.me) == answer.1.beta
       && PointAt(si.bigWs, ej.me) == PointAt(sj.bigWs, ej.me)
  }

  /** The parameters of one conversion are honest and large enough. */
  ghost predicate HonestPair(ei: Env, ej: Env, b: nat, xPoint: Option<Point>, k: nat, p: nat, q: nat, draw: InitDraw,
    d: BobDraw)
    requires ei.Valid() && ej.Valid() && ei.me < |ei.rings| && ej.me < |ei.rings|
  {
    && Honest(ei.g, p, q, k, b, ei.rings[ei.me], ei.rings[ej.me], xPoint, draw.ra, d.rb, d.betaprm, draw.d, d.d)
    && k < ei.g.q && b < ei.g.q && d.betaprm < Fifth(ei.g.q) && p * q > Fifth(ei.g.q) + ei.g.q * ei.g.q
    && ei.sk == KeyFrom(p, q)
  }

  lemma BobForParts(e: Env, st: State, j: nat, m: R1Proof, draws: (BobDraw, BobDraw), answer: (BobMessage, BobMessage))
    requires e.Valid() && j < e.count && e.count > 1 && BobFor(e, st, j, m, draws) == Ok(answer)
    ensures m.range.Some?
    ensures BobMid(e.g, e.context(e.me), e.moduli[j], m.range.value, st.gamma, m.c, e.rings[j], e.rings[e.me],
                   None, draws.0.betaprm, draws.0.rb, draws.0.d) == Ok(answer.0)
    ensures BobMid(e.g, e.context(e.me), e.moduli[j], m.range.value, st.w, m.c, e.rings[j], e.rings[e.me],
                   Some(PointAt(st.bigWs, e.me)), draws.1.betaprm, draws.1.rb, draws.1.d) == Ok(answer.1)
  {
    hide BobMid;
  }

  lemma AliceForParts(e: Env, st: State, j: nat, answer: (BobMessage, BobMessage))
    requires e.Valid() && j < e.count && e.count > 1 && AliceFor(e, st, j, Some(Answer(answer))).Ok?
    ensures var a := AliceFor(e, st, j, Some(Answer(answer))).value;
      && AliceEnd(e.g, e.context(j), e.sk, answer.0.pi, None, e.rings[e.me], Held(st.cis, j), answer.0.cb) == Ok(a.0)
      && AliceEnd(e.g, e.context(j), e.sk, answer.1.pi, Some(PointAt(st.bigWs, j)), e.rings[e.me], Held(st.cis, j),
        answer.1.cb) == Ok(a.1)
  {
    hide AliceEnd;
  }

  /** The three steps put together are one conversion. */
  lemma ConvertIs(g: Setting, session: string, sk: PrivateKey, a: nat, b: nat, ringA: Ring, ringB: Ring,
    xPoint: Option<Point>,
    ra: nat, d: BobDraw, d1: RangeDraws, ca: nat, pf: RangeProof, bm: BobMessage, alpha: nat)
    requires g.q > 0 && sk.n > 0 && sk.n * sk.n > 0 && ringA.nt > 0 && ringB.nt > 0
    requires AliceInit(g, sk.n, a, ringB, ra, d1) == Ok((ca, pf))
    requires BobMid(g, session, sk.n, pf, b, ca, ringA, ringB, xPoint, d.betaprm, d.rb, d.d) == Ok(bm)
    requires AliceEnd(g, session, sk, bm.pi, xPoint, ringA, ca, bm.cb) == Ok(alpha)
    ensures Convert(g, session, sk, a, b, ringA, ringB, xPoint, ra, d.rb, d.betaprm, d1, d.d) == Ok((alpha, bm.beta))
  {
    hide AliceInit, BobMid, AliceEnd;
  }

  /** One completed conversion of the pair shares its product. */
  lemma OneConversion(ei: Env, ej: Env, b: nat, xPoint: Option<Point>, k: nat, p: nat, q: nat, draw: InitDraw,
    d: BobDraw,
    ca: nat, pf: RangeProof, bm: BobMessage, alpha: nat)
    requires ei.Valid() && ej.Valid() && ei.count > 1 && ej.me < |ei.rings|
    requires HonestPair(ei, ej, b, xPoint, k, p, q, draw, d)
    requires AliceInit(ei.g, ei.sk.n, k, ei.rings[ej.me], draw.ra, draw.d) == Ok((ca, pf))
    requires BobMid(ei.g, ei.context(ej.me), ei.sk.n, pf, b, ca, ei.rings[ei.me], ei.rings[ej.me], xPoint, d.betaprm,
      d.rb, d.d) == Ok(bm)
    requires AliceEnd(ei.g, ei.context(ej.me), ei.sk, bm.pi, xPoint, ei.rings[ei.me], ca, bm.cb) == Ok(alpha)
    ensures Cong(alpha + bm.beta, k * b, ei.g.q)
  {
    hide Honest, AliceInit, BobMid, AliceEnd, Convert, Cong, Fifth;
    ConvertIs(ei.g, ei.context(ej.me), ei.sk, k, b, ei.rings[ei.me], ei.rings[ej.me], xPoint, draw.ra, d, draw.d, ca,
      pf, bm, alpha);
    MtaCorrect(ei.g, ei.context(ej.me), p, q, k, b, ei.rings[ei.me], ei.rings[ej.me], xPoint, draw.ra, d.rb, d.betaprm,
      draw.d, d.d);
    SwapProduct(k, b);
  }

  lemma SwapProduct(a: int, b: int)
    ensures a * b == b * a
  {
  }

  /** A completed pair of honest conversions shares both products. */
  lemma PairProducts(ei: Env, ej: Env, si: State, sj: State, draw: InitDraw, draws: (BobDraw, BobDraw),
    answer: (BobMessage, BobMessage),
    p: nat, q: nat)
    requires PairRan(ei, ej, si, sj, draw, draws, answer)
    requires HonestPair(ei, ej, sj.gamma, None, si.k, p, q, draw, draws.0)
    requires HonestPair(ei, ej, sj.w, Some(PointAt(sj.bigWs, ej.me)), si.k, p, q, draw, draws.1)
    requires AliceFor(ei, si, ej.me, Some(Answer(answer))).Ok?
    ensures var a := AliceFor(ei, si, ej.me, Some(Answer(answer))).value;
      && Cong(a.0 + Held(sj.betas, ei.me), si.k * sj.gamma, ei.g.q)
      && Cong(a.1 + Held(sj.vs, ei.me), si.k * sj.w, ei.g.q)
  {
    hide HonestPair, AliceInit, BobMid, AliceEnd, BobFor, AliceFor, Cong;
    var (ca, pf) := InitFor(ei, si.k, ej.me, draw).value;
    BobForParts(ej, sj, ei.me, R1Proof(ca, Some(pf)), draws, answer);
    AliceForParts(ei, si, ej.me, answer);
    var a := AliceFor(ei, si, ej.me, Some(Answer(answer))).value;
    OneConversion(ei, ej, sj.gamma, None, si.k, p, q, draw, draws.0, ca, pf, answer.0, a.0);
    OneConversion(ei, ej, sj.w, Some(PointAt(sj.bigWs, ej.me)), si.k, p, q, draw, draws.1, ca, pf, answer.1, a.1);
  }

  /** When the two conversions of an honest pair go through: party i can always start, party j answers exactly when i's
      responses are in range, and party i finishes exactly when those of both answers are. */
  lemma PairCompletes(ei: Env, ej: Env, si: State, sj: State, draw: InitDraw, draws: (BobDraw, BobDraw), p: nat, q: nat)
    requires ei.Valid() && ej.Valid() && ei.me != ej.me && ei.count == ej.count && ei.g == ej.g && ei.rings == ej.rings
    requires ei.context == ej.context && ei.moduli == ej.moduli && ei.count > 1 && ej.moduli[ei.me] == ei.sk.n
    requires PointAt(si.bigWs, ej.me) == PointAt(sj.bigWs, ej.me)
    requires HonestPair(ei, ej, sj.gamma, None, si.k, p, q, draw, draws.0)
    requires HonestPair(ei, ej, sj.w, Some(PointAt(sj.bigWs, ej.me)), si.k, p, q, draw, draws.1)
    ensures InitFor(ei, si.k, ej.me, draw).Ok?
    ensures var (ca, pf) := InitFor(ei, si.k, ej.me, draw).value;
      var answer := BobFor(ej, sj, ei.me, R1Proof(ca, Some(pf)), draws);
      && (answer.Ok? <==> RangeLucky(ei.g.q, pf))
      && (answer.Ok? && Held(si.cis, ej.me) == ca ==>
        (AliceFor(ei, si, ej.me, Some(Answer(answer.value))).Ok? <==>
          BobLucky(ei.g.q, answer.value.0.pi) && BobLucky(ei.g.q, answer.value.1.pi)))
  {
    hide *;
    EnvParts(ei);
    EnvParts(ej);
    OneSteps(ei, ej, sj.gamma, None, si.k, p, q, draw, draws.0);
    OneSteps(ei, ej, sj.w, Some(PointAt(sj.bigWs, ej.me)), si.k, p, q, draw, draws.1);
    InitIs(ei, si.k, ej.me, draw);
    var (ca, pf) := InitFor(ei, si.k, ej.me, draw).value;
    BobForIs(ej, sj, ei.me, ca, pf, draws);
    var answer := BobFor(ej, sj, ei.me, R1Proof(ca, Some(pf)), draws);
    if answer.Ok? { AliceForIs(ei, si, ej.me, answer.value); }
  }

  lemma EnvParts(e: Env)
    requires e.Valid() && e.count > 1
    ensures e.g.q > 0 && e.me < e.count == |e.rings| == |e.moduli| && e.sk.n > 0 && e.sk.n * e.sk.n > 0
    ensures forall j :: 0 <= j < e.count ==> e.rings[j].nt > 0 && e.moduli[j] > 0 && e.moduli[j] * e.moduli[j] > 0
  {
  }

  lemma OneSteps(ei: Env, ej: Env, b: nat, xPoint: Option<Point>, k: nat, p: nat, q: nat, draw: InitDraw, d: BobDraw)
    requires ei.Valid() && ej.Valid() && ei.count > 1 && ei.me < |ei.rings| && ej.me < |ei.rings|
    requires HonestPair(ei, ej, b, xPoint, k, p, q, draw, d)
    ensures ei.g.q > 0 && ei.sk.n > 0 && ei.sk.n * ei.sk.n > 0
    ensures ei.rings[ei.me].nt > 0 && ei.rings[ej.me].nt > 0
    ensures AliceInit(ei.g, ei.sk.n, k, ei.rings[ej.me], draw.ra, draw.d).Ok?
    ensures var (ca, pf) := AliceInit(ei.g, ei.sk.n, k, ei.rings[ej.me], draw.ra, draw.d).value;
      var bob := BobMid(ei.g, ei.context(ej.me), ei.sk.n, pf, b, ca, ei.rings[ei.me], ei.rings[ej.me], xPoint,
        d.betaprm, d.rb, d.d);
      && (bob.Ok? <==> RangeLucky(ei.g.q, pf))
      && (bob.Ok? ==>
        && (bob.value.pi.u.Some? <==> xPoint.Some?)
        && (AliceEnd(ei.g, ei.context(ej.me), ei.sk, bob.value.pi, xPoint, ei.rings[ei.me], ca, bob.value.cb).Ok? <==>
          BobLucky(ei.g.q, bob.value.pi)))
  {
    hide Honest, AliceInit, BobMid, AliceEnd, RangeLucky, BobLucky, Fifth;
    HonestSteps(ei.g, ei.context(ej.me), p, q, k, b, ei.rings[ei.me], ei.rings[ej.me], xPoint, draw.ra, d.rb, d.betaprm,
      draw.d, d.d);
  }

  lemma InitIs(e: Env, k: nat, j: nat, draw: InitDraw)
    requires e.Valid() && j < e.count && e.count > 1
    ensures e.g.q > 0 && e.sk.n > 0 && e.sk.n * e.sk.n > 0 && j < |e.rings| && e.rings[j].nt > 0
    ensures InitFor(e, k, j, draw) == AliceInit(e.g, e.sk.n, k, e.rings[j], draw.ra, draw.d)
  {
    hide AliceInit;
  }

  lemma BobForIs(e: Env, st: State, j: nat, c: nat, pf: RangeProof, draws: (BobDraw, BobDraw))
    requires e.Valid() && j < e.count && e.count > 1
    ensures e.g.q > 0 && j < |e.moduli| && e.moduli[j] > 0 && e.moduli[j] * e.moduli[j] > 0
    ensures j < |e.rings| && e.me < |e.rings| && e.rings[j].nt > 0 && e.rings[e.me].nt > 0
    ensures var first := BobMid(e.g, e.context(e.me), e.moduli[j], pf, st.gamma, c, e.rings[j], e.rings[e.me], None,
        draws.0.betaprm, draws.0.rb, draws.0.d);
      var second := BobMid(e.g, e.context(e.me), e.moduli[j], pf, st.w, c, e.rings[j], e.rings[e.me],
        Some(PointAt(st.bigWs, e.me)), draws.1.betaprm, draws.1.rb, draws.1.d);
      var r := BobFor(e, st, j, R1Proof(c, Some(pf)), draws);
      (r.Ok? <==> first.Ok? && second.Ok?) && (r.Ok? ==> r.value == (first.value, second.value))
  {
    hide BobMid;
  }

  lemma AliceForIs(e: Env, st: State, j: nat, answer: (BobMessage, BobMessage))
    requires e.Valid() && j < e.count && e.count > 1
    ensures e.g.q > 0 && e.sk.n > 0 && e.sk.n * e.sk.n > 0 && e.me < |e.rings| && e.rings[e.me].nt > 0
    ensures AliceFor(e, st, j, Some(Answer(answer))).Ok? <==>
      && AliceEnd(e.g, e.context(j), e.sk, answer.0.pi, None, e.rings[e.me], Held(st.cis, j), answer.0.cb).Ok?
      && answer.1.pi.u.Some?
      && AliceEnd(e.g, e.context(j), e.sk, answer.1.pi, Some(PointAt(st.bigWs, j)), e.rings[e.me], Held(st.cis, j),
        answer.1.cb).Ok?
  {
    hide AliceEnd;
  }

  // ---------- the weighted shares ----------

  /** Every party started from the same consistent public shares and checked peer parameters, with a secret share that
      matches its own public share. */
  ghost predicate AllStarted(es: seq<Env>, sts: seq<State>, keys: seq<SaveKey>, draws: seq<nat -> InitDraw>,
    sent: seq<seq<R1Proof>>) {
    && SameSession(es) && |sts| == |keys| == |draws| == |sent| == |es| && es[0].g.q > 0
    && Consistent(es[0].g.q, keys[0]) && es[0].pub == keys[0].ecdsaPub.point
    && es[0].moduli == keys[0].paillierJ && (|es| > 1 ==> PeerParamsOk(keys[0]))
    && forall i :: 0 <= i < |es| ==>
      && es[i].Valid() && keys[i] == keys[0].(xi := keys[i].xi)
      && Started(es[i], sts[i], keys[i], sts[i].k, sts[i].gamma, draws[i], sent[i])
      && i < |Points(keys[0])| && MulBase(es[0].g.q, keys[i].xi) == Points(keys[0])[i]
  }

  lemma StartedOf(es: seq<Env>, sts: seq<State>, keys: seq<SaveKey>, draws: seq<nat -> InitDraw>,
    sent: seq<seq<R1Proof>>, i: nat)
    requires AllStarted(es, sts, keys, draws, sent) && i < |es|
    ensures es[0].g.q > 0 && |keys| == |keys[0].ks| == |keys[0].bigXj| == |es| == |sts| && |sts[i].bigWs| == |es|
    ensures es[i].pub == keys[0].ecdsaPub.point && es[0].pub == keys[0].ecdsaPub.point
    ensures Consistent(es[0].g.q, keys[0]) && MulBase(es[0].g.q, keys[i].xi) == Points(keys[0])[i]
    ensures Cong(sts[i].w, Weight(es[0].g.q, keys[0].ks, i) * keys[i].xi, es[0].g.q)
    ensures forall j :: 0 <= j < |es| ==>
      Cong(sts[i].bigWs[j], Weight(es[0].g.q, keys[0].ks, j) * Points(keys[0])[j], es[0].g.q)
    ensures forall j :: 0 <= j < |es| && 0 <= Points(keys[0])[j] < es[0].g.q ==> 0 <= sts[i].bigWs[j] < es[0].g.q
  {
    MemberOf(es, i);
    hide SentTo, SameSession, Consistent, Weight, Cong, PeerParamsOk;
    assert Points(keys[i]) == Points(keys[0]);
  }

  /** A weighted share is the weight times the public share's logarithm. */
  lemma WeightedLog(n: int, w: int, weight: int, xi: int, point: int)
    requires n > 0 && Cong(w, weight * xi, n) && MulBase(n, xi) == point
    ensures Cong(w, weight * point, n)
  {
    FieldOps(n, xi, 0);
    CongScale(weight, point, xi, n);
    CongFlip(weight * point, weight * xi, n);
    CongTrans(w, weight * xi, weight * point, n);
  }

  /** Every party holds the same public W_j, and it is w_j G. */
  lemma PublicWeights(es: seq<Env>, sts: seq<State>, keys: seq<SaveKey>, draws: seq<nat -> InitDraw>,
    sent: seq<seq<R1Proof>>, i: nat, j: nat)
    requires AllStarted(es, sts, keys, draws, sent) && i < |es| && j < |es|
    requires j < |Points(keys[0])| && 0 <= Points(keys[0])[j] < es[0].g.q
    ensures es[0].g.q > 0 && |sts| == |es| && PointAt(sts[i].bigWs, j) == MulBase(es[0].g.q, sts[j].w)
  {
    hide AllStarted, Consistent, Weight, Points, Cong;
    StartedOf(es, sts, keys, draws, sent, i);
    StartedOf(es, sts, keys, draws, sent, j);
    var n, weight, x := es[0].g.q, Weight(es[0].g.q, keys[0].ks, j), Points(keys[0])[j];
    WeightedLog(n, sts[j].w, weight, keys[j].xi, x);
    FieldOps(n, sts[j].w, 0);
    CongTrans(MulBase(n, sts[j].w), sts[j].w, weight * x, n);
    CongFlip(MulBase(n, sts[j].w), weight * x, n);
    CongTrans(sts[i].bigWs[j], weight * x, MulBase(n, sts[j].w), n);
    CongSmall(sts[i].bigWs[j], MulBase(n, sts[j].w), n);
  }

  lemma {:induction false} WeightedPrefix(n: int, ks: seq<int>, xs: seq<int>, ws: seq<int>, k: nat)
    requires n > 0 && |ks| == |xs| == |ws| && k <= |ks|
    requires forall i :: 0 <= i < |ks| ==> Cong(ws[i], Weight(n, ks, i) * xs[i], n)
    ensures Cong(Sum(ws[..k]), WeightedSum(n, ks, xs, k), n)
  {
    hide Weight;
    if k > 0 {
      WeightedPrefix(n, ks, xs, ws, k - 1);
      assert ws[..k] == ws[..k - 1] + [ws[k - 1]];
      SumPush(ws[..k - 1], ws[k - 1]);
      CongAdd(Sum(ws[..k - 1]), WeightedSum(n, ks, xs, k - 1), ws[k - 1], Weight(n, ks, k - 1) * xs[k - 1], n);
    } else {
      assert ws[..0] == [];
    }
  }

  /** The weighted shares add up to the logarithm of the public key. */
  lemma WeightsTotal(es: seq<Env>, sts: seq<State>, keys: seq<SaveKey>, draws: seq<nat -> InitDraw>,
    sent: seq<seq<R1Proof>>)
    requires AllStarted(es, sts, keys, draws, sent)
    ensures es != [] && es[0].g.q > 0 && |sts| == |es| && es[0].pub.Some?
    ensures Cong(es[0].pub.value, Sum(Each(sts, WOf)), es[0].g.q)
  {
    hide Weight, Cong, WeightedSum, Points, SameSession, Started;
    StartedOf(es, sts, keys, draws, sent, 0);
    var n, ks, xs, ws := es[0].g.q, keys[0].ks, Points(keys[0]), Each(sts, WOf);
    forall i | 0 <= i < |ks| ensures Cong(ws[i], Weight(n, ks, i) * xs[i], n) {
      StartedOf(es, sts, keys, draws, sent, i);
      WeightedLog(n, sts[i].w, Weight(n, ks, i), keys[i].xi, xs[i]);
    }
    WeightedPrefix(n, ks, xs, ws, |ks|);
    assert ws[..|ks|] == ws;
    InterpolatedPub(n, keys[0], Sum(ws));
  }

  lemma InterpolatedPub(n: int, key: SaveKey, total: int)
    requires n > 0 && Consistent(n, key) && Cong(total, WeightedSum(n, key.ks, Points(key), |key.ks|), n)
    ensures key.ecdsaPub.point.Some? && Cong(key.ecdsaPub.point.value, total, n)
  {
    hide WeightedSum, Distinct;
    CongMod(WeightedSum(n, key.ks, Points(key), |key.ks|), n);
  }
}
