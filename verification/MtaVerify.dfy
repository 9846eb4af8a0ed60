/** What the verifiers of src/ecdsatss/mta.rs accept, for proofs of any origin: the checks as congruences between
    powers, with every bound written out. */
module MtaVerify {
  import opened NumberTheory
  import opened Results
  import opened Bn
  import opened Paillier
  import opened Secp
  import opened Mta

  // ---------- one equation ----------

  /** h1^a h2^b = z^e w modulo the ring modulus. */
  ghost predicate RingEquation(ring: Ring, a: nat, b: nat, z: nat, e: nat, w: nat)
    requires ring.nt > 0
  {
    Cong(Pow(ring.h1, a) * Pow(ring.h2, b), Pow(z, e) * w, ring.nt)
  }

  lemma CommitCheck(ring: Ring, a: nat, b: nat, z: nat, e: nat, w: nat)
    requires ring.nt > 0
    ensures Commit(ring, a, b) == MulMod(PowMod(z, e, ring.nt), w, ring.nt) <==> RingEquation(ring, a, b, z, e, w)
  {
    hide Cong, Pow, PowMod, MulMod;
    CommitIs(ring, a, b);
    AnswerSide(z, e, w, ring.nt);
    SameResidues(ring.nt, Commit(ring, a, b), Pow(ring.h1, a) * Pow(ring.h2, b),
      MulMod(PowMod(z, e, ring.nt), w, ring.nt), Pow(z, e) * w);
  }

  lemma AnswerSide(z: int, e: nat, w: int, m: int)
    requires m > 0
    ensures Cong(MulMod(PowMod(z, e, m), w, m), Pow(z, e) * w, m)
  {
    hide Cong, Pow, PowMod, MulMod;
    CongSelf(z, m);
    CongSelf(w, m);
    PowModCong(z, z, e, m);
    MulModCong(PowMod(z, e, m), Pow(z, e), w, w, m);
  }

  /** Multiplying by the e-th power of the inverse and comparing is the same as multiplying the other side. */
  lemma InverseCheck(z: int, inv: int, e: nat, l: int, l': int, w: int, m: int)
    requires m > 0 && 0 <= w < m && Cong(z * inv, 1, m) && Cong(l, l', m)
    ensures w == MulMod(l, PowMod(inv, e, m), m) <==> Cong(l', Pow(z, e) * w, m)
  {
    var p, pi := Pow(z, e), Pow(inv, e);
    PowProduct(z, inv, e);
    PowCong(z * inv, 1, e, m);
    PowOne(e);
    hide Pow, Cong, PowMod, MulMod;
    CongSelf(inv, m);
    PowModCong(inv, inv, e, m);
    MulModCong(l, l', PowMod(inv, e, m), pi, m);
    CongSelf(w, m);
    SameResidues(m, w, w, MulMod(l, PowMod(inv, e, m), m), l' * pi);
    CancelInverse(p, pi, w, l', m);
  }

  /** w = l / p exactly when p w = l. */
  lemma CancelInverse(p: int, pi: int, w: int, l: int, m: int)
    requires m > 0 && Cong(p * pi, 1, m)
    ensures Cong(w, l * pi, m) <==> Cong(l, p * w, m)
  {
    hide Cong;
    if Cong(w, l * pi, m) {
      CongScale(p, w, l * pi, m);
      CongScale(l, p * pi, 1, m);
      Shuffled(p, pi, l);
      CongTrans(p * w, l * (p * pi), l * 1, m);
      CongFlip(p * w, l, m);
    }
    if Cong(l, p * w, m) {
      CongScale(pi, l, p * w, m);
      CongScale(w, p * pi, 1, m);
      Shuffled(pi, p, w);
      CongTrans(pi * l, w * (p * pi), w * 1, m);
      CongFlip(l * pi, w, m);
    }
  }

  lemma Shuffled(a: int, b: int, c: int)
    ensures a * (c * b) == c * (a * b) && a * (b * c) == c * (b * a) && a * c == c * a
  {
  }

  // ---------- Alice's range proof ----------

  /** The challenge of a range proof, hashed over modulus, generator, ciphertext and the three commitments. */
  function RangeHash(g: Setting, n: nat, c: nat, pf: RangeProof): (e: nat)
    requires g.q > 0
  {
    g.hash("MTA-RangeProofAlice", [n, n + 1, c, pf.z, pf.u, pf.w]) % g.q
  }

  /** What verify_range_alice accepts, with e for that hash: sizes and units, q <= s1 <= q^3, q <= s2 within 64 bits of
      2 q^3 N~, nothing degenerate, and (N+1)^s1 s^N = c^e u modulo N^2 and h1^s1 h2^s2 = z^e w modulo N~. */
  ghost predicate RangeAccepts(g: Setting, n: nat, ring: Ring, c: nat, pf: RangeProof)
    requires g.q > 0 && n * n > 0 && ring.nt > 0
  {
    var q, e := g.q, RangeHash(g, n, c, pf);
    && pf.z < ring.nt && pf.u < n * n && pf.w < ring.nt && pf.s < n
    && Coprime(pf.z, ring.nt) && Coprime(pf.u, n * n) && Coprime(pf.w, ring.nt) && Coprime(c, n * n)
    && q <= pf.s1 <= q * q * q && q <= pf.s2 && pf.s != 1 && pf.z != 1 && pf.s1 != pf.s2
    && q * q * q * ring.nt >= 0 && BitLen(pf.s2) <= BitLen(q * q * q * ring.nt + q * q * q * ring.nt) + 64
    && Cong(Pow(n + 1, pf.s1) * Pow(pf.s, n), Pow(c, e) * pf.u, n * n)
    && RingEquation(ring, pf.s1, pf.s2, pf.z, e, pf.w)
  }

  lemma RangeVerifyExact(g: Setting, n: nat, ring: Ring, c: nat, pf: RangeProof)
    requires g.q > 0 && n > 1 && n * n > 0 && ring.nt > 0
    ensures VerifyRangeAlice(g, n, ring, c, pf) <==> RangeAccepts(g, n, ring, c, pf)
  {
    RangeUnits(n, ring, pf);
    RangeBounds(g.q, ring.nt, pf);
    ModInvCorrect(c, n * n);
    ModInvCorrect(pf.z, ring.nt);
    var e := RangeChallenge(g, n, c, pf.z, pf.u, pf.w);
    assert e == RangeHash(g, n, c, pf);
    if pf.u < n * n && Coprime(c, n * n) { RangeCipher(n, c, pf, e); }
    if pf.w < ring.nt && Coprime(pf.z, ring.nt) { RangeRing(ring, pf, e); }
    hide Pow, PowMod, MulMod, GammaPow, Commit, Coprime, Gcd, ModInv, Cong, BitLen, RangeHash, Cube, CubeTimes,
      WithinBound, RangeChallenge, RingEquation;
  }

  lemma RangeUnits(n: nat, ring: Ring, pf: RangeProof)
    requires n * n > 0 && ring.nt > 0
    ensures Gcd(pf.z, ring.nt) == 1 <==> Coprime(pf.z, ring.nt)
    ensures Gcd(pf.u, n * n) == 1 <==> Coprime(pf.u, n * n)
    ensures Gcd(pf.w, ring.nt) == 1 <==> Coprime(pf.w, ring.nt)
  {
    CoprimeIffGcd(pf.z, ring.nt);
    CoprimeIffGcd(pf.u, n * n);
    CoprimeIffGcd(pf.w, ring.nt);
  }

  lemma RangeBounds(q: nat, nt: nat, pf: RangeProof)
    ensures Cube(q) == q * q * q && q * q * q * nt >= 0
    ensures WithinBound(pf.s2, CubeTimes(q, nt) + CubeTimes(q, nt)) <==>
      BitLen(pf.s2) <= BitLen(q * q * q * nt + q * q * q * nt) + 64
  {
    ProductNonNegative(Cube(q), nt);
  }

  lemma RangeCipher(n: nat, c: nat, pf: RangeProof, e: nat)
    requires n > 1 && n * n > 0 && pf.u < n * n && Coprime(c, n * n)
    ensures pf.u == MulMod(MulMod(GammaPow(n, pf.s1), PowMod(pf.s, n, n * n), n * n),
        PowMod(ModInv(c, n * n).1, e, n * n), n * n)
      <==> Cong(Pow(n + 1, pf.s1) * Pow(pf.s, n), Pow(c, e) * pf.u, n * n)
  {
    ModInvCorrect(c, n * n);
    MaskedIs(n, pf.s1, pf.s);
    hide Pow, PowMod, MulMod, GammaPow, Coprime, Gcd, ModInv, Cong;
    InverseCheck(c, ModInv(c, n * n).1, e, Masked(n, pf.s1, pf.s), Pow(n + 1, pf.s1) * Pow(pf.s, n), pf.u, n * n);
  }

  lemma RangeRing(ring: Ring, pf: RangeProof, e: nat)
    requires ring.nt > 0 && pf.w < ring.nt && Coprime(pf.z, ring.nt)
    ensures pf.w == MulMod(Commit(ring, pf.s1, pf.s2), PowMod(ModInv(pf.z, ring.nt).1, e, ring.nt), ring.nt)
      <==> RingEquation(ring, pf.s1, pf.s2, pf.z, e, pf.w)
  {
    ModInvCorrect(pf.z, ring.nt);
    CommitIs(ring, pf.s1, pf.s2);
    hide Pow, PowMod, MulMod, Commit, Coprime, Gcd, ModInv, Cong;
    InverseCheck(pf.z, ModInv(pf.z, ring.nt).1, e, Commit(ring, pf.s1, pf.s2),
      Pow(ring.h1, pf.s1) * Pow(ring.h2, pf.s2), pf.w, ring.nt);
  }

  // ---------- Bob's proof ----------

  /** The challenge of Bob's proof; both points enter with their coordinates when they are present. */
  function BobHash(g: Setting, session: string, n: nat, c1: nat, c2: nat, pf: BobProof, x: Option<Point>): (e: nat)
    requires g.q > 0
  {
    var ops :=
      if x.Some? && pf.u.Some? then
        [n, n + 1, g.coords(x.value).0, g.coords(x.value).1, c1, c2, g.coords(pf.u.value).0, g.coords(pf.u.value).1,
          pf.z, pf.zprm, pf.t, pf.v, pf.w]
      else [n, n + 1, c1, c2, pf.z, pf.zprm, pf.t, pf.v, pf.w];
    g.hash(session, ops) % g.q
  }

  /** Sizes, units and ranges: q <= s1 <= q^3, q <= t1 <= q^7, and s2, t2 at least q and within 64 bits of 2 q^3 N~. */
  ghost predicate BobInRange(q: nat, n: nat, ring: Ring, pf: BobProof) {
    && pf.z < ring.nt && pf.zprm < ring.nt && pf.t < ring.nt && pf.v < n * n && pf.w < ring.nt && pf.s < n
    && Coprime(pf.z, ring.nt) && Coprime(pf.zprm, ring.nt) && Coprime(pf.t, ring.nt) && Coprime(pf.w, ring.nt)
    && Coprime(pf.v, n * n) && Coprime(pf.s, n)
    && q <= pf.s1 <= q * q * q && q <= pf.t1 <= q * q * q * q * q * q * q && q <= pf.s2 && q <= pf.t2
    && q * q * q * ring.nt >= 0
    && BitLen(pf.s2) <= BitLen(q * q * q * ring.nt + q * q * q * ring.nt) + 64
    && BitLen(pf.t2) <= BitLen(q * q * q * ring.nt + q * q * q * ring.nt) + 64
  }

  /** What verify_bob accepts, with e for that hash: a commitment to the point when one is to be checked, the ranges,
      and equations (4) to (7). */
  ghost predicate BobAccepts(g: Setting, session: string, n: nat, ring: Ring, c1: nat, c2: nat, pf: BobProof,
    x: Option<Point>)
    requires g.q > 0 && n * n > 0 && ring.nt > 0
  {
    var e := BobHash(g, session, n, c1, c2, pf, x);
    && (x.Some? ==> pf.u.Some?) && BobInRange(g.q, n, ring, pf)
    && (x.Some? && pf.u.Some? ==> Cong(pf.s1, e * x.value + pf.u.value, g.q))
    && RingEquation(ring, pf.s1, pf.s2, pf.z, e, pf.zprm) && RingEquation(ring, pf.t1, pf.t2, pf.t, e, pf.w)
    && Cong(Pow(c1, pf.s1) * (Pow(n + 1, pf.t1) * Pow(pf.s, n)), Pow(c2, e) * pf.v, n * n)
  }

  lemma BobVerifyExact(g: Setting, session: string, n: nat, ring: Ring, c1: nat, c2: nat, pf: BobProof,
    x: Option<Point>)
    requires g.q > 0 && n > 1 && n * n > 0 && ring.nt > 0
    ensures VerifyBob(g, session, n, ring, c1, c2, pf, x) <==> BobAccepts(g, session, n, ring, c1, c2, pf, x)
  {
    var e := BobChallenge(g, session, n, x, pf.u, c1, c2, pf.z, pf.zprm, pf.t, pf.v, pf.w);
    HashIs(g, session, n, c1, c2, pf, x);
    BobRanges(g, n, ring, pf);
    if x.Some? && pf.u.Some? { PointExact(g.q, pf.s1, x.value, e, pf.u.value); }
    CommitCheck(ring, pf.s1, pf.s2, pf.z, e, pf.zprm);
    CommitCheck(ring, pf.t1, pf.t2, pf.t, e, pf.w);
    CipherCheck(n, c1, c2, e, pf);
    hide Pow, PowMod, MulMod, GammaPow, Commit, Cong, BobHash, BobChallenge, RingEquation, PointEquation, BobInRange,
      BobWellFormed, BobLucky;
  }

  lemma HashIs(g: Setting, session: string, n: nat, c1: nat, c2: nat, pf: BobProof, x: Option<Point>)
    requires g.q > 0
    ensures BobChallenge(g, session, n, x, pf.u, c1, c2, pf.z, pf.zprm, pf.t, pf.v, pf.w)
      == BobHash(g, session, n, c1, c2, pf, x)
  {
  }

  /** A number is a unit modulo N exactly when it is modulo N^2. */
  lemma UnitIff(v: nat, n: nat)
    requires n > 1 && n * n > 0
    ensures Coprime(v, n * n) <==> Gcd(v, n * n) == 1
    ensures Coprime(v, n * n) ==> v != 0 && Gcd(v, n) == 1
    ensures Coprime(v, n) <==> Gcd(v, n) == 1
    ensures Coprime(v, n) ==> v != 0
  {
    CoprimeIffGcd(v, n * n);
    CoprimeIffGcd(v, n);
    if Coprime(v, n * n) { UnitOfSquare(v, n); }
    if Coprime(v, n) { UnitNonZero(v, n); }
  }

  lemma BobRanges(g: Setting, n: nat, ring: Ring, pf: BobProof)
    requires n > 1 && n * n > 0 && ring.nt > 0
    ensures BobWellFormed(g, n, ring, pf) && BobLucky(g.q, pf) <==> BobInRange(g.q, n, ring, pf)
  {
    CoprimeIffGcd(pf.z, ring.nt);
    CoprimeIffGcd(pf.zprm, ring.nt);
    CoprimeIffGcd(pf.t, ring.nt);
    CoprimeIffGcd(pf.w, ring.nt);
    UnitIff(pf.v, n);
    UnitIff(pf.s, n);
    ProductNonNegative(Cube(g.q), ring.nt);
    PowersOfOrder(g.q);
    hide Coprime, Gcd, BitLen;
  }

  /** The powers of the order behind the draws and the bounds. */
  lemma PowersOfOrder(q: nat)
    ensures Cube(q) == q * q * q && Fifth(q) == q * q * q * q * q && Seventh(q) == q * q * q * q * q * q * q
  {
    var s := q * q;
    assert s * (q * q) == s * q * q by { Pair(s, q); }
    var c := q * q * q;
    assert c * c == c * q * q * q by { Triple(c, q); }
  }

  lemma Pair(c: int, q: int)
    ensures c * (q * q) == c * q * q
  {
  }

  lemma Triple(c: int, q: int)
    ensures c * (q * q * q) == c * q * q * q
  {
  }

  lemma CipherCheck(n: nat, c1: nat, c2: nat, e: nat, pf: BobProof)
    requires n > 1 && n * n > 0
    ensures MulMod(MulMod(PowMod(c1, pf.s1, n * n), PowMod(pf.s, n, n * n), n * n), GammaPow(n, pf.t1), n * n)
        == MulMod(PowMod(c2, e, n * n), pf.v, n * n)
      <==> Cong(Pow(c1, pf.s1) * (Pow(n + 1, pf.t1) * Pow(pf.s, n)), Pow(c2, e) * pf.v, n * n)
  {
    hide Cong, Pow, PowMod, MulMod, GammaPow;
    CongSelf(pf.s, n * n);
    PowModCong(pf.s, pf.s, n, n * n);
    AnswerIs(n, c1, pf.s1, pf.t1, pf.s, Pow(pf.s, n));
    AnswerSide(c2, e, pf.v, n * n);
    SameResidues(n * n,
      MulMod(MulMod(PowMod(c1, pf.s1, n * n), PowMod(pf.s, n, n * n), n * n), GammaPow(n, pf.t1), n * n),
      Pow(c1, pf.s1) * (Pow(n + 1, pf.t1) * Pow(pf.s, n)), MulMod(PowMod(c2, e, n * n), pf.v, n * n),
      Pow(c2, e) * pf.v);
  }

  // ---------- what the provers send ----------

  /** Alice's proof: the commitments to her message and masks under the drawn randomness, and the responses e m + alpha
      and e rho + gamma for the hashed challenge. */
  lemma RangeProofMade(g: Setting, n: nat, c: nat, ring: Ring, m: nat, r: nat, d: RangeDraws)
    requires g.q > 0 && n > 1 && n * n > 0 && ring.nt > 0
    ensures var pf := ProveRangeAlice(g, n, c, ring, m, r, d); var e := RangeHash(g, n, c, pf);
      && pf.z < ring.nt && Cong(pf.z, Pow(ring.h1, m) * Pow(ring.h2, d.rho), ring.nt)
      && pf.w < ring.nt && Cong(pf.w, Pow(ring.h1, d.alpha) * Pow(ring.h2, d.gamma), ring.nt)
      && pf.u < n * n && Cong(pf.u, Pow(n + 1, d.alpha) * Pow(d.beta, n), n * n)
      && pf.s < n && Cong(pf.s, Pow(r, e) * d.beta, n)
      && pf.s1 == e * m + d.alpha && pf.s2 == e * d.rho + d.gamma
  {
    CommitIs(ring, m, d.rho);
    CommitIs(ring, d.alpha, d.gamma);
    MaskedIs(n, d.alpha, d.beta);
    AnswerSide(r, RangeHash(g, n, c, ProveRangeAlice(g, n, c, ring, m, r, d)), d.beta, n);
    hide Pow, PowMod, MulMod, GammaPow, Commit, Cong;
  }

  /** Bob's proof: five commitments under the drawn randomness and the responses for the hashed challenge; with a point
      to check, also the point of alpha. */
  lemma BobProofMade(g: Setting, session: string, n: nat, ring: Ring, c1: nat, c2: nat, x: nat, y: nat, r: nat,
    xPoint: Option<Point>, d: BobDraws)
    requires g.q > 0 && n > 1 && n * n > 0 && ring.nt > 0
    ensures var pf := ProveBob(g, session, n, ring, c1, c2, x, y, r, xPoint, d);
      var e := BobHash(g, session, n, c1, c2, pf, xPoint);
      && CommitsTo(ring, pf.z, x, d.rho) && CommitsTo(ring, pf.zprm, d.alpha, d.rhoprm)
      && CommitsTo(ring, pf.t, y, d.sigma) && CommitsTo(ring, pf.w, d.gamma, d.tau)
      && pf.v < n * n && Cong(pf.v, Pow(c1, d.alpha) * (Pow(n + 1, d.gamma) * Pow(d.beta, n)), n * n)
      && pf.s < n && Cong(pf.s, Pow(r, e) * d.beta, n)
      && pf.s1 == e * x + d.alpha && pf.s2 == e * d.rho + d.rhoprm
      && pf.t1 == e * y + d.gamma && pf.t2 == e * d.sigma + d.tau
      && (if xPoint.None? then pf.u == None else pf.u.Some? && 0 <= pf.u.value < g.q && Cong(pf.u.value, d.alpha, g.q))
  {
    var pf := ProveBob(g, session, n, ring, c1, c2, x, y, r, xPoint, d);
    HashIs(g, session, n, c1, c2, pf, xPoint);
    CommitsIntro(ring, x, d.rho);
    CommitsIntro(ring, d.alpha, d.rhoprm);
    CommitsIntro(ring, y, d.sigma);
    CommitsIntro(ring, d.gamma, d.tau);
    MixIs(n, c1, d.alpha, d.gamma, d.beta);
    AnswerSide(r, BobHash(g, session, n, c1, c2, pf, xPoint), d.beta, n);
    FieldOps(g.q, d.alpha, 0);
    hide Pow, PowMod, MulMod, GammaPow, Commit, Cong, Mix, BobChallenge, BobHash, CommitsTo;
  }

  /** z = h1^a h2^b modulo the ring modulus. */
  ghost predicate CommitsTo(ring: Ring, z: nat, a: nat, b: nat)
    requires ring.nt > 0
  {
    z < ring.nt && Cong(z, Pow(ring.h1, a) * Pow(ring.h2, b), ring.nt)
  }

  lemma CommitsIntro(ring: Ring, a: nat, b: nat)
    requires ring.nt > 0
    ensures CommitsTo(ring, Commit(ring, a, b), a, b)
  {
    CommitIs(ring, a, b);
    hide Commit;
  }

  // ---------- the steps of a conversion, against any peer ----------

  /** bob_mid and bob_mid_wc: Bob answers exactly an acceptable range proof, with his own masks; his share is the
      negated mask and his ciphertext is ca^b (N+1)^beta' rb^N. */
  lemma BobMidExact(g: Setting, session: string, n: nat, rangePf: RangeProof, b: nat, ca: nat, ringA: Ring,
    ringB: Ring, xPoint: Option<Point>, betaprm: nat, rb: nat, d: BobDraws)
    requires g.q > 0 && n > 1 && n * n > 0 && ringA.nt > 0 && ringB.nt > 0
    ensures var r := BobMid(g, session, n, rangePf, b, ca, ringA, ringB, xPoint, betaprm, rb, d);
      && (r == Err(AliceRangeProofFailed) <==> !RangeAccepts(g, n, ringB, ca, rangePf))
      && (r.Ok? <==> RangeAccepts(g, n, ringB, ca, rangePf) && betaprm < n)
      && (r.Ok? ==>
        && r.value.beta < g.q && Cong(r.value.beta + betaprm, 0, g.q) && r.value.betaprm == betaprm
        && IsAnswer(n, ca, b, betaprm, rb, r.value.cb)
        && r.value.pi == ProveBob(g, session, n, ringA, ca, r.value.cb, b, betaprm, rb, xPoint, d))
  {
    hide *;
    RangeVerifyExact(g, n, ringB, ca, rangePf);
    BobMidIs(g, session, n, rangePf, b, ca, ringA, ringB, xPoint, betaprm, rb, d);
    NegatedMask(g.q, betaprm);
  }

  lemma NegatedMask(q: nat, betaprm: nat)
    requires q > 0
    ensures 0 <= FNeg(q, betaprm) < q && Cong(FNeg(q, betaprm) + betaprm, 0, q)
  {
    FieldOps(q, betaprm, 0);
    CongSelf(betaprm, q);
    CongAdd(FNeg(q, betaprm), 0 - betaprm, betaprm, betaprm, q);
  }

  /** cb = ca^b (N+1)^y r^N modulo N^2. */
  ghost predicate IsAnswer(n: nat, ca: nat, b: nat, y: nat, r: nat, cb: nat)
    requires n * n > 0
  {
    cb < n * n && Cong(cb, Pow(ca, b) * (Pow(n + 1, y) * Pow(r, n)), n * n)
  }

  lemma AnswerMade(n: nat, ca: nat, b: nat, y: nat, r: nat)
    requires n > 1 && n * n > 0 && y < n
    ensures EncryptWith(n, y, r).Ok?
    ensures IsAnswer(n, ca, b, y, r, HomoAdd(n, HomoMult(n, b, ca), EncryptWith(n, y, r).value))
  {
    EncryptIsMasked(n, y, r);
    BobCiphertextIs(n, ca, b, y, r);
    HomoAddIsMulMod(n, HomoMult(n, b, ca), Masked(n, y, r));
    hide Cong, Pow, Masked, HomoMult;
  }

  lemma BobMidIs(g: Setting, session: string, n: nat, rangePf: RangeProof, b: nat, ca: nat, ringA: Ring, ringB: Ring,
    xPoint: Option<Point>, betaprm: nat, rb: nat, d: BobDraws)
    requires g.q > 0 && n > 1 && n * n > 0 && ringA.nt > 0 && ringB.nt > 0
    ensures var r := BobMid(g, session, n, rangePf, b, ca, ringA, ringB, xPoint, betaprm, rb, d);
      if !VerifyRangeAlice(g, n, ringB, ca, rangePf) then r == Err(AliceRangeProofFailed)
      else if betaprm >= n then r.Err? && r.error.PaillierFailure?
      else
        && r.Ok? && IsAnswer(n, ca, b, betaprm, rb, r.value.cb)
        && r.value == BobMessage(FNeg(g.q, betaprm), r.value.cb, betaprm,
          ProveBob(g, session, n, ringA, ca, r.value.cb, b, betaprm, rb, xPoint, d))
  {
    if betaprm < n { AnswerMade(n, ca, b, betaprm, rb); }
    hide VerifyRangeAlice, ProveBob, HomoMult, HomoAdd, FNeg, IsAnswer;
  }

  /** alice_end and alice_end_wc: Alice goes on exactly when Bob's proof is acceptable, against the point she expects if
      there is one, and his ciphertext decrypts; her share is the residue of the plaintext. */
  lemma AliceEndExact(g: Setting, session: string, sk: PrivateKey, pi: BobProof, xPoint: Option<Point>, ringA: Ring,
    ca: nat, cb: nat)
    requires g.q > 0 && sk.n > 1 && sk.n * sk.n > 0 && ringA.nt > 0
    ensures var r := AliceEnd(g, session, sk, pi, xPoint, ringA, ca, cb);
      && (r == Err(BobProofFailed) <==> !BobAccepts(g, session, sk.n, ringA, ca, cb, pi, xPoint))
      && (r.Ok? <==> BobAccepts(g, session, sk.n, ringA, ca, cb, pi, xPoint) && Decrypt(sk, cb).Ok?)
      && (r.Ok? ==> r.value == Decrypt(sk, cb).value % g.q)
  {
    BobVerifyExact(g, session, sk.n, ringA, ca, cb, pi, xPoint);
    hide BobAccepts, VerifyBob, Decrypt;
  }
}
