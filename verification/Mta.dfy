/** Multiplicative-to-additive share conversion and its range proofs (src/ecdsatss/mta.rs). */
module Mta {
  import opened NumberTheory
  import opened Results
  import opened Bn
  import opened Paillier
  import opened Secp

  /** The curve order, the tagged hash behind the challenges and the affine coordinates of a point. */
  datatype Setting = Setting(q: nat, hash: (string, seq<nat>) -> nat, coords: Point -> (nat, nat))

  /** A ring-Pedersen setup. */
  datatype Ring = Ring(nt: nat, h1: nat, h2: nat) {
    ghost predicate Units() { nt > 1 && Coprime(h1, nt) && Coprime(h2, nt) }
  }

  const RANGE_TAG := "MTA-RangeProofAlice"
  const BOUND_SLACK_BITS: nat := 64

  /** rejection_sample */
  function RejectionSample(g: Setting, tag: string, ops: seq<nat>): (e: nat)
    requires g.q > 0
    ensures e < g.q
  {
    g.hash(tag, ops) % g.q
  }

  function MulMod(a: int, b: int, m: int): (r: nat)
    requires m > 0
    ensures r < m
  {
    (a * b) % m
  }

  predicate WithinBound(v: nat, honestMax: nat) { BitLen(v) <= BitLen(honestMax) + BOUND_SLACK_BITS }

  function Cube(q: nat): nat { q * q * q }
  function Fifth(q: nat): nat { (q * q) * (q * q) * q }
  function Seventh(q: nat): nat { Cube(q) * Cube(q) * q }
  function CubeTimes(q: nat, nt: nat): nat { Cube(q) * nt }

  // ---------- commitments and masked ciphertexts ----------

  /** h1^a h2^b mod the ring modulus */
  function Commit(ring: Ring, a: nat, b: nat): (z: nat)
    requires ring.nt > 0
    ensures z < ring.nt
  {
    MulMod(PowMod(ring.h1, a, ring.nt), PowMod(ring.h2, b, ring.nt), ring.nt)
  }

  /** Gamma^m x^N mod N^2 */
  function Masked(n: nat, m: nat, x: nat): (c: nat)
    requires n > 0 && n * n > 0
    ensures c < n * n
  {
    MulMod(GammaPow(n, m), PowMod(x, n, n * n), n * n)
  }

  /** r^e b mod N */
  function Respond(n: nat, r: nat, e: nat, b: nat): (s: nat)
    requires n > 0
    ensures s < n
  {
    MulMod(PowMod(r, e, n), b, n)
  }

  function Linear(e: nat, x: nat, a: nat): (r: nat)
    ensures r >= a
  {
    ProductNonNegative(e, x);
    e * x + a
  }

  lemma MulModCong(a: int, a': int, b: int, b': int, m: int)
    requires m > 0 && Cong(a, a', m) && Cong(b, b', m)
    ensures Cong(MulMod(a, b, m), a' * b', m)
  {
    CongMod(a * b, m);
    CongMul(a, a', b, b', m);
    CongTrans(MulMod(a, b, m), a * b, a' * b', m);
  }

  lemma PowModCong(b: int, b': int, e: nat, m: int)
    requires m > 0 && Cong(b, b', m)
    ensures Cong(PowMod(b, e, m), Pow(b', e), m)
  {
    CongMod(Pow(b, e), m);
    PowCong(b, b', e, m);
    CongTrans(PowMod(b, e, m), Pow(b, e), Pow(b', e), m);
  }

  lemma CommitIs(ring: Ring, a: nat, b: nat)
    requires ring.nt > 0
    ensures Cong(Commit(ring, a, b), Pow(ring.h1, a) * Pow(ring.h2, b), ring.nt)
  {
    hide Cong, Pow, PowMod, MulMod;
    CongSelf(ring.h1, ring.nt);
    CongSelf(ring.h2, ring.nt);
    PowModCong(ring.h1, ring.h1, a, ring.nt);
    PowModCong(ring.h2, ring.h2, b, ring.nt);
    MulModCong(PowMod(ring.h1, a, ring.nt), Pow(ring.h1, a), PowMod(ring.h2, b, ring.nt), Pow(ring.h2, b), ring.nt);
  }

  lemma GammaPowCong(n: nat, m: nat)
    requires n > 1 && n * n > 0
    ensures Cong(GammaPow(n, m), Pow(n + 1, m), n * n)
  {
    GammaPowIsPower(n, m);
    CongMod(Pow(n + 1, m), n * n);
  }

  lemma MaskedIs(n: nat, m: nat, x: nat)
    requires n > 1 && n * n > 0
    ensures Cong(Masked(n, m, x), Pow(n + 1, m) * Pow(x, n), n * n)
  {
    hide Cong, Pow, PowMod, MulMod;
    GammaPowCong(n, m);
    CongSelf(x, n * n);
    PowModCong(x, x, n, n * n);
    MulModCong(GammaPow(n, m), Pow(n + 1, m), PowMod(x, n, n * n), Pow(x, n), n * n);
  }

  /** Encryption is masking a message below N. */
  lemma EncryptIsMasked(n: nat, m: nat, x: nat)
    requires n > 1 && n * n > 0 && m < n
    ensures EncryptWith(n, m, x) == Ok(Masked(n, m, x))
  {
  }

  lemma MaskedUnit(n: nat, m: nat, x: nat)
    requires n > 1 && n * n > 0 && Coprime(x, n)
    ensures Coprime(Masked(n, m, x), n * n)
  {
    MaskedIs(n, m, x);
    CoprimeSquare(x, n);
    assert (n + 1) * 1 + n * (-1) == 1;
    CoprimeSquare(n + 1, n);
    PowCoprime(n + 1, m, n * n);
    PowCoprime(x, n, n * n);
    CoprimeMul(Pow(n + 1, m), Pow(x, n), n * n);
    CongFlip(Masked(n, m, x), Pow(n + 1, m) * Pow(x, n), n * n);
    CoprimeCong(Pow(n + 1, m) * Pow(x, n), Masked(n, m, x), n * n);
  }

  lemma CommitUnit(ring: Ring, a: nat, b: nat)
    requires ring.Units()
    ensures Coprime(Commit(ring, a, b), ring.nt) && Gcd(Commit(ring, a, b), ring.nt) == 1
  {
    CommitIs(ring, a, b);
    PowCoprime(ring.h1, a, ring.nt);
    PowCoprime(ring.h2, b, ring.nt);
    CoprimeMul(Pow(ring.h1, a), Pow(ring.h2, b), ring.nt);
    CongFlip(Commit(ring, a, b), Pow(ring.h1, a) * Pow(ring.h2, b), ring.nt);
    CoprimeCong(Pow(ring.h1, a) * Pow(ring.h2, b), Commit(ring, a, b), ring.nt);
    CoprimeIffGcd(Commit(ring, a, b), ring.nt);
  }

  // ---------- the linear response identities ----------

  /** (a^x)^e a^k = a^(ex + k) */
  lemma PowLinear(a: int, x: nat, e: nat, k: nat)
    ensures Pow(Pow(a, x), e) * Pow(a, k) == Pow(a, Linear(e, x, k))
  {
    ProductNonNegative(e, x);
    assert x * e == e * x;
    PowMul(a, x, e);
    PowAdd(a, e * x, k);
  }

  /** (a^x b^y)^e (a^k b^l) = a^(ex+k) b^(ey+l) */
  lemma PairLinear(a: int, b: int, x: nat, y: nat, e: nat, k: nat, l: nat)
    ensures Pow(Pow(a, x) * Pow(b, y), e) * (Pow(a, k) * Pow(b, l)) == Pow(a, Linear(e, x, k)) * Pow(b, Linear(e, y, l))
  {
    PowLinear(a, x, e, k);
    PowLinear(b, y, e, l);
    PowProduct(Pow(a, x), Pow(b, y), e);
    hide Pow, Linear;
    Regroup(Pow(Pow(a, x), e), Pow(b, y) , Pow(a, k), Pow(b, l));
    Regroup(Pow(Pow(a, x), e), Pow(Pow(b, y), e), Pow(a, k), Pow(b, l));
  }

  /** Commitments are linear in the response: z^e z' commits to (ex + a, e rho + b). */
  lemma CommitLinear(ring: Ring, x: nat, rho: nat, e: nat, a: nat, b: nat)
    requires ring.nt > 0
    ensures Commit(ring, Linear(e, x, a), Linear(e, rho, b))
         == MulMod(PowMod(Commit(ring, x, rho), e, ring.nt), Commit(ring, a, b), ring.nt)
  {
    var nt, z, w := ring.nt, Commit(ring, x, rho), Commit(ring, a, b);
    var zi, wi := Pow(ring.h1, x) * Pow(ring.h2, rho), Pow(ring.h1, a) * Pow(ring.h2, b);
    var l := Commit(ring, Linear(e, x, a), Linear(e, rho, b));
    hide Cong, Pow, PowMod, MulMod, Commit, Linear;
    CommitIs(ring, x, rho);
    CommitIs(ring, a, b);
    CommitIs(ring, Linear(e, x, a), Linear(e, rho, b));
    PairLinear(ring.h1, ring.h2, x, rho, e, a, b);
    PowModCong(z, zi, e, nt);
    MulModCong(PowMod(z, e, nt), Pow(zi, e), w, wi, nt);
    CongFlip(MulMod(PowMod(z, e, nt), w, nt), Pow(zi, e) * wi, nt);
    CongTrans(l, Pow(zi, e) * wi, MulMod(PowMod(z, e, nt), w, nt), nt);
    CongSmall(l, MulMod(PowMod(z, e, nt), w, nt), nt);
  }

  /** The randomness of the answer: s^N = (r^N)^e b^N modulo N^2, although s is only kept modulo N. */
  lemma RespondPower(n: nat, r: nat, e: nat, b: nat)
    requires n > 1 && n * n > 0
    ensures Cong(PowMod(Respond(n, r, e, b), n, n * n), Pow(Pow(r, n), e) * Pow(b, n), n * n)
  {
    var s := Respond(n, r, e, b);
    hide Cong, Pow, PowMod, MulMod;
    CongSelf(r, n);
    CongSelf(b, n);
    PowModCong(r, r, e, n);
    MulModCong(PowMod(r, e, n), Pow(r, e), b, b, n);
    NthPowerResidue(n, s, Pow(r, e) * b);
    PowProduct(Pow(r, e), b, n);
    PowersCommute(r, e, n);
    CongSelf(s, n * n);
    PowModCong(s, s, n, n * n);
    CongTrans(PowMod(s, n, n * n), Pow(s, n), Pow(Pow(r, n), e) * Pow(b, n), n * n);
  }

  /** Gamma^(em+a) s^N = c^e u modulo N^2 for c = Gamma^m r^N and u = Gamma^a b^N. */
  lemma MaskedLinear(n: nat, m: nat, r: nat, e: nat, a: nat, b: nat)
    requires n > 1 && n * n > 0
    ensures Masked(n, Linear(e, m, a), Respond(n, r, e, b))
         == MulMod(PowMod(Masked(n, m, r), e, n * n), Masked(n, a, b), n * n)
  {
    var n2, s, c, u := n * n, Respond(n, r, e, b), Masked(n, m, r), Masked(n, a, b);
    var G, R, B := n + 1, Pow(r, n), Pow(b, n);
    var l := Masked(n, Linear(e, m, a), s);
    hide Cong, Pow, PowMod, MulMod, Respond, Linear, GammaPow;
    GammaPowCong(n, Linear(e, m, a));
    RespondPower(n, r, e, b);
    MulModCong(GammaPow(n, Linear(e, m, a)), Pow(G, Linear(e, m, a)), PowMod(s, n, n2), Pow(R, e) * B, n2);
    PowLinear(G, m, e, a);
    PowProduct(Pow(G, m), R, e);
    MaskedIs(n, m, r);
    MaskedIs(n, a, b);
    PowModCong(c, Pow(G, m) * R, e, n2);
    MulModCong(PowMod(c, e, n2), Pow(Pow(G, m), e) * Pow(R, e), u, Pow(G, a) * B, n2);
    Regroup(Pow(Pow(G, m), e), Pow(R, e), Pow(G, a), B);
    var t := (Pow(Pow(G, m), e) * Pow(G, a)) * (Pow(R, e) * B);
    CongFlip(MulMod(PowMod(c, e, n2), u, n2), t, n2);
    CongTrans(l, t, MulMod(PowMod(c, e, n2), u, n2), n2);
    CongSmall(l, MulMod(PowMod(c, e, n2), u, n2), n2);
  }

  /** Dividing the answer by the e-th power of the statement gives the first message back. */
  lemma DivideOut(z: int, inv: int, e: nat, l: int, w: nat, m: int)
    requires m > 0 && w < m && Cong(z * inv, 1, m) && l == MulMod(PowMod(z, e, m), w, m)
    ensures MulMod(l, PowMod(inv, e, m), m) == w
  {
    var p, pi := Pow(z, e), Pow(inv, e);
    PowProduct(z, inv, e);
    PowCong(z * inv, 1, e, m);
    PowOne(e);
    hide Pow, Cong, PowMod, MulMod;
    CongSelf(z, m);
    CongSelf(w, m);
    CongSelf(inv, m);
    PowModCong(z, z, e, m);
    PowModCong(inv, inv, e, m);
    MulModCong(PowMod(z, e, m), p, w, w, m);
    MulModCong(l, p * w, PowMod(inv, e, m), pi, m);
    CongScale(w, p * pi, 1, m);
    assert (p * w) * pi == w * (p * pi) by { ThreeFactors(p, w, pi); }
    CongTrans(MulMod(l, PowMod(inv, e, m), m), (p * w) * pi, w * 1, m);
    CongSmall(MulMod(l, PowMod(inv, e, m), m), w, m);
  }

  lemma ThreeFactors(p: int, w: int, pi: int)
    ensures (p * w) * pi == w * (p * pi)
  {
  }

  // ---------- Alice's range proof ----------

  datatype RangeProof = RangeProof(z: nat, u: nat, w: nat, s: nat, s1: nat, s2: nat)

  datatype RangeDraws = RangeDraws(alpha: nat, beta: nat, gamma: nat, rho: nat) {
    ghost predicate Valid(q: nat, n: nat, nt: nat) {
      && alpha < Cube(q) && beta < n && Coprime(beta, n)
      && gamma < CubeTimes(q, nt) && rho < q * nt
    }
  }

  function RangeChallenge(g: Setting, n: nat, c: nat, z: nat, u: nat, w: nat): (e: nat)
    requires g.q > 0
    ensures e < g.q
  {
    RejectionSample(g, RANGE_TAG, [n, n + 1, c, z, u, w])
  }

  /** prove_range_alice */
  function ProveRangeAlice(g: Setting, n: nat, c: nat, ring: Ring, m: nat, r: nat, d: RangeDraws): RangeProof
    requires g.q > 0 && n > 0 && n * n > 0 && ring.nt > 0
  {
    var z, u, w := Commit(ring, m, d.rho), Masked(n, d.alpha, d.beta), Commit(ring, d.alpha, d.gamma);
    var e := RangeChallenge(g, n, c, z, u, w);
    RangeProof(z, u, w, Respond(n, r, e, d.beta), Linear(e, m, d.alpha), Linear(e, d.rho, d.gamma))
  }

  /** The size and unit checks that precede the two equations. */
  predicate RangeWellFormed(g: Setting, n: nat, ring: Ring, pf: RangeProof) {
    && pf.z < ring.nt && pf.u < n * n && pf.w < ring.nt && pf.s < n
    && Gcd(pf.z, ring.nt) == 1 && Gcd(pf.u, n * n) == 1 && Gcd(pf.w, ring.nt) == 1
    && WithinBound(pf.s2, CubeTimes(g.q, ring.nt) + CubeTimes(g.q, ring.nt))
  }

  /** The checks an honest prover can fail by an unlucky draw. */
  predicate RangeLucky(q: nat, pf: RangeProof) {
    && q <= pf.s1 <= Cube(q) && q <= pf.s2 && pf.s != 1 && pf.z != 1 && pf.s1 != pf.s2
  }

  predicate RangeEquations(g: Setting, n: nat, ring: Ring, c: nat, pf: RangeProof)
    requires g.q > 0 && n > 0 && n * n > 0 && ring.nt > 0
  {
    var n2, e := n * n, RangeChallenge(g, n, c, pf.z, pf.u, pf.w);
    var cInv, zInv := ModInv(c, n2), ModInv(pf.z, ring.nt);
    && cInv.0 && pf.u == MulMod(MulMod(GammaPow(n, pf.s1), PowMod(pf.s, n, n2), n2), PowMod(cInv.1, e, n2), n2)
    && zInv.0 && pf.w == MulMod(Commit(ring, pf.s1, pf.s2), PowMod(zInv.1, e, ring.nt), ring.nt)
  }

  /** verify_range_alice */
  predicate VerifyRangeAlice(g: Setting, n: nat, ring: Ring, c: nat, pf: RangeProof)
    requires g.q > 0 && n > 0 && n * n > 0 && ring.nt > 0
  {
    RangeWellFormed(g, n, ring, pf) && RangeLucky(g.q, pf) && RangeEquations(g, n, ring, c, pf)
  }

  lemma ResponseBound(q: nat, nt: nat, e: nat, rho: nat, gamma: nat)
    requires e < q && rho < q * nt && gamma < CubeTimes(q, nt)
    ensures Linear(e, rho, gamma) < CubeTimes(q, nt) + CubeTimes(q, nt)
    ensures WithinBound(Linear(e, rho, gamma), CubeTimes(q, nt) + CubeTimes(q, nt))
  {
    MulMono(e, q, rho);
    MulMono(rho, q * nt, q);
    ProductNonNegative(q, nt);
    MulMono(1, q, q * (q * nt));
    CubeSplit(q, nt);
    BitLenMonotone(Linear(e, rho, gamma), CubeTimes(q, nt) + CubeTimes(q, nt));
  }

  lemma CubeSplit(q: nat, nt: nat)
    ensures q * (q * (q * nt)) == CubeTimes(q, nt) && q * (q * nt) >= 0
  {
    assert q * (q * (q * nt)) == (q * q * q) * nt;
    ProductNonNegative(q, nt);
    ProductNonNegative(q, q * nt);
  }

  /** The equations hold for whatever the honest prover draws. */
  lemma RangeEquationsHold(g: Setting, n: nat, ring: Ring, m: nat, r: nat, d: RangeDraws)
    requires g.q > 0 && n > 1 && n * n > 0 && ring.Units() && m < n && Coprime(r, n)
    ensures var c := Masked(n, m, r); RangeEquations(g, n, ring, c, ProveRangeAlice(g, n, c, ring, m, r, d))
  {
    var c := Masked(n, m, r);
    var pf := ProveRangeAlice(g, n, c, ring, m, r, d);
    var n2, e := n * n, RangeChallenge(g, n, c, pf.z, pf.u, pf.w);
    MaskedUnit(n, m, r);
    CommitUnit(ring, m, d.rho);
    ModInvCorrect(c, n2);
    ModInvCorrect(pf.z, ring.nt);
    hide Cong, Coprime, ModInv, PowMod, Linear, Respond, RejectionSample;
    MaskedLinear(n, m, r, e, d.alpha, d.beta);
    CommitLinear(ring, m, d.rho, e, d.alpha, d.gamma);
    DivideOut(c, ModInv(c, n2).1, e, Masked(n, pf.s1, pf.s), pf.u, n2);
    DivideOut(pf.z, ModInv(pf.z, ring.nt).1, e, Commit(ring, pf.s1, pf.s2), pf.w, ring.nt);
  }

  lemma RangeShapeHolds(g: Setting, n: nat, ring: Ring, m: nat, r: nat, d: RangeDraws)
    requires g.q > 0 && n > 1 && n * n > 0 && ring.Units() && d.Valid(g.q, n, ring.nt)
    ensures var c := Masked(n, m, r); RangeWellFormed(g, n, ring, ProveRangeAlice(g, n, c, ring, m, r, d))
  {
    var c := Masked(n, m, r);
    var pf := ProveRangeAlice(g, n, c, ring, m, r, d);
    MaskedUnit(n, d.alpha, d.beta);
    CoprimeIffGcd(pf.u, n * n);
    CommitUnit(ring, m, d.rho);
    CommitUnit(ring, d.alpha, d.gamma);
    hide Cong, Coprime, Gcd, Masked, Commit, Linear, RejectionSample, WithinBound;
    ResponseBound(g.q, ring.nt, RangeChallenge(g, n, c, pf.z, pf.u, pf.w), d.rho, d.gamma);
  }

  /** Completeness, exactly: the honest range proof is accepted if and only if the drawn responses avoid the ranges
      the verifier refuses. */
  lemma RangeProofExact(g: Setting, n: nat, ring: Ring, m: nat, r: nat, d: RangeDraws)
    requires g.q > 0 && n > 1 && n * n > 0 && ring.Units() && m < n && Coprime(r, n) && d.Valid(g.q, n, ring.nt)
    ensures var c := EncryptWith(n, m, r);
      && c.Ok?
      && var pf := ProveRangeAlice(g, n, c.value, ring, m, r, d);
         VerifyRangeAlice(g, n, ring, c.value, pf) <==> RangeLucky(g.q, pf)
  {
    EncryptIsMasked(n, m, r);
    RangeEquationsHold(g, n, ring, m, r, d);
    RangeShapeHolds(g, n, ring, m, r, d);
  }

  /** An honest prover that is refused: with alpha drawn as 0 and a message of at most 1 the response s1 stays below the
      order, for every setting, key, ring and every other draw. */
  lemma RangeProofRefused(g: Setting, n: nat, ring: Ring, m: nat, r: nat, d: RangeDraws)
    requires g.q > 0 && n > 1 && n * n > 0 && ring.Units() && Coprime(r, n) && d.Valid(g.q, n, ring.nt)
    requires m <= 1 && d.alpha == 0
    ensures var c := EncryptWith(n, m, r);
      c.Ok? && !VerifyRangeAlice(g, n, ring, c.value, ProveRangeAlice(g, n, c.value, ring, m, r, d))
  {
    EncryptIsMasked(n, m, r);
    var c := Masked(n, m, r);
    var pf := ProveRangeAlice(g, n, c, ring, m, r, d);
    MulMono(m, 1, RangeChallenge(g, n, c, pf.z, pf.u, pf.w));
    hide Masked, Coprime, Respond, Commit, RangeWellFormed, RangeEquations, EncryptWith, RejectionSample;
  }

  // ---------- Bob's proof ----------

  datatype BobProof = BobProof(z: nat, zprm: nat, t: nat, v: nat, w: nat, s: nat, s1: nat, s2: nat, t1: nat, t2: nat,
    u: Option<Point>)

  datatype BobDraws = BobDraws(alpha: nat, rho: nat, sigma: nat, tau: nat, rhoprm: nat, beta: nat, gamma: nat) {
    ghost predicate Valid(q: nat, n: nat, nt: nat) {
      && alpha < Cube(q) && gamma < Seventh(q) && beta < n && Coprime(beta, n)
      && rho < q * nt && sigma < q * nt && tau < CubeTimes(q, nt) && rhoprm < CubeTimes(q, nt)
    }
  }

  /** bob_challenge: the points enter the hash only when both are present. */
  function BobChallenge(g: Setting, session: string, n: nat, x: Option<Point>, u: Option<Point>, c1: nat, c2: nat,
    z: nat, zprm: nat, t: nat, v: nat, w: nat): (e: nat)
    requires g.q > 0
    ensures e < g.q
  {
    if x.Some? && u.Some? then
      var (xx, xy) := g.coords(x.value);
      var (ux, uy) := g.coords(u.value);
      RejectionSample(g, session, [n, n + 1, xx, xy, c1, c2, ux, uy, z, zprm, t, v, w])
    else
      RejectionSample(g, session, [n, n + 1, c1, c2, z, zprm, t, v, w])
  }

  /** c^a Gamma^b y^N mod N^2 */
  function Mix(n: nat, c: nat, a: nat, b: nat, y: nat): (v: nat)
    requires n > 0 && n * n > 0
    ensures v < n * n
  {
    MulMod(MulMod(PowMod(c, a, n * n), GammaPow(n, b), n * n), PowMod(y, n, n * n), n * n)
  }

  /** prove_bob */
  function ProveBob(g: Setting, session: string, n: nat, ring: Ring, c1: nat, c2: nat, x: nat, y: nat, r: nat,
    xPoint: Option<Point>, d: BobDraws): BobProof
    requires g.q > 0 && n > 0 && n * n > 0 && ring.nt > 0
  {
    var u := if xPoint.Some? then Some(MulBase(g.q, d.alpha)) else None;
    var z, zprm, t := Commit(ring, x, d.rho), Commit(ring, d.alpha, d.rhoprm), Commit(ring, y, d.sigma);
    var v, w := Mix(n, c1, d.alpha, d.gamma, d.beta), Commit(ring, d.gamma, d.tau);
    var e := BobChallenge(g, session, n, xPoint, u, c1, c2, z, zprm, t, v, w);
    BobProof(z, zprm, t, v, w, Respond(n, r, e, d.beta),
             Linear(e, x, d.alpha), Linear(e, d.rho, d.rhoprm), Linear(e, y, d.gamma), Linear(e, d.sigma, d.tau), u)
  }

  predicate BobWellFormed(g: Setting, n: nat, ring: Ring, pf: BobProof) {
    && pf.z < ring.nt && pf.zprm < ring.nt && pf.t < ring.nt && pf.v < n * n && pf.w < ring.nt && pf.s < n
    && Gcd(pf.z, ring.nt) == 1 && Gcd(pf.zprm, ring.nt) == 1 && Gcd(pf.t, ring.nt) == 1
    && Gcd(pf.v, n * n) == 1 && Gcd(pf.w, ring.nt) == 1
    && pf.s != 0 && Gcd(pf.s, n) == 1 && pf.v != 0 && Gcd(pf.v, n) == 1
    && WithinBound(pf.s2, CubeTimes(g.q, ring.nt) + CubeTimes(g.q, ring.nt))
    && WithinBound(pf.t2, CubeTimes(g.q, ring.nt) + CubeTimes(g.q, ring.nt))
  }

  /** The checks an honest prover can fail by an unlucky draw. */
  predicate BobLucky(q: nat, pf: BobProof) {
    q <= pf.s1 <= Cube(q) && q <= pf.t1 <= Seventh(q) && q <= pf.s2 && q <= pf.t2
  }

  predicate BobEquations(g: Setting, n: nat, ring: Ring, c1: nat, c2: nat, e: nat, pf: BobProof)
    requires n > 0 && n * n > 0 && ring.nt > 0
  {
    && Commit(ring, pf.s1, pf.s2) == MulMod(PowMod(pf.z, e, ring.nt), pf.zprm, ring.nt)
    && Commit(ring, pf.t1, pf.t2) == MulMod(PowMod(pf.t, e, ring.nt), pf.w, ring.nt)
    && MulMod(MulMod(PowMod(c1, pf.s1, n * n), PowMod(pf.s, n, n * n), n * n), GammaPow(n, pf.t1), n * n)
       == MulMod(PowMod(c2, e, n * n), pf.v, n * n)
  }

  /** [s1]G = [e]X + U */
  predicate PointEquation(q: nat, s1: nat, x: Point, e: nat, u: Point)
    requires q > 0
  {
    MulBase(q, s1 % q) == PointAdd(q, PointMul(q, x, e), u)
  }

  /** verify_bob */
  predicate VerifyBob(g: Setting, session: string, n: nat, ring: Ring, c1: nat, c2: nat, pf: BobProof,
    xPoint: Option<Point>)
    requires g.q > 0 && n > 0 && n * n > 0 && ring.nt > 0
  {
    var e := BobChallenge(g, session, n, xPoint, pf.u, c1, c2, pf.z, pf.zprm, pf.t, pf.v, pf.w);
    && !(xPoint.Some? && pf.u.None?)
    && BobWellFormed(g, n, ring, pf) && BobLucky(g.q, pf)
    && (xPoint.Some? && pf.u.Some? ==> PointEquation(g.q, pf.s1, xPoint.value, e, pf.u.value))
    && BobEquations(g, n, ring, c1, c2, e, pf)
  }

  // ---------- completeness of Bob's proof ----------

  lemma MixIs(n: nat, c: nat, a: nat, b: nat, y: nat)
    requires n > 1 && n * n > 0
    ensures Cong(Mix(n, c, a, b, y), Pow(c, a) * (Pow(n + 1, b) * Pow(y, n)), n * n)
  {
    var n2 := n * n;
    hide Cong, Pow, PowMod, MulMod;
    CongSelf(c, n2);
    CongSelf(y, n2);
    PowModCong(c, c, a, n2);
    GammaPowCong(n, b);
    PowModCong(y, y, n, n2);
    MulModCong(PowMod(c, a, n2), Pow(c, a), GammaPow(n, b), Pow(n + 1, b), n2);
    MulModCong(MulMod(PowMod(c, a, n2), GammaPow(n, b), n2), Pow(c, a) * Pow(n + 1, b), PowMod(y, n, n2), Pow(y, n),
      n2);
    Associate(Pow(c, a), Pow(n + 1, b), Pow(y, n));
  }

  lemma Associate(a: int, b: int, c: int)
    ensures (a * b) * c == a * (b * c) && (a * c) * b == a * (b * c)
  {
  }

  /** The left side of equation (7) is the same product in another order. */
  lemma AnswerIs(n: nat, c: nat, a: nat, b: nat, s: nat, sn: int)
    requires n > 1 && n * n > 0 && Cong(PowMod(s, n, n * n), sn, n * n)
    ensures Cong(MulMod(MulMod(PowMod(c, a, n * n), PowMod(s, n, n * n), n * n), GammaPow(n, b), n * n),
                 Pow(c, a) * (Pow(n + 1, b) * sn), n * n)
  {
    var n2 := n * n;
    hide Cong, Pow, PowMod, MulMod;
    CongSelf(c, n2);
    PowModCong(c, c, a, n2);
    GammaPowCong(n, b);
    MulModCong(PowMod(c, a, n2), Pow(c, a), PowMod(s, n, n2), sn, n2);
    MulModCong(MulMod(PowMod(c, a, n2), PowMod(s, n, n2), n2), Pow(c, a) * sn, GammaPow(n, b), Pow(n + 1, b), n2);
    Associate(Pow(c, a), Pow(n + 1, b), sn);
  }

  lemma MixUnit(n: nat, c: nat, a: nat, b: nat, y: nat)
    requires n > 1 && n * n > 0 && Coprime(c, n * n) && Coprime(y, n)
    ensures Coprime(Mix(n, c, a, b, y), n * n)
  {
    MixIs(n, c, a, b, y);
    PowCoprime(c, a, n * n);
    assert (n + 1) * 1 + n * (-1) == 1;
    CoprimeSquare(n + 1, n);
    PowCoprime(n + 1, b, n * n);
    CoprimeSquare(y, n);
    PowCoprime(y, n, n * n);
    hide Pow, Mix;
    CoprimeMul(Pow(n + 1, b), Pow(y, n), n * n);
    CoprimeMul(Pow(c, a), Pow(n + 1, b) * Pow(y, n), n * n);
    CongFlip(Mix(n, c, a, b, y), Pow(c, a) * (Pow(n + 1, b) * Pow(y, n)), n * n);
    CoprimeCong(Pow(c, a) * (Pow(n + 1, b) * Pow(y, n)), Mix(n, c, a, b, y), n * n);
  }

  lemma UnitOfSquare(a: int, n: int)
    requires Coprime(a, n * n)
    ensures Coprime(a, n)
  {
    var x, y :| a * x + (n * n) * y == 1;
    assert (n * n) * y == n * (n * y);
    assert a * x + n * (n * y) == 1;
  }

  /** Bob's ciphertext: c1^x Gamma^y r^N, as homo_mult and homo_add build it. */
  lemma BobCiphertextIs(n: nat, c1: nat, x: nat, y: nat, r: nat)
    requires n > 1 && n * n > 0
    ensures Cong(HomoAdd(n, HomoMult(n, x, c1), Masked(n, y, r)), Pow(c1, x) * (Pow(n + 1, y) * Pow(r, n)), n * n)
  {
    var n2 := n * n;
    hide Cong, Pow, PowMod, MulMod, Masked;
    CongSelf(c1, n2);
    PowModCong(c1, c1, x, n2);
    MaskedIs(n, y, r);
    MulModCong(PowMod(c1, x, n2), Pow(c1, x), Masked(n, y, r), Pow(n + 1, y) * Pow(r, n), n2);
    HomoAddIsMulMod(n, HomoMult(n, x, c1), Masked(n, y, r));
  }

  lemma HomoAddIsMulMod(n: nat, a: nat, b: nat)
    requires n * n > 0
    ensures HomoAdd(n, a, b) == MulMod(a, b, n * n)
  {
  }

  /** (c^x (G^y R))^e (c^a (G^b B)) = c^(ex+a) (G^(ey+b) (R^e B)) */
  lemma TripleLinear(c: int, G: int, R: int, B: int, x: nat, y: nat, e: nat, a: nat, b: nat)
    ensures Pow(Pow(c, x) * (Pow(G, y) * R), e) * (Pow(c, a) * (Pow(G, b) * B))
         == Pow(c, Linear(e, x, a)) * (Pow(G, Linear(e, y, b)) * (Pow(R, e) * B))
  {
    PowLinear(c, x, e, a);
    PowLinear(G, y, e, b);
    PowProduct(Pow(c, x), Pow(G, y) * R, e);
    PowProduct(Pow(G, y), R, e);
    hide Pow, Linear;
    Regroup(Pow(Pow(G, y), e), Pow(R, e), Pow(G, b), B);
    Regroup(Pow(Pow(c, x), e), Pow(Pow(G, y), e) * Pow(R, e), Pow(c, a), Pow(G, b) * B);
  }

  /** Equation (7) for honest values. */
  lemma MixLinear(n: nat, c1: nat, c2: nat, x: nat, y: nat, r: nat, e: nat, a: nat, b: nat, beta: nat)
    requires n > 1 && n * n > 0 && c2 == HomoAdd(n, HomoMult(n, x, c1), Masked(n, y, r))
    ensures MulMod(MulMod(PowMod(c1, Linear(e, x, a), n * n), PowMod(Respond(n, r, e, beta), n, n * n), n * n),
                   GammaPow(n, Linear(e, y, b)), n * n)
         == MulMod(PowMod(c2, e, n * n), Mix(n, c1, a, b, beta), n * n)
  {
    var n2, s, v := n * n, Respond(n, r, e, beta), Mix(n, c1, a, b, beta);
    var G, R, B := n + 1, Pow(r, n), Pow(beta, n);
    var t := Pow(c1, Linear(e, x, a)) * (Pow(G, Linear(e, y, b)) * (Pow(R, e) * B));
    var left := MulMod(MulMod(PowMod(c1, Linear(e, x, a), n2), PowMod(s, n, n2), n2), GammaPow(n, Linear(e, y, b)), n2);
    hide Cong, Pow, PowMod, MulMod, Respond, Linear, GammaPow, Mix, HomoAdd, HomoMult, Masked;
    RespondPower(n, r, e, beta);
    AnswerIs(n, c1, Linear(e, x, a), Linear(e, y, b), s, Pow(R, e) * B);
    BobCiphertextIs(n, c1, x, y, r);
    PowModCong(c2, Pow(c1, x) * (Pow(G, y) * R), e, n2);
    MixIs(n, c1, a, b, beta);
    MulModCong(PowMod(c2, e, n2), Pow(Pow(c1, x) * (Pow(G, y) * R), e), v, Pow(c1, a) * (Pow(G, b) * B), n2);
    TripleLinear(c1, G, R, B, x, y, e, a, b);
    CongFlip(MulMod(PowMod(c2, e, n2), v, n2), t, n2);
    CongTrans(left, t, MulMod(PowMod(c2, e, n2), v, n2), n2);
    CongSmall(left, MulMod(PowMod(c2, e, n2), v, n2), n2);
  }

  /** Equation (4) for any response and points: it relates their logarithms. */
  lemma PointExact(q: nat, s1: nat, x: Point, e: nat, u: Point)
    requires q > 0
    ensures PointEquation(q, s1, x, e, u) <==> Cong(s1, e * x + u, q)
  {
    var P := PointMul(q, x, e);
    var l, r := MulBase(q, s1 % q), PointAdd(q, P, u);
    hide Cong, MulBase, PointAdd, PointMul;
    CongMod(s1, q);
    FieldOps(q, s1 % q, 0);
    FieldOps(q, x, e);
    FieldOps(q, P, u);
    CongTrans(l, s1 % q, s1, q);
    assert x * e == e * x;
    CongSelf(u, q);
    CongAdd(P, e * x, u, u, q);
    CongTrans(r, P + u, e * x + u, q);
    SameResidues(q, l, s1, r, e * x + u);
  }

  /** Two residues are equal exactly when what they stand for is congruent. */
  lemma SameResidues(m: int, l: int, a: int, r: int, b: int)
    requires m > 0 && 0 <= l < m && 0 <= r < m && Cong(l, a, m) && Cong(r, b, m)
    ensures l == r <==> Cong(a, b, m)
  {
    if Cong(a, b, m) { CongSmall(l, r, m); }
  }

  /** It holds of an honest response for the point X exactly when e x = e log X. */
  lemma PointOfHonest(q: nat, x: nat, alpha: nat, e: nat, X: Point)
    requires q > 0
    ensures PointEquation(q, Linear(e, x, alpha), X, e, MulBase(q, alpha)) <==> Cong(e * x, e * X, q)
  {
    PointExact(q, Linear(e, x, alpha), X, e, MulBase(q, alpha));
    FieldOps(q, alpha, 0);
    var U := MulBase(q, alpha);
    hide Cong, MulBase;
    if Cong(e * x, e * X, q) {
      CongFlip(U, alpha, q);
      CongAdd(e * x, e * X, alpha, U, q);
    }
    if Cong(e * x + alpha, e * X + U, q) { CongSub(e * x + alpha, e * X + U, alpha, U, q); }
  }

  /** Equation (4): the response answers for the point X = [x]G. */
  lemma PointLinear(q: nat, x: nat, alpha: nat, e: nat)
    requires q > 0
    ensures PointEquation(q, Linear(e, x, alpha), MulBase(q, x), e, MulBase(q, alpha))
  {
    PointOfHonest(q, x, alpha, e, MulBase(q, x));
    FieldOps(q, x, 0);
    CongScale(e, MulBase(q, x), x, q);
  }

  lemma RespondUnit(n: nat, r: nat, e: nat, b: nat)
    requires n > 1 && Coprime(r, n) && Coprime(b, n)
    ensures Coprime(Respond(n, r, e, b), n)
  {
    var s := Respond(n, r, e, b);
    PowCoprime(r, e, n);
    CoprimeMul(Pow(r, e), b, n);
    CongSelf(r, n);
    CongSelf(b, n);
    PowModCong(r, r, e, n);
    MulModCong(PowMod(r, e, n), Pow(r, e), b, b, n);
    CongFlip(s, Pow(r, e) * b, n);
    CoprimeCong(Pow(r, e) * b, s, n);
  }

  lemma UnitNonZero(a: nat, n: nat)
    requires n > 1 && Coprime(a, n)
    ensures a != 0 && Gcd(a, n) == 1
  {
    CoprimeIffGcd(a, n);
    if a == 0 {
      var x, y :| a * x + n * y == 1;
      assert n * y == 1;
      DividesBy(n, 1, y);
      DividesBound(n, 1);
      assert false;
    }
  }

  /** The statement Bob proves: his ciphertext is Alice's raised to x, shifted by y. */
  ghost predicate BobStatement(g: Setting, n: nat, ring: Ring, c1: nat, c2: nat, x: nat, y: nat, r: nat, d: BobDraws) {
    && g.q > 0 && n > 1 && n * n > 0 && ring.Units() && Coprime(c1, n * n) && Coprime(r, n) && d.Valid(g.q, n, ring.nt)
    && c2 == HomoAdd(n, HomoMult(n, x, c1), Masked(n, y, r))
  }

  lemma BobShapeHolds(g: Setting, session: string, n: nat, ring: Ring, c1: nat, c2: nat, x: nat, y: nat, r: nat,
    xPoint: Option<Point>, d: BobDraws)
    requires BobStatement(g, n, ring, c1, c2, x, y, r, d)
    ensures BobWellFormed(g, n, ring, ProveBob(g, session, n, ring, c1, c2, x, y, r, xPoint, d))
  {
    var pf := ProveBob(g, session, n, ring, c1, c2, x, y, r, xPoint, d);
    var e := BobChallenge(g, session, n, xPoint, pf.u, c1, c2, pf.z, pf.zprm, pf.t, pf.v, pf.w);
    hide Coprime, Gcd, Commit, Linear, RejectionSample, WithinBound, Mix, Respond, MulBase, HomoAdd, HomoMult, Masked;
    CommitUnit(ring, x, d.rho);
    CommitUnit(ring, d.alpha, d.rhoprm);
    CommitUnit(ring, y, d.sigma);
    CommitUnit(ring, d.gamma, d.tau);
    MixUnit(n, c1, d.alpha, d.gamma, d.beta);
    UnitNonZero(pf.v, n * n);
    UnitOfSquare(pf.v, n);
    UnitNonZero(pf.v, n);
    RespondUnit(n, r, e, d.beta);
    UnitNonZero(pf.s, n);
    ResponseBound(g.q, ring.nt, e, d.rho, d.rhoprm);
    ResponseBound(g.q, ring.nt, e, d.sigma, d.tau);
  }

  lemma BobEquationsHold(g: Setting, session: string, n: nat, ring: Ring, c1: nat, c2: nat, x: nat, y: nat, r: nat,
    xPoint: Option<Point>, d: BobDraws)
    requires BobStatement(g, n, ring, c1, c2, x, y, r, d)
    ensures var pf := ProveBob(g, session, n, ring, c1, c2, x, y, r, xPoint, d);
      BobEquations(g, n, ring, c1, c2, BobChallenge(g, session, n, xPoint, pf.u, c1, c2, pf.z, pf.zprm, pf.t, pf.v,
        pf.w), pf)
  {
    var pf := ProveBob(g, session, n, ring, c1, c2, x, y, r, xPoint, d);
    var e := BobChallenge(g, session, n, xPoint, pf.u, c1, c2, pf.z, pf.zprm, pf.t, pf.v, pf.w);
    hide Coprime, Commit, Linear, RejectionSample, Mix, Respond, MulBase, HomoAdd, HomoMult, Masked, PowMod, MulMod,
      GammaPow;
    CommitLinear(ring, x, d.rho, e, d.alpha, d.rhoprm);
    CommitLinear(ring, y, d.sigma, e, d.gamma, d.tau);
    MixLinear(n, c1, c2, x, y, r, e, d.alpha, d.gamma, d.beta);
  }

  /** Completeness, exactly, in the plain form and in the form that checks a point X: the proof Bob makes for his
      factor x is accepted if and only if the drawn responses are in the verifier's ranges and, in the second form,
      the challenge cannot tell x from the logarithm of X. */
  lemma BobProofExact(g: Setting, session: string, n: nat, ring: Ring, c1: nat, c2: nat, x: nat, y: nat, r: nat,
    xPoint: Option<Point>, d: BobDraws)
    requires BobStatement(g, n, ring, c1, c2, x, y, r, d)
    ensures var pf := ProveBob(g, session, n, ring, c1, c2, x, y, r, xPoint, d);
      var e := BobChallenge(g, session, n, xPoint, pf.u, c1, c2, pf.z, pf.zprm, pf.t, pf.v, pf.w);
      VerifyBob(g, session, n, ring, c1, c2, pf, xPoint) <==>
        BobLucky(g.q, pf) && (xPoint.Some? ==> Cong(e * x, e * xPoint.value, g.q))
  {
    var pf := ProveBob(g, session, n, ring, c1, c2, x, y, r, xPoint, d);
    var e := BobChallenge(g, session, n, xPoint, pf.u, c1, c2, pf.z, pf.zprm, pf.t, pf.v, pf.w);
    BobShapeHolds(g, session, n, ring, c1, c2, x, y, r, xPoint, d);
    BobEquationsHold(g, session, n, ring, c1, c2, x, y, r, xPoint, d);
    if xPoint.Some? { PointOfHonest(g.q, x, d.alpha, e, xPoint.value); }
    hide Coprime, Commit, Linear, RejectionSample, Mix, Respond, MulBase, HomoAdd, HomoMult, Masked, PointEquation,
      BobWellFormed, BobEquations, BobLucky, BobChallenge, Cong;
  }

  /** For the point of his own factor only the ranges are left. */
  lemma BobProofForOwnPoint(g: Setting, session: string, n: nat, ring: Ring, c1: nat, c2: nat, x: nat, y: nat, r: nat,
    xPoint: Option<Point>, d: BobDraws)
    requires BobStatement(g, n, ring, c1, c2, x, y, r, d)
    requires xPoint.Some? ==> xPoint.value == MulBase(g.q, x)
    ensures var pf := ProveBob(g, session, n, ring, c1, c2, x, y, r, xPoint, d);
      VerifyBob(g, session, n, ring, c1, c2, pf, xPoint) <==> BobLucky(g.q, pf)
  {
    var pf := ProveBob(g, session, n, ring, c1, c2, x, y, r, xPoint, d);
    var e := BobChallenge(g, session, n, xPoint, pf.u, c1, c2, pf.z, pf.zprm, pf.t, pf.v, pf.w);
    BobProofExact(g, session, n, ring, c1, c2, x, y, r, xPoint, d);
    FieldOps(g.q, x, 0);
    CongFlip(MulBase(g.q, x), x, g.q);
    CongScale(e, x, MulBase(g.q, x), g.q);
    hide BobStatement, ProveBob, VerifyBob, BobLucky, BobChallenge, MulBase, Cong;
  }

  /** The same for Bob: alpha drawn as 0 and a factor of at most 1, in both forms. */
  lemma BobProofRefused(g: Setting, session: string, n: nat, ring: Ring, c1: nat, c2: nat, x: nat, y: nat, r: nat,
    xPoint: Option<Point>, d: BobDraws)
    requires BobStatement(g, n, ring, c1, c2, x, y, r, d) && x <= 1 && d.alpha == 0
    ensures !VerifyBob(g, session, n, ring, c1, c2, ProveBob(g, session, n, ring, c1, c2, x, y, r, xPoint, d), xPoint)
  {
    var pf := ProveBob(g, session, n, ring, c1, c2, x, y, r, xPoint, d);
    MulMono(x, 1, BobChallenge(g, session, n, xPoint, pf.u, c1, c2, pf.z, pf.zprm, pf.t, pf.v, pf.w));
    hide Mix, Coprime, Respond, Commit, BobWellFormed, BobEquations, PointEquation, RejectionSample;
  }

  // ---------- the share protocol ----------

  datatype MtaError = AliceRangeProofFailed | BobProofFailed | PaillierFailure(cause: PaillierError)

  datatype BobMessage = BobMessage(beta: nat, cb: nat, betaprm: nat, pi: BobProof)

  /** alice_init with encryption randomness ra */
  function AliceInit(g: Setting, n: nat, a: nat, ringB: Ring, ra: nat, d: RangeDraws): Result<(nat,
    RangeProof), MtaError>
    requires g.q > 0 && n > 0 && n * n > 0 && ringB.nt > 0
  {
    var ca := EncryptWith(n, a, ra);
    if ca.Err? then Err(PaillierFailure(ca.error))
    else Ok((ca.value, ProveRangeAlice(g, n, ca.value, ringB, a, ra, d)))
  }

  /** bob_mid and bob_mid_wc with the drawn beta' and encryption randomness rb */
  function BobMid(g: Setting, session: string, n: nat, rangePf: RangeProof, b: nat, ca: nat, ringA: Ring, ringB: Ring,
    xPoint: Option<Point>, betaprm: nat, rb: nat, d: BobDraws): Result<BobMessage, MtaError>
    requires g.q > 0 && n > 0 && n * n > 0 && ringA.nt > 0 && ringB.nt > 0
  {
    if !VerifyRangeAlice(g, n, ringB, ca, rangePf) then Err(AliceRangeProofFailed)
    else
      var c := EncryptWith(n, betaprm, rb);
      if c.Err? then Err(PaillierFailure(c.error))
      else
        var cb := HomoAdd(n, HomoMult(n, b, ca), c.value);
        Ok(BobMessage(FNeg(g.q, betaprm), cb, betaprm,
                      ProveBob(g, session, n, ringA, ca, cb, b, betaprm, rb, xPoint, d)))
  }

  /** alice_end and alice_end_wc */
  function AliceEnd(g: Setting, session: string, sk: PrivateKey, pi: BobProof, xPoint: Option<Point>, ringA: Ring,
    ca: nat, cb: nat): (res: Result<nat, MtaError>)
    requires g.q > 0 && sk.n > 0 && sk.n * sk.n > 0 && ringA.nt > 0
    ensures res.Ok? ==> res.value < g.q
  {
    if !VerifyBob(g, session, sk.n, ringA, ca, cb, pi, xPoint) then Err(BobProofFailed)
    else
      var plain := Decrypt(sk, cb);
      if plain.Err? then Err(PaillierFailure(plain.error)) else Ok(plain.value % g.q)
  }

  /** Everything an honest pair brings to one conversion. */
  ghost predicate Honest(g: Setting, p: nat, q: nat, a: nat, b: nat, ringA: Ring, ringB: Ring, xPoint: Option<Point>,
    ra: nat, rb: nat, betaprm: nat, d1: RangeDraws, d2: BobDraws) {
    && g.q > 0 && GoodPrimes(p, q) && a < p * q && betaprm < p * q && ringA.Units() && ringB.Units()
    && Coprime(ra, p * q) && Coprime(rb, p * q)
    && d1.Valid(g.q, p * q, ringB.nt) && d2.Valid(g.q, p * q, ringA.nt)
    && (xPoint.Some? ==> xPoint.value == MulBase(g.q, b))
  }

  /** Bob's ciphertext decrypts to ab + beta' reduced modulo N. */
  lemma DecryptsToProduct(p: nat, q: nat, a: nat, b: nat, ra: nat, rb: nat, betaprm: nat)
    requires GoodPrimes(p, q) && a < p * q && betaprm < p * q && Coprime(ra, p * q) && Coprime(rb, p * q)
    ensures var n := p * q;
      && EncryptWith(n, a, ra).Ok? && EncryptWith(n, betaprm, rb).Ok? && b * a + betaprm >= 0
      && Decrypt(KeyFrom(p, q), HomoAdd(n, HomoMult(n, b, EncryptWith(n, a, ra).value),
        EncryptWith(n, betaprm, rb).value))
         == Ok((b * a + betaprm) % n)
  {
    var n := p * q;
    ProductNonNegative(b, a);
    EncryptionEncrypts(n, a, ra);
    EncryptionEncrypts(n, betaprm, rb);
    var ca, cp := EncryptWith(n, a, ra).value, EncryptWith(n, betaprm, rb).value;
    hide Encrypts, EncryptsWith, HomoAdd, HomoMult, EncryptWith, Decrypt, KeyFrom;
    HomoMultEncrypts(n, b, ca, a);
    HomoAddEncrypts(n, HomoMult(n, b, ca), b * a, cp, betaprm);
    DecryptCorrect(p, q, HomoAdd(n, HomoMult(n, b, ca), cp), b * a + betaprm);
  }

  /** Below q^5 + q^2 < N nothing wraps. */
  lemma NoWraparound(q: nat, n: nat, a: nat, b: nat, betaprm: nat)
    requires a < q && b < q && betaprm < Fifth(q) && n > Fifth(q) + q * q
    ensures 0 <= b * a + betaprm < n && (b * a + betaprm) % n == b * a + betaprm
  {
    MulMono(b, q, a);
    MulMono(a, q, q);
    ProductNonNegative(b, a);
    hide *;
    SmallMod(b * a + betaprm, n);
  }

  /** The two shares add up to ab plus whatever a wraparound of ab + beta' modulo N removed. */
  lemma SharesSum(q: nat, n: nat, v: nat, t: int, betaprm: nat)
    requires q > 0 && n > 0 && v == t + betaprm
    ensures Cong((v % n) % q + FNeg(q, betaprm), t - (v / n) * n, q)
  {
    FieldOps(q, betaprm, 0);
    CongMod(v % n, q);
    var mask: int := (betaprm as int) * -1;
    CongAdd((v % n) % q, v % n, FNeg(q, betaprm), mask, q);
    assert v == (v / n) * n + v % n;
  }

  /** alpha + beta = ab modulo q exactly when q divides what the reduction modulo N removed. */
  lemma SharesExact(q: nat, n: nat, v: nat, t: int, betaprm: nat)
    requires q > 0 && n > 0 && v == t + betaprm
    ensures Cong((v % n) % q + FNeg(q, betaprm), t, q) <==> Cong((v / n) * n, 0, q)
  {
    var k := (v / n) * n;
    SharesSum(q, n, v, t, betaprm);
    var s := (v % n) % q + FNeg(q, betaprm);
    hide FNeg;
    if Cong(k, 0, q) {
      CongSub(t, t, k, 0, q);
      CongTrans(s, t - k, t, q);
    }
    if Cong(s, t, q) {
      CongFlip(s, t, q);
      CongTrans(t, s, t - k, q);
      CongSub(t, t - k, t - k, t - k, q);
      CongFlip(k, 0, q);
    }
  }

  /** One conversion: alice_init, bob_mid (or bob_mid_wc), alice_end (or alice_end_wc); the shares are (alpha, beta). */
  function Convert(g: Setting, session: string, sk: PrivateKey, a: nat, b: nat, ringA: Ring, ringB: Ring,
    xPoint: Option<Point>, ra: nat, rb: nat, betaprm: nat, d1: RangeDraws, d2: BobDraws): Result<(nat, nat), MtaError>
    requires g.q > 0 && sk.n > 0 && sk.n * sk.n > 0 && ringA.nt > 0 && ringB.nt > 0
  {
    var first := AliceInit(g, sk.n, a, ringB, ra, d1);
    if first.Err? then Err(first.error)
    else
      var (ca, pf) := first.value;
      var second := BobMid(g, session, sk.n, pf, b, ca, ringA, ringB, xPoint, betaprm, rb, d2);
      if second.Err? then Err(second.error)
      else
        var third := AliceEnd(g, session, sk, second.value.pi, xPoint, ringA, ca, second.value.cb);
        if third.Err? then Err(third.error) else Ok((third.value, second.value.beta))
  }

  /** Whether the draws put every response in its checked range. */
  predicate Lucky(g: Setting, session: string, n: nat, a: nat, b: nat, ringA: Ring, ringB: Ring, xPoint: Option<Point>,
    ra: nat, rb: nat, betaprm: nat, d1: RangeDraws, d2: BobDraws)
    requires g.q > 0 && n > 0 && n * n > 0 && ringA.nt > 0 && ringB.nt > 0
  {
    var ca := Masked(n, a, ra);
    var cb := HomoAdd(n, HomoMult(n, b, ca), Masked(n, betaprm, rb));
    && RangeLucky(g.q, ProveRangeAlice(g, n, ca, ringB, a, ra, d1))
    && BobLucky(g.q, ProveBob(g, session, n, ringA, ca, cb, b, betaprm, rb, xPoint, d2))
  }

  /** An honest conversion completes exactly when the draws are lucky, and then its shares are the reduced decryption
      and the negated mask. */
  lemma HonestRun(g: Setting, session: string, p: nat, q: nat, a: nat, b: nat, ringA: Ring, ringB: Ring,
    xPoint: Option<Point>, ra: nat, rb: nat, betaprm: nat, d1: RangeDraws, d2: BobDraws)
    requires Honest(g, p, q, a, b, ringA, ringB, xPoint, ra, rb, betaprm, d1, d2)
    ensures b * a + betaprm >= 0
    ensures var run := Convert(g, session, KeyFrom(p, q), a, b, ringA, ringB, xPoint, ra, rb, betaprm, d1, d2);
      && (run.Ok? <==> Lucky(g, session, p * q, a, b, ringA, ringB, xPoint, ra, rb, betaprm, d1, d2))
      && (run.Err? ==> run.error == AliceRangeProofFailed || run.error == BobProofFailed)
      && (run.Ok? ==> run.value == (((b * a + betaprm) % (p * q)) % g.q, FNeg(g.q, betaprm)))
  {
    var n := p * q;
    ProductNonNegative(b, a);
    EncryptIsMasked(n, a, ra);
    EncryptIsMasked(n, betaprm, rb);
    DecryptsToProduct(p, q, a, b, ra, rb, betaprm);
    RangeProofExact(g, n, ringB, a, ra, d1);
    MaskedUnit(n, a, ra);
    var ca := Masked(n, a, ra);
    var cb := HomoAdd(n, HomoMult(n, b, ca), Masked(n, betaprm, rb));
    BobProofForOwnPoint(g, session, n, ringA, ca, cb, b, betaprm, rb, xPoint, d2);
    hide GoodPrimes, Coprime, Decrypt, EncryptWith, HomoAdd, HomoMult, Masked, VerifyBob, VerifyRangeAlice, ProveBob,
      ProveRangeAlice, BobLucky, RangeLucky, FNeg, MulBase;
  }

  /** The same step by step: Alice can always start, Bob answers exactly when her responses are lucky, and Alice goes on
      exactly when his are. */
  lemma HonestSteps(g: Setting, session: string, p: nat, q: nat, a: nat, b: nat, ringA: Ring, ringB: Ring,
    xPoint: Option<Point>, ra: nat, rb: nat, betaprm: nat, d1: RangeDraws, d2: BobDraws)
    requires Honest(g, p, q, a, b, ringA, ringB, xPoint, ra, rb, betaprm, d1, d2)
    ensures var n, sk := p * q, KeyFrom(p, q);
      && AliceInit(g, n, a, ringB, ra, d1).Ok?
      && var (ca, pf) := AliceInit(g, n, a, ringB, ra, d1).value;
         var bob := BobMid(g, session, n, pf, b, ca, ringA, ringB, xPoint, betaprm, rb, d2);
      && (bob.Ok? <==> RangeLucky(g.q, pf))
      && (bob.Ok? ==>
        && (bob.value.pi.u.Some? <==> xPoint.Some?)
        && (AliceEnd(g, session, sk, bob.value.pi, xPoint, ringA, ca, bob.value.cb).Ok? <==>
          BobLucky(g.q, bob.value.pi)))
  {
    var n := p * q;
    ProductNonNegative(b, a);
    EncryptIsMasked(n, a, ra);
    EncryptIsMasked(n, betaprm, rb);
    DecryptsToProduct(p, q, a, b, ra, rb, betaprm);
    RangeProofExact(g, n, ringB, a, ra, d1);
    MaskedUnit(n, a, ra);
    var ca := Masked(n, a, ra);
    var cb := HomoAdd(n, HomoMult(n, b, ca), Masked(n, betaprm, rb));
    BobProofForOwnPoint(g, session, n, ringA, ca, cb, b, betaprm, rb, xPoint, d2);
    assert ProveBob(g, session, n, ringA, ca, cb, b, betaprm, rb, xPoint, d2).u.Some? <==> xPoint.Some?;
    hide GoodPrimes, Coprime, Decrypt, EncryptWith, HomoAdd, HomoMult, Masked, VerifyBob, VerifyRangeAlice, ProveBob,
      ProveRangeAlice, BobLucky, RangeLucky, FNeg, MulBase;
  }

  /** The shares of a completed honest conversion, for any sizes: alpha + beta = ab modulo q exactly when q divides what
      the reduction of ab + beta' modulo N removed. */
  lemma MtaExact(g: Setting, session: string, p: nat, q: nat, a: nat, b: nat, ringA: Ring, ringB: Ring,
    xPoint: Option<Point>, ra: nat, rb: nat, betaprm: nat, d1: RangeDraws, d2: BobDraws)
    requires Honest(g, p, q, a, b, ringA, ringB, xPoint, ra, rb, betaprm, d1, d2)
    ensures b * a + betaprm >= 0
    ensures var run := Convert(g, session, KeyFrom(p, q), a, b, ringA, ringB, xPoint, ra, rb, betaprm, d1, d2);
      run.Ok? ==>
        (Cong(run.value.0 + run.value.1, b * a, g.q) <==> Cong(((b * a + betaprm) / (p * q)) * (p * q), 0, g.q))
  {
    hide GoodPrimes, Coprime, Cong, FNeg, MulBase, Convert, Lucky, Seventh, Cube, CubeTimes;
    ProductNonNegative(b, a);
    HonestRun(g, session, p, q, a, b, ringA, ringB, xPoint, ra, rb, betaprm, d1, d2);
    SharesExact(g.q, p * q, b * a + betaprm, b * a, betaprm);
  }

  /** What a minimum size for N is good for: with q of at most b bits and N of more than 6b, N exceeds q^5 + q^2. */
  lemma SizeSuffices(q: nat, n: nat, b: nat)
    requires BitLen(q) <= b && BitLen(n) > 6 * b && b > 0
    ensures n > Fifth(q) + q * q
  {
    hide *;
    BitLenBound(q);
    PowerGrows(BitLen(q), b);
    PowerGrows(1, b);
    PowOnce(2);
    BitLenBound(n);
    PowerGrows(6 * b, BitLen(n) - 1);
    SixthPower(b);
    PowersBelow(q, Pow(2, b));
  }

  lemma SixthPower(b: nat)
    ensures var s := Pow(2, b); Pow(2, 6 * b) == s * ((s * s) * (s * s) * s)
  {
    hide *;
    PowAdd(2, b, b);
    PowAdd(2, 2 * b, 2 * b);
    PowAdd(2, 4 * b, b);
    PowAdd(2, b, 5 * b);
  }

  lemma PowersBelow(q: nat, s: nat)
    requires q < s && s >= 2
    ensures Fifth(q) + q * q < s * ((s * s) * (s * s) * s)
  {
    var a, b := q * q, s * s;
    ProductBelow(q, q, s, s);
    ProductBelow(a, a, b, b);
    ProductBelow(a * a, q, b * b, s);
    ProductBelow(b, 1, b * b, s);
    MulMono(q + 1, s, s);
    MulMono(q, s, q);
    MulMono(2, s, b * b * s);
    assert b <= b * b by { ProductBelow(1, b, b, b); }
  }

  lemma ProductBelow(a: nat, b: nat, c: nat, d: nat)
    requires a <= c && b <= d
    ensures 0 <= a * b <= c * d
  {
    MulMono(a, c, b);
    MulMono(b, d, c);
    ProductNonNegative(a, b);
  }

  lemma NothingRemoved(v: nat, n: nat, q: nat)
    requires q > 0 && v < n
    ensures Cong((v / n) * n, 0, q)
  {
    ModUnique(v, 0, v, n);
  }

  /** With no wraparound the ciphertext decrypts to ab + beta' itself. */
  lemma DecryptsExactly(s: nat, p: nat, q: nat, a: nat, b: nat, ra: nat, rb: nat, betaprm: nat)
    requires GoodPrimes(p, q) && Coprime(ra, p * q) && Coprime(rb, p * q)
    requires a < s && b < s && betaprm < Fifth(s) && p * q > Fifth(s) + s * s
    ensures a < p * q && betaprm < p * q && b * a + betaprm >= 0
    ensures Decrypt(KeyFrom(p, q), HomoAdd(p * q, HomoMult(p * q, b, Masked(p * q, a, ra)), Masked(p * q, betaprm, rb)))
         == Ok(b * a + betaprm)
  {
    MulMono(1, s, s);
    NoWraparound(s, p * q, a, b, betaprm);
    DecryptsToProduct(p, q, a, b, ra, rb, betaprm);
    EncryptIsMasked(p * q, a, ra);
    EncryptIsMasked(p * q, betaprm, rb);
  }

  /** MtA correctness. For a, b below q, beta' below q^5 and N above q^5 + q^2 every completed honest conversion, with
      or without check, shares the product: alpha + beta = ab modulo q. */
  lemma MtaCorrect(g: Setting, session: string, p: nat, q: nat, a: nat, b: nat, ringA: Ring, ringB: Ring,
    xPoint: Option<Point>, ra: nat, rb: nat, betaprm: nat, d1: RangeDraws, d2: BobDraws)
    requires Honest(g, p, q, a, b, ringA, ringB, xPoint, ra, rb, betaprm, d1, d2)
    requires a < g.q && b < g.q && betaprm < Fifth(g.q) && p * q > Fifth(g.q) + g.q * g.q
    ensures var run := Convert(g, session, KeyFrom(p, q), a, b, ringA, ringB, xPoint, ra, rb, betaprm, d1, d2);
      run.Ok? ==> Cong(run.value.0 + run.value.1, b * a, g.q)
  {
    hide GoodPrimes, Coprime, Cong, FNeg, MulBase, Convert, Lucky, Seventh, Cube, CubeTimes, Fifth;
    NoWraparound(g.q, p * q, a, b, betaprm);
    NothingRemoved(b * a + betaprm, p * q, g.q);
    MtaExact(g, session, p, q, a, b, ringA, ringB, xPoint, ra, rb, betaprm, d1, d2);
  }
}
