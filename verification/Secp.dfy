/** The secp256k1 scalar field and group (src/dklstss/secp.rs) and ECDSA over them.

    The group is cyclic of prime order n, so a point is represented by its discrete logarithm in
    [0, n); 0 is the identity. Coordinates are uninterpreted, except that a point and its negative
    share their x-coordinate and have opposite y-parity. */
module Secp {
  import opened NumberTheory

  type Scalar = int
  type Point = int

  function FAdd(n: int, a: Scalar, b: Scalar): (r: Scalar) requires n > 0 ensures 0 <= r < n { (a + b) % n }
  function FSub(n: int, a: Scalar, b: Scalar): (r: Scalar) requires n > 0 ensures 0 <= r < n { (a - b) % n }
  function FMul(n: int, a: Scalar, b: Scalar): (r: Scalar) requires n > 0 ensures 0 <= r < n { (a * b) % n }
  function FNeg(n: int, a: Scalar): (r: Scalar) requires n > 0 ensures 0 <= r < n { (-a) % n }

  /** [k]G */
  function MulBase(n: int, k: Scalar): (p: Point) requires n > 0 ensures 0 <= p < n { k % n }
  function PointAdd(n: int, p: Point, q: Point): (r: Point) requires n > 0 ensures 0 <= r < n { (p + q) % n }
  function PointMul(n: int, p: Point, k: Scalar): (r: Point) requires n > 0 ensures 0 <= r < n { (p * k) % n }

  ghost predicate Reduced(n: int, xs: seq<int>) { forall i :: 0 <= i < |xs| ==> 0 <= xs[i] < n }

  /** Each field and group operation agrees with the integer operation modulo n. */
  lemma FieldOps(n: int, a: int, b: int)
    requires n > 0
    ensures Cong(FAdd(n, a, b), a + b, n) && Cong(FSub(n, a, b), a - b, n)
    ensures Cong(FMul(n, a, b), a * b, n) && Cong(FNeg(n, a), -a, n)
    ensures Cong(MulBase(n, a), a, n) && Cong(PointAdd(n, a, b), a + b, n) && Cong(PointMul(n, a, b), a * b, n)
  {
    CongMod(a + b, n);
    CongMod(a - b, n);
    CongMod(a * b, n);
    CongMod(-a, n);
    CongMod(a, n);
  }

  /** Adding to a reduced running sum. */
  lemma SumStep(n: int, acc: int, s: int, x: int, y: int)
    requires n > 0 && acc == s % n && Cong(x, y, n)
    ensures FAdd(n, acc, x) == (s + y) % n
  {
    CongMod(s, n);
    CongAdd(acc, s, x, y, n);
  }

  lemma SubStep(n: int, acc: int, s: int, x: int, y: int)
    requires n > 0 && acc == s % n && Cong(x, y, n)
    ensures FSub(n, acc, x) == (s - y) % n
  {
    CongMod(s, n);
    CongSub(acc, s, x, y, n);
  }

  datatype Curve = Curve(n: int, xOf: Point -> nat, yOdd: Point -> bool) {
    ghost predicate Valid() {
      && IsPrime(n)
      && xOf(0) == 0 && !yOdd(0)
      && forall p :: 0 < p < n ==> xOf(n - p) == xOf(p) && yOdd(n - p) != yOdd(p)
    }

    /** The x-coordinate as a scalar. */
    function XScalar(p: Point): (r: Scalar)
      requires n > 0
      ensures 0 <= r < n
    {
      xOf(p) % n
    }
  }

  /** The point the verifier recomputes: (e/s)G + (r/s)Q. */
  function RecoveredPoint(c: Curve, pub: Point, e: Scalar, r: Scalar, s: Scalar): (p: Point)
    requires c.n > 0
    ensures 0 <= p < c.n
  {
    var w := Inv(c.n, s);
    PointAdd(c.n, MulBase(c.n, FMul(c.n, e, w)), PointMul(c.n, pub, FMul(c.n, r, w)))
  }

  /** ecdsa_verify of src/dklstss/signing.rs */
  predicate EcdsaVerify(c: Curve, pub: Point, e: Scalar, r: Scalar, s: Scalar)
    requires c.n > 0
  {
    c.XScalar(RecoveredPoint(c, pub, e, r, s)) == r
  }

  /** SEC 1 version 2.0, section 4.1.4: range checks, then the recomputed point is not the identity and its
      x-coordinate reduces to r. */
  ghost predicate Sec1Verify(c: Curve, pub: Point, e: Scalar, r: Scalar, s: Scalar)
    requires c.n > 0
  {
    && 1 <= r < c.n && 1 <= s < c.n
    && RecoveredPoint(c, pub, e, r, s) != 0
    && c.XScalar(RecoveredPoint(c, pub, e, r, s)) == r
  }

  /** In the upper half of the field. */
  predicate IsHighS(n: int, s: Scalar): (high: bool)
    ensures high <==> 2 * s > n
  {
    s > n / 2
  }

  datatype Signature = Signature(r: Scalar, s: Scalar, v: bool)

  /** Low-S normalisation: a high s is negated and the recovery bit flipped. */
  function Normalize(c: Curve, rPoint: Point, r: Scalar, s: Scalar): Signature
    requires c.n > 0
  {
    if IsHighS(c.n, s) then Signature(r, FNeg(c.n, s), !c.yOdd(rPoint)) else Signature(r, s, c.yOdd(rPoint))
  }

  /** The signing equation s*k = e + r*x makes the verifier recompute [k]G. */
  lemma RecoverNonce(c: Curve, pub: Point, e: int, r: int, s: int, k: int, x: int)
    requires IsPrime(c.n) && !Cong(s, 0, c.n) && Cong(pub, x, c.n)
    requires Cong(s * k, e + r * x, c.n)
    ensures Cong(RecoveredPoint(c, pub, e, r, s), k, c.n)
  {
    var n := c.n;
    var w := Inv(n, s);
    InvCorrect(n, s);
    hide Cong, Inv;
    RecoveredIs(c, pub, e, r, s, x);
    CongScale(w, s * k, e + r * x, n);
    CongScale(k, s * w, 1, n);
    RecoverIdentity(w, s, k, e, r, x);
    CongTrans(RecoveredPoint(c, pub, e, r, s), w * (e + r * x), k * (s * w), n);
    CongTrans(RecoveredPoint(c, pub, e, r, s), k * (s * w), k * 1, n);
  }

  lemma RecoverIdentity(w: int, s: int, k: int, e: int, r: int, x: int)
    ensures w * (s * k) == k * (s * w)
    ensures k * 1 == k
  {
  }

  lemma RecoveredIs(c: Curve, pub: Point, e: int, r: int, s: int, x: int)
    requires c.n > 0 && Cong(pub, x, c.n)
    ensures Cong(RecoveredPoint(c, pub, e, r, s), Inv(c.n, s) * (e + r * x), c.n)
  {
    var n, w := c.n, Inv(c.n, s);
    var u1, u2 := FMul(n, e, w), FMul(n, r, w);
    var p1, p2 := MulBase(n, u1), PointMul(n, pub, u2);
    assert RecoveredPoint(c, pub, e, r, s) == PointAdd(n, p1, p2);
    hide *;
    FieldOps(n, e, w);
    FieldOps(n, r, w);
    FieldOps(n, u1, 0);
    FieldOps(n, pub, u2);
    FieldOps(n, p1, p2);
    CongTrans(p1, u1, e * w, n);
    CongMul(pub, x, u2, r * w, n);
    CongTrans(p2, pub * u2, x * (r * w), n);
    CongAdd(p1, e * w, p2, x * (r * w), n);
    CongTrans(RecoveredPoint(c, pub, e, r, s), p1 + p2, e * w + x * (r * w), n);
    RecoveredIdentity(e, r, w, x);
  }

  lemma RecoveredIdentity(e: int, r: int, w: int, x: int)
    ensures e * w + x * (r * w) == w * (e + r * x)
  {
    assert x * (r * w) == w * (r * x);
  }

  /** What the two verifiers decide, for any r and any s other than zero: with p the point that satisfies
      s*p = e + r*pub, ecdsa_verify compares the x-coordinate of p, reduced, with r; SEC 1 also wants p, r and s in
      range. */
  lemma VerifiesExactly(c: Curve, pub: Point, e: int, r: int, s: int, p: Point)
    requires IsPrime(c.n) && !Cong(s, 0, c.n) && 0 <= p < c.n && Cong(s * p, e + r * pub, c.n)
    ensures EcdsaVerify(c, pub, e, r, s) <==> c.xOf(p) % c.n == r
    ensures Sec1Verify(c, pub, e, r, s) <==> p != 0 && 1 <= r < c.n && 1 <= s < c.n && c.xOf(p) % c.n == r
  {
    RecoverNonce(c, pub, e, r, s, p, pub);
    CongSmall(RecoveredPoint(c, pub, e, r, s), p, c.n);
  }

  /** A signature assembled from s*k = e + r*x with r the x-coordinate of [k]G verifies after low-S
      normalisation, and v is the y-parity of the point the verifier recomputes. */
  lemma NormalizedVerifies(c: Curve, rPoint: Point, pub: Point, e: int, r: int, s: int, x: int)
    requires c.Valid() && 0 <= rPoint < c.n && 0 < s < c.n && Cong(pub, x, c.n)
    requires r == c.XScalar(rPoint) && r != 0
    requires Cong(s * rPoint, e + r * x, c.n)
    ensures var g := Normalize(c, rPoint, r, s);
      && EcdsaVerify(c, pub, e, g.r, g.s) && Sec1Verify(c, pub, e, g.r, g.s)
      && !IsHighS(c.n, g.s) && g.v == c.yOdd(RecoveredPoint(c, pub, e, g.r, g.s)) && g.r == r
  {
    var n := c.n;
    SmallMod(0, n);
    SmallMod(s, n);
    assert rPoint != 0;
    if !IsHighS(n, s) {
      RecoverNonce(c, pub, e, r, s, rPoint, x);
      CongSmall(RecoveredPoint(c, pub, e, r, s), rPoint, n);
    } else {
      NegatedS(c, rPoint, pub, e, r, s, x);
    }
  }

  lemma NegatedS(c: Curve, rPoint: Point, pub: Point, e: int, r: int, s: int, x: int)
    requires c.Valid() && 0 < rPoint < c.n && 0 < s < c.n && Cong(pub, x, c.n)
    requires Cong(s * rPoint, e + r * x, c.n)
    ensures FNeg(c.n, s) == c.n - s
    ensures RecoveredPoint(c, pub, e, r, FNeg(c.n, s)) == c.n - rPoint
  {
    var n := c.n;
    var s', k' := n - s, n - rPoint;
    ModUnique(-s, -1, n - s, n);
    assert s' * k' == s * rPoint + (n - s - rPoint) * n by { NegIdentity(n, s, rPoint); }
    CongFrom(s' * k', s * rPoint, n - s - rPoint, n);
    SmallMod(s', n);
    SmallMod(0, n);
    RecoverNonce(c, pub, e, r, s', k', x);
    CongSmall(RecoveredPoint(c, pub, e, r, s'), k', n);
  }

  lemma NegIdentity(n: int, s: int, k: int)
    ensures (n - s) * (n - k) == s * k + (n - s - k) * n
  {
  }
}
