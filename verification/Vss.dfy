/** Feldman verifiable secret sharing (src/dklstss/vss.rs). A commitment is a point, that is, the
    discrete logarithm of a coefficient's multiple of G. */
module Vss {
  import opened NumberTheory
  import opened Polynomial
  import opened Secp

  lemma {:induction false} EvalSnoc(f: seq<int>, a: int, x: int)
    ensures Eval(f + [a], x) == Eval(f, x) + a * Pow(x, |f|)
  {
    if f == [] {
      assert Eval([a], x) == a + x * Eval([], x);
    } else {
      assert (f + [a])[1..] == f[1..] + [a];
      EvalSnoc(f[1..], a, x);
      SnocIdentity(f[0], x, Eval(f[1..], x), a, Pow(x, |f| - 1));
    }
  }

  lemma SnocIdentity(c: int, x: int, e: int, a: int, p: int)
    ensures c + x * (e + a * p) == (c + x * e) + a * (x * p)
  {
    assert x * (a * p) == a * (x * p);
  }

  /** eval: ascending powers of x. */
  method EvalPoly(n: int, poly: seq<Scalar>, x: Scalar) returns (result: Scalar)
    requires n > 0 && poly != [] && Reduced(n, poly)
    ensures result == Eval(poly, x) % n
  {
    result := poly[0];
    var xpow := 1 % n;
    assert poly[..1] == [] + [poly[0]];
    EvalSnoc([], poly[0], x);
    SmallMod(poly[0], n);
    for k := 1 to |poly|
      invariant result == Eval(poly[..k], x) % n && xpow == Pow(x, k - 1) % n
    {
      PowerStep(n, xpow, x, k - 1);
      xpow := FMul(n, xpow, x);
      assert poly[..k + 1] == poly[..k] + [poly[k]];
      EvalSnoc(poly[..k], poly[k], x);
      TermStep(n, result, Eval(poly[..k], x), poly[k], xpow, Pow(x, k));
      result := FAdd(n, result, FMul(n, poly[k], xpow));
    }
    assert poly[..|poly|] == poly;
  }

  lemma PowerStep(n: int, p: int, x: int, k: nat)
    requires n > 0 && p == Pow(x, k) % n
    ensures FMul(n, p, x) == Pow(x, k + 1) % n
  {
    CongMod(Pow(x, k), n);
    CongScale(x, p, Pow(x, k), n);
  }

  lemma TermStep(n: int, acc: int, e: int, a: int, p: int, w: int)
    requires n > 0 && acc == e % n && p == w % n
    ensures FAdd(n, acc, FMul(n, a, p)) == (e + a * w) % n
  {
    CongMod(w, n);
    CongScale(a, p, w, n);
    FieldOps(n, a, p);
    CongTrans(FMul(n, a, p), a * p, a * w, n);
    SumStep(n, acc, e, FMul(n, a, p), a * w);
  }

  /** Horner's rule over committed coefficients: the value is the evaluation of their logarithms. */
  method HornerEvalPoints(n: int, vs: seq<Point>, id: Scalar) returns (value: Point)
    requires n > 0 && vs != [] && Reduced(n, vs)
    ensures value == Eval(vs, id) % n
  {
    value := vs[|vs| - 1];
    SmallMod(value, n);
    assert vs[|vs| - 1..] == [value];
    assert Eval([value], id) == value + id * Eval([], id);
    var k := |vs| - 1;
    while k > 0
      invariant 0 <= k < |vs| && value == Eval(vs[k..], id) % n
    {
      k := k - 1;
      assert vs[k..][1..] == vs[k + 1..];
      HornerStep(n, value, Eval(vs[k + 1..], id), id, vs[k]);
      value := PointAdd(n, PointMul(n, value, id), vs[k]);
    }
    assert vs[0..] == vs;
  }

  lemma HornerStep(n: int, acc: int, e: int, x: int, v: int)
    requires n > 0 && acc == e % n
    ensures PointAdd(n, PointMul(n, acc, x), v) == (v + x * e) % n
  {
    CongMod(e, n);
    CongScale(x, acc, e, n);
    FieldOps(n, acc, x);
    CongTrans(PointMul(n, acc, x), acc * x, x * e, n);
    CongAdd(PointMul(n, acc, x), x * e, v, v, n);
  }

  /** evaluate_commitment_sum */
  method EvaluateCommitmentSum(n: int, commitments: seq<seq<Point>>, id: Scalar) returns (acc: Point)
    requires n > 0 && commitments != []
    requires forall i :: 0 <= i < |commitments| ==> commitments[i] != [] && Reduced(n, commitments[i])
    ensures acc == SumEval(commitments, id, |commitments|) % n
  {
    acc := HornerEvalPoints(n, commitments[0], id);
    assert SumEval(commitments, id, 1) == 0 + Eval(commitments[0], id);
    for i := 1 to |commitments|
      invariant acc == SumEval(commitments, id, i) % n
    {
      var e := HornerEvalPoints(n, commitments[i], id);
      CongMod(Eval(commitments[i], id), n);
      SumStep(n, acc, SumEval(commitments, id, i), e, Eval(commitments[i], id));
      acc := PointAdd(n, acc, e);
    }
  }

  /** The share lies on the committed polynomial, which has degree t. */
  ghost predicate ShareFits(n: int, id: Scalar, share: Scalar, t: nat, vs: seq<Point>)
    requires n > 0
  {
    |vs| == t + 1 && Cong(share, Eval(vs, id), n)
  }

  /** verify: share*G against the Horner evaluation. */
  method Verify(n: int, id: Scalar, share: Scalar, t: nat, vs: seq<Point>) returns (ok: bool)
    requires n > 0 && Reduced(n, vs)
    ensures ok <==> ShareFits(n, id, share, t, vs)
  {
    if |vs| != t + 1 { return false; }
    var v := HornerEvalPoints(n, vs, id);
    ok := MulBase(n, share) == v;
  }

  /** create: commitments to secret, draw_1, ..., draw_t and one share per id. */
  method Create(n: int, t: nat, secret: Scalar, ids: seq<Scalar>, draws: seq<Scalar>)
    returns (commitments: seq<Point>, shares: seq<Scalar>)
    requires n > 0 && |draws| == t && 0 <= secret < n && Reduced(n, draws)
    ensures commitments == [secret] + draws && Reduced(n, commitments)
    ensures |shares| == |ids|
    ensures forall k :: 0 <= k < |ids| ==> 0 <= shares[k] < n && shares[k] == Eval(commitments, ids[k]) % n
    ensures forall k :: 0 <= k < |ids| ==> ShareFits(n, ids[k], shares[k], t, commitments)
  {
    var poly := [secret];
    for i := 0 to t
      invariant poly == [secret] + draws[..i] && Reduced(n, poly)
    {
      poly := poly + [draws[i]];
    }
    assert draws[..t] == draws;
    commitments := [];
    for c := 0 to |poly|
      invariant commitments == poly[..c]
    {
      SmallMod(poly[c], n);
      commitments := commitments + [MulBase(n, poly[c])];
    }
    assert poly[..|poly|] == poly;
    shares := [];
    for k := 0 to |ids|
      invariant |shares| == k
      invariant forall j :: 0 <= j < k ==> shares[j] == Eval(poly, ids[j]) % n
    {
      var s := EvalPoly(n, poly, ids[k]);
      shares := shares + [s];
    }
    forall k | 0 <= k < |ids| ensures ShareFits(n, ids[k], shares[k], t, commitments) {
      CongMod(Eval(commitments, ids[k]), n);
    }
  }

  /** Feldman's guarantee: any t + 1 accepted shares for distinct ids interpolate to the logarithm
      of the first commitment, whoever made them. */
  lemma {:induction false} AcceptedSharesInterpolate(n: int, t: nat, vs: seq<Point>, ids: seq<Scalar>,
    shares: seq<Scalar>)
    requires IsPrime(n) && |ids| == |shares| && |ids| >= t + 1 && Distinct(n, ids)
    requires forall k :: 0 <= k < |ids| ==> ShareFits(n, ids[k], shares[k], t, vs)
    ensures |vs| == t + 1 && Cong(WeightedSum(n, ids, shares, |ids|), vs[0], n)
  {
    PrimePositive(n);
    hide *;
    forall k | 0 <= k < |ids| ensures |vs| == t + 1 && Cong(shares[k], Eval(vs, ids[k]), n) {
      FitsMeans(n, ids[k], shares[k], t, vs);
    }
    FitsMeans(n, ids[0], shares[0], t, vs);
    InterpolateValues(n, ids, vs, shares);
    EvalZero(vs);
  }

  lemma PrimePositive(n: int)
    requires IsPrime(n)
    ensures n >= 2
  {
  }

  lemma FitsMeans(n: int, id: Scalar, share: Scalar, t: nat, vs: seq<Point>)
    requires n > 0 && ShareFits(n, id, share, t, vs)
    ensures |vs| == t + 1 && Cong(share, Eval(vs, id), n)
  {
  }

  /** The share for an id is determined by the commitments: any other scalar is rejected. */
  lemma AcceptedShareUnique(n: int, id: Scalar, s1: Scalar, s2: Scalar, t: nat, vs: seq<Point>)
    requires n > 0 && 0 <= s1 < n && 0 <= s2 < n
    requires ShareFits(n, id, s1, t, vs) && ShareFits(n, id, s2, t, vs)
    ensures s1 == s2
  {
    CongSmall(s1, s2, n);
  }
}
