/** Polynomials over the prime field and Lagrange interpolation at zero. */
module Polynomial {
  import opened NumberTheory

  /** Coefficients in ascending order. */
  function Eval(f: seq<int>, x: int): int {
    if f == [] then 0 else f[0] + x * Eval(f[1..], x)
  }

  /** Pairwise different modulo n. */
  ghost predicate Distinct(n: int, xs: seq<int>)
    requires n > 0
  {
    forall i, j :: 0 <= i < j < |xs| ==> !Cong(xs[i], xs[j], n)
  }

  lemma EvalZero(f: seq<int>)
    requires f != []
    ensures Eval(f, 0) == f[0]
  {
  }

  /** Synthetic division of f by (x - a). */
  function Quotient(f: seq<int>, a: int): (g: seq<int>)
    ensures |g| == if |f| <= 1 then 0 else |f| - 1
  {
    if |f| <= 1 then [] else [Eval(f[1..], a)] + Quotient(f[1..], a)
  }

  lemma {:induction false} Factor(f: seq<int>, x: int, a: int)
    ensures Eval(f, x) == Eval(f, a) + (x - a) * Eval(Quotient(f, a), x)
  {
    if |f| <= 1 {
      if |f| == 1 { assert f[1..] == []; }
    } else {
      var h := f[1..];
      Factor(h, x, a);
      var q := Quotient(f, a);
      assert q[0] == Eval(h, a) && q[1..] == Quotient(h, a);
      FactorIdentity(x, a, Eval(h, a), Eval(Quotient(h, a), x));
    }
  }

  lemma FactorIdentity(x: int, a: int, u: int, v: int)
    ensures x * (u + (x - a) * v) == a * u + (x - a) * (u + x * v)
  {
    assert x * ((x - a) * v) == (x - a) * (x * v);
    assert (x - a) * (u + x * v) == (x - a) * u + (x - a) * (x * v);
  }

  // ---------- Lagrange weights ----------

  function WeightOver(n: int, ys: seq<int>, a: int): int
    requires n > 0
  {
    if ys == [] then 1 else Ratio(n, ys[0], a) * WeightOver(n, ys[1..], a)
  }

  function Ratio(n: int, y: int, a: int): int
    requires n > 0
  {
    y * Inv(n, y - a)
  }

  function Others(xs: seq<int>, i: nat): seq<int>
    requires i < |xs|
  {
    xs[..i] + xs[i + 1..]
  }

  /** The Lagrange coefficient of point i at x = 0, before reduction. */
  function Weight(n: int, xs: seq<int>, i: nat): int
    requires n > 0 && i < |xs|
  {
    WeightOver(n, Others(xs, i), xs[i])
  }

  /** sum over i < k of Weight(i) * vs[i] */
  function WeightedSum(n: int, xs: seq<int>, vs: seq<int>, k: nat): int
    requires n > 0 && k <= |xs| == |vs|
  {
    if k == 0 then 0 else WeightedSum(n, xs, vs, k - 1) + Weight(n, xs, k - 1) * vs[k - 1]
  }

  function Values(f: seq<int>, xs: seq<int>): (vs: seq<int>)
    ensures |vs| == |xs| && forall i :: 0 <= i < |xs| ==> vs[i] == Eval(f, xs[i])
  {
    seq(|xs|, i requires 0 <= i < |xs| => Eval(f, xs[i]))
  }

  function Ones(k: nat): (vs: seq<int>)
    ensures |vs| == k && forall i :: 0 <= i < k ==> vs[i] == 1
  {
    seq(k, _ => 1)
  }

  lemma {:induction false} WeightOverConcat(n: int, ys: seq<int>, zs: seq<int>, a: int)
    requires n > 0
    ensures WeightOver(n, ys + zs, a) == WeightOver(n, ys, a) * WeightOver(n, zs, a)
  {
    if ys == [] {
      assert ys + zs == zs;
    } else {
      assert (ys + zs)[1..] == ys[1..] + zs;
      WeightOverConcat(n, ys[1..], zs, a);
      MulAssoc(Ratio(n, ys[0], a), WeightOver(n, ys[1..], a), WeightOver(n, zs, a));
    }
  }

  lemma MulAssoc(a: int, b: int, c: int)
    ensures a * (b * c) == (a * b) * c
  {
  }

  /** Adding the point z, at either end, multiplies the weight of a by z / (z - a). */
  lemma WeightExtend(n: int, ys: seq<int>, zs: seq<int>, z: int, a: int)
    requires IsPrime(n) && !Cong(z, a, n)
    ensures Cong(WeightOver(n, ys + [z] + zs, a) * (a - z), -z * WeightOver(n, ys + zs, a), n)
  {
    WeightOverConcat(n, ys + [z], zs, a);
    WeightOverConcat(n, ys, [z], a);
    WeightOverConcat(n, ys, zs, a);
    var w := WeightOver(n, ys, a) * WeightOver(n, zs, a);
    var d := Inv(n, z - a);
    CongDiff(z, a, n);
    InvCorrect(n, z - a);
    assert WeightOver(n, [z], a) == Ratio(n, z, a) * WeightOver(n, [], a);
    ExtendIdentity(WeightOver(n, ys, a), WeightOver(n, zs, a), z, d, a);
    CongScale(-z * w, (z - a) * d, 1, n);
  }

  lemma ExtendIdentity(p: int, q: int, z: int, d: int, a: int)
    ensures (p * (z * d)) * q * (a - z) == (-z * (p * q)) * ((z - a) * d)
  {
    assert (p * (z * d)) * q == (p * q) * (z * d);
    assert ((p * q) * (z * d)) * (a - z) == (p * q) * ((z * d) * (a - z));
    assert (z * d) * (a - z) == -z * ((z - a) * d);
    assert (p * q) * (-z * ((z - a) * d)) == (-z * (p * q)) * ((z - a) * d);
  }

  lemma WeightDropLast(n: int, ys: seq<int>, z: int, i: nat)
    requires IsPrime(n) && i < |ys| && Distinct(n, ys + [z])
    ensures Cong(Weight(n, ys + [z], i) * (ys[i] - z), -z * Weight(n, ys, i), n)
  {
    var xs := ys + [z];
    assert !Cong(xs[i], xs[|ys|], n);
    assert Others(xs, i) == Others(ys, i) + [z] + [];
    assert Others(ys, i) == Others(ys, i) + [];
    WeightExtend(n, Others(ys, i), [], z, ys[i]);
  }

  lemma WeightDropFirst(n: int, ys: seq<int>, z: int, i: nat)
    requires IsPrime(n) && i < |ys| && Distinct(n, [z] + ys)
    ensures Cong(Weight(n, [z] + ys, i + 1) * (ys[i] - z), -z * Weight(n, ys, i), n)
  {
    var xs := [z] + ys;
    assert !Cong(xs[0], xs[i + 1], n);
    assert Others(xs, i + 1) == [] + [z] + Others(ys, i);
    assert Others(ys, i) == [] + Others(ys, i);
    WeightExtend(n, [], Others(ys, i), z, ys[i]);
  }

  /** Sum of W_i * f(x_i), rewritten through f = f(z) + (x - z) * g with z the last point. */
  lemma {:induction false} PeelLast(n: int, ys: seq<int>, z: int, f: seq<int>, k: nat)
    requires IsPrime(n) && Distinct(n, ys + [z]) && k <= |ys|
    ensures var xs := ys + [z];
      Cong(WeightedSum(n, xs, Values(f, xs), k),
           Eval(f, z) * WeightedSum(n, xs, Ones(|xs|), k)
             - z * WeightedSum(n, ys, Values(Quotient(f, z), ys), k), n)
  {
    if k > 0 {
      PeelLast(n, ys, z, f, k - 1);
      var xs := ys + [z];
      var g := Quotient(f, z);
      var i := k - 1;
      WeightDropLast(n, ys, z, i);
      Factor(f, ys[i], z);
      CombineTerms(n,
        WeightedSum(n, xs, Values(f, xs), i), WeightedSum(n, xs, Values(f, xs), k),
        WeightedSum(n, xs, Ones(|xs|), i), WeightedSum(n, xs, Ones(|xs|), k),
        WeightedSum(n, ys, Values(g, ys), i), WeightedSum(n, ys, Values(g, ys), k),
        Weight(n, xs, i), Weight(n, ys, i), Eval(f, z), Eval(f, ys[i]), Eval(g, ys[i]), ys[i], z);
    }
  }

  /** One more term of the sum, with e = fz + (x - z) * gx. */
  lemma CombineTerms(n: int, A: int, A': int, S: int, S': int, B: int, B': int,
    w: int, v: int, fz: int, e: int, gx: int, x: int, z: int)
    requires n > 0 && Cong(w * (x - z), -z * v, n)
    requires e == fz + (x - z) * gx
    requires A' == A + w * e && S' == S + w * 1 && B' == B + v * gx
    requires Cong(A, fz * S - z * B, n)
    ensures Cong(A', fz * S' - z * B', n)
  {
    PeelTerm(n, w, v, fz, gx, x, z);
    CongAdd(A, fz * S - z * B, w * e, fz * w - z * (v * gx), n);
    assert fz * S' - z * B' == (fz * S - z * B) + (fz * w - z * (v * gx));
  }

  lemma PeelTerm(n: int, w: int, v: int, fz: int, gx: int, x: int, z: int)
    requires n > 0 && Cong(w * (x - z), -z * v, n)
    ensures Cong(w * (fz + (x - z) * gx), fz * w - z * (v * gx), n)
  {
    CongScale(gx, w * (x - z), -z * v, n);
    CongAdd(fz * w, fz * w, gx * (w * (x - z)), gx * (-z * v), n);
    PeelTermIdentity(w, v, fz, gx, x, z);
  }

  lemma PeelTermIdentity(w: int, v: int, fz: int, gx: int, x: int, z: int)
    ensures w * (fz + (x - z) * gx) == fz * w + gx * (w * (x - z))
    ensures fz * w + gx * (-z * v) == fz * w - z * (v * gx)
  {
    assert w * ((x - z) * gx) == gx * (w * (x - z));
    assert gx * (-z * v) == -z * (v * gx);
  }

  lemma {:induction false} PeelFirst(n: int, ys: seq<int>, z: int, k: nat)
    requires IsPrime(n) && Distinct(n, [z] + ys) && k <= |ys|
    ensures var xs := [z] + ys;
      Cong(WeightedSum(n, xs, xs, k + 1),
           z * WeightedSum(n, xs, Ones(|xs|), k + 1) - z * WeightedSum(n, ys, Ones(|ys|), k), n)
  {
    var xs := [z] + ys;
    if k == 0 {
      PeelFirstBase(n, Weight(n, xs, 0), z);
    } else {
      PeelFirst(n, ys, z, k - 1);
      var i := k - 1;
      WeightDropFirst(n, ys, z, i);
      CombineTerms(n,
        WeightedSum(n, xs, xs, k), WeightedSum(n, xs, xs, k + 1),
        WeightedSum(n, xs, Ones(|xs|), k), WeightedSum(n, xs, Ones(|xs|), k + 1),
        WeightedSum(n, ys, Ones(|ys|), i), WeightedSum(n, ys, Ones(|ys|), k),
        Weight(n, xs, k), Weight(n, ys, i), z, xs[k], 1, ys[i], z);
    }
  }

  lemma PeelFirstBase(n: int, w: int, z: int)
    requires n > 0
    ensures Cong(w * z, z * (w * 1) - z * 0, n)
  {
  }

  lemma DistinctSub(n: int, ys: seq<int>, z: int)
    requires n > 0
    ensures Distinct(n, ys + [z]) ==> Distinct(n, ys)
    ensures Distinct(n, [z] + ys) ==> Distinct(n, ys)
  {
    if Distinct(n, ys + [z]) {
      forall i, j | 0 <= i < j < |ys| ensures !Cong(ys[i], ys[j], n) {
        assert !Cong((ys + [z])[i], (ys + [z])[j], n);
      }
    }
    if Distinct(n, [z] + ys) {
      forall i, j | 0 <= i < j < |ys| ensures !Cong(ys[i], ys[j], n) {
        assert !Cong(([z] + ys)[i + 1], ([z] + ys)[j + 1], n);
      }
    }
  }

  /** The Lagrange weights sum to one. */
  lemma {:induction false} WeightsSumToOne(n: int, xs: seq<int>)
    requires IsPrime(n) && Distinct(n, xs) && xs != []
    ensures Cong(WeightedSum(n, xs, Ones(|xs|), |xs|), 1, n)
    decreases |xs|
  {
    var m := |xs| - 1;
    if m == 0 {
      assert Others(xs, 0) == [];
      assert WeightedSum(n, xs, Ones(1), 1) == WeightedSum(n, xs, Ones(1), 0) + Weight(n, xs, 0) * 1;
    } else {
      var ys, z := xs[..m], xs[m];
      assert xs == ys + [z];
      var a, zs := xs[0], xs[1..];
      assert xs == [a] + zs;
      DistinctSub(n, ys, z);
      DistinctSub(n, zs, a);
      WeightsSumToOne(n, ys);
      WeightsSumToOne(n, zs);
      PeelFirst(n, zs, a, m);
      PeelLastIdentity(n, ys, z);
      TwoEnds(n, WeightedSum(n, xs, Ones(|xs|), |xs|), WeightedSum(n, xs, xs, |xs|), z, a,
        WeightedSum(n, xs, xs, m), WeightedSum(n, xs, Ones(|xs|), m), Weight(n, xs, m),
        WeightedSum(n, ys, Ones(|ys|), m), WeightedSum(n, zs, Ones(|zs|), m));
    }
  }

  lemma PeelLastIdentity(n: int, ys: seq<int>, z: int)
    requires IsPrime(n) && Distinct(n, ys + [z])
    ensures var xs := ys + [z];
      Cong(WeightedSum(n, xs, xs, |ys|),
           z * WeightedSum(n, xs, Ones(|xs|), |ys|) - z * WeightedSum(n, ys, Ones(|ys|), |ys|), n)
  {
    IdentityPoly(z);
    var f, g := [0, 1], [1];
    ValuesOfIdentity(ys + [z]);
    ValuesOfOne(ys);
    PeelLast(n, ys, z, f, |ys|);
    var xs := ys + [z];
    assert WeightedSum(n, xs, Values(f, xs), |ys|) == WeightedSum(n, xs, xs, |ys|);
    assert WeightedSum(n, ys, Values(g, ys), |ys|) == WeightedSum(n, ys, Ones(|ys|), |ys|);
  }

  lemma IdentityPoly(z: int)
    ensures Eval([0, 1], z) == z && Quotient([0, 1], z) == [1]
  {
    ValuesOfIdentity([z]);
    ValuesOfOne([z]);
    assert Eval([0, 1], z) == Values([0, 1], [z])[0];
    assert Eval([1], z) == Values([1], [z])[0];
    assert [0, 1][1..] == [1];
    assert Quotient([0, 1], z) == [Eval([1], z)] + Quotient([1], z);
    assert Quotient([1], z) == [];
  }

  lemma ValuesOfIdentity(xs: seq<int>)
    ensures Values([0, 1], xs) == xs
  {
    forall i | 0 <= i < |xs| ensures Eval([0, 1], xs[i]) == xs[i] {
      assert Eval([1], xs[i]) == 1 + xs[i] * Eval([], xs[i]);
    }
  }

  lemma ValuesOfOne(xs: seq<int>)
    ensures Values([1], xs) == Ones(|xs|)
  {
    forall i | 0 <= i < |xs| ensures Eval([1], xs[i]) == 1 {
      assert Eval([1], xs[i]) == 1 + xs[i] * Eval([], xs[i]);
    }
  }

  lemma TwoEnds(n: int, S: int, T: int, z: int, a: int, T0: int, S0: int, w: int, P: int, Q: int)
    requires IsPrime(n) && !Cong(a, z, n)
    requires T == T0 + w * z && S == S0 + w * 1
    requires Cong(T0, z * S0 - z * P, n) && Cong(P, 1, n)
    requires Cong(T, a * S - a * Q, n) && Cong(Q, 1, n)
    ensures Cong(S, 1, n)
  {
    CongScale(z, P, 1, n);
    CongScale(a, Q, 1, n);
    CongAdd(T0, z * S0 - z * P, w * z, w * z, n);
    CongSub(z * S, z * S, z * P, z * 1, n);
    assert z * S0 - z * P + w * z == z * S - z * P;
    CongSub(a * S, a * S, a * Q, a * 1, n);
    assert Cong(z * S - z, a * S - a, n);
    CongDiff(z * S - z, a * S - a, n);
    assert (z * S - z) - (a * S - a) == (z - a) * (S - 1);
    PrimeProduct(n, z - a, S - 1);
    CongDiff(z, a, n);
    CongDiff(S, 1, n);
  }

  /** Interpolation: t + 1 points of a degree-t polynomial give its value at zero. */
  lemma {:induction false} InterpolateAtZero(n: int, xs: seq<int>, f: seq<int>)
    requires IsPrime(n) && Distinct(n, xs) && xs != [] && |f| <= |xs|
    ensures Cong(WeightedSum(n, xs, Values(f, xs), |xs|), Eval(f, 0), n)
    decreases |xs|
  {
    var m := |xs| - 1;
    var ys, z := xs[..m], xs[m];
    assert xs == ys + [z];
    var g := Quotient(f, z);
    hide Eval, Weight, Cong, IsPrime;
    PeelLast(n, ys, z, f, m);
    WeightsSumToOne(n, xs);
    DistinctSub(n, ys, z);
    if ys != [] {
      InterpolateAtZero(n, ys, g);
    } else {
      assert g == [];
    }
    Factor(f, 0, z);
    PeelFinish(n, Eval(f, z), WeightedSum(n, xs, Ones(|xs|), m), Weight(n, xs, m), WeightedSum(n, xs, Values(f, xs), m),
      z, WeightedSum(n, ys, Values(g, ys), m), Eval(g, 0), Eval(f, 0));
  }

  lemma PeelFinish(n: int, c: int, S0: int, w: int, A: int, z: int, B: int, g0: int, f0: int)
    requires n > 0 && Cong(S0 + w * 1, 1, n) && Cong(A, c * S0 - z * B, n) && Cong(B, g0, n)
    requires f0 == c + (0 - z) * g0
    ensures Cong(A + w * c, f0, n)
  {
    CongAdd(A, c * S0 - z * B, w * c, w * c, n);
    CongScale(c, S0 + w * 1, 1, n);
    CongScale(z, B, g0, n);
    CongSub(c * (S0 + w * 1), c * 1, z * B, z * g0, n);
    assert c * S0 - z * B + w * c == c * (S0 + w * 1) - z * B;
    assert c * 1 - z * g0 == f0;
  }

  /** Interpolation from values that agree with the polynomial only modulo n. */
  lemma InterpolateValues(n: int, xs: seq<int>, f: seq<int>, vs: seq<int>)
    requires IsPrime(n) && Distinct(n, xs) && xs != [] && |f| <= |xs| == |vs|
    requires forall i :: 0 <= i < |xs| ==> Cong(vs[i], Eval(f, xs[i]), n)
    ensures Cong(WeightedSum(n, xs, vs, |xs|), Eval(f, 0), n)
  {
    InterpolateAtZero(n, xs, f);
    WeightedSumCong(n, xs, vs, Values(f, xs), |xs|);
  }

  lemma {:induction false} WeightedSumCong(n: int, xs: seq<int>, vs: seq<int>, us: seq<int>, k: nat)
    requires n > 0 && k <= |xs| == |vs| == |us|
    requires forall i :: 0 <= i < |xs| ==> Cong(vs[i], us[i], n)
    ensures Cong(WeightedSum(n, xs, vs, k), WeightedSum(n, xs, us, k), n)
  {
    if k > 0 {
      WeightedSumCong(n, xs, vs, us, k - 1);
      CongScale(Weight(n, xs, k - 1), vs[k - 1], us[k - 1], n);
      CongAdd(WeightedSum(n, xs, vs, k - 1), WeightedSum(n, xs, us, k - 1),
        Weight(n, xs, k - 1) * vs[k - 1], Weight(n, xs, k - 1) * us[k - 1], n);
    }
  }

  // ---------- sums of polynomials ----------

  function AddPoly(f: seq<int>, g: seq<int>): (h: seq<int>)
    requires |f| == |g|
    ensures |h| == |f|
  {
    seq(|f|, i requires 0 <= i < |f| => f[i] + g[i])
  }

  lemma {:induction false} EvalAdd(f: seq<int>, g: seq<int>, x: int)
    requires |f| == |g|
    ensures Eval(AddPoly(f, g), x) == Eval(f, x) + Eval(g, x)
  {
    if f != [] {
      EvalAdd(f[1..], g[1..], x);
      assert AddPoly(f, g)[1..] == AddPoly(f[1..], g[1..]);
      var u, v := Eval(f[1..], x), Eval(g[1..], x);
      assert x * (u + v) == x * u + x * v;
    }
  }

  function ZeroPoly(k: nat): (h: seq<int>)
    ensures |h| == k
  {
    seq(k, _ => 0)
  }

  lemma {:induction false} EvalZeroPoly(k: nat, x: int)
    ensures Eval(ZeroPoly(k), x) == 0
  {
    if k > 0 {
      assert ZeroPoly(k)[1..] == ZeroPoly(k - 1);
      EvalZeroPoly(k - 1, x);
    }
  }

  /** Coefficient-wise sum of the first m polynomials of fs, all of length k. */
  function SumPoly(fs: seq<seq<int>>, k: nat, m: nat): (h: seq<int>)
    requires m <= |fs| && forall i :: 0 <= i < |fs| ==> |fs[i]| == k
    ensures |h| == k
  {
    if m == 0 then ZeroPoly(k) else AddPoly(SumPoly(fs, k, m - 1), fs[m - 1])
  }

  /** sum over i < m of fs[i](x) */
  function SumEval(fs: seq<seq<int>>, x: int, m: nat): int
    requires m <= |fs|
  {
    if m == 0 then 0 else SumEval(fs, x, m - 1) + Eval(fs[m - 1], x)
  }

  lemma {:induction false} EvalSumPoly(fs: seq<seq<int>>, k: nat, m: nat, x: int)
    requires m <= |fs| && forall i :: 0 <= i < |fs| ==> |fs[i]| == k
    ensures Eval(SumPoly(fs, k, m), x) == SumEval(fs, x, m)
  {
    if m == 0 {
      EvalZeroPoly(k, x);
    } else {
      EvalSumPoly(fs, k, m - 1, x);
      EvalAdd(SumPoly(fs, k, m - 1), fs[m - 1], x);
    }
  }
}
