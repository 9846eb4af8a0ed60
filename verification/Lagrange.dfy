/** lagrange_coefficient (src/dklstss/signing.rs): the code's product is the interpolation weight. */
module Lagrange {
  import opened NumberTheory
  import opened Polynomial
  import opened Results
  import opened Secp

  datatype LagrangeError = DuplicateIdentifier

  /** The first j ids without id i. */
  function Seen(ids: seq<Scalar>, i: nat, j: nat): seq<Scalar>
    requires i < |ids| && j <= |ids|
  {
    if j <= i then ids[..j] else ids[..i] + ids[i + 1..j]
  }

  method LagrangeCoefficient(n: int, ids: seq<Scalar>, i: nat) returns (res: Result<Scalar, LagrangeError>)
    requires n > 0 && i < |ids|
    ensures res.Err? <==> exists j :: 0 <= j < |ids| && j != i && Cong(ids[j], ids[i], n)
    ensures res.Ok? ==> res.value == Weight(n, ids, i) % n
  {
    var lambda := 1 % n;
    for j := 0 to |ids|
      invariant lambda == WeightOver(n, Seen(ids, i, j), ids[i]) % n
      invariant forall k :: 0 <= k < j && k != i ==> !Cong(ids[k], ids[i], n)
    {
      if j == i {
        assert Seen(ids, i, j + 1) == Seen(ids, i, j);
        continue;
      }
      var den := FSub(n, ids[j], ids[i]);
      SameDifference(n, ids[j], ids[i]);
      if den == 0 { return Err(DuplicateIdentifier); }
      assert Seen(ids, i, j + 1) == Seen(ids, i, j) + [ids[j]];
      WeightStep(n, lambda, Seen(ids, i, j), ids[j], ids[i]);
      lambda := FMul(n, lambda, FMul(n, ids[j], Inv(n, den)));
    }
    assert Seen(ids, i, |ids|) == Others(ids, i);
    return Ok(lambda);
  }

  lemma SameDifference(n: int, a: int, b: int)
    requires n > 0
    ensures FSub(n, a, b) == 0 <==> Cong(a, b, n)
  {
    CongDiff(a, b, n);
    CongZero(a - b, n);
  }

  /** Inverting a reduced difference or the difference itself is the same. */
  lemma InvReduced(n: int, a: int)
    requires n > 0
    ensures Inv(n, a % n) == Inv(n, a)
  {
    CongMod(a, n);
    SmallMod(a % n, n);
  }

  lemma WeightStep(n: int, lambda: int, seen: seq<int>, y: int, a: int)
    requires n > 0 && lambda == WeightOver(n, seen, a) % n
    ensures FMul(n, lambda, FMul(n, y, Inv(n, FSub(n, y, a)))) == WeightOver(n, seen + [y], a) % n
  {
    WeightOverConcat(n, seen, [y], a);
    InvReduced(n, y - a);
    var w, ratio := WeightOver(n, seen, a), Ratio(n, y, a);
    assert WeightOver(n, [y], a) == ratio * WeightOver(n, [], a);
    var f := FMul(n, y, Inv(n, y - a));
    assert Cong(f, ratio, n) by { CongMod(ratio, n); }
    CongMod(w, n);
    CongMul(lambda, w, f, ratio, n);
  }

  /** The weights of non-zero ids are non-zero. */
  lemma {:induction false} WeightOverNonZero(n: int, ys: seq<int>, a: int)
    requires IsPrime(n)
    requires forall k :: 0 <= k < |ys| ==> !Cong(ys[k], 0, n) && !Cong(ys[k], a, n)
    ensures !Cong(WeightOver(n, ys, a), 0, n)
  {
    SmallMod(1, n);
    SmallMod(0, n);
    if ys != [] {
      WeightOverNonZero(n, ys[1..], a);
      assert !Cong(ys[0], 0, n) && !Cong(ys[0], a, n);
      CongDiff(ys[0], a, n);
      InvCorrect(n, ys[0] - a);
      if Cong(WeightOver(n, ys, a), 0, n) {
        PrimeProduct(n, Ratio(n, ys[0], a), WeightOver(n, ys[1..], a));
        PrimeProduct(n, ys[0], Inv(n, ys[0] - a));
        assert false;
      }
    }
  }

  /** A share times the code's weight. */
  lemma ScaledIs(n: int, lam: int, w: int, x: int)
    requires n > 0 && lam == w % n
    ensures FMul(n, lam, x) == w * x % n
    ensures w * x % n == 0 ==> Cong(w * x, 0, n)
  {
    CongMod(w, n);
    CongScale(x, lam, w, n);
    CongZero(w * x, n);
  }
}
