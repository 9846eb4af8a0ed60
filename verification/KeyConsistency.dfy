/** Consistency of a GG18 key's public shares (src/ecdsatss/key.rs). */
module KeyConsistency {
  import opened NumberTheory
  import opened Polynomial
  import opened Results
  import opened Secp
  import opened Lagrange

  /** A stored point names its curve; its coordinates may lie off it. */
  datatype StoredPoint = StoredPoint(curve: string, point: Option<Point>)

  datatype SaveKey = SaveKey(ks: seq<nat>, ntildeJ: seq<nat>, h1J: seq<nat>, h2J: seq<nat>, paillierJ: seq<nat>,
    bigXj: seq<StoredPoint>, ecdsaPub: StoredPoint, xi: Scalar)

  datatype KeyError =
    | SliceLengthMismatch | UnexpectedCurve | OffCurve | EmptyKs | DuplicateShareId | NotInterpolating | UnknownParty

  const CURVE_NAME := "secp256k1"

  function OnCurve(p: Point): StoredPoint { StoredPoint(CURVE_NAME, Some(p)) }

  // ---------- validation ----------

  ghost predicate Basic(k: SaveKey) {
    && |k.ntildeJ| == |k.h1J| == |k.h2J| == |k.paillierJ| == |k.bigXj| == |k.ks|
    && (forall j :: 0 <= j < |k.bigXj| ==> k.bigXj[j].curve == CURVE_NAME) && k.ecdsaPub.curve == CURVE_NAME
  }

  method ValidateBasic(k: SaveKey) returns (err: Option<KeyError>)
    ensures err == None <==> Basic(k)
  {
    var n := |k.ks|;
    if |k.ntildeJ| != n || |k.h1J| != n || |k.h2J| != n || |k.bigXj| != n || |k.paillierJ| != n {
      return Some(SliceLengthMismatch);
    }
    for j := 0 to |k.bigXj|
      invariant forall i :: 0 <= i < j ==> k.bigXj[i].curve == CURVE_NAME
    {
      if k.bigXj[j].curve != CURVE_NAME { return Some(UnexpectedCurve); }
    }
    return if k.ecdsaPub.curve != CURVE_NAME then Some(UnexpectedCurve) else None;
  }

  ghost predicate AllOnCurve(k: SaveKey) {
    k.ecdsaPub.point.Some? && forall j :: 0 <= j < |k.bigXj| ==> k.bigXj[j].point.Some?
  }

  function Points(k: SaveKey): (xs: seq<Point>)
    ensures |xs| == |k.bigXj|
  {
    seq(|k.bigXj|, j requires 0 <= j < |k.bigXj| => if k.bigXj[j].point.Some? then k.bigXj[j].point.value else 0)
  }

  function Pub(k: SaveKey): Point { if k.ecdsaPub.point.Some? then k.ecdsaPub.point.value else 0 }

  /** The public shares, on the curve, interpolate to the public key at zero. */
  ghost predicate Consistent(n: int, k: SaveKey)
    requires n > 0
  {
    && Basic(k) && AllOnCurve(k) && k.ks != [] && Distinct(n, k.ks)
    && WeightedSum(n, k.ks, Points(k), |k.ks|) % n == Pub(k)
  }

  method BigXjPoints(k: SaveKey) returns (points: Option<seq<Point>>)
    ensures points == if forall j :: 0 <= j < |k.bigXj| ==> k.bigXj[j].point.Some? then Some(Points(k)) else None
  {
    var xs: seq<Point> := [];
    for j := 0 to |k.bigXj|
      invariant |xs| == j && forall i :: 0 <= i < j ==> k.bigXj[i].point == Some(xs[i])
    {
      if k.bigXj[j].point.None? { return None; }
      xs := xs + [k.bigXj[j].point.value];
    }
    assert xs == Points(k);
    return Some(xs);
  }

  /** validate_consistency: the loop multiplies each share by its weight and adds the terms. */
  method ValidateConsistency(n: int, k: SaveKey) returns (err: Option<KeyError>)
    requires n > 0
    ensures err == None <==> Consistent(n, k)
  {
    var basic := ValidateBasic(k);
    if basic.Some? { return basic; }
    if k.ecdsaPub.point.None? { return Some(OffCurve); }
    var pub := k.ecdsaPub.point.value;
    var bigXj := BigXjPoints(k);
    if bigXj.None? { return Some(OffCurve); }
    var xs := bigXj.value;
    if |k.ks| == 0 { return Some(EmptyKs); }
    hide Weight, Cong, Basic;
    var acc: Option<Point> := None;
    for j := 0 to |k.ks|
      invariant j > 0 ==> acc == Some(WeightedSum(n, k.ks, xs, j) % n)
      invariant j == 0 ==> acc == None
      invariant forall a, b :: 0 <= a < j && 0 <= b < |k.ks| && a != b ==> !Cong(k.ks[b], k.ks[a], n)
    {
      var lambda := LagrangeCoefficient(n, k.ks, j);
      if lambda.Err? {
        RepeatedIds(n, k.ks, j);
        return Some(DuplicateShareId);
      }
      ghost var before := WeightedSum(n, k.ks, xs, j);
      TermIs(n, lambda.value, Weight(n, k.ks, j), xs[j], before);
      var term := PointMul(n, xs[j], lambda.value);
      acc := match acc case None => Some(term) case Some(a) => Some(PointAdd(n, a, term));
    }
    AllDifferent(n, k.ks);
    return if acc == Some(pub) then None else Some(NotInterpolating);
  }

  lemma RepeatedIds(n: int, ids: seq<int>, i: nat)
    requires n > 0 && i < |ids| && exists j :: 0 <= j < |ids| && j != i && Cong(ids[j], ids[i], n)
    ensures !Distinct(n, ids)
  {
  }

  lemma AllDifferent(n: int, ids: seq<int>)
    requires n > 0 && forall a, b :: 0 <= a < |ids| && 0 <= b < |ids| && a != b ==> !Cong(ids[b], ids[a], n)
    ensures Distinct(n, ids)
  {
  }

  lemma TermIs(n: int, lambda: int, w: int, x: int, acc: int)
    requires n > 0 && lambda == w % n
    ensures PointMul(n, x, lambda) == w * x % n
    ensures PointAdd(n, acc % n, PointMul(n, x, lambda)) == (acc + w * x) % n
  {
    CongMod(w, n);
    CongScale(x, lambda, w, n);
    assert x * lambda == lambda * x;
    CongMod(acc, n);
    CongMod(w * x, n);
    CongAdd(acc % n, acc, (w * x) % n, w * x, n);
  }

  // ---------- subset ----------

  function PositionOf(ks: seq<nat>, id: nat): (p: Option<nat>)
    ensures p.Some? <==> id in ks
    ensures p.Some? ==> p.value < |ks| && ks[p.value] == id
  {
    if ks == [] then None
    else if ks[0] == id then Some(0)
    else
      var rest := PositionOf(ks[1..], id);
      if rest.None? then None else Some(rest.value + 1)
  }

  function Slots(ks: seq<nat>, ids: seq<nat>): (ps: seq<nat>)
    requires forall a :: 0 <= a < |ids| ==> ids[a] in ks
    ensures |ps| == |ids| && forall a :: 0 <= a < |ids| ==>
      ps[a] < |ks| && ks[ps[a]] == ids[a] && Some(ps[a]) == PositionOf(ks, ids[a])
  {
    seq(|ids|, a requires 0 <= a < |ids| => PositionOf(ks, ids[a]).value)
  }

  function Gather<T>(xs: seq<T>, ps: seq<nat>): (ys: seq<T>)
    requires forall a :: 0 <= a < |ps| ==> ps[a] < |xs|
    ensures |ys| == |ps| && forall a :: 0 <= a < |ps| ==> ys[a] == xs[ps[a]]
  {
    seq(|ps|, a requires 0 <= a < |ps| => xs[ps[a]])
  }

  /** The key with its per-party slices rebuilt for the given parties, in their order. */
  function SubsetOf(k: SaveKey, ids: seq<nat>): SaveKey
    requires |k.ntildeJ| == |k.h1J| == |k.h2J| == |k.paillierJ| == |k.bigXj| == |k.ks|
    requires forall a :: 0 <= a < |ids| ==> ids[a] in k.ks
  {
    var ps := Slots(k.ks, ids);
    SaveKey(Gather(k.ks, ps), Gather(k.ntildeJ, ps), Gather(k.h1J, ps), Gather(k.h2J, ps), Gather(k.paillierJ, ps),
            Gather(k.bigXj, ps), k.ecdsaPub, k.xi)
  }

  /** subset_for_parties: keys are loaded with slices of one length. */
  method SubsetForParties(n: int, k: SaveKey, ids: seq<nat>) returns (res: Result<SaveKey, KeyError>)
    requires n > 0 && |k.ntildeJ| == |k.h1J| == |k.h2J| == |k.paillierJ| == |k.bigXj| == |k.ks|
    ensures res.Ok? <==> (forall a :: 0 <= a < |ids| ==> ids[a] in k.ks) && Consistent(n, SubsetOf(k, ids))
    ensures res.Ok? ==> res.value == SubsetOf(k, ids)
  {
    var subset := SaveKey([], [], [], [], [], [], k.ecdsaPub, k.xi);
    for a := 0 to |ids|
      invariant forall b :: 0 <= b < a ==> ids[b] in k.ks
      invariant subset == SubsetOf(k, ids[..a])
    {
      var saved := PositionOf(k.ks, ids[a]);
      if saved.None? { return Err(UnknownParty); }
      var p := saved.value;
      Extends(k, ids, a);
      subset := SaveKey(subset.ks + [k.ks[p]], subset.ntildeJ + [k.ntildeJ[p]], subset.h1J + [k.h1J[p]],
        subset.h2J + [k.h2J[p]], subset.paillierJ + [k.paillierJ[p]], subset.bigXj + [k.bigXj[p]], k.ecdsaPub, k.xi);
    }
    assert ids[..|ids|] == ids;
    var err := ValidateConsistency(n, subset);
    return if err.Some? then Err(err.value) else Ok(subset);
  }

  lemma Extends(k: SaveKey, ids: seq<nat>, a: nat)
    requires a < |ids| && |k.ntildeJ| == |k.h1J| == |k.h2J| == |k.paillierJ| == |k.bigXj| == |k.ks|
    requires forall b :: 0 <= b <= a ==> ids[b] in k.ks
    ensures var p, s, s' := PositionOf(k.ks, ids[a]).value, SubsetOf(k, ids[..a]), SubsetOf(k, ids[..a + 1]);
      s' == SaveKey(s.ks + [k.ks[p]], s.ntildeJ + [k.ntildeJ[p]], s.h1J + [k.h1J[p]], s.h2J + [k.h2J[p]],
                    s.paillierJ + [k.paillierJ[p]], s.bigXj + [k.bigXj[p]], k.ecdsaPub, k.xi)
  {
    var p, ps, ps' := PositionOf(k.ks, ids[a]).value, Slots(k.ks, ids[..a]), Slots(k.ks, ids[..a + 1]);
    assert ps' == ps + [p];
    GatherStep(k.ks, ps, p);
    GatherStep(k.ntildeJ, ps, p);
    GatherStep(k.h1J, ps, p);
    GatherStep(k.h2J, ps, p);
    GatherStep(k.paillierJ, ps, p);
    GatherStep(k.bigXj, ps, p);
  }

  lemma GatherStep<T>(xs: seq<T>, ps: seq<nat>, p: nat)
    requires p < |xs| && forall a :: 0 <= a < |ps| ==> ps[a] < |xs|
    ensures Gather(xs, ps + [p]) == Gather(xs, ps) + [xs[p]]
  {
  }

  // ---------- key derivation ----------

  function Shifted(n: int, xs: seq<Point>, d: Scalar): (ys: seq<StoredPoint>)
    requires n > 0
    ensures |ys| == |xs| && forall j :: 0 <= j < |xs| ==> ys[j] == OnCurve(PointAdd(n, xs[j], MulBase(n, d)))
  {
    seq(|xs|, j requires 0 <= j < |xs| => OnCurve(PointAdd(n, xs[j], MulBase(n, d))))
  }

  /** with_kdd: the public key, every public share and the secret share move by delta. */
  method WithKdd(n: int, k: SaveKey, delta: nat) returns (res: Result<SaveKey, KeyError>)
    requires n > 0
    ensures res.Ok? <==> AllOnCurve(k)
    ensures res.Ok? ==> res.value == k.(ecdsaPub := OnCurve(PointAdd(n, Pub(k), MulBase(n, delta % n))),
      bigXj := Shifted(n, Points(k), delta % n), xi := FAdd(n, delta % n, k.xi))
    ensures res.Ok? ==> res.value == KddOf(n, k, delta % n)
  {
    var d := delta % n;
    if k.ecdsaPub.point.None? { return Err(OffCurve); }
    var bigXj := BigXjPoints(k);
    if bigXj.None? { return Err(OffCurve); }
    var out := k;
    out := out.(ecdsaPub := OnCurve(PointAdd(n, k.ecdsaPub.point.value, MulBase(n, d))));
    out := out.(bigXj := Shifted(n, bigXj.value, d));
    out := out.(xi := FAdd(n, d, k.xi));
    return Ok(out);
  }

  // ---------- what stays consistent ----------

  /** The public shares lie on a polynomial with t + 1 coefficients through the public key. */
  ghost predicate OnPoly(n: int, k: SaveKey, f: seq<int>)
    requires n > 0
  {
    && Basic(k) && AllOnCurve(k) && Distinct(n, k.ks) && 0 <= Pub(k) < n && Cong(Pub(k), Eval(f, 0), n)
    && forall j :: 0 <= j < |k.ks| ==> Cong(Points(k)[j], Eval(f, k.ks[j]), n)
  }

  lemma OnPolyConsistent(n: int, k: SaveKey, f: seq<int>)
    requires IsPrime(n) && OnPoly(n, k, f) && k.ks != [] && |f| <= |k.ks|
    ensures Consistent(n, k)
  {
    InterpolateValues(n, k.ks, f, Points(k));
    SmallMod(Pub(k), n);
    hide *;
    ConsistentFrom(n, k, f);
  }

  lemma ConsistentFrom(n: int, k: SaveKey, f: seq<int>)
    requires n > 0 && OnPoly(n, k, f) && k.ks != [] && Pub(k) % n == Pub(k)
    requires Cong(WeightedSum(n, k.ks, Points(k), |k.ks|), Eval(f, 0), n)
    ensures Consistent(n, k)
  {
  }

  /** Stability: from shares on a degree-t polynomial, every choice of more than t different parties, in any order, is
      accepted, and the narrowed key lies on the same polynomial. */
  lemma SubsetStable(n: int, k: SaveKey, f: seq<int>, ids: seq<nat>)
    requires IsPrime(n) && OnPoly(n, k, f) && f != [] && |ids| >= |f|
    requires forall a :: 0 <= a < |ids| ==> ids[a] in k.ks
    requires forall a, b :: 0 <= a < b < |ids| ==> ids[a] != ids[b]
    ensures OnPoly(n, SubsetOf(k, ids), f) && Consistent(n, SubsetOf(k, ids))
  {
    SubsetOnPoly(n, k, f, ids);
    OnPolyConsistent(n, SubsetOf(k, ids), f);
  }

  lemma SubsetOnPoly(n: int, k: SaveKey, f: seq<int>, ids: seq<nat>)
    requires n > 0 && OnPoly(n, k, f)
    requires forall a :: 0 <= a < |ids| ==> ids[a] in k.ks
    requires forall a, b :: 0 <= a < b < |ids| ==> ids[a] != ids[b]
    ensures OnPoly(n, SubsetOf(k, ids), f)
  {
    var s, ps := SubsetOf(k, ids), Slots(k.ks, ids);
    hide Eval, Cong;
    forall j | 0 <= j < |s.ks| ensures Cong(Points(s)[j], Eval(f, s.ks[j]), n) {
      assert Cong(Points(k)[ps[j]], Eval(f, k.ks[ps[j]]), n);
    }
    forall a, b | 0 <= a < b < |ids| ensures !Cong(s.ks[a], s.ks[b], n) {
      assert ps[a] != ps[b];
      DifferentSlots(n, k.ks, ps[a], ps[b]);
    }
  }

  lemma DifferentSlots(n: int, ks: seq<int>, i: nat, j: nat)
    requires n > 0 && Distinct(n, ks) && i < |ks| && j < |ks| && i != j
    ensures !Cong(ks[i], ks[j], n)
  {
  }

  /** Every value moved by d, modulo n. */
  ghost predicate MovedBy(n: int, xs: seq<int>, ys: seq<int>, d: int)
    requires n > 0
  {
    |xs| == |ys| && forall i :: 0 <= i < |xs| ==> Cong(ys[i], xs[i] + d, n)
  }

  lemma {:induction false} WeightedSumShift(n: int, ks: seq<int>, xs: seq<int>, ys: seq<int>, d: int, j: nat)
    requires n > 0 && j <= |ks| == |xs| == |ys| && MovedBy(n, xs, ys, d)
    ensures Cong(WeightedSum(n, ks, ys, j), WeightedSum(n, ks, xs, j) + d * WeightedSum(n, ks, Ones(|ks|), j), n)
  {
    hide *;
    ShiftTerms(n, ks, xs, ys, d, j);
    if j > 0 {
      WeightedSumShift(n, ks, xs, ys, d, j - 1);
      ShiftStep(n, WeightedSum(n, ks, ys, j - 1), WeightedSum(n, ks, xs, j - 1), WeightedSum(n, ks, Ones(|ks|), j - 1),
        Weight(n, ks, j - 1), ys[j - 1], xs[j - 1], d, WeightedSum(n, ks, ys, j), WeightedSum(n, ks, xs, j),
        WeightedSum(n, ks, Ones(|ks|), j));
    }
  }

  lemma ShiftStep(n: int, y0: int, x0: int, o0: int, w: int, y: int, x: int, d: int, y1: int, x1: int, o1: int)
    requires n > 0 && y1 == y0 + w * y && x1 == x0 + w * x && o1 == o0 + w * 1
    requires Cong(y0, x0 + d * o0, n) && Cong(y, x + d, n)
    ensures Cong(y1, x1 + d * o1, n)
  {
    hide *;
    CongScale(w, y, x + d, n);
    CongAdd(y0, x0 + d * o0, w * y, w * (x + d), n);
    ShiftIdentity(w, x, d, o0, x0);
  }

  lemma ShiftTerms(n: int, ks: seq<int>, xs: seq<int>, ys: seq<int>, d: int, j: nat)
    requires n > 0 && j <= |ks| == |xs| == |ys| && MovedBy(n, xs, ys, d)
    ensures j == 0 ==>
      Cong(WeightedSum(n, ks, ys, j), WeightedSum(n, ks, xs, j) + d * WeightedSum(n, ks, Ones(|ks|), j), n)
    ensures j > 0 ==>
      var w := Weight(n, ks, j - 1);
      && Cong(ys[j - 1], xs[j - 1] + d, n)
      && WeightedSum(n, ks, ys, j) == WeightedSum(n, ks, ys, j - 1) + w * ys[j - 1]
      && WeightedSum(n, ks, xs, j) == WeightedSum(n, ks, xs, j - 1) + w * xs[j - 1]
      && WeightedSum(n, ks, Ones(|ks|), j) == WeightedSum(n, ks, Ones(|ks|), j - 1) + w * 1
  {
    hide Weight;
  }

  lemma ShiftIdentity(w: int, x: int, d: int, o: int, s: int)
    ensures s + d * o + w * (x + d) == (s + w * x) + d * (o + w * 1)
  {
  }

  /** Shifting every share by delta shifts the interpolated value by delta, because the weights sum to one. */
  lemma ShiftedSum(n: int, ks: seq<int>, xs: seq<int>, ys: seq<int>, d: int)
    requires IsPrime(n) && |ks| == |xs| == |ys| && Distinct(n, ks) && ks != [] && MovedBy(n, xs, ys, d)
    ensures Cong(WeightedSum(n, ks, ys, |ks|), WeightedSum(n, ks, xs, |ks|) + d, n)
  {
    WeightsSumToOne(n, ks);
    ShiftedSumFrom(n, ks, xs, ys, d);
  }

  lemma ShiftedSumFrom(n: int, ks: seq<int>, xs: seq<int>, ys: seq<int>, d: int)
    requires n > 0 && |ks| == |xs| == |ys| && MovedBy(n, xs, ys, d)
    requires Cong(WeightedSum(n, ks, Ones(|ks|), |ks|), 1, n)
    ensures Cong(WeightedSum(n, ks, ys, |ks|), WeightedSum(n, ks, xs, |ks|) + d, n)
  {
    hide *;
    WeightedSumShift(n, ks, xs, ys, d, |ks|);
    ShiftFinish(n, WeightedSum(n, ks, ys, |ks|), WeightedSum(n, ks, xs, |ks|), WeightedSum(n, ks, Ones(|ks|), |ks|), d);
  }

  lemma ShiftFinish(n: int, t: int, s: int, o: int, d: int)
    requires n > 0 && Cong(t, s + d * o, n) && Cong(o, 1, n)
    ensures Cong(t, s + d, n)
  {
    CongScale(d, o, 1, n);
    CongAdd(s, s, d * o, d * 1, n);
  }

  /** The shares after with_kdd. */
  function KddOf(n: int, k: SaveKey, d: Scalar): (r: SaveKey)
    requires n > 0
    ensures r.ks == k.ks && |r.bigXj| == |k.bigXj|
  {
    k.(ecdsaPub := OnCurve(PointAdd(n, Pub(k), MulBase(n, d))), bigXj := Shifted(n, Points(k), d),
      xi := FAdd(n, d, k.xi))
  }

  lemma KddPoints(n: int, k: SaveKey, d: Scalar)
    requires n > 0
    ensures Cong(Pub(KddOf(n, k, d)), Pub(k) + d, n) && 0 <= Pub(KddOf(n, k, d)) < n
    ensures MovedBy(n, Points(k), Points(KddOf(n, k, d)), d)
  {
    var r := KddOf(n, k, d);
    forall j | 0 <= j < |k.bigXj| ensures Cong(Points(r)[j], Points(k)[j] + d, n) {
      assert r.bigXj[j] == OnCurve(PointAdd(n, Points(k)[j], MulBase(n, d)));
      ShiftedPoint(n, Points(k)[j], d);
    }
    ShiftedPoint(n, Pub(k), d);
  }

  lemma ShiftedPoint(n: int, p: Point, d: Scalar)
    requires n > 0
    ensures Cong(PointAdd(n, p, MulBase(n, d)), p + d, n)
  {
    FieldOps(n, d, 0);
    FieldOps(n, p, MulBase(n, d));
    CongAdd(p, p, MulBase(n, d), d, n);
    CongTrans(PointAdd(n, p, MulBase(n, d)), p + MulBase(n, d), p + d, n);
  }

  /** Child keys: deriving by any delta keeps a key consistent, and an inconsistent key is not repaired by it. */
  lemma KddKeepsConsistency(n: int, k: SaveKey, delta: nat)
    requires IsPrime(n) && Basic(k) && AllOnCurve(k) && k.ks != [] && Distinct(n, k.ks) && 0 <= Pub(k) < n
    ensures Consistent(n, KddOf(n, k, delta % n)) <==> Consistent(n, k)
  {
    var d := delta % n;
    var r := KddOf(n, k, d);
    KddPoints(n, k, d);
    ShiftedSum(n, k.ks, Points(k), Points(r), d);
    var s, t := WeightedSum(n, k.ks, Points(k), |k.ks|), WeightedSum(n, k.ks, Points(r), |k.ks|);
    hide IsPrime, Distinct, WeightedSum, Points, Cong;
    ResidueIs(s, Pub(k), n);
    ResidueIs(t, Pub(r), n);
    ShiftBoth(s, t, Pub(k), Pub(r), d, n);
  }

  lemma ResidueIs(a: int, b: int, n: int)
    requires n > 0 && 0 <= b < n
    ensures a % n == b <==> Cong(a, b, n)
  {
    SmallMod(b, n);
  }

  lemma ShiftBoth(s: int, t: int, p: int, r: int, d: int, n: int)
    requires n > 0 && Cong(t, s + d, n) && Cong(r, p + d, n)
    ensures Cong(s, p, n) <==> Cong(t, r, n)
  {
    if Cong(s, p, n) { CongAdd(s, p, d, d, n); }
    if Cong(t, r, n) { CongSub(s + d, p + d, d, d, n); }
  }

  /** The secret share still matches its public share after derivation. */
  lemma KddKeepsShare(n: int, k: SaveKey, delta: nat, i: nat)
    requires n > 0 && i < |k.bigXj| && MulBase(n, k.xi) == Points(k)[i]
    ensures MulBase(n, KddOf(n, k, delta % n).xi) == Points(KddOf(n, k, delta % n))[i]
  {
    var d := delta % n;
    var r := KddOf(n, k, d);
    KddPoints(n, k, d);
    FieldOps(n, k.xi, 0);
    FieldOps(n, d, k.xi);
    FieldOps(n, r.xi, 0);
    CongAdd(d, d, MulBase(n, k.xi), k.xi, n);
    CongTrans(MulBase(n, r.xi), r.xi, d + k.xi, n);
    CongTrans(MulBase(n, r.xi), d + k.xi, Points(k)[i] + d, n);
    CongTrans(MulBase(n, r.xi), Points(k)[i] + d, Points(r)[i], n);
    assert r.bigXj[i] == OnCurve(PointAdd(n, Points(k)[i], MulBase(n, d)));
    CongSmall(MulBase(n, r.xi), Points(r)[i], n);
  }

  // ---------- tampering ----------

  lemma {:induction false} WeightedSumUpdate(n: int, ks: seq<int>, xs: seq<int>, i: nat, v: int, j: nat)
    requires n > 0 && i < |ks| == |xs| && j <= |ks|
    ensures WeightedSum(n, ks, xs[i := v], j) == WeightedSum(n, ks, xs, j) + if i < j then Weight(n, ks,
      i) * (v - xs[i]) else 0
  {
    if j > 0 {
      WeightedSumUpdate(n, ks, xs, i, v, j - 1);
      var w := Weight(n, ks, j - 1);
      hide Weight;
      UpdateIdentity(w, v, xs[j - 1]);
    }
  }

  lemma UpdateIdentity(w: int, v: int, x: int)
    ensures w * v == w * x + w * (v - x)
  {
  }

  lemma {:induction false} WeightOverZero(n: int, ys: seq<int>, a: int, c: nat)
    requires n > 0 && c < |ys| && Cong(ys[c], 0, n)
    ensures Cong(WeightOver(n, ys, a), 0, n)
  {
    var r, w := Ratio(n, ys[0], a), WeightOver(n, ys[1..], a);
    if c == 0 {
      CongScale(Inv(n, ys[0] - a), ys[0], 0, n);
      CongScale(w, r, 0, n);
    } else {
      WeightOverZero(n, ys[1..], a, c - 1);
      CongScale(r, w, 0, n);
    }
  }

  /** The weight of share j vanishes exactly when another share has the zero id. */
  lemma WeightVanishes(n: int, ks: seq<int>, j: nat)
    requires IsPrime(n) && Distinct(n, ks) && j < |ks|
    ensures Cong(Weight(n, ks, j), 0, n) <==> exists c :: 0 <= c < |ks| && c != j && Cong(ks[c], 0, n)
  {
    var ys := Others(ks, j);
    if c :| 0 <= c < |ks| && c != j && Cong(ks[c], 0, n) {
      WeightOverZero(n, ys, ks[j], if c < j then c else c - 1);
    }
    if forall c :: 0 <= c < |ks| && c != j ==> !Cong(ks[c], 0, n) {
      forall i | 0 <= i < |ys| ensures !Cong(ys[i], 0, n) && !Cong(ys[i], ks[j], n) {
        DifferentSlots(n, ks, if i < j then i else i + 1, j);
      }
      WeightOverNonZero(n, ys, ks[j]);
    }
  }

  /** A consistent key in which one public share was replaced is accepted only if the replacement is the same point or
      another share has the zero id. */
  lemma TamperedShareRejected(n: int, k: SaveKey, j: nat, v: Point)
    requires IsPrime(n) && Consistent(n, k) && j < |k.ks| && 0 <= v < n && 0 <= Points(k)[j] < n
    ensures Consistent(n, k.(bigXj := k.bigXj[j := OnCurve(v)])) <==>
      (v == Points(k)[j] || exists c :: 0 <= c < |k.ks| && c != j && Cong(k.ks[c], 0, n))
  {
    var r := k.(bigXj := k.bigXj[j := OnCurve(v)]);
    var xs, w, s := Points(k), Weight(n, k.ks, j), WeightedSum(n, k.ks, Points(k), |k.ks|);
    assert Points(r) == xs[j := v];
    WeightedSumUpdate(n, k.ks, xs, j, v, |k.ks|);
    WeightVanishes(n, k.ks, j);
    TamperAlgebra(n, s, w, v, xs[j]);
    hide IsPrime, Distinct, WeightedSum, Weight, Points;
  }

  lemma TamperAlgebra(n: int, s: int, w: int, v: int, x: int)
    requires IsPrime(n) && 0 <= v < n && 0 <= x < n
    ensures (s + w * (v - x)) % n == s % n <==> v == x || Cong(w, 0, n)
  {
    var d := v - x;
    CongDiff(s + w * d, s, n);
    if Cong(w * d, 0, n) {
      PrimeProduct(n, w, d);
      CongDiff(v, x, n);
      if Cong(d, 0, n) { CongSmall(v, x, n); }
    }
    if Cong(w, 0, n) { CongScale(d, w, 0, n); }
  }

  /** Inputs that show the exception, for every order n: with ids 0 and 1 the second share has weight zero, and
      replacing it by any other point goes unnoticed. */
  lemma ZeroIdHidesTampering(n: int, v: Point) returns (k: SaveKey)
    requires IsPrime(n) && 0 <= v < n
    ensures Consistent(n, k) && k.ks == [0, 1] && k.bigXj == [OnCurve(1), OnCurve(1)]
    ensures Consistent(n, k.(bigXj := k.bigXj[1 := OnCurve(v)]))
  {
    k := SaveKey([0, 1], [0, 0], [0, 0], [0, 0], [0, 0], [OnCurve(1), OnCurve(1)], OnCurve(1), 0);
    assert Points(k) == Ones(2);
    SmallMod(0, n);
    SmallMod(1, n);
    WeightsSumToOne(n, k.ks);
    assert Consistent(n, k);
    assert Cong(k.ks[0], 0, n);
    TamperedShareRejected(n, k, 1, v);
  }
}
