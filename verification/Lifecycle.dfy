/** In-process key generation (src/dklstss/keygen.rs), resharing and refresh
    (src/dklstss/resharing.rs). Every run of them keeps the shared secret, the public key and the
    chain code. */
module Lifecycle {
  import opened NumberTheory
  import opened Polynomial
  import opened Results
  import opened Bits
  import opened Secp
  import opened OtExtension
  import opened BaseOt
  import opened Lagrange
  import opened Vss
  import opened Keys

  /** The random draws of one run: coefficient c of dealer i, and the inputs of the pair setup. */
  datatype Draws = Draws(coeff: (nat, nat) -> Scalar, sidOf: (nat, nat, bool) -> bytes,
    pairA: (nat, nat) -> PairDraws, pairB: (nat, nat) -> PairDraws)
  {
    ghost predicate Valid(n: int) {
      && (forall i, c :: 0 <= coeff(i, c) < n)
      && (forall i, j :: pairA(i, j).Valid() && pairB(i, j).Valid())
    }

    /** Coefficients 1..t of dealer i. */
    function Tail(i: nat, t: nat): (cs: seq<Scalar>)
      ensures |cs| == t && forall c :: 0 <= c < t ==> cs[c] == coeff(i, c + 1)
    {
      seq(t, c requires 0 <= c < t => coeff(i, c + 1))
    }

    /** sum over lo <= c < hi of coeff(i, c) x^c: what dealer i's draws of these degrees contribute at x */
    function Dealt(i: nat, x: int, lo: nat, hi: nat): int
      requires lo <= hi
      decreases hi
    {
      if lo == hi then 0 else Dealt(i, x, lo, hi - 1) + coeff(i, hi - 1) * Pow(x, hi - 1)
    }

    /** The same for the first m dealers together. */
    function AllDealt(m: nat, x: int, lo: nat, hi: nat): int
      requires lo <= hi
    {
      if m == 0 then 0 else AllDealt(m - 1, x, lo, hi) + Dealt(m - 1, x, lo, hi)
    }
  }

  /** A polynomial whose further coefficients are the draws 1..t of dealer i. */
  lemma DrawnEval(draws: Draws, i: nat, t: nat, first: int, x: int)
    ensures Eval([first] + draws.Tail(i, t), x) == first + draws.Dealt(i, x, 1, t + 1)
  {
    hide Eval;
    assert draws.Tail(i, t)[..t] == draws.Tail(i, t);
    DrawnPrefix(draws, i, t, first, x, t);
  }

  lemma {:induction false} DrawnPrefix(draws: Draws, i: nat, t: nat, first: int, x: int, k: nat)
    requires k <= t
    ensures Eval([first] + draws.Tail(i, t)[..k], x) == first + draws.Dealt(i, x, 1, k + 1)
  {
    hide Eval;
    if k == 0 {
      assert [first] + draws.Tail(i, t)[..0] == [] + [first];
      EvalSnoc([], first, x);
      EvalNothing(x);
    } else {
      DrawnPrefix(draws, i, t, first, x, k - 1);
      assert [first] + draws.Tail(i, t)[..k] == ([first] + draws.Tail(i, t)[..k - 1]) + [draws.coeff(i, k)];
      EvalSnoc([first] + draws.Tail(i, t)[..k - 1], draws.coeff(i, k), x);
    }
  }

  lemma EvalNothing(x: int)
    ensures Eval([], x) == 0 && Pow(x, 0) == 1
  {
  }

  datatype LifeError =
    | NoKeys | BadThreshold | WrongIdCount | BadIndexes | TooFewParticipants | BadSubset | InconsistentPublicKey
    | DuplicateSigner | ZeroScaledShare | ShareRejected | CommitmentMismatch | PublicKeyNotPreserved
    | KeyCountMismatch | InconsistentKey | InvalidKey

  ghost predicate SizedPolys(n: int, polys: seq<seq<int>>, len: nat) {
    forall i :: 0 <= i < |polys| ==> |polys[i]| == len && Reduced(n, polys[i])
  }

  /** Dealer i deals shares[i][j] to party j. */
  ghost predicate Dealt(n: int, ids: seq<Scalar>, polys: seq<seq<int>>, shares: seq<seq<Scalar>>)
    requires n > 0
  {
    && |shares| == |polys|
    && forall i :: 0 <= i < |shares| ==>
      && |shares[i]| == |ids|
      && forall j :: 0 <= j < |ids| ==> 0 <= shares[i][j] < n && Cong(shares[i][j], Eval(polys[i], ids[j]), n)
  }

  // ---------- phases shared by keygen and reshare ----------

  /** A table of shares, one row per dealer, one column per party. */
  ghost predicate Tabled(dealers: nat, parties: nat, shares: seq<seq<Scalar>>) {
    |shares| == dealers && forall i :: 0 <= i < dealers ==> |shares[i]| == parties
  }

  /** Party j's share is the sum of what the dealers sent it, each verified first: one share off its dealer's
      polynomial is enough for the run to fail. */
  method SumVerifiedShares(n: int, t: nat, ids: seq<Scalar>, polys: seq<seq<Point>>, shares: seq<seq<Scalar>>)
    returns (res: Result<seq<Scalar>, LifeError>)
    requires n > 0 && SizedPolys(n, polys, t + 1) && Tabled(|polys|, |ids|, shares)
    ensures res.Ok? <==> forall j, i :: 0 <= j < |ids| && 0 <= i < |polys| ==>
      ShareFits(n, ids[j], shares[i][j], t, polys[i])
    ensures res.Err? ==> res.error == ShareRejected
    ensures res.Ok? ==> |res.value| == |ids| && forall j :: 0 <= j < |ids| ==>
      res.value[j] == SumEval(polys, ids[j], |polys|) % n
  {
    hide Cong, Eval;
    var xj: seq<Scalar> := [];
    SmallMod(0, n);
    for j := 0 to |ids|
      invariant |xj| == j
      invariant forall k, i :: 0 <= k < j && 0 <= i < |polys| ==> ShareFits(n, ids[k], shares[i][k], t, polys[i])
      invariant forall k :: 0 <= k < j ==> xj[k] == SumEval(polys, ids[k], |polys|) % n
    {
      var sum := 0;
      for i := 0 to |polys|
        invariant forall d :: 0 <= d < i ==> ShareFits(n, ids[j], shares[d][j], t, polys[d])
        invariant sum == SumEval(polys, ids[j], i) % n
      {
        var ok := Verify(n, ids[j], shares[i][j], t, polys[i]);
        if !ok { return Err(ShareRejected); }
        SumStep(n, sum, SumEval(polys, ids[j], i), shares[i][j], Eval(polys[i], ids[j]));
        sum := FAdd(n, sum, shares[i][j]);
      }
      xj := xj + [sum];
    }
    return Ok(xj);
  }

  lemma DealtFits(n: int, t: nat, ids: seq<Scalar>, polys: seq<seq<Point>>, shares: seq<seq<Scalar>>)
    requires n > 0 && SizedPolys(n, polys, t + 1) && Dealt(n, ids, polys, shares)
    ensures Tabled(|polys|, |ids|, shares)
    ensures forall j, i :: 0 <= j < |ids| && 0 <= i < |polys| ==> ShareFits(n, ids[j], shares[i][j], t, polys[i])
  {
    hide Cong, Eval;
  }

  /** The joint key is the sum of the constant commitments. */
  method SumConstants(n: int, polys: seq<seq<Point>>, len: nat) returns (pub: Point)
    requires n > 0 && polys != [] && len > 0 && SizedPolys(n, polys, len)
    ensures pub == SumEval(polys, 0, |polys|) % n
  {
    pub := polys[0][0];
    EvalZero(polys[0]);
    SmallMod(pub, n);
    assert SumEval(polys, 0, 1) == SumEval(polys, 0, 0) + Eval(polys[0], 0);
    for i := 1 to |polys|
      invariant pub == SumEval(polys, 0, i) % n
    {
      EvalZero(polys[i]);
      SumStep(n, pub, SumEval(polys, 0, i), polys[i][0], polys[i][0]);
      pub := PointAdd(n, pub, polys[i][0]);
    }
  }

  /** Each share's commitment, recomputed from the dealers' commitments and compared. */
  method RecomputeCommitments(n: int, ids: seq<Scalar>, polys: seq<seq<Point>>, len: nat, xj: seq<Scalar>)
    returns (res: Result<seq<Point>, LifeError>)
    requires n > 0 && polys != [] && len > 0 && SizedPolys(n, polys, len) && |xj| == |ids|
    ensures res.Ok? <==> forall j :: 0 <= j < |ids| ==> Cong(xj[j], SumEval(polys, ids[j], |polys|), n)
    ensures res.Err? ==> res.error == CommitmentMismatch
    ensures res.Ok? ==> |res.value| == |ids| && forall j :: 0 <= j < |ids| ==>
      res.value[j] == SumEval(polys, ids[j], |polys|) % n
  {
    var big: seq<Point> := [];
    for j := 0 to |ids|
      invariant |big| == j
      invariant forall k :: 0 <= k < j ==>
        big[k] == SumEval(polys, ids[k], |polys|) % n && Cong(xj[k], SumEval(polys, ids[k], |polys|), n)
    {
      var xjg := EvaluateCommitmentSum(n, polys, ids[j]);
      if MulBase(n, xj[j]) != xjg { return Err(CommitmentMismatch); }
      big := big + [xjg];
    }
    return Ok(big);
  }

  /** Shares that are the sums themselves match. */
  lemma SummedMatch(n: int, ids: seq<Scalar>, polys: seq<seq<Point>>, xj: seq<Scalar>)
    requires n > 0 && |xj| == |ids|
    requires forall j :: 0 <= j < |ids| ==> xj[j] == SumEval(polys, ids[j], |polys|) % n
    ensures forall j :: 0 <= j < |ids| ==> Cong(xj[j], SumEval(polys, ids[j], |polys|), n)
  {
    hide SumEval;
    forall j | 0 <= j < |ids| ensures Cong(xj[j], SumEval(polys, ids[j], |polys|), n) {
      CongMod(SumEval(polys, ids[j], |polys|), n);
    }
  }

  function KeyOf(parties: nat, t: nat, i: nat, partyIds: seq<nat>, xj: seq<Scalar>, bigXj: seq<Point>, pub: Point,
    ot: OtMatrix, chainCode: bytes): Key
    requires i < |xj| && i < |ot|
  {
    Key(parties, t, i, partyIds, xj[i], bigXj, pub, ot[i], chainCode)
  }

  /** What the assembled keys share: the polynomial f. */
  ghost predicate FreshMaterial(n: int, parties: nat, t: nat, partyIds: seq<nat>, xj: seq<Scalar>, bigXj: seq<Point>,
    pub: Point, ot: OtMatrix, f: seq<int>, secret: int)
    requires n > 0
  {
    && parties == |partyIds| == |xj| && t < parties && bigXj == xj && Reduced(n, xj)
    && IndexesOk(Ids(n, partyIds)) && 0 <= pub < n && Cong(pub, secret, n)
    && |f| == t + 1 && OnPolynomial(n, Ids(n, partyIds), xj, f) && Cong(Eval(f, 0), secret, n)
    && AllPairsMatch(ot, parties)
  }

  lemma AssembledIsConsistent(n: int, parties: nat, t: nat, partyIds: seq<nat>, xj: seq<Scalar>, bigXj: seq<Point>,
    pub: Point, ot: OtMatrix, chainCode: bytes, f: seq<int>, secret: int, keys: seq<Key>)
    requires n > 0 && FreshMaterial(n, parties, t, partyIds, xj, bigXj, pub, ot, f, secret)
    requires |keys| == parties
      && forall i :: 0 <= i < parties ==> keys[i] == KeyOf(parties, t, i, partyIds, xj, bigXj, pub, ot, chainCode)
    ensures Sharing(n, keys, secret)
  {
    hide Cong, PairMatches, Eval;
    IndexesDistinct(n, Ids(n, partyIds));
    assert OtRows(keys) == ot;
    assert Shares(keys) == xj;
    assert SharesOf(n, Ids(n, partyIds), xj, t, secret);
  }

  /** Validation of freshly assembled keys can only fail on a zero share or an identity public key. */
  lemma FreshKeyBasic(n: int, parties: nat, t: nat, i: nat, partyIds: seq<nat>, xj: seq<Scalar>, bigXj: seq<Point>,
    pub: Point, ot: OtMatrix, chainCode: bytes, f: seq<int>, secret: int)
    requires n > 0 && FreshMaterial(n, parties, t, partyIds, xj, bigXj, pub, ot, f, secret)
    requires i < parties && (t == 0 ==> parties == 1)
    ensures Basic(n, KeyOf(parties, t, i, partyIds, xj, bigXj, pub, ot, chainCode)) <==> xj[i] != 0 && pub != 0
  {
    hide Cong, PairMatches, Eval, OnPolynomial;
    SmallMod(xj[i], n);
  }

  /** Builds and validates the keys; shares that lie on f yield a consistent committee. */
  method Assemble(n: int, parties: nat, t: nat, partyIds: seq<nat>, xj: seq<Scalar>, bigXj: seq<Point>, pub: Point,
    ot: OtMatrix, chainCode: bytes, ghost f: seq<int>, ghost secret: int) returns (res: Result<seq<Key>, LifeError>)
    requires n > 0 && |xj| == |ot| == parties
    ensures res.Ok? <==> forall i :: 0 <= i < parties ==>
      Basic(n, KeyOf(parties, t, i, partyIds, xj, bigXj, pub, ot, chainCode))
    ensures res.Ok? ==> |res.value| == parties
    ensures res.Ok? ==> forall i :: 0 <= i < parties ==>
      res.value[i] == KeyOf(parties, t, i, partyIds, xj, bigXj, pub, ot, chainCode)
    ensures res.Err? ==> res.error == InvalidKey
    ensures FreshMaterial(n, parties, t, partyIds, xj, bigXj, pub, ot, f, secret) && (t == 0 ==> parties == 1) ==>
      && (res.Ok? <==> pub != 0 && NonZero(xj))
      && (res.Ok? ==> Consistent(n, res.value, secret))
  {
    hide Basic, FreshMaterial, Sharing;
    var out: seq<Key> := [];
    for i := 0 to parties
      invariant |out| == i
      invariant forall k :: 0 <= k < i ==>
        out[k] == KeyOf(parties, t, k, partyIds, xj, bigXj, pub, ot, chainCode) && Basic(n, out[k])
    {
      var key := KeyOf(parties, t, i, partyIds, xj, bigXj, pub, ot, chainCode);
      var ok := ValidateBasic(n, key);
      if !ok {
        if FreshMaterial(n, parties, t, partyIds, xj, bigXj, pub, ot, f, secret) && (t == 0 ==> parties == 1) {
          FreshKeyBasic(n, parties, t, i, partyIds, xj, bigXj, pub, ot, chainCode, f, secret);
        }
        return Err(InvalidKey);
      }
      out := out + [key];
    }
    if FreshMaterial(n, parties, t, partyIds, xj, bigXj, pub, ot, f, secret) && (t == 0 ==> parties == 1) {
      MaterialSizes(n, parties, t, partyIds, xj, bigXj, pub, ot, f, secret);
      forall i | 0 <= i < parties ensures xj[i] != 0 && pub != 0 {
        FreshKeyBasic(n, parties, t, i, partyIds, xj, bigXj, pub, ot, chainCode, f, secret);
      }
      assert xj[0] != 0 && pub != 0;
      AssembledIsConsistent(n, parties, t, partyIds, xj, bigXj, pub, ot, chainCode, f, secret, out);
    }
    return Ok(out);
  }

  ghost predicate NonZero(xs: seq<Scalar>) { forall i :: 0 <= i < |xs| ==> xs[i] != 0 }

  lemma MaterialSizes(n: int, parties: nat, t: nat, partyIds: seq<nat>, xj: seq<Scalar>, bigXj: seq<Point>,
    pub: Point, ot: OtMatrix, f: seq<int>, secret: int)
    requires n > 0 && FreshMaterial(n, parties, t, partyIds, xj, bigXj, pub, ot, f, secret)
    ensures parties == |partyIds| == |xj| == |ot| && t < parties
  {
    hide Cong, PairMatches, Eval, OnPolynomial;
  }

  // ---------- key generation ----------

  ghost predicate Shapely(t: nat, parties: nat) { 1 <= t < parties }

  /** The dealers' polynomials: u_i followed by t drawn coefficients. */
  function DealerPolys(draws: Draws, dealers: nat, t: nat): (polys: seq<seq<int>>)
    ensures |polys| == dealers && forall i :: 0 <= i < dealers ==> |polys[i]| == t + 1
  {
    seq(dealers, i requires 0 <= i < dealers => DealerPoly(draws, i, t))
  }

  function DealerPoly(draws: Draws, i: nat, t: nat): (f: seq<int>)
    ensures |f| == t + 1
  {
    [draws.coeff(i, 0)] + draws.Tail(i, t)
  }

  /** The dealers' joint value in terms of the draws alone. */
  lemma {:induction false} DealerSum(draws: Draws, dealers: nat, t: nat, x: int, m: nat)
    requires m <= dealers
    ensures SumEval(DealerPolys(draws, dealers, t), x, m) == draws.AllDealt(m, x, 0, t + 1)
  {
    hide Eval;
    if m > 0 {
      DealerSum(draws, dealers, t, x, m - 1);
      DrawnEval(draws, m - 1, t, draws.coeff(m - 1, 0), x);
      DealtFrom(draws, m - 1, x, t + 1);
    }
  }

  /** The lowest degree apart. */
  lemma {:induction false} DealtFrom(draws: Draws, i: nat, x: int, hi: nat)
    requires hi > 0
    ensures draws.Dealt(i, x, 0, hi) == draws.coeff(i, 0) + draws.Dealt(i, x, 1, hi)
  {
    EvalNothing(x);
    if hi > 1 { DealtFrom(draws, i, x, hi - 1); }
  }

  method DealSecrets(n: int, dealers: nat, t: nat, ids: seq<Scalar>, draws: Draws)
    returns (polys: seq<seq<Point>>, shares: seq<seq<Scalar>>)
    requires n > 0 && draws.Valid(n)
    ensures polys == DealerPolys(draws, dealers, t) && SizedPolys(n, polys, t + 1) && Dealt(n, ids, polys, shares)
  {
    hide Cong, Eval;
    polys, shares := [], [];
    for i := 0 to dealers
      invariant polys == DealerPolys(draws, dealers, t)[..i] && SizedPolys(n, polys, t + 1) && Dealt(n, ids, polys,
        shares)
    {
      var vs, s := Create(n, t, draws.coeff(i, 0), ids, draws.Tail(i, t));
      polys := polys + [vs];
      shares := shares + [s];
    }
  }

  /** The sum of the dealers' polynomials carries the joint secret. */
  lemma JointPolynomial(n: int, ids: seq<Scalar>, polys: seq<seq<int>>, len: nat, xj: seq<Scalar>)
    requires n > 0 && |xj| == |ids| && forall i :: 0 <= i < |polys| ==> |polys[i]| == len
    requires forall j :: 0 <= j < |ids| ==> xj[j] == SumEval(polys, ids[j], |polys|) % n
    ensures OnPolynomial(n, ids, xj, SumPoly(polys, len, |polys|)) && Reduced(n, xj)
    ensures Eval(SumPoly(polys, len, |polys|), 0) == SumEval(polys, 0, |polys|)
  {
    var f := SumPoly(polys, len, |polys|);
    EvalSumPoly(polys, len, |polys|, 0);
    forall j | 0 <= j < |ids| ensures Cong(xj[j], Eval(f, ids[j]), n) && 0 <= xj[j] < n {
      EvalSumPoly(polys, len, |polys|, ids[j]);
      CongMod(SumEval(polys, ids[j], |polys|), n);
    }
  }

  method Keygen(o: Oracle, n: int, parties: nat, t: nat, partyIds: seq<nat>, chainOf: Point -> bytes, draws: Draws)
    returns (res: Result<seq<Key>, LifeError>, ghost secret: int)
    requires IsPrime(n) && draws.Valid(n)
    ensures !Shapely(t, parties) <==> res == Err(BadThreshold)
    ensures Shapely(t, parties) && |partyIds| != parties <==> res == Err(WrongIdCount)
    ensures Shapely(t, parties) && |partyIds| == parties && !IndexesOk(Ids(n, partyIds)) <==> res == Err(BadIndexes)
    ensures secret == draws.AllDealt(parties, 1, 0, 1)
    ensures res.Ok? <==>
      && Shapely(t, parties) && |partyIds| == parties && IndexesOk(Ids(n, partyIds)) && secret % n != 0
      && forall j :: 0 <= j < parties ==> draws.AllDealt(parties, partyIds[j] % n, 0, t + 1) % n != 0
    ensures res.Ok? ==> |res.value| == |partyIds| == parties && forall j :: 0 <= j < parties ==>
      res.value[j].xi == draws.AllDealt(parties, partyIds[j] % n, 0, t + 1) % n
    ensures res.Ok? ==> Consistent(n, res.value, secret) && |res.value| == parties
    ensures res.Ok? ==> Consistent(n, res.value, res.value[0].ecdsaPub)
    ensures res.Ok? ==> var k := res.value[0]; k.t == t && k.partyIds == partyIds && k.chainCode == chainOf(k.ecdsaPub)
    ensures res.Ok? ==> PairsDrawn(o, n, OtRows(res.value), parties, draws.sidOf, draws.pairA, draws.pairB)
    ensures res.Err? ==> res.error in {BadThreshold, WrongIdCount, BadIndexes, InvalidKey}
  {
    hide Cong, Eval, IsPrime, AllPairsMatch, SumEval, Basic, FreshMaterial, Sharing, Dealt, Draws.Dealt,
      Draws.AllDealt, DealerPolys, Consistent;
    PrimePositive(n);
    secret := SumEval(DealerPolys(draws, parties, t), 0, parties);
    DealerSum(draws, parties, t, 0, parties);
    ConstantTerms(draws, parties, t + 1);
    forall j | 0 <= j < |partyIds|
      ensures SumEval(DealerPolys(draws, parties, t), Ids(n, partyIds)[j], parties)
        == draws.AllDealt(parties, partyIds[j] % n, 0, t + 1)
    {
      DealerSum(draws, parties, t, partyIds[j] % n, parties);
    }
    if t < 1 || t >= parties { return Err(BadThreshold), secret; }
    if |partyIds| != parties { return Err(WrongIdCount), secret; }
    var ids := Ids(n, partyIds);
    var indexes := CheckIndexes(ids);
    if !indexes { return Err(BadIndexes), secret; }
    var polys, shares := DealSecrets(n, parties, t, ids, draws);
    DealtFits(n, t, ids, polys, shares);
    var summed := SumVerifiedShares(n, t, ids, polys, shares);
    var xj := summed.value;
    var pub := SumConstants(n, polys, t + 1);
    SummedMatch(n, ids, polys, xj);
    var recomputed := RecomputeCommitments(n, ids, polys, t + 1, xj);
    var big := recomputed.value;
    assert big == xj;
    var ot := SetupPairs(o, n, parties, draws.sidOf, draws.pairA, draws.pairB);
    var chainCode := chainOf(pub);
    ghost var f := SumPoly(polys, t + 1, parties);
    JointPolynomial(n, ids, polys, t + 1, xj);
    Material(n, parties, t, partyIds, xj, pub, ot, f, secret);
    res := Assemble(n, parties, t, partyIds, xj, big, pub, ot, chainCode, f, secret);
    if res.Ok? {
      assert OtRows(res.value) == ot;
      SecretIsLog(n, res.value, secret, pub);
    }
  }

  /** At zero only the constant draws are left. */
  lemma {:induction false} ConstantTerms(draws: Draws, m: nat, hi: nat)
    requires hi > 0
    ensures draws.AllDealt(m, 0, 0, hi) == draws.AllDealt(m, 1, 0, 1)
  {
    if m > 0 {
      ConstantTerms(draws, m - 1, hi);
      ConstantTerm(draws, m - 1, hi);
    }
  }

  lemma {:induction false} ConstantTerm(draws: Draws, i: nat, hi: nat)
    requires hi > 0
    ensures draws.Dealt(i, 0, 0, hi) == draws.coeff(i, 0) == draws.Dealt(i, 1, 0, 1)
  {
    if hi > 1 { ConstantTerm(draws, i, hi - 1); }
  }

  lemma Material(n: int, parties: nat, t: nat, partyIds: seq<nat>, xj: seq<Scalar>, pub: Point, ot: OtMatrix,
    f: seq<int>, secret: int)
    requires n > 0 && parties == |partyIds| == |xj| && t < parties && Reduced(n, xj) && IndexesOk(Ids(n, partyIds))
    requires pub == secret % n && |f| == t + 1 && OnPolynomial(n, Ids(n, partyIds), xj, f) && Eval(f, 0) == secret
    requires AllPairsMatch(ot, parties)
    ensures FreshMaterial(n, parties, t, partyIds, xj, xj, pub, ot, f, secret) && |ot| == parties
  {
    hide PairMatches, OnPolynomial, Eval;
    CongMod(secret, n);
    CongSelf(secret, n);
  }
}
