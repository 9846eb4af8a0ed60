/** In-process resharing and proactive refresh (src/dklstss/resharing.rs). */
module Resharing {
  import opened NumberTheory
  import opened Polynomial
  import opened Results
  import opened Bits
  import opened Secp
  import opened OtExtension
  import opened BaseOt
  import opened Lagrange
  import opened Vss
  import opened Keys
  import opened Lifecycle

  function OwnId(n: int, k: Key): (id: Scalar)
    requires n > 0 && k.idx < |k.partyIds|
    ensures 0 <= id < n
  {
    k.partyIds[k.idx] % n
  }

  /** Every key names its own party, and its points are group elements. */
  ghost predicate WellFormed(n: int, keys: seq<Key>) {
    forall i :: 0 <= i < |keys| ==> keys[i].idx < |keys[i].partyIds| && 0 <= keys[i].ecdsaPub < n
  }

  function ParticipantIds(n: int, keys: seq<Key>, subset: seq<nat>): (ids: seq<Scalar>)
    requires n > 0 && WellFormed(n, keys) && forall a :: 0 <= a < |subset| ==> subset[a] < |keys|
    ensures |ids| == |subset|
  {
    seq(|subset|, a requires 0 <= a < |subset| => OwnId(n, keys[subset[a]]))
  }

  // ---------- resharing ----------

  /** The checks on the participants: in range, no repetition, same public key. */
  ghost predicate ParticipantsOk(keys: seq<Key>, subset: seq<nat>, pub: Point) {
    Subset(subset, |keys|) && forall a :: 0 <= a < |subset| ==> keys[subset[a]].ecdsaPub == pub
  }

  method ResolveParticipants(keys: seq<Key>, subset: seq<nat>, pub: Point) returns (err: Option<LifeError>)
    ensures err == None <==> ParticipantsOk(keys, subset, pub)
    ensures err == None || err == Some(BadSubset) || err == Some(InconsistentPublicKey)
    ensures err == Some(InconsistentPublicKey) ==> exists i :: 0 <= i < |keys| && keys[i].ecdsaPub != pub
  {
    for a := 0 to |subset|
      invariant ParticipantsOk(keys, subset[..a], pub)
    {
      if subset[a] >= |keys| || subset[a] in subset[..a] { return Some(BadSubset); }
      if keys[subset[a]].ecdsaPub != pub { return Some(InconsistentPublicKey); }
      assert subset[..a + 1] == subset[..a] + [subset[a]];
    }
    assert subset[..|subset|] == subset;
    return None;
  }

  /** Participant i's polynomial: its weighted share, then drawn coefficients. */
  function ScaledPoly(n: int, ids: seq<Scalar>, xs: seq<Scalar>, i: nat, t: nat, draws: Draws): (f: seq<int>)
    requires n > 0 && i < |ids| == |xs|
    ensures |f| == t + 1
  {
    [Weight(n, ids, i) * xs[i] % n] + draws.Tail(i, t)
  }

  function ScaledPolys(n: int, ids: seq<Scalar>, xs: seq<Scalar>, t: nat, draws: Draws): (polys: seq<seq<int>>)
    requires n > 0 && |ids| == |xs|
    ensures |polys| == |ids| && forall i :: 0 <= i < |polys| ==> |polys[i]| == t + 1
  {
    seq(|ids|, i requires 0 <= i < |ids| => ScaledPoly(n, ids, xs, i, t, draws))
  }

  /** Each participant deals its weighted share to the new committee. */
  method DealScaled(n: int, ids: seq<Scalar>, xs: seq<Scalar>, t: nat, newIds: seq<Scalar>, draws: Draws)
    returns (err: Option<LifeError>, polys: seq<seq<Point>>, shares: seq<seq<Scalar>>)
    requires n > 0 && |ids| == |xs| && draws.Valid(n)
    ensures err == None || err == Some(DuplicateSigner) || err == Some(ZeroScaledShare)
    ensures err == Some(DuplicateSigner) ==> !Distinct(n, ids)
    ensures err == Some(ZeroScaledShare) ==> exists i :: 0 <= i < |ids| && Cong(Weight(n, ids, i) * xs[i], 0, n)
    ensures err == None ==> forall i, j :: 0 <= i < j < |ids| ==> !Cong(ids[j], ids[i], n)
    ensures err == None ==>
      polys == ScaledPolys(n, ids, xs, t, draws) && SizedPolys(n, polys, t + 1) && Dealt(n, newIds, polys, shares)
  {
    hide Cong, Eval, Weight;
    polys, shares := [], [];
    for i := 0 to |ids|
      invariant polys == ScaledPolys(n, ids, xs, t, draws)[..i] && SizedPolys(n, polys, t + 1) && Dealt(n, newIds,
        polys, shares)
      invariant forall a, j :: 0 <= a < i && a < j < |ids| ==> !Cong(ids[j], ids[a], n)
    {
      var lam := LagrangeCoefficient(n, ids, i);
      if lam.Err? {
        NotDistinct(n, ids, i);
        return Some(DuplicateSigner), polys, shares;
      }
      var scaled := FMul(n, lam.value, xs[i]);
      ScaledIs(n, lam.value, Weight(n, ids, i), xs[i]);
      if scaled == 0 { return Some(ZeroScaledShare), polys, shares; }
      var vs, s := Create(n, t, scaled, newIds, draws.Tail(i, t));
      polys := polys + [vs];
      shares := shares + [s];
    }
    return None, polys, shares;
  }

  lemma NotDistinct(n: int, ids: seq<int>, i: nat)
    requires n > 0 && i < |ids| && exists j :: 0 <= j < |ids| && j != i && Cong(ids[j], ids[i], n)
    ensures !Distinct(n, ids)
  {
    var j :| 0 <= j < |ids| && j != i && Cong(ids[j], ids[i], n);
    CongFlip(ids[j], ids[i], n);
  }

  /** The participants' constant terms add up to the interpolated secret. */
  lemma {:induction false} ScaledConstants(n: int, ids: seq<Scalar>, xs: seq<Scalar>, t: nat, draws: Draws, k: nat)
    requires n > 0 && |ids| == |xs| && k <= |ids|
    ensures Cong(SumEval(ScaledPolys(n, ids, xs, t, draws), 0, k), WeightedSum(n, ids, xs, k), n)
  {
    hide Weight, Eval;
    if k > 0 {
      ScaledConstants(n, ids, xs, t, draws, k - 1);
      var f := ScaledPoly(n, ids, xs, k - 1, t, draws);
      EvalZero(f);
      var w := Weight(n, ids, k - 1) * xs[k - 1];
      CongMod(w, n);
      CongAdd(SumEval(ScaledPolys(n, ids, xs, t, draws), 0, k - 1), WeightedSum(n, ids, xs, k - 1), w % n, w, n);
    }
  }

  /** The participants' joint value in terms of their shares and draws alone. */
  lemma {:induction false} ScaledSum(n: int, ids: seq<Scalar>, xs: seq<Scalar>, t: nat, draws: Draws, x: int, k: nat)
    requires n > 0 && |ids| == |xs| && k <= |ids|
    ensures Cong(SumEval(ScaledPolys(n, ids, xs, t, draws), x, k),
      WeightedSum(n, ids, xs, k) + draws.AllDealt(k, x, 1, t + 1), n)
  {
    hide Weight, Eval, Draws.Dealt;
    if k > 0 {
      ScaledSum(n, ids, xs, t, draws, x, k - 1);
      var w := Weight(n, ids, k - 1) * xs[k - 1];
      DrawnEval(draws, k - 1, t, w % n, x);
      var d, f := draws.Dealt(k - 1, x, 1, t + 1), ScaledPoly(n, ids, xs, k - 1, t, draws);
      CongMod(w, n);
      CongSelf(d, n);
      CongAdd(w % n, w, d, d, n);
      CongAdd(SumEval(ScaledPolys(n, ids, xs, t, draws), x, k - 1),
        WeightedSum(n, ids, xs, k - 1) + draws.AllDealt(k - 1, x, 1, t + 1), w % n + d, w + d, n);
    }
  }

  /** What the request itself must satisfy. */
  ghost predicate Requested(n: int, oldKeys: seq<Key>, subset: seq<nat>, newPartyIds: seq<nat>, newT: nat)
    requires n > 0
  {
    && oldKeys != [] && subset != [] && subset[0] < |oldKeys|
    && |subset| > oldKeys[subset[0]].t && 1 <= newT < |newPartyIds|
    && Subset(subset, |oldKeys|) && IndexesOk(Ids(n, newPartyIds))
  }

  /** The new committee's shares: the participants' weighted shares plus what they drew. */
  function Redealt(n: int, oldKeys: seq<Key>, subset: seq<nat>, newPartyIds: seq<nat>, newT: nat,
    draws: Draws): (xs: seq<Scalar>)
    requires n > 0 && WellFormed(n, oldKeys) && forall a :: 0 <= a < |subset| ==> subset[a] < |oldKeys|
    ensures |xs| == |newPartyIds|
  {
    var kept := WeightedSum(n, ParticipantIds(n, oldKeys, subset), Picked(Shares(oldKeys), subset), |subset|);
    seq(|newPartyIds|, j requires 0 <= j < |newPartyIds| =>
      (kept + draws.AllDealt(|subset|, newPartyIds[j] % n, 1, newT + 1)) % n)
  }

  lemma RedealtIs(n: int, oldKeys: seq<Key>, subset: seq<nat>, newPartyIds: seq<nat>, newT: nat, draws: Draws,
    xj: seq<Scalar>)
    requires n > 0 && WellFormed(n, oldKeys) && forall a :: 0 <= a < |subset| ==> subset[a] < |oldKeys|
    requires var polys := ScaledPolys(n, ParticipantIds(n, oldKeys, subset), Picked(Shares(oldKeys), subset), newT,
      draws);
      |xj| == |newPartyIds| && forall j :: 0 <= j < |xj| ==>
        xj[j] == SumEval(polys, Ids(n, newPartyIds)[j], |polys|) % n
    ensures xj == Redealt(n, oldKeys, subset, newPartyIds, newT, draws)
  {
    hide WellFormed, SumEval, WeightedSum, ScaledPolys, Draws.AllDealt;
    var ids, xs := ParticipantIds(n, oldKeys, subset), Picked(Shares(oldKeys), subset);
    forall j | 0 <= j < |xj| ensures xj[j] == Redealt(n, oldKeys, subset, newPartyIds, newT, draws)[j] {
      ScaledSum(n, ids, xs, newT, draws, newPartyIds[j] % n, |ids|);
    }
  }

  /** A successful reshare of any keys whatsoever yields a consistent sharing of the logarithm of the
      participants' public key; from a consistent committee it fails only on a bad request or a zero
      new share. */
  method Reshare(o: Oracle, n: int, oldKeys: seq<Key>, subset: seq<nat>, newPartyIds: seq<nat>, newT: nat, draws: Draws)
    returns (res: Result<seq<Key>, LifeError>)
    requires IsPrime(n) && draws.Valid(n) && WellFormed(n, oldKeys)
    requires oldKeys != [] && subset != [] ==> subset[0] < |oldKeys|
    ensures res.Ok? ==> Requested(n, oldKeys, subset, newPartyIds, newT)
    ensures res.Ok? ==> var first := oldKeys[subset[0]];
      && Consistent(n, res.value, first.ecdsaPub) && res.value[0].ecdsaPub == first.ecdsaPub
      && res.value[0].chainCode == first.chainCode && res.value[0].t == newT && res.value[0].partyIds == newPartyIds
    ensures res.Ok? ==> |res.value| == |newPartyIds| && (forall a :: 0 <= a < |subset| ==> subset[a] < |oldKeys|)
    ensures res.Ok? ==>
      var kept := WeightedSum(n, ParticipantIds(n, oldKeys, subset), Picked(Shares(oldKeys), subset), |subset|);
      forall j :: 0 <= j < |newPartyIds| ==>
        res.value[j].xi == (kept + draws.AllDealt(|subset|, newPartyIds[j] % n, 1, newT + 1)) % n
    ensures res.Ok? ==>
      PairsDrawn(o, n, OtRows(res.value), |newPartyIds|, draws.sidOf, draws.pairA, draws.pairB)
    ensures oldKeys != [] && Consistent(n, oldKeys, oldKeys[0].ecdsaPub) ==>
      && (res.Ok? <==> (Requested(n, oldKeys, subset, newPartyIds, newT) && NonZero(Redealt(n, oldKeys, subset,
        newPartyIds, newT, draws))))
      && (res.Err? ==> res.error in {NoKeys, TooFewParticipants, BadThreshold, BadSubset, BadIndexes, InvalidKey})
  {
    hide Cong, Eval, IsPrime, SumEval, Basic, FreshMaterial, Consistent, Dealt, Distinct, Weight, WeightedSum,
      PairMatches, PairsDrawn, Redealt, Draws.AllDealt, SumPoly, AllPairsMatch, ScaledPoly, OnPolynomial;
    PrimePositive(n);
    if oldKeys == [] || subset == [] { return Err(NoKeys); }
    if Consistent(n, oldKeys, oldKeys[0].ecdsaPub) { OnePublicKey(n, oldKeys); }
    var first := oldKeys[subset[0]];
    if |subset| < first.t + 1 { return Err(TooFewParticipants); }
    if newT < 1 || newT >= |newPartyIds| { return Err(BadThreshold); }
    var pub := first.ecdsaPub;
    var bad := ResolveParticipants(oldKeys, subset, pub);
    if bad.Some? {
      return Err(bad.value);
    }
    var newIds := Ids(n, newPartyIds);
    var indexes := CheckIndexes(newIds);
    if !indexes { return Err(BadIndexes); }
    var ids, xs := ParticipantIds(n, oldKeys, subset), Picked(Shares(oldKeys), subset);
    var err, polys, shares := DealScaled(n, ids, xs, newT, newIds, draws);
    if Consistent(n, oldKeys, oldKeys[0].ecdsaPub) { ConsistentParticipants(n, oldKeys, subset, ids, xs); }
    if err.Some? { return Err(err.value); }
    DealtFits(n, newT, newIds, polys, shares);
    var summed := SumVerifiedShares(n, newT, newIds, polys, shares);
    var xj := summed.value;
    RedealtIs(n, oldKeys, subset, newPartyIds, newT, draws, xj);
    SummedMatch(n, newIds, polys, xj);
    var recomputed := RecomputeCommitments(n, newIds, polys, newT + 1, xj);
    var big := recomputed.value;
    assert big == xj;
    var reconstructed := SumConstants(n, polys, newT + 1);
    ScaledConstants(n, ids, xs, newT, draws, |ids|);
    if Consistent(n, oldKeys, oldKeys[0].ecdsaPub) {
      Reconstructed(n, SumEval(polys, 0, |polys|), WeightedSum(n, ids, xs, |ids|), pub);
    }
    if reconstructed != pub { return Err(PublicKeyNotPreserved); }
    var ot := SetupPairs(o, n, |newIds|, draws.sidOf, draws.pairA, draws.pairB);
    ghost var f := SumPoly(polys, newT + 1, |polys|);
    JointPolynomial(n, newIds, polys, newT + 1, xj);
    Material(n, |newIds|, newT, newPartyIds, xj, pub, ot, f, SumEval(polys, 0, |polys|));
    res := Assemble(n, |newIds|, newT, newPartyIds, xj, big, pub, ot, first.chainCode, f, SumEval(polys, 0, |polys|));
    RedealtAt(n, oldKeys, subset, newPartyIds, newT, draws);
    if res.Ok? { assert OtRows(res.value) == ot; }
    if res.Ok? { SecretIsLog(n, res.value, SumEval(polys, 0, |polys|), pub); }
  }

  lemma RedealtAt(n: int, oldKeys: seq<Key>, subset: seq<nat>, newPartyIds: seq<nat>, newT: nat, draws: Draws)
    requires n > 0 && WellFormed(n, oldKeys) && forall a :: 0 <= a < |subset| ==> subset[a] < |oldKeys|
    ensures var kept := WeightedSum(n, ParticipantIds(n, oldKeys, subset), Picked(Shares(oldKeys), subset), |subset|);
      forall j :: 0 <= j < |newPartyIds| ==>
        Redealt(n, oldKeys, subset, newPartyIds, newT, draws)[j]
          == (kept + draws.AllDealt(|subset|, newPartyIds[j] % n, 1, newT + 1)) % n
  {
    hide WellFormed, WeightedSum, Draws.AllDealt;
  }

  lemma Reconstructed(n: int, sum: int, weighted: int, pub: Point)
    requires n > 0 && Cong(sum, weighted, n) && Cong(weighted, pub, n) && 0 <= pub < n
    ensures sum % n == pub
  {
    SmallMod(pub, n);
  }

  lemma OnePublicKey(n: int, keys: seq<Key>)
    requires n > 0 && keys != [] && Consistent(n, keys, keys[0].ecdsaPub)
    ensures 0 < keys[0].ecdsaPub < n
    ensures forall i :: 0 <= i < |keys| ==> keys[i].ecdsaPub == keys[0].ecdsaPub && keys[i].t == keys[0].t
  {
    hide Cong, Distinct, SharesOf, AllPairsMatch;
    assert Basic(n, keys[0]);
  }

  /** Participants of a consistent committee: distinct ids, non-zero weighted shares, and the
      weighted shares add up to the secret. */
  lemma ConsistentParticipants(n: int, keys: seq<Key>, subset: seq<nat>, ids: seq<Scalar>, xs: seq<Scalar>)
    requires IsPrime(n) && keys != [] && WellFormed(n, keys) && Consistent(n, keys, keys[0].ecdsaPub)
    requires Subset(subset, |keys|) && |subset| > keys[0].t
    requires ids == ParticipantIds(n, keys, subset) && xs == Picked(Shares(keys), subset)
    ensures Distinct(n, ids) && Cong(WeightedSum(n, ids, xs, |ids|), keys[0].ecdsaPub, n)
    ensures forall i :: 0 <= i < |ids| ==> !Cong(Weight(n, ids, i) * xs[i], 0, n)
  {
    var all := Ids(n, keys[0].partyIds);
    assert ids == Picked(all, subset) by { hide Cong, Distinct, SharesOf, AllPairsMatch, Basic; }
    assert forall i :: 0 <= i < |all| ==>
      all[i] != 0 by { assert Basic(n, keys[0]); hide Cong, Distinct, SharesOf, AllPairsMatch; }
    assert forall i :: 0 <= i < |keys| ==> 0 < keys[i].xi < n by { SharesInRange(n, keys); }
    SharingPart(n, keys);
    hide *;
    PickedDistinct(n, all, subset);
    QuorumOfKeys(n, keys, keys[0].ecdsaPub, subset);
    forall i | 0 <= i < |ids| ensures !Cong(Weight(n, ids, i) * xs[i], 0, n) {
      assert 0 < xs[i] < n;
      WeightedShareNonZero(n, ids, i, xs[i]);
    }
  }

  lemma SharesInRange(n: int, keys: seq<Key>)
    requires n > 0 && keys != [] && Consistent(n, keys, keys[0].ecdsaPub)
    ensures forall i :: 0 <= i < |keys| ==> 0 < keys[i].xi < n
  {
    hide Cong, Distinct, SharesOf, AllPairsMatch;
    forall i | 0 <= i < |keys| ensures 0 < keys[i].xi < n { assert Basic(n, keys[i]); }
  }

  lemma SharingPart(n: int, keys: seq<Key>)
    requires n > 0 && keys != [] && Consistent(n, keys, keys[0].ecdsaPub)
    ensures Sharing(n, keys, keys[0].ecdsaPub) && Distinct(n, Ids(n, keys[0].partyIds)) && |keys[0].partyIds| == |keys|
  {
  }

  lemma WeightedShareNonZero(n: int, ids: seq<Scalar>, i: nat, x: Scalar)
    requires IsPrime(n) && Distinct(n, ids) && i < |ids| && 0 < x < n && Reduced(n, ids) && NonZero(ids)
    ensures !Cong(Weight(n, ids, i) * x, 0, n)
  {
    var ys := Others(ids, i);
    SmallMod(0, n);
    SmallMod(x, n);
    forall k | 0 <= k < |ys| ensures !Cong(ys[k], 0, n) && !Cong(ys[k], ids[i], n) {
      var j := if k < i then k else k + 1;
      assert ys[k] == ids[j];
      SmallMod(ids[j], n);
      if j < i { assert !Cong(ids[j], ids[i], n); } else { assert !Cong(ids[i], ids[j], n); }
    }
    WeightOverNonZero(n, ys, ids[i]);
    if Cong(Weight(n, ids, i) * x, 0, n) { PrimeProduct(n, Weight(n, ids, i), x); }
  }

  // ---------- refresh ----------

  /** f(id) for the polynomial with zero constant term and the given further coefficients. */
  method EvalZeroConst(n: int, coeffs: seq<Scalar>, id: Scalar) returns (result: Scalar)
    requires n > 0
    ensures result == Eval([0] + coeffs, id) % n
  {
    result := 0;
    var xpow := 1 % n;
    SmallMod(0, n);
    assert [0] + coeffs[..0] == [0];
    assert Eval([0], id) == 0 + id * Eval([], id);
    for k := 0 to |coeffs|
      invariant result == Eval([0] + coeffs[..k], id) % n && xpow == Pow(id, k) % n
    {
      PowerStep(n, xpow, id, k);
      xpow := FMul(n, xpow, id);
      assert [0] + coeffs[..k + 1] == ([0] + coeffs[..k]) + [coeffs[k]];
      EvalSnoc([0] + coeffs[..k], coeffs[k], id);
      TermStep(n, result, Eval([0] + coeffs[..k], id), coeffs[k], xpow, Pow(id, k + 1));
      result := FAdd(n, result, FMul(n, coeffs[k], xpow));
    }
    assert coeffs[..|coeffs|] == coeffs;
  }

  /** The share of the zero polynomial, checked against commitments that omit the constant term. */
  method VerifyZeroConst(n: int, vs: seq<Point>, id: Scalar, share: Scalar) returns (ok: bool)
    requires n > 0 && 0 <= share < n
    ensures ok <==> Cong(share, Eval([0] + vs, id), n)
  {
    var acc: Option<Point> := None;
    var xpow := 1 % n;
    SmallMod(0, n);
    SmallMod(share, n);
    assert [0] + vs[..0] == [0];
    assert Eval([0], id) == 0 + id * Eval([], id);
    for k := 0 to |vs|
      invariant acc == None <==> k == 0
      invariant xpow == Pow(id, k) % n
      invariant (if acc == None then 0 else acc.value) == Eval([0] + vs[..k], id) % n
    {
      PowerStep(n, xpow, id, k);
      xpow := FMul(n, xpow, id);
      var term := PointMul(n, vs[k], xpow);
      assert [0] + vs[..k + 1] == ([0] + vs[..k]) + [vs[k]];
      EvalSnoc([0] + vs[..k], vs[k], id);
      ghost var before := Eval([0] + vs[..k], id);
      TermStep(n, before % n, before, vs[k], xpow, Pow(id, k + 1));
      FirstTerm(n, term);
      acc := Some(match acc case None => term case Some(a) => PointAdd(n, a, term));
    }
    assert vs[..|vs|] == vs;
    return match acc case Some(a) => MulBase(n, share) == a case None => share == 0;
  }

  lemma FirstTerm(n: int, term: int)
    requires 0 <= term < n
    ensures FAdd(n, 0, term) == term
  {
    SmallMod(term, n);
  }

  function ZeroPoly1(draws: Draws, i: nat, t: nat): (f: seq<int>)
    ensures |f| == t + 1 && f[0] == 0
  {
    [0] + draws.Tail(i, t)
  }

  /** The zero-constant polynomials every party deals in a refresh. */
  function ZeroPolys(draws: Draws, dealers: nat, t: nat): (polys: seq<seq<int>>)
    ensures |polys| == dealers && forall i :: 0 <= i < dealers ==> |polys[i]| == t + 1
  {
    seq(dealers, i requires 0 <= i < dealers => ZeroPoly1(draws, i, t))
  }

  lemma {:induction false} ZeroPolysSum(draws: Draws, dealers: nat, t: nat, k: nat)
    requires k <= dealers
    ensures SumEval(ZeroPolys(draws, dealers, t), 0, k) == 0
  {
    if k > 0 {
      ZeroPolysSum(draws, dealers, t, k - 1);
      EvalZero(ZeroPoly1(draws, k - 1, t));
    }
  }

  /** Every party deals to every id: its commitments omit the constant term, which is zero. */
  method DealZero(n: int, parties: nat, t: nat, ids: seq<Scalar>, draws: Draws)
    returns (commitments: seq<seq<Point>>, shares: seq<seq<Scalar>>)
    requires n > 0 && draws.Valid(n)
    ensures |commitments| == parties && Tabled(parties, |ids|, shares)
    ensures forall a :: 0 <= a < parties ==> commitments[a] == draws.Tail(a, t)
    ensures forall a, j :: 0 <= a < parties && 0 <= j < |ids| ==>
      shares[a][j] == Eval([0] + commitments[a], ids[j]) % n
  {
    hide Eval;
    commitments, shares := [], [];
    for i := 0 to parties
      invariant |commitments| == |shares| == i
      invariant forall a :: 0 <= a < i ==> commitments[a] == draws.Tail(a, t) && |shares[a]| == |ids|
      invariant forall a, j :: 0 <= a < i && 0 <= j < |ids| ==> shares[a][j] == Eval([0] + commitments[a], ids[j]) % n
    {
      var coeffs := draws.Tail(i, t);
      var dealt: seq<Scalar> := [];
      for j := 0 to |ids|
        invariant |dealt| == j && forall k :: 0 <= k < j ==> dealt[k] == Eval([0] + coeffs, ids[k]) % n
      {
        var d := EvalZeroConst(n, coeffs, ids[j]);
        dealt := dealt + [d];
      }
      var vs := seq(|coeffs|, c requires 0 <= c < |coeffs| => MulBase(n, coeffs[c]));
      forall c | 0 <= c < |coeffs| ensures vs[c] == coeffs[c] { SmallMod(coeffs[c], n); }
      assert vs == coeffs;
      commitments := commitments + [vs];
      shares := shares + [dealt];
    }
  }

  /** The dealers' polynomials with their zero constant terms put back. */
  function WithZero(commitments: seq<seq<Point>>): (polys: seq<seq<int>>)
    ensures |polys| == |commitments| && forall i :: 0 <= i < |polys| ==> polys[i] == [0] + commitments[i]
  {
    seq(|commitments|, i requires 0 <= i < |commitments| => [0] + commitments[i])
  }

  /** Every party's incoming deltas, each verified first, and summed: one delta off its dealer's polynomial is enough
      for the refresh to fail. */
  method SumDeltas(n: int, ids: seq<Scalar>, commitments: seq<seq<Point>>, shares: seq<seq<Scalar>>, parties: nat)
    returns (res: Result<seq<Scalar>, LifeError>)
    requires n > 0 && parties <= |ids| && Tabled(|commitments|, |ids|, shares)
    requires forall i, j :: 0 <= i < |commitments| && 0 <= j < |ids| ==> 0 <= shares[i][j] < n
    ensures res.Ok? <==> forall j, i :: 0 <= j < parties && 0 <= i < |commitments| ==>
      Cong(shares[i][j], Eval([0] + commitments[i], ids[j]), n)
    ensures res.Err? ==> res.error == ShareRejected
    ensures res.Ok? ==> |res.value| == parties && forall j :: 0 <= j < parties ==>
      res.value[j] == SumEval(WithZero(commitments), ids[j], |commitments|) % n
  {
    hide Cong, Eval;
    ghost var polys := WithZero(commitments);
    var delta: seq<Scalar> := [];
    SmallMod(0, n);
    for j := 0 to parties
      invariant |delta| == j
      invariant forall k, i :: 0 <= k < j && 0 <= i < |commitments| ==>
        Cong(shares[i][k], Eval([0] + commitments[i], ids[k]), n)
      invariant forall k :: 0 <= k < j ==> delta[k] == SumEval(polys, ids[k], |commitments|) % n
    {
      var sum := 0;
      for i := 0 to |commitments|
        invariant forall d :: 0 <= d < i ==> Cong(shares[d][j], Eval([0] + commitments[d], ids[j]), n)
        invariant sum == SumEval(polys, ids[j], i) % n
      {
        var ok := VerifyZeroConst(n, commitments[i], ids[j], shares[i][j]);
        if !ok { return Err(ShareRejected); }
        SumStep(n, sum, SumEval(polys, ids[j], i), shares[i][j], Eval(polys[i], ids[j]));
        sum := FAdd(n, sum, shares[i][j]);
      }
      delta := delta + [sum];
    }
    return Ok(delta);
  }

  /** What honest parties deal passes and adds up to their joint polynomial. */
  method JointDeltas(n: int, parties: nat, t: nat, ids: seq<Scalar>, draws: Draws) returns (res: Result<seq<Scalar>,
    LifeError>)
    requires n > 0 && parties <= |ids| && draws.Valid(n)
    ensures res.Ok? && |res.value| == parties
    ensures forall j :: 0 <= j < parties ==> res.value[j] == SumEval(ZeroPolys(draws, parties, t), ids[j], parties) % n
  {
    hide Cong, Eval, SumEval;
    var commitments, shares := DealZero(n, parties, t, ids, draws);
    forall i, j | 0 <= i < |commitments| && 0 <= j < |ids| ensures 0 <= shares[i][j] < n {
      assert shares[i][j] == Eval([0] + commitments[i], ids[j]) % n;
    }
    forall i, j | 0 <= i < |commitments| && 0 <= j < |ids|
      ensures Cong(shares[i][j], Eval([0] + commitments[i], ids[j]), n)
    {
      CongMod(Eval([0] + commitments[i], ids[j]), n);
    }
    res := SumDeltas(n, ids, commitments, shares, parties);
    assert WithZero(commitments) == ZeroPolys(draws, parties, t);
  }

  /** Party j's share after the refresh: the old one plus what everybody drew. */
  function Refreshed(n: int, keys: seq<Key>, draws: Draws): (xs: seq<Scalar>)
    requires n > 0 && keys != [] && |keys| <= |keys[0].partyIds|
    ensures |xs| == |keys|
  {
    seq(|keys|, j requires 0 <= j < |keys| =>
      (keys[j].xi + draws.AllDealt(|keys|, keys[0].partyIds[j] % n, 1, keys[0].t + 1)) % n)
  }

  /** The dealers' joint delta in terms of the draws alone. */
  lemma {:induction false} ZeroSum(draws: Draws, dealers: nat, t: nat, x: int, m: nat)
    requires m <= dealers
    ensures SumEval(ZeroPolys(draws, dealers, t), x, m) == draws.AllDealt(m, x, 1, t + 1)
  {
    hide Eval, Draws.Dealt;
    if m > 0 {
      ZeroSum(draws, dealers, t, x, m - 1);
      DrawnEval(draws, m - 1, t, 0, x);
    }
  }

  lemma RefreshedIs(n: int, keys: seq<Key>, draws: Draws, j: nat)
    requires n > 0 && keys != [] && |keys| <= |keys[0].partyIds| && j < |keys|
    ensures Refreshed(n, keys, draws)[j]
      == FAdd(n, keys[j].xi, SumEval(ZeroPolys(draws, |keys|, keys[0].t), Ids(n, keys[0].partyIds)[j], |keys|) % n)
  {
    hide SumEval, ZeroPolys, Draws.AllDealt;
    var d := draws.AllDealt(|keys|, keys[0].partyIds[j] % n, 1, keys[0].t + 1);
    ZeroSum(draws, |keys|, keys[0].t, keys[0].partyIds[j] % n, |keys|);
    CongMod(d, n);
    CongSelf(keys[j].xi, n);
    CongAdd(keys[j].xi, keys[j].xi, d % n, d, n);
  }

  ghost predicate KeyMatches(keys: seq<Key>, i: nat)
    requires i < |keys|
  {
    var first, k := keys[0], keys[i];
    k.parties == first.parties && k.t == first.t && k.idx == i && k.ecdsaPub == first.ecdsaPub
  }

  method CheckRefreshKeys(keys: seq<Key>) returns (err: Option<LifeError>)
    requires keys != []
    ensures err == Some(KeyCountMismatch) <==> |keys| != keys[0].parties
    ensures err == Some(InconsistentKey) <==> |keys| == keys[0].parties && exists i ::
      0 <= i < |keys| && !KeyMatches(keys, i)
    ensures err.Some? ==> err.value == KeyCountMismatch || err.value == InconsistentKey
  {
    var first := keys[0];
    if |keys| != first.parties { return Some(KeyCountMismatch); }
    for i := 0 to |keys|
      invariant forall k :: 0 <= k < i ==> KeyMatches(keys, k)
    {
      var k := keys[i];
      if k.parties != first.parties || k.t != first.t || k.idx != i || k.ecdsaPub != first.ecdsaPub {
        assert !KeyMatches(keys, i);
        return Some(InconsistentKey);
      }
    }
    return None;
  }

  /** Refresh keeps the secret, the public key and the chain code of a consistent committee; from one it
      can only fail on a zero new share. It notices a share that does not match its commitment. */
  method Refresh(o: Oracle, n: int, keys: seq<Key>, draws: Draws) returns (res: Result<seq<Key>, LifeError>)
    requires IsPrime(n) && draws.Valid(n)
    requires keys != [] ==> keys[0].parties <= |keys[0].partyIds| && keys[0].parties <= |keys[0].bigXj|
    ensures keys == [] <==> res == Err(NoKeys)
    ensures keys != [] && |keys| != keys[0].parties <==> res == Err(KeyCountMismatch)
    ensures keys != [] && |keys| == keys[0].parties && (exists i :: 0 <= i < |keys| && !KeyMatches(keys, i)) <==>
      res == Err(InconsistentKey)
    ensures res == Err(CommitmentMismatch) ==> exists j :: 0 <= j < |keys| && !Cong(keys[j].xi, keys[0].bigXj[j], n)
    ensures res.Ok? ==> forall j :: 0 <= j < |keys| ==> Cong(keys[j].xi, keys[0].bigXj[j], n)
    ensures keys != [] && Consistent(n, keys, keys[0].ecdsaPub) ==>
      && (res.Ok? <==> NonZero(Refreshed(n, keys, draws)))
      && (res.Err? ==> res.error == InvalidKey)
      && (res.Ok? ==> Consistent(n, res.value, keys[0].ecdsaPub))
    ensures res.Ok? ==> |res.value| == |keys| && forall j :: 0 <= j < |keys| ==>
      res.value[j].xi == (keys[j].xi + draws.AllDealt(|keys|, keys[0].partyIds[j] % n, 1, keys[0].t + 1)) % n
    ensures res.Ok? ==> res.value != [] && SamePublic(keys[0], res.value[0])
    ensures res.Ok? ==> PairsDrawn(o, n, OtRows(res.value), |keys|, draws.sidOf, draws.pairA, draws.pairB)
  {
    hide Cong, Eval, IsPrime, SumEval, Basic, FreshMaterial, Consistent, PairMatches, PairsDrawn;
    PrimePositive(n);
    if keys == [] { return Err(NoKeys); }
    var parties, t, pub := keys[0].parties, keys[0].t, keys[0].ecdsaPub;
    var bad := CheckRefreshKeys(keys);
    if Consistent(n, keys, pub) { ConsistentMatches(n, keys); }
    if bad.Some? { return Err(bad.value); }
    var ids := Ids(n, keys[0].partyIds);
    var summed := JointDeltas(n, parties, t, ids, draws);
    var delta := summed.value;
    var xj: seq<Scalar>, big: seq<Point> := [], [];
    for j := 0 to parties
      invariant xj == Refreshed(n, keys, draws)[..j] && big == xj
      invariant forall k :: 0 <= k < j ==> Cong(keys[k].xi, keys[0].bigXj[k], n)
    {
      var x, p := FAdd(n, keys[j].xi, delta[j]), PointAdd(n, keys[0].bigXj[j], MulBase(n, delta[j]));
      ShiftedMatch(n, keys[j].xi, keys[0].bigXj[j], delta[j]);
      RefreshedIs(n, keys, draws, j);
      if MulBase(n, x) != p { return Err(CommitmentMismatch); }
      xj, big := xj + [x], big + [p];
    }
    assert xj == Refreshed(n, keys, draws);
    var ot := SetupPairs(o, n, parties, draws.sidOf, draws.pairA, draws.pairB);
    ghost var f := [];
    if Consistent(n, keys, pub) {
      f := RefreshedMaterial(n, keys, draws, ot);
    }
    res := Assemble(n, parties, t, keys[0].partyIds, xj, big, pub, ot, keys[0].chainCode, f, pub);
    if res.Ok? { assert Shares(res.value) == xj && OtRows(res.value) == ot; }
  }

  ghost predicate SamePublic(a: Key, b: Key) {
    && a.ecdsaPub == b.ecdsaPub && a.chainCode == b.chainCode && a.t == b.t && a.parties == b.parties
    && a.partyIds == b.partyIds
  }

  lemma ConsistentMatches(n: int, keys: seq<Key>)
    requires n > 0 && keys != [] && Consistent(n, keys, keys[0].ecdsaPub)
    ensures |keys| == keys[0].parties == |keys[0].partyIds| && 0 < keys[0].ecdsaPub < n
    ensures forall i :: 0 <= i < |keys| ==> KeyMatches(keys, i) && Cong(keys[i].xi, keys[0].bigXj[i], n)
  {
    hide Distinct, SharesOf, AllPairsMatch;
    assert Basic(n, keys[0]);
  }

  lemma ShiftedMatch(n: int, x: int, p: int, d: int)
    requires n > 0 && 0 <= d < n
    ensures MulBase(n, FAdd(n, x, d)) == PointAdd(n, p, MulBase(n, d)) <==> Cong(x, p, n)
    ensures MulBase(n, FAdd(n, x, d)) == FAdd(n, x, d)
  {
    SmallMod(d, n);
    SmallMod((x + d) % n, n);
    if Cong(x, p, n) { CongAdd(x, p, d, d, n); }
    if Cong(x + d, p + d, n) { CongSub(x + d, p + d, d, d, n); }
  }

  /** Adding the zero-constant polynomials leaves the value at zero alone. */
  lemma RefreshedMaterial(n: int, keys: seq<Key>, draws: Draws, ot: OtMatrix) returns (f: seq<int>)
    requires n > 0 && keys != [] && |keys| == keys[0].parties == |keys[0].partyIds|
    requires Consistent(n, keys, keys[0].ecdsaPub) && AllPairsMatch(ot, |keys|)
    ensures FreshMaterial(n, |keys|, keys[0].t, keys[0].partyIds, Refreshed(n, keys, draws), Refreshed(n, keys, draws),
      keys[0].ecdsaPub, ot, f, keys[0].ecdsaPub)
    ensures keys[0].t == 0 ==> keys[0].parties == 1
  {
    RefreshParts(n, keys, draws);
    hide *;
    f := RefreshedPolynomial(n, Ids(n, keys[0].partyIds), Shares(keys), keys[0].t, keys[0].ecdsaPub, draws,
      Refreshed(n, keys, draws));
    FreshIntro(n, |keys|, keys[0].t, keys[0].partyIds, Refreshed(n, keys, draws), keys[0].ecdsaPub, ot, f);
  }

  /** The parts of a consistent committee that refreshing needs. */
  lemma {:induction false} RefreshParts(n: int, keys: seq<Key>, draws: Draws)
    requires n > 0 && keys != [] && |keys| == keys[0].parties == |keys[0].partyIds|
    requires Consistent(n, keys, keys[0].ecdsaPub)
    ensures keys[0].t < |keys| && IndexesOk(Ids(n, keys[0].partyIds)) && 0 <= keys[0].ecdsaPub < n
    ensures |Ids(n, keys[0].partyIds)| == |Shares(keys)| == |Refreshed(n, keys, draws)| == |keys|
    ensures SharesOf(n, Ids(n, keys[0].partyIds), Shares(keys), keys[0].t, keys[0].ecdsaPub)
    ensures Reduced(n, Refreshed(n, keys, draws)) && (keys[0].t == 0 ==> keys[0].parties == 1)
    ensures forall j :: 0 <= j < |keys| ==>
      Refreshed(n, keys, draws)[j] == FAdd(n, Shares(keys)[j], SumEval(ZeroPolys(draws, |keys|, keys[0].t),
        Ids(n, keys[0].partyIds)[j], |keys|) % n)
  {
    hide Cong, Eval, SumEval, PairMatches, Distinct, OnPolynomial, AllPairsMatch, Draws.AllDealt, ZeroPolys;
    assert Basic(n, keys[0]);
    forall j | 0 <= j < |keys|
      ensures Refreshed(n, keys, draws)[j] == FAdd(n, Shares(keys)[j], SumEval(ZeroPolys(draws, |keys|, keys[0].t),
        Ids(n, keys[0].partyIds)[j], |keys|) % n)
    {
      RefreshedIs(n, keys, draws, j);
    }
  }

  lemma RefreshedPolynomial(n: int, ids: seq<Scalar>, xs: seq<Scalar>, t: nat, pub: int, draws: Draws,
    ys: seq<Scalar>) returns (f: seq<int>)
    requires n > 0 && |ids| == |xs| == |ys| && SharesOf(n, ids, xs, t, pub)
    requires forall j :: 0 <= j < |ids| ==>
      ys[j] == FAdd(n, xs[j], SumEval(ZeroPolys(draws, |ids|, t), ids[j], |ids|) % n)
    ensures |f| == t + 1 && OnPolynomial(n, ids, ys, f) && Cong(Eval(f, 0), pub, n)
  {
    hide Cong, Eval, SumEval, SumPoly, FAdd;
    var g: seq<int> :| |g| == t + 1 && OnPolynomial(n, ids, xs, g) && Cong(Eval(g, 0), pub, n);
    var polys := ZeroPolys(draws, |ids|, t);
    var h := SumPoly(polys, t + 1, |ids|);
    f := AddPoly(g, h);
    ZeroPolysSum(draws, |ids|, t, |ids|);
    EvalSumPoly(polys, t + 1, |ids|, 0);
    EvalAdd(g, h, 0);
    forall j | 0 <= j < |ids| ensures Cong(ys[j], Eval(f, ids[j]), n) {
      EvalSumPoly(polys, t + 1, |ids|, ids[j]);
      EvalAdd(g, h, ids[j]);
      assert Cong(xs[j], Eval(g, ids[j]), n);
      ShiftedShare(n, xs[j], Eval(g, ids[j]), SumEval(polys, ids[j], |ids|));
    }
  }

  lemma FreshIntro(n: int, parties: nat, t: nat, partyIds: seq<nat>, xj: seq<Scalar>, pub: Point, ot: OtMatrix,
    f: seq<int>)
    requires n > 0 && parties == |partyIds| == |xj| && t < parties && Reduced(n, xj) && IndexesOk(Ids(n, partyIds))
    requires 0 <= pub < n && |f| == t + 1 && OnPolynomial(n, Ids(n, partyIds), xj, f) && Cong(Eval(f, 0), pub, n)
    requires AllPairsMatch(ot, parties)
    ensures FreshMaterial(n, parties, t, partyIds, xj, xj, pub, ot, f, pub)
  {
    hide OnPolynomial, Eval, AllPairsMatch, IndexesOk;
  }

  lemma ShiftedShare(n: int, x: int, g: int, d: int)
    requires n > 0 && Cong(x, g, n)
    ensures Cong(FAdd(n, x, d % n), g + d, n)
  {
    CongMod(d, n);
    CongAdd(x, g, d % n, d, n);
    FieldOps(n, x, d % n);
  }

  // ---------- any sequence of operations ----------

  datatype Op =
    | ReshareOp(subset: seq<nat>, newPartyIds: seq<nat>, newT: nat, reshareDraws: Draws)
    | RefreshOp(refreshDraws: Draws)

  ghost predicate OpsValid(n: int, ops: seq<Op>) {
    forall i :: 0 <= i < |ops| ==> match ops[i]
      case ReshareOp(_, _, _, d) => d.Valid(n)
      case RefreshOp(d) => d.Valid(n)
  }

  /** The whole life of a key: after any sequence of reshares and refreshes, successful or not, the current
      committee still shares the same secret under the same public key and chain code. */
  method Lifetime(o: Oracle, n: int, initial: seq<Key>, ops: seq<Op>) returns (keys: seq<Key>)
    requires IsPrime(n) && OpsValid(n, ops) && initial != [] && Consistent(n, initial, initial[0].ecdsaPub)
    ensures keys != [] && Consistent(n, keys, initial[0].ecdsaPub)
    ensures keys[0].ecdsaPub == initial[0].ecdsaPub && keys[0].chainCode == initial[0].chainCode
  {
    hide Cong, IsPrime, Consistent;
    PrimePositive(n);
    keys := initial;
    for i := 0 to |ops|
      invariant keys != [] && Consistent(n, keys, initial[0].ecdsaPub)
      invariant keys[0].ecdsaPub == initial[0].ecdsaPub && keys[0].chainCode == initial[0].chainCode
    {
      ConsistentShape(n, keys);
      match ops[i] {
        case ReshareOp(subset, newPartyIds, newT, d) =>
          if subset == [] || subset[0] < |keys| {
            var res := Reshare(o, n, keys, subset, newPartyIds, newT, d);
            if res.Ok? {
              ConsistentShape(n, res.value);
              keys := res.value;
            }
          }
        case RefreshOp(d) =>
          var res := Refresh(o, n, keys, d);
          if res.Ok? { keys := res.value; }
      }
    }
  }

  lemma ConsistentShape(n: int, keys: seq<Key>)
    requires n > 0 && exists s :: Consistent(n, keys, s)
    ensures keys != [] && WellFormed(n, keys) && |keys| == keys[0].parties == |keys[0].partyIds| == |keys[0].bigXj|
    ensures forall i :: 0 <= i < |keys| ==>
      keys[i].ecdsaPub == keys[0].ecdsaPub && keys[i].chainCode == keys[0].chainCode
  {
    hide Cong, Distinct, SharesOf, AllPairsMatch;
    var s :| Consistent(n, keys, s);
    assert Basic(n, keys[0]);
  }
}
