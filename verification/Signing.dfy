/** In-process threshold signing (src/dklstss/signing.rs). */
module Signing {
  import opened NumberTheory
  import opened Polynomial
  import opened Results
  import opened Bits
  import opened Secp
  import opened OtExtension
  import opened BaseOt
  import opened Ole
  import opened Lagrange
  import opened Keys
  import opened CrossTerms
  import opened SignEncoding

  datatype SignError =
    | NoKeys | WrongSignerCount | IndexOutOfRange | DuplicateIndex | EmptyHash | NotAMember | MissingPairs
    | RepeatedIdentifier | ZeroR | Multiplication(e: MulError) | ZeroPhi | ZeroS | VerificationFailed | AlreadyConsumed

  // ---------- choosing the signers ----------

  ghost predicate NoDup(s: seq<nat>) { forall a, b :: 0 <= a < b < |s| ==> s[a] != s[b] }

  /** What signing indexes without checking: one key per party, each with a slot for every party. */
  ghost predicate Usable(n: int, keys: seq<Key>) {
    && keys != [] && keys[0].parties <= |keys|
    && forall i :: 0 <= i < |keys| ==> KeyUsable(n, keys[i], keys)
  }

  ghost predicate KeyUsable(n: int, k: Key, keys: seq<Key>) {
    && k.idx < |k.partyIds| && 0 <= k.ecdsaPub < n
    && (forall j :: 0 <= j < |keys| ==> keys[j].idx < |k.ot|)
    && (forall j :: 0 <= j < |k.ot| && k.ot[j].Some? ==> k.ot[j].value.Valid())
  }

  /** The key of the party each key belongs to. */
  function PartyKeys(keys: seq<Key>): (ids: seq<nat>)
    requires Owned(keys)
    ensures |ids| == |keys| && forall i :: 0 <= i < |keys| ==> ids[i] == keys[i].partyIds[keys[i].idx]
  {
    seq(|keys|, i requires 0 <= i < |keys| => keys[i].partyIds[keys[i].idx])
  }

  ghost predicate Owned(keys: seq<Key>) { forall i :: 0 <= i < |keys| ==> keys[i].idx < |keys[i].partyIds| }

  ghost predicate Within(idxs: seq<nat>, count: nat) { forall a :: 0 <= a < |idxs| ==> idxs[a] < count }

  ghost predicate SortedBy(ids: seq<nat>, idxs: seq<nat>)
    requires Within(idxs, |ids|)
  {
    forall a, b :: 0 <= a < b < |idxs| ==> ids[idxs[a]] <= ids[idxs[b]]
  }

  function InsertBy(ids: seq<nat>, idxs: seq<nat>, x: nat): (r: seq<nat>)
    requires Within(idxs, |ids|) && x < |ids|
  {
    if idxs == [] || ids[x] < ids[idxs[0]] then [x] + idxs else [idxs[0]] + InsertBy(ids, idxs[1..], x)
  }

  lemma {:induction false} InsertByCorrect(ids: seq<nat>, idxs: seq<nat>, x: nat)
    requires Within(idxs, |ids|) && x < |ids| && SortedBy(ids, idxs)
    ensures var r := InsertBy(ids, idxs, x);
      multiset(r) == multiset(idxs) + multiset{x} && |r| == |idxs| + 1 && Within(r, |ids|) && SortedBy(ids, r)
  {
    if idxs != [] && ids[x] >= ids[idxs[0]] {
      assert idxs == [idxs[0]] + idxs[1..];
      InsertByCorrect(ids, idxs[1..], x);
      HeadIsLeast(ids, idxs, x, InsertBy(ids, idxs[1..], x));
    }
  }

  lemma HeadIsLeast(ids: seq<nat>, idxs: seq<nat>, x: nat, rest: seq<nat>)
    requires idxs != [] && Within(idxs, |ids|) && Within(rest, |ids|) && x < |ids| && SortedBy(ids, idxs)
    requires ids[idxs[0]] <= ids[x] && multiset(rest) == multiset(idxs[1..]) + multiset{x}
    ensures forall a :: 0 <= a < |rest| ==> ids[idxs[0]] <= ids[rest[a]]
  {
    forall a | 0 <= a < |rest| ensures ids[idxs[0]] <= ids[rest[a]] {
      assert rest[a] in multiset(rest);
      if rest[a] != x {
        assert rest[a] in idxs[1..];
        var b :| 0 <= b < |idxs| - 1 && idxs[1..][b] == rest[a];
        assert idxs[b + 1] == rest[a];
      }
    }
  }

  /** The signers in the order of their party keys. */
  function SortBy(ids: seq<nat>, idxs: seq<nat>): (r: seq<nat>)
    requires Within(idxs, |ids|)
    ensures multiset(r) == multiset(idxs) && |r| == |idxs| && Within(r, |ids|) && SortedBy(ids, r)
  {
    if idxs == [] then [] else
      assert idxs == [idxs[0]] + idxs[1..];
      var rest := SortBy(ids, idxs[1..]);
      InsertByCorrect(ids, rest, idxs[0]);
      InsertBy(ids, rest, idxs[0])
  }

  lemma {:induction false} CountOnce(s: seq<nat>, a: nat, b: nat)
    requires a < b < |s| && s[a] == s[b]
    ensures multiset(s)[s[a]] >= 2
  {
    assert s == s[..a] + [s[a]] + s[a + 1..b] + [s[b]] + s[b + 1..];
  }

  lemma {:induction false} NoDupCounts(s: seq<nat>, x: nat)
    requires NoDup(s)
    ensures multiset(s)[x] <= 1
  {
    if s != [] {
      assert s == [s[0]] + s[1..];
      NoDupCounts(s[1..], x);
      if x == s[0] { assert x !in s[1..]; }
    }
  }

  /** Reordering keeps the signers distinct. */
  lemma SortKeepsNoDup(s: seq<nat>, r: seq<nat>)
    requires NoDup(s) && multiset(r) == multiset(s)
    ensures NoDup(r)
  {
    forall a, b | 0 <= a < b < |r| ensures r[a] != r[b] {
      NoDupCounts(s, r[a]);
      if r[a] == r[b] { CountOnce(r, a, b); }
    }
  }

  /** The position of a party among the members, the first one with that key. */
  function PositionFrom(members: seq<nat>, id: nat, i: nat): (pos: Option<nat>)
    requires i <= |members|
    ensures pos == None <==> id !in members[i..]
    ensures pos.Some? ==> i <= pos.value < |members| && members[pos.value] == id && id !in members[i..pos.value]
    decreases |members| - i
  {
    if i == |members| then None
    else if members[i] == id then Some(i)
    else
      assert members[i..] == [members[i]] + members[i + 1..];
      var pos := PositionFrom(members, id, i + 1);
      assert pos.Some? ==> members[i..pos.value] == [members[i]] + members[i + 1..pos.value];
      pos
  }

  /** k holds the OT state for every one of these parties other than itself. */
  predicate Loaded(k: Key, id: nat): (loaded: bool)
    ensures loaded <==> exists p: nat ::
      && p < |k.partyIds| && k.partyIds[p] == id && id !in k.partyIds[..p]
      && (p == k.idx || (p < |k.ot| && k.ot[p].Some?))
  {
    var pos := PositionFrom(k.partyIds, id, 0);
    pos.Some? && (pos.value == k.idx || (pos.value < |k.ot| && k.ot[pos.value].Some?))
  }

  method RequirePairs(k: Key, signerIds: seq<nat>) returns (err: Option<SignError>)
    ensures err == None <==> HasAll(k, signerIds)
    ensures err.Some? ==> err.value == NotAMember || err.value == MissingPairs
    ensures err == Some(NotAMember) <==> exists a :: 0 <= a < |signerIds| && signerIds[a] !in k.partyIds
  {
    assert k.partyIds[0..] == k.partyIds;
    for a := 0 to |signerIds|
      invariant forall b :: 0 <= b < a ==> signerIds[b] in k.partyIds
    {
      if PositionFrom(k.partyIds, signerIds[a], 0) == None { return Some(NotAMember); }
    }
    for a := 0 to |signerIds|
      invariant forall b :: 0 <= b < a ==> Loaded(k, signerIds[b])
    {
      if !Loaded(k, signerIds[a]) { return Some(MissingPairs); }
    }
    return None;
  }

  function SignerKeys(keys: seq<Key>, order: seq<nat>): (signers: seq<Key>)
    requires Within(order, |keys|)
    ensures |signers| == |order| && forall a :: 0 <= a < |order| ==> signers[a] == keys[order[a]]
  {
    seq(|order|, a requires 0 <= a < |order| => keys[order[a]])
  }

  ghost predicate HasAll(k: Key, signerIds: seq<nat>) { forall a :: 0 <= a < |signerIds| ==> Loaded(k, signerIds[a]) }

  ghost predicate AllLoaded(signers: seq<Key>, signerIds: seq<nat>) {
    forall a :: 0 <= a < |signers| ==> HasAll(signers[a], signerIds)
  }

  ghost predicate GoodSubset(keys: seq<Key>, signerIdx: seq<nat>)
    requires keys != []
  {
    && |signerIdx| == keys[0].t + 1 && NoDup(signerIdx)
    && forall a :: 0 <= a < |signerIdx| ==> signerIdx[a] < keys[0].parties
  }

  /** The checks on the requested subset. */
  method CheckSubset(keys: seq<Key>, signerIdx: seq<nat>) returns (err: Option<SignError>)
    requires keys != []
    ensures err == None <==> GoodSubset(keys, signerIdx)
    ensures err.Some? ==> err.value in {WrongSignerCount, IndexOutOfRange, DuplicateIndex}
    ensures err == Some(WrongSignerCount) <==> |signerIdx| != keys[0].t + 1
  {
    if |signerIdx| != keys[0].t + 1 { return Some(WrongSignerCount); }
    for a := 0 to |signerIdx|
      invariant NoDup(signerIdx[..a]) && forall b :: 0 <= b < a ==> signerIdx[b] < keys[0].parties
    {
      if signerIdx[a] >= keys[0].parties { return Some(IndexOutOfRange); }
      if signerIdx[a] in signerIdx[..a] { return Some(DuplicateIndex); }
      assert signerIdx[..a + 1] == signerIdx[..a] + [signerIdx[a]];
    }
    assert signerIdx[..|signerIdx|] == signerIdx;
    return None;
  }

  /** Sorts the signers and makes sure every one holds the state for the others. */
  method ResolveSigners(keys: seq<Key>, signerIdx: seq<nat>) returns (err: Option<SignError>, order: seq<nat>)
    requires Owned(keys) && Within(signerIdx, |keys|)
    ensures order == SortBy(PartyKeys(keys), signerIdx)
    ensures err == None <==> AllLoaded(SignerKeys(keys, order), SignerIds(keys, order))
    ensures err.Some? ==> err.value == NotAMember || err.value == MissingPairs
  {
    hide *;
    order := SortBy(PartyKeys(keys), signerIdx);
    var signers, ids := SignerKeys(keys, order), SignerIds(keys, order);
    for a := 0 to |order|
      invariant forall b :: 0 <= b < a ==> HasAll(signers[b], ids)
    {
      err := RequirePairs(signers[a], ids);
      if err.Some? {
        NotAllLoaded(signers, ids, a);
        return;
      }
    }
    LoadedEverywhere(signers, ids);
    err := None;
  }

  lemma LoadedEverywhere(signers: seq<Key>, ids: seq<nat>)
    requires forall a :: 0 <= a < |signers| ==> HasAll(signers[a], ids)
    ensures AllLoaded(signers, ids)
  {
  }

  lemma NotAllLoaded(signers: seq<Key>, ids: seq<nat>, a: nat)
    requires a < |signers| && !HasAll(signers[a], ids)
    ensures !AllLoaded(signers, ids)
  {
  }

  function SignerIds(keys: seq<Key>, order: seq<nat>): (ids: seq<nat>)
    requires Owned(keys) && Within(order, |keys|)
    ensures |ids| == |order| && forall a :: 0 <= a < |order| ==> ids[a] == PartyKeys(keys)[order[a]]
  {
    seq(|order|, a requires 0 <= a < |order| => PartyKeys(keys)[order[a]])
  }

  // ---------- effective shares ----------

  function EffectiveShare(n: int, ids: seq<Scalar>, xs: seq<Scalar>, i: nat): (sx: Scalar)
    requires n > 0 && i < |ids| == |xs|
    ensures 0 <= sx < n
  {
    Weight(n, ids, i) * xs[i] % n
  }

  /** sx_i = lambda_i * x_i */
  method EffectiveShares(n: int, ids: seq<Scalar>, xs: seq<Scalar>) returns (res: Result<seq<Scalar>, SignError>)
    requires n > 0 && |ids| == |xs|
    ensures res.Err? ==> res.error == RepeatedIdentifier && !Distinct(n, ids)
    ensures res.Ok? ==> |res.value| == |ids| && forall i :: 0 <= i < |ids| ==>
      res.value[i] == EffectiveShare(n, ids, xs, i)
  {
    hide Weight, Cong;
    var sx: seq<Scalar> := [];
    for i := 0 to |ids|
      invariant |sx| == i && forall k :: 0 <= k < i ==> sx[k] == EffectiveShare(n, ids, xs, k)
    {
      var lam := LagrangeCoefficient(n, ids, i);
      if lam.Err? {
        Repeated(n, ids, i);
        return Err(RepeatedIdentifier);
      }
      ScaledIs(n, lam.value, Weight(n, ids, i), xs[i]);
      sx := sx + [FMul(n, lam.value, xs[i])];
    }
    return Ok(sx);
  }

  lemma Repeated(n: int, ids: seq<int>, i: nat)
    requires n > 0 && i < |ids| && exists j :: 0 <= j < |ids| && j != i && Cong(ids[j], ids[i], n)
    ensures !Distinct(n, ids)
  {
    var j :| 0 <= j < |ids| && j != i && Cong(ids[j], ids[i], n);
    CongFlip(ids[j], ids[i], n);
  }

  lemma {:induction false} EffectiveTotal(n: int, ids: seq<Scalar>, xs: seq<Scalar>, sx: seq<Scalar>, k: nat)
    requires n > 0 && |ids| == |xs| == |sx| && k <= |ids|
    requires forall i :: 0 <= i < |ids| ==> sx[i] == EffectiveShare(n, ids, xs, i)
    ensures Cong(Sum(sx, k), WeightedSum(n, ids, xs, k), n)
  {
    hide Weight;
    if k > 0 {
      EffectiveTotal(n, ids, xs, sx, k - 1);
      var w := Weight(n, ids, k - 1) * xs[k - 1];
      CongMod(w, n);
      CongAdd(Sum(sx, k - 1), WeightedSum(n, ids, xs, k - 1), w % n, w, n);
    }
  }

  /** The first signer absorbs the tweak. */
  function Tweaked(n: int, sx: seq<Scalar>, tweak: Option<Scalar>): (r: seq<Scalar>)
    requires n > 0 && sx != []
    ensures |r| == |sx|
  {
    match tweak case None => sx case Some(tw) => sx[0 := FAdd(n, sx[0], tw)]
  }

  function TweakValue(tweak: Option<Scalar>): Scalar { match tweak case None => 0 case Some(tw) => tw }

  lemma TweakedTotal(n: int, sx: seq<Scalar>, tweak: Option<Scalar>)
    requires n > 0 && sx != []
    ensures Cong(Total(Tweaked(n, sx, tweak)), Total(sx) + TweakValue(tweak), n)
  {
    match tweak
    case None =>
    case Some(tw) =>
      SumUpdate(sx, 0, FAdd(n, sx[0], tw), |sx|);
      FieldOps(n, sx[0], tw);
      CongSub(FAdd(n, sx[0], tw), sx[0] + tw, sx[0], sx[0], n);
      CongAdd(Total(sx), Total(sx), FAdd(n, sx[0], tw) - sx[0], tw, n);
  }

  // ---------- assembling the signature ----------

  /** sum of rho_i * e + r * sigma_i */
  method SumSignatureShares(n: int, rho: seq<Scalar>, sigma: seq<Scalar>, e: Scalar, r: Scalar) returns (total: Scalar)
    requires n > 0 && |rho| == |sigma|
    ensures 0 <= total < n && Cong(total, Total(rho) * e + r * Total(sigma), n)
  {
    hide Cong;
    total := 0;
    SmallMod(0, n);
    ghost var sum := 0;
    for i := 0 to |rho|
      invariant 0 <= total == sum % n && sum == Sum(rho, i) * e + r * Sum(sigma, i)
    {
      var share := FAdd(n, FMul(n, rho[i], e), FMul(n, r, sigma[i]));
      ShareStep(n, rho[i], e, r, sigma[i]);
      SumStep(n, total, sum, share, rho[i] * e + r * sigma[i]);
      total := FAdd(n, total, share);
      SumsIdentity(Sum(rho, i), rho[i], e, r, Sum(sigma, i), sigma[i]);
      sum := sum + (rho[i] * e + r * sigma[i]);
    }
    CongMod(sum, n);
  }

  lemma SumsIdentity(a: int, b: int, e: int, r: int, c: int, d: int)
    ensures (a * e + r * c) + (b * e + r * d) == (a + b) * e + r * (c + d)
  {
  }

  lemma ShareStep(n: int, rho: int, e: int, r: int, sigma: int)
    requires n > 0
    ensures Cong(FAdd(n, FMul(n, rho, e), FMul(n, r, sigma)), rho * e + r * sigma, n)
  {
    var a, b := FMul(n, rho, e), FMul(n, r, sigma);
    FieldOps(n, rho, e);
    FieldOps(n, r, sigma);
    FieldOps(n, a, b);
    CongAdd(a, rho * e, b, r * sigma, n);
    CongTrans(FAdd(n, a, b), a + b, rho * e + r * sigma, n);
  }

  /** The values an honest run hands to the last step: phi = k*rho and sigma = rho*(e + r*x). */
  ghost predicate HonestSums(c: Curve, verifyPub: Point, rPoint: Point, r: Scalar, e: Scalar, phi: Scalar,
    sigma: Scalar,
    rho: int, x: int)
    requires c.n > 0
  {
    && 0 <= rPoint < c.n && r == c.XScalar(rPoint) && 0 <= phi < c.n && 0 <= sigma < c.n
    && Cong(phi, rPoint * rho, c.n) && Cong(sigma, rho * (e + r * x), c.n) && Cong(verifyPub, x, c.n)
  }

  ghost predicate GoodSignature(c: Curve, pub: Point, e: Scalar, g: Signature)
    requires c.n > 0
  {
    && EcdsaVerify(c, pub, e, g.r, g.s) && Sec1Verify(c, pub, e, g.r, g.s) && !IsHighS(c.n, g.s)
    && g.v == c.yOdd(RecoveredPoint(c, pub, e, g.r, g.s))
  }

  /** From the sums to the signature. Whatever the sums, a signature that comes out verifies and is low-S. For
      honest sums with r non-zero the verification never fails: the only failures are rho = 0 and
      e + r*x = 0, and the recovery bit is the parity of the recomputed point. */
  method Finish(c: Curve, verifyPub: Point, rPoint: Point, r: Scalar, e: Scalar, phi: Scalar, sigma: Scalar,
    ghost rho: int, ghost x: int) returns (res: Result<Signature, SignError>)
    requires c.Valid()
    ensures res.Ok? ==>
      EcdsaVerify(c, verifyPub, e, res.value.r, res.value.s) && res.value.r == r && !IsHighS(c.n, res.value.s)
    ensures res.Ok? ==> res.value == Normalize(c, rPoint, r, FMul(c.n, sigma, Inv(c.n, phi)))
    ensures res.Err? ==> res.error in {ZeroPhi, ZeroS, VerificationFailed}
    ensures HonestSums(c, verifyPub, rPoint, r, e, phi, sigma, rho, x) && r != 0 ==>
      && (res.Ok? <==> !Cong(rho, 0, c.n) && !Cong(e + r * x, 0, c.n))
      && (res == Err(ZeroPhi) <==> Cong(rho, 0, c.n))
      && res != Err(VerificationFailed)
      && (res.Ok? ==> GoodSignature(c, verifyPub, e, res.value))
  {
    hide Cong, EcdsaVerify, Sec1Verify, Inv;
    var n := c.n;
    ghost var honest := HonestSums(c, verifyPub, rPoint, r, e, phi, sigma, rho, x) && r != 0;
    if honest { PhiZero(c, verifyPub, rPoint, r, e, phi, sigma, rho, x); }
    if phi == 0 { return Err(ZeroPhi); }
    var s := FMul(n, sigma, Inv(n, phi));
    if honest { SignatureScalar(c, verifyPub, rPoint, r, e, phi, sigma, rho, x, s); }
    if s == 0 { return Err(ZeroS); }
    var v := c.yOdd(rPoint);
    ghost var original := s;
    if IsHighS(n, s) {
      NegatedIsLow(n, s);
      s := FNeg(n, s);
      v := !v;
    }
    if honest { NormalizedVerifies(c, rPoint, verifyPub, e, r, original, x); }
    if !EcdsaVerify(c, verifyPub, e, r, s) { return Err(VerificationFailed); }
    return Ok(Signature(r, s, v));
  }

  lemma NegatedIsLow(n: int, s: int)
    requires 0 < s < n && IsHighS(n, s)
    ensures FNeg(n, s) == n - s && !IsHighS(n, FNeg(n, s))
  {
    ModUnique(-s, -1, n - s, n);
  }

  lemma PhiZero(c: Curve, verifyPub: Point, rPoint: Point, r: Scalar, e: Scalar, phi: Scalar, sigma: Scalar, rho: int,
    x: int)
    requires c.Valid() && HonestSums(c, verifyPub, rPoint, r, e, phi, sigma, rho, x) && r != 0
    ensures phi == 0 <==> Cong(rho, 0, c.n)
    ensures 0 < rPoint
  {
    var n := c.n;
    SmallMod(0, n);
    SmallMod(phi, n);
    SmallMod(rPoint, n);
    assert rPoint != 0;
    if phi == 0 { PrimeProduct(n, rPoint, rho); }
    if Cong(rho, 0, n) { CongScale(rPoint, rho, 0, n); }
  }

  lemma SignatureScalar(c: Curve, verifyPub: Point, rPoint: Point, r: Scalar, e: Scalar, phi: Scalar, sigma: Scalar,
    rho: int, x: int, s: Scalar)
    requires c.Valid() && HonestSums(c, verifyPub, rPoint, r, e, phi, sigma, rho, x) && r != 0 && phi != 0
    requires s == FMul(c.n, sigma, Inv(c.n, phi))
    ensures s == 0 <==> Cong(e + r * x, 0, c.n)
    ensures Cong(s * rPoint, e + r * x, c.n)
  {
    var n := c.n;
    PhiZero(c, verifyPub, rPoint, r, e, phi, sigma, rho, x);
    SmallMod(phi, n);
    SmallMod(0, n);
    InvCorrect(n, phi);
    PrimeCoprime(n, rho);
    hide Inv, IsPrime, Coprime;
    ScalarEquation(n, s, rPoint, rho, e + r * x, phi, sigma, Inv(n, phi));
    ZeroTransfer(n, s, rPoint, e + r * x);
  }

  lemma ScalarEquation(n: int, s: int, k: int, rho: int, m: int, phi: int, sigma: int, w: int)
    requires n > 0 && Coprime(rho, n) && Cong(phi, k * rho, n) && Cong(sigma, rho * m, n) && Cong(phi * w, 1, n)
    requires s == FMul(n, sigma, w)
    ensures Cong(s * k, m, n)
  {
    hide *;
    FieldOps(n, sigma, w);
    CongScale(phi, s, sigma * w, n);
    CongScale(sigma, phi * w, 1, n);
    ScalarIdentity(s, phi, sigma, w);
    CongTrans(phi * s, sigma * (phi * w), sigma * 1, n);
    CongScale(s, phi, k * rho, n);
    CongTrans(s * (k * rho), s * phi, sigma * 1, n) by { CongFlip(s * phi, s * (k * rho), n); }
    CongTrans(s * (k * rho), sigma * 1, rho * m, n);
    RhoIdentity(s, k, rho);
    CancelCoprime(rho, s * k, m, n);
  }

  lemma ScalarIdentity(s: int, phi: int, sigma: int, w: int)
    ensures phi * (sigma * w) == sigma * (phi * w) && phi * s == s * phi && sigma * 1 == sigma
  {
  }

  lemma RhoIdentity(s: int, k: int, rho: int)
    ensures s * (k * rho) == rho * (s * k)
  {
  }

  lemma ZeroTransfer(n: int, s: Scalar, k: Point, m: int)
    requires IsPrime(n) && 0 <= s < n && 0 < k < n && Cong(s * k, m, n)
    ensures s == 0 <==> Cong(m, 0, n)
  {
    SmallMod(0, n);
    SmallMod(s, n);
    SmallMod(k, n);
    if s == 0 { assert 0 * k == 0; }
    if Cong(m, 0, n) { PrimeProduct(n, s, k); }
  }

  // ---------- one signing session ----------

  /** The random draws of a session: its nonce, each signer's k and rho, the multiplication pads. */
  datatype SignDraws = SignDraws(nonce: bytes, k: nat -> Scalar, rho: nat -> Scalar, mul: MulDraws) {
    ghost predicate Valid(n: int) {
      mul.Valid() && forall i :: 0 <= k(i) < n && 0 <= rho(i) < n
    }

    function Ks(count: nat): (ks: seq<Scalar>)
      ensures |ks| == count && forall i :: 0 <= i < count ==> ks[i] == k(i)
    {
      seq(count, i requires 0 <= i < count => k(i))
    }

    function Rhos(count: nat): (rhos: seq<Scalar>)
      ensures |rhos| == count && forall i :: 0 <= i < count ==> rhos[i] == rho(i)
    {
      seq(count, i requires 0 <= i < count => rho(i))
    }
  }

  lemma DrawsInField(n: int, draws: SignDraws, count: nat)
    requires draws.Valid(n)
    ensures InField(n, draws.Ks(count)) && draws.mul.Valid()
  {
  }

  /** R = sum of k_i*G */
  method NoncePoint(n: int, ks: seq<Scalar>) returns (rPoint: Point)
    requires n > 0 && ks != [] && InField(n, ks)
    ensures rPoint == Total(ks) % n
  {
    var bigK := seq(|ks|, i requires 0 <= i < |ks| => MulBase(n, ks[i]));
    forall i | 0 <= i < |ks| ensures bigK[i] == ks[i] { SmallMod(ks[i], n); }
    rPoint := bigK[0];
    assert Sum(ks, 1) == Sum(ks, 0) + ks[0];
    for i := 1 to |bigK|
      invariant rPoint == Sum(ks, i) % n
    {
      SumStep(n, rPoint, Sum(ks, i), bigK[i], ks[i]);
      rPoint := PointAdd(n, rPoint, bigK[i]);
    }
  }

  datatype SessionResult = SessionResult(rPoint: Point, r: Scalar, rho: seq<Scalar>, kRho: seq<Scalar>,
    xRho: seq<Scalar>)

  /** The nonces, the point R and the shares of k*rho and x*rho. */
  method Session(o: Oracle, c: Curve, checked: bool, sidOf: (bool, nat, nat) -> bytes, signers: seq<Key>,
    sx: seq<Scalar>,
    draws: SignDraws) returns (res: Result<SessionResult, SignError>)
    requires c.Valid() && o.Valid() && draws.Valid(c.n) && 0 < |signers| == |sx| && Slots(signers) && InField(c.n, sx)
    requires FreshSids(sidOf)
    ensures var rPoint := Total(draws.Ks(|signers|)) % c.n;
      && (res == Err(ZeroR) <==> c.XScalar(rPoint) == 0)
      && (res.Ok? ==>
        res.value.rPoint == rPoint && res.value.r == c.XScalar(rPoint) && res.value.rho == draws.Rhos(|signers|))
    ensures res.Ok? ==> |res.value.kRho| == |res.value.xRho| == |signers|
    ensures res.Err? ==> res.error == ZeroR || res.error.Multiplication?
    ensures checked && res.Ok? ==>
      CheckedUpTo(o, c.n, sidOf, signers, draws.Ks(|signers|), sx, draws.Rhos(|signers|), |signers|, 0)
    ensures PairsReady(signers) && FitsScalar(c.n) ==>
      && (res.Ok? || res == Err(ZeroR))
      && (res.Ok? ==> Cong(Total(res.value.kRho), Total(draws.Ks(|signers|)) * Total(draws.Rhos(|signers|)), c.n))
      && (res.Ok? ==> Cong(Total(res.value.xRho), Total(sx) * Total(draws.Rhos(|signers|)), c.n))
  {
    var n := c.n;
    PositiveOrder(c);
    hide Cong, Total, PairsReady, Slots, FitsScalar, CheckedUpTo, FreshSids;
    var ks, rho := draws.Ks(|signers|), draws.Rhos(|signers|);
    DrawsInField(n, draws, |signers|);
    var rPoint := NoncePoint(n, ks);
    var r := c.XScalar(rPoint);
    if r == 0 { return Err(ZeroR); }
    var shares := CrossShares(o, n, checked, sidOf, signers, ks, sx, rho, draws.mul);
    if shares.Err? { return Err(Multiplication(shares.error)); }
    return Ok(SessionResult(rPoint, r, rho, shares.value.0, shares.value.1));
  }

  lemma PositiveOrder(c: Curve)
    requires c.Valid()
    ensures c.n >= 2 && IsPrime(c.n)
  {
  }

  // ---------- committees that share a key ----------

  lemma {:induction false} PositionIsFirst(members: seq<nat>, i: nat)
    requires i < |members| && forall a, b :: 0 <= a < b < |members| ==> members[a] != members[b]
    ensures PositionFrom(members, members[i], 0) == Some(i)
  {
    var pos := PositionFrom(members, members[i], 0);
    assert members[0..][i] == members[i];
    assert pos.Some?;
  }

  lemma MembersDiffer(n: int, partyIds: seq<nat>)
    requires n > 0 && Distinct(n, Ids(n, partyIds))
    ensures forall a, b :: 0 <= a < b < |partyIds| ==> partyIds[a] != partyIds[b]
  {
    forall a, b | 0 <= a < b < |partyIds| ensures partyIds[a] != partyIds[b] {
      var ids := Ids(n, partyIds);
      assert !Cong(ids[a], ids[b], n);
    }
  }

  function SharesInOrder(keys: seq<Key>, order: seq<nat>): (xs: seq<Scalar>)
    requires Within(order, |keys|)
    ensures |xs| == |order| && forall a :: 0 <= a < |order| ==> xs[a] == keys[order[a]].xi
  {
    seq(|order|, a requires 0 <= a < |order| => keys[order[a]].xi)
  }

  /** The signers of a sharing, in order: members of the committee, each once. */
  lemma OrderedSubset(n: int, keys: seq<Key>, signerIdx: seq<nat>, order: seq<nat>)
    requires Usable(n, keys) && GoodSubset(keys, signerIdx) && Within(signerIdx, |keys|) && Owned(keys)
    requires order == SortBy(PartyKeys(keys), signerIdx)
    ensures Within(order, |keys|) && NoDup(order) && Subset(order, |keys|) && |order| == keys[0].t + 1
  {
    hide SortedBy, PartyKeys;
    SortKeepsNoDup(signerIdx, order);
  }

  lemma SignersLoaded(n: int, keys: seq<Key>, secret: int, order: seq<nat>)
    requires n > 0 && Sharing(n, keys, secret) && Owned(keys) && Within(order, |keys|)
    ensures AllLoaded(SignerKeys(keys, order), SignerIds(keys, order))
  {
    var signers, ids := SignerKeys(keys, order), SignerIds(keys, order);
    SharingIds(n, keys, secret, order);
    hide *;
    forall a | 0 <= a < |signers| ensures HasAll(signers[a], ids) {
      forall b | 0 <= b < |ids| ensures Loaded(signers[a], ids[b]) {
        OrderBound(order, |keys|, a);
        OrderBound(order, |keys|, b);
        SignerLoaded(n, keys, secret, order[a], order[b]);
      }
      HasAllIntro(signers[a], ids);
    }
    LoadedEverywhere(signers, ids);
  }

  lemma HasAllIntro(k: Key, ids: seq<nat>)
    requires forall b :: 0 <= b < |ids| ==> Loaded(k, ids[b])
    ensures HasAll(k, ids)
  {
  }

  lemma OrderBound(order: seq<nat>, count: nat, a: nat)
    requires Within(order, count) && a < |order|
    ensures order[a] < count
  {
  }

  /** The signers' ids and shares are the committee's, picked in order. */
  lemma SharingIds(n: int, keys: seq<Key>, secret: int, order: seq<nat>)
    requires n > 0 && Sharing(n, keys, secret) && Owned(keys) && Within(order, |keys|)
    ensures |keys[0].partyIds| == |keys| && forall a :: 0 <= a < |order| ==> order[a] < |keys|
    ensures forall a :: 0 <= a < |order| ==> SignerIds(keys, order)[a] == keys[0].partyIds[order[a]]
    ensures Ids(n, SignerIds(keys, order)) == Picked(Ids(n, keys[0].partyIds), order)
    ensures SharesInOrder(keys, order) == Picked(Shares(keys), order)
  {
    hide Cong, SharesOf, Distinct, AllPairsMatch;
    forall a | 0 <= a < |order| ensures SignerIds(keys, order)[a] == keys[0].partyIds[order[a]] {
      var i := order[a];
      assert keys[i] == keys[0].(idx := i, xi := keys[i].xi, ot := keys[i].ot);
    }
    assert Ids(n, SignerIds(keys, order)) == Picked(Ids(n, keys[0].partyIds), order);
  }

  lemma SignerLoaded(n: int, keys: seq<Key>, secret: int, i: nat, j: nat)
    requires n > 0 && Sharing(n, keys, secret) && i < |keys| && j < |keys|
    ensures |keys[0].partyIds| == |keys| && Loaded(keys[i], keys[0].partyIds[j])
  {
    hide Cong, SharesOf, PositionFrom;
    MembersDiffer(n, keys[0].partyIds);
    PositionIsFirst(keys[0].partyIds, j);
    if i != j {
      assert PairMatches(OtRows(keys)[i][j], OtRows(keys)[j][i]);
    }
  }

  lemma ReadyPairs(n: int, keys: seq<Key>, secret: int, order: seq<nat>)
    requires n > 0 && Sharing(n, keys, secret) && Within(order, |keys|) && NoDup(order)
    ensures Slots(SignerKeys(keys, order)) && PairsReady(SignerKeys(keys, order))
  {
    hide Cong, SharesOf, Distinct;
    var signers := SignerKeys(keys, order);
    forall a, b | 0 <= a < |signers| && 0 <= b < |signers|
      ensures signers[b].idx < |signers[a].ot| && signers[a].idx < |signers[b].ot|
      ensures a != b ==> PairMatches(signers[a].ot[signers[b].idx], signers[b].ot[signers[a].idx])
      ensures signers[a].ot[signers[b].idx].Some? ==> signers[a].ot[signers[b].idx].value.Valid()
    {
      var i, j := order[a], order[b];
      assert OtRows(keys)[i] == keys[i].ot;
      if a != b {
        assert i != j by { if a < b { assert order[a] != order[b]; } else { assert order[b] != order[a]; } }
        assert PairMatches(OtRows(keys)[i][j], OtRows(keys)[j][i]);
      } else {
        assert OtRows(keys)[i][i] == None;
      }
    }
  }

  // ---------- sign_core ----------

  const SIGN_PREFIX: bytes := [0x44, 0x4b, 0x4c, 0x53, 0x32, 0x33, 0x2d, 0x73, 0x69, 0x67, 0x6e, 0x2d, 0x76, 0x31, 0x2d]
  const CHECKED_PREFIX: bytes := [0x44, 0x4b, 0x4c, 0x53, 0x32, 0x33, 0x2d, 0x73, 0x69, 0x67, 0x6e, 0x63, 0x68, 0x65,
    0x63, 0x6b, 0x65, 0x64, 0x2d, 0x76, 0x31, 0x2d]
  const KIND_K: bytes := [0x6b, 0x78, 0x72, 0x68, 0x6f]
  const KIND_X: bytes := [0x78, 0x78, 0x72, 0x68, 0x6f]
  const CHECKED_KIND_K: bytes := [0x73, 0x69, 0x67, 0x6e, 0x63, 0x68, 0x65, 0x63, 0x6b, 0x65, 0x64, 0x2d, 0x6b, 0x78,
    0x72, 0x68, 0x6f]
  const CHECKED_KIND_X: bytes := [0x73, 0x69, 0x67, 0x6e, 0x63, 0x68, 0x65, 0x63, 0x6b, 0x65, 0x64, 0x2d, 0x78, 0x78,
    0x72, 0x68, 0x6f]

  function VerifyKey(n: int, pub: Point, tweak: Option<Scalar>): Point
    requires n > 0
  {
    match tweak case None => pub case Some(tw) => PointAdd(n, pub, MulBase(n, tw))
  }

  lemma VerifyKeyLog(n: int, pub: Point, tweak: Option<Scalar>)
    requires n > 0
    ensures Cong(VerifyKey(n, pub, tweak), pub + TweakValue(tweak), n)
  {
    match tweak
    case None =>
    case Some(tw) =>
      FieldOps(n, tw, 0);
      FieldOps(n, pub, MulBase(n, tw));
      CongAdd(pub, pub, MulBase(n, tw), tw, n);
      CongTrans(VerifyKey(n, pub, tweak), pub + MulBase(n, tw), pub + tw, n);
  }

  /** When a session with these draws produces a signature: R has a non-zero x-coordinate, the masks do not
      cancel and the signing equation is not zero. */
  ghost predicate Fortunate(c: Curve, draws: SignDraws, count: nat, e: Scalar, x: int)
    requires c.n > 0
  {
    var r := c.XScalar(Total(draws.Ks(count)) % c.n);
    r != 0 && !Cong(Total(draws.Rhos(count)), 0, c.n) && !Cong(e + r * x, 0, c.n)
  }

  /** The sums of an honest session are those of the signing equation. */
  lemma SessionIsHonest(c: Curve, s: SessionResult, ks: seq<Scalar>, sx: seq<Scalar>, verifyPub: Point, e: Scalar,
    phi: Scalar, sigma: Scalar, x: int)
    requires c.Valid() && s.rPoint == Total(ks) % c.n && s.r == c.XScalar(s.rPoint)
    requires Cong(Total(s.kRho), Total(ks) * Total(s.rho), c.n) && Cong(Total(s.xRho), Total(sx) * Total(s.rho), c.n)
    requires phi == Total(s.kRho) % c.n && 0 <= sigma < c.n
    requires Cong(sigma, Total(s.rho) * e + s.r * Total(s.xRho), c.n)
    requires Cong(Total(sx), x, c.n) && Cong(verifyPub, x, c.n)
    ensures HonestSums(c, verifyPub, s.rPoint, s.r, e, phi, sigma, Total(s.rho), x)
  {
    PositiveOrder(c);
    CongMod(Total(ks), c.n);
    CongMod(Total(s.kRho), c.n);
    hide *;
    SumsAlgebra(c.n, Total(ks), s.rPoint, Total(s.rho), Total(s.kRho), phi, Total(s.xRho), Total(sx), x, e, s.r, sigma);
    HonestIntro(c, verifyPub, s, e, phi, sigma, Total(s.rho), x);
  }

  lemma HonestIntro(c: Curve, verifyPub: Point, s: SessionResult, e: Scalar, phi: Scalar, sigma: Scalar, rho: int,
    x: int)
    requires c.n > 0 && 0 <= s.rPoint < c.n && s.r == c.XScalar(s.rPoint) && 0 <= phi < c.n && 0 <= sigma < c.n
    requires Cong(phi, s.rPoint * rho, c.n) && Cong(sigma, rho * (e + s.r * x), c.n) && Cong(verifyPub, x, c.n)
    ensures HonestSums(c, verifyPub, s.rPoint, s.r, e, phi, sigma, rho, x)
  {
  }

  lemma SumsAlgebra(n: int, k: int, rPoint: int, rho: int, kRho: int, phi: int, xRho: int, sx: int, x: int, e: int,
    r: int, sigma: int)
    requires n > 0 && Cong(rPoint, k, n) && Cong(phi, kRho, n) && Cong(kRho, k * rho, n) && Cong(xRho, sx * rho, n)
    requires Cong(sx, x, n)
    requires Cong(sigma, rho * e + r * xRho, n)
    ensures Cong(phi, rPoint * rho, n) && Cong(sigma, rho * (e + r * x), n)
  {
    hide *;
    CongScale(rho, rPoint, k, n);
    CongTrans(phi, kRho, k * rho, n);
    CongTrans(phi, k * rho, rPoint * rho, n);
    CongScale(rho, sx, x, n);
    CongTrans(xRho, sx * rho, x * rho, n);
    CongScale(r, xRho, x * rho, n);
    CongSelf(rho * e, n);
    CongAdd(rho * e, rho * e, r * xRho, r * (x * rho), n);
    CongTrans(sigma, rho * e + r * xRho, rho * e + r * (x * rho), n);
    RegroupSigma(rho, e, r, x);
  }

  lemma RegroupSigma(rho: int, e: int, r: int, x: int)
    ensures rho * e + r * (x * rho) == rho * (e + r * x)
  {
    assert r * (x * rho) == rho * (r * x);
  }

  /** Sorted signers and their effective shares. For a sharing nothing fails, every pair of signers holds
      matching OT state and the effective shares add up to the secret. */
  method PrepareSigners(n: int, keys: seq<Key>, signerIdx: seq<nat>)
    returns (err: Option<SignError>, order: seq<nat>, sx: seq<Scalar>)
    requires IsPrime(n) && Usable(n, keys) && GoodSubset(keys, signerIdx)
    ensures Within(order, |keys|) && |order| == keys[0].t + 1 && Slots(SignerKeys(keys, order))
    ensures multiset(order) == multiset(signerIdx)
    ensures err.Some? ==> err.value in {NotAMember, MissingPairs, RepeatedIdentifier}
    ensures err == None ==> |sx| == |order| && InField(n, sx)
    ensures Sharing(n, keys, keys[0].ecdsaPub) ==>
      err == None && PairsReady(SignerKeys(keys, order)) && Cong(Total(sx), keys[0].ecdsaPub, n)
  {
    UsableOwned(n, keys);
    PrimeIsPositive(n);
    SubsetWithin(n, keys, signerIdx);
    ghost var pub := keys[0].ecdsaPub;
    ghost var sharing := Sharing(n, keys, pub);
    hide *;
    err, order := ResolveSigners(keys, signerIdx);
    OrderedSubset(n, keys, signerIdx, order);
    SlotsOf(n, keys, order);
    sx := [];
    if sharing {
      SignersLoaded(n, keys, pub, order);
      ReadyPairs(n, keys, pub, order);
      SharingIds(n, keys, pub, order);
      DistinctSigners(n, keys, pub, order);
    }
    if err.Some? { return; }
    var ids, xs := Ids(n, SignerIds(keys, order)), SharesInOrder(keys, order);
    var effective := EffectiveShares(n, ids, xs);
    if effective.Err? { return Some(effective.error), order, sx; }
    sx := effective.value;
    EffectiveField(n, ids, xs, sx);
    if sharing {
      EffectiveTotal(n, ids, xs, sx, |sx|);
      SecretOfSigners(n, keys, order, ids, xs, sx);
    }
  }

  lemma PrimeIsPositive(n: int)
    requires IsPrime(n)
    ensures n >= 2
  {
  }

  lemma DistinctSigners(n: int, keys: seq<Key>, secret: int, order: seq<nat>)
    requires n > 0 && Sharing(n, keys, secret) && Subset(order, |keys|) && |keys[0].partyIds| == |keys|
    ensures forall a :: 0 <= a < |order| ==> order[a] < |keys|
    ensures Distinct(n, Picked(Ids(n, keys[0].partyIds), order))
  {
    hide Cong, SharesOf, AllPairsMatch;
    PickedDistinct(n, Ids(n, keys[0].partyIds), order);
  }

  lemma SecretOfSigners(n: int, keys: seq<Key>, order: seq<nat>, ids: seq<Scalar>, xs: seq<Scalar>, sx: seq<Scalar>)
    requires IsPrime(n) && keys != [] && Sharing(n, keys, keys[0].ecdsaPub) && Subset(order, |keys|)
    requires |order| > keys[0].t
    requires |keys[0].partyIds| == |keys| && (forall a :: 0 <= a < |order| ==> order[a] < |keys|)
    requires ids == Picked(Ids(n, keys[0].partyIds), order) && xs == Picked(Shares(keys), order) && |sx| == |ids|
    requires Cong(Sum(sx, |sx|), WeightedSum(n, ids, xs, |sx|), n)
    ensures Cong(Total(sx), keys[0].ecdsaPub, n)
  {
    TotalIs(sx);
    PrimeIsPositive(n);
    hide *;
    QuorumOfKeys(n, keys, keys[0].ecdsaPub, order);
    CongTrans(Total(sx), WeightedSum(n, ids, xs, |ids|), keys[0].ecdsaPub, n);
  }

  lemma EffectiveField(n: int, ids: seq<Scalar>, xs: seq<Scalar>, sx: seq<Scalar>)
    requires n > 0 && |ids| == |xs| == |sx|
    requires forall i :: 0 <= i < |ids| ==> sx[i] == EffectiveShare(n, ids, xs, i)
    ensures InField(n, sx)
  {
  }

  lemma TweakedField(n: int, sx: seq<Scalar>, tweak: Option<Scalar>)
    requires n > 0 && InField(n, sx) && sx != []
    ensures InField(n, Tweaked(n, sx, tweak))
  {
  }

  lemma TweakedSecret(n: int, sx: seq<Scalar>, tweak: Option<Scalar>, pub: Point)
    requires n > 0 && sx != [] && Cong(Total(sx), pub, n)
    ensures Cong(Total(Tweaked(n, sx, tweak)), pub + TweakValue(tweak), n)
  {
    hide *;
    var tw := TweakValue(tweak);
    CongSelf(tw, n);
    CongAdd(Total(sx), pub, tw, tw, n);
    TweakedTotal(n, sx, tweak);
    CongTrans(Total(Tweaked(n, sx, tweak)), Total(sx) + tw, pub + tw, n);
  }

  /** What a signing request must satisfy besides lucky draws. */
  ghost predicate Outcome(c: Curve, keys: seq<Key>, signerIdx: seq<nat>, tweak: Option<Scalar>, hash: bytes,
    draws: SignDraws,
    res: Result<Signature, SignError>)
    requires c.n > 0 && keys != []
  {
    var e, x := HashToScalar(c.n, hash), keys[0].ecdsaPub + TweakValue(tweak);
    && (res.Ok? <==> GoodSubset(keys, signerIdx) && hash != [] && Fortunate(c, draws, keys[0].t + 1, e, x))
    && (res.Err? ==> res.error in {WrongSignerCount, IndexOutOfRange, DuplicateIndex, EmptyHash, ZeroR, ZeroPhi, ZeroS})
    && (res.Ok? ==> GoodSignature(c, VerifyKey(c.n, keys[0].ecdsaPub, tweak), e, res.value))
  }

  /** The ids of one session's multiplications. */
  function SessionSids(nonce: bytes, checked: bool, hash: bytes): (bool, nat, nat) -> bytes {
    var ssid := (if checked then CHECKED_PREFIX else SIGN_PREFIX) + nonce + [SEPARATOR] + hash;
    var kindK, kindX := if checked then CHECKED_KIND_K else KIND_K, if checked then CHECKED_KIND_X else KIND_X;
    (forX: bool, a: nat, b: nat) => MakeSid(ssid, if forX then kindX else kindK, a, b)
  }

  /** They differ from each other, and those of a checked session from those of an unchecked one. */
  lemma SessionSidsFresh(nonce: bytes, checked: bool, hash: bytes)
    ensures FreshSids(SessionSids(nonce, checked, hash))
  {
    hide MakeSid;
    var ssid := (if checked then CHECKED_PREFIX else SIGN_PREFIX) + nonce + [SEPARATOR] + hash;
    forall x, x', a, b, a', b' |
      && a < 0x1_0000_0000 && b < 0x1_0000_0000 && a' < 0x1_0000_0000 && b' < 0x1_0000_0000
      && SessionSids(nonce, checked, hash)(x, a, b) == SessionSids(nonce, checked, hash)(x', a', b')
      ensures x == x' && a == a' && b == b'
    {
      var kind, kind' :=
        if checked then (if x then CHECKED_KIND_X else CHECKED_KIND_K) else (if x then KIND_X else KIND_K),
        if checked then (if x' then CHECKED_KIND_X else CHECKED_KIND_K) else (if x' then KIND_X else KIND_K);
      MakeSidInjective(ssid, kind, a, b, kind', a', b');
      assert KIND_X[0] != KIND_K[0] && CHECKED_KIND_X[12] != CHECKED_KIND_K[12];
    }
  }

  lemma SessionsApart(nonce: bytes, hash: bytes, x: bool, a: nat, b: nat, nonce': bytes, hash': bytes, x': bool,
    a': nat, b': nat)
    ensures SessionSids(nonce, true, hash)(x, a, b) != SessionSids(nonce', false, hash')(x', a', b')
  {
    StartsWith(CHECKED_PREFIX, nonce + [SEPARATOR] + hash, if x then CHECKED_KIND_X else CHECKED_KIND_K, a, b);
    StartsWith(SIGN_PREFIX, nonce' + [SEPARATOR] + hash', if x' then KIND_X else KIND_K, a', b');
    assert CHECKED_PREFIX + nonce + [SEPARATOR] + hash == CHECKED_PREFIX + (nonce + [SEPARATOR] + hash);
    assert SIGN_PREFIX + nonce' + [SEPARATOR] + hash' == SIGN_PREFIX + (nonce' + [SEPARATOR] + hash');
    assert CHECKED_PREFIX[11] != SIGN_PREFIX[11];
  }

  lemma StartsWith(prefix: bytes, rest: bytes, kind: bytes, a: nat, b: nat)
    ensures prefix <= MakeSid(prefix + rest, kind, a, b)
  {
  }

  /** The signers in order with their effective shares, the tweak absorbed. */
  method TweakedSigners(n: int, keys: seq<Key>, signerIdx: seq<nat>, tweak: Option<Scalar>)
    returns (err: Option<SignError>, signers: seq<Key>, sx: seq<Scalar>, ghost order: seq<nat>)
    requires IsPrime(n) && Usable(n, keys) && GoodSubset(keys, signerIdx)
    ensures |signers| == keys[0].t + 1 && Slots(signers)
    ensures Within(order, |keys|) && multiset(order) == multiset(signerIdx) && signers == SignerKeys(keys, order)
    ensures err.Some? ==> err.value in {NotAMember, MissingPairs, RepeatedIdentifier}
    ensures err == None ==> |sx| == |signers| && InField(n, sx)
    ensures Sharing(n, keys, keys[0].ecdsaPub) ==>
      err == None && PairsReady(signers) && Cong(Total(sx), keys[0].ecdsaPub + TweakValue(tweak), n)
  {
    hide *;
    PrimeIsPositive(n);
    UsableOwned(n, keys);
    var sorted, shares;
    err, sorted, shares := PrepareSigners(n, keys, signerIdx);
    order := sorted;
    signers, sx := SignerKeys(keys, sorted), [];
    if err.Some? { return; }
    sx := Tweaked(n, shares, tweak);
    TweakedField(n, shares, tweak);
    ghost var sharing := Sharing(n, keys, keys[0].ecdsaPub);
    if sharing { TweakedSecret(n, shares, tweak, keys[0].ecdsaPub); }
  }

  /** sign_core once the request has been validated. */
  method SignValidated(o: Oracle, c: Curve, keys: seq<Key>, signerIdx: seq<nat>, tweak: Option<Scalar>, hash: bytes,
    checked: bool, draws: SignDraws) returns (res: Result<Signature, SignError>)
    requires c.Valid() && o.Valid() && draws.Valid(c.n) && Usable(c.n, keys) && GoodSubset(keys, signerIdx)
    ensures res.Ok? ==> !IsHighS(c.n, res.value.s)
    ensures res.Ok? ==>
      EcdsaVerify(c, VerifyKey(c.n, keys[0].ecdsaPub, tweak), HashToScalar(c.n, hash), res.value.r, res.value.s)
    ensures res != Err(NoKeys)
    ensures checked && res.Ok? ==> AllChecked(o, c.n, keys, signerIdx, draws, hash)
    ensures Sharing(c.n, keys, keys[0].ecdsaPub) && FitsScalar(c.n) ==>
      SessionDone(c, keys[0].t + 1, draws, VerifyKey(c.n, keys[0].ecdsaPub, tweak), HashToScalar(c.n, hash),
        keys[0].ecdsaPub + TweakValue(tweak), res)
  {
    hide *;
    var n := c.n;
    PositiveOrder(c);
    UsableOwned(n, keys);
    var missing, signers, sx, order := TweakedSigners(n, keys, signerIdx, tweak);
    if missing.Some? { return Err(missing.value); }
    var sidOf := SessionSids(draws.nonce, checked, hash);
    SessionSidsFresh(draws.nonce, checked, hash);
    var verifyPub, e := VerifyKey(n, keys[0].ecdsaPub, tweak), HashToScalar(n, hash);
    VerifyKeyLog(n, keys[0].ecdsaPub, tweak);
    res := SignSession(o, c, checked, sidOf, signers, sx, draws, verifyPub, e, keys[0].ecdsaPub + TweakValue(tweak));
    if checked && res.Ok? { AllCheckedFrom(o, n, keys, signerIdx, draws, hash, order, sx); }
  }

  /** Every ordered pair of the requested signers ran both its checked multiplications, on the drawn nonces and masks,
      under the session's ids. */
  ghost predicate AllChecked(o: Oracle, n: int, keys: seq<Key>, signerIdx: seq<nat>, draws: SignDraws, hash: bytes)
    requires o.Valid() && n > 0
  {
    exists order: seq<nat>, sx: seq<Scalar> ::
      && Within(order, |keys|) && multiset(order) == multiset(signerIdx) && |sx| == |order|
      && CheckedUpTo(o, n, SessionSids(draws.nonce, true, hash), SignerKeys(keys, order), draws.Ks(|order|), sx,
        draws.Rhos(|order|), |order|, 0)
  }

  lemma AllCheckedFrom(o: Oracle, n: int, keys: seq<Key>, signerIdx: seq<nat>, draws: SignDraws, hash: bytes,
    order: seq<nat>, sx: seq<Scalar>)
    requires o.Valid() && n > 0 && Within(order, |keys|) && multiset(order) == multiset(signerIdx) && |sx| == |order|
    requires CheckedUpTo(o, n, SessionSids(draws.nonce, true, hash), SignerKeys(keys, order), draws.Ks(|order|), sx,
      draws.Rhos(|order|), |order|, 0)
    ensures AllChecked(o, n, keys, signerIdx, draws, hash)
  {
    hide CheckedUpTo, SessionSids;
  }

  /** sign_core. Any signature it returns verifies and is low-S. For keys that share the public key's logarithm with
      matching OT state it fails only on a bad request or on unlucky draws, never in the final gate, for
      every subset of t + 1 signers, hash and tweak. */
  method SignCore(o: Oracle, c: Curve, keys: seq<Key>, signerIdx: seq<nat>, tweak: Option<Scalar>, hash: bytes,
    checked: bool,
    draws: SignDraws) returns (res: Result<Signature, SignError>)
    requires c.Valid() && o.Valid() && draws.Valid(c.n) && (keys != [] ==> Usable(c.n, keys))
    ensures keys == [] <==> res == Err(NoKeys)
    ensures res.Ok? ==> GoodSubset(keys, signerIdx) && hash != [] && !IsHighS(c.n, res.value.s)
    ensures res.Ok? ==>
      EcdsaVerify(c, VerifyKey(c.n, keys[0].ecdsaPub, tweak), HashToScalar(c.n, hash), res.value.r, res.value.s)
    ensures checked && res.Ok? ==> AllChecked(o, c.n, keys, signerIdx, draws, hash)
    ensures keys != [] && Sharing(c.n, keys, keys[0].ecdsaPub) && FitsScalar(c.n) ==>
      Outcome(c, keys, signerIdx, tweak, hash, draws, res)
  {
    var n := c.n;
    PositiveOrder(c);
    hide *;
    if keys == [] { return Err(NoKeys); }
    var bad := CheckSubset(keys, signerIdx);
    if bad.Some? {
      Refused(c, keys, signerIdx, tweak, hash, draws, bad.value);
      return Err(bad.value);
    }
    if hash == [] {
      Refused(c, keys, signerIdx, tweak, hash, draws, EmptyHash);
      return Err(EmptyHash);
    }
    res := SignValidated(o, c, keys, signerIdx, tweak, hash, checked, draws);
    SessionOutcome(c, keys, signerIdx, tweak, hash, draws, res);
  }

  lemma Refused(c: Curve, keys: seq<Key>, signerIdx: seq<nat>, tweak: Option<Scalar>, hash: bytes, draws: SignDraws,
    err: SignError)
    requires c.n > 0 && keys != [] && (!GoodSubset(keys, signerIdx) || hash == [])
    requires err in {WrongSignerCount, IndexOutOfRange, DuplicateIndex, EmptyHash}
    ensures Outcome(c, keys, signerIdx, tweak, hash, draws, Err(err))
  {
    hide GoodSubset, Fortunate, GoodSignature;
  }

  /** What the session part of signing achieves. */
  ghost predicate SessionDone(c: Curve, count: nat, draws: SignDraws, verifyPub: Point, e: Scalar, x: int,
    res: Result<Signature, SignError>)
    requires c.n > 0
  {
    && (res.Ok? <==> Fortunate(c, draws, count, e, x))
    && (res.Err? ==> res.error in {ZeroR, ZeroPhi, ZeroS})
    && (res.Ok? ==> GoodSignature(c, verifyPub, e, res.value))
  }

  lemma SessionOutcome(c: Curve, keys: seq<Key>, signerIdx: seq<nat>, tweak: Option<Scalar>, hash: bytes,
    draws: SignDraws,
    res: Result<Signature, SignError>)
    requires c.n > 0 && keys != [] && GoodSubset(keys, signerIdx) && hash != []
    ensures SessionDone(c, keys[0].t + 1, draws, VerifyKey(c.n, keys[0].ecdsaPub, tweak), HashToScalar(c.n, hash),
        keys[0].ecdsaPub + TweakValue(tweak), res)
      ==> Outcome(c, keys, signerIdx, tweak, hash, draws, res)
  {
    hide GoodSubset, Fortunate, GoodSignature;
  }

  /** Rounds one and two and the assembly, for given effective shares. */
  method SignSession(o: Oracle, c: Curve, checked: bool, sidOf: (bool, nat, nat) -> bytes, signers: seq<Key>,
    sx: seq<Scalar>,
    draws: SignDraws, verifyPub: Point, e: Scalar, ghost x: int) returns (res: Result<Signature, SignError>)
    requires c.Valid() && o.Valid() && draws.Valid(c.n) && 0 < |signers| == |sx| && Slots(signers) && InField(c.n, sx)
    requires FreshSids(sidOf)
    ensures res.Ok? ==> !IsHighS(c.n, res.value.s) && EcdsaVerify(c, verifyPub, e, res.value.r, res.value.s)
    ensures res.Err? ==> res.error.Multiplication? || res.error in {ZeroR, ZeroPhi, ZeroS, VerificationFailed}
    ensures PairsReady(signers) && FitsScalar(c.n) && Cong(Total(sx), x, c.n) && Cong(verifyPub, x, c.n) ==>
      SessionDone(c, |signers|, draws, verifyPub, e, x, res)
    ensures checked && res.Ok? ==>
      CheckedUpTo(o, c.n, sidOf, signers, draws.Ks(|signers|), sx, draws.Rhos(|signers|), |signers|, 0)
  {
    hide *;
    var n := c.n;
    PositiveOrder(c);
    SessionDoneMeans(c, |signers|, draws, verifyPub, e, x);
    DrawsInField(n, draws, |signers|);
    ghost var honest := PairsReady(signers) && FitsScalar(n) && Cong(Total(sx), x, n) && Cong(verifyPub, x, n);
    var session := Session(o, c, checked, sidOf, signers, sx, draws);
    if session.Err? { return Err(session.error); }
    var s := session.value;
    var phi := AddUp(n, s.kRho);
    var sigma := SumSignatureShares(n, s.rho, s.xRho, e, s.r);
    if honest { SessionIsHonest(c, s, draws.Ks(|signers|), sx, verifyPub, e, phi, sigma, x); }
    res := Finish(c, verifyPub, s.rPoint, s.r, e, phi, sigma, Total(s.rho), x);
  }

  lemma SessionDoneMeans(c: Curve, count: nat, draws: SignDraws, verifyPub: Point, e: Scalar, x: int)
    requires c.n > 0
    ensures forall res: Result<Signature, SignError> :: SessionDone(c, count, draws, verifyPub, e, x, res) <==>
      var r := c.XScalar(Total(draws.Ks(count)) % c.n);
      && (res.Ok? <==> r != 0 && !Cong(Total(draws.Rhos(count)), 0, c.n) && !Cong(e + r * x, 0, c.n))
      && (res.Err? ==> res.error in {ZeroR, ZeroPhi, ZeroS})
      && (res.Ok? ==> GoodSignature(c, verifyPub, e, res.value))
  {
    hide GoodSignature;
  }

  lemma UsableOwned(n: int, keys: seq<Key>)
    requires Usable(n, keys)
    ensures Owned(keys) && keys != [] && keys[0].parties <= |keys|
  {
  }

  lemma SubsetWithin(n: int, keys: seq<Key>, signerIdx: seq<nat>)
    requires Usable(n, keys) && GoodSubset(keys, signerIdx)
    ensures Within(signerIdx, |keys|) && |signerIdx| == keys[0].t + 1
  {
  }

  lemma SlotsOf(n: int, keys: seq<Key>, order: seq<nat>)
    requires Usable(n, keys) && Within(order, |keys|)
    ensures Slots(SignerKeys(keys, order))
  {
    forall a, b | 0 <= a < |order| && 0 <= b < |order| ensures keys[order[b]].idx < |keys[order[a]].ot| {
      assert KeyUsable(n, keys[order[a]], keys);
    }
  }

  lemma TotalIs(xs: seq<int>)
    ensures Total(xs) == Sum(xs, |xs|)
  {
  }
}
