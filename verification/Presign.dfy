/** Pre-signing and its single-use consumption (src/dklstss/presign.rs). */
module Presign {
  import opened NumberTheory
  import opened Results
  import opened Bits
  import opened Secp
  import opened OtExtension
  import opened Ole
  import opened Keys
  import opened CrossTerms
  import opened SignEncoding
  import opened Signing

  const PRESIGN_PREFIX: bytes := [0x44, 0x4b, 0x4c, 0x53, 0x32, 0x33, 0x2d, 0x70, 0x72, 0x65, 0x73, 0x69, 0x67, 0x6e,
    0x2d, 0x76, 0x31, 0x2d]
  const PRESIGN_KIND_K: bytes := [0x70, 0x72, 0x65, 0x73, 0x69, 0x67, 0x6e, 0x2d, 0x6b, 0x78, 0x72, 0x68, 0x6f]
  const PRESIGN_KIND_X: bytes := [0x70, 0x72, 0x65, 0x73, 0x69, 0x67, 0x6e, 0x2d, 0x78, 0x78, 0x72, 0x68, 0x6f]

  /** The immutable part of a presign: the group nonce and each party's shares. */
  datatype Material = Material(pubKey: Point, rPoint: Point, r: Scalar, rho: seq<Scalar>, sigma: seq<Scalar>,
    kRho: seq<Scalar>) {
    predicate Shaped() { |rho| == |sigma| == |kRho| }

    /** The shares are those of k*rho and x*rho for the nonce behind R and the key behind pubKey. */
    ghost predicate Honest(c: Curve)
      requires c.n > 0
    {
      && Shaped() && 0 <= rPoint < c.n && r == c.XScalar(rPoint) && r != 0
      && Cong(Total(kRho), rPoint * Total(rho), c.n) && Cong(Total(sigma), pubKey * Total(rho), c.n)
    }
  }

  class PresignOutput {
    const material: Material
    var consumed: bool

    constructor (m: Material)
      ensures material == m && !consumed
    {
      material := m;
      consumed := false;
    }
  }

  method Presign(o: Oracle, c: Curve, keys: seq<Key>, signerIdx: seq<nat>, draws: SignDraws)
    returns (res: Result<PresignOutput, SignError>)
    requires c.Valid() && o.Valid() && draws.Valid(c.n) && (keys != [] ==> Usable(c.n, keys))
    ensures keys == [] <==> res == Err(NoKeys)
    ensures res.Ok? ==> fresh(res.value) && !res.value.consumed && res.value.material.Shaped()
    ensures res.Ok? ==> GoodSubset(keys, signerIdx) && res.value.material.pubKey == keys[0].ecdsaPub
    ensures keys != [] && Sharing(c.n, keys, keys[0].ecdsaPub) && FitsScalar(c.n) ==>
      && (res.Ok? <==> GoodSubset(keys, signerIdx) && c.XScalar(Total(draws.Ks(keys[0].t + 1)) % c.n) != 0)
      && (res.Ok? ==> res.value.material.Honest(c) && res.value.material.rho == draws.Rhos(keys[0].t + 1))
      && (res.Ok? ==> res.value.material.rPoint == Total(draws.Ks(keys[0].t + 1)) % c.n)
  {
    var n := c.n;
    PositiveOrder(c);
    if keys == [] { return Err(NoKeys); }
    var bad := CheckSubset(keys, signerIdx);
    if bad.Some? { return Err(bad.value); }
    var m := PresignMaterial(o, c, keys, signerIdx, draws);
    if m.Err? { return Err(m.error); }
    var out := new PresignOutput(m.value);
    return Ok(out);
  }

  /** The ids of a presign run's multiplications. */
  function PresignSids(nonce: bytes): (bool, nat, nat) -> bytes {
    var ssid := PRESIGN_PREFIX + nonce;
    (forX: bool, a: nat, b: nat) => MakeSid(ssid, if forX then PRESIGN_KIND_X else PRESIGN_KIND_K, a, b)
  }

  lemma PresignSidsFresh(nonce: bytes)
    ensures FreshSids(PresignSids(nonce))
  {
    hide MakeSid;
    var ssid := PRESIGN_PREFIX + nonce;
    forall x, x', a, b, a', b' |
      && a < 0x1_0000_0000 && b < 0x1_0000_0000 && a' < 0x1_0000_0000 && b' < 0x1_0000_0000
      && PresignSids(nonce)(x, a, b) == PresignSids(nonce)(x', a', b')
      ensures x == x' && a == a' && b == b'
    {
      MakeSidInjective(ssid, if x then PRESIGN_KIND_X else PRESIGN_KIND_K, a, b,
        if x' then PRESIGN_KIND_X else PRESIGN_KIND_K, a', b');
      assert PRESIGN_KIND_X[8] != PRESIGN_KIND_K[8];
    }
  }

  /** Presigns and signatures never share one either. */
  lemma PresignApart(nonce: bytes, x: bool, a: nat, b: nat, nonce': bytes, checked: bool, hash: bytes, x': bool,
    a': nat, b': nat)
    ensures PresignSids(nonce)(x, a, b) != SessionSids(nonce', checked, hash)(x', a', b')
  {
    var prefix := if checked then CHECKED_PREFIX else SIGN_PREFIX;
    var kind :=
      if checked then (if x' then CHECKED_KIND_X else CHECKED_KIND_K) else (if x' then KIND_X else KIND_K);
    StartsWith(PRESIGN_PREFIX, nonce, if x then PRESIGN_KIND_X else PRESIGN_KIND_K, a, b);
    StartsWith(prefix, nonce' + [SEPARATOR] + hash, kind, a', b');
    assert prefix + nonce' + [SEPARATOR] + hash == prefix + (nonce' + [SEPARATOR] + hash);
    assert PRESIGN_PREFIX[7] != prefix[7];
  }

  method PresignMaterial(o: Oracle, c: Curve, keys: seq<Key>, signerIdx: seq<nat>, draws: SignDraws)
    returns (res: Result<Material, SignError>)
    requires c.Valid() && o.Valid() && draws.Valid(c.n) && Usable(c.n, keys) && GoodSubset(keys, signerIdx)
    ensures res != Err(NoKeys)
    ensures res.Ok? ==> res.value.Shaped() && res.value.pubKey == keys[0].ecdsaPub
    ensures Sharing(c.n, keys, keys[0].ecdsaPub) && FitsScalar(c.n) ==>
      && (res.Ok? <==> c.XScalar(Total(draws.Ks(keys[0].t + 1)) % c.n) != 0)
      && (res.Ok? ==> res.value.Honest(c) && res.value.rho == draws.Rhos(keys[0].t + 1))
      && (res.Ok? ==> res.value.rPoint == Total(draws.Ks(keys[0].t + 1)) % c.n)
  {
    hide *;
    var n := c.n;
    PositiveOrder(c);
    UsableOwned(n, keys);
    DrawsLength(draws, keys[0].t + 1);
    ghost var sharing := Sharing(n, keys, keys[0].ecdsaPub) && FitsScalar(n);
    var missing, order, sx := PrepareSigners(n, keys, signerIdx);
    if missing.Some? { return Err(missing.value); }
    var signers := SignerKeys(keys, order);
    var sidOf := PresignSids(draws.nonce);
    PresignSidsFresh(draws.nonce);
    var session := Session(o, c, false, sidOf, signers, sx, draws);
    if session.Err? { return Err(session.error); }
    var s := session.value;
    var m := Material(keys[0].ecdsaPub, s.rPoint, s.r, s.rho, s.xRho, s.kRho);
    if sharing { MaterialIsHonest(c, m, Total(draws.Ks(|signers|)), Total(sx)); }
    MaterialShaped(m);
    return Ok(m);
  }

  lemma MaterialShaped(m: Material)
    ensures m.Shaped() <==> |m.rho| == |m.sigma| == |m.kRho|
  {
  }

  lemma DrawsLength(draws: SignDraws, count: nat)
    ensures |draws.Rhos(count)| == count && |draws.Ks(count)| == count
  {
  }

  lemma MaterialIsHonest(c: Curve, m: Material, k: int, sx: int)
    requires c.n > 0 && |m.rho| == |m.sigma| == |m.kRho|
    requires m.rPoint == k % c.n && m.r == c.XScalar(m.rPoint) && m.r != 0
    requires Cong(Total(m.kRho), k * Total(m.rho), c.n) && Cong(Total(m.sigma), sx * Total(m.rho), c.n)
    requires Cong(sx, m.pubKey, c.n)
    ensures m.Honest(c)
  {
    CongMod(k, c.n);
    var rho := Total(m.rho);
    CongScale(rho, m.rPoint, k, c.n);
    CongScale(rho, sx, m.pubKey, c.n);
  }

  // ---------- consuming a presign ----------

  /** sigma_i + tweak * rho_i */
  function TweakedShares(n: int, m: Material, tweak: Option<Scalar>): (sigma: seq<Scalar>)
    requires n > 0 && m.Shaped()
    ensures |sigma| == |m.rho|
  {
    match tweak
    case None => m.sigma
    case Some(tw) => seq(|m.rho|, i requires 0 <= i < |m.rho| => FAdd(n, m.sigma[i], FMul(n, tw, m.rho[i])))
  }

  lemma {:induction false} TweakedSharesSum(n: int, m: Material, tw: Scalar, k: nat)
    requires n > 0 && m.Shaped() && k <= |m.rho|
    ensures Cong(Sum(TweakedShares(n, m, Some(tw)), k), Sum(m.sigma, k) + tw * Sum(m.rho, k), n)
  {
    hide FAdd, FMul;
    if k > 0 {
      TweakedSharesSum(n, m, tw, k - 1);
      TweakStep(n, m.sigma[k - 1], m.rho[k - 1], tw, Sum(TweakedShares(n, m, Some(tw)), k - 1), Sum(m.sigma, k - 1),
        Sum(m.rho, k - 1));
    }
  }

  lemma TweakStep(n: int, s: int, r: int, tw: int, acc: int, a: int, b: int)
    requires n > 0 && Cong(acc, a + tw * b, n)
    ensures Cong(acc + FAdd(n, s, FMul(n, tw, r)), (a + s) + tw * (b + r), n)
  {
    hide *;
    var f := FMul(n, tw, r);
    FieldOps(n, tw, r);
    FieldOps(n, s, f);
    CongSelf(s, n);
    CongAdd(s, s, f, tw * r, n);
    CongTrans(FAdd(n, s, f), s + f, s + tw * r, n);
    CongAdd(acc, a + tw * b, FAdd(n, s, f), s + tw * r, n);
    assert tw * (b + r) == tw * b + tw * r;
  }

  /** Spreading the tweak over the masks shifts the shared key by the tweak. */
  lemma TweakedSharesTotal(c: Curve, m: Material, tweak: Option<Scalar>)
    requires c.n > 0 && m.Honest(c)
    ensures Cong(Total(TweakedShares(c.n, m, tweak)), (m.pubKey + TweakValue(tweak)) * Total(m.rho), c.n)
  {
    hide *;
    MaterialSums(c, m, tweak);
    match tweak
    case None =>
    case Some(tw) =>
      TweakedSharesSum(c.n, m, tw, |m.rho|);
      TweakSpread(c.n, Total(TweakedShares(c.n, m, tweak)), Total(m.sigma), m.pubKey, tw, Total(m.rho));
  }

  lemma MaterialSums(c: Curve, m: Material, tweak: Option<Scalar>)
    requires c.n > 0 && m.Honest(c)
    ensures m.Shaped() && |m.sigma| == |m.rho| && Cong(Total(m.sigma), m.pubKey * Total(m.rho), c.n)
    ensures Total(m.sigma) == Sum(m.sigma, |m.rho|) && Total(m.rho) == Sum(m.rho, |m.rho|)
    ensures tweak == None ==> TweakedShares(c.n, m, tweak) == m.sigma && m.pubKey + TweakValue(tweak) == m.pubKey
    ensures tweak.Some? ==> TweakValue(tweak) == tweak.value
    ensures |TweakedShares(c.n, m, tweak)| == |m.rho|
    ensures Total(TweakedShares(c.n, m, tweak)) == Sum(TweakedShares(c.n, m, tweak), |m.rho|)
  {
    hide Sum, FAdd, FMul, Cong;
  }

  lemma TweakSpread(n: int, total: int, sigma: int, pub: int, tw: int, rho: int)
    requires n > 0 && Cong(total, sigma + tw * rho, n) && Cong(sigma, pub * rho, n)
    ensures Cong(total, (pub + tw) * rho, n)
  {
    hide *;
    CongSelf(tw * rho, n);
    CongAdd(sigma, pub * rho, tw * rho, tw * rho, n);
    assert (pub + tw) * rho == pub * rho + tw * rho;
    CongTrans(total, sigma + tw * rho, (pub + tw) * rho, n);
  }

  /** The outcome of consuming a presign for a message scalar. */
  ghost predicate Finalized(c: Curve, m: Material, e: Scalar, tweak: Option<Scalar>, res: Result<Signature, SignError>)
    requires c.n > 0
  {
    && (res.Ok? ==> !IsHighS(c.n, res.value.s) && EcdsaVerify(c, VerifyKey(c.n, m.pubKey, tweak), e, res.value.r,
      res.value.s))
    && (res.Err? ==> res.error in {ZeroPhi, ZeroS, VerificationFailed})
    && (m.Honest(c) ==>
        && (res.Ok? <==> !Cong(Total(m.rho), 0, c.n) && !Cong(e + m.r * (m.pubKey + TweakValue(tweak)), 0, c.n))
        && res != Err(VerificationFailed)
        && (res.Ok? ==> GoodSignature(c, VerifyKey(c.n, m.pubKey, tweak), e, res.value)))
  }

  method FinalizePresign(c: Curve, m: Material, e: Scalar, tweak: Option<Scalar>) returns (res: Result<Signature,
    SignError>)
    requires c.Valid() && m.Shaped()
    ensures Finalized(c, m, e, tweak, res)
  {
    var n := c.n;
    PositiveOrder(c);
    hide GoodSignature, EcdsaVerify, IsHighS, IsPrime, Cong, TweakedShares, VerifyKey, HonestSums, Total;
    var phi := AddUp(n, m.kRho);
    var sigma := SumSignatureShares(n, m.rho, TweakedShares(n, m, tweak), e, m.r);
    var verifyPub := VerifyKey(n, m.pubKey, tweak);
    ghost var x := m.pubKey + TweakValue(tweak);
    VerifyKeyLog(n, m.pubKey, tweak);
    if m.Honest(c) { PresignSums(c, m, e, tweak, phi, sigma, verifyPub); }
    res := Finish(c, verifyPub, m.rPoint, m.r, e, phi, sigma, Total(m.rho), x);
  }

  lemma PresignSums(c: Curve, m: Material, e: Scalar, tweak: Option<Scalar>, phi: Scalar, sigma: Scalar,
    verifyPub: Point)
    requires c.n > 0 && m.Honest(c) && phi == Total(m.kRho) % c.n && 0 <= sigma < c.n
    requires Cong(sigma, Total(m.rho) * e + m.r * Total(TweakedShares(c.n, m, tweak)), c.n)
    requires Cong(verifyPub, m.pubKey + TweakValue(tweak), c.n)
    ensures HonestSums(c, verifyPub, m.rPoint, m.r, e, phi, sigma, Total(m.rho), m.pubKey + TweakValue(tweak))
  {
    var n, x := c.n, m.pubKey + TweakValue(tweak);
    TweakedSharesTotal(c, m, tweak);
    CongMod(Total(m.kRho), n);
    CongSelf(m.rPoint, n);
    CongSelf(x, n);
    hide Cong, Total, TweakedShares;
    SumsAlgebra(n, m.rPoint, m.rPoint, Total(m.rho), Total(m.kRho), phi, Total(TweakedShares(n, m, tweak)), x, x, e,
      m.r, sigma);
  }

  /** sign_with_presign. An empty hash is refused without using the presign up; otherwise the presign is consumed by the
      call, and only the call that consumed it can return a signature. */
  method SignWithPresign(c: Curve, presign: PresignOutput, hash: bytes,
    tweak: Option<Scalar>) returns (res: Result<Signature, SignError>)
    requires c.Valid() && presign.material.Shaped()
    modifies presign`consumed
    ensures presign.consumed == (old(presign.consumed) || hash != [])
    ensures hash == [] <==> res == Err(EmptyHash)
    ensures hash != [] && old(presign.consumed) <==> res == Err(AlreadyConsumed)
    ensures hash != [] && !old(presign.consumed) ==> Finalized(c, presign.material, HashToScalar(c.n, hash), tweak, res)
  {
    PositiveOrder(c);
    hide *;
    if hash == [] { return Err(EmptyHash); }
    if presign.consumed { return Err(AlreadyConsumed); }
    presign.consumed := true;
    res := FinalizePresign(c, presign.material, HashToScalar(c.n, hash), tweak);
    FinalizedErrors(c, presign.material, HashToScalar(c.n, hash), tweak, res);
  }

  lemma FinalizedErrors(c: Curve, m: Material, e: Scalar, tweak: Option<Scalar>, res: Result<Signature, SignError>)
    requires c.n > 0 && Finalized(c, m, e, tweak, res)
    ensures res.Err? ==> res.error in {ZeroPhi, ZeroS, VerificationFailed}
  {
  }

  /** One request to finalize a presign. */
  datatype Request = Request(hash: bytes, tweak: Option<Scalar>)

  /** Request k is the first that a fresh presign has to answer. */
  ghost predicate FirstReal(requests: seq<Request>, k: nat) {
    k < |requests| && requests[k].hash != [] && forall j :: 0 <= j < k ==> requests[j].hash == []
  }

  /** Whatever is asked of one presign: empty hashes are refused, the first other request is finalized if the presign
      was fresh, and every later one is refused, so that at most one obtains a signature. */
  method Replay(c: Curve, presign: PresignOutput, requests: seq<Request>) returns (results: seq<Result<Signature,
    SignError>>)
    requires c.Valid() && presign.material.Shaped()
    modifies presign`consumed
    ensures |results| == |requests|
    ensures forall i, j :: 0 <= i < j < |results| ==> !(results[i].Ok? && results[j].Ok?)
    ensures forall i :: 0 <= i < |results| ==> (results[i] == Err(EmptyHash) <==> requests[i].hash == [])
    ensures forall i :: 0 <= i < |results| && FirstReal(requests, i) && !old(presign.consumed) ==>
      Finalized(c, presign.material, HashToScalar(c.n, requests[i].hash), requests[i].tweak, results[i])
    ensures forall i | 0 <= i < |results| && requests[i].hash != [] ::
      old(presign.consumed) || !FirstReal(requests, i) ==> results[i] == Err(AlreadyConsumed)
  {
    hide Finalized;
    PositiveOrder(c);
    results := [];
    for k := 0 to |requests|
      invariant |results| == k
      invariant presign.consumed <==> old(presign.consumed) || exists j :: 0 <= j < k && requests[j].hash != []
      invariant forall i :: 0 <= i < k ==> (results[i] == Err(EmptyHash) <==> requests[i].hash == [])
      invariant forall i :: 0 <= i < k && FirstReal(requests, i) && !old(presign.consumed) ==>
        Finalized(c, presign.material, HashToScalar(c.n, requests[i].hash), requests[i].tweak, results[i])
      invariant forall i | 0 <= i < k && requests[i].hash != [] ::
        old(presign.consumed) || !FirstReal(requests, i) ==> results[i] == Err(AlreadyConsumed)
    {
      var r := SignWithPresign(c, presign, requests[k].hash, requests[k].tweak);
      results := results + [r];
    }
    forall i, j | 0 <= i < j < |results| ensures !(results[i].Ok? && results[j].Ok?) {
      if requests[i].hash != [] { assert !FirstReal(requests, j); }
    }
  }

  // ---------- the durable record ----------

  /** The record of used presigns, which survives restarts. */
  class UsedPresigns {
    var seen: set<bytes>

    constructor ()
      ensures seen == {}
    {
      seen := {};
    }

    /** Records the hash and says whether it was new. */
    method CheckAndRecord(h: bytes) returns (unused: bool)
      modifies this
      ensures unused <==> h !in old(seen)
      ensures seen == old(seen) + {h}
    {
      unused := h !in seen;
      seen := seen + {h};
    }
  }

  /** sign_with_presign_durable: the record is consulted before the in-memory flag. */
  method SignDurable(c: Curve, presign: PresignOutput, hash: bytes, tweak: Option<Scalar>, store: UsedPresigns,
    rHash: Point -> bytes)
    returns (res: Result<Signature, SignError>)
    requires c.Valid() && presign.material.Shaped()
    modifies presign`consumed, store
    ensures hash == [] ==>
      store.seen == old(store.seen) && presign.consumed == old(presign.consumed)
    ensures hash == [] <==> res == Err(EmptyHash)
    ensures hash != [] ==> store.seen == old(store.seen) + {rHash(presign.material.rPoint)}
    ensures hash != [] && rHash(presign.material.rPoint) in old(store.seen) ==>
      res == Err(AlreadyConsumed) && presign.consumed == old(presign.consumed)
    ensures res.Ok? ==> rHash(presign.material.rPoint) !in old(store.seen)
    ensures hash != [] && rHash(presign.material.rPoint) !in old(store.seen) ==>
      && presign.consumed
      && (if old(presign.consumed) then res == Err(AlreadyConsumed)
          else Finalized(c, presign.material, HashToScalar(c.n, hash), tweak, res))
  {
    PositiveOrder(c);
    hide *;
    if hash == [] { return Err(EmptyHash); }
    var unused := store.CheckAndRecord(rHash(presign.material.rPoint));
    if !unused { return Err(AlreadyConsumed); }
    res := SignWithPresign(c, presign, hash, tweak);
  }

  /** What is on record when request k arrives: what was before, and the nonces of the requests with a hash. */
  ghost function OnRecord(seen: set<bytes>, names: seq<bytes>, requests: seq<Request>, k: nat): set<bytes>
    requires k <= |names| == |requests|
  {
    if k == 0 then seen
    else OnRecord(seen, names, requests, k - 1) + if requests[k - 1].hash == [] then {} else {names[k - 1]}
  }

  lemma {:induction false} StaysOnRecord(seen: set<bytes>, names: seq<bytes>, requests: seq<Request>, i: nat, k: nat)
    requires i < k <= |names| == |requests|
    ensures seen <= OnRecord(seen, names, requests, k)
    ensures requests[i].hash != [] ==> names[i] in OnRecord(seen, names, requests, k)
    decreases k
  {
    if i < k - 1 { StaysOnRecord(seen, names, requests, i, k - 1); } else if k > 1 {
      StaysOnRecord(seen, names, requests, 0, k - 1);
    }
  }

  /** The recorded name of the nonce that each request asks for. */
  function NonceNames(presigns: seq<PresignOutput>, picks: seq<nat>, rHash: Point -> bytes): (names: seq<bytes>)
    requires forall i :: 0 <= i < |picks| ==> picks[i] < |presigns|
    ensures |names| == |picks|
    ensures forall i :: 0 <= i < |names| ==> names[i] == rHash(presigns[picks[i]].material.rPoint)
  {
    seq(|picks|, i requires 0 <= i < |picks| => rHash(presigns[picks[i]].material.rPoint))
  }

  /** Across any copies of presigns, restored any number of times, no group nonce is ever used for two
      signatures as long as the record survives; a request for an unspent nonce with a fresh presign is finalized, any
      other with a hash is refused. */
  method ReplayDurable(c: Curve, presigns: seq<PresignOutput>, picks: seq<nat>, requests: seq<Request>,
    store: UsedPresigns,
    rHash: Point -> bytes) returns (results: seq<Result<Signature, SignError>>)
    requires c.Valid() && |picks| == |requests| && forall i :: 0 <= i < |picks| ==> picks[i] < |presigns|
    requires forall i :: 0 <= i < |presigns| ==> presigns[i].material.Shaped()
    modifies store, set i | 0 <= i < |presigns| :: presigns[i]
    ensures |results| == |requests|
    ensures forall i, j :: 0 <= i < j < |results| && results[i].Ok? && results[j].Ok? ==>
      presigns[picks[i]].material.rPoint != presigns[picks[j]].material.rPoint
    ensures forall i :: 0 <= i < |results| && results[i].Ok? ==>
      rHash(presigns[picks[i]].material.rPoint) !in old(store.seen)
    ensures forall k | 0 <= k < |results| ::
      Replayed(c, presigns[picks[k]].material, old(presigns[picks[k]].consumed), requests[k],
        NonceNames(presigns, picks, rHash)[k]
          in OnRecord(old(store.seen), NonceNames(presigns, picks, rHash), requests, k), results[k])
  {
    hide Finalized, Replayed, OnRecord, Curve.Valid;
    PositiveOrder(c);
    results := [];
    ghost var names, seen := NonceNames(presigns, picks, rHash), store.seen;
    RecordSteps(seen, names, requests, 0);
    for k := 0 to |requests|
      invariant |results| == k && store.seen == OnRecord(seen, names, requests, k)
      invariant forall p | 0 <= p < |presigns| ::
        (old(presigns[p].consumed) ==> presigns[p].consumed)
        && (presigns[p].consumed ==> old(presigns[p].consumed) || rHash(presigns[p].material.rPoint) in store.seen)
      invariant forall i | 0 <= i < k ::
        Replayed(c, presigns[picks[i]].material, old(presigns[picks[i]].consumed), requests[i],
          names[i] in OnRecord(seen, names, requests, i), results[i])
    {
      var presign := presigns[picks[k]];
      RecordSteps(seen, names, requests, k);
      var r := SignDurable(c, presign, requests[k].hash, requests[k].tweak, store, rHash);
      ReplayedFrom(c, presign.material, old(presigns[picks[k]].consumed), requests[k],
        names[k] in OnRecord(seen, names, requests, k), r);
      results := results + [r];
    }
    forall i | 0 <= i < |results| && results[i].Ok?
      ensures names[i] !in seen && forall j :: 0 <= j < i && results[j].Ok? ==> names[j] != names[i]
    {
      Unspent(c, presigns[picks[i]].material, old(presigns[picks[i]].consumed), requests[i],
        names[i] in OnRecord(seen, names, requests, i), results[i]);
      if i > 0 { StaysOnRecord(seen, names, requests, 0, i); } else { RecordSteps(seen, names, requests, 0); }
      forall j | 0 <= j < i && results[j].Ok? ensures names[j] != names[i] {
        Unspent(c, presigns[picks[j]].material, old(presigns[picks[j]].consumed), requests[j],
          names[j] in OnRecord(seen, names, requests, j), results[j]);
        StaysOnRecord(seen, names, requests, j, i);
      }
    }
  }

  lemma RecordSteps(seen: set<bytes>, names: seq<bytes>, requests: seq<Request>, k: nat)
    requires k <= |names| == |requests|
    ensures OnRecord(seen, names, requests, 0) == seen
    ensures k < |names| ==>
      OnRecord(seen, names, requests, k + 1)
        == OnRecord(seen, names, requests, k) + if requests[k].hash == [] then {} else {names[k]}
  {
  }

  /** What becomes of one request. */
  ghost predicate Replayed(c: Curve, m: Material, consumed: bool, request: Request, spent: bool,
    res: Result<Signature, SignError>)
    requires c.n > 0
  {
    && (res == Err(EmptyHash) <==> request.hash == [])
    && (request.hash != [] ==>
      if consumed || spent then res == Err(AlreadyConsumed)
      else Finalized(c, m, HashToScalar(c.n, request.hash), request.tweak, res))
  }

  lemma ReplayedFrom(c: Curve, m: Material, consumed: bool, request: Request, spent: bool,
    res: Result<Signature, SignError>)
    requires c.n > 0 && (request.hash == [] <==> res == Err(EmptyHash))
    requires request.hash != [] && (consumed || spent) ==> res == Err(AlreadyConsumed)
    requires request.hash != [] && !consumed && !spent ==>
      Finalized(c, m, HashToScalar(c.n, request.hash), request.tweak, res)
    ensures Replayed(c, m, consumed, request, spent, res)
  {
    hide Finalized;
  }

  lemma Unspent(c: Curve, m: Material, consumed: bool, request: Request, spent: bool,
    res: Result<Signature, SignError>)
    requires c.n > 0 && Replayed(c, m, consumed, request, spent, res) && res.Ok?
    ensures !spent && request.hash != []
  {
    hide Finalized;
  }
}
