/** Key material (src/dklstss/key.rs) and what makes a committee's keys consistent. */
module Keys {
  import opened NumberTheory
  import opened Polynomial
  import opened Results
  import opened Bits
  import opened Secp
  import opened BaseOt
  import opened Lagrange

  datatype Key = Key(parties: nat, t: nat, idx: nat, partyIds: seq<nat>, xi: Scalar, bigXj: seq<Point>,
    ecdsaPub: Point, ot: seq<Option<PairOt>>, chainCode: bytes)

  /** Party ids as evaluation points. */
  function Ids(n: int, partyIds: seq<nat>): (ids: seq<Scalar>)
    requires n > 0
    ensures |ids| == |partyIds| && Reduced(n, ids)
  {
    seq(|partyIds|, i requires 0 <= i < |partyIds| => partyIds[i] % n)
  }

  /** Non-zero and pairwise different evaluation points. */
  ghost predicate IndexesOk(ids: seq<Scalar>) {
    && (forall i :: 0 <= i < |ids| ==> ids[i] != 0)
    && (forall i, j :: 0 <= i < j < |ids| ==> ids[i] != ids[j])
  }

  method CheckIndexes(ids: seq<Scalar>) returns (ok: bool)
    ensures ok <==> IndexesOk(ids)
  {
    for i := 0 to |ids|
      invariant forall a :: 0 <= a < i ==> ids[a] != 0
      invariant forall a, b :: 0 <= a < i && a < b < |ids| ==> ids[a] != ids[b]
    {
      if ids[i] == 0 { return false; }
      for j := i + 1 to |ids|
        invariant forall b :: i < b < j ==> ids[i] != ids[b]
      {
        if ids[i] == ids[j] { return false; }
      }
    }
    return true;
  }

  /** Key::validate_basic */
  ghost predicate Basic(n: int, k: Key)
    requires n > 0
  {
    && k.parties > 0 && k.t < k.parties && (k.t == 0 ==> k.parties == 1)
    && k.idx < k.parties && |k.partyIds| == |k.bigXj| == |k.ot| == k.parties
    && IndexesOk(Ids(n, k.partyIds))
    && k.ot[k.idx] == None && k.xi != 0 && k.ecdsaPub != 0
    && MulBase(n, k.xi) == k.bigXj[k.idx]
  }

  method ValidateBasic(n: int, k: Key) returns (ok: bool)
    requires n > 0
    ensures ok <==> Basic(n, k)
  {
    if k.parties == 0 || k.t >= k.parties || (k.t == 0 && k.parties > 1) { return false; }
    if k.idx >= k.parties { return false; }
    if |k.partyIds| != k.parties || |k.bigXj| != k.parties || |k.ot| != k.parties { return false; }
    var indexes := CheckIndexes(Ids(n, k.partyIds));
    if !indexes { return false; }
    if k.ot[k.idx].Some? || k.xi == 0 || k.ecdsaPub == 0 { return false; }
    return MulBase(n, k.xi) == k.bigXj[k.idx];
  }

  // ---------- committees ----------

  /** The public part is the same in every key, key i belongs to party i and matches its commitment. */
  ghost predicate SameCommittee(n: int, keys: seq<Key>) {
    && keys != [] && |keys| == keys[0].parties == |keys[0].partyIds| == |keys[0].bigXj|
    && forall i :: 0 <= i < |keys| ==>
      && keys[i] == keys[0].(idx := i, xi := keys[i].xi, ot := keys[i].ot)
      && 0 <= keys[i].xi < n && keys[0].bigXj[i] == keys[i].xi
  }

  function OtRows(keys: seq<Key>): (ot: OtMatrix)
    ensures |ot| == |keys| && forall i :: 0 <= i < |keys| ==> ot[i] == keys[i].ot
  {
    seq(|keys|, i requires 0 <= i < |keys| => keys[i].ot)
  }

  function Shares(keys: seq<Key>): (xs: seq<Scalar>)
    ensures |xs| == |keys| && forall i :: 0 <= i < |keys| ==> xs[i] == keys[i].xi
  {
    seq(|keys|, i requires 0 <= i < |keys| => keys[i].xi)
  }

  /** Every share is the value of f at its id. */
  ghost predicate OnPolynomial(n: int, ids: seq<Scalar>, xs: seq<Scalar>, f: seq<int>)
    requires n > 0 && |ids| == |xs|
  {
    forall i :: 0 <= i < |ids| ==> Cong(xs[i], Eval(f, ids[i]), n)
  }

  ghost predicate SharesOf(n: int, ids: seq<Scalar>, xs: seq<Scalar>, t: nat, secret: int)
    requires n > 0 && |ids| == |xs|
  {
    exists f: seq<int> :: |f| == t + 1 && OnPolynomial(n, ids, xs, f) && Cong(Eval(f, 0), secret, n)
  }

  /** The keys share `secret` among distinct parties with matching pairwise OT state. */
  ghost predicate Sharing(n: int, keys: seq<Key>, secret: int)
    requires n > 0
  {
    && SameCommittee(n, keys) && keys[0].t < |keys|
    && Distinct(n, Ids(n, keys[0].partyIds))
    && SharesOf(n, Ids(n, keys[0].partyIds), Shares(keys), keys[0].t, secret)
    && 0 <= keys[0].ecdsaPub < n && Cong(keys[0].ecdsaPub, secret, n)
    && AllPairsMatch(OtRows(keys), |keys|)
  }

  /** A sharing whose keys all pass validation. */
  ghost predicate Consistent(n: int, keys: seq<Key>, secret: int)
    requires n > 0
  {
    Sharing(n, keys, secret) && forall i :: 0 <= i < |keys| ==> Basic(n, keys[i])
  }

  /** Indices of a committee's members, each at most once. */
  ghost predicate Subset(idxs: seq<nat>, count: nat) {
    && (forall a :: 0 <= a < |idxs| ==> idxs[a] < count)
    && (forall a, b :: 0 <= a < b < |idxs| ==> idxs[a] != idxs[b])
  }

  function Picked(xs: seq<int>, idxs: seq<nat>): (ys: seq<int>)
    requires forall a :: 0 <= a < |idxs| ==> idxs[a] < |xs|
    ensures |ys| == |idxs| && forall a :: 0 <= a < |idxs| ==> ys[a] == xs[idxs[a]]
  {
    seq(|idxs|, a requires 0 <= a < |idxs| => xs[idxs[a]])
  }

  lemma PickedDistinct(n: int, ids: seq<int>, idxs: seq<nat>)
    requires n > 0 && Distinct(n, ids) && Subset(idxs, |ids|)
    ensures Distinct(n, Picked(ids, idxs))
  {
    hide Cong;
    forall a, b | 0 <= a < b < |idxs| ensures !Cong(Picked(ids, idxs)[a], Picked(ids, idxs)[b], n) {
      CongFlip(ids[idxs[a]], ids[idxs[b]], n);
    }
  }

  lemma SubsetPicks(idxs: seq<nat>, count: nat)
    requires Subset(idxs, count)
    ensures forall a :: 0 <= a < |idxs| ==> idxs[a] < count
  {
  }

  /** Any t + 1 members reconstruct the secret. */
  lemma QuorumReconstructs(n: int, ids: seq<Scalar>, xs: seq<Scalar>, t: nat, secret: int, idxs: seq<nat>)
    requires IsPrime(n) && |ids| == |xs| && Distinct(n, ids) && SharesOf(n, ids, xs, t, secret)
    requires Subset(idxs, |ids|) && |idxs| > t
    ensures Cong(WeightedSum(n, Picked(ids, idxs), Picked(xs, idxs), |idxs|), secret, n)
  {
    var f: seq<int> :| |f| == t + 1 && OnPolynomial(n, ids, xs, f) && Cong(Eval(f, 0), secret, n);
    var pi, px := Picked(ids, idxs), Picked(xs, idxs);
    forall a | 0 <= a < |pi| ensures Cong(px[a], Eval(f, pi[a]), n) {
      assert Cong(xs[idxs[a]], Eval(f, ids[idxs[a]]), n);
    }
    hide *;
    PickedDistinct(n, ids, idxs);
    InterpolateValues(n, pi, f, px);
    CongTrans(WeightedSum(n, pi, px, |pi|), Eval(f, 0), secret, n);
  }

  /** The statement for a committee's keys. */
  lemma QuorumOfKeys(n: int, keys: seq<Key>, secret: int, idxs: seq<nat>)
    requires IsPrime(n) && Sharing(n, keys, secret) && Subset(idxs, |keys|) && |idxs| > keys[0].t
    ensures |keys[0].partyIds| == |keys| && forall a :: 0 <= a < |idxs| ==> idxs[a] < |keys|
    ensures Cong(WeightedSum(n, Picked(Ids(n, keys[0].partyIds), idxs), Picked(Shares(keys), idxs), |idxs|), secret, n)
  {
    hide IsPrime, Cong, Distinct, SharesOf, AllPairsMatch, WeightedSum;
    QuorumReconstructs(n, Ids(n, keys[0].partyIds), Shares(keys), keys[0].t, secret, idxs);
  }

  lemma IndexesDistinct(n: int, ids: seq<Scalar>)
    requires n > 0 && Reduced(n, ids)
    ensures (forall i, j :: 0 <= i < j < |ids| ==> ids[i] != ids[j]) <==> Distinct(n, ids)
  {
    forall i, j | 0 <= i < j < |ids| ensures Cong(ids[i], ids[j], n) <==> ids[i] == ids[j] {
      SmallMod(ids[i], n);
      SmallMod(ids[j], n);
    }
  }

  /** A secret is only determined up to its residue: the logarithm of the public key will do. */
  lemma SecretIsLog(n: int, keys: seq<Key>, secret: int, pub: Point)
    requires n > 0 && Consistent(n, keys, secret) && keys[0].ecdsaPub == pub
    ensures keys != [] && Consistent(n, keys, pub)
  {
    hide Distinct, AllPairsMatch, Basic, Eval, OnPolynomial;
  }
}
