/** What any honest parties that finish the broker key generation have in common, however the other dealers
    behaved and however the messages were interleaved (src/dklstss/keygen_party.rs). */
module DkgAgreement {
  import opened NumberTheory
  import opened Polynomial
  import opened Results
  import opened Bits
  import opened Secp
  import opened OtExtension
  import opened BaseOt
  import opened Ole
  import opened Vss
  import opened Keys
  import opened SignEncoding
  import opened Echo
  import opened Committee
  import opened Dkg

  /** An honest party's session, draws, used messages and delivered key. */
  datatype Party = Party(c: Config, own: Own, tr: Transcript, key: Key) {
    ghost predicate Done() { Finished(c, own, tr, key) }
  }

  ghost predicate SameSession(a: Party, b: Party) { b.c == a.c.(me := b.c.me) && a.c.me != b.c.me }

  /** b used the echo that a sent. */
  ghost predicate EchoDelivered(a: Party, b: Party) {
    && a.c.me != b.c.me && Slot(b.c.me, a.c.me) < |b.tr.echoes|
    && b.tr.echoes[Slot(b.c.me, a.c.me)] == OwnEcho(a.c, a.tr.bcasts)
  }

  /** The echo phase as one party saw it. */
  ghost predicate EchoSettled(p: Party) {
    && p.c.me < p.c.Count() && |p.tr.bcasts| == p.c.Count() - 1
    && EchoesAgree(p.c, p.own, p.tr.bcasts, p.tr.echoes)
  }

  /** What b's acceptance of a's echo says about one dealer: both heard the same commitments. */
  lemma EchoedDealer(a: Party, b: Party, d: nat)
    requires EchoSettled(a) && EchoSettled(b) && SameSession(a, b) && EchoDelivered(a, b) && CollisionFree(a.c.digest)
    requires d < a.c.Count() && d != a.c.me
    ensures Heard(a.c, a.own, a.tr.bcasts, d) == Heard(b.c, b.own, b.tr.bcasts, d)
  {
    hide Flatten;
    var k, slot := Slot(a.c.me, d), Slot(b.c.me, a.c.me);
    var echo := OwnEcho(a.c, a.tr.bcasts);
    assert Other(b.c.me, slot) == a.c.me;
    assert Agrees(MyDigestMap(b.c, b.own, b.tr.bcasts), a.c.me, b.tr.echoes[slot], Everyone(b.c.Count(), b.c.me));
    assert Other(a.c.me, k) == d;
    assert echo.digests[k] == (d, a.c.digest(d, a.tr.bcasts[k].vss));
    assert EntryAgrees(MyDigestMap(b.c, b.own, b.tr.bcasts), a.c.me, echo.digests[k]);
    assert MyDigest(b.c, b.own, b.tr.bcasts, d) == a.c.digest(d, a.tr.bcasts[k].vss);
  }

  /** A dealer's own polynomial is what the other finisher parsed from its broadcast. */
  lemma OwnPointsParsed(a: Party, b: Party)
    requires a.Done() && b.Done() && SameSession(a, b)
    requires a.tr.bcasts[Slot(a.c.me, b.c.me)].vss == Flatten(b.c.codec, b.own.poly)
    ensures PeerPoints(a.c, a.tr.bcasts[Slot(a.c.me, b.c.me)]) == b.own.poly
  {
    hide Flatten, PointsOf, Basic, FinalKey, EchoesAgree, AllResponsesOk, ShareFits, OtMessageOk;
    var k := Slot(a.c.me, b.c.me);
    assert PeerOk(a.c, Other(a.c.me, k), a.tr.bcasts[k], a.tr.unicasts[k]);
    FlattenRoundTrip(b.c.codec, b.c.n, b.own.poly);
  }

  /** The heart of the echo phase: both finishers know every dealer by the same commitments. */
  lemma ViewsAgree(a: Party, b: Party)
    requires a.Done() && b.Done() && SameSession(a, b) && CollisionFree(a.c.digest)
    requires EchoDelivered(a, b) && EchoDelivered(b, a)
    ensures AllVss(a.c, a.own, a.tr.bcasts) == AllVss(b.c, b.own, b.tr.bcasts)
  {
    hide Finished, Flatten, PointsOf, CollisionFree, EchoDelivered, EchoesAgree;
    DoneSizes(a);
    DoneSizes(b);
    forall d | 0 <= d < a.c.Count()
      ensures DealerPoints(a.c, a.own, a.tr.bcasts, d) == DealerPoints(b.c, b.own, b.tr.bcasts, d)
    {
      if d == a.c.me {
        EchoedDealer(b, a, d);
        OwnPointsParsed(b, a);
      } else {
        EchoedDealer(a, b, d);
        if d == b.c.me { OwnPointsParsed(a, b); }
      }
    }
  }

  lemma DoneSizes(p: Party)
    requires p.Done()
    ensures p.c.n >= 2 && p.c.me < |p.c.partyIds| == p.c.Count() && 1 <= p.c.t < p.c.Count() && IsPrime(p.c.n)
    ensures |p.tr.bcasts| == |p.tr.unicasts| == |p.tr.echoes| == |p.tr.r2s| == p.c.Count() - 1
    ensures p.own.Valid(p.c) && AllResponsesOk(p.c, p.tr.r2s) && p.key == FinalKey(p.c, p.own, p.tr)
    ensures EchoSettled(p) && EchoesAgree(p.c, p.own, p.tr.bcasts, p.tr.echoes)
  {
    hide PeerOk, Basic, FinalKey, Agrees, ResponseOk, IndexesOk;
  }

  /** The parts of a delivered key. */
  lemma KeyParts(p: Party)
    requires p.Done()
    ensures var vss := AllVss(p.c, p.own, p.tr.bcasts);
      && p.key.xi == FinalShare(p.c, p.own, p.tr.unicasts) && p.key.ecdsaPub == JointKey(p.c, vss)
      && p.key.bigXj == VerificationPoints(p.c, vss) && p.key.chainCode == p.c.chainOf(p.key.ecdsaPub)
      && p.key.partyIds == p.c.partyIds && p.key.t == p.c.t && p.key.idx == p.c.me && p.key.parties == p.c.Count()
      && p.key.ot == OtStates(p.c, p.own, p.tr.unicasts, p.tr.r2s)
  {
    DoneSizes(p);
    hide Finished, AllVss, JointKey, VerificationPoints, FinalShare, OtStates;
  }

  /** A delivered key means that every peer k dealt t + 1 points with an accepted proof, a share below the group order
      that fits them, a base-OT point with an accepted proof, and 128 responses. */
  lemma DeliveredMeans(p: Party, k: nat)
    requires p.Done() && k < p.c.Count() - 1
    ensures |p.tr.bcasts| == |p.tr.unicasts| == |p.tr.r2s| == p.c.Count() - 1
    ensures var j, bc, uc, pts := Other(p.c.me, k), p.tr.bcasts[k], p.tr.unicasts[k], PeerPoints(p.c, p.tr.bcasts[k]);
      && |bc.vss| == 2 * (p.c.t + 1) && |pts| == p.c.t + 1 && PointsOf(p.c.codec, bc.vss) == Some(pts)
      && p.c.pokOk(j, pts, bc.vss, bc.pok)
      && BeValue(uc.share) < p.c.n && Cong(BeValue(uc.share), Eval(pts, p.c.Id(p.c.me)), p.c.n)
    ensures var j, uc := Other(p.c.me, k), p.tr.unicasts[k];
      var s, alpha := p.c.codec.parse(uc.otS.0, uc.otS.1), p.c.codec.parse(uc.otAlpha.0, uc.otAlpha.1);
      s.Some? && alpha.Some? && p.c.otPokOk(p.c.Sid(j, p.c.me), s.value, alpha.value, uc.otT)
    ensures var r := PointsOf(p.c.codec, p.tr.r2s[k].r); r.Some? && |r.value| == 128
  {
    hide Eval, Cong, Basic, FinalKey, EchoesAgree, IsCanonicalScalar, BeValue;
    assert PeerOk(p.c, Other(p.c.me, k), p.tr.bcasts[k], p.tr.unicasts[k]);
    assert ResponseOk(p.c, p.tr.r2s[k]);
    CanonicalIff(p.c.n, p.tr.unicasts[k].share);
    SmallMod(BeValue(p.tr.unicasts[k].share), p.c.n);
  }

  lemma SessionFields(a: Party, b: Party)
    requires SameSession(a, b)
    ensures a.c.me != b.c.me && b.c.n == a.c.n && b.c.t == a.c.t && b.c.partyIds == a.c.partyIds
    ensures b.c.codec == a.c.codec
    ensures b.c.digest == a.c.digest && b.c.pairSid == a.c.pairSid && b.c.oracle == a.c.oracle
    ensures b.c.chainOf == a.c.chainOf
    ensures SameSession(b, a)
    ensures forall vss ::
      VerificationPoints(b.c, vss) == VerificationPoints(a.c, vss) && JointKey(b.c, vss) == JointKey(a.c, vss)
  {
    hide SumEval;
    forall vss ensures VerificationPoints(b.c, vss) == VerificationPoints(a.c, vss) {
      assert forall j :: 0 <= j < a.c.Count() ==> VerificationPoints(b.c, vss)[j] == VerificationPoints(a.c, vss)[j];
    }
  }

  /** Agreement: any two honest finishers hold the same public key, verification points and chain code. */
  lemma FinishersAgree(a: Party, b: Party)
    requires a.Done() && b.Done() && SameSession(a, b) && CollisionFree(a.c.digest)
    requires EchoDelivered(a, b) && EchoDelivered(b, a)
    ensures a.key.ecdsaPub == b.key.ecdsaPub && a.key.bigXj == b.key.bigXj && a.key.chainCode == b.key.chainCode
    ensures a.key.partyIds == b.key.partyIds && a.key.t == b.key.t && a.key.parties == b.key.parties
  {
    hide *;
    ViewsAgree(a, b);
    SessionFields(a, b);
    KeyParts(a);
    KeyParts(b);
    DoneSizes(a);
    DoneSizes(b);
  }

  // ---------- shares ----------

  /** Every dealer's commitments as a finisher knows them have the right degree, and its share of that dealer fits. */
  lemma DealerShare(p: Party, j: nat)
    requires p.Done() && j < p.c.Count()
    ensures |DealerPoints(p.c, p.own, p.tr.bcasts, j)| == p.c.t + 1
    ensures j != p.c.me ==> Slot(p.c.me, j) < |p.tr.unicasts|
    ensures j != p.c.me ==>
      Cong(PeerShare(p.c, p.tr.unicasts[Slot(p.c.me, j)]), Eval(DealerPoints(p.c, p.own, p.tr.bcasts, j),
        p.c.Id(p.c.me)), p.c.n)
  {
    hide Eval, Basic, FinalKey, EchoesAgree, AllResponsesOk, OtMessageOk, PointsOf, IsCanonicalScalar;
    if j != p.c.me {
      var k := Slot(p.c.me, j);
      assert PeerOk(p.c, Other(p.c.me, k), p.tr.bcasts[k], p.tr.unicasts[k]);
    }
  }

  /** My value and the peers' shares lie on the dealers' polynomials. */
  ghost predicate SharesFitDealers(c: Config, mine: Scalar, unicasts: seq<R1Unicast>, vss: seq<seq<Point>>) {
    && c.me < c.Count() == |vss| && |unicasts| == c.Count() - 1
    && Cong(mine, Eval(vss[c.me], c.Id(c.me)), c.n)
    && forall k :: 0 <= k < |unicasts| ==> Cong(PeerShare(c, unicasts[k]), Eval(vss[Other(c.me, k)], c.Id(c.me)), c.n)
  }

  lemma {:induction false} PeerSharesFit(c: Config, mine: Scalar, unicasts: seq<R1Unicast>, vss: seq<seq<Point>>,
    k: nat)
    requires SharesFitDealers(c, mine, unicasts, vss) && k <= |unicasts|
    ensures Cong(PeerShareSum(c, unicasts, k), OthersEval(vss, c.me, c.Id(c.me), k), c.n)
  {
    hide Eval, PeerShare, Cong;
    if k == 0 {
      CongSelf(0, c.n);
    } else {
      PeerSharesFit(c, mine, unicasts, vss, k - 1);
      var m := k - 1;
      CongAdd(PeerShareSum(c, unicasts, m), OthersEval(vss, c.me, c.Id(c.me), m), PeerShare(c, unicasts[m]),
        Eval(vss[Other(c.me, m)], c.Id(c.me)), c.n);
    }
  }

  /** Summing over the others in order, with the own share first, is summing over all dealers. */
  lemma SharesAddUp(c: Config, mine: Scalar, unicasts: seq<R1Unicast>, vss: seq<seq<Point>>)
    requires SharesFitDealers(c, mine, unicasts, vss)
    ensures Cong(mine + PeerShareSum(c, unicasts, |unicasts|), SumEval(vss, c.Id(c.me), |vss|), c.n)
  {
    hide Eval, PeerShare, Cong, SumEval;
    PeerSharesFit(c, mine, unicasts, vss, |unicasts|);
    OwnFirst(vss, c.me, c.Id(c.me), |vss|);
    CongAdd(mine, Eval(vss[c.me], c.Id(c.me)), PeerShareSum(c, unicasts, |unicasts|),
      OthersEval(vss, c.me, c.Id(c.me), |unicasts|), c.n);
  }

  lemma FinisherShares(p: Party)
    requires p.Done()
    ensures SharesFitDealers(p.c, OwnShare(p.c, p.own, p.c.me), p.tr.unicasts, AllVss(p.c, p.own, p.tr.bcasts))
  {
    hide Finished, Eval, PeerShare, Cong;
    DoneSizes(p);
    CongMod(Eval(p.own.poly, p.c.Id(p.c.me)), p.c.n);
    forall k | 0 <= k < |p.tr.unicasts|
      ensures Cong(PeerShare(p.c, p.tr.unicasts[k]), Eval(AllVss(p.c, p.own, p.tr.bcasts)[Other(p.c.me, k)],
        p.c.Id(p.c.me)), p.c.n)
    {
      DealerShare(p, Other(p.c.me, k));
    }
  }

  /** A finisher's share is the value of the joint polynomial at its id. */
  lemma FinalShareIs(p: Party)
    requires p.Done()
    ensures Cong(p.key.xi, SumEval(AllVss(p.c, p.own, p.tr.bcasts), p.c.Id(p.c.me), p.c.Count()), p.c.n)
    ensures 0 <= p.key.xi < p.c.n
  {
    FinalShareResidue(p);
    hide *;
    DoneSizes(p);
    KeyParts(p);
    FinisherShares(p);
    SharesAddUp(p.c, OwnShare(p.c, p.own, p.c.me), p.tr.unicasts, AllVss(p.c, p.own, p.tr.bcasts));
    CongTrans(p.key.xi, OwnShare(p.c, p.own, p.c.me) + PeerShareSum(p.c, p.tr.unicasts, |p.tr.unicasts|),
      SumEval(AllVss(p.c, p.own, p.tr.bcasts), p.c.Id(p.c.me), p.c.Count()), p.c.n);
  }

  lemma FinalShareResidue(p: Party)
    ensures Cong(FinalShare(p.c, p.own, p.tr.unicasts), OwnShare(p.c, p.own, p.c.me) + PeerShareSum(p.c, p.tr.unicasts,
      |p.tr.unicasts|), p.c.n)
  {
    hide PeerShareSum, OwnShare;
    CongMod(OwnShare(p.c, p.own, p.c.me) + PeerShareSum(p.c, p.tr.unicasts, |p.tr.unicasts|), p.c.n);
  }

  // ---------- sets of finishers ----------

  /** A set of honest finishers of one session whose echoes reached each other. */
  ghost predicate Finishers(ps: seq<Party>) {
    && ps != [] && (forall i :: 0 <= i < |ps| ==> ps[i].Done()) && CollisionFree(ps[0].c.digest)
    && (forall i, j :: 0 <= i < |ps| && 0 <= j < |ps| && i != j ==> SameSession(ps[i], ps[j]) && EchoDelivered(ps[i],
      ps[j]))
  }

  function IdsOf(ps: seq<Party>): (ids: seq<Scalar>)
    ensures |ids| == |ps| && forall i :: 0 <= i < |ps| ==> ids[i] == ps[i].c.Id(ps[i].c.me)
  {
    seq(|ps|, i requires 0 <= i < |ps| => ps[i].c.Id(ps[i].c.me))
  }

  function SharesOfParties(ps: seq<Party>): (xs: seq<Scalar>)
    ensures |xs| == |ps| && forall i :: 0 <= i < |ps| ==> xs[i] == ps[i].key.xi
  {
    seq(|ps|, i requires 0 <= i < |ps| => ps[i].key.xi)
  }

  lemma FinisherPair(ps: seq<Party>, i: nat, j: nat)
    requires Finishers(ps) && i < |ps| && j < |ps|
    ensures ps[i].Done() && ps[j].Done() && CollisionFree(ps[i].c.digest)
    ensures i != j ==> SameSession(ps[i], ps[j]) && EchoDelivered(ps[i], ps[j])
    ensures ps[j].c == ps[i].c.(me := ps[j].c.me)
  {
    hide Finished, EchoDelivered;
    if 0 != i { assert SameSession(ps[0], ps[i]); }
  }

  /** Every dealer's polynomial, as the first finisher knows it. */
  function CommonVss(ps: seq<Party>): seq<seq<Point>>
    requires ps != []
  {
    AllVss(ps[0].c, ps[0].own, ps[0].tr.bcasts)
  }

  /** The joint polynomial of the dealers. */
  function JointPoly(vss: seq<seq<Point>>, len: nat): seq<int> {
    if forall j :: 0 <= j < |vss| ==> |vss[j]| == len then SumPoly(vss, len, |vss|) else []
  }

  lemma JointPolyEval(vss: seq<seq<Point>>, len: nat, x: int)
    requires forall j :: 0 <= j < |vss| ==> |vss[j]| == len
    ensures |JointPoly(vss, len)| == len && Eval(JointPoly(vss, len), x) == SumEval(vss, x, |vss|)
  {
    EvalSumPoly(vss, len, |vss|, x);
  }

  lemma CommonVssIs(ps: seq<Party>)
    requires ps != []
    ensures CommonVss(ps) == AllVss(ps[0].c, ps[0].own, ps[0].tr.bcasts)
  {
  }

  lemma CommonDegree(ps: seq<Party>)
    requires Finishers(ps)
    ensures ps != [] && |CommonVss(ps)| == ps[0].c.Count()
    ensures forall j :: 0 <= j < |CommonVss(ps)| ==> |CommonVss(ps)[j]| == ps[0].c.t + 1
  {
    hide Finished;
    forall j | 0 <= j < |CommonVss(ps)| ensures |CommonVss(ps)[j]| == ps[0].c.t + 1 { DealerShare(ps[0], j); }
  }

  lemma PublicKeyIs(p: Party)
    requires p.Done()
    ensures var vss := AllVss(p.c, p.own, p.tr.bcasts); Cong(p.key.ecdsaPub, SumEval(vss, 0, |vss|), p.c.n)
  {
    KeyParts(p);
    hide Finished, SumEval;
    var vss := AllVss(p.c, p.own, p.tr.bcasts);
    CongMod(SumEval(vss, 0, |vss|), p.c.n);
  }

  lemma FinisherShare(ps: seq<Party>, i: nat)
    requires Finishers(ps) && i < |ps|
    ensures ps[i].c.n == ps[0].c.n
    ensures Cong(ps[i].key.xi, SumEval(CommonVss(ps), ps[i].c.Id(ps[i].c.me), |CommonVss(ps)|), ps[0].c.n)
  {
    hide *;
    FirstExists(ps);
    CommonVssIs(ps);
    FinisherPair(ps, 0, i);
    FinisherPair(ps, i, 0);
    if i != 0 { ViewsAgree(ps[0], ps[i]); }
    FinalShareIs(ps[i]);
    DoneSizes(ps[i]);
    DoneSizes(ps[0]);
  }

  lemma FirstExists(ps: seq<Party>)
    requires Finishers(ps)
    ensures ps != []
  {
  }

  lemma DistinctFinishers(ps: seq<Party>)
    requires Finishers(ps)
    ensures Distinct(ps[0].c.n, IdsOf(ps))
  {
    hide *;
    FirstExists(ps);
    DistinctIds(ps);
    DistinctMeans(ps[0].c.n, IdsOf(ps));
  }

  lemma DistinctMeans(n: int, xs: seq<int>)
    requires n > 0 && forall i, j :: 0 <= i < j < |xs| ==> !Cong(xs[i], xs[j], n)
    ensures Distinct(n, xs)
  {
  }

  lemma DistinctIds(ps: seq<Party>)
    requires Finishers(ps)
    ensures forall i, j :: 0 <= i < j < |ps| ==> !Cong(IdsOf(ps)[i], IdsOf(ps)[j], ps[0].c.n)
  {
    hide *;
    FirstExists(ps);
    FinisherPair(ps, 0, 0);
    forall i, j | 0 <= i < j < |ps| ensures !Cong(IdsOf(ps)[i], IdsOf(ps)[j], ps[0].c.n) {
      FinisherPair(ps, i, j);
      FinisherPair(ps, 0, i);
      FinisherPair(ps, 0, j);
      SessionFields(ps[i], ps[j]);
      DifferentIds(ps[0], ps[i].c.me, ps[j].c.me);
      DoneSizes(ps[i]);
      DoneSizes(ps[j]);
    }
  }

  lemma DifferentIds(p: Party, x: nat, y: nat)
    requires p.Done() && x != y
    ensures x < |p.c.partyIds| && y < |p.c.partyIds| ==>
      !Cong(p.c.(me := x).Id(x), p.c.(me := y).Id(y), p.c.n)
  {
    hide Cong, AllPeersOk, EchoesAgree, AllResponsesOk, FinalKey, Basic;
    var all := Ids(p.c.n, p.c.partyIds);
    IndexesDistinct(p.c.n, all);
    if x < |all| && y < |all| { CongFlip(all[x], all[y], p.c.n); }
  }

  /** The joint polynomial has the finishers' shares as values and the key's logarithm at zero. */
  lemma JointValues(ps: seq<Party>)
    requires Finishers(ps)
    ensures ps != [] && var f := JointPoly(CommonVss(ps), ps[0].c.t + 1);
      && |f| == ps[0].c.t + 1
      && (forall i :: 0 <= i < |ps| ==> Cong(SharesOfParties(ps)[i], Eval(f, IdsOf(ps)[i]), ps[0].c.n))
      && Cong(Eval(f, 0), ps[0].key.ecdsaPub, ps[0].c.n)
  {
    hide *;
    FirstExists(ps);
    CommonVssIs(ps);
    var n, t, vss := ps[0].c.n, ps[0].c.t, CommonVss(ps);
    var f := JointPoly(vss, t + 1);
    CommonDegree(ps);
    forall i | 0 <= i < |ps| ensures Cong(SharesOfParties(ps)[i], Eval(f, IdsOf(ps)[i]), n) {
      FinisherShare(ps, i);
      JointPolyEval(vss, t + 1, IdsOf(ps)[i]);
    }
    JointPolyEval(vss, t + 1, 0);
    FinisherPair(ps, 0, 0);
    PublicKeyIs(ps[0]);
    CongFlip(ps[0].key.ecdsaPub, Eval(f, 0), n);
  }

  /** Any t + 1 honest finishers' shares interpolate to the logarithm of the public key they agree on. */
  lemma FinishersReconstruct(ps: seq<Party>)
    requires Finishers(ps) && |ps| > ps[0].c.t
    ensures Cong(WeightedSum(ps[0].c.n, IdsOf(ps), SharesOfParties(ps), |ps|), ps[0].key.ecdsaPub, ps[0].c.n)
  {
    hide *;
    FirstExists(ps);
    FinisherPair(ps, 0, 0);
    DoneSizes(ps[0]);
    JointValues(ps);
    DistinctFinishers(ps);
    var n, ids, xs := ps[0].c.n, IdsOf(ps), SharesOfParties(ps);
    var f := JointPoly(CommonVss(ps), ps[0].c.t + 1);
    InterpolateValues(n, ids, f, xs);
    CongTrans(WeightedSum(n, ids, xs, |ids|), Eval(f, 0), ps[0].key.ecdsaPub, n);
  }

  // ---------- pairwise OT state ----------

  /** b used the base-OT messages that a sent it. */
  ghost predicate OtDelivered(a: Party, b: Party) {
    && a.c.me != b.c.me && Slot(b.c.me, a.c.me) < |b.tr.unicasts| && Slot(b.c.me, a.c.me) < |b.tr.r2s|
    && Slot(a.c.me, b.c.me) < |a.tr.unicasts|
    && |a.own.delta(b.c.me)| == DELTA_BYTES && |a.own.xs(b.c.me)| == KAPPA
    && b.tr.unicasts[Slot(b.c.me, a.c.me)].otS == a.c.codec.coords(MulBase(a.c.n, a.own.y(b.c.me)))
    && b.tr.r2s[Slot(b.c.me, a.c.me)] == OwnR2(a.c, a.own, a.tr.unicasts[Slot(a.c.me, b.c.me)], b.c.me)
  }

  /** The base-OT messages a party used are well-formed, and the key holds the states built from them. */
  ghost predicate OtReady(p: Party) {
    && p.c.codec.Valid(p.c.n) && p.c.oracle.Valid() && p.own.Drawn() && p.c.me < p.c.Count()
    && |p.tr.unicasts| == |p.tr.r2s| == p.c.Count() - 1 && AllResponsesOk(p.c, p.tr.r2s)
    && (forall k :: 0 <= k < |p.tr.unicasts| ==> OtMessageOk(p.c, Other(p.c.me, k), p.tr.unicasts[k]))
    && p.key.ot == OtStates(p.c, p.own, p.tr.unicasts, p.tr.r2s)
  }

  lemma DoneOtReady(p: Party)
    requires p.Done()
    ensures OtReady(p)
  {
    DoneSizes(p);
    KeyParts(p);
    hide Basic, FinalKey, EchoesAgree, AllResponsesOk, DealerOk, OtMessageOk, OtStates;
    forall k | 0 <= k < |p.tr.unicasts| ensures OtMessageOk(p.c, Other(p.c.me, k), p.tr.unicasts[k]) {
      assert PeerOk(p.c, Other(p.c.me, k), p.tr.bcasts[k], p.tr.unicasts[k]);
    }
  }

  /** The sender point b parsed is the one a drew. */
  lemma SenderPoint(a: Party, b: Party)
    requires OtReady(a) && OtReady(b) && SameSession(a, b) && OtDelivered(a, b)
    ensures PeerS(b.c, b.tr.unicasts[Slot(b.c.me, a.c.me)]) == Some(MulBase(a.c.n, a.own.y(b.c.me)))
  {
    hide AllResponsesOk, OtStates, OwnR2;
    var k := Slot(b.c.me, a.c.me);
    assert OtMessageOk(b.c, Other(b.c.me, k), b.tr.unicasts[k]);
  }

  /** The responses a parsed are the ones b computed. */
  lemma ParsedResponses(a: Party, b: Party)
    requires OtReady(a) && OtReady(b) && SameSession(a, b) && OtDelivered(b, a) && OtDelivered(a, b)
    ensures |b.own.delta(a.c.me)| == DELTA_BYTES && |b.own.xs(a.c.me)| == KAPPA
    ensures PointsOf(a.c.codec, a.tr.r2s[Slot(a.c.me, b.c.me)].r)
      == Some(OwnResponses(b.c, b.own, b.tr.unicasts[Slot(b.c.me, a.c.me)], a.c.me))
  {
    hide OtStates, PointsOf, Flatten;
    var r := OwnResponses(b.c, b.own, b.tr.unicasts[Slot(b.c.me, a.c.me)], a.c.me);
    assert ResponseOk(a.c, a.tr.r2s[Slot(a.c.me, b.c.me)]);
    FlattenRoundTrip(b.c.codec, b.c.n, r);
  }

  /** The pair's session id is the same on both sides. */
  lemma SameSid(a: Party, b: Party, ext: nat)
    requires SameSession(a, b)
    ensures a.c.Sid(b.c.me, ext) == b.c.Sid(a.c.me, ext)
  {
  }

  /** The state a holds for the direction in which b becomes the extension sender matches b's. */
  lemma DirectionMatches(a: Party, b: Party, sa: PairOt, sb: PairOt)
    requires OtReady(a) && OtReady(b) && SameSession(a, b) && OtDelivered(a, b) && OtDelivered(b, a)
    requires OtSlot(a.c, a.own, a.tr.unicasts, a.tr.r2s, b.c.me) == Some(sa)
    requires OtSlot(b.c, b.own, b.tr.unicasts, b.tr.r2s, a.c.me) == Some(sb)
    ensures sa.Valid() && sb.Valid() && SeedsMatch(sb.asBob, sa.asAlice)
  {
    hide OtReady, PointsOf, Flatten, ReceiverFinalize, SenderKey;
    SenderPoint(a, b);
    ParsedResponses(a, b);
    SameSid(a, b, b.c.me);
    var uc := b.tr.unicasts[Slot(b.c.me, a.c.me)];
    var r, rcv := OwnResponses(b.c, b.own, uc, a.c.me), MyReceiver(b.c, b.own, uc, a.c.me);
    var snd := MySender(a.c, a.own, b.c.me);
    forall i | 0 <= i < KAPPA
      ensures ReceiverFinalize(b.c.oracle, b.c.n, rcv)[i] == SenderKey(a.c.oracle, a.c.n, snd, i, r[i],
        BitAt(rcv.bits, i))
    {
      ReceivedKey(b.c.oracle, b.c.n, rcv, i);
      ChosenKeyAgrees(a.c.oracle, a.c.n, snd.sid, KAPPA, a.own.y(b.c.me), rcv.x[i], BitAt(rcv.bits, i), i);
    }
  }

  lemma ReceivedKey(o: Oracle, n: int, rcv: Receiver, i: nat)
    requires n > 0 && rcv.Valid() && i < rcv.count
    ensures ReceiverFinalize(o, n, rcv)[i] == o.deriveKey(rcv.sid, i, BitAt(rcv.bits, i), PointMul(n, rcv.s, rcv.x[i]))
  {
  }

  lemma SlotFilled(a: Party, j: nat)
    requires OtReady(a) && j != a.c.me && j < a.c.Count()
    ensures OtSlot(a.c, a.own, a.tr.unicasts, a.tr.r2s, j).Some? && j < |a.key.ot|
    ensures a.key.ot[j] == OtSlot(a.c, a.own, a.tr.unicasts, a.tr.r2s, j)
  {
    hide PointsOf, SenderKey, ReceiverFinalize;
    assert ResponseOk(a.c, a.tr.r2s[Slot(a.c.me, j)]);
  }

  /** Two honest finishers whose base-OT messages reached each other hold matching OT-extension state, both ways. */
  lemma PairStateMatches(a: Party, b: Party)
    requires OtReady(a) && OtReady(b) && SameSession(a, b) && OtDelivered(a, b) && OtDelivered(b, a)
    ensures b.c.me < |a.key.ot| && a.c.me < |b.key.ot| && PairMatches(a.key.ot[b.c.me], b.key.ot[a.c.me])
  {
    hide OtMessageOk, AllResponsesOk, OtStates, OtSlot, SeedsMatch, OtDelivered;
    SessionFields(a, b);
    SlotFilled(a, b.c.me);
    SlotFilled(b, a.c.me);
    var sa, sb := a.key.ot[b.c.me].value, b.key.ot[a.c.me].value;
    DirectionMatches(a, b, sa, sb);
    DirectionMatches(b, a, sb, sa);
  }

  /** Everyone is honest: party i of the committee at position i, all messages delivered. */
  ghost predicate WholeCommittee(ps: seq<Party>) {
    && Finishers(ps) && |ps| == ps[0].c.Count()
    && (forall i :: 0 <= i < |ps| ==> ps[i].c.me == i)
    && (forall i, j :: 0 <= i < |ps| && 0 <= j < |ps| && i != j ==> OtDelivered(ps[i], ps[j]))
  }

  function KeysOf(ps: seq<Party>): (keys: seq<Key>)
    ensures |keys| == |ps| && forall i :: 0 <= i < |ps| ==> keys[i] == ps[i].key
  {
    seq(|ps|, i requires 0 <= i < |ps| => ps[i].key)
  }

  lemma CommitteeMember(ps: seq<Party>, i: nat, j: nat)
    requires WholeCommittee(ps) && i < |ps| && j < |ps|
    ensures Finishers(ps) && |ps| == ps[0].c.Count() && ps[i].c.me == i && (i != j ==> OtDelivered(ps[i], ps[j]))
  {
    hide Finishers, OtDelivered;
  }

  lemma SamePublicPart(ps: seq<Party>, i: nat)
    requires WholeCommittee(ps) && i < |ps|
    ensures ps[0].key.partyIds == ps[0].c.partyIds
    ensures |ps| == ps[0].key.parties == |ps[0].key.partyIds| == |ps[0].key.bigXj|
    ensures ps[0].key.t == ps[0].c.t
    ensures ps[i].key == ps[0].key.(idx := i, xi := ps[i].key.xi, ot := ps[i].key.ot)
    ensures |ps[i].key.ot| == |ps| && ps[i].key.ot[i] == None
  {
    hide *;
    CommitteeMember(ps, 0, 0);
    CommitteeMember(ps, i, 0);
    FinisherPair(ps, 0, i);
    FinisherPair(ps, i, 0);
    KeyParts(ps[0]);
    KeyParts(ps[i]);
    DoneSizes(ps[0]);
    DoneSizes(ps[i]);
    if i != 0 {
      FinishersAgree(ps[0], ps[i]);
      SessionFields(ps[0], ps[i]);
    }
    OwnSlotEmpty(ps[i]);
    VerificationCount(ps[0]);
    SameCount(ps[0], ps[i]);
  }

  lemma SameCount(a: Party, b: Party)
    ensures a.c.partyIds == b.c.partyIds ==> a.c.Count() == b.c.Count()
  {
  }

  lemma VerificationCount(p: Party)
    ensures |VerificationPoints(p.c, AllVss(p.c, p.own, p.tr.bcasts))| == p.c.Count()
  {
  }

  lemma OwnSlotEmpty(p: Party)
    requires p.c.me < p.c.Count()
    ensures OtStates(p.c, p.own, p.tr.unicasts, p.tr.r2s)[p.c.me] == None
    ensures |OtStates(p.c, p.own, p.tr.unicasts, p.tr.r2s)| == p.c.Count()
  {
  }

  /** Party i's published verification point is its share. */
  lemma PointIsShare(ps: seq<Party>, i: nat)
    requires WholeCommittee(ps) && i < |ps|
    ensures i < |ps[0].key.bigXj| && ps[0].key.bigXj[i] == ps[i].key.xi && 0 <= ps[i].key.xi < ps[0].c.n
  {
    hide *;
    CommitteeMember(ps, i, i);
    SamePublicPart(ps, i);
    FinisherPair(ps, 0, i);
    FinisherPair(ps, i, 0);
    if i != 0 { ViewsAgree(ps[0], ps[i]); }
    FinalShareIs(ps[i]);
    KeyParts(ps[0]);
    DoneSizes(ps[0]);
    DoneSizes(ps[i]);
    PointAt(ps[0], i);
    SameIds(ps[0].c, ps[i].c);
    CongTrans(ps[0].key.bigXj[i], SumEval(AllVss(ps[0].c, ps[0].own, ps[0].tr.bcasts), ps[0].c.Id(i), ps[0].c.Count()),
      ps[i].key.xi, ps[0].c.n);
    CongSmall(ps[0].key.bigXj[i], ps[i].key.xi, ps[0].c.n);
  }

  lemma PointAt(p: Party, i: nat)
    requires i < p.c.Count()
    ensures var vss := AllVss(p.c, p.own, p.tr.bcasts); var v := VerificationPoints(p.c, vss);
      |v| == |vss| == p.c.Count() && 0 <= v[i] < p.c.n && Cong(v[i], SumEval(vss, p.c.Id(i), |vss|), p.c.n)
  {
    var vss := AllVss(p.c, p.own, p.tr.bcasts);
    CongMod(SumEval(vss, p.c.Id(i), |vss|), p.c.n);
  }

  /** When everyone is honest the delivered keys form a sharing of the public key's logarithm, ready for signing. */
  lemma WholeCommitteeShares(ps: seq<Party>)
    requires WholeCommittee(ps)
    ensures ps != [] && Sharing(ps[0].c.n, KeysOf(ps), ps[0].key.ecdsaPub)
  {
    hide *;
    FirstOfCommittee(ps);
    var keys, n := KeysOf(ps), ps[0].c.n;
    CommitteeMember(ps, 0, 0);
    SamePublicPart(ps, 0);
    FinisherPair(ps, 0, 0);
    DoneSizes(ps[0]);
    JointValues(ps);
    IndexesOf(ps[0]);
    KeyParts(ps[0]);
    forall i | 0 <= i < |keys|
      ensures keys[i] == keys[0].(idx := i, xi := keys[i].xi, ot := keys[i].ot)
      ensures 0 <= keys[i].xi < n && keys[0].bigXj[i] == keys[i].xi
      ensures |keys[i].ot| == |keys| && keys[i].ot[i] == None && IdsOf(ps)[i] == ps[0].c.Id(i)
    {
      SamePublicPart(ps, i);
      PointIsShare(ps, i);
      CommitteeMember(ps, i, i);
      FinisherPair(ps, 0, i);
      SameIds(ps[0].c, ps[i].c);
    }
    forall i, j | 0 <= i < |keys| && 0 <= j < |keys| && i != j ensures PairMatches(keys[i].ot[j], keys[j].ot[i]) {
      CommitteeMember(ps, i, j);
      CommitteeMember(ps, j, i);
      FinisherPair(ps, i, j);
      DoneOtReady(ps[i]);
      DoneOtReady(ps[j]);
      PairStateMatches(ps[i], ps[j]);
    }
    PublicInField(ps[0]);
    SharingIntro(n, keys, ps[0].key.ecdsaPub, JointPoly(CommonVss(ps), ps[0].c.t + 1), IdsOf(ps), SharesOfParties(ps),
      ps[0].c);
  }

  lemma FirstOfCommittee(ps: seq<Party>)
    requires WholeCommittee(ps)
    ensures ps != []
  {
  }

  lemma PublicInField(p: Party)
    requires p.Done()
    ensures 0 <= p.key.ecdsaPub < p.c.n && |p.c.partyIds| == p.c.Count()
  {
    KeyParts(p);
  }

  lemma IndexesOf(p: Party)
    requires p.Done()
    ensures Distinct(p.c.n, Ids(p.c.n, p.c.partyIds))
  {
    hide Cong, AllPeersOk, EchoesAgree, AllResponsesOk, FinalKey, Basic;
    IndexesDistinct(p.c.n, Ids(p.c.n, p.c.partyIds));
  }

  lemma SharingIntro(n: Order, keys: seq<Key>, pub: Point, f: seq<int>, ids: seq<Scalar>, xs: seq<Scalar>, c: Config)
    requires keys != [] && |keys| == keys[0].parties == |keys[0].partyIds| == |keys[0].bigXj| && keys[0].t < |keys|
    requires c.n == n && c.partyIds == keys[0].partyIds && |ids| == |xs| == |keys|
    requires forall i :: 0 <= i < |keys| ==> keys[i] == keys[0].(idx := i, xi := keys[i].xi, ot := keys[i].ot)
    requires forall i :: 0 <= i < |keys| ==> 0 <= keys[i].xi < n && keys[0].bigXj[i] == keys[i].xi
    requires forall i :: 0 <= i < |keys| ==>
      |keys[i].ot| == |keys| && keys[i].ot[i] == None && ids[i] == c.Id(i) && xs[i] == keys[i].xi
    requires forall i, j :: 0 <= i < |keys| && 0 <= j < |keys| && i != j ==> PairMatches(keys[i].ot[j], keys[j].ot[i])
    requires |f| == keys[0].t + 1 && (forall i :: 0 <= i < |keys| ==> Cong(xs[i], Eval(f, ids[i]), n)) && Cong(Eval(f,
      0), pub, n)
    requires Distinct(n, Ids(n, keys[0].partyIds)) && pub == keys[0].ecdsaPub && 0 <= pub < n
    ensures Sharing(n, keys, pub)
  {
    hide Cong, Eval, PairMatches, Distinct;
    assert Ids(n, keys[0].partyIds) == ids;
    assert Shares(keys) == xs;
    assert OnPolynomial(n, ids, xs, f);
    assert SharesOf(n, ids, xs, keys[0].t, pub);
    assert AllPairsMatch(OtRows(keys), |keys|);
    CongSelf(pub, n);
  }
}
