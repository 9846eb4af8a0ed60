/** What one party of the broker refresh (src/dklstss/refresh_party.rs) checks and computes, and what parties that
    finish have in common. Every dealer deals a polynomial with constant term zero and publishes the other coefficients;
    `Own.poly` holds those coefficients. */
module RefreshView {
  import opened NumberTheory
  import opened Polynomial
  import opened Results
  import opened Bits
  import opened Secp
  import opened OtExtension
  import opened BaseOt
  import opened Vss
  import opened Keys
  import opened SignEncoding
  import opened Echo
  import opened Committee
  import opened Ole
  import opened Dkg
  import opened DkgAgreement

  /** The session and the key being refreshed. */
  datatype RefreshConfig = RefreshConfig(base: Config, prior: Key) {
    ghost predicate Valid() {
      && IsPrime(base.n) && base.codec.Valid(base.n) && base.oracle.Valid() && base.me < base.Count()
      && base.partyIds == prior.partyIds && base.t == prior.t && Basic(base.n, prior)
      && 0 <= prior.xi < base.n && 0 <= prior.ecdsaPub < base.n && Reduced(base.n, prior.bigXj)
    }
  }

  ghost predicate OwnOk(c: Config, own: Own) { |own.poly| == c.t && Reduced(c.n, own.poly) && own.Drawn() }

  // ---------- the checks on one peer ----------

  /** The commitments have degree t and a zero constant term by form, and the share lies on them. */
  ghost predicate DeltaOk(c: Config, bc: R1Bcast, share: bytes) {
    && |bc.vss| == 2 * c.t && PointsOf(c.codec, bc.vss).Some? && IsCanonicalScalar(c.n, share)
    && PeerPoints(c, bc) != [] && Cong(BeValue(share) % c.n, Eval([0] + PeerPoints(c, bc), c.Id(c.me)), c.n)
  }

  ghost predicate RefresherOk(c: Config, j: nat, bc: R1Bcast, uc: R1Unicast) {
    DeltaOk(c, bc, uc.share) && OtMessageOk(c, j, uc)
  }

  ghost predicate AllRefreshersOk(c: Config, bcasts: seq<R1Bcast>, unicasts: seq<R1Unicast>) {
    && c.me < c.Count() && |bcasts| == |unicasts| == c.Count() - 1
    && forall k :: 0 <= k < c.Count() - 1 ==> RefresherOk(c, Other(c.me, k), bcasts[k], unicasts[k])
  }

  // ---------- the refreshed key ----------

  /** Every dealer's zero-constant polynomial as this party knows it. */
  function ZeroVss(c: Config, own: Own, bcasts: seq<R1Bcast>): (vss: seq<seq<Point>>)
    ensures |vss| == c.Count() && forall j :: 0 <= j < c.Count() ==> vss[j] == [0] + DealerPoints(c, own, bcasts, j)
  {
    seq(c.Count(), j requires 0 <= j < c.Count() => [0] + DealerPoints(c, own, bcasts, j))
  }

  /** What a dealer gives party j. */
  function OwnDelta(c: Config, own: Own, j: nat): (s: Scalar)
    ensures 0 <= s < c.n
  {
    Eval([0] + own.poly, c.Id(j)) % c.n
  }

  /** old x_i plus every dealer's contribution */
  function NewShare(rc: RefreshConfig, own: Own, unicasts: seq<R1Unicast>): (xi: Scalar)
    ensures 0 <= xi < rc.base.n
  {
    FAdd(rc.base.n, rc.prior.xi, (OwnDelta(rc.base, own, rc.base.me) + PeerShareSum(rc.base, unicasts,
      |unicasts|)) % rc.base.n)
  }

  function NewPoint(rc: RefreshConfig, vss: seq<seq<Point>>, j: nat): (p: Point)
    ensures 0 <= p < rc.base.n
  {
    PointAdd(rc.base.n, if j < |rc.prior.bigXj| then rc.prior.bigXj[j] else 0,
      SumEval(vss, rc.base.Id(j), |vss|) % rc.base.n)
  }

  function NewPoints(rc: RefreshConfig, vss: seq<seq<Point>>): (big: seq<Point>)
    ensures |big| == rc.base.Count() && forall j :: 0 <= j < |big| ==> big[j] == NewPoint(rc, vss, j)
  {
    seq(rc.base.Count(), j requires 0 <= j < rc.base.Count() => NewPoint(rc, vss, j))
  }

  function RefreshedKey(rc: RefreshConfig, own: Own, tr: Transcript): Key {
    rc.prior.(xi := NewShare(rc, own, tr.unicasts), bigXj := NewPoints(rc, ZeroVss(rc.base, own, tr.bcasts)),
      ot := OtStates(rc.base, own, tr.unicasts, tr.r2s))
  }

  /** A party that delivers a key has verified every report and every share, and the new share against its new point. */
  ghost predicate RefreshDone(rc: RefreshConfig, own: Own, tr: Transcript, key: Key) {
    && rc.Valid() && OwnOk(rc.base, own)
    && EchoesAgree(rc.base, own, tr.bcasts, tr.echoes) && AllRefreshersOk(rc.base, tr.bcasts, tr.unicasts)
    && AllResponsesOk(rc.base, tr.r2s)
    && key == RefreshedKey(rc, own, tr) && key.xi == key.bigXj[rc.base.me] && Basic(rc.base.n, key)
  }

  // ---------- agreement ----------

  datatype Refresher = Refresher(rc: RefreshConfig, own: Own, tr: Transcript, key: Key) {
    ghost predicate Done() { RefreshDone(rc, own, tr, key) }

    /** Its side of the echo phase and of the base OTs. */
    function Side(): Party { Party(rc.base, own, tr, key) }

    function Vss(): seq<seq<Point>> { ZeroVss(rc.base, own, tr.bcasts) }

    function Id(): Scalar { rc.base.Id(rc.base.me) }
  }

  /** Two members of one session holding keys with the same public part. */
  ghost predicate SameRefresh(a: Refresher, b: Refresher) {
    && SameSession(a.Side(), b.Side())
    && b.rc.prior == a.rc.prior.(idx := b.rc.prior.idx, xi := b.rc.prior.xi, ot := b.rc.prior.ot)
  }

  lemma DoneParts(a: Refresher)
    requires a.Done()
    ensures a.rc.Valid() && OwnOk(a.rc.base, a.own) && AllRefreshersOk(a.rc.base, a.tr.bcasts, a.tr.unicasts)
    ensures a.key == RefreshedKey(a.rc, a.own, a.tr) && a.rc.base.me < a.rc.base.Count() == |a.key.bigXj|
    ensures a.rc.base.n >= 2
    ensures a.key.xi == a.key.bigXj[a.rc.base.me]
    ensures |a.tr.bcasts| == |a.tr.unicasts| == |a.tr.r2s| == a.rc.base.Count() - 1
    ensures IsPrime(a.rc.base.n) && EchoSettled(a.Side())
  {
    hide EchoesAgree, RefresherOk, ResponseOk, OtStates, NewPoint, NewShare, Basic;
  }

  /** A delivered key means that every peer k dealt t points, a delta below the group order that is the value of the
      polynomial with those coefficients and none in degree zero, and a base-OT point with an accepted proof. */
  lemma DeliveredMeans(a: Refresher, k: nat)
    requires a.Done() && k < a.rc.base.Count() - 1
    ensures |a.tr.bcasts| == |a.tr.unicasts| == a.rc.base.Count() - 1
    ensures var c, bc, uc := a.rc.base, a.tr.bcasts[k], a.tr.unicasts[k]; var pts := PeerPoints(c, bc);
      && |bc.vss| == 2 * c.t && |pts| == c.t && PointsOf(c.codec, bc.vss) == Some(pts)
      && BeValue(uc.share) < c.n && Cong(BeValue(uc.share), Eval([0] + pts, c.Id(c.me)), c.n)
      && OtMessageOk(c, Other(c.me, k), uc)
  {
    DoneParts(a);
    hide RefreshDone, RefreshConfig.Valid, Eval, IsCanonicalScalar, BeValue, OtMessageOk, PointsOf;
    var c, uc := a.rc.base, a.tr.unicasts[k];
    assert RefresherOk(c, Other(c.me, k), a.tr.bcasts[k], uc);
    CanonicalIff(c.n, uc.share);
    SmallMod(BeValue(uc.share), c.n);
  }

  /** Only the key's own party can finish: any other finds OT state in the slot that has to be empty. */
  lemma OwnKeyOnly(a: Refresher)
    requires a.Done()
    ensures a.rc.prior.idx == a.rc.base.me
  {
    DoneParts(a);
    FinisherOtReady(a);
    hide RefreshDone, OtReady, NewPoint, NewShare, OtStates;
    if a.rc.prior.idx != a.rc.base.me {
      assert Basic(a.rc.base.n, a.key) by { KeyIsBasic(a); }
      SlotFilled(a.Side(), a.rc.prior.idx);
      assert false;
    }
  }

  lemma KeyIsBasic(a: Refresher)
    requires a.Done()
    ensures a.rc.base.n > 0 && Basic(a.rc.base.n, a.key) && a.rc.prior.idx < a.rc.base.Count()
  {
    hide EchoesAgree, AllRefreshersOk, AllResponsesOk;
  }

  lemma FinisherOtReady(a: Refresher)
    requires a.Done()
    ensures OtReady(a.Side())
  {
    DoneParts(a);
    hide Basic, EchoesAgree, AllResponsesOk, DeltaOk, OtMessageOk, OtStates, NewPoint, NewShare;
    forall k | 0 <= k < |a.tr.unicasts| ensures OtMessageOk(a.rc.base, Other(a.rc.base.me, k), a.tr.unicasts[k]) {
      assert RefresherOk(a.rc.base, Other(a.rc.base.me, k), a.tr.bcasts[k], a.tr.unicasts[k]);
    }
  }

  /** A dealer's own coefficients are what the other finisher parsed from its broadcast. */
  lemma OwnCoefficientsParsed(a: Refresher, b: Refresher)
    requires a.Done() && b.Done() && SameRefresh(a, b)
    requires |a.tr.bcasts| == a.rc.base.Count() - 1 && b.rc.base.me < b.rc.base.Count()
    requires a.tr.bcasts[Slot(a.rc.base.me, b.rc.base.me)].vss == Flatten(b.rc.base.codec, b.own.poly)
    ensures PeerPoints(a.rc.base, a.tr.bcasts[Slot(a.rc.base.me, b.rc.base.me)]) == b.own.poly
  {
    hide Flatten, PointsOf, Basic, EchoesAgree, AllResponsesOk, OtMessageOk, RefreshedKey;
    var k := Slot(a.rc.base.me, b.rc.base.me);
    assert RefresherOk(a.rc.base, Other(a.rc.base.me, k), a.tr.bcasts[k], a.tr.unicasts[k]);
    FlattenRoundTrip(b.rc.base.codec, b.rc.base.n, b.own.poly);
  }

  lemma HeardIs(c: Config, own: Own, bcasts: seq<R1Bcast>, d: nat)
    ensures d == c.me ==>
      Heard(c, own, bcasts, d) == Flatten(c.codec, own.poly) && DealerPoints(c, own, bcasts, d) == own.poly
    ensures d != c.me && Slot(c.me, d) < |bcasts| ==>
      && Heard(c, own, bcasts, d) == bcasts[Slot(c.me, d)].vss
      && DealerPoints(c, own, bcasts, d) == PeerPoints(c, bcasts[Slot(c.me, d)])
  {
  }

  lemma ParsedAlike(c: Config, c': Config, x: R1Bcast, y: R1Bcast)
    requires c.codec == c'.codec && x.vss == y.vss
    ensures PeerPoints(c, x) == PeerPoints(c', y)
  {
  }

  lemma SlotBelow(me: nat, d: nat, count: nat)
    requires me < count && d < count && d != me
    ensures Slot(me, d) < count - 1
  {
  }

  /** Both finishers know a dealer other than the first by the same coefficients. */
  lemma SameDealer(a: Refresher, b: Refresher, d: nat)
    requires a.Done() && b.Done() && SameRefresh(a, b) && CollisionFree(a.rc.base.digest)
    requires EchoDelivered(a.Side(), b.Side())
    requires d < a.rc.base.Count() && d != a.rc.base.me
    ensures DealerPoints(a.rc.base, a.own, a.tr.bcasts, d) == DealerPoints(b.rc.base, b.own, b.tr.bcasts, d)
  {
    SidesMatch(a, b);
    hide *;
    DoneParts(a);
    DoneParts(b);
    EchoedDealer(a.Side(), b.Side(), d);
    HeardIs(a.rc.base, a.own, a.tr.bcasts, d);
    HeardIs(b.rc.base, b.own, b.tr.bcasts, d);
    SlotBelow(a.rc.base.me, d, a.rc.base.Count());
    if d == b.rc.base.me {
      OwnCoefficientsParsed(a, b);
    } else {
      SlotBelow(b.rc.base.me, d, b.rc.base.Count());
      ParsedAlike(a.rc.base, b.rc.base, a.tr.bcasts[Slot(a.rc.base.me, d)], b.tr.bcasts[Slot(b.rc.base.me, d)]);
    }
  }

  lemma SidesMatch(a: Refresher, b: Refresher)
    requires SameRefresh(a, b)
    ensures SameRefresh(b, a) && SameSession(a.Side(), b.Side()) && a.rc.base.Count() == b.rc.base.Count()
    ensures a.rc.base.me != b.rc.base.me
    ensures a.rc.base.codec == b.rc.base.codec && a.rc.base.digest == b.rc.base.digest && a.rc.base.n == b.rc.base.n
    ensures a.Side() == Party(a.rc.base, a.own, a.tr, a.key) && b.Side() == Party(b.rc.base, b.own, b.tr, b.key)
  {
  }

  lemma VssAlike(a: Refresher, b: Refresher)
    requires a.rc.base.Count() == b.rc.base.Count()
    requires forall d :: 0 <= d < a.rc.base.Count() ==>
      DealerPoints(a.rc.base, a.own, a.tr.bcasts, d) == DealerPoints(b.rc.base, b.own, b.tr.bcasts, d)
    ensures a.Vss() == b.Vss()
  {
    hide DealerPoints;
  }

  /** After the echo phase both finishers know every dealer by the same polynomial. */
  lemma RefreshViewsAgree(a: Refresher, b: Refresher)
    requires a.Done() && b.Done() && SameRefresh(a, b) && CollisionFree(a.rc.base.digest)
    requires EchoDelivered(a.Side(), b.Side()) && EchoDelivered(b.Side(), a.Side())
    ensures a.Vss() == b.Vss()
  {
    SidesMatch(a, b);
    hide *;
    forall d | 0 <= d < a.rc.base.Count()
      ensures DealerPoints(a.rc.base, a.own, a.tr.bcasts, d) == DealerPoints(b.rc.base, b.own, b.tr.bcasts, d)
    {
      if d == a.rc.base.me { SameDealer(b, a, d); } else { SameDealer(a, b, d); }
    }
    VssAlike(a, b);
  }

  /** Agreement: any two honest finishers hold the same new public shares under the old public key and chain code. */
  lemma RefreshersAgree(a: Refresher, b: Refresher)
    requires a.Done() && b.Done() && SameRefresh(a, b) && CollisionFree(a.rc.base.digest)
    requires EchoDelivered(a.Side(), b.Side()) && EchoDelivered(b.Side(), a.Side())
    ensures a.key.bigXj == b.key.bigXj
    ensures a.key.ecdsaPub == b.key.ecdsaPub == a.rc.prior.ecdsaPub
    ensures a.key.chainCode == b.key.chainCode == a.rc.prior.chainCode
    ensures a.key.partyIds == b.key.partyIds && a.key.t == b.key.t && a.key.parties == b.key.parties
  {
    hide RefreshDone, CollisionFree, EchoDelivered, ZeroVss, SumEval, NewShare, OtStates;
    DoneParts(a);
    DoneParts(b);
    RefreshViewsAgree(a, b);
    assert NewPoints(a.rc, a.Vss()) == NewPoints(b.rc, b.Vss());
  }

  // ---------- the new shares ----------

  /** The common new polynomial: the sum of the dealers' zero-constant ones. */
  function ZeroSum(a: Refresher): seq<int> {
    var vss, len := a.Vss(), a.rc.base.t + 1;
    if forall j :: 0 <= j < |vss| ==> |vss[j]| == len then SumPoly(vss, len, |vss|) else []
  }

  lemma ZeroDegrees(a: Refresher)
    requires a.Done()
    ensures forall j :: 0 <= j < |a.Vss()| ==> |a.Vss()[j]| == a.rc.base.t + 1 && a.Vss()[j][0] == 0
  {
    hide Eval, Basic, EchoesAgree, AllResponsesOk, OtMessageOk, PointsOf, IsCanonicalScalar, RefreshedKey;
    var c := a.rc.base;
    forall j | 0 <= j < c.Count() ensures |a.Vss()[j]| == c.t + 1 && a.Vss()[j][0] == 0 {
      if j != c.me {
        var k := Slot(c.me, j);
        assert RefresherOk(c, Other(c.me, k), a.tr.bcasts[k], a.tr.unicasts[k]);
      }
    }
  }

  lemma ZeroSumEval(a: Refresher, x: int)
    requires a.Done()
    ensures |ZeroSum(a)| == a.rc.base.t + 1 && Eval(ZeroSum(a), x) == SumEval(a.Vss(), x, |a.Vss()|)
  {
    hide RefreshDone;
    ZeroDegrees(a);
    EvalSumPoly(a.Vss(), a.rc.base.t + 1, |a.Vss()|, x);
  }

  lemma {:induction false} ZeroConstants(vss: seq<seq<Point>>, k: nat)
    requires k <= |vss| && forall j :: 0 <= j < |vss| ==> vss[j] != [] && vss[j][0] == 0
    ensures SumEval(vss, 0, k) == 0
  {
    hide Eval;
    if k > 0 {
      ZeroConstants(vss, k - 1);
      EvalZero(vss[k - 1]);
    }
  }

  /** Refreshing adds nothing to the secret. */
  lemma ZeroAtZero(a: Refresher)
    requires a.Done()
    ensures Eval(ZeroSum(a), 0) == 0
  {
    hide RefreshDone, ZeroSum, Eval, SumEval;
    ZeroDegrees(a);
    ZeroSumEval(a, 0);
    ZeroConstants(a.Vss(), |a.Vss()|);
  }

  /** Every verified share of this party is the value of its dealer's polynomial. */
  lemma DeltasFit(c: Config, own: Own, bcasts: seq<R1Bcast>, unicasts: seq<R1Unicast>)
    requires AllRefreshersOk(c, bcasts, unicasts)
    ensures SharesFitDealers(c, OwnDelta(c, own, c.me), unicasts, ZeroVss(c, own, bcasts))
  {
    hide Eval, OtMessageOk, PointsOf, IsCanonicalScalar, Cong;
    CongMod(Eval([0] + own.poly, c.Id(c.me)), c.n);
    forall k | 0 <= k < |unicasts|
      ensures Cong(PeerShare(c, unicasts[k]), Eval(ZeroVss(c, own, bcasts)[Other(c.me, k)], c.Id(c.me)), c.n)
    {
      assert Slot(c.me, Other(c.me, k)) == k;
      assert RefresherOk(c, Other(c.me, k), bcasts[k], unicasts[k]);
    }
  }

  /** Without looking at the old secret: a finisher's new share is its old public share moved by the dealers' sum. */
  lemma NewShareIs(a: Refresher)
    requires a.Done()
    ensures |a.rc.prior.bigXj| == a.rc.base.Count() && a.rc.base.me < a.rc.base.Count() && 0 <= a.key.xi < a.rc.base.n
    ensures Cong(a.key.xi, a.rc.prior.bigXj[a.rc.base.me] + Eval(ZeroSum(a), a.Id()), a.rc.base.n)
  {
    hide *;
    PointsKept(a);
    DoneParts(a);
    OwnPointIs(a);
    ZeroSumEval(a, a.Id());
    PointMoved(a.rc.base.n, a.rc.prior.bigXj[a.rc.base.me], SumEval(a.Vss(), a.Id(), |a.Vss()|));
  }

  lemma OwnPointIs(a: Refresher)
    requires a.Done() && a.rc.base.me < |a.rc.prior.bigXj| && a.rc.base.me < |a.key.bigXj|
    ensures a.key.bigXj[a.rc.base.me] ==
      PointAdd(a.rc.base.n, a.rc.prior.bigXj[a.rc.base.me], SumEval(a.Vss(), a.Id(), |a.Vss()|) % a.rc.base.n)
  {
    DoneParts(a);
    hide RefreshDone, SumEval, ZeroVss, NewShare, OtStates, PointAdd;
  }

  lemma PointsKept(a: Refresher)
    requires a.Done()
    ensures |a.rc.prior.bigXj| == a.rc.base.Count()
  {
    hide EchoesAgree, AllRefreshersOk, AllResponsesOk, RefreshedKey;
  }

  lemma PointMoved(n: int, p: Point, d: int)
    requires n > 0
    ensures Cong(PointAdd(n, p, d % n), p + d, n) && 0 <= PointAdd(n, p, d % n) < n
  {
    CongMod(d, n);
    CongMod(p + d % n, n);
    CongSelf(p, n);
    CongAdd(p, p, d % n, d, n);
    CongTrans(PointAdd(n, p, d % n), p + d % n, p + d, n);
  }

  /** Once every share has been verified, the consistency check on the new share fails exactly when the old share did
      not match its old public share. */
  lemma CheckExact(rc: RefreshConfig, own: Own, bcasts: seq<R1Bcast>, unicasts: seq<R1Unicast>)
    requires AllRefreshersOk(rc.base, bcasts, unicasts) && rc.base.me < |rc.prior.bigXj|
    ensures NewShare(rc, own, unicasts) == NewPoint(rc, ZeroVss(rc.base, own, bcasts), rc.base.me)
      <==> Cong(rc.prior.xi, rc.prior.bigXj[rc.base.me], rc.base.n)
  {
    hide *;
    var n, x, p, vss := rc.base.n, rc.prior.xi, rc.prior.bigXj[rc.base.me], ZeroVss(rc.base, own, bcasts);
    var mine := OwnDelta(rc.base, own, rc.base.me);
    NewValues(rc, own, unicasts, vss, rc.base.me);
    DeltasFit(rc.base, own, bcasts, unicasts);
    SharesAddUp(rc.base, mine, unicasts, vss);
    SameShift(n, x, p, mine + PeerShareSum(rc.base, unicasts, |unicasts|), SumEval(vss, rc.base.Id(rc.base.me), |vss|));
  }

  lemma NewValues(rc: RefreshConfig, own: Own, unicasts: seq<R1Unicast>, vss: seq<seq<Point>>, j: nat)
    requires j < |rc.prior.bigXj|
    ensures NewShare(rc, own, unicasts) ==
      FAdd(rc.base.n, rc.prior.xi, (OwnDelta(rc.base, own, rc.base.me) + PeerShareSum(rc.base, unicasts,
        |unicasts|)) % rc.base.n)
    ensures NewPoint(rc, vss, j) == PointAdd(rc.base.n, rc.prior.bigXj[j],
      SumEval(vss, rc.base.Id(j), |vss|) % rc.base.n)
  {
    hide OwnDelta, PeerShareSum, SumEval;
  }

  lemma SameShift(n: int, x: int, p: int, d: int, e: int)
    requires n > 0 && Cong(d, e, n)
    ensures FAdd(n, x, d % n) == PointAdd(n, p, e % n) <==> Cong(x, p, n)
  {
    var m := d % n;
    assert m == e % n;
    if Cong(x, p, n) {
      CongSelf(m, n);
      CongAdd(x, p, m, m, n);
    } else if Cong(x + m, p + m, n) {
      CongSelf(m, n);
      CongSub(x + m, p + m, m, m, n);
    }
  }

  // ---------- sets of finishers ----------

  /** A set of honest finishers of one refresh whose echoes reached each other. */
  ghost predicate Refreshers(rs: seq<Refresher>) {
    && rs != [] && (forall i :: 0 <= i < |rs| ==> rs[i].Done()) && CollisionFree(rs[0].rc.base.digest)
    && forall i, j :: 0 <= i < |rs| && 0 <= j < |rs| && i != j ==>
      SameRefresh(rs[i], rs[j]) && EchoDelivered(rs[i].Side(), rs[j].Side())
  }

  function NewIds(rs: seq<Refresher>): (ids: seq<Scalar>)
    ensures |ids| == |rs| && forall i :: 0 <= i < |rs| ==> ids[i] == rs[i].Id()
  {
    seq(|rs|, i requires 0 <= i < |rs| => rs[i].Id())
  }

  function NewShares(rs: seq<Refresher>): (xs: seq<Scalar>)
    ensures |xs| == |rs| && forall i :: 0 <= i < |rs| ==> xs[i] == rs[i].key.xi
  {
    seq(|rs|, i requires 0 <= i < |rs| => rs[i].key.xi)
  }

  lemma RefresherPair(rs: seq<Refresher>, i: nat, j: nat)
    requires Refreshers(rs) && i < |rs| && j < |rs|
    ensures rs[i].Done() && rs[j].Done() && CollisionFree(rs[i].rc.base.digest)
    ensures i != j ==> SameRefresh(rs[i], rs[j]) && EchoDelivered(rs[i].Side(), rs[j].Side())
    ensures rs[j].rc.base == rs[i].rc.base.(me := rs[j].rc.base.me)
    ensures rs[j].rc.prior == rs[i].rc.prior.(idx := rs[j].rc.prior.idx, xi := rs[j].rc.prior.xi,
      ot := rs[j].rc.prior.ot)
  {
    hide RefreshDone, EchoDelivered;
    if 0 != i { assert SameRefresh(rs[0], rs[i]); }
  }

  /** The old public shares lie on a degree-t polynomial through the public key. */
  ghost predicate SoundKey(n: int, k: Key)
    requires n > 0 && |k.bigXj| == |k.partyIds|
  {
    SharesOf(n, Ids(n, k.partyIds), k.bigXj, k.t, k.ecdsaPub)
  }

  lemma FirstRefresher(rs: seq<Refresher>)
    requires Refreshers(rs)
    ensures rs != [] && rs[0].Done() && rs[0].rc.base.n >= 2 && IsPrime(rs[0].rc.base.n)
    ensures |rs[0].rc.prior.bigXj| == |rs[0].rc.prior.partyIds| == rs[0].rc.base.Count()
    ensures rs[0].rc.base.partyIds == rs[0].rc.prior.partyIds && rs[0].rc.base.t == rs[0].rc.prior.t
    ensures Distinct(rs[0].rc.base.n, Ids(rs[0].rc.base.n, rs[0].rc.base.partyIds))
  {
    var a := rs[0];
    DoneParts(a);
    hide EchoesAgree, AllRefreshersOk, AllResponsesOk, RefreshedKey, SameRefresh, EchoDelivered, Distinct, Cong;
    IndexesDistinct(a.rc.base.n, Ids(a.rc.base.n, a.rc.base.partyIds));
  }

  /** The old polynomial g and the dealers' sum together go through all the new shares, with the old value at zero. */
  lemma NewPolynomial(rs: seq<Refresher>, g: seq<int>)
    requires Refreshers(rs) && rs != [] && |rs[0].rc.prior.bigXj| == |rs[0].rc.prior.partyIds|
    requires |g| == rs[0].rc.base.t + 1
    requires OnPolynomial(rs[0].rc.base.n, Ids(rs[0].rc.base.n, rs[0].rc.prior.partyIds), rs[0].rc.prior.bigXj, g)
    ensures |ZeroSum(rs[0])| == |g| && var f := AddPoly(g, ZeroSum(rs[0]));
      && |f| == rs[0].rc.base.t + 1 && Eval(f, 0) == Eval(g, 0)
      && forall i :: 0 <= i < |rs| ==> Cong(rs[i].key.xi, Eval(f, rs[i].Id()), rs[0].rc.base.n)
  {
    hide *;
    FirstRefresher(rs);
    var a := rs[0];
    ZeroSumEval(a, 0);
    ZeroAtZero(a);
    EvalAdd(g, ZeroSum(a), 0);
    forall i | 0 <= i < |rs| ensures Cong(rs[i].key.xi, Eval(AddPoly(g, ZeroSum(a)), rs[i].Id()), a.rc.base.n) {
      RefresherPair(rs, 0, i);
      NewShareIs(rs[i]);
      SameZeroSum(rs, i);
      EvalAdd(g, ZeroSum(a), rs[i].Id());
      OldPoint(rs, i, g);
      MovedOnto(a.rc.base.n, rs[i].key.xi, rs[i].rc.prior.bigXj[rs[i].rc.base.me], Eval(g, rs[i].Id()),
        Eval(ZeroSum(a), rs[i].Id()));
    }
  }

  lemma SoundPolynomial(n: int, k: Key) returns (g: seq<int>)
    requires n > 0 && |k.bigXj| == |k.partyIds| && SoundKey(n, k)
    ensures |g| == k.t + 1 && OnPolynomial(n, Ids(n, k.partyIds), k.bigXj, g) && Cong(Eval(g, 0), k.ecdsaPub, n)
  {
    g :| |g| == k.t + 1 && OnPolynomial(n, Ids(n, k.partyIds), k.bigXj, g) && Cong(Eval(g, 0), k.ecdsaPub, n);
  }

  lemma SameZeroSum(rs: seq<Refresher>, i: nat)
    requires Refreshers(rs) && i < |rs| && rs != []
    ensures ZeroSum(rs[i]) == ZeroSum(rs[0])
  {
    hide *;
    RefresherPair(rs, 0, i);
    RefresherPair(rs, i, 0);
    if i != 0 { RefreshViewsAgree(rs[0], rs[i]); }
    SameSum(rs[0], rs[i]);
  }

  lemma SameSum(a: Refresher, b: Refresher)
    requires a.Vss() == b.Vss() && a.rc.base.t == b.rc.base.t
    ensures ZeroSum(a) == ZeroSum(b)
  {
    hide SumPoly, Refresher.Vss;
  }

  lemma OldPoint(rs: seq<Refresher>, i: nat, g: seq<int>)
    requires Refreshers(rs) && i < |rs| && rs != [] && |rs[0].rc.prior.bigXj| == |rs[0].rc.prior.partyIds|
    requires OnPolynomial(rs[0].rc.base.n, Ids(rs[0].rc.base.n, rs[0].rc.prior.partyIds), rs[0].rc.prior.bigXj, g)
    ensures rs[i].rc.base.me < |rs[i].rc.prior.bigXj|
    ensures Cong(rs[i].rc.prior.bigXj[rs[i].rc.base.me], Eval(g, rs[i].Id()), rs[0].rc.base.n)
  {
    FirstRefresher(rs);
    RefresherPair(rs, 0, i);
    DoneParts(rs[i]);
    hide Refreshers, RefreshDone, EchoDelivered, CollisionFree, Eval, Cong;
  }

  lemma MovedOnto(n: int, x: int, p: int, g: int, z: int)
    requires n > 0 && Cong(x, p + z, n) && Cong(p, g, n)
    ensures Cong(x, g + z, n)
  {
    CongSelf(z, n);
    CongAdd(p, g, z, z, n);
    CongTrans(x, p + z, g + z, n);
  }

  lemma RefreshersDistinct(rs: seq<Refresher>)
    requires Refreshers(rs)
    ensures rs != [] && Distinct(rs[0].rc.base.n, NewIds(rs))
  {
    hide *;
    FirstRefresher(rs);
    var n := rs[0].rc.base.n;
    forall i, j | 0 <= i < j < |rs| ensures !Cong(NewIds(rs)[i], NewIds(rs)[j], n) {
      RefresherPair(rs, 0, i);
      RefresherPair(rs, 0, j);
      RefresherPair(rs, i, j);
      IdIs(rs[i]);
      IdIs(rs[j]);
      SidesMatch(rs[i], rs[j]);
      DistinctAt(n, Ids(n, rs[0].rc.base.partyIds), rs[i].rc.base.me, rs[j].rc.base.me);
    }
    DistinctMeans(n, NewIds(rs));
  }

  lemma IdIs(a: Refresher)
    requires a.Done()
    ensures a.rc.base.n > 0 && a.rc.base.me < |a.rc.base.partyIds|
    ensures a.Id() == Ids(a.rc.base.n, a.rc.base.partyIds)[a.rc.base.me]
  {
    DoneParts(a);
    hide RefreshDone;
  }

  lemma DistinctAt(n: int, xs: seq<int>, i: nat, j: nat)
    requires n > 0 && Distinct(n, xs) && i < |xs| && j < |xs| && i != j
    ensures !Cong(xs[i], xs[j], n)
  {
    hide Cong;
    CongFlip(xs[i], xs[j], n);
  }

  /** Any t + 1 honest finishers' new shares interpolate to the logarithm of the unchanged public key, whatever the
      other dealers dealt, provided the old public shares were sound. */
  lemma RefreshersReconstruct(rs: seq<Refresher>)
    requires Refreshers(rs) && |rs[0].rc.prior.bigXj| == |rs[0].rc.prior.partyIds|
    requires SoundKey(rs[0].rc.base.n, rs[0].rc.prior)
    requires |rs| > rs[0].rc.base.t
    ensures Cong(WeightedSum(rs[0].rc.base.n, NewIds(rs), NewShares(rs), |rs|), rs[0].key.ecdsaPub, rs[0].rc.base.n)
  {
    hide *;
    FirstRefresher(rs);
    var n, ids, xs := rs[0].rc.base.n, NewIds(rs), NewShares(rs);
    var g := SoundPolynomial(n, rs[0].rc.prior);
    NewPolynomial(rs, g);
    RefreshersDistinct(rs);
    PublicKept(rs[0]);
    var f := AddPoly(g, ZeroSum(rs[0]));
    InterpolateValues(n, ids, f, xs);
    CongTrans(WeightedSum(n, ids, xs, |ids|), Eval(f, 0), rs[0].rc.prior.ecdsaPub, n);
  }

  lemma PublicKept(a: Refresher)
    requires a.Done()
    ensures a.key.ecdsaPub == a.rc.prior.ecdsaPub && a.key.chainCode == a.rc.prior.chainCode
    ensures a.key.partyIds == a.rc.prior.partyIds
    ensures a.key.t == a.rc.prior.t && a.key.parties == a.rc.prior.parties == a.rc.base.Count()
    ensures a.key.idx == a.rc.base.me
    ensures a.key.ot == OtStates(a.rc.base, a.own, a.tr.unicasts, a.tr.r2s)
  {
    OwnKeyOnly(a);
    hide EchoesAgree, AllRefreshersOk, AllResponsesOk, OtStates, NewShare, NewPoints;
  }

  // ---------- everyone honest ----------

  /** Party i of the committee at position i, all messages delivered. */
  ghost predicate WholeRefresh(rs: seq<Refresher>) {
    && Refreshers(rs) && |rs| == rs[0].rc.base.Count() && (forall i :: 0 <= i < |rs| ==> rs[i].rc.base.me == i)
    && forall i, j :: 0 <= i < |rs| && 0 <= j < |rs| && i != j ==> OtDelivered(rs[i].Side(), rs[j].Side())
  }

  function NewKeys(rs: seq<Refresher>): (keys: seq<Key>)
    ensures |keys| == |rs| && forall i :: 0 <= i < |rs| ==> keys[i] == rs[i].key
  {
    seq(|rs|, i requires 0 <= i < |rs| => rs[i].key)
  }

  lemma WholeParts(rs: seq<Refresher>, i: nat, j: nat)
    requires WholeRefresh(rs) && i < |rs| && j < |rs|
    ensures Refreshers(rs) && |rs| == rs[0].rc.base.Count() && rs[i].rc.base.me == i
    ensures i != j ==> OtDelivered(rs[i].Side(), rs[j].Side())
  {
    hide Refreshers, OtDelivered;
  }

  lemma WholeStarts(rs: seq<Refresher>)
    requires WholeRefresh(rs)
    ensures Refreshers(rs)
  {
    hide Refreshers, OtDelivered;
  }

  /** Party i's new key differs from the first one's in index, share and OT state only, and fits the common public
      points. */
  lemma MemberKey(rs: seq<Refresher>, i: nat)
    requires WholeRefresh(rs) && rs != [] && i < |rs|
    ensures rs[i].key == rs[0].key.(idx := i, xi := rs[i].key.xi, ot := rs[i].key.ot)
    ensures |rs[0].key.bigXj| == |rs| && rs[0].key.bigXj[i] == rs[i].key.xi && 0 <= rs[i].key.xi < rs[0].rc.base.n
    ensures |rs[i].key.ot| == |rs| && rs[i].key.ot[i] == None
  {
    hide *;
    WholeParts(rs, i, 0);
    WholeParts(rs, 0, i);
    RefresherPair(rs, 0, i);
    RefresherPair(rs, i, 0);
    DoneParts(rs[0]);
    DoneParts(rs[i]);
    PublicKept(rs[0]);
    PublicKept(rs[i]);
    NewShareIs(rs[i]);
    if i != 0 {
      RefreshersAgree(rs[0], rs[i]);
      SidesMatch(rs[0], rs[i]);
    }
    SideIs(rs[i]);
    OwnSlotEmpty(rs[i].Side());
  }

  lemma SideIs(a: Refresher)
    ensures a.Side() == Party(a.rc.base, a.own, a.tr, a.key)
  {
  }

  lemma MemberId(rs: seq<Refresher>, i: nat)
    requires WholeRefresh(rs) && rs != [] && i < |rs|
    ensures NewIds(rs)[i] == rs[0].rc.base.Id(i)
  {
    WholeParts(rs, i, 0);
    RefresherPair(rs, 0, i);
  }

  /** When everyone is honest the refreshed keys are again a sharing of the public key's logarithm with matching OT
      state, so they sign, reshare and refresh like the old ones. */
  lemma RefreshedCommitteeShares(rs: seq<Refresher>)
    requires WholeRefresh(rs) && |rs[0].rc.prior.bigXj| == |rs[0].rc.prior.partyIds|
    requires SoundKey(rs[0].rc.base.n, rs[0].rc.prior)
    ensures Sharing(rs[0].rc.base.n, NewKeys(rs), rs[0].rc.prior.ecdsaPub)
  {
    hide *;
    WholeStarts(rs);
    FirstRefresher(rs);
    WholeParts(rs, 0, 0);
    var n, c, keys := rs[0].rc.base.n, rs[0].rc.base, NewKeys(rs);
    forall i | 0 <= i < |rs|
      ensures keys[i] == keys[0].(idx := i, xi := keys[i].xi, ot := keys[i].ot)
      ensures 0 <= keys[i].xi < n && |keys[0].bigXj| == |rs| && keys[0].bigXj[i] == keys[i].xi
      ensures |keys[i].ot| == |keys| && keys[i].ot[i] == None && NewIds(rs)[i] == c.Id(i)
    {
      MemberKey(rs, i);
      MemberId(rs, i);
    }
    forall i, j | 0 <= i < |keys| && 0 <= j < |keys| && i != j ensures PairMatches(keys[i].ot[j],
      keys[j].ot[i]) { PairRefreshed(rs, i, j); }
    PublicKept(rs[0]);
    PublicProper(rs[0]);
    var g := SoundPolynomial(n, rs[0].rc.prior);
    NewPolynomial(rs, g);
    SharingIntro(n, keys, keys[0].ecdsaPub, AddPoly(g, ZeroSum(rs[0])), NewIds(rs), NewShares(rs), c);
  }

  lemma PublicProper(a: Refresher)
    requires a.Done()
    ensures 0 <= a.rc.prior.ecdsaPub < a.rc.base.n && a.rc.prior.t < a.rc.base.Count()
  {
    hide EchoesAgree, AllRefreshersOk, AllResponsesOk, RefreshedKey;
  }

  lemma PairRefreshed(rs: seq<Refresher>, i: nat, j: nat)
    requires WholeRefresh(rs) && i < |rs| && j < |rs| && i != j
    ensures j < |rs[i].key.ot| && i < |rs[j].key.ot| && PairMatches(rs[i].key.ot[j], rs[j].key.ot[i])
  {
    hide *;
    WholeParts(rs, i, j);
    WholeParts(rs, j, i);
    RefresherPair(rs, i, j);
    FinisherOtReady(rs[i]);
    FinisherOtReady(rs[j]);
    SidesMatch(rs[i], rs[j]);
    PairStateMatches(rs[i].Side(), rs[j].Side());
  }
}
