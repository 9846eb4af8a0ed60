/** What the broker reshare (src/dklstss/resharing_party.rs) guarantees when members are honest: honest dealers are
    accepted and keep the key, honest reports agree, and a whole honest committee ends with a sharing of the old key. */
module ReshareComplete {
  import opened NumberTheory
  import opened Polynomial
  import opened Results
  import opened Bits
  import opened Secp
  import opened Vss
  import opened Keys
  import opened SignEncoding
  import opened Echo
  import opened Committee
  import opened BaseOt
  import opened Lagrange
  import opened Lifecycle
  import opened Resharing
  import opened Ole
  import opened Dkg
  import opened ReshareView
  import opened ResharingParty
  import DkgAgreement

  // ---------- honest dealers ----------

  /** The polynomials of the old members that deal: each deals its weighted share. */
  function DealerPolys(c: Config, oldKeys: seq<Key>, subset: seq<nat>, draws: Draws): (polys: seq<seq<int>>)
    requires WellFormed(c.n, oldKeys) && forall a :: 0 <= a < |subset| ==> subset[a] < |oldKeys|
    ensures |polys| == |subset|
  {
    ScaledPolys(c.n, ParticipantIds(c.n, oldKeys, subset), Picked(Shares(oldKeys), subset), c.t, draws)
  }

  /** What a new member receives from the dealers of these polynomials. */
  ghost predicate FromDealers(c: Config, polys: seq<seq<int>>, bcasts: seq<R1Bcast>, shares: seq<bytes>) {
    && |bcasts| == |shares| == |polys|
    && forall d :: 0 <= d < |polys| ==>
      bcasts[d].vss == Flatten(c.codec, polys[d]) && shares[d] == DealtTo(c, polys[d], c.me)
  }

  /** Old members of a consistent committee run round 1: none is refused, and every new member gets what belongs to the
      weighted shares. */
  method DealAll(c: ReshareConfig, oldKeys: seq<Key>, subset: seq<nat>, draws: Draws, poks: seq<bytes>)
    returns (dealt: seq<Dealing>)
    requires IsPrime(c.base.n) && oldKeys != [] && WellFormed(c.base.n, oldKeys)
    requires Consistent(c.base.n, oldKeys, oldKeys[0].ecdsaPub) && Subset(subset, |oldKeys|)
    requires |subset| > oldKeys[0].t && |poks| == |subset| == |c.dealers| && draws.Valid(c.base.n)
    ensures |dealt| == |subset| && forall a :: 0 <= a < |subset| ==> subset[a] < |oldKeys|
    ensures forall d :: 0 <= d < |dealt| ==> dealt[d].bcast.pok == poks[d] && |dealt[d].shares| == c.base.Count()
    ensures forall d :: 0 <= d < |dealt| ==> dealt[d].toSelf.Some? == (c.dealers[d] in c.base.partyIds)
    ensures forall j: nat :: j < c.base.Count() ==>
      FromDealers(c.base.(me := j), DealerPolys(c.base, oldKeys, subset, draws), Bcasts(dealt), SharesTo(dealt, j))
  {
    SubsetPicks(subset, |oldKeys|);
    hide *;
    var ids, xs := ParticipantIds(c.base.n, oldKeys, subset), Picked(Shares(oldKeys), subset);
    ConsistentParticipants(c.base.n, oldKeys, subset, ids, xs);
    dealt := DealEach(c, ids, xs, draws, poks);
    PolysAre(c.base, oldKeys, subset, draws);
    forall j: nat | j < c.base.Count()
      ensures FromDealers(c.base.(me := j), DealerPolys(c.base, oldKeys, subset, draws), Bcasts(dealt),
        SharesTo(dealt, j))
    {
      FromEach(c.base, ids, xs, draws, dealt, j);
    }
  }

  method DealEach(c: ReshareConfig, ids: seq<Scalar>, xs: seq<Scalar>, draws: Draws, poks: seq<bytes>)
    returns (dealt: seq<Dealing>)
    requires Distinct(c.base.n, ids) && draws.Valid(c.base.n) && |ids| == |xs| == |poks| == |c.dealers|
    requires forall d :: 0 <= d < |ids| ==> !Cong(Weight(c.base.n, ids, d) * xs[d], 0, c.base.n)
    ensures |dealt| == |ids|
    ensures forall d :: 0 <= d < |dealt| ==>
      && DealtAs(c.base, ids, xs, d, draws, dealt[d]) && dealt[d].bcast.pok == poks[d]
      && |dealt[d].shares| == c.base.Count() && dealt[d].toSelf.Some? == (c.dealers[d] in c.base.partyIds)
  {
    hide *;
    dealt := [];
    for d := 0 to |ids|
      invariant |dealt| == d
      invariant forall e :: 0 <= e < d ==>
        && DealtAs(c.base, ids, xs, e, draws, dealt[e]) && dealt[e].bcast.pok == poks[e]
        && |dealt[e].shares| == c.base.Count() && dealt[e].toSelf.Some? == (c.dealers[e] in c.base.partyIds)
    {
      var one := DealOne(c.base, ids, xs, d, draws, poks[d], c.dealers[d] in c.base.partyIds);
      dealt := dealt + [one];
    }
  }

  /** Participant d: its weight, then round 1. */
  method DealOne(c: Config, ids: seq<Scalar>, xs: seq<Scalar>, d: nat, draws: Draws, pok: bytes,
    isNew: bool) returns (dealing: Dealing)
    requires Distinct(c.n, ids) && d < |ids| == |xs| && draws.Valid(c.n) && !Cong(Weight(c.n, ids, d) * xs[d], 0, c.n)
    ensures DealtAs(c, ids, xs, d, draws, dealing) && dealing.bcast.pok == pok && dealing.toSelf.Some? == isNew
    ensures |dealing.shares| == c.Count()
  {
    hide Cong, Weight, Distinct, Eval, FMul, Flatten, DealtTo, ScaledPoly;
    NoDuplicate(c.n, ids, d);
    var lam := LagrangeCoefficient(c.n, ids, d);
    DrawnTail(c.n, draws, d, c.t);
    DealsScaled(c.n, ids, xs, d, c.t, draws, lam.value);
    var one := OldRound1(c, lam.value, xs[d], draws.Tail(d, c.t), pok, isNew);
    dealing := one.value;
  }

  function Bcasts(dealt: seq<Dealing>): (bcasts: seq<R1Bcast>)
    ensures |bcasts| == |dealt| && forall d :: 0 <= d < |dealt| ==> bcasts[d] == dealt[d].bcast
  {
    seq(|dealt|, d requires 0 <= d < |dealt| => dealt[d].bcast)
  }

  function SharesTo(dealt: seq<Dealing>, j: nat): (shares: seq<bytes>)
    ensures |shares| == |dealt|
    ensures forall d :: 0 <= d < |dealt| && j < |dealt[d].shares| ==> shares[d] == dealt[d].shares[j]
  {
    seq(|dealt|, d requires 0 <= d < |dealt| => if j < |dealt[d].shares| then dealt[d].shares[j] else [])
  }

  /** Participant d dealt its scaled polynomial to every new member. */
  ghost predicate DealtAs(c: Config, ids: seq<Scalar>, xs: seq<Scalar>, d: nat, draws: Draws, dealing: Dealing) {
    && d < |ids| == |xs| && dealing.vs == ScaledPoly(c.n, ids, xs, d, c.t, draws)
    && dealing.bcast.vss == Flatten(c.codec, dealing.vs) && |dealing.shares| == c.Count()
    && forall j :: 0 <= j < c.Count() ==> dealing.shares[j] == DealtTo(c, dealing.vs, j)
  }

  lemma NoDuplicate(n: int, ids: seq<int>, d: nat)
    requires n > 0 && Distinct(n, ids) && d < |ids|
    ensures forall j :: 0 <= j < |ids| && j != d ==> !Cong(ids[j], ids[d], n)
  {
    hide Cong;
    forall j | 0 <= j < |ids| && j != d ensures !Cong(ids[j], ids[d], n) { CongFlip(ids[j], ids[d], n); }
  }

  lemma DrawnTail(n: int, draws: Draws, d: nat, t: nat)
    requires draws.Valid(n)
    ensures Reduced(n, draws.Tail(d, t))
  {
  }

  /** The dealt constant term is the scaled share, and it is not zero when the scaled share is not. */
  lemma DealsScaled(n: int, ids: seq<Scalar>, xs: seq<Scalar>, d: nat, t: nat, draws: Draws, lam: Scalar)
    requires n > 0 && d < |ids| == |xs| && lam == Weight(n, ids, d) % n
    ensures [FMul(n, lam, xs[d])] + draws.Tail(d, t) == ScaledPoly(n, ids, xs, d, t, draws)
    ensures !Cong(Weight(n, ids, d) * xs[d], 0, n) ==> FMul(n, lam, xs[d]) != 0
  {
    hide Weight;
    ScaledIs(n, lam, Weight(n, ids, d), xs[d]);
  }

  lemma FromEach(c: Config, ids: seq<Scalar>, xs: seq<Scalar>, draws: Draws, dealt: seq<Dealing>, j: nat)
    requires |ids| == |xs| == |dealt| && j < c.Count()
    requires forall d :: 0 <= d < |dealt| ==> DealtAs(c, ids, xs, d, draws, dealt[d])
    ensures FromDealers(c.(me := j), ScaledPolys(c.n, ids, xs, c.t, draws), Bcasts(dealt), SharesTo(dealt, j))
  {
    hide ScaledPoly, Flatten, Eval, BeMin;
    forall d | 0 <= d < |dealt|
      ensures Bcasts(dealt)[d].vss == Flatten(c.codec, ScaledPolys(c.n, ids, xs, c.t, draws)[d])
      ensures SharesTo(dealt, j)[d] == DealtTo(c.(me := j), ScaledPolys(c.n, ids, xs, c.t, draws)[d], j)
    {
      assert DealtAs(c, ids, xs, d, draws, dealt[d]);
    }
  }

  /** An honest dealing passes every check of a new member exactly when no coefficient is zero and the proof of
      knowledge is accepted, and the member then knows the dealer's polynomial. */
  lemma HonestDealingAccepted(c: Config, dealer: nat, poly: seq<int>, bc: R1Bcast, share: bytes)
    requires IsPrime(c.n) && c.codec.Valid(c.n) && |poly| == c.t + 1 && Reduced(c.n, poly)
    requires bc.vss == Flatten(c.codec, poly) && share == DealtTo(c, poly, c.me)
    ensures DealerOk(c, dealer, bc, share) <==> 0 !in poly && c.pokOk(dealer, poly, bc.vss, bc.pok)
    ensures 0 !in poly ==> PeerPoints(c, bc) == poly
  {
    var v := Eval(poly, c.Id(c.me)) % c.n;
    FlattenRoundTrip(c.codec, c.n, poly);
    hide Flatten, PointsOf, Eval, IsPrime, Codec.Valid, Cong;
    CongMod(Eval(poly, c.Id(c.me)), c.n);
    BeMinValue(v);
    CanonicalIff(c.n, BeMin(v));
    hide BeMin, BeValue, IsCanonicalScalar;
    SmallMod(v, c.n);
  }

  /** The dealers' polynomials have the right size. */
  lemma PolysSized(c: Config, oldKeys: seq<Key>, subset: seq<nat>, draws: Draws)
    requires WellFormed(c.n, oldKeys) && draws.Valid(c.n)
    requires forall a :: 0 <= a < |subset| ==> subset[a] < |oldKeys|
    ensures SizedPolys(c.n, DealerPolys(c, oldKeys, subset, draws), c.t + 1)
  {
    hide Weight;
    var polys := DealerPolys(c, oldKeys, subset, draws);
    forall d | 0 <= d < |polys| ensures |polys[d]| == c.t + 1 && Reduced(c.n, polys[d]) {
      DrawnTail(c.n, draws, d, c.t);
    }
  }

  /** A new member accepts exactly the dealings without zero coefficients and with accepted proofs, and then holds the
      dealers' polynomials. */
  lemma DealingsAccepted(c: ReshareConfig, polys: seq<seq<int>>, bcasts: seq<R1Bcast>, shares: seq<bytes>)
    requires IsPrime(c.base.n) && c.base.codec.Valid(c.base.n) && |polys| == |c.dealers|
    requires SizedPolys(c.base.n, polys, c.base.t + 1) && FromDealers(c.base, polys, bcasts, shares)
    ensures AllDealersOk(c, bcasts, shares) <==> ProperDealings(c, polys, bcasts)
    ensures AllDealersOk(c, bcasts, shares) ==> ReceivedVss(c, bcasts) == polys
  {
    hide DealerOk, Flatten, DealtTo, PeerPoints, Codec.Valid, IsPrime;
    forall d | 0 <= d < |polys|
      ensures DealerOk(c.base, c.dealers[d], bcasts[d], shares[d]) <==>
        0 !in polys[d] && c.base.pokOk(c.dealers[d], polys[d], bcasts[d].vss, bcasts[d].pok)
      ensures 0 !in polys[d] ==> PeerPoints(c.base, bcasts[d]) == polys[d]
    {
      HonestDealingAccepted(c.base, c.dealers[d], polys[d], bcasts[d], shares[d]);
    }
  }

  /** No coefficient is zero (a zero one has no point to send), and every proof of knowledge is accepted. */
  ghost predicate ProperDealings(c: ReshareConfig, polys: seq<seq<int>>, bcasts: seq<R1Bcast>) {
    && |polys| == |bcasts| == |c.dealers|
    && forall d :: 0 <= d < |polys| ==>
      0 !in polys[d] && c.base.pokOk(c.dealers[d], polys[d], bcasts[d].vss, bcasts[d].pok)
  }

  /** Honest dealers never trip the public-key check: when a new member accepts what members of a consistent committee
      dealt, which it does exactly for proper dealings, the commitments it holds add up to that committee's key. */
  lemma HonestDealersKeepKey(c: ReshareConfig, oldKeys: seq<Key>, subset: seq<nat>, draws: Draws, bcasts: seq<R1Bcast>,
    shares: seq<bytes>)
    requires c.Valid() && oldKeys != [] && WellFormed(c.base.n, oldKeys) && draws.Valid(c.base.n)
    requires Consistent(c.base.n, oldKeys, oldKeys[0].ecdsaPub) && c.oldPub == oldKeys[0].ecdsaPub
    requires Subset(subset, |oldKeys|) && |subset| > oldKeys[0].t && |c.dealers| == |subset|
    requires forall a :: 0 <= a < |subset| ==> subset[a] < |oldKeys|
    requires FromDealers(c.base, DealerPolys(c.base, oldKeys, subset, draws), bcasts, shares)
    ensures AllDealersOk(c, bcasts, shares) <==>
      ProperDealings(c, DealerPolys(c.base, oldKeys, subset, draws), bcasts)
    ensures AllDealersOk(c, bcasts, shares) ==> SumEval(ReceivedVss(c, bcasts), 0, |bcasts|) % c.base.n == c.oldPub
  {
    hide *;
    FieldOf(c);
    PolysSized(c.base, oldKeys, subset, draws);
    DealingsAccepted(c, DealerPolys(c.base, oldKeys, subset, draws), bcasts, shares);
    HonestConstants(c.base.n, oldKeys, subset, c.base.t, draws);
    PolysAre(c.base, oldKeys, subset, draws);
  }

  lemma PolysAre(c: Config, oldKeys: seq<Key>, subset: seq<nat>, draws: Draws)
    requires WellFormed(c.n, oldKeys) && forall a :: 0 <= a < |subset| ==> subset[a] < |oldKeys|
    ensures DealerPolys(c, oldKeys, subset, draws)
      == ScaledPolys(c.n, ParticipantIds(c.n, oldKeys, subset), Picked(Shares(oldKeys), subset), c.t, draws)
  {
  }

  // ---------- honest reports ----------

  /** What a member that received a's commitments byte for byte holds: its own dealing, or a's copy. */
  ghost predicate SameView(a: ReshareConfig, aBcasts: seq<R1Bcast>, b: ReshareConfig, bVs: seq<Point>,
    bBcasts: seq<R1Bcast>) {
    && |aBcasts| == |bBcasts| == |a.dealers| && b == a.(base := a.base.(me := b.base.me))
    && (b.MyKey() in a.dealers ==> bVs != [])
    && forall d :: 0 <= d < |a.dealers| && a.dealers[d] != a.MyKey() ==>
      aBcasts[d].vss == if a.dealers[d] == b.MyKey() then Flatten(b.base.codec, bVs) else bBcasts[d].vss
  }

  /** Every entry of an echo reports one dealer other than the sender. */
  lemma {:induction false} EntryFrom(c: ReshareConfig, bcasts: seq<R1Bcast>, m: nat, i: nat) returns (d: nat)
    requires m <= |c.dealers| && m <= |bcasts| && i < |DealersEcho(c, bcasts, m).digests|
    ensures d < m && c.dealers[d] != c.MyKey()
    ensures DealersEcho(c, bcasts, m).digests[i] == (c.dealers[d], c.base.digest(c.dealers[d], bcasts[d].vss))
  {
    hide ReshareConfig.MyKey;
    d := m - 1;
    if c.dealers[m - 1] == c.MyKey() || i < |DealersEcho(c, bcasts, m - 1).digests| {
      d := EntryFrom(c, bcasts, m - 1, i);
    }
  }

  lemma {:induction false} EchoLength(c: ReshareConfig, bcasts: seq<R1Bcast>, m: nat)
    requires m <= |c.dealers| && m <= |bcasts|
    ensures |DealersEcho(c, bcasts, m).digests| <= m
  {
    if m > 0 { EchoLength(c, bcasts, m - 1); }
  }

  /** The report of an honest member about the dealers everyone heard alike is accepted, unless its sender was the only
      dealer: then it is empty, and refused for that. */
  lemma HonestReportExact(a: ReshareConfig, aBcasts: seq<R1Bcast>, b: ReshareConfig, bVs: seq<Point>,
    bBcasts: seq<R1Bcast>)
    requires SameView(a, aBcasts, b, bVs, bBcasts) && a.MyKey() != b.MyKey() && a.dealers != []
    requires forall i, j :: 0 <= i < j < |a.dealers| ==> a.dealers[i] != a.dealers[j]
    ensures var echo := DealersEcho(a, aBcasts, |a.dealers|);
      Agrees(OwnDigests(b, bVs, bBcasts, |a.dealers|), a.MyKey(), echo, a.dealers) && |echo.digests| <= |a.dealers|
      <==> a.dealers != [a.MyKey()]
  {
    var m, echo := |a.dealers|, DealersEcho(a, aBcasts, |a.dealers|);
    var mine := OwnDigests(b, bVs, bBcasts, m);
    EchoLength(a, aBcasts, m);
    forall i | 0 <= i < |echo.digests| ensures EntryAgrees(mine, a.MyKey(), echo.digests[i]) {
      var d := EntryFrom(a, aBcasts, m, i);
      EntrySeen(a, aBcasts, b, bVs, bBcasts, d);
    }
    forall p | p in a.dealers && p != a.MyKey() ensures echo.Has(p) {
      var d :| 0 <= d < m && a.dealers[d] == p;
      EchoEntry(a, aBcasts, m, d);
      EntryPresent(echo, p, a.base.digest(p, aBcasts[d].vss));
    }
    if a.dealers != [a.MyKey()] { OtherDealer(a); }
    hide OwnDigests, DealersEcho, ReshareConfig.MyKey, SameView;
    if echo.digests != [] { var d := EntryFrom(a, aBcasts, m, 0); }
  }

  lemma EntrySeen(a: ReshareConfig, aBcasts: seq<R1Bcast>, b: ReshareConfig, bVs: seq<Point>, bBcasts: seq<R1Bcast>,
    d: nat)
    requires SameView(a, aBcasts, b, bVs, bBcasts) && d < |a.dealers| && a.dealers[d] != a.MyKey()
    requires forall i, j :: 0 <= i < j < |a.dealers| ==> a.dealers[i] != a.dealers[j]
    ensures |aBcasts| == |bBcasts| == |a.dealers| == |b.dealers|
    ensures EntryAgrees(OwnDigests(b, bVs, bBcasts, |a.dealers|), a.MyKey(),
      (a.dealers[d], a.base.digest(a.dealers[d], aBcasts[d].vss)))
  {
    hide OwnDigests, Flatten, ReshareConfig.MyKey;
    DigestOf(b, bVs, bBcasts, |a.dealers|, d);
  }

  lemma EntryPresent(echo: EchoMsg, dealer: nat, digest: bytes)
    requires (dealer, digest) in echo.digests
    ensures echo.Has(dealer)
  {
  }

  lemma OtherDealer(c: ReshareConfig)
    requires c.dealers != [] && c.dealers != [c.MyKey()]
    requires forall i, j :: 0 <= i < j < |c.dealers| ==> c.dealers[i] != c.dealers[j]
    ensures exists p :: p in c.dealers && p != c.MyKey()
  {
    hide ReshareConfig.MyKey;
    assert c.dealers[0] in c.dealers;
    if c.dealers[0] == c.MyKey() {
      assert |c.dealers| > 1;
      assert c.dealers[1] in c.dealers && c.dealers[0] != c.dealers[1];
    }
  }

  // ---------- everyone honest ----------

  /** A new member's side of the base OTs. */
  function Side(a: Member): DkgAgreement.Party {
    DkgAgreement.Party(a.c.base, a.own, Transcript([], a.tr.otMsgs, [], a.tr.responses), a.key)
  }

  /** New member i at position i, all messages delivered. */
  ghost predicate WholeReshare(ms: seq<Member>) {
    && ReshareView.Members(ms) && |ms| == ms[0].c.base.Count() && (forall i :: 0 <= i < |ms| ==> ms[i].c.base.me == i)
    && forall i, j :: 0 <= i < |ms| && 0 <= j < |ms| && i != j ==> DkgAgreement.OtDelivered(Side(ms[i]), Side(ms[j]))
  }

  function MemberKeys(ms: seq<Member>): (keys: seq<Key>)
    ensures |keys| == |ms| && forall i :: 0 <= i < |ms| ==> keys[i] == ms[i].key
  {
    seq(|ms|, i requires 0 <= i < |ms| => ms[i].key)
  }

  lemma WholeParts(ms: seq<Member>, i: nat, j: nat)
    requires WholeReshare(ms) && i < |ms| && j < |ms|
    ensures ReshareView.Members(ms) && |ms| == ms[0].c.base.Count() && ms[i].c.base.me == i
    ensures i != j ==> DkgAgreement.OtDelivered(Side(ms[i]), Side(ms[j]))
  {
    hide ReshareView.Members, DkgAgreement.OtDelivered;
  }

  lemma WholeStarts(ms: seq<Member>)
    requires WholeReshare(ms)
    ensures ReshareView.Members(ms) && ms != []
  {
    hide DkgAgreement.OtDelivered, Member.Done, SelfDelivered, SameReshare, ReportDelivered;
  }

  lemma MemberOtReady(a: Member)
    requires a.Done()
    ensures DkgAgreement.OtReady(Side(a))
  {
    hide AllDealersOk, ReportsOk, Basic, SumEval, OtStates, ReceivedVss, ShareTotal, OtMessageOk, ResponseOk,
      IndexesOk, IsPrime;
  }

  lemma SidesMatch(a: Member, b: Member)
    requires SameReshare(a, b)
    ensures DkgAgreement.SameSession(Side(a), Side(b)) && SameReshare(b, a)
    ensures b.c.base == a.c.base.(me := b.c.base.me) && b.c.oldPub == a.c.oldPub
  {
  }

  /** The parts of a delivered key. */
  lemma KeyFields(a: Member)
    requires a.Done()
    ensures a.key.parties == |a.key.partyIds| == |a.key.bigXj| == a.c.base.Count() && a.key.t == a.c.base.t
    ensures a.key.partyIds == a.c.base.partyIds && a.key.idx == a.c.base.me && a.key.ecdsaPub == a.c.oldPub
    ensures a.key.ot == OtStates(a.c.base, a.own, a.tr.otMsgs, a.tr.responses)
    ensures a.key.bigXj == VerificationPoints(a.c.base, ReceivedVss(a.c, a.tr.bcasts))
    ensures 0 <= a.key.xi < a.c.base.n && a.key.t < a.c.base.Count() && 0 <= a.c.oldPub < a.c.base.n
    ensures Distinct(a.c.base.n, Ids(a.c.base.n, a.c.base.partyIds))
  {
    hide AllDealersOk, ReportsOk, Basic, SumEval, OtStates, ReceivedVss, ShareTotal, OtMessagesOk, AllResponsesOk,
      IsPrime, Distinct;
    IndexesDistinct(a.c.base.n, Ids(a.c.base.n, a.c.base.partyIds));
  }

  lemma PointFits(a: Member, j: nat)
    requires j < a.c.base.Count()
    ensures var vss := ReceivedVss(a.c, a.tr.bcasts); var v := VerificationPoints(a.c.base, vss);
      0 <= v[j] < a.c.base.n && Cong(v[j], SumEval(vss, a.c.base.Id(j), |vss|), a.c.base.n)
  {
    hide SumEval;
    var vss := ReceivedVss(a.c, a.tr.bcasts);
    CongMod(SumEval(vss, a.c.base.Id(j), |vss|), a.c.base.n);
  }

  /** Member i's new key differs from the first one's in index, share and OT state only, and fits the common points. */
  lemma MemberKey(ms: seq<Member>, i: nat)
    requires WholeReshare(ms) && ms != [] && i < |ms|
    ensures ms[i].key == ms[0].key.(idx := i, xi := ms[i].key.xi, ot := ms[i].key.ot)
    ensures |ms[0].key.bigXj| == |ms| && ms[0].key.bigXj[i] == ms[i].key.xi && 0 <= ms[i].key.xi < ms[0].c.base.n
    ensures |ms[i].key.ot| == |ms| && ms[i].key.ot[i] == None && MemberIds(ms)[i] == ms[0].c.base.Id(i)
  {
    hide *;
    WholeParts(ms, i, 0);
    WholeParts(ms, 0, i);
    MemberPair(ms, 0, i);
    MemberPair(ms, i, 0);
    KeyFields(ms[0]);
    KeyFields(ms[i]);
    MemberValue(ms, i);
    if i != 0 {
      MembersAgree(ms[0], ms[i]);
      SidesMatch(ms[0], ms[i]);
    }
    SameIds(ms[0].c.base, ms[i].c.base);
    PointFits(ms[0], i);
    OwnSlot(ms[i]);
    var vss := ReceivedVss(ms[0].c, ms[0].tr.bcasts);
    PointIsShare(ms[0].c.base.n, ms[0].key.bigXj[i], ms[i].key.xi, SumEval(vss, ms[0].c.base.Id(i), |vss|));
  }

  lemma PointIsShare(n: int, point: Point, share: Scalar, value: int)
    requires n > 0 && 0 <= point < n && 0 <= share < n && Cong(point, value, n) && Cong(share, value, n)
    ensures point == share
  {
    CongSmall(point, share, n);
  }

  lemma OwnSlot(a: Member)
    requires a.c.base.me < a.c.base.Count()
    ensures var ot := OtStates(a.c.base, a.own, a.tr.otMsgs, a.tr.responses);
      |ot| == a.c.base.Count() && ot[a.c.base.me] == None
  {
  }

  lemma PairReshared(ms: seq<Member>, i: nat, j: nat)
    requires WholeReshare(ms) && i < |ms| && j < |ms| && i != j
    ensures j < |ms[i].key.ot| && i < |ms[j].key.ot| && PairMatches(ms[i].key.ot[j], ms[j].key.ot[i])
  {
    hide *;
    WholeParts(ms, i, j);
    WholeParts(ms, j, i);
    MemberPair(ms, i, j);
    MemberOtReady(ms[i]);
    MemberOtReady(ms[j]);
    SidesMatch(ms[i], ms[j]);
    DkgAgreement.PairStateMatches(Side(ms[i]), Side(ms[j]));
    SideIs(ms[i]);
    SideIs(ms[j]);
  }

  lemma SideIs(a: Member)
    ensures Side(a).key == a.key && Side(a).c == a.c.base
  {
  }

  /** When every new member is honest the new keys form a sharing of the old key's logarithm with matching OT state,
      whoever dealt, so they sign, reshare and refresh like the old ones. */
  lemma ResharedCommitteeShares(ms: seq<Member>)
    requires WholeReshare(ms)
    ensures ms != [] && ms[0].c.base.n > 0 && Sharing(ms[0].c.base.n, MemberKeys(ms), ms[0].c.oldPub)
  {
    hide *;
    WholeStarts(ms);
    WholeParts(ms, 0, 0);
    MemberPair(ms, 0, 0);
    KeyFields(ms[0]);
    var n, c, keys, f := ms[0].c.base.n, ms[0].c.base, MemberKeys(ms), JointOf(ms[0]);
    forall i | 0 <= i < |ms|
      ensures keys[i] == keys[0].(idx := i, xi := keys[i].xi, ot := keys[i].ot)
      ensures 0 <= keys[i].xi < n && keys[0].bigXj[i] == keys[i].xi
      ensures |keys[i].ot| == |keys| && keys[i].ot[i] == None && MemberIds(ms)[i] == c.Id(i)
      ensures Cong(MemberShares(ms)[i], Eval(f, MemberIds(ms)[i]), n)
    {
      MemberKey(ms, i);
      MemberValue(ms, i);
      JointOfIs(ms[0], MemberIds(ms)[i]);
    }
    forall i, j | 0 <= i < |keys| && 0 <= j < |keys| && i != j
      ensures PairMatches(keys[i].ot[j], keys[j].ot[i])
    {
      PairReshared(ms, i, j);
    }
    JointAtZero(ms[0]);
    JointOfIs(ms[0], 0);
    DkgAgreement.SharingIntro(n, keys, keys[0].ecdsaPub, f, MemberIds(ms), MemberShares(ms), c);
  }
}
