/** The broker-driven key generation of one party (src/dklstss/keygen_party.rs): message handlers over
    mutex-protected state, fired in any order the broker chooses. Each method is one atomic step. */
module KeygenParty {
  import opened NumberTheory
  import opened Polynomial
  import opened Results
  import opened Bits
  import opened Secp
  import opened OtExtension
  import opened BaseOt
  import opened Ole
  import opened Vss
  import opened Keys
  import opened SignEncoding
  import opened Echo
  import opened Committee
  import opened Dkg
  import opened DkgAgreement

  /** The sender states a party prepared in round 1. */
  ghost predicate SendersReady(c: Config, own: Own, senders: map<nat, Sender>) {
    forall k :: 0 <= k < c.Count() - 1 ==>
      Other(c.me, k) in senders && senders[Other(c.me, k)] == MySender(c, own, Other(c.me, k))
  }

  /** Round 2's per-peer results for the first m peers. */
  ghost predicate PeersStored(c: Config, own: Own, bcasts: seq<R1Bcast>, unicasts: seq<R1Unicast>, points: map<nat,
    seq<Point>>,
    receivers: map<nat, Receiver>, m: nat)
  {
    && m <= |bcasts| == |unicasts|
    && forall k :: 0 <= k < m ==> PeerStored(c, own, Other(c.me, k), bcasts[k], unicasts[k], points, receivers)
  }

  ghost predicate PeerStored(c: Config, own: Own, j: nat, bc: R1Bcast, uc: R1Unicast, points: map<nat, seq<Point>>,
    receivers: map<nat, Receiver>)
  {
    j in points && points[j] == PeerPoints(c, bc) && j in receivers && receivers[j] == MyReceiver(c, own, uc, j)
  }

  ghost predicate SharesStored(c: Config, unicasts: seq<R1Unicast>, shares: map<nat, Scalar>, m: nat) {
    m <= |unicasts| && forall k :: 0 <= k < m ==> ShareStored(c, Other(c.me, k), unicasts[k], shares)
  }

  ghost predicate ShareStored(c: Config, j: nat, uc: R1Unicast, shares: map<nat, Scalar>) {
    j in shares && shares[j] == PeerShare(c, uc)
  }

  /** The responses sent to the first m peers. */
  ghost predicate ResponsesSent(c: Config, own: Own, unicasts: seq<R1Unicast>, sent: seq<R2>) {
    && own.Valid(c) && |sent| <= |unicasts|
    && forall k :: 0 <= k < |sent| ==> sent[k] == OwnR2(c, own, unicasts[k], Other(c.me, k))
  }

  // ---------- round 1 ----------

  /** What a party deals: its commitments to everyone, and each peer's share with a base-OT message. */
  method RoundOne(c: Config, own: Own) returns (selfShare: Scalar, bcast: R1Bcast, unicasts: seq<R1Unicast>)
    requires c.me < c.Count() && own.Valid(c)
    ensures selfShare == OwnShare(c, own, c.me) && bcast == OwnBcast(c, own) && |unicasts| == c.Count() - 1
    ensures forall k :: 0 <= k < |unicasts| ==> unicasts[k] == OwnUnicast(c, own, Other(c.me, k))
  {
    hide Eval;
    assert own.poly == [own.poly[0]] + own.poly[1..];
    var vs, shares := Create(c.n, c.t, own.poly[0], Ids(c.n, c.partyIds), own.poly[1..]);
    selfShare := shares[c.me];
    bcast := R1Bcast(Flatten(c.codec, vs), own.pok);
    unicasts := [];
    for k := 0 to c.Count() - 1
      invariant |unicasts| == k && forall m :: 0 <= m < k ==> unicasts[m] == OwnUnicast(c, own, Other(c.me, m))
    {
      var j := Other(c.me, k);
      unicasts := unicasts + [R1Unicast(BeMin(shares[j]), c.codec.coords(MulBase(c.n, own.y(j))), own.alpha(j),
        own.potT(j))];
    }
  }

  /** An honest dealer passes every check of an honest receiver, exactly when its coefficients are non-zero (a zero one
      has no point to send) and its proofs are accepted. */
  lemma HonestDealerAccepted(a: Config, own: Own, b: Config)
    requires a.Valid() && own.Valid(a) && b == a.(me := b.me)
    ensures PeerOk(b, a.me, OwnBcast(a, own), OwnUnicast(a, own, b.me)) <==>
      && 0 !in own.poly && a.pokOk(a.me, own.poly, Flatten(a.codec, own.poly), own.pok)
      && OtMessageOk(b, a.me, OwnUnicast(a, own, b.me))
  {
    var v := OwnShare(a, own, b.me);
    FlattenRoundTrip(a.codec, a.n, own.poly);
    hide Flatten, PointsOf, Eval, IsPrime, Codec.Valid, Oracle.Valid, IndexesOk, Cong, OtMessageOk;
    CongMod(Eval(own.poly, a.Id(b.me)), a.n);
    BeMinValue(v);
    CanonicalIff(a.n, BeMin(v));
    hide BeMin, BeValue, IsCanonicalScalar, OwnShare;
    SmallMod(v, a.n);
    assert b.Id(b.me) == a.Id(b.me);
  }

  /** The responses of an honest receiver are usable by an honest sender, exactly when none of them is the identity:
      R_i = x_i G, plus S for a choice bit of one. */
  lemma HonestResponsesUsable(a: Config, own: Own, uc: R1Unicast, b: Config, s: Point)
    requires a.Valid() && own.Valid(a) && b == a.(me := b.me) && PeerS(a, uc) == Some(s)
    ensures |own.delta(b.me)| == 16 && |own.xs(b.me)| == 128
    ensures ResponseOk(b, OwnR2(a, own, uc, b.me)) <==> forall i :: 0 <= i < 128 ==>
      !Cong(own.xs(b.me)[i] + (if BitAt(own.delta(b.me), i) then s else 0), 0, a.n)
  {
    OwnSizes(own, b.me);
    var r := OwnResponses(a, own, uc, b.me);
    forall i | 0 <= i < 128
      ensures 0 <= r[i] < a.n
      ensures r[i] == 0 <==> Cong(own.xs(b.me)[i] + (if BitAt(own.delta(b.me), i) then s else 0), 0, a.n)
    {
      ResponseIs(a.n, own.xs(b.me)[i], BitAt(own.delta(b.me), i), s);
      assert r[i] == Response(a.n, own.xs(b.me)[i], BitAt(own.delta(b.me), i), s);
    }
    FlattenRoundTrip(a.codec, a.n, r);
    hide Flatten, PointsOf, Cong, BitAt, Response;
    if 0 in r {
      var i :| 0 <= i < |r| && r[i] == 0;
      assert Cong(own.xs(b.me)[i] + (if BitAt(own.delta(b.me), i) then s else 0), 0, a.n);
    }
  }

  lemma ResponseIs(n: int, x: int, c: bool, s: Point)
    requires n > 0
    ensures 0 <= Response(n, x, c, s) < n
    ensures Response(n, x, c, s) == 0 <==> Cong(x + (if c then s else 0), 0, n)
  {
    FieldOps(n, x, 0);
    FieldOps(n, MulBase(n, x), s);
    CongSelf(s, n);
    CongAdd(MulBase(n, x), x, s, s, n);
    CongTrans(PointAdd(n, MulBase(n, x), s), MulBase(n, x) + s, x + s, n);
    var r, v := Response(n, x, c, s), x + if c then s else 0;
    assert 0 <= r < n && Cong(r, v, n);
    hide *;
    if r == 0 { CongFlip(r, v, n); }
    if Cong(v, 0, n) {
      CongTrans(r, v, 0, n);
      CongSmall(r, 0, n);
    }
  }

  /** An honest member's echo is accepted by another exactly when the two hold the same digest for every dealer but the
      first. */
  lemma HonestEchoExact(a: Config, bcasts: seq<R1Bcast>, b: Config, own: Own, bBcasts: seq<R1Bcast>)
    requires b == a.(me := b.me) && a.me != b.me && a.me < a.Count() && b.me < b.Count()
    requires |bcasts| == a.Count() - 1
    ensures Agrees(MyDigestMap(b, own, bBcasts), a.me, OwnEcho(a, bcasts), Everyone(b.Count(), b.me)) <==>
      forall d :: 0 <= d < a.Count() && d != a.me ==>
        a.digest(d, bcasts[Slot(a.me, d)].vss) == a.digest(d, Heard(b, own, bBcasts, d))
  {
    var mine, echo, all := MyDigestMap(b, own, bBcasts), OwnEcho(a, bcasts), Everyone(b.Count(), b.me);
    hide Heard;
    forall k | 0 <= k < |bcasts| ensures echo.digests[k].0 == Other(a.me, k) && Slot(a.me, Other(a.me, k)) == k {
    }
    forall p | p in all && p != a.me ensures echo.Has(p) {
      assert echo.digests[Slot(a.me, p)].0 == p;
    }
    if Agrees(mine, a.me, echo, all) {
      forall d | 0 <= d < a.Count() && d != a.me
        ensures a.digest(d, bcasts[Slot(a.me, d)].vss) == a.digest(d, Heard(b, own, bBcasts, d))
      {
        assert EntryAgrees(mine, a.me, echo.digests[Slot(a.me, d)]);
      }
    }
  }

  // ---------- steps of round 2 ----------

  lemma OwnSizes(own: Own, j: nat)
    requires own.Drawn()
    ensures |own.delta(j)| == DELTA_BYTES && |own.xs(j)| == KAPPA
  {
  }

  lemma OthersDiffer(me: nat, k: nat, m: nat)
    requires k != m
    ensures Other(me, k) != Other(me, m)
  {
  }

  /** Storing peer k's data keeps the earlier peers' data. */
  lemma StoredAfter(c: Config, own: Own, bc: R1Bcast, uc: R1Unicast, points: map<nat, seq<Point>>, receivers: map<nat,
    Receiver>,
    shares: map<nat, Scalar>, k: nat, bcasts: seq<R1Bcast>, unicasts: seq<R1Unicast>)
    requires k < |bcasts| == |unicasts| && bc == bcasts[k] && uc == unicasts[k]
    requires PeersStored(c, own, bcasts, unicasts, points, receivers, k) && SharesStored(c, unicasts, shares, k)
    ensures var j := Other(c.me, k);
      && PeersStored(c, own, bcasts, unicasts, points[j := PeerPoints(c, bc)],
        receivers[j := MyReceiver(c, own, uc, j)], k + 1)
      && SharesStored(c, unicasts, shares[j := PeerShare(c, uc)], k + 1)
  {
    hide PeerPoints, MyReceiver, PeerShare;
    forall m | 0 <= m < k ensures Other(c.me, m) != Other(c.me, k) { OthersDiffer(c.me, k, m); }
  }

  /** Every peer's round-1 messages in turn; the entries of the peers before a failing one are already stored. */
  method CheckPeers(c: Config, own: Own, bcasts: seq<R1Bcast>, ucs: seq<R1Unicast>, points0: map<nat, seq<Point>>,
    receivers0: map<nat, Receiver>, shares0: map<nat, Scalar>)
    returns (err: Option<PartyError>, points: map<nat, seq<Point>>, receivers: map<nat, Receiver>, shares: map<nat,
      Scalar>, r2Out: seq<R2>)
    requires c.Valid() && own.Valid(c) && |bcasts| == |ucs| == c.Count() - 1
    ensures err == None <==> AllPeersOk(c, bcasts, ucs)
    ensures err == None ==>
      PeersStored(c, own, bcasts, ucs, points, receivers, c.Count() - 1) && SharesStored(c, ucs, shares, c.Count() - 1)
    ensures err == None ==> |r2Out| == c.Count() - 1 && ResponsesSent(c, own, ucs, r2Out)
  {
    hide PeerOk, PeerStored, ShareStored, OwnR2, MyReceiver, PeerShare, PeerPoints, Config.Valid;
    points, receivers, shares, r2Out := points0, receivers0, shares0, [];
    for k := 0 to c.Count() - 1
      invariant forall m :: 0 <= m < k ==> PeerOk(c, Other(c.me, m), bcasts[m], ucs[m])
      invariant PeersStored(c, own, bcasts, ucs, points, receivers, k) && SharesStored(c, ucs, shares, k)
      invariant |r2Out| == k && ResponsesSent(c, own, ucs, r2Out)
    {
      var j, bc, uc := Other(c.me, k), bcasts[k], ucs[k];
      err := CheckPeer(c, j, bc, uc);
      if err.Some? { return; }
      OwnSizes(own, j);
      r2Out := r2Out + [OwnR2(c, own, uc, j)];
      StoredAfter(c, own, bc, uc, points, receivers, shares, k, bcasts, ucs);
      points := points[j := PeerPoints(c, bc)];
      receivers := receivers[j := MyReceiver(c, own, uc, j)];
      shares := shares[j := PeerShare(c, uc)];
    }
    err := None;
  }

  // ---------- steps of finalize ----------

  method SumShares(c: Config, ghost own: Own, mine: Scalar, ghost unicasts: seq<R1Unicast>, shares: map<nat,
    Scalar>) returns (xi: Scalar)
    requires c.me < c.Count() && |unicasts| == c.Count() - 1 && SharesStored(c, unicasts, shares, c.Count() - 1)
    requires mine == OwnShare(c, own, c.me)
    ensures xi == FinalShare(c, own, unicasts)
  {
    hide PeerShare, OwnShare;
    xi := mine;
    SmallMod(mine, c.n);
    for k := 0 to c.Count() - 1
      invariant xi == (OwnShare(c, own, c.me) + PeerShareSum(c, unicasts, k)) % c.n
    {
      assert ShareStored(c, Other(c.me, k), unicasts[k], shares);
      var s := shares[Other(c.me, k)];
      SumStep(c.n, xi, OwnShare(c, own, c.me) + PeerShareSum(c, unicasts, k), s, s);
      xi := FAdd(c.n, xi, s);
    }
  }

  /** The commitments of every dealer, by index. */
  method CollectVss(c: Config, own: Own, vs: seq<Point>, peerVs: map<nat, seq<Point>>, ghost receivers: map<nat,
    Receiver>,
    bcasts: seq<R1Bcast>, ghost unicasts: seq<R1Unicast>) returns (vss: seq<seq<Point>>)
    requires c.me < c.Count() && |bcasts| == c.Count() - 1 && vs == own.poly
    requires PeersStored(c, own, bcasts, unicasts, peerVs, receivers, c.Count() - 1)
    ensures vss == AllVss(c, own, bcasts)
  {
    hide PeerPoints, MyReceiver;
    vss := [];
    for j := 0 to c.Count()
      invariant |vss| == j && forall d :: 0 <= d < j ==> vss[d] == DealerPoints(c, own, bcasts, d)
    {
      if j == c.me {
        vss := vss + [vs];
      } else {
        var k := Slot(c.me, j);
        assert Other(c.me, k) == j && PeerStored(c, own, Other(c.me, k), bcasts[k], unicasts[k], peerVs, receivers);
        vss := vss + [peerVs[j]];
      }
    }
  }

  ghost predicate ProperVss(n: int, vss: seq<seq<Point>>) {
    vss != [] && forall j :: 0 <= j < |vss| ==> vss[j] != [] && Reduced(n, vss[j])
  }

  lemma CheckedVss(c: Config, own: Own, bcasts: seq<R1Bcast>, unicasts: seq<R1Unicast>)
    requires c.Valid() && own.Valid(c) && AllPeersOk(c, bcasts, unicasts)
    ensures ProperVss(c.n, AllVss(c, own, bcasts)) && c.me < c.Count() && |bcasts| == |unicasts| == c.Count() - 1
  {
    hide PointsOf, OtMessageOk, IsCanonicalScalar, IndexesOk, IsPrime, Cong, Eval;
    var vss := AllVss(c, own, bcasts);
    forall j | 0 <= j < |vss| ensures vss[j] != [] && Reduced(c.n, vss[j]) {
      if j != c.me {
        var k := Slot(c.me, j);
        assert PeerOk(c, Other(c.me, k), bcasts[k], unicasts[k]);
        ParsedPointsProper(c.codec, c.n, bcasts[k].vss);
      }
    }
  }

  method PublicPart(c: Config, own: Own, vs: seq<Point>, peerVs: map<nat, seq<Point>>, ghost receivers: map<nat,
    Receiver>,
    bcasts: seq<R1Bcast>, ghost unicasts: seq<R1Unicast>) returns (pub: Point, big: seq<Point>)
    requires c.Valid() && own.Valid(c) && AllPeersOk(c, bcasts, unicasts) && vs == own.poly
    requires PeersStored(c, own, bcasts, unicasts, peerVs, receivers, c.Count() - 1)
    ensures pub == JointKey(c, AllVss(c, own, bcasts)) && big == VerificationPoints(c, AllVss(c, own, bcasts))
  {
    hide *;
    CheckedVss(c, own, bcasts, unicasts);
    ProperMeans(c, own, bcasts);
    var vss := CollectVss(c, own, vs, peerVs, receivers, bcasts, unicasts);
    pub := SumConstantTerms(c, vs, peerVs, vss, own, bcasts, unicasts, receivers);
    big := [];
    for j := 0 to c.Count()
      invariant |big| == j && forall d :: 0 <= d < j ==> big[d] == SumEval(vss, c.Id(d), |vss|) % c.n
    {
      var p := EvaluateCommitmentSum(c.n, vss, c.Id(j));
      big := big + [p];
    }
    VerificationIs(c, vss, big);
  }

  lemma ProperMeans(c: Config, own: Own, bcasts: seq<R1Bcast>)
    requires ProperVss(c.n, AllVss(c, own, bcasts))
    ensures var vss := AllVss(c, own, bcasts);
      vss != [] && |vss| == c.Count() && forall j :: 0 <= j < |vss| ==> vss[j] != [] && Reduced(c.n, vss[j])
  {
  }

  lemma VerificationIs(c: Config, vss: seq<seq<Point>>, big: seq<Point>)
    requires |big| == c.Count() && forall d :: 0 <= d < |big| ==> big[d] == SumEval(vss, c.Id(d), |vss|) % c.n
    ensures big == VerificationPoints(c, vss)
  {
    hide SumEval;
  }

  /** X = V_me[0] + sum of the peers' V_j[0] */
  method SumConstantTerms(c: Config, vs: seq<Point>, peerVs: map<nat, seq<Point>>, ghost vss: seq<seq<Point>>,
    ghost own: Own, ghost bcasts: seq<R1Bcast>, ghost unicasts: seq<R1Unicast>, ghost receivers: map<nat, Receiver>)
    returns (pub: Point)
    requires ProperVss(c.n, vss) && c.me < |vss| == c.Count() && vs == own.poly && vss == AllVss(c, own, bcasts)
    requires PeersStored(c, own, bcasts, unicasts, peerVs, receivers, c.Count() - 1)
    ensures pub == JointKey(c, vss)
  {
    hide PeerPoints, MyReceiver, Eval, PeersStored, DealerPoints, AllVss;
    OwnTerm(c, own, bcasts);
    pub := vs[0];
    EvalZero(vs);
    SmallMod(pub, c.n);
    for k := 0 to c.Count() - 1
      invariant pub == (Eval(vss[c.me], 0) + OthersEval(vss, c.me, 0, k)) % c.n
    {
      var j := Other(c.me, k);
      StoredPoints(c, own, bcasts, unicasts, peerVs, receivers, k);
      EvalZero(peerVs[j]);
      SumStep(c.n, pub, Eval(vss[c.me], 0) + OthersEval(vss, c.me, 0, k), peerVs[j][0], peerVs[j][0]);
      pub := PointAdd(c.n, pub, peerVs[j][0]);
    }
    OwnFirst(vss, c.me, 0, |vss|);
  }

  lemma OwnTerm(c: Config, own: Own, bcasts: seq<R1Bcast>)
    requires c.me < c.Count()
    ensures AllVss(c, own, bcasts)[c.me] == own.poly
  {
  }

  lemma StoredPoints(c: Config, own: Own, bcasts: seq<R1Bcast>, unicasts: seq<R1Unicast>, peerVs: map<nat, seq<Point>>,
    receivers: map<nat, Receiver>, k: nat)
    requires c.Count() > 0 && PeersStored(c, own, bcasts, unicasts, peerVs, receivers, c.Count() - 1)
    requires k < c.Count() - 1
    ensures var j := Other(c.me, k); j < c.Count() && j in peerVs && AllVss(c, own, bcasts)[j] == peerVs[j]
  {
    hide PeerPoints, MyReceiver;
    var j := Other(c.me, k);
    assert Slot(c.me, j) == k && PeerStored(c, own, j, bcasts[k], unicasts[k], peerVs, receivers);
  }

  /** The OT-extension state for every peer. */
  method AssembleOt(c: Config, own: Own, ghost peerVs: map<nat, seq<Point>>, receivers: map<nat, Receiver>,
    senders: map<nat, Sender>,
    ghost bcasts: seq<R1Bcast>, ghost unicasts: seq<R1Unicast>, r2s: seq<R2>)
    returns (err: Option<PartyError>, ot: seq<Option<PairOt>>)
    requires own.Valid(c) && c.me < c.Count() && |r2s| == |unicasts| == c.Count() - 1
    requires SendersReady(c, own, senders) && PeersStored(c, own, bcasts, unicasts, peerVs, receivers, c.Count() - 1)
    ensures err == None <==> AllResponsesOk(c, r2s)
    ensures err == None ==> ot == OtStates(c, own, unicasts, r2s)
  {
    hide PeerPoints, MySender, MyReceiver, PointsOf, SenderKey, ReceiverFinalize;
    ot := seq(c.Count(), _ => None);
    for k := 0 to c.Count() - 1
      invariant |ot| == c.Count()
      invariant forall m :: 0 <= m < k ==>
        ResponseOk(c, r2s[m]) && ot[Other(c.me, m)] == OtSlot(c, own, unicasts, r2s, Other(c.me, m))
      invariant ot[c.me] == None
    {
      var j := Other(c.me, k);
      assert PeerStored(c, own, j, bcasts[k], unicasts[k], peerVs, receivers);
      OwnSizes(own, j);
      var st := AssemblePair(c, own, unicasts[k], r2s[k], j, receivers[j], senders[j]);
      if st == None { return Some(BadResponse(j)), ot; }
      assert Slot(c.me, j) == k;
      forall m | 0 <= m < k ensures Other(c.me, m) != j { OthersDiffer(c.me, k, m); }
      ot := ot[j := st];
    }
    forall j | 0 <= j < c.Count() ensures ot[j] == OtSlot(c, own, unicasts, r2s, j) {
      if j != c.me { assert Other(c.me, Slot(c.me, j)) == j; }
    }
    return None, ot;
  }

  method AssemblePair(c: Config, own: Own, ghost uc: R1Unicast, r2: R2, j: nat, receiver: Receiver,
    sender: Sender) returns (st: Option<PairOt>)
    requires |own.delta(j)| == DELTA_BYTES && |own.xs(j)| == KAPPA
    requires receiver == MyReceiver(c, own, uc, j) && sender == MySender(c, own, j)
    ensures st == OtFor(c, own, uc, r2, j) && (st.Some? <==> ResponseOk(c, r2))
  {
    hide PointsOf, SenderKey;
    var chosen := ReceiverFinalize(c.oracle, c.n, receiver);
    var extSender := SenderFromBase(own.delta(j), chosen);
    if extSender.Err? { return None; }
    var peerR := Unflatten(c.codec, r2.r);
    if peerR.Err? { return None; }
    var keys := SenderFinalize(c.oracle, c.n, sender, peerR.value);
    if keys == None { return None; }
    var (k0, k1) := keys.value;
    var extReceiver := ReceiverFromBase(k0, k1);
    if extReceiver.Err? { return None; }
    st := Some(PairOt(extReceiver.value, extSender.value));
    assert k0 == seq(KAPPA, i requires 0 <= i < KAPPA => SenderKey(c.oracle, c.n, sender, i, peerR.value[i], false));
    assert k1 == seq(KAPPA, i requires 0 <= i < KAPPA => SenderKey(c.oracle, c.n, sender, i, peerR.value[i], true));
  }

  /** The states for all peers, from receivers kept in order; names the first peer whose responses are unusable. */
  method AssembleStates(c: Config, own: Own, receivers: seq<Receiver>, ghost unicasts: seq<R1Unicast>, r2s: seq<R2>)
    returns (bad: Option<nat>, ot: seq<Option<PairOt>>)
    requires c.me < c.Count() && own.Drawn() && |receivers| == |unicasts| == |r2s| == c.Count() - 1
    requires forall k :: 0 <= k < |receivers| ==> receivers[k] == MyReceiver(c, own, unicasts[k], Other(c.me, k))
    ensures bad == None <==> AllResponsesOk(c, r2s)
    ensures bad == None ==> ot == OtStates(c, own, unicasts, r2s)
  {
    hide MyReceiver, MySender, OtFor, ResponseOk;
    ot := seq(c.Count(), _ => None);
    for k := 0 to |r2s|
      invariant |ot| == c.Count() && ot[c.me] == None
      invariant forall m :: 0 <= m < k ==>
        ResponseOk(c, r2s[m]) && ot[Other(c.me, m)] == OtFor(c, own, unicasts[m], r2s[m], Other(c.me, m))
    {
      var j := Other(c.me, k);
      OwnSizes(own, j);
      var st := AssemblePair(c, own, unicasts[k], r2s[k], j, receivers[k], MySender(c, own, j));
      if st == None { return Some(j), ot; }
      ot := ot[j := st];
    }
    forall j | 0 <= j < c.Count() ensures ot[j] == OtSlot(c, own, unicasts, r2s, j) {
      if j != c.me { assert Other(c.me, Slot(c.me, j)) == j; }
    }
    return None, ot;
  }

  lemma KeyIs(c: Config, own: Own, tr: Transcript, key: Key)
    requires var vss := AllVss(c, own, tr.bcasts);
      key == Key(c.Count(), c.t, c.me, c.partyIds, FinalShare(c, own, tr.unicasts), VerificationPoints(c, vss),
        JointKey(c, vss),
        OtStates(c, own, tr.unicasts, tr.r2s), c.chainOf(JointKey(c, vss)))
    ensures key == FinalKey(c, own, tr)
  {
  }

  lemma FinishedIntro(c: Config, own: Own, tr: Transcript, key: Key)
    requires c.Valid() && own.Valid(c) && AllPeersOk(c, tr.bcasts, tr.unicasts)
    requires EchoesAgree(c, own, tr.bcasts, tr.echoes)
    requires AllResponsesOk(c, tr.r2s) && key == FinalKey(c, own, tr) && Basic(c.n, key)
    ensures Finished(c, own, tr, key)
  {
  }

  /** The public part, the OT states and the validated key. */
  method BuildKey(c: Config, own: Own, xi: Scalar, vs: seq<Point>, peerVs: map<nat, seq<Point>>,
    receivers: map<nat, Receiver>, senders: map<nat, Sender>, bcasts: seq<R1Bcast>, r2s: seq<R2>,
    ghost used: Transcript) returns (res: Result<Key, PartyError>)
    requires c.Valid() && own.Valid(c) && c.me < c.Count() && vs == own.poly && used.bcasts == bcasts && used.r2s == r2s
    requires |r2s| == |used.unicasts| == c.Count() - 1 && xi == FinalShare(c, own, used.unicasts)
    requires AllPeersOk(c, bcasts, used.unicasts) && EchoesAgree(c, own, bcasts, used.echoes)
    requires SendersReady(c, own, senders)
    requires PeersStored(c, own, bcasts, used.unicasts, peerVs, receivers, c.Count() - 1)
    ensures res.Ok? ==> Finished(c, own, used, res.value)
    ensures res.Ok? <==> AllResponsesOk(c, r2s) && Basic(c.n, FinalKey(c, own, used))
  {
    hide *;
    var pub, big := PublicPart(c, own, vs, peerVs, receivers, bcasts, used.unicasts);
    var err, ot := AssembleOt(c, own, peerVs, receivers, senders, bcasts, used.unicasts, r2s);
    if err.Some? { return Err(err.value); }
    var key := Key(c.Count(), c.t, c.me, c.partyIds, xi, big, pub, ot, c.chainOf(pub));
    KeyIs(c, own, used, key);
    var valid := ValidateBasic(c.n, key);
    if !valid { return Err(InvalidKey); }
    FinishedIntro(c, own, used, key);
    return Ok(key);
  }

  class Shared {
    const c: Config
    const own: Own

    var vs: seq<Point>
    var mySelfShare: Scalar
    var baseSnd: map<nat, Sender>
    var r1Bcasts: seq<R1Bcast>
    var r1Unicasts: seq<R1Unicast>
    var r1Join: nat
    var baseRcv: map<nat, Receiver>
    var peerVs: map<nat, seq<Point>>
    var peerShares: map<nat, Scalar>
    var echoOk: bool
    var r2Msgs: Option<seq<Option<R2>>>
    var finalizing: bool

    /** The result channel: its sender is taken by the first delivery. */
    var resultTx: bool
    var deliveries: seq<Result<Key, PartyError>>

    /** The round-2 handlers are registered with the broker, and what round 2 sent. */
    var connected: bool
    var sentEcho: Option<EchoMsg>
    var sentR2: seq<R2>

    ghost var haveBcasts: bool
    ghost var haveUnicasts: bool
    ghost var used: Transcript

    ghost predicate Joined() reads this {
      && r1Join == (if haveBcasts then 1 else 0) + (if haveUnicasts then 1 else 0)
      && (haveBcasts ==> |r1Bcasts| == c.Count() - 1)
      && (haveUnicasts && !haveBcasts ==> |r1Unicasts| == c.Count() - 1)
    }

    /** Round 2 completed: every peer passed, its data are stored and the echo is out. */
    ghost predicate RoundTwoDone() reads this {
      && haveBcasts && haveUnicasts && used.bcasts == r1Bcasts
      && AllPeersOk(c, r1Bcasts, used.unicasts)
      && PeersStored(c, own, r1Bcasts, used.unicasts, peerVs, baseRcv, c.Count() - 1)
      && (!finalizing ==> SharesStored(c, used.unicasts, peerShares, c.Count() - 1))
      && sentEcho == Some(OwnEcho(c, r1Bcasts))
      && |sentR2| == c.Count() - 1 && ResponsesSent(c, own, used.unicasts, sentR2)
    }

    /** What every step keeps. A delivered key is backed by verified shares and echoes. */
    ghost predicate Inv() reads this {
      && c.Valid() && own.Valid(c) && vs == own.poly && SendersReady(c, own, baseSnd)
      && |deliveries| <= 1 && (resultTx <==> deliveries == [])
      && Joined()
      && (connected ==> RoundTwoDone())
      && (echoOk ==> connected && EchoesAgree(c, own, r1Bcasts, used.echoes))
      && (finalizing ==> echoOk)
      && (!finalizing ==> mySelfShare == OwnShare(c, own, c.me))
      && (r2Msgs.Some? ==> |r2Msgs.value| == c.Count() - 1)
      && (forall k :: 0 <= k < |deliveries| && deliveries[k].Ok? ==> finalizing && Finished(c, own, used,
        deliveries[k].value))
    }

    /** Between steps nothing is left half done: a joined round 1 has led to round 2 or a result, and what finalize
        waits for leads to a result. */
    ghost predicate Settled() reads this {
      && (haveBcasts && haveUnicasts ==> connected || deliveries != [])
      && (finalizing ==> deliveries != [])
      && (echoOk && r2Msgs.Some? ==> finalizing)
    }

    /** Round 1 as far as this party's own state is concerned. */
    constructor (c: Config, own: Own, selfShare: Scalar)
      requires c.Valid() && own.Valid(c) && selfShare == OwnShare(c, own, c.me)
      ensures Inv() && Settled() && this.c == c && this.own == own && deliveries == []
      ensures !haveBcasts && !haveUnicasts && !connected && !echoOk && r2Msgs == None && !finalizing
    {
      this.c, this.own := c, own;
      vs := own.poly;
      mySelfShare := selfShare;
      baseSnd := map j: nat | j in OtherParties(c.Count(), c.me) :: MySender(c, own, j);
      r1Bcasts, r1Unicasts, r1Join := [], [], 0;
      baseRcv, peerVs, peerShares := map[], map[], map[];
      echoOk, r2Msgs, finalizing := false, None, false;
      resultTx, deliveries := true, [];
      connected, sentEcho, sentR2 := false, None, [];
      haveBcasts, haveUnicasts, used := false, false, Transcript([], [], [], []);
      new;
      forall k | 0 <= k < c.Count() - 1 ensures Other(c.me, k) in baseSnd {
        assert OtherParties(c.Count(), c.me)[k] == Other(c.me, k);
      }
    }

    /** The first result wins; later ones are dropped. */
    method Deliver(r: Result<Key, PartyError>)
      modifies this`resultTx, this`deliveries
      ensures deliveries == if old(resultTx) then old(deliveries) + [r] else old(deliveries)
      ensures !resultTx
    {
      if resultTx {
        resultTx := false;
        deliveries := deliveries + [r];
      }
    }

    method Fail(e: PartyError)
      requires Inv()
      modifies this`resultTx, this`deliveries
      ensures Inv() && old(deliveries) <= deliveries && deliveries != []
    {
      hide AllPeersOk, PeersStored, SharesStored, ResponsesSent, EchoesAgree, SendersReady, Finished, Config.Valid,
        Own.Valid, OwnEcho, OwnShare, Basic, FinalKey, FinalShare, Other, Config.Count;
      Deliver(Err(e));
    }

    method OnR1Bcasts(msgs: seq<Option<R1Bcast>>)
      requires Inv() && Settled() && !haveBcasts && |msgs| == c.Count() - 1
      modifies this
      ensures Inv() && Settled() && old(deliveries) <= deliveries && (haveBcasts || deliveries != [])
      ensures haveUnicasts == old(haveUnicasts) && echoOk == old(echoOk) && r2Msgs == old(r2Msgs)
      ensures finalizing == old(finalizing)
      ensures old(connected) ==> connected
    {
      hide AllPeersOk, PeersStored, SharesStored, ResponsesSent, EchoesAgree, SendersReady, Finished, Config.Valid,
        Own.Valid, OwnEcho, OwnShare, Basic, FinalKey, FinalShare, Other, Config.Count;
      if !Decoded(msgs) {
        Fail(Undecodable);
        return;
      }
      r1Bcasts := Payloads(msgs);
      r1Join := r1Join + 1;
      haveBcasts := true;
      if r1Join == 2 { RoundTwo(); }
    }

    method OnR1Unicasts(msgs: seq<Option<R1Unicast>>)
      requires Inv() && Settled() && !haveUnicasts && |msgs| == c.Count() - 1
      modifies this
      ensures Inv() && Settled() && old(deliveries) <= deliveries && (haveUnicasts || deliveries != [])
      ensures haveBcasts == old(haveBcasts) && echoOk == old(echoOk) && r2Msgs == old(r2Msgs)
      ensures finalizing == old(finalizing)
      ensures old(connected) ==> connected
    {
      hide AllPeersOk, PeersStored, SharesStored, ResponsesSent, EchoesAgree, SendersReady, Finished, Config.Valid,
        Own.Valid, OwnEcho, OwnShare, Basic, FinalKey, FinalShare, Other, Config.Count;
      if !Decoded(msgs) {
        Fail(Undecodable);
        return;
      }
      r1Unicasts := Payloads(msgs);
      r1Join := r1Join + 1;
      haveUnicasts := true;
      if r1Join == 2 { RoundTwo(); }
    }

    /** Checks every peer's round-1 messages, stores what they yield and sends the echo and the responses. */
    method RoundTwo()
      requires Inv() && haveBcasts && haveUnicasts && !connected && |r1Unicasts| == c.Count() - 1
      modifies this
      ensures Inv() && old(deliveries) <= deliveries
      ensures haveBcasts && haveUnicasts && (connected || deliveries != [])
      ensures echoOk == old(echoOk) && r2Msgs == old(r2Msgs) && finalizing == old(finalizing)
    {
      hide AllPeersOk, PeersStored, SharesStored, ResponsesSent, EchoesAgree, SendersReady, Finished, Config.Valid,
        Own.Valid, OwnEcho, OwnShare, Basic, FinalKey, FinalShare, Other, Config.Count;
      var ucs := r1Unicasts;
      var err, r2Out := CheckAndStore(ucs);
      if err.Some? {
        Fail(err.value);
        return;
      }
      CompleteRoundTwo(ucs, r2Out);
    }

    /** The checks of round 2; what they yield is stored even when a later peer fails. */
    method CheckAndStore(ucs: seq<R1Unicast>) returns (err: Option<PartyError>, r2Out: seq<R2>)
      requires Inv() && haveBcasts && haveUnicasts && !connected && |ucs| == c.Count() - 1
      modifies this`r1Unicasts, this`peerVs, this`baseRcv, this`peerShares
      ensures Inv()
      ensures err == None ==>
        AllPeersOk(c, r1Bcasts, ucs) && PeersStored(c, own, r1Bcasts, ucs, peerVs, baseRcv, c.Count() - 1)
      ensures err == None ==> SharesStored(c, ucs, peerShares, c.Count() - 1)
      ensures err == None ==> |r2Out| == c.Count() - 1 && ResponsesSent(c, own, ucs, r2Out)
    {
      hide AllPeersOk, PeersStored, SharesStored, ResponsesSent, EchoesAgree, SendersReady, Finished, Config.Valid,
        Own.Valid, OwnEcho, OwnShare, Basic, FinalKey, FinalShare, Other, Config.Count;
      r1Unicasts := [];
      var points, receivers, shares;
      err, points, receivers, shares, r2Out := CheckPeers(c, own, r1Bcasts, ucs, peerVs, baseRcv, peerShares);
      peerVs, baseRcv, peerShares := points, receivers, shares;
    }

    /** Sends the echo and the responses and registers the round-2 handlers. */
    method CompleteRoundTwo(ghost ucs: seq<R1Unicast>, r2Out: seq<R2>)
      requires Inv() && haveBcasts && haveUnicasts && !connected && AllPeersOk(c, r1Bcasts, ucs)
      requires PeersStored(c, own, r1Bcasts, ucs, peerVs, baseRcv, c.Count() - 1)
      requires SharesStored(c, ucs, peerShares, c.Count() - 1)
      requires |r2Out| == c.Count() - 1 && ResponsesSent(c, own, ucs, r2Out)
      modifies this`used, this`sentEcho, this`sentR2, this`connected
      ensures Inv() && connected
    {
      hide AllPeersOk, PeersStored, SharesStored, ResponsesSent, EchoesAgree, SendersReady, Finished, Config.Valid,
        Own.Valid, OwnEcho, OwnShare, Basic, FinalKey, FinalShare, Other, Config.Count;
      used := Transcript(r1Bcasts, ucs, used.echoes, used.r2s);
      sentEcho := Some(OwnEcho(c, r1Bcasts));
      sentR2 := r2Out;
      connected := true;
    }

    /** The echoes of all peers, checked against this party's view. */
    method OnEchoes(msgs: seq<Option<EchoMsg>>)
      requires Inv() && Settled() && connected && !echoOk && |msgs| == c.Count() - 1
      modifies this
      ensures Inv() && Settled() && old(deliveries) <= deliveries && connected && (echoOk || deliveries != [])
      ensures haveBcasts == old(haveBcasts) && haveUnicasts == old(haveUnicasts)
      ensures old(r2Msgs).Some? ==> r2Msgs.Some? || finalizing
      ensures old(finalizing) ==> finalizing
    {
      hide AllPeersOk, PeersStored, SharesStored, ResponsesSent, SendersReady, Finished, Agrees, Own.Valid;
      if !Decoded(msgs) {
        Fail(Undecodable);
        return;
      }
      var mine := MyDigestMap(c, own, r1Bcasts);
      var bad := VerifyEchoes(mine, c.me, OtherParties(c.Count(), c.me), Payloads(msgs), Everyone(c.Count(), c.me));
      if bad.Some? {
        Fail(EchoFailed(bad.value));
        return;
      }
      used := used.(echoes := Payloads(msgs));
      echoOk := true;
      TryFinalize();
    }

    /** All peers' base-OT responses have arrived. */
    method OnResponses(msgs: seq<Option<R2>>)
      requires Inv() && Settled() && connected && |msgs| == c.Count() - 1
      modifies this
      ensures Inv() && Settled() && old(deliveries) <= deliveries && connected && (r2Msgs.Some? || finalizing)
      ensures haveBcasts == old(haveBcasts) && haveUnicasts == old(haveUnicasts) && echoOk == old(echoOk)
      ensures old(finalizing) ==> finalizing
    {
      hide AllPeersOk, PeersStored, SharesStored, ResponsesSent, EchoesAgree, SendersReady, Finished, Config.Valid,
        Own.Valid, OwnEcho, OwnShare, Basic, FinalKey, FinalShare, Other, Config.Count;
      r2Msgs := Some(msgs);
      TryFinalize();
    }

    /** Finalizes once the echoes have verified and the responses are in, and only once. */
    method TryFinalize()
      requires Inv() && connected && (finalizing ==> deliveries != [])
      modifies this
      ensures Inv() && Settled() && old(deliveries) <= deliveries && connected
      ensures haveBcasts == old(haveBcasts) && haveUnicasts == old(haveUnicasts) && echoOk == old(echoOk)
      ensures old(r2Msgs).Some? ==> r2Msgs.Some? || finalizing
      ensures old(finalizing) ==> finalizing
      ensures old(finalizing) || !old(echoOk) ==>
        deliveries == old(deliveries) && finalizing == old(finalizing) && r2Msgs == old(r2Msgs)
    {
      if finalizing || !echoOk || r2Msgs == None { return; }
      assert deliveries == [] || deliveries[0].Err?;
      finalizing := true;
      var msgs := r2Msgs.value;
      r2Msgs := None;
      Finalize(msgs);
    }

    /** Everything the invariant says, with the shares still at hand although finalize is claimed. */
    ghost predicate Claimed() reads this {
      && Inv() && connected && finalizing && echoOk
      && mySelfShare == OwnShare(c, own, c.me) && SharesStored(c, used.unicasts, peerShares, c.Count() - 1)
      && forall k :: 0 <= k < |deliveries| ==> deliveries[k].Err?
    }

    lemma RoundTwoFacts()
      requires Inv() && connected
      ensures c.n >= 2 && c.me < c.Count() && used.bcasts == r1Bcasts && |r1Bcasts| == |used.unicasts| == c.Count() - 1
      ensures AllPeersOk(c, r1Bcasts, used.unicasts)
      ensures PeersStored(c, own, r1Bcasts, used.unicasts, peerVs, baseRcv, c.Count() - 1)
    {
      hide PeerOk, PeerStored, ShareStored, ResponsesSent, EchoesAgree, SendersReady, Finished, Own.Valid;
    }

    method Finalize(msgs: seq<Option<R2>>)
      requires Claimed() && |msgs| == c.Count() - 1
      modifies this
      ensures Inv() && old(deliveries) <= deliveries && connected && finalizing && r2Msgs == old(r2Msgs)
      ensures deliveries != []
      ensures haveBcasts == old(haveBcasts) && haveUnicasts == old(haveUnicasts) && echoOk == old(echoOk)
    {
      hide AllPeersOk, PeersStored, SharesStored, ResponsesSent, EchoesAgree, SendersReady, Finished, Config.Valid,
        Own.Valid, OwnEcho, OwnShare, Basic, FinalKey, FinalShare, Other, Config.Count;
      if !Decoded(msgs) {
        Fail(Undecodable);
        return;
      }
      var r2s := Payloads(msgs);
      RoundTwoFacts();
      ghost var tr := used.(r2s := r2s);
      var xi := SumShares(c, own, mySelfShare, used.unicasts, peerShares);
      var res := BuildKey(c, own, xi, vs, peerVs, baseRcv, baseSnd, r1Bcasts, r2s, tr);
      Settle(res, tr);
    }

    /** Drops the individual shares and delivers the outcome. */
    method Settle(res: Result<Key, PartyError>, ghost tr: Transcript)
      requires Claimed() && tr == used.(r2s := tr.r2s) && (res.Ok? ==> Finished(c, own, tr, res.value))
      modifies this`used, this`mySelfShare, this`peerShares, this`resultTx, this`deliveries
      ensures Inv() && old(deliveries) <= deliveries && connected && finalizing && deliveries != []
    {
      DropShares(tr);
      hide AllPeersOk, PeersStored, SharesStored, ResponsesSent, EchoesAgree, SendersReady, Finished, Config.Valid,
        Own.Valid, OwnEcho, OwnShare, Basic, FinalKey, FinalShare, Other, Config.Count, Joined, RoundTwoDone;
      Deliver(res);
    }

    method DropShares(ghost tr: Transcript)
      requires Claimed() && tr == used.(r2s := tr.r2s)
      modifies this`used, this`mySelfShare, this`peerShares
      ensures Inv() && used == tr && connected && finalizing && forall k :: 0 <= k < |deliveries| ==> deliveries[k].Err?
    {
      hide AllPeersOk, PeersStored, SharesStored, ResponsesSent, EchoesAgree, SendersReady, Finished, Config.Valid,
        Own.Valid, OwnEcho, OwnShare, Basic, FinalKey, FinalShare, Other, Config.Count;
      used := tr;
      mySelfShare := 0;
      peerShares := map[];
    }
  }

  // ---------- any run ----------

  /** What the broker or the scheduler may do next. */
  datatype Event =
    | BcastsArrive(bcasts: seq<Option<R1Bcast>>)
    | UnicastsArrive(unicasts: seq<Option<R1Unicast>>)
    | EchoesArrive(echoes: seq<Option<EchoMsg>>)
    | ResponsesArrive(responses: seq<Option<R2>>)
    | TryAgain

  /** KeygenParty::new: the degenerate thresholds and bad ids are refused before anything is dealt. */
  method Start(c: Config, own: Own) returns (party: Option<Shared>)
    requires IsPrime(c.n) && c.codec.Valid(c.n) && c.oracle.Valid() && c.me < |c.partyIds| && own.Valid(c)
    ensures party.Some? <==> 1 <= c.t < |c.partyIds| && IndexesOk(Ids(c.n, c.partyIds))
    ensures party.Some? ==>
      fresh(party.value) && party.value.Inv() && party.value.Settled() && party.value.deliveries == []
  {
    if c.t < 1 || c.t >= |c.partyIds| { return None; }
    var ok := CheckIndexes(Ids(c.n, c.partyIds));
    if !ok { return None; }
    var selfShare, bcast, unicasts := RoundOne(c, own);
    var p := new Shared(c, own, selfShare);
    return Some(p);
  }

  /** Every run: whatever messages arrive, from whomever, in whatever order, at most one result is delivered; a key is
      delivered only after every share and every echo verified; and once all four sets of messages have arrived
      exactly one result has been delivered. */
  method Run(party: Shared, events: seq<Event>) returns (all: bool)
    requires party.Inv() && party.Settled() && party.deliveries == []
    requires !party.haveBcasts && !party.haveUnicasts && !party.connected && !party.echoOk && party.r2Msgs == None
    requires !party.finalizing
    modifies party
    ensures party.Inv() && |party.deliveries| <= 1
    ensures party.deliveries != [] && party.deliveries[0].Ok? ==>
      Finished(party.c, party.own, party.used, party.deliveries[0].value)
    ensures all ==> |party.deliveries| == 1
  {
    hide AllPeersOk, PeersStored, SharesStored, ResponsesSent, EchoesAgree, SendersReady, Finished, Config.Valid,
      Own.Valid, OwnEcho, OwnShare, Basic, FinalKey, FinalShare, Other, Config.Count;
    var gotB, gotU, gotE, gotR := false, false, false, false;
    for i := 0 to |events|
      invariant party.Inv() && party.Settled()
      invariant (party.haveBcasts ==> gotB) && (party.haveUnicasts ==> gotU) && (party.echoOk ==> gotE)
      invariant gotB ==> party.haveBcasts || party.deliveries != []
      invariant gotU ==> party.haveUnicasts || party.deliveries != []
      invariant gotE ==> party.echoOk || party.deliveries != []
      invariant gotR ==> party.r2Msgs.Some? || party.finalizing
    {
      match events[i] {
        case BcastsArrive(msgs) =>
          if !gotB && |msgs| == party.c.Count() - 1 {
            gotB := true;
            party.OnR1Bcasts(msgs);
          }
        case UnicastsArrive(msgs) =>
          if !gotU && |msgs| == party.c.Count() - 1 {
            gotU := true;
            party.OnR1Unicasts(msgs);
          }
        case EchoesArrive(msgs) =>
          if party.connected && !gotE && |msgs| == party.c.Count() - 1 {
            gotE := true;
            party.OnEchoes(msgs);
          }
        case ResponsesArrive(msgs) =>
          if party.connected && !gotR && |msgs| == party.c.Count() - 1 {
            gotR := true;
            party.OnResponses(msgs);
          }
        case TryAgain =>
          if party.connected { party.TryFinalize(); }
      }
    }
    all := gotB && gotU && gotE && gotR;
  }

  // ---------- two runs ----------

  /** What one party of a run ended with. */
  ghost predicate Ended(p: Shared, a: Party)
    reads p
  {
    p.Inv() && p.deliveries == [Ok(a.key)] && a.c == p.c && a.own == p.own && a.tr == p.used
  }

  /** The echo q recorded as sent is the one p used. */
  ghost predicate EchoTaken(p: Shared, q: Shared)
    reads p, q
  {
    var slot := Slot(p.c.me, q.c.me);
    slot < |p.used.echoes| && q.sentEcho == Some(p.used.echoes[slot])
  }

  /** Any two runs of one session that deliver keys and took each other's echoes agree on everything public. */
  lemma RunsAgree(p: Shared, q: Shared, a: Party, b: Party)
    requires Ended(p, a) && Ended(q, b) && SameSession(a, b) && CollisionFree(a.c.digest) && EchoTaken(p, q)
    requires EchoTaken(q, p)
    ensures a.key.ecdsaPub == b.key.ecdsaPub && a.key.bigXj == b.key.bigXj && a.key.chainCode == b.key.chainCode
  {
    hide *;
    EndedEcho(p, a);
    EndedEcho(q, b);
    Arrived(p, q, a, b);
    Arrived(q, p, b, a);
    FinishersAgree(a, b);
  }

  lemma EndedEcho(p: Shared, a: Party)
    requires Ended(p, a)
    ensures a.Done() && p.sentEcho == Some(OwnEcho(a.c, a.tr.bcasts))
  {
    hide AllPeersOk, PeersStored, SharesStored, ResponsesSent, EchoesAgree, SendersReady, Finished, Config.Valid,
      Own.Valid, OwnEcho;
    assert p.deliveries[0] == Ok(a.key);
  }

  lemma Arrived(p: Shared, q: Shared, a: Party, b: Party)
    requires Ended(p, a) && Ended(q, b) && SameSession(a, b) && EchoTaken(q, p)
    requires p.sentEcho == Some(OwnEcho(a.c, a.tr.bcasts))
    ensures EchoDelivered(a, b) && SameSession(b, a) && b.c.digest == a.c.digest
  {
    hide Shared.Inv, OwnEcho;
  }
}
