/** A whole signing run of an honest committee (src/dklstss/signing_party.rs), from the parties' creation to their
    deliveries: each round hands every signer what the others sent it. */
module SigningRun {
  import opened NumberTheory
  import opened Results
  import opened Bits
  import opened Secp
  import opened OtExtension
  import opened BaseOt
  import opened Ole
  import opened CrossTerms
  import opened SignEncoding
  import opened Signing
  import opened Echo
  import opened Committee
  import opened SigningView
  import opened SigningComplete
  import Sums
  import SigningParty

  /** One session: signer i at position i with its own valid secrets, and matching OT state for every pair. What a seat
      has seen so far plays no part. */
  ghost predicate Session(hs: seq<Seat>) {
    && hs != [] && hs[0].c.curve.n > 0 && FitsScalar(hs[0].c.curve.n)
    && (forall i :: 0 <= i < |hs| ==> Seated(hs, i))
    && (forall i, j :: 0 <= i < |hs| && 0 <= j < |hs| && i != j ==> PairReady(hs[i], hs[j]))
  }

  /** The nonce sampler never yields zero. */
  ghost predicate Seated(hs: seq<Seat>, i: nat)
    requires i < |hs|
  {
    && hs[i].c.Valid() && hs[i].s.Valid(hs[i].c) && hs[i].s.k != 0
    && hs[i].c.me == i && hs[i].c.count == |hs| && SameRequest(hs[0], hs[i]) && hs[i].c.codec == hs[0].c.codec
  }

  ghost predicate PairReady(a: Seat, b: Seat) {
    var m, w := Slot(a.c.me, b.c.me), Slot(b.c.me, a.c.me);
    && m < |a.c.pairs| && w < |b.c.pairs| && a.c.pairs[m].Valid() && b.c.pairs[w].Valid()
    && SeedsMatch(b.c.pairs[w].asBob, a.c.pairs[m].asAlice)
  }

  lemma SeatFacts(hs: seq<Seat>, i: nat)
    requires Session(hs) && i < |hs|
    ensures hs != [] && hs[i].c.Valid() && hs[i].s.Valid(hs[i].c) && hs[i].c.me == i && hs[i].c.count == |hs|
    ensures hs[i].c.curve == hs[0].c.curve && hs[0].c.curve.n >= 2 && hs[i].c.codec == hs[0].c.codec
    ensures hs[i].c.codec.Valid(hs[0].c.curve.n) && 0 < hs[i].s.k < hs[0].c.curve.n && SameRequest(hs[0], hs[i])
    ensures FitsScalar(hs[0].c.curve.n)
  {
    hide PairReady, FitsScalar, Codec.Valid, Oracle.Valid;
    assert Seated(hs, i) && Seated(hs, 0);
    PositiveOrder(hs[i].c.curve);
  }

  lemma SomeSeat(hs: seq<Seat>)
    requires Session(hs)
    ensures hs != [] && hs[0].c.curve.n > 0
  {
    hide Seated, PairReady, FitsScalar;
  }

  lemma PairFacts(hs: seq<Seat>, i: nat, j: nat)
    requires Session(hs) && i < |hs| && j < |hs| && i != j
    ensures PairReady(hs[i], hs[j])
  {
    hide PairReady, Seated, FitsScalar;
  }

  /** Only what has been seen differs. */
  ghost predicate SameSeats(hs: seq<Seat>, hs': seq<Seat>) {
    |hs| == |hs'| && forall i :: 0 <= i < |hs| ==> hs'[i].c == hs[i].c && hs'[i].s == hs[i].s
  }

  lemma StillSession(hs: seq<Seat>, hs': seq<Seat>)
    requires Session(hs) && SameSeats(hs, hs')
    ensures Session(hs') && Ks(hs') == Ks(hs)
  {
    hide FitsScalar, SignConfig.Valid, Secrets.Valid, SeedsMatch, PairOt.Valid;
    forall i | 0 <= i < |hs'| ensures Seated(hs', i) { assert Seated(hs, i); }
    forall i, j | 0 <= i < |hs'| && 0 <= j < |hs'| && i != j ensures PairReady(hs'[i], hs'[j]) {
      assert PairReady(hs[i], hs[j]);
    }
  }

  // ---------- where a signer stands ----------

  /** The signer has completed this many of the rounds: nonces, nonce echoes, answers, outputs, reveals. */
  ghost predicate At(p: SigningParty.Shared, a: Seat, stage: nat)
    reads p
  {
    && p.Inv() && p.deliveries == [] && a == Seat(p.c, p.s, p.h.used) && p.st.r2Msgs == None
    && (p.st.awaitEcho <==> stage >= 1) && (p.st.echoOk <==> stage >= 2) && (p.st.round3Started <==> stage >= 3)
    && (p.st.awaitR3 <==> stage >= 3) && (p.st.awaitR4 <==> stage >= 4) && (p.st.awaitR4Echo <==> stage >= 5)
  }

  lemma AtFacts(p: SigningParty.Shared, a: Seat, stage: nat)
    requires At(p, a, stage)
    ensures p.Inv() && p.NoSignature() && p.deliveries == [] && a == Seat(p.c, p.s, p.h.used) && p.st.r2Msgs == None
    ensures (p.st.awaitEcho <==> stage >= 1) && (p.st.echoOk <==> stage >= 2) && (p.st.round3Started <==> stage >= 3)
    ensures (p.st.awaitR3 <==> stage >= 3) && (p.st.awaitR4 <==> stage >= 4) && (p.st.awaitR4Echo <==> stage >= 5)
  {
    hide SigningParty.Shared.Inv;
  }

  lemma AtIntro(p: SigningParty.Shared, stage: nat)
    requires p.Inv() && p.deliveries == [] && p.st.r2Msgs == None
    requires (p.st.awaitEcho <==> stage >= 1) && (p.st.echoOk <==> stage >= 2) && (p.st.round3Started <==> stage >= 3)
    requires (p.st.awaitR3 <==> stage >= 3) && (p.st.awaitR4 <==> stage >= 4) && (p.st.awaitR4Echo <==> stage >= 5)
    ensures At(p, Seat(p.c, p.s, p.h.used), stage)
  {
    hide SigningParty.Shared.Inv;
  }

  /** What the invariant says about the signer's data. */
  lemma AtData(p: SigningParty.Shared, a: Seat, stage: nat)
    requires At(p, a, stage)
    ensures a.c.Valid() && a.s.Valid(a.c) && a.c.curve.n > 0 && a.c == p.c && a.s == p.s && a.v == p.h.used
    ensures stage >= 1 ==>
      && a.v.peerK == p.st.peerK && a.v.alice == p.st.alice && |a.v.peerK| == |a.v.alice| == a.c.count - 1
      && p.st.ssid == RoundTwoSsid(a.c, a.s, a.v.peerK) && AliceSides(a.c, a.s, p.st.ssid, a.v.alice)
      && p.st.sentEcho == Some(NonceEcho(a.c, a.v.peerK))
    ensures stage >= 3 ==>
      && |a.v.bob| == a.c.count - 1 && BobSides(a.c, a.s, p.st.ssid, a.v.bob)
      && p.st.sentR3 == Some(SigningParty.RepliesOut(a.c.curve.n, a.v.bob))
    ensures stage >= 4 ==>
      && |a.v.replies| == |a.v.alice| == a.c.count - 1 && p.st.phi == PhiShare(a.c, a.s, a.v)
      && p.st.shat == ShatShare(a.c, a.s, a.v)
    ensures stage >= 5 ==>
      |a.v.r4s| == a.c.count - 1 && p.st.sentR4Echo == Some(RevealEcho(a.c, a.v.r4s))
  {
    hide *;
    AtFacts(p, a, stage);
    p.Unfold();
    SigningParty.StateFacts(p.c, p.s, p.st, p.h);
  }

  /** All signers at one stage. */
  ghost predicate AllAt(ps: seq<SigningParty.Shared>, hs: seq<Seat>, stage: nat)
    reads set k | 0 <= k < |ps| :: ps[k]
  {
    |ps| == |hs| && forall k :: 0 <= k < |ps| ==> At(ps[k], hs[k], stage)
  }

  /** Signers at different positions are different objects. */
  lemma Separate(ps: seq<SigningParty.Shared>, hs: seq<Seat>, stage: nat)
    requires AllAt(ps, hs, stage) && Session(hs)
    ensures |ps| == |hs| && forall j, k :: 0 <= j < k < |ps| ==> ps[j] != ps[k]
  {
    hide Session;
    forall k | 0 <= k < |ps| ensures ps[k].c.me == k {
      SeatFacts(hs, k);
      AtFacts(ps[k], hs[k], stage);
    }
  }

  // ---------- round 1 ----------

  /** The nonce a signer sends. */
  function NonceSent(c: SignConfig, s: Secrets): R1
    requires c.curve.n > 0
  {
    var xy := c.codec.coords(MulBase(c.curve.n, s.k));
    R1(xy.0, xy.1)
  }

  /** What the others send signer i. */
  ghost predicate NoncesFor(hs: seq<Seat>, i: nat, msgs: seq<Option<R1>>) {
    |msgs| == |hs| - 1 && forall m :: 0 <= m < |msgs| ==>
      && Other(i, m) < |hs| && hs[Other(i, m)].c.curve.n > 0
      && msgs[m] == Some(NonceSent(hs[Other(i, m)].c, hs[Other(i, m)].s))
  }

  ghost predicate NoncesHeard(hs: seq<Seat>, i: nat, peerK: seq<Point>) {
    |peerK| == |hs| - 1 && forall m :: 0 <= m < |peerK| ==>
      Other(i, m) < |hs| && hs[0].c.curve.n > 0 && peerK[m] == MulBase(hs[0].c.curve.n, hs[Other(i, m)].s.k)
  }

  lemma NoncesArrive(hs: seq<Seat>, i: nat, msgs: seq<Option<R1>>)
    requires Session(hs) && i < |hs| && NoncesFor(hs, i, msgs)
    ensures SigningParty.NoncesParse(hs[i].c, msgs) && NoncesHeard(hs, i, SigningParty.Nonces(hs[i].c, msgs))
  {
    SeatFacts(hs, i);
    hide Session, SignConfig.Valid, Secrets.Valid, FitsScalar, SameRequest;
    forall m | 0 <= m < |msgs|
      ensures msgs[m].Some? && hs[i].c.codec.parse(msgs[m].value.x, msgs[m].value.y).Some?
      ensures Other(i, m) < |hs|
      ensures SigningParty.NonceIn(hs[i].c, msgs[m]) == MulBase(hs[0].c.curve.n, hs[Other(i, m)].s.k)
    {
      var j := Other(i, m);
      SeatFacts(hs, j);
      SmallMod(hs[j].s.k, hs[0].c.curve.n);
    }
  }

  /** R, as everybody computes it. */
  function GroupPoint(hs: seq<Seat>): Point {
    if hs != [] && hs[0].c.curve.n > 0 then Total(NoncePoints(hs[0].c.curve.n, Ks(hs))) % hs[0].c.curve.n else 0
  }

  function CommonSsid(hs: seq<Seat>): bytes {
    if hs != [] && hs[0].c.curve.n > 0
    then hs[0].c.mix(hs[0].c.baseSsid, NoncePoints(hs[0].c.curve.n, Ks(hs))) else []
  }

  lemma NoncesKnown(hs: seq<Seat>, i: nat, peerK: seq<Point>)
    requires Session(hs) && i < |hs| && NoncesHeard(hs, i, peerK)
    ensures hs[0].c.curve.n > 0 && hs[i].c.curve.n == hs[0].c.curve.n
    ensures AllNonces(hs[i].c, hs[i].s, peerK) == NoncePoints(hs[0].c.curve.n, Ks(hs))
    ensures GroupNonce(hs[i].c, hs[i].s, peerK) == GroupPoint(hs)
    ensures RoundTwoSsid(hs[i].c, hs[i].s, peerK) == CommonSsid(hs)
  {
    SeatFacts(hs, i);
    hide Session, SignConfig.Valid, Secrets.Valid, FitsScalar, MulBase, Total;
    var n := hs[0].c.curve.n;
    forall j | 0 <= j < |hs| ensures NonceOf(hs[i].c, hs[i].s, peerK, j) == MulBase(n, hs[j].s.k) {
      if j != i { BackAndForth(i, j); }
    }
    assert AllNonces(hs[i].c, hs[i].s, peerK) == NoncePoints(n, Ks(hs));
  }

  /** The view after round 1. */
  ghost predicate FirstView(hs: seq<Seat>, i: nat, v: View)
    requires i < |hs|
  {
    v == hs[i].v.(peerK := v.peerK, alice := v.alice) && NoncesHeard(hs, i, v.peerK)
  }

  method TakeNonces(p: SigningParty.Shared, ghost hs: seq<Seat>, ghost i: nat, msgs: seq<Option<R1>>)
    requires Session(hs) && i < |hs| && At(p, hs[i], 0) && NoncesFor(hs, i, msgs)
    modifies p
    ensures hs[0].c.curve.XScalar(GroupPoint(hs)) != 0 ==>
      At(p, Seat(p.c, p.s, p.h.used), 1) && FirstView(hs, i, p.h.used)
    ensures hs[0].c.curve.XScalar(GroupPoint(hs)) == 0 ==>
      p.Inv() && |p.deliveries| == 1 && p.deliveries[0].Err?
  {
    hide *;
    SeatFacts(hs, i);
    AtFacts(p, hs[i], 0);
    NoncesArrive(hs, i, msgs);
    ForSize(hs, i, msgs);
    NoncesKnown(hs, i, SigningParty.Nonces(hs[i].c, msgs));
    p.OnR1(msgs);
    p.Unfold();
    FirstErr(p);
    if p.st.awaitEcho {
      AtIntro(p, 1);
      FirstViewIntro(hs, i, p.h.used);
    }
  }

  lemma ForSize(hs: seq<Seat>, i: nat, msgs: seq<Option<R1>>)
    requires NoncesFor(hs, i, msgs)
    ensures |msgs| == |hs| - 1
  {
  }

  lemma FirstViewIntro(hs: seq<Seat>, i: nat, v: View)
    requires i < |hs| && v == hs[i].v.(peerK := v.peerK, alice := v.alice) && NoncesHeard(hs, i, v.peerK)
    ensures FirstView(hs, i, v)
  {
    hide NoncesHeard;
  }

  lemma FirstErr(p: SigningParty.Shared)
    requires p.NoSignature()
    ensures p.deliveries != [] ==> p.deliveries[0].Err?
  {
  }

  /** Round 1 of everyone: the nonces arrive. When R.x vanishes everyone gives up. */
  method Round1(ps: seq<SigningParty.Shared>, ghost hs: seq<Seat>) returns (ghost hs': seq<Seat>)
    requires Session(hs) && AllAt(ps, hs, 0)
    modifies set k | 0 <= k < |ps| :: ps[k]
    ensures hs[0].c.curve.XScalar(GroupPoint(hs)) != 0 ==>
      && AllAt(ps, hs', 1) && SameSeats(hs, hs')
      && forall k :: 0 <= k < |hs| ==> FirstView(hs, k, hs'[k].v)
    ensures hs[0].c.curve.XScalar(GroupPoint(hs)) == 0 ==>
      |ps| == |hs| && forall k :: 0 <= k < |ps| ==> ps[k].Inv() && |ps[k].deliveries| == 1 && ps[k].deliveries[0].Err?
  {
    hide *;
    SomeSeat(hs);
    Separate(ps, hs, 0);
    AtEach(ps, hs, 0);
    ghost var go := hs[0].c.curve.XScalar(GroupPoint(hs)) != 0;
    hs' := [];
    for i := 0 to |ps|
      invariant |hs'| == i
      invariant forall k :: i <= k < |ps| ==> At(ps[k], hs[k], 0)
      invariant go ==> forall k :: 0 <= k < i ==> At(ps[k], hs'[k], 1) && FirstView(hs, k, hs'[k].v)
      invariant go ==> forall k :: 0 <= k < i ==> hs'[k].c == hs[k].c && hs'[k].s == hs[k].s
      invariant !go ==> forall k :: 0 <= k < i ==>
        ps[k].Inv() && |ps[k].deliveries| == 1 && ps[k].deliveries[0].Err?
    {
      AtFacts(ps[i], hs[i], 0);
      var msgs := GatherNonces(ps, hs, i);
      TakeNonces(ps[i], hs, i, msgs);
      hs' := hs' + [Seat(ps[i].c, ps[i].s, ps[i].h.used)];
    }
    if go { AtAll(ps, hs, hs', 1); }
  }

  lemma AtEach(ps: seq<SigningParty.Shared>, hs: seq<Seat>, stage: nat)
    requires AllAt(ps, hs, stage)
    ensures |ps| == |hs| && forall k :: 0 <= k < |ps| ==> At(ps[k], hs[k], stage)
    ensures forall k :: 0 <= k < |ps| ==> hs[k].c == ps[k].c && hs[k].s == ps[k].s
  {
    hide SigningParty.Shared.Inv;
  }

  lemma AtAll(ps: seq<SigningParty.Shared>, hs: seq<Seat>, hs': seq<Seat>, stage: nat)
    requires |ps| == |hs| == |hs'| && forall k :: 0 <= k < |ps| ==> At(ps[k], hs'[k], stage)
    requires forall k :: 0 <= k < |hs| ==> hs'[k].c == hs[k].c && hs'[k].s == hs[k].s
    ensures AllAt(ps, hs', stage) && SameSeats(hs, hs')
  {
    hide At;
  }

  method GatherNonces(ps: seq<SigningParty.Shared>, ghost hs: seq<Seat>, i: nat) returns (msgs: seq<Option<R1>>)
    requires Session(hs) && |ps| == |hs| && i < |hs|
    requires forall k :: 0 <= k < |ps| ==> hs[k].c == ps[k].c && hs[k].s == ps[k].s
    ensures NoncesFor(hs, i, msgs)
  {
    hide Session, NonceSent;
    msgs := [];
    for m := 0 to |ps| - 1
      invariant |msgs| == m && forall l :: 0 <= l < m ==>
        && Other(i, l) < |hs| && hs[Other(i, l)].c.curve.n > 0
        && msgs[l] == Some(NonceSent(hs[Other(i, l)].c, hs[Other(i, l)].s))
    {
      var j := Other(i, m);
      SeatFacts(hs, j);
      msgs := msgs + [Some(NonceSent(ps[j].c, ps[j].s))];
    }
  }

  // ---------- handing out messages ----------

  /** What everybody else broadcast. */
  function FromOthers<T>(sent: seq<T>, i: nat): (msgs: seq<T>)
    requires i < |sent|
    ensures |msgs| == |sent| - 1
    ensures forall m :: 0 <= m < |msgs| ==> Other(i, m) < |sent| && msgs[m] == sent[Other(i, m)]
  {
    seq(|sent| - 1, m requires 0 <= m < |sent| - 1 => sent[Other(i, m)])
  }

  /** What everybody else addressed to i. */
  function Addressed<T>(boxes: seq<seq<T>>, i: nat): (msgs: seq<Option<T>>)
    requires i < |boxes| && forall j :: 0 <= j < |boxes| ==> |boxes[j]| == |boxes| - 1
    ensures |msgs| == |boxes| - 1
    ensures forall m :: 0 <= m < |msgs| ==> var j := Other(i, m);
      j < |boxes| && j != i && Slot(j, i) < |boxes[j]| && msgs[m] == Some(boxes[j][Slot(j, i)])
  {
    seq(|boxes| - 1, m requires 0 <= m < |boxes| - 1 => Some(boxes[Other(i, m)][Slot(Other(i, m), i)]))
  }

  // ---------- round-1 echoes ----------

  ghost predicate AllHeard(hs: seq<Seat>) { forall k :: 0 <= k < |hs| ==> NoncesHeard(hs, k, hs[k].v.peerK) }

  ghost predicate EchoesFor(hs: seq<Seat>, i: nat, msgs: seq<Option<EchoMsg>>) {
    |msgs| == |hs| - 1 && forall m :: 0 <= m < |msgs| ==>
      Other(i, m) < |hs| && msgs[m] == Some(NonceEcho(hs[Other(i, m)].c, hs[Other(i, m)].v.peerK))
  }

  lemma HeardOf(hs: seq<Seat>, k: nat)
    requires AllHeard(hs) && k < |hs|
    ensures NoncesHeard(hs, k, hs[k].v.peerK)
  {
    hide NoncesHeard;
  }

  lemma HeardParts(hs: seq<Seat>, i: nat, peerK: seq<Point>, m: nat)
    requires NoncesHeard(hs, i, peerK) && m < |hs| - 1
    ensures m < |peerK| == |hs| - 1 && Other(i, m) < |hs| && hs[0].c.curve.n > 0
    ensures peerK[m] == MulBase(hs[0].c.curve.n, hs[Other(i, m)].s.k)
  {
    hide MulBase;
  }

  lemma NonceReportAgrees(hs: seq<Seat>, i: nat, j: nat)
    requires Session(hs) && AllHeard(hs) && i < |hs| && j < |hs| && i != j
    ensures hs[i].c.curve.n > 0
    ensures var echo := NonceEcho(hs[j].c, hs[j].v.peerK);
      && Agrees(NonceDigests(hs[i].c, hs[i].s, hs[i].v.peerK), j, echo, Everyone(|hs|, i)) && |echo.digests| <= |hs|
  {
    hide *;
    SeatFacts(hs, i);
    SeatFacts(hs, j);
    HeardOf(hs, i);
    HeardOf(hs, j);
    NoncesKnown(hs, i, hs[i].v.peerK);
    RequestFields(hs[0], hs[i]);
    RequestFields(hs[0], hs[j]);
    var a, b := hs[i], hs[j];
    var mine, echo := NonceDigests(a.c, a.s, a.v.peerK), NonceEcho(b.c, b.v.peerK);
    HeardSize(hs, j, b.v.peerK);
    forall k | 0 <= k < |echo.digests|
      ensures echo.digests[k].0 == Other(j, k) && echo.digests[k].0 in mine
      ensures mine[echo.digests[k].0] == echo.digests[k].1
    {
      HeardParts(hs, j, b.v.peerK, k);
      assert AllNonces(a.c, a.s, a.v.peerK)[Other(j, k)] == NonceOf(a.c, a.s, a.v.peerK, Other(j, k));
    }
    AgreesFrom(|hs|, i, j, mine, echo);
  }

  lemma HeardSize(hs: seq<Seat>, i: nat, peerK: seq<Point>)
    requires NoncesHeard(hs, i, peerK)
    ensures |peerK| == |hs| - 1
  {
    hide MulBase;
  }

  lemma NonceReportsPass(hs: seq<Seat>, i: nat, msgs: seq<Option<EchoMsg>>)
    requires Session(hs) && AllHeard(hs) && i < |hs| && EchoesFor(hs, i, msgs)
    ensures hs[i].c.curve.n > 0 && Decoded(msgs) && SigningParty.ReportsSized(|hs|, Payloads(msgs))
    ensures ReportsAgree(|hs|, i, NonceDigests(hs[i].c, hs[i].s, hs[i].v.peerK), Payloads(msgs))
  {
    SeatFacts(hs, i);
    hide Session, AllHeard, Agrees, NonceEcho, NonceDigests, Everyone;
    forall m | 0 <= m < |msgs|
      ensures Agrees(NonceDigests(hs[i].c, hs[i].s, hs[i].v.peerK), Other(i, m), Payloads(msgs)[m], Everyone(|hs|, i))
      ensures |Payloads(msgs)[m].digests| <= |hs|
    {
      NonceReportAgrees(hs, i, Other(i, m));
    }
  }

  method TakeEchoes(p: SigningParty.Shared, ghost hs: seq<Seat>, ghost i: nat, msgs: seq<Option<EchoMsg>>)
    requires Session(hs) && AllHeard(hs) && i < |hs| && At(p, hs[i], 1) && EchoesFor(hs, i, msgs)
    modifies p
    ensures At(p, Seat(p.c, p.s, p.h.used), 2) && p.h.used == hs[i].v.(r1Echoes := p.h.used.r1Echoes)
  {
    hide *;
    SeatFacts(hs, i);
    AtFacts(p, hs[i], 1);
    AtData(p, hs[i], 1);
    NonceReportsPass(hs, i, msgs);
    EchoSize(hs, i, msgs);
    p.OnR1Echoes(msgs);
    AtIntro(p, 2);
  }

  lemma EchoSize(hs: seq<Seat>, i: nat, msgs: seq<Option<EchoMsg>>)
    requires EchoesFor(hs, i, msgs)
    ensures |msgs| == |hs| - 1
  {
    hide NonceEcho;
  }

  lemma EchoesForIntro(hs: seq<Seat>, i: nat, sent: seq<Option<EchoMsg>>)
    requires i < |hs| == |sent|
    requires forall j :: 0 <= j < |hs| ==> sent[j] == Some(NonceEcho(hs[j].c, hs[j].v.peerK))
    ensures EchoesFor(hs, i, FromOthers(sent, i))
  {
    hide NonceEcho, FromOthers;
  }

  method SentEchoes(ps: seq<SigningParty.Shared>, ghost hs: seq<Seat>) returns (sent: seq<Option<EchoMsg>>)
    requires AllAt(ps, hs, 1)
    ensures |sent| == |hs| && forall j :: 0 <= j < |hs| ==> sent[j] == Some(NonceEcho(hs[j].c, hs[j].v.peerK))
  {
    hide *;
    AtEach(ps, hs, 1);
    sent := [];
    for j := 0 to |ps|
      invariant |sent| == j && forall k :: 0 <= k < j ==> sent[k] == Some(NonceEcho(hs[k].c, hs[k].v.peerK))
    {
      AtData(ps[j], hs[j], 1);
      sent := sent + [ps[j].st.sentEcho];
    }
  }

  method RoundOneEchoes(ps: seq<SigningParty.Shared>, ghost hs: seq<Seat>) returns (ghost hs': seq<Seat>)
    requires Session(hs) && AllAt(ps, hs, 1) && AllHeard(hs)
    modifies set k | 0 <= k < |ps| :: ps[k]
    ensures AllAt(ps, hs', 2) && SameSeats(hs, hs')
    ensures forall k :: 0 <= k < |hs| ==> hs'[k].v == hs[k].v.(r1Echoes := hs'[k].v.r1Echoes)
  {
    hide *;
    Separate(ps, hs, 1);
    AtEach(ps, hs, 1);
    var sent := SentEchoes(ps, hs);
    hs' := [];
    for i := 0 to |ps|
      invariant |hs'| == i && forall k :: i <= k < |ps| ==> At(ps[k], hs[k], 1)
      invariant forall k :: 0 <= k < i ==> At(ps[k], hs'[k], 2) && hs'[k].c == hs[k].c && hs'[k].s == hs[k].s
      invariant forall k :: 0 <= k < i ==> hs'[k].v == hs[k].v.(r1Echoes := hs'[k].v.r1Echoes)
    {
      EchoesForIntro(hs, i, sent);
      TakeEchoes(ps[i], hs, i, FromOthers(sent, i));
      hs' := hs' + [Seat(ps[i].c, ps[i].s, ps[i].h.used)];
    }
    AtAll(ps, hs, hs', 2);
  }

  // ---------- rounds 2 and 3: Bob's answers ----------

  /** Signer k's messages as Alice, under the session id everyone mixed. */
  ghost predicate AliceKnown(hs: seq<Seat>, k: nat)
    requires k < |hs|
  {
    && hs[k].c.Valid() && hs[k].s.Valid(hs[k].c) && |hs[k].v.alice| == |hs| - 1
    && AliceSides(hs[k].c, hs[k].s, CommonSsid(hs), hs[k].v.alice)
  }

  lemma AliceAtStage(p: SigningParty.Shared, hs: seq<Seat>, k: nat, stage: nat)
    requires Session(hs) && AllHeard(hs) && k < |hs| && stage >= 1 && At(p, hs[k], stage)
    ensures AliceKnown(hs, k) && p.st.ssid == CommonSsid(hs) && p.st.alice == hs[k].v.alice
    ensures |hs[k].v.alice| == |hs| - 1
  {
    hide *;
    SeatFacts(hs, k);
    HeardOf(hs, k);
    AtData(p, hs[k], stage);
    NoncesKnown(hs, k, hs[k].v.peerK);
    AliceIntro(hs, k);
  }

  lemma AliceIntro(hs: seq<Seat>, k: nat)
    requires k < |hs| && hs[k].c.Valid() && hs[k].s.Valid(hs[k].c) && |hs[k].v.alice| == |hs| - 1
    requires AliceSides(hs[k].c, hs[k].s, CommonSsid(hs), hs[k].v.alice)
    ensures AliceKnown(hs, k)
  {
    hide SignConfig.Valid, Secrets.Valid, AliceSides, CommonSsid;
  }

  /** The envelopes the others sent signer i. */
  ghost predicate EnvelopesFor(hs: seq<Seat>, i: nat, msgs: seq<Option<SigningParty.R2>>) {
    |msgs| == |hs| - 1 && forall m :: 0 <= m < |msgs| ==>
      && Other(i, m) < |hs| && Slot(Other(i, m), i) < |hs[Other(i, m)].v.alice|
      && msgs[m] == Some(Envelope(hs[Other(i, m)].v.alice[Slot(Other(i, m), i)]))
  }

  function Envelope(a: AliceSide): SigningParty.R2 { SigningParty.R2(Some(a.msgK), Some(a.msgX)) }

  /** Bob's sides belong to what the others sent. */
  ghost predicate BobHeard(hs: seq<Seat>, i: nat, bob: seq<BobSide>) {
    |bob| == |hs| - 1 && forall m :: 0 <= m < |bob| ==>
      && Other(i, m) < |hs| && Slot(Other(i, m), i) < |hs[Other(i, m)].v.alice|
      && bob[m].inK == hs[Other(i, m)].v.alice[Slot(Other(i, m), i)].msgK
      && bob[m].inX == hs[Other(i, m)].v.alice[Slot(Other(i, m), i)].msgX
  }

  lemma EnvelopePasses(hs: seq<Seat>, i: nat, m: nat)
    requires Session(hs) && (forall k :: 0 <= k < |hs| ==> AliceKnown(hs, k)) && i < |hs| && m < |hs| - 1
    ensures Other(i, m) < |hs| && Slot(Other(i, m), i) < |hs[Other(i, m)].v.alice|
    ensures hs[i].c.Valid() && m < hs[i].c.count - 1
    ensures var r2 := Envelope(hs[Other(i, m)].v.alice[Slot(Other(i, m), i)]);
      r2.Shaped() && SigningParty.R2Accepted(hs[i].c, CommonSsid(hs), m, r2)
  {
    hide *;
    OtherBelow(i, m, |hs|);
    var j := Other(i, m);
    BackAndForth(i, j);
    BackAndForth(j, i);
    SlotIs(j, i, |hs|);
    SeatFacts(hs, i);
    SeatFacts(hs, j);
    PairFacts(hs, j, i);
    RequestFields(hs[0], hs[i]);
    RequestFields(hs[0], hs[j]);
    AliceParts(hs, j);
    ReadyParts(hs[j], hs[i]);
    HonestMessagesAccepted(hs[j], CommonSsid(hs), Slot(j, i), hs[i].c, m);
    EnvelopeMeans(hs[j].v.alice[Slot(j, i)], hs[i].c, CommonSsid(hs), m);
  }

  lemma SlotIs(j: nat, i: nat, count: nat)
    requires j < count && i < count && i != j
    ensures Slot(j, i) < count - 1
  {
  }

  lemma AliceParts(hs: seq<Seat>, k: nat)
    requires k < |hs| && AliceKnown(hs, k)
    ensures hs[k].c.Valid() && hs[k].s.Valid(hs[k].c) && |hs[k].v.alice| == |hs| - 1
    ensures AliceSides(hs[k].c, hs[k].s, CommonSsid(hs), hs[k].v.alice)
  {
    hide SignConfig.Valid, Secrets.Valid, AliceSides, CommonSsid;
  }

  lemma ReadyParts(a: Seat, b: Seat)
    requires PairReady(a, b)
    ensures var m, w := Slot(a.c.me, b.c.me), Slot(b.c.me, a.c.me);
      && m < |a.c.pairs| && w < |b.c.pairs| && a.c.pairs[m].Valid() && b.c.pairs[w].Valid()
      && SeedsMatch(b.c.pairs[w].asBob, a.c.pairs[m].asAlice)
  {
    hide SeedsMatch, PairOt.Valid;
  }

  lemma EnvelopeMeans(a: AliceSide, c: SignConfig, ssid: bytes, m: nat)
    requires c.Valid() && m < c.count - 1 && a.msgK.Shaped() && a.msgX.Shaped()
    requires SigningParty.BobAccepts(c, ssid, m, a.msgK, a.msgX)
    ensures Envelope(a).Shaped() && SigningParty.R2Accepted(c, ssid, m, Envelope(a))
  {
    hide SigningParty.BobAccepts, SignConfig.Valid, ExtendMsg.Shaped;
  }

  lemma EnvelopesPass(hs: seq<Seat>, i: nat, msgs: seq<Option<SigningParty.R2>>)
    requires Session(hs) && (forall k :: 0 <= k < |hs| ==> AliceKnown(hs, k)) && i < |hs| && EnvelopesFor(hs, i, msgs)
    ensures SigningParty.ShapedAll(msgs) && hs[i].c.Valid() && |msgs| == |hs| - 1 == hs[i].c.count - 1
    ensures SigningParty.AllAccepted(hs[i].c, CommonSsid(hs), msgs)
  {
    SeatFacts(hs, i);
    hide Session, AliceKnown, SigningParty.R2Accepted, SigningParty.R2.Shaped, SignConfig.Valid, Envelope, CommonSsid;
    forall m | 0 <= m < |msgs|
      ensures msgs[m].Some? && msgs[m].value.Shaped()
      ensures SigningParty.R2Accepted(hs[i].c, CommonSsid(hs), m, msgs[m].value)
    {
      EnvelopePasses(hs, i, m);
    }
  }

  lemma AnswersHeard(hs: seq<Seat>, i: nat, msgs: seq<Option<SigningParty.R2>>, bob: seq<BobSide>)
    requires EnvelopesFor(hs, i, msgs) && Decoded(msgs) && SigningParty.AnswersTo(Payloads(msgs), bob)
    requires |bob| == |hs| - 1
    ensures BobHeard(hs, i, bob)
  {
    forall m | 0 <= m < |bob| ensures Payloads(msgs)[m] == msgs[m].value { }
  }

  lemma RanParts(c: SignConfig, st: SigningParty.State, h: SigningParty.History,
    was: seq<Result<Signature, SigningParty.Failure>>, msgs: seq<Option<SigningParty.R2>>, st': SigningParty.State,
    h': SigningParty.History, now: seq<Result<Signature, SigningParty.Failure>>)
    requires SigningParty.Round3Ran(c, st, h, was, msgs, st', h', now)
    ensures c.Valid() && |msgs| == c.count - 1 && SigningParty.ShapedAll(msgs)
    ensures st'.round3Started && st'.r2Msgs == None && h'.used == h.used.(bob := h'.used.bob)
    ensures st'.awaitR3 <==> SigningParty.AllAccepted(c, st.ssid, msgs)
    ensures st'.awaitR3 ==> now == was && Decoded(msgs) && SigningParty.AnswersTo(Payloads(msgs), h'.used.bob)
  {
    hide SigningParty.AllAccepted, SigningParty.AnswersTo, SigningParty.ShapedAll, SignConfig.Valid;
  }

  method TakeEnvelopes(p: SigningParty.Shared, ghost hs: seq<Seat>, ghost i: nat, msgs: seq<Option<SigningParty.R2>>)
    requires Session(hs) && AllHeard(hs) && (forall k :: 0 <= k < |hs| ==> AliceKnown(hs, k)) && i < |hs|
    requires At(p, hs[i], 2) && EnvelopesFor(hs, i, msgs)
    modifies p
    ensures At(p, Seat(p.c, p.s, p.h.used), 3) && p.h.used == hs[i].v.(bob := p.h.used.bob)
    ensures BobHeard(hs, i, p.h.used.bob)
  {
    hide *;
    SeatFacts(hs, i);
    AtFacts(p, hs[i], 2);
    AliceAtStage(p, hs, i, 2);
    EnvelopesPass(hs, i, msgs);
    ghost var st, h, was := p.st, p.h, p.deliveries;
    p.OnR2(msgs);
    RanParts(p.c, st, h, was, msgs, p.st, p.h, p.deliveries);
    AtIntro(p, 3);
    AtData(p, Seat(p.c, p.s, p.h.used), 3);
    AnswersHeard(hs, i, msgs, p.h.used.bob);
  }

  method SentEnvelopes(ps: seq<SigningParty.Shared>, ghost hs: seq<Seat>)
    returns (boxes: seq<seq<SigningParty.R2>>)
    requires Session(hs) && AllHeard(hs) && AllAt(ps, hs, 2)
    ensures |boxes| == |hs| && forall j :: 0 <= j < |hs| ==> Boxed(hs, j, boxes[j])
    ensures forall j :: 0 <= j < |boxes| ==> |boxes[j]| == |boxes| - 1
    ensures forall k :: 0 <= k < |hs| ==> AliceKnown(hs, k)
  {
    hide *;
    AtEach(ps, hs, 2);
    boxes := [];
    for j := 0 to |ps|
      invariant |boxes| == j && forall k :: 0 <= k < j ==>
        Boxed(hs, k, boxes[k]) && |boxes[k]| == |hs| - 1 && AliceKnown(hs, k)
    {
      AliceAtStage(ps[j], hs, j, 2);
      var sides := ps[j].st.alice;
      var box := seq(|sides|, m requires 0 <= m < |sides| => Envelope(sides[m]));
      BoxedIntro(hs, j, box);
      boxes := boxes + [box];
    }
  }

  ghost predicate Boxed(hs: seq<Seat>, j: nat, box: seq<SigningParty.R2>)
    requires j < |hs|
  {
    |box| == |hs[j].v.alice| && forall m :: 0 <= m < |box| ==> box[m] == Envelope(hs[j].v.alice[m])
  }

  lemma BoxedIntro(hs: seq<Seat>, j: nat, box: seq<SigningParty.R2>)
    requires j < |hs| && |box| == |hs[j].v.alice|
    requires forall m :: 0 <= m < |box| ==> box[m] == Envelope(hs[j].v.alice[m])
    ensures Boxed(hs, j, box)
  {
    hide Envelope;
  }

  lemma EnvelopesForIntro(hs: seq<Seat>, i: nat, boxes: seq<seq<SigningParty.R2>>)
    requires i < |hs| == |boxes| && forall j :: 0 <= j < |boxes| ==> |boxes[j]| == |boxes| - 1
    requires forall j :: 0 <= j < |hs| ==> Boxed(hs, j, boxes[j])
    ensures EnvelopesFor(hs, i, Addressed(boxes, i))
  {
    hide Envelope;
  }

  method Answers(ps: seq<SigningParty.Shared>, ghost hs: seq<Seat>) returns (ghost hs': seq<Seat>)
    requires Session(hs) && AllAt(ps, hs, 2) && AllHeard(hs)
    modifies set k | 0 <= k < |ps| :: ps[k]
    ensures AllAt(ps, hs', 3) && SameSeats(hs, hs')
    ensures forall k :: 0 <= k < |hs| ==> hs'[k].v == hs[k].v.(bob := hs'[k].v.bob) && BobHeard(hs, k, hs'[k].v.bob)
  {
    hide *;
    Separate(ps, hs, 2);
    AtEach(ps, hs, 2);
    var boxes := SentEnvelopes(ps, hs);
    hs' := [];
    for i := 0 to |ps|
      invariant |hs'| == i && forall k :: i <= k < |ps| ==> At(ps[k], hs[k], 2)
      invariant forall k :: 0 <= k < i ==> At(ps[k], hs'[k], 3) && hs'[k].c == hs[k].c && hs'[k].s == hs[k].s
      invariant forall k :: 0 <= k < i ==> hs'[k].v == hs[k].v.(bob := hs'[k].v.bob) && BobHeard(hs, k, hs'[k].v.bob)
    {
      EnvelopesForIntro(hs, i, boxes);
      TakeEnvelopes(ps[i], hs, i, Addressed(boxes, i));
      hs' := hs' + [Seat(ps[i].c, ps[i].s, ps[i].h.used)];
    }
    AtAll(ps, hs, hs', 3);
  }

  // ---------- round 3: Alice's outputs ----------

  ghost predicate BobKnown(hs: seq<Seat>, k: nat)
    requires k < |hs|
  {
    && hs[k].c.Valid() && hs[k].s.Valid(hs[k].c) && |hs[k].v.bob| == |hs| - 1
    && BobSides(hs[k].c, hs[k].s, CommonSsid(hs), hs[k].v.bob)
  }

  lemma BobAtStage(p: SigningParty.Shared, hs: seq<Seat>, k: nat, stage: nat)
    requires Session(hs) && AllHeard(hs) && k < |hs| && stage >= 3 && At(p, hs[k], stage)
    ensures BobKnown(hs, k) && |hs[k].v.bob| == |hs| - 1 && hs[k].c.curve.n > 0
    ensures p.st.sentR3 == Some(SigningParty.RepliesOut(hs[k].c.curve.n, hs[k].v.bob))
  {
    hide *;
    SeatFacts(hs, k);
    HeardOf(hs, k);
    AtData(p, hs[k], stage);
    NoncesKnown(hs, k, hs[k].v.peerK);
    BobIntro(hs, k);
  }

  lemma BobIntro(hs: seq<Seat>, k: nat)
    requires k < |hs| && hs[k].c.Valid() && hs[k].s.Valid(hs[k].c) && |hs[k].v.bob| == |hs| - 1
    requires BobSides(hs[k].c, hs[k].s, CommonSsid(hs), hs[k].v.bob)
    ensures BobKnown(hs, k)
  {
    hide SignConfig.Valid, Secrets.Valid, BobSides, CommonSsid;
  }

  /** The replies the others sent signer i. */
  ghost predicate RepliesFor(hs: seq<Seat>, i: nat, msgs: seq<Option<SigningParty.R3>>) {
    |msgs| == |hs| - 1 && forall m :: 0 <= m < |msgs| ==>
      && Other(i, m) < |hs| && Slot(Other(i, m), i) < |hs[Other(i, m)].v.bob| && hs[Other(i, m)].c.curve.n > 0
      && msgs[m] == Some(ReplySent(hs[Other(i, m)].c.curve.n, hs[Other(i, m)].v.bob[Slot(Other(i, m), i)]))
  }

  function ReplySent(n: int, b: BobSide): SigningParty.R3
    requires n > 0
  {
    SigningParty.R3(SigningParty.EncodeBob(n, b.replyK), SigningParty.EncodeBob(n, b.replyX))
  }

  ghost predicate RepliesHeard(hs: seq<Seat>, i: nat, replies: seq<(BobMsg, BobMsg)>) {
    |replies| == |hs| - 1 && forall m :: 0 <= m < |replies| ==>
      && Other(i, m) < |hs| && Slot(Other(i, m), i) < |hs[Other(i, m)].v.bob|
      && replies[m] == RepliesOf(hs[Other(i, m)].v.bob[Slot(Other(i, m), i)])
  }

  function RepliesOf(b: BobSide): (BobMsg, BobMsg) { (b.replyK, b.replyX) }

  lemma ReplyReduced(o: Oracle, n: int, snd: ExtSender, sid: bytes, beta: Scalar, msg: ExtendMsg, reply: BobMsg,
    u: Scalar)
    requires o.Valid() && snd.Valid() && n > 0 && Sized(msg.u, KAPPA, EXT_BITS / 8)
    requires BobReply(o, n, snd, sid, beta, msg, reply, u)
    ensures |reply.corrections| == SCALAR_BITS && Reduced(n, reply.corrections)
  {
    hide Correction, KeySum, BobZeros, BobOnes;
  }

  /** Encoding a reply loses nothing. */
  lemma ReplyRoundTrip(n: int, b: BobMsg)
    requires n > 0 && Reduced(n, b.corrections)
    ensures SigningParty.DecodeBob(n, SigningParty.EncodeBob(n, b)) == b
  {
    var back := SigningParty.DecodeBob(n, SigningParty.EncodeBob(n, b));
    hide BeMin, BeValue;
    forall i | 0 <= i < |b.corrections| ensures back.corrections[i] == b.corrections[i] {
      SmallMod(b.corrections[i], n);
      BeMinValue(b.corrections[i]);
    }
    assert back.corrections == b.corrections;
  }

  lemma ReplyFits(hs: seq<Seat>, j: nat, w: nat)
    requires j < |hs| && BobKnown(hs, j) && w < |hs| - 1
    ensures w < |hs[j].v.bob| && hs[j].c.curve.n > 0
    ensures var n, b := hs[j].c.curve.n, hs[j].v.bob[w];
      && |b.replyK.corrections| == |b.replyX.corrections| == SCALAR_BITS
      && SigningParty.DecodeBob(n, ReplySent(n, b).bobK) == b.replyK
      && SigningParty.DecodeBob(n, ReplySent(n, b).bobX) == b.replyX
  {
    hide SignConfig.Valid, Secrets.Valid, BobSides, CommonSsid, BobReply, Sized, Oracle.Valid, SigningParty.DecodeBob,
      SigningParty.EncodeBob;
    var c, s, b := hs[j].c, hs[j].s, hs[j].v.bob[w];
    BobSideParts(c, s, CommonSsid(hs), w, hs[j].v.bob);
    ReplyReduced(c.oracle, c.curve.n, c.pairs[w].asBob, c.mulSid(CommonSsid(hs), false, Other(c.me, w), c.me), s.rho,
      b.inK, b.replyK, b.uK);
    ReplyReduced(c.oracle, c.curve.n, c.pairs[w].asBob, c.mulSid(CommonSsid(hs), true, Other(c.me, w), c.me), s.rho,
      b.inX, b.replyX, b.uX);
    ReplyRoundTrip(c.curve.n, b.replyK);
    ReplyRoundTrip(c.curve.n, b.replyX);
  }

  lemma RepliesPass(hs: seq<Seat>, i: nat, msgs: seq<Option<SigningParty.R3>>)
    requires Session(hs) && (forall k :: 0 <= k < |hs| ==> BobKnown(hs, k)) && i < |hs| && RepliesFor(hs, i, msgs)
    ensures hs[i].c.curve.n > 0 && |msgs| == |hs| - 1 && Decoded(msgs)
    ensures var replies := SigningParty.Replies(hs[i].c.curve.n, Payloads(msgs));
      SigningParty.FullReplies(replies) && RepliesHeard(hs, i, replies)
  {
    SeatFacts(hs, i);
    hide Session, BobKnown, ReplySent, SigningParty.DecodeBob;
    var replies := SigningParty.Replies(hs[i].c.curve.n, Payloads(msgs));
    forall m | 0 <= m < |replies|
      ensures Other(i, m) < |hs| && Slot(Other(i, m), i) < |hs[Other(i, m)].v.bob|
      ensures replies[m] == RepliesOf(hs[Other(i, m)].v.bob[Slot(Other(i, m), i)])
      ensures |replies[m].0.corrections| == |replies[m].1.corrections| == SCALAR_BITS
    {
      var j := Other(i, m);
      SeatFacts(hs, j);
      SlotIs(j, i, |hs|);
      ReplyFits(hs, j, Slot(j, i));
    }
  }

  method TakeReplies(p: SigningParty.Shared, ghost hs: seq<Seat>, ghost i: nat, msgs: seq<Option<SigningParty.R3>>)
    requires Session(hs) && (forall k :: 0 <= k < |hs| ==> BobKnown(hs, k)) && i < |hs|
    requires At(p, hs[i], 3) && RepliesFor(hs, i, msgs)
    modifies p
    ensures At(p, Seat(p.c, p.s, p.h.used), 4) && p.h.used == hs[i].v.(replies := p.h.used.replies)
    ensures RepliesHeard(hs, i, p.h.used.replies)
  {
    hide *;
    SeatFacts(hs, i);
    AtFacts(p, hs[i], 3);
    RepliesPass(hs, i, msgs);
    p.OnR3(msgs);
    p.Unfold();
    SigningParty.StateFacts(p.c, p.s, p.st, p.h);
    AtIntro(p, 4);
  }

  method SentReplies(ps: seq<SigningParty.Shared>, ghost hs: seq<Seat>)
    returns (boxes: seq<seq<SigningParty.R3>>)
    requires Session(hs) && AllHeard(hs) && AllAt(ps, hs, 3)
    ensures |boxes| == |hs| && forall j :: 0 <= j < |hs| ==> RepliesBoxed(hs, j, boxes[j])
    ensures forall j :: 0 <= j < |boxes| ==> |boxes[j]| == |boxes| - 1
    ensures forall k :: 0 <= k < |hs| ==> BobKnown(hs, k)
  {
    hide *;
    AtEach(ps, hs, 3);
    boxes := [];
    for j := 0 to |ps|
      invariant |boxes| == j && forall k :: 0 <= k < j ==>
        RepliesBoxed(hs, k, boxes[k]) && |boxes[k]| == |hs| - 1 && BobKnown(hs, k)
    {
      BobAtStage(ps[j], hs, j, 3);
      RepliesBoxedIntro(hs, j);
      boxes := boxes + [ps[j].st.sentR3.value];
    }
  }

  ghost predicate RepliesBoxed(hs: seq<Seat>, j: nat, box: seq<SigningParty.R3>)
    requires j < |hs|
  {
    && hs[j].c.curve.n > 0 && |box| == |hs[j].v.bob|
    && forall m :: 0 <= m < |box| ==> box[m] == ReplySent(hs[j].c.curve.n, hs[j].v.bob[m])
  }

  lemma RepliesBoxedIntro(hs: seq<Seat>, j: nat)
    requires j < |hs| && hs[j].c.curve.n > 0
    ensures RepliesBoxed(hs, j, SigningParty.RepliesOut(hs[j].c.curve.n, hs[j].v.bob))
    ensures |SigningParty.RepliesOut(hs[j].c.curve.n, hs[j].v.bob)| == |hs[j].v.bob|
  {
    hide SigningParty.EncodeBob;
  }

  lemma RepliesForIntro(hs: seq<Seat>, i: nat, boxes: seq<seq<SigningParty.R3>>)
    requires i < |hs| == |boxes| && forall j :: 0 <= j < |boxes| ==> |boxes[j]| == |boxes| - 1
    requires forall j :: 0 <= j < |hs| ==> RepliesBoxed(hs, j, boxes[j])
    ensures RepliesFor(hs, i, Addressed(boxes, i))
  {
    hide ReplySent;
  }

  method Outputs(ps: seq<SigningParty.Shared>, ghost hs: seq<Seat>) returns (ghost hs': seq<Seat>)
    requires Session(hs) && AllAt(ps, hs, 3) && AllHeard(hs)
    modifies set k | 0 <= k < |ps| :: ps[k]
    ensures AllAt(ps, hs', 4) && SameSeats(hs, hs')
    ensures forall k :: 0 <= k < |hs| ==>
      hs'[k].v == hs[k].v.(replies := hs'[k].v.replies) && RepliesHeard(hs, k, hs'[k].v.replies)
  {
    hide *;
    Separate(ps, hs, 3);
    AtEach(ps, hs, 3);
    var boxes := SentReplies(ps, hs);
    hs' := [];
    for i := 0 to |ps|
      invariant |hs'| == i && forall k :: i <= k < |ps| ==> At(ps[k], hs[k], 3)
      invariant forall k :: 0 <= k < i ==> At(ps[k], hs'[k], 4) && hs'[k].c == hs[k].c && hs'[k].s == hs[k].s
      invariant forall k :: 0 <= k < i ==>
        hs'[k].v == hs[k].v.(replies := hs'[k].v.replies) && RepliesHeard(hs, k, hs'[k].v.replies)
    {
      RepliesForIntro(hs, i, boxes);
      TakeReplies(ps[i], hs, i, Addressed(boxes, i));
      hs' := hs' + [Seat(ps[i].c, ps[i].s, ps[i].h.used)];
    }
    AtAll(ps, hs, hs', 4);
  }

  // ---------- round 4: the reveals ----------

  /** What signer k reveals. */
  ghost predicate RevealIs(a: Seat, r4: R4) {
    a.c.curve.n > 0 && |a.v.alice| <= |a.v.replies| && r4 == OwnR4(a.c, a.s, a.v)
  }

  ghost predicate RevealsHeard(hs: seq<Seat>, i: nat, r4s: seq<R4>) {
    |r4s| == |hs| - 1 && forall m :: 0 <= m < |r4s| ==> Other(i, m) < |hs| && RevealIs(hs[Other(i, m)], r4s[m])
  }

  method SentReveals(ps: seq<SigningParty.Shared>, ghost hs: seq<Seat>) returns (sent: seq<Option<R4>>)
    requires AllAt(ps, hs, 4)
    ensures |sent| == |hs| && forall j :: 0 <= j < |hs| ==> sent[j].Some? && RevealIs(hs[j], sent[j].value)
  {
    hide *;
    AtEach(ps, hs, 4);
    sent := [];
    for j := 0 to |ps|
      invariant |sent| == j && forall k :: 0 <= k < j ==> sent[k].Some? && RevealIs(hs[k], sent[k].value)
    {
      AtData(ps[j], hs[j], 4);
      SigningParty.OwnRevealIs(hs[j].c, hs[j].s, hs[j].v, ps[j].st.phi, ps[j].st.shat);
      RevealIntro(hs[j], R4(BeMin(ps[j].st.phi), BeMin(ps[j].st.shat)));
      sent := sent + [Some(R4(BeMin(ps[j].st.phi), BeMin(ps[j].st.shat)))];
    }
  }

  lemma RevealIntro(a: Seat, r4: R4)
    requires a.c.curve.n > 0 && |a.v.alice| <= |a.v.replies| && r4 == OwnR4(a.c, a.s, a.v)
    ensures RevealIs(a, r4)
  {
    hide OwnR4;
  }

  lemma RevealsArrive(hs: seq<Seat>, i: nat, sent: seq<Option<R4>>)
    requires i < |hs| == |sent| && forall j :: 0 <= j < |hs| ==> sent[j].Some? && RevealIs(hs[j], sent[j].value)
    ensures Decoded(FromOthers(sent, i)) && RevealsHeard(hs, i, Payloads(FromOthers(sent, i)))
  {
    hide RevealIs;
  }

  method TakeReveals(p: SigningParty.Shared, ghost hs: seq<Seat>, ghost i: nat, msgs: seq<Option<R4>>)
    requires Session(hs) && i < |hs| && At(p, hs[i], 4) && |msgs| == |hs| - 1
    requires Decoded(msgs) && RevealsHeard(hs, i, Payloads(msgs))
    modifies p
    ensures At(p, Seat(p.c, p.s, p.h.used), 5) && p.h.used == hs[i].v.(r4s := p.h.used.r4s)
    ensures RevealsHeard(hs, i, p.h.used.r4s)
  {
    hide *;
    SeatFacts(hs, i);
    AtFacts(p, hs[i], 4);
    p.OnR4(msgs);
    p.Unfold();
    SigningParty.StateFacts(p.c, p.s, p.st, p.h);
    AtIntro(p, 5);
  }

  method Reveals(ps: seq<SigningParty.Shared>, ghost hs: seq<Seat>) returns (ghost hs': seq<Seat>)
    requires Session(hs) && AllAt(ps, hs, 4)
    modifies set k | 0 <= k < |ps| :: ps[k]
    ensures AllAt(ps, hs', 5) && SameSeats(hs, hs')
    ensures forall k :: 0 <= k < |hs| ==>
      hs'[k].v == hs[k].v.(r4s := hs'[k].v.r4s) && RevealsHeard(hs, k, hs'[k].v.r4s)
  {
    hide *;
    Separate(ps, hs, 4);
    AtEach(ps, hs, 4);
    var sent := SentReveals(ps, hs);
    hs' := [];
    for i := 0 to |ps|
      invariant |hs'| == i && forall k :: i <= k < |ps| ==> At(ps[k], hs[k], 4)
      invariant forall k :: 0 <= k < i ==> At(ps[k], hs'[k], 5) && hs'[k].c == hs[k].c && hs'[k].s == hs[k].s
      invariant forall k :: 0 <= k < i ==>
        hs'[k].v == hs[k].v.(r4s := hs'[k].v.r4s) && RevealsHeard(hs, k, hs'[k].v.r4s)
    {
      RevealsArrive(hs, i, sent);
      TakeReveals(ps[i], hs, i, FromOthers(sent, i));
      hs' := hs' + [Seat(ps[i].c, ps[i].s, ps[i].h.used)];
    }
    AtAll(ps, hs, hs', 5);
  }

  // ---------- what was heard, in terms of the final views ----------

  ghost predicate AllBob(hs: seq<Seat>) { forall k :: 0 <= k < |hs| ==> BobHeard(hs, k, hs[k].v.bob) }

  ghost predicate AllReplies(hs: seq<Seat>) { forall k :: 0 <= k < |hs| ==> RepliesHeard(hs, k, hs[k].v.replies) }

  ghost predicate AllReveals(hs: seq<Seat>) { forall k :: 0 <= k < |hs| ==> RevealsHeard(hs, k, hs[k].v.r4s) }

  lemma KeepNonces(hs: seq<Seat>, hs': seq<Seat>)
    requires SameSeats(hs, hs') && forall k :: 0 <= k < |hs| ==> NoncesHeard(hs, k, hs'[k].v.peerK)
    ensures AllHeard(hs')
  {
    hide MulBase;
    forall k | 0 <= k < |hs'| ensures NoncesHeard(hs', k, hs'[k].v.peerK) {
      assert NoncesHeard(hs, k, hs'[k].v.peerK);
    }
  }

  lemma KeepBob(hs: seq<Seat>, hs': seq<Seat>)
    requires |hs| == |hs'| && forall k :: 0 <= k < |hs| ==> hs'[k].v.alice == hs[k].v.alice
    requires forall k :: 0 <= k < |hs| ==> BobHeard(hs, k, hs'[k].v.bob)
    ensures AllBob(hs')
  {
    forall k | 0 <= k < |hs'| ensures BobHeard(hs', k, hs'[k].v.bob) {
      assert BobHeard(hs, k, hs'[k].v.bob);
    }
  }

  lemma KeepReplies(hs: seq<Seat>, hs': seq<Seat>)
    requires |hs| == |hs'| && forall k :: 0 <= k < |hs| ==> hs'[k].v.bob == hs[k].v.bob
    requires forall k :: 0 <= k < |hs| ==> RepliesHeard(hs, k, hs'[k].v.replies)
    ensures AllReplies(hs')
  {
    hide RepliesOf;
    forall k | 0 <= k < |hs'| ensures RepliesHeard(hs', k, hs'[k].v.replies) {
      assert RepliesHeard(hs, k, hs'[k].v.replies);
    }
  }

  lemma KeepReveals(hs: seq<Seat>, hs': seq<Seat>)
    requires SameSeats(hs, hs')
    requires forall k :: 0 <= k < |hs| ==> hs'[k].v == hs[k].v.(r4s := hs'[k].v.r4s)
    requires forall k :: 0 <= k < |hs| ==> RevealsHeard(hs, k, hs'[k].v.r4s)
    ensures AllReveals(hs')
  {
    hide RevealIs;
    forall k | 0 <= k < |hs'| ensures RevealsHeard(hs', k, hs'[k].v.r4s) {
      assert RevealsHeard(hs, k, hs'[k].v.r4s);
      forall m | 0 <= m < |hs'[k].v.r4s| ensures RevealIs(hs'[Other(k, m)], hs'[k].v.r4s[m]) {
        SameReveal(hs[Other(k, m)], hs'[Other(k, m)], hs'[k].v.r4s[m]);
      }
    }
  }

  lemma SameReveal(a: Seat, b: Seat, r4: R4)
    requires RevealIs(a, r4) && b.c == a.c && b.s == a.s && b.v == a.v.(r4s := b.v.r4s)
    ensures RevealIs(b, r4)
  {
    SigningParty.ViewRevealed(a.c, a.s, a.v, b.v.r4s);
    hide OwnR4;
  }

  /** Round by round, everything between two signers has arrived as it was sent. */
  lemma PairExchanged(hs: seq<Seat>, i: nat, j: nat)
    requires Session(hs) && AllHeard(hs) && AllBob(hs) && AllReplies(hs) && AllReveals(hs)
    requires i < |hs| && j < |hs| && i != j && |hs[i].v.alice| == |hs| - 1
    ensures Exchanged(hs[i], hs[j])
  {
    SeatFacts(hs, i);
    SeatFacts(hs, j);
    PairFacts(hs, i, j);
    BackAndForth(i, j);
    SlotIs(i, j, |hs|);
    SlotIs(j, i, |hs|);
    var m, w := Slot(i, j), Slot(j, i);
    assert NoncesHeard(hs, i, hs[i].v.peerK);
    assert BobHeard(hs, j, hs[j].v.bob);
    assert RepliesHeard(hs, i, hs[i].v.replies);
    assert RevealsHeard(hs, i, hs[i].v.r4s);
    hide Session, AllHeard, AllBob, AllReplies, AllReveals, SignConfig.Valid, Secrets.Valid, SameRequest, OwnR4,
      MulBase, SeedsMatch, FitsScalar, PairOt.Valid, Codec.Valid;
    BobHeardAt(hs, j, w, i);
    RepliesHeardAt(hs, i, m, j);
  }

  lemma BobHeardAt(hs: seq<Seat>, j: nat, w: nat, i: nat)
    requires j < |hs| && BobHeard(hs, j, hs[j].v.bob) && w < |hs| - 1 && Other(j, w) == i
    ensures w < |hs[j].v.bob| && i < |hs| && Slot(i, j) < |hs[i].v.alice|
    ensures hs[j].v.bob[w].inK == hs[i].v.alice[Slot(i, j)].msgK && hs[j].v.bob[w].inX == hs[i].v.alice[Slot(i, j)].msgX
  {
  }

  lemma RepliesHeardAt(hs: seq<Seat>, i: nat, m: nat, j: nat)
    requires i < |hs| && RepliesHeard(hs, i, hs[i].v.replies) && m < |hs| - 1 && Other(i, m) == j
    ensures m < |hs[i].v.replies| && j < |hs| && Slot(j, i) < |hs[j].v.bob|
    ensures hs[i].v.replies[m] == (hs[j].v.bob[Slot(j, i)].replyK, hs[j].v.bob[Slot(j, i)].replyX)
  {
  }

  lemma TrafficIntro(hs: seq<Seat>, x: int)
    requires Session(hs) && (forall i, j :: 0 <= i < |hs| && 0 <= j < |hs| && i != j ==> Exchanged(hs[i], hs[j]))
    requires hs[0].c.curve.n > 0
    requires Cong(Sums.Sum(Sxs(hs)), x, hs[0].c.curve.n) && Cong(hs[0].c.verifyPub, x, hs[0].c.curve.n)
    ensures Traffic(hs, x)
  {
    hide Session, Exchanged, SignConfig.Valid, Secrets.Valid, FitsScalar, Codec.Valid;
    forall i | 0 <= i < |hs| ensures hs[i].c.me == i && hs[i].c.count == |hs| && SameRequest(hs[0], hs[i]) {
      SeatFacts(hs, i);
    }
    SomeSeat(hs);
    SeatFacts(hs, 0);
  }

  /** At the last stage the committee is one that HonestTotals speaks about. */
  lemma Committed(ps: seq<SigningParty.Shared>, hs: seq<Seat>, x: int)
    requires Session(hs) && AllHeard(hs) && AllBob(hs) && AllReplies(hs) && AllReveals(hs) && AllAt(ps, hs, 5)
    requires hs[0].c.curve.n > 0
    requires Cong(Sums.Sum(Sxs(hs)), x, hs[0].c.curve.n) && Cong(hs[0].c.verifyPub, x, hs[0].c.curve.n)
    ensures HonestCommittee(hs, x)
  {
    hide *;
    AtEach(ps, hs, 5);
    forall k | 0 <= k < |hs| ensures Computed(hs[k]) && |hs[k].v.alice| == |hs| - 1 {
      AtWaiting(ps[k], hs[k]);
      WaitingComputed(ps[k], hs[k]);
      AliceAtStage(ps[k], hs, k, 5);
    }
    forall i, j | 0 <= i < |hs| && 0 <= j < |hs| && i != j ensures Exchanged(hs[i], hs[j]) {
      PairExchanged(hs, i, j);
    }
    TrafficIntro(hs, x);
    CommitteeIntro(hs, x);
  }

  lemma AtWaiting(p: SigningParty.Shared, a: Seat)
    requires At(p, a, 5)
    ensures Waiting(p, a)
  {
    hide SigningParty.Shared.Inv;
  }

  // ---------- the whole run ----------

  /** The result everyone has to get: a low-S signature that verifies, unless R.x, rho or e + r x vanishes. */
  ghost predicate Outcome(hs: seq<Seat>, x: int, res: Result<Signature, SigningParty.Failure>)
    requires hs != [] && hs[0].c.curve.n > 0
  {
    var c, r := hs[0].c, hs[0].c.curve.XScalar(GroupPoint(hs));
    && (res.Ok? <==> r != 0 && !Cong(Sums.Sum(Rhos(hs)), 0, c.curve.n) && !Cong(c.E() + r * x, 0, c.curve.n))
    && (res.Ok? ==> GoodSignature(c.curve, c.verifyPub, c.E(), res.value))
  }

  lemma OutcomeFrom(hs: seq<Seat>, hs': seq<Seat>, x: int, i: nat, res: Result<Signature, SigningParty.Failure>)
    requires Session(hs) && SameSeats(hs, hs') && AllHeard(hs') && i < |hs|
    requires hs[0].c.curve.n > 0 && hs'[i].c.curve.n > 0
    requires hs[0].c.curve.XScalar(GroupPoint(hs)) != 0 && GateOutcome(hs', x, i, res)
    ensures Outcome(hs, x, res)
  {
    hide *;
    StillSession(hs, hs');
    SeatFacts(hs', i);
    HeardOf(hs', i);
    NoncesKnown(hs', i, hs'[i].v.peerK);
    GateIs(hs', x, i, res);
    PointSame(hs, hs');
    RequestOf(hs'[0], hs'[i]);
    OutcomeMeans(hs, x, res);
    SameRhos(hs, hs');
  }

  lemma OutcomeMeans(hs: seq<Seat>, x: int, res: Result<Signature, SigningParty.Failure>)
    requires hs != [] && hs[0].c.curve.n > 0
    ensures var c, r := hs[0].c, hs[0].c.curve.XScalar(GroupPoint(hs));
      Outcome(hs, x, res) <==>
        && (res.Ok? <==> r != 0 && !Cong(Sums.Sum(Rhos(hs)), 0, c.curve.n) && !Cong(c.E() + r * x, 0, c.curve.n))
        && (res.Ok? ==> GoodSignature(c.curve, c.verifyPub, c.E(), res.value))
  {
    hide Cong, GroupPoint, Rhos, GoodSignature;
  }

  lemma SameRhos(hs: seq<Seat>, hs': seq<Seat>)
    requires SameSeats(hs, hs')
    ensures Rhos(hs') == Rhos(hs)
  {
  }

  lemma PointSame(hs: seq<Seat>, hs': seq<Seat>)
    requires Session(hs) && SameSeats(hs, hs')
    ensures GroupPoint(hs') == GroupPoint(hs) && hs'[0].c == hs[0].c
  {
    StillSession(hs, hs');
    SomeSeat(hs);
    hide Session, Total, NoncePoints, Ks;
  }

  lemma OutcomeNone(hs: seq<Seat>, x: int, res: Result<Signature, SigningParty.Failure>)
    requires hs != [] && hs[0].c.curve.n > 0 && hs[0].c.curve.XScalar(GroupPoint(hs)) == 0 && res.Err?
    ensures Outcome(hs, x, res)
  {
    hide Cong, GroupPoint, Rhos, GoodSignature;
  }

  /** Two delivered signatures are the same one. */
  lemma OneSignature(hs: seq<Seat>, x: int, i: nat, v: View, sig: Signature)
    requires HonestCommittee(hs, x) && i < |hs| && v == hs[i].v.(r4Echoes := v.r4Echoes)
    requires Finished(hs[i].c, hs[i].s, v, sig)
    ensures hs[0].c.curve.n > 0
    ensures sig == Combined(hs[0].c, GroupNonce(hs[0].c, hs[0].s, hs[0].v.peerK), Phis(hs), Shats(hs))
  {
    hide *;
    SeatOf(hs, x, i);
    RevealsSeen(hs, x, i);
    NonceSum(hs, x, i);
    SigningParty.ViewKeepsShares(hs[i].c, hs[i].s, hs[i].v, v);
    FinishedSignature(hs[i].c, hs[i].s, v, sig);
    SameCombined(hs[0].c, hs[i].c, GroupNonce(hs[0].c, hs[0].s, hs[0].v.peerK), Phis(hs), Shats(hs));
  }

  lemma FinishedSignature(c: SignConfig, s: Secrets, v: View, sig: Signature)
    requires Finished(c, s, v, sig)
    ensures c.curve.n > 0 && |v.alice| <= |v.replies|
    ensures sig == Combined(c, GroupNonce(c, s, v.peerK), PhiValues(c, OwnR4(c, s, v), v.r4s),
      ShatValues(c, OwnR4(c, s, v), v.r4s))
  {
    hide Combined, GroupNonce, PhiValues, ShatValues, OwnR4, AliceSides, BobSides, ReportsAgree, EcdsaVerify;
    PositiveOrder(c.curve);
  }

  lemma SameCombined(a: SignConfig, b: SignConfig, p: Point, phis: seq<Scalar>, shats: seq<Scalar>)
    requires a.curve == b.curve && a.curve.n > 0
    ensures Combined(a, p, phis, shats) == Combined(b, p, phis, shats)
  {
  }

  function NothingSeen(): View { View([], [], [], [], [], [], []) }

  lemma NothingIs()
    ensures NothingSeen() == View([], [], [], [], [], [], [])
  {
  }

  function SeatsOf(cs: seq<SignConfig>, ss: seq<Secrets>): (hs: seq<Seat>)
    requires |cs| == |ss|
    ensures |hs| == |cs| && forall k :: 0 <= k < |cs| ==> hs[k] == Seat(cs[k], ss[k], NothingSeen())
  {
    seq(|cs|, k requires 0 <= k < |cs| => Seat(cs[k], ss[k], NothingSeen()))
  }

  method Create(cs: seq<SignConfig>, ss: seq<Secrets>) returns (ps: seq<SigningParty.Shared>)
    requires |cs| == |ss| && Session(SeatsOf(cs, ss))
    ensures AllAt(ps, SeatsOf(cs, ss), 0) && |ps| == |cs| && forall k :: 0 <= k < |ps| ==> fresh(ps[k])
  {
    hide *;
    ghost var hs := SeatsOf(cs, ss);
    ps := [];
    for i := 0 to |cs|
      invariant |ps| == i && forall k :: 0 <= k < i ==> fresh(ps[k]) && At(ps[k], hs[k], 0)
      invariant forall k :: 0 <= k < i ==> hs[k].c == ps[k].c && hs[k].s == ps[k].s
    {
      SeatFacts(hs, i);
      var p := new SigningParty.Shared(cs[i], ss[i]);
      AtIntro(p, 0);
      NothingIs();
      ps := ps + [p];
    }
    AtAll(ps, hs, hs, 0);
  }

  method SentReports(ps: seq<SigningParty.Shared>, ghost hs: seq<Seat>) returns (sent: seq<Option<EchoMsg>>)
    requires AllAt(ps, hs, 5)
    ensures |sent| == |hs| && forall j :: 0 <= j < |hs| ==> sent[j] == Some(RevealEcho(hs[j].c, hs[j].v.r4s))
  {
    hide *;
    AtEach(ps, hs, 5);
    sent := [];
    for j := 0 to |ps|
      invariant |sent| == j && forall k :: 0 <= k < j ==> sent[k] == Some(RevealEcho(hs[k].c, hs[k].v.r4s))
    {
      AtData(ps[j], hs[j], 5);
      sent := sent + [ps[j].st.sentR4Echo];
    }
  }

  lemma ReportsArrive(hs: seq<Seat>, i: nat, sent: seq<Option<EchoMsg>>)
    requires i < |hs| == |sent|
    requires forall j :: 0 <= j < |hs| ==> sent[j] == Some(RevealEcho(hs[j].c, hs[j].v.r4s))
    ensures var reports := FromOthers(sent, i);
      && Decoded(reports) && forall m :: 0 <= m < |reports| ==>
        Other(i, m) < |hs| && Payloads(reports)[m] == RevealEcho(hs[Other(i, m)].c, hs[Other(i, m)].v.r4s)
  {
    hide RevealEcho;
  }

  lemma FirstHeard(hs: seq<Seat>, hs': seq<Seat>)
    requires SameSeats(hs, hs') && forall k :: 0 <= k < |hs| ==> FirstView(hs, k, hs'[k].v)
    ensures AllHeard(hs')
  {
    hide NoncesHeard;
    KeepNonces(hs, hs');
  }

  lemma NoncesStay(hs: seq<Seat>, hs': seq<Seat>)
    requires SameSeats(hs, hs') && AllHeard(hs) && forall k :: 0 <= k < |hs| ==> hs'[k].v.peerK == hs[k].v.peerK
    ensures AllHeard(hs')
  {
    hide NoncesHeard;
    KeepNonces(hs, hs');
  }

  lemma BobStays(hs: seq<Seat>, hs': seq<Seat>)
    requires |hs| == |hs'| && AllBob(hs)
    requires forall k :: 0 <= k < |hs| ==> hs'[k].v.alice == hs[k].v.alice && hs'[k].v.bob == hs[k].v.bob
    ensures AllBob(hs')
  {
    hide BobHeard;
    KeepBob(hs, hs');
  }

  lemma RepliesStay(hs: seq<Seat>, hs': seq<Seat>)
    requires |hs| == |hs'| && AllReplies(hs)
    requires forall k :: 0 <= k < |hs| ==> hs'[k].v.bob == hs[k].v.bob && hs'[k].v.replies == hs[k].v.replies
    ensures AllReplies(hs')
  {
    hide RepliesHeard;
    KeepReplies(hs, hs');
  }

  lemma SeatsCompose(a: seq<Seat>, b: seq<Seat>, c: seq<Seat>)
    requires SameSeats(a, b) && SameSeats(b, c)
    ensures SameSeats(a, c) && |a| == |b| == |c|
  {
  }

  lemma SharesStay(hs: seq<Seat>, hs': seq<Seat>)
    requires SameSeats(hs, hs')
    ensures Sxs(hs') == Sxs(hs) && |hs'| == |hs| && (hs != [] ==> hs'[0].c == hs[0].c)
  {
  }

  /** Everything between the nonces and the last echoes. */
  method Exchange(ps: seq<SigningParty.Shared>, ghost hs0: seq<Seat>, ghost hs1: seq<Seat>, ghost x: int)
    returns (ghost hs: seq<Seat>)
    requires Session(hs0) && SameSeats(hs0, hs1) && AllAt(ps, hs1, 1)
    requires forall k :: 0 <= k < |hs0| ==> FirstView(hs0, k, hs1[k].v)
    requires hs0[0].c.curve.n > 0
    requires Cong(Sums.Sum(Sxs(hs0)), x, hs0[0].c.curve.n) && Cong(hs0[0].c.verifyPub, x, hs0[0].c.curve.n)
    modifies set k | 0 <= k < |ps| :: ps[k]
    ensures AllAt(ps, hs, 5) && SameSeats(hs0, hs) && HonestCommittee(hs, x) && AllHeard(hs)
  {
    hide *;
    SomeSeat(hs0);
    StillSession(hs0, hs1);
    FirstHeard(hs0, hs1);
    ghost var hs2 := RoundOneEchoes(ps, hs1);
    SeatsCompose(hs0, hs1, hs2);
    StillSession(hs1, hs2);
    NoncesStay(hs1, hs2);
    ghost var hs3 := Answers(ps, hs2);
    SeatsCompose(hs0, hs2, hs3);
    StillSession(hs2, hs3);
    NoncesStay(hs2, hs3);
    KeepBob(hs2, hs3);
    ghost var hs4 := Outputs(ps, hs3);
    SeatsCompose(hs0, hs3, hs4);
    StillSession(hs3, hs4);
    NoncesStay(hs3, hs4);
    BobStays(hs3, hs4);
    KeepReplies(hs3, hs4);
    hs := Reveals(ps, hs4);
    SeatsCompose(hs0, hs4, hs);
    StillSession(hs4, hs);
    NoncesStay(hs4, hs);
    BobStays(hs4, hs);
    RepliesStay(hs4, hs);
    KeepReveals(hs4, hs);
    SharesStay(hs0, hs);
    Committed(ps, hs, x);
  }

  /** The last step of everyone. */
  method Finish(ps: seq<SigningParty.Shared>, ghost hs0: seq<Seat>, ghost hs: seq<Seat>, ghost x: int)
    requires Session(hs0) && SameSeats(hs0, hs) && AllAt(ps, hs, 5) && HonestCommittee(hs, x) && AllHeard(hs)
    requires hs0[0].c.curve.XScalar(GroupPoint(hs0)) != 0
    modifies set k | 0 <= k < |ps| :: ps[k]
    ensures |ps| == |hs0| && forall k :: 0 <= k < |ps| ==>
      ps[k].Inv() && |ps[k].deliveries| == 1 && Outcome(hs0, x, ps[k].deliveries[0])
    ensures forall j, k :: 0 <= j < |ps| && 0 <= k < |ps| && ps[j].deliveries[0].Ok? && ps[k].deliveries[0].Ok? ==>
      ps[j].deliveries == ps[k].deliveries
  {
    hide *;
    SomeSeat(hs0);
    StillSession(hs0, hs);
    SomeSeat(hs);
    Separate(ps, hs, 5);
    AtEach(ps, hs, 5);
    SameSize(hs0, hs);
    var sent := SentReports(ps, hs);
    ghost var sig := Combined(hs[0].c, GroupNonce(hs[0].c, hs[0].s, hs[0].v.peerK), Phis(hs), Shats(hs));
    for i := 0 to |ps|
      invariant forall k :: i <= k < |ps| ==> At(ps[k], hs[k], 5)
      invariant forall k :: 0 <= k < i ==>
        && ps[k].Inv() && |ps[k].deliveries| == 1 && Outcome(hs0, x, ps[k].deliveries[0])
        && (ps[k].deliveries[0].Ok? ==> ps[k].deliveries == [Ok(sig)])
    {
      AtWaiting(ps[i], hs[i]);
      ReportsArrive(hs, i, sent);
      FinishOne(ps[i], hs, x, i, FromOthers(sent, i));
      OutcomeFrom(hs0, hs, x, i, ps[i].deliveries[0]);
      if ps[i].deliveries[0].Ok? { OneSignature(hs, x, i, ps[i].h.used, ps[i].deliveries[0].value); }
    }
  }

  lemma SameSize(hs: seq<Seat>, hs': seq<Seat>)
    requires SameSeats(hs, hs')
    ensures |hs| == |hs'|
  {
  }

  /** Signing completeness. Honest signers of one session with matching OT state, whose effective shares add up to the
      logarithm x of the public key, run the whole protocol: everyone delivers one result, and it is the same low-S
      signature, which verifies, unless R.x, rho or e + r x vanishes. */
  method SignHonestly(cs: seq<SignConfig>, ss: seq<Secrets>, ghost x: int) returns (ps: seq<SigningParty.Shared>)
    requires |cs| == |ss| && Session(SeatsOf(cs, ss)) && cs != [] && cs[0].curve.n > 0
    requires Cong(Sums.Sum(Sxs(SeatsOf(cs, ss))), x, cs[0].curve.n) && Cong(cs[0].verifyPub, x, cs[0].curve.n)
    ensures |ps| == |cs| && forall k :: 0 <= k < |ps| ==>
      ps[k].Inv() && |ps[k].deliveries| == 1 && Outcome(SeatsOf(cs, ss), x, ps[k].deliveries[0])
    ensures forall j, k :: 0 <= j < |ps| && 0 <= k < |ps| && ps[j].deliveries[0].Ok? && ps[k].deliveries[0].Ok? ==>
      ps[j].deliveries == ps[k].deliveries
  {
    hide *;
    ghost var hs0 := SeatsOf(cs, ss);
    ps := Create(cs, ss);
    AtSize(ps, hs0, 0);
    ghost var hs1 := Round1(ps, hs0);
    FirstSeat(cs, ss);
    if ps[0].deliveries != [] {
      if hs0[0].c.curve.XScalar(GroupPoint(hs0)) != 0 {
        AtEach(ps, hs1, 1);
        AtFacts(ps[0], hs1[0], 1);
      }
      forall k | 0 <= k < |ps| ensures Outcome(hs0, x, ps[k].deliveries[0]) {
        OutcomeNone(hs0, x, ps[k].deliveries[0]);
      }
      return;
    }
    ghost var hs := Exchange(ps, hs0, hs1, x);
    Finish(ps, hs0, hs, x);
  }

  lemma AtSize(ps: seq<SigningParty.Shared>, hs: seq<Seat>, stage: nat)
    requires AllAt(ps, hs, stage)
    ensures |ps| == |hs|
  {
    hide At;
  }

  lemma FirstSeat(cs: seq<SignConfig>, ss: seq<Secrets>)
    requires |cs| == |ss| && cs != []
    ensures SeatsOf(cs, ss)[0] == Seat(cs[0], ss[0], NothingSeen())
  {
  }
}
