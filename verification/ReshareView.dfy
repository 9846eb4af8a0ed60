/** What one new member of the broker reshare (src/dklstss/resharing_party.rs) checks and computes, and what new members
    that finish have in common. Parties of both committees are named by their keys. */
module ReshareView {
  import opened NumberTheory
  import opened Polynomial
  import opened Results
  import opened Bits
  import opened Secp
  import opened Vss
  import opened Keys
  import opened SignEncoding
  import opened Echo
  import opened Committee
  import opened Lagrange
  import opened Lifecycle
  import opened Resharing
  import opened Ole
  import opened Dkg

  /** The new committee's session (its members are the parties of `base`), the old dealers' keys in order, and the
      public key being reshared. */
  datatype ReshareConfig = ReshareConfig(base: Config, dealers: seq<nat>, oldPub: Point) {
    ghost predicate Valid() {
      && base.Valid() && dealers != [] && 0 <= oldPub < base.n
      && (forall i, j :: 0 <= i < j < |dealers| ==> dealers[i] != dealers[j])
    }

    function MyKey(): nat { if base.me < |base.partyIds| then base.partyIds[base.me] else 0 }
  }

  /** The messages a new member used: broadcasts and shares per dealer, echoes and base-OT messages per other new
      member. */
  datatype ReshareTranscript = ReshareTranscript(bcasts: seq<R1Bcast>, shares: seq<bytes>, echoes: seq<EchoMsg>,
    otMsgs: seq<R1Unicast>, responses: seq<R2>)

  /** My digest of a dealer's commitments; my own ones come from what I dealt. */
  function DealerDigest(c: ReshareConfig, ownVs: seq<Point>, bcasts: seq<R1Bcast>, d: nat): bytes
    requires d < |c.dealers| && d < |bcasts|
  {
    c.base.digest(c.dealers[d], if c.dealers[d] == c.MyKey() then Flatten(c.base.codec, ownVs) else bcasts[d].vss)
  }

  /** The digests I compare the reports with, after the first m dealers. */
  function OwnDigests(c: ReshareConfig, ownVs: seq<Point>, bcasts: seq<R1Bcast>, m: nat): map<nat, bytes>
    requires m <= |c.dealers| && m <= |bcasts|
  {
    if m == 0 then map[]
    else if c.dealers[m - 1] == c.MyKey() && ownVs == [] then OwnDigests(c, ownVs, bcasts, m - 1)
    else OwnDigests(c, ownVs, bcasts, m - 1)[c.dealers[m - 1] := DealerDigest(c, ownVs, bcasts, m - 1)]
  }

  lemma {:induction false} DigestOf(c: ReshareConfig, ownVs: seq<Point>, bcasts: seq<R1Bcast>, m: nat, d: nat)
    requires m <= |c.dealers| && m <= |bcasts| && d < |c.dealers| && d < |bcasts|
    requires forall i, j :: 0 <= i < j < |c.dealers| ==> c.dealers[i] != c.dealers[j]
    ensures d < m && !(c.dealers[d] == c.MyKey() && ownVs == []) ==>
      c.dealers[d] in OwnDigests(c, ownVs, bcasts, m) && OwnDigests(c, ownVs, bcasts,
        m)[c.dealers[d]] == DealerDigest(c, ownVs, bcasts, d)
    ensures d >= m || (c.dealers[d] == c.MyKey() && ownVs == []) ==> c.dealers[d] !in OwnDigests(c, ownVs, bcasts, m)
  {
    hide DealerDigest, ReshareConfig.MyKey;
    if m > 0 {
      DigestOf(c, ownVs, bcasts, m - 1, d);
      if d != m - 1 { assert c.dealers[d] != c.dealers[m - 1]; }
    }
  }

  /** The echo of a new member: every dealer's digest but its own. */
  function DealersEcho(c: ReshareConfig, bcasts: seq<R1Bcast>, m: nat): (e: EchoMsg)
    requires m <= |c.dealers| && m <= |bcasts|
  {
    if m == 0 then EchoMsg([])
    else if c.dealers[m - 1] == c.MyKey() then DealersEcho(c, bcasts, m - 1)
    else EchoMsg(DealersEcho(c, bcasts, m - 1).digests + [(c.dealers[m - 1],
      c.base.digest(c.dealers[m - 1], bcasts[m - 1].vss))])
  }

  lemma {:induction false} EchoEntry(c: ReshareConfig, bcasts: seq<R1Bcast>, m: nat, d: nat)
    requires m <= |c.dealers| && m <= |bcasts| && d < m && c.dealers[d] != c.MyKey()
    ensures (c.dealers[d], c.base.digest(c.dealers[d], bcasts[d].vss)) in DealersEcho(c, bcasts, m).digests
  {
    if d < m - 1 { EchoEntry(c, bcasts, m - 1, d); }
  }

  /** Every other new member's report agrees with mine. */
  ghost predicate ReportsOk(c: ReshareConfig, ownVs: seq<Point>, bcasts: seq<R1Bcast>, echoes: seq<EchoMsg>) {
    && |bcasts| == |c.dealers| && |echoes| == c.base.Count() - 1
    && forall k :: 0 <= k < |echoes| ==>
      Agrees(OwnDigests(c, ownVs, bcasts, |c.dealers|), c.base.partyIds[Other(c.base.me, k)], echoes[k], c.dealers)
  }

  ghost predicate AllDealersOk(c: ReshareConfig, bcasts: seq<R1Bcast>, shares: seq<bytes>) {
    && |bcasts| == |shares| == |c.dealers|
    && forall d :: 0 <= d < |c.dealers| ==> DealerOk(c.base, c.dealers[d], bcasts[d], shares[d])
  }

  function ReceivedVss(c: ReshareConfig, bcasts: seq<R1Bcast>): (vss: seq<seq<Point>>)
    ensures |vss| == |bcasts| && forall d :: 0 <= d < |bcasts| ==> vss[d] == PeerPoints(c.base, bcasts[d])
  {
    seq(|bcasts|, d requires 0 <= d < |bcasts| => PeerPoints(c.base, bcasts[d]))
  }

  /** sum of the first k dealers' shares */
  function ShareTotal(c: ReshareConfig, shares: seq<bytes>, k: nat): int
    requires k <= |shares|
  {
    if k == 0 then 0 else ShareTotal(c, shares, k - 1) + BeValue(shares[k - 1]) % c.base.n
  }

  /** The new key a member ends with. */
  function NewKey(c: ReshareConfig, own: Own, tr: ReshareTranscript): Key {
    Key(c.base.Count(), c.base.t, c.base.me, c.base.partyIds, ShareTotal(c, tr.shares, |tr.shares|) % c.base.n,
      VerificationPoints(c.base, ReceivedVss(c, tr.bcasts)), c.oldPub, OtStates(c.base, own, tr.otMsgs, tr.responses),
      c.base.chainOf(c.oldPub))
  }

  ghost predicate OtMessagesOk(c: ReshareConfig, otMsgs: seq<R1Unicast>) {
    |otMsgs| == c.base.Count() - 1 && forall k :: 0 <= k < |otMsgs| ==>
      OtMessageOk(c.base, Other(c.base.me, k), otMsgs[k])
  }

  /** A new member that delivers a key. */
  ghost predicate Reshared(c: ReshareConfig, own: Own, ownVs: seq<Point>, tr: ReshareTranscript, key: Key) {
    && c.Valid() && own.Valid(c.base)
    && AllDealersOk(c, tr.bcasts, tr.shares) && ReportsOk(c, ownVs, tr.bcasts, tr.echoes)
    && OtMessagesOk(c, tr.otMsgs) && AllResponsesOk(c.base, tr.responses)
    && SumEval(ReceivedVss(c, tr.bcasts), 0, |tr.bcasts|) % c.base.n == c.oldPub
    && key == NewKey(c, own, tr) && Basic(c.base.n, key)
  }

  /** The share a dealer sends new member j. */
  function DealtTo(c: Config, vs: seq<Point>, j: nat): bytes { BeMin(Eval(vs, c.Id(j)) % c.n) }

  // ---------- agreement ----------

  datatype Member = Member(c: ReshareConfig, own: Own, ownVs: seq<Point>, tr: ReshareTranscript, key: Key) {
    ghost predicate Done() { Reshared(c, own, ownVs, tr, key) }
  }

  ghost predicate SameReshare(a: Member, b: Member) {
    b.c == a.c.(base := a.c.base.(me := b.c.base.me)) && a.c.base.me != b.c.base.me
  }

  /** b used the echo a sent. */
  ghost predicate ReportDelivered(a: Member, b: Member) {
    && a.c.base.me != b.c.base.me && Slot(b.c.base.me, a.c.base.me) < |b.tr.echoes| && |a.tr.bcasts| == |a.c.dealers|
    && b.tr.echoes[Slot(b.c.base.me, a.c.base.me)] == DealersEcho(a.c, a.tr.bcasts, |a.c.dealers|)
  }

  /** A member of both committees received its own commitments as it dealt them. */
  ghost predicate SelfDelivered(a: Member) {
    forall d :: 0 <= d < |a.c.dealers| && d < |a.tr.bcasts| && a.c.dealers[d] == a.c.MyKey() ==>
      a.tr.bcasts[d].vss == Flatten(a.c.base.codec, a.ownVs)
  }

  lemma MemberFacts(a: Member)
    requires a.Done()
    ensures a.c.Valid() && a.c.base.n >= 2 && IsPrime(a.c.base.n)
    ensures a.c.base.me < |a.c.base.partyIds| == a.c.base.Count()
    ensures |a.tr.bcasts| == |a.tr.shares| == |a.c.dealers| && |a.tr.echoes| == a.c.base.Count() - 1
    ensures a.key == NewKey(a.c, a.own, a.tr) && a.c.MyKey() == a.c.base.partyIds[a.c.base.me]
    ensures AllDealersOk(a.c, a.tr.bcasts, a.tr.shares) && ReportsOk(a.c, a.ownVs, a.tr.bcasts, a.tr.echoes)
    ensures SumEval(ReceivedVss(a.c, a.tr.bcasts), 0, |a.tr.bcasts|) % a.c.base.n == a.c.oldPub
    ensures forall i, j :: 0 <= i < j < |a.c.dealers| ==> a.c.dealers[i] != a.c.dealers[j]
  {
    hide DealerOk, Agrees, NewKey, Basic, SumEval, OtMessagesOk, AllResponsesOk, IndexesOk, OwnDigests;
  }

  /** A delivered key means that every dealer d dealt newT + 1 points with a proof accepted under its key and a share
      below the group order that fits them, and that the points add up to the public key being reshared. */
  lemma DeliveredMeans(a: Member, d: nat)
    requires a.Done() && d < |a.c.dealers|
    ensures |a.tr.bcasts| == |a.tr.shares| == |a.c.dealers| && |a.tr.otMsgs| == a.c.base.Count() - 1
    ensures var c, bc, pts := a.c.base, a.tr.bcasts[d], PeerPoints(a.c.base, a.tr.bcasts[d]);
      && |bc.vss| == 2 * (c.t + 1) && |pts| == c.t + 1 && PointsOf(c.codec, bc.vss) == Some(pts)
      && c.pokOk(a.c.dealers[d], pts, bc.vss, bc.pok)
      && BeValue(a.tr.shares[d]) < c.n && Cong(BeValue(a.tr.shares[d]), Eval(pts, c.Id(c.me)), c.n)
    ensures Cong(SumEval(ReceivedVss(a.c, a.tr.bcasts), 0, |a.tr.bcasts|), a.c.oldPub, a.c.base.n)
    ensures forall k :: 0 <= k < |a.tr.otMsgs| ==> OtMessageOk(a.c.base, Other(a.c.base.me, k), a.tr.otMsgs[k])
  {
    hide Eval, SumEval, Basic, ReportsOk, NewKey, IsCanonicalScalar, BeValue, OtMessageOk, AllResponsesOk, IndexesOk;
    assert DealerOk(a.c.base, a.c.dealers[d], a.tr.bcasts[d], a.tr.shares[d]);
    CanonicalIff(a.c.base.n, a.tr.shares[d]);
    SmallMod(BeValue(a.tr.shares[d]), a.c.base.n);
    CongMod(SumEval(ReceivedVss(a.c, a.tr.bcasts), 0, |a.tr.bcasts|), a.c.base.n);
  }

  lemma SessionParts(a: Member, b: Member)
    requires a.Done() && b.Done() && SameReshare(a, b)
    ensures a.c.dealers == b.c.dealers && a.c.base.digest == b.c.base.digest && a.c.base.partyIds == b.c.base.partyIds
    ensures |a.tr.bcasts| == |b.tr.bcasts| == |a.c.dealers| && a.c.base.me < |a.c.base.partyIds|
  {
    hide Reshared;
    MemberFacts(a);
    MemberFacts(b);
  }

  /** b's own digests agree with every entry of the echo a sent. */
  lemma EchoAccepted(a: Member, b: Member, entry: (nat, bytes))
    requires a.Done() && b.Done() && SameReshare(a, b) && ReportDelivered(a, b)
    requires entry in DealersEcho(a.c, a.tr.bcasts, |a.c.dealers|).digests
    ensures a.c.base.me < |a.c.base.partyIds| && |b.c.dealers| == |b.tr.bcasts|
    ensures EntryAgrees(OwnDigests(b.c, b.ownVs, b.tr.bcasts, |b.c.dealers|), a.c.base.partyIds[a.c.base.me], entry)
  {
    hide Reshared, OwnDigests, EntryAgrees, DealersEcho, AllDealersOk;
    MemberFacts(a);
    MemberFacts(b);
    var slot := Slot(b.c.base.me, a.c.base.me);
    assert Other(b.c.base.me, slot) == a.c.base.me;
    var mine := OwnDigests(b.c, b.ownVs, b.tr.bcasts, |b.c.dealers|);
    assert Agrees(mine, b.c.base.partyIds[Other(b.c.base.me, slot)], b.tr.echoes[slot], b.c.dealers);
  }

  /** What b's acceptance of a's report says about one dealer: a's copy is b's copy, or what b dealt itself. */
  lemma ReportedDealer(a: Member, b: Member, d: nat)
    requires a.Done() && b.Done() && SameReshare(a, b) && ReportDelivered(a, b) && CollisionFree(a.c.base.digest)
    requires d < |a.c.dealers| && a.c.dealers[d] != a.c.MyKey()
    ensures d < |a.tr.bcasts| && d < |b.tr.bcasts|
    ensures a.tr.bcasts[d].vss == if b.c.dealers[d] == b.c.MyKey() then Flatten(b.c.base.codec,
      b.ownVs) else b.tr.bcasts[d].vss
  {
    hide Reshared, Flatten, Member.Done, SameReshare, ReportDelivered, ReshareConfig.MyKey, OwnDigests, DealersEcho;
    SessionParts(a, b);
    MemberFacts(b);
    EchoEntry(a.c, a.tr.bcasts, |a.c.dealers|, d);
    EchoAccepted(a, b, (a.c.dealers[d], a.c.base.digest(a.c.dealers[d], a.tr.bcasts[d].vss)));
    DigestOf(b.c, b.ownVs, b.tr.bcasts, |b.c.dealers|, d);
  }

  /** Different new members have different keys. */
  lemma KeysDiffer(a: Member, b: Member)
    requires a.Done() && b.Done() && SameReshare(a, b)
    ensures a.c.MyKey() != b.c.MyKey()
  {
    hide AllDealersOk, ReportsOk, NewKey, Basic, SumEval, OtMessagesOk, AllResponsesOk;
    var ids := Ids(a.c.base.n, a.c.base.partyIds);
    var x, y := a.c.base.me, b.c.base.me;
    assert ids[x] != ids[y] by { if x < y { assert ids[x] != ids[y]; } else { assert ids[y] != ids[x]; } }
  }

  /** Both finishers hold every dealer's commitments byte for byte the same. */
  lemma SameCommitments(a: Member, b: Member)
    requires a.Done() && b.Done() && SameReshare(a, b) && CollisionFree(a.c.base.digest)
    requires ReportDelivered(a, b) && ReportDelivered(b, a) && SelfDelivered(a) && SelfDelivered(b)
    ensures ReceivedVss(a.c, a.tr.bcasts) == ReceivedVss(b.c, b.tr.bcasts)
  {
    hide Reshared, Flatten, CollisionFree, ReportDelivered, PointsOf, ReshareConfig.MyKey;
    MemberFacts(a);
    MemberFacts(b);
    KeysDiffer(a, b);
    forall d | 0 <= d < |a.c.dealers| ensures a.tr.bcasts[d].vss == b.tr.bcasts[d].vss {
      if a.c.dealers[d] != a.c.MyKey() { ReportedDealer(a, b, d); } else { ReportedDealer(b, a, d); }
    }
  }

  /** Agreement: any two honest new members that finish hold the same public key - the one being reshared - and the same
      verification points and chain code. */
  lemma MembersAgree(a: Member, b: Member)
    requires a.Done() && b.Done() && SameReshare(a, b) && CollisionFree(a.c.base.digest)
    requires ReportDelivered(a, b) && ReportDelivered(b, a) && SelfDelivered(a) && SelfDelivered(b)
    ensures a.key.ecdsaPub == b.key.ecdsaPub == a.c.oldPub && a.key.bigXj == b.key.bigXj
    ensures a.key.chainCode == b.key.chainCode
  {
    hide Reshared, CollisionFree, ReportDelivered, SelfDelivered, ReceivedVss, SumEval;
    MemberFacts(a);
    MemberFacts(b);
    SameCommitments(a, b);
    var vss := ReceivedVss(a.c, a.tr.bcasts);
    assert VerificationPoints(a.c.base, vss) == VerificationPoints(b.c.base, vss);
  }

  // ---------- the new shares ----------

  lemma DealtShare(a: Member, d: nat)
    requires a.Done() && d < |a.c.dealers|
    ensures d < |a.tr.bcasts| && d < |a.tr.shares| && |PeerPoints(a.c.base, a.tr.bcasts[d])| == a.c.base.t + 1
    ensures Cong(BeValue(a.tr.shares[d]) % a.c.base.n, Eval(PeerPoints(a.c.base, a.tr.bcasts[d]),
      a.c.base.Id(a.c.base.me)), a.c.base.n)
  {
    hide Eval, ReportsOk, NewKey, Basic, SumEval, OtMessagesOk, AllResponsesOk, IsCanonicalScalar, PointsOf, BeValue;
    assert DealerOk(a.c.base, a.c.dealers[d], a.tr.bcasts[d], a.tr.shares[d]);
  }

  lemma {:induction false} SharesFit(a: Member, k: nat)
    requires a.Done() && k <= |a.c.dealers|
    ensures k <= |a.tr.shares| == |a.tr.bcasts|
    ensures Cong(ShareTotal(a.c, a.tr.shares, k), SumEval(ReceivedVss(a.c, a.tr.bcasts), a.c.base.Id(a.c.base.me), k),
      a.c.base.n)
  {
    hide *;
    MemberFacts(a);
    TotalStep(a, k);
    if k > 0 {
      SharesFit(a, k - 1);
      DealtShare(a, k - 1);
      CongAdd(ShareTotal(a.c, a.tr.shares, k - 1), SumEval(ReceivedVss(a.c, a.tr.bcasts), a.c.base.Id(a.c.base.me),
        k - 1),
        BeValue(a.tr.shares[k - 1]) % a.c.base.n, Eval(PeerPoints(a.c.base, a.tr.bcasts[k - 1]),
          a.c.base.Id(a.c.base.me)), a.c.base.n);
    }
  }

  lemma TotalStep(a: Member, k: nat)
    requires k <= |a.tr.shares| == |a.tr.bcasts|
    ensures var x, vss := a.c.base.Id(a.c.base.me), ReceivedVss(a.c, a.tr.bcasts);
      if k == 0 then Cong(ShareTotal(a.c, a.tr.shares, k), SumEval(vss, x, k), a.c.base.n)
      else
        && ShareTotal(a.c, a.tr.shares, k) == ShareTotal(a.c, a.tr.shares,
          k - 1) + BeValue(a.tr.shares[k - 1]) % a.c.base.n
        && SumEval(vss, x, k) == SumEval(vss, x, k - 1) + Eval(PeerPoints(a.c.base, a.tr.bcasts[k - 1]), x)
  {
    hide BeValue, PeerPoints, Eval;
  }

  lemma NewShareIs(a: Member)
    requires a.Done()
    ensures |a.tr.bcasts| == |a.c.dealers|
    ensures Cong(a.key.xi, SumEval(ReceivedVss(a.c, a.tr.bcasts), a.c.base.Id(a.c.base.me), |a.c.dealers|), a.c.base.n)
  {
    hide Reshared, ShareTotal, SumEval;
    MemberFacts(a);
    SharesFit(a, |a.c.dealers|);
    CongMod(ShareTotal(a.c, a.tr.shares, |a.tr.shares|), a.c.base.n);
  }

  /** New members that finished one reshare and whose messages reached each other. */
  ghost predicate Members(ms: seq<Member>) {
    && ms != [] && (forall i :: 0 <= i < |ms| ==> ms[i].Done() && SelfDelivered(ms[i]))
    && CollisionFree(ms[0].c.base.digest)
    && (forall i, j :: 0 <= i < |ms| && 0 <= j < |ms| && i != j ==> SameReshare(ms[i], ms[j]) && ReportDelivered(ms[i],
      ms[j]))
  }

  function MemberIds(ms: seq<Member>): (ids: seq<Scalar>)
    ensures |ids| == |ms| && forall i :: 0 <= i < |ms| ==> ids[i] == ms[i].c.base.Id(ms[i].c.base.me)
  {
    seq(|ms|, i requires 0 <= i < |ms| => ms[i].c.base.Id(ms[i].c.base.me))
  }

  function MemberShares(ms: seq<Member>): (xs: seq<Scalar>)
    ensures |xs| == |ms| && forall i :: 0 <= i < |ms| ==> xs[i] == ms[i].key.xi
  {
    seq(|ms|, i requires 0 <= i < |ms| => ms[i].key.xi)
  }

  lemma MemberPair(ms: seq<Member>, i: nat, j: nat)
    requires Members(ms) && i < |ms| && j < |ms|
    ensures ms[i].Done() && ms[j].Done() && CollisionFree(ms[i].c.base.digest) && SelfDelivered(ms[i])
    ensures i != j ==> SameReshare(ms[i], ms[j]) && ReportDelivered(ms[i], ms[j])
    ensures ms[j].c.base.n == ms[i].c.base.n && ms[j].c.base.t == ms[i].c.base.t && ms[j].c.oldPub == ms[i].c.oldPub
    ensures ms[j].c.dealers == ms[i].c.dealers
  {
    hide Reshared, ReportDelivered, SelfDelivered;
    if 0 != i { assert SameReshare(ms[0], ms[i]); }
  }

  lemma FirstMember(ms: seq<Member>)
    requires Members(ms)
    ensures ms != []
  {
  }

  lemma MemberValue(ms: seq<Member>, i: nat)
    requires Members(ms) && i < |ms| && ms != []
    ensures ms[i].c.base.n == ms[0].c.base.n
    ensures Cong(ms[i].key.xi, SumEval(ReceivedVss(ms[0].c, ms[0].tr.bcasts), MemberIds(ms)[i],
      |ReceivedVss(ms[0].c, ms[0].tr.bcasts)|), ms[0].c.base.n)
  {
    hide *;
    MemberPair(ms, 0, i);
    MemberPair(ms, i, 0);
    if i != 0 { SameCommitments(ms[0], ms[i]); }
    NewShareIs(ms[i]);
    MemberFacts(ms[i]);
    MemberFacts(ms[0]);
  }

  lemma MembersDistinct(ms: seq<Member>)
    requires Members(ms) && ms != []
    ensures forall i, j :: 0 <= i < j < |ms| ==> !Cong(MemberIds(ms)[i], MemberIds(ms)[j], ms[0].c.base.n)
  {
    hide *;
    forall i, j | 0 <= i < j < |ms| ensures !Cong(MemberIds(ms)[i], MemberIds(ms)[j], ms[0].c.base.n) {
      MemberPair(ms, i, j);
      MemberPair(ms, 0, i);
      IdsDiffer(ms[i], ms[j]);
    }
  }

  lemma IdsDiffer(a: Member, b: Member)
    requires a.Done() && b.Done() && SameReshare(a, b)
    ensures !Cong(a.c.base.Id(a.c.base.me), b.c.base.Id(b.c.base.me), a.c.base.n)
  {
    hide AllDealersOk, ReportsOk, NewKey, Basic, SumEval, OtMessagesOk, AllResponsesOk, Cong;
    var ids := Ids(a.c.base.n, a.c.base.partyIds);
    IndexesDistinct(a.c.base.n, ids);
    CongFlip(ids[a.c.base.me], ids[b.c.base.me], a.c.base.n);
  }

  lemma DistinctFrom(n: int, xs: seq<int>)
    requires n > 0 && forall i, j :: 0 <= i < j < |xs| ==> !Cong(xs[i], xs[j], n)
    ensures Distinct(n, xs)
  {
  }

  /** The dealers' commitments as a finisher received them. */
  function JointOf(a: Member): seq<int> {
    var vss := ReceivedVss(a.c, a.tr.bcasts);
    if forall d :: 0 <= d < |vss| ==> |vss[d]| == a.c.base.t + 1 then SumPoly(vss, a.c.base.t + 1, |vss|) else []
  }

  lemma JointOfIs(a: Member, x: int)
    requires a.Done()
    ensures |JointOf(a)| == a.c.base.t + 1
    ensures Eval(JointOf(a), x) == SumEval(ReceivedVss(a.c, a.tr.bcasts), x, |ReceivedVss(a.c, a.tr.bcasts)|)
  {
    hide Reshared;
    MemberFacts(a);
    var vss := ReceivedVss(a.c, a.tr.bcasts);
    forall d | 0 <= d < |vss| ensures |vss[d]| == a.c.base.t + 1 { DealtShare(a, d); }
    EvalSumPoly(vss, a.c.base.t + 1, |vss|, x);
  }

  lemma JointAtZero(a: Member)
    requires a.Done()
    ensures Cong(Eval(JointOf(a), 0), a.c.oldPub, a.c.base.n)
  {
    JointOfIs(a, 0);
    hide Reshared, SumEval, Eval, JointOf;
    MemberFacts(a);
    CongMod(SumEval(ReceivedVss(a.c, a.tr.bcasts), 0, |a.tr.bcasts|), a.c.base.n);
  }

  /** Any t' + 1 new members that finish hold shares of the logarithm of the key that was reshared, whoever dealt. */
  lemma MembersReconstruct(ms: seq<Member>)
    requires Members(ms) && |ms| > ms[0].c.base.t
    ensures Cong(WeightedSum(ms[0].c.base.n, MemberIds(ms), MemberShares(ms), |ms|), ms[0].c.oldPub, ms[0].c.base.n)
  {
    hide *;
    FirstMember(ms);
    MemberPair(ms, 0, 0);
    MemberFacts(ms[0]);
    var n, ids, xs, f := ms[0].c.base.n, MemberIds(ms), MemberShares(ms), JointOf(ms[0]);
    MembersDistinct(ms);
    DistinctFrom(n, ids);
    forall i | 0 <= i < |ms| ensures Cong(xs[i], Eval(f, ids[i]), n) {
      MemberValue(ms, i);
      JointOfIs(ms[0], ids[i]);
    }
    JointAtZero(ms[0]);
    JointOfIs(ms[0], 0);
    InterpolateValues(n, ids, f, xs);
    CongTrans(WeightedSum(n, ids, xs, |ids|), Eval(f, 0), ms[0].c.oldPub, n);
  }

  /** Weighted shares of a consistent committee, dealt anew, add up to its key. */
  lemma HonestConstants(n: int, oldKeys: seq<Key>, subset: seq<nat>, t: nat, draws: Draws)
    requires IsPrime(n) && oldKeys != [] && WellFormed(n, oldKeys) && Consistent(n, oldKeys, oldKeys[0].ecdsaPub)
    requires Subset(subset, |oldKeys|) && |subset| > oldKeys[0].t
    ensures forall a :: 0 <= a < |subset| ==> subset[a] < |oldKeys|
    ensures var polys := ScaledPolys(n, ParticipantIds(n, oldKeys, subset), Picked(Shares(oldKeys), subset), t, draws);
      SumEval(polys, 0, |polys|) % n == oldKeys[0].ecdsaPub
  {
    PrimePositive(n);
    SubsetPicks(subset, |oldKeys|);
    hide *;
    var ids, xs := ParticipantIds(n, oldKeys, subset), Picked(Shares(oldKeys), subset);
    ConsistentParticipants(n, oldKeys, subset, ids, xs);
    ScaledConstants(n, ids, xs, t, draws, |ids|);
    OnePublicKey(n, oldKeys);
    Reconstructed(n, SumEval(ScaledPolys(n, ids, xs, t, draws), 0, |ids|), WeightedSum(n, ids, xs, |ids|),
      oldKeys[0].ecdsaPub);
  }
}
