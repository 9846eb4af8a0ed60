/** What the broker key generation (src/dklstss/keygen_party.rs) checks and computes, as functions of the
    messages one party received. A party is named by its index in the sorted committee. */
module Dkg {
  import opened NumberTheory
  import opened Polynomial
  import opened Results
  import opened Bits
  import opened Secp
  import opened OtExtension
  import opened BaseOt
  import opened Ole
  import opened Vss
  import opened Keys
  import opened SignEncoding
  import opened Echo
  import opened Committee

  /** Round-1 broadcast: flattened commitments and the proof for the constant term. */
  datatype R1Bcast = R1Bcast(vss: seq<bytes>, pok: bytes)

  /** Round-1 unicast: the share and the base-OT sender's first message. */
  datatype R1Unicast = R1Unicast(share: bytes, otS: (bytes, bytes), otAlpha: (bytes, bytes), otT: bytes)

  /** Round-2 unicast: the base-OT receiver's responses. */
  datatype R2 = R2(r: seq<bytes>)

  /** One party's session parameters and the uninterpreted primitives. */
  datatype Config = Config(n: Order, t: nat, partyIds: seq<nat>, me: nat, codec: Codec,
    digest: (nat, seq<bytes>) -> bytes,
    pokOk: (nat, seq<Point>, seq<bytes>, bytes) -> bool, otPokOk: (bytes, Point, Point, bytes) -> bool,
    pairSid: (nat, nat, nat) -> bytes, oracle: Oracle, chainOf: Point -> bytes)
  {
    ghost predicate Valid() {
      && IsPrime(n) && codec.Valid(n) && oracle.Valid()
      && 1 <= t < |partyIds| && me < |partyIds| && IndexesOk(Ids(n, partyIds))
    }

    function Count(): nat { |partyIds| }

    function Id(j: nat): Scalar { if j < |partyIds| then partyIds[j] % n else 0 }

    /** The pair's base-OT session in which `ext` becomes the extension sender. */
    function Sid(j: nat, ext: nat): bytes {
      if me <= j then pairSid(me, j, ext) else pairSid(j, me, ext)
    }
  }

  /** What a party draws: its polynomial, and per peer its base-OT secrets, correlation and responses. */
  datatype Own = Own(poly: seq<Scalar>, pok: bytes, y: nat -> Scalar, alpha: nat -> (bytes, bytes), potT: nat -> bytes,
    delta: nat -> bytes, xs: nat -> seq<Scalar>)
  {
    ghost predicate Valid(c: Config) { |poly| == c.t + 1 && Reduced(c.n, poly) && Drawn() }

    ghost predicate Drawn() { forall j :: |delta(j)| == DELTA_BYTES && |xs(j)| == KAPPA }
  }

  /** Members of one session have the same committee. */
  lemma SameIds(a: Config, b: Config)
    requires b == a.(me := b.me)
    ensures b.Count() == a.Count() && forall j: nat :: b.Id(j) == a.Id(j)
  {
  }

  /** One base-OT session per pair and direction: when the hash of its parts never collides, two members name the same
      session exactly when they mean the same pair and the same extension sender. */
  lemma SidsApart(a: Config, b: Config, j: nat, k: nat, ext: nat, ext': nat)
    requires b == a.(me := b.me)
    requires forall x, y, z, x', y', z' :: a.pairSid(x, y, z) == a.pairSid(x', y', z') ==> x == x' && y == y' && z == z'
    ensures a.Sid(j, ext) == b.Sid(k, ext') <==> {a.me, j} == {b.me, k} && ext == ext'
  {
    if {a.me, j} == {b.me, k} { assert a.me in {b.me, k} && j in {b.me, k} && b.me in {a.me, j} && k in {a.me, j}; }
  }

  // ---------- what an honest party sends ----------

  function OwnShare(c: Config, own: Own, j: nat): (s: Scalar)
    ensures 0 <= s < c.n
  {
    Eval(own.poly, c.Id(j)) % c.n
  }

  function OwnBcast(c: Config, own: Own): R1Bcast { R1Bcast(Flatten(c.codec, own.poly), own.pok) }

  function OwnUnicast(c: Config, own: Own, j: nat): R1Unicast {
    R1Unicast(BeMin(OwnShare(c, own, j)), c.codec.coords(MulBase(c.n, own.y(j))), own.alpha(j), own.potT(j))
  }

  // ---------- the round-2 checks on one peer ----------

  datatype PartyError =
    | Undecodable | WrongCoordCount(j: nat) | BadPoints(j: nat) | BadPok(j: nat) | NonCanonicalShare(j: nat)
    | BadShare(j: nat) | BadOtMessage(j: nat) | EchoFailed(e: EchoError) | BadResponse(j: nat)
    | OtFinalizeFailed(j: nat) | InvalidKey

  function PeerPoints(c: Config, bc: R1Bcast): seq<Point> {
    match PointsOf(c.codec, bc.vss) case Some(pts) => pts case None => []
  }

  function PeerShare(c: Config, uc: R1Unicast): (s: Scalar)
    ensures 0 <= s < c.n
  {
    BeValue(uc.share) % c.n
  }

  function PeerS(c: Config, uc: R1Unicast): Option<Point> { c.codec.parse(uc.otS.0, uc.otS.1) }

  ghost predicate OtMessageOk(c: Config, j: nat, uc: R1Unicast) {
    && PeerS(c, uc).Some? && c.codec.parse(uc.otAlpha.0, uc.otAlpha.1).Some?
    && c.otPokOk(c.Sid(j, c.me), PeerS(c, uc).value, c.codec.parse(uc.otAlpha.0, uc.otAlpha.1).value, uc.otT)
  }

  /** What a dealer's commitments and share have to satisfy. */
  ghost predicate DealerOk(c: Config, dealer: nat, bc: R1Bcast, share: bytes) {
    && |bc.vss| == 2 * (c.t + 1) && PointsOf(c.codec, bc.vss).Some?
    && c.pokOk(dealer, PeerPoints(c, bc), bc.vss, bc.pok)
    && IsCanonicalScalar(c.n, share)
    && ShareFits(c.n, c.Id(c.me), BeValue(share) % c.n, c.t, PeerPoints(c, bc))
  }

  /** Everything round 2 requires of dealer j. */
  ghost predicate PeerOk(c: Config, j: nat, bc: R1Bcast, uc: R1Unicast) {
    DealerOk(c, j, bc, uc.share) && OtMessageOk(c, j, uc)
  }

  method CheckDealer(c: Config, dealer: nat, bc: R1Bcast, share: bytes) returns (err: Option<PartyError>)
    requires IsPrime(c.n) && c.codec.Valid(c.n)
    ensures err == None <==> DealerOk(c, dealer, bc, share)
  {
    hide Cong, Eval, IsPrime, IsCanonicalScalar;
    if |bc.vss| != 2 * (c.t + 1) { return Some(WrongCoordCount(dealer)); }
    var points := Unflatten(c.codec, bc.vss);
    if points.Err? { return Some(BadPoints(dealer)); }
    var vsj := points.value;
    if !c.pokOk(dealer, vsj, bc.vss, bc.pok) { return Some(BadPok(dealer)); }
    if !IsCanonicalScalar(c.n, share) { return Some(NonCanonicalShare(dealer)); }
    ParsedPointsProper(c.codec, c.n, bc.vss);
    var ok := Verify(c.n, c.Id(c.me), BeValue(share) % c.n, c.t, vsj);
    if !ok { return Some(BadShare(dealer)); }
    return None;
  }

  method CheckOtMessage(c: Config, j: nat, uc: R1Unicast) returns (ok: bool)
    ensures ok <==> OtMessageOk(c, j, uc)
  {
    var s, alpha := c.codec.parse(uc.otS.0, uc.otS.1), c.codec.parse(uc.otAlpha.0, uc.otAlpha.1);
    if s == None || alpha == None { return false; }
    return c.otPokOk(c.Sid(j, c.me), s.value, alpha.value, uc.otT);
  }

  method CheckPeer(c: Config, j: nat, bc: R1Bcast, uc: R1Unicast) returns (err: Option<PartyError>)
    requires c.Valid()
    ensures err == None <==> PeerOk(c, j, bc, uc)
  {
    hide DealerOk, OtMessageOk;
    err := CheckDealer(c, j, bc, uc.share);
    if err.Some? { return; }
    var ok := CheckOtMessage(c, j, uc);
    if !ok { err := Some(BadOtMessage(j)); }
  }

  // ---------- a party's view ----------

  /** The messages a party used, one per other party in order. */
  datatype Transcript = Transcript(bcasts: seq<R1Bcast>, unicasts: seq<R1Unicast>, echoes: seq<EchoMsg>, r2s: seq<R2>)

  ghost predicate AllPeersOk(c: Config, bcasts: seq<R1Bcast>, unicasts: seq<R1Unicast>) {
    && |bcasts| == |unicasts| == c.Count() - 1
    && forall k :: 0 <= k < c.Count() - 1 ==> PeerOk(c, Other(c.me, k), bcasts[k], unicasts[k])
  }

  /** My digest of every dealer's commitments, my own included. */
  function MyDigest(c: Config, own: Own, bcasts: seq<R1Bcast>, d: nat): bytes { c.digest(d, Heard(c, own, bcasts, d)) }

  /** The flattened commitments of dealer d as this party knows them. */
  function Heard(c: Config, own: Own, bcasts: seq<R1Bcast>, d: nat): seq<bytes> {
    if d == c.me then Flatten(c.codec, own.poly) else if Slot(c.me, d) < |bcasts| then bcasts[Slot(c.me, d)].vss else []
  }

  function MyDigestMap(c: Config, own: Own, bcasts: seq<R1Bcast>): (m: map<nat, bytes>)
    ensures forall d: nat :: d in m <==> d < c.Count()
    ensures forall d: nat :: d < c.Count() ==> m[d] == MyDigest(c, own, bcasts, d)
  {
    map d: nat | 0 <= d < c.Count() :: MyDigest(c, own, bcasts, d)
  }

  ghost predicate EchoesAgree(c: Config, own: Own, bcasts: seq<R1Bcast>, echoes: seq<EchoMsg>) {
    && c.me < c.Count() && |echoes| == c.Count() - 1
    && forall k :: 0 <= k < c.Count() - 1 ==>
      Agrees(MyDigestMap(c, own, bcasts), Other(c.me, k), echoes[k], Everyone(c.Count(), c.me))
  }

  /** The echo a party sends after round 2. */
  function OwnEcho(c: Config, bcasts: seq<R1Bcast>): (e: EchoMsg)
    ensures |e.digests| == |bcasts|
    ensures forall k :: 0 <= k < |bcasts| ==> e.digests[k] == (Other(c.me, k), c.digest(Other(c.me, k), bcasts[k].vss))
  {
    EchoMsg(seq(|bcasts|, k requires 0 <= k < |bcasts| => (Other(c.me, k), c.digest(Other(c.me, k), bcasts[k].vss))))
  }

  /** The commitments of dealer j as this party knows them. */
  function DealerPoints(c: Config, own: Own, bcasts: seq<R1Bcast>, j: nat): seq<Point> {
    if j == c.me then own.poly else if Slot(c.me, j) < |bcasts| then PeerPoints(c, bcasts[Slot(c.me, j)]) else []
  }

  function AllVss(c: Config, own: Own, bcasts: seq<R1Bcast>): (vss: seq<seq<Point>>)
    ensures |vss| == c.Count()
    ensures forall j :: 0 <= j < c.Count() ==> vss[j] == DealerPoints(c, own, bcasts, j)
  {
    seq(c.Count(), j requires 0 <= j < c.Count() => DealerPoints(c, own, bcasts, j))
  }

  /** sum of the first k peers' shares */
  function PeerShareSum(c: Config, unicasts: seq<R1Unicast>, k: nat): int
    requires k <= |unicasts|
  {
    if k == 0 then 0 else PeerShareSum(c, unicasts, k - 1) + PeerShare(c, unicasts[k - 1])
  }

  /** sum of the first k peers' values at x */
  function OthersEval(vss: seq<seq<Point>>, me: nat, x: int, k: nat): int
    requires me < |vss| && k < |vss|
  {
    if k == 0 then 0 else OthersEval(vss, me, x, k - 1) + Eval(vss[Other(me, k - 1)], x)
  }

  /** Starting from the own term and adding the others in order gives the sum over all dealers. */
  lemma {:induction false} OwnFirst(vss: seq<seq<Point>>, me: nat, x: int, j: nat)
    requires me < |vss| && j <= |vss|
    ensures SumEval(vss, x, j) == OthersEval(vss, me, x,
      if j <= me then j else j - 1) + if j <= me then 0 else Eval(vss[me], x)
  {
    if j > 0 { OwnFirst(vss, me, x, j - 1); }
  }

  /** The party's final share. */
  function FinalShare(c: Config, own: Own, unicasts: seq<R1Unicast>): (xi: Scalar)
    ensures 0 <= xi < c.n
  {
    (OwnShare(c, own, c.me) + PeerShareSum(c, unicasts, |unicasts|)) % c.n
  }

  function JointKey(c: Config, vss: seq<seq<Point>>): (p: Point)
    ensures 0 <= p < c.n
  {
    SumEval(vss, 0, |vss|) % c.n
  }

  function VerificationPoints(c: Config, vss: seq<seq<Point>>): (big: seq<Point>)
    ensures |big| == c.Count() && forall j :: 0 <= j < |big| ==> big[j] == SumEval(vss, c.Id(j), |vss|) % c.n
  {
    seq(c.Count(), j requires 0 <= j < c.Count() => SumEval(vss, c.Id(j), |vss|) % c.n)
  }

  // ---------- pairwise OT state ----------

  /** My base-OT receiver for peer j, in the session where I become the extension sender. */
  function MyReceiver(c: Config, own: Own, uc: R1Unicast, j: nat): Receiver {
    Receiver(c.Sid(j, c.me), KAPPA, own.delta(j), own.xs(j), match PeerS(c, uc) case Some(s) => s case None => 0)
  }

  /** My base-OT sender for peer j, in the session where j becomes the extension sender. */
  function MySender(c: Config, own: Own, j: nat): Sender {
    Sender(c.Sid(j, j), KAPPA, own.y(j), MulBase(c.n, own.y(j)))
  }

  /** My responses to peer j. */
  function OwnResponses(c: Config, own: Own, uc: R1Unicast, j: nat): (r: seq<Point>)
    requires |own.delta(j)| == DELTA_BYTES && |own.xs(j)| == KAPPA
    ensures |r| == KAPPA
  {
    var s := MyReceiver(c, own, uc, j).s;
    seq(KAPPA, i requires 0 <= i < KAPPA => Response(c.n, own.xs(j)[i], BitAt(own.delta(j), i), s))
  }

  function OwnR2(c: Config, own: Own, uc: R1Unicast, j: nat): R2
    requires |own.delta(j)| == DELTA_BYTES && |own.xs(j)| == KAPPA
  {
    R2(Flatten(c.codec, OwnResponses(c, own, uc, j)))
  }

  /** The peer's responses are well-formed. */
  ghost predicate ResponseOk(c: Config, r2: R2) {
    PointsOf(c.codec, r2.r).Some? && |PointsOf(c.codec, r2.r).value| == KAPPA
  }

  /** The OT state for peer j assembled from its messages, when they are well-formed. */
  function OtFor(c: Config, own: Own, uc: R1Unicast, r2: R2, j: nat): (st: Option<PairOt>)
    ensures st.Some? ==> st.value.Valid()
  {
    match PointsOf(c.codec, r2.r)
    case None => None
    case Some(r) =>
      if |r| != KAPPA || |own.delta(j)| != DELTA_BYTES || |own.xs(j)| != KAPPA then None else
        var snd := MySender(c, own, j);
        Some(PairOt(
          ExtReceiver(
            seq(KAPPA, i requires 0 <= i < KAPPA => SenderKey(c.oracle, c.n, snd, i, r[i], false)),
            seq(KAPPA, i requires 0 <= i < KAPPA => SenderKey(c.oracle, c.n, snd, i, r[i], true))),
          ExtSender(own.delta(j), ReceiverFinalize(c.oracle, c.n, MyReceiver(c, own, uc, j)))))
  }

  ghost predicate AllResponsesOk(c: Config, r2s: seq<R2>) {
    |r2s| == c.Count() - 1 && forall k :: 0 <= k < |r2s| ==> ResponseOk(c, r2s[k])
  }

  function OtStates(c: Config, own: Own, unicasts: seq<R1Unicast>, r2s: seq<R2>): (ot: seq<Option<PairOt>>)
    ensures |ot| == c.Count()
    ensures forall j :: 0 <= j < c.Count() ==> ot[j] == OtSlot(c, own, unicasts, r2s, j)
  {
    seq(c.Count(), j requires 0 <= j < c.Count() => OtSlot(c, own, unicasts, r2s, j))
  }

  function OtSlot(c: Config, own: Own, unicasts: seq<R1Unicast>, r2s: seq<R2>, j: nat): Option<PairOt> {
    if j == c.me || Slot(c.me, j) >= |unicasts| || Slot(c.me, j) >= |r2s| then None
    else OtFor(c, own, unicasts[Slot(c.me, j)], r2s[Slot(c.me, j)], j)
  }

  /** The key a party ends with. */
  function FinalKey(c: Config, own: Own, tr: Transcript): Key {
    var vss := AllVss(c, own, tr.bcasts);
    var pub := JointKey(c, vss);
    Key(c.Count(), c.t, c.me, c.partyIds, FinalShare(c, own, tr.unicasts), VerificationPoints(c, vss), pub,
      OtStates(c, own, tr.unicasts, tr.r2s), c.chainOf(pub))
  }

  /** A party that delivers a key has verified every share and every echo, and the key is valid. */
  ghost predicate Finished(c: Config, own: Own, tr: Transcript, key: Key) {
    && c.Valid() && own.Valid(c)
    && AllPeersOk(c, tr.bcasts, tr.unicasts) && EchoesAgree(c, own, tr.bcasts, tr.echoes) && AllResponsesOk(c, tr.r2s)
    && key == FinalKey(c, own, tr) && Basic(c.n, key)
  }
}
