/** The broker-driven reshare of one party (src/dklstss/resharing_party.rs): an old member's dealing, and a new member's
    handlers over mutex-protected state, fired in any order the broker chooses. */
module ResharingParty {
  import opened NumberTheory
  import opened Polynomial
  import opened Results
  import opened Bits
  import opened Secp
  import opened OtExtension
  import opened BaseOt
  import opened Ole
  import opened Vss
  import opened Keys
  import opened SignEncoding
  import opened Echo
  import opened Committee
  import opened Dkg
  import opened ReshareView
  import KeygenParty

  // ---------- an old member's round 1 ----------

  /** What an old member sends: its commitments broadcast, and to itself when it is a new member too, since a broadcast
      is not looped back; a share for every new member. One that is not a new member is done and delivers no key. */
  datatype Dealing = Dealing(vs: seq<Point>, bcast: R1Bcast, toSelf: Option<R1Bcast>, shares: seq<bytes>, done: bool)

  /** old_round1: the weighted share is dealt to the new committee; a zero one is refused. */
  method OldRound1(c: Config, lambda: Scalar, xi: Scalar, draws: seq<Scalar>, pok: bytes,
    isNew: bool) returns (dealt: Option<Dealing>)
    requires |draws| == c.t && Reduced(c.n, draws)
    ensures dealt == None <==> FMul(c.n, lambda, xi) == 0
    ensures dealt.Some? ==>
      var d := dealt.value;
      && d.vs == [FMul(c.n, lambda, xi)] + draws && d.bcast == R1Bcast(Flatten(c.codec, d.vs), pok)
      && d.toSelf == (if isNew then Some(d.bcast) else None) && d.done == !isNew
      && |d.shares| == c.Count() && forall j :: 0 <= j < c.Count() ==> d.shares[j] == DealtTo(c, d.vs, j)
  {
    hide Eval, FMul, BeMin;
    var scaled := FMul(c.n, lambda, xi);
    if scaled == 0 { return None; }
    var ids := Ids(c.n, c.partyIds);
    var vs, values := Create(c.n, c.t, scaled, ids, draws);
    var shares := seq(c.Count(), j requires 0 <= j < c.Count() => BeMin(values[j]));
    var bcast := R1Bcast(Flatten(c.codec, vs), pok);
    return Some(Dealing(vs, bcast, if isNew then Some(bcast) else None, shares, !isNew));
  }

  // ---------- a new member ----------

  datatype ReshareError =
    | Garbled | EchoRefused(e: EchoError) | Dealer(d: PartyError) | BadOt(j: nat) | KeyMismatch | InvalidNewKey

  /** The state under the mutex, the echo broadcast, and the handlers registered so far. */
  datatype State = State(ownVs: seq<Point>, r1Bcasts: seq<R1Bcast>, r1Unicasts: seq<bytes>, haveBcasts: bool,
    haveUnicasts: bool,
    received: seq<seq<Point>>, receivers: seq<Receiver>, newXi: Scalar, sentEcho: Option<EchoMsg>,
    awaitEcho: bool, awaitR2: bool, awaitR3: bool)

  /** The echo phase has passed, every dealer's share verified, and the new share is their sum. */
  ghost predicate DealersIn(c: ReshareConfig, st: State, u: ReshareTranscript) {
    && u.bcasts == st.r1Bcasts && ReportsOk(c, st.ownVs, u.bcasts, u.echoes) && AllDealersOk(c, u.bcasts, u.shares)
    && st.received == ReceivedVss(c, u.bcasts)
  }

  ghost predicate OtIn(c: ReshareConfig, own: Own, st: State, u: ReshareTranscript) {
    && OtMessagesOk(c, u.otMsgs) && |st.receivers| == c.base.Count() - 1
    && forall k :: 0 <= k < |st.receivers| ==>
      st.receivers[k] == MyReceiver(c.base, own, u.otMsgs[k], Other(c.base.me, k))
  }

  ghost predicate StateOk(c: ReshareConfig, own: Own, st: State, u: ReshareTranscript) {
    && (st.haveBcasts ==> |st.r1Bcasts| == |c.dealers|)
    && (st.haveUnicasts && !st.awaitR2 ==> |st.r1Unicasts| == |c.dealers|)
    && (st.awaitEcho ==>
      st.haveBcasts && st.haveUnicasts && st.sentEcho == Some(DealersEcho(c, st.r1Bcasts, |c.dealers|)))
    && (st.awaitR2 ==>
      st.awaitEcho && DealersIn(c, st, u) && st.newXi == ShareTotal(c, u.shares, |u.shares|) % c.base.n)
    && (st.awaitR3 ==> st.awaitR2 && OtIn(c, own, st, u))
  }

  /** The other new members' keys, in order. */
  function OtherKeys(c: Config): (keys: seq<nat>)
    requires c.me < c.Count()
    ensures |keys| == c.Count() - 1 && forall k :: 0 <= k < |keys| ==> keys[k] == c.partyIds[Other(c.me, k)]
  {
    seq(c.Count() - 1, k requires 0 <= k < c.Count() - 1 => c.partyIds[Other(c.me, k)])
  }

  method CheckReports(c: ReshareConfig, ownVs: seq<Point>, bcasts: seq<R1Bcast>, msgs: seq<Option<EchoMsg>>)
    returns (err: Option<ReshareError>, echoes: seq<EchoMsg>)
    requires c.base.me < c.base.Count() && |bcasts| == |c.dealers| && |msgs| == c.base.Count() - 1
    ensures err == None ==> ReportsOk(c, ownVs, bcasts, echoes)
  {
    hide Agrees, OwnDigests;
    echoes := [];
    if !Decoded(msgs) { return Some(Garbled), echoes; }
    echoes := Payloads(msgs);
    var mine := OwnDigests(c, ownVs, bcasts, |c.dealers|);
    var bad := VerifyEchoes(mine, c.MyKey(), OtherKeys(c.base), echoes, c.dealers);
    if bad.Some? { return Some(EchoRefused(bad.value)), echoes; }
    err := None;
  }

  /** after_round1: every dealer checked, the shares summed. */
  method CheckDealers(c: ReshareConfig, bcasts: seq<R1Bcast>, shares: seq<bytes>)
    returns (err: Option<ReshareError>, received: seq<seq<Point>>, newXi: Scalar)
    requires c.Valid() && c.base.n > 0 && |bcasts| == |shares| == |c.dealers|
    ensures err == None <==> AllDealersOk(c, bcasts, shares)
    ensures err == None ==> received == ReceivedVss(c, bcasts) && newXi == ShareTotal(c, shares, |shares|) % c.base.n
  {
    hide DealerOk, BeValue, PeerPoints, Config.Valid, IsPrime, Codec.Valid, FAdd;
    FieldOf(c);
    received, newXi := [], 0;
    SmallMod(0, c.base.n);
    for d := 0 to |c.dealers|
      invariant |received| == d && forall k :: 0 <= k < d ==> received[k] == PeerPoints(c.base, bcasts[k])
      invariant forall k :: 0 <= k < d ==> DealerOk(c.base, c.dealers[k], bcasts[k], shares[k])
      invariant newXi == ShareTotal(c, shares, d) % c.base.n
    {
      var bad := CheckDealer(c.base, c.dealers[d], bcasts[d], shares[d]);
      if bad.Some? { return Some(Dealer(bad.value)), received, newXi; }
      var share := BeValue(shares[d]) % c.base.n;
      SumStep(c.base.n, newXi, ShareTotal(c, shares, d), share, share);
      newXi := FAdd(c.base.n, newXi, share);
      received := received + [PeerPoints(c.base, bcasts[d])];
    }
    err := None;
  }

  lemma FieldOf(c: ReshareConfig)
    requires c.Valid()
    ensures IsPrime(c.base.n) && c.base.codec.Valid(c.base.n) && c.base.n >= 2 && c.base.me < c.base.Count()
  {
    PrimePositive(c.base.n);
  }

  /** after_round2: every other new member's base-OT message, answered. */
  method AnswerOt(c: ReshareConfig, own: Own, msgs: seq<Option<R1Unicast>>)
    returns (err: Option<ReshareError>, otMsgs: seq<R1Unicast>, receivers: seq<Receiver>, responses: seq<R2>)
    requires c.base.me < c.base.Count() && own.Valid(c.base) && |msgs| == c.base.Count() - 1
    ensures err == None ==> OtMessagesOk(c, otMsgs) && |receivers| == |responses| == c.base.Count() - 1
    ensures err == None ==> forall k :: 0 <= k < |receivers| ==>
      && receivers[k] == MyReceiver(c.base, own, otMsgs[k], Other(c.base.me, k))
      && responses[k] == OwnR2(c.base, own, otMsgs[k], Other(c.base.me, k))
  {
    hide OtMessageOk, MyReceiver, OwnR2;
    otMsgs, receivers, responses := [], [], [];
    if !Decoded(msgs) { return Some(Garbled), otMsgs, receivers, responses; }
    otMsgs := Payloads(msgs);
    for k := 0 to |otMsgs|
      invariant |receivers| == |responses| == k && own.Valid(c.base)
      invariant forall m :: 0 <= m < k ==> OtMessageOk(c.base, Other(c.base.me, m), otMsgs[m])
      invariant forall m :: 0 <= m < k ==>
        && receivers[m] == MyReceiver(c.base, own, otMsgs[m], Other(c.base.me, m))
        && responses[m] == OwnR2(c.base, own, otMsgs[m], Other(c.base.me, m))
    {
      var j := Other(c.base.me, k);
      var ok := CheckOtMessage(c.base, j, otMsgs[k]);
      if !ok { return Some(BadOt(j)), otMsgs, receivers, responses; }
      receivers := receivers + [MyReceiver(c.base, own, otMsgs[k], j)];
      responses := responses + [OwnR2(c.base, own, otMsgs[k], j)];
    }
    err := None;
  }

  /** finalize: the reconstructed key must be the one being reshared. */
  method BuildKey(c: ReshareConfig, own: Own, st: State, r3s: seq<R2>,
    ghost u: ReshareTranscript) returns (res: Result<Key, ReshareError>)
    requires c.Valid() && c.base.n > 0 && own.Valid(c.base) && StateOk(c, own, st, u) && st.awaitR3
    requires |r3s| == c.base.Count() - 1
    ensures res.Ok? ==> Reshared(c, own, st.ownVs, u.(responses := r3s), res.value)
    ensures res == Err(KeyMismatch) <==>
      |u.bcasts| == |c.dealers| && SumEval(ReceivedVss(c, u.bcasts), 0, |u.bcasts|) % c.base.n != c.oldPub
  {
    FieldOf(c);
    StagesIn(c, own, st, u);
    ProperReceived(c, u.bcasts, u.shares);
    hide *;
    var vss := st.received;
    var pub := SumConstants2(c, vss);
    if pub != c.oldPub { return Err(KeyMismatch); }
    var big: seq<Point> := [];
    for j := 0 to c.base.Count()
      invariant |big| == j && forall d :: 0 <= d < j ==> big[d] == SumEval(vss, c.base.Id(d), |vss|) % c.base.n
    {
      var p := EvaluateCommitmentSum(c.base.n, vss, c.base.Id(j));
      big := big + [p];
    }
    DrawnOf(c.base, own);
    var bad, ot := KeygenParty.AssembleStates(c.base, own, st.receivers, u.otMsgs, r3s);
    if bad.Some? { return Err(BadOt(bad.value)); }
    var key := Key(c.base.Count(), c.base.t, c.base.me, c.base.partyIds, st.newXi, big, pub, ot, c.base.chainOf(pub));
    KeygenParty.VerificationIs(c.base, vss, big);
    NewKeyIs(c, own, u.(responses := r3s), key);
    var valid := ValidateBasic(c.base.n, key);
    if !valid { return Err(InvalidNewKey); }
    ResharedIntro(c, own, st.ownVs, u.(responses := r3s), key);
    return Ok(key);
  }

  /** sum of V_d[0] over the dealers */
  method SumConstants2(c: ReshareConfig, vss: seq<seq<Point>>) returns (pub: Point)
    requires KeygenParty.ProperVss(c.base.n, vss)
    ensures pub == SumEval(vss, 0, |vss|) % c.base.n
  {
    hide Eval;
    pub := vss[0][0];
    EvalZero(vss[0]);
    SmallMod(pub, c.base.n);
    for d := 1 to |vss|
      invariant pub == SumEval(vss, 0, d) % c.base.n
    {
      EvalZero(vss[d]);
      SumStep(c.base.n, pub, SumEval(vss, 0, d), vss[d][0], vss[d][0]);
      pub := PointAdd(c.base.n, pub, vss[d][0]);
    }
  }

  lemma DrawnOf(c: Config, own: Own)
    requires own.Valid(c)
    ensures own.Drawn()
  {
  }

  lemma StagesIn(c: ReshareConfig, own: Own, st: State, u: ReshareTranscript)
    requires StateOk(c, own, st, u) && st.awaitR3
    ensures AllDealersOk(c, u.bcasts, u.shares) && ReportsOk(c, st.ownVs, u.bcasts, u.echoes)
    ensures st.received == ReceivedVss(c, u.bcasts)
    ensures st.newXi == ShareTotal(c, u.shares, |u.shares|) % c.base.n && OtMessagesOk(c, u.otMsgs)
    ensures |u.otMsgs| == |st.receivers| == c.base.Count() - 1
    ensures forall k :: 0 <= k < |st.receivers| ==>
      st.receivers[k] == MyReceiver(c.base, own, u.otMsgs[k], Other(c.base.me, k))
    ensures |u.bcasts| == |c.dealers|
  {
    hide DealerOk, Agrees, OtMessageOk, MyReceiver, ReceivedVss, ShareTotal, OwnDigests;
  }

  lemma ProperReceived(c: ReshareConfig, bcasts: seq<R1Bcast>, shares: seq<bytes>)
    requires c.Valid() && AllDealersOk(c, bcasts, shares)
    ensures KeygenParty.ProperVss(c.base.n, ReceivedVss(c, bcasts)) && c.base.me < c.base.Count()
    ensures |ReceivedVss(c, bcasts)| == |bcasts|
    ensures ReceivedVss(c, bcasts) != [] && forall d :: 0 <= d < |bcasts| ==>
      ReceivedVss(c, bcasts)[d] != [] && Reduced(c.base.n, ReceivedVss(c, bcasts)[d])
  {
    hide PointsOf, IsCanonicalScalar, IndexesOk, IsPrime, Cong, Eval;
    var vss := ReceivedVss(c, bcasts);
    forall d | 0 <= d < |vss| ensures vss[d] != [] && Reduced(c.base.n, vss[d]) {
      assert DealerOk(c.base, c.dealers[d], bcasts[d], shares[d]);
      ParsedPointsProper(c.base.codec, c.base.n, bcasts[d].vss);
    }
  }

  lemma NewKeyIs(c: ReshareConfig, own: Own, tr: ReshareTranscript, key: Key)
    requires key == Key(c.base.Count(), c.base.t, c.base.me, c.base.partyIds,
      ShareTotal(c, tr.shares, |tr.shares|) % c.base.n,
      VerificationPoints(c.base, ReceivedVss(c, tr.bcasts)), c.oldPub, OtStates(c.base, own, tr.otMsgs,
        tr.responses), c.base.chainOf(c.oldPub))
    ensures key == NewKey(c, own, tr)
  {
  }

  lemma ResharedIntro(c: ReshareConfig, own: Own, ownVs: seq<Point>, tr: ReshareTranscript, key: Key)
    requires c.Valid() && own.Valid(c.base) && AllDealersOk(c, tr.bcasts, tr.shares)
    requires ReportsOk(c, ownVs, tr.bcasts, tr.echoes)
    requires OtMessagesOk(c, tr.otMsgs) && AllResponsesOk(c.base, tr.responses)
    requires SumEval(ReceivedVss(c, tr.bcasts), 0, |tr.bcasts|) % c.base.n == c.oldPub
    requires key == NewKey(c, own, tr) && c.base.n > 0 && Basic(c.base.n, key)
    ensures Reshared(c, own, ownVs, tr, key)
  {
    hide *;
    ResharedMeans(c, own, ownVs, tr, key);
  }

  lemma ResharedMeans(c: ReshareConfig, own: Own, ownVs: seq<Point>, tr: ReshareTranscript, key: Key)
    ensures Reshared(c, own, ownVs, tr, key) <==>
      && c.Valid() && own.Valid(c.base) && AllDealersOk(c, tr.bcasts, tr.shares) && ReportsOk(c, ownVs, tr.bcasts,
        tr.echoes)
      && OtMessagesOk(c, tr.otMsgs) && AllResponsesOk(c.base, tr.responses)
      && SumEval(ReceivedVss(c, tr.bcasts), 0, |tr.bcasts|) % c.base.n == c.oldPub && key == NewKey(c, own,
        tr) && Basic(c.base.n, key)
  {
    hide AllDealersOk, ReportsOk, OtMessagesOk, AllResponsesOk, SumEval, NewKey, Basic, ReshareConfig.Valid, Own.Valid;
  }

  lemma AfterEchoes(c: ReshareConfig, own: Own, st: State, u: ReshareTranscript, echoes: seq<EchoMsg>,
    received: seq<seq<Point>>, xi: Scalar,
    st': State, u': ReshareTranscript)
    requires StateOk(c, own, st, u) && st.awaitEcho && !st.awaitR2 && ReportsOk(c, st.ownVs, st.r1Bcasts, echoes)
    requires AllDealersOk(c, st.r1Bcasts, st.r1Unicasts) && received == ReceivedVss(c, st.r1Bcasts)
    requires xi == ShareTotal(c, st.r1Unicasts, |st.r1Unicasts|) % c.base.n
    requires st' == st.(received := received, newXi := xi, r1Unicasts := [], awaitR2 := true)
    requires u' == u.(bcasts := st.r1Bcasts, shares := st.r1Unicasts, echoes := echoes)
    ensures StateOk(c, own, st', u')
  {
    hide ReportsOk, AllDealersOk, ReceivedVss, ShareTotal, OtMessageOk, MyReceiver;
  }

  lemma AfterOt(c: ReshareConfig, own: Own, st: State, u: ReshareTranscript, otMsgs: seq<R1Unicast>,
    receivers: seq<Receiver>,
    st': State, u': ReshareTranscript)
    requires StateOk(c, own, st, u) && st.awaitR2 && OtMessagesOk(c, otMsgs) && |receivers| == c.base.Count() - 1
    requires forall k :: 0 <= k < |receivers| ==>
      receivers[k] == MyReceiver(c.base, own, otMsgs[k], Other(c.base.me, k))
    requires st' == st.(receivers := receivers, awaitR3 := true) && u' == u.(otMsgs := otMsgs)
    ensures StateOk(c, own, st', u')
  {
    hide ReportsOk, AllDealersOk, ReceivedVss, ShareTotal, OtMessageOk, MyReceiver;
  }

  class Shared {
    const c: ReshareConfig
    const own: Own

    var st: State
    var resultTx: bool
    var deliveries: seq<Result<Key, ReshareError>>

    ghost var u: ReshareTranscript

    /** At most one result; a delivered key is backed by verified shares, agreeing echoes and the public-key check. */
    ghost predicate Inv() reads this {
      && c.Valid() && own.Valid(c.base) && c.base.n > 0 && c.base.me < c.base.Count() && StateOk(c, own, st, u)
      && |deliveries| <= 1 && (resultTx <==> deliveries == [])
      && (deliveries != [] && deliveries[0].Ok? ==> st.awaitR3 && Reshared(c, own, st.ownVs, u, deliveries[0].value))
    }

    ghost predicate NoKey() reads this { deliveries != [] ==> deliveries[0].Err? }

    /** A new member; `ownVs` is what it dealt as an old member, empty otherwise. */
    constructor (c: ReshareConfig, own: Own, ownVs: seq<Point>)
      requires c.Valid() && own.Valid(c.base)
      ensures Inv() && deliveries == [] && this.c == c && this.own == own
      ensures st == State(ownVs, [], [], false, false, [], [], 0, None, false, false, false)
    {
      FieldOf(c);
      this.c, this.own := c, own;
      st := State(ownVs, [], [], false, false, [], [], 0, None, false, false, false);
      resultTx, deliveries := true, [];
      u := ReshareTranscript([], [], [], [], []);
    }

    method Deliver(res: Result<Key, ReshareError>)
      requires Inv() && NoKey() && (res.Ok? ==> st.awaitR3 && Reshared(c, own, st.ownVs, u, res.value))
      modifies this`resultTx, this`deliveries
      ensures Inv() && (res.Err? ==> NoKey())
      ensures deliveries == (if old(deliveries) == [] then [res] else old(deliveries))
    {
      hide StateOk, Reshared, ReshareConfig.Valid, Own.Valid;
      if resultTx {
        resultTx := false;
        deliveries := deliveries + [res];
      }
    }

    method Move(st': State, ghost u': ReshareTranscript)
      requires Inv() && NoKey() && StateOk(c, own, st', u')
      modifies this`st, this`u
      ensures Inv() && NoKey() && st == st' && u == u'
    {
      hide StateOk, Reshared, ReshareConfig.Valid, Own.Valid;
      st := st';
      u := u';
    }

    method OnR1Bcasts(msgs: seq<Option<R1Bcast>>)
      requires Inv() && NoKey() && !st.haveBcasts && |msgs| == |c.dealers|
      modifies this
      ensures Inv() && NoKey() && (st.haveBcasts || deliveries != []) && st.haveUnicasts == old(st.haveUnicasts)
      ensures st.awaitR2 == old(st.awaitR2) && st.awaitR3 == old(st.awaitR3) && old(deliveries) <= deliveries
      ensures st.haveBcasts && st.haveUnicasts ==> st.awaitEcho
    {
      hide DealersIn, OtIn, Reshared, ReshareConfig.Valid, Own.Valid, DealersEcho;
      if !Decoded(msgs) {
        Deliver(Err(Garbled));
        return;
      }
      var bcasts, ready := Payloads(msgs), st.haveUnicasts;
      var st' := st.(r1Bcasts := bcasts, haveBcasts := true, awaitEcho := ready,
        sentEcho := if ready then Some(DealersEcho(c, bcasts, |c.dealers|)) else st.sentEcho);
      Move(st', u);
    }

    method OnR1Unicasts(msgs: seq<Option<bytes>>)
      requires Inv() && NoKey() && !st.haveUnicasts && |msgs| == |c.dealers|
      modifies this
      ensures Inv() && NoKey() && (st.haveUnicasts || deliveries != []) && st.haveBcasts == old(st.haveBcasts)
      ensures st.awaitR2 == old(st.awaitR2) && st.awaitR3 == old(st.awaitR3) && old(deliveries) <= deliveries
      ensures st.haveBcasts && st.haveUnicasts ==> st.awaitEcho
    {
      hide DealersIn, OtIn, Reshared, ReshareConfig.Valid, Own.Valid, DealersEcho;
      if !Decoded(msgs) {
        Deliver(Err(Garbled));
        return;
      }
      var ready := st.haveBcasts;
      var st' := st.(r1Unicasts := Payloads(msgs), haveUnicasts := true, awaitEcho := ready,
        sentEcho := if ready then Some(DealersEcho(c, st.r1Bcasts, |c.dealers|)) else st.sentEcho);
      Move(st', u);
    }

    /** The echoes are checked, then every dealer's commitments and share. */
    method OnEchoes(msgs: seq<Option<EchoMsg>>)
      requires Inv() && NoKey() && st.awaitEcho && !st.awaitR2 && |msgs| == c.base.Count() - 1
      modifies this
      ensures Inv() && NoKey() && (st.awaitR2 || deliveries != []) && old(deliveries) <= deliveries
      ensures st.haveBcasts == old(st.haveBcasts) && st.haveUnicasts == old(st.haveUnicasts)
      ensures st.awaitR3 == old(st.awaitR3)
    {
      hide DealersIn, OtIn, Reshared, ReshareConfig.Valid, Own.Valid, AllDealersOk, ReportsOk;
      var err, echoes := CheckReports(c, st.ownVs, st.r1Bcasts, msgs);
      if err.Some? {
        Deliver(Err(err.value));
        return;
      }
      var bad, received, xi := CheckDealers(c, st.r1Bcasts, st.r1Unicasts);
      if bad.Some? {
        Deliver(Err(bad.value));
        return;
      }
      var st' := st.(received := received, newXi := xi, r1Unicasts := [], awaitR2 := true);
      ghost var u' := u.(bcasts := st.r1Bcasts, shares := st.r1Unicasts, echoes := echoes);
      AfterEchoes(c, own, st, u, echoes, received, xi, st', u');
      Move(st', u');
    }

    method OnOtMessages(msgs: seq<Option<R1Unicast>>)
      requires Inv() && NoKey() && st.awaitR2 && !st.awaitR3 && |msgs| == c.base.Count() - 1
      modifies this
      ensures Inv() && NoKey() && (st.awaitR3 || deliveries != []) && old(deliveries) <= deliveries
      ensures st.haveBcasts == old(st.haveBcasts) && st.haveUnicasts == old(st.haveUnicasts)
      ensures st.awaitR2 == old(st.awaitR2)
    {
      hide DealersIn, OtIn, Reshared, ReshareConfig.Valid, Own.Valid, DealersEcho;
      var err, otMsgs, receivers, responses := AnswerOt(c, own, msgs);
      if err.Some? {
        Deliver(Err(err.value));
        return;
      }
      var st' := st.(receivers := receivers, awaitR3 := true);
      ghost var u' := u.(otMsgs := otMsgs);
      AfterOt(c, own, st, u, otMsgs, receivers, st', u');
      Move(st', u');
    }

    method Finalize(msgs: seq<Option<R2>>)
      requires Inv() && NoKey() && st.awaitR3 && |msgs| == c.base.Count() - 1
      modifies this
      ensures Inv() && |deliveries| == 1 && st == old(st) && old(deliveries) <= deliveries
      ensures deliveries[0].Ok? ==> Reshared(c, own, st.ownVs, u, deliveries[0].value)
    {
      hide Reshared, ReshareConfig.Valid, Own.Valid, AllDealersOk, ReportsOk, OtMessagesOk, MyReceiver;
      if !Decoded(msgs) {
        Deliver(Err(Garbled));
        return;
      }
      var r3s := Payloads(msgs);
      var res := BuildKey(c, own, st, r3s, u);
      Move(st, u.(responses := r3s));
      Deliver(res);
    }
  }

  datatype Event =
    | BcastsArrive(bcasts: seq<Option<R1Bcast>>)
    | UnicastsArrive(unicasts: seq<Option<bytes>>)
    | EchoesArrive(echoes: seq<Option<EchoMsg>>)
    | OtArrive(ot: seq<Option<R1Unicast>>)
    | ResponsesArrive(responses: seq<Option<R2>>)

  /** Every run: at most one result, and a key only after every dealer's share and every echo verified and the
      commitments reconstructed the key being reshared; once all five sets of messages have arrived exactly one result
      has been delivered. */
  method Run(party: Shared, events: seq<Event>) returns (all: bool)
    requires party.Inv() && party.deliveries == [] && !party.st.haveBcasts && !party.st.haveUnicasts
    requires !party.st.awaitR2 && !party.st.awaitR3
    modifies party
    ensures party.Inv() && |party.deliveries| <= 1
    ensures party.deliveries != [] && party.deliveries[0].Ok? ==>
      Reshared(party.c, party.own, party.st.ownVs, party.u, party.deliveries[0].value)
    ensures party.deliveries != [] && party.deliveries[0].Ok? ==> party.deliveries[0].value.ecdsaPub == party.c.oldPub
    ensures all ==> |party.deliveries| == 1
  {
    hide StateOk, Reshared, ReshareConfig.Valid, Own.Valid;
    var gotB, gotU, gotE, gotO, gotR := false, false, false, false, false;
    for i := 0 to |events|
      invariant party.Inv() && (if gotR then party.st.awaitR3 else party.NoKey())
      invariant (party.st.haveBcasts ==> gotB) && (party.st.haveUnicasts ==> gotU)
      invariant (party.st.awaitR2 ==> gotE) && (party.st.awaitR3 ==> gotO)
      invariant gotB ==> party.st.haveBcasts || party.deliveries != []
      invariant gotU ==> party.st.haveUnicasts || party.deliveries != []
      invariant gotE ==> party.st.awaitR2 || party.deliveries != []
      invariant gotO ==> party.st.awaitR3 || party.deliveries != []
      invariant gotR ==> party.deliveries != [] && gotB && gotU && gotE && gotO
    {
      StateFacts(party.c, party.own, party.st, party.u);
      match events[i] {
        case BcastsArrive(m) =>
          if !gotB && |m| == |party.c.dealers| {
            gotB := true;
            party.OnR1Bcasts(m);
          }
        case UnicastsArrive(m) =>
          if !gotU && |m| == |party.c.dealers| {
            gotU := true;
            party.OnR1Unicasts(m);
          }
        case EchoesArrive(m) =>
          if party.st.awaitEcho && !gotE && |m| == party.c.base.Count() - 1 {
            gotE := true;
            party.OnEchoes(m);
          }
        case OtArrive(m) =>
          if party.st.awaitR2 && !gotO && |m| == party.c.base.Count() - 1 {
            gotO := true;
            party.OnOtMessages(m);
          }
        case ResponsesArrive(m) =>
          if party.st.awaitR3 && !gotR && |m| == party.c.base.Count() - 1 {
            gotR := true;
            party.Finalize(m);
          }
      }
      StateFacts(party.c, party.own, party.st, party.u);
    }
    all := gotB && gotU && gotE && gotO && gotR;
    if party.deliveries != [] && party.deliveries[0].Ok? {
      ResharedMeans(party.c, party.own, party.st.ownVs, party.u, party.deliveries[0].value);
    }
  }

  lemma StateFacts(c: ReshareConfig, own: Own, st: State, u: ReshareTranscript)
    requires StateOk(c, own, st, u)
    ensures st.awaitR3 ==> st.awaitR2
    ensures st.awaitR2 ==> st.awaitEcho && u.bcasts == st.r1Bcasts && |st.r1Bcasts| == |c.dealers|
    ensures st.awaitEcho ==>
      st.haveBcasts && st.haveUnicasts && |st.r1Bcasts| == |c.dealers| && st.sentEcho == Some(DealersEcho(c,
        st.r1Bcasts, |c.dealers|))
  {
    hide OtIn, ReportsOk, AllDealersOk, ReceivedVss, ShareTotal, DealersEcho;
  }

  // ---------- two runs ----------

  /** What one new member of a run ended with. */
  ghost predicate Ended(p: Shared, a: Member)
    reads p
  {
    p.Inv() && p.deliveries == [Ok(a.key)] && a.c == p.c && a.own == p.own && a.ownVs == p.st.ownVs && a.tr == p.u
  }

  /** The echo q recorded as sent is the one p used. */
  ghost predicate EchoTaken(p: Shared, q: Shared)
    reads p, q
  {
    var slot := Slot(p.c.base.me, q.c.base.me);
    slot < |p.u.echoes| && q.st.sentEcho == Some(p.u.echoes[slot])
  }

  /** Any two runs of one reshare that deliver keys and took each other's echoes agree on everything public. */
  lemma RunsAgree(p: Shared, q: Shared, a: Member, b: Member)
    requires Ended(p, a) && Ended(q, b) && SameReshare(a, b) && CollisionFree(a.c.base.digest)
    requires EchoTaken(p, q) && EchoTaken(q, p) && SelfDelivered(a) && SelfDelivered(b)
    ensures a.key.ecdsaPub == b.key.ecdsaPub == p.c.oldPub && a.key.bigXj == b.key.bigXj
    ensures a.key.chainCode == b.key.chainCode
  {
    hide *;
    EndedEcho(p, a);
    EndedEcho(q, b);
    Arrived(p, q, a, b);
    Arrived(q, p, b, a);
    MembersAgree(a, b);
  }

  lemma EndedEcho(p: Shared, a: Member)
    requires Ended(p, a)
    ensures a.Done() && a.c == p.c && |a.tr.bcasts| == |a.c.dealers|
    ensures p.st.sentEcho == Some(DealersEcho(a.c, a.tr.bcasts, |a.c.dealers|))
  {
    hide StateOk, Reshared, DealersEcho, ReshareConfig.Valid, Own.Valid;
    StateFacts(p.c, p.own, p.st, p.u);
  }

  lemma Arrived(p: Shared, q: Shared, a: Member, b: Member)
    requires Ended(p, a) && Ended(q, b) && SameReshare(a, b) && EchoTaken(q, p) && |a.tr.bcasts| == |a.c.dealers|
    requires p.st.sentEcho == Some(DealersEcho(a.c, a.tr.bcasts, |a.c.dealers|))
    ensures ReportDelivered(a, b) && SameReshare(b, a) && b.c.base.digest == a.c.base.digest
  {
    hide Shared.Inv, DealersEcho;
  }
}
