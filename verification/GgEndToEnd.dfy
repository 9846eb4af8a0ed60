/** A whole GG18 signing run (src/ecdsatss/signing.rs), from the parties' keys to the delivered signature: round 1
    starts every party, rounds 2 and 3 convert every ordered pair of nonces and shares, and rounds 4 to 9 assemble. */
module GgEndToEnd {
  import opened NumberTheory
  import opened Polynomial
  import opened Results
  import opened Bn
  import opened Paillier
  import opened Secp
  import opened Committee
  import opened Sums
  import opened Mta
  import opened KeyConsistency
  import opened GgSigning
  import opened GgCommittee
  import opened GgRun

  /** What the first two rounds start from: keys, round-1 states, draws and messages; the states in which the round-1
      messages are filed; round 2's draws; and every party's Paillier primes. */
  datatype Opening = Opening(s1: seq<State>, keys: seq<SaveKey>, draws: seq<nat -> InitDraw>, sent: seq<seq<R1Proof>>,
    filed: seq<State>, bob: seq<nat -> (BobDraw, BobDraw)>, primes: seq<(nat, nat)>)

  // ---------- round 2 ----------

  /** Party e's round 2 on the messages filed in st. */
  function AnswersOf(e: Env, st: State, bob: nat -> (BobDraw, BobDraw)): Round2Out {
    if e.Valid() && |st.r1Proofs| < e.count then AnswerAll(e, st, st.r1Proofs, bob, 0, [])
    else Round2Out(st, [], Some(Undecodable))
  }

  /** Round 2 changes nothing but the stored conversion shares, whatever the peers sent. */
  lemma {:induction false} AnswersKeep(e: Env, st: State, proofs: seq<R1Proof>, draws: nat -> (BobDraw, BobDraw),
    k: nat, sent: seq<R2Msg>)
    requires e.Valid() && k <= |proofs| < e.count
    ensures var out := AnswerAll(e, st, proofs, draws, k, sent);
      out.st == st.(betas := out.st.betas, vs := out.st.vs) && |out.st.betas| == |st.betas| && |out.st.vs| == |st.vs|
    decreases |proofs| - k
  {
    hide BobFor;
    if k < |proofs| {
      var b := BobFor(e, st, Other(e.me, k), proofs[k], draws(Other(e.me, k)));
      if b.Ok? { AnswersKeep(e, Answered(st, Other(e.me, k), b.value), proofs, draws, k + 1,
        sent + [Answer(b.value)]); }
    }
  }

  /** An answer depends on the party's gamma, w and public weights only. */
  lemma BobForSame(e: Env, st: State, st': State, j: nat, m: R1Proof, draws: (BobDraw, BobDraw))
    requires e.Valid() && j < e.count && e.count > 1
    requires st.gamma == st'.gamma && st.w == st'.w && st.bigWs == st'.bigWs
    ensures BobFor(e, st, j, m, draws) == BobFor(e, st', j, m, draws)
  {
    hide BobMid;
  }

  /** What a completed round 2 leaves for the peer in position i: its two shares are held and its answer is sent. */
  ghost predicate HeldFor(e: Env, st: State, proofs: seq<R1Proof>, draws: nat -> (BobDraw, BobDraw), out: Round2Out,
    i: nat, at: nat)
    requires e.Valid()
  {
    var j := Other(e.me, i);
    && i < |proofs| && j < e.count && e.count > 1 && at < |out.sent|
    && var b := BobFor(e, st, j, proofs[i], draws(j));
       b.Ok? && Held(out.st.betas, j) == b.value.0.beta && Held(out.st.vs,
         j) == b.value.1.beta && out.sent[at] == Answer(b.value)
  }

  /** Later answers leave earlier shares alone. */
  lemma {:induction false} EarlierStays(e: Env, st: State, proofs: seq<R1Proof>, draws: nat -> (BobDraw, BobDraw),
    k: nat, sent: seq<R2Msg>, i: nat)
    requires e.Valid() && k <= |proofs| < e.count && i < k
    ensures var out := AnswerAll(e, st, proofs, draws, k, sent);
      && Held(out.st.betas, Other(e.me, i)) == Held(st.betas, Other(e.me, i)) && Held(out.st.vs,
        Other(e.me, i)) == Held(st.vs, Other(e.me, i))
      && sent <= out.sent
    decreases |proofs| - k
  {
    hide BobFor, Answer;
    if k < |proofs| {
      var b := BobFor(e, st, Other(e.me, k), proofs[k], draws(Other(e.me, k)));
      if b.Ok? { EarlierStays(e, Answered(st, Other(e.me, k), b.value), proofs, draws, k + 1, sent + [Answer(b.value)],
        i); }
    }
  }

  lemma {:induction false} SharesHeld(e: Env, st: State, proofs: seq<R1Proof>, draws: nat -> (BobDraw, BobDraw), k: nat,
    sent: seq<R2Msg>, i: nat)
    requires e.Valid() && k <= i < |proofs| < e.count && |st.betas| == |st.vs| == e.count && |sent| == k
    requires AnswerAll(e, st, proofs, draws, k, sent).err == None
    ensures HeldFor(e, st, proofs, draws, AnswerAll(e, st, proofs, draws, k, sent), i, i)
    decreases |proofs| - k
  {
    hide BobFor, Answer;
    var j := Other(e.me, k);
    var b := BobFor(e, st, j, proofs[k], draws(j)).value;
    var next := Answered(st, j, b);
    if i == k {
      EarlierStays(e, next, proofs, draws, k + 1, sent + [Answer(b)], k);
    } else {
      SharesHeld(e, next, proofs, draws, k + 1, sent + [Answer(b)], i);
      BobForSame(e, st, next, Other(e.me, i), proofs[i], draws(Other(e.me, i)));
    }
  }

  // ---------- round 3 ----------

  /** A completed round 3 finished the conversion with every peer. */
  lemma {:induction false} AllFinished(e: Env, st: State, msgs: seq<Option<R2Msg>>, k: nat, theta: Scalar,
    sigma: Scalar, i: nat)
    requires e.Valid() && k <= i < |msgs| < e.count && Collect(e, st, msgs, k, theta, sigma).Ok?
    ensures Other(e.me, i) < e.count && e.count > 1 && AliceFor(e, st, Other(e.me, i), msgs[i]).Ok?
    decreases |msgs| - k
  {
    hide AliceFor, Env.Valid;
    if k < i {
      var j, n := Other(e.me, k), e.g.q;
      ModulusPositive(e);
      var a := AliceFor(e, st, j, msgs[k]);
      AllFinished(e, st, msgs, k + 1, FAdd(n, theta, FAdd(n, a.value.0, Held(st.betas, j))),
        FAdd(n, sigma, FAdd(n, a.value.1, Held(st.vs, j))), i);
    }
  }

  lemma ModulusPositive(e: Env)
    requires e.Valid()
    ensures e.g.q > 0
  {
  }

  // ---------- the hypotheses ----------

  /** Rounds 1 and 2 ran and their messages arrived as sent. */
  ghost predicate FirstRounds(es: seq<Env>, o: Opening, s2: seq<State>, m3: seq<seq<Option<R2Msg>>>) {
    && AllStarted(es, o.s1, o.keys, o.draws, o.sent)
    && |o.filed| == |o.bob| == |o.primes| == |s2| == |m3| == |es|
    && (forall j :: 0 <= j < |es| ==> FiledAs(es, o, j))
    && (forall j :: 0 <= j < |es| ==> var out := AnswersOf(es[j], o.filed[j],
      o.bob[j]); out.err == None && s2[j] == out.st)
    && (forall i, j :: 0 <= i < |es| && 0 <= j < |es| && i != j ==> AnswerArrived(es, o, m3, i, j))
  }

  /** Party j holds the peers' round-1 messages, in order. */
  ghost predicate FiledAs(es: seq<Env>, o: Opening, j: nat)
    requires j < |es| && |o.filed| == |o.s1| == |o.sent| == |es|
  {
    && o.filed[j] == o.s1[j].(r1Proofs := o.filed[j].r1Proofs, r1Commitments := o.filed[j].r1Commitments,
      r1Join := o.filed[j].r1Join)
    && |o.filed[j].r1Proofs| == |es| - 1
    && forall i :: 0 <= i < |es| && i != j ==>
      Slot(i, j) < |o.sent[i]| && o.filed[j].r1Proofs[Slot(j, i)] == o.sent[i][Slot(i, j)]
  }

  function MessageSent(out: Round2Out, k: nat): Option<R2Msg> { if k < |out.sent| then Some(out.sent[k]) else None }

  /** Party i received what party j answered it. */
  ghost predicate AnswerArrived(es: seq<Env>, o: Opening, m3: seq<seq<Option<R2Msg>>>, i: nat, j: nat)
    requires i < |es| == |m3| && j < |es| && |o.filed| == |o.bob| == |es|
  {
    |m3[i]| == |es| - 1 && MessageAt(m3[i], Slot(i, j)) == MessageSent(AnswersOf(es[j], o.filed[j], o.bob[j]),
      Slot(j, i))
  }

  /** Honest parameters and draws for the conversions in which i is first and j second. */
  ghost predicate HonestDraws(ei: Env, ej: Env, p: nat, q: nat, draw: InitDraw, d: BobDraw)
    requires ei.me < |ei.rings| && ej.me < |ei.rings|
  {
    var n, ringA, ringB := p * q, ei.rings[ei.me], ei.rings[ej.me];
    && d.betaprm < Fifth(ei.g.q)
    && ringA.Units() && ringB.Units() && Coprime(draw.ra, n) && Coprime(d.rb, n)
    && draw.d.Valid(ei.g.q, n, ringB.nt) && d.d.Valid(ei.g.q, n, ringA.nt)
  }

  ghost predicate PrimePair(p: nat, q: nat) { IsPrime(p) && IsPrime(q) && p != q && Coprime(p * q, (p - 1) * (q - 1)) }

  /** Every party has an honest Paillier key, known to the others, and nonces and a share below the order. */
  ghost predicate HonestParty(es: seq<Env>, o: Opening, i: nat)
    requires i < |es| == |o.primes| == |o.s1| == |o.keys|
  {
    && PrimePair(o.primes[i].0, o.primes[i].1) && es[i].sk == KeyFrom(o.primes[i].0, o.primes[i].1)
    && i < |es[0].moduli| && es[0].moduli[i] == es[i].sk.n
    && o.s1[i].k < es[0].g.q && o.s1[i].gamma < es[0].g.q && 0 <= o.keys[i].xi < es[0].g.q
  }

  /** The bit length of the curve order. */
  const ORDER_BITS: nat := 256

  ghost predicate HonestCommittee(es: seq<Env>, o: Opening) {
    && (es != [] ==> BitLen(es[0].g.q) <= ORDER_BITS)
    && |o.primes| == |o.s1| == |o.keys| == |o.draws| == |o.bob| == |es|
    && (forall i :: 0 <= i < |es| ==> HonestParty(es, o, i))
    && (forall i, j :: 0 <= i < |es| && 0 <= j < |es| && i != j ==> HonestTowards(es, o, i, j))
  }

  ghost predicate HonestTowards(es: seq<Env>, o: Opening, i: nat, j: nat)
    requires i < |es| && j < |es| && |o.primes| == |o.draws| == |o.bob| == |es|
  {
    && es[i].me < |es[i].rings| && es[j].me < |es[i].rings|
    && HonestDraws(es[i], es[j], o.primes[i].0, o.primes[i].1, o.draws[i](j), o.bob[j](i).0)
    && HonestDraws(es[i], es[j], o.primes[i].0, o.primes[i].1, o.draws[i](j), o.bob[j](i).1)
  }

  // ---------- from the hypotheses to the shared products ----------

  /** The sizes that a conversion needs follow from primality and the bound on N. */
  lemma PairHonest(ei: Env, ej: Env, b: nat, xPoint: Option<Point>, k: nat, p: nat, q: nat, draw: InitDraw, d: BobDraw)
    requires ei.Valid() && ej.Valid() && ei.me < |ei.rings| && ej.me < |ei.rings| && HonestDraws(ei, ej, p, q, draw, d)
    requires PrimePair(p, q) && ei.sk == KeyFrom(p, q) && k < ei.g.q && b < ei.g.q
    requires p * q > Fifth(ei.g.q) + ei.g.q * ei.g.q
    requires xPoint.Some? ==> xPoint.value == MulBase(ei.g.q, b)
    ensures HonestPair(ei, ej, b, xPoint, k, p, q, draw, d)
  {
    GoodPrimesFrom(p, q);
    FifthLarge(ei.g.q);
    hide GoodPrimes, Ring.Units, RangeDraws.Valid, BobDraws.Valid, KeyFrom, Coprime, Fifth, MulBase;
  }

  /** The size check on peer moduli rules out every wraparound. */
  lemma ModulusLarge(es: seq<Env>, o: Opening, i: nat)
    requires AllStarted(es, o.s1, o.keys, o.draws, o.sent) && HonestCommittee(es, o) && i < |es| && |es| > 1
    ensures |o.primes| == |es| && var (p, q) := o.primes[i]; p * q > Fifth(es[0].g.q) + es[0].g.q * es[0].g.q
  {
    ModulusChecked(es, o, i);
    hide *;
    SizeSuffices(es[0].g.q, o.primes[i].0 * o.primes[i].1, ORDER_BITS);
  }

  lemma ModulusChecked(es: seq<Env>, o: Opening, i: nat)
    requires AllStarted(es, o.s1, o.keys, o.draws, o.sent) && HonestCommittee(es, o) && i < |es| && |es| > 1
    ensures |o.primes| == |es| && o.primes[i].0 * o.primes[i].1 >= 0 && BitLen(es[0].g.q) <= ORDER_BITS
    ensures BitLen(o.primes[i].0 * o.primes[i].1) >= MIN_PEER_MODULUS_BITS
  {
    hide Started, Consistent, Points, HonestTowards, PrimePair, HasSmallFactor, BitLen, SameSession;
    assert HonestParty(es, o, i);
    assert es[0].Valid() && |o.keys[0].ks| == |es| by { StartedOf(es, o.s1, o.keys, o.draws, o.sent, 0); }
    assert PeerModulusOk(o.keys[0].paillierJ[i]);
  }

  lemma FifthLarge(q: nat)
    requires q > 0
    ensures q <= q * q && Fifth(q) >= 0
  {
  }

  lemma FirstParts(es: seq<Env>, o: Opening, s2: seq<State>, m3: seq<seq<Option<R2Msg>>>, j: nat)
    requires FirstRounds(es, o, s2, m3) && j < |es|
    ensures AllStarted(es, o.s1, o.keys, o.draws, o.sent)
    ensures |o.s1| == |o.keys| == |o.draws| == |o.sent| == |o.filed| == |o.bob| == |o.primes| == |s2| == |m3| == |es|
    ensures es[j].Valid() && es[j].me == j && es[j].count == |es| && es[j].g == es[0].g
    ensures FiledAs(es, o, j) && |o.filed[j].r1Proofs| == |es| - 1
    ensures var out := AnswerAll(es[j], o.filed[j], o.filed[j].r1Proofs, o.bob[j], 0, []);
      out.err == None && s2[j] == out.st
    ensures AnswersOf(es[j], o.filed[j], o.bob[j]) == AnswerAll(es[j], o.filed[j], o.filed[j].r1Proofs, o.bob[j], 0, [])
  {
    hide AnswerAll, AnswerArrived, Started;
    MemberOf(es, j);
  }

  lemma ArrivedParts(es: seq<Env>, o: Opening, s2: seq<State>, m3: seq<seq<Option<R2Msg>>>, i: nat, j: nat)
    requires FirstRounds(es, o, s2, m3) && i < |es| && j < |es| && i != j
    ensures |m3| == |o.filed| == |o.bob| == |es| && AnswerArrived(es, o, m3, i, j)
  {
    hide AnswersOf, AllStarted, FiledAs, AnswerArrived;
  }

  lemma StartedParts(es: seq<Env>, o: Opening, i: nat)
    requires AllStarted(es, o.s1, o.keys, o.draws, o.sent) && i < |es|
    ensures es[i].Valid() && es[0].g.q > 0 && |o.s1| == |o.keys| == |o.draws| == |o.sent| == |es|
    ensures Started(es[i], o.s1[i], o.keys[i], o.s1[i].k, o.s1[i].gamma, o.draws[i], o.sent[i])
    ensures i < |Points(o.keys[0])| && MulBase(es[0].g.q, o.keys[i].xi) == Points(o.keys[0])[i]
  {
    hide Started, SameSession, Consistent, Points;
  }

  lemma StartedShape(e: Env, st: State, key: SaveKey, k: nat, gamma: nat, draws: nat -> InitDraw, sent: seq<R1Proof>)
    requires e.Valid() && Started(e, st, key, k, gamma, draws, sent)
    ensures |st.betas| == |st.vs| == e.count && |sent| == e.count - 1 && st.pointGamma == MulBase(e.g.q, st.gamma)
    ensures 0 <= key.xi < e.g.q ==> st.w < e.g.q
    ensures forall i :: 0 <= i < |sent| ==> SentTo(e, st, i, draws, sent[i])
  {
    hide SentTo, Weight, Cong;
  }

  /** Rounds 1 and 2 leave nonces, shares, public weights and ciphertexts as round 1 made them. */
  lemma TwoIsOne(es: seq<Env>, o: Opening, s2: seq<State>, m3: seq<seq<Option<R2Msg>>>, j: nat)
    requires FirstRounds(es, o, s2, m3) && j < |es|
    ensures |s2| == |o.s1| == |o.filed| == |es| && s2[j].k == o.s1[j].k && s2[j].gamma == o.s1[j].gamma
    ensures s2[j].w == o.s1[j].w
    ensures s2[j].bigWs == o.s1[j].bigWs && s2[j].cis == o.s1[j].cis && s2[j].pointGamma == o.s1[j].pointGamma
    ensures o.filed[j].gamma == o.s1[j].gamma && o.filed[j].w == o.s1[j].w && o.filed[j].bigWs == o.s1[j].bigWs
    ensures |o.filed[j].betas| == |o.s1[j].betas| && |o.filed[j].vs| == |o.s1[j].vs|
  {
    FirstParts(es, o, s2, m3, j);
    hide FirstRounds, AllStarted, AnswerAll;
    AnswersKeep(es[j], o.filed[j], o.filed[j].r1Proofs, o.bob[j], 0, []);
  }

  /** The ciphertext and proof party i made for party j are what party j answered. */
  ghost predicate Offered(es: seq<Env>, o: Opening, i: nat, j: nat, ca: nat, pf: RangeProof)
    requires i < |es| == |o.s1| == |o.draws| == |o.filed| && j < |es|
  {
    && es[i].Valid() && j < es[i].count && es[i].count > 1
    && InitFor(es[i], o.s1[i].k, j, o.draws[i](j)) == Ok((ca, pf)) && Held(o.s1[i].cis, j) == ca
    && Slot(j, i) < |o.filed[j].r1Proofs| && o.filed[j].r1Proofs[Slot(j, i)] == R1Proof(ca, Some(pf))
  }

  lemma OfferMade(es: seq<Env>, o: Opening, s2: seq<State>, m3: seq<seq<Option<R2Msg>>>, i: nat,
    j: nat) returns (ca: nat, pf: RangeProof)
    requires FirstRounds(es, o, s2, m3) && i < |es| && j < |es| && i != j
    ensures |o.s1| == |o.draws| == |o.filed| == |es| && Offered(es, o, i, j, ca, pf)
  {
    FirstParts(es, o, s2, m3, i);
    FirstParts(es, o, s2, m3, j);
    StartedParts(es, o, i);
    hide FirstRounds, AllStarted, Started, AnswerAll, InitFor, SameSession;
    StartedShape(es[i], o.s1[i], o.keys[i], o.s1[i].k, o.s1[i].gamma, o.draws[i], o.sent[i]);
    SlotBound(i, j, |es|);
    assert SentTo(es[i], o.s1[i], Slot(i, j), o.draws[i], o.sent[i][Slot(i, j)]);
    var made := InitFor(es[i], o.s1[i].k, j, o.draws[i](j)).value;
    ca, pf := made.0, made.1;
  }

  lemma SlotBound(i: nat, j: nat, count: nat)
    requires i < count && j < count && i != j
    ensures Slot(i, j) < count - 1 && Other(i, Slot(i, j)) == j && Slot(j, i) < count - 1 && Other(j, Slot(j, i)) == i
  {
  }

  /** Party j's answer to party i: its shares are held, its message arrived. */
  ghost predicate Replied(es: seq<Env>, o: Opening, s2: seq<State>, m3: seq<seq<Option<R2Msg>>>, i: nat, j: nat,
    ca: nat, pf: RangeProof,
    answer: (BobMessage, BobMessage))
    requires i < |es| == |s2| == |m3| == |o.bob| && j < |es|
  {
    && es[j].Valid() && i < es[j].count && es[j].count > 1
    && BobFor(es[j], s2[j], i, R1Proof(ca, Some(pf)), o.bob[j](i)) == Ok(answer)
    && Held(s2[j].betas, i) == answer.0.beta && Held(s2[j].vs, i) == answer.1.beta
    && MessageAt(m3[i], Slot(i, j)) == Some(Answer(answer))
  }

  lemma ReplyMade(es: seq<Env>, o: Opening, s2: seq<State>, m3: seq<seq<Option<R2Msg>>>, i: nat, j: nat, ca: nat,
    pf: RangeProof)
    returns (answer: (BobMessage, BobMessage))
    requires FirstRounds(es, o, s2, m3) && i < |es| && j < |es| && i != j
    requires |o.s1| == |o.draws| == |o.filed| == |es| && Offered(es, o, i, j, ca, pf)
    ensures |s2| == |m3| == |o.bob| == |es| && Replied(es, o, s2, m3, i, j, ca, pf, answer)
  {
    FirstParts(es, o, s2, m3, j);
    ArrivedParts(es, o, s2, m3, i, j);
    TwoIsOne(es, o, s2, m3, j);
    StartedParts(es, o, j);
    hide FirstRounds, AllStarted, Started, AnswerAll, InitFor, SameSession, BobFor, Answer, AnswersOf;
    StartedShape(es[j], o.s1[j], o.keys[j], o.s1[j].k, o.s1[j].gamma, o.draws[j], o.sent[j]);
    SlotBound(i, j, |es|);
    var k := Slot(j, i);
    SharesHeld(es[j], o.filed[j], o.filed[j].r1Proofs, o.bob[j], 0, [], k);
    answer := BobFor(es[j], o.filed[j], i, R1Proof(ca, Some(pf)), o.bob[j](i)).value;
    BobForSame(es[j], o.filed[j], s2[j], i, R1Proof(ca, Some(pf)), o.bob[j](i));
  }

  lemma WeightsKnown(es: seq<Env>, o: Opening, s2: seq<State>, m3: seq<seq<Option<R2Msg>>>, i: nat, j: nat)
    requires FirstRounds(es, o, s2, m3) && i < |es| && j < |es|
    ensures |s2| == |es| && es[0].g.q > 0
    ensures PointAt(s2[i].bigWs, j) == PointAt(s2[j].bigWs, j) == MulBase(es[0].g.q, s2[j].w)
  {
    FirstParts(es, o, s2, m3, j);
    TwoIsOne(es, o, s2, m3, i);
    TwoIsOne(es, o, s2, m3, j);
    StartedParts(es, o, j);
    hide FirstRounds, AllStarted, Started, Points, SameSession;
    PublicWeights(es, o.s1, o.keys, o.draws, o.sent, i, j);
    PublicWeights(es, o.s1, o.keys, o.draws, o.sent, j, j);
  }

  lemma HonestParts(es: seq<Env>, o: Opening, i: nat, j: nat)
    requires HonestCommittee(es, o) && i < |es| && j < |es| && i != j
    ensures |o.primes| == |o.s1| == |o.keys| == |o.draws| == |o.bob| == |es|
    ensures HonestParty(es, o, i) && HonestParty(es, o, j) && HonestTowards(es, o, i, j)
  {
    hide HonestParty, HonestTowards;
  }

  /** The conversion pair (i, j) is one that PairProducts speaks about. */
  lemma PairReady(es: seq<Env>, o: Opening, s2: seq<State>, m3: seq<seq<Option<R2Msg>>>, i: nat, j: nat, ca: nat,
    pf: RangeProof,
    answer: (BobMessage, BobMessage))
    requires FirstRounds(es, o, s2, m3) && HonestCommittee(es, o) && i < |es| && j < |es| && i != j
    requires |o.s1| == |o.draws| == |o.filed| == |es| && Offered(es, o, i, j, ca, pf)
    requires |s2| == |m3| == |o.bob| == |es| && Replied(es, o, s2, m3, i, j, ca, pf, answer)
    ensures PairRan(es[i], es[j], s2[i], s2[j], o.draws[i](j), o.bob[j](i), answer)
  {
    SessionParts(es, o, s2, m3, i, j);
    HonestParts(es, o, i, j);
    TwoIsOne(es, o, s2, m3, i);
    WeightsKnown(es, o, s2, m3, i, j);
    hide FirstRounds, HonestCommittee, HonestTowards, BobFor, InitFor, AliceFor, Env.Valid, PrimePair, KeyFrom, MulBase;
  }

  lemma SessionParts(es: seq<Env>, o: Opening, s2: seq<State>, m3: seq<seq<Option<R2Msg>>>, i: nat, j: nat)
    requires FirstRounds(es, o, s2, m3) && i < |es| && j < |es| && i != j
    ensures es[i].Valid() && es[j].Valid() && es[i].me == i && es[j].me == j && es[i].count == es[j].count == |es| > 1
    ensures es[i].g == es[j].g == es[0].g && es[i].rings == es[j].rings && es[i].context == es[j].context
    ensures es[i].moduli == es[j].moduli == es[0].moduli && es[0].g.q > 0 && |es[i].rings| == |es|
  {
    FirstParts(es, o, s2, m3, i);
    hide FirstRounds;
    MemberOf(es, i);
    MemberOf(es, j);
  }

  /** Both conversions of an ordered pair meet the conditions of a correct conversion. */
  lemma BothHonest(es: seq<Env>, o: Opening, s2: seq<State>, m3: seq<seq<Option<R2Msg>>>, i: nat, j: nat)
    requires FirstRounds(es, o, s2, m3) && HonestCommittee(es, o) && i < |es| && j < |es| && i != j
    ensures es[i].Valid() && es[j].Valid() && es[i].me < |es[i].rings| && es[j].me < |es[i].rings|
    ensures |s2| == |o.primes| == |o.draws| == |o.bob| == |es|
    ensures var (p, q) := o.primes[i];
      && HonestPair(es[i], es[j], s2[j].gamma, None, s2[i].k, p, q, o.draws[i](j), o.bob[j](i).0)
      && HonestPair(es[i], es[j], s2[j].w, Some(PointAt(s2[j].bigWs, j)), s2[i].k, p, q, o.draws[i](j), o.bob[j](i).1)
  {
    SessionParts(es, o, s2, m3, i, j);
    HonestParts(es, o, i, j);
    FirstParts(es, o, s2, m3, j);
    TwoIsOne(es, o, s2, m3, i);
    TwoIsOne(es, o, s2, m3, j);
    WeightsKnown(es, o, s2, m3, j, j);
    StartedParts(es, o, j);
    ModulusLarge(es, o, i);
    hide FirstRounds, HonestCommittee, AllStarted, Started, Env.Valid, PrimePair, KeyFrom, MulBase, HonestDraws,
      HonestPair, AnswerAll;
    StartedShape(es[j], o.s1[j], o.keys[j], o.s1[j].k, o.s1[j].gamma, o.draws[j], o.sent[j]);
    var (p, q) := o.primes[i];
    PairHonest(es[i], es[j], s2[j].gamma, None, s2[i].k, p, q, o.draws[i](j), o.bob[j](i).0);
    PairHonest(es[i], es[j], s2[j].w, Some(PointAt(s2[j].bigWs, j)), s2[i].k, p, q, o.draws[i](j), o.bob[j](i).1);
  }

  /** Every ordered pair of a completed run shares both products. */
  lemma PairIsShared(es: seq<Env>, o: Opening, s2: seq<State>, s3: seq<State>, m3: seq<seq<Option<R2Msg>>>, i: nat,
    j: nat)
    requires FirstRounds(es, o, s2, m3) && HonestCommittee(es, o) && i < |es| && j < |es| && i != j
    requires |s3| == |es| && es[i].Valid() && |m3| == |es| && |m3[i]| == |es| - 1 && es[i].count == |es|
    requires |s2| == |es| && AfterRound3(es[i], s2[i], m3[i]) == Ok(s3[i])
    ensures es[0].g.q > 0 && PairShared(es[0].g.q, es, s2, m3, i, j)
  {
    hide *;
    SessionParts(es, o, s2, m3, i, j);
    var ca, pf := OfferMade(es, o, s2, m3, i, j);
    FirstParts(es, o, s2, m3, j);
    var answer := ReplyMade(es, o, s2, m3, i, j, ca, pf);
    PairReady(es, o, s2, m3, i, j, ca, pf, answer);
    BothHonest(es, o, s2, m3, i, j);
    FinishedPair(es, s2, s3, m3, i, j);
    ReplyAt(es, o, s2, m3, i, j, ca, pf, answer);
    PairProducts(es[i], es[j], s2[i], s2[j], o.draws[i](j), o.bob[j](i), answer, o.primes[i].0, o.primes[i].1);
    PairSharedIntro(es[0].g.q, es, s2, m3, i, j);
  }

  lemma ReplyAt(es: seq<Env>, o: Opening, s2: seq<State>, m3: seq<seq<Option<R2Msg>>>, i: nat, j: nat, ca: nat,
    pf: RangeProof,
    answer: (BobMessage, BobMessage))
    requires i < |es| == |s2| == |m3| == |o.bob| && j < |es| && Replied(es, o, s2, m3, i, j, ca, pf, answer)
    ensures MessageAt(m3[i], Slot(i, j)) == Some(Answer(answer))
  {
    hide BobFor, Answer;
  }

  lemma FinishedPair(es: seq<Env>, s2: seq<State>, s3: seq<State>, m3: seq<seq<Option<R2Msg>>>, i: nat, j: nat)
    requires i < |es| == |s2| == |s3| == |m3| && j < |es| && i != j && es[i].Valid() && es[i].count == |es|
    requires es[i].me == i
    requires |m3[i]| == |es| - 1 && AfterRound3(es[i], s2[i], m3[i]) == Ok(s3[i])
    ensures j < es[i].count && es[i].count > 1 && AliceFor(es[i], s2[i], j, MessageAt(m3[i], Slot(i, j))).Ok?
  {
    hide AliceFor, Collect, Env.Valid;
    SlotBound(i, j, |es|);
    ModulusPositive(es[i]);
    var q, st := es[i].g.q, s2[i];
    AllFinished(es[i], st, m3[i], 0, FMul(q, st.k, st.gamma), FMul(q, st.k, st.w), Slot(i, j));
  }

  lemma PairSharedIntro(n: int, es: seq<Env>, s2: seq<State>, m3: seq<seq<Option<R2Msg>>>, i: nat, j: nat)
    requires n > 0 && i < |es| == |s2| == |m3| && j < |es| && es[i].Valid() && j < es[i].count && es[i].count > 1
    requires AliceFor(es[i], s2[i], j, MessageAt(m3[i], Slot(i, j))).Ok?
    requires var a := AliceFor(es[i], s2[i], j, MessageAt(m3[i], Slot(i, j))).value;
      Cong(a.0 + Held(s2[j].betas, i), s2[i].k * s2[j].gamma, n) && Cong(a.1 + Held(s2[j].vs, i), s2[i].k * s2[j].w, n)
    ensures PairShared(n, es, s2, m3, i, j)
  {
    hide AliceFor, Cong, Env.Valid;
  }

  /** Round 3 ran on the answers. */
  ghost predicate ThirdRound(es: seq<Env>, s2: seq<State>, s3: seq<State>, m3: seq<seq<Option<R2Msg>>>) {
    && |s2| == |s3| == |m3| == |es|
    && forall i :: 0 <= i < |es| ==>
      es[i].Valid() && |m3[i]| == |es| - 1 && es[i].count == |es| && AfterRound3(es[i], s2[i], m3[i]) == Ok(s3[i])
  }

  lemma ConversionsDone(es: seq<Env>, o: Opening, s2: seq<State>, s3: seq<State>, m3: seq<seq<Option<R2Msg>>>)
    requires FirstRounds(es, o, s2, m3) && HonestCommittee(es, o) && ThirdRound(es, s2, s3, m3)
    ensures AfterThree(es, s2, s3, m3)
  {
    hide *;
    ThirdSizes(es, s2, s3, m3);
    Begun(es, o, s2, m3);
    forall i, j | 0 <= i < |es| && 0 <= j < |es| && i != j ensures PairShared(es[0].g.q, es, s2, m3, i, j) {
      ThirdOf(es, s2, s3, m3, i);
      PairIsShared(es, o, s2, s3, m3, i, j);
    }
    forall i | 0 <= i < |es|
      ensures es[i].Valid() && |m3[i]| == |es| - 1 && es[i].count == |es|
      ensures AfterRound3(es[i], s2[i], m3[i]) == Ok(s3[i])
      ensures s2[i].pointGamma == MulBase(es[0].g.q, s2[i].gamma)
    {
      ThirdOf(es, s2, s3, m3, i);
      GammaKept(es, o, s2, m3, i);
    }
    ThreeIntro(es, s2, s3, m3);
  }

  lemma ThirdSizes(es: seq<Env>, s2: seq<State>, s3: seq<State>, m3: seq<seq<Option<R2Msg>>>)
    requires ThirdRound(es, s2, s3, m3)
    ensures |s2| == |s3| == |m3| == |es|
  {
    hide AfterRound3;
  }

  lemma ThirdOf(es: seq<Env>, s2: seq<State>, s3: seq<State>, m3: seq<seq<Option<R2Msg>>>, i: nat)
    requires ThirdRound(es, s2, s3, m3) && i < |es|
    ensures |s2| == |s3| == |m3| == |es| && es[i].Valid() && |m3[i]| == |es| - 1 && es[i].count == |es|
    ensures AfterRound3(es[i], s2[i], m3[i]) == Ok(s3[i])
  {
    hide AfterRound3;
  }

  lemma Begun(es: seq<Env>, o: Opening, s2: seq<State>, m3: seq<seq<Option<R2Msg>>>)
    requires FirstRounds(es, o, s2, m3)
    ensures es != [] && es[0].g.q > 0 && SameSession(es) && AllStarted(es, o.s1, o.keys, o.draws, o.sent)
    ensures |o.s1| == |s2| == |es|
  {
    hide FiledAs, AnswersOf, AnswerArrived, Started, Consistent, Points;
  }

  lemma GammaKept(es: seq<Env>, o: Opening, s2: seq<State>, m3: seq<seq<Option<R2Msg>>>, i: nat)
    requires FirstRounds(es, o, s2, m3) && i < |es|
    ensures |s2| == |es| && es[0].g.q > 0 && s2[i].pointGamma == MulBase(es[0].g.q, s2[i].gamma)
  {
    FirstParts(es, o, s2, m3, i);
    StartedParts(es, o, i);
    TwoIsOne(es, o, s2, m3, i);
    hide FirstRounds, AllStarted, Started, AnswerAll, MulBase;
    StartedShape(es[i], o.s1[i], o.keys[i], o.s1[i].k, o.s1[i].gamma, o.draws[i], o.sent[i]);
  }

  lemma ThreeIntro(es: seq<Env>, s2: seq<State>, s3: seq<State>, m3: seq<seq<Option<R2Msg>>>)
    requires SameSession(es) && es != [] && |s2| == |s3| == |m3| == |es| && es[0].g.q > 0
    requires forall i :: 0 <= i < |es| ==>
      es[i].Valid() && |m3[i]| == |es| - 1 && es[i].count == |es| && AfterRound3(es[i], s2[i], m3[i]) == Ok(s3[i])
    requires forall i, j :: 0 <= i < |es| && 0 <= j < |es| && i != j ==> PairShared(es[0].g.q, es, s2, m3, i, j)
    requires forall i :: 0 <= i < |es| ==> s2[i].pointGamma == MulBase(es[0].g.q, s2[i].gamma)
    ensures AfterThree(es, s2, s3, m3)
  {
    hide SameSession, AfterRound3, PairShared;
  }

  lemma SameWeights(es: seq<Env>, o: Opening, s2: seq<State>, m3: seq<seq<Option<R2Msg>>>)
    requires FirstRounds(es, o, s2, m3)
    ensures |o.s1| == |s2| == |es| && Each(o.s1, WOf) == Each(s2, WOf)
  {
    Begun(es, o, s2, m3);
    hide FirstRounds, AllStarted;
    forall j | 0 <= j < |es| ensures s2[j].w == o.s1[j].w { TwoIsOne(es, o, s2, m3, j); }
  }

  // ---------- the theorem ----------

  /** From consistent keys to the delivered signature. All parties start from one consistent key with honest Paillier
      keys and draws, every message of every round arrives as sent, and rounds 2 to 8 complete: then all parties pass
      the round-9 check and end with one result. It is an error only when r or s vanishes; otherwise it is a low-s
      signature that verifies under the public key. */
  lemma EndToEnd(es: seq<Env>, o: Opening, s2: seq<State>, s3: seq<State>, s4: seq<State>, s5: seq<State>,
    s6: seq<State>, s8: seq<State>,
    m3: seq<seq<Option<R2Msg>>>, m4: seq<seq<Option<nat>>>, m5: seq<seq<nat>>, m7: seq<seq<nat>>, m9: seq<seq<nat>>,
    m10: seq<seq<Option<nat>>>, i: nat)
    requires FirstRounds(es, o, s2, m3) && HonestCommittee(es, o) && ThirdRound(es, s2, s3, m3)
    requires Run(es, s3, s4, s5, s6, s8, m4, m5, m7, m9, m10)
    requires i < |es| && es[0].c.Valid() && es[0].c.n == es[0].g.q
    ensures es[0].g.q > 0 && es[0].pub.Some? && es[i].Valid() && |s8| == |m9| == |m10| == |es|
    ensures AfterRound9(es[i], s8[i], m9[i]) == Ok(s8[i])
    ensures AfterFinalize(es[i], s8[i], m10[i]) == AfterFinalize(es[0], s8[0], m10[0])
    ensures var bigR := CommonR(es[0].g.q, s3); var r := AfterFinalize(es[i], s8[i], m10[i]);
      && (r.Ok? <==> es[0].c.xOf(bigR) % es[0].g.q != 0 && Sum(Each(s5, SOf)) % es[0].g.q != 0)
      && (r.Ok? ==> GoodSignature(es[0].c, es[0].m, es[0].pub.value, bigR, r.value))
  {
    hide *;
    Begun(es, o, s2, m3);
    ConversionsDone(es, o, s2, s3, m3);
    WeightsTotal(es, o.s1, o.keys, o.draws, o.sent);
    Round3Products(es, s2, s3, m3);
    SameWeights(es, o, s2, m3);
    HonestSigning(es, s3, s4, s5, s6, s8, m4, m5, m7, m9, m10, es[0].pub.value, i);
  }
}
