/** Chou-Orlandi base OT (src/dklstss/baseot.rs) and the in-process pair setup built on it
    (src/dklstss/setup.rs). */
module BaseOt {
  import opened NumberTheory
  import opened Bits
  import opened Results
  import opened Secp
  import opened OtExtension

  /** S = y*G, and whether the proof of knowledge that travels with it verifies. */
  datatype SenderMsg = SenderMsg(s: Point, pokValid: bool)

  datatype Sender = Sender(sid: bytes, count: nat, y: Scalar, s: Point)

  datatype Receiver = Receiver(sid: bytes, count: nat, bits: bytes, x: seq<Scalar>, s: Point) {
    predicate Valid() { |x| == count && count <= 8 * |bits| }
  }

  function NewSender(n: int, sid: bytes, count: nat, y: Scalar): (r: (Sender, SenderMsg))
    requires n > 0
  {
    var s := MulBase(n, y);
    (Sender(sid, count, y, s), SenderMsg(s, true))
  }

  /** R_i = x_i*G + c_i*S */
  function Response(n: int, x: Scalar, c: bool, s: Point): (r: Point)
    requires n > 0
  {
    var ra := MulBase(n, x);
    var rb := PointAdd(n, ra, s);
    if c then rb else ra
  }

  method NewReceiver(n: int, sid: bytes, count: nat, bits: bytes, msg: SenderMsg, draws: seq<Scalar>)
    returns (res: Option<(Receiver, seq<Point>)>)
    requires n > 0 && |draws| == count
    ensures res.Some? <==> count <= 8 * |bits| && msg.pokValid
    ensures res.Some? ==> res.value.0 == Receiver(sid, count, bits, draws, msg.s) && |res.value.1| == count
    ensures res.Some? ==> forall i :: 0 <= i < count ==> res.value.1[i] == Response(n, draws[i], BitAt(bits, i), msg.s)
  {
    if |bits| * 8 < count { return None; }
    if !msg.pokValid { return None; }
    var x: seq<Scalar>, r: seq<Point> := [], [];
    for i := 0 to count
      invariant x == draws[..i] && |r| == i
      invariant forall k :: 0 <= k < i ==> r[k] == Response(n, draws[k], BitAt(bits, k), msg.s)
    {
      var xi := draws[i];
      var c := Bit(bits[i / 8], i % 8);
      r := r + [Response(n, xi, c, msg.s)];
      x := x + [xi];
    }
    return Some((Receiver(sid, count, bits, x, msg.s), r));
  }

  /** The sender's key pair for one response. */
  function SenderKey(o: Oracle, n: int, snd: Sender, i: nat, r: Point, one: bool): bytes
    requires n > 0
  {
    var yR := PointMul(n, r, snd.y);
    o.deriveKey(snd.sid, i, one, if one then PointAdd(n, yR, FNeg(n, PointMul(n, snd.s, snd.y))) else yR)
  }

  method SenderFinalize(o: Oracle, n: int, snd: Sender, r: seq<Point>) returns (res: Option<(seq<bytes>, seq<bytes>)>)
    requires n > 0
    ensures res.Some? <==> |r| == snd.count
    ensures res.Some? ==> |res.value.0| == |res.value.1| == snd.count
    ensures res.Some? ==> forall i :: 0 <= i < snd.count ==>
      res.value.0[i] == SenderKey(o, n, snd, i, r[i], false) && res.value.1[i] == SenderKey(o, n, snd, i, r[i], true)
  {
    if |r| != snd.count { return None; }
    var yS := PointMul(n, snd.s, snd.y);
    var negYS := FNeg(n, yS);
    var k0: seq<bytes>, k1: seq<bytes> := [], [];
    for i := 0 to snd.count
      invariant |k0| == |k1| == i
      invariant forall k :: 0 <= k < i ==>
        k0[k] == SenderKey(o, n, snd, k, r[k], false) && k1[k] == SenderKey(o, n, snd, k, r[k], true)
    {
      var yR := PointMul(n, r[i], snd.y);
      k0 := k0 + [o.deriveKey(snd.sid, i, false, yR)];
      k1 := k1 + [o.deriveKey(snd.sid, i, true, PointAdd(n, yR, negYS))];
    }
    return Some((k0, k1));
  }

  /** k_{i, c_i} */
  function ReceiverFinalize(o: Oracle, n: int, rcv: Receiver): (keys: seq<bytes>)
    requires n > 0 && rcv.Valid()
    ensures |keys| == rcv.count
    ensures forall i :: 0 <= i < rcv.count ==>
      keys[i] == o.deriveKey(rcv.sid, i, BitAt(rcv.bits, i), PointMul(n, rcv.s, rcv.x[i]))
  {
    seq(rcv.count, i requires 0 <= i < rcv.count =>
      o.deriveKey(rcv.sid, i, BitAt(rcv.bits, i), PointMul(n, rcv.s, rcv.x[i])))
  }

  lemma ChoiceZeroAlgebra(n: int, x: int, y: int)
    requires n > 0
    ensures PointMul(n, MulBase(n, x), y) == PointMul(n, MulBase(n, y), x)
  {
    PointMulBase(n, x, y);
    PointMulBase(n, y, x);
    assert x * y == y * x;
    CongSmall(PointMul(n, MulBase(n, x), y), PointMul(n, MulBase(n, y), x), n);
  }

  lemma PointMulBase(n: int, x: int, y: int)
    requires n > 0
    ensures Cong(PointMul(n, MulBase(n, x), y), x * y, n)
  {
    hide *;
    var p := MulBase(n, x);
    FieldOps(n, x, 0);
    FieldOps(n, p, y);
    CongScale(y, p, x, n);
    CongTrans(PointMul(n, p, y), p * y, x * y, n);
  }

  /** y(x*G + S) - y*S = x*S */
  lemma ChoiceOneAlgebra(n: int, s: int, x: int, y: int)
    requires n > 0 && s == MulBase(n, y)
    ensures PointAdd(n, PointMul(n, PointAdd(n, MulBase(n, x), s), y), FNeg(n, PointMul(n, s, y))) == PointMul(n, s, x)
  {
    hide *;
    var p, q := PointAdd(n, MulBase(n, x), s), PointMul(n, s, y);
    FieldOps(n, y, 0);
    FieldOps(n, x, 0);
    FieldOps(n, MulBase(n, x), s);
    CongAdd(MulBase(n, x), x, s, s, n);
    CongTrans(p, MulBase(n, x) + s, x + s, n);
    FieldOps(n, p, y);
    CongScale(y, p, x + s, n);
    CongTrans(PointMul(n, p, y), p * y, (x + s) * y, n);
    FieldOps(n, s, y);
    FieldOps(n, q, 0);
    CongSub(0, 0, q, s * y, n) by { CongTrans(0, 0, 0, n) by { CongSelf(0, n); } }
    CongTrans(FNeg(n, q), 0 - q, 0 - s * y, n);
    var u, v := PointMul(n, p, y), FNeg(n, q);
    FieldOps(n, u, v);
    CongAdd(u, (x + s) * y, v, 0 - s * y, n);
    CongTrans(PointAdd(n, u, v), u + v, (x + s) * y + (0 - s * y), n);
    ExpandCancel(x, s, y);
    FieldOps(n, s, x);
    CongScale(x, s, y, n);
    CongTrans(PointMul(n, s, x), s * x, y * x, n);
    CongTrans(PointAdd(n, u, v), x * y, PointMul(n, s, x), n);
    CongSmall(PointAdd(n, u, v), PointMul(n, s, x), n);
  }

  lemma ExpandCancel(x: int, s: int, y: int)
    ensures (x + s) * y + (0 - s * y) == x * y
    ensures x * y == y * x
  {
  }

  /** In an honest instance the receiver obtains exactly the sender's key for its choice bit. */
  lemma ChosenKeyAgrees(o: Oracle, n: int, sid: bytes, count: nat, y: Scalar, x: Scalar, c: bool, i: nat)
    requires n > 0
    ensures var (snd, msg) := NewSender(n, sid, count, y);
      SenderKey(o, n, snd, i, Response(n, x, c, msg.s), c) == o.deriveKey(sid, i, c, PointMul(n, msg.s, x))
  {
    var s := MulBase(n, y);
    ChoiceZeroAlgebra(n, x, y);
    ChoiceOneAlgebra(n, s, x, y);
  }

  // ---------- one direction of a pair, run in process ----------

  /** Random inputs of one base-OT batch. */
  datatype PairDraws = PairDraws(delta: bytes, y: Scalar, xs: seq<Scalar>) {
    predicate Valid() { |delta| == DELTA_BYTES && |xs| == KAPPA }
  }

  /** Key i of the sender for one value of the choice bit, from the draws: for R_i = (x_i + c_i y)G it hashes
      y R_i, less y S for the second value. */
  function DealtKey(o: Oracle, n: int, sid: bytes, draws: PairDraws, i: nat, one: bool): bytes
    requires n > 0 && draws.Valid() && i < 128
  {
    var y, c := draws.y, BitAt(draws.delta, i);
    o.deriveKey(sid, i, one, ((draws.xs[i] + (if c then y else 0) - (if one then y else 0)) * y) % n)
  }

  /** The states hold the keys of these draws: both of them on one side, the chosen ones on the other. */
  ghost predicate FromDraws(o: Oracle, n: int, sid: bytes, draws: PairDraws, rcv: ExtReceiver, snd: ExtSender)
    requires n > 0 && draws.Valid()
  {
    && rcv.Valid() && snd.Valid() && snd.delta == draws.delta
    && forall i :: 0 <= i < 128 ==>
      && rcv.seeds0[i] == DealtKey(o, n, sid, draws, i, false) && rcv.seeds1[i] == DealtKey(o, n, sid, draws, i, true)
      && snd.seeds[i] == DealtKey(o, n, sid, draws, i, BitAt(draws.delta, i))
  }

  /** The logarithm of what the sender hashes. */
  lemma SenderKeyIs(n: int, x: int, y: int, c: bool, one: bool)
    requires n > 0
    ensures var s := MulBase(n, y); var yR := PointMul(n, Response(n, x, c, s), y);
      (if one then PointAdd(n, yR, FNeg(n, PointMul(n, s, y))) else yR)
        == ((x + (if c then y else 0) - (if one then y else 0)) * y) % n
  {
    var s := MulBase(n, y);
    var r, t := Response(n, x, c, s), x + if c then y else 0;
    var yR, yS := PointMul(n, r, y), PointMul(n, s, y);
    assert r == if c then PointAdd(n, MulBase(n, x), s) else MulBase(n, x);
    hide *;
    FieldOps(n, x, 0);
    FieldOps(n, y, 0);
    FieldOps(n, MulBase(n, x), s);
    CongAdd(MulBase(n, x), x, s, y, n);
    CongTrans(PointAdd(n, MulBase(n, x), s), MulBase(n, x) + s, x + y, n);
    FieldOps(n, r, y);
    FieldOps(n, s, y);
    FieldOps(n, yS, 0);
    FieldOps(n, yR, FNeg(n, yS));
    CongScale(y, r, t, n);
    CongTrans(yR, r * y, t * y, n);
    CongScale(y, s, y, n);
    CongTrans(yS, s * y, y * y, n);
    CongSelf(0, n);
    CongSub(0, 0, yS, y * y, n);
    CongTrans(FNeg(n, yS), 0 - yS, 0 - y * y, n);
    CongAdd(yR, t * y, FNeg(n, yS), 0 - y * y, n);
    CongTrans(PointAdd(n, yR, FNeg(n, yS)), yR + FNeg(n, yS), t * y - y * y, n);
    LessOne(t, y);
    ResidueOf(PointAdd(n, yR, FNeg(n, yS)), (t - y) * y, n);
    ResidueOf(yR, t * y, n);
  }

  lemma LessOne(t: int, y: int)
    ensures t * y - y * y == (t - y) * y
  {
  }

  lemma ResidueOf(r: int, v: int, n: int)
    requires n > 0
    ensures 0 <= r < n && Cong(r, v, n) ==> r == v % n
  {
    if 0 <= r < n { SmallMod(r, n); }
  }

  /** run_base_ot_pair: the unwraps in it never fire, the two OT-extension states match, and they hold the keys of the
      draws. */
  method RunBaseOtPair(o: Oracle, n: int, sid: bytes, draws: PairDraws) returns (rcv: ExtReceiver, snd: ExtSender)
    requires n > 0 && draws.Valid()
    ensures rcv.Valid() && snd.Valid() && SeedsMatch(snd, rcv) && FromDraws(o, n, sid, draws, rcv, snd)
  {
    var (boSender, smsg) := NewSender(n, sid, KAPPA, draws.y);
    var received := NewReceiver(n, sid, KAPPA, draws.delta, smsg, draws.xs);
    assert received.Some?;
    var (boReceiver, rmsg) := received.value;
    var keys := SenderFinalize(o, n, boSender, rmsg);
    assert keys.Some?;
    var (k0, k1) := keys.value;
    var chosen := ReceiverFinalize(o, n, boReceiver);
    rcv := ReceiverFromBase(k0, k1).value;
    snd := SenderFromBase(draws.delta, chosen).value;
    hide Bit, BitAt;
    forall j | 0 <= j < KAPPA
      ensures chosen[j] == if BitAt(draws.delta, j) then k1[j] else k0[j]
      ensures k0[j] == DealtKey(o, n, sid, draws, j, false) && k1[j] == DealtKey(o, n, sid, draws, j, true)
    {
      var c := BitAt(draws.delta, j);
      ChosenKeyAgrees(o, n, sid, KAPPA, draws.y, draws.xs[j], c, j);
      SenderKeyIs(n, draws.xs[j], draws.y, c, false);
      SenderKeyIs(n, draws.xs[j], draws.y, c, true);
    }
  }

  /** The state one party holds for a peer: receiver when it plays Alice, sender when it plays Bob. */
  datatype PairOt = PairOt(asAlice: ExtReceiver, asBob: ExtSender) {
    predicate Valid() { asAlice.Valid() && asBob.Valid() }
  }

  type OtMatrix = seq<seq<Option<PairOt>>>

  ghost predicate Square(ot: OtMatrix, parties: nat) {
    |ot| == parties && forall i :: 0 <= i < parties ==> |ot[i]| == parties
  }

  /** The states of i and j match in both directions. */
  ghost predicate PairMatches(a: Option<PairOt>, b: Option<PairOt>) {
    && a.Some? && b.Some? && a.value.Valid() && b.value.Valid()
    && SeedsMatch(b.value.asBob, a.value.asAlice)
    && SeedsMatch(a.value.asBob, b.value.asAlice)
  }

  ghost predicate AllPairsMatch(ot: OtMatrix, parties: nat) {
    && Square(ot, parties)
    && (forall i :: 0 <= i < parties ==> ot[i][i] == None)
    && (forall i, j :: 0 <= i < parties && 0 <= j < parties && i != j ==> PairMatches(ot[i][j], ot[j][i]))
  }

  /** Pairs (a, b) with a < b handled before row i, column j. */
  predicate Done(a: nat, b: nat, i: nat, j: nat) { a < i || (a == i && b < j) }

  /** The pair (i, j) with i < j holds the states of its two base-OT runs. */
  ghost predicate PairDrawn(o: Oracle, n: int, ot: OtMatrix, i: nat, j: nat, sidOf: (nat, nat, bool) -> bytes,
    drawsA: (nat, nat) -> PairDraws, drawsB: (nat, nat) -> PairDraws)
    requires n > 0 && i < |ot| && j < |ot| && j < |ot[i]| && i < |ot[j]|
  {
    && drawsA(i, j).Valid() && drawsB(i, j).Valid() && ot[i][j].Some? && ot[j][i].Some?
    && FromDraws(o, n, sidOf(i, j, false), drawsA(i, j), ot[i][j].value.asAlice, ot[j][i].value.asBob)
    && FromDraws(o, n, sidOf(i, j, true), drawsB(i, j), ot[j][i].value.asAlice, ot[i][j].value.asBob)
  }

  ghost predicate PairsDrawn(o: Oracle, n: int, ot: OtMatrix, parties: nat, sidOf: (nat, nat, bool) -> bytes,
    drawsA: (nat, nat) -> PairDraws, drawsB: (nat, nat) -> PairDraws)
    requires n > 0
  {
    Square(ot, parties) && forall i, j :: 0 <= i < j < parties ==> PairDrawn(o, n, ot, i, j, sidOf, drawsA, drawsB)
  }

  ghost predicate PairsUpTo(ot: OtMatrix, parties: nat, i: nat, j: nat) {
    && Square(ot, parties)
    && (forall a :: 0 <= a < parties ==> ot[a][a] == None)
    && (forall a, b :: 0 <= a < b < parties && Done(a, b, i, j) ==> PairMatches(ot[a][b], ot[b][a]))
  }

  /** setup_pairs: every pair of parties ends with matching state in both directions, made of that pair's own draws
      drawsA[i][j] and drawsB[i][j] and session ids. */
  method SetupPairs(o: Oracle, n: int, parties: nat, sidOf: (nat, nat, bool) -> bytes,
    drawsA: (nat, nat) -> PairDraws, drawsB: (nat, nat) -> PairDraws) returns (ot: OtMatrix)
    requires n > 0
    requires forall i, j :: drawsA(i, j).Valid() && drawsB(i, j).Valid()
    ensures AllPairsMatch(ot, parties) && PairsDrawn(o, n, ot, parties, sidOf, drawsA, drawsB)
  {
    hide FromDraws, SeedsMatch;
    ot := seq(parties, _ => seq(parties, _ => None));
    for i := 0 to parties
      invariant PairsUpTo(ot, parties, i, 0)
      invariant forall a, b :: 0 <= a < b < parties && Done(a, b, i, 0) ==>
        PairDrawn(o, n, ot, a, b, sidOf, drawsA, drawsB)
    {
      for j := i + 1 to parties
        invariant PairsUpTo(ot, parties, i, j)
        invariant forall a, b :: 0 <= a < b < parties && Done(a, b, i, j) ==>
          PairDrawn(o, n, ot, a, b, sidOf, drawsA, drawsB)
      {
        var rcvA, sndA := RunBaseOtPair(o, n, sidOf(i, j, false), drawsA(i, j));
        var rcvB, sndB := RunBaseOtPair(o, n, sidOf(i, j, true), drawsB(i, j));
        ghost var before := ot;
        ot := ot[i := ot[i][j := Some(PairOt(rcvA, sndB))]];
        ot := ot[j := ot[j][i := Some(PairOt(rcvB, sndA))]];
        forall a, b | 0 <= a < b < parties && Done(a, b, i, j + 1)
          ensures PairDrawn(o, n, ot, a, b, sidOf, drawsA, drawsB)
        {
          if a == i && b == j {
            assert ot[i][j] == Some(PairOt(rcvA, sndB)) && ot[j][i] == Some(PairOt(rcvB, sndA));
          } else {
            assert PairDrawn(o, n, before, a, b, sidOf, drawsA, drawsB);
            assert ot[a][b] == before[a][b] && ot[b][a] == before[b][a];
          }
        }
      }
    }
    forall i, j | 0 <= i < j < parties ensures PairDrawn(o, n, ot, i, j, sidOf, drawsA, drawsB) {
      assert Done(i, j, parties, 0);
    }
    forall i, j | 0 <= i < parties && 0 <= j < parties && i != j ensures PairMatches(ot[i][j], ot[j][i]) {
      if i < j { assert Done(i, j, parties, 0); } else { assert Done(j, i, parties, 0); }
    }
  }
}
