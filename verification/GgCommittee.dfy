/** What the rounds of GG18 signing (src/ecdsatss/signing.rs) achieve for a whole committee: the conversions share the
    products, the consistency check is exact, and an honest committee delivers one verifying signature. */
module GgCommittee {
  import opened NumberTheory
  import opened Results
  import opened Paillier
  import opened Secp
  import opened Committee
  import opened Sums
  import opened Mta
  import opened MtaVerify
  import opened GgSigning

  // ---------- what a party receives ----------

  /** The peers' values, one decoded message each, in order. */
  ghost predicate Delivered(me: nat, msgs: seq<Option<nat>>, xs: seq<int>) {
    && me < |xs| && |msgs| == |xs| - 1
    && forall k :: 0 <= k < |msgs| ==> msgs[k].Some? && msgs[k].value == xs[Other(me, k)]
  }

  lemma {:induction false} ReceivedSum(me: nat, msgs: seq<Option<nat>>, xs: seq<int>, k: nat)
    requires Delivered(me, msgs, xs) && k <= |msgs|
    ensures Sum(Received(msgs)[..k]) + PeersSum(xs, me, k) == PeersSum(xs, me, 0)
  {
    var vs := Received(msgs);
    if k > 0 {
      ReceivedSum(me, msgs, xs, k - 1);
      assert vs[..k] == vs[..k - 1] + [vs[k - 1]];
      SumPush(vs[..k - 1], vs[k - 1]);
    } else {
      assert vs[..0] == [];
    }
  }

  lemma DeliveredTotal(n: int, me: nat, msgs: seq<Option<nat>>, xs: seq<int>)
    requires n > 0 && Delivered(me, msgs, xs)
    ensures OwnPlus(n, xs[me], Received(msgs)) == Sum(xs) % n
  {
    ReceivedSum(me, msgs, xs, |msgs|);
    assert Received(msgs)[..|msgs|] == Received(msgs);
    PeersTotal(xs, me);
  }

  /** Adding reduced values one at a time keeps the sum modulo n. */
  lemma AddPeer(n: int, acc: int, rest: int, x: int)
    requires n > 0
    ensures (PointAdd(n, acc, x) + rest) % n == (acc + (x + rest)) % n && 0 <= PointAdd(n, acc, x) < n
  {
    FieldOps(n, acc, x);
    CongAdd(PointAdd(n, acc, x), acc + x, rest, rest, n);
  }

  /** Adding the peers' points one after the other, reducing each time. */
  function FoldPeers(n: int, acc: Point, xs: seq<Point>, me: nat, k: nat): Point
    requires n > 0 && me < |xs|
    decreases |xs| - k
  {
    if k + 1 >= |xs| then acc else FoldPeers(n, PointAdd(n, acc, xs[Other(me, k)]), xs, me, k + 1)
  }

  lemma {:induction false} FoldIsSum(n: int, acc: Point, xs: seq<Point>, me: nat, k: nat)
    requires n > 0 && me < |xs| && 0 <= acc < n
    ensures FoldPeers(n, acc, xs, me, k) == (acc + PeersSum(xs, me, k)) % n
    decreases |xs| - k
  {
    hide PointAdd;
    if k + 1 >= |xs| {
      SmallMod(acc, n);
    } else {
      AddPeer(n, acc, PeersSum(xs, me, k + 1), xs[Other(me, k)]);
      FoldIsSum(n, PointAdd(n, acc, xs[Other(me, k)]), xs, me, k + 1);
    }
  }

  // ---------- one round of one party ----------

  /** Alice's final steps succeed with every peer, and with Bob's shares they make xs and ys. */
  ghost predicate Converted(e: Env, st: State, msgs: seq<Option<R2Msg>>, xs: seq<int>, ys: seq<int>)
    requires e.Valid()
  {
    && |msgs| == e.count - 1 && |xs| == |ys| == e.count
    && forall k :: 0 <= k < |msgs| ==> ConvertedWith(e, st, Other(e.me, k), msgs[k], xs, ys)
  }

  ghost predicate ConvertedWith(e: Env, st: State, j: nat, m: Option<R2Msg>, xs: seq<int>, ys: seq<int>)
    requires e.Valid()
  {
    && j < e.count && e.count > 1 && j < |xs| && j < |ys| && AliceFor(e, st, j, m).Ok?
    && xs[j] == AliceFor(e, st, j, m).value.0 + Held(st.betas, j) && ys[j] == AliceFor(e, st, j,
      m).value.1 + Held(st.vs, j)
  }

  lemma {:induction false} CollectIs(e: Env, st: State, msgs: seq<Option<R2Msg>>, xs: seq<int>, ys: seq<int>, k: nat,
    theta: Scalar, sigma: Scalar)
    requires e.Valid() && Converted(e, st, msgs, xs, ys) && k <= |msgs|
    ensures var r := Collect(e, st, msgs, k, theta, sigma);
      && r.Ok? && Cong(r.value.0, theta + PeersSum(xs, e.me, k), e.g.q) && Cong(r.value.1,
        sigma + PeersSum(ys, e.me, k), e.g.q)
    decreases |msgs| - k
  {
    hide AliceFor, Cong;
    var n := e.g.q;
    if k == |msgs| {
      CongSelf(theta, n);
      CongSelf(sigma, n);
    } else {
      var j := Other(e.me, k);
      assert ConvertedWith(e, st, j, msgs[k], xs, ys);
      var a := AliceFor(e, st, j, msgs[k]).value;
      var t, s := FAdd(n, theta, FAdd(n, a.0, Held(st.betas, j))), FAdd(n, sigma, FAdd(n, a.1, Held(st.vs, j)));
      CollectIs(e, st, msgs, xs, ys, k + 1, t, s);
      AddPair(n, theta, a.0, Held(st.betas, j), PeersSum(xs, e.me, k + 1));
      AddPair(n, sigma, a.1, Held(st.vs, j), PeersSum(ys, e.me, k + 1));
      var r := Collect(e, st, msgs, k + 1, t, s);
      CongTrans(r.value.0, t + PeersSum(xs, e.me, k + 1), theta + (xs[j] + PeersSum(xs, e.me, k + 1)), n);
      CongTrans(r.value.1, s + PeersSum(ys, e.me, k + 1), sigma + (ys[j] + PeersSum(ys, e.me, k + 1)), n);
    }
  }

  lemma AddPair(n: int, acc: int, a: int, b: int, rest: int)
    requires n > 0
    ensures Cong(FAdd(n, acc, FAdd(n, a, b)) + rest, acc + ((a + b) + rest), n)
  {
    var t := FAdd(n, a, b);
    FieldOps(n, a, b);
    FieldOps(n, acc, t);
    CongAdd(acc, acc, t, a + b, n);
    CongTrans(FAdd(n, acc, t), acc + t, acc + (a + b), n);
    CongAdd(FAdd(n, acc, t), acc + (a + b), rest, rest, n);
  }

  /** Round 3: theta and sigma hold the party's rows. */
  lemma Round3Is(e: Env, st: State, msgs: seq<Option<R2Msg>>, mine: Matrix, theirs: Matrix, mineW: Matrix,
    theirsW: Matrix)
    requires e.Valid()
    requires Converted(e, st, msgs, RowOf(Added(mine, theirs), e.me, e.count),
      RowOf(Added(mineW, theirsW), e.me, e.count))
    ensures var r := AfterRound3(e, st, msgs);
      && r.Ok? && r.value == st.(theta := r.value.theta, sigma := r.value.sigma)
      && Cong(r.value.theta, st.k * st.gamma + OffRow(Added(mine, theirs), e.me, e.count), e.g.q)
      && Cong(r.value.sigma, st.k * st.w + OffRow(Added(mineW, theirsW), e.me, e.count), e.g.q)
  {
    hide Cong, Converted, Collect, OffRow, RowOf, Added;
    var n, xs, ys := e.g.q, RowOf(Added(mine, theirs), e.me, e.count), RowOf(Added(mineW, theirsW), e.me, e.count);
    var t, s := FMul(n, st.k, st.gamma), FMul(n, st.k, st.w);
    ConvertedSizes(e, st, msgs, xs, ys);
    CollectIs(e, st, msgs, xs, ys, 0, t, s);
    OffRowPeers(Added(mine, theirs), e.me, e.count);
    OffRowPeers(Added(mineW, theirsW), e.me, e.count);
    FieldOps(n, st.k, st.gamma);
    FieldOps(n, st.k, st.w);
    var r := AfterRound3(e, st, msgs).value;
    CongAdd(t, st.k * st.gamma, PeersSum(xs, e.me, 0), PeersSum(xs, e.me, 0), n);
    CongAdd(s, st.k * st.w, PeersSum(ys, e.me, 0), PeersSum(ys, e.me, 0), n);
    CongTrans(r.theta, t + PeersSum(xs, e.me, 0), st.k * st.gamma + PeersSum(xs, e.me, 0), n);
    CongTrans(r.sigma, s + PeersSum(ys, e.me, 0), st.k * st.w + PeersSum(ys, e.me, 0), n);
  }

  lemma ConvertedSizes(e: Env, st: State, msgs: seq<Option<R2Msg>>, xs: seq<int>, ys: seq<int>)
    requires e.Valid() && Converted(e, st, msgs, xs, ys)
    ensures |msgs| == e.count - 1 && |xs| == |ys| == e.count
  {
  }

  /** Round 4: everyone inverts the same total. */
  lemma Round4Is(e: Env, st: State, msgs: seq<Option<nat>>, thetas: seq<int>)
    requires e.Valid() && Delivered(e.me, msgs, thetas) && st.theta == thetas[e.me]
    ensures var inv := ModInv(Sum(thetas) % e.g.q, e.g.q);
      AfterRound4(e, st, msgs) == if inv.0 then Ok(st.(thetaInverse := inv.1)) else Err(ThetaNotInvertible)
  {
    DeliveredTotal(e.g.q, e.me, msgs, thetas);
  }

  ghost predicate OpensGamma(e: Env, st: State, msgs: seq<nat>, points: seq<Point>) {
    && e.me < |points| && |msgs| == |points| - 1 && 0 <= points[e.me] < e.g.q
    && forall k :: 0 <= k < |msgs| ==>
      var j := Other(e.me, k);
      j < |st.r1Commitments| && st.r1Commitments[j].Some?
      && e.openGamma(st.r1Commitments[j].value, j, msgs[k]) == Some(points[j])
  }

  lemma {:induction false} SumGammasFolds(e: Env, st: State, msgs: seq<nat>, points: seq<Point>, k: nat, acc: Point)
    requires e.Valid() && OpensGamma(e, st, msgs, points) && k <= |msgs|
    ensures SumGammas(e, st, msgs, k, acc) == Some(FoldPeers(e.g.q, acc, points, e.me, k))
    decreases |msgs| - k
  {
    hide PointAdd;
    if k < |msgs| {
      assert GammaOf(e, st, k, msgs[k]) == Some(points[Other(e.me, k)]);
      SumGammasFolds(e, st, msgs, points, k + 1, PointAdd(e.g.q, acc, points[Other(e.me, k)]));
    }
  }

  /** Round 5: R is the sum of the openings times the inverse. */
  lemma Round5Is(e: Env, st: State, msgs: seq<nat>, points: seq<Point>, li: Scalar, roi: Scalar)
    requires e.Valid() && OpensGamma(e, st, msgs, points) && st.pointGamma == points[e.me]
    ensures var r := AfterRound5(e, st, msgs, li, roi);
      var bigR, n := PointMul(e.g.q, Sum(points) % e.g.q, st.thetaInverse), e.g.q;
      var si := FAdd(n, FMul(n, e.m, st.k), FMul(n, e.c.xOf(bigR), st.sigma));
      r == Ok(st.(bigR := bigR, si := si, li := li, roi := roi, bigAi := MulBase(n, roi),
                  bigVi := PointAdd(n, PointMul(n, bigR, si), MulBase(n, li))))
  {
    hide GammaOf;
    SumGammasFolds(e, st, msgs, points, 0, st.pointGamma);
    FoldIsSum(e.g.q, st.pointGamma, points, e.me, 0);
    PeersTotal(points, e.me);
  }

  ghost predicate OpensVA(e: Env, st: State, msgs: seq<nat>, vs: seq<Point>, xs: seq<Point>) {
    && e.me < |vs| == |xs| && |msgs| == |vs| - 1
    && forall k :: 0 <= k < |msgs| ==>
      var j := Other(e.me, k);
      j < |st.r5Commitments| && st.r5Commitments[j].Some?
      && e.openVA(st.r5Commitments[j].value, j, st.bigR, msgs[k]) == Some((vs[j], xs[j]))
  }

  lemma {:induction false} SumVaFolds(e: Env, st: State, msgs: seq<nat>, vs: seq<Point>, xs: seq<Point>, k: nat,
    v: Point, a: Point)
    requires e.Valid() && OpensVA(e, st, msgs, vs, xs) && k <= |msgs|
    ensures SumVa(e, st, msgs, k, v, a) == Some((FoldPeers(e.g.q, v, vs, e.me, k), FoldPeers(e.g.q, a, xs, e.me, k)))
    decreases |msgs| - k
  {
    hide PointAdd;
    if k < |msgs| {
      assert VaOf(e, st, k, msgs[k]) == Some((vs[Other(e.me, k)], xs[Other(e.me, k)]));
      var x, y := vs[Other(e.me, k)], xs[Other(e.me, k)];
      SumVaFolds(e, st, msgs, vs, xs, k + 1, PointAdd(e.g.q, v, x), PointAdd(e.g.q, a, y));
    }
  }

  lemma SumVaIs(e: Env, st: State, msgs: seq<nat>, vs: seq<Point>, xs: seq<Point>, v: Point, a: Point)
    requires e.Valid() && OpensVA(e, st, msgs, vs, xs) && 0 <= v < e.g.q && 0 <= a < e.g.q
    ensures SumVa(e, st, msgs, 0, v, a) == Some(((v + PeersSum(vs, e.me, 0)) % e.g.q,
      (a + PeersSum(xs, e.me, 0)) % e.g.q))
  {
    hide VaOf, SumVa, FoldPeers, PeersSum;
    SumVaFolds(e, st, msgs, vs, xs, 0, v, a);
    FoldIsSum(e.g.q, v, vs, e.me, 0);
    FoldIsSum(e.g.q, a, xs, e.me, 0);
  }

  /** Round 7: U and T come from the committee's sums of V and A. */
  lemma Round7Is(e: Env, st: State, msgs: seq<nat>, vs: seq<Point>, xs: seq<Point>)
    requires e.Valid() && e.pub.Some? && OpensVA(e, st, msgs, vs, xs)
    requires st.bigVi == vs[e.me] && st.bigAi == xs[e.me] && 0 <= st.bigAi < e.g.q
    ensures var n := e.g.q;
      AfterRound7(e, st, msgs) == Ok(st.(
        ui := PointMul(n, (Offset(n, e.m, e.c.xOf(st.bigR), e.pub.value) + Sum(vs)) % n, st.roi),
        ti := PointMul(n, Sum(xs) % n, st.li)))
  {
    hide VaOf;
    var n := e.g.q;
    var off := Offset(n, e.m, e.c.xOf(st.bigR), e.pub.value);
    var v := PointAdd(n, off, st.bigVi);
    SumVaIs(e, st, msgs, vs, xs, v, st.bigAi);
    PeersTotal(vs, e.me);
    PeersTotal(xs, e.me);
    AddPeer(n, off, PeersSum(vs, e.me, 0), st.bigVi);
  }

  ghost predicate OpensUT(e: Env, st: State, msgs: seq<nat>, us: seq<Point>, ts: seq<Point>) {
    && e.me < |us| == |ts| && |msgs| == |us| - 1
    && forall k :: 0 <= k < |msgs| ==>
      var j := Other(e.me, k);
      j < |st.r7Commitments| && st.r7Commitments[j].Some?
      && e.openUT(st.r7Commitments[j].value, msgs[k]) == Some((us[j], ts[j]))
  }

  lemma {:induction false} SumUtFolds(e: Env, st: State, msgs: seq<nat>, us: seq<Point>, ts: seq<Point>, k: nat,
    u: Point, t: Point)
    requires e.Valid() && OpensUT(e, st, msgs, us, ts) && k <= |msgs|
    ensures SumUt(e, st, msgs, k, u, t) == Some((FoldPeers(e.g.q, u, us, e.me, k), FoldPeers(e.g.q, t, ts, e.me, k)))
    decreases |msgs| - k
  {
    hide PointAdd;
    if k < |msgs| {
      assert UtOf(e, st, k, msgs[k]) == Some((us[Other(e.me, k)], ts[Other(e.me, k)]));
      var x, y := us[Other(e.me, k)], ts[Other(e.me, k)];
      SumUtFolds(e, st, msgs, us, ts, k + 1, PointAdd(e.g.q, u, x), PointAdd(e.g.q, t, y));
    }
  }

  lemma SumUtIs(e: Env, st: State, msgs: seq<nat>, us: seq<Point>, ts: seq<Point>, u: Point, t: Point)
    requires e.Valid() && OpensUT(e, st, msgs, us, ts) && 0 <= u < e.g.q && 0 <= t < e.g.q
    ensures SumUt(e, st, msgs, 0, u, t) == Some(((u + PeersSum(us, e.me, 0)) % e.g.q,
      (t + PeersSum(ts, e.me, 0)) % e.g.q))
  {
    hide UtOf, SumUt, FoldPeers, PeersSum;
    SumUtFolds(e, st, msgs, us, ts, 0, u, t);
    FoldIsSum(e.g.q, u, us, e.me, 0);
    FoldIsSum(e.g.q, t, ts, e.me, 0);
  }

  /** Round 9: the test compares the committee's sums of U and T. */
  lemma Round9Is(e: Env, st: State, msgs: seq<nat>, us: seq<Point>, ts: seq<Point>)
    requires e.Valid() && OpensUT(e, st, msgs, us, ts) && st.ui == us[e.me] && st.ti == ts[e.me]
    requires 0 <= st.ui < e.g.q && 0 <= st.ti < e.g.q
    ensures AfterRound9(e, st, msgs) == if Sum(us) % e.g.q == Sum(ts) % e.g.q then Ok(st) else Err(NotConsistent)
  {
    hide UtOf;
    SumUtIs(e, st, msgs, us, ts, st.ui, st.ti);
    PeersTotal(us, e.me);
    PeersTotal(ts, e.me);
  }

  lemma FinalizeIs(e: Env, st: State, msgs: seq<Option<nat>>, ss: seq<int>)
    requires e.Valid() && Delivered(e.me, msgs, ss) && st.si == ss[e.me]
    ensures AfterFinalize(e, st, msgs) == Final(e, st.bigR, Sum(ss) % e.g.q)
  {
    DeliveredTotal(e.g.q, e.me, msgs, ss);
  }

  // ---------- what one party accepts from a peer, whoever it is ----------

  /** Round 2 answers peer j exactly when its range proof is acceptable under j's modulus and my ring, with my gamma in
      the first conversion and my weighted share, tied to my public weighted share, in the second. */
  lemma BobForExact(e: Env, st: State, j: nat, m: R1Proof, draws: (BobDraw, BobDraw))
    requires e.Valid() && j < e.count && e.count > 1 && e.moduli[j] > 1 && e.me < |st.bigWs|
    ensures var r, n := BobFor(e, st, j, m, draws), e.moduli[j];
      && (r.Ok? <==>
        && m.range.Some? && RangeAccepts(e.g, n, e.rings[e.me], m.c, m.range.value)
        && draws.0.betaprm < n && draws.1.betaprm < n)
      && (r.Ok? ==>
        && AnswersAs(e, j, m.c, st.gamma, None, draws.0, r.value.0)
        && AnswersAs(e, j, m.c, st.w, Some(st.bigWs[e.me]), draws.1, r.value.1))
  {
    hide *;
    BobForSteps(e, st, j, m, draws);
    if m.range.Some? {
      BobMidExact(e.g, e.context(e.me), e.moduli[j], m.range.value, st.gamma, m.c, e.rings[j], e.rings[e.me], None,
        draws.0.betaprm, draws.0.rb, draws.0.d);
      BobMidExact(e.g, e.context(e.me), e.moduli[j], m.range.value, st.w, m.c, e.rings[j], e.rings[e.me],
        Some(st.bigWs[e.me]), draws.1.betaprm, draws.1.rb, draws.1.d);
    }
  }

  /** The answer to ciphertext c for the factor b: the negated mask kept, the ciphertext c^b (N+1)^beta' r^N sent,
      with a proof under the peer's ring and my own context. */
  ghost predicate AnswersAs(e: Env, j: nat, c: nat, b: nat, x: Option<Point>, draw: BobDraw, a: BobMessage)
    requires e.Valid() && j < e.count && e.count > 1
  {
    && a.beta < e.g.q && Cong(a.beta + draw.betaprm, 0, e.g.q)
    && IsAnswer(e.moduli[j], c, b, draw.betaprm, draw.rb, a.cb)
    && a.pi == ProveBob(e.g, e.context(e.me), e.moduli[j], e.rings[j], c, a.cb, b, draw.betaprm, draw.rb, x, draw.d)
  }

  lemma BobForSteps(e: Env, st: State, j: nat, m: R1Proof, draws: (BobDraw, BobDraw))
    requires e.Valid() && j < e.count && e.count > 1 && e.me < |st.bigWs|
    ensures e.g.q > 0 && e.moduli[j] * e.moduli[j] > 0 && e.rings[j].nt > 0 && e.rings[e.me].nt > 0
    ensures j < |e.moduli| && j < |e.rings| && e.me < |e.rings|
    ensures m.range.None? ==> BobFor(e, st, j, m, draws).Err?
    ensures m.range.Some? ==>
      var first := BobMid(e.g, e.context(e.me), e.moduli[j], m.range.value, st.gamma, m.c, e.rings[j], e.rings[e.me],
        None, draws.0.betaprm, draws.0.rb, draws.0.d);
      var second := BobMid(e.g, e.context(e.me), e.moduli[j], m.range.value, st.w, m.c, e.rings[j], e.rings[e.me],
        Some(st.bigWs[e.me]), draws.1.betaprm, draws.1.rb, draws.1.d);
      && (BobFor(e, st, j, m, draws).Ok? <==> first.Ok? && second.Ok?)
      && (first.Ok? && second.Ok? ==> BobFor(e, st, j, m, draws) == Ok((first.value, second.value)))
    ensures forall draw, b, x, a :: AnswersAs(e, j, m.c, b, x, draw, a) <==>
      && a.beta < e.g.q && Cong(a.beta + draw.betaprm, 0, e.g.q)
      && IsAnswer(e.moduli[j], m.c, b, draw.betaprm, draw.rb, a.cb)
      && a.pi == ProveBob(e.g, e.context(e.me), e.moduli[j], e.rings[j], m.c, a.cb, b, draw.betaprm, draw.rb, x, draw.d)
  {
    hide BobMid, IsAnswer, ProveBob, Cong;
  }

  /** Round 3 goes on with peer j exactly when it sent both proofs, the second in twelve parts, the first is acceptable
      for my ciphertext under my key and ring, the second also for j's public weighted share W_j, and both answers
      decrypt: a peer that converts anything but the share behind W_j has to meet s1 G = e W_j + U. */
  lemma AliceForExact(e: Env, st: State, j: nat, m: Option<R2Msg>)
    requires e.Valid() && j < e.count && e.count > 1 && e.sk.n > 1 && j < |st.bigWs|
    ensures e.sk.n * e.sk.n > 0 && e.me < |e.rings| && e.rings[e.me].nt > 0 && e.g.q > 0
    ensures var r, n, c := AliceFor(e, st, j, m), e.sk.n, Held(st.cis, j);
      && (r.Ok? <==>
        && m.Some? && m.value.bob.Some? && m.value.wcParts == 12 && m.value.bobWc.Some?
        && BobAccepts(e.g, e.context(j), n, e.rings[e.me], c, m.value.c1, m.value.bob.value, None)
        && BobAccepts(e.g, e.context(j), n, e.rings[e.me], c, m.value.c2, m.value.bobWc.value, Some(st.bigWs[j]))
        && Decrypt(e.sk, m.value.c1).Ok? && Decrypt(e.sk, m.value.c2).Ok?)
      && (r.Ok? ==> r.value == (Decrypt(e.sk, m.value.c1).value % e.g.q, Decrypt(e.sk, m.value.c2).value % e.g.q))
  {
    hide *;
    EndsOf(e, st, j, m);
    if m.Some? && m.value.bob.Some? {
      AliceEndExact(e.g, e.context(j), e.sk, m.value.bob.value, None, e.rings[e.me], Held(st.cis, j), m.value.c1);
    }
    if m.Some? && m.value.bobWc.Some? {
      AliceEndExact(e.g, e.context(j), e.sk, m.value.bobWc.value, Some(st.bigWs[j]), e.rings[e.me], Held(st.cis, j),
        m.value.c2);
    }
  }

  lemma EndsOf(e: Env, st: State, j: nat, m: Option<R2Msg>)
    requires e.Valid() && j < e.count && e.count > 1 && e.sk.n > 1 && j < |st.bigWs|
    ensures e.g.q > 0 && e.sk.n * e.sk.n > 0 && e.me < |e.rings| && e.rings[e.me].nt > 0
    ensures m.None? || m.value.bob.None? || m.value.bobWc.None? ==> AliceFor(e, st, j, m).Err?
    ensures m.Some? && m.value.bob.Some? && m.value.bobWc.Some? ==>
      var first := AliceEnd(e.g, e.context(j), e.sk, m.value.bob.value, None, e.rings[e.me], Held(st.cis, j),
        m.value.c1);
      var second := AliceEnd(e.g, e.context(j), e.sk, m.value.bobWc.value, Some(st.bigWs[j]), e.rings[e.me],
        Held(st.cis, j), m.value.c2);
      && (AliceFor(e, st, j, m).Ok? <==> first.Ok? && m.value.wcParts == 12 && second.Ok?)
      && (first.Ok? && m.value.wcParts == 12 && second.Ok? ==>
        AliceFor(e, st, j, m) == Ok((first.value, second.value)))
  {
    hide AliceEnd;
  }
}
