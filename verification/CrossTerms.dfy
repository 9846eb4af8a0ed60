/** The pairwise products of the signing protocol (src/dklstss/signing.rs): sharing
    (sum a_i) * (sum b_j) additively with one multiplication per ordered pair. */
module CrossTerms {
  import opened NumberTheory
  import opened Bits
  import opened Results
  import opened Secp
  import opened OtExtension
  import opened BaseOt
  import opened Ole
  import opened OleCheck
  import opened Keys

  // ---------- sums ----------

  function Sum(xs: seq<int>, k: nat): int
    requires k <= |xs|
  {
    if k == 0 then 0 else Sum(xs, k - 1) + xs[k - 1]
  }

  function Total(xs: seq<int>): int { Sum(xs, |xs|) }

  lemma {:induction false} SumUpdate(xs: seq<int>, i: nat, v: int, k: nat)
    requires i < |xs| && k <= |xs|
    ensures Sum(xs[i := v], k) == Sum(xs, k) + if i < k then v - xs[i] else 0
  {
    if k > 0 { SumUpdate(xs, i, v, k - 1); }
  }

  lemma {:induction false} SumCong(n: int, xs: seq<int>, ys: seq<int>, k: nat)
    requires n > 0 && |xs| == |ys| && k <= |xs| && forall i :: 0 <= i < |xs| ==> Cong(xs[i], ys[i], n)
    ensures Cong(Sum(xs, k), Sum(ys, k), n)
  {
    if k > 0 {
      SumCong(n, xs, ys, k - 1);
      CongAdd(Sum(xs, k - 1), Sum(ys, k - 1), xs[k - 1], ys[k - 1], n);
    }
  }

  /** sum of the points or scalars, as the code accumulates it */
  method AddUp(n: int, xs: seq<Scalar>) returns (total: Scalar)
    requires n > 0
    ensures total == Total(xs) % n
  {
    total := 0;
    SmallMod(0, n);
    for i := 0 to |xs|
      invariant total == Sum(xs, i) % n
    {
      SumStep(n, total, Sum(xs, i), xs[i], xs[i]);
      total := FAdd(n, total, xs[i]);
    }
  }

  // ---------- products of sums ----------

  /** sum over i < k of a_i * b_i */
  function Diagonal(a: seq<int>, b: seq<int>, k: nat): int
    requires k <= |a| == |b|
  {
    if k == 0 then 0 else Diagonal(a, b, k - 1) + a[k - 1] * b[k - 1]
  }

  /** sum over j < k, j != i, of a_i * b_j */
  function Row(a: seq<int>, b: seq<int>, i: nat, k: nat): int
    requires i < |a| == |b| && k <= |b|
  {
    if k == 0 then 0 else Row(a, b, i, k - 1) + if k - 1 == i then 0 else a[i] * b[k - 1]
  }

  function Rows(a: seq<int>, b: seq<int>, k: nat): int
    requires k <= |a| == |b|
  {
    if k == 0 then 0 else Rows(a, b, k - 1) + Row(a, b, k - 1, |b|)
  }

  lemma {:induction false} RowIs(a: seq<int>, b: seq<int>, i: nat, k: nat)
    requires i < |a| == |b| && k <= |b|
    ensures Row(a, b, i, k) == a[i] * Sum(b, k) - if i < k then a[i] * b[i] else 0
  {
    if k > 0 {
      RowIs(a, b, i, k - 1);
      assert a[i] * (Sum(b, k - 1) + b[k - 1]) == a[i] * Sum(b, k - 1) + a[i] * b[k - 1];
    }
  }

  /** Diagonal and off-diagonal products make up the product of the sums. */
  lemma {:induction false} RowsAndDiagonal(a: seq<int>, b: seq<int>, k: nat)
    requires k <= |a| == |b|
    ensures Rows(a, b, k) + Diagonal(a, b, k) == Sum(a, k) * Sum(b, |b|)
  {
    if k > 0 {
      RowsAndDiagonal(a, b, k - 1);
      RowIs(a, b, k - 1, |b|);
      assert (Sum(a, k - 1) + a[k - 1]) * Sum(b, |b|) == Sum(a, k - 1) * Sum(b, |b|) + a[k - 1] * Sum(b, |b|);
    }
  }

  // ---------- one multiplication ----------

  datatype MulError = MulFailed | MissingOtState

  /** The random pads of the multiplications: pair (alice, bob), product k or x, first or second run. */
  datatype MulDraws = MulDraws(pad: (nat, nat, bool, bool) -> bytes) {
    ghost predicate Valid() { forall i, j, x, s :: |pad(i, j, x, s)| == PAD_BITS / 8 }
  }

  /** run_mul */
  method RunMul(o: Oracle, n: int, checked: bool, sid: bytes, alice: ExtReceiver, bob: ExtSender, alpha: Scalar,
    beta: Scalar,
    pad1: bytes, pad2: bytes) returns (res: Result<(Scalar, Scalar), MulError>)
    requires o.Valid() && alice.Valid() && bob.Valid() && n > 0 && alpha >= 0 && |pad1| == |pad2| == PAD_BITS / 8
    ensures res.Err? ==> res.error == MulFailed
    ensures SeedsMatch(bob, alice) && FitsScalar(n) && alpha < n ==>
      res.Ok? && Cong(res.value.0 + res.value.1, alpha * beta, n)
    ensures checked && res.Ok? ==> Checked(o, n, alice, bob, sid, alpha, beta, res.value)
  {
    hide *;
    if checked {
      var r := CheckedMultiply(o, n, alice, bob, sid, alpha, beta, pad1, pad2);
      return if r.Ok? then Ok(r.value) else Err(MulFailed);
    } else {
      var r := Multiply(o, n, alice, bob, sid, alpha, beta, pad1);
      return if r.Ok? then Ok(r.value) else Err(MulFailed);
    }
  }

  // ---------- all ordered pairs ----------

  /** The accumulators hold the diagonal, the rows before i and the first j products of row i. */
  ghost predicate Progress(n: int, acc: seq<Scalar>, a: seq<Scalar>, b: seq<Scalar>, i: nat, j: nat)
    requires n > 0 && i < |a| == |b| && j <= |b|
  {
    |acc| == |a| && Cong(Total(acc), Diagonal(a, b, |a|) + Rows(a, b, i) + Row(a, b, i, j), n)
  }

  /** Adding the two outputs of one multiplication to the two parties' accumulators. */
  function Credit(n: int, acc: seq<Scalar>, i: nat, uA: Scalar, j: nat, uB: Scalar): (r: seq<Scalar>)
    requires n > 0 && i < |acc| && j < |acc|
    ensures |r| == |acc| && (i != j ==> r[i] == FAdd(n, acc[i], uA) && r[j] == FAdd(n, acc[j], uB))
    ensures forall k :: 0 <= k < |acc| && k != i && k != j ==> r[k] == acc[k]
  {
    var first := acc[i := FAdd(n, acc[i], uA)];
    first[j := FAdd(n, first[j], uB)]
  }

  lemma CreditTotal(n: int, acc: seq<Scalar>, i: nat, uA: Scalar, j: nat, uB: Scalar)
    requires n > 0 && i < |acc| && j < |acc|
    ensures Cong(Total(Credit(n, acc, i, uA, j, uB)), Total(acc) + (uA + uB), n)
  {
    var first := acc[i := FAdd(n, acc[i], uA)];
    SumUpdate(acc, i, FAdd(n, acc[i], uA), |acc|);
    SumUpdate(first, j, FAdd(n, first[j], uB), |acc|);
    var x, y := FAdd(n, acc[i], uA), FAdd(n, first[j], uB);
    FieldOps(n, acc[i], uA);
    FieldOps(n, first[j], uB);
    CreditArithmetic(n, Total(acc), acc[i], x, uA, first[j], y, uB);
  }

  lemma CreditArithmetic(n: int, t: int, a: int, x: int, uA: int, b: int, y: int, uB: int)
    requires n > 0 && Cong(x, a + uA, n) && Cong(y, b + uB, n)
    ensures Cong(t + (x - a) + (y - b), t + (uA + uB), n)
  {
    CongSub(x, a + uA, a, a, n);
    CongSub(y, b + uB, b, b, n);
    CongAdd(t, t, x - a, uA, n);
    CongAdd(t + (x - a), t + uA, y - b, uB, n);
  }

  lemma PairCredited(n: int, acc: seq<Scalar>, a: seq<Scalar>, b: seq<Scalar>, i: nat, j: nat, uA: Scalar, uB: Scalar)
    requires n > 0 && i < |a| == |b| && j < |b| && i != j
    requires Progress(n, acc, a, b, i, j) && Cong(uA + uB, a[i] * b[j], n)
    ensures Progress(n, Credit(n, acc, i, uA, j, uB), a, b, i, j + 1)
  {
    CreditTotal(n, acc, i, uA, j, uB);
    var done := Diagonal(a, b, |a|) + Rows(a, b, i) + Row(a, b, i, j);
    CongAdd(Total(acc), done, uA + uB, a[i] * b[j], n);
  }

  lemma ProgressEnds(n: int, acc: seq<Scalar>, a: seq<Scalar>, b: seq<Scalar>, i: nat)
    requires n > 0 && i < |a| == |b| && Progress(n, acc, a, b, i, |b|)
    ensures i + 1 < |a| ==> Progress(n, acc, a, b, i + 1, 0)
    ensures i + 1 == |a| ==> Cong(Total(acc), Total(a) * Total(b), n)
  {
    RowsAndDiagonal(a, b, |a|);
  }

  lemma DiagonalStart(n: int, acc: seq<Scalar>, a: seq<Scalar>, b: seq<Scalar>)
    requires n > 0 && 0 < |a| == |b| == |acc| && forall i :: 0 <= i < |a| ==> acc[i] == FMul(n, a[i], b[i])
    ensures Progress(n, acc, a, b, 0, 0)
  {
    DiagonalSum(n, acc, a, b, |a|);
  }

  lemma {:induction false} DiagonalSum(n: int, acc: seq<Scalar>, a: seq<Scalar>, b: seq<Scalar>, k: nat)
    requires n > 0 && |a| == |b| == |acc| && k <= |a| && forall i :: 0 <= i < |a| ==> acc[i] == FMul(n, a[i], b[i])
    ensures Cong(Sum(acc, k), Diagonal(a, b, k), n)
  {
    if k > 0 {
      DiagonalSum(n, acc, a, b, k - 1);
      FieldOps(n, a[k - 1], b[k - 1]);
      CongAdd(Sum(acc, k - 1), Diagonal(a, b, k - 1), acc[k - 1], a[k - 1] * b[k - 1], n);
    }
  }

  function Products(n: int, a: seq<Scalar>, b: seq<Scalar>): (p: seq<Scalar>)
    requires n > 0 && |a| == |b|
    ensures |p| == |a| && forall i :: 0 <= i < |a| ==> p[i] == FMul(n, a[i], b[i])
  {
    seq(|a|, i requires 0 <= i < |a| => FMul(n, a[i], b[i]))
  }

  /** Loaded pair states are well-sized, and every key has a slot for every other. */
  ghost predicate Slots(signers: seq<Key>) {
    forall a, b :: 0 <= a < |signers| && 0 <= b < |signers| ==>
      && signers[b].idx < |signers[a].ot|
      && (signers[a].ot[signers[b].idx].Some? ==> signers[a].ot[signers[b].idx].value.Valid())
  }

  /** Every two signers hold matching OT state. */
  ghost predicate PairsReady(signers: seq<Key>)
    requires Slots(signers)
  {
    forall a, b :: 0 <= a < |signers| && 0 <= b < |signers| && a != b ==>
      PairMatches(signers[a].ot[signers[b].idx], signers[b].ot[signers[a].idx])
  }

  /** The two multiplications of one ordered pair. */
  method PairProducts(o: Oracle, n: int, checked: bool, sidK: bytes, sidX: bytes, alice: Option<PairOt>,
    bob: Option<PairOt>,
    ka: Scalar, xa: Scalar, rb: Scalar, i: nat, j: nat, draws: MulDraws)
    returns (res: Result<((Scalar, Scalar), (Scalar, Scalar)), MulError>)
    requires o.Valid() && n > 0 && ka >= 0 && xa >= 0 && draws.Valid()
    requires (alice.Some? ==> alice.value.Valid()) && (bob.Some? ==> bob.value.Valid())
    ensures alice == None || bob == None ==> res == Err(MissingOtState)
    ensures PairMatches(alice, bob) && FitsScalar(n) && ka < n && xa < n ==>
      res.Ok? && Cong(res.value.0.0 + res.value.0.1, ka * rb, n) && Cong(res.value.1.0 + res.value.1.1, xa * rb, n)
    ensures checked && res.Ok? ==>
      && alice.Some? && bob.Some?
      && Checked(o, n, alice.value.asAlice, bob.value.asBob, sidK, ka, rb, res.value.0)
      && Checked(o, n, alice.value.asAlice, bob.value.asBob, sidX, xa, rb, res.value.1)
  {
    hide SeedsMatch, Cong, FitsScalar, Checked;
    if alice == None || bob == None { return Err(MissingOtState); }
    var rcv, snd := alice.value.asAlice, bob.value.asBob;
    var first := RunMul(o, n, checked, sidK, rcv, snd, ka, rb, draws.pad(i, j, false, false),
      draws.pad(i, j, false, true));
    if first.Err? { return Err(first.error); }
    var second := RunMul(o, n, checked, sidX, rcv, snd, xa, rb, draws.pad(i, j, true, false),
      draws.pad(i, j, true, true));
    if second.Err? { return Err(second.error); }
    return Ok((first.value, second.value));
  }

  ghost predicate InField(n: int, xs: seq<Scalar>) { forall i :: 0 <= i < |xs| ==> 0 <= xs[i] < n }

  /** Both checked multiplications of an ordered pair went through. */
  ghost predicate PairChecked(o: Oracle, n: int, sidOf: (bool, nat, nat) -> bytes, alice: Key, bob: Key, k: Scalar,
    x: Scalar, rho: Scalar)
    requires o.Valid() && n > 0
  {
    && bob.idx < |alice.ot| && alice.idx < |bob.ot| && alice.ot[bob.idx].Some? && bob.ot[alice.idx].Some?
    && alice.ot[bob.idx].value.Valid() && bob.ot[alice.idx].value.Valid()
    && (exists out :: Checked(o, n, alice.ot[bob.idx].value.asAlice, bob.ot[alice.idx].value.asBob,
      sidOf(false, alice.idx, bob.idx), k, rho, out))
    && exists out :: Checked(o, n, alice.ot[bob.idx].value.asAlice, bob.ot[alice.idx].value.asBob,
      sidOf(true, alice.idx, bob.idx), x, rho, out)
  }

  /** Those of the pairs before row i, column j did. */
  ghost predicate CheckedUpTo(o: Oracle, n: int, sidOf: (bool, nat, nat) -> bytes, signers: seq<Key>, k: seq<Scalar>,
    sx: seq<Scalar>, rho: seq<Scalar>, i: nat, j: nat)
    requires o.Valid() && n > 0 && |signers| == |k| == |sx| == |rho|
  {
    forall a, b :: 0 <= a < |signers| && 0 <= b < |signers| && a != b && Done(a, b, i, j) ==>
      PairChecked(o, n, sidOf, signers[a], signers[b], k[a], sx[a], rho[b])
  }

  lemma CheckedSteps(o: Oracle, n: int, sidOf: (bool, nat, nat) -> bytes, signers: seq<Key>, k: seq<Scalar>,
    sx: seq<Scalar>, rho: seq<Scalar>, i: nat, j: nat)
    requires o.Valid() && n > 0 && |signers| == |k| == |sx| == |rho|
    ensures CheckedUpTo(o, n, sidOf, signers, k, sx, rho, 0, 0)
    ensures CheckedUpTo(o, n, sidOf, signers, k, sx, rho, i, |signers|) ==>
      CheckedUpTo(o, n, sidOf, signers, k, sx, rho, i + 1, 0)
    ensures i < |signers| && j < |signers| && CheckedUpTo(o, n, sidOf, signers, k, sx, rho, i, j) ==>
      (i == j || PairChecked(o, n, sidOf, signers[i], signers[j], k[i], sx[i], rho[j])) ==>
        CheckedUpTo(o, n, sidOf, signers, k, sx, rho, i, j + 1)
  {
    hide PairChecked;
  }

  /** No two multiplications share a session id, as long as indexes fit in 32 bits. */
  ghost predicate FreshSids(sidOf: (bool, nat, nat) -> bytes) {
    forall x, x', a, b, a', b' | a < 0x1_0000_0000 && b < 0x1_0000_0000 && a' < 0x1_0000_0000 && b' < 0x1_0000_0000 ::
      sidOf(x, a, b) == sidOf(x', a', b') ==> x == x' && a == a' && b == b'
  }

  /** Round 2: additive shares of (sum k)(sum rho) and (sum sx)(sum rho). */
  method CrossShares(o: Oracle, n: int, checked: bool, sidOf: (bool, nat, nat) -> bytes, signers: seq<Key>,
    k: seq<Scalar>, sx: seq<Scalar>, rho: seq<Scalar>, draws: MulDraws)
    returns (res: Result<(seq<Scalar>, seq<Scalar>), MulError>)
    requires o.Valid() && n > 0 && 0 < |signers| == |k| == |sx| == |rho| && Slots(signers) && draws.Valid()
    requires InField(n, k) && InField(n, sx) && FreshSids(sidOf)
    ensures res.Ok? ==> |res.value.0| == |res.value.1| == |signers|
    ensures PairsReady(signers) && FitsScalar(n) ==>
      && res.Ok? && Cong(Total(res.value.0), Total(k) * Total(rho), n) && Cong(Total(res.value.1),
        Total(sx) * Total(rho), n)
    ensures checked && res.Ok? ==> CheckedUpTo(o, n, sidOf, signers, k, sx, rho, |signers|, 0)
  {
    hide Cong, FitsScalar, PairMatches, Credit, Progress, FreshSids, Checked, PairChecked, CheckedUpTo;
    CheckedSteps(o, n, sidOf, signers, k, sx, rho, 0, 0);
    var kRho, xRho := Products(n, k, rho), Products(n, sx, rho);
    DiagonalStart(n, kRho, k, rho);
    DiagonalStart(n, xRho, sx, rho);
    ghost var ready := PairsReady(signers) && FitsScalar(n);
    for i := 0 to |signers|
      invariant |kRho| == |xRho| == |signers|
      invariant checked ==> CheckedUpTo(o, n, sidOf, signers, k, sx, rho, i, 0)
      invariant ready && i < |signers| ==> Progress(n, kRho, k, rho, i, 0) && Progress(n, xRho, sx, rho, i, 0)
      invariant ready && i == |signers| ==>
        Cong(Total(kRho), Total(k) * Total(rho), n) && Cong(Total(xRho), Total(sx) * Total(rho), n)
    {
      for j := 0 to |signers|
        invariant |kRho| == |xRho| == |signers|
        invariant checked ==> CheckedUpTo(o, n, sidOf, signers, k, sx, rho, i, j)
        invariant ready ==> Progress(n, kRho, k, rho, i, j) && Progress(n, xRho, sx, rho, i, j)
      {
        CheckedSteps(o, n, sidOf, signers, k, sx, rho, i, j);
        if i == j {
          SelfSkipped(n, kRho, k, rho, i);
          SelfSkipped(n, xRho, sx, rho, i);
          continue;
        }
        var alice, bob := signers[i], signers[j];
        var r := PairProducts(o, n, checked, sidOf(false, alice.idx, bob.idx), sidOf(true, alice.idx, bob.idx),
          alice.ot[bob.idx], bob.ot[alice.idx], k[i], sx[i], rho[j], i, j, draws);
        if r.Err? { return Err(r.error); }
        var ((kA, kB), (xA, xB)) := r.value;
        if checked { BothChecked(o, n, sidOf, alice, bob, k[i], sx[i], rho[j], r.value); }
        if ready {
          PairCredited(n, kRho, k, rho, i, j, kA, kB);
          PairCredited(n, xRho, sx, rho, i, j, xA, xB);
        }
        kRho := Credit(n, kRho, i, kA, j, kB);
        xRho := Credit(n, xRho, i, xA, j, xB);
      }
      CheckedSteps(o, n, sidOf, signers, k, sx, rho, i, 0);
      if ready {
        ProgressEnds(n, kRho, k, rho, i);
        ProgressEnds(n, xRho, sx, rho, i);
      }
    }
    return Ok((kRho, xRho));
  }

  lemma BothChecked(o: Oracle, n: int, sidOf: (bool, nat, nat) -> bytes, alice: Key, bob: Key, k: Scalar, x: Scalar,
    rho: Scalar, outs: ((Scalar, Scalar), (Scalar, Scalar)))
    requires o.Valid() && n > 0 && bob.idx < |alice.ot| && alice.idx < |bob.ot|
    requires alice.ot[bob.idx].Some? && bob.ot[alice.idx].Some?
    requires alice.ot[bob.idx].value.Valid() && bob.ot[alice.idx].value.Valid()
    requires Checked(o, n, alice.ot[bob.idx].value.asAlice, bob.ot[alice.idx].value.asBob,
      sidOf(false, alice.idx, bob.idx), k, rho, outs.0)
    requires Checked(o, n, alice.ot[bob.idx].value.asAlice, bob.ot[alice.idx].value.asBob,
      sidOf(true, alice.idx, bob.idx), x, rho, outs.1)
    ensures PairChecked(o, n, sidOf, alice, bob, k, x, rho)
  {
    hide Checked;
  }

  lemma SelfSkipped(n: int, acc: seq<Scalar>, a: seq<Scalar>, b: seq<Scalar>, i: nat)
    requires n > 0 && i < |a| == |b|
    ensures Progress(n, acc, a, b, i, i) ==> Progress(n, acc, a, b, i, i + 1)
  {
  }
}
