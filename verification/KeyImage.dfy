/** Threshold key images (src/dklstss/keyimage_party.rs): the committee computes x*P for a hashed point P, and every
    qualifying committee computes the same one. */
module KeyImage {
  import opened NumberTheory
  import opened Polynomial
  import opened Results
  import opened Secp
  import opened Committee
  import opened Lagrange
  import opened BaseOt
  import opened Keys

  type Identifier = seq<nat>

  /** What a proof is bound to. */
  datatype Session = Session(identifier: Identifier, pub: Point, subset: seq<nat>, prover: nat)

  /** The caller's hash, through the three uses made of it: candidate points, challenges and secrets. */
  datatype Hashes = Hashes(candidate: (Identifier, Point, nat) -> Option<Point>,
    challenge: (Session, Point, Point, Point, Point, Point) -> nat, secret: (Identifier, Point, Point) -> nat)

  datatype KeyImageError =
    | InvalidKey | SubsetTooSmall | SubsetNotSorted | NotInSubset | PublicKeyIdentity | NoPoint | RepeatedId
    | IdentityOnWire | Malformed(who: nat) | Oversized(who: nat) | MissingShare(who: nat) | BadProof(who: nat)
    | ImageIdentity | SecretZero | ChildIdentity

  // ---------- hash to point ----------

  const COUNTERS: nat := 0x1_0000_0000

  /** The counter's candidate is a point other than the identity. */
  ghost predicate Usable(h: Hashes, id: Identifier, pub: Point, counter: nat) {
    h.candidate(id, pub, counter).Some? && h.candidate(id, pub, counter).value != 0
  }

  ghost predicate FirstUsable(h: Hashes, id: Identifier, pub: Point, counter: nat) {
    Usable(h, id, pub, counter) && forall j :: 0 <= j < counter ==> !Usable(h, id, pub, j)
  }

  /** P is the point of the identifier: the candidate of the first usable counter. */
  ghost predicate IsPointOf(h: Hashes, id: Identifier, pub: Point, p: Point) {
    exists i: nat :: i < 0x1_0000_0000 && FirstUsable(h, id, pub, i) && h.candidate(id, pub, i) == Some(p)
  }

  /** The map is a function of the identifier and the public key. */
  lemma PointUnique(h: Hashes, id: Identifier, pub: Point, p: Point, p': Point)
    requires IsPointOf(h, id, pub, p) && IsPointOf(h, id, pub, p')
    ensures p == p' && p != 0
  {
    var i: nat :| i < COUNTERS && FirstUsable(h, id, pub, i) && h.candidate(id, pub, i) == Some(p);
    var j: nat :| j < COUNTERS && FirstUsable(h, id, pub, j) && h.candidate(id, pub, j) == Some(p');
  }

  /** hash_to_point: the first counter that works; with none of them the source panics, here NoPoint. */
  method HashToPoint(h: Hashes, id: Identifier, pub: Point) returns (res: Result<Point, KeyImageError>)
    ensures res == Err(PublicKeyIdentity) <==> pub == 0
    ensures res.Err? ==> res.error == PublicKeyIdentity || res.error == NoPoint
    ensures res == Err(NoPoint) ==> forall i :: 0 <= i < COUNTERS ==> !Usable(h, id, pub, i)
    ensures res.Ok? ==> IsPointOf(h, id, pub, res.value)
  {
    if pub == 0 { return Err(PublicKeyIdentity); }
    for counter := 0 to COUNTERS
      invariant forall j :: 0 <= j < counter ==> !Usable(h, id, pub, j)
    {
      var p := h.candidate(id, pub, counter);
      if p.Some? && p.value != 0 {
        assert FirstUsable(h, id, pub, counter);
        return Ok(p.value);
      }
    }
    return Err(NoPoint);
  }

  // ---------- equality of discrete logarithms ----------

  datatype Dleq = Dleq(a1: Point, a2: Point, z: Scalar)

  function Challenge(h: Hashes, n: int, s: Session, p: Point, y: Point, w: Point, a1: Point, a2: Point): (c: Scalar)
    requires n > 0
    ensures 0 <= c < n
  {
    h.challenge(s, p, y, w, a1, a2) % n
  }

  /** Dleq::prove with the drawn r */
  function ProveDleq(h: Hashes, n: int, s: Session, p: Point, w: Scalar, y: Point, wPt: Point, r: Scalar): (d: Dleq)
    requires n > 0
    ensures d.a1 == r % n && d.a2 == p * r % n && 0 <= d.z < n
  {
    var a1, a2 := MulBase(n, r), PointMul(n, p, r);
    Dleq(a1, a2, FAdd(n, r, FMul(n, Challenge(h, n, s, p, y, wPt, a1, a2), w)))
  }

  /** The two equations for a given challenge. */
  predicate Responds(n: int, p: Point, y: Point, wPt: Point, a1: Point, a2: Point, c: Scalar, z: Scalar)
    requires n > 0
  {
    && MulBase(n, z) == PointAdd(n, a1, PointMul(n, y, c))
    && PointMul(n, p, z) == PointAdd(n, a2, PointMul(n, wPt, c))
  }

  /** Dleq::verify */
  predicate VerifyDleq(h: Hashes, n: int, s: Session, p: Point, y: Point, wPt: Point, d: Dleq)
    requires n > 0
  {
    Responds(n, p, y, wPt, d.a1, d.a2, Challenge(h, n, s, p, y, wPt, d.a1, d.a2), d.z)
  }

  /** What an honest proof carries: the commitments to the drawn r and the response r + c w. */
  lemma ProofMade(h: Hashes, n: int, s: Session, p: Point, w: Scalar, y: Point, wPt: Point, r: Scalar)
    requires n > 0
    ensures var d := ProveDleq(h, n, s, p, w, y, wPt, r);
      Cong(d.z, r + (h.challenge(s, p, y, wPt, r % n, p * r % n) % n) * w, n)
  {
    var c := h.challenge(s, p, y, wPt, r % n, p * r % n) % n;
    FieldOps(n, c, w);
    FieldOps(n, r, FMul(n, c, w));
    assert ProveDleq(h, n, s, p, w, y, wPt, r).z == FAdd(n, r, FMul(n, c, w));
    hide *;
    CongSelf(r, n);
    CongAdd(r, r, FMul(n, c, w), c * w, n);
    CongTrans(FAdd(n, r, FMul(n, c, w)), r + FMul(n, c, w), r + c * w, n);
  }

  /** What verify accepts, for any proof: with c the hash of session, points and commitments, z = a1 + c y and
      z p = a2 + c w, for the logarithm y of the statement and any partial w. */
  lemma VerifyExact(h: Hashes, n: int, s: Session, p: Point, y: Point, wPt: Point, d: Dleq)
    requires n > 0
    ensures var c := h.challenge(s, p, y, wPt, d.a1, d.a2) % n;
      VerifyDleq(h, n, s, p, y, wPt, d) <==> Cong(d.z, d.a1 + c * y, n) && Cong(p * d.z, d.a2 + c * wPt, n)
  {
    var c := h.challenge(s, p, y, wPt, d.a1, d.a2) % n;
    EquationExact(n, 1, y, d.a1, c, d.z);
    EquationExact(n, p, wPt, d.a2, c, d.z);
    BasePoint(n, d.z);
  }

  lemma EquationExact(n: int, p: Point, y: Point, a: Point, c: Scalar, z: Scalar)
    requires n > 0
    ensures PointMul(n, p, z) == PointAdd(n, a, PointMul(n, y, c)) <==> Cong(p * z, a + c * y, n)
  {
    var t := PointMul(n, y, c);
    FieldOps(n, p, z);
    FieldOps(n, y, c);
    FieldOps(n, a, t);
    assert y * c == c * y;
    hide *;
    CongSelf(a, n);
    CongAdd(a, a, t, c * y, n);
    CongTrans(PointAdd(n, a, t), a + t, a + c * y, n);
    if PointMul(n, p, z) == PointAdd(n, a, t) { CongTrans(p * z, PointMul(n, p, z), a + c * y, n); }
    if Cong(p * z, a + c * y, n) {
      CongTrans(PointMul(n, p, z), p * z, a + c * y, n);
      CongTrans(PointMul(n, p, z), a + c * y, PointAdd(n, a, t), n);
      CongSmall(PointMul(n, p, z), PointAdd(n, a, t), n);
    }
  }

  /** [k]p + [c]([w]p) = [k + cw]p */
  lemma LinearPoint(n: int, p: Point, w: Scalar, wPt: Point, c: Scalar, k: Scalar, a: Point, z: Scalar)
    requires n > 0 && Cong(wPt, p * w, n) && Cong(a, p * k, n) && Cong(z, k + c * w, n)
    ensures PointMul(n, p, z) == PointAdd(n, a, PointMul(n, wPt, c))
  {
    var l, r, t := PointMul(n, p, z), PointAdd(n, a, PointMul(n, wPt, c)), PointMul(n, wPt, c);
    FieldOps(n, p, z);
    FieldOps(n, wPt, c);
    FieldOps(n, a, t);
    hide PointMul, PointAdd, Cong;
    CongScale(c, wPt, p * w, n);
    CongTrans(t, wPt * c, (p * w) * c, n);
    CongAdd(a, p * k, t, (p * w) * c, n);
    CongTrans(r, a + t, p * k + (p * w) * c, n);
    CongScale(p, z, k + c * w, n);
    assert p * (k + c * w) == p * k + (p * w) * c by { Distribute(p, k, c, w); }
    CongTrans(l, p * z, p * (k + c * w), n);
    CongTrans(l, p * (k + c * w), r, n);
    CongSmall(l, r, n);
  }

  lemma Distribute(p: int, k: int, c: int, w: int)
    ensures p * (k + c * w) == p * k + (p * w) * c
  {
  }

  /** Completeness: an honest proof verifies. */
  lemma DleqComplete(h: Hashes, n: int, s: Session, p: Point, w: Scalar, r: Scalar)
    requires n > 0
    ensures var y, wPt := MulBase(n, w), PointMul(n, p, w);
      VerifyDleq(h, n, s, p, y, wPt, ProveDleq(h, n, s, p, w, y, wPt, r))
  {
    var y, wPt := MulBase(n, w), PointMul(n, p, w);
    var d := ProveDleq(h, n, s, p, w, y, wPt, r);
    var c := Challenge(h, n, s, p, y, wPt, d.a1, d.a2);
    FieldOps(n, w, 0);
    FieldOps(n, r, 0);
    FieldOps(n, p, w);
    FieldOps(n, p, r);
    FieldOps(n, c, w);
    FieldOps(n, r, FMul(n, c, w));
    hide Challenge, Cong;
    CongAdd(r, r, FMul(n, c, w), c * w, n);
    CongTrans(d.z, r + FMul(n, c, w), r + c * w, n);
    LinearPoint(n, p, w, wPt, c, r, d.a2, d.z);
    BasePoint(n, d.z);
    LinearPoint(n, 1, w, y, c, r, d.a1, d.z);
  }

  /** The generator has logarithm one. */
  lemma BasePoint(n: int, z: Scalar)
    requires n > 0
    ensures PointMul(n, 1, z) == MulBase(n, z)
  {
  }

  /** Soundness at the core of the proof: two answered challenges for the same commitments force the partial to carry
      the statement's logarithm. */
  lemma DleqTwoChallenges(n: int, p: Point, y: Point, wPt: Point, a1: Point, a2: Point, c: Scalar, z: Scalar,
    c': Scalar, z': Scalar)
    requires IsPrime(n) && !Cong(c, c', n)
    requires Responds(n, p, y, wPt, a1, a2, c, z) && Responds(n, p, y, wPt, a1, a2, c', z')
    ensures Cong(wPt, p * y, n)
  {
    RespondsDiffer(n, p, y, wPt, a1, a2, c, z, c', z');
    PrimeAbove(n);
    CongDiff(c, c', n);
    PrimeCoprime(n, c - c');
    hide *;
    OneLogarithm(n, p, y, wPt, c - c', z - z');
  }

  lemma PrimeAbove(n: int)
    requires IsPrime(n)
    ensures n > 0
  {
  }

  lemma RespondsDiffer(n: int, p: Point, y: Point, wPt: Point, a1: Point, a2: Point, c: Scalar, z: Scalar, c': Scalar,
    z': Scalar)
    requires n > 0 && Responds(n, p, y, wPt, a1, a2, c, z) && Responds(n, p, y, wPt, a1, a2, c', z')
    ensures Cong(z - z', (c - c') * y, n) && Cong(p * (z - z'), (c - c') * wPt, n)
  {
    EquationDiffers(n, 1, y, a1, c, z, c', z');
    EquationDiffers(n, p, wPt, a2, c, z, c', z');
    BasePoint(n, z);
    BasePoint(n, z');
  }

  lemma EquationDiffers(n: int, p: Point, y: Point, a: Point, c: Scalar, z: Scalar, c': Scalar, z': Scalar)
    requires n > 0
    ensures PointMul(n, p, z) == PointAdd(n, a, PointMul(n, y, c)) && PointMul(n, p, z') == PointAdd(n, a,
      PointMul(n, y, c')) ==>
      Cong(p * (z - z'), (c - c') * y, n)
  {
    if PointMul(n, p, z) == PointAdd(n, a, PointMul(n, y, c)) && PointMul(n, p, z') == PointAdd(n, a,
      PointMul(n, y, c')) {
      EquationHolds(n, p, y, a, c, z);
      EquationHolds(n, p, y, a, c', z');
      CongSub(p * z, a + y * c, p * z', a + y * c', n);
      DifferenceIdentity(p, z, z', y, c, c', a);
    }
  }

  lemma DifferenceIdentity(p: int, z: int, z': int, y: int, c: int, c': int, a: int)
    ensures p * (z - z') == p * z - p * z' && (c - c') * y == (a + y * c) - (a + y * c')
  {
  }

  lemma EquationHolds(n: int, p: Point, y: Point, a: Point, c: Scalar, z: Scalar)
    requires n > 0 && PointMul(n, p, z) == PointAdd(n, a, PointMul(n, y, c))
    ensures Cong(p * z, a + y * c, n)
  {
    var t := PointMul(n, y, c);
    FieldOps(n, p, z);
    FieldOps(n, y, c);
    FieldOps(n, a, t);
    CongAdd(a, a, t, y * c, n);
    CongTrans(PointAdd(n, a, t), a + t, a + y * c, n);
    CongTrans(p * z, PointMul(n, p, z), a + y * c, n);
  }

  lemma OneLogarithm(n: int, p: Point, y: Point, wPt: Point, d: int, e: int)
    requires n > 0 && Coprime(d, n) && Cong(e, d * y, n) && Cong(p * e, d * wPt, n)
    ensures Cong(wPt, p * y, n)
  {
    CongScale(p, e, d * y, n);
    CongTrans(d * wPt, p * e, p * (d * y), n);
    assert p * (d * y) == d * (p * y) by { MoveFactor(p, d, y); }
    CancelCoprime(d, wPt, p * y, n);
  }

  lemma MoveFactor(p: int, d: int, y: int)
    ensures p * (d * y) == d * (p * y)
  {
  }

  // ---------- the ceremony ----------

  datatype KeyImageR1 = KeyImageR1(w: Option<Point>, a1: Option<Point>, a2: Option<Point>, zLen: nat, z: nat)

  datatype KeyImageSecret = KeyImageSecret(secret: Scalar, publicKey: Point, keyImage: Point)

  /** One member's view of the ceremony. */
  datatype Ceremony = Ceremony(key: Key, identifier: Identifier, subset: seq<nat>, point: Point, myPos: nat,
    myPartial: Point)

  function SubsetIds(n: int, subset: seq<nat>): (ids: seq<Scalar>)
    requires n > 0
    ensures |ids| == |subset| && Reduced(n, ids) && forall i :: 0 <= i < |subset| ==> ids[i] == subset[i] % n
  {
    Ids(n, subset)
  }

  function IndexOf(xs: seq<nat>, x: nat): (p: Option<nat>)
    ensures p.Some? <==> x in xs
    ensures p.Some? ==> p.value < |xs| && xs[p.value] == x
  {
    if xs == [] then None
    else if xs[0] == x then Some(0)
    else
      var rest := IndexOf(xs[1..], x);
      if rest.None? then None else Some(rest.value + 1)
  }

  /** The other members, in subset order. */
  function Peers(subset: seq<nat>, me: nat): seq<nat>
    requires me < |subset|
  {
    subset[..me] + subset[me + 1..]
  }

  /** lambda_j * X_j */
  function Statement(n: int, k: Key, subset: seq<nat>, pos: nat, full: nat): Point
    requires n > 0 && pos < |subset| && full < |k.bigXj|
  {
    PointMul(n, k.bigXj[full], Weight(n, SubsetIds(n, subset), pos) % n)
  }

  function SessionOf(st: Ceremony, prover: nat): Session { Session(st.identifier, st.key.ecdsaPub, st.subset, prover) }

  ghost predicate RepeatsId(n: int, ids: seq<Scalar>, pos: nat)
    requires n > 0 && pos < |ids|
  {
    exists j :: 0 <= j < |ids| && j != pos && Cong(ids[j], ids[pos], n)
  }

  /** What finalize makes of one peer's message: its partial, or the reason to abort. */
  ghost function Partial(h: Hashes, n: int, st: Ceremony, peer: nat, m: KeyImageR1): Result<Point, KeyImageError>
    requires n > 0
  {
    if m.w.None? || m.a1.None? || m.a2.None? then Err(Malformed(peer))
    else if m.zLen > 32 then Err(Oversized(peer))
    else if peer !in st.subset then Err(NotInSubset)
    else if peer !in st.key.partyIds || IndexOf(st.key.partyIds,
      peer).value >= |st.key.bigXj| then Err(MissingShare(peer))
    else
      var pos, full := IndexOf(st.subset, peer).value, IndexOf(st.key.partyIds, peer).value;
      if RepeatsId(n, SubsetIds(n, st.subset), pos) then Err(RepeatedId)
      else if VerifyDleq(h, n, SessionOf(st, peer), st.point, Statement(n, st.key, st.subset, pos, full), m.w.value,
                         Dleq(m.a1.value, m.a2.value, m.z % n)) then Ok(m.w.value)
      else Err(BadProof(peer))
  }

  /** What an accepted partial of a peer has passed: its proof, for the session of identifier, key and subset with that
      peer as the prover, ties it to the peer's public share times its weight in the subset. */
  lemma PartialMeans(h: Hashes, n: int, st: Ceremony, peer: nat, m: KeyImageR1)
    requires n > 0 && Partial(h, n, st, peer, m).Ok?
    ensures m.w == Some(Partial(h, n, st, peer, m).value) && m.a1.Some? && m.a2.Some? && m.zLen <= 32
    ensures peer in st.subset && peer in st.key.partyIds && exists pos, full ::
      && 0 <= pos < |st.subset| && st.subset[pos] == peer
      && 0 <= full < |st.key.bigXj| && full < |st.key.partyIds| && st.key.partyIds[full] == peer
      && var y := (st.key.bigXj[full] * (Weight(n, SubsetIds(n, st.subset), pos) % n)) % n;
         var c := h.challenge(Session(st.identifier, st.key.ecdsaPub, st.subset, peer), st.point, y, m.w.value,
           m.a1.value, m.a2.value) % n;
      && Cong(m.z, m.a1.value + c * y, n) && Cong(st.point * (m.z % n), m.a2.value + c * m.w.value, n)
  {
    var pos, full := IndexOf(st.subset, peer).value, IndexOf(st.key.partyIds, peer).value;
    var y, d := Statement(n, st.key, st.subset, pos, full), Dleq(m.a1.value, m.a2.value, m.z % n);
    assert y == (st.key.bigXj[full] * (Weight(n, SubsetIds(n, st.subset), pos) % n)) % n;
    assert VerifyDleq(h, n, SessionOf(st, peer), st.point, y, m.w.value, d);
    VerifyExact(h, n, SessionOf(st, peer), st.point, y, m.w.value, d);
    CongMod(m.z, n);
    assert SessionOf(st, peer) == Session(st.identifier, st.key.ecdsaPub, st.subset, peer);
    hide Weight, Cong, VerifyDleq, SubsetIds, Statement, IndexOf, Partial;
    var c := h.challenge(SessionOf(st, peer), st.point, y, m.w.value, m.a1.value, m.a2.value) % n;
    CongFlip(m.z % n, m.z, n);
    CongTrans(m.z, m.z % n, m.a1.value + c * y, n);
  }

  method CheckPartial(h: Hashes, n: int, st: Ceremony, peer: nat, m: KeyImageR1) returns (res: Result<Point,
    KeyImageError>)
    requires n > 0 && |st.key.bigXj| == |st.key.partyIds|
    ensures res == Partial(h, n, st, peer, m)
  {
    hide Weight, Cong, VerifyDleq;
    if m.w.None? || m.a1.None? || m.a2.None? { return Err(Malformed(peer)); }
    if m.zLen > 32 { return Err(Oversized(peer)); }
    var z := m.z % n;
    var pos := IndexOf(st.subset, peer);
    if pos.None? { return Err(NotInSubset); }
    var full := IndexOf(st.key.partyIds, peer);
    if full.None? { return Err(MissingShare(peer)); }
    var lambda := LagrangeCoefficient(n, SubsetIds(n, st.subset), pos.value);
    if lambda.Err? { return Err(RepeatedId); }
    var statement := PointMul(n, st.key.bigXj[full.value], lambda.value);
    if !VerifyDleq(h, n, SessionOf(st, peer), st.point, statement, m.w.value, Dleq(m.a1.value, m.a2.value, z)) {
      return Err(BadProof(peer));
    }
    return Ok(m.w.value);
  }

  /** The running sum over the peers from the k-th on, or the first failure. */
  ghost function SumPartials(h: Hashes, n: int, st: Ceremony, peers: seq<nat>, msgs: seq<KeyImageR1>, k: nat,
    acc: Point): Result<Point, KeyImageError>
    requires n > 0 && k <= |peers| == |msgs|
    decreases |peers| - k
  {
    if k == |peers| then Ok(acc)
    else
      var w := Partial(h, n, st, peers[k], msgs[k]);
      if w.Err? then Err(w.error) else SumPartials(h, n, st, peers, msgs, k + 1, PointAdd(n, acc, w.value))
  }

  /** The secret and the child key of a key image. */
  function Derive(h: Hashes, n: int, st: Ceremony, v: Point): Result<KeyImageSecret, KeyImageError>
    requires n > 0
  {
    if v == 0 then Err(ImageIdentity)
    else if st.key.ecdsaPub == 0 then Err(PublicKeyIdentity)
    else
      var secret := h.secret(st.identifier, st.key.ecdsaPub, v) % n;
      if secret == 0 then Err(SecretZero)
      else
        var child := PointAdd(n, st.key.ecdsaPub, MulBase(n, secret));
        if child == 0 then Err(ChildIdentity) else Ok(KeyImageSecret(secret, child, v))
  }

  /** What a committee gets from its image: the errors in order, and otherwise the image itself, the hash of identifier,
      key and image as the secret, and a child key whose logarithm is that of the key plus the secret. */
  ghost predicate Delivers(h: Hashes, n: int, identifier: Identifier, pub: Point, image: Point,
    res: Result<KeyImageSecret, KeyImageError>)
    requires n > 0
  {
    var hashed := h.secret(identifier, pub, image);
    && (res == Err(ImageIdentity) <==> image == 0)
    && (res == Err(PublicKeyIdentity) <==> image != 0 && pub == 0)
    && (res == Err(SecretZero) <==> image != 0 && pub != 0 && Cong(hashed, 0, n))
    && (res == Err(ChildIdentity) <==> image != 0 && pub != 0 && !Cong(hashed, 0, n) && Cong(pub + hashed, 0, n))
    && (res.Ok? <==> image != 0 && pub != 0 && !Cong(hashed, 0, n) && !Cong(pub + hashed, 0, n))
    && (res.Ok? ==>
      && res.value.keyImage == image && 0 < res.value.secret < n && Cong(res.value.secret, hashed, n)
      && 0 < res.value.publicKey < n && Cong(res.value.publicKey, pub + res.value.secret, n))
  }

  lemma DeriveDelivers(h: Hashes, n: int, st: Ceremony, v: Point)
    requires n > 0
    ensures Delivers(h, n, st.identifier, st.key.ecdsaPub, v, Derive(h, n, st, v))
  {
    var hashed, pub := h.secret(st.identifier, st.key.ecdsaPub, v), st.key.ecdsaPub;
    var secret := hashed % n;
    CongMod(hashed, n);
    CongZero(hashed, n);
    SmallMod(secret, n);
    CongSelf(pub, n);
    CongAdd(pub, pub, secret, hashed, n);
    CongMod(pub + secret, n);
    CongZero(pub + secret, n);
    CongZero(pub + hashed, n);
  }

  ghost function Outcome(h: Hashes, n: int, st: Ceremony, msgs: seq<KeyImageR1>): Result<KeyImageSecret, KeyImageError>
    requires n > 0 && st.myPos < |st.subset| && |msgs| == |st.subset| - 1
  {
    var v := SumPartials(h, n, st, Peers(st.subset, st.myPos), msgs, 0, st.myPartial);
    if v.Err? then Err(v.error) else Derive(h, n, st, v.value)
  }

  /** A running ceremony: what it was started with, and the delivered result. */
  class KeyImageParty {
    const st: Ceremony
    var result: Option<Result<KeyImageSecret, KeyImageError>>

    constructor (st: Ceremony)
      ensures this.st == st && result == None
    {
      this.st := st;
      result := None;
    }

    /** deliver: only the first result counts. */
    method Deliver(r: Result<KeyImageSecret, KeyImageError>)
      modifies this
      ensures result == if old(result).None? then Some(r) else old(result)
    {
      if result.None? { result := Some(r); }
    }

    /** finalize */
    method Finalize(h: Hashes, n: int, msgs: seq<KeyImageR1>)
      requires n > 0 && st.myPos < |st.subset| && |msgs| == |st.subset| - 1 && |st.key.bigXj| == |st.key.partyIds|
      modifies this
      ensures result == if old(result).None? then Some(Outcome(h, n, st, msgs)) else old(result)
      ensures var v := SumPartials(h, n, st, Peers(st.subset, st.myPos), msgs, 0, st.myPartial);
        old(result).None? ==>
          && (v.Err? ==> result == Some(Err(v.error)))
          && (v.Ok? ==> Delivers(h, n, st.identifier, st.key.ecdsaPub, v.value, result.value))
    {
      hide Partial, Delivers, Derive;
      var peers := Peers(st.subset, st.myPos);
      var v := st.myPartial;
      for k := 0 to |peers|
        invariant result == old(result)
        invariant SumPartials(h, n, st, peers, msgs, 0, st.myPartial) == SumPartials(h, n, st, peers, msgs, k, v)
      {
        var w := CheckPartial(h, n, st, peers[k], msgs[k]);
        if w.Err? {
          Deliver(Err(w.error));
          return;
        }
        v := PointAdd(n, v, w.value);
      }
      var r := Derive(h, n, st, v);
      DeriveDelivers(h, n, st, v);
      Deliver(r);
    }
  }

  // ---------- starting ----------

  ghost predicate Ascending(subset: seq<nat>) { forall i :: 0 <= i < |subset| - 1 ==> subset[i] < subset[i + 1] }

  method ValidateSortedSubset(subset: seq<nat>) returns (ok: bool)
    ensures ok <==> Ascending(subset)
  {
    var i := 1;
    while i < |subset|
      invariant 1 <= i && forall k :: 0 <= k < i - 1 && k < |subset| - 1 ==> subset[k] < subset[k + 1]
    {
      if subset[i - 1] >= subset[i] { return false; }
      i := i + 1;
    }
    return true;
  }

  /** The weighted share a member signs with. */
  function WeightedShare(n: int, k: Key, subset: seq<nat>, pos: nat): (w: Scalar)
    requires n > 0 && pos < |subset|
    ensures 0 <= w < n
  {
    FMul(n, Weight(n, SubsetIds(n, subset), pos) % n, k.xi)
  }

  /** The message of an honest member with the drawn r; points are sent compressed, the response in at most 32 bytes. */
  function HonestMessage(h: Hashes, n: int, st: Ceremony, r: Scalar): (m: KeyImageR1)
    requires n > 0 && st.myPos < |st.subset|
  {
    var w := WeightedShare(n, st.key, st.subset, st.myPos);
    var d := ProveDleq(h, n, SessionOf(st, st.subset[st.myPos]), st.point, w, MulBase(n, w), PointMul(n, st.point, w),
      r);
    KeyImageR1(Some(PointMul(n, st.point, w)), Some(d.a1), Some(d.a2), 32, d.z)
  }

  /** A ceremony as a member starts it. */
  ghost predicate Started(h: Hashes, n: int, key: Key, identifier: Identifier, subset: seq<nat>, me: nat, st: Ceremony)
    requires n > 0
  {
    && st.key == key && st.identifier == identifier && st.subset == subset && Ascending(subset)
    && Basic(n, key) && |subset| >= key.t + 1
    && st.myPos < |subset| && subset[st.myPos] == me && IsPointOf(h, identifier, key.ecdsaPub, st.point)
    && st.myPartial == PointMul(n, st.point, WeightedShare(n, key, subset, st.myPos))
  }

  /** Why KeyImageParty::new refuses to start, in the order of its checks. */
  ghost function Refusal(h: Hashes, n: int, key: Key, identifier: Identifier, subset: seq<nat>,
    me: nat): Option<KeyImageError>
    requires n > 0
  {
    if !Basic(n, key) then Some(InvalidKey)
    else if |subset| < key.t + 1 then Some(SubsetTooSmall)
    else if !Ascending(subset) then Some(SubsetNotSorted)
    else if me !in subset then Some(NotInSubset)
    else if forall i :: 0 <= i < COUNTERS ==> !Usable(h, identifier, key.ecdsaPub, i) then Some(NoPoint)
    else if RepeatsId(n, SubsetIds(n, subset), IndexOf(subset, me).value) then Some(RepeatedId)
    else None
  }

  lemma RefusalIs(h: Hashes, n: int, key: Key, identifier: Identifier, subset: seq<nat>, me: nat)
    requires n > 0
    ensures var why := Refusal(h, n, key, identifier, subset, me);
      && (!Basic(n, key) ==> why == Some(InvalidKey))
      && (Basic(n, key) && |subset| < key.t + 1 ==> why == Some(SubsetTooSmall))
      && (Basic(n, key) && |subset| >= key.t + 1 && !Ascending(subset) ==> why == Some(SubsetNotSorted))
      && (Basic(n, key) && |subset| >= key.t + 1 && Ascending(subset) ==>
        && (me !in subset ==> why == Some(NotInSubset))
        && (me in subset ==>
          && |SubsetIds(n, subset)| == |subset|
          && var none := forall i :: 0 <= i < COUNTERS ==> !Usable(h, identifier, key.ecdsaPub, i);
             why == if none then Some(NoPoint)
               else if RepeatsId(n, SubsetIds(n, subset), IndexOf(subset, me).value) then Some(RepeatedId) else None))
  {
    hide Basic, Ascending, Usable, RepeatsId, SubsetIds, IndexOf;
  }

  lemma UsablePoint(h: Hashes, identifier: Identifier, pub: Point, p: Point)
    requires IsPointOf(h, identifier, pub, p)
    ensures exists i :: 0 <= i < COUNTERS && Usable(h, identifier, pub, i)
  {
  }

  lemma BasicPub(n: int, key: Key)
    requires n > 0 && Basic(n, key)
    ensures key.ecdsaPub != 0
  {
  }

  /** The checks of KeyImageParty::new and the member's own partial. */
  method Begin(h: Hashes, n: int, key: Key, identifier: Identifier, subset: seq<nat>, me: nat)
    returns (res: Result<Ceremony, KeyImageError>)
    requires n > 0
    ensures res.Ok? ==> Started(h, n, key, identifier, subset, me, res.value)
    ensures Refusal(h, n, key, identifier, subset, me) == if res.Err? then Some(res.error) else None
  {
    hide Weight, Cong, IsPointOf, Basic, Ascending, SubsetIds, Refusal, Usable;
    RefusalIs(h, n, key, identifier, subset, me);
    var basic := ValidateBasic(n, key);
    if !basic { return Err(InvalidKey); }
    if |subset| < key.t + 1 { return Err(SubsetTooSmall); }
    var sorted := ValidateSortedSubset(subset);
    if !sorted { return Err(SubsetNotSorted); }
    var pos := IndexOf(subset, me);
    if pos.None? { return Err(NotInSubset); }
    BasicPub(n, key);
    var point := HashToPoint(h, identifier, key.ecdsaPub);
    if point.Ok? { UsablePoint(h, identifier, key.ecdsaPub, point.value); }
    if point.Err? { return Err(point.error); }
    var lambda := LagrangeCoefficient(n, SubsetIds(n, subset), pos.value);
    if lambda.Err? { return Err(RepeatedId); }
    var w := FMul(n, lambda.value, key.xi);
    return Ok(Ceremony(key, identifier, subset, point.value, pos.value, PointMul(n, point.value, w)));
  }

  ghost predicate SendsIdentity(m: KeyImageR1) { m.w == Some(0) || m.a1 == Some(0) || m.a2 == Some(0) }

  /** KeyImageParty::new and round1: it starts exactly when no check refuses and no point to send is the identity. */
  method New(h: Hashes, n: int, key: Key, identifier: Identifier, subset: seq<nat>, me: nat, r: Scalar)
    returns (res: Result<KeyImageParty, KeyImageError>, sent: Option<KeyImageR1>)
    requires n > 0
    ensures res.Ok? ==>
      Started(h, n, key, identifier, subset, me, res.value.st) && fresh(res.value) && res.value.result == None
    ensures res.Ok? ==> sent == Some(HonestMessage(h, n, res.value.st, r)) && !SendsIdentity(sent.value)
    ensures Refusal(h, n, key, identifier, subset, me).Some? ==>
      res == Err(Refusal(h, n, key, identifier, subset, me).value)
    ensures Refusal(h, n, key, identifier, subset, me) == None && res.Err? ==>
      && res.error == IdentityOnWire
      && exists st :: Started(h, n, key, identifier, subset, me, st) && SendsIdentity(HonestMessage(h, n, st, r))
  {
    hide Weight, Cong, ProveDleq, IsPointOf, Basic, Ascending, FMul, Refusal;
    var st := Begin(h, n, key, identifier, subset, me);
    if st.Err? { return Err(st.error), None; }
    var m := HonestMessage(h, n, st.value, r);
    if m.w == Some(0) || m.a1 == Some(0) || m.a2 == Some(0) {
      assert Started(h, n, key, identifier, subset, me, st.value) && SendsIdentity(HonestMessage(h, n, st.value, r));
      return Err(IdentityOnWire), None;
    }
    var party := new KeyImageParty(st.value);
    return Ok(party), Some(m);
  }

  // ---------- the key image ----------

  /** Public shares of the subset's members, in subset order. */
  function SubsetShares(k: Key, subset: seq<nat>): (xs: seq<Point>)
    ensures |xs| == |subset|
  {
    seq(|subset|, i requires 0 <= i < |subset| => ShareOf(k, subset[i]))
  }

  function ShareOf(k: Key, id: nat): Point {
    var full := IndexOf(k.partyIds, id);
    if full.Some? && full.value < |k.bigXj| then k.bigXj[full.value] else 0
  }

  /** The weighted sum collected after k peers, the member's own term included from the start. */
  function Collected(n: int, ids: seq<Scalar>, xs: seq<Point>, me: nat, k: nat): int
    requires n > 0 && me < |ids| == |xs| && k < |ids|
  {
    if k <= me then WeightedSum(n, ids, xs, k) + Weight(n, ids, me) * xs[me] else WeightedSum(n, ids, xs, k + 1)
  }

  lemma CollectedStep(n: int, ids: seq<Scalar>, xs: seq<Point>, me: nat, k: nat)
    requires n > 0 && me < |ids| == |xs| && k + 1 < |ids|
    ensures Other(me, k) < |ids|
    ensures Collected(n, ids, xs, me, k + 1) == Collected(n, ids, xs, me, k) + Weight(n, ids,
      Other(me, k)) * xs[Other(me, k)]
  {
    hide Weight;
    if k >= me {
      assert WeightedSum(n, ids, xs, k + 2) == WeightedSum(n, ids, xs, k + 1) + Weight(n, ids, k + 1) * xs[k + 1];
      assert WeightedSum(n, ids, xs, k + 1) == WeightedSum(n, ids, xs, k) + Weight(n, ids, k) * xs[k];
    }
  }

  lemma CollectedEnd(n: int, ids: seq<Scalar>, xs: seq<Point>, me: nat)
    requires n > 0 && me < |ids| == |xs|
    ensures Collected(n, ids, xs, me, |ids| - 1) == WeightedSum(n, ids, xs, |ids|)
  {
  }

  /** An accepted partial is genuine when it carries the statement's logarithm. */
  ghost predicate Genuine(n: int, st: Ceremony, pos: nat, w: Point)
    requires n > 0
  {
    pos < |st.subset| ==>
      Cong(w, st.point * (Weight(n, SubsetIds(n, st.subset), pos) * SubsetShares(st.key, st.subset)[pos]), n)
  }

  ghost predicate AllGenuine(h: Hashes, n: int, st: Ceremony, peers: seq<nat>, msgs: seq<KeyImageR1>)
    requires n > 0 && |peers| == |msgs|
  {
    forall k :: 0 <= k < |peers| && Partial(h, n, st, peers[k], msgs[k]).Ok? ==>
      Genuine(n, st, Other(st.myPos, k), Partial(h, n, st, peers[k], msgs[k]).value)
  }

  /** v is P times the interpolation of the subset's public shares. */
  ghost predicate IsSum(n: int, st: Ceremony, v: Point)
    requires n > 0
  {
    0 <= v < n && Cong(v, st.point * WeightedSum(n, SubsetIds(n, st.subset), SubsetShares(st.key, st.subset),
      |st.subset|), n)
  }

  /** The accumulator is P times the shares collected so far. */
  ghost predicate SummedUpTo(n: int, st: Ceremony, k: nat, acc: Point)
    requires n > 0 && st.myPos < |st.subset| && k < |st.subset|
  {
    0 <= acc < n && Cong(acc, st.point * Collected(n, SubsetIds(n, st.subset), SubsetShares(st.key, st.subset),
      st.myPos, k), n)
  }

  /** The sum of genuine partials is P times the interpolated secret. */
  lemma {:induction false} SumOfGenuine(h: Hashes, n: int, st: Ceremony, peers: seq<nat>, msgs: seq<KeyImageR1>, k: nat,
    acc: Point)
    requires n > 0 && st.myPos < |st.subset| && k <= |peers| == |msgs| == |st.subset| - 1
    requires AllGenuine(h, n, st, peers, msgs) && SummedUpTo(n, st, k, acc)
    ensures var v := SumPartials(h, n, st, peers, msgs, k, acc); v.Ok? ==> IsSum(n, st, v.value)
    decreases |peers| - k
  {
    hide Partial, SummedUpTo, IsSum, Genuine, PointAdd;
    if k == |peers| {
      SummedAll(n, st, acc);
    } else if Partial(h, n, st, peers[k], msgs[k]).Ok? {
      var w := Partial(h, n, st, peers[k], msgs[k]).value;
      SummedNext(n, st, k, acc, w);
      SumOfGenuine(h, n, st, peers, msgs, k + 1, PointAdd(n, acc, w));
    }
  }

  lemma SummedAll(n: int, st: Ceremony, acc: Point)
    requires n > 0 && st.myPos < |st.subset| && SummedUpTo(n, st, |st.subset| - 1, acc)
    ensures IsSum(n, st, acc)
  {
    var ids, xs := SubsetIds(n, st.subset), SubsetShares(st.key, st.subset);
    hide Cong, SubsetShares, SubsetIds, Collected, WeightedSum;
    CollectedEnd(n, ids, xs, st.myPos);
  }

  lemma SummedNext(n: int, st: Ceremony, k: nat, acc: Point, w: Point)
    requires n > 0 && st.myPos < |st.subset| && k < |st.subset| - 1
    requires SummedUpTo(n, st, k, acc) && Genuine(n, st, Other(st.myPos, k), w)
    ensures SummedUpTo(n, st, k + 1, PointAdd(n, acc, w))
  {
    var ids, xs, pos := SubsetIds(n, st.subset), SubsetShares(st.key, st.subset), Other(st.myPos, k);
    hide Weight, Cong, SubsetShares, SubsetIds, Collected;
    CollectedStep(n, ids, xs, st.myPos, k);
    TermAdded(n, st.point, acc, Collected(n, ids, xs, st.myPos, k), w, Weight(n, ids, pos) * xs[pos]);
  }

  lemma TermAdded(n: int, p: int, acc: int, c: int, w: int, t: int)
    requires n > 0 && Cong(acc, p * c, n) && Cong(w, p * t, n)
    ensures Cong(PointAdd(n, acc, w), p * (c + t), n)
  {
    FieldOps(n, acc, w);
    CongAdd(acc, p * c, w, p * t, n);
    assert p * c + p * t == p * (c + t);
  }

  /** The member's own partial is genuine. */
  lemma OwnPartial(h: Hashes, n: int, key: Key, identifier: Identifier, subset: seq<nat>, me: nat, st: Ceremony)
    requires n > 0 && Started(h, n, key, identifier, subset, me, st)
    requires Cong(key.xi, SubsetShares(key, subset)[st.myPos], n)
    ensures SummedUpTo(n, st, 0, st.myPartial)
  {
    var ids, xs := SubsetIds(n, subset), SubsetShares(key, subset);
    var w, sh := Weight(n, ids, st.myPos), WeightedShare(n, key, subset, st.myPos);
    hide Weight, Cong, SubsetShares, SubsetIds, IsPointOf, Basic, Ascending;
    CongMod(w, n);
    FieldOps(n, w % n, key.xi);
    CongMul(w % n, w, key.xi, xs[st.myPos], n);
    CongTrans(sh, (w % n) * key.xi, w * xs[st.myPos], n);
    FieldOps(n, st.point, sh);
    CongScale(st.point, sh, w * xs[st.myPos], n);
    CongTrans(st.myPartial, st.point * sh, st.point * (w * xs[st.myPos]), n);
  }

  /** The shares of a committee member's subset interpolate to the secret. */
  ghost predicate Interpolates(n: int, key: Key, subset: seq<nat>, secret: int)
    requires n > 0
  {
    Cong(WeightedSum(n, SubsetIds(n, subset), SubsetShares(key, subset), |subset|), secret, n)
  }

  /** Whatever the peers send: if the ceremony delivers a secret and every accepted partial is genuine, its key image is
      x*P, and the secret and child key are those of that image. */
  lemma DeliveredImage(h: Hashes, n: int, key: Key, identifier: Identifier, subset: seq<nat>, me: nat, st: Ceremony,
    msgs: seq<KeyImageR1>, secret: int)
    requires n > 0 && Started(h, n, key, identifier, subset, me, st) && |msgs| == |subset| - 1
    requires Cong(key.xi, SubsetShares(key, subset)[st.myPos], n) && Interpolates(n, key, subset, secret)
    requires AllGenuine(h, n, st, Peers(subset, st.myPos), msgs)
    ensures var v := SumPartials(h, n, st, Peers(subset, st.myPos), msgs, 0, st.myPartial);
      v.Ok? ==> v.value == PointMul(n, st.point, secret)
    ensures var res := Outcome(h, n, st, msgs);
      res.Ok? ==>
        && Cong(res.value.keyImage, st.point * secret, n) && 0 < res.value.keyImage < n
        && Delivers(h, n, identifier, key.ecdsaPub, res.value.keyImage, res)
  {
    hide *;
    StartedParts(h, n, key, identifier, subset, me, st);
    OwnPartial(h, n, key, identifier, subset, me, st);
    SumOfGenuine(h, n, st, Peers(subset, st.myPos), msgs, 0, st.myPartial);
    ImageIs(h, n, st, msgs, secret);
    DeriveDelivers(h, n, st, PointMul(n, st.point, secret));
    FieldOps(n, st.point, secret);
    if Outcome(h, n, st, msgs).Ok? {
      DeliveredValue(h, n, st.identifier, st.key.ecdsaPub, PointMul(n, st.point, secret), Outcome(h, n, st, msgs));
    }
  }

  lemma DeliveredValue(h: Hashes, n: int, identifier: Identifier, pub: Point, image: Point,
    res: Result<KeyImageSecret, KeyImageError>)
    requires n > 0 && Delivers(h, n, identifier, pub, image, res)
    ensures res.Ok? ==> res.value.keyImage == image != 0
  {
  }

  lemma StartedParts(h: Hashes, n: int, key: Key, identifier: Identifier, subset: seq<nat>, me: nat, st: Ceremony)
    requires n > 0 && Started(h, n, key, identifier, subset, me, st)
    ensures st.key == key && st.subset == subset && st.myPos < |subset| && |Peers(subset, st.myPos)| == |subset| - 1
    ensures st.identifier == identifier && IsPointOf(h, identifier, key.ecdsaPub, st.point) && subset[st.myPos] == me
  {
  }

  lemma ImageIs(h: Hashes, n: int, st: Ceremony, msgs: seq<KeyImageR1>, secret: int)
    requires n > 0 && st.myPos < |st.subset| && |msgs| == |st.subset| - 1 && Interpolates(n, st.key, st.subset, secret)
    requires var v := SumPartials(h, n, st, Peers(st.subset, st.myPos), msgs, 0, st.myPartial); v.Ok? ==>
      IsSum(n, st, v.value)
    ensures var v := SumPartials(h, n, st, Peers(st.subset, st.myPos), msgs, 0, st.myPartial);
      v.Ok? ==> v.value == PointMul(n, st.point, secret)
    ensures Outcome(h, n, st, msgs).Ok? ==> Outcome(h, n, st, msgs) == Derive(h, n, st, PointMul(n, st.point, secret))
  {
    var v := SumPartials(h, n, st, Peers(st.subset, st.myPos), msgs, 0, st.myPartial);
    var s := WeightedSum(n, SubsetIds(n, st.subset), SubsetShares(st.key, st.subset), |st.subset|);
    hide SumPartials, WeightedSum, SubsetIds, SubsetShares, Derive, Cong;
    if v.Ok? {
      InterpolatesMeans(n, st.key, st.subset, secret);
      CongScale(st.point, s, secret, n);
      FieldOps(n, st.point, secret);
      CongTrans(v.value, st.point * s, st.point * secret, n);
      CongTrans(v.value, st.point * secret, PointMul(n, st.point, secret), n);
      CongSmall(v.value, PointMul(n, st.point, secret), n);
    }
  }

  lemma InterpolatesMeans(n: int, key: Key, subset: seq<nat>, secret: int)
    requires n > 0 && Interpolates(n, key, subset, secret)
    ensures Cong(WeightedSum(n, SubsetIds(n, subset), SubsetShares(key, subset), |subset|), secret, n)
  {
  }

  // ---------- honest committees ----------

  /** The messages member i receives, in the order of its peers. */
  function MessagesTo(h: Hashes, n: int, sts: seq<Ceremony>, rs: seq<Scalar>, i: nat): (msgs: seq<KeyImageR1>)
    requires n > 0 && i < |sts| == |rs| && forall k :: 0 <= k < |sts| ==> sts[k].myPos < |sts[k].subset|
    ensures |msgs| == |sts| - 1
    ensures forall k :: 0 <= k < |msgs| ==> msgs[k] == HonestMessage(h, n, sts[Other(i, k)], rs[Other(i, k)])
  {
    seq(|sts| - 1, k requires 0 <= k < |sts| - 1 => HonestMessage(h, n, sts[Other(i, k)], rs[Other(i, k)]))
  }

  /** Member i of the subset started from the key of its party. */
  ghost predicate MemberStarted(h: Hashes, n: int, keys: seq<Key>, identifier: Identifier, subset: seq<nat>, i: nat,
    st: Ceremony)
    requires n > 0 && keys != [] && i < |subset|
  {
    var full := IndexOf(keys[0].partyIds, subset[i]);
    full.Some? && full.value < |keys| && Started(h, n, keys[full.value], identifier, subset, subset[i],
      st) && st.myPos == i
  }

  /** Every member of a qualifying subset of one sharing started the ceremony for the same identifier. */
  ghost predicate WholeCommittee(h: Hashes, n: int, keys: seq<Key>, secret: int, identifier: Identifier,
    subset: seq<nat>,
    sts: seq<Ceremony>)
    requires n > 0
  {
    && Sharing(n, keys, secret) && |sts| == |subset| && |subset| > keys[0].t
    && forall i :: 0 <= i < |subset| ==> MemberStarted(h, n, keys, identifier, subset, i, sts[i])
  }

  lemma MemberFacts(h: Hashes, n: int, keys: seq<Key>, secret: int, identifier: Identifier, subset: seq<nat>,
    sts: seq<Ceremony>, i: nat)
    requires n > 0 && WholeCommittee(h, n, keys, secret, identifier, subset, sts) && i < |subset|
    ensures keys != [] && |keys[0].partyIds| == |keys[0].bigXj| == |keys|
    ensures var full := IndexOf(keys[0].partyIds, subset[i]);
      && full.Some? && full.value < |keys| && sts[i].myPos == i
      && Started(h, n, keys[full.value], identifier, subset, subset[i], sts[i])
      && keys[full.value].partyIds == keys[0].partyIds && keys[full.value].bigXj == keys[0].bigXj
      && keys[full.value].ecdsaPub == keys[0].ecdsaPub && keys[0].bigXj[full.value] == keys[full.value].xi
  {
    hide Distinct, SharesOf, AllPairsMatch, Started, Ids, Shares;
    assert MemberStarted(h, n, keys, identifier, subset, i, sts[i]);
  }

  /** Ascending ids are different. */
  lemma {:induction false} AscendingApart(subset: seq<nat>, i: nat, j: nat)
    requires Ascending(subset) && i < j < |subset|
    ensures subset[i] < subset[j]
    decreases j
  {
    if i + 1 < j { AscendingApart(subset, i, j - 1); }
  }

  /** The subset's public shares interpolate to the secret, and its ids are different modulo n. */
  lemma SubsetInterpolates(h: Hashes, n: int, keys: seq<Key>, secret: int, identifier: Identifier, subset: seq<nat>,
    sts: seq<Ceremony>)
    requires IsPrime(n) && WholeCommittee(h, n, keys, secret, identifier, subset, sts)
    ensures keys != [] && Interpolates(n, keys[0], subset, secret) && Distinct(n, SubsetIds(n, subset))
  {
    MembersAt(h, n, keys, secret, identifier, subset, sts);
    var idxs := Places(keys[0].partyIds, subset);
    var ids, xs := Ids(n, keys[0].partyIds), Shares(keys);
    hide Eval, SharesOf, AllPairsMatch, IsPrime, Cong, Weight, WeightedSum, MemberStarted;
    assert Picked(ids, idxs) == SubsetIds(n, subset);
    assert Picked(xs, idxs) == SubsetShares(keys[0], subset);
    QuorumReconstructs(n, ids, xs, keys[0].t, secret, idxs);
    PickedDistinct(n, ids, idxs);
  }

  function Places(partyIds: seq<nat>, subset: seq<nat>): (idxs: seq<nat>)
    requires forall i :: 0 <= i < |subset| ==> subset[i] in partyIds
    ensures |idxs| == |subset|
    ensures forall i :: 0 <= i < |subset| ==>
      Some(idxs[i]) == IndexOf(partyIds, subset[i]) && idxs[i] < |partyIds| && partyIds[idxs[i]] == subset[i]
  {
    seq(|subset|, i requires 0 <= i < |subset| => IndexOf(partyIds, subset[i]).value)
  }

  lemma MembersAt(h: Hashes, n: int, keys: seq<Key>, secret: int, identifier: Identifier, subset: seq<nat>,
    sts: seq<Ceremony>)
    requires n > 0 && WholeCommittee(h, n, keys, secret, identifier, subset, sts)
    ensures keys != [] && |keys[0].partyIds| == |keys[0].bigXj| == |keys|
    ensures forall i :: 0 <= i < |subset| ==> subset[i] in keys[0].partyIds
    ensures Subset(Places(keys[0].partyIds, subset), |keys|)
    ensures forall i :: 0 <= i < |keys| ==> keys[0].bigXj[i] == keys[i].xi
  {
    hide Distinct, SharesOf, AllPairsMatch, Started, MemberStarted, Ids, Shares, Ascending;
    forall i | 0 <= i < |subset| ensures subset[i] in keys[0].partyIds { MemberFacts(h, n, keys, secret, identifier,
      subset, sts, i); }
    MemberFacts(h, n, keys, secret, identifier, subset, sts, 0);
    StartedAscending(h, n, subset, sts[0], keys[IndexOf(keys[0].partyIds, subset[0]).value], identifier);
    forall a, b | 0 <= a < b < |subset| ensures subset[a] != subset[b] { AscendingApart(subset, a, b); }
  }

  lemma StartedAscending(h: Hashes, n: int, subset: seq<nat>, st: Ceremony, key: Key, identifier: Identifier)
    requires n > 0 && |subset| > 0 && Started(h, n, key, identifier, subset, subset[0], st)
    ensures Ascending(subset)
  {
  }

  /** An honest peer's partial is accepted and genuine. */
  lemma HonestPartial(h: Hashes, n: int, keys: seq<Key>, secret: int, identifier: Identifier, subset: seq<nat>,
    sts: seq<Ceremony>,
    i: nat, j: nat, r: Scalar)
    requires n > 0 && WholeCommittee(h, n, keys, secret, identifier, subset, sts) && i < |subset| && j < |subset|
    requires Distinct(n, SubsetIds(n, subset)) && sts[j].myPos < |sts[j].subset|
    ensures var m := HonestMessage(h, n, sts[j], r);
      m.w.Some? && Partial(h, n, sts[i], subset[j], m) == Ok(m.w.value) && Genuine(n, sts[i], j, m.w.value)
  {
    MemberFacts(h, n, keys, secret, identifier, subset, sts, i);
    MemberFacts(h, n, keys, secret, identifier, subset, sts, j);
    var ki, kj := keys[IndexOf(keys[0].partyIds, subset[i]).value], keys[IndexOf(keys[0].partyIds, subset[j]).value];
    StartedParts(h, n, ki, identifier, subset, subset[i], sts[i]);
    StartedParts(h, n, kj, identifier, subset, subset[j], sts[j]);
    PointUnique(h, identifier, ki.ecdsaPub, sts[i].point, sts[j].point);
    MembersAt(h, n, keys, secret, identifier, subset, sts);
    hide *;
    FirstIndex(n, subset, j);
    AcceptedPartial(h, n, sts[i], sts[j], subset, j, r, IndexOf(keys[0].partyIds, subset[j]).value);
  }

  lemma DistinctEntries(n: int, xs: seq<int>, p: nat, q: nat)
    requires n > 0 && Distinct(n, xs) && p < |xs| && q < |xs| && xs[p] == xs[q]
    ensures p == q
  {
    CongSelf(xs[p], n);
    if p < q { assert false; }
    if q < p { assert false; }
  }

  lemma FirstIndex(n: int, subset: seq<nat>, j: nat)
    requires n > 0 && j < |subset| && Distinct(n, SubsetIds(n, subset))
    ensures IndexOf(subset, subset[j]) == Some(j) && !RepeatsId(n, SubsetIds(n, subset), j)
  {
    var p := IndexOf(subset, subset[j]).value;
    DistinctEntries(n, SubsetIds(n, subset), p, j);
  }

  /** The receiver's checks pass on what an honest peer sends. */
  lemma AcceptedPartial(h: Hashes, n: int, st: Ceremony, sj: Ceremony, subset: seq<nat>, j: nat, r: Scalar, full: nat)
    requires n > 0 && j < |subset| && st.subset == sj.subset == subset && sj.myPos == j && st.point == sj.point
    requires st.identifier == sj.identifier && st.key.ecdsaPub == sj.key.ecdsaPub
    requires full < |st.key.bigXj| && IndexOf(st.key.partyIds, subset[j]) == Some(full)
    requires st.key.bigXj[full] == sj.key.xi
    requires IndexOf(subset, subset[j]) == Some(j) && !RepeatsId(n, SubsetIds(n, subset), j)
    ensures var m := HonestMessage(h, n, sj, r);
      m.w.Some? && Partial(h, n, st, subset[j], m) == Ok(m.w.value) && Genuine(n, st, j, m.w.value)
  {
    var m, w := HonestMessage(h, n, sj, r), WeightedShare(n, sj.key, subset, j);
    var weight := Weight(n, SubsetIds(n, subset), j);
    hide Weight, VerifyDleq, ProveDleq, RepeatsId, SubsetIds, FMul, PointMul, MulBase, Cong;
    StatementIsShare(n, st.key, subset, j, full, sj.key);
    DleqComplete(h, n, SessionOf(sj, subset[j]), sj.point, w, r);
    ResponseReduced(h, n, SessionOf(sj, subset[j]), sj.point, w, r);
    GenuineShare(n, st.point, weight, sj.key.xi);
  }

  lemma ResponseReduced(h: Hashes, n: int, s: Session, p: Point, w: Scalar, r: Scalar)
    requires n > 0
    ensures var d := ProveDleq(h, n, s, p, w, MulBase(n, w), PointMul(n, p, w), r); d.z >= 0 && d.z % n == d.z
  {
    SmallMod(ProveDleq(h, n, s, p, w, MulBase(n, w), PointMul(n, p, w), r).z, n);
  }

  /** The receiver's statement is the sender's. */
  lemma StatementIsShare(n: int, k: Key, subset: seq<nat>, j: nat, full: nat, kj: Key)
    requires n > 0 && j < |subset| && full < |k.bigXj| && k.bigXj[full] == kj.xi
    ensures Statement(n, k, subset, j, full) == MulBase(n, WeightedShare(n, kj, subset, j))
  {
    var w := Weight(n, SubsetIds(n, subset), j) % n;
    hide Weight;
    assert kj.xi * w == w * kj.xi;
    SmallMod(FMul(n, w, kj.xi), n);
  }

  lemma GenuineShare(n: int, p: Point, weight: int, x: int)
    requires n > 0
    ensures Cong(PointMul(n, p, FMul(n, weight % n, x)), p * (weight * x), n)
  {
    CongMod(weight, n);
    FieldOps(n, weight % n, x);
    CongScale(x, weight % n, weight, n);
    var w := FMul(n, weight % n, x);
    CongTrans(w, (weight % n) * x, weight * x, n);
    FieldOps(n, p, w);
    CongScale(p, w, weight * x, n);
    CongTrans(PointMul(n, p, w), p * w, p * (weight * x), n);
  }

  lemma {:induction false} AllAccepted(h: Hashes, n: int, st: Ceremony, peers: seq<nat>, msgs: seq<KeyImageR1>, k: nat,
    acc: Point)
    requires n > 0 && k <= |peers| == |msgs| && forall i :: 0 <= i < |peers| ==>
      Partial(h, n, st, peers[i], msgs[i]).Ok?
    ensures SumPartials(h, n, st, peers, msgs, k, acc).Ok?
    decreases |peers| - k
  {
    hide Partial;
    if k < |peers| {
      AllAccepted(h, n, st, peers, msgs, k + 1, PointAdd(n, acc, Partial(h, n, st, peers[k], msgs[k]).value));
    }
  }

  /** Every started member sits inside its subset. */
  ghost predicate Seated(sts: seq<Ceremony>) { forall k :: 0 <= k < |sts| ==> sts[k].myPos < |sts[k].subset| }

  lemma CommitteeSeated(h: Hashes, n: int, keys: seq<Key>, secret: int, identifier: Identifier, subset: seq<nat>,
    sts: seq<Ceremony>)
    requires n > 0 && WholeCommittee(h, n, keys, secret, identifier, subset, sts)
    ensures |sts| == |subset| && Seated(sts)
  {
    hide Started;
    forall k | 0 <= k < |sts| ensures sts[k].myPos < |sts[k].subset| {
      MemberFacts(h, n, keys, secret, identifier, subset, sts, k);
      StartedParts(h, n, keys[IndexOf(keys[0].partyIds, subset[k]).value], identifier, subset, subset[k], sts[k]);
    }
  }

  /** Completeness: in an honest committee no partial is refused, and every member gets what x*P gives: a secret and a
      child key unless x*P is the identity or the hash or the child vanishes. */
  lemma HonestCommittee(h: Hashes, n: int, keys: seq<Key>, secret: int, identifier: Identifier, subset: seq<nat>,
    sts: seq<Ceremony>,
    rs: seq<Scalar>, i: nat)
    requires IsPrime(n) && WholeCommittee(h, n, keys, secret, identifier, subset, sts) && i < |subset| == |rs|
    ensures |sts| == |subset| && Seated(sts)
    ensures sts[i].subset == subset && sts[i].myPos == i
    ensures keys != [] && n > 0 && Delivers(h, n, identifier, keys[0].ecdsaPub, sts[i].point * secret % n,
      Outcome(h, n, sts[i], MessagesTo(h, n, sts, rs, i)))
  {
    SubsetInterpolates(h, n, keys, secret, identifier, subset, sts);
    CommitteeSeated(h, n, keys, secret, identifier, subset, sts);
    hide *;
    HonestMember(h, n, keys, secret, identifier, subset, sts, rs, i);
    DeriveDelivers(h, n, sts[i], PointMul(n, sts[i].point, secret));
    SamePubOf(h, n, keys, secret, identifier, subset, sts, i);
    MultipleIs(n, sts[i].point, secret);
  }

  lemma SamePubOf(h: Hashes, n: int, keys: seq<Key>, secret: int, identifier: Identifier, subset: seq<nat>,
    sts: seq<Ceremony>, i: nat)
    requires n > 0 && WholeCommittee(h, n, keys, secret, identifier, subset, sts) && i < |subset|
    ensures keys != [] && |sts| == |subset|
    ensures sts[i].identifier == identifier && sts[i].key.ecdsaPub == keys[0].ecdsaPub
  {
    MemberFacts(h, n, keys, secret, identifier, subset, sts, i);
    var key := keys[IndexOf(keys[0].partyIds, subset[i]).value];
    StartedParts(h, n, key, identifier, subset, subset[i], sts[i]);
    hide Distinct, SharesOf, AllPairsMatch, Started, IsPointOf;
  }

  lemma MultipleIs(n: int, p: Point, k: int)
    requires n > 0
    ensures PointMul(n, p, k) == p * k % n
  {
  }


  lemma HonestMember(h: Hashes, n: int, keys: seq<Key>, secret: int, identifier: Identifier, subset: seq<nat>,
    sts: seq<Ceremony>,
    rs: seq<Scalar>, i: nat)
    requires n > 0 && WholeCommittee(h, n, keys, secret, identifier, subset, sts) && i < |subset| == |rs| == |sts|
    requires Seated(sts)
    requires keys != [] && Interpolates(n, keys[0], subset, secret) && Distinct(n, SubsetIds(n, subset))
    ensures sts[i].subset == subset && sts[i].myPos == i
    ensures Outcome(h, n, sts[i], MessagesTo(h, n, sts, rs, i)) == Derive(h, n, sts[i],
      PointMul(n, sts[i].point, secret))
  {
    hide Distinct, Sharing, WholeCommittee, Started, Interpolates, Partial, Genuine, Outcome, Derive, SumPartials,
      Cong, HonestMessage, SubsetIds, SubsetShares, IsPointOf;
    var st, msgs := sts[i], MessagesTo(h, n, sts, rs, i);
    MemberFacts(h, n, keys, secret, identifier, subset, sts, i);
    var key := keys[IndexOf(keys[0].partyIds, subset[i]).value];
    StartedParts(h, n, key, identifier, subset, subset[i], st);
    var peers := Peers(subset, i);
    forall k | 0 <= k < |peers| ensures Partial(h, n, st, peers[k], msgs[k]).Ok?
      && Genuine(n, st, Other(i, k), Partial(h, n, st, peers[k], msgs[k]).value)
    {
      var j := Other(i, k);
      assert peers[k] == subset[j];
      HonestPartial(h, n, keys, secret, identifier, subset, sts, i, j, rs[j]);
    }
    AllAccepted(h, n, st, peers, msgs, 0, st.myPartial);
    SamePublic(n, keys[0], key, subset, secret);
    OwnShare(n, key, subset, i, keys[0]);
    DeliveredImage(h, n, key, identifier, subset, subset[i], st, msgs, secret);
    OutcomeOf(h, n, st, msgs);
  }

  lemma OutcomeOf(h: Hashes, n: int, st: Ceremony, msgs: seq<KeyImageR1>)
    requires n > 0 && st.myPos < |st.subset| && |msgs| == |st.subset| - 1
    ensures var v := SumPartials(h, n, st, Peers(st.subset, st.myPos), msgs, 0, st.myPartial);
      v.Ok? ==> Outcome(h, n, st, msgs) == Derive(h, n, st, v.value)
  {
  }

  lemma SamePublic(n: int, k0: Key, k: Key, subset: seq<nat>, secret: int)
    requires n > 0 && k.partyIds == k0.partyIds && k.bigXj == k0.bigXj && Interpolates(n, k0, subset, secret)
    ensures Interpolates(n, k, subset, secret)
  {
    hide Cong, WeightedSum, SubsetIds;
    assert SubsetShares(k, subset) == SubsetShares(k0, subset);
  }

  lemma OwnShare(n: int, k: Key, subset: seq<nat>, i: nat, k0: Key)
    requires n > 0 && i < |subset| && k.bigXj == k0.bigXj && k.partyIds == k0.partyIds
    requires var full := IndexOf(k0.partyIds, subset[i]);
      full.Some? && full.value < |k0.bigXj| && k0.bigXj[full.value] == k.xi
    ensures Cong(k.xi, SubsetShares(k, subset)[i], n)
  {
  }

  /** Any two members of any two qualifying committees of one sharing get the same result for an identifier. */
  lemma SameKeyImage(h: Hashes, n: int, keys: seq<Key>, secret: int, identifier: Identifier,
    subset: seq<nat>, sts: seq<Ceremony>, rs: seq<Scalar>, i: nat,
    subset': seq<nat>, sts': seq<Ceremony>, rs': seq<Scalar>, i': nat)
    requires IsPrime(n)
    requires WholeCommittee(h, n, keys, secret, identifier, subset, sts) && i < |subset| == |rs|
    requires WholeCommittee(h, n, keys, secret, identifier, subset', sts') && i' < |subset'| == |rs'|
    ensures |sts| == |subset| && Seated(sts) && |sts'| == |subset'| && Seated(sts')
    ensures sts[i].subset == subset && sts'[i'].subset == subset'
    ensures Outcome(h, n, sts[i], MessagesTo(h, n, sts, rs, i)) == Outcome(h, n, sts'[i'],
      MessagesTo(h, n, sts', rs', i'))
  {
    SubsetInterpolates(h, n, keys, secret, identifier, subset, sts);
    SubsetInterpolates(h, n, keys, secret, identifier, subset', sts');
    CommitteeSeated(h, n, keys, secret, identifier, subset, sts);
    CommitteeSeated(h, n, keys, secret, identifier, subset', sts');
    HonestMember(h, n, keys, secret, identifier, subset, sts, rs, i);
    HonestMember(h, n, keys, secret, identifier, subset', sts', rs', i');
    SamePoint(h, n, keys, secret, identifier, subset, sts, i, subset', sts', i');
    hide *;
    DeriveDepends(h, n, sts[i], sts'[i'], PointMul(n, sts[i].point, secret));
  }

  lemma SamePoint(h: Hashes, n: int, keys: seq<Key>, secret: int, identifier: Identifier,
    subset: seq<nat>, sts: seq<Ceremony>, i: nat,
    subset': seq<nat>, sts': seq<Ceremony>, i': nat)
    requires n > 0
    requires WholeCommittee(h, n, keys, secret, identifier, subset, sts) && i < |subset|
    requires WholeCommittee(h, n, keys, secret, identifier, subset', sts') && i' < |subset'|
    ensures |sts| == |subset| && |sts'| == |subset'| && sts[i].point == sts'[i'].point && sts[i].point != 0
    ensures sts[i].identifier == sts'[i'].identifier && sts[i].key.ecdsaPub == sts'[i'].key.ecdsaPub
  {
    MemberFacts(h, n, keys, secret, identifier, subset, sts, i);
    MemberFacts(h, n, keys, secret, identifier, subset', sts', i');
    var k, k' := keys[IndexOf(keys[0].partyIds, subset[i]).value], keys[IndexOf(keys[0].partyIds, subset'[i']).value];
    StartedParts(h, n, k, identifier, subset, subset[i], sts[i]);
    StartedParts(h, n, k', identifier, subset', subset'[i'], sts'[i']);
    PointUnique(h, identifier, k.ecdsaPub, sts[i].point, sts'[i'].point);
    hide Distinct, SharesOf, AllPairsMatch, Started, IsPointOf;
  }

  lemma DeriveDepends(h: Hashes, n: int, st: Ceremony, st': Ceremony, v: Point)
    requires n > 0 && st.identifier == st'.identifier && st.key.ecdsaPub == st'.key.ecdsaPub
    ensures Derive(h, n, st, v) == Derive(h, n, st', v)
  {
  }
}
