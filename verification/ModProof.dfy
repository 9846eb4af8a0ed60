/** The Paillier-Blum modulus proof (src/ecdsatss/modproof.rs). */
module ModProof {
  import opened NumberTheory
  import opened Results
  import opened Bn
  import opened Paillier
  import opened Residues
  import Reciprocity

  const ITERATIONS: nat := 80

  datatype BlumProof = BlumProof(w: nat, x: seq<nat>, a: nat, b: nat, z: seq<nat>)

  datatype ModError = NotInvertibleModPhi | NotBlum

  type TaggedHash = (string, seq<nat>) -> nat

  // ---------- challenges ----------

  /** The challenges after the first ones: each hashes W, N and every challenge before it. */
  function ChallengesFrom(h: TaggedHash, session: string, w: nat, n: nat, before: seq<nat>, count: nat): (ys: seq<nat>)
    requires n > 0
    ensures |ys| == |before| + count
    decreases count
  {
    if count == 0 then before
    else ChallengesFrom(h, session, w, n, before + [h(session, [w, n] + before) % n], count - 1)
  }

  function ChallengesOf(h: TaggedHash, session: string, w: nat, n: nat): (ys: seq<nat>)
    requires n > 0
    ensures |ys| == ITERATIONS
  {
    ChallengesFrom(h, session, w, n, [], ITERATIONS)
  }

  lemma {:induction false} ChallengesKeep(h: TaggedHash, session: string, w: nat, n: nat, before: seq<nat>, count: nat)
    requires n > 0
    ensures before <= ChallengesFrom(h, session, w, n, before, count)
    ensures forall i :: |before| <= i < |before| + count ==>
      ChallengesFrom(h, session, w, n, before, count)[i]
        == h(session, [w, n] + ChallengesFrom(h, session, w, n, before, count)[..i]) % n
    decreases count
  {
    if count > 0 {
      var next := h(session, [w, n] + before) % n;
      ChallengesKeep(h, session, w, n, before + [next], count - 1);
      var ys := ChallengesFrom(h, session, w, n, before, count);
      assert ys[..|before|] == before && ys[|before|] == next;
    }
  }

  /** Every challenge is the hash of all that precede it, reduced modulo N. */
  lemma ChallengeChain(h: TaggedHash, session: string, w: nat, n: nat, i: nat)
    requires n > 0 && i < ITERATIONS
    ensures ChallengesOf(h, session, w, n)[i] == h(session, [w, n] + ChallengesOf(h, session, w, n)[..i]) % n
    ensures ChallengesOf(h, session, w, n)[i] < n
  {
    ChallengesKeep(h, session, w, n, [], ITERATIONS);
  }

  /** challenges: the vector grows by hashing what it already holds. */
  method Challenges(h: TaggedHash, session: string, w: nat, n: nat) returns (ys: seq<nat>)
    requires n > 0
    ensures ys == ChallengesOf(h, session, w, n)
  {
    ys := [];
    for i := 0 to ITERATIONS
      invariant |ys| == i
      invariant ChallengesOf(h, session, w, n) == ChallengesFrom(h, session, w, n, ys, ITERATIONS - i)
    {
      var ops := [w, n];
      for j := 0 to |ys|
        invariant ops == [w, n] + ys[..j]
      {
        ops := ops + [ys[j]];
      }
      assert ys[..|ys|] == ys;
      ys := ys + [h(session, ops) % n];
    }
  }

  // ---------- the choice of sign and factor ----------

  /** (-1)^a W^b Y mod N */
  function Candidate(n: nat, w: nat, y: nat, negate: bool, twist: bool): nat
    requires n > 0
  {
    var y1: nat := if negate then (0 - y) % n else y;
    if twist then (w * y1) % n else y1
  }

  function CandidateAt(n: nat, w: nat, y: nat, j: nat): nat
    requires n > 0
  {
    Candidate(n, w, y, j % 2 == 1, j / 2 == 1)
  }

  /** Whether the j-th candidate is a square modulo both primes. */
  predicate Square2(n: nat, p: nat, q: nat, w: nat, y: nat, j: nat)
    requires n > 0
  {
    Symbol(CandidateAt(n, w, y, j), p) == 1 && Symbol(CandidateAt(n, w, y, j), q) == 1
  }

  /** The inner loop of prove: the first candidate that is a square modulo both primes, or 4. */
  method FindSquare(n: nat, p: nat, q: nat, w: nat, y: nat) returns (j: nat)
    requires n > 0 && p % 2 == 1 && q % 2 == 1
    ensures j <= 4 && (j < 4 ==> Square2(n, p, q, w, y, j))
    ensures forall k :: 0 <= k < j ==> !Square2(n, p, q, w, y, k)
  {
    hide *;
    j := 0;
    while j < 4
      invariant j <= 4
      invariant forall k :: 0 <= k < j ==> !Square2(n, p, q, w, y, k)
    {
      var yi := CandidateAt(n, w, y, j);
      var qrP := Reciprocity.JacobiSymbol(yi, p);
      if qrP == 1 {
        var qrQ := Reciprocity.JacobiSymbol(yi, q);
        if qrQ == 1 {
          Square2From(n, p, q, w, y, j);
          return;
        }
      }
      NotSquare2From(n, p, q, w, y, j);
      j := j + 1;
    }
  }

  lemma Square2From(n: nat, p: nat, q: nat, w: nat, y: nat, j: nat)
    requires n > 0 && Symbol(CandidateAt(n, w, y, j), p) == 1 && Symbol(CandidateAt(n, w, y, j), q) == 1
    ensures Square2(n, p, q, w, y, j)
  {
  }

  lemma NotSquare2From(n: nat, p: nat, q: nat, w: nat, y: nat, j: nat)
    requires n > 0 && (Symbol(CandidateAt(n, w, y, j), p) != 1 || Symbol(CandidateAt(n, w, y, j), q) != 1)
    ensures !Square2(n, p, q, w, y, j)
  {
  }

  // ---------- the prover ----------

  /** What the prover holds fixed during its iterations. */
  datatype Setup = Setup(n: nat, p: nat, q: nat, w: nat, phi: nat, inv: nat) {
    ghost predicate Valid() { n > 0 && phi > 0 }
  }

  /** The exponent of the fourth root: ((phi + 4) / 8)^2 mod phi. */
  function RootExponent(phi: nat): nat
    requires phi > 0
  {
    ProductNonNegative((phi + 4) / 8, (phi + 4) / 8);
    (((phi + 4) / 8) * ((phi + 4) / 8)) % phi
  }

  /** The roots and the two recorded bits of one iteration, for candidate j of challenge y. */
  ghost predicate Answers(c: Setup, y: nat, x: nat, z: nat, aBit: nat, bBit: nat, j: nat)
    requires c.Valid()
  {
    && j < 4 && Square2(c.n, c.p, c.q, c.w, y, j)
    && x == PowMod(CandidateAt(c.n, c.w, y, j), RootExponent(c.phi), c.n) && z == PowMod(y, c.inv, c.n)
    && aBit == j % 2 && bBit == j / 2
  }

  ghost predicate Answered(c: Setup, y: nat, x: nat, z: nat, aBit: nat, bBit: nat)
    requires c.Valid()
  {
    exists j: nat :: Answers(c, y, x, z, aBit, bBit, j)
  }

  /** The proof after i iterations: they are answered, the later bits are clear, and A and B are 81 bits long. */
  ghost predicate Progress(c: Setup, pf: BlumProof, ys: seq<nat>, i: nat)
    requires c.Valid() && |ys| == ITERATIONS && i <= ITERATIONS
  {
    && |pf.x| == |pf.z| == i && pf.w == c.w
    && BitLen(pf.a) == BitLen(pf.b) == ITERATIONS + 1
    && (forall k :: i <= k < ITERATIONS ==> Bit(pf.a, k) == 0 && Bit(pf.b, k) == 0)
    && forall k :: 0 <= k < i ==> Answered(c, ys[k], pf.x[k], pf.z[k], Bit(pf.a, k), Bit(pf.b, k))
  }

  /** Recording iteration i: push the roots and set the bits of the choice. */
  function Recorded(pf: BlumProof, x: nat, z: nat, i: nat, j: nat): BlumProof {
    BlumProof(pf.w, pf.x + [x], if j % 2 == 1 then SetBit(pf.a, i) else pf.a,
              if j / 2 == 1 then SetBit(pf.b, i) else pf.b, pf.z + [z])
  }

  lemma SetBitKeeps(a: nat, i: nat, on: bool, a': nat)
    requires BitLen(a) == ITERATIONS + 1 && i < ITERATIONS && Bit(a, i) == 0
    requires a' == if on then SetBit(a, i) else a
    ensures BitLen(a') == ITERATIONS + 1 && Bit(a', i) == (if on then 1 else 0)
    ensures forall k: nat :: k != i ==> Bit(a', k) == Bit(a, k)
  {
    if on {
      SetBitLength(a, i);
      SetBitReads(a, i, i);
      forall k: nat | k != i ensures Bit(SetBit(a, i), k) == Bit(a, k) { SetBitReads(a, i, k); }
    }
  }

  lemma RecordKeeps(c: Setup, pf: BlumProof, ys: seq<nat>, i: nat, x: nat, z: nat, j: nat)
    requires c.Valid() && |ys| == ITERATIONS && i < ITERATIONS && Progress(c, pf, ys, i)
    requires Answers(c, ys[i], x, z, j % 2, j / 2, j)
    ensures Progress(c, Recorded(pf, x, z, i, j), ys, i + 1)
  {
    hide Answers, Bit, SetBit, BitLen, Answered;
    var pf' := Recorded(pf, x, z, i, j);
    SmallChoice(c, ys[i], x, z, j);
    SetBitKeeps(pf.a, i, j % 2 == 1, pf'.a);
    SetBitKeeps(pf.b, i, j / 2 == 1, pf'.b);
    AnsweredFrom(c, ys[i], x, z, j);
    assert Bit(pf'.a, i) == j % 2 && Bit(pf'.b, i) == j / 2;
    forall k | 0 <= k < i + 1 ensures Answered(c, ys[k], pf'.x[k], pf'.z[k], Bit(pf'.a, k), Bit(pf'.b, k)) {
      if k < i {
        assert Answered(c, ys[k], pf.x[k], pf.z[k], Bit(pf.a, k), Bit(pf.b, k));
      }
    }
  }

  lemma SmallChoice(c: Setup, y: nat, x: nat, z: nat, j: nat)
    requires c.Valid() && Answers(c, y, x, z, j % 2, j / 2, j)
    ensures j < 4
  {
  }

  lemma AnsweredFrom(c: Setup, y: nat, x: nat, z: nat, j: nat)
    requires c.Valid() && Answers(c, y, x, z, j % 2, j / 2, j)
    ensures Answered(c, y, x, z, j % 2, j / 2)
  {
  }

  /** An empty record: A and B start as 1 << 80. */
  function Blank(w: nat): BlumProof { BlumProof(w, [], SetBit(0, ITERATIONS), SetBit(0, ITERATIONS), []) }

  lemma BlankProgress(c: Setup, ys: seq<nat>)
    requires c.Valid() && |ys| == ITERATIONS
    ensures Progress(c, Blank(c.w), ys, 0)
  {
    hide BitLen, SetBit, Bit, Answered;
    EmptyWord();
    forall k: nat | k < ITERATIONS ensures Bit(SetBit(0, ITERATIONS), k) == 0 {
      SetBitReads(0, ITERATIONS, k);
      NoBits(k);
    }
  }

  lemma EmptyWord()
    ensures BitLen(SetBit(0, ITERATIONS)) == ITERATIONS + 1
  {
    SetBitLength(0, ITERATIONS);
    assert BitLen(0) == 0;
  }

  /** No candidate for the challenge is a square modulo both primes. */
  ghost predicate Stuck(n: nat, p: nat, q: nat, w: nat, y: nat)
    requires n > 0
  {
    forall j: nat :: j < 4 ==> !Square2(n, p, q, w, y, j)
  }

  ghost predicate SomeStuck(n: nat, p: nat, q: nat, w: nat, ys: seq<nat>)
    requires n > 0
  {
    exists i :: 0 <= i < |ys| && Stuck(n, p, q, w, ys[i])
  }

  function SetupOf(n: nat, p: nat, q: nat, w: nat): (c: Setup)
    requires p > 1 && q > 1 && (p - 1) * (q - 1) > 0
    ensures c.n == n && c.p == p && c.q == q && c.w == w && c.phi == (p - 1) * (q - 1)
  {
    var phi := (p - 1) * (q - 1);
    var inv := ModInv(n, phi);
    ModInvCorrect(n, phi);
    Setup(n, p, q, w, phi, if inv.0 then inv.1 else 0)
  }

  /** prove, with the quadratic non-residue w drawn by random_qnr */
  method Prove(h: TaggedHash, session: string, n: nat, p: nat, q: nat, w: nat) returns (res: Result<BlumProof,
    ModError>)
    requires n > 0 && p > 1 && q > 1 && p % 2 == 1 && q % 2 == 1 && (p - 1) * (q - 1) > 0
    ensures res == Err(NotInvertibleModPhi) <==> !Coprime(n, (p - 1) * (q - 1))
    ensures res == Err(NotBlum) ==> SomeStuck(n, p, q, w, ChallengesOf(h, session, w, n))
    ensures res.Ok? ==> Progress(SetupOf(n, p, q, w), res.value, ChallengesOf(h, session, w, n), ITERATIONS)
  {
    var phi := (p - 1) * (q - 1);
    ghost var c := SetupOf(n, p, q, w);
    SetupInverse(n, p, q, w);
    hide *;
    var ys := Challenges(h, session, w, n);
    ModInvCorrect(n, phi);
    var inv := ModInv(n, phi);
    if !inv.0 { return Err(NotInvertibleModPhi); }
    var expo := RootExponent(phi);
    var pf := Blank(w);
    BlankProgress(c, ys);
    for i := 0 to ITERATIONS
      invariant Progress(c, pf, ys, i)
    {
      var j := FindSquare(n, p, q, w, ys[i]);
      if j == 4 {
        StuckFrom(n, p, q, w, ys, i);
        return Err(NotBlum);
      }
      var x, z := PowMod(CandidateAt(n, w, ys[i], j), expo, n), PowMod(ys[i], inv.1, n);
      AnswersFrom(c, ys[i], x, z, j);
      RecordKeeps(c, pf, ys, i, x, z, j);
      pf := Recorded(pf, x, z, i, j);
    }
    return Ok(pf);
  }

  lemma SetupInverse(n: nat, p: nat, q: nat, w: nat)
    requires n > 0 && p > 1 && q > 1 && (p - 1) * (q - 1) > 0
    ensures SetupOf(n, p, q, w).Valid()
    ensures ModInv(n, (p - 1) * (q - 1)).0 ==> SetupOf(n, p, q, w).inv == ModInv(n, (p - 1) * (q - 1)).1
  {
  }

  lemma AnswersFrom(c: Setup, y: nat, x: nat, z: nat, j: nat)
    requires c.Valid() && j < 4 && Square2(c.n, c.p, c.q, c.w, y, j)
    requires x == PowMod(CandidateAt(c.n, c.w, y, j), RootExponent(c.phi), c.n) && z == PowMod(y, c.inv, c.n)
    ensures Answers(c, y, x, z, j % 2, j / 2, j)
  {
  }

  lemma StuckFrom(n: nat, p: nat, q: nat, w: nat, ys: seq<nat>, i: nat)
    requires n > 0 && i < |ys| && forall k :: 0 <= k < 4 ==> !Square2(n, p, q, w, ys[i], k)
    ensures SomeStuck(n, p, q, w, ys)
  {
    hide Square2;
    assert Stuck(n, p, q, w, ys[i]);
  }

  // ---------- the verifier ----------

  ghost predicate IterationHolds(n: nat, w: nat, y: nat, x: nat, z: nat, aBit: nat, bBit: nat)
    requires n > 0
  {
    PowMod(z, n, n) == y && PowMod(x, 4, n) == Candidate(n, w, y, aBit == 1, bBit == 1)
  }

  /** The checks before the equations. */
  ghost predicate WellFormed(n: nat, pf: BlumProof) {
    && |pf.x| == |pf.z| == 80 && n % 2 == 1
    && pf.w != 0 && pf.w < n && Symbol(pf.w, n) != 1 && Gcd(pf.w, n) == 1
    && (forall k :: 0 <= k < ITERATIONS ==> 0 < pf.x[k] < n && 0 < pf.z[k] < n)
    && BitLen(pf.a) == BitLen(pf.b) == ITERATIONS + 1
  }

  /** What verify accepts; foundPrime is the verdict of the Miller-Rabin rounds on N. */
  ghost predicate Accepted(h: TaggedHash, session: string, n: nat, pf: BlumProof, foundPrime: bool) {
    && WellFormed(n, pf) && !foundPrime
    && forall k :: 0 <= k < ITERATIONS ==>
         IterationHolds(n, pf.w, ChallengesOf(h, session, pf.w, n)[k], pf.x[k], pf.z[k], Bit(pf.a, k), Bit(pf.b, k))
  }

  method InRange(n: nat, vs: seq<nat>) returns (ok: bool)
    ensures ok <==> forall k :: 0 <= k < |vs| ==> 0 < vs[k] < n
  {
    for k := 0 to |vs|
      invariant forall j :: 0 <= j < k ==> 0 < vs[j] < n
    {
      if vs[k] == 0 || vs[k] >= n { return false; }
    }
    return true;
  }

  method CheckShape(n: nat, pf: BlumProof) returns (ok: bool)
    ensures ok <==> WellFormed(n, pf)
  {
    hide Symbol, Gcd, BitLen;
    if |pf.x| != ITERATIONS || |pf.z| != ITERATIONS { return false; }
    if n % 2 != 1 { return false; }
    if pf.w == 0 || pf.w >= n { return false; }
    var jw := Reciprocity.JacobiSymbol(pf.w, n);
    if jw == 1 { return false; }
    if Gcd(pf.w, n) != 1 { return false; }
    var zs := InRange(n, pf.z);
    if !zs { return false; }
    var xs := InRange(n, pf.x);
    if !xs { return false; }
    return BitLen(pf.a) == ITERATIONS + 1 && BitLen(pf.b) == ITERATIONS + 1;
  }

  /** verify */
  method Verify(h: TaggedHash, session: string, n: nat, pf: BlumProof, foundPrime: bool) returns (ok: bool)
    ensures ok <==> Accepted(h, session, n, pf, foundPrime)
  {
    hide Symbol, Gcd, BitLen, Bit, PowMod, Candidate, ChallengesOf;
    var shaped := CheckShape(n, pf);
    if !shaped { return false; }
    if foundPrime { return false; }
    var y := Challenges(h, session, pf.w, n);
    for i := 0 to ITERATIONS
      invariant forall k :: 0 <= k < i ==>
        IterationHolds(n, pf.w, y[k], pf.x[k], pf.z[k], Bit(pf.a, k), Bit(pf.b, k))
    {
      if PowMod(pf.z[i], n, n) != y[i] { return false; }
      if PowMod(pf.x[i], 4, n) != Candidate(n, pf.w, y[i], Bit(pf.a, i) == 1, Bit(pf.b, i) == 1) { return false; }
    }
    return true;
  }

  // ---------- completeness ----------

  /** Two different primes that are 3 modulo 4. */
  ghost predicate BlumPrimes(p: nat, q: nat) {
    IsPrime(p) && IsPrime(q) && p != q && p % 4 == 3 && q % 4 == 3
  }

  function SignOf(negate: bool): int { if negate then -1 else 1 }

  /** The symbol of candidate j from those of W and Y. */
  function Turned(j: nat, lw: int, ly: int): int { SignOf(j % 2 == 1) * (if j / 2 == 1 then lw else 1) * ly }

  /** The symbol of a candidate modulo one of the two primes. */
  lemma CandidateSymbol(n: nat, r: nat, k: nat, w: nat, y: nat, j: nat)
    requires OddPrime(r) && r % 4 == 3 && k > 0 && n == r * k && n > 0 && j < 4
    ensures Legendre(CandidateAt(n, w, y, j), r)
         == Turned(j, Legendre(w, r), Legendre(y, r))
  {
    var y1: nat := if j % 2 == 1 then (0 - y) % n else y;
    LegendreNeg(y, r);
    if j % 2 == 1 { ReducedSymbol(n, r, k, 0 - y); }
    assert Legendre(y1, r) == SignOf(j % 2 == 1) * Legendre(y, r);
    LegendreMul(w, y1, r);
    ReducedSymbol(n, r, k, w * y1);
    hide Legendre;
    SignedProduct(Legendre(w, r), SignOf(j % 2 == 1), Legendre(y, r));
  }

  lemma SignedProduct(a: int, s: int, b: int)
    ensures a * (s * b) == s * a * b && s * 1 * b == s * b
  {
  }

  lemma ReducedSymbol(n: nat, r: nat, k: nat, v: int)
    requires OddPrime(r) && k > 0 && n == r * k && n > 0
    ensures Legendre(v % n, r) == Legendre(v, r)
  {
    CongMod(v, n);
    CongWeaken(v % n, v, r, k);
    LegendreCong(v % n, v, r);
  }

  /** With w a non-residue of Jacobi symbol -1, exactly one of Y, -Y, WY, -WY is a square modulo both primes, if Y is a
      unit, and none is otherwise. */
  lemma OneSquare(p: nat, q: nat, w: nat, y: nat)
    requires BlumPrimes(p, q) && p * q > 0 && Symbol(w, p * q) == -1
    ensures Coprime(y, p * q) ==> !Stuck(p * q, p, q, w, y)
    ensures forall i: nat, j: nat ::
      i < 4 && j < 4 && Square2(p * q, p, q, w, y, i) && Square2(p * q, p, q, w, y, j) ==> i == j
    ensures !Coprime(y, p * q) ==> Stuck(p * q, p, q, w, y)
  {
    SymbolOfTwo(w, p, q);
    UnitSymbols(p, q, y);
    forall j: nat | j < 4
      ensures Square2(p * q, p, q, w, y, j) <==>
        && Turned(j, Legendre(w, p), Legendre(y, p)) == 1
        && Turned(j, Legendre(w, q), Legendre(y, q)) == 1
    {
      SquareSymbols(p, q, w, y, j);
    }
    var a, b, s, t := Legendre(w, p), Legendre(w, q), Legendre(y, p), Legendre(y, q);
    hide Legendre, Symbol, BlumPrimes, Coprime, Square2, Turned;
    FourCases(a, b, s, t);
    if s != 0 && t != 0 {
      var j := Pick(a, b, s, t);
      assert Square2(p * q, p, q, w, y, j);
    }
  }

  /** Which candidate the symbols of W and Y single out. */
  function Pick(a: int, b: int, s: int, t: int): (j: nat)
    requires a * b == -1 && -1 <= a <= 1 && -1 <= b <= 1 && (s == 1 || s == -1) && (t == 1 || t == -1)
    ensures j < 4
    ensures Turned(j, a, s) == 1
    ensures Turned(j, b, t) == 1
  {
    if s == t then (if s == 1 then 0 else 1) else (if a == s then 2 else 3)
  }

  lemma FourCases(a: int, b: int, s: int, t: int)
    requires a * b == -1 && -1 <= a <= 1 && -1 <= b <= 1 && -1 <= s <= 1 && -1 <= t <= 1
    ensures forall i: nat, j: nat ::
      (i < 4 && j < 4 && Turned(i, a, s) == 1 && Turned(i, b, t) == 1 && Turned(j, a, s) == 1 && Turned(j, b,
        t) == 1) ==> i == j
    ensures s == 0 || t == 0 ==> forall j: nat :: j < 4 ==>
      !(Turned(j, a, s) == 1 && Turned(j, b, t) == 1)
  {
  }

  lemma BlumOdd(p: nat, q: nat)
    requires BlumPrimes(p, q)
    ensures OddPrime(p) && OddPrime(q) && IsPrime(p) && IsPrime(q) && p > 2 && q > 2 && p % 4 == 3 && q % 4 == 3
    ensures p != q
  {
    hide IsPrime;
    OddFromFour(p);
    OddFromFour(q);
  }

  lemma OddFromFour(p: nat)
    requires p % 4 == 3
    ensures p % 2 == 1 && p > 2
  {
    hide *;
    var k := p / 4;
    assert p == (2 * k + 1) * 2 + 1;
    ModUnique(p, 2 * k + 1, 1, 2);
  }

  lemma Square2Means(n: nat, p: nat, q: nat, w: nat, y: nat, j: nat)
    requires n > 0
    ensures Square2(n, p, q, w, y, j) <==>
      Symbol(CandidateAt(n, w, y, j), p) == 1 && Symbol(CandidateAt(n, w, y, j), q) == 1
  {
  }

  lemma SquareSymbols(p: nat, q: nat, w: nat, y: nat, j: nat)
    requires BlumPrimes(p, q) && p * q > 0 && j < 4
    ensures Square2(p * q, p, q, w, y, j) <==>
      && Turned(j, Legendre(w, p), Legendre(y, p)) == 1
      && Turned(j, Legendre(w, q), Legendre(y, q)) == 1
  {
    hide *;
    BlumOdd(p, q);
    var n := p * q;
    SwapFactors(p, q);
    var v := CandidateAt(n, w, y, j);
    SymbolOfPrime(v, p);
    SymbolOfPrime(v, q);
    CandidateSymbol(n, p, q, w, y, j);
    CandidateSymbol(n, q, p, w, y, j);
    Square2Means(n, p, q, w, y, j);
  }

  /** A residue is a unit modulo pq exactly when neither symbol vanishes. */
  lemma UnitSymbols(p: nat, q: nat, y: nat)
    requires BlumPrimes(p, q) && p * q > 0
    ensures Coprime(y, p * q) <==> Legendre(y, p) != 0 && Legendre(y, q) != 0
  {
    LegendreUnit(y, p);
    LegendreUnit(y, q);
    if Coprime(y, p * q) {
      UnitModuloPrime(p, q, y);
      assert q * p == p * q;
      UnitModuloPrime(q, p, y);
    }
    if !Cong(y, 0, p) && !Cong(y, 0, q) {
      PrimeCoprime(p, y);
      PrimeCoprime(q, y);
      CoprimeSym(y, p);
      CoprimeSym(y, q);
      CoprimeMul(p, q, y);
      CoprimeSym(p * q, y);
    }
  }

  /** phi = 4k with k odd, so 4 ((phi+4)/8)^2 = (k+1)^2 is one more than a multiple of k, and reducing the exponent
      modulo phi keeps that. */
  lemma RootExponentShape(k: nat, phi: nat) returns (m: nat)
    requires k % 2 == 1 && k > 1 && phi == 4 * k
    ensures 4 * RootExponent(phi) == 1 + m * k
  {
    var e0 := (phi + 4) / 8;
    assert 2 * e0 == k + 1;
    ProductNonNegative(e0, e0);
    var t := (e0 * e0) / phi;
    assert e0 * e0 == phi * t + RootExponent(phi);
    RootIdentity(k, e0, t, RootExponent(phi));
    var m' := k + 2 - 16 * t;
    if m' < 0 {
      MulMono(m', -1, k);
      assert false;
    }
    m := m';
  }

  lemma RootIdentity(k: int, e0: int, t: int, r: int)
    requires 2 * e0 == k + 1 && e0 * e0 == (4 * k) * t + r
    ensures 4 * r == 1 + (k + 2 - 16 * t) * k
  {
    assert 4 * (e0 * e0) == (k + 1) * (k + 1) by {
      assert (2 * e0) * (2 * e0) == 4 * (e0 * e0);
    }
    assert (k + 1) * (k + 1) == k * k + 2 * k + 1;
    assert (k + 2 - 16 * t) * k == k * k + 2 * k - 16 * (t * k);
    assert (4 * k) * t == 4 * (t * k);
  }

  lemma OddTimesOdd(a: nat, b: nat)
    requires a % 2 == 1 && b % 2 == 1
    ensures (a * b) % 2 == 1
  {
    var i, j := a / 2, b / 2;
    OddIdentity(i, j);
    assert a == 2 * i + 1 && b == 2 * j + 1;
    ModUnique(a * b, 2 * (i * j) + i + j, 1, 2);
  }

  lemma OddIdentity(i: int, j: int)
    ensures (2 * i + 1) * (2 * j + 1) == (2 * (i * j) + i + j) * 2 + 1
  {
  }

  lemma Quadruple(a: int, b: int)
    ensures (2 * a) * (2 * b) == 4 * (a * b)
  {
  }

  lemma HalfOdd(p: nat)
    requires p % 4 == 3
    ensures p - 1 == 2 * ((p - 1) / 2) && (p - 1) / 2 % 2 == 1 && (p > 2 ==> (p - 1) / 2 > 0)
  {
  }

  lemma HalfTotient(p: nat, q: nat)
    requires p > 2 && q > 2 && p != q && p % 4 == 3 && q % 4 == 3
    ensures var a, b := (p - 1) / 2, (q - 1) / 2; a * b > 1 && (a * b) % 2 == 1 && (p - 1) * (q - 1) == 4 * (a * b)
  {
    var a, b := (p - 1) / 2, (q - 1) / 2;
    HalfOdd(p);
    HalfOdd(q);
    hide *;
    OddTimesOdd(a, b);
    Quadruple(a, b);
    PositiveProduct(a, b);
  }

  /** A square modulo both primes, raised to (p-1)(q-1)/4, is one. */
  lemma SquarePower(p: nat, q: nat, v: int)
    requires BlumPrimes(p, q) && p * q > 0 && Legendre(v, p) == 1 && Legendre(v, q) == 1
    ensures ((p - 1) / 2) * ((q - 1) / 2) >= 0 && Cong(Pow(v, ((p - 1) / 2) * ((q - 1) / 2)), 1, p * q)
  {
    var a, b := (p - 1) / 2, (q - 1) / 2;
    BlumOdd(p, q);
    LegendreEuler(v, p);
    LegendreEuler(v, q);
    DistinctPrimesCoprime(p, q);
    ProductNonNegative(a, b);
    hide IsPrime, Cong, Pow, Legendre, Coprime;
    SwapFactors(a, b);
    PowerOfMultiple2(v, a, b, p);
    PowerOfMultiple2(v, b, a, q);
    CongJoin(Pow(v, a * b), 1, p, q);
  }

  lemma PowerOfMultiple2(v: int, a: nat, b: nat, m: nat)
    requires m > 1 && a * b >= 0 && Cong(Pow(v, a), 1, m)
    ensures Cong(Pow(v, a * b), 1, m)
  {
    PowMul(v, a, b);
    PowCong(Pow(v, a), 1, b, m);
    PowOne(b);
  }

  /** The exponent of prove takes fourth roots of squares modulo both primes. */
  lemma FourthRoot(p: nat, q: nat, v: nat)
    requires BlumPrimes(p, q) && p * q > 1 && (p - 1) * (q - 1) > 0 && Legendre(v, p) == 1 && Legendre(v, q) == 1
    ensures PowMod(PowMod(v, RootExponent((p - 1) * (q - 1)), p * q), 4, p * q) == v % (p * q)
  {
    var n, phi, k := p * q, (p - 1) * (q - 1), ((p - 1) / 2) * ((q - 1) / 2);
    BlumSizes(p, q);
    HalfTotient(p, q);
    SquarePower(p, q, v);
    var e := RootExponent(phi);
    var m := RootExponentShape(k, phi);
    hide *;
    SwapFactors(e, 4);
    CongMod(Pow(v, e), n);
    PowCong(PowMod(v, e, n), Pow(v, e), 4, n);
    PowModOf(v, e, n);
    PowMul(v, e, 4);
    ProductNonNegative(m, k);
    RaisedBack(v, 4 * e, n, k, m);
    CongTrans(Pow(PowMod(v, e, n), 4), Pow(v, 4 * e), v, n);
    CongResidues(Pow(PowMod(v, e, n), 4), v, n);
    PowModOf(PowMod(v, e, n), 4, n);
  }

  lemma PowModOf(v: int, e: nat, n: nat)
    requires n > 0
    ensures PowMod(v, e, n) == Pow(v, e) % n
  {
  }

  lemma CongResidues(a: int, b: int, m: int)
    requires m > 0 && Cong(a, b, m)
    ensures a % m == b % m
  {
  }

  lemma BlumSizes(p: nat, q: nat)
    requires BlumPrimes(p, q)
    ensures p > 2 && q > 2 && p != q && p % 4 == 3 && q % 4 == 3 && IsPrime(p) && IsPrime(q)
    ensures p * q > 1 && (p - 1) * (q - 1) > 1 && (p * q) % 2 == 1
  {
    BlumOdd(p, q);
    OddFromFour(p);
    OddFromFour(q);
    hide *;
    PositiveProduct(p, q);
    PositiveProduct(p - 1, q - 1);
    OddTimesOdd(p, q);
  }

  // ---------- the theorems ----------

  /** One answered iteration satisfies both equations, with roots in (0, N). */
  lemma AnswerHolds(p: nat, q: nat, w: nat, y: nat, x: nat, z: nat, aBit: nat, bBit: nat)
    requires BlumPrimes(p, q) && p * q > 1 && (p - 1) * (q - 1) > 1 && Coprime(p * q, (p - 1) * (q - 1)) && y < p * q
    requires SetupOf(p * q, p, q, w).Valid() && Answered(SetupOf(p * q, p, q, w), y, x, z, aBit, bBit)
    ensures 0 < x < p * q && 0 < z < p * q && IterationHolds(p * q, w, y, x, z, aBit, bBit)
  {
    var n, phi, c := p * q, (p - 1) * (q - 1), SetupOf(p * q, p, q, w);
    var j: nat :| Answers(c, y, x, z, aBit, bBit, j);
    var v := CandidateAt(n, w, y, j);
    SymbolOfPrime(v, p);
    SymbolOfPrime(v, q);
    SquareSymbols(p, q, w, y, j);
    UnitSymbols(p, q, y);
    UnitSymbols(p, q, v);
    AnswersMean(c, y, x, z, aBit, bBit, j);
    CandidateBound(n, w, y, j);
    FourthRoot(p, q, v);
    SetupInverse(n, p, q, w);
    ModInvCorrect(n, phi);
    BlumSizes(p, q);
    hide *;
    TurnedUnit(j, w, y, p);
    TurnedUnit(j, w, y, q);
    SmallMod(v, n);
    UnitPowerNonZero(v, RootExponent(phi), n);
    NthRoot(p, q, y, c.inv);
    SmallMod(y, n);
    UnitPowerNonZero(y, c.inv, n);
    IterationFrom(n, w, y, x, z, j);
  }

  lemma TurnedUnit(j: nat, w: int, y: int, r: nat)
    requires r > 0 && Turned(j, Legendre(w, r), Legendre(y, r)) == 1
    ensures Legendre(y, r) != 0
  {
    var s := SignOf(j % 2 == 1) * (if j / 2 == 1 then Legendre(w, r) else 1);
    TimesZero(s);
  }

  lemma TimesZero(s: int)
    ensures s * 0 == 0
  {
  }

  lemma CandidateBound(n: nat, w: nat, y: nat, j: nat)
    requires n > 0 && y < n
    ensures CandidateAt(n, w, y, j) < n
  {
  }

  lemma AnswersMean(c: Setup, y: nat, x: nat, z: nat, aBit: nat, bBit: nat, j: nat)
    requires c.Valid() && Answers(c, y, x, z, aBit, bBit, j)
    ensures j < 4 && Square2(c.n, c.p, c.q, c.w, y, j) && aBit == j % 2 && bBit == j / 2
    ensures x == PowMod(CandidateAt(c.n, c.w, y, j), RootExponent(c.phi), c.n) && z == PowMod(y, c.inv, c.n)
  {
  }

  lemma IterationFrom(n: nat, w: nat, y: nat, x: nat, z: nat, j: nat)
    requires n > 0 && PowMod(z, n, n) == y && PowMod(x, 4, n) == CandidateAt(n, w, y, j)
    ensures IterationHolds(n, w, y, x, z, j % 2, j / 2)
  {
  }

  /** Completeness: for a Blum modulus with N invertible modulo phi, every proof the prover returns is accepted unless
      the Miller-Rabin rounds take N for a prime. */
  lemma BlumProofComplete(h: TaggedHash, session: string, p: nat, q: nat, w: nat, pf: BlumProof, foundPrime: bool)
    requires BlumPrimes(p, q) && p * q > 1 && (p - 1) * (q - 1) > 1 && Coprime(p * q, (p - 1) * (q - 1))
    requires 0 < w < p * q && Symbol(w, p * q) == -1
    requires SetupOf(p * q, p, q, w).Valid()
    requires Progress(SetupOf(p * q, p, q, w), pf, ChallengesOf(h, session, w, p * q), ITERATIONS)
    ensures Accepted(h, session, p * q, pf, foundPrime) <==> !foundPrime
  {
    var n, c, ys := p * q, SetupOf(p * q, p, q, w), ChallengesOf(h, session, w, p * q);
    BlumSizes(p, q);
    SymbolOfTwo(w, p, q);
    UnitSymbols(p, q, w);
    CoprimeIffGcd(w, n);
    hide IsPrime, BlumPrimes, Coprime, Gcd, Symbol, Legendre, BitLen, Bit, Answered, IterationHolds, SetupOf,
      ChallengesOf;
    forall k | 0 <= k < ITERATIONS
      ensures 0 < pf.x[k] < n && 0 < pf.z[k] < n
      ensures IterationHolds(n, w, ys[k], pf.x[k], pf.z[k], Bit(pf.a, k), Bit(pf.b, k))
    {
      ChallengeChain(h, session, w, n, k);
      AnswerHolds(p, q, w, ys[k], pf.x[k], pf.z[k], Bit(pf.a, k), Bit(pf.b, k));
    }
  }

  /** When the prover gives up on a Blum modulus: exactly when some challenge is not a unit. */
  lemma StuckExactly(h: TaggedHash, session: string, p: nat, q: nat, w: nat)
    requires BlumPrimes(p, q) && p * q > 0 && Symbol(w, p * q) == -1
    ensures SomeStuck(p * q, p, q, w, ChallengesOf(h, session, w, p * q)) <==>
      exists i :: 0 <= i < ITERATIONS && !Coprime(ChallengesOf(h, session, w, p * q)[i], p * q)
  {
    var ys := ChallengesOf(h, session, w, p * q);
    hide BlumPrimes, Symbol, Stuck, Coprime, ChallengesOf;
    forall i | 0 <= i < ITERATIONS ensures Stuck(p * q, p, q, w, ys[i]) <==> !Coprime(ys[i], p * q) {
      OneSquare(p, q, w, ys[i]);
    }
  }
}
