/** The Paillier cryptosystem and the key-correctness proof (src/ecdsatss/paillier.rs). */
module Paillier {
  import opened NumberTheory
  import opened Results
  import opened Bits
  import opened Bn

  datatype PrivateKey = PrivateKey(n: nat, lambda: nat, phi: nat, p: nat, q: nat)

  /** from_primes */
  method FromPrimes(p: nat, q: nat) returns (sk: PrivateKey)
    requires p > 1 && q > 1
    ensures sk == KeyFrom(p, q)
  {
    PositiveProduct(p, q);
    PositiveProduct(p - 1, q - 1);
    var phi := (p - 1) * (q - 1);
    var g := BinaryGcd(p - 1, q - 1);
    GcdDivides(p - 1, q - 1);
    sk := PrivateKey(p * q, phi / g, phi, p, q);
  }

  function KeyFrom(p: nat, q: nat): (sk: PrivateKey)
    requires p > 1 && q > 1
  {
    PositiveProduct(p, q);
    PositiveProduct(p - 1, q - 1);
    GcdDivides(p - 1, q - 1);
    PrivateKey(p * q, (p - 1) * (q - 1) / Gcd(p - 1, q - 1), (p - 1) * (q - 1), p, q)
  }

  /** lambda is the least common multiple of p - 1 and q - 1: a common multiple that divides every other. */
  lemma LambdaIsLcm(p: nat, q: nat)
    requires p > 1 && q > 1
    ensures var lambda := KeyFrom(p, q).lambda;
      && lambda > 0 && Divides(p - 1, lambda) && Divides(q - 1, lambda)
      && forall m :: Divides(p - 1, m) && Divides(q - 1, m) ==> Divides(lambda, m)
  {
    hide *;
    var a, b, g := p - 1, q - 1, Gcd(p - 1, q - 1);
    GcdDivides(a, b);
    var s := QuotientOf(g, a);
    var t := QuotientOf(g, b);
    LcmShape(a, b, g, s, t);
    LambdaIs(p, q);
    var lambda := KeyFrom(p, q).lambda;
    DividesBy(a, lambda, t);
    DividesBy(b, lambda, s);
    forall m | Divides(a, m) && Divides(b, m) ensures Divides(lambda, m) { CommonMultiple(a, b, g, s, t, m); }
  }

  lemma QuotientOf(d: int, a: int) returns (k: int)
    requires Divides(d, a)
    ensures a == d * k
  {
    k :| a == d * k;
  }

  lemma LambdaIs(p: nat, q: nat)
    requires p > 1 && q > 1
    ensures Gcd(p - 1, q - 1) > 0 && KeyFrom(p, q).lambda == (p - 1) * (q - 1) / Gcd(p - 1, q - 1)
  {
    GcdDivides(p - 1, q - 1);
  }

  lemma LcmShape(a: nat, b: nat, g: int, s: int, t: int)
    requires g > 0 && a > 0 && b > 0 && a == g * s && b == g * t
    ensures a * b / g == a * t == b * s == g * (s * t) && a * b / g > 0
  {
    var l := g * (s * t);
    FactorPair(g, s, t);
    assert a * t == l by { assert (g * s) * t == g * (s * t); }
    assert b * s == l by { assert (g * t) * s == g * (s * t); }
    PositiveProduct(a, b);
    ModUnique(a * b, l, 0, g);
    if l <= 0 { MulMono(l, 0, g); }
  }

  /** Every common multiple of a and b is one of a b / g, by the Bezout identity. */
  lemma CommonMultiple(a: nat, b: nat, g: int, s: int, t: int, m: int)
    requires a > 0 && b > 0 && g == Gcd(a, b) && g > 0 && a == g * s && b == g * t && Divides(a, m) && Divides(b, m)
    ensures Divides(g * (s * t), m)
  {
    hide *;
    var i := QuotientOf(a, m);
    var j := QuotientOf(b, m);
    BezoutOf(a, b);
    var x, y := ExtGcd(a, b).1, ExtGcd(a, b).2;
    LcmAlgebra(a, b, g, s, t, m, i, j, x, y);
    DividesBy(g * (s * t), m, j * x + i * y);
  }

  lemma BezoutOf(a: nat, b: nat)
    ensures Gcd(a, b) == a * ExtGcd(a, b).1 + b * ExtGcd(a, b).2
  {
  }

  lemma LcmAlgebra(a: int, b: int, g: int, s: int, t: int, m: int, i: int, j: int, x: int, y: int)
    requires g > 0 && a == g * s && b == g * t && m == a * i && m == b * j && g == a * x + b * y
    ensures m == (g * (s * t)) * (j * x + i * y)
  {
    var l, k := g * (s * t), j * x + i * y;
    TwoProducts(a, b, m, i, j, x, y);
    FactorPair(g, s, t);
    assert g * (l * k) == (g * l) * k;
    SameFactor(g, m, l * k);
  }

  lemma TwoProducts(a: int, b: int, m: int, i: int, j: int, x: int, y: int)
    requires m == a * i && m == b * j
    ensures (a * x + b * y) * m == (a * b) * (j * x + i * y)
  {
    assert (a * x) * (b * j) == (a * b) * (j * x);
    assert (b * y) * (a * i) == (a * b) * (i * y);
    assert (a * x + b * y) * m == (a * x) * m + (b * y) * m;
  }

  lemma FactorPair(g: int, s: int, t: int)
    ensures (g * s) * (g * t) == g * (g * (s * t))
  {
  }

  lemma SameFactor(g: int, u: int, v: int)
    requires g > 0 && g * u == g * v
    ensures u == v
  {
    if u < v { MulMono(u + 1, v, g); }
    if v < u { MulMono(v + 1, u, g); }
  }

  lemma PositiveProduct(a: int, b: int)
    requires a > 0 && b > 0
    ensures a * b > 0 && a * b >= a && a * b >= b
  {
    MulMono(1, b, a);
    MulMono(1, a, b);
  }

  /** Two different primes whose product has no factor in common with its totient. */
  ghost predicate GoodPrimes(p: nat, q: nat) {
    && IsPrime(p) && IsPrime(q) && p != q && Coprime(p * q, (p - 1) * (q - 1))
    && p * q > 1 && (p * q) * (p * q) > 0 && (p - 1) * (q - 1) > 1
  }

  /** The sizes follow from primality. */
  lemma GoodPrimesFrom(p: nat, q: nat)
    requires IsPrime(p) && IsPrime(q) && p != q && Coprime(p * q, (p - 1) * (q - 1))
    ensures GoodPrimes(p, q)
  {
    PositiveProduct(p, q);
    PositiveProduct(p * q, p * q);
    PositiveProduct(p - 1, q - 1);
  }

  // ---------- powers modulo N squared ----------

  /** (s + tN)^e = s^e + e t N s^(e-1) modulo N^2 */
  lemma {:induction false} BinomialLinear(n: int, s: int, t: int, e: nat)
    requires n > 0 && n * n > 0 && e > 0
    ensures Cong(Pow(s + t * n, e), Pow(s, e) + e * (t * (n * Pow(s, e - 1))), n * n)
  {
    if e == 1 {
      PowIsOne(s, t, n);
      CongSelf(s + t * n, n * n);
    } else {
      BinomialLinear(n, s, t, e - 1);
      var u, v := Pow(s, e - 1), Pow(s, e - 2);
      PowSteps(s, t, n, e);
      CongScale(s + t * n, Pow(s + t * n, e - 1), u + (e - 1) * (t * (n * v)), n * n);
      LinearIdentity(n, s, t, e, u, v);
      CongFrom((s + t * n) * (u + (e - 1) * (t * (n * v))), s * u + e * (t * (n * u)), (e - 1) * (t * (t * v)), n * n);
      CongTrans(Pow(s + t * n, e), (s + t * n) * (u + (e - 1) * (t * (n * v))), s * u + e * (t * (n * u)), n * n);
    }
  }

  lemma PowIsOne(s: int, t: int, n: int)
    ensures Pow(s + t * n, 1) == s + t * n
    ensures Pow(s, 1) + 1 * (t * (n * Pow(s, 0))) == s + t * n
  {
    assert Pow(s, 0) == 1 && Pow(s + t * n, 0) == 1;
  }

  lemma PowSteps(s: int, t: int, n: int, e: nat)
    requires e >= 2
    ensures Pow(s + t * n, e) == (s + t * n) * Pow(s + t * n, e - 1) && Pow(s, e) == s * Pow(s, e - 1)
    ensures Pow(s, e - 1) == s * Pow(s, e - 2)
  {
  }

  lemma LinearIdentity(n: int, s: int, t: int, e: int, u: int, v: int)
    requires u == s * v
    ensures (s + t * n) * (u + (e - 1) * (t * (n * v))) ==
      s * u + e * (t * (n * u)) + ((e - 1) * (t * (t * v))) * (n * n)
  {
    var w := (e - 1) * (t * (n * v));
    assert (s + t * n) * (u + w) == s * u + s * w + (t * n) * u + (t * n) * w;
    assert s * w == (e - 1) * (t * (n * u)) by {
      assert s * ((e - 1) * (t * (n * v))) == (e - 1) * (s * (t * (n * v)));
      assert s * (t * (n * v)) == t * (n * (s * v));
    }
    assert (t * n) * u == t * (n * u);
    assert (t * n) * w == ((e - 1) * (t * (t * v))) * (n * n) by {
      assert (t * n) * ((e - 1) * (t * (n * v))) == (e - 1) * ((t * n) * (t * (n * v)));
      assert (t * n) * (t * (n * v)) == (t * (t * v)) * (n * n);
    }
    assert (e - 1) * (t * (n * u)) + t * (n * u) == e * (t * (n * u));
  }

  /** (1 + kN)^e = 1 + ekN modulo N^2 */
  lemma OnePlusPower(n: int, k: int, e: nat)
    requires n > 0 && n * n > 0
    ensures Cong(Pow(1 + k * n, e), 1 + (e * k) * n, n * n)
  {
    if e == 0 {
      assert Pow(1 + k * n, 0) == 1 && (0 * k) * n == 0;
    } else {
      BinomialLinear(n, 1, k, e);
      PowOne(e);
      PowOne(e - 1);
      assert e * (k * (n * 1)) == (e * k) * n;
    }
  }

  /** s^N modulo N^2 depends only on s modulo N. */
  lemma NthPowerResidue(n: nat, s: int, s': int)
    requires n > 0 && n * n > 0 && Cong(s, s', n)
    ensures Cong(Pow(s, n), Pow(s', n), n * n)
  {
    var t := CongWitness(s, s', n);
    BinomialLinear(n, s', t, n);
    var w := Pow(s', n - 1);
    assert n * (t * (n * w)) == (t * w) * (n * n);
    CongFrom(Pow(s', n) + n * (t * (n * w)), Pow(s', n), t * w, n * n);
    CongTrans(Pow(s, n), Pow(s', n) + n * (t * (n * w)), Pow(s', n), n * n);
  }

  /** gamma_pow: (N+1)^m mod N^2 as 1 + (m mod N) N */
  function GammaPow(n: nat, m: nat): (g: nat)
    requires n > 0
  {
    (if m < n then m else m % n) * n + 1
  }

  /** The shortcut is the power: no exponentiation is needed. */
  lemma GammaPowIsPower(n: nat, m: nat)
    requires n > 1 && n * n > 0
    ensures GammaPow(n, m) == PowMod(n + 1, m, n * n)
  {
    var r := m % n;
    CongMod(m, n);
    SmallIfBelow(m, n);
    OnePlusPower(n, 1, m);
    OneTimes(n, m);
    hide Pow, Cong;
    LinearResidue(n, m, r);
    CongTrans(Pow(n + 1, m), 1 + m * n, 1 + r * n, n * n);
    BelowSquare(n, r);
    EqualResidues(Pow(n + 1, m), 1 + r * n, n * n);
  }

  lemma EqualResidues(a: int, b: int, m: int)
    requires m > 0 && Cong(a, b, m) && 0 <= b < m
    ensures a % m == b
  {
    SmallMod(b, m);
  }

  lemma OneTimes(n: int, m: int)
    ensures 1 + 1 * n == n + 1 && (m * 1) * n == m * n
  {
  }

  /** Modulo N^2, 1 + mN depends only on m modulo N. */
  lemma LinearResidue(n: int, m: int, r: int)
    requires n > 0 && n * n > 0 && Cong(m, r, n)
    ensures Cong(1 + m * n, 1 + r * n, n * n)
  {
    var k := CongWitness(m, r, n);
    SplitResidue(n, m, r, k);
    CongFrom(1 + m * n, 1 + r * n, k, n * n);
  }

  lemma SplitResidue(n: int, m: int, r: int, k: int)
    requires m == r + k * n
    ensures 1 + m * n == 1 + r * n + k * (n * n)
  {
    assert (k * n) * n == k * (n * n);
  }

  lemma BelowSquare(n: int, r: int)
    requires n > 1 && 0 <= r < n
    ensures 0 < 1 + r * n < n * n
  {
    MulMono(r, n - 1, n);
    MulMono(0, r, n);
    assert (n - 1) * n == n * n - n;
  }

  lemma SmallIfBelow(m: nat, n: nat)
    requires n > 0
    ensures m < n ==> m % n == m
  {
    if m < n { SmallMod(m, n); }
  }

  // ---------- encryption ----------

  datatype PaillierError = MessageTooLarge | CiphertextTooLarge | MalformedCiphertext | NotInvertible

  function EncryptWith(n: nat, m: nat, x: nat): (res: Result<nat, PaillierError>)
    requires n > 0 && n * n > 0
    ensures res.Err? <==> m >= n
  {
    if m >= n then Err(MessageTooLarge) else Ok((GammaPow(n, m) * PowMod(x, n, n * n)) % (n * n))
  }

  function HomoAdd(n: nat, c1: nat, c2: nat): (c: nat)
    requires n * n > 0
  {
    assert c1 * c2 >= 0;
    (c1 * c2) % (n * n)
  }

  function HomoMult(n: nat, m: nat, c1: nat): (c: nat)
    requires n * n > 0
  {
    PowMod(c1, m, n * n)
  }

  /** c is an encryption of m, modulo N, under some unit randomness. */
  ghost predicate Encrypts(n: nat, c: nat, m: int)
    requires n * n > 0
  {
    c < n * n && exists x: int :: Coprime(x, n) && EncryptsWith(n, c, m, x)
  }

  ghost predicate EncryptsWith(n: nat, c: nat, m: int, x: int)
    requires n * n > 0
  {
    Cong(c, (1 + m * n) * Pow(x, n), n * n)
  }

  lemma EncryptionEncrypts(n: nat, m: nat, x: nat)
    requires n > 1 && n * n > 0 && m < n && Coprime(x, n)
    ensures EncryptWith(n, m, x).Ok? && EncryptWith(n, m, x).value < n * n
    ensures EncryptsWith(n, EncryptWith(n, m, x).value, m, x)
    ensures Encrypts(n, EncryptWith(n, m, x).value, m)
  {
    var c, w := EncryptWith(n, m, x).value, PowMod(x, n, n * n);
    assert GammaPow(n, m) == 1 + m * n;
    CongMod((1 + m * n) * w, n * n);
    CongMod(Pow(x, n), n * n);
    CongScale(1 + m * n, w, Pow(x, n), n * n);
    CongTrans(c, (1 + m * n) * w, (1 + m * n) * Pow(x, n), n * n);
  }

  /** The product of ciphertexts encrypts the sum. */
  lemma HomoAddEncrypts(n: nat, c1: nat, m1: int, c2: nat, m2: int)
    requires n > 0 && n * n > 0 && Encrypts(n, c1, m1) && Encrypts(n, c2, m2)
    ensures Encrypts(n, HomoAdd(n, c1, c2), m1 + m2)
  {
    var x :| Coprime(x, n) && EncryptsWith(n, c1, m1, x);
    var y :| Coprime(y, n) && EncryptsWith(n, c2, m2, y);
    CoprimeMul(x, y, n);
    HomoAddWith(n, c1, m1, x, c2, m2, y);
  }

  lemma HomoAddWith(n: nat, c1: nat, m1: int, x: int, c2: nat, m2: int, y: int)
    requires n > 0 && n * n > 0 && EncryptsWith(n, c1, m1, x) && EncryptsWith(n, c2, m2, y)
    ensures HomoAdd(n, c1, c2) < n * n && EncryptsWith(n, HomoAdd(n, c1, c2), m1 + m2, x * y)
  {
    var a, b, u, v := 1 + m1 * n, 1 + m2 * n, Pow(x, n), Pow(y, n);
    CongMod(c1 * c2, n * n);
    CongMul(c1, a * u, c2, b * v, n * n);
    PowProduct(x, y, n);
    ProductSwap(a, u, b, v);
    SumIdentity(n, m1, m2);
    CongFrom(a * b, 1 + (m1 + m2) * n, m1 * m2, n * n);
    CongScale(u * v, a * b, 1 + (m1 + m2) * n, n * n);
    Regroup(a, u, b, v);
    CongTrans(HomoAdd(n, c1, c2), c1 * c2, (a * b) * (u * v), n * n);
    CongTrans(HomoAdd(n, c1, c2), (a * b) * (u * v), (1 + (m1 + m2) * n) * (u * v), n * n);
  }

  lemma Regroup(a: int, u: int, b: int, v: int)
    ensures (a * u) * (b * v) == (a * b) * (u * v)
  {
    ProductSwap(a, u, b, v);
    ProductSwap(a, b, u, v);
  }

  lemma SumIdentity(n: int, m1: int, m2: int)
    ensures (1 + m1 * n) * (1 + m2 * n) == 1 + (m1 + m2) * n + (m1 * m2) * (n * n)
  {
    assert (m1 * n) * (m2 * n) == (m1 * m2) * (n * n);
    assert (1 + m1 * n) * (1 + m2 * n) == 1 + m1 * n + m2 * n + (m1 * n) * (m2 * n);
  }

  /** A power of a ciphertext encrypts the multiple. */
  lemma HomoMultEncrypts(n: nat, k: nat, c: nat, m: int)
    requires n > 0 && n * n > 0 && Encrypts(n, c, m)
    ensures Encrypts(n, HomoMult(n, k, c), k * m)
  {
    var x :| Coprime(x, n) && EncryptsWith(n, c, m, x);
    PowCoprime(x, k, n);
    HomoMultWith(n, k, c, m, x);
  }

  lemma HomoMultWith(n: nat, k: nat, c: nat, m: int, x: int)
    requires n > 0 && n * n > 0 && EncryptsWith(n, c, m, x)
    ensures HomoMult(n, k, c) < n * n && EncryptsWith(n, HomoMult(n, k, c), k * m, Pow(x, k))
  {
    var a, u := 1 + m * n, Pow(x, n);
    CongMod(Pow(c, k), n * n);
    PowCong(c, a * u, k, n * n);
    PowProduct(a, u, k);
    OnePlusPower(n, m, k);
    CongScale(Pow(u, k), Pow(a, k), 1 + (k * m) * n, n * n);
    PowersCommute(x, n, k);
    CongTrans(HomoMult(n, k, c), Pow(c, k), Pow(a, k) * Pow(u, k), n * n);
    CongTrans(HomoMult(n, k, c), Pow(a, k) * Pow(u, k), (1 + (k * m) * n) * Pow(u, k), n * n);
  }

  lemma PowersCommute(x: int, e: nat, f: nat)
    ensures Pow(Pow(x, e), f) == Pow(Pow(x, f), e)
  {
    assert e * f >= 0 && f * e >= 0 && e * f == f * e by { ProductNonNegative(e, f); }
    PowMul(x, e, f);
    PowMul(x, f, e);
  }

  lemma ProductNonNegative(a: nat, b: nat)
    ensures a * b >= 0
  {
  }

  // ---------- decryption ----------

  /** L(u) = (u - 1) / N */
  function Ell(n: nat, u: nat): int
    requires n > 0
  {
    (u - 1) / n
  }

  function Decrypt(sk: PrivateKey, c: nat): (res: Result<nat, PaillierError>)
    requires sk.n > 0 && sk.n * sk.n > 0
  {
    var n2 := sk.n * sk.n;
    if c >= n2 then Err(CiphertextTooLarge)
    else if Gcd(c, n2) != 1 then Err(MalformedCiphertext)
    else
      var lc, lg := Ell(sk.n, PowMod(c, sk.lambda, n2)), Ell(sk.n, PowMod(sk.n + 1, sk.lambda, n2));
      var inv := ModInv(lg, sk.n);
      if !inv.0 then Err(NotInvertible) else
        CongMod(lc * inv.1, sk.n);
        Ok((lc * inv.1) % sk.n)
  }

  /** x^lambda = 1 modulo N for every unit x. */
  lemma CarmichaelPower(p: nat, q: nat, x: int)
    requires IsPrime(p) && IsPrime(q) && p != q && Coprime(x, p * q)
    ensures p * q > 0 && Cong(Pow(x, KeyFrom(p, q).lambda), 1, p * q)
  {
    var g := Gcd(p - 1, q - 1);
    GcdDivides(p - 1, q - 1);
    var k :| p - 1 == g * k;
    var l :| q - 1 == g * l;
    Cofactors(p, q, g, k, l);
    PositiveProduct(p, q);
    var lambda := KeyFrom(p, q).lambda;
    PrimePart(p, q, x, l, lambda);
    PrimePart(q, p, x, k, lambda);
    DistinctPrimesCoprime(p, q);
    CongJoin(Pow(x, lambda), 1, p, q);
  }

  lemma Cofactors(p: nat, q: nat, g: nat, k: int, l: int)
    requires p > 1 && q > 1 && g > 0 && p - 1 == g * k && q - 1 == g * l
    ensures k > 0 && l > 0
    ensures (p - 1) * (q - 1) / g == (p - 1) * l == (q - 1) * k
  {
    if k <= 0 { MulMono(k, 0, g); }
    if l <= 0 { MulMono(l, 0, g); }
    assert (p - 1) * (g * l) == ((p - 1) * l) * g + 0;
    ModUnique((p - 1) * (q - 1), (p - 1) * l, 0, g);
    assert (g * k) * l == (g * l) * k;
  }

  /** x^((p-1) l) = 1 modulo p */
  lemma PrimePart(p: nat, q: nat, x: int, l: int, e: nat)
    requires IsPrime(p) && Coprime(x, p * q) && l > 0 && e == (p - 1) * l
    ensures Cong(Pow(x, e), 1, p)
  {
    UnitModuloPrime(p, q, x);
    Fermat(p, x);
    PowMul(x, p - 1, l);
    PowCong(Pow(x, p - 1), 1, l, p);
    PowOne(l);
  }

  lemma UnitModuloPrime(p: nat, q: nat, x: int)
    requires IsPrime(p) && Coprime(x, p * q)
    ensures !Cong(x, 0, p)
  {
    CoprimeSym(x, p * q);
    CoprimeFactor(p, q, x);
    if Cong(x, 0, p) {
      CongZero(x, p);
      var a, b :| p * a + x * b == 1;
      var k :| x == p * k;
      assert (p * k) * b == p * (k * b);
      assert p * (a + k * b) == 1 by { assert p * (a + k * b) == p * a + p * (k * b); }
      DividesBy(p, 1, a + k * b);
      DividesBound(p, 1);
      assert false;
    }
  }

  /** x^(lambda N) = 1 modulo N^2 */
  lemma RandomnessVanishes(p: nat, q: nat, x: int)
    requires IsPrime(p) && IsPrime(q) && p != q && Coprime(x, p * q)
    ensures var n, lambda := p * q, KeyFrom(p, q).lambda; n > 0 && n * n > 0 && Cong(Pow(Pow(x, n), lambda), 1, n * n)
  {
    PositiveProduct(p, q);
    var n, lambda := p * q, KeyFrom(p, q).lambda;
    PositiveProduct(n, n);
    CarmichaelPower(p, q, x);
    NthPowerResidue(n, Pow(x, lambda), 1);
    PowOne(n);
    PowersCommute(x, n, lambda);
  }

  /** L of the lambda-th power of a ciphertext is lambda times the message. */
  lemma EllOfCiphertext(p: nat, q: nat, c: nat, m: int, x: int)
    requires IsPrime(p) && IsPrime(q) && p != q && p * q > 0 && (p * q) * (p * q) > 0 && Coprime(x, p * q)
    requires EncryptsWith(p * q, c, m, x)
    ensures var n, lambda := p * q, KeyFrom(p, q).lambda;
      PowMod(c, lambda, n * n) >= 0 && Ell(n, PowMod(c, lambda, n * n)) == (lambda * m) % n
  {
    var n, lambda := p * q, KeyFrom(p, q).lambda;
    var a, u := 1 + m * n, Pow(x, n);
    RandomnessVanishes(p, q, x);
    hide IsPrime, Coprime, KeyFrom, EncryptsWith;
    EncryptsMeans(n, c, m, x);
    PowCong(c, a * u, lambda, n * n);
    PowProduct(a, u, lambda);
    OnePlusPower(n, m, lambda);
    CongMul(Pow(a, lambda), 1 + (lambda * m) * n, Pow(u, lambda), 1, n * n);
    CongTrans(Pow(c, lambda), Pow(a, lambda) * Pow(u, lambda), (1 + (lambda * m) * n) * 1, n * n);
    EllOfResidue(n, Pow(c, lambda), lambda * m);
  }

  lemma EncryptsMeans(n: nat, c: nat, m: int, x: int)
    requires n * n > 0 && EncryptsWith(n, c, m, x)
    ensures Cong(c, (1 + m * n) * Pow(x, n), n * n)
  {
  }

  lemma EllOfResidue(n: nat, v: int, t: int)
    requires n > 1 && n * n > 0 && Cong(v, 1 + t * n, n * n)
    ensures v % (n * n) >= 0 && Ell(n, v % (n * n)) == t % n
  {
    var r := t % n;
    CongMod(t, n);
    CongMod(v, n * n);
    LinearResidue(n, t, r);
    CongTrans(v, 1 + t * n, 1 + r * n, n * n);
    BelowSquare(n, r);
    EqualResidues(v, 1 + r * n, n * n);
    ModUnique(r * n, r, 0, n);
  }

  lemma CoprimeSquare(a: int, n: int)
    requires Coprime(a, n)
    ensures Coprime(a, n * n)
  {
    var x, y :| a * x + n * y == 1;
    SquareBezout(a, x, n, y);
    assert a * (x * (1 + n * y)) + (n * n) * (y * y) == 1;
  }

  lemma SquareBezout(a: int, x: int, n: int, y: int)
    requires a * x + n * y == 1
    ensures a * (x * (1 + n * y)) + (n * n) * (y * y) == 1
  {
    assert a * (x * (1 + n * y)) == (a * x) * (1 + n * y);
    assert (n * n) * (y * y) == (n * y) * (n * y);
    assert (1 - n * y) * (1 + n * y) == 1 - (n * y) * (n * y);
  }

  /** A ciphertext is a unit modulo N^2. */
  lemma CiphertextUnit(n: nat, c: nat, m: int, x: int)
    requires n > 0 && n * n > 0 && Coprime(x, n) && EncryptsWith(n, c, m, x)
    ensures Coprime(c, n * n)
  {
    assert (1 + m * n) * (1 - m * n) + (n * n) * (m * m) == 1 by { UnitIdentity(n, m); }
    CoprimeSquare(x, n);
    PowCoprime(x, n, n * n);
    CoprimeMul(1 + m * n, Pow(x, n), n * n);
    CongFlip(c, (1 + m * n) * Pow(x, n), n * n);
    CoprimeCong((1 + m * n) * Pow(x, n), c, n * n);
  }

  lemma UnitIdentity(n: int, m: int)
    ensures (1 + m * n) * (1 - m * n) + (n * n) * (m * m) == 1
  {
    assert (m * n) * (m * n) == (n * n) * (m * m);
    assert (1 + m * n) * (1 - m * n) == 1 - (m * n) * (m * n);
  }

  /** lambda is a unit modulo N. */
  lemma LambdaUnit(p: nat, q: nat)
    requires GoodPrimes(p, q)
    ensures Coprime(KeyFrom(p, q).lambda, p * q)
  {
    var g := Gcd(p - 1, q - 1);
    GcdDivides(p - 1, q - 1);
    var k :| p - 1 == g * k;
    var l :| q - 1 == g * l;
    Cofactors(p, q, g, k, l);
    CoprimeSym(p * q, (p - 1) * (q - 1));
    TotientSplit(p, q, g, l);
    hide Coprime, IsPrime, Gcd;
    CoprimeFactor((p - 1) * l, g, p * q);
  }

  lemma TotientSplit(p: int, q: int, g: int, l: int)
    requires q - 1 == g * l
    ensures (p - 1) * (q - 1) == ((p - 1) * l) * g
  {
    assert (p - 1) * (g * l) == ((p - 1) * l) * g;
  }

  /** The generator N + 1 encrypts one. */
  lemma GeneratorEncryptsOne(n: nat)
    requires n > 1 && n * n > 0
    ensures EncryptsWith(n, n + 1, 1, 1) && Coprime(1, n)
  {
    PowOne(n);
    assert 1 * 1 + n * 0 == 1;
    CongSelf(n + 1, n * n);
    assert (1 + 1 * n) * 1 == n + 1;
  }

  /** Decryption is exact: any ciphertext of m, however it was computed, decrypts to m modulo N. */
  lemma DecryptCorrect(p: nat, q: nat, c: nat, m: int)
    requires GoodPrimes(p, q) && Encrypts(p * q, c, m)
    ensures Decrypt(KeyFrom(p, q), c) == Ok(m % (p * q))
  {
    var n, sk := p * q, KeyFrom(p, q);
    var x :| Coprime(x, n) && EncryptsWith(n, c, m, x);
    CiphertextUnit(n, c, m, x);
    CoprimeIffGcd(c, n * n);
    EllOfCiphertext(p, q, c, m, x);
    GeneratorEncryptsOne(n);
    EllOfCiphertext(p, q, n + 1, 1, 1);
    LambdaUnit(p, q);
    DecryptionAlgebra(n, sk.lambda, m);
    assert sk.lambda * 1 == sk.lambda;
    DecryptSteps(sk, c);
  }

  lemma DecryptSteps(sk: PrivateKey, c: nat)
    requires sk.n > 0 && sk.n * sk.n > 0 && c < sk.n * sk.n && Gcd(c, sk.n * sk.n) == 1
    ensures var lc, lg := Ell(sk.n, PowMod(c, sk.lambda, sk.n * sk.n)), Ell(sk.n,
      PowMod(sk.n + 1, sk.lambda, sk.n * sk.n));
      ModInv(lg, sk.n).0 ==>
        (lc * ModInv(lg, sk.n).1) % sk.n >= 0 && Decrypt(sk, c) == Ok((lc * ModInv(lg, sk.n).1) % sk.n)
  {
    hide Ell, PowMod, ModInv, Gcd;
    var lc, lg := Ell(sk.n, PowMod(c, sk.lambda, sk.n * sk.n)), Ell(sk.n, PowMod(sk.n + 1, sk.lambda, sk.n * sk.n));
    CongMod(lc * ModInv(lg, sk.n).1, sk.n);
  }

  lemma DecryptionAlgebra(n: nat, lambda: int, m: int)
    requires n > 1 && Coprime(lambda, n)
    ensures ModInv(lambda % n, n).0 && (((lambda * m) % n) * ModInv(lambda % n, n).1) % n == m % n
  {
    var r := lambda % n;
    CongMod(lambda, n);
    CongFlip(r, lambda, n);
    CoprimeCong(lambda, r, n);
    ModInvCorrect(r, n);
    var w := ModInv(r, n).1;
    CongMod(lambda * m, n);
    CongScale(w, (lambda * m) % n, lambda * m, n);
    CongScale(w, r, lambda, n);
    CongFlip(r * w, lambda * w, n);
    CongTrans(lambda * w, r * w, 1, n);
    CongScale(m, lambda * w, 1, n);
    assert (lambda * m) * w == m * (lambda * w);
    CongTrans(((lambda * m) % n) * w, (lambda * m) * w, m * 1, n);
  }

  /** What is decrypted at all under an honest key: exactly the units below N^2. Anything else is refused, by size first
      and then by its common factor with N. */
  lemma DecryptAccepts(p: nat, q: nat, c: nat)
    requires GoodPrimes(p, q)
    ensures KeyFrom(p, q).n == p * q && KeyFrom(p, q).n * KeyFrom(p, q).n > 0
    ensures var n, r := p * q, Decrypt(KeyFrom(p, q), c);
      && (r.Ok? <==> c < n * n && Coprime(c, n * n))
      && (r == Err(CiphertextTooLarge) <==> c >= n * n)
      && (r == Err(MalformedCiphertext) <==> c < n * n && !Coprime(c, n * n))
      && (r.Ok? ==> r.value < n)
  {
    var n, sk := p * q, KeyFrom(p, q);
    CoprimeIffGcd(c, n * n);
    GeneratorEncryptsOne(n);
    EllOfCiphertext(p, q, n + 1, 1, 1);
    LambdaUnit(p, q);
    DecryptionAlgebra(n, sk.lambda, 1);
    assert sk.lambda * 1 == sk.lambda;
    hide PowMod, Gcd, Coprime, ModInv, EncryptsWith, KeyFrom;
    if c < n * n && Gcd(c, n * n) == 1 { DecryptSteps(sk, c); }
    DecryptErrors(sk, c);
  }

  lemma DecryptErrors(sk: PrivateKey, c: nat)
    requires sk.n > 0 && sk.n * sk.n > 0
    ensures c >= sk.n * sk.n <==> Decrypt(sk, c) == Err(CiphertextTooLarge)
    ensures c < sk.n * sk.n && Gcd(c, sk.n * sk.n) != 1 <==> Decrypt(sk, c) == Err(MalformedCiphertext)
    ensures Decrypt(sk, c).Ok? ==> Decrypt(sk, c).value < sk.n
  {
    hide PowMod, Gcd, ModInv;
  }

  /** Encrypting and decrypting gives the message back. */
  lemma RoundTrip(p: nat, q: nat, m: nat, x: nat)
    requires GoodPrimes(p, q) && m < p * q && Coprime(x, p * q)
    ensures EncryptWith(p * q, m, x).Ok? && Decrypt(KeyFrom(p, q), EncryptWith(p * q, m, x).value) == Ok(m)
  {
    EncryptionEncrypts(p * q, m, x);
    DecryptCorrect(p, q, EncryptWith(p * q, m, x).value, m);
    SmallMod(m, p * q);
  }

  // ---------- the key-correctness proof ----------

  const PROOF_ITERS: nat := 13
  const MAX_XS_REJECTIONS: nat := 1000

  /** 1 <= v < n and gcd(v, n) = 1 */
  predicate InMultGroup(n: nat, v: nat): (unit: bool)
    ensures unit <==> 1 <= v < n && Coprime(v, n)
  {
    if v == 0 then false else
      CoprimeIffGcd(v, n);
      v < n && Gcd(v, n) == 1
  }

  /** The challenges from index i on, after nn rejections: candidate(i, nn) is the hash for that pair. */
  function XsFrom(m: nat, n: nat, candidate: (nat, nat) -> nat, i: nat, nn: nat): (xs: Option<seq<nat>>)
    requires i <= m && nn <= MAX_XS_REJECTIONS
    ensures xs.Some? ==> |xs.value| == m - i && forall k :: 0 <= k < |xs.value| ==> InMultGroup(n, xs.value[k])
    decreases m - i + MAX_XS_REJECTIONS - nn
  {
    if i == m then Some([])
    else if InMultGroup(n, candidate(i, nn)) then
      var rest := XsFrom(m, n, candidate, i + 1, nn);
      if rest == None then None else Some([candidate(i, nn)] + rest.value)
    else if nn + 1 > MAX_XS_REJECTIONS then None
    else XsFrom(m, n, candidate, i, nn + 1)
  }

  /** The rejections counted before challenge k. */
  function Before(nns: seq<nat>, nn: nat, k: nat): nat
    requires k <= |nns|
  {
    if k == 0 then nn else nns[k - 1]
  }

  /** No candidate for challenge i is a unit from count lo up to hi. */
  ghost predicate AllRefused(n: nat, candidate: (nat, nat) -> nat, i: nat, lo: nat, hi: nat) {
    forall r: nat {:trigger candidate(i, r)} :: lo <= r < hi ==> !InMultGroup(n, candidate(i, r))
  }

  /** Challenge i + k was taken at count nns[k], the first unit from the count where the one before it stopped. */
  ghost predicate Taken(n: nat, candidate: (nat, nat) -> nat, i: nat, nn: nat, nns: seq<nat>, k: nat)
    requires k < |nns|
  {
    && Before(nns, nn, k) <= nns[k] <= 1000 && InMultGroup(n, candidate(i + k, nns[k]))
    && AllRefused(n, candidate, i + k, Before(nns, nn, k), nns[k])
  }

  /** Which challenges come out: every one is the first unit from the count where the one before it stopped, and there
      are none exactly when the count would pass 1000 with every candidate up to there refused. */
  lemma {:induction false} XsAre(m: nat, n: nat, candidate: (nat, nat) -> nat, i: nat, nn: nat) returns (nns: seq<nat>)
    requires i <= m && nn <= MAX_XS_REJECTIONS
    ensures |nns| <= m - i && forall k :: 0 <= k < |nns| ==> Taken(n, candidate, i, nn, nns, k)
    ensures var xs := XsFrom(m, n, candidate, i, nn);
      && (xs.Some? <==> |nns| == m - i)
      && (xs.Some? ==> forall k :: 0 <= k < m - i ==> xs.value[k] == candidate(i + k, nns[k]))
      && (xs == None ==> AllRefused(n, candidate, i + |nns|, Before(nns, nn, |nns|), 1001))
    decreases m - i + MAX_XS_REJECTIONS - nn
  {
    hide InMultGroup, AllRefused, Taken;
    if i == m {
      nns := [];
    } else if InMultGroup(n, candidate(i, nn)) {
      var rest := XsAre(m, n, candidate, i + 1, nn);
      nns := [nn] + rest;
      NoneRefused(n, candidate, i, nn);
      forall k | 0 <= k < |nns| ensures Taken(n, candidate, i, nn, nns, k) {
        if k == 0 { TakenNow(n, candidate, i, nn, nns); } else { TakenLater(n, candidate, i, nn, rest, k - 1); }
      }
    } else if nn + 1 > MAX_XS_REJECTIONS {
      nns := [];
      OneMoreRefused(n, candidate, i, nn, nn + 1);
      NoneRefused(n, candidate, i, nn + 1);
    } else {
      nns := XsAre(m, n, candidate, i, nn + 1);
      forall k | 0 <= k < |nns| ensures Taken(n, candidate, i, nn, nns, k) {
        assert Taken(n, candidate, i, nn + 1, nns, k);
        if k == 0 { TakenEarlier(n, candidate, i, nn, nns); } else { TakenSame(n, candidate, i, nn, nns, k); }
      }
      if nns == [] { OneMoreRefused(n, candidate, i, nn, 1001); }
    }
  }

  lemma NoneRefused(n: nat, candidate: (nat, nat) -> nat, i: nat, nn: nat)
    ensures AllRefused(n, candidate, i, nn, nn)
  {
  }

  lemma OneMoreRefused(n: nat, candidate: (nat, nat) -> nat, i: nat, nn: nat, hi: nat)
    requires !InMultGroup(n, candidate(i, nn))
    ensures AllRefused(n, candidate, i, nn + 1, hi) ==> AllRefused(n, candidate, i, nn, hi)
  {
    hide InMultGroup;
    if AllRefused(n, candidate, i, nn + 1, hi) {
      forall r: nat | nn <= r < hi ensures !InMultGroup(n, candidate(i, r)) {
        if r > nn { assert nn + 1 <= r; }
      }
    }
  }

  lemma TakenNow(n: nat, candidate: (nat, nat) -> nat, i: nat, nn: nat, nns: seq<nat>)
    requires nns != [] && nns[0] == nn <= 1000 && InMultGroup(n, candidate(i, nn))
    ensures Taken(n, candidate, i, nn, nns, 0)
  {
    hide InMultGroup;
  }

  lemma TakenLater(n: nat, candidate: (nat, nat) -> nat, i: nat, nn: nat, rest: seq<nat>, k: nat)
    requires k < |rest| && Taken(n, candidate, i + 1, nn, rest, k)
    ensures Taken(n, candidate, i, nn, [nn] + rest, k + 1)
  {
    hide InMultGroup, AllRefused;
    assert i + 1 + k == i + (k + 1);
  }

  lemma TakenEarlier(n: nat, candidate: (nat, nat) -> nat, i: nat, nn: nat, nns: seq<nat>)
    requires nns != [] && Taken(n, candidate, i, nn + 1, nns, 0) && !InMultGroup(n, candidate(i, nn))
    ensures Taken(n, candidate, i, nn, nns, 0)
  {
    OneMoreRefused(n, candidate, i, nn, nns[0]);
    hide InMultGroup, AllRefused;
  }

  lemma TakenSame(n: nat, candidate: (nat, nat) -> nat, i: nat, nn: nat, nns: seq<nat>, k: nat)
    requires 0 < k < |nns| && Taken(n, candidate, i, nn + 1, nns, k)
    ensures Taken(n, candidate, i, nn, nns, k)
  {
    hide InMultGroup, AllRefused;
  }

  function Prefixed(ret: seq<nat>, rest: Option<seq<nat>>): Option<seq<nat>> {
    if rest.Some? then Some(ret + rest.value) else None
  }

  lemma NothingYet(rest: Option<seq<nat>>)
    ensures Prefixed([], rest) == rest
  {
    if rest.Some? { assert [] + rest.value == rest.value; }
  }

  lemma PrefixedStep(ret: seq<nat>, x: nat, rest: Option<seq<nat>>)
    ensures Prefixed(ret + [x], rest) == Prefixed(ret, Prefixed([x], rest))
  {
    if rest.Some? { assert ret + ([x] + rest.value) == (ret + [x]) + rest.value; }
  }

  /** generate_xs: at most MAX_XS_REJECTIONS candidates are rejected, so the loop ends for every modulus. */
  method GenerateXs(m: nat, n: nat, candidate: (nat, nat) -> nat) returns (xs: Option<seq<nat>>)
    ensures xs == XsFrom(m, n, candidate, 0, 0)
  {
    hide InMultGroup;
    var ret: seq<nat> := [];
    var nn := 0;
    NothingYet(XsFrom(m, n, candidate, 0, 0));
    while |ret| < m
      invariant |ret| <= m && nn <= MAX_XS_REJECTIONS
      invariant XsFrom(m, n, candidate, 0, 0) == Prefixed(ret, XsFrom(m, n, candidate, |ret|, nn))
      decreases m - |ret| + MAX_XS_REJECTIONS - nn
    {
      var xi := candidate(|ret|, nn);
      if InMultGroup(n, xi) {
        PrefixedStep(ret, xi, XsFrom(m, n, candidate, |ret| + 1, nn));
        ret := ret + [xi];
      } else {
        nn := nn + 1;
        if nn > MAX_XS_REJECTIONS { return None; }
      }
    }
    assert ret + [] == ret;
    return Some(ret);
  }

  /** The proof: every challenge raised to N^-1 mod phi. */
  function ProveKey(sk: PrivateKey, xs: seq<nat>): (pi: Option<seq<nat>>)
    requires sk.phi > 0 && sk.n > 0
    ensures pi.Some? ==> |pi.value| == |xs|
  {
    var m := ModInv(sk.n, sk.phi);
    if !m.0 || m.1 < 0 then None else Some(seq(|xs|, k requires 0 <= k < |xs| => PowMod(xs[k], m.1, sk.n)))
  }

  ghost predicate KeyProofHolds(n: nat, pi: seq<nat>, xs: Option<seq<nat>>, hasSmallFactor: bool)
    requires n > 0
  {
    && |pi| == 13 && !hasSmallFactor && xs.Some? && |xs.value| == 13
    && (forall k :: 0 <= k < |pi| ==> pi[k] != 0 && pi[k] < n)
    && (forall k :: 0 <= k < |pi| ==> xs.value[k] % n == PowMod(pi[k], n, n))
  }

  /** verify_proof, given the challenges and the trial-division verdict. */
  method VerifyKey(n: nat, pi: seq<nat>, xs: Option<seq<nat>>, hasSmallFactor: bool) returns (ok: bool)
    requires n > 0 && (xs.Some? ==> |xs.value| == PROOF_ITERS)
    ensures ok <==> KeyProofHolds(n, pi, xs, hasSmallFactor)
  {
    hide PowMod;
    if |pi| != PROOF_ITERS { return false; }
    if exists k :: 0 <= k < |pi| && (pi[k] == 0 || pi[k] >= n) { return false; }
    if hasSmallFactor { return false; }
    if xs == None { return false; }
    for k := 0 to |pi|
      invariant forall j :: 0 <= j < k ==> xs.value[j] % n == PowMod(pi[j], n, n)
    {
      if xs.value[k] % n != PowMod(pi[k], n, n) { return false; }
    }
    return true;
  }

  /** x^phi = 1 modulo N */
  lemma Euler(p: nat, q: nat, x: int)
    requires IsPrime(p) && IsPrime(q) && p != q && Coprime(x, p * q)
    ensures p * q > 0 && (p - 1) * (q - 1) >= 0 && Cong(Pow(x, (p - 1) * (q - 1)), 1, p * q)
  {
    PositiveProduct(p, q);
    PositiveProduct(p - 1, q - 1);
    var e := (p - 1) * (q - 1);
    PrimePart(p, q, x, q - 1, e);
    assert q * p == p * q && (q - 1) * (p - 1) == e;
    PrimePart(q, p, x, p - 1, e);
    DistinctPrimesCoprime(p, q);
    hide *;
    CongJoin(Pow(x, e), 1, p, q);
  }

  /** Raising to N undoes raising to N^-1 mod phi. */
  lemma NthRoot(p: nat, q: nat, x: nat, m: nat)
    requires IsPrime(p) && IsPrime(q) && p != q && Coprime(x, p * q) && (p - 1) * (q - 1) > 1 && p * q > 1
    requires Cong((p * q) * m, 1, (p - 1) * (q - 1))
    ensures x % (p * q) == PowMod(PowMod(x, m, p * q), p * q, p * q)
  {
    hide *;
    Euler(p, q, x);
    RootOf(p * q, (p - 1) * (q - 1), x, m);
  }

  /** x^m is an n-th root of x when n m = 1 modulo an exponent that takes x to one. */
  lemma RootOf(n: nat, phi: nat, x: nat, m: nat)
    requires n > 1 && phi > 1 && Cong(Pow(x, phi), 1, n) && Cong(n * m, 1, phi)
    ensures x % n == PowMod(PowMod(x, m, n), n, n)
  {
    var k := ExponentSplit(n, m, phi);
    hide *;
    CongMod(Pow(x, m), n);
    PowModIs(x, m, n);
    PowModIs(PowMod(x, m, n), n, n);
    PowCong(PowMod(x, m, n), Pow(x, m), n, n);
    PowMul(x, m, n);
    SwapFactors(m, n);
    ProductNonNegative(k, phi);
    ProductNonNegative(m, n);
    RaisedBack(x, m * n, n, phi, k);
    CongTrans(Pow(PowMod(x, m, n), n), Pow(x, m * n), x, n);
    CongIs(Pow(PowMod(x, m, n), n), x, n);
  }

  lemma PowModIs(x: int, e: nat, n: int)
    requires n > 0
    ensures PowMod(x, e, n) == Pow(x, e) % n
  {
  }

  lemma CongIs(a: int, b: int, n: int)
    requires n > 0 && Cong(a, b, n)
    ensures a % n == b % n
  {
  }

  lemma ExponentSplit(n: nat, m: nat, phi: nat) returns (k: nat)
    requires phi > 1 && Cong(n * m, 1, phi)
    ensures n * m == 1 + k * phi
  {
    var t := CongWitness(n * m, 1, phi);
    ProductNonNegative(n, m);
    if t < 0 {
      MulMono(t, -1, phi);
      assert false;
    }
    k := t;
  }

  lemma RaisedBack(x: int, e: nat, n: nat, phi: nat, k: nat)
    requires n > 1 && k * phi >= 0 && Cong(Pow(x, phi), 1, n) && e == 1 + k * phi
    ensures Cong(Pow(x, e), x, n)
  {
    var f := k * phi;
    PowerOfMultiple(x, phi, k, n);
    hide *;
    PowAdd(x, 1, f);
    PowOnce(x);
    CongScale(x, Pow(x, f), 1, n);
  }

  lemma PowerOfMultiple(x: int, phi: nat, k: nat, n: nat)
    requires n > 1 && k * phi >= 0 && Cong(Pow(x, phi), 1, n)
    ensures Cong(Pow(x, k * phi), 1, n)
  {
    assert k * phi == phi * k;
    PowMul(x, phi, k);
    PowCong(Pow(x, phi), 1, k, n);
    PowOne(k);
  }

  /** Completeness: for a good key whose challenges exist, the proof verifies. */
  lemma KeyProofComplete(p: nat, q: nat, xs: seq<nat>)
    requires GoodPrimes(p, q)
    requires forall k :: 0 <= k < |xs| ==> InMultGroup(p * q, xs[k])
    ensures KeyFrom(p, q).n == p * q && KeyFrom(p, q).phi == (p - 1) * (q - 1)
    ensures ProveKey(KeyFrom(p, q), xs).Some?
    ensures forall k :: 0 <= k < |xs| ==> var y := ProveKey(KeyFrom(p, q), xs).value[k];
      0 < y < p * q && xs[k] % (p * q) == PowMod(y, p * q, p * q)
  {
    var n, phi, sk := p * q, (p - 1) * (q - 1), KeyFrom(p, q);
    ModInvCorrect(n, phi);
    var m := ModInv(n, phi).1;
    forall k | 0 <= k < |xs| ensures var y := ProveKey(sk, xs).value[k]; 0 < y < n && xs[k] % n == PowMod(y, n, n) {
      CoprimeIffGcd(xs[k], n);
      NthRoot(p, q, xs[k], m);
      UnitPowerNonZero(xs[k], m, n);
    }
  }

  lemma UnitPowerNonZero(x: nat, m: nat, n: nat)
    requires n > 1 && Coprime(x, n)
    ensures 0 < PowMod(x, m, n) < n
  {
    PowCoprime(x, m, n);
    CongMod(Pow(x, m), n);
    if PowMod(x, m, n) == 0 {
      CongFlip(0, Pow(x, m), n);
      CoprimeCong(Pow(x, m), 0, n);
      var a, b :| 0 * a + n * b == 1;
      DividesBy(n, 1, b);
      DividesBound(n, 1);
      assert false;
    }
  }
}
