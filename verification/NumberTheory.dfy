/** Divisibility, congruences, extended Euclid, powers and Fermat's little theorem.
    The scalar field, the Paillier modulus and the primality test all rest on this. */
module NumberTheory {

  ghost predicate Divides(d: int, a: int) {
    exists k :: a == d * k
  }

  ghost predicate IsPrime(p: int) {
    2 <= p && forall d :: 2 <= d < p ==> !Divides(d, p)
  }

  /** a and b leave the same residue modulo m. */
  ghost predicate Cong(a: int, b: int, m: int)
    requires m > 0
  {
    a % m == b % m
  }

  // ---------- congruences ----------

  lemma ModUnique(a: int, q: int, r: int, m: int)
    requires m > 0 && 0 <= r < m && a == q * m + r
    ensures a % m == r && a / m == q
  {
    var q', r' := a / m, a % m;
    assert (q - q') * m == r' - r;
    if q > q' {
      assert (q - q') * m >= m by { MulMono(1, q - q', m); }
    } else if q < q' {
      MulMono(q - q', -1, m);
    }
  }

  lemma MulMono(a: int, b: int, c: int)
    requires a <= b && 0 <= c
    ensures a * c <= b * c
  {
    assert (b - a) * c >= 0;
  }

  lemma CongWitness(a: int, b: int, m: int) returns (k: int)
    requires m > 0 && Cong(a, b, m)
    ensures a == b + k * m
  {
    k := a / m - b / m;
    assert a == (a / m) * m + a % m;
    assert b == (b / m) * m + b % m;
    assert k * m == (a / m) * m - (b / m) * m;
  }

  lemma CongFrom(a: int, b: int, k: int, m: int)
    requires m > 0 && a == b + k * m
    ensures Cong(a, b, m)
  {
    assert b == (b / m) * m + b % m;
    assert a == (b / m + k) * m + b % m;
    ModUnique(a, b / m + k, b % m, m);
  }

  lemma ThreeIsPrime()
    ensures IsPrime(3)
  {
    forall k: int ensures 3 != 2 * k { }
  }

  lemma CongSelf(a: int, m: int)
    requires m > 0
    ensures Cong(a, a, m)
  {
  }

  lemma CongFlip(a: int, b: int, m: int)
    requires m > 0
    ensures Cong(a, b, m) <==> Cong(b, a, m)
  {
  }

  lemma CongTrans(a: int, b: int, c: int, m: int)
    requires m > 0 && Cong(a, b, m) && (Cong(b, c, m) || Cong(c, b, m))
    ensures Cong(a, c, m) && Cong(c, a, m)
  {
  }

  lemma CongMod(a: int, m: int)
    requires m > 0
    ensures Cong(a % m, a, m) && 0 <= a % m < m
  {
    ModUnique(a % m, 0, a % m, m);
  }

  lemma SmallMod(a: int, m: int)
    requires 0 <= a < m
    ensures a % m == a
  {
    ModUnique(a, 0, a, m);
  }

  lemma CongSmall(a: int, b: int, m: int)
    requires 0 <= a < m && 0 <= b < m && Cong(a, b, m)
    ensures a == b
  {
    SmallMod(a, m);
    SmallMod(b, m);
  }

  lemma CongAdd(a: int, b: int, c: int, d: int, m: int)
    requires m > 0 && Cong(a, b, m) && Cong(c, d, m)
    ensures Cong(a + c, b + d, m)
  {
    var k := CongWitness(a, b, m);
    var l := CongWitness(c, d, m);
    assert a + c == b + d + (k + l) * m;
    CongFrom(a + c, b + d, k + l, m);
  }

  lemma CongSub(a: int, b: int, c: int, d: int, m: int)
    requires m > 0 && Cong(a, b, m) && Cong(c, d, m)
    ensures Cong(a - c, b - d, m)
  {
    var k := CongWitness(a, b, m);
    var l := CongWitness(c, d, m);
    assert a - c == b - d + (k - l) * m;
    CongFrom(a - c, b - d, k - l, m);
  }

  lemma CongMul(a: int, b: int, c: int, d: int, m: int)
    requires m > 0 && Cong(a, b, m) && Cong(c, d, m)
    ensures Cong(a * c, b * d, m)
  {
    var k := CongWitness(a, b, m);
    var l := CongWitness(c, d, m);
    ShiftedProduct(b, k * m, d, l * m);
    MultipleOut(b, d, k, l, m);
    CongFrom(a * c, b * d, b * l + k * d + k * (l * m), m);
  }

  lemma MultipleOut(b: int, d: int, k: int, l: int, m: int)
    ensures b * (l * m) + (k * m) * d + (k * m) * (l * m) == (b * l + k * d + k * (l * m)) * m
  {
    assert b * (l * m) == (b * l) * m && (k * m) * d == (k * d) * m && (k * m) * (l * m) == (k * (l * m)) * m;
  }

  lemma ShiftedProduct(b: int, x: int, d: int, y: int)
    ensures (b + x) * (d + y) == b * d + b * y + x * d + x * y
  {
  }

  /** Scaling both sides by the same factor. */
  lemma CongScale(c: int, a: int, b: int, m: int)
    requires m > 0 && Cong(a, b, m)
    ensures Cong(c * a, c * b, m) && Cong(a * c, b * c, m)
  {
    CongMul(c, c, a, b, m);
    CongMul(a, b, c, c, m);
  }

  lemma CongZero(a: int, m: int)
    requires m > 0
    ensures Cong(a, 0, m) <==> Divides(m, a)
    ensures Cong(a, 0, m) <==> a % m == 0
  {
    SmallMod(0, m);
    if Cong(a, 0, m) {
      var k := CongWitness(a, 0, m);
      assert a == m * k;
    }
    if Divides(m, a) {
      var k :| a == m * k;
      CongFrom(a, 0, k, m);
    }
  }

  lemma CongDiff(a: int, b: int, m: int)
    requires m > 0
    ensures Cong(a, b, m) <==> Cong(a - b, 0, m)
  {
    if Cong(a, b, m) { CongSub(a, b, b, b, m); }
    if Cong(a - b, 0, m) { CongAdd(a - b, 0, b, b, m); }
  }

  /** A congruence modulo m * k is one modulo m. */
  lemma CongWeaken(a: int, b: int, m: int, k: int)
    requires m > 0 && k > 0 && m * k > 0 && Cong(a, b, m * k)
    ensures Cong(a, b, m)
  {
    var t := CongWitness(a, b, m * k);
    assert t * (m * k) == (t * k) * m;
    CongFrom(a, b, t * k, m);
  }

  // ---------- divisibility ----------

  lemma DividesBy(d: int, a: int, k: int)
    requires a == d * k
    ensures Divides(d, a)
  {
  }

  lemma DividesSum(d: int, a: int, b: int, x: int, y: int)
    requires Divides(d, a) && Divides(d, b)
    ensures Divides(d, a * x + b * y)
  {
    var k :| a == d * k;
    var l :| b == d * l;
    assert a * x + b * y == d * (k * x + l * y) by {
      assert a * x == d * (k * x);
      assert b * y == d * (l * y);
    }
  }

  lemma DividesBound(d: int, a: int)
    requires Divides(d, a) && a > 0 && d > 0
    ensures d <= a
  {
    var k :| a == d * k;
    if k <= 0 {
      MulMono(k, 0, d);
      assert false;
    }
    MulMono(1, k, d);
  }

  // ---------- extended Euclid ----------

  /** Greatest common divisor together with Bezout coefficients. */
  function ExtGcd(a: nat, b: nat): (r: (nat, int, int))
    ensures a * r.1 + b * r.2 == r.0
    ensures a > 0 || b > 0 ==> r.0 > 0
    decreases b
  {
    if b == 0 then
      assert a * 1 + b * 0 == a;
      (a, 1, 0)
    else
      var (g, x, y) := ExtGcd(b, a % b);
      assert a * y + b * (x - (a / b) * y) == g by { BezoutStep(a, b, g, x, y); }
      (g, y, x - (a / b) * y)
  }

  lemma BezoutStep(a: nat, b: nat, g: int, x: int, y: int)
    requires b > 0 && b * x + (a % b) * y == g
    ensures a * y + b * (x - (a / b) * y) == g
  {
    var q, r := a / b, a % b;
    assert a == b * q + r;
    calc {
      a * y + b * (x - q * y);
      (b * q + r) * y + b * (x - q * y);
      { assert (b * q + r) * y == b * q * y + r * y; assert b * (x - q * y) == b * x - b * q * y; }
      b * x + r * y;
    }
  }

  function Gcd(a: nat, b: nat): nat { ExtGcd(a, b).0 }

  lemma {:induction false} GcdDivides(a: nat, b: nat)
    requires a > 0 || b > 0
    ensures Gcd(a, b) > 0 && Divides(Gcd(a, b), a) && Divides(Gcd(a, b), b)
    decreases b
  {
    if b == 0 {
      assert a == a * 1 && 0 == a * 0;
    } else {
      var g := Gcd(a, b);
      GcdDivides(b, a % b);
      assert a == b * (a / b) + (a % b) * 1;
      DividesSum(g, b, a % b, a / b, 1);
    }
  }

  /** Gcd is the greatest common divisor: every common divisor divides it. */
  lemma GcdGreatest(a: nat, b: nat, d: int)
    requires Divides(d, a) && Divides(d, b)
    ensures Divides(d, Gcd(a, b))
  {
    var r := ExtGcd(a, b);
    DividesSum(d, a, b, r.1, r.2);
  }

  /** The greatest common divisor is the only positive common divisor that all others divide. */
  lemma GcdUnique(a: nat, b: nat, g: nat)
    requires g > 0 && Divides(g, a) && Divides(g, b)
    requires forall d :: d > 0 && Divides(d, a) && Divides(d, b) ==> Divides(d, g)
    requires a > 0 || b > 0
    ensures g == Gcd(a, b)
  {
    GcdDivides(a, b);
    GcdGreatest(a, b, g);
    DividesBound(g, Gcd(a, b));
    DividesBound(Gcd(a, b), g);
  }

  ghost predicate Coprime(a: int, m: int)
  {
    exists x, y :: a * x + m * y == 1
  }

  lemma CoprimeIffGcd(a: nat, m: nat)
    requires a > 0 || m > 0
    ensures Coprime(a, m) <==> Gcd(a, m) == 1
  {
    GcdDivides(a, m);
    var r := ExtGcd(a, m);
    if Gcd(a, m) == 1 { assert a * r.1 + m * r.2 == 1; }
    if Coprime(a, m) {
      var x, y :| a * x + m * y == 1;
      DividesSum(Gcd(a, m), a, m, x, y);
      DividesBound(Gcd(a, m), 1);
    }
  }

  lemma CoprimeCong(a: int, b: int, m: int)
    requires m > 0 && Cong(a, b, m) && Coprime(a, m)
    ensures Coprime(b, m)
  {
    var x, y :| a * x + m * y == 1;
    var k := CongWitness(a, b, m);
    assert b * x + m * (y + k * x) == 1 by {
      assert (b + k * m) * x == b * x + m * (k * x);
      assert m * (y + k * x) == m * y + m * (k * x);
    }
  }

  lemma CoprimeMul(a: int, b: int, m: int)
    requires Coprime(a, m) && Coprime(b, m)
    ensures Coprime(a * b, m)
  {
    var x, y :| a * x + m * y == 1;
    var u, v :| b * u + m * v == 1;
    assert (a * b) * (x * u) == (a * x) * (b * u);
    UnitProduct(a * x, b * u, y, v, m);
  }

  lemma UnitProduct(p: int, q: int, y: int, v: int, m: int)
    requires p + m * y == 1 && q + m * v == 1
    ensures p * q + m * (y + p * v) == 1
  {
    assert p * (q + m * v) == p;
    assert m * (y + p * v) == m * y + p * (m * v);
  }

  lemma CoprimeSym(a: int, m: int)
    requires Coprime(a, m)
    ensures Coprime(m, a)
  {
    var x, y :| a * x + m * y == 1;
    assert m * y + a * x == 1;
  }

  lemma CoprimeFactor(a: int, b: int, m: int)
    requires Coprime(a * b, m)
    ensures Coprime(a, m) && Coprime(b, m)
  {
    var x, y :| (a * b) * x + m * y == 1;
    assert a * (b * x) + m * y == 1;
    assert b * (a * x) + m * y == 1;
  }

  /** A factor coprime to the modulus can be cancelled. */
  lemma CancelCoprime(c: int, a: int, b: int, m: int)
    requires m > 0 && Coprime(c, m) && Cong(c * a, c * b, m)
    ensures Cong(a, b, m)
  {
    var x, y :| c * x + m * y == 1;
    CongScale(x, c * a, c * b, m);
    InverseApplied(c, x, y, a, m);
    InverseApplied(c, x, y, b, m);
  }

  lemma CancelOne(c: int, a: int, m: int)
    requires m > 0 && Coprime(c, m) && Cong(c * a, c, m)
    ensures Cong(a, 1, m)
  {
    CancelCoprime(c, a, 1, m);
  }

  lemma InverseApplied(c: int, x: int, y: int, a: int, m: int)
    requires m > 0 && c * x + m * y == 1
    ensures Cong(x * (c * a), a, m)
  {
    assert x * (c * a) == a + (-(y * a)) * m by {
      assert x * (c * a) == (c * x) * a;
      assert (1 - m * y) * a == a - (y * a) * m;
    }
    CongFrom(x * (c * a), a, -(y * a), m);
  }

  lemma PrimeCoprime(p: int, a: int)
    requires IsPrime(p) && !Cong(a, 0, p)
    ensures Coprime(a, p)
  {
    var r := a % p;
    CongMod(a, p);
    SmallMod(0, p);
    var g := Gcd(p, r);
    GcdDivides(p, r);
    DividesBound(g, r);
    if g != 1 { assert false; }
    var e := ExtGcd(p, r);
    assert r * e.2 + p * e.1 == 1;
    CoprimeCong(r, a, p);
  }

  /** Euclid's lemma. */
  lemma PrimeProduct(p: int, a: int, b: int)
    requires IsPrime(p) && Cong(a * b, 0, p)
    ensures Cong(a, 0, p) || Cong(b, 0, p)
  {
    if !Cong(a, 0, p) {
      PrimeCoprime(p, a);
      assert a * 0 == 0;
      CancelCoprime(a, b, 0, p);
    }
  }

  lemma DistinctPrimesCoprime(p: int, q: int)
    requires IsPrime(p) && IsPrime(q) && p != q
    ensures Coprime(p, q) && Coprime(q, p)
  {
    if p < q {
      if Cong(p, 0, q) { CongZero(p, q); DividesBound(q, p); }
      PrimeCoprime(q, p);
      CoprimeSym(p, q);
    } else {
      if Cong(q, 0, p) { CongZero(q, p); DividesBound(p, q); }
      PrimeCoprime(p, q);
      CoprimeSym(q, p);
    }
  }

  /** Congruence modulo two coprime moduli gives congruence modulo their product. */
  lemma CongJoin(a: int, b: int, p: int, q: int)
    requires p > 0 && q > 0 && p * q > 0 && Coprime(p, q) && Cong(a, b, p) && Cong(a, b, q)
    ensures Cong(a, b, p * q)
  {
    var k := CongWitness(a, b, p);
    var l := CongWitness(a, b, q);
    var x, y :| p * x + q * y == 1;
    JoinIdentity(a - b, k, l, p, q, x, y);
    CongFrom(a, b, l * x + k * y, p * q);
  }

  lemma JoinIdentity(d: int, k: int, l: int, p: int, q: int, x: int, y: int)
    requires d == k * p && d == l * q && p * x + q * y == 1
    ensures d == (l * x + k * y) * (p * q)
  {
    calc {
      d;
      d * (p * x + q * y);
      d * (p * x) + d * (q * y);
      (l * q) * (p * x) + (k * p) * (q * y);
      { assert (l * q) * (p * x) == (l * x) * (p * q); assert (k * p) * (q * y) == (k * y) * (p * q); }
      (l * x) * (p * q) + (k * y) * (p * q);
      (l * x + k * y) * (p * q);
    }
  }

  // ---------- modular inverse ----------

  /** The inverse of a modulo m when there is one. */
  function ModInv(a: int, m: int): (r: (bool, int))
    requires m > 0
  {
    var (g, x, y) := ExtGcd(a % m, m);
    if g == 1 then (true, x % m) else (false, 0)
  }

  lemma ModInvCorrect(a: int, m: int)
    requires m > 0
    ensures ModInv(a, m).0 <==> Coprime(a, m)
    ensures ModInv(a, m).0 ==> 0 <= ModInv(a, m).1 < m && Cong(a * ModInv(a, m).1, 1, m)
  {
    var r := a % m;
    CongMod(a, m);
    CoprimeIffGcd(r, m);
    if Coprime(a, m) { CoprimeCong(a, r, m); }
    if Coprime(r, m) { CoprimeCong(r, a, m); }
    if ModInv(a, m).0 {
      var (g, x, y) := ExtGcd(r, m);
      assert r * x == 1 + (-y) * m;
      CongFrom(r * x, 1, -y, m);
      CongMod(x, m);
      CongMul(a, r, x % m, x, m);
    }
  }

  /** Inverse in the prime field, with 0 sent to 0. */
  function Inv(n: int, a: int): (r: int)
    requires n > 0
  {
    ModInv(a, n).1
  }

  lemma InvCorrect(n: int, a: int)
    requires IsPrime(n) && !Cong(a, 0, n)
    ensures 0 < Inv(n, a) < n && Cong(a * Inv(n, a), 1, n) && !Cong(Inv(n, a), 0, n)
  {
    PrimeCoprime(n, a);
    ModInvCorrect(a, n);
    SmallMod(1, n);
    SmallMod(0, n);
    if Cong(Inv(n, a), 0, n) {
      CongScale(a, Inv(n, a), 0, n);
      assert false;
    }
  }

  // ---------- powers ----------

  function Pow(b: int, e: nat): int {
    if e == 0 then 1 else b * Pow(b, e - 1)
  }

  lemma PowOnce(b: int)
    ensures Pow(b, 1) == b
  {
    assert Pow(b, 0) == 1;
  }

  lemma {:induction false} PowAdd(b: int, e: nat, f: nat)
    ensures Pow(b, e + f) == Pow(b, e) * Pow(b, f)
    decreases e
  {
    if e > 0 {
      PowAdd(b, e - 1, f);
      assert b * (Pow(b, e - 1) * Pow(b, f)) == (b * Pow(b, e - 1)) * Pow(b, f);
    }
  }

  lemma {:induction false} PowMul(b: int, e: nat, f: nat)
    requires e * f >= 0
    ensures Pow(b, e * f) == Pow(Pow(b, e), f)
    decreases f
  {
    if f > 0 {
      assert e * f == e + e * (f - 1);
      assert e * (f - 1) >= 0;
      PowMul(b, e, f - 1);
      PowAdd(b, e, e * (f - 1));
    } else {
      assert e * f == 0;
    }
  }

  lemma {:induction false} PowProduct(a: int, b: int, e: nat)
    ensures Pow(a * b, e) == Pow(a, e) * Pow(b, e)
  {
    if e > 0 {
      PowProduct(a, b, e - 1);
      ProductSwap(a, b, Pow(a, e - 1), Pow(b, e - 1));
    }
  }

  lemma SwapFactors(a: int, b: int)
    ensures a * b == b * a
  {
  }

  lemma SwapLast(a: int, b: int, c: int)
    ensures (a * b) * c == (a * c) * b
  {
  }

  lemma ProductSwap(a: int, b: int, x: int, y: int)
    ensures (a * b) * (x * y) == (a * x) * (b * y)
  {
    assert (a * b) * (x * y) == a * (b * (x * y));
    assert b * (x * y) == x * (b * y);
    assert a * (x * (b * y)) == (a * x) * (b * y);
  }

  lemma {:induction false} PowOne(e: nat)
    ensures Pow(1, e) == 1
  {
    if e > 0 { PowOne(e - 1); }
  }

  lemma {:induction false} PowCong(a: int, b: int, e: nat, m: int)
    requires m > 0 && Cong(a, b, m)
    ensures Cong(Pow(a, e), Pow(b, e), m)
  {
    if e > 0 {
      PowCong(a, b, e - 1, m);
      CongMul(a, b, Pow(a, e - 1), Pow(b, e - 1), m);
    }
  }

  lemma {:induction false} PowCoprime(a: int, e: nat, m: int)
    requires Coprime(a, m)
    ensures Coprime(Pow(a, e), m)
  {
    if e == 0 {
      assert 1 * 1 + m * 0 == 1;
    } else {
      PowCoprime(a, e - 1, m);
      CoprimeMul(a, Pow(a, e - 1), m);
    }
  }

  /** b^e mod m, the meaning of the library's modular exponentiation. */
  function PowMod(b: int, e: nat, m: int): (r: nat)
    requires m > 0
    ensures r < m
  {
    Pow(b, e) % m
  }

  // ---------- Fermat's little theorem ----------

  function Binom(n: nat, k: int): nat {
    if k < 0 || k > n then 0
    else if n == 0 then 1
    else Binom(n - 1, k - 1) + Binom(n - 1, k)
  }

  /** sum over k < j of Binom(n, k) * a^k */
  function BinomSum(n: nat, a: int, j: nat): int {
    if j == 0 then 0 else BinomSum(n, a, j - 1) + Binom(n, j - 1) * Pow(a, j - 1)
  }

  lemma {:induction false} BinomSumStep(n: nat, a: int, j: nat)
    requires j > 0
    ensures BinomSum(n + 1, a, j) == BinomSum(n, a, j) + a * BinomSum(n, a, j - 1)
    decreases j
  {
    if j == 1 {
      assert BinomSum(n + 1, a, 0) == 0 && BinomSum(n, a, 0) == 0;
      Binom0(n + 1);
      Binom0(n);
    } else {
      BinomSumStep(n, a, j - 1);
      var u, v, w := Binom(n, j - 2), Binom(n, j - 1), Pow(a, j - 2);
      assert Binom(n + 1, j - 1) == u + v;
      assert Pow(a, j - 1) == a * w;
      StepIdentity(a, u, v, w, BinomSum(n, a, j - 2));
    }
  }

  lemma StepIdentity(a: int, u: int, v: int, w: int, t: int)
    ensures (u + v) * (a * w) + a * t == v * (a * w) + a * (t + u * w)
  {
    assert (u + v) * (a * w) == u * (a * w) + v * (a * w);
    assert u * (a * w) == a * (u * w);
  }

  lemma {:induction false} BinomialTheorem(n: nat, a: int)
    ensures BinomSum(n, a, n + 1) == Pow(a + 1, n)
  {
    if n == 0 {
      assert BinomSum(0, a, 1) == BinomSum(0, a, 0) + Binom(0, 0) * Pow(a, 0);
    } else {
      BinomialTheorem(n - 1, a);
      BinomSumStep(n - 1, a, n + 1);
      BinomSumTop(n - 1, a);
      OneMore(a, BinomSum(n - 1, a, n), Pow(a + 1, n - 1));
    }
  }

  lemma BinomSumTop(n: nat, a: int)
    ensures BinomSum(n, a, n + 2) == BinomSum(n, a, n + 1)
  {
    var w := Pow(a, n + 1);
    assert Binom(n, n + 1) == 0;
    assert 0 * w == 0;
  }

  lemma OneMore(a: int, s: int, t: int)
    requires s == t
    ensures s + a * s == (a + 1) * t
  {
  }

  lemma {:induction false} BinomAbsorb(n: nat, k: nat)
    requires 1 <= k <= n
    ensures k * Binom(n, k) == n * Binom(n - 1, k - 1)
    decreases n
  {
    if n == 1 {
      Binom0(0);
      assert Binom(1, 1) == Binom(0, 0) + Binom(0, 1);
    } else {
      var A, B := Binom(n - 1, k - 1), Binom(n - 1, k);
      var X, Y := Binom(n - 2, k - 2), Binom(n - 2, k - 1);
      assert Binom(n, k) == A + B && A == X + Y;
      if k < n {
        BinomAbsorb(n - 1, k);
      } else {
        assert B == 0 && Y == 0;
      }
      if k > 1 {
        BinomAbsorb(n - 1, k - 1);
      } else {
        assert X == 0;
      }
      AbsorbIdentity(n, k, A, B, X, Y);
    }
  }

  lemma AbsorbIdentity(n: int, k: int, A: int, B: int, X: int, Y: int)
    requires A == X + Y && k * B == (n - 1) * Y && (k - 1) * A == (n - 1) * X
    ensures k * (A + B) == n * A
  {
    calc {
      k * (A + B);
      (k - 1) * A + A + k * B;
      (n - 1) * X + (n - 1) * Y + A;
      (n - 1) * A + A;
      n * A;
    }
  }

  lemma PrimeDividesBinom(p: nat, k: nat)
    requires IsPrime(p) && 1 <= k < p
    ensures Cong(Binom(p, k), 0, p)
  {
    BinomAbsorb(p, k);
    CongFrom(k * Binom(p, k), 0, Binom(p - 1, k - 1), p);
    PrimeProduct(p, k, Binom(p, k));
    SmallMod(k, p);
    SmallMod(0, p);
  }

  lemma {:induction false} BinomSumPrime(p: nat, a: int, j: nat)
    requires IsPrime(p) && 1 <= j <= p
    ensures Cong(BinomSum(p, a, j), 1, p)
  {
    if j == 1 {
      assert BinomSum(p, a, 0) == 0;
      Binom0(p);
    } else {
      BinomSumPrime(p, a, j - 1);
      PrimeDividesBinom(p, j - 1);
      var w := Pow(a, j - 1);
      CongScale(w, Binom(p, j - 1), 0, p);
      CongAdd(BinomSum(p, a, j - 1), 1, Binom(p, j - 1) * w, 0 * w, p);
    }
  }

  lemma {:induction false} Binom0(n: nat)
    ensures Binom(n, 0) == 1
  {
    if n > 0 { Binom0(n - 1); }
  }

  lemma {:induction false} BinomDiag(n: nat)
    ensures Binom(n, n) == 1
  {
    if n > 0 { BinomDiag(n - 1); }
  }

  /** a^p = a modulo a prime p. */
  lemma {:induction false} FermatPower(p: nat, a: nat)
    requires IsPrime(p)
    ensures Cong(Pow(a, p), a, p)
  {
    if a == 0 {
      assert Pow(0, p) == 0 * Pow(0, p - 1);
    } else {
      FermatPower(p, a - 1);
      BinomialTheorem(p, a - 1);
      BinomSumPrime(p, a - 1, p);
      BinomDiag(p);
      assert Pow(a, p) == BinomSum(p, a - 1, p) + Pow(a - 1, p);
      CongAdd(BinomSum(p, a - 1, p), 1, Pow(a - 1, p), a - 1, p);
    }
  }

  /** Fermat's little theorem: a^(p-1) = 1 modulo p for a not divisible by p. */
  lemma Fermat(p: nat, a: int)
    requires IsPrime(p) && !Cong(a, 0, p)
    ensures Cong(Pow(a, p - 1), 1, p)
  {
    var r := a % p;
    CongMod(a, p);
    FermatPower(p, r);
    PowCong(a, r, p, p);
    var w := Pow(a, p - 1);
    assert Pow(a, p) == a * w;
    PrimeCoprime(p, a);
    CancelOne(a, w, p);
  }
}
