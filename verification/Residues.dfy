/** Quadratic residues modulo a prime and the Jacobi symbol as a product of Legendre symbols. */
module Residues {
  import opened NumberTheory
  import opened Bn
  import opened Paillier

  /** Whether a is a square modulo an odd prime, by Euler's criterion: 0, 1 or -1. */
  function Legendre(a: int, p: nat): (r: int)
    requires p > 0
    ensures -1 <= r <= 1
  {
    if a % p == 0 then 0 else if Pow(a, (p - 1) / 2) % p == 1 % p then 1 else -1
  }

  ghost predicate OddPrime(p: nat) { IsPrime(p) && p % 2 == 1 }

  /** a^((p-1)/2) is the symbol modulo p. */
  lemma LegendreEuler(a: int, p: nat)
    requires OddPrime(p)
    ensures Cong(Pow(a, (p - 1) / 2), Legendre(a, p), p)
  {
    var h := (p - 1) / 2;
    CongZero(a, p);
    if a % p == 0 {
      PowCong(a, 0, h, p);
      assert Pow(0, h) == 0 * Pow(0, h - 1);
    } else {
      Fermat(p, a);
      PowAdd(a, h, h);
      RootsOfOne(p, Pow(a, h));
      SmallMod(1, p);
    }
  }

  /** Values between -1 and 1 that agree modulo an odd prime are equal. */
  lemma SignsDistinct(s: int, t: int, p: nat)
    requires p >= 3 && -1 <= s <= 1 && -1 <= t <= 1 && Cong(s, t, p)
    ensures s == t
  {
    var k := CongWitness(s, t, p);
    if k > 0 { MulMono(1, k, p); }
    if k < 0 { MulMono(k, -1, p); }
  }

  lemma LegendreMul(a: int, b: int, p: nat)
    requires OddPrime(p)
    ensures Legendre(a * b, p) == Legendre(a, p) * Legendre(b, p)
  {
    var h, l, m, t := (p - 1) / 2, Legendre(a, p), Legendre(b, p), Legendre(a * b, p);
    LegendreEuler(a, p);
    LegendreEuler(b, p);
    LegendreEuler(a * b, p);
    SignProduct(l, m);
    hide Cong, Pow, Legendre;
    PowProduct(a, b, h);
    CongMul(Pow(a, h), l, Pow(b, h), m, p);
    CongFlip(Pow(a * b, h), t, p);
    CongTrans(t, Pow(a * b, h), l * m, p);
    SignsDistinct(t, l * m, p);
  }

  lemma SignProduct(l: int, m: int)
    requires -1 <= l <= 1 && -1 <= m <= 1
    ensures -1 <= l * m <= 1
  {
  }

  lemma LegendreCong(a: int, b: int, p: nat)
    requires OddPrime(p) && Cong(a, b, p)
    ensures Legendre(a, p) == Legendre(b, p)
  {
    LegendreEuler(a, p);
    LegendreEuler(b, p);
    PowCong(a, b, (p - 1) / 2, p);
    SignsDistinct(Legendre(a, p), Legendre(b, p), p);
  }

  /** Minus one is not a square modulo a prime that is 3 modulo 4. */
  lemma LegendreNeg(a: int, p: nat)
    requires OddPrime(p) && p % 4 == 3
    ensures Legendre(-a, p) == -Legendre(a, p)
  {
    MinusOneOddPower((p - 3) / 4);
    LegendreEuler(-1, p);
    SignsDistinct(Legendre(-1, p), -1, p);
    LegendreMul(-1, a, p);
    assert (-1) * a == -a;
  }

  lemma {:induction false} MinusOneOddPower(k: nat)
    ensures Pow(-1, 2 * k + 1) == -1
  {
    if k == 0 {
      assert Pow(-1, 1) == -1 * Pow(-1, 0);
    } else {
      MinusOneOddPower(k - 1);
      assert Pow(-1, 2 * k + 1) == -1 * Pow(-1, 2 * k) && Pow(-1, 2 * k) == -1 * Pow(-1, 2 * k - 1);
    }
  }

  lemma LegendreUnit(a: int, p: nat)
    requires p > 0
    ensures Legendre(a, p) == 0 <==> Cong(a, 0, p)
  {
    CongZero(a, p);
  }

  // ---------- the Jacobi symbol ----------

  /** The least divisor of n from d on. */
  function LeastFactor(n: nat, d: nat): (f: nat)
    requires 2 <= d <= n
    ensures d <= f <= n && n % f == 0
    ensures forall k :: d <= k < f ==> n % k != 0
    decreases n - d
  {
    if n % d == 0 then d else if d == n then assert false; n else LeastFactor(n, d + 1)
  }

  /** The Jacobi symbol: the product of the Legendre symbols over the prime factors of n. */
  function Symbol(a: nat, n: nat): int
    decreases n
  {
    if n <= 1 then 1
    else
      var f := LeastFactor(n, 2);
      QuotientSmaller(n, f);
      Legendre(a, f) * Symbol(a, n / f)
  }

  lemma QuotientSmaller(n: nat, f: nat)
    requires n > 1 && 2 <= f && n % f == 0
    ensures 0 < n / f < n && n == f * (n / f)
  {
    var k := n / f;
    assert n == f * k;
    MulMono(2, f, k);
  }

  lemma DividesIsZeroMod(f: nat, n: nat)
    requires f > 0
    ensures Divides(f, n) <==> n % f == 0
  {
    CongZero(n, f);
  }

  lemma LeastFactorOfPrime(p: nat)
    requires IsPrime(p)
    ensures LeastFactor(p, 2) == p
  {
    DividesIsZeroMod(LeastFactor(p, 2), p);
  }

  /** The least factor of a product of two primes is one of them. */
  lemma LeastFactorOfTwo(p: nat, q: nat)
    requires IsPrime(p) && IsPrime(q) && p * q >= 2
    ensures LeastFactor(p * q, 2) == p || LeastFactor(p * q, 2) == q
  {
    var n := p * q;
    var f := LeastFactor(n, 2);
    ModUnique(n, q, 0, p);
    assert f <= p;
    DividesIsZeroMod(f, n);
    if f < p {
      PrimeHasNoFactor(p, f);
      CongZero(n, f);
      assert p * 0 == 0;
      CancelCoprime(p, q, 0, f);
      CongZero(q, f);
      DividesBound(f, q);
      if f < q { assert false; }
    }
  }

  lemma PrimeHasNoFactor(p: nat, f: nat)
    requires IsPrime(p) && 2 <= f < p
    ensures Coprime(p, f)
  {
    SmallMod(f, p);
    SmallMod(0, p);
    PrimeCoprime(p, f);
    CoprimeSym(f, p);
  }

  lemma SymbolOfPrime(a: nat, p: nat)
    requires IsPrime(p)
    ensures Symbol(a, p) == Legendre(a, p)
  {
    LeastFactorOfPrime(p);
    ModUnique(p, 1, 0, p);
    assert Symbol(a, 1) == 1;
  }

  lemma SymbolSplit(a: nat, f: nat, g: nat)
    requires f * g >= 2 && LeastFactor(f * g, 2) == f
    ensures Symbol(a, f * g) == Legendre(a, f) * Symbol(a, g)
  {
    ModUnique(f * g, g, 0, f);
  }

  lemma SymbolOfTwo(a: nat, p: nat, q: nat)
    requires IsPrime(p) && IsPrime(q) && p * q >= 0
    ensures Symbol(a, p * q) == Legendre(a, p) * Legendre(a, q)
  {
    PositiveProduct(p, q);
    assert q * p == p * q;
    LeastFactorOfTwo(p, q);
    SymbolOfPrime(a, p);
    SymbolOfPrime(a, q);
    hide IsPrime, Symbol, Legendre, LeastFactor;
    if LeastFactor(p * q, 2) == p { SymbolSplit(a, p, q); } else { SymbolSplit(a, q, p); }
  }
}
