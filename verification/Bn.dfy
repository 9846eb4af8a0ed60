/** Integer algorithms of the GG18 half (src/ecdsatss/bn.rs): Newton square root, binary gcd, Jacobi symbol and the
    Miller-Rabin test. */
module Bn {
  import opened NumberTheory

  // ---------- square root ----------

  /** (x + n/x) / 2 never falls below the root. */
  lemma NewtonStaysAbove(n: nat, x: nat)
    requires x > 0
    ensures var y := (x + n / x) / 2; n < (y + 1) * (y + 1)
  {
    var q := n / x;
    var y := (x + q) / 2;
    assert n < (q + 1) * x by {
      assert n == q * x + n % x;
      assert (q + 1) * x == q * x + x;
    }
    ArithmeticMean(x, q + 1);
    HalfBound(x + q + 1, 2 * (y + 1));
    FourTimes(y + 1);
  }

  lemma ArithmeticMean(a: int, b: int)
    ensures 4 * (a * b) <= (a + b) * (a + b)
  {
    assert (a + b) * (a + b) == 4 * (a * b) + (a - b) * (a - b);
    Square(a - b);
  }

  lemma Square(d: int)
    ensures d * d >= 0
  {
    if d < 0 { MulMono(0, -d, -d); assert (-d) * (-d) == d * d; } else { MulMono(0, d, d); }
  }

  lemma HalfBound(s: nat, t: nat)
    requires s <= t
    ensures s * s <= t * t
  {
    MulMono(s, t, s);
    MulMono(s, t, t);
    assert s * t == t * s;
  }

  lemma FourTimes(a: int)
    ensures (2 * a) * (2 * a) == 4 * (a * a)
  {
  }

  /** When Newton's step does not go down any more, the root has been reached. */
  lemma NewtonStops(n: nat, x: nat)
    requires x > 0 && (x + n / x) / 2 >= x
    ensures x * x <= n
  {
    var q := n / x;
    assert q >= x;
    MulMono(x, q, x);
    assert n == q * x + n % x;
  }

  /** sqrt: Newton's method from above; the termination measure is the estimate itself. */
  method Sqrt(n: nat) returns (x: nat)
    ensures x * x <= n < (x + 1) * (x + 1)
  {
    if n <= 1 { return n; }
    x := n;
    SelfAbove(n);
    hide Above;
    while true
      invariant x > 0 && Above(n, x)
      decreases x
    {
      var y := (x + n / x) / 2;
      NextAbove(n, x);
      if y >= x { break; }
      x := y;
    }
    RootReached(n, x);
  }

  /** x is at least the root. */
  ghost predicate Above(n: nat, x: nat) { n < (x + 1) * (x + 1) }

  lemma SelfAbove(n: nat)
    ensures Above(n, n)
  {
    assert (n + 1) * (n + 1) == n * n + 2 * n + 1;
  }

  lemma NextAbove(n: nat, x: nat)
    requires n >= 2 && x > 0
    ensures (x + n / x) / 2 > 0 && Above(n, (x + n / x) / 2)
  {
    NewtonStaysAbove(n, x);
  }

  lemma RootReached(n: nat, x: nat)
    requires x > 0 && Above(n, x) && (x + n / x) / 2 >= x
    ensures x * x <= n < (x + 1) * (x + 1)
  {
    NewtonStops(n, x);
  }

  // ---------- greatest common divisor ----------

  /** Two pairs with the same common divisors have the same gcd. */
  lemma SameGcd(a: nat, b: nat, c: nat, d: nat)
    requires (a > 0 || b > 0) && (c > 0 || d > 0)
    requires forall t :: t > 0 ==> ((Divides(t, a) && Divides(t, b)) <==> (Divides(t, c) && Divides(t, d)))
    ensures Gcd(a, b) == Gcd(c, d)
  {
    GcdDivides(a, b);
    GcdDivides(c, d);
    var g := Gcd(a, b);
    forall t | t > 0 && Divides(t, c) && Divides(t, d) ensures Divides(t, g) { GcdGreatest(a, b, t); }
    GcdUnique(c, d, g);
  }

  lemma GcdSwap(a: nat, b: nat)
    ensures Gcd(a, b) == Gcd(b, a)
  {
    if a > 0 || b > 0 { SameGcd(a, b, b, a); }
  }

  lemma GcdSubtract(a: nat, b: nat)
    requires 0 < a <= b
    ensures Gcd(a, b - a) == Gcd(a, b)
  {
    forall t | t > 0 ensures (Divides(t, a) && Divides(t, b - a)) <==> (Divides(t, a) && Divides(t, b)) {
      if Divides(t, a) && Divides(t, b - a) { DividesSum(t, a, b - a, 1, 1); }
      if Divides(t, a) && Divides(t, b) { DividesSum(t, b, a, 1, -1); }
    }
    SameGcd(a, b - a, a, b);
  }

  /** An odd number and an even one: the factor two plays no part. */
  lemma GcdHalve(a: nat, b: nat)
    requires a % 2 == 1 && b % 2 == 0
    ensures Gcd(a, b / 2) == Gcd(a, b)
  {
    var h := b / 2;
    forall t | t > 0 ensures (Divides(t, a) && Divides(t, h)) <==> (Divides(t, a) && Divides(t, b)) {
      if Divides(t, a) && Divides(t, h) { DividesSum(t, h, h, 1, 1); }
      if Divides(t, a) && Divides(t, b) { OddDividesHalf(t, a, h); }
    }
    SameGcd(a, h, a, b);
  }

  lemma OddDividesHalf(t: int, a: nat, h: nat)
    requires t > 0 && a % 2 == 1 && Divides(t, a) && Divides(t, 2 * h)
    ensures Divides(t, h)
  {
    var k :| a == t * k;
    var l :| 2 * h == t * l;
    OddFactor(t, k);
    if l % 2 == 1 { OddProduct(t, l); }
    EvenQuotient(t, l, h);
  }

  lemma OddFactor(t: int, k: int)
    requires (t * k) % 2 == 1
    ensures t % 2 == 1
  {
    if t % 2 == 0 { EvenProduct(t / 2, k); }
  }

  lemma EvenProduct(u: int, k: int)
    ensures ((2 * u) * k) % 2 == 0
  {
    assert (2 * u) * k == 2 * (u * k);
  }

  lemma EvenQuotient(t: int, l: int, h: int)
    requires 2 * h == t * l && l % 2 == 0
    ensures Divides(t, h)
  {
    var m := l / 2;
    assert t * (2 * m) == 2 * (t * m);
    assert h == t * m;
  }

  lemma OddProduct(t: int, l: int)
    requires t % 2 == 1 && l % 2 == 1
    ensures (t * l) % 2 == 1
  {
    var x, y := t / 2, l / 2;
    assert t == 2 * x + 1 && l == 2 * y + 1;
    assert (2 * x + 1) * (2 * y + 1) == 2 * (2 * (x * y) + x + y) + 1 by {
      assert (2 * x) * (2 * y) == 4 * (x * y);
    }
  }

  lemma GcdDouble(a: nat, b: nat)
    requires a > 0 || b > 0
    ensures Gcd(2 * a, 2 * b) == 2 * Gcd(a, b)
  {
    var g := Gcd(a, b);
    GcdDivides(a, b);
    var k :| a == g * k;
    var l :| b == g * l;
    DoubleFactor(g, k);
    DoubleFactor(g, l);
    hide *;
    forall d | d > 0 && Divides(d, 2 * a) && Divides(d, 2 * b) ensures Divides(d, 2 * g) { CommonDouble(a, b, d); }
    GcdUnique(2 * a, 2 * b, 2 * g);
  }

  lemma CommonDouble(a: nat, b: nat, d: int)
    requires Divides(d, 2 * a) && Divides(d, 2 * b)
    ensures Divides(d, 2 * Gcd(a, b))
  {
    var r := ExtGcd(a, b);
    hide Divides, ExtGcd;
    DividesSum(d, 2 * a, 2 * b, r.1, r.2);
    DoubledBezout(a, b, r.1, r.2);
  }

  lemma DoubledBezout(a: int, b: int, x: int, y: int)
    ensures (2 * a) * x + (2 * b) * y == 2 * (a * x + b * y)
  {
    assert (2 * a) * x == 2 * (a * x) && (2 * b) * y == 2 * (b * y);
  }

  lemma DoubleFactor(g: int, k: int)
    ensures Divides(2 * g, 2 * (g * k))
  {
    assert 2 * (g * k) == (2 * g) * k;
  }

  lemma GcdZero(a: nat)
    ensures Gcd(a, 0) == a
  {
  }

  /** gcd: common powers of two are divided out, then odd numbers are subtracted. */
  method BinaryGcd(a0: nat, b0: nat) returns (g: nat)
    ensures g == Gcd(a0, b0)
  {
    var a, b := a0, b0;
    GcdZero(a);
    GcdSwap(a, b);
    if a == 0 { return b; }
    if b == 0 { return a; }
    var shift := 0;
    while a % 2 == 0 && b % 2 == 0
      invariant a > 0 && b > 0 && Scaled(Gcd(a, b), shift) == Gcd(a0, b0)
      decreases a
    {
      GcdDouble(a / 2, b / 2);
      ScaledStep(Gcd(a / 2, b / 2), shift);
      a, b, shift := a / 2, b / 2, shift + 1;
    }
    ghost var h := Gcd(a, b);
    while a % 2 == 0
      invariant a > 0 && b > 0 && Gcd(a, b) == h && (a % 2 == 0 ==> b % 2 == 1)
      decreases a
    {
      GcdSwap(a, b);
      GcdHalve(b, a);
      GcdSwap(a / 2, b);
      a := a / 2;
    }
    while true
      invariant a > 0 && b > 0 && a % 2 == 1 && Gcd(a, b) == h
      decreases a + b
    {
      b := StripTwos(a, b);
      if a > b {
        GcdSwap(a, b);
        a, b := b, a;
      }
      GcdSubtract(a, b);
      b := b - a;
      if b == 0 { break; }
    }
    GcdZero(a);
    g := a;
    for i := 0 to shift
      invariant g == Scaled(h, i)
    {
      g := g + g;
    }
  }

  /** while b is even: b /= 2 */
  method StripTwos(a: nat, b0: nat) returns (b: nat)
    requires a % 2 == 1 && b0 > 0
    ensures 0 < b <= b0 && b % 2 == 1 && Gcd(a, b) == Gcd(a, b0)
  {
    b := b0;
    while b % 2 == 0
      invariant 0 < b <= b0 && Gcd(a, b) == Gcd(a, b0)
      decreases b
    {
      GcdHalve(a, b);
      b := b / 2;
    }
  }

  /** g * 2^k */
  function Scaled(g: nat, k: nat): nat {
    if k == 0 then g else 2 * Scaled(g, k - 1)
  }

  lemma Unscaled(g: nat)
    ensures Scaled(g, 0) == g
  {
  }

  lemma {:induction false} ScaledStep(g: nat, k: nat)
    ensures Scaled(2 * g, k) == Scaled(g, k + 1)
  {
    if k > 0 { ScaledStep(g, k - 1); }
  }

  // ---------- Jacobi symbol ----------

  /** The laws that determine the Jacobi symbol over odd positive moduli: periodicity, the value at two, quadratic
      reciprocity, and the values at zero. */
  ghost predicate JacobiLaws(J: (nat, nat) -> int) {
    && (forall a: nat, n: nat :: n % 2 == 1 ==> J(a, n) == J(a % n, n))
    && (forall a: nat, n: nat :: n % 2 == 1 ==> J(2 * a, n) == TwoSign(n) * J(a, n))
    && (forall a, n :: a % 2 == 1 && n % 2 == 1 ==> J(a, n) == SwapSign(a, n) * J(n, a))
    && (forall n :: n % 2 == 1 ==> J(0, n) == if n == 1 then 1 else 0)
  }

  function TwoSign(n: nat): int { if n % 8 == 3 || n % 8 == 5 then -1 else 1 }

  function SwapSign(a: nat, n: nat): int { if a % 4 == 3 && n % 4 == 3 then -1 else 1 }

  /** jacobi. Its value is -1, 0 or 1, it is non-zero exactly when the arguments are coprime, and it is the Jacobi
      symbol for every function that obeys the laws of one. */
  method Jacobi(a0: nat, n0: nat, ghost J: (nat, nat) -> int) returns (r: int)
    requires n0 % 2 == 1
    ensures r == -1 || r == 0 || r == 1
    ensures r != 0 <==> Gcd(a0, n0) == 1
    ensures JacobiLaws(J) ==> r == J(a0, n0)
  {
    hide *;
    var a, n := a0 % n0, n0;
    JacobiStart(J, a0, n0);
    var result := 1;
    while a != 0
      invariant n % 2 == 1 && (result == 1 || result == -1) && 0 <= a < n && Gcd(a, n) == Gcd(a0, n0)
      invariant JacobiLaws(J) ==> J(a0, n0) == Signed(J, result, a, n)
      decreases a
    {
      a, n, result := JacobiStep(a, n, result, J);
    }
    GcdSwap(0, n);
    GcdZero(n);
    JacobiEnd(J, n, result);
    return if n == 1 then result else 0;
  }

  function Signed(J: (nat, nat) -> int, sign: int, a: nat, n: nat): int { sign * J(a, n) }

  /** One round of the loop: the sign collected makes up for the smaller arguments. */
  lemma JacobiRound(J: (nat, nat) -> int, result: int, flips: bool, a: nat, odd: nat, n: nat)
    requires odd > 0
    ensures J(a, n) == (if flips then -1 else 1) * J(odd, n) && J(odd, n) == SwapSign(odd, n) * J(n % odd, odd) ==>
      var r1 := if flips then -result else result;
      var r2 := if odd % 4 == 3 && n % 4 == 3 then -r1 else r1;
      Signed(J, result, a, n) == Signed(J, r2, n % odd, odd)
  {
    SignStep(result, flips, SwapSign(odd, n), J(a, n), J(odd, n), J(n % odd, odd));
  }

  /** One round: the twos are stripped, the arguments swapped and the larger reduced. */
  method JacobiStep(a0: nat, n0: nat, sign: int, ghost J: (nat, nat) -> int) returns (a: nat, n: nat, result: int)
    requires 0 < a0 < n0 && n0 % 2 == 1 && (sign == 1 || sign == -1)
    ensures 0 <= a < n <= a0 && n % 2 == 1 && (result == 1 || result == -1) && Gcd(a, n) == Gcd(a0, n0)
    ensures JacobiLaws(J) ==> Signed(J, sign, a0, n0) == Signed(J, result, a, n)
  {
    hide *;
    var odd, flips := StripTwosJacobi(a0, n0, J);
    JacobiSwap(J, odd, n0);
    JacobiRound(J, sign, flips, a0, odd, n0);
    result := if flips then -sign else sign;
    if odd % 4 == 3 && n0 % 4 == 3 { result := -result; }
    a, n := n0 % odd, odd;
  }

  lemma JacobiStart(J: (nat, nat) -> int, a: nat, n: nat)
    requires n % 2 == 1
    ensures Gcd(a % n, n) == Gcd(a, n) && (JacobiLaws(J) ==> J(a, n) == Signed(J, 1, a % n, n))
  {
    GcdReduce(a, n);
  }

  lemma JacobiEnd(J: (nat, nat) -> int, n: nat, result: int)
    requires n % 2 == 1
    ensures JacobiLaws(J) ==> Signed(J, result, 0, n) == if n == 1 then result else 0
  {
  }

  lemma SignStep(result: int, flips: bool, swap: int, j: int, j1: int, j2: int)
    ensures j == (if flips then -1 else 1) * j1 && j1 == swap * j2 ==>
      result * j == ((if flips then -result else result) * swap) * j2
  {
  }

  lemma GcdReduce(a: nat, n: nat)
    requires n > 0
    ensures Gcd(a % n, n) == Gcd(a, n)
  {
    GcdSwap(a % n, n);
    var q := a / n;
    assert a == n * q + a % n;
    forall t | t > 0 ensures (Divides(t, n) && Divides(t, a % n)) <==> (Divides(t, a) && Divides(t, n)) {
      if Divides(t, n) && Divides(t, a % n) { DividesSum(t, n, a % n, q, 1); }
      if Divides(t, a) && Divides(t, n) {
        DividesSum(t, a, n, 1, -q);
        assert a * 1 + n * (-q) == a % n;
      }
    }
    SameGcd(n, a % n, a, n);
  }

  lemma JacobiSwap(J: (nat, nat) -> int, a: nat, n: nat)
    requires a % 2 == 1 && n % 2 == 1
    ensures Gcd(n % a, a) == Gcd(a, n)
    ensures JacobiLaws(J) ==> J(a, n) == SwapSign(a, n) * J(n % a, a)
  {
    GcdSwap(a, n);
    GcdReduce(n, a);
    if JacobiLaws(J) {
      assert J(a, n) == SwapSign(a, n) * J(n, a);
      assert J(n, a) == J(n % a, a);
    }
  }

  /** while a is even: a /= 2, and a sign for each two. */
  method StripTwosJacobi(a0: nat, n: nat, ghost J: (nat, nat) -> int) returns (a: nat, flips: bool)
    requires a0 > 0 && n % 2 == 1
    ensures 0 < a <= a0 && a % 2 == 1 && Gcd(a, n) == Gcd(a0, n)
    ensures JacobiLaws(J) ==> J(a0, n) == (if flips then -1 else 1) * J(a, n)
  {
    a, flips := a0, false;
    while a % 2 == 0
      invariant 0 < a <= a0 && Gcd(a, n) == Gcd(a0, n)
      invariant JacobiLaws(J) ==> J(a0, n) == (if flips then -1 else 1) * J(a, n)
      decreases a
    {
      GcdSwap(a, n);
      GcdHalve(n, a);
      GcdSwap(a / 2, n);
      JacobiTwo(J, a, n);
      a := a / 2;
      if n % 8 == 3 || n % 8 == 5 { flips := !flips; }
    }
  }

  lemma JacobiTwo(J: (nat, nat) -> int, a: nat, n: nat)
    requires a % 2 == 0 && n % 2 == 1
    ensures JacobiLaws(J) ==> J(a, n) == TwoSign(n) * J(a / 2, n)
  {
    if JacobiLaws(J) {
      assert a == 2 * (a / 2);
      assert J(2 * (a / 2), n) == TwoSign(n) * J(a / 2, n);
    }
  }

  // ---------- Miller-Rabin ----------

  type Odd = p: nat | p >= 3 witness 3

  /** The odd primes below 256. */
  const PRIMES_FROM_3: seq<Odd> := [3, 5, 7, 11, 13, 17, 19, 23, 29]
  const PRIMES_FROM_31: seq<Odd> := [31, 37, 41, 43, 47, 53, 59, 61, 67]
  const PRIMES_FROM_71: seq<Odd> := [71, 73, 79, 83, 89, 97, 101, 103, 107]
  const PRIMES_FROM_109: seq<Odd> := [109, 113, 127, 131, 137, 139, 149, 151, 157]
  const PRIMES_FROM_163: seq<Odd> := [163, 167, 173, 179, 181, 191, 193, 197, 199]
  const PRIMES_FROM_211: seq<Odd> := [211, 223, 227, 229, 233, 239, 241, 251]
  const SMALL_PRIMES: seq<Odd> :=
    PRIMES_FROM_3 + PRIMES_FROM_31 + PRIMES_FROM_71 + PRIMES_FROM_109 + PRIMES_FROM_163 + PRIMES_FROM_211

  /** Modulo a prime the only square roots of one are one and minus one. */
  lemma RootsOfOne(p: nat, x: int)
    requires IsPrime(p) && Cong(x * x, 1, p)
    ensures Cong(x, 1, p) || Cong(x, -1, p)
  {
    CongSub(x * x, 1, 1, 1, p);
    assert x * x - 1 == (x - 1) * (x + 1);
    PrimeProduct(p, x - 1, x + 1);
    CongDiff(x, 1, p);
    CongDiff(x, -1, p);
  }

  /** d * 2^s */
  lemma {:induction false} ScaledPower(a: int, d: nat, s: nat)
    ensures Pow(a, Scaled(d, s + 1)) == Pow(a, Scaled(d, s)) * Pow(a, Scaled(d, s))
  {
    PowAdd(a, Scaled(d, s), Scaled(d, s));
  }

  /** What the test asks of one base: a^d is 1, or some a^(d 2^i) with i < s is -1 modulo n. */
  ghost predicate PassesBase(n: nat, a: nat, d: nat, s: nat)
    requires n > 0
  {
    Cong(Pow(a, d), 1, n) || exists i: nat, e: nat :: i < s && e == d * Pow(2, i) && Cong(Pow(a, e), -1, n)
  }

  lemma {:induction false} ScaledIs(d: nat, i: nat)
    ensures Scaled(d, i) == d * Pow(2, i)
  {
    if i > 0 {
      ScaledIs(d, i - 1);
      assert d * Pow(2, i) == 2 * (d * Pow(2, i - 1));
    } else {
      assert Pow(2, 0) == 1;
    }
  }

  /** One of the squarings gives -1. */
  ghost predicate ReachesMinusOne(n: nat, a: nat, d: nat, lo: nat, hi: nat)
    requires n > 0
  {
    exists i :: lo <= i < hi && Cong(Pow(a, Scaled(d, i)), -1, n)
  }

  lemma PassesMeans(n: nat, a: nat, d: nat, s: nat)
    requires n > 0
    ensures PassesBase(n, a, d, s) <==> Cong(Pow(a, d), 1, n) || ReachesMinusOne(n, a, d, 0, s)
  {
    hide Cong, Pow, Scaled;
    forall i: nat ensures Scaled(d, i) == d * Pow(2, i) { ScaledIs(d, i); }
    if i :| 0 <= i < s && Cong(Pow(a, Scaled(d, i)), -1, n) { assert Scaled(d, i) == d * Pow(2, i); }
  }

  /** Once a power is 1 its squarings stay 1, and 1 is not -1. */
  lemma {:induction false} OneStays(n: nat, a: nat, d: nat, i: nat, k: nat)
    requires n > 2 && i <= k && Cong(Pow(a, Scaled(d, i)), 1, n)
    ensures Cong(Pow(a, Scaled(d, k)), 1, n) && !Cong(Pow(a, Scaled(d, k)), -1, n)
    decreases k - i
  {
    if i < k {
      var p := Pow(a, Scaled(d, i));
      ScaledPower(a, d, i);
      CongMul(p, 1, p, 1, n);
      OneStays(n, a, d, i + 1, k);
    } else {
      SmallMod(1, n);
      ModUnique(-1, -1, n - 1, n);
    }
  }

  /** A residue is 1 or n - 1 exactly when the power is 1 or -1. */
  lemma ResidueMeans(n: nat, x: int, p: int)
    requires n > 2 && 0 <= x < n && Cong(x, p, n)
    ensures (x == 1 <==> Cong(p, 1, n)) && (x == n - 1 <==> Cong(p, -1, n))
  {
    SmallMod(x, n);
    SmallMod(1, n);
    ModUnique(-1, -1, n - 1, n);
  }

  /** The loop of one witness: the base passes or it does not, whatever n is. */
  method Witness(n: nat, a: nat, d: nat, s: nat) returns (pass: bool)
    requires n > 4 && n % 2 == 1 && d % 2 == 1 && s > 0 && Scaled(d, s) == n - 1 && 2 <= a <= n - 2
    ensures pass <==> PassesBase(n, a, d, s)
    ensures IsPrime(n) ==> pass
  {
    hide *;
    PassesMeans(n, a, d, s);
    var x := PowMod(a, d, n);
    ResidueOfPower(n, a, d, x);
    ResidueMeans(n, x, Pow(a, Scaled(d, 0)));
    NoSquarings(n, a, d);
    NextSquaring(n, a, d, 0, s);
    if x == 1 || x == n - 1 { return true; }
    for i := 0 to s - 1
      invariant 0 <= x < n && x != 1 && x != n - 1 && Cong(x, Pow(a, Scaled(d, i)), n)
      invariant !ReachesMinusOne(n, a, d, 0, i + 1) && !Cong(Pow(a, d), 1, n)
    {
      SquareStep(n, a, d, i, x);
      ghost var before := x;
      x := (x * x) % n;
      ResidueMeans(n, x, Pow(a, Scaled(d, i + 1)));
      NextSquaring(n, a, d, i + 1, s);
      if x == n - 1 { return true; }
      if x == 1 {
        if IsPrime(n) { OneHasOnlyTrivialRoots(n, before, x); }
        NeverMinusOne(n, a, d, i + 1, s);
        return false;
      }
    }
    if IsPrime(n) { NoNonTrivialRoot(n, a, d, s, x); }
    return false;
  }

  lemma NoSquarings(n: nat, a: nat, d: nat)
    requires n > 0
    ensures !ReachesMinusOne(n, a, d, 0, 0) && Scaled(d, 0) == d
  {
  }

  lemma NextSquaring(n: nat, a: nat, d: nat, i: nat, s: nat)
    requires n > 0
    ensures ReachesMinusOne(n, a, d, 0, i + 1) <==>
      ReachesMinusOne(n, a, d, 0, i) || Cong(Pow(a, Scaled(d, i)), -1, n)
    ensures i < s && Cong(Pow(a, Scaled(d, i)), -1, n) ==> ReachesMinusOne(n, a, d, 0, s)
  {
    hide Cong, Pow, Scaled;
  }

  lemma NeverMinusOne(n: nat, a: nat, d: nat, i: nat, s: nat)
    requires n > 2 && !ReachesMinusOne(n, a, d, 0, i) && Cong(Pow(a, Scaled(d, i)), 1, n)
    ensures !ReachesMinusOne(n, a, d, 0, s)
  {
    hide Cong, Pow, Scaled;
    forall k | i <= k < s ensures !Cong(Pow(a, Scaled(d, k)), -1, n) { OneStays(n, a, d, i, k); }
  }

  lemma ResidueOfPower(n: nat, a: nat, d: nat, x: int)
    requires n > 0 && x == PowMod(a, d, n)
    ensures 0 <= x < n && Cong(x, Pow(a, Scaled(d, 0)), n)
  {
    CongMod(Pow(a, d), n);
  }

  lemma SquareStep(n: nat, a: nat, d: nat, i: nat, x: int)
    requires n > 0 && Cong(x, Pow(a, Scaled(d, i)), n)
    ensures 0 <= (x * x) % n < n && Cong((x * x) % n, Pow(a, Scaled(d, i + 1)), n) && Cong((x * x) % n, x * x, n)
  {
    var p := Pow(a, Scaled(d, i));
    ScaledPower(a, d, i);
    CongMul(x, p, x, p, n);
    CongMod(x * x, n);
  }

  lemma OneHasOnlyTrivialRoots(n: nat, before: int, x: int)
    requires IsPrime(n) && n > 2 && 0 <= before < n && x == 1 && x == (before * before) % n
    ensures before == 1 || before == n - 1
  {
    CongMod(before * before, n);
    RootsOfOne(n, before);
    SmallMod(1, n);
    SmallMod(before, n);
    ModUnique(-1, -1, n - 1, n);
  }

  /** By Fermat the last square is one, so a prime cannot get here. */
  lemma NoNonTrivialRoot(n: nat, a: nat, d: nat, s: nat, x: int)
    requires IsPrime(n) && n > 4 && s > 0 && Scaled(d, s) == n - 1 && 2 <= a <= n - 2
    requires 0 <= x < n && Cong(x, Pow(a, Scaled(d, s - 1)), n)
    ensures x == 1 || x == n - 1
  {
    SmallMod(a, n);
    SmallMod(0, n);
    Fermat(n, a);
    SquareStep(n, a, d, s - 1, x);
    CongSmall((x * x) % n, 1, n);
    OneHasOnlyTrivialRoots(n, x, 1);
  }

  /** No prime of the list divides n. */
  ghost predicate NoListedFactor(n: nat) { forall i :: 0 <= i < |SMALL_PRIMES| ==> n % SMALL_PRIMES[i] != 0 }

  /** is_probable_prime: accepts 2, the listed primes, and exactly those odd numbers above 2 without a listed factor
      that every base passes, for the odd d with d 2^s = n - 1. A prime is never rejected, for any rounds and bases.
      */
  method IsProbablePrime(n: nat, rounds: nat, bases: nat -> nat) returns (r: bool, ghost d: nat, ghost s: nat)
    requires n > 3 ==> forall i :: 2 <= bases(i) <= n - 2
    ensures n > 2 && n % 2 == 1 && NoListedFactor(n) ==> d % 2 == 1 && d * Pow(2, s) == n - 1
    ensures r <==>
      || n == 2 || n in SMALL_PRIMES
      || (n > 2 && n % 2 == 1 && NoListedFactor(n) && forall i :: 0 <= i < rounds ==> PassesBase(n, bases(i), d, s))
    ensures IsPrime(n) ==> r
  {
    hide *;
    PrimeAtLeastTwo(n);
    SmallPrimesExact(n);
    d, s := 0, 0;
    if n == 0 || n == 1 { return false, d, s; }
    if n == 2 { return true, d, s; }
    if n % 2 == 0 {
      PrimeFactor(n, 2);
      return false, d, s;
    }
    for i := 0 to |SMALL_PRIMES|
      invariant forall k :: 0 <= k < i ==> n % SMALL_PRIMES[k] != 0
    {
      if n % SMALL_PRIMES[i] == 0 {
        PrimeFactor(n, SMALL_PRIMES[i]);
        FactorFound(n, i);
        return n == SMALL_PRIMES[i], d, s;
      }
    }
    NoFactorFound(n);
    FirstSmallPrime();
    assert n % SMALL_PRIMES[0] != 0;
    var odd, twos := n - 1, 0;
    Unscaled(odd);
    while odd % 2 == 0
      invariant odd > 0 && Scaled(odd, twos) == n - 1 && (twos == 0 ==> odd == n - 1)
      decreases odd
    {
      ScaledStep(odd / 2, twos);
      assert 2 * (odd / 2) == odd;
      odd, twos := odd / 2, twos + 1;
    }
    d, s := odd, twos;
    ScaledIs(d, s);
    for i := 0 to rounds
      invariant forall k :: 0 <= k < i ==> PassesBase(n, bases(k), d, s)
    {
      var pass := Witness(n, bases(i), odd, twos);
      if !pass { return false, d, s; }
    }
    return true, d, s;
  }

  /** The odd primes below 256, one by one. */
  ghost predicate Listed(p: nat) {
    || p in {3, 5, 7, 11, 13, 17, 19, 23, 29, 31, 37, 41, 43, 47, 53, 59, 61, 67, 71, 73, 79, 83, 89, 97}
    || p in {101, 103, 107, 109, 113, 127, 131, 137, 139, 149, 151, 157, 163, 167, 173, 179, 181, 191, 193}
    || p in {197, 199, 211, 223, 227, 229, 233, 239, 241, 251}
  }

  ghost predicate Sifted(p: nat) {
    && p % 2 != 0 && (p == 3 || p % 3 != 0) && (p == 5 || p % 5 != 0) && (p == 7 || p % 7 != 0)
    && (p == 11 || p % 11 != 0) && (p == 13 || p % 13 != 0)
  }

  lemma ListedSifted(p: nat)
    requires Listed(p)
    ensures Sifted(p)
  {
  }

  lemma InTable(p: nat)
    ensures p in SMALL_PRIMES <==> Listed(p)
    ensures Listed(p) ==> 3 <= p < 256
  {
  }

  lemma TinyPrime(r: nat)
    requires IsPrime(r) && r <= 16
    ensures r in {2, 3, 5, 7, 11, 13}
  {
    if r % 2 == 0 { PrimeFactor(r, 2); }
    if r % 3 == 0 { PrimeFactor(r, 3); }
  }

  /** Below 289 it is enough to sift by the primes up to 13. */
  lemma SiftedIsPrime(p: nat)
    requires 3 <= p < 256 && Sifted(p)
    ensures IsPrime(p)
  {
    if !IsPrime(p) {
      var d: nat :| 2 <= d < p && Divides(d, p);
      CongZero(p, d);
      SmallMod(0, d);
      var q := PrimeBelow(d, p);
      TinyFactor(p, q);
      assert false;
    }
  }

  /** A proper prime factor, or the cofactor's, is at most 16. */
  lemma TinyFactor(p: nat, q: nat)
    requires 3 <= p < 256 && IsPrime(q) && q < p && p % q == 0
    ensures !Sifted(p)
  {
    var k := p / q;
    assert p == q * k;
    if k <= 1 { MulMono(k, 1, q); }
    if q <= 16 {
      TinyPrime(q);
    } else {
      if k > 16 { MulMono(17, k, q); }
      CongFrom(p, 0, q, k);
      SmallMod(0, k);
      var r := PrimeBelow(k, p);
      TinyPrime(r);
    }
  }

  /** The table holds the numbers above, and they are primes. */
  lemma SmallPrimesExact(p: nat)
    ensures p in SMALL_PRIMES <==> Listed(p)
    ensures p in SMALL_PRIMES ==> 2 < p < 256 && p % 2 == 1 && IsPrime(p)
  {
    hide Listed, Sifted, IsPrime;
    InTable(p);
    if Listed(p) {
      ListedSifted(p);
      SiftedIsPrime(p);
      OddSifted(p);
    }
  }

  lemma OddSifted(p: nat)
    requires Sifted(p)
    ensures p % 2 == 1
  {
  }

  /** The first listed factor decides. */
  lemma FactorFound(n: nat, i: nat)
    requires n > 1 && i < |SMALL_PRIMES| && n % SMALL_PRIMES[i] == 0
    ensures !NoListedFactor(n) && (n in SMALL_PRIMES <==> n == SMALL_PRIMES[i])
  {
    hide SMALL_PRIMES, IsPrime;
    if n in SMALL_PRIMES {
      SmallPrimesExact(n);
      PrimeFactor(n, SMALL_PRIMES[i]);
    }
  }

  lemma NoFactorFound(n: nat)
    requires n > 0 && forall k :: 0 <= k < |SMALL_PRIMES| ==> n % SMALL_PRIMES[k] != 0
    ensures NoListedFactor(n) && n !in SMALL_PRIMES
  {
  }

  lemma FirstSmallPrime()
    ensures |SMALL_PRIMES| > 0 && SMALL_PRIMES[0] == 3
  {
  }

  lemma PrimeAtLeastTwo(n: nat)
    ensures IsPrime(n) ==> n >= 2
  {
  }

  /** A prime divisible by p > 1 is p. */
  lemma PrimeFactor(n: nat, p: nat)
    requires p > 1 && n > 1 && n % p == 0
    ensures IsPrime(n) ==> n == p
  {
    CongZero(n, p);
    SmallMod(0, p);
    DividesBound(p, n);
  }

  const SMALL_FACTOR_BOUND: nat := 1000

  /** has_small_factor, which tries the primes below 1000 */
  predicate HasSmallFactor(n: nat) { exists d :: 2 <= d < SMALL_FACTOR_BOUND && n % d == 0 }

  /** Trying every divisor below the bound finds no more than trying the primes. */
  lemma SmallFactorIsPrime(n: nat)
    ensures HasSmallFactor(n) <==> exists p :: 2 <= p < 1000 && IsPrime(p) && n % p == 0
  {
    if d :| 2 <= d < SMALL_FACTOR_BOUND && n % d == 0 { var p := PrimeBelow(d, n); }
  }

  lemma {:induction false} PrimeBelow(d: nat, n: nat) returns (p: nat)
    requires 2 <= d && n % d == 0
    ensures 2 <= p <= d && IsPrime(p) && n % p == 0
    decreases d
  {
    p := d;
    if !IsPrime(d) {
      var a: nat :| 2 <= a < d && Divides(a, d);
      var k :| d == a * k;
      assert n == d * (n / d) == a * (k * (n / d));
      CongFrom(n, 0, k * (n / d), a);
      SmallMod(0, a);
      p := PrimeBelow(a, n);
    }
  }

  // ---------- bits ----------

  /** bit_len */
  function BitLen(v: nat): nat { if v == 0 then 0 else 1 + BitLen(v / 2) }

  /** bit i, least significant first */
  function Bit(v: nat, i: nat): (b: nat)
    ensures b <= 1
  {
    if i == 0 then v % 2 else Bit(v / 2, i - 1)
  }

  /** v with bit i set: v | 1 << i */
  function SetBit(v: nat, i: nat): nat {
    if i == 0 then (if v % 2 == 1 then v else v + 1) else 2 * SetBit(v / 2, i - 1) + v % 2
  }

  lemma {:induction false} BitLenMonotone(v: nat, w: nat)
    requires v <= w
    ensures BitLen(v) <= BitLen(w)
  {
    if v > 0 { BitLenMonotone(v / 2, w / 2); }
  }

  /** bit_len is the exponent of the next power of two. */
  lemma {:induction false} BitLenBound(v: nat)
    ensures v < Pow(2, BitLen(v)) && (BitLen(v) > 0 ==> Pow(2, BitLen(v) - 1) <= v)
  {
    if v > 1 { BitLenBound(v / 2); }
  }

  lemma {:induction false} PowerGrows(k: nat, l: nat)
    requires k <= l
    ensures 1 <= Pow(2, k) <= Pow(2, l)
  {
    if k > 0 { PowerGrows(k - 1, l - 1); } else if l > 0 { PowerGrows(0, l - 1); }
  }

  lemma {:induction false} SetBitReads(v: nat, i: nat, k: nat)
    ensures Bit(SetBit(v, i), k) == if k == i then 1 else Bit(v, k)
  {
    if i > 0 && k > 0 { SetBitReads(v / 2, i - 1, k - 1); }
  }

  /** At least k bits means at least 2^(k-1). */
  lemma BitLenAtLeast(v: nat, k: nat)
    requires k > 0
    ensures BitLen(v) >= k <==> v >= Pow(2, k - 1)
  {
    hide *;
    BitLenBound(v);
    if BitLen(v) >= k { PowerGrows(k - 1, BitLen(v) - 1); } else { PowerGrows(BitLen(v), k - 1); }
  }

  lemma {:induction false} SetBitLength(v: nat, i: nat)
    ensures BitLen(SetBit(v, i)) == if BitLen(v) > i + 1 then BitLen(v) else i + 1
  {
    if i > 0 {
      SetBitLength(v / 2, i - 1);
      assert SetBit(v, i) / 2 == SetBit(v / 2, i - 1);
    }
  }

  lemma {:induction false} NoBits(k: nat)
    ensures Bit(0, k) == 0
  {
    if k > 0 { NoBits(k - 1); }
  }
}
