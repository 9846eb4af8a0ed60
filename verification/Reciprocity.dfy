/** The laws of the Jacobi symbol that the binary algorithm of src/ecdsatss/bn.rs uses, proved for the product of
    Legendre symbols: Gauss's lemma, Eisenstein's lattice-point argument, and the passage from primes to odd moduli. */
module Reciprocity {
  import opened NumberTheory
  import opened Bn
  import opened Residues
  import Sums

  // ---------- arrangements of 1, ..., h ----------

  function Fact(h: nat): int { if h == 0 then 1 else h * Fact(h - 1) }

  function SumTo(h: nat): int { if h == 0 then 0 else SumTo(h - 1) + h }

  function Prod(xs: seq<int>): int { if xs == [] then 1 else Prod(xs[..|xs| - 1]) * xs[|xs| - 1] }

  ghost predicate Different(xs: seq<int>) { forall i, j :: 0 <= i < j < |xs| ==> xs[i] != xs[j] }

  ghost predicate Within(xs: seq<int>, h: nat) { forall i :: 0 <= i < |xs| ==> 1 <= xs[i] <= h }

  function Without(xs: seq<int>, i: nat): (ys: seq<int>)
    requires i < |xs|
    ensures |ys| == |xs| - 1 && forall j :: 0 <= j < |ys| ==> ys[j] == xs[if j < i then j else j + 1]
  {
    xs[..i] + xs[i + 1..]
  }

  lemma StillDifferent(xs: seq<int>, i: nat, h: nat)
    requires i < |xs| && Different(xs) && Within(xs, h) && h > 0 && xs[i] == h
    ensures Different(Without(xs, i)) && Within(Without(xs, i), h - 1)
  {
    var ys := Without(xs, i);
    forall j | 0 <= j < |ys| ensures 1 <= ys[j] <= h - 1 {
      var k := if j < i then j else j + 1;
      assert ys[j] == xs[k] && k != i;
      if k < i { assert xs[k] != xs[i]; } else { assert xs[i] != xs[k]; }
    }
    forall j, k | 0 <= j < k < |ys| ensures ys[j] != ys[k] {
      assert xs[if j < i then j else j + 1] != xs[if k < i then k else k + 1];
    }
  }

  lemma FirstWithin(xs: seq<int>, h: nat)
    requires xs != [] && Within(xs, h)
    ensures h >= 1
  {
    assert 1 <= xs[0] <= h;
  }

  lemma {:induction false} Pigeonhole(xs: seq<int>, h: nat)
    requires Different(xs) && Within(xs, h)
    ensures |xs| <= h
  {
    if h == 0 {
      if xs != [] { FirstWithin(xs, h); }
    } else if i: nat :| i < |xs| && xs[i] == h {
      StillDifferent(xs, i, h);
      Pigeonhole(Without(xs, i), h - 1);
    } else {
      Pigeonhole(xs, h - 1);
    }
  }

  lemma {:induction false} TakenOut(xs: seq<int>, i: nat)
    requires i < |xs|
    ensures Prod(xs) == Prod(Without(xs, i)) * xs[i] && Sums.Sum(xs) == Sums.Sum(Without(xs, i)) + xs[i]
    decreases |xs|
  {
    var m := |xs| - 1;
    if i == m {
      assert Without(xs, i) == xs[..m];
    } else {
      TakenOut(xs[..m], i);
      assert Without(xs, i) == Without(xs[..m], i) + [xs[m]];
      assert Without(xs, i)[..|Without(xs, i)| - 1] == Without(xs[..m], i);
      SwapLast(Prod(Without(xs[..m], i)), xs[i], xs[m]);
    }
  }

  lemma TopPresent(xs: seq<int>, h: nat) returns (i: nat)
    requires |xs| == h > 0 && Different(xs) && Within(xs, h)
    ensures i < |xs| && xs[i] == h
  {
    if forall k :: 0 <= k < |xs| ==> xs[k] != h {
      Pigeonhole(xs, h - 1);
    } else {
      i :| i < |xs| && xs[i] == h;
    }
  }

  lemma NothingLeft()
    ensures Prod([]) == Fact(0) && Sums.Sum([]) == SumTo(0)
  {
  }

  lemma TopTerm(h: nat)
    requires h > 0
    ensures Fact(h) == Fact(h - 1) * h && SumTo(h) == SumTo(h - 1) + h
  {
  }

  /** h different numbers between 1 and h are those numbers in some order. */
  lemma {:induction false} Arranged(xs: seq<int>, h: nat)
    requires |xs| == h && Different(xs) && Within(xs, h)
    ensures Prod(xs) == Fact(h) && Sums.Sum(xs) == SumTo(h)
    decreases h
  {
    hide *;
    if h > 0 {
      var i := TopPresent(xs, h);
      StillDifferent(xs, i, h);
      Arranged(Without(xs, i), h - 1);
      TakenOut(xs, i);
      TopTerm(h);
    } else {
      assert xs == [];
      NothingLeft();
    }
  }

  // ---------- Gauss's lemma ----------

  function Half(p: nat): nat { if p > 0 then (p - 1) / 2 else 0 }

  /** The residue of a k of least absolute value, without its sign. */
  function Least(a: nat, p: nat, k: nat): int
    requires p > 0
  {
    if (a * k) % p > Half(p) then p - (a * k) % p else (a * k) % p
  }

  function IsBig(a: nat, p: nat, k: nat): bool
    requires p > 0
  {
    (a * k) % p > Half(p)
  }

  /** How many of a, 2a, ..., ma have their residue in the upper half. */
  function Mu(a: nat, p: nat, m: nat): nat
    requires p > 0
  {
    if m == 0 then 0 else Mu(a, p, m - 1) + if IsBig(a, p, m) then 1 else 0
  }

  function Leasts(a: nat, p: nat, m: nat): (xs: seq<int>)
    requires p > 0
    ensures |xs| == m && forall i :: 0 <= i < m ==> xs[i] == Least(a, p, i + 1)
  {
    seq(m, i requires 0 <= i < m => Least(a, p, i + 1))
  }

  function Sign(m: nat): int { if m % 2 == 0 then 1 else -1 }

  /** a k is its least residue up to sign. */
  lemma SignedResidue(a: nat, p: nat, k: nat)
    requires p > 0
    ensures Cong(a * k, if IsBig(a, p, k) then -Least(a, p, k) else Least(a, p, k), p)
  {
    var r := (a * k) % p;
    CongMod(a * k, p);
    CongFlip(r, a * k, p);
    if IsBig(a, p, k) {
      CongFrom(r, -Least(a, p, k), 1, p);
      CongTrans(a * k, r, -Least(a, p, k), p);
    }
  }

  lemma ResidueNotZero(a: nat, p: nat, k: int)
    requires OddPrime(p) && !Cong(a, 0, p) && -(p as int) < k < p && k != 0
    ensures !Cong(a * k, 0, p)
  {
    if Cong(a * k, 0, p) {
      PrimeProduct(p, a, k);
      if k > 0 {
        SmallMod(k, p);
        SmallMod(0, p);
      } else {
        CongSub(0, 0, k, 0, p);
        SmallMod(-k, p);
        SmallMod(0, p);
      }
    }
  }

  lemma OddHalf(p: nat)
    requires OddPrime(p)
    ensures p == 2 * Half(p) + 1 && Half(p) >= 1 && p >= 3
  {
  }

  lemma LeastWithin(a: nat, p: nat, k: nat)
    requires OddPrime(p) && !Cong(a, 0, p) && 1 <= k <= Half(p)
    ensures 1 <= Least(a, p, k) <= Half(p)
  {
    OddHalf(p);
    ResidueNotZero(a, p, k);
    CongZero(a * k, p);
    CongMod(a * k, p);
  }

  /** Two multiples with the same least residue have a sum or a difference that p divides. */
  lemma LeastsDiffer(a: nat, p: nat, k: nat, l: nat)
    requires OddPrime(p) && !Cong(a, 0, p) && 1 <= k < l <= Half(p)
    ensures Least(a, p, k) != Least(a, p, l)
  {
    OddHalf(p);
    if Least(a, p, k) == Least(a, p, l) {
      var x := Least(a, p, k);
      SignedResidue(a, p, k);
      SignedResidue(a, p, l);
      hide *;
      if IsBig(a, p, k) == IsBig(a, p, l) {
        var y := if IsBig(a, p, k) then -x else x;
        CongSub(a * k, y, a * l, y, p);
        Distribute(a, k, l);
        ResidueNotZero(a, p, k - l);
      } else {
        var y := if IsBig(a, p, k) then -x else x;
        CongAdd(a * k, y, a * l, -y, p);
        Distribute(a, k, l);
        ResidueNotZero(a, p, k + l);
      }
      assert false;
    }
  }

  lemma Distribute(a: int, k: int, l: int)
    ensures a * k - a * l == a * (k - l) && a * k + a * l == a * (k + l)
  {
  }

  lemma LeastsArranged(a: nat, p: nat)
    requires OddPrime(p) && !Cong(a, 0, p)
    ensures Prod(Leasts(a, p, Half(p))) == Fact(Half(p)) && Sums.Sum(Leasts(a, p, Half(p))) == SumTo(Half(p))
  {
    var xs := Leasts(a, p, Half(p));
    hide Least;
    forall i | 0 <= i < |xs| ensures 1 <= xs[i] <= Half(p) { LeastWithin(a, p, i + 1); }
    forall i, j | 0 <= i < j < |xs| ensures xs[i] != xs[j] { LeastsDiffer(a, p, i + 1, j + 1); }
    Arranged(xs, Half(p));
  }

  lemma LeastsGrow(a: nat, p: nat, m: nat)
    requires p > 0 && m > 0
    ensures Leasts(a, p, m)[..m - 1] == Leasts(a, p, m - 1)
    ensures Prod(Leasts(a, p, m)) == Prod(Leasts(a, p, m - 1)) * Least(a, p, m)
    ensures Sums.Sum(Leasts(a, p, m)) == Sums.Sum(Leasts(a, p, m - 1)) + Least(a, p, m)
  {
    hide Least;
    assert Leasts(a, p, m)[..m - 1] == Leasts(a, p, m - 1);
  }

  /** a^m m! is the product of the least residues, up to the sign that Mu counts. */
  lemma {:induction false} GaussProduct(a: nat, p: nat, m: nat)
    requires p > 0
    ensures Cong(Pow(a, m) * Fact(m), Sign(Mu(a, p, m)) * Prod(Leasts(a, p, m)), p)
  {
    if m == 0 {
      assert Leasts(a, p, 0) == [];
    } else {
      GaussProduct(a, p, m - 1);
      LeastsGrow(a, p, m);
      SignedResidue(a, p, m);
      MuStep(a, p, m);
      FactStep(a, m);
      hide *;
      var s := if IsBig(a, p, m) then -1 else 1;
      GaussStep(p, Pow(a, m - 1) * Fact(m - 1), Sign(Mu(a, p, m - 1)), Prod(Leasts(a, p, m - 1)), a * m, s,
        Least(a, p, m));
    }
  }

  lemma MuStep(a: nat, p: nat, m: nat)
    requires p > 0 && m > 0
    ensures Sign(Mu(a, p, m)) == Sign(Mu(a, p, m - 1)) * if IsBig(a, p, m) then -1 else 1
  {
    hide IsBig;
  }

  lemma FactStep(a: int, m: nat)
    requires m > 0
    ensures Pow(a, m) * Fact(m) == (Pow(a, m - 1) * Fact(m - 1)) * (a * m)
  {
    Reorder(a, Pow(a, m - 1), m, Fact(m - 1));
  }

  lemma Reorder(a: int, x: int, m: int, f: int)
    ensures (a * x) * (m * f) == (x * f) * (a * m)
  {
    assert (a * x) * (m * f) == ((a * x) * m) * f;
    assert (x * f) * (a * m) == ((x * f) * a) * m;
    assert ((a * x) * m) * f == ((a * x) * f) * m;
  }

  lemma GaussStep(p: int, left: int, sign: int, prod: int, am: int, s: int, least: int)
    requires p > 0 && Cong(left, sign * prod, p) && Cong(am, s * least, p)
    ensures Cong(left * am, (sign * s) * (prod * least), p)
  {
    CongMul(left, sign * prod, am, s * least, p);
    assert (sign * prod) * (s * least) == (sign * s) * (prod * least) by { Reorder(sign, prod, s,
      least); Rearranged(sign, prod, s, least); }
  }

  lemma Rearranged(a: int, b: int, c: int, d: int)
    ensures (a * b) * (c * d) == (a * c) * (b * d)
  {
    assert (a * b) * (c * d) == a * (b * (c * d));
    assert b * (c * d) == c * (b * d);
    assert a * (c * (b * d)) == (a * c) * (b * d);
  }

  lemma {:induction false} FactUnit(p: nat, m: nat)
    requires IsPrime(p) && m < p
    ensures !Cong(Fact(m), 0, p)
  {
    SmallMod(0, p);
    if m == 0 {
      SmallMod(1, p);
    } else {
      FactUnit(p, m - 1);
      SmallMod(m, p);
      if Cong(Fact(m), 0, p) { PrimeProduct(p, m, Fact(m - 1)); }
    }
  }

  /** Gauss's lemma: the Legendre symbol is the parity of the residues in the upper half. */
  lemma GaussLemma(a: nat, p: nat)
    requires OddPrime(p) && !Cong(a, 0, p)
    ensures Legendre(a, p) == Sign(Mu(a, p, Half(p)))
  {
    var h := Half(p);
    OddHalf(p);
    GaussProduct(a, p, h);
    LeastsArranged(a, p);
    FactUnit(p, h);
    LegendreEuler(a, p);
    HalfIs(p);
    hide *;
    var s := Sign(Mu(a, p, h));
    PrimeOf(p);
    PrimeCoprime(p, Fact(h));
    SwapBoth(Pow(a, h), s, Fact(h));
    CancelCoprime(Fact(h), Pow(a, h), s, p);
    CongFlip(Pow(a, h), Legendre(a, p), p);
    CongTrans(Legendre(a, p), Pow(a, h), s, p);
    SignRange(Mu(a, p, h));
    LegendreRange(a, p);
    SignsDistinct(Legendre(a, p), s, p);
  }

  lemma HalfIs(p: nat)
    requires p > 0
    ensures Half(p) == (p - 1) / 2
  {
  }

  lemma PrimeOf(p: nat)
    requires OddPrime(p)
    ensures IsPrime(p)
  {
  }

  lemma SignRange(m: nat)
    ensures Sign(m) == 1 || Sign(m) == -1
  {
  }

  lemma LegendreRange(a: int, p: nat)
    requires p > 0
    ensures -1 <= Legendre(a, p) <= 1
  {
  }

  lemma SwapBoth(x: int, s: int, f: int)
    ensures x * f == f * x && s * f == f * s
  {
  }

  // ---------- Eisenstein's form ----------

  /** floor(a/p) + floor(2a/p) + ... + floor(ma/p) */
  function Floors(a: nat, p: nat, m: nat): int
    requires p > 0
  {
    if m == 0 then 0 else Floors(a, p, m - 1) + (a * m) / p
  }

  lemma {:induction false} FloorParity(a: nat, p: nat, m: nat)
    requires p % 2 == 1
    ensures (a * SumTo(m) - Floors(a, p, m) - Sums.Sum(Leasts(a, p, m)) - Mu(a, p, m)) % 2 == 0
  {
    hide *;
    if m == 0 {
      ParityStart(a, p);
    } else {
      FloorParity(a, p, m - 1);
      LeastsGrow(a, p, m);
      ParityTerms(a, p, m);
      TermParity(a, p, m);
      EvenSum(a * SumTo(m - 1) - Floors(a, p, m - 1) - Sums.Sum(Leasts(a, p, m - 1)) - Mu(a, p, m - 1),
        a * m - (a * m) / p - Least(a, p, m) - if IsBig(a, p, m) then 1 else 0);
    }
  }

  lemma ParityStart(a: nat, p: nat)
    requires p > 0
    ensures a * SumTo(0) - Floors(a, p, 0) - Sums.Sum(Leasts(a, p, 0)) - Mu(a, p, 0) == 0
  {
    assert Leasts(a, p, 0) == [];
  }

  lemma ParityTerms(a: nat, p: nat, m: nat)
    requires p > 0 && m > 0
    ensures a * SumTo(m) == a * SumTo(m - 1) + a * m && Floors(a, p, m) == Floors(a, p, m - 1) + (a * m) / p
    ensures Mu(a, p, m) == Mu(a, p, m - 1) + if IsBig(a, p, m) then 1 else 0
  {
    hide IsBig;
    Spread(a, SumTo(m - 1), m);
  }

  lemma Spread(a: int, s: int, m: int)
    ensures a * (s + m) == a * s + a * m
  {
  }

  lemma EvenSum(x: int, y: int)
    requires x % 2 == 0 && y % 2 == 0
    ensures (x + y) % 2 == 0
  {
  }

  lemma TermParity(a: nat, p: nat, m: nat)
    requires p % 2 == 1
    ensures (a * m - (a * m) / p - Least(a, p, m) - if IsBig(a, p, m) then 1 else 0) % 2 == 0
  {
    var x, f, r := a * m, (a * m) / p, (a * m) % p;
    DivisionIs(x, p);
    OddTimes(p, f);
  }

  lemma DivisionIs(x: int, p: int)
    requires p > 0
    ensures x == p * (x / p) + x % p && 0 <= x % p < p
  {
  }

  lemma OddTimes(p: int, f: int)
    requires p % 2 == 1
    ensures (p * f - f) % 2 == 0
  {
    var k := p / 2;
    assert p * f - f == 2 * (k * f);
  }

  /** For odd a the sign is that of the floors. */
  lemma Eisenstein(a: nat, p: nat)
    requires OddPrime(p) && !Cong(a, 0, p) && a % 2 == 1
    ensures Floors(a, p, Half(p)) >= 0 && Legendre(a, p) == Sign(Floors(a, p, Half(p)))
  {
    hide *;
    OddHalf(p);
    GaussLemma(a, p);
    LeastsArranged(a, p);
    FloorParity(a, p, Half(p));
    FloorsPositive(a, p, Half(p));
    OddTimes(a, SumTo(Half(p)));
    SameParity(a * SumTo(Half(p)), SumTo(Half(p)), Floors(a, p, Half(p)), Mu(a, p, Half(p)));
    SignOfParity(Floors(a, p, Half(p)), Mu(a, p, Half(p)));
  }

  lemma SameParity(x: int, s: int, f: int, m: int)
    requires (x - f - s - m) % 2 == 0 && (x - s) % 2 == 0
    ensures f % 2 == m % 2
  {
  }

  lemma SignOfParity(f: nat, m: nat)
    requires f % 2 == m % 2
    ensures Sign(f) == Sign(m)
  {
  }

  lemma {:induction false} FloorsPositive(a: nat, p: nat, m: nat)
    requires p > 0
    ensures Floors(a, p, m) >= 0
  {
    if m > 0 {
      FloorsPositive(a, p, m - 1);
      assert a * m >= 0;
      FloorPositive(a * m, p);
    }
  }

  lemma FloorPositive(x: nat, p: nat)
    requires p > 0
    ensures x / p >= 0
  {
  }

  // ---------- the value at two ----------

  lemma {:induction false} NoFloors(p: nat, m: nat)
    requires p > 0 && 2 * m < p
    ensures Floors(2, p, m) == 0
  {
    if m > 0 {
      NoFloors(p, m - 1);
      ModUnique(2 * m, 0, 2 * m, p);
    }
  }

  lemma {:induction false} SumToIs(h: nat)
    ensures 2 * SumTo(h) == h * (h + 1)
  {
    if h > 0 { SumToIs(h - 1); }
  }

  /** Two is a square modulo p exactly when p is 1 or 7 modulo 8. */
  lemma LegendreTwo(p: nat)
    requires OddPrime(p)
    ensures Legendre(2, p) == TwoSign(p)
  {
    hide *;
    var h := Half(p);
    OddHalf(p);
    TwoIsUnit(p);
    GaussLemma(2, p);
    LeastsArranged(2, p);
    FloorParity(2, p, h);
    NoFloors(p, h);
    SumToParity(p);
    TwoParity(SumTo(h), Mu(2, p, h));
    SignByParity(Mu(2, p, h), TwoSign(p));
    TwoSignRange(p);
  }

  lemma TwoIsUnit(p: nat)
    requires p >= 3
    ensures !Cong(2, 0, p)
  {
    SmallMod(2, p);
    SmallMod(0, p);
  }

  lemma TwoParity(s: int, m: int)
    requires (2 * s - 0 - s - m) % 2 == 0
    ensures s % 2 == m % 2
  {
  }

  lemma SignByParity(m: nat, t: int)
    requires m % 2 == (if t == 1 then 0 else 1)
    ensures Sign(m) == if t == 1 then 1 else -1
  {
  }

  lemma TwoSignRange(n: nat)
    ensures TwoSign(n) == 1 || TwoSign(n) == -1
  {
  }

  lemma SumToParity(p: nat)
    requires p % 2 == 1
    ensures SumTo(Half(p)) % 2 == if TwoSign(p) == 1 then 0 else 1
  {
    hide *;
    var h := Half(p);
    var k, r := h / 4, h % 4;
    HalfParts(p, k, r);
    SumToIs(h);
    ProductModFour(k, r);
    HalfOfEven(SumTo(h), (4 * k + r) * (4 * k + r + 1));
  }

  lemma HalfParts(p: nat, k: int, r: int)
    requires p % 2 == 1 && k == Half(p) / 4 && r == Half(p) % 4
    ensures Half(p) == 4 * k + r && 0 <= r < 4 && (TwoSign(p) == 1 <==> r == 0 || r == 3)
  {
    assert p == 8 * k + 2 * r + 1;
  }

  lemma ProductModFour(k: int, r: int)
    requires 0 <= r < 4
    ensures ((4 * k + r) * (4 * k + r + 1)) % 4 == if r == 0 || r == 3 then 0 else 2
  {
    var c := 4 * (k * k) + (2 * r + 1) * k;
    assert (4 * k + r) * (4 * k + r + 1) == 4 * c + r * (r + 1) by { SquareOut(k, r); }
    assert r * (r + 1) == if r == 0 then 0 else if r == 1 then 2 else if r == 2 then 6 else 12;
  }

  lemma SquareOut(k: int, r: int)
    ensures (4 * k + r) * (4 * k + r + 1) == 4 * (4 * (k * k) + (2 * r + 1) * k) + r * (r + 1)
  {
    assert (4 * k + r) * (4 * k + r + 1) == (4 * k) * (4 * k) + (4 * k) * (r + 1) + r * (4 * k) + r * (r + 1);
    assert (4 * k) * (r + 1) + r * (4 * k) == 4 * ((2 * r + 1) * k);
  }

  lemma HalfOfEven(s: int, x: int)
    requires 2 * s == x
    ensures s % 2 == if x % 4 == 0 then 0 else 1
  {
  }

  // ---------- lattice points ----------

  /** How many of p, 2p, ..., jp are below x. */
  function Below(p: nat, x: nat, j: nat): int {
    if j == 0 then 0 else Below(p, x, j - 1) + if p * j < x then 1 else 0
  }

  lemma {:induction false} BelowIs(p: nat, x: nat, j: nat)
    requires p > 0 && x % p != 0
    ensures Below(p, x, j) == if j <= x / p then j else x / p
  {
    if j > 0 {
      BelowIs(p, x, j - 1);
      MultipleBelow(p, x, j);
      hide *;
    } else {
      QuotientPositive(x, p);
    }
  }

  lemma MultipleBelow(p: nat, x: nat, j: nat)
    requires p > 0 && x % p != 0
    ensures p * j < x <==> j <= x / p
    ensures j > 0 ==> Below(p, x, j) == Below(p, x, j - 1) + if p * j < x then 1 else 0
  {
    DivisionIs(x, p);
    var k, r := x / p, x % p;
    if j <= k { MulMono(j, k, p); } else { MulMono(k + 1, j, p); }
  }

  lemma QuotientPositive(x: nat, p: nat)
    requires p > 0
    ensures x / p >= 0 && Below(p, x, 0) == 0
  {
  }

  /** Points (k, l) with 1 <= k <= h and 1 <= l <= j below the diagonal p l = q k, counted by k. */
  function Rows(p: nat, q: nat, h: nat, j: nat): int { if h == 0 then 0 else Rows(p, q, h - 1, j) + Below(p, q * h, j) }

  /** Points above it, counted by l. */
  function Columns(p: nat, q: nat, h: nat, j: nat): int {
    if j == 0 then 0 else Columns(p, q, h, j - 1) + Below(q, p * j, h)
  }

  /** Points above it in column k. */
  function Above(p: nat, q: nat, k: nat, j: nat): int {
    if j == 0 then 0 else Above(p, q, k, j - 1) + if q * k < p * j then 1 else 0
  }

  lemma {:induction false} ColumnsStep(p: nat, q: nat, h: nat, j: nat)
    requires h > 0
    ensures Columns(p, q, h, j) == Columns(p, q, h - 1, j) + Above(p, q, h, j)
  {
    if j > 0 { ColumnsStep(p, q, h, j - 1); }
  }

  ghost predicate OffDiagonal(p: nat, q: nat, h: nat, j: nat) {
    forall k, l :: 1 <= k <= h && 1 <= l <= j ==> p * l != q * k
  }

  lemma {:induction false} BelowAndAbove(p: nat, q: nat, k: nat, j: nat)
    requires forall l :: 1 <= l <= j ==> p * l != q * k
    ensures Below(p, q * k, j) + Above(p, q, k, j) == j
  {
    if j > 0 {
      BelowAndAbove(p, q, k, j - 1);
      assert p * j != q * k;
    }
  }

  lemma {:induction false} Lattice(p: nat, q: nat, h: nat, j: nat)
    requires OffDiagonal(p, q, h, j)
    ensures Rows(p, q, h, j) + Columns(p, q, h, j) == h * j
  {
    if h > 0 {
      Lattice(p, q, h - 1, j);
      ColumnsStep(p, q, h, j);
      BelowAndAbove(p, q, h, j);
      assert h * j == (h - 1) * j + j;
    } else {
      NoColumns(p, q, j);
    }
  }

  lemma {:induction false} NoColumns(p: nat, q: nat, j: nat)
    ensures Columns(p, q, 0, j) == 0
  {
    if j > 0 { NoColumns(p, q, j - 1); }
  }

  lemma MultipleBound(p: nat, q: nat, k: nat)
    requires OddPrime(p) && OddPrime(q) && 1 <= k <= Half(p)
    ensures (q * k) / p <= Half(q)
  {
    OddHalf(p);
    OddHalf(q);
    var h, j := Half(p), Half(q);
    hide *;
    MulMono(k, h, q);
    if (q * k) / p > j {
      DivisionIs(q * k, p);
      MulMono(j + 1, (q * k) / p, p);
      BoundAlgebra(p, q, h, j);
    }
  }

  lemma BoundAlgebra(p: int, q: int, h: int, j: int)
    requires p == 2 * h + 1 && q == 2 * j + 1 && h >= 0 && j >= 0
    ensures h * q < (j + 1) * p
  {
    assert h * (2 * j + 1) == 2 * (h * j) + h;
    assert (j + 1) * (2 * h + 1) == 2 * (h * j) + j + 2 * h + 1;
  }

  lemma PrimesApart(p: nat, q: nat, k: nat)
    requires OddPrime(p) && OddPrime(q) && p != q && 1 <= k < p
    ensures !Cong(q * k, 0, p) && !Cong(q, 0, p) && (q * k) % p != 0
  {
    SmallMod(0, p);
    SmallMod(k, p);
    CongZero(q, p);
    CongZero(q * k, p);
    if Cong(q, 0, p) { OddHalf(p); DividesPrime(p, q); }
    if Cong(q * k, 0, p) { PrimeProduct(p, q, k); }
  }

  lemma DividesPrime(p: nat, q: nat)
    requires IsPrime(q) && p >= 2 && Divides(p, q)
    ensures p == q
  {
    DividesBound(p, q);
  }

  lemma {:induction false} RowsAreFloors(p: nat, q: nat, h: nat)
    requires OddPrime(p) && OddPrime(q) && p != q && h <= Half(p)
    ensures Rows(p, q, h, Half(q)) == Floors(q, p, h)
  {
    if h > 0 {
      RowsAreFloors(p, q, h - 1);
      OddHalf(p);
      PrimesApart(p, q, h);
      MultipleBound(p, q, h);
      BelowIs(p, q * h, Half(q));
    }
  }

  lemma {:induction false} ColumnsAreFloors(p: nat, q: nat, j: nat)
    requires OddPrime(p) && OddPrime(q) && p != q && j <= Half(q)
    ensures Columns(p, q, Half(p), j) == Floors(p, q, j)
  {
    if j > 0 {
      ColumnsAreFloors(p, q, j - 1);
      OddHalf(q);
      PrimesApart(q, p, j);
      MultipleBound(q, p, j);
      BelowIs(q, p * j, Half(p));
    }
  }

  lemma NoneOnDiagonal(p: nat, q: nat)
    requires OddPrime(p) && OddPrime(q) && p != q
    ensures OffDiagonal(p, q, Half(p), Half(q))
  {
    forall k, l | 1 <= k <= Half(p) && 1 <= l <= Half(q) ensures p * l != q * k {
      OddHalf(p);
      PrimesApart(p, q, k);
      if p * l == q * k {
        ModUnique(q * k, l, 0, p);
        assert false;
      }
    }
  }

  // ---------- reciprocity for primes ----------

  lemma SignAdds(f: nat, g: nat)
    ensures Sign(f) * Sign(g) == Sign(f + g)
  {
  }

  lemma SignOfProduct(p: nat, q: nat)
    requires p % 2 == 1 && q % 2 == 1
    ensures Half(p) * Half(q) >= 0 && Sign(Half(p) * Half(q)) == SwapSign(p, q)
  {
    ModProduct(Half(p), Half(q), 2);
    HalfOdd(p);
    HalfOdd(q);
    hide Half;
    ProductSign(Half(p), Half(q));
  }

  lemma HalfOdd(p: nat)
    requires p % 2 == 1
    ensures Half(p) % 2 == 1 <==> p % 4 == 3
  {
    HalfDoubles(p);
    hide Half;
    DoubleModFour(Half(p));
  }

  lemma HalfDoubles(p: nat)
    requires p % 2 == 1
    ensures p == 2 * Half(p) + 1
  {
  }

  lemma DoubleModFour(h: nat)
    ensures (2 * h + 1) % 4 == if h % 2 == 1 then 3 else 1
  {
  }

  lemma ProductSign(h: nat, j: nat)
    requires (h * j) % 2 == ((h % 2) * (j % 2)) % 2
    ensures h * j >= 0 && Sign(h * j) == if h % 2 == 1 && j % 2 == 1 then -1 else 1
  {
    if h % 2 == 1 && j % 2 == 1 { assert (h % 2) * (j % 2) == 1; } else { assert (h % 2) * (j % 2) == 0; }
  }

  /** Quadratic reciprocity for two odd primes. */
  lemma PrimeReciprocity(p: nat, q: nat)
    requires OddPrime(p) && OddPrime(q) && p != q
    ensures Legendre(q, p) * Legendre(p, q) == SwapSign(p, q)
    ensures Legendre(q, p) == SwapSign(p, q) * Legendre(p, q)
  {
    hide *;
    OddHalf(p);
    OddHalf(q);
    PrimesApart(p, q, 1);
    PrimesApart(q, p, 1);
    Eisenstein(q, p);
    Eisenstein(p, q);
    NoneOnDiagonal(p, q);
    Lattice(p, q, Half(p), Half(q));
    RowsAreFloors(p, q, Half(p));
    ColumnsAreFloors(p, q, Half(q));
    SignAdds(Floors(q, p, Half(p)), Floors(p, q, Half(q)));
    SignOfProduct(p, q);
    SignRange(Floors(p, q, Half(q)));
    SignMoves(Legendre(q, p), Legendre(p, q), SwapSign(p, q));
  }

  lemma SignMoves(l: int, m: int, s: int)
    requires (m == 1 || m == -1) && l * m == s
    ensures l == s * m
  {
  }

  // ---------- odd moduli ----------

  lemma FactorProper(n: nat)
    requires n > 1 && n % 2 == 1
    ensures var f := LeastFactor(n, 2); OddPrime(f) && n == f * (n / f) && 0 < n / f < n && (n / f) % 2 == 1
  {
    var f := LeastFactor(n, 2);
    var m := n / f;
    QuotientSmaller(n, f);
    forall d | 2 <= d < f ensures !Divides(d, f) {
      if Divides(d, f) {
        DividesThrough(d, f, m);
        DividesIsZeroMod(d, n);
      }
    }
    OddFactors(f, m);
  }

  lemma DividesThrough(d: int, f: int, m: int)
    requires Divides(d, f)
    ensures Divides(d, f * m)
  {
    var k :| f == d * k;
    assert f * m == d * (k * m);
  }

  lemma OddFactors(f: nat, m: nat)
    requires (f * m) % 2 == 1
    ensures f % 2 == 1 && m % 2 == 1
  {
    if f % 2 == 0 || m % 2 == 0 { EvenFactor(f, m); }
  }

  lemma EvenFactor(f: nat, m: nat)
    requires f % 2 == 0 || m % 2 == 0
    ensures (f * m) % 2 == 0
  {
    ModProduct(f, m, 2);
    assert (f % 2) * (m % 2) == 0;
  }

  lemma SymbolStep(a: nat, n: nat)
    requires n > 1
    ensures LeastFactor(n, 2) > 0 && n / LeastFactor(n, 2) >= 0
    ensures Symbol(a, n) == Legendre(a, LeastFactor(n, 2)) * Symbol(a, n / LeastFactor(n, 2))
  {
    QuotientSmaller(n, LeastFactor(n, 2));
    hide Legendre, LeastFactor;
  }

  lemma SymbolAtOne(a: nat)
    ensures Symbol(a, 1) == 1
  {
  }

  lemma {:induction false} SymbolMul(a: nat, b: nat, n: nat)
    requires n % 2 == 1
    ensures a * b >= 0 && Symbol(a * b, n) == Symbol(a, n) * Symbol(b, n)
    decreases n
  {
    assert a * b >= 0;
    hide *;
    if n > 1 {
      var f := LeastFactor(n, 2);
      FactorProper(n);
      SymbolMul(a, b, n / f);
      LegendreMul(a, b, f);
      SymbolStep(a, n);
      SymbolStep(b, n);
      SymbolStep(a * b, n);
      Rearranged(Legendre(a, f), Legendre(b, f), Symbol(a, n / f), Symbol(b, n / f));
    } else {
      SymbolAtOne(a);
      SymbolAtOne(b);
      SymbolAtOne(a * b);
    }
  }

  lemma CongDivisor(a: int, b: int, d: int, e: int)
    requires d > 0 && e > 0 && d * e > 0 && Cong(a, b, d * e)
    ensures Cong(a, b, d) && Cong(a, b, e)
  {
    var k := CongWitness(a, b, d * e);
    assert k * (d * e) == (k * e) * d && k * (d * e) == (k * d) * e;
    CongFrom(a, b, k * e, d);
    CongFrom(a, b, k * d, e);
  }

  lemma {:induction false} SymbolCong(a: nat, b: nat, n: nat)
    requires n % 2 == 1 && Cong(a, b, n)
    ensures Symbol(a, n) == Symbol(b, n)
    decreases n
  {
    hide *;
    if n > 1 {
      var f := LeastFactor(n, 2);
      FactorProper(n);
      OddHalf(f);
      CongDivisor(a, b, f, n / f);
      SymbolCong(a, b, n / f);
      LegendreCong(a, b, f);
      SymbolStep(a, n);
      SymbolStep(b, n);
    } else {
      SymbolAtOne(a);
      SymbolAtOne(b);
    }
  }

  lemma TwoSignMul(f: nat, m: nat)
    requires f % 2 == 1 && m % 2 == 1
    ensures f * m >= 0 && TwoSign(f * m) == TwoSign(f) * TwoSign(m)
  {
    ModProduct(f, m, 8);
    OddModEight(f);
    OddModEight(m);
    TwoSignTable(f % 8, m % 8);
    assert f * m >= 0;
    TwoSignMod(f);
    TwoSignMod(m);
    TwoSignMod(f * m);
    TwoSignMod((f % 8) * (m % 8));
    hide *;
  }

  lemma TwoSignMod(n: nat)
    ensures TwoSign(n % 8) == TwoSign(n)
  {
  }

  lemma OddModEight(n: nat)
    requires n % 2 == 1
    ensures n % 8 == 1 || n % 8 == 3 || n % 8 == 5 || n % 8 == 7
  {
    var q, r := n / 8, n % 8;
    DivisionIs(n, 8);
    CongFrom(n, r, 4 * q, 2);
    hide *;
    OddBelowEight(r);
  }

  lemma OddBelowEight(r: nat)
    requires r < 8 && r % 2 == 1
    ensures r == 1 || r == 3 || r == 5 || r == 7
  {
  }

  lemma TwoSignTable(a: nat, b: nat)
    requires (a == 1 || a == 3 || a == 5 || a == 7) && (b == 1 || b == 3 || b == 5 || b == 7)
    ensures a * b >= 0 && TwoSign(a * b) == TwoSign(a) * TwoSign(b)
  {
  }

  lemma ModProduct(f: nat, m: nat, k: nat)
    requires k > 0
    ensures (f * m) % k == ((f % k) * (m % k)) % k
  {
    CongMod(f, k);
    CongMod(m, k);
    CongMul(f % k, f, m % k, m, k);
  }

  lemma {:induction false} SymbolOfTwoIs(n: nat)
    requires n % 2 == 1
    ensures Symbol(2, n) == TwoSign(n)
    decreases n
  {
    hide *;
    if n > 1 {
      var f := LeastFactor(n, 2);
      FactorProper(n);
      OddHalf(f);
      SymbolOfTwoIs(n / f);
      LegendreTwo(f);
      SymbolStep(2, n);
      TwoSignMul(f, n / f);
    } else {
      SymbolAtOne(2);
      TwoSignOne();
    }
  }

  lemma TwoSignOne()
    ensures TwoSign(1) == 1
  {
  }

  lemma {:induction false} SymbolAtZero(n: nat)
    requires n % 2 == 1
    ensures Symbol(0, n) == if n == 1 then 1 else 0
  {
    hide *;
    if n > 1 {
      FactorProper(n);
      OddHalf(LeastFactor(n, 2));
      SymbolStep(0, n);
      LegendreZero(0, LeastFactor(n, 2));
    } else {
      SymbolAtOne(0);
    }
  }

  lemma LegendreZero(a: int, p: nat)
    requires p > 0
    ensures a % p == 0 ==> Legendre(a, p) == 0
    ensures Legendre(0, p) == 0
  {
    SmallMod(0, p);
  }

  lemma LegendreOne(p: nat)
    requires p > 1
    ensures Legendre(1, p) == 1
  {
    SmallMod(1, p);
    OnePower((p - 1) / 2);
  }

  lemma {:induction false} OnePower(k: nat)
    ensures Pow(1, k) == 1
  {
    if k > 0 { OnePower(k - 1); }
  }

  lemma SwapSignMul(a: nat, f: nat, m: nat)
    requires a % 2 == 1 && f % 2 == 1 && m % 2 == 1
    ensures SwapSign(a, f * m) == SwapSign(a, f) * SwapSign(a, m)
    ensures SwapSign(f * m, a) == SwapSign(f, a) * SwapSign(m, a)
  {
    ModProduct(f, m, 4);
  }

  lemma SwapSignOne(a: nat)
    ensures SwapSign(a, 1) == 1 && SwapSign(1, a) == 1
  {
  }

  /** Reciprocity between an odd prime and any odd number. */
  lemma {:induction false} PrimeTop(p: nat, n: nat)
    requires OddPrime(p) && n % 2 == 1
    ensures Symbol(p, n) == SwapSign(p, n) * Legendre(n, p)
    decreases n
  {
    hide *;
    OddHalf(p);
    if n > 1 {
      var f, m := LeastFactor(n, 2), n / LeastFactor(n, 2);
      FactorProper(n);
      OddHalf(f);
      PrimeTop(p, m);
      SymbolStep(p, n);
      LegendreMul(f, m, p);
      if f == p {
        ModUnique(p, 1, 0, p);
        LegendreZero(p, p);
      } else {
        PrimeReciprocity(f, p);
        SwapSignMul(p, f, m);
        SwapSignFlip(p, f);
        Rearranged(SwapSign(p, f), Legendre(f, p), SwapSign(p, m), Legendre(m, p));
      }
    } else {
      SymbolAtOne(p);
      SwapSignOne(p);
      LegendreOne(p);
    }
  }

  lemma SwapSignFlip(a: nat, n: nat)
    ensures SwapSign(a, n) == SwapSign(n, a)
  {
  }

  /** Reciprocity for odd numbers. */
  lemma {:induction false} SymbolSwap(a: nat, n: nat)
    requires a % 2 == 1 && n % 2 == 1
    ensures Symbol(a, n) == SwapSign(a, n) * Symbol(n, a)
    decreases a
  {
    hide *;
    if a > 1 {
      var f, b := LeastFactor(a, 2), a / LeastFactor(a, 2);
      FactorProper(a);
      OddHalf(f);
      SymbolMul(f, b, n);
      PrimeTop(f, n);
      SymbolSwap(b, n);
      SymbolStep(n, a);
      SwapSignMul(n, f, b);
      Rearranged(SwapSign(f, n), Legendre(n, f), SwapSign(b, n), Symbol(n, b));
    } else {
      SymbolOneTop(n);
      SymbolAtOne(n);
      SwapSignOne(n);
    }
  }

  lemma {:induction false} SymbolOneTop(n: nat)
    requires n % 2 == 1
    ensures Symbol(1, n) == 1
    decreases n
  {
    hide *;
    if n > 1 {
      FactorProper(n);
      OddHalf(LeastFactor(n, 2));
      SymbolOneTop(n / LeastFactor(n, 2));
      SymbolStep(1, n);
      LegendreOne(LeastFactor(n, 2));
    } else {
      SymbolAtOne(1);
    }
  }

  /** The product of Legendre symbols obeys all the laws of the Jacobi symbol. */
  lemma SymbolLaws()
    ensures JacobiLaws(Symbol)
  {
    hide Symbol, TwoSign, SwapSign;
    forall a: nat, n: nat | n % 2 == 1 ensures Symbol(a, n) == Symbol(a % n, n) {
      CongMod(a, n);
      SymbolCong(a % n, a, n);
    }
    forall a: nat, n: nat | n % 2 == 1 ensures Symbol(2 * a, n) == TwoSign(n) * Symbol(a, n) {
      SymbolMul(2, a, n);
      SymbolOfTwoIs(n);
    }
    forall a: nat, n: nat | a % 2 == 1 && n % 2 == 1 ensures Symbol(a, n) == SwapSign(a, n) * Symbol(n,
      a) { SymbolSwap(a, n); }
    forall n: nat | n % 2 == 1 ensures Symbol(0, n) == if n == 1 then 1 else 0 { SymbolAtZero(n); }
  }

  /** jacobi computes the Jacobi symbol. */
  method JacobiSymbol(a: nat, n: nat) returns (r: int)
    requires n % 2 == 1
    ensures r == Symbol(a, n) && (r == -1 || r == 0 || r == 1) && (r != 0 <==> Gcd(a, n) == 1)
  {
    hide *;
    SymbolLaws();
    r := Jacobi(a, n, Symbol);
  }
}
