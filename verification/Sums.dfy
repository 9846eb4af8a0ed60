/** Sums over a committee, and the matrix argument behind pairwise products: additive shares of all cross products add
    up to the product of the sums. */
module Sums {
  import opened NumberTheory
  import opened Committee

  /** The sum of all values. */
  function Sum(xs: seq<int>): int { if xs == [] then 0 else Sum(xs[..|xs| - 1]) + xs[|xs| - 1] }

  lemma SumPush(xs: seq<int>, x: int)
    ensures Sum(xs + [x]) == Sum(xs) + x
  {
    assert (xs + [x])[..|xs|] == xs;
  }

  /** The values of the peers from the k-th on. */
  function PeersSum(xs: seq<int>, me: nat, k: nat): int
    requires me < |xs|
    decreases |xs| - k
  {
    if k + 1 >= |xs| then 0 else xs[Other(me, k)] + PeersSum(xs, me, k + 1)
  }

  /** The sum of the values from position k on. */
  function Tail(xs: seq<int>, k: nat): int
    decreases |xs| - k
  {
    if k >= |xs| then 0 else xs[k] + Tail(xs, k + 1)
  }

  lemma {:induction false} TailIsSum(xs: seq<int>, k: nat)
    requires k <= |xs|
    ensures Sum(xs[..k]) + Tail(xs, k) == Sum(xs)
    decreases |xs| - k
  {
    if k < |xs| {
      TailIsSum(xs, k + 1);
      assert xs[..k + 1] == xs[..k] + [xs[k]];
      SumPush(xs[..k], xs[k]);
    } else {
      assert xs[..k] == xs;
    }
  }

  lemma {:induction false} PeersAndOwn(xs: seq<int>, me: nat, k: nat)
    requires me < |xs| && k < |xs|
    ensures PeersSum(xs, me, k) == if k <= me then Tail(xs, k) - xs[me] else Tail(xs, k + 1)
    decreases |xs| - k
  {
    if k + 1 < |xs| {
      PeersAndOwn(xs, me, k + 1);
      if k == me { assert Tail(xs, k) == xs[k] + Tail(xs, k + 1); }
    } else if k == me {
      assert Tail(xs, k) == xs[k] + Tail(xs, k + 1);
    }
  }

  /** Own value first, then the peers': the total over the committee. */
  lemma PeersTotal(xs: seq<int>, me: nat)
    requires me < |xs|
    ensures xs[me] + PeersSum(xs, me, 0) == Sum(xs)
  {
    PeersAndOwn(xs, me, 0);
    TailIsSum(xs, 0);
    assert xs[..0] == [];
  }

  lemma {:induction false} SumCong(n: int, xs: seq<int>, ys: seq<int>)
    requires n > 0 && |xs| == |ys| && forall i :: 0 <= i < |xs| ==> Cong(xs[i], ys[i], n)
    ensures Cong(Sum(xs), Sum(ys), n)
    decreases |xs|
  {
    if xs != [] {
      var m := |xs| - 1;
      SumCong(n, xs[..m], ys[..m]);
      CongAdd(Sum(xs[..m]), Sum(ys[..m]), xs[m], ys[m], n);
    }
  }

  /** c times every value */
  function Scaled(c: int, xs: seq<int>): (ys: seq<int>)
    ensures |ys| == |xs| && forall i :: 0 <= i < |xs| ==> ys[i] == c * xs[i]
  {
    seq(|xs|, i requires 0 <= i < |xs| => c * xs[i])
  }

  lemma {:induction false} SumScaled(c: int, xs: seq<int>)
    ensures Sum(Scaled(c, xs)) == c * Sum(xs)
    decreases |xs|
  {
    if xs != [] {
      var m := |xs| - 1;
      SumScaled(c, xs[..m]);
      assert Scaled(c, xs)[..m] == Scaled(c, xs[..m]);
      assert c * (Sum(xs[..m]) + xs[m]) == c * Sum(xs[..m]) + c * xs[m];
    }
  }

  function Plus(xs: seq<int>, ys: seq<int>): (zs: seq<int>)
    requires |xs| == |ys|
    ensures |zs| == |xs| && forall i :: 0 <= i < |xs| ==> zs[i] == xs[i] + ys[i]
  {
    seq(|xs|, i requires 0 <= i < |xs| => xs[i] + ys[i])
  }

  lemma {:induction false} SumPlus(xs: seq<int>, ys: seq<int>)
    requires |xs| == |ys|
    ensures Sum(Plus(xs, ys)) == Sum(xs) + Sum(ys)
    decreases |xs|
  {
    if xs != [] {
      var m := |xs| - 1;
      SumPlus(xs[..m], ys[..m]);
      assert Plus(xs, ys)[..m] == Plus(xs[..m], ys[..m]);
    }
  }

  // ---------- rows and columns ----------

  type Matrix = (nat, nat) -> int

  /** Row i without the diagonal. */
  function OffRow(f: Matrix, i: nat, n: nat): int {
    if n == 0 then 0 else OffRow(f, i, n - 1) + if n - 1 == i then 0 else f(i, n - 1)
  }

  function OffRows(f: Matrix, m: nat, n: nat): int {
    if m == 0 then 0 else OffRows(f, m - 1, n) + OffRow(f, m - 1, n)
  }

  function Column(f: Matrix, j: nat, m: nat): int { if m == 0 then 0 else Column(f, j, m - 1) + f(m - 1, j) }

  function Flip(f: Matrix): Matrix { (i: nat, j: nat) => f(j, i) }

  lemma {:induction false} WiderRows(f: Matrix, m: nat, n: nat)
    requires m <= n
    ensures OffRows(f, m, n + 1) == OffRows(f, m, n) + Column(f, n, m)
  {
    if m > 0 { WiderRows(f, m - 1, n); }
  }

  lemma {:induction false} LastRow(f: Matrix, n: nat, k: nat)
    requires k <= n
    ensures OffRow(f, n, k) == Column(Flip(f), n, k)
  {
    if k > 0 { LastRow(f, n, k - 1); }
  }

  /** Summing off the diagonal by rows or by columns is the same. */
  lemma {:induction false} Transposed(f: Matrix, n: nat)
    ensures OffRows(f, n, n) == OffRows(Flip(f), n, n)
  {
    if n > 0 {
      Transposed(f, n - 1);
      WiderRows(f, n - 1, n - 1);
      WiderRows(Flip(f), n - 1, n - 1);
      LastRow(f, n - 1, n - 1);
      LastRow(Flip(f), n - 1, n - 1);
      FlipTwice(f, n - 1, n - 1);
      assert OffRow(f, n - 1, n) == OffRow(f, n - 1, n - 1);
      assert OffRow(Flip(f), n - 1, n) == OffRow(Flip(f), n - 1, n - 1);
    }
  }

  lemma {:induction false} FlipTwice(f: Matrix, j: nat, m: nat)
    ensures Column(Flip(Flip(f)), j, m) == Column(f, j, m)
  {
    if m > 0 { FlipTwice(f, j, m - 1); }
  }

  function Added(f: Matrix, g: Matrix): Matrix { (i: nat, j: nat) => f(i, j) + g(i, j) }

  lemma {:induction false} RowAdded(f: Matrix, g: Matrix, i: nat, n: nat)
    ensures OffRow(Added(f, g), i, n) == OffRow(f, i, n) + OffRow(g, i, n)
  {
    if n > 0 { RowAdded(f, g, i, n - 1); }
  }

  lemma {:induction false} RowsAdded(f: Matrix, g: Matrix, m: nat, n: nat)
    ensures OffRows(Added(f, g), m, n) == OffRows(f, m, n) + OffRows(g, m, n)
  {
    if m > 0 {
      RowsAdded(f, g, m - 1, n);
      RowAdded(f, g, m - 1, n);
    }
  }

  lemma {:induction false} RowCong(q: int, f: Matrix, g: Matrix, i: nat, n: nat)
    requires q > 0 && forall j: nat :: j < n && j != i ==> Cong(f(i, j), g(i, j), q)
    ensures Cong(OffRow(f, i, n), OffRow(g, i, n), q)
  {
    if n > 0 {
      RowCong(q, f, g, i, n - 1);
      if n - 1 != i {
        CongAdd(OffRow(f, i, n - 1), OffRow(g, i, n - 1), f(i, n - 1), g(i, n - 1), q);
      }
    }
  }

  ghost predicate AgreeOff(q: int, f: Matrix, g: Matrix, m: nat, n: nat)
    requires q > 0
  {
    forall i: nat, j: nat :: i < m && j < n && i != j ==> Cong(f(i, j), g(i, j), q)
  }

  lemma {:induction false} RowsCong(q: int, f: Matrix, g: Matrix, m: nat, n: nat)
    requires q > 0 && AgreeOff(q, f, g, m, n)
    ensures Cong(OffRows(f, m, n), OffRows(g, m, n), q)
  {
    if m > 0 {
      RowsCong(q, f, g, m - 1, n);
      RowCong(q, f, g, m - 1, n);
      CongAdd(OffRows(f, m - 1, n), OffRows(g, m - 1, n), OffRow(f, m - 1, n), OffRow(g, m - 1, n), q);
    }
  }

  /** a_i b_j */
  function Products(a: seq<int>, b: seq<int>): Matrix {
    (i: nat, j: nat) => if i < |a| && j < |b| then a[i] * b[j] else 0
  }

  lemma {:induction false} ProductRow(a: seq<int>, b: seq<int>, i: nat, n: nat)
    requires i < |a| == |b| && n <= |b|
    ensures OffRow(Products(a, b), i, n) == a[i] * Sum(b[..n]) - if i < n then a[i] * b[i] else 0
  {
    if n > 0 {
      ProductRow(a, b, i, n - 1);
      assert b[..n] == b[..n - 1] + [b[n - 1]];
      SumPush(b[..n - 1], b[n - 1]);
      assert a[i] * (Sum(b[..n - 1]) + b[n - 1]) == a[i] * Sum(b[..n - 1]) + a[i] * b[n - 1];
    } else {
      assert b[..0] == [];
    }
  }

  function Diagonal(a: seq<int>, b: seq<int>): (d: seq<int>)
    requires |a| == |b|
    ensures |d| == |a| && forall i :: 0 <= i < |a| ==> d[i] == a[i] * b[i]
  {
    seq(|a|, i requires 0 <= i < |a| => a[i] * b[i])
  }

  lemma {:induction false} ProductRows(a: seq<int>, b: seq<int>, m: nat)
    requires m <= |a| == |b|
    ensures OffRows(Products(a, b), m, |b|) + Sum(Diagonal(a, b)[..m]) == Sum(a[..m]) * Sum(b)
  {
    if m > 0 {
      var x, y := a[m - 1], b[m - 1];
      ProductRows(a, b, m - 1);
      ProductRow(a, b, m - 1, |b|);
      assert b[..|b|] == b;
      assert a[..m] == a[..m - 1] + [x];
      assert Diagonal(a, b)[..m] == Diagonal(a, b)[..m - 1] + [x * y];
      assert OffRows(Products(a, b), m, |b|) == OffRows(Products(a, b), m - 1, |b|) + OffRow(Products(a, b), m - 1,
        |b|);
      hide *;
      SumPush(a[..m - 1], x);
      SumPush(Diagonal(a, b)[..m - 1], x * y);
      ProductStep(OffRows(Products(a, b), m - 1, |b|), OffRow(Products(a, b), m - 1, |b|), Sum(Diagonal(a, b)[..m - 1]),
        x, y, Sum(a[..m - 1]), Sum(b));
    } else {
      assert a[..0] == [] && Diagonal(a, b)[..0] == [];
    }
  }

  lemma ProductStep(rows: int, row: int, d: int, x: int, y: int, s: int, t: int)
    requires rows + d == s * t && row == x * t - x * y
    ensures (rows + row) + (d + x * y) == (s + x) * t
  {
  }

  /** Shares: party i holds its own product, its conversion outputs mine(i, j) as first party and theirs(i, j) as
      second. */
  ghost predicate HoldsShares(q: int, a: seq<int>, b: seq<int>, mine: Matrix, theirs: Matrix, shares: seq<int>)
    requires q > 0
  {
    && |a| == |b| == |shares|
    && (forall i :: 0 <= i < |a| ==> Cong(shares[i], a[i] * b[i] + OffRow(Added(mine, theirs), i, |a|), q))
    && forall i: nat, j: nat :: i < |a| && j < |a| && i != j ==> Cong(mine(i, j) + theirs(j, i), a[i] * b[j], q)
  }

  lemma HoldsFrom(q: int, a: seq<int>, b: seq<int>, mine: Matrix, theirs: Matrix, shares: seq<int>)
    requires q > 0 && |a| == |b| == |shares|
    requires forall i :: 0 <= i < |a| ==> Cong(shares[i], a[i] * b[i] + OffRow(Added(mine, theirs), i, |a|), q)
    requires forall i: nat, j: nat :: i < |a| && j < |a| && i != j ==> Cong(mine(i, j) + theirs(j, i), a[i] * b[j], q)
    ensures HoldsShares(q, a, b, mine, theirs, shares)
  {
    hide Cong, OffRow, Added;
  }

  /** The shares of the cross products add up to the product of the sums. */
  lemma SharesOfProduct(q: int, a: seq<int>, b: seq<int>, mine: Matrix, theirs: Matrix, shares: seq<int>)
    requires q > 0 && HoldsShares(q, a, b, mine, theirs, shares)
    ensures Cong(Sum(shares), Sum(a) * Sum(b), q)
  {
    hide *;
    var n := |a|;
    var both := Added(mine, Flip(theirs));
    ShareSum(q, a, b, mine, theirs, shares);
    RowsAdded(mine, theirs, n, n);
    RowsAdded(mine, Flip(theirs), n, n);
    Transposed(theirs, n);
    PairsMatch(q, a, b, mine, theirs, shares);
    RowsCong(q, both, Products(a, b), n, n);
    ProductSum(a, b);
    SumFinish(q, Sum(shares), Sum(Diagonal(a, b)), OffRows(both, n, n), OffRows(Products(a, b), n, n));
  }

  lemma SumFinish(q: int, s: int, d: int, r: int, r': int)
    requires q > 0 && Cong(s, d + r, q) && Cong(r, r', q)
    ensures Cong(s, d + r', q)
  {
    CongAdd(d, d, r, r', q);
  }

  lemma PairsMatch(q: int, a: seq<int>, b: seq<int>, mine: Matrix, theirs: Matrix, shares: seq<int>)
    requires q > 0 && HoldsShares(q, a, b, mine, theirs, shares)
    ensures |a| == |b| && AgreeOff(q, Added(mine, Flip(theirs)), Products(a, b), |a|, |a|)
  {
    hide Cong, OffRow;
  }

  lemma ProductSum(a: seq<int>, b: seq<int>)
    requires |a| == |b|
    ensures OffRows(Products(a, b), |a|, |a|) + Sum(Diagonal(a, b)) == Sum(a) * Sum(b)
  {
    ProductRows(a, b, |a|);
    assert Diagonal(a, b)[..|a|] == Diagonal(a, b) && a[..|a|] == a;
  }

  lemma ShareSum(q: int, a: seq<int>, b: seq<int>, mine: Matrix, theirs: Matrix, shares: seq<int>)
    requires q > 0 && HoldsShares(q, a, b, mine, theirs, shares)
    ensures |a| == |b| && Cong(Sum(shares), Sum(Diagonal(a, b)) + OffRows(Added(mine, theirs), |a|, |a|), q)
  {
    ShareRows(q, a, b, mine, theirs, shares, |a|);
    assert shares[..|a|] == shares && Diagonal(a, b)[..|a|] == Diagonal(a, b);
  }

  lemma {:induction false} ShareRows(q: int, a: seq<int>, b: seq<int>, mine: Matrix, theirs: Matrix, shares: seq<int>,
    m: nat)
    requires q > 0 && HoldsShares(q, a, b, mine, theirs, shares) && m <= |a|
    ensures Cong(Sum(shares[..m]), Sum(Diagonal(a, b)[..m]) + OffRows(Added(mine, theirs), m, |a|), q)
  {
    hide Cong, OffRow, Added;
    if m > 0 {
      ShareRows(q, a, b, mine, theirs, shares, m - 1);
      assert shares[..m] == shares[..m - 1] + [shares[m - 1]];
      assert Diagonal(a, b)[..m] == Diagonal(a, b)[..m - 1] + [a[m - 1] * b[m - 1]];
      SumPush(shares[..m - 1], shares[m - 1]);
      SumPush(Diagonal(a, b)[..m - 1], a[m - 1] * b[m - 1]);
      CongAdd(Sum(shares[..m - 1]), Sum(Diagonal(a, b)[..m - 1]) + OffRows(Added(mine, theirs), m - 1, |a|),
        shares[m - 1], a[m - 1] * b[m - 1] + OffRow(Added(mine, theirs), m - 1, |a|), q);
    } else {
      assert shares[..0] == [] && Diagonal(a, b)[..0] == [];
      CongSelf(0, q);
    }
  }

  /** Values of the row of a matrix as a sequence. */
  function RowOf(f: Matrix, i: nat, n: nat): (xs: seq<int>)
    ensures |xs| == n && forall j :: 0 <= j < n ==> xs[j] == f(i, j)
  {
    seq(n, j requires 0 <= j < n => f(i, j))
  }

  lemma {:induction false} OffRowIs(f: Matrix, i: nat, n: nat, k: nat)
    requires i < n && k <= n
    ensures OffRow(f, i, k) == Sum(RowOf(f, i, n)[..k]) - if i < k then f(i, i) else 0
  {
    var xs := RowOf(f, i, n);
    if k > 0 {
      OffRowIs(f, i, n, k - 1);
      assert xs[..k] == xs[..k - 1] + [xs[k - 1]];
      SumPush(xs[..k - 1], xs[k - 1]);
    } else {
      assert xs[..0] == [];
    }
  }

  lemma OffRowPeers(f: Matrix, i: nat, n: nat)
    requires i < n
    ensures OffRow(f, i, n) == PeersSum(RowOf(f, i, n), i, 0)
  {
    OffRowIs(f, i, n, n);
    PeersTotal(RowOf(f, i, n), i);
    assert RowOf(f, i, n)[..n] == RowOf(f, i, n);
  }
}
