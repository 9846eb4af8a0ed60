/** SoftSpoken/KOS OT extension (src/dklstss/otext.rs).

    The PRG and the hashes are uninterpreted functions of an Oracle. */
module OtExtension {
  import NumberTheory
  import opened Bits
  import opened Results

  const KAPPA: nat := 128
  const DELTA_BYTES: nat := 16
  const SIGMA: nat := 80
  const SIGMA_BYTES: nat := 10

  /** The uninterpreted primitives: seed expansion, row hash, coin hash and the base-OT key hash. */
  datatype Oracle = Oracle(
    prg: (bytes, bytes, nat) -> bytes,
    hashRow: (bytes, nat, bytes) -> bytes,
    coin: (bytes, seq<bytes>, nat) -> bytes,
    deriveKey: (bytes, nat, bool, int) -> bytes,
    challengeLabel: bytes)
  {
    /** The expansion has the requested length. */
    ghost predicate Valid() {
      forall seed, sid, n :: |prg(seed, sid, n)| == n
    }
  }

  datatype ExtSender = ExtSender(delta: bytes, seeds: seq<bytes>) {
    predicate Valid() { |delta| == DELTA_BYTES && |seeds| == KAPPA }
  }

  datatype ExtReceiver = ExtReceiver(seeds0: seq<bytes>, seeds1: seq<bytes>) {
    predicate Valid() { |seeds0| == KAPPA && |seeds1| == KAPPA }
  }

  /** The receiver's message; the fixed array sizes of x and t are part of its type in the source. */
  datatype ExtendMsg = ExtendMsg(l: nat, u: seq<bytes>, x: bytes, t: seq<bytes>) {
    predicate Shaped() {
      |x| == SIGMA_BYTES && |t| == SIGMA && forall h :: 0 <= h < SIGMA ==> |t[h]| == DELTA_BYTES
    }
  }

  datatype OtError = BadBaseOt | BadLength | WrongRowCount | WrongRowLength | ShortChoice | CheckFailed

  function SenderFromBase(delta: bytes, keys: seq<bytes>): (r: Result<ExtSender, OtError>)
    ensures r.Ok? <==> |delta| == 16 && |keys| == 128
    ensures r.Ok? ==> r.value.Valid()
  {
    if |delta| != DELTA_BYTES || |keys| != KAPPA then Err(BadBaseOt) else Ok(ExtSender(delta, keys))
  }

  function ReceiverFromBase(k0: seq<bytes>, k1: seq<bytes>): (r: Result<ExtReceiver, OtError>)
    ensures r.Ok? <==> |k0| == |k1| == 128
    ensures r.Ok? ==> r.value.Valid()
  {
    if |k0| != KAPPA || |k1| != KAPPA then Err(BadBaseOt) else Ok(ExtReceiver(k0, k1))
  }

  // ---------- challenges ----------

  lemma SliceBounds(h: nat, lb: nat)
    requires h < SIGMA
    ensures 0 <= h * lb <= (h + 1) * lb <= SIGMA * lb
    ensures (h + 1) * lb - h * lb == lb
  {
    hide *;
    NumberTheory.MulMono(0, h, lb);
    NumberTheory.MulMono(h, h + 1, lb);
    NumberTheory.MulMono(h + 1, SIGMA, lb);
  }

  /** The sigma challenge vectors, slices of one expansion bound to (sid, l, u). */
  function Challenge(o: Oracle, sid: bytes, u: seq<bytes>, l: nat, h: nat): (chi: bytes)
    requires o.Valid() && h < SIGMA
    ensures |chi| == l / 8
  {
    var lb := l / 8;
    SliceBounds(h, lb);
    o.prg(o.coin(sid, u, l), o.challengeLabel, SIGMA * lb)[h * lb..(h + 1) * lb]
  }

  /** Bit i of challenge vector h: the vectors follow one another in the expansion bound to (sid, l, u). */
  function ChiBit(o: Oracle, sid: bytes, u: seq<bytes>, l: nat, h: nat, i: nat): bool
    requires o.Valid() && h < SIGMA && i < 8 * (l / 8)
  {
    var lb := l / 8;
    SliceBounds(h, lb);
    BitAt(o.prg(o.coin(sid, u, l), o.challengeLabel, SIGMA * lb), 8 * (h * lb) + i)
  }

  /** The inner product over GF(2) of the first m bits of challenge vector h and of a row. */
  function ChiDot(o: Oracle, sid: bytes, u: seq<bytes>, l: nat, h: nat, row: bytes, m: nat): bool
    requires o.Valid() && h < SIGMA && m <= 8 * (l / 8) && m <= 8 * |row|
  {
    m > 0 && ChiDot(o, sid, u, l, h, row, m - 1) != (ChiBit(o, sid, u, l, h, m - 1) && BitAt(row, m - 1))
  }

  lemma ChallengeBit(o: Oracle, sid: bytes, u: seq<bytes>, l: nat, h: nat, i: nat)
    requires o.Valid() && h < SIGMA && i < 8 * (l / 8)
    ensures BitAt(Challenge(o, sid, u, l, h), i) == ChiBit(o, sid, u, l, h, i)
  {
    hide Bit;
    var lb := l / 8;
    SliceBounds(h, lb);
    SliceBit(o.prg(o.coin(sid, u, l), o.challengeLabel, SIGMA * lb), h * lb, (h + 1) * lb, i);
  }

  lemma SliceBit(b: bytes, lo: nat, hi: nat, i: nat)
    requires lo <= hi <= |b| && i < 8 * (hi - lo)
    ensures BitAt(b[lo..hi], i) == BitAt(b, 8 * lo + i)
  {
    assert (8 * lo + i) / 8 == lo + i / 8 && (8 * lo + i) % 8 == i % 8;
  }

  /** The sigma challenge vectors joined in order are the expansion. */
  lemma ChallengesJoined(o: Oracle, sid: bytes, u: seq<bytes>, l: nat, h: nat)
    requires o.Valid() && h <= SIGMA
    ensures 0 <= h * (l / 8) <= SIGMA * (l / 8)
    ensures Joined(o, sid, u, l, h) == o.prg(o.coin(sid, u, l), o.challengeLabel, SIGMA * (l / 8))[..h * (l / 8)]
  {
    NumberTheory.MulMono(h, SIGMA, l / 8);
    NumberTheory.MulMono(0, h, l / 8);
    if h > 0 {
      ChallengesJoined(o, sid, u, l, h - 1);
      SliceBounds(h - 1, l / 8);
    }
  }

  function Joined(o: Oracle, sid: bytes, u: seq<bytes>, l: nat, h: nat): bytes
    requires o.Valid() && h <= SIGMA
  {
    if h == 0 then [] else Joined(o, sid, u, l, h - 1) + Challenge(o, sid, u, l, h - 1)
  }

  lemma {:induction false} ChiDotIs(o: Oracle, sid: bytes, u: seq<bytes>, l: nat, h: nat, row: bytes, m: nat)
    requires o.Valid() && h < SIGMA && m <= 8 * (l / 8) && m <= 8 * |row|
    ensures Dot(Challenge(o, sid, u, l, h), row, m) == ChiDot(o, sid, u, l, h, row, m)
  {
    hide Challenge, ChiBit, BitAt;
    if m > 0 {
      ChiDotIs(o, sid, u, l, h, row, m - 1);
      ChallengeBit(o, sid, u, l, h, m - 1);
    }
  }

  // ---------- in-place bit kernels ----------

  /** cur is was with the selected ones of the first m rows XORed in. */
  ghost predicate Selected(cur: bytes, was: bytes, chi: bytes, rows: seq<bytes>, m: nat)
    requires |cur| == |was| == DELTA_BYTES && m <= 8 * |chi| && m <= |rows|
    requires forall i :: 0 <= i < |rows| ==> |rows[i]| == DELTA_BYTES
  {
    forall j :: 0 <= j < KAPPA ==> BitAt(cur, j) == (BitAt(was, j) != DotColumn(chi, rows, j, m))
  }

  function Covered(k: nat, l: nat): (m: nat)
    ensures m <= k && m <= l
  {
    if k <= l then k else l
  }

  /** out ^= sum of rows[i] over the i < l with chi[i] = 1 (the code's early exits included). */
  method XorSelectedRows(chi: bytes, rows: seq<bytes>, l: nat, out: array<byte>)
    requires out.Length == DELTA_BYTES
    requires l <= |rows| && forall i :: 0 <= i < |rows| ==> |rows[i]| == DELTA_BYTES
    modifies out
    ensures Selected(out[..], old(out[..]), chi, rows, Covered(8 * |chi|, l))
  {
    ghost var was := out[..];
    for byteIdx := 0 to |chi|
      invariant Selected(out[..], was, chi, rows, Covered(8 * byteIdx, l))
    {
      if chi[byteIdx] == 0 {
        SkipZeroByte(out[..], was, chi, rows, byteIdx, l);
        continue;
      }
      XorSelectedByte(chi, rows, l, byteIdx, out, was);
    }
  }

  /** The rows selected by one byte of the challenge. */
  method XorSelectedByte(chi: bytes, rows: seq<bytes>, l: nat, byteIdx: nat, out: array<byte>, ghost was: bytes)
    requires out.Length == |was| == DELTA_BYTES && byteIdx < |chi|
    requires l <= |rows| && forall i :: 0 <= i < |rows| ==> |rows[i]| == DELTA_BYTES
    requires Selected(out[..], was, chi, rows, Covered(8 * byteIdx, l))
    modifies out
    ensures Selected(out[..], was, chi, rows, Covered(8 * (byteIdx + 1), l))
  {
    hide Bit, DotColumn;
    var base := byteIdx * 8;
    for bit := 0 to 8
      invariant Selected(out[..], was, chi, rows, Covered(base + bit, l))
    {
      var i := base + bit;
      assert Bit(chi[byteIdx], bit) == BitAt(chi, i);
      if Bit(chi[byteIdx], bit) {
        if i >= l {
          break;
        }
        SelectRow(out[..], was, chi, rows, i);
        XorInto(out, rows[i]);
      } else {
        PassRow(out[..], was, chi, rows, i, l);
      }
    }
  }

  lemma SelectRow(cur: bytes, was: bytes, chi: bytes, rows: seq<bytes>, i: nat)
    requires |cur| == |was| == DELTA_BYTES && i < 8 * |chi| && i < |rows|
    requires forall i :: 0 <= i < |rows| ==> |rows[i]| == DELTA_BYTES
    requires Selected(cur, was, chi, rows, i) && BitAt(chi, i)
    ensures Selected(XorBytes(cur, rows[i]), was, chi, rows, i + 1)
  {
    forall j | 0 <= j < KAPPA
      ensures BitAt(XorBytes(cur, rows[i]), j) == (BitAt(was, j) != DotColumn(chi, rows, j, i + 1))
    {
      XorBytesBit(cur, rows[i], j);
    }
  }

  lemma PassRow(cur: bytes, was: bytes, chi: bytes, rows: seq<bytes>, i: nat, l: nat)
    requires |cur| == |was| == DELTA_BYTES && i < 8 * |chi| && l <= |rows|
    requires forall i :: 0 <= i < |rows| ==> |rows[i]| == DELTA_BYTES
    requires Selected(cur, was, chi, rows, Covered(i, l)) && !BitAt(chi, i)
    ensures Selected(cur, was, chi, rows, Covered(i + 1, l))
  {
  }

  lemma SkipZeroByte(cur: bytes, was: bytes, chi: bytes, rows: seq<bytes>, b: nat, l: nat)
    requires |cur| == |was| == DELTA_BYTES && b < |chi| && chi[b] == 0 && l <= |rows|
    requires forall i :: 0 <= i < |rows| ==> |rows[i]| == DELTA_BYTES
    requires Selected(cur, was, chi, rows, Covered(8 * b, l))
    ensures Selected(cur, was, chi, rows, Covered(8 * (b + 1), l))
  {
    forall i | 8 * b <= i < 8 * (b + 1) ensures !BitAt(chi, i) { ZeroBits(i % 8); }
    forall j | 0 <= j < KAPPA ensures
      DotColumn(chi, rows, j, Covered(8 * (b + 1), l)) == DotColumn(chi, rows, j, Covered(8 * b, l))
    {
      DotColumnSkip(chi, rows, j, Covered(8 * b, l), Covered(8 * (b + 1), l));
    }
  }

  method XorInto(out: array<byte>, row: bytes)
    requires out.Length == |row|
    modifies out
    ensures out[..] == XorBytes(old(out[..]), row)
  {
    for b := 0 to out.Length
      invariant forall k :: 0 <= k < b ==> out[k] == old(out[k]) ^ row[k]
      invariant forall k :: b <= k < out.Length ==> out[k] == old(out[k])
    {
      out[b] := out[b] ^ row[b];
    }
  }

  ghost predicate Sized(m: seq<bytes>, rows: nat, rowBytes: nat) {
    |m| == rows && forall i :: 0 <= i < rows ==> |m[i]| == rowBytes
  }

  /** Rows below r, and the first c bits of row r, have been written; everything else is clear. */
  ghost predicate Transposed(out: seq<bytes>, input: seq<bytes>, cols: nat, r: nat, c: nat)
    requires |input| % 8 == 0 && cols % 8 == 0
    requires Sized(input, |input|, cols / 8) && Sized(out, cols, |input| / 8)
  {
    forall d: nat, k: nat {:trigger BitAt(out[d], k)} :: d < cols && k < |input| ==>
      BitAt(out[d], k) == ((k < r || (k == r && d < c)) && BitAt(input[k], d))
  }

  /** Transposes a packed bit matrix: row i of the result is column i of the input. */
  method TransposeBits(input: seq<bytes>, rows: nat, cols: nat) returns (out: seq<bytes>)
    requires rows % 8 == 0 && cols % 8 == 0 && Sized(input, rows, cols / 8)
    ensures |out| == cols
    ensures forall i :: 0 <= i < cols ==> out[i] == Column(input, i)
  {
    hide Bit, BitAt, SetBitAt;
    var colBytes, rowBytes := cols / 8, rows / 8;
    out := seq(cols, _ => seq(rowBytes, _ => 0));
    ZeroMatrix(out, input, cols);
    for r := 0 to rows
      invariant Sized(out, cols, rowBytes) && Transposed(out, input, cols, r, 0)
    {
      for cByte := 0 to colBytes
        invariant Sized(out, cols, rowBytes) && Transposed(out, input, cols, r, 8 * cByte)
      {
        var b := input[r][cByte];
        var base := cByte * 8;
        for cBit := 0 to 8
          invariant Sized(out, cols, rowBytes) && Transposed(out, input, cols, r, base + cBit)
        {
          ByteBitAt(input[r], cByte, cBit);
          TransposeStep(out, input, cols, r, base + cBit);
          out := out[base + cBit := SetBitAt(out[base + cBit], r, Bit(b, cBit))];
        }
      }
      NextRow(out, input, cols, r);
    }
    forall i | 0 <= i < cols ensures out[i] == Column(input, i) {
      forall k | 0 <= k < 8 * |out[i]| ensures BitAt(out[i], k) == BitAt(Column(input, i), k) {
        ColumnBit(input, i, k);
      }
      BytesExt(out[i], Column(input, i));
    }
  }

  lemma TransposeStep(out: seq<bytes>, input: seq<bytes>, cols: nat, r: nat, c: nat)
    requires |input| % 8 == 0 && cols % 8 == 0
    requires Sized(input, |input|, cols / 8) && Sized(out, cols, |input| / 8)
    requires r < |input| && c < cols && Transposed(out, input, cols, r, c)
    ensures var out' := out[c := SetBitAt(out[c], r, BitAt(input[r], c))];
      Sized(out', cols, |input| / 8) && Transposed(out', input, cols, r, c + 1)
  {
    var bit := BitAt(input[r], c);
    var out' := out[c := SetBitAt(out[c], r, bit)];
    forall d: nat, k: nat | d < cols && k < |input|
      ensures BitAt(out'[d], k) == ((k < r || (k == r && d < c + 1)) && BitAt(input[k], d))
    {
      assert BitAt(out[d], k) == ((k < r || (k == r && d < c)) && BitAt(input[k], d));
      if d == c { SetBitAtBit(out[c], r, bit, k); }
    }
  }

  lemma NextRow(out: seq<bytes>, input: seq<bytes>, cols: nat, r: nat)
    requires |input| % 8 == 0 && cols % 8 == 0
    requires Sized(input, |input|, cols / 8) && Sized(out, cols, |input| / 8)
    requires Transposed(out, input, cols, r, cols)
    ensures Transposed(out, input, cols, r + 1, 0)
  {
  }

  lemma ZeroMatrix(out: seq<bytes>, input: seq<bytes>, cols: nat)
    requires |input| % 8 == 0 && cols % 8 == 0
    requires Sized(input, |input|, cols / 8) && Sized(out, cols, |input| / 8)
    requires forall i, b :: 0 <= i < cols && 0 <= b < |input| / 8 ==> out[i][b] == 0
    ensures Transposed(out, input, cols, 0, 0)
  {
    forall d: nat, k: nat | d < cols && k < |input| ensures !BitAt(out[d], k) {
      ZeroBits(k % 8);
    }
  }

  // ---------- the two parties ----------

  predicate ValidL(l: nat) { l != 0 && l % 8 == 0 }

  /** One expansion per seed. */
  function Expand(o: Oracle, seeds: seq<bytes>, sid: bytes, lb: nat): (rows: seq<bytes>)
    requires o.Valid()
    ensures |rows| == |seeds| && forall j :: 0 <= j < |rows| ==> |rows[j]| == lb
  {
    seq(|seeds|, j requires 0 <= j < |seeds| => o.prg(seeds[j], sid, lb))
  }

  /** q_j = PRG(seed_j) XOR (delta_j AND u_j) */
  function SenderRow(expansion: bytes, u: bytes, deltaBit: bool): (q: bytes)
    requires |expansion| == |u|
    ensures |q| == |u|
  {
    XorBytes(expansion, MaskBytes(u, deltaBit))
  }

  function SenderRows(o: Oracle, s: ExtSender, sid: bytes, u: seq<bytes>, lb: nat): (q: seq<bytes>)
    requires o.Valid() && s.Valid() && Sized(u, KAPPA, lb)
    ensures Sized(q, KAPPA, lb)
  {
    var e := Expand(o, s.seeds, sid, lb);
    seq(KAPPA, j requires 0 <= j < KAPPA => SenderRow(e[j], u[j], BitAt(s.delta, j)))
  }

  /** The consistency check, bit by bit. */
  ghost predicate CheckPasses(o: Oracle, s: ExtSender, sid: bytes, msg: ExtendMsg)
    requires o.Valid() && s.Valid() && msg.Shaped() && ValidL(msg.l) && Sized(msg.u, KAPPA, msg.l / 8)
  {
    var q := SenderRows(o, s, sid, msg.u, msg.l / 8);
    forall h, j :: 0 <= h < SIGMA && 0 <= j < KAPPA ==> BitPasses(o, s, sid, msg, q, h, j)
  }

  ghost predicate BitPasses(o: Oracle, s: ExtSender, sid: bytes, msg: ExtendMsg, q: seq<bytes>, h: nat, j: nat)
    requires o.Valid() && s.Valid() && msg.Shaped() && ValidL(msg.l) && Sized(q, KAPPA, msg.l / 8)
    requires h < SIGMA && j < KAPPA
  {
    (BitAt(msg.t[h], j) != (BitAt(msg.x, h) && BitAt(s.delta, j)))
      == ChiDot(o, sid, msg.u, msg.l, h, q[j], msg.l)
  }

  /** The sender's two outputs for row i. */
  function KeyZero(o: Oracle, sid: bytes, q: seq<bytes>, i: nat): bytes
    requires |q| % 8 == 0 && forall r :: 0 <= r < |q| ==> i < 8 * |q[r]|
  {
    o.hashRow(sid, i, Column(q, i))
  }

  function KeyOne(o: Oracle, sid: bytes, q: seq<bytes>, i: nat, delta: bytes): bytes
    requires |q| % 8 == 0 && |q| / 8 == |delta| && forall r :: 0 <= r < |q| ==> i < 8 * |q[r]|
  {
    o.hashRow(sid, i, XorBytes(Column(q, i), delta))
  }

  method SenderExtend(o: Oracle, s: ExtSender, sid: bytes, msg: ExtendMsg)
    returns (r: Result<(seq<bytes>, seq<bytes>), OtError>)
    requires o.Valid() && s.Valid() && msg.Shaped()
    ensures !ValidL(msg.l) <==> r == Err(BadLength)
    ensures ValidL(msg.l) && |msg.u| != KAPPA <==> r == Err(WrongRowCount)
    ensures ValidL(msg.l) && |msg.u| == KAPPA && !Sized(msg.u, KAPPA, msg.l / 8) <==> r == Err(WrongRowLength)
    ensures r.Ok? <==> ValidL(msg.l) && Sized(msg.u, KAPPA, msg.l / 8) && CheckPasses(o, s, sid, msg)
    ensures r.Ok? ==>
      var q := SenderRows(o, s, sid, msg.u, msg.l / 8);
      |r.value.0| == |r.value.1| == msg.l &&
      forall i :: 0 <= i < msg.l ==>
        r.value.0[i] == KeyZero(o, sid, q, i) && r.value.1[i] == KeyOne(o, sid, q, i, s.delta)
  {
    hide Bit, BitAt, Dot, Challenge, ChiDot;
    if !ValidL(msg.l) { return Err(BadLength); }
    if |msg.u| != KAPPA { return Err(WrongRowCount); }
    var l := msg.l;
    var lb := l / 8;
    if exists j :: 0 <= j < |msg.u| && |msg.u[j]| != lb { return Err(WrongRowLength); }

    var q := SenderMatrix(o, s, sid, msg.u, lb);
    var qT := TransposeBits(q, KAPPA, l);

    for h := 0 to SIGMA
      invariant forall g, j :: 0 <= g < h && 0 <= j < KAPPA ==> BitPasses(o, s, sid, msg, q, g, j)
    {
      var ok := CheckRow(o, s, sid, msg, q, qT, h);
      if !ok { return Err(CheckFailed); }
    }

    var m0: seq<bytes>, m1: seq<bytes> := [], [];
    for i := 0 to l
      invariant |m0| == |m1| == i
      invariant forall k :: 0 <= k < i ==> m0[k] == KeyZero(o, sid, q, k) && m1[k] == KeyOne(o, sid, q, k, s.delta)
    {
      m0 := m0 + [o.hashRow(sid, i, qT[i])];
      m1 := m1 + [o.hashRow(sid, i, XorBytes(qT[i], s.delta))];
    }
    return Ok((m0, m1));
  }

  method SenderMatrix(o: Oracle, s: ExtSender, sid: bytes, u: seq<bytes>, lb: nat) returns (q: seq<bytes>)
    requires o.Valid() && s.Valid() && Sized(u, KAPPA, lb)
    ensures q == SenderRows(o, s, sid, u, lb)
  {
    hide Bit, MaskOf;
    q := [];
    for j := 0 to KAPPA
      invariant |q| == j
      invariant forall k :: 0 <= k < j ==> q[k] == SenderRows(o, s, sid, u, lb)[k]
    {
      var mask := MaskOf(Bit(s.delta[j / 8], j % 8));
      var expansion := o.prg(s.seeds[j], sid, lb);
      var row := seq(lb, b requires 0 <= b < lb => expansion[b] ^ (u[j][b] & mask));
      assert row == SenderRow(expansion, u[j], BitAt(s.delta, j));
      q := q + [row];
    }
  }

  /** One challenge: does t_h XOR x_h * delta equal the selected rows of the transposed matrix? */
  method CheckRow(o: Oracle, s: ExtSender, sid: bytes, msg: ExtendMsg, q: seq<bytes>, qT: seq<bytes>, h: nat)
    returns (ok: bool)
    requires o.Valid() && s.Valid() && msg.Shaped() && ValidL(msg.l) && Sized(q, KAPPA, msg.l / 8) && h < SIGMA
    requires |qT| == msg.l && forall i :: 0 <= i < msg.l ==> qT[i] == Column(q, i)
    ensures ok <==> forall j :: 0 <= j < KAPPA ==> BitPasses(o, s, sid, msg, q, h, j)
  {
    var chi := Challenge(o, sid, msg.u, msg.l, h);
    var tPrime := new byte[DELTA_BYTES](_ => 0);
    ghost var zero := tPrime[..];
    XorSelectedRows(chi, qT, msg.l, tPrime);
    var got := tPrime[..];
    var xBit := Bit(msg.x[h / 8], h % 8);
    var expected := msg.t[h];
    if xBit { expected := XorBytes(expected, s.delta); }
    forall j | 0 <= j < KAPPA
      ensures BitAt(got, j) == ChiDot(o, sid, msg.u, msg.l, h, q[j], msg.l)
      ensures BitAt(expected, j) == (BitAt(msg.t[h], j) != (BitAt(msg.x, h) && BitAt(s.delta, j)))
    {
      SelectedIsDot(got, zero, chi, q, qT, msg.l, j);
      ChiDotIs(o, sid, msg.u, msg.l, h, q[j], msg.l);
      if xBit { XorBytesBit(msg.t[h], s.delta, j); }
    }
    ok := expected == got;
    if forall j :: 0 <= j < KAPPA ==> BitPasses(o, s, sid, msg, q, h, j) {
      forall j | 0 <= j < 8 * |got| ensures BitAt(expected, j) == BitAt(got, j) {
        assert BitPasses(o, s, sid, msg, q, h, j);
      }
      BytesExt(expected, got);
    }
  }

  /** Starting from zero, the selected rows of the transpose give the inner products with the rows. */
  lemma SelectedIsDot(cur: bytes, zero: bytes, chi: bytes, q: seq<bytes>, qT: seq<bytes>, l: nat, j: nat)
    requires |cur| == |zero| == DELTA_BYTES && forall b :: 0 <= b < DELTA_BYTES ==> zero[b] == 0
    requires |qT| == l == 8 * |chi| && Sized(q, KAPPA, l / 8) && j < KAPPA
    requires forall i :: 0 <= i < l ==> qT[i] == Column(q, i) && |qT[i]| == DELTA_BYTES
    requires Selected(cur, zero, chi, qT, l)
    ensures BitAt(cur, j) == Dot(chi, q[j], l)
  {
    ZeroBits(j % 8);
    forall i | 0 <= i < l ensures BitAt(qT[i], j) == BitAt(q[j], i) { ColumnBit(q, i, j); }
    DotColumnIsDot(chi, qT, j, q[j], l);
  }

  /** u_j = t0_j XOR t1_j XOR c */
  function CorrectionRows(t0: seq<bytes>, t1: seq<bytes>, c: bytes): (u: seq<bytes>)
    requires Sized(t0, KAPPA, |c|) && Sized(t1, KAPPA, |c|)
    ensures Sized(u, KAPPA, |c|)
  {
    seq(KAPPA, j requires 0 <= j < KAPPA => XorBytes(XorBytes(t0[j], t1[j]), c))
  }

  /** What an honest receiver with choice bits c sends. */
  ghost predicate HonestMessage(o: Oracle, rcv: ExtReceiver, sid: bytes, c: bytes, msg: ExtendMsg)
    requires o.Valid() && rcv.Valid()
  {
    && msg.Shaped() && ValidL(msg.l) && |c| == msg.l / 8
    && var t0, t1 := Expand(o, rcv.seeds0, sid, |c|), Expand(o, rcv.seeds1, sid, |c|);
    && msg.u == CorrectionRows(t0, t1, c)
    && (forall h :: 0 <= h < SIGMA ==> BitAt(msg.x, h) == ChiDot(o, sid, msg.u, msg.l, h, c, msg.l))
    && (forall h, j :: 0 <= h < SIGMA && 0 <= j < KAPPA ==>
         BitAt(msg.t[h], j) == ChiDot(o, sid, msg.u, msg.l, h, t0[j], msg.l))
  }

  method ReceiverExtend(o: Oracle, rcv: ExtReceiver, sid: bytes, c: bytes, l: nat)
    returns (r: Result<(ExtendMsg, seq<bytes>), OtError>)
    requires o.Valid() && rcv.Valid()
    ensures !ValidL(l) <==> r == Err(BadLength)
    ensures ValidL(l) && 8 * |c| < l <==> r == Err(ShortChoice)
    ensures r.Ok? <==> ValidL(l) && l <= 8 * |c|
    ensures r.Ok? ==>
      var t0 := Expand(o, rcv.seeds0, sid, l / 8);
      r.value.0.l == l && HonestMessage(o, rcv, sid, c[..l / 8], r.value.0) && |r.value.1| == l &&
      forall i :: 0 <= i < l ==> r.value.1[i] == KeyZero(o, sid, t0, i)
  {
    hide Bit, BitAt, Dot, ChiDot, SetBitAt, Challenge, Column;
    if !ValidL(l) { return Err(BadLength); }
    if |c| * 8 < l { return Err(ShortChoice); }
    var lb := l / 8;
    ghost var cut := c[..lb];

    var t0: seq<bytes>, t1: seq<bytes> := [], [];
    for j := 0 to KAPPA
      invariant |t0| == |t1| == j
      invariant forall k :: 0 <= k < j ==>
        t0[k] == o.prg(rcv.seeds0[k], sid, lb) && t1[k] == o.prg(rcv.seeds1[k], sid, lb)
    {
      t0 := t0 + [o.prg(rcv.seeds0[j], sid, lb)];
      t1 := t1 + [o.prg(rcv.seeds1[j], sid, lb)];
    }
    assert t0 == Expand(o, rcv.seeds0, sid, lb) && t1 == Expand(o, rcv.seeds1, sid, lb);

    var u: seq<bytes> := [];
    for j := 0 to KAPPA
      invariant |u| == j
      invariant forall k :: 0 <= k < j ==> u[k] == CorrectionRows(t0, t1, cut)[k]
    {
      var row := seq(lb, b requires 0 <= b < lb => t0[j][b] ^ t1[j][b] ^ c[b]);
      assert row == XorBytes(XorBytes(t0[j], t1[j]), cut);
      u := u + [row];
    }

    var v := TransposeBits(t0, KAPPA, l);
    var x := seq(SIGMA_BYTES, _ => 0 as byte);
    var t: seq<bytes> := [];
    ZeroString(x);
    for h := 0 to SIGMA
      invariant |t| == h && |x| == SIGMA_BYTES
      invariant forall g :: 0 <= g < h ==> |t[g]| == DELTA_BYTES
      invariant forall g :: 0 <= g < SIGMA ==> BitAt(x, g) == (g < h && ChiDot(o, sid, u, l, g, cut, l))
      invariant forall g, j :: 0 <= g < h && 0 <= j < KAPPA ==>
        BitAt(t[g], j) == ChiDot(o, sid, u, l, g, t0[j], l)
    {
      var xBit, tRow := CheckValues(Challenge(o, sid, u, l, h), c, t0, v, l);
      ChiDotIs(o, sid, u, l, h, cut, l);
      forall j | 0 <= j < KAPPA ensures BitAt(tRow, j) == ChiDot(o, sid, u, l, h, t0[j], l) {
        ChiDotIs(o, sid, u, l, h, t0[j], l);
      }
      ghost var before := x;
      if xBit { x := SetBitAt(x, h, true); }
      forall g | 0 <= g < SIGMA ensures BitAt(x, g) == (g < h + 1 && ChiDot(o, sid, u, l, g, cut, l)) {
        if xBit { SetBitAtBit(before, h, true, g); }
      }
      t := t + [tRow];
    }
    var keys := seq(l, i requires 0 <= i < l => o.hashRow(sid, i, v[i]));
    return Ok((ExtendMsg(l, u, x, t), keys));
  }

  lemma ZeroString(x: bytes)
    requires forall b :: 0 <= b < |x| ==> x[b] == 0
    ensures forall g :: 0 <= g < 8 * |x| ==> !BitAt(x, g)
  {
    forall g | 0 <= g < 8 * |x| ensures !BitAt(x, g) { ZeroBits(g % 8); }
  }

  /** x_h and T_h for one challenge. */
  method CheckValues(chi: bytes, c: bytes, t0: seq<bytes>, v: seq<bytes>, l: nat) returns (xBit: bool, tRow: bytes)
    requires ValidL(l) && |chi| == l / 8 && |c| >= l / 8 && Sized(t0, KAPPA, l / 8)
    requires |v| == l && forall i :: 0 <= i < l ==> v[i] == Column(t0, i)
    ensures xBit == Dot(chi, c[..l / 8], l)
    ensures |tRow| == DELTA_BYTES && forall j :: 0 <= j < KAPPA ==> BitAt(tRow, j) == Dot(chi, t0[j], l)
  {
    hide Bit, BitAt, DotColumn, Column;
    ghost var cut := c[..l / 8];
    xBit := false;
    for byteIdx := 0 to l / 8
      invariant xBit == Dot(chi, cut, 8 * byteIdx)
    {
      PopcountParity(chi, cut, byteIdx);
      xBit := xBit != (Popcount(chi[byteIdx] & c[byteIdx], 8) % 2 == 1);
    }
    var out := new byte[DELTA_BYTES](_ => 0);
    ghost var zero := out[..];
    XorSelectedRows(chi, v, l, out);
    tRow := out[..];
    forall j | 0 <= j < KAPPA ensures BitAt(tRow, j) == Dot(chi, t0[j], l) {
      SelectedIsDot(tRow, zero, chi, t0, v, l, j);
    }
  }

  /** Number of set bits among the low k bits. */
  function Popcount(b: byte, k: nat): nat
    requires k <= 8
  {
    if k == 0 then 0 else Popcount(b, k - 1) + if Bit(b, k - 1) then 1 else 0
  }

  lemma PopcountParity(chi: bytes, c: bytes, b: nat)
    requires b < |chi| && b < |c|
    ensures Dot(chi, c, 8 * b + 8) == (Dot(chi, c, 8 * b) != (Popcount(chi[b] & c[b], 8) % 2 == 1))
  {
    PopcountPrefix(chi, c, b, 8);
  }

  lemma {:induction false} PopcountPrefix(chi: bytes, c: bytes, b: nat, k: nat)
    requires b < |chi| && b < |c| && k <= 8
    ensures Dot(chi, c, 8 * b + k) == (Dot(chi, c, 8 * b) != (Popcount(chi[b] & c[b], k) % 2 == 1))
  {
    hide *;
    PopcountStep(chi[b] & c[b], k);
    if k > 0 {
      PopcountPrefix(chi, c, b, k - 1);
      DotStep(chi, c, 8 * b + k);
      BitAnd(chi[b], c[b], k - 1);
      ByteBitAt(chi, b, k - 1);
      ByteBitAt(c, b, k - 1);
      ParityStep(Popcount(chi[b] & c[b], k - 1), Bit(chi[b] & c[b], k - 1));
    }
  }

  lemma PopcountStep(b: byte, k: nat)
    requires k <= 8
    ensures Popcount(b, k) == if k == 0 then 0 else Popcount(b, k - 1) + if Bit(b, k - 1) then 1 else 0
  {
  }

  lemma DotStep(a: bytes, b: bytes, k: nat)
    requires 0 < k <= 8 * |a| && k <= 8 * |b|
    ensures Dot(a, b, k) == (Dot(a, b, k - 1) != (BitAt(a, k - 1) && BitAt(b, k - 1)))
  {
  }

  lemma ParityStep(p: nat, v: bool)
    ensures ((p + if v then 1 else 0) % 2 == 1) == ((p % 2 == 1) != v)
  {
  }

  // ---------- what the check accepts ----------

  /** The base OT delivered, for every instance, the seed selected by the sender's correlation. */
  ghost predicate SeedsMatch(s: ExtSender, rcv: ExtReceiver)
    requires s.Valid() && rcv.Valid()
  {
    forall j :: 0 <= j < KAPPA ==> s.seeds[j] == if BitAt(s.delta, j) then rcv.seeds1[j] else rcv.seeds0[j]
  }

  /** Every message is t0_j XOR t1_j XOR c_j for some per-row choice vector c_j. */
  ghost predicate RowsFrom(u: seq<bytes>, t0: seq<bytes>, t1: seq<bytes>, cs: seq<bytes>, lb: nat)
    requires Sized(u, KAPPA, lb) && Sized(t0, KAPPA, lb) && Sized(t1, KAPPA, lb) && Sized(cs, KAPPA, lb)
  {
    forall j :: 0 <= j < KAPPA ==> u[j] == XorBytes(XorBytes(t0[j], t1[j]), cs[j])
  }

  /** The choice vectors exist for any rows whatsoever. */
  lemma RowsAlwaysFrom(u: seq<bytes>, t0: seq<bytes>, t1: seq<bytes>, lb: nat) returns (cs: seq<bytes>)
    requires Sized(u, KAPPA, lb) && Sized(t0, KAPPA, lb) && Sized(t1, KAPPA, lb)
    ensures Sized(cs, KAPPA, lb) && RowsFrom(u, t0, t1, cs, lb)
  {
    cs := seq(KAPPA, j requires 0 <= j < KAPPA => XorBytes(XorBytes(t0[j], t1[j]), u[j]));
    forall j | 0 <= j < KAPPA ensures u[j] == XorBytes(XorBytes(t0[j], t1[j]), cs[j]) {
      forall b | 0 <= b < lb ensures u[j][b] == (t0[j][b] ^ t1[j][b]) ^ cs[j][b] {
        XorCancel(t0[j][b] ^ t1[j][b], u[j][b]);
      }
    }
  }

  lemma XorCancel(a: byte, b: byte)
    ensures a ^ (a ^ b) == b
  {
  }

  lemma SenderRowDot(o: Oracle, s: ExtSender, rcv: ExtReceiver, sid: bytes, u: seq<bytes>, cs: seq<bytes>, lb: nat,
    chi: bytes, l: nat, j: nat)
    requires o.Valid() && s.Valid() && rcv.Valid() && SeedsMatch(s, rcv)
    requires Sized(u, KAPPA, lb) && Sized(cs, KAPPA, lb) && l == 8 * lb == 8 * |chi| && j < KAPPA
    requires RowsFrom(u, Expand(o, rcv.seeds0, sid, lb), Expand(o, rcv.seeds1, sid, lb), cs, lb)
    ensures Dot(chi, SenderRows(o, s, sid, u, lb)[j], l)
      == (Dot(chi, Expand(o, rcv.seeds0, sid, lb)[j], l) != (BitAt(s.delta, j) && Dot(chi, cs[j], l)))
  {
    hide Bit, BitAt, Dot;
    var t0, t1 := Expand(o, rcv.seeds0, sid, lb), Expand(o, rcv.seeds1, sid, lb);
    var e := Expand(o, s.seeds, sid, lb);
    var bit := BitAt(s.delta, j);
    assert e[j] == if bit then t1[j] else t0[j];
    DotXor(chi, e[j], MaskBytes(u[j], bit), l);
    DotMask(chi, u[j], bit, l);
    DotXor(chi, XorBytes(t0[j], t1[j]), cs[j], l);
    DotXor(chi, t0[j], t1[j], l);
  }

  /** The consistency check is exact: whatever the receiver sent, row by row, the sender accepts
      if and only if T_h[j] + <chi_h, t0_j> = delta_j * (x_h + <chi_h, c_j>) for every h and j. */
  lemma ExactAcceptance(o: Oracle, s: ExtSender, rcv: ExtReceiver, sid: bytes, msg: ExtendMsg, cs: seq<bytes>)
    requires o.Valid() && s.Valid() && rcv.Valid() && SeedsMatch(s, rcv)
    requires msg.Shaped() && ValidL(msg.l) && Sized(msg.u, KAPPA, msg.l / 8) && Sized(cs, KAPPA, msg.l / 8)
    requires RowsFrom(msg.u, Expand(o, rcv.seeds0, sid, msg.l / 8), Expand(o, rcv.seeds1, sid, msg.l / 8), cs,
      msg.l / 8)
    ensures CheckPasses(o, s, sid, msg) <==>
      forall h, j :: 0 <= h < 80 && 0 <= j < 128 ==>
        (BitAt(msg.t[h], j) != ChiDot(o, sid, msg.u, msg.l, h, Expand(o, rcv.seeds0, sid, msg.l / 8)[j], msg.l))
          == (BitAt(s.delta, j) && (BitAt(msg.x, h) != ChiDot(o, sid, msg.u, msg.l, h, cs[j], msg.l)))
  {
    hide Bit, BitAt, Dot, Challenge, ChiDot;
    var lb := msg.l / 8;
    var q := SenderRows(o, s, sid, msg.u, lb);
    var t0 := Expand(o, rcv.seeds0, sid, lb);
    forall h, j | 0 <= h < SIGMA && 0 <= j < KAPPA
      ensures BitPasses(o, s, sid, msg, q, h, j) ==
        ((BitAt(msg.t[h], j) != ChiDot(o, sid, msg.u, msg.l, h, t0[j], msg.l))
          == (BitAt(s.delta, j) && (BitAt(msg.x, h) != ChiDot(o, sid, msg.u, msg.l, h, cs[j], msg.l))))
    {
      ChiDotIs(o, sid, msg.u, msg.l, h, q[j], msg.l);
      ChiDotIs(o, sid, msg.u, msg.l, h, t0[j], msg.l);
      ChiDotIs(o, sid, msg.u, msg.l, h, cs[j], msg.l);
      SenderRowDot(o, s, rcv, sid, msg.u, cs, lb, Challenge(o, sid, msg.u, msg.l, h), msg.l, j);
    }
  }

  /** An honest receiver is always accepted. */
  lemma HonestAccepted(o: Oracle, s: ExtSender, rcv: ExtReceiver, sid: bytes, c: bytes, msg: ExtendMsg)
    requires o.Valid() && s.Valid() && rcv.Valid() && SeedsMatch(s, rcv)
    requires HonestMessage(o, rcv, sid, c, msg)
    ensures Sized(msg.u, KAPPA, msg.l / 8) && CheckPasses(o, s, sid, msg)
  {
    hide Bit, BitAt, Dot, Challenge, ChiDot;
    ExactAcceptance(o, s, rcv, sid, msg, seq(KAPPA, _ => c));
  }

  /** Whatever the receiver's rows encode, its key for row i is the one its choice vector selects,
      provided all rows encode the same vector c. */
  lemma ChosenKey(o: Oracle, s: ExtSender, rcv: ExtReceiver, sid: bytes, c: bytes, u: seq<bytes>, i: nat)
    requires o.Valid() && s.Valid() && rcv.Valid() && SeedsMatch(s, rcv) && i < 8 * |c|
    requires u == CorrectionRows(Expand(o, rcv.seeds0, sid, |c|), Expand(o, rcv.seeds1, sid, |c|), c)
    ensures var q := SenderRows(o, s, sid, u, |c|);
      KeyZero(o, sid, Expand(o, rcv.seeds0, sid, |c|), i)
        == if BitAt(c, i) then KeyOne(o, sid, q, i, s.delta) else KeyZero(o, sid, q, i)
  {
    hide Bit, BitAt, Column;
    var t0, t1 := Expand(o, rcv.seeds0, sid, |c|), Expand(o, rcv.seeds1, sid, |c|);
    var q := SenderRows(o, s, sid, u, |c|);
    var col0, colQ := Column(t0, i), Column(q, i);
    var want := if BitAt(c, i) then XorBytes(colQ, s.delta) else colQ;
    forall j | 0 <= j < 8 * |col0| ensures BitAt(col0, j) == BitAt(want, j) {
      ColumnBit(t0, i, j);
      ColumnBit(q, i, j);
      XorBytesBit(colQ, s.delta, j);
      SenderBit(o, s, rcv, sid, c, u, i, j);
    }
    BytesExt(col0, want);
  }

  lemma SenderBit(o: Oracle, s: ExtSender, rcv: ExtReceiver, sid: bytes, c: bytes, u: seq<bytes>, i: nat, j: nat)
    requires o.Valid() && s.Valid() && rcv.Valid() && SeedsMatch(s, rcv) && i < 8 * |c| && j < KAPPA
    requires u == CorrectionRows(Expand(o, rcv.seeds0, sid, |c|), Expand(o, rcv.seeds1, sid, |c|), c)
    ensures BitAt(SenderRows(o, s, sid, u, |c|)[j], i)
      == (BitAt(Expand(o, rcv.seeds0, sid, |c|)[j], i) != (BitAt(s.delta, j) && BitAt(c, i)))
  {
    hide Bit, BitAt;
    var t0, t1 := Expand(o, rcv.seeds0, sid, |c|), Expand(o, rcv.seeds1, sid, |c|);
    var e := Expand(o, s.seeds, sid, |c|);
    var bit := BitAt(s.delta, j);
    assert e[j] == if bit then t1[j] else t0[j];
    XorBytesBit(e[j], MaskBytes(u[j], bit), i);
    MaskBytesBit(u[j], bit, i);
    XorBytesBit(XorBytes(t0[j], t1[j]), c, i);
    XorBytesBit(t0[j], t1[j], i);
  }
}
