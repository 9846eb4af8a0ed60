/** Byte-level helpers of src/dklstss/signing.rs: the order of party keys, the message scalar and the
    session ids of the multiplications. */
module SignEncoding {
  import opened NumberTheory
  import opened Bits
  import opened Bytes
  import opened Secp
  import opened Ole

  // ---------- byte-string helpers ----------

  /** Leading zero bytes removed. */
  function Strip(b: bytes): (s: bytes) {
    if b != [] && b[0] == 0 then Strip(b[1..]) else b
  }

  datatype Ordering = Less | Equal | Greater

  /** First difference decides; both strings have the same length. */
  function Lexicographic(a: bytes, b: bytes): Ordering
    requires |a| == |b|
  {
    if a == [] then Equal
    else if a[0] < b[0] then Less
    else if a[0] > b[0] then Greater
    else Lexicographic(a[1..], b[1..])
  }

  /** cmp_be */
  function CmpBe(a: bytes, b: bytes): Ordering {
    var sa, sb := Strip(a), Strip(b);
    if |sa| < |sb| then Less else if |sa| > |sb| then Greater else Lexicographic(sa, sb)
  }

  function CompareInts(a: int, b: int): Ordering { if a < b then Less else if a > b then Greater else Equal }

  /** The most significant byte's share of a big-endian value. */
  lemma {:induction false} BeValueHead(b: bytes)
    requires b != []
    ensures BeValue(b) == (b[0] as nat) * Pow(256, |b| - 1) + BeValue(b[1..])
    ensures BeValue(b) < Pow(256, |b|)
  {
    var m := |b| - 1;
    if m == 0 {
      assert b[..0] == [] && b[1..] == [];
      PowOnce(256);
    } else {
      BeValueHead(b[..m]);
      assert b[1..][..m - 1] == b[..m][1..];
      HeadIdentity(b[0] as nat, Pow(256, m - 1), BeValue(b[..m][1..]), b[m] as nat, BeValue(b[..m]), Pow(256, m));
    }
  }

  lemma HeadIdentity(h: nat, p: int, rest: nat, last: nat, v: nat, q: int)
    requires v == h * p + rest && v < q && last < 256
    ensures 256 * v + last == h * (256 * p) + (256 * rest + last) && 256 * v + last < 256 * q
  {
    assert h * (256 * p) == 256 * (h * p);
  }

  lemma {:induction false} StripKeepsValue(b: bytes)
    ensures BeValue(Strip(b)) == BeValue(b)
  {
    if b != [] && b[0] == 0 {
      BeValueHead(b);
      assert 0 * Pow(256, |b| - 1) == 0;
      StripKeepsValue(b[1..]);
    }
  }

  lemma {:induction false} StripHead(b: bytes)
    ensures Strip(b) == [] || Strip(b)[0] != 0
  {
    if b != [] && b[0] == 0 { StripHead(b[1..]); }
  }

  lemma {:induction false} LexicographicIsNumeric(a: bytes, b: bytes)
    requires |a| == |b|
    ensures Lexicographic(a, b) == CompareInts(BeValue(a), BeValue(b))
  {
    if a != [] {
      LexicographicIsNumeric(a[1..], b[1..]);
      FirstByteSplit(a);
      FirstByteSplit(b);
      hide BeValue, Lexicographic, Pow;
      LexicographicStep(a, b);
      FirstByteDecides(a[0] as nat, b[0] as nat, Pow(256, |a| - 1), BeValue(a[1..]), BeValue(b[1..]));
    }
  }

  lemma LexicographicStep(a: bytes, b: bytes)
    requires |a| == |b| > 0
    ensures Lexicographic(a, b) == if a[0] < b[0] then Less else if a[0] > b[0] then Greater else Lexicographic(a[1..],
      b[1..])
  {
  }

  lemma FirstByteSplit(a: bytes)
    requires a != []
    ensures BeValue(a) == (a[0] as nat) * Pow(256, |a| - 1) + BeValue(a[1..]) && BeValue(a[1..]) < Pow(256, |a| - 1)
  {
    BeValueHead(a);
    if |a| > 1 { BeValueHead(a[1..]); }
  }

  lemma FirstByteDecides(x: nat, y: nat, p: int, u: nat, v: nat)
    requires u < p && v < p
    ensures x < y ==> x * p + u < y * p + v
    ensures x > y ==> x * p + u > y * p + v
  {
    if x < y { MulMono(x + 1, y, p); }
    if x > y { MulMono(y + 1, x, p); }
  }

  lemma {:induction false} PowMono(k: nat, m: nat)
    requires k <= m
    ensures 0 < Pow(256, k) <= Pow(256, m)
    decreases m
  {
    if k < m { PowMono(k, m - 1); } else if k > 0 { PowMono(k - 1, k - 1); }
  }

  lemma LongerIsLarger(a: bytes, b: bytes)
    requires |a| < |b| && b[0] != 0
    ensures BeValue(a) < BeValue(b)
  {
    BeValueHead(b);
    PowMono(|a|, |b| - 1);
    if a != [] { BeValueHead(a); }
    MulMono(1, b[0] as nat, Pow(256, |b| - 1));
  }

  /** cmp_be orders byte strings of any lengths by their numeric value. */
  lemma CmpBeIsNumeric(a: bytes, b: bytes)
    ensures CmpBe(a, b) == CompareInts(BeValue(a), BeValue(b))
  {
    var sa, sb := Strip(a), Strip(b);
    StripKeepsValue(a);
    StripKeepsValue(b);
    StripHead(a);
    StripHead(b);
    if |sa| < |sb| { LongerIsLarger(sa, sb); }
    else if |sa| > |sb| { LongerIsLarger(sb, sa); }
    else { LexicographicIsNumeric(sa, sb); }
  }

  /** Minimal big-endian magnitude. */
  function BeMin(v: nat): bytes {
    if v == 0 then [] else BeMin(v / 256) + [(v % 256) as byte]
  }

  lemma {:induction false} BeMinValue(v: nat)
    ensures BeValue(BeMin(v)) == v
  {
    if v > 0 {
      BeMinValue(v / 256);
      BeValueSnoc(BeMin(v / 256), (v % 256) as byte);
      ByteOf(v % 256);
      hide BeValue;
    }
  }

  lemma BeValueSnoc(b: bytes, last: byte)
    ensures BeValue(b + [last]) == 256 * BeValue(b) + last as nat
  {
    assert (b + [last])[..|b|] == b;
  }

  /** Minimal strings are exactly the stripped ones. */
  lemma {:induction false} MinimalIsBeMin(b: bytes)
    requires b == [] || b[0] != 0
    ensures BeMin(BeValue(b)) == b
  {
    if b != [] {
      var m := |b| - 1;
      if m > 0 {
        assert b[..m][0] == b[0];
        LongerIsLarger([], b);
        assert BeValue([]) == 0;
      }
      MinimalIsBeMin(b[..m]);
      var hi, lo := BeValue(b[..m]), b[m] as nat;
      assert (256 * hi + lo) / 256 == hi && (256 * hi + lo) % 256 == lo;
      assert b == b[..m] + [b[m]];
      if m == 0 { assert BeValue(b) == b[0] as nat; }
    }
  }

  /** is_canonical_scalar: reducing modulo n leaves the encoding as it was. */
  predicate IsCanonicalScalar(n: int, b: bytes)
    requires n > 0
  {
    BeMin(BeValue(b) % n) == Strip(b)
  }

  /** Canonical means below the group order, whatever the number of leading zeros. */
  lemma CanonicalIff(n: int, b: bytes)
    requires n > 0
    ensures IsCanonicalScalar(n, b) <==> BeValue(b) < n
  {
    StripKeepsValue(b);
    StripHead(b);
    MinimalIsBeMin(Strip(b));
    if BeValue(b) < n {
      SmallMod(BeValue(b), n);
    } else {
      BeMinValue(BeValue(b) % n);
      CongMod(BeValue(b), n);
    }
  }

  /** hash_to_scalar: the leftmost 32 bytes, or the whole shorter digest, as an integer modulo n. */
  function HashToScalar(n: int, hash: bytes): (e: Scalar)
    requires n > 0
    ensures 0 <= e < n
  {
    FromBytesReduce(n, if |hash| >= 32 then hash[..32] else Zeros(32 - |hash|) + hash)
  }

  function Zeros(k: nat): (z: bytes)
    ensures |z| == k && forall i :: 0 <= i < k ==> z[i] == 0
  {
    seq(k, _ => 0)
  }

  /** Padding a short digest on the left does not change the integer. */
  lemma {:induction false} PaddedValue(k: nat, hash: bytes)
    ensures BeValue(Zeros(k) + hash) == BeValue(hash)
  {
    var padded := Zeros(k) + hash;
    if k == 0 {
      assert padded == hash;
    } else {
      assert padded[1..] == Zeros(k - 1) + hash;
      BeValueHead(padded);
      assert 0 * Pow(256, |padded| - 1) == 0;
      PaddedValue(k - 1, hash);
    }
  }

  lemma ShortHashValue(n: int, hash: bytes)
    requires n > 0
    ensures |hash| < 32 ==> HashToScalar(n, hash) == BeValue(hash) % n
    ensures |hash| >= 32 ==> HashToScalar(n, hash) == BeValue(hash[..32]) % n
  {
    hide BeValue;
    if |hash| < 32 { PaddedValue(32 - |hash|, hash); }
  }

  /** A 32-bit index as four big-endian bytes. */
  function Be32(a: nat): (b: bytes)
    ensures |b| == 4
  {
    BytesBE(a, 4)
  }

  /** They stand for the index. */
  lemma Be32Value(a: nat)
    requires a < 0x1_0000_0000
    ensures BeValue(Be32(a)) == a
  {
    BytesBEValue(a, 4);
    PowOnce(256);
    PowAdd(256, 1, 1);
    PowAdd(256, 2, 2);
  }

  const SEPARATOR: byte := 0x7c

  function MakeSid(ssid: bytes, kind: bytes, alice: nat, bob: nat): bytes {
    ssid + [SEPARATOR] + kind + [SEPARATOR] + Be32(alice) + [SEPARATOR] + Be32(bob)
  }

  /** Where the fields of a session id are: the session first, then the kind, Alice's index and Bob's. */
  lemma MakeSidReads(ssid: bytes, kind: bytes, a: nat, b: nat)
    requires a < 0x1_0000_0000 && b < 0x1_0000_0000
    ensures var s := MakeSid(ssid, kind, a, b); var m := |s|;
      && m == |ssid| + |kind| + 11 && s[..|ssid|] == ssid && s[|ssid| + 1..|ssid| + 1 + |kind|] == kind
      && BeValue(s[m - 9..m - 5]) == a && BeValue(s[m - 4..]) == b
      && s[|ssid|] == s[m - 10] == s[m - 5] == 0x7c
  {
    var s := MakeSid(ssid, kind, a, b);
    var m := |s|;
    assert s[m - 4..] == Be32(b) && s[m - 9..m - 5] == Be32(a);
    assert s[..|ssid|] == ssid && s[|ssid| + 1..|ssid| + 1 + |kind|] == kind;
    hide Be32, BeValue;
    Be32Value(a);
    Be32Value(b);
  }

  /** No two multiplications of one session share a session id: kinds of equal length and 32-bit indexes
      keep the fields apart. */
  lemma MakeSidInjective(ssid: bytes, kind: bytes, a: nat, b: nat, kind': bytes, a': nat, b': nat)
    requires |kind| == |kind'| && a < 0x1_0000_0000 && b < 0x1_0000_0000 && a' < 0x1_0000_0000 && b' < 0x1_0000_0000
    requires MakeSid(ssid, kind, a, b) == MakeSid(ssid, kind', a', b')
    ensures kind == kind' && a == a' && b == b'
  {
    hide *;
    MakeSidReads(ssid, kind, a, b);
    MakeSidReads(ssid, kind', a', b');
  }

  // ---------- session ids of the broker signing ----------

  /** What sign_mul_sid hashes: unlike the in-process ids these carry the parties' keys, of any length. */
  function MulPreimage(ssid: bytes, kind: bytes, alice: bytes, bob: bytes): bytes {
    ssid + [SEPARATOR] + kind + [SEPARATOR] + Joined(Strip(alice), Strip(bob))
  }

  function Joined(a: bytes, b: bytes): bytes { a + [SEPARATOR] + b }

  /** b' is what follows a separator inside b, and what precedes it extends a to a'. */
  ghost predicate SplitsLater(a: bytes, b: bytes, a': bytes, b': bytes) {
    exists v: bytes :: a' == Joined(a, v) && b == Joined(v, b')
  }

  /** Two joined pairs are the same string exactly when they are the same pair or the string has two places to cut. */
  lemma JoinedExact(a: bytes, b: bytes, a': bytes, b': bytes)
    ensures Joined(a, b) == Joined(a', b') <==>
      (a == a' && b == b') || SplitsLater(a, b, a', b') || SplitsLater(a', b', a, b)
  {
    if Joined(a, b) == Joined(a', b') {
      if |a| <= |a'| { CutLater(a, b, a', b'); } else { CutLater(a', b', a, b); }
    }
    if SplitsLater(a, b, a', b') { Rejoined(a, b, a', b'); }
    if SplitsLater(a', b', a, b) { Rejoined(a', b', a, b); }
  }

  lemma Rejoined(a: bytes, b: bytes, a': bytes, b': bytes)
    requires SplitsLater(a, b, a', b')
    ensures Joined(a, b) == Joined(a', b')
  {
    var v: bytes :| a' == Joined(a, v) && b == Joined(v, b');
    assert Joined(a, b) == a + [SEPARATOR] + v + [SEPARATOR] + b';
  }

  lemma CutLater(a: bytes, b: bytes, a': bytes, b': bytes)
    requires Joined(a, b) == Joined(a', b') && |a| <= |a'|
    ensures (a == a' && b == b') || SplitsLater(a, b, a', b')
  {
    var s := Joined(a, b);
    assert s[..|a|] == a && s[|a|] == SEPARATOR && s[|a| + 1..] == b;
    assert s[..|a'|] == a' && s[|a'|] == SEPARATOR && s[|a'| + 1..] == b';
    if |a| < |a'| {
      var v := s[|a| + 1..|a'|];
      assert a' == Joined(a, v);
      assert b == Joined(v, b');
    }
  }

  /** When two multiplications hash the same string: the same session, the same kind, and the same two keys or keys in
      which a separator can be read as the boundary. */
  lemma MulPreimageExact(ssid: bytes, kind: bytes, a: bytes, b: bytes, ssid': bytes, kind': bytes, a': bytes,
    b': bytes)
    requires |ssid| == |ssid'| && |kind| == |kind'|
    ensures MulPreimage(ssid, kind, a, b) == MulPreimage(ssid', kind', a', b') <==>
      && ssid == ssid' && kind == kind'
      && ((Strip(a) == Strip(a') && Strip(b) == Strip(b'))
        || SplitsLater(Strip(a), Strip(b), Strip(a'), Strip(b'))
        || SplitsLater(Strip(a'), Strip(b'), Strip(a), Strip(b)))
  {
    JoinedExact(Strip(a), Strip(b), Strip(a'), Strip(b'));
    hide Strip, Joined, SplitsLater;
    var s, s' := MulPreimage(ssid, kind, a, b), MulPreimage(ssid', kind', a', b');
    var m, l := |ssid|, |ssid| + |kind| + 2;
    assert s[..m] == ssid && s[m + 1..l - 1] == kind && s[l..] == Joined(Strip(a), Strip(b));
    assert s'[..m] == ssid' && s'[m + 1..l - 1] == kind' && s'[l..] == Joined(Strip(a'), Strip(b'));
  }

  /** Keys without a separator byte never collide. */
  lemma MulPreimageInjective(ssid: bytes, kind: bytes, a: bytes, b: bytes, ssid': bytes, kind': bytes, a': bytes,
    b': bytes)
    requires |ssid| == |ssid'| && |kind| == |kind'|
    requires SEPARATOR !in a && SEPARATOR !in b && SEPARATOR !in a' && SEPARATOR !in b'
    requires MulPreimage(ssid, kind, a, b) == MulPreimage(ssid', kind', a', b')
    ensures ssid == ssid' && kind == kind' && Strip(a) == Strip(a') && Strip(b) == Strip(b')
  {
    MulPreimageExact(ssid, kind, a, b, ssid', kind', a', b');
    StripWithin(a);
    StripWithin(a');
    NoSplit(Strip(a), Strip(b), Strip(a'), Strip(b'));
    NoSplit(Strip(a'), Strip(b'), Strip(a), Strip(b));
  }

  lemma {:induction false} StripWithin(a: bytes)
    ensures forall x :: x in Strip(a) ==> x in a
  {
    if a != [] && a[0] == 0 { StripWithin(a[1..]); }
  }

  lemma NoSplit(a: bytes, b: bytes, a': bytes, b': bytes)
    requires SEPARATOR !in a'
    ensures !SplitsLater(a, b, a', b')
  {
    forall v: bytes ensures SEPARATOR in Joined(a, v) { assert Joined(a, v)[|a|] == SEPARATOR; }
  }

  /** Keys with one do: a committee with the keys 0x01 and 0x017c01 uses one string for both directions of that pair. */
  lemma SidCollision(ssid: bytes, kind: bytes)
    ensures var a, b := [1], [1, SEPARATOR, 1]; MulPreimage(ssid, kind, a, b) == MulPreimage(ssid, kind, b, a)
  {
    var a: bytes, b: bytes := [1], [1, SEPARATOR, 1];
    assert Strip(a) == a && Strip(b) == b;
    assert Joined(a, b) == Joined(b, a);
  }
}
