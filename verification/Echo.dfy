/** The echo phase of the broker protocols (src/dklstss/echo.rs): every party reports a digest of the
    commitments it received from every dealer, and checks the reports against its own view.

    A party is named by its key, a non-negative integer. */
module Echo {
  import opened Results
  import opened Bits
  import opened NumberTheory
  import opened Secp
  import opened Ole

  // ---------- the digest's pre-image ----------

  /** A 64-bit length as eight little-endian bytes. */
  function Le64(a: nat): (b: bytes)
    ensures |b| == 8
  {
    seq(8, p requires 0 <= p < 8 => ByteAt(a, p))
  }

  const TWO_TO_64: nat := 0x1_0000_0000_0000_0000

  /** Little-endian value of a byte string. */
  function LeValue(b: bytes): nat { if b == [] then 0 else b[0] as nat + 256 * LeValue(b[1..]) }

  lemma {:induction false} TrailingBytes(a: nat, p: nat)
    requires p <= 8
    ensures Pow(256, 8 - p) > 0 && LeValue(Le64(a)[p..]) == Shifted(a, 8 * p) % Pow(256, 8 - p)
    decreases 8 - p
  {
    if p < 8 {
      TrailingBytes(a, p + 1);
      assert Le64(a)[p..][0] == ByteAt(a, p) && Le64(a)[p..][1..] == Le64(a)[p + 1..];
      ByteAtValue(a, p);
      assert Pow(256, 8 - p) == 256 * Pow(256, 8 - (p + 1));
      hide Shifted, ByteAt, Pow;
      NextDigit(Shifted(a, 8 * p), Pow(256, 8 - (p + 1)));
    }
  }

  /** They stand for the length. */
  lemma Le64Value(a: nat)
    requires a < TWO_TO_64
    ensures LeValue(Le64(a)) == a
  {
    TrailingBytes(a, 0);
    assert Le64(a)[0..] == Le64(a);
    PowOnce(256);
    PowAdd(256, 1, 1);
    PowAdd(256, 2, 2);
    PowAdd(256, 4, 4);
    hide Pow;
  }

  /** Each element, prefixed with its length. */
  function Framed(vs: seq<bytes>): bytes {
    if vs == [] then [] else Le64(|vs[0]|) + vs[0] + Framed(vs[1..])
  }

  const BAR: byte := 0x7c

  /** What commit_digest hashes. */
  function CommitPreimage(tag: bytes, dealerKey: bytes, vs: seq<bytes>): bytes {
    tag + [BAR] + dealerKey + [BAR] + Le64(|vs|) + Framed(vs)
  }

  ghost predicate Addressable(vs: seq<bytes>) {
    |vs| < TWO_TO_64 && forall i :: 0 <= i < |vs| ==> |vs[i]| < TWO_TO_64
  }

  lemma {:induction false} FramedInjective(a: seq<bytes>, b: seq<bytes>)
    requires |a| == |b| && Framed(a) == Framed(b)
    requires forall i :: 0 <= i < |a| ==> |a[i]| < TWO_TO_64 && |b[i]| < TWO_TO_64
    ensures a == b
  {
    if a != [] {
      var f, g := Framed(a), Framed(b);
      assert f[..8] == Le64(|a[0]|) && g[..8] == Le64(|b[0]|);
      Le64Value(|a[0]|);
      Le64Value(|b[0]|);
      var m := |a[0]|;
      assert f[8..8 + m] == a[0] && g[8..8 + m] == b[0];
      assert f[8 + m..] == Framed(a[1..]) && g[8 + m..] == Framed(b[1..]);
      FramedInjective(a[1..], b[1..]);
      assert a == [a[0]] + a[1..] && b == [b[0]] + b[1..];
    }
  }

  /** The pre-image binds all it is made of: tags and dealer keys of one length cannot be exchanged, and for one dealer
      and one tag different commitments have different pre-images, so that only a hash collision can make two digests
      agree. */
  lemma CommitPreimageInjective(tag: bytes, dealerKey: bytes, a: seq<bytes>, tag': bytes, dealerKey': bytes,
    b: seq<bytes>)
    requires |tag| == |tag'| && |dealerKey| == |dealerKey'| && Addressable(a) && Addressable(b)
    requires CommitPreimage(tag, dealerKey, a) == CommitPreimage(tag', dealerKey', b)
    ensures tag == tag' && dealerKey == dealerKey' && a == b
  {
    PreimageParts(tag, dealerKey, a);
    PreimageParts(tag', dealerKey', b);
    Le64Value(|a|);
    Le64Value(|b|);
    hide Le64, Framed, CommitPreimage;
    FramedInjective(a, b);
  }

  lemma PreimageParts(tag: bytes, dealerKey: bytes, vs: seq<bytes>)
    ensures var f, m := CommitPreimage(tag, dealerKey, vs), |tag| + |dealerKey| + 2;
      && |f| >= m + 8 && f[..|tag|] == tag && f[|tag| + 1..m - 1] == dealerKey
      && f[m..m + 8] == Le64(|vs|) && f[m + 8..] == Framed(vs)
  {
  }

  // ---------- points on the wire ----------

  /** Affine coordinates and their parsing; the identity has none and nothing else parses to it. */
  datatype Codec = Codec(coords: Point -> (bytes, bytes), parse: (bytes, bytes) -> Option<Point>) {
    ghost predicate Valid(n: int) {
      && (forall p :: 0 < p < n ==> parse(coords(p).0, coords(p).1) == Some(p))
      && (forall x, y :: parse(x, y).Some? ==> 0 < parse(x, y).value < n)
      && coords(0) == ([], []) && parse([], []) == None
    }
  }

  /** flatten_point_xy */
  function Flatten(c: Codec, pts: seq<Point>): (flat: seq<bytes>)
    ensures |flat| == 2 * |pts|
  {
    if pts == [] then [] else [c.coords(pts[0]).0, c.coords(pts[0]).1] + Flatten(c, pts[1..])
  }

  datatype ParseError = OddLength | OffCurve(index: nat)

  /** unflatten_point_xy */
  method Unflatten(c: Codec, flat: seq<bytes>) returns (res: Result<seq<Point>, ParseError>)
    ensures res == Err(OddLength) <==> |flat| % 2 != 0
    ensures res.Ok? <==> PointsOf(c, flat).Some?
    ensures res.Ok? ==> res.value == PointsOf(c, flat).value
    ensures res.Err? && res.error.OffCurve? ==>
      2 * res.error.index + 1 < |flat| && c.parse(flat[2 * res.error.index], flat[2 * res.error.index + 1]) == None
  {
    hide PointsOf;
    if |flat| % 2 != 0 {
      OddFails(c, flat);
      return Err(OddLength);
    }
    var out: seq<Point> := [];
    assert flat[0..] == flat;
    for i := 0 to |flat| / 2
      invariant |out| == i
      invariant PointsOf(c, flat).Some? == PointsOf(c, flat[2 * i..]).Some?
      invariant PointsOf(c, flat).Some? ==> PointsOf(c, flat).value == out + PointsOf(c, flat[2 * i..]).value
    {
      PointsStep(c, flat[2 * i..]);
      assert flat[2 * i..][2..] == flat[2 * (i + 1)..];
      var p := c.parse(flat[2 * i], flat[2 * i + 1]);
      if p == None { return Err(OffCurve(i)); }
      out := out + [p.value];
    }
    assert flat[|flat|..] == [];
    NoPoints(c);
    return Ok(out);
  }

  lemma PointsStep(c: Codec, flat: seq<bytes>)
    requires |flat| >= 2
    ensures var p, rest := c.parse(flat[0], flat[1]), PointsOf(c, flat[2..]);
      PointsOf(c, flat) == if p.Some? && rest.Some? then Some([p.value] + rest.value) else None
  {
  }

  lemma NoPoints(c: Codec)
    ensures PointsOf(c, []) == Some([])
  {
  }

  /** The points a coordinate list stands for, if it is one. */
  function PointsOf(c: Codec, flat: seq<bytes>): (pts: Option<seq<Point>>)
    ensures pts.Some? ==> |flat| == 2 * |pts.value|
  {
    if flat == [] then Some([])
    else if |flat| == 1 then None
    else
      var p, rest := c.parse(flat[0], flat[1]), PointsOf(c, flat[2..]);
      if p.Some? && rest.Some? then Some([p.value] + rest.value) else None
  }

  lemma OddFails(c: Codec, flat: seq<bytes>)
    requires |flat| % 2 != 0
    ensures PointsOf(c, flat) == None
  {
  }

  /** Flattening loses nothing: exactly the identity-free lists come back. */
  lemma {:induction false} FlattenRoundTrip(c: Codec, n: int, pts: seq<Point>)
    requires c.Valid(n) && Reduced(n, pts)
    ensures PointsOf(c, Flatten(c, pts)) == if 0 in pts then None else Some(pts)
  {
    if pts != [] {
      FlattenRoundTrip(c, n, pts[1..]);
      var f := Flatten(c, pts);
      assert f[2..] == Flatten(c, pts[1..]);
      assert pts == [pts[0]] + pts[1..];
      assert 0 <= pts[0] < n;
    }
  }

  lemma {:induction false} ParsedPointsProper(c: Codec, n: int, flat: seq<bytes>)
    requires c.Valid(n) && PointsOf(c, flat).Some?
    ensures forall i :: 0 <= i < |PointsOf(c, flat).value| ==> 0 < PointsOf(c, flat).value[i] < n
  {
    if flat != [] { ParsedPointsProper(c, n, flat[2..]); }
  }

  // ---------- verify_echoes ----------

  /** One report: entries with different keys, as the sorted map holds them. */
  datatype EchoMsg = EchoMsg(digests: seq<(nat, bytes)>) {
    ghost predicate Valid() { forall i, j :: 0 <= i < j < |digests| ==> digests[i].0 != digests[j].0 }

    ghost predicate Has(dealer: nat) { exists i :: 0 <= i < |digests| && digests[i].0 == dealer }
  }

  datatype Cause = EmptyEcho | TooManyEntries | Omitted | SelfEntry | UnknownDealer | ContradictsMine | Disagrees
  datatype EchoError = Blame(cause: Cause, culprit: nat) | UnmappedDealer(dealer: nat)

  method ContainsKey(msg: EchoMsg, dealer: nat) returns (found: bool)
    ensures found <==> msg.Has(dealer)
  {
    for i := 0 to |msg.digests|
      invariant forall k :: 0 <= k < i ==> msg.digests[k].0 != dealer
    {
      if msg.digests[i].0 == dealer { return true; }
    }
    return false;
  }

  /** What one report has to be: an entry for every dealer but the reporter, no other, all as I saw them. */
  ghost predicate Agrees(mine: map<nat, bytes>, echoer: nat, msg: EchoMsg, all: seq<nat>) {
    && msg.digests != []
    && (forall p :: p in all && p != echoer ==> msg.Has(p))
    && (forall i :: 0 <= i < |msg.digests| ==> EntryAgrees(mine, echoer, msg.digests[i]))
  }

  ghost predicate EntryAgrees(mine: map<nat, bytes>, echoer: nat, entry: (nat, bytes)) {
    entry.0 != echoer && entry.0 in mine && mine[entry.0] == entry.1
  }

  /** Why a report is refused. */
  ghost predicate Refused(mine: map<nat, bytes>, self: nat, echoer: nat, msg: EchoMsg, all: seq<nat>, err: EchoError) {
    match err
    case Blame(EmptyEcho, q) => q == echoer && msg.digests == []
    case Blame(TooManyEntries, q) => q == echoer && |msg.digests| > |all|
    case Blame(Omitted, q) => q == echoer && exists p :: p in all && p != echoer && !msg.Has(p)
    case Blame(SelfEntry, q) => q == echoer && msg.Has(echoer)
    case Blame(UnknownDealer, q) => q == echoer && exists i :: 0 <= i < |msg.digests| && msg.digests[i].0 !in mine
    case Blame(ContradictsMine, q) => q == echoer && Contradicts(mine, msg, self)
    case Blame(Disagrees, q) => q in all && q != self && q != echoer && Contradicts(mine, msg, q)
    case UnmappedDealer(q) => q !in all && q != self && q != echoer && Contradicts(mine, msg, q)
  }

  ghost predicate Contradicts(mine: map<nat, bytes>, msg: EchoMsg, dealer: nat) {
    dealer in mine && exists i ::
      0 <= i < |msg.digests| && msg.digests[i].0 == dealer && msg.digests[i].1 != mine[dealer]
  }

  /** The checks on one report, in the code's order. */
  method VerifyEcho(mine: map<nat, bytes>, self: nat, echoer: nat, msg: EchoMsg,
    all: seq<nat>) returns (err: Option<EchoError>)
    ensures err == None <==> Agrees(mine, echoer, msg, all) && |msg.digests| <= |all|
    ensures err.Some? ==> Refused(mine, self, echoer, msg, all, err.value)
  {
    if msg.digests == [] { return Some(Blame(EmptyEcho, echoer)); }
    if |msg.digests| > |all| { return Some(Blame(TooManyEntries, echoer)); }
    for p := 0 to |all|
      invariant forall k :: 0 <= k < p && all[k] != echoer ==> msg.Has(all[k])
    {
      if all[p] == echoer { continue; }
      var found := ContainsKey(msg, all[p]);
      if !found { return Some(Blame(Omitted, echoer)); }
    }
    for i := 0 to |msg.digests|
      invariant forall k :: 0 <= k < i ==> EntryAgrees(mine, echoer, msg.digests[k])
    {
      var (dealer, theirs) := msg.digests[i];
      assert !EntryAgrees(mine, echoer, msg.digests[i]) <==>
        dealer == echoer || dealer !in mine || mine[dealer] != theirs;
      if dealer == echoer { return Some(Blame(SelfEntry, echoer)); }
      if dealer !in mine { return Some(Blame(UnknownDealer, echoer)); }
      if mine[dealer] == theirs { continue; }
      if dealer == self { return Some(Blame(ContradictsMine, echoer)); }
      if dealer in all { return Some(Blame(Disagrees, dealer)); }
      return Some(UnmappedDealer(dealer));
    }
    return None;
  }

  /** verify_echoes: the first report that fails decides. */
  method VerifyEchoes(mine: map<nat, bytes>, self: nat, echoers: seq<nat>, msgs: seq<EchoMsg>, all: seq<nat>)
    returns (res: Option<EchoError>)
    requires |echoers| <= |msgs|
    ensures res == None <==> forall k :: 0 <= k < |echoers| ==>
      Agrees(mine, echoers[k], msgs[k], all) && |msgs[k].digests| <= |all|
    ensures res.Some? ==> exists k :: 0 <= k < |echoers| && Refused(mine, self, echoers[k], msgs[k], all, res.value)
  {
    hide Agrees, Refused;
    for k := 0 to |echoers|
      invariant forall j :: 0 <= j < k ==> Agrees(mine, echoers[j], msgs[j], all) && |msgs[j].digests| <= |all|
    {
      var err := VerifyEcho(mine, self, echoers[k], msgs[k], all);
      if err.Some? { return err; }
    }
    return None;
  }

  function Keys(msg: EchoMsg): set<nat> { set i | 0 <= i < |msg.digests| :: msg.digests[i].0 }

  function Members(all: seq<nat>): set<nat> { set i | 0 <= i < |all| :: all[i] }

  /** When my own view covers exactly the committee, a report is accepted if and only if it is non-empty, its
      keys are exactly the committee without the reporter, and every digest equals mine. */
  lemma AcceptedReports(mine: map<nat, bytes>, echoer: nat, msg: EchoMsg, all: seq<nat>)
    requires mine.Keys == Members(all) && msg.Valid()
    ensures Agrees(mine, echoer, msg, all) && |msg.digests| <= |all| <==>
      msg.digests != [] && Keys(msg) == Members(all) - {echoer}
      && forall i :: 0 <= i < |msg.digests| ==> msg.digests[i].0 in mine && mine[msg.digests[i].0] == msg.digests[i].1
  {
    if Agrees(mine, echoer, msg, all) {
      forall p ensures p in Keys(msg) <==> p in Members(all) - {echoer} {
        if p in Keys(msg) {
          var i :| 0 <= i < |msg.digests| && msg.digests[i].0 == p;
          assert EntryAgrees(mine, echoer, msg.digests[i]);
          assert p in mine.Keys;
        }
        if p in Members(all) - {echoer} {
          assert p in all;
          assert msg.Has(p);
        }
      }
    }
    if Keys(msg) == Members(all) - {echoer}
      && forall i :: 0 <= i < |msg.digests| ==> msg.digests[i].0 in mine && mine[msg.digests[i].0] == msg.digests[i].1 {
      forall i | 0 <= i < |msg.digests| ensures EntryAgrees(mine, echoer, msg.digests[i]) {
        assert msg.digests[i].0 in Keys(msg);
      }
      forall p | p in all && p != echoer ensures msg.Has(p) {
        var i :| 0 <= i < |all| && all[i] == p;
        assert p in Members(all) - {echoer};
        assert p in Keys(msg);
      }
      KeyCount(msg);
      MemberCount(all);
      Subsets(Keys(msg), Members(all));
    }
  }

  lemma Subsets(a: set<nat>, b: set<nat>)
    requires a <= b
    ensures |a| <= |b|
    decreases b
  {
    if b != {} {
      var x :| x in b;
      Subsets(a - {x}, b - {x});
      if x in a { assert a == (a - {x}) + {x}; } else { assert a == a - {x}; }
    } else {
      assert a == {};
    }
  }

  lemma {:induction false} KeyCount(msg: EchoMsg)
    requires msg.Valid()
    ensures |Keys(msg)| == |msg.digests|
    decreases |msg.digests|
  {
    var m := |msg.digests| - 1;
    if m >= 0 {
      var shorter := EchoMsg(msg.digests[..m]);
      KeyCount(shorter);
      var k := msg.digests[m].0;
      forall p ensures p in Keys(msg) <==> p in Keys(shorter) + {k} {
        if p in Keys(msg) {
          var i :| 0 <= i < |msg.digests| && msg.digests[i].0 == p;
          if i < m { assert shorter.digests[i].0 == p; }
        }
        if p in Keys(shorter) {
          var i :| 0 <= i < m && shorter.digests[i].0 == p;
          assert msg.digests[i].0 == p;
        }
      }
      assert Keys(msg) == Keys(shorter) + {k};
      assert k !in Keys(shorter);
    }
  }

  lemma {:induction false} MemberCount(all: seq<nat>)
    ensures |Members(all)| <= |all|
  {
    if all != [] {
      var m := |all| - 1;
      MemberCount(all[..m]);
      assert Members(all) == Members(all[..m]) + {all[m]} by {
        forall p ensures p in Members(all) <==> p in Members(all[..m]) + {all[m]} {
          if p in Members(all) {
            var i :| 0 <= i < |all| && all[i] == p;
            if i < m { assert all[..m][i] == p; }
          }
        }
      }
    }
  }

  /** The digest never collides for one dealer. */
  ghost predicate CollisionFree(digest: (nat, seq<bytes>) -> bytes) {
    forall d, x, y :: digest(d, x) == digest(d, y) ==> x == y
  }

  // ---------- who gets blamed ----------

  /** What each party received from each dealer. */
  type Received = (nat, nat) -> seq<bytes>

  /** The report an honest party makes of its view. */
  ghost predicate HonestReport(view: Received, digest: (nat, seq<bytes>) -> bytes, echoer: nat, msg: EchoMsg,
    all: seq<nat>) {
    && Keys(msg) == Members(all) - {echoer}
    && forall i :: 0 <= i < |msg.digests| ==>
      msg.digests[i].1 == digest(msg.digests[i].0, view(echoer, msg.digests[i].0))
  }

  ghost predicate MyDigests(view: Received, digest: (nat, seq<bytes>) -> bytes, self: nat, all: seq<nat>, mine: map<nat,
    bytes>) {
    mine.Keys == Members(all) && forall d :: d in mine ==> mine[d] == digest(d, view(self, d))
  }

  /** With honest reporters and authentic delivery of my own broadcast, whoever is blamed is a dealer that sent two
      parties different commitments. */
  lemma BlameIsJust(view: Received, digest: (nat, seq<bytes>) -> bytes, self: nat, echoer: nat, msg: EchoMsg,
    all: seq<nat>,
    mine: map<nat, bytes>, err: EchoError)
    requires self in all && echoer != self && msg.Valid()
    requires MyDigests(view, digest, self, all, mine) && HonestReport(view, digest, echoer, msg, all)
    requires view(echoer, self) == view(self, self)
    requires Refused(mine, self, echoer, msg, all, err)
    ensures err.Blame? && err.cause == Disagrees && err.culprit in all
    ensures view(echoer, err.culprit) != view(self, err.culprit)
  {
    assert self in Members(all) - {echoer} by { var i :| 0 <= i < |all| && all[i] == self; }
    assert self in Keys(msg);
    KeyCount(msg);
    MemberCount(all);
    Subsets(Keys(msg), Members(all));
    forall p | p in all && p != echoer ensures msg.Has(p) {
      var i :| 0 <= i < |all| && all[i] == p;
      assert p in Keys(msg);
    }
    forall i | 0 <= i < |msg.digests| ensures msg.digests[i].0 in mine && msg.digests[i].0 != echoer {
      assert msg.digests[i].0 in Keys(msg);
      assert msg.digests[i].0 in Members(all);
    }
    match err
    case Blame(_, q) =>
    case UnmappedDealer(q) =>
  }
}
