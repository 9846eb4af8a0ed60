/** The sorted-vector map (src/vecmap.rs): binary-search insertion, and the bulk build that must equal it. */
module VecMap {
  import opened Results

  /** The key order of a map. Keys can compare equal without being identical. */
  type Order<!K> = (K, K) -> bool

  ghost predicate TotalPreorder<K(!new)>(le: Order<K>) {
    && (forall a, b :: le(a, b) || le(b, a))
    && (forall a, b, c :: le(a, b) && le(b, c) ==> le(a, c))
  }

  function Same<K>(le: Order<K>, a: K, b: K): bool { le(a, b) && le(b, a) }
  function Less<K>(le: Order<K>, a: K, b: K): bool { !le(b, a) }

  /** What the order says about three keys. */
  lemma Law<K(!new)>(le: Order<K>, a: K, b: K, c: K)
    requires TotalPreorder(le)
    ensures (le(a, b) || le(b, a)) && (le(b, c) || le(c, b)) && (le(a, c) || le(c, a)) && le(a, a)
    ensures (le(a, b) && le(b, c) ==> le(a, c)) && (le(a, c) && le(c, b) ==> le(a, b)) && (le(b, a) && le(a,
      c) ==> le(b, c))
    ensures (le(b, c) && le(c, a) ==> le(b, a)) && (le(c, a) && le(a, b) ==> le(c, b)) && (le(c, b) && le(b,
      a) ==> le(c, a))
  {
  }

  /** Strictly ascending keys: the map's invariant. */
  ghost predicate Ascending<K, V>(le: Order<K>, es: seq<(K, V)>) {
    forall i, j :: 0 <= i < j < |es| ==> Less(le, es[i].0, es[j].0)
  }

  // ---------- insertion ----------

  /** One entry per key: a present key keeps its place and identity and takes the new value. */
  function Inserted<K, V>(le: Order<K>, es: seq<(K, V)>, k: K, v: V): (r: seq<(K, V)>)
    ensures |r| > 0
  {
    if es == [] then [(k, v)]
    else if Same(le, es[0].0, k) then [(es[0].0, v)] + es[1..]
    else if le(k, es[0].0) then [(k, v)] + es
    else [es[0]] + Inserted(le, es[1..], k, v)
  }

  function InsertAll<K, V>(le: Order<K>, es: seq<(K, V)>): seq<(K, V)> {
    if es == [] then [] else Inserted(le, InsertAll(le, es[..|es| - 1]), es[|es| - 1].0, es[|es| - 1].1)
  }

  function Lookup<K, V>(le: Order<K>, es: seq<(K, V)>, k: K): Option<V> {
    if es == [] then None else if Same(le, es[0].0, k) then Some(es[0].1) else Lookup(le, es[1..], k)
  }

  class SortedMap<K(!new), V> {
    const le: Order<K>
    var entries: seq<(K, V)>

    constructor (le: Order<K>)
      ensures this.le == le && entries == []
    {
      this.le := le;
      entries := [];
    }

    /** find: a binary search, ending at the key or where it belongs. */
    method Find(key: K) returns (found: bool, at: nat)
      requires TotalPreorder(le) && Ascending(le, entries)
      ensures found ==> at < |entries| && Same(le, entries[at].0, key)
      ensures !found ==> at <= |entries|
      ensures !found ==> forall i :: 0 <= i < at ==> Less(le, entries[i].0, key)
      ensures !found ==> forall i :: at <= i < |entries| ==> Less(le, key, entries[i].0)
    {
      hide TotalPreorder;
      var lo, hi := 0, |entries|;
      while lo < hi
        invariant 0 <= lo <= hi <= |entries|
        invariant forall i :: 0 <= i < lo ==> Less(le, entries[i].0, key)
        invariant forall i :: hi <= i < |entries| ==> Less(le, key, entries[i].0)
      {
        var mid := (lo + hi) / 2;
        Law(le, entries[mid].0, key, key);
        if Same(le, entries[mid].0, key) { return true, mid; }
        if le(entries[mid].0, key) {
          forall i | 0 <= i <= mid ensures Less(le, entries[i].0, key) { Below(le, entries, i, mid, key); }
          lo := mid + 1;
        } else {
          forall i | mid <= i < |entries| ensures Less(le, key, entries[i].0) { Beyond(le, entries, mid, i, key); }
          hi := mid;
        }
      }
      return false, lo;
    }

    /** insert: the value it replaced, if any, is handed back. */
    method Insert(key: K, value: V) returns (replaced: Option<V>)
      requires TotalPreorder(le) && Ascending(le, entries)
      modifies this
      ensures entries == Inserted(le, old(entries), key, value) && Ascending(le, entries)
      ensures replaced == Lookup(le, old(entries), key)
    {
      hide TotalPreorder;
      hide Ascending;
      var found, at := Find(key);
      InsertedAscending(le, entries, key, value);
      if found {
        ReplacedAt(le, entries, key, value, at);
        replaced := Some(entries[at].1);
        entries := entries[at := (entries[at].0, value)];
      } else {
        PlacedAt(le, entries, key, value, at);
        replaced := None;
        entries := entries[..at] + [(key, value)] + entries[at..];
      }
    }

    /** get */
    method Get(key: K) returns (value: Option<V>)
      requires TotalPreorder(le) && Ascending(le, entries)
      ensures value == Lookup(le, entries, key)
    {
      hide TotalPreorder;
      hide Ascending;
      var found, at := Find(key);
      if found {
        FoundAt(le, entries, key, at);
        return Some(entries[at].1);
      }
      NotFound(le, entries, key);
      return None;
    }

    /** from_unsorted: sort stably, then merge neighbours with the same key. */
    method FromUnsorted(es: seq<(K, V)>)
      requires TotalPreorder(le)
      modifies this
      ensures entries == InsertAll(le, es) && Ascending(le, entries)
    {
      hide TotalPreorder;
      var sorted := StableSort(le, es);
      entries := MergeNeighbours(le, sorted);
      BulkEqualsInserts(le, es);
      InsertAllAscending(le, es);
    }
  }

  /** The loop of from_unsorted. */
  method MergeNeighbours<K(!new), V>(le: Order<K>, sorted: seq<(K, V)>) returns (out: seq<(K, V)>)
    requires TotalPreorder(le)
    ensures out == Merge(le, sorted)
  {
    hide TotalPreorder, Merge, Join;
    out := [];
    JoinNothing(le, Merge(le, sorted));
    assert sorted[0..] == sorted;
    for i := 0 to |sorted|
      invariant Merge(le, sorted) == Join(le, out, Merge(le, sorted[i..]))
    {
      var e := sorted[i];
      assert sorted[i..] == [e] + sorted[i + 1..];
      MergeStep(le, out, e, sorted[i + 1..]);
      if out != [] && Same(le, out[|out| - 1].0, e.0) {
        out := out[|out| - 1 := (out[|out| - 1].0, e.1)];
      } else {
        out := out + [e];
      }
    }
    JoinEnd(le, out);
  }

  lemma JoinNothing<K, V>(le: Order<K>, m: seq<(K, V)>)
    ensures Join(le, [], m) == m
  {
  }

  lemma JoinEnd<K, V>(le: Order<K>, out: seq<(K, V)>)
    ensures Join(le, out, Merge(le, [])) == out
  {
  }

  lemma Below<K(!new), V>(le: Order<K>, es: seq<(K, V)>, i: nat, mid: nat, key: K)
    requires TotalPreorder(le) && Ascending(le, es) && i <= mid < |es| && Less(le, es[mid].0, key)
    ensures Less(le, es[i].0, key)
  {
    hide TotalPreorder;
    Law(le, key, es[i].0, es[mid].0);
  }

  lemma Beyond<K(!new), V>(le: Order<K>, es: seq<(K, V)>, mid: nat, i: nat, key: K)
    requires TotalPreorder(le) && Ascending(le, es) && mid <= i < |es| && Less(le, key, es[mid].0)
    ensures Less(le, key, es[i].0)
  {
    hide TotalPreorder;
    Law(le, es[mid].0, es[i].0, key);
  }

  lemma AscendingTail<K, V>(le: Order<K>, es: seq<(K, V)>)
    requires Ascending(le, es) && es != []
    ensures Ascending(le, es[1..]) && AllAbove(le, es[0].0, es[1..])
  {
  }

  ghost predicate AllAbove<K, V>(le: Order<K>, b: K, es: seq<(K, V)>) {
    forall i :: 0 <= i < |es| ==> Less(le, b, es[i].0)
  }

  lemma AscendingCons<K, V>(le: Order<K>, e: (K, V), es: seq<(K, V)>)
    requires Ascending(le, es) && AllAbove(le, e.0, es)
    ensures Ascending(le, [e] + es)
  {
  }

  lemma {:induction false} InsertedAbove<K, V>(le: Order<K>, es: seq<(K, V)>, k: K, v: V, b: K)
    requires AllAbove(le, b, es) && Less(le, b, k)
    ensures AllAbove(le, b, Inserted(le, es, k, v))
  {
    if es != [] { InsertedAbove(le, es[1..], k, v, b); }
  }

  /** Insertion keeps the keys strictly ascending. */
  lemma {:induction false} InsertedAscending<K(!new), V>(le: Order<K>, es: seq<(K, V)>, k: K, v: V)
    requires TotalPreorder(le) && Ascending(le, es)
    ensures Ascending(le, Inserted(le, es, k, v))
    decreases |es|
  {
    hide TotalPreorder;
    if es != [] {
      Law(le, es[0].0, k, k);
      AscendingTail(le, es);
      hide Ascending;
      if Same(le, es[0].0, k) {
        AscendingCons(le, (es[0].0, v), es[1..]);
      } else if le(k, es[0].0) {
        forall i | 0 <= i < |es| ensures Less(le, k, es[i].0) { Beyond(le, es, 0, i, k); }
        AscendingCons(le, (k, v), es);
      } else {
        InsertedAscending(le, es[1..], k, v);
        InsertedAbove(le, es[1..], k, v, es[0].0);
        AscendingCons(le, es[0], Inserted(le, es[1..], k, v));
      }
    }
  }

  lemma {:induction false} InsertAllAscending<K(!new), V>(le: Order<K>, es: seq<(K, V)>)
    requires TotalPreorder(le)
    ensures Ascending(le, InsertAll(le, es))
  {
    hide TotalPreorder;
    if es != [] {
      InsertAllAscending(le, es[..|es| - 1]);
      hide Ascending;
      InsertedAscending(le, InsertAll(le, es[..|es| - 1]), es[|es| - 1].0, es[|es| - 1].1);
    }
  }

  ghost predicate AllBelow<K, V>(le: Order<K>, es: seq<(K, V)>, k: K) {
    forall i :: 0 <= i < |es| ==> Less(le, es[i].0, k)
  }

  /** Entries below the key stay in front. */
  lemma {:induction false} PastLower<K, V>(le: Order<K>, lows: seq<(K, V)>, more: seq<(K, V)>, k: K, v: V)
    requires AllBelow(le, lows, k)
    ensures Inserted(le, lows + more, k, v) == lows + Inserted(le, more, k, v)
    ensures Lookup(le, lows + more, k) == Lookup(le, more, k)
    decreases |lows|
  {
    if lows == [] {
      assert lows + more == more;
    } else {
      assert (lows + more)[0] == lows[0] && (lows + more)[1..] == lows[1..] + more;
      PastLower(le, lows[1..], more, k, v);
      assert [lows[0]] + (lows[1..] + Inserted(le, more, k, v)) == lows + Inserted(le, more, k, v);
    }
  }

  lemma Assoc<T>(a: seq<T>, b: seq<T>, c: seq<T>)
    ensures (a + b) + c == a + (b + c)
  {
  }

  lemma Split<T>(es: seq<T>, at: nat)
    requires at <= |es|
    ensures es[..at] + es[at..] == es && (at < |es| ==> es[at..] == [es[at]] + es[at + 1..])
  {
  }

  lemma Update<T>(es: seq<T>, at: nat, x: T)
    requires at < |es|
    ensures es[..at] + ([x] + es[at + 1..]) == es[at := x]
  {
  }

  lemma ReplacedHere<K, V>(le: Order<K>, e: (K, V), es: seq<(K, V)>, k: K, v: V)
    requires Same(le, e.0, k)
    ensures Inserted(le, [e] + es, k, v) == [(e.0, v)] + es && Lookup(le, [e] + es, k) == Some(e.1)
  {
    assert ([e] + es)[1..] == es;
  }

  lemma PlacedHere<K, V>(le: Order<K>, es: seq<(K, V)>, k: K, v: V)
    requires es != [] ==> le(k, es[0].0) && !le(es[0].0, k)
    ensures Inserted(le, es, k, v) == [(k, v)] + es
  {
  }

  /** Replacing the value at the found place is the insertion. */
  lemma ReplacedAt<K(!new), V>(le: Order<K>, es: seq<(K, V)>, k: K, v: V, at: nat)
    requires TotalPreorder(le) && Ascending(le, es) && at < |es| && Same(le, es[at].0, k)
    ensures Inserted(le, es, k, v) == es[at := (es[at].0, v)] && Lookup(le, es, k) == Some(es[at].1)
  {
    hide TotalPreorder;
    forall i | 0 <= i < at ensures Less(le, es[i].0, k) { Law(le, es[i].0, es[at].0, k); }
    hide Ascending, Inserted, Lookup, Less, Same;
    Split(es, at);
    PastLower(le, es[..at], es[at..], k, v);
    ReplacedHere(le, es[at], es[at + 1..], k, v);
    Update(es, at, (es[at].0, v));
  }

  /** Shifting the tail to make room is the insertion. */
  lemma PlacedAt<K(!new), V>(le: Order<K>, es: seq<(K, V)>, k: K, v: V, at: nat)
    requires TotalPreorder(le) && at <= |es|
    requires forall i :: 0 <= i < at ==> Less(le, es[i].0, k)
    requires forall i :: at <= i < |es| ==> Less(le, k, es[i].0)
    ensures Inserted(le, es, k, v) == es[..at] + [(k, v)] + es[at..] && Lookup(le, es, k) == None
  {
    hide TotalPreorder;
    if at < |es| { Law(le, es[at].0, k, k); }
    hide Inserted, Lookup;
    Split(es, at);
    PastLower(le, es[..at], es[at..], k, v);
    PlacedHere(le, es[at..], k, v);
    Assoc(es[..at], [(k, v)], es[at..]);
    NotFound(le, es[at..], k);
  }

  lemma {:induction false} NotFound<K, V>(le: Order<K>, es: seq<(K, V)>, k: K)
    requires forall i :: 0 <= i < |es| ==> Less(le, es[i].0, k) || Less(le, k, es[i].0)
    ensures Lookup(le, es, k) == None
  {
    if es != [] { NotFound(le, es[1..], k); }
  }

  lemma FoundAt<K(!new), V>(le: Order<K>, es: seq<(K, V)>, k: K, at: nat)
    requires TotalPreorder(le) && Ascending(le, es) && at < |es| && Same(le, es[at].0, k)
    ensures Lookup(le, es, k) == Some(es[at].1)
  {
    hide TotalPreorder;
    ReplacedAt(le, es, k, es[at].1, at);
  }

  /** The map law: after an insertion the key finds the new value and every other key what it found before. */
  lemma {:induction false} LookupInserted<K(!new), V>(le: Order<K>, es: seq<(K, V)>, k: K, v: V, key: K)
    requires TotalPreorder(le)
    ensures Lookup(le, Inserted(le, es, k, v), key) == if Same(le, k, key) then Some(v) else Lookup(le, es, key)
    decreases |es|
  {
    hide TotalPreorder;
    if es != [] {
      var h := es[0].0;
      Law(le, h, k, key);
      if Same(le, h, k) {
      } else if !le(k, h) {
        LookupInserted(le, es[1..], k, v, key);
        assert ([es[0]] + Inserted(le, es[1..], k, v))[1..] == Inserted(le, es[1..], k, v);
      }
    }
  }

  /** For an order that tells different keys apart it is the law of a map: lookups go by equality of keys. */
  lemma LookupByEquality<K(!new), V>(le: Order<K>, es: seq<(K, V)>, k: K, v: V, key: K)
    requires TotalPreorder(le) && forall a, b :: le(a, b) && le(b, a) ==> a == b
    ensures Lookup(le, Inserted(le, es, k, v), key) == if k == key then Some(v) else Lookup(le, es, key)
  {
    LookupInserted(le, es, k, v, key);
    assert le(k, k) || le(k, k);
  }

  // ---------- the bulk build ----------

  /** An entry placed after all entries that are not above it. */
  function SortInsert<K, V>(le: Order<K>, es: seq<(K, V)>, e: (K, V)): (r: seq<(K, V)>)
    ensures |r| == |es| + 1
  {
    if es == [] then [e]
    else if le(es[0].0, e.0) then [es[0]] + SortInsert(le, es[1..], e)
    else [e] + es
  }

  /** The stable sort by key. */
  function StableSort<K, V>(le: Order<K>, es: seq<(K, V)>): (r: seq<(K, V)>)
    ensures |r| == |es|
  {
    if es == [] then [] else SortInsert(le, StableSort(le, es[..|es| - 1]), es[|es| - 1])
  }

  ghost predicate Sorted<K, V>(le: Order<K>, es: seq<(K, V)>) {
    forall i, j :: 0 <= i < j < |es| ==> le(es[i].0, es[j].0)
  }

  /** Groups of one key become one entry: the first key, the last value. */
  function Merge<K, V>(le: Order<K>, es: seq<(K, V)>): (m: seq<(K, V)>)
    ensures es != [] ==> m != [] && m[0].0 == es[0].0
  {
    if es == [] then []
    else
      var m := Merge(le, es[1..]);
      if m != [] && Same(le, es[0].0, m[0].0) then [(es[0].0, m[0].1)] + m[1..] else [es[0]] + m
  }

  /** Two merged stretches put together. */
  function Join<K, V>(le: Order<K>, out: seq<(K, V)>, m: seq<(K, V)>): seq<(K, V)> {
    if out != [] && m != [] && Same(le, out[|out| - 1].0, m[0].0)
    then out[..|out| - 1] + [(out[|out| - 1].0, m[0].1)] + m[1..]
    else out + m
  }

  /** One step of the merging loop. */
  lemma MergeStep<K(!new), V>(le: Order<K>, out: seq<(K, V)>, e: (K, V), rest: seq<(K, V)>)
    requires TotalPreorder(le)
    ensures Join(le, out, Merge(le, [e] + rest)) ==
      (if out != [] && Same(le, out[|out| - 1].0, e.0) then Join(le, out[|out| - 1 := (out[|out| - 1].0, e.1)],
        Merge(le, rest))
       else Join(le, out + [e], Merge(le, rest)))
  {
    hide TotalPreorder;
    assert ([e] + rest)[1..] == rest && ([e] + rest)[0] == e;
    GroupFirst(le, [e] + rest);
    hide Merge;
    JoinStep(le, out, e, Merge(le, rest));
  }

  lemma JoinStep<K(!new), V>(le: Order<K>, out: seq<(K, V)>, e: (K, V), m: seq<(K, V)>)
    requires TotalPreorder(le)
    ensures Join(le, out, InFront(le, e, m)) ==
      (if out != [] && Same(le, out[|out| - 1].0, e.0) then Join(le, out[|out| - 1 := (out[|out| - 1].0, e.1)], m)
       else Join(le, out + [e], m))
  {
    hide TotalPreorder;
    if out != [] && m != [] { Law(le, out[|out| - 1].0, e.0, m[0].0); }
    assert (out + [e])[..|out|] == out;
  }

  /** Merging a sorted list with one more entry sorted in is inserting that entry into the merged list. */
  lemma {:induction false} MergeInsert<K(!new), V>(le: Order<K>, es: seq<(K, V)>, e: (K, V))
    requires TotalPreorder(le) && Sorted(le, es)
    ensures Merge(le, SortInsert(le, es, e)) == Inserted(le, Merge(le, es), e.0, e.1)
    decreases |es|
  {
    hide TotalPreorder;
    if es == [] {
    } else if le(es[0].0, e.0) {
      var tail := es[1..];
      MergeInsert(le, tail, e);
      assert SortInsert(le, es, e)[1..] == SortInsert(le, tail, e);
        FirstGroup(le, es[0], Merge(le, tail), e);
      if tail != [] { assert le(es[0].0, tail[0].0); }
      GroupFirst(le, es);
    } else {
      Law(le, es[0].0, e.0, e.0);
      assert SortInsert(le, es, e)[1..] == es;
    }
  }

  /** Adding entry x in front of a merged list. */
  function InFront<K, V>(le: Order<K>, x: (K, V), m: seq<(K, V)>): seq<(K, V)> {
    if m != [] && Same(le, x.0, m[0].0) then [(x.0, m[0].1)] + m[1..] else [x] + m
  }

  lemma GroupFirst<K, V>(le: Order<K>, es: seq<(K, V)>)
    requires es != []
    ensures Merge(le, es) == InFront(le, es[0], Merge(le, es[1..]))
  {
  }

  lemma FirstGroup<K(!new), V>(le: Order<K>, x: (K, V), m: seq<(K, V)>, e: (K, V))
    requires TotalPreorder(le) && le(x.0, e.0) && (m != [] ==> le(x.0, m[0].0))
    ensures InFront(le, x, Inserted(le, m, e.0, e.1)) == Inserted(le, InFront(le, x, m), e.0, e.1)
  {
    hide TotalPreorder;
    if m != [] {
      var h := m[0].0;
      Law(le, h, e.0, x.0);
      var i := Inserted(le, m, e.0, e.1);
      assert ([x] + m)[1..] == m;
      if !Same(le, h, e.0) && !le(e.0, h) {
        assert i[1..] == Inserted(le, m[1..], e.0, e.1);
      }
    }
  }

  lemma {:induction false} SortInsertSorted<K(!new), V>(le: Order<K>, es: seq<(K, V)>, e: (K, V))
    requires TotalPreorder(le) && Sorted(le, es)
    ensures Sorted(le, SortInsert(le, es, e))
    ensures forall b: K :: le(b, e.0) && (forall i :: 0 <= i < |es| ==> le(b, es[i].0)) ==>
      forall i :: 0 <= i < |SortInsert(le, es, e)| ==> le(b, SortInsert(le, es, e)[i].0)
    decreases |es|
  {
    hide TotalPreorder;
    if es != [] {
      if le(es[0].0, e.0) {
        SortInsertSorted(le, es[1..], e);
      } else {
        forall i | 0 <= i < |es| ensures le(e.0, es[i].0) { Law(le, e.0, es[0].0, es[i].0); }
      }
    }
  }

  lemma {:induction false} StableSortSorted<K(!new), V>(le: Order<K>, es: seq<(K, V)>)
    requires TotalPreorder(le)
    ensures Sorted(le, StableSort(le, es))
  {
    hide TotalPreorder;
    if es != [] {
      StableSortSorted(le, es[..|es| - 1]);
      hide Sorted;
      SortInsertSorted(le, StableSort(le, es[..|es| - 1]), es[|es| - 1]);
    }
  }

  /** The bulk build equals repeated insertion: the first of several equal keys is kept and the last value wins. */
  lemma {:induction false} BulkEqualsInserts<K(!new), V>(le: Order<K>, es: seq<(K, V)>)
    requires TotalPreorder(le)
    ensures Merge(le, StableSort(le, es)) == InsertAll(le, es)
  {
    hide TotalPreorder;
    if es != [] {
      var before := es[..|es| - 1];
      BulkEqualsInserts(le, before);
      StableSortSorted(le, before);
      hide Sorted;
      MergeInsert(le, StableSort(le, before), es[|es| - 1]);
    }
  }

  // ---------- any stable sort will do ----------

  /** The entries whose key compares equal to k, in order. */
  function Filter<K, V>(le: Order<K>, es: seq<(K, V)>, k: K): seq<(K, V)> {
    if es == [] then [] else (if Same(le, es[0].0, k) then [es[0]] else []) + Filter(le, es[1..], k)
  }

  lemma FilterHead<K, V>(le: Order<K>, e: (K, V), es: seq<(K, V)>, k: K)
    ensures Filter(le, [e] + es, k) == (if Same(le, e.0, k) then [e] else []) + Filter(le, es, k)
  {
    assert ([e] + es)[1..] == es;
  }

  lemma {:induction false} FilterSortInsert<K(!new), V>(le: Order<K>, es: seq<(K, V)>, e: (K, V), k: K)
    requires TotalPreorder(le) && Sorted(le, es)
    ensures Filter(le, SortInsert(le, es, e), k) == Filter(le, es, k) + (if Same(le, e.0, k) then [e] else [])
    decreases |es|
  {
    hide TotalPreorder;
    if es == [] {
      FilterHead(le, e, [], k);
      assert [e] + es == [e];
    } else if le(es[0].0, e.0) {
      FilterSortInsert(le, es[1..], e, k);
      hide Same;
      FilterHead(le, es[0], SortInsert(le, es[1..], e), k);
    } else {
      if Same(le, e.0, k) { NoneBelow(le, es, e, k); }
      hide Sorted;
      FilterHead(le, e, es, k);
    }
  }

  lemma {:induction false} NoneBelow<K(!new), V>(le: Order<K>, es: seq<(K, V)>, e: (K, V), k: K)
    requires TotalPreorder(le) && Sorted(le, es) && Same(le, e.0, k) && (es != [] ==> !le(es[0].0, e.0))
    ensures Filter(le, es, k) == []
    decreases |es|
  {
    hide TotalPreorder;
    if es != [] {
      Law(le, es[0].0, k, e.0);
      if |es| > 1 { Law(le, es[0].0, es[1].0, e.0); }
      NoneBelow(le, es[1..], e, k);
    }
  }

  /** The sort is stable: the entries of every key keep their order. */
  lemma {:induction false} SortIsStable<K(!new), V>(le: Order<K>, es: seq<(K, V)>, k: K)
    requires TotalPreorder(le)
    ensures Filter(le, StableSort(le, es), k) == Filter(le, es, k)
  {
    hide TotalPreorder;
    if es != [] {
      var before, e := es[..|es| - 1], es[|es| - 1];
      SortIsStable(le, before, k);
      StableSortSorted(le, before);
      hide Sorted;
      FilterSortInsert(le, StableSort(le, before), e, k);
      FilterPush(le, before, e, k);
      assert before + [e] == es;
    }
  }

  lemma {:induction false} FilterPush<K, V>(le: Order<K>, es: seq<(K, V)>, e: (K, V), k: K)
    ensures Filter(le, es + [e], k) == Filter(le, es, k) + (if Same(le, e.0, k) then [e] else [])
    decreases |es|
  {
    if es == [] {
      assert [] + [e] == [e] == [e] + [];
      FilterHead(le, e, [], k);
    } else {
      hide Same;
      assert es == [es[0]] + es[1..] && es + [e] == [es[0]] + (es[1..] + [e]);
      FilterHead(le, es[0], es[1..] + [e], k);
      FilterHead(le, es[0], es[1..], k);
      FilterPush(le, es[1..], e, k);
    }
  }

  /** Two sorted lists whose keys keep the same entries in the same order are the same list. */
  lemma {:induction false} StableSortUnique<K(!new), V>(le: Order<K>, s: seq<(K, V)>, t: seq<(K, V)>)
    requires TotalPreorder(le) && Sorted(le, s) && Sorted(le, t) && forall k :: Filter(le, s, k) == Filter(le, t, k)
    ensures s == t
    decreases |s|
  {
    hide TotalPreorder;
    if s == [] {
      if t != [] { HeadPasses(le, t); }
    } else {
      HeadPasses(le, s);
      NotEmptyFilter(le, t, s[0].0);
      HeadPasses(le, t);
      HeadBelow(le, s, t[0].0);
      HeadBelow(le, t, s[0].0);
      assert s[0] == t[0];
      forall k ensures Filter(le, s[1..], k) == Filter(le, t[1..], k) {
        assert Filter(le, s, k) == Filter(le, t, k);
        var head := if Same(le, s[0].0, k) then [s[0]] else [];
        assert (head + Filter(le, s[1..], k))[|head|..] == Filter(le, s[1..], k);
        assert (head + Filter(le, t[1..], k))[|head|..] == Filter(le, t[1..], k);
      }
      StableSortUnique(le, s[1..], t[1..]);
      assert s == [s[0]] + s[1..] && t == [t[0]] + t[1..];
    }
  }

  lemma NotEmptyFilter<K, V>(le: Order<K>, s: seq<(K, V)>, k: K)
    ensures Filter(le, s, k) != [] ==> s != []
  {
  }

  lemma HeadPasses<K(!new), V>(le: Order<K>, s: seq<(K, V)>)
    requires TotalPreorder(le) && s != []
    ensures Filter(le, s, s[0].0) != [] && Filter(le, s, s[0].0)[0] == s[0]
  {
    hide TotalPreorder;
    Law(le, s[0].0, s[0].0, s[0].0);
  }

  /** If some entry has key k, the head of a sorted list is not above k. */
  lemma {:induction false} HeadBelow<K(!new), V>(le: Order<K>, s: seq<(K, V)>, k: K)
    requires TotalPreorder(le) && Sorted(le, s) && Filter(le, s, k) != []
    ensures s != [] && le(s[0].0, k)
    ensures Same(le, s[0].0, k) ==> Filter(le, s, k)[0] == s[0]
    decreases |s|
  {
    hide TotalPreorder;
    if !Same(le, s[0].0, k) {
      HeadBelow(le, s[1..], k);
      Law(le, s[0].0, s[1].0, k);
    }
  }
}
