/** `sort_by` on the key followed by `dedup_by` on the key: the map canonicalisation of the
    CBOR encoder, on any payload. An entry is a pair of encoded key and payload. */
module KeyedSort {
  import opened Bytes

  function Insert<T>(x: (bytes, T), s: seq<(bytes, T)>): (r: seq<(bytes, T)>) {
    if s == [] || !Less(s[0].0, x.0) then [x] + s else [s[0]] + Insert(x, s[1..])
  }

  /** The stable sort by key: entries with equal keys keep their relative order. */
  function StableSort<T>(s: seq<(bytes, T)>): (r: seq<(bytes, T)>) {
    if s == [] then [] else Insert(s[0], StableSort(s[1..]))
  }

  /** Of each run of equal keys, only the first entry stays. */
  function Dedup<T>(s: seq<(bytes, T)>): (r: seq<(bytes, T)>)
    decreases |s|
  {
    if |s| <= 1 then s
    else if s[0].0 == s[1].0 then Dedup([s[0]] + s[2..])
    else [s[0]] + Dedup(s[1..])
  }

  function Canonical<T>(s: seq<(bytes, T)>): (r: seq<(bytes, T)>) {
    Dedup(StableSort(s))
  }

  /** Keys strictly ascend. */
  predicate Ascending<T>(s: seq<(bytes, T)>) {
    |s| <= 1 || (Less(s[0].0, s[1].0) && Ascending(s[1..]))
  }

  predicate NonDescending<T>(s: seq<(bytes, T)>) {
    |s| <= 1 || (!Less(s[1].0, s[0].0) && NonDescending(s[1..]))
  }

  /** The payload of the first entry with key `k`. */
  function Lookup<T>(s: seq<(bytes, T)>, k: bytes): (r: Option<T>) {
    if s == [] then None else if s[0].0 == k then Some(s[0].1) else Lookup(s[1..], k)
  }

  ghost predicate SameLookups<T>(a: seq<(bytes, T)>, b: seq<(bytes, T)>) {
    forall k :: Lookup(a, k) == Lookup(b, k)
  }

  predicate DistinctKeys<T>(s: seq<(bytes, T)>) {
    forall i, j :: 0 <= i < j < |s| ==> s[i].0 != s[j].0
  }

  // ------------------------------------------------------------ order

  lemma {:induction false} InsertNonDescending<T>(x: (bytes, T), s: seq<(bytes, T)>)
    requires NonDescending(s)
    ensures NonDescending(Insert(x, s))
  {
    if s == [] || !Less(s[0].0, x.0) {
      assert ([x] + s)[1..] == s;
    } else {
      InsertNonDescending(x, s[1..]);
      var r := Insert(x, s);
      assert r[1..] == Insert(x, s[1..]);
      LessIrreflexive(x.0);
      if Less(x.0, s[0].0) { LessTransitive(s[0].0, x.0, s[0].0); LessIrreflexive(s[0].0); }
    }
  }

  lemma {:induction false} SortNonDescending<T>(s: seq<(bytes, T)>)
    ensures NonDescending(StableSort(s))
  {
    if s != [] {
      SortNonDescending(s[1..]);
      InsertNonDescending(s[0], StableSort(s[1..]));
    }
  }

  lemma {:induction false} DedupAscending<T>(s: seq<(bytes, T)>)
    requires NonDescending(s)
    ensures Ascending(Dedup(s))
    ensures s != [] ==> Dedup(s) != [] && Dedup(s)[0] == s[0]
    decreases |s|
  {
    if |s| > 1 {
      if s[0].0 == s[1].0 {
        var t := [s[0]] + s[2..];
        assert NonDescending(t) by {
          if |s| > 2 { assert t[1..] == s[1..][1..]; }
        }
        DedupAscending(t);
      } else {
        DedupAscending(s[1..]);
        LessTotal(s[0].0, s[1].0);
        assert Dedup(s)[1..] == Dedup(s[1..]);
      }
    }
  }

  // ------------------------------------------------------------ content

  lemma {:induction false} InsertLookup<T>(x: (bytes, T), s: seq<(bytes, T)>, k: bytes)
    ensures Lookup(Insert(x, s), k) == if k == x.0 then Some(x.1) else Lookup(s, k)
  {
    if s == [] || !Less(s[0].0, x.0) {
      assert ([x] + s)[1..] == s;
    } else {
      InsertLookup(x, s[1..], k);
      assert Insert(x, s)[1..] == Insert(x, s[1..]);
      LessIrreflexive(x.0);
    }
  }

  lemma {:induction false} SortLookup<T>(s: seq<(bytes, T)>, k: bytes)
    ensures Lookup(StableSort(s), k) == Lookup(s, k)
  {
    if s != [] {
      SortLookup(s[1..], k);
      InsertLookup(s[0], StableSort(s[1..]), k);
    }
  }

  lemma {:induction false} DedupLookup<T>(s: seq<(bytes, T)>, k: bytes)
    ensures Lookup(Dedup(s), k) == Lookup(s, k)
    decreases |s|
  {
    if |s| > 1 {
      if s[0].0 == s[1].0 {
        var t := [s[0]] + s[2..];
        DedupLookup(t, k);
        assert t[1..] == s[2..] == s[1..][1..];
      } else {
        DedupLookup(s[1..], k);
        assert Dedup(s)[1..] == Dedup(s[1..]);
      }
    }
  }

  /** Canonicalisation sorts strictly and keeps, for every key, its first payload. */
  lemma CanonicalCorrect<T>(s: seq<(bytes, T)>)
    ensures Ascending(Canonical(s))
    ensures SameLookups(Canonical(s), s)
  {
    SortNonDescending(s);
    DedupAscending(StableSort(s));
    forall k ensures Lookup(Canonical(s), k) == Lookup(s, k) {
      SortLookup(s, k);
      DedupLookup(StableSort(s), k);
    }
  }

  // ------------------------------------------------------------ uniqueness

  lemma {:induction false} LookupBelow<T>(s: seq<(bytes, T)>, k: bytes)
    requires Ascending(s)
    requires s != [] ==> Less(k, s[0].0)
    ensures Lookup(s, k) == None
  {
    if s != [] {
      LessIrreflexive(k);
      if |s| > 1 { LessTransitive(k, s[0].0, s[1].0); }
      LookupBelow(s[1..], k);
    }
  }

  lemma HeadsAgree<T>(a: seq<(bytes, T)>, b: seq<(bytes, T)>)
    requires Ascending(a) && Ascending(b) && SameLookups(a, b)
    requires a != []
    ensures b != [] && a[0] == b[0]
  {
    assert Lookup(a, a[0].0) == Some(a[0].1) == Lookup(b, a[0].0);
    assert Lookup(b, b[0].0) == Some(b[0].1) == Lookup(a, b[0].0);
    LessTotal(a[0].0, b[0].0);
    if Less(a[0].0, b[0].0) { LookupBelow(b, a[0].0); }
    if Less(b[0].0, a[0].0) { LookupBelow(a, b[0].0); }
  }

  lemma TailsAgree<T>(a: seq<(bytes, T)>, b: seq<(bytes, T)>)
    requires Ascending(a) && Ascending(b) && SameLookups(a, b)
    requires a != [] && b != [] && a[0] == b[0]
    ensures SameLookups(a[1..], b[1..])
  {
    forall k ensures Lookup(a[1..], k) == Lookup(b[1..], k) {
      if k == a[0].0 {
        LookupBelow(a[1..], k);
        LookupBelow(b[1..], k);
      } else {
        assert Lookup(a, k) == Lookup(b, k);
      }
    }
  }

  /** A strictly ascending list is determined by its lookups. */
  lemma {:induction false} AscendingUnique<T>(a: seq<(bytes, T)>, b: seq<(bytes, T)>)
    requires Ascending(a) && Ascending(b) && SameLookups(a, b)
    ensures a == b
    decreases |a|
  {
    if a == [] {
      assert b == [] || Lookup(a, b[0].0) == Lookup(b, b[0].0);
    } else {
      HeadsAgree(a, b);
      TailsAgree(a, b);
      AscendingUnique(a[1..], b[1..]);
      assert a == [a[0]] + a[1..] && b == [b[0]] + b[1..];
    }
  }

  /** A strictly ascending list is its own canonical form. */
  lemma CanonicalFixed<T>(s: seq<(bytes, T)>)
    requires Ascending(s)
    ensures Canonical(s) == s
  {
    CanonicalCorrect(s);
    AscendingUnique(Canonical(s), s);
  }

  // ------------------------------------------------------------ membership

  lemma {:induction false} LookupMember<T>(s: seq<(bytes, T)>, k: bytes)
    ensures Lookup(s, k).Some? ==> (k, Lookup(s, k).value) in s
    ensures Lookup(s, k).None? ==> forall x :: x in s ==> x.0 != k
  {
    if s != [] { LookupMember(s[1..], k); }
  }

  lemma {:induction false} AscendingLookup<T>(s: seq<(bytes, T)>, x: (bytes, T))
    requires Ascending(s) && x in s
    ensures Lookup(s, x.0) == Some(x.1)
  {
    if s[0] != x {
      AscendingLookup(s[1..], x);
      if s[0].0 == x.0 { LookupBelow(s[1..], x.0); }
    }
  }

  lemma {:induction false} AscendingBelow<T>(s: seq<(bytes, T)>, i: nat)
    requires Ascending(s) && 0 < i < |s|
    ensures Less(s[0].0, s[i].0)
  {
    if i > 1 {
      AscendingBelow(s[1..], i - 1);
      LessTransitive(s[0].0, s[1].0, s[i].0);
    }
  }

  lemma {:induction false} AscendingAt<T>(s: seq<(bytes, T)>, i: nat, j: nat)
    requires Ascending(s) && i < j < |s|
    ensures Less(s[i].0, s[j].0) && s[i].0 != s[j].0
  {
    if i == 0 {
      AscendingBelow(s, j);
      LessIrreflexive(s[0].0);
    } else {
      AscendingAt(s[1..], i - 1, j - 1);
    }
  }

  lemma CanonicalMember<T>(s: seq<(bytes, T)>, x: (bytes, T))
    requires x in Canonical(s)
    ensures x in s
  {
    CanonicalCorrect(s);
    AscendingLookup(Canonical(s), x);
    LookupMember(s, x.0);
  }

  lemma {:induction false} DistinctLookup<T>(s: seq<(bytes, T)>, x: (bytes, T))
    requires DistinctKeys(s) && x in s
    ensures Lookup(s, x.0) == Some(x.1)
  {
    if s[0] != x {
      assert x in s[1..];
      DistinctLookup(s[1..], x);
      var j :| 0 <= j < |s| && s[j] == x;
    }
  }

  /** When keys are distinct, only the set of entries matters, not their order. */
  lemma CanonicalIgnoresOrder<T>(s: seq<(bytes, T)>, t: seq<(bytes, T)>)
    requires DistinctKeys(s) && DistinctKeys(t)
    requires forall x :: x in s <==> x in t
    ensures Canonical(s) == Canonical(t)
  {
    CanonicalCorrect(s);
    CanonicalCorrect(t);
    forall k ensures Lookup(s, k) == Lookup(t, k) {
      LookupMember(s, k);
      LookupMember(t, k);
      if Lookup(s, k).Some? { DistinctLookup(t, (k, Lookup(s, k).value)); }
    }
    AscendingUnique(Canonical(s), Canonical(t));
  }

  // ------------------------------------------------------------ length

  lemma {:induction false} InsertLength<T>(x: (bytes, T), s: seq<(bytes, T)>)
    ensures |Insert(x, s)| == |s| + 1
  {
    if s != [] { InsertLength(x, s[1..]); }
  }

  lemma {:induction false} SortLength<T>(s: seq<(bytes, T)>)
    ensures |StableSort(s)| == |s|
  {
    if s != [] { SortLength(s[1..]); InsertLength(s[0], StableSort(s[1..])); }
  }

  lemma {:induction false} DedupLength<T>(s: seq<(bytes, T)>)
    ensures |Dedup(s)| <= |s|
    decreases |s|
  {
    if |s| > 1 {
      if s[0].0 == s[1].0 { DedupLength([s[0]] + s[2..]); } else { DedupLength(s[1..]); }
    }
  }

  lemma CanonicalLength<T>(s: seq<(bytes, T)>)
    ensures |Canonical(s)| <= |s|
  {
    SortLength(s);
    DedupLength(StableSort(s));
  }

  // ------------------------------------------------------------ payloads

  function MapPayload<T, U>(f: T -> U, s: seq<(bytes, T)>): (r: seq<(bytes, U)>)
    ensures |r| == |s|
    ensures forall i :: 0 <= i < |s| ==> r[i] == (s[i].0, f(s[i].1))
  {
    seq(|s|, i requires 0 <= i < |s| => (s[i].0, f(s[i].1)))
  }

  lemma {:induction false} MapPayloadStep<T, U>(f: T -> U, s: seq<(bytes, T)>)
    requires s != []
    ensures MapPayload(f, s) == [(s[0].0, f(s[0].1))] + MapPayload(f, s[1..])
    ensures MapPayload(f, s)[1..] == MapPayload(f, s[1..])
  {
  }

  lemma {:induction false} MapLookup<T, U>(f: T -> U, s: seq<(bytes, T)>, k: bytes)
    ensures Lookup(MapPayload(f, s), k)
         == match Lookup(s, k) case None => None case Some(x) => Some(f(x))
  {
    if s != [] {
      MapLookup(f, s[1..], k);
      MapPayloadStep(f, s);
    }
  }

  lemma {:induction false} MapAscending<T, U>(f: T -> U, s: seq<(bytes, T)>)
    requires Ascending(s)
    ensures Ascending(MapPayload(f, s))
  {
    if |s| > 1 {
      MapAscending(f, s[1..]);
      MapPayloadStep(f, s);
    }
  }

  /** Canonicalisation looks only at keys: it commutes with any change of payload. */
  lemma CanonicalNatural<T, U>(f: T -> U, s: seq<(bytes, T)>)
    ensures Canonical(MapPayload(f, s)) == MapPayload(f, Canonical(s))
  {
    CanonicalCorrect(s);
    CanonicalCorrect(MapPayload(f, s));
    MapAscending(f, Canonical(s));
    forall k ensures Lookup(Canonical(MapPayload(f, s)), k) == Lookup(MapPayload(f, Canonical(s)), k) {
      MapLookup(f, s, k);
      MapLookup(f, Canonical(s), k);
    }
    AscendingUnique(Canonical(MapPayload(f, s)), MapPayload(f, Canonical(s)));
  }
}
