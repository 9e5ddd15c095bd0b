/** The hand-written maps of the hybrid profile are canonical CBOR: the general codec reads them,
    to the same content. */
module StrictCanonical {
  import opened Bytes
  import opened Utf8
  import opened Cbor
  import opened CborTheorems
  import opened HybridTypes
  import opened StrictMap
  import opened StrictMapTheorems
  import opened Envelope
  import KeyedSort

  function BlobValues(bs: seq<bytes>): (vs: seq<Value>)
    ensures |vs| == |bs| && forall i :: 0 <= i < |bs| ==> vs[i] == ByteStr(bs[i])
  {
    seq(|bs|, i requires 0 <= i < |bs| => ByteStr(bs[i]))
  }

  function FieldValue(f: Field): (v: Value) {
    match f
    case Num(n) => Uint(n)
    case Txt(t) => Text(t)
    case Blob(b) => ByteStr(b)
    case Blobs(bs) => Array(BlobValues(bs))
  }

  lemma {:induction false} BlobsAreItems(bs: seq<bytes>)
    ensures WriteBlobs(bs) == EncodeItems(BlobValues(bs))
  {
    hide Head;
    if bs != [] {
      BlobsAreItems(bs[1..]);
      assert BlobValues(bs)[1..] == BlobValues(bs[1..]);
      assert Encode(ByteStr(bs[0])) == WriteBlob(bs[0]);
    }
  }

  lemma {:induction false} FieldIsValue(f: Field)
    ensures WriteField(f) == Encode(FieldValue(f))
  {
    hide Head, WriteBlobs, EncodeItems;
    if f.Blobs? { BlobsAreItems(f.blobs); }
  }

  /** Fields the strict reader admits are values the general codec can carry. */
  lemma {:induction false} FieldValueOk(schema: Schema, key: u64, f: Field)
    requires FieldOk(schema, key, f)
    ensures Valid(FieldValue(f)) && IsNormal(FieldValue(f)) && Height(FieldValue(f)) <= 1
  {
    hide ValidUtf8, PurposeOf, ProfileId, CredentialFormat, MaxHeight, NormItems;
    KnownTexts();
    if f.Blobs? {
      NormalArray(BlobValues(f.blobs));
      ArrayHeight(BlobValues(f.blobs), 1);
    }
  }

  // ------------------------------------------------------------ maps

  function PairsFrom(m: Fields, lo: nat): (ps: seq<(Value, Value)>)
    decreases KEY_LIMIT - lo
  {
    if lo >= KEY_LIMIT then []
    else (if lo in m then [(Uint(lo), FieldValue(m[lo]))] else []) + PairsFrom(m, lo + 1)
  }

  ghost predicate PairOk(m: Fields, lo: nat, p: (Value, Value)) {
    && p.0.Uint? && lo <= p.0.n < KEY_LIMIT && p.0.n in m && p.1 == FieldValue(m[p.0.n])
  }

  ghost predicate KeyBefore(p: (Value, Value), q: (Value, Value)) { p.0.Uint? && q.0.Uint? && p.0.n < q.0.n }

  lemma {:induction false} PairsShape(m: Fields, lo: nat)
    ensures |PairsFrom(m, lo)| == CountFrom(m, lo)
    ensures forall i :: 0 <= i < |PairsFrom(m, lo)| ==> PairOk(m, lo, PairsFrom(m, lo)[i])
    ensures forall i, j :: 0 <= i < j < |PairsFrom(m, lo)| ==> KeyBefore(PairsFrom(m, lo)[i], PairsFrom(m, lo)[j])
    decreases KEY_LIMIT - lo
  {
    hide FieldValue;
    if lo < KEY_LIMIT {
      PairsShape(m, lo + 1);
      var more := PairsFrom(m, lo + 1);
      forall i | 0 <= i < |more| ensures PairOk(m, lo, more[i]) && more[i].0.n > lo {
        assert PairOk(m, lo + 1, more[i]);
      }
    }
  }

  lemma {:induction false} PairsBytes(m: Fields, lo: nat)
    ensures Flatten(EncodedPairs(PairsFrom(m, lo))) == WriteFrom(m, lo)
    decreases KEY_LIMIT - lo
  {
    hide Head, Encode, FieldValue, WriteField;
    if lo < KEY_LIMIT {
      PairsBytes(m, lo + 1);
      var more := PairsFrom(m, lo + 1);
      if lo in m {
        FieldIsValue(m[lo]);
        OnePair(Uint(lo), FieldValue(m[lo]), more);
        UintBytes(lo);
      } else {
        assert PairsFrom(m, lo) == more;
      }
    }
  }

  lemma UintBytes(n: u64)
    ensures Encode(Uint(n)) == Head(0, n)
  {
  }

  lemma {:induction false} OnePair(k: Value, v: Value, more: seq<(Value, Value)>)
    ensures Flatten(EncodedPairs([(k, v)] + more)) == (Encode(k) + Encode(v)) + Flatten(EncodedPairs(more))
  {
    hide Encode;
    assert ([(k, v)] + more)[1..] == more;
    FlattenStep((Encode(k), Encode(v)), EncodedPairs(more));
  }

  lemma {:induction false} PairsMapOk(schema: Schema, m: Fields)
    requires FieldsOk(schema, m)
    ensures KeyedSort.Ascending(EncodedPairs(PairsFrom(m, 0)))
    ensures var v := Map(PairsFrom(m, 0)); Valid(v) && IsNormal(v) && Height(v) <= 2
  {
    hide FieldOk, FieldValue, PairsFrom, Encode, EncodedPairs, KeyedSort.Ascending, MaxPairHeight, NormedPairs;
    var ps := PairsFrom(m, 0);
    PairsShape(m, 0);
    forall i | 0 <= i < |ps|
      ensures Valid(ps[i].0) && Valid(ps[i].1) && IsNormal(ps[i].0) && IsNormal(ps[i].1)
      ensures Height(ps[i].0) <= 1 && Height(ps[i].1) <= 1
    {
      assert PairOk(m, 0, ps[i]);
      FieldValueOk(schema, ps[i].0.n, m[ps[i].0.n]);
    }
    assert forall i, j :: 0 <= i < j < |ps| ==> KeyBefore(ps[i], ps[j]);
    SmallKeysAscend(ps);
    NormalMap(ps);
    MapHeight(ps, 2);
  }

  /** Whatever the strict reader accepts is, past its magic prefix, one canonical CBOR map with the
      same keys and values. */
  lemma {:induction false} AcceptedIsCanonicalCbor(schema: Schema, input: bytes, limit: nat, m: Fields)
    requires ReadDocument(schema, input, limit) == Ok(m)
    ensures |MagicPrefix()| <= |input| && FromCanonical(input[|MagicPrefix()|..]) == Ok(Map(PairsFrom(m, 0)))
  {
    hide ReadDocument, FieldsOk, MagicPrefix, PairsFrom, WriteFrom, CountFrom, Encode, EncodedPairs, FromCanonical,
      Head, Valid, IsNormal, Height;
    DocumentExact(schema, input, limit, m);
    PairsMapOk(schema, m);
    PairsShape(m, 0);
    PairsBytes(m, 0);
    AscendingMap(PairsFrom(m, 0));
    ReadsBack(Map(PairsFrom(m, 0)));
    assert input[|MagicPrefix()|..] == Head(5, CountFrom(m, 0)) + WriteFrom(m, 0);
  }

  /** The committed payload is the canonical encoding of `{1: payload, 2: [disclosures]}`. */
  lemma {:induction false} CommittedPayloadIsCanonical(payload: bytes, ds: seq<bytes>)
    ensures CommittedPayload(payload, ds)
         == Encode(Map([(Uint(1), ByteStr(payload)), (Uint(2), Array(BlobValues(ds)))]))
  {
    hide Encode, Head, EncodedPairs, KeyedSort.Ascending, WriteField, BlobValues;
    var a, b := (Uint(1), ByteStr(payload)), (Uint(2), Array(BlobValues(ds)));
    SmallKeysAscend([a, b]);
    AscendingMap([a, b]);
    assert [a, b] == [a] + [b] && [b] == [b] + [];
    OnePair(a.0, a.1, [b]);
    OnePair(b.0, b.1, []);
    NoPairs();
    FieldIsValue(Blob(payload));
    FieldIsValue(Blobs(ds));
    UintBytes(1);
    UintBytes(2);
  }

  lemma NoPairs()
    ensures Flatten(EncodedPairs([])) == []
  {
  }
}
