/** The strict map reader accepts exactly what the writer writes. */
module StrictMapTheorems {
  import opened Bytes
  import opened Utf8
  import opened Cbor
  import opened CborTheorems
  import opened HybridTypes
  import opened StrictMap

  // ------------------------------------------------------------ items

  lemma UintSound(s: bytes)
    requires TakeUint(s).Ok?
    ensures s == Head(0, TakeUint(s).value.0) + TakeUint(s).value.1
  {
    HeadSound(s);
  }

  lemma UintComplete(n: u64, t: bytes)
    ensures TakeUint(Head(0, n) + t) == Ok((n, t))
  {
    HeadRoundTrip(0, n, t);
  }

  lemma StringSound(s: bytes, m: major, limit: nat)
    requires TakeString(s, m, limit).Ok?
    ensures var x := TakeString(s, m, limit).value; s == (Head(m, |x.0|) + x.0) + x.1 && |x.0| <= limit
  {
    hide Head, ReadHead;
    HeadSound(s);
    var h := TakeHead(s).value;
    assert h.rest == h.rest[..h.arg] + h.rest[h.arg..];
  }

  lemma StringComplete(b: bytes, m: major, limit: nat, t: bytes)
    requires |b| <= limit && |b| < U64_LIMIT
    ensures TakeString((Head(m, |b|) + b) + t, m, limit) == Ok((b, t))
  {
    hide Head, ReadHead;
    HeadRoundTrip(m, |b|, b + t);
    assert (Head(m, |b|) + b) + t == Head(m, |b|) + (b + t);
    assert (b + t)[..|b|] == b && (b + t)[|b|..] == t;
  }

  lemma {:induction false} ListSound(s: bytes, count: nat)
    requires TakeList(s, count).Ok?
    ensures var x := TakeList(s, count).value; s == WriteBlobs(x.0) + x.1 && BlobsOk(x.0)
    decreases |s|, count
  {
    hide TakeString, Head;
    if count > 0 {
      StringSound(s, 2, MAX_PAYLOAD_BYTES);
      var x := TakeNonEmpty(s).value;
      ListSound(x.1, count - 1);
      var xs := TakeList(x.1, count - 1).value;
      var all := [x.0] + xs.0;
      assert all[1..] == xs.0;
      assert WriteBlobs(all) + xs.1 == WriteBlob(x.0) + (WriteBlobs(xs.0) + xs.1);
    }
  }

  lemma {:induction false} ListComplete(bs: seq<bytes>, t: bytes)
    requires BlobsOk(bs)
    ensures TakeList(WriteBlobs(bs) + t, |bs|) == Ok((bs, t))
  {
    hide TakeString, Head;
    if bs == [] {
      assert WriteBlobs(bs) + t == t;
    } else {
      var more := WriteBlobs(bs[1..]) + t;
      StringComplete(bs[0], 2, MAX_PAYLOAD_BYTES, more);
      assert WriteBlobs(bs) + t == WriteBlob(bs[0]) + more;
      ListComplete(bs[1..], t);
      assert bs == [bs[0]] + bs[1..];
    }
  }

  // ------------------------------------------------------------ fields

  ghost predicate FieldRead(schema: Schema, key: u64, s: bytes, f: Field, rest: bytes) {
    s == WriteField(f) + rest && FieldOk(schema, key, f)
  }

  lemma TextIfSound(s: bytes, ok: bytes -> bool, error: EnvelopeError)
    requires TakeTextIf(s, ok, error).Ok?
    ensures var x := TakeTextIf(s, ok, error).value;
      s == WriteField(Txt(x.0)) + x.1 && ok(x.0) && ValidUtf8(x.0)
  {
    hide TakeString, Head, ValidUtf8;
    StringSound(s, 3, MAX_TEXT_BYTES);
  }

  lemma TextIfComplete(t: bytes, ok: bytes -> bool, error: EnvelopeError, rest: bytes)
    requires ok(t) && |t| <= MAX_TEXT_BYTES && ValidUtf8(t)
    ensures TakeTextIf(WriteField(Txt(t)) + rest, ok, error) == Ok((t, rest))
  {
    hide TakeString, Head, ValidUtf8;
    StringComplete(t, 3, MAX_TEXT_BYTES, rest);
  }

  lemma DisclosuresSound(s: bytes)
    requires ReadDisclosures(s).Ok?
    ensures FieldRead(WrapperMap, 6, s, ReadDisclosures(s).value.0, ReadDisclosures(s).value.1)
  {
    hide ReadHead, Head, TakeList;
    HeadSound(s);
    var h := TakeHead(s).value;
    ListSound(h.rest, h.arg);
    var x := TakeList(h.rest, h.arg).value;
    assert Head(4, h.arg) + (WriteBlobs(x.0) + x.1) == (Head(4, h.arg) + WriteBlobs(x.0)) + x.1;
  }

  lemma DisclosuresComplete(bs: seq<bytes>, t: bytes)
    requires BlobsOk(bs) && |bs| < U64_LIMIT
    ensures ReadDisclosures(WriteField(Blobs(bs)) + t) == Ok((Blobs(bs), t))
  {
    hide ReadHead, Head, TakeList;
    HeadRoundTrip(4, |bs|, WriteBlobs(bs) + t);
    assert WriteField(Blobs(bs)) + t == Head(4, |bs|) + (WriteBlobs(bs) + t);
    ListComplete(bs, t);
  }

  lemma EnvelopeFieldSound(key: u64, s: bytes)
    requires ReadEnvelopeField(key, s).Ok?
    ensures FieldRead(EnvelopeMap, key, s, ReadEnvelopeField(key, s).value.0, ReadEnvelopeField(key, s).value.1)
  {
    hide TakeUint, TakeTextIf, TakeString, Head, IsPurposeId;
    if key <= 2 { UintSound(s); }
    else if key == 3 { TextIfSound(s, IsProfileId, EUnsupportedProfile); }
    else if key <= 5 { StringSound(s, 2, MAX_ENVELOPE_BYTES); }
    else { TextIfSound(s, IsPurposeId, UnexpectedField); }
  }

  lemma WrapperFieldSound(key: u64, s: bytes)
    requires ReadWrapperField(key, s).Ok?
    ensures FieldRead(WrapperMap, key, s, ReadWrapperField(key, s).value.0, ReadWrapperField(key, s).value.1)
  {
    hide TakeUint, TakeTextIf, TakeString, Head, IsWrapperPurposeId, ReadDisclosures, WriteBlobs, ValidUtf8, BlobsOk;
    if key == 1 || key == 9 { UintSound(s); }
    else if key == 2 { TextIfSound(s, IsProfileId, EUnsupportedProfile); }
    else if key == 3 { TextIfSound(s, IsWrapperPurposeId, UnsupportedPurpose); }
    else if key == 4 { TextIfSound(s, IsFormatId, UnsupportedFormat); }
    else if key == 5 { StringSound(s, 2, MAX_PAYLOAD_BYTES); }
    else if key == 6 { DisclosuresSound(s); }
    else if key <= 8 { StringSound(s, 3, MAX_KEY_ID_BYTES); }
    else if key == 10 { StringSound(s, 2, ES256_SIGNATURE_BYTES); }
    else { StringSound(s, 2, ML_DSA_65_SIGNATURE_BYTES); }
  }

  lemma FieldSound(schema: Schema, key: u64, s: bytes)
    requires ReadField(schema, key, s).Ok?
    ensures FieldRead(schema, key, s, ReadField(schema, key, s).value.0, ReadField(schema, key, s).value.1)
  {
    hide FieldRead, ReadEnvelopeField, ReadWrapperField;
    if schema.EnvelopeMap? { EnvelopeFieldSound(key, s); } else { WrapperFieldSound(key, s); }
  }

  lemma KnownTexts()
    ensures ValidUtf8(ProfileId()) && ValidUtf8(CredentialFormat())
    ensures forall t :: IsPurposeId(t) ==> ValidUtf8(t) && |t| <= MAX_TEXT_BYTES
  {
    hide PurposeId, ProfileId, CredentialFormat, ValidUtf8;
    AsciiIsUtf8(ProfileId());
    AsciiIsUtf8(CredentialFormat());
    forall t | IsPurposeId(t) ensures ValidUtf8(t) && |t| <= MAX_TEXT_BYTES { AsciiIsUtf8(t); }
  }

  lemma EnvelopeFieldComplete(key: u64, f: Field, t: bytes)
    requires FieldOk(EnvelopeMap, key, f)
    ensures ReadEnvelopeField(key, WriteField(f) + t) == Ok((f, t))
  {
    hide TakeUint, TakeTextIf, TakeString, Head, IsPurposeId, ValidUtf8, ProfileId;
    KnownTexts();
    if key <= 2 { UintComplete(f.n, t); }
    else if key == 3 { TextIfComplete(f.text, IsProfileId, EUnsupportedProfile, t); }
    else if key <= 5 { StringComplete(f.blob, 2, MAX_ENVELOPE_BYTES, t); }
    else { TextIfComplete(f.text, IsPurposeId, UnexpectedField, t); }
  }

  lemma WrapperFieldComplete(key: u64, f: Field, t: bytes)
    requires FieldOk(WrapperMap, key, f)
    ensures ReadWrapperField(key, WriteField(f) + t) == Ok((f, t))
  {
    hide TakeUint, TakeTextIf, TakeString, Head, ValidUtf8, ProfileId, CredentialFormat, ReadDisclosures, WriteBlobs,
      PurposeOf, BlobsOk;
    KnownTexts();
    if key == 1 || key == 9 { UintComplete(f.n, t); }
    else if key == 2 { TextIfComplete(f.text, IsProfileId, EUnsupportedProfile, t); }
    else if key == 3 { assert IsPurposeId(f.text); TextIfComplete(f.text, IsWrapperPurposeId, UnsupportedPurpose, t); }
    else if key == 4 { TextIfComplete(f.text, IsFormatId, UnsupportedFormat, t); }
    else if key == 5 { StringComplete(f.blob, 2, MAX_PAYLOAD_BYTES, t); }
    else if key == 6 { DisclosuresComplete(f.blobs, t); }
    else if key <= 8 { StringComplete(f.text, 3, MAX_KEY_ID_BYTES, t); }
    else if key == 10 { StringComplete(f.blob, 2, ES256_SIGNATURE_BYTES, t); }
    else { StringComplete(f.blob, 2, ML_DSA_65_SIGNATURE_BYTES, t); }
  }

  lemma FieldComplete(schema: Schema, key: u64, f: Field, t: bytes)
    requires FieldOk(schema, key, f)
    ensures ReadField(schema, key, WriteField(f) + t) == Ok((f, t))
  {
    hide FieldOk, ReadEnvelopeField, ReadWrapperField, WriteField;
    if schema.EnvelopeMap? { EnvelopeFieldComplete(key, f, t); } else { WrapperFieldComplete(key, f, t); }
  }

  lemma KeyKnown(schema: Schema, key: u64, f: Field)
    requires FieldOk(schema, key, f)
    ensures key < KEY_LIMIT
  {
    hide ValidUtf8, IsPurposeId, IsWrapperPurposeId, BlobsOk, ProfileId, CredentialFormat;
  }

  // ------------------------------------------------------------ maps

  lemma {:induction false} FirstEntry(m: Fields, key: nat)
    requires key < KEY_LIMIT && key in m
    ensures WriteFrom(m, key) == WriteEntry(key, m[key]) + WriteFrom(m, key + 1)
    ensures CountFrom(m, key) == 1 + CountFrom(m, key + 1)
  {
    hide WriteEntry;
  }

  lemma {:induction false} NoEntry(m: Fields, key: nat)
    requires key < KEY_LIMIT && key !in m
    ensures WriteFrom(m, key) == WriteFrom(m, key + 1) && CountFrom(m, key) == CountFrom(m, key + 1)
  {
    hide WriteEntry;
    assert [] + WriteFrom(m, key + 1) == WriteFrom(m, key + 1);
  }

  lemma NoEntries(m: Fields)
    ensures WriteFrom(m, KEY_LIMIT) == [] && CountFrom(m, KEY_LIMIT) == 0
  {
    hide WriteEntry;
  }

  lemma {:induction false} SkipAbsent(m: Fields, lo: nat, hi: nat)
    requires lo <= hi <= KEY_LIMIT && forall k :: lo <= k < hi ==> k !in m
    ensures WriteFrom(m, lo) == WriteFrom(m, hi) && CountFrom(m, lo) == CountFrom(m, hi)
    decreases hi - lo
  {
    hide WriteFrom, CountFrom;
    if lo < hi {
      NoEntry(m, lo);
      SkipAbsent(m, lo + 1, hi);
    }
  }

  /** `m` extends `acc`, which holds the keys up to `prev`, by what `s` holds before `rest`. */
  ghost predicate FieldsRead(schema: Schema, s: bytes, count: nat, prev: int, acc: Fields, m: Fields, rest: bytes)
    requires prev >= -1
  {
    && s == WriteFrom(m, prev + 1) + rest
    && count == CountFrom(m, prev + 1)
    && (forall k :: k in m && k <= prev ==> k in acc && m[k] == acc[k])
    && (forall k :: k in acc ==> k in m && m[k] == acc[k])
    && (forall k :: k in m && k > prev ==> k < KEY_LIMIT && FieldOk(schema, k, m[k]))
  }

  lemma {:induction false} FieldsSound(schema: Schema, s: bytes, count: nat, prev: int, acc: Fields)
    requires -1 <= prev < KEY_LIMIT && forall k :: k in acc ==> k <= prev
    requires ReadFields(schema, s, count, prev, acc).Ok?
    ensures var x := ReadFields(schema, s, count, prev, acc).value;
      FieldsRead(schema, s, count, prev, acc, x.0, x.1)
    decreases |s|
  {
    hide TakeUint, ReadField, WriteEntry, FieldOk, FieldsRead;
    if count == 0 {
      NoMoreFields(schema, s, prev, acc);
    } else {
      UintSound(s);
      var key := TakeUint(s).value;
      FieldSound(schema, key.0, key.1);
      var f := ReadField(schema, key.0, key.1).value;
      KeyKnown(schema, key.0, f.0);
      FieldsSound(schema, f.1, count - 1, key.0, acc[key.0 := f.0]);
      var x := ReadFields(schema, f.1, count - 1, key.0, acc[key.0 := f.0]).value;
      FieldsStep(schema, s, count, prev, acc, key.0, f.0, f.1, x.0, x.1);
    }
  }

  lemma {:induction false} NoMoreFields(schema: Schema, s: bytes, prev: int, acc: Fields)
    requires -1 <= prev < KEY_LIMIT && forall k :: k in acc ==> k <= prev
    ensures FieldsRead(schema, s, 0, prev, acc, acc, s)
  {
    hide WriteFrom, CountFrom;
    SkipAbsent(acc, prev + 1, KEY_LIMIT);
    NoEntries(acc);
    assert WriteFrom(acc, KEY_LIMIT) + s == s;
  }

  lemma {:induction false} FieldsStep(schema: Schema, s: bytes, count: nat, prev: int, acc: Fields,
                                      key: u64, f: Field, s2: bytes, m: Fields, rest: bytes)
    requires -1 <= prev < key < KEY_LIMIT && count > 0 && forall k :: k in acc ==> k <= prev
    requires s == Head(0, key) + (WriteField(f) + s2) && FieldOk(schema, key, f)
    requires FieldsRead(schema, s2, count - 1, key, acc[key := f], m, rest)
    ensures FieldsRead(schema, s, count, prev, acc, m, rest)
  {
    hide Head, WriteField, FieldOk, WriteFrom, CountFrom;
    var a, b, c := Head(0, key), WriteField(f), WriteFrom(m, key + 1);
    GapAbsent(prev, acc, key, f, m);
    SkipAbsent(m, prev + 1, key);
    FirstEntry(m, key);
    assert ((a + b) + c) + rest == a + (b + (c + rest));
  }

  lemma {:induction false} GapAbsent(prev: int, acc: Fields, key: u64, f: Field, m: Fields)
    requires -1 <= prev < key && forall k :: k in acc ==> k <= prev
    requires forall k :: k in m && k <= key ==> k in acc[key := f] && m[k] == acc[key := f][k]
    requires forall k :: k in acc[key := f] ==> k in m && m[k] == acc[key := f][k]
    ensures forall k :: prev < k < key ==> k !in m
    ensures key in m && m[key] == f
    ensures forall k :: k in acc ==> k in m && m[k] == acc[k]
    ensures forall k :: k in m && k <= prev ==> k in acc
  {
    forall k | k in acc ensures k in m && m[k] == acc[k] { assert k in acc[key := f]; }
    assert key in acc[key := f];
  }

  /** The part of `m` below `lo`. */
  function Below(m: Fields, lo: nat): (r: Fields) { map k | k in m && k < lo :: m[k] }

  lemma {:induction false} FieldsComplete(schema: Schema, m: Fields, lo: nat, prev: int, t: bytes)
    requires FieldsOk(schema, m) && -1 <= prev < lo <= KEY_LIMIT && forall k :: prev < k < lo ==> k !in m
    ensures ReadFields(schema, WriteFrom(m, lo) + t, CountFrom(m, lo), prev, Below(m, lo)) == Ok((m, t))
    decreases KEY_LIMIT - lo
  {
    hide FieldOk, ReadFields, WriteEntry, WriteFrom, CountFrom;
    if lo == KEY_LIMIT {
      NoEntries(m);
      ReadNoFields(schema, t, prev, m);
      assert WriteFrom(m, lo) + t == t;
      assert Below(m, lo) == m;
    } else if lo !in m {
      FieldsComplete(schema, m, lo + 1, prev, t);
      NoEntry(m, lo);
      assert Below(m, lo + 1) == Below(m, lo);
    } else {
      FieldsComplete(schema, m, lo + 1, lo, t);
      var more := WriteFrom(m, lo + 1) + t;
      FirstEntry(m, lo);
      assert WriteFrom(m, lo) + t == WriteEntry(lo, m[lo]) + more;
      assert Below(m, lo)[lo := m[lo]] == Below(m, lo + 1);
      ReadOneField(schema, lo, m[lo], more, CountFrom(m, lo + 1), prev, Below(m, lo));
    }
  }

  lemma ReadNoFields(schema: Schema, t: bytes, prev: int, acc: Fields)
    ensures ReadFields(schema, t, 0, prev, acc) == Ok((acc, t))
  {
  }

  lemma {:induction false} ReadOneField(schema: Schema, key: nat, f: Field, more: bytes, count: nat, prev: int,
                                        acc: Fields)
    requires -1 <= prev < key < KEY_LIMIT && FieldOk(schema, key, f)
    ensures ReadFields(schema, WriteEntry(key, f) + more, count + 1, prev, acc)
         == ReadFields(schema, more, count, key, acc[key := f])
  {
    hide FieldOk, ReadField, TakeUint, WriteEntry;
    EntryComplete(schema, key, f, more);
  }

  lemma {:induction false} EntryComplete(schema: Schema, key: nat, f: Field, more: bytes)
    requires key < KEY_LIMIT && FieldOk(schema, key, f)
    ensures TakeUint(WriteEntry(key, f) + more) == Ok((key, WriteField(f) + more))
    ensures ReadField(schema, key, WriteField(f) + more) == Ok((f, more))
  {
    hide FieldOk, ReadField, TakeUint, Head, WriteField;
    UintComplete(key, WriteField(f) + more);
    assert WriteEntry(key, f) + more == Head(0, key) + (WriteField(f) + more);
    FieldComplete(schema, key, f, more);
  }

  // ------------------------------------------------------------ documents

  /** A document is accepted as `m` exactly when it is what the writer produces for `m`, `m`
      obeys the schema and the size limit holds. */
  lemma {:induction false} DocumentExact(schema: Schema, input: bytes, limit: nat, m: Fields)
    ensures ReadDocument(schema, input, limit) == Ok(m)
       <==> FieldsOk(schema, m) && input == WriteDocument(m) && |input| <= limit
  {
    hide ReadFields, TakeHead, WriteFrom, FieldOk, Head, MagicPrefix;
    if ReadDocument(schema, input, limit) == Ok(m) { DocumentSound(schema, input, limit, m); }
    if FieldsOk(schema, m) && input == WriteDocument(m) && |input| <= limit { DocumentComplete(schema, m, limit); }
  }

  lemma {:induction false} DocumentSound(schema: Schema, input: bytes, limit: nat, m: Fields)
    requires ReadDocument(schema, input, limit) == Ok(m)
    ensures FieldsOk(schema, m) && input == WriteDocument(m) && |input| <= limit
  {
    hide ReadFields, WriteFrom, FieldOk, Head, MagicPrefix, ReadHead;
    var n := |MagicPrefix()|;
    var body := input[n..];
    assert input == MagicPrefix() + body;
    HeadSound(body);
    var h := TakeHead(body).value;
    FieldsSound(schema, h.rest, h.arg, -1, map[]);
    assert WriteFrom(m, 0) + [] == WriteFrom(m, 0);
  }

  lemma {:induction false} DocumentComplete(schema: Schema, m: Fields, limit: nat)
    requires FieldsOk(schema, m) && |WriteDocument(m)| <= limit
    ensures ReadDocument(schema, WriteDocument(m), limit) == Ok(m)
  {
    hide ReadFields, WriteFrom, FieldOk, Head, MagicPrefix, ReadHead;
    var p, input := MagicPrefix(), WriteDocument(m);
    var body := Head(5, CountFrom(m, 0)) + WriteFrom(m, 0);
    assert input[|p|..] == body && input[..|p|] == p;
    HeadRoundTrip(5, CountFrom(m, 0), WriteFrom(m, 0));
    FieldsComplete(schema, m, 0, -1, []);
    assert WriteFrom(m, 0) + [] == WriteFrom(m, 0);
    assert Below(m, 0) == map[];
  }
}
