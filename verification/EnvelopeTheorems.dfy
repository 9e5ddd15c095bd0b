/** Envelopes and wrappers: encoding and decoding are inverse, and no byte string is two things. */
module EnvelopeTheorems {
  import opened Bytes
  import opened Utf8
  import opened Cbor
  import opened HybridTypes
  import opened StrictMap
  import opened StrictMapTheorems
  import opened Envelope

  // ------------------------------------------------------------ sizes

  lemma HeadLength(m: major, arg: nat)
    ensures 1 <= |Head(m, arg)| <= 9
  {
  }

  lemma EntryLength(key: nat, f: Field)
    ensures f.Num? ==> |WriteEntry(key, f)| <= 18
    ensures f.Txt? ==> |WriteEntry(key, f)| <= 18 + |f.text|
    ensures f.Blob? ==> |f.blob| + 2 <= |WriteEntry(key, f)| <= 18 + |f.blob|
    ensures f.Blobs? ==> |WriteBlobs(f.blobs)| + 2 <= |WriteEntry(key, f)| <= 18 + |WriteBlobs(f.blobs)|
  {
    hide Head;
    HeadLength(0, key);
    match f
    case Num(n) => HeadLength(0, n);
    case Txt(t) => HeadLength(3, |t|);
    case Blob(b) => HeadLength(2, |b|);
    case Blobs(bs) => HeadLength(4, |bs|);
  }

  // ------------------------------------------------------------ public keys

  function KeyFields(k: Pair): (m: Fields) {
    map[1 := Num(ENVELOPE_VERSION), 2 := Num(KIND_PUBLIC_KEY), 3 := Txt(ProfileId()),
        4 := Blob(k.classical), 5 := Blob(k.postQuantum)]
  }

  lemma {:induction false} LastStep(m: Fields, key: nat)
    requires key < KEY_LIMIT && key in m && forall k :: key < k < KEY_LIMIT ==> k !in m
    ensures WriteFrom(m, key) == WriteEntry(key, m[key])
    ensures CountFrom(m, key) == 1
  {
    hide WriteEntry, WriteFrom, CountFrom;
    FirstEntry(m, key);
    SkipAbsent(m, key + 1, KEY_LIMIT);
    NoEntries(m);
    assert WriteEntry(key, m[key]) + [] == WriteEntry(key, m[key]);
  }

  lemma {:induction false} KeyKeys(k: Pair)
    ensures forall i :: 0 <= i < KEY_LIMIT ==> (i in KeyFields(k) <==> 0 < i <= 5)
    ensures KeyFields(k).Keys == {1, 2, 3, 4, 5}
  {
    hide ProfileId;
  }

  lemma {:induction false} KeyDocument(k: Pair)
    ensures WriteDocument(KeyFields(k)) == EncodePublicKey(k)
  {
    hide WriteEntry, WriteFrom, CountFrom, Head, MagicPrefix, ProfileId;
    KeyKeys(k);
    var m := KeyFields(k);
    SkipAbsent(m, 0, 1);
    FirstEntry(m, 1);
    FirstEntry(m, 2);
    FirstEntry(m, 3);
    FirstEntry(m, 4);
    LastStep(m, 5);
  }

  lemma {:induction false} KeyFieldsOk(k: Pair)
    requires PublicKeyOk(k)
    ensures FieldsOk(EnvelopeMap, KeyFields(k))
    ensures FromEnvelopeFields(KeyFields(k)) == Ok(Parsed(KIND_PUBLIC_KEY, k.classical, k.postQuantum, None))
  {
    hide ProfileId, PurposeOf;
  }

  lemma {:induction false} KeyLength(k: Pair)
    requires PublicKeyOk(k)
    ensures |EncodePublicKey(k)| <= MAX_ENVELOPE_BYTES
  {
    hide WriteEntry, Head, ProfileId, MagicPrefix;
    HeadLength(5, 5);
    EntryLength(1, Num(ENVELOPE_VERSION));
    EntryLength(2, Num(KIND_PUBLIC_KEY));
    EntryLength(3, Txt(ProfileId()));
    EntryLength(4, Blob(k.classical));
    EntryLength(5, Blob(k.postQuantum));
  }

  lemma {:induction false} PurposeFieldReads(m: Fields)
    requires FieldsOk(EnvelopeMap, m)
    ensures 6 in m <==> GetTxt(m, 6).Some? && PurposeOf(GetTxt(m, 6).value).Some?
  {
    hide ProfileId, PurposeOf;
    assert 6 in m ==> FieldOk(EnvelopeMap, 6, m[6]);
  }

  lemma {:induction false} EnvelopeKeysKnown(m: Fields)
    requires FieldsOk(EnvelopeMap, m)
    ensures m.Keys <= {1, 2, 3, 4, 5, 6}
  {
    hide ProfileId, PurposeOf;
  }

  /** The fields a public-key envelope was read as are those of the key. */
  lemma {:induction false} KeyFieldsOnly(m: Fields, k: Pair)
    requires FieldsOk(EnvelopeMap, m)
    requires FromEnvelopeFields(m) == Ok(Parsed(KIND_PUBLIC_KEY, k.classical, k.postQuantum, None))
    ensures m == KeyFields(k)
  {
    hide ProfileId, PurposeOf;
    PurposeFieldReads(m);
    EnvelopeKeysKnown(m);
    KeyKeys(k);
  }

  /** Public keys: decoding accepts exactly the encodings of well-formed keys. */
  lemma {:induction false} PublicKeyExact(input: bytes, k: Pair)
    ensures DecodePublicKey(input) == Ok(k) <==> PublicKeyOk(k) && input == EncodePublicKey(k)
  {
    hide ReadDocument, WriteDocument, FieldsOk, FromEnvelopeFields, KeyFields, EncodePublicKey, PublicKeyOk;
    if DecodePublicKey(input) == Ok(k) {
      var m := ReadDocument(EnvelopeMap, input, MAX_ENVELOPE_BYTES).value;
      DocumentExact(EnvelopeMap, input, MAX_ENVELOPE_BYTES, m);
      KeyFieldsOnly(m, k);
      KeyDocument(k);
    }
    if PublicKeyOk(k) && input == EncodePublicKey(k) {
      KeyFieldsOk(k);
      KeyDocument(k);
      KeyLength(k);
      DocumentExact(EnvelopeMap, input, MAX_ENVELOPE_BYTES, KeyFields(k));
    }
  }

  // ------------------------------------------------------------ signatures

  function SignatureFields(e: SignatureEnvelope): (m: Fields) {
    map[1 := Num(ENVELOPE_VERSION), 2 := Num(KIND_SIGNATURE), 3 := Txt(ProfileId()),
        4 := Blob(e.signature.classical), 5 := Blob(e.signature.postQuantum), 6 := Txt(PurposeId(e.purpose))]
  }

  lemma {:induction false} SignatureKeys(e: SignatureEnvelope)
    ensures forall i :: 0 <= i < KEY_LIMIT ==> (i in SignatureFields(e) <==> 0 < i <= 6)
    ensures SignatureFields(e).Keys == {1, 2, 3, 4, 5, 6}
  {
    hide ProfileId, PurposeId;
  }

  lemma {:induction false} SignatureDocument(e: SignatureEnvelope)
    ensures WriteDocument(SignatureFields(e)) == EncodeSignature(e)
  {
    hide WriteEntry, WriteFrom, CountFrom, Head, MagicPrefix, ProfileId, PurposeId;
    SignatureKeys(e);
    var m := SignatureFields(e);
    SkipAbsent(m, 0, 1);
    FirstEntry(m, 1);
    FirstEntry(m, 2);
    FirstEntry(m, 3);
    FirstEntry(m, 4);
    FirstEntry(m, 5);
    LastStep(m, 6);
  }

  lemma {:induction false} SignatureFieldsOk(e: SignatureEnvelope)
    requires SignatureOk(e.signature)
    ensures FieldsOk(EnvelopeMap, SignatureFields(e))
    ensures FromEnvelopeFields(SignatureFields(e))
         == Ok(Parsed(KIND_SIGNATURE, e.signature.classical, e.signature.postQuantum, Some(e.purpose)))
  {
    hide ProfileId, PurposeOf, PurposeId;
    PurposeRoundTrip(PurposeId(e.purpose), e.purpose);
  }

  lemma {:induction false} SignatureLength(e: SignatureEnvelope)
    requires SignatureOk(e.signature)
    ensures |EncodeSignature(e)| <= MAX_ENVELOPE_BYTES
  {
    hide WriteEntry, Head, ProfileId, PurposeId, MagicPrefix;
    HeadLength(5, 6);
    EntryLength(1, Num(ENVELOPE_VERSION));
    EntryLength(2, Num(KIND_SIGNATURE));
    EntryLength(3, Txt(ProfileId()));
    EntryLength(4, Blob(e.signature.classical));
    EntryLength(5, Blob(e.signature.postQuantum));
    EntryLength(6, Txt(PurposeId(e.purpose)));
  }

  lemma {:induction false} SignatureFieldsOnly(m: Fields, e: SignatureEnvelope)
    requires FieldsOk(EnvelopeMap, m)
    requires FromEnvelopeFields(m)
          == Ok(Parsed(KIND_SIGNATURE, e.signature.classical, e.signature.postQuantum, Some(e.purpose)))
    ensures m == SignatureFields(e)
  {
    hide ProfileId, PurposeOf, PurposeId;
    PurposeFieldReads(m);
    EnvelopeKeysKnown(m);
    SignatureKeys(e);
    PurposeRoundTrip(m[6].text, e.purpose);
  }

  /** Signature envelopes: decoding accepts exactly the encodings of well-formed envelopes. */
  lemma {:induction false} SignatureExact(input: bytes, e: SignatureEnvelope)
    ensures DecodeSignature(input) == Ok(e) <==> SignatureOk(e.signature) && input == EncodeSignature(e)
  {
    hide ReadDocument, WriteDocument, FieldsOk, FromEnvelopeFields, SignatureFields, EncodeSignature, SignatureOk;
    if DecodeSignature(input) == Ok(e) {
      var m := ReadDocument(EnvelopeMap, input, MAX_ENVELOPE_BYTES).value;
      DocumentExact(EnvelopeMap, input, MAX_ENVELOPE_BYTES, m);
      SignatureFieldsOnly(m, e);
      SignatureDocument(e);
    }
    if SignatureOk(e.signature) && input == EncodeSignature(e) {
      SignatureFieldsOk(e);
      SignatureDocument(e);
      SignatureLength(e);
      DocumentExact(EnvelopeMap, input, MAX_ENVELOPE_BYTES, SignatureFields(e));
    }
  }

  // ------------------------------------------------------------ wrappers

  function WrapperFields(w: Wrapper): (m: Fields) {
    map[1 := Num(WRAPPER_VERSION), 2 := Txt(ProfileId()), 3 := Txt(PurposeId(w.purpose)), 4 := Txt(CredentialFormat()),
        5 := Blob(w.payload), 6 := Blobs(w.disclosures), 7 := Txt(w.classicalKeyId), 8 := Txt(w.pqKeyId),
        9 := Num(w.generation), 10 := Blob(w.signature.classical), 11 := Blob(w.signature.postQuantum)]
  }

  lemma {:induction false} WrapperKeys(w: Wrapper)
    ensures forall i :: 0 <= i < KEY_LIMIT ==> (i in WrapperFields(w) <==> i > 0)
    ensures WrapperFields(w).Keys == {1, 2, 3, 4, 5, 6, 7, 8, 9, 10, 11}
  {
    hide ProfileId, PurposeId, CredentialFormat;
  }

  lemma {:induction false} WrapperDocument(w: Wrapper)
    ensures WriteDocument(WrapperFields(w)) == EncodeWrapper(w)
  {
    hide WriteEntry, WriteFrom, CountFrom, Head, MagicPrefix, ProfileId, PurposeId, CredentialFormat;
    WrapperKeys(w);
    var m := WrapperFields(w);
    SkipAbsent(m, 0, 1);
    FirstEntry(m, 1);
    FirstEntry(m, 2);
    FirstEntry(m, 3);
    FirstEntry(m, 4);
    FirstEntry(m, 5);
    FirstEntry(m, 6);
    FirstEntry(m, 7);
    FirstEntry(m, 8);
    FirstEntry(m, 9);
    FirstEntry(m, 10);
    LastStep(m, 11);
  }

  /** The constructor accepts exactly the well-formed wrappers. */
  lemma {:induction false} NewWrapperExact(w: Wrapper)
    requires |w.disclosures| < U64_LIMIT && SignatureOk(w.signature)
    requires ValidUtf8(w.classicalKeyId) && ValidUtf8(w.pqKeyId)
    ensures NewWrapper(w).Ok? <==> WrapperOk(w)
    ensures NewWrapper(w).Ok? ==> NewWrapper(w).value == w
  {
    hide CommittedPayload, DisclosureError;
  }

  lemma {:induction false} WrapperFieldsOk(w: Wrapper)
    requires PartsOk(w)
    ensures FieldsOk(WrapperMap, WrapperFields(w))
  {
    hide ProfileId, PurposeOf, PurposeId, CredentialFormat, CommittedPayload, ValidUtf8, BlobsOk;
    PurposeRoundTrip(PurposeId(w.purpose), w.purpose);
  }

  lemma {:induction false} NewWrapperOf(w: Wrapper)
    requires PartsOk(w)
    ensures NewWrapper(w) ==
      if |CommittedPayload(w.payload, w.disclosures)| <= 4096 then Ok(w) else Err(ResourceLimitExceeded)
  {
    hide CommittedPayload, DisclosureError, ValidUtf8, BlobsOk;
  }

  lemma {:induction false} WrapperFieldsRead(w: Wrapper)
    requires PartsOk(w)
    ensures FromWrapperFields(WrapperFields(w)) ==
      if |CommittedPayload(w.payload, w.disclosures)| <= 4096 then Ok(w) else Err(TooLarge)
  {
    hide ProfileId, PurposeOf, PurposeId, CredentialFormat, CommittedPayload, NewWrapper, ValidUtf8, BlobsOk,
      DisclosureError;
    PurposeRoundTrip(PurposeId(w.purpose), w.purpose);
    NewWrapperOf(w);
    var m := WrapperFields(w);
    assert GetNum(m, 1) == Some(WRAPPER_VERSION) && GetTxt(m, 2).Some? && GetTxt(m, 4).Some?;
    assert GetTxt(m, 3) == Some(PurposeId(w.purpose)) && GetBlob(m, 5) == Some(w.payload);
    assert GetBlobs(m, 6) == Some(w.disclosures) && GetTxt(m, 7) == Some(w.classicalKeyId);
    assert GetTxt(m, 8) == Some(w.pqKeyId) && GetNum(m, 9) == Some(w.generation);
    assert GetBlob(m, 10) == Some(w.signature.classical) && GetBlob(m, 11) == Some(w.signature.postQuantum);
    hide WrapperFields, GetNum, GetTxt, GetBlob, GetBlobs;
  }

  lemma {:induction false} WrapperLength(w: Wrapper)
    requires WrapperOk(w)
    ensures |EncodeWrapper(w)| <= MAX_WRAPPER_BYTES
  {
    hide WriteEntry, Head, ProfileId, PurposeId, CredentialFormat, MagicPrefix, ValidUtf8, BlobsOk, WriteBlobs;
    HeadLength(5, 11);
    EntryLength(1, Num(WRAPPER_VERSION));
    EntryLength(2, Txt(ProfileId()));
    EntryLength(3, Txt(PurposeId(w.purpose)));
    EntryLength(4, Txt(CredentialFormat()));
    EntryLength(5, Blob(w.payload));
    EntryLength(6, Blobs(w.disclosures));
    EntryLength(7, Txt(w.classicalKeyId));
    EntryLength(8, Txt(w.pqKeyId));
    EntryLength(9, Num(w.generation));
    EntryLength(10, Blob(w.signature.classical));
    EntryLength(11, Blob(w.signature.postQuantum));
    EntryLength(1, Blob(w.payload));
    EntryLength(2, Blobs(w.disclosures));
  }

  lemma {:induction false} WrapperFieldsOnly(m: Fields, w: Wrapper)
    requires FieldsOk(WrapperMap, m) && FromWrapperFields(m) == Ok(w)
    ensures WrapperOk(w) && m == WrapperFields(w)
  {
    hide ProfileId, PurposeOf, PurposeId, CredentialFormat, CommittedPayload, NewWrapper, ValidUtf8, BlobsOk,
      DisclosureError;
    WrapperFieldsPresent(m);
    PurposeRoundTrip(m[3].text, w.purpose);
    WrapperKeys(w);
    NewWrapperKeeps(m);
  }

  lemma {:induction false} WrapperFieldsPresent(m: Fields)
    requires FieldsOk(WrapperMap, m) && FromWrapperFields(m).Ok?
    ensures m.Keys == {1, 2, 3, 4, 5, 6, 7, 8, 9, 10, 11}
  {
    hide ProfileId, PurposeOf, PurposeId, CredentialFormat, CommittedPayload, NewWrapper, ValidUtf8, BlobsOk,
      DisclosureError;
    forall i | i in m ensures i in {1, 2, 3, 4, 5, 6, 7, 8, 9, 10, 11} { KeyKnown(WrapperMap, i, m[i]); }
  }

  lemma {:induction false} NewWrapperKeeps(m: Fields)
    requires FieldsOk(WrapperMap, m) && FromWrapperFields(m).Ok?
    requires m.Keys == {1, 2, 3, 4, 5, 6, 7, 8, 9, 10, 11}
    ensures var w := FromWrapperFields(m).value;
      && WrapperOk(w)
      && w == Wrapper(PurposeOf(m[3].text).value, m[5].blob, m[6].blobs, m[7].text, m[8].text, m[9].n,
                      Pair(m[10].blob, m[11].blob))
  {
    hide ProfileId, PurposeOf, PurposeId, CredentialFormat, CommittedPayload, NewWrapper, ValidUtf8, BlobsOk,
      DisclosureError;
    NewWrapperExact(Wrapper(PurposeOf(m[3].text).value, m[5].blob, m[6].blobs, m[7].text, m[8].text, m[9].n,
                            Pair(m[10].blob, m[11].blob)));
  }

  /** Wrappers: decoding accepts exactly the encodings of well-formed wrappers. */
  lemma {:induction false} WrapperExact(input: bytes, w: Wrapper)
    ensures DecodeWrapper(input) == Ok(w) <==> WrapperOk(w) && input == EncodeWrapper(w)
  {
    hide ReadDocument, WriteDocument, FieldsOk, FromWrapperFields, WrapperFields, EncodeWrapper, PartsOk,
      CommittedPayload;
    if DecodeWrapper(input) == Ok(w) {
      var m := ReadDocument(WrapperMap, input, MAX_WRAPPER_BYTES).value;
      DocumentExact(WrapperMap, input, MAX_WRAPPER_BYTES, m);
      WrapperFieldsOnly(m, w);
      WrapperDocument(w);
    }
    if WrapperOk(w) && input == EncodeWrapper(w) {
      WrapperFieldsOk(w);
      WrapperFieldsRead(w);
      WrapperDocument(w);
      WrapperLength(w);
      DocumentExact(WrapperMap, input, MAX_WRAPPER_BYTES, WrapperFields(w));
    }
  }

  /** A wrapper whose fields are each in order reads back, unless its committed payload is over the
      limit: then it is too large, whether or not its encoding is. */
  lemma {:induction false} WrapperReadsBack(w: Wrapper)
    requires PartsOk(w)
    ensures DecodeWrapper(EncodeWrapper(w)) ==
      if |CommittedPayload(w.payload, w.disclosures)| <= 4096 then Ok(w) else Err(TooLarge)
  {
    hide WriteDocument, FieldsOk, FromWrapperFields, WrapperFields, EncodeWrapper, PartsOk, CommittedPayload;
    WrapperExact(EncodeWrapper(w), w);
    if |EncodeWrapper(w)| <= MAX_WRAPPER_BYTES {
      WrapperFieldsOk(w);
      WrapperFieldsRead(w);
      WrapperDocument(w);
      DocumentExact(WrapperMap, EncodeWrapper(w), MAX_WRAPPER_BYTES, WrapperFields(w));
    }
  }

  // ------------------------------------------------------------ disjointness

  lemma {:induction false} MapHeadByte(p: bytes, n: nat, tail: bytes)
    requires n <= 23
    ensures |p + (Head(5, n) + tail)| > |p| && (p + (Head(5, n) + tail))[|p|] == 160 + n
  {
  }

  /** The three formats share a magic prefix, yet no byte string is accepted by two decoders. */
  lemma {:induction false} FormatsDisjoint(input: bytes)
    ensures !(DecodePublicKey(input).Ok? && DecodeSignature(input).Ok?)
    ensures !(DecodePublicKey(input).Ok? && DecodeWrapper(input).Ok?)
    ensures !(DecodeSignature(input).Ok? && DecodeWrapper(input).Ok?)
  {
    hide DecodePublicKey, DecodeSignature, DecodeWrapper, WriteEntry, Head, MagicPrefix, PublicKeyOk,
      SignatureOk, WrapperOk;
    var n := |MagicPrefix()|;
    if DecodePublicKey(input).Ok? { PublicKeyExact(input, DecodePublicKey(input).value); }
    if DecodeSignature(input).Ok? { SignatureExact(input, DecodeSignature(input).value); }
    if DecodeWrapper(input).Ok? { WrapperExact(input, DecodeWrapper(input).value); }
    forall t ensures (MagicPrefix() + (Head(5, 5) + t))[n] == 165 { MapHeadByte(MagicPrefix(), 5, t); }
    forall t ensures (MagicPrefix() + (Head(5, 6) + t))[n] == 166 { MapHeadByte(MagicPrefix(), 6, t); }
    forall t ensures (MagicPrefix() + (Head(5, 11) + t))[n] == 171 { MapHeadByte(MagicPrefix(), 11, t); }
  }
}
