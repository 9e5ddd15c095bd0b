/** Envelopes and wrappers as the program reads and writes them: a decoder that owns a position
    in its input, and writers that append to an output buffer. */
module EnvelopeCodec {
  import opened Bytes
  import opened Utf8
  import opened Cbor
  import opened CborCodec
  import opened HybridTypes
  import opened StrictMap
  import opened Envelope
  import EnvelopeTheorems

  class Decoder {
    const input: bytes
    var position: nat

    constructor (input: bytes)
      ensures this.input == input && position == 0
    {
      this.input := input;
      position := 0;
    }

    ghost predicate Valid()
      reads this
    {
      position <= |input|
    }

    ghost function Rest(): (s: bytes)
      reads this
      requires Valid()
    {
      input[position..]
    }

    method TakeArray(n: nat) returns (r: Result<bytes, EnvelopeError>)
      requires Valid()
      modifies this`position
      ensures Valid() && position >= old(position)
      ensures r == if |old(Rest())| < n then Err(ETruncated) else Ok(old(Rest())[..n])
      ensures r.Ok? ==> Rest() == old(Rest())[n..]
      ensures r.Err? ==> position == old(position)
    {
      ghost var s := Rest();
      var end := position + n;
      if end > |input| { return Err(ETruncated); }
      r := Ok(input[position..end]);
      assert input[position..end] == s[..n];
      position := end;
      assert Rest() == s[n..];
    }

    method ReadHead() returns (r: Result<(major, u64), EnvelopeError>)
      requires Valid()
      modifies this`position
      ensures Valid() && position >= old(position)
      ensures var x := TakeHead(old(Rest()));
        && (r.Err? ==> x == Err(r.error))
        && (r.Ok? ==> x == Ok(HeadItem(r.value.0, r.value.1, Rest())) && position > old(position))
    {
      hide ToBe, FromBe;
      ghost var s := Rest();
      if position >= |input| { return Err(ETruncated); }
      var first := input[position];
      assert first == s[0];
      position := position + 1;
      assert Rest() == s[1..];
      var m: major, info := first / 32, first % 32;
      if info <= 23 { return Ok((m, info)); }
      if info == 31 { return Err(EIndefiniteLength); }
      if info >= 28 { return Err(NonCanonical); }
      var width := if info == 24 then 1 else if info == 25 then 2 else if info == 26 then 4 else 8;
      var taken := TakeArray(width);
      if taken.Err? { return Err(taken.error); }
      ArgFits(taken.value);
      var value := FromBe(taken.value);
      if value <= Shorter(info) { return Err(NonCanonical); }
      return Ok((m, value));
    }

    method ReadUint() returns (r: Result<u64, EnvelopeError>)
      requires Valid()
      modifies this`position
      ensures Valid() && position >= old(position)
      ensures var x := TakeUint(old(Rest()));
        (r.Err? ==> x == Err(r.error)) && (r.Ok? ==> x == Ok((r.value, Rest())) && position > old(position))
    {
      hide Cbor.ReadHead;
      var head := ReadHead();
      if head.Err? { return Err(head.error); }
      if head.value.0 != 0 { return Err(WrongType); }
      return Ok(head.value.1);
    }

    method ReadString(m: major, limit: nat) returns (r: Result<bytes, EnvelopeError>)
      requires Valid()
      modifies this`position
      ensures Valid() && position >= old(position)
      ensures var x := TakeString(old(Rest()), m, limit);
        (r.Err? ==> x == Err(r.error)) && (r.Ok? ==> x == Ok((r.value, Rest())) && position > old(position))
    {
      hide Cbor.ReadHead;
      var head := ReadHead();
      if head.Err? { return Err(head.error); }
      if head.value.0 != m { return Err(WrongType); }
      if head.value.1 > limit { return Err(TooLarge); }
      r := TakeArray(head.value.1);
    }

    method ReadText() returns (r: Result<bytes, EnvelopeError>)
      requires Valid()
      modifies this`position
      ensures Valid() && position >= old(position)
      ensures var x := TakeText(old(Rest()));
        (r.Err? ==> x == Err(r.error)) && (r.Ok? ==> x == Ok((r.value, Rest())) && position > old(position))
    {
      hide TakeString, ValidUtf8;
      r := ReadString(3, MAX_TEXT_BYTES);
      if r.Ok? && !ValidUtf8(r.value) { return Err(EInvalidUtf8); }
    }

    method ReadTextIf(ok: bytes -> bool, error: EnvelopeError) returns (r: Result<Field, EnvelopeError>)
      requires Valid()
      modifies this`position
      ensures Valid() && position >= old(position)
      ensures var x := AsTxt(TakeTextIf(old(Rest()), ok, error));
        (r.Err? ==> x == Err(r.error)) && (r.Ok? ==> x == Ok((r.value, Rest())) && position > old(position))
    {
      hide TakeText;
      var text := ReadText();
      if text.Err? { return Err(text.error); }
      if !ok(text.value) { return Err(error); }
      return Ok(Txt(text.value));
    }

    method ReadBlob(limit: nat, mayBeEmpty: bool) returns (r: Result<Field, EnvelopeError>)
      requires Valid() && (!mayBeEmpty ==> limit == MAX_PAYLOAD_BYTES)
      modifies this`position
      ensures Valid() && position >= old(position)
      ensures var x := AsBlob(if mayBeEmpty then TakeString(old(Rest()), 2, limit) else TakeNonEmpty(old(Rest())));
        (r.Err? ==> x == Err(r.error)) && (r.Ok? ==> x == Ok((r.value, Rest())) && position > old(position))
    {
      hide TakeString;
      var blob := ReadString(2, limit);
      if blob.Err? { return Err(blob.error); }
      if !mayBeEmpty && blob.value == [] { return Err(EmptyField); }
      return Ok(Blob(blob.value));
    }

    /** The disclosure array: as many non-empty byte strings as its head announces. */
    method ReadBlobs() returns (r: Result<Field, EnvelopeError>)
      requires Valid()
      modifies this`position
      ensures Valid() && position >= old(position)
      ensures var x := ReadDisclosures(old(Rest()));
        (r.Err? ==> x == Err(r.error)) && (r.Ok? ==> x == Ok((r.value, Rest())) && position > old(position))
    {
      hide TakeHead, TakeString;
      var head := ReadHead();
      if head.Err? { return Err(head.error); }
      if head.value.0 != 4 { return Err(WrongType); }
      ghost var s := Rest();
      var count := head.value.1;
      var entries: seq<bytes> := [];
      ListResumes([], TakeList(s, count));
      for i := 0 to count
        invariant Valid() && position > old(position)
        invariant TakeList(s, count) == Resumed(entries, TakeList(Rest(), count - i))
      {
        ghost var here := Rest();
        var value := ReadString(2, MAX_PAYLOAD_BYTES);
        if value.Err? { return Err(value.error); }
        if value.value == [] { return Err(EmptyField); }
        ListStep(entries, here, count - i);
        entries := entries + [value.value];
      }
      ListResumes(entries, TakeList(Rest(), 0));
      return Ok(Blobs(entries));
    }

    method ReadKeyId() returns (r: Result<Field, EnvelopeError>)
      requires Valid()
      modifies this`position
      ensures Valid() && position >= old(position)
      ensures var x := AsTxt(TakeKeyId(old(Rest())));
        (r.Err? ==> x == Err(r.error)) && (r.Ok? ==> x == Ok((r.value, Rest())) && position > old(position))
    {
      hide TakeString, ValidUtf8;
      var id := ReadString(3, MAX_KEY_ID_BYTES);
      if id.Err? { return Err(id.error); }
      if id.value == [] { return Err(EmptyField); }
      if !ValidUtf8(id.value) { return Err(EInvalidUtf8); }
      return Ok(Txt(id.value));
    }

    method ReadNum(mayBeZero: bool) returns (r: Result<Field, EnvelopeError>)
      requires Valid()
      modifies this`position
      ensures Valid() && position >= old(position)
      ensures var x := if mayBeZero then AsNum(TakeUint(old(Rest()))) else ReadGeneration(old(Rest()));
        (r.Err? ==> x == Err(r.error)) && (r.Ok? ==> x == Ok((r.value, Rest())) && position > old(position))
    {
      hide TakeUint;
      var n := ReadUint();
      if n.Err? { return Err(n.error); }
      if !mayBeZero && n.value == 0 { return Err(ZeroGeneration); }
      return Ok(Num(n.value));
    }

    /** The value under `key`, as the map in question defines it. */
    method ReadEntry(schema: Schema, key: u64) returns (r: Result<Field, EnvelopeError>)
      requires Valid()
      modifies this`position
      ensures Valid() && position >= old(position)
      ensures var x := ReadField(schema, key, old(Rest()));
        (r.Err? ==> x == Err(r.error)) && (r.Ok? ==> x == Ok((r.value, Rest())) && position > old(position))
    {
      hide TakeUint, TakeString, TakeTextIf, TakeNonEmpty, ReadDisclosures, TakeKeyId, ReadGeneration;
      if schema.EnvelopeMap? {
        match key
        case 1 => r := ReadNum(true);
        case 2 => r := ReadNum(true);
        case 3 => r := ReadTextIf(IsProfileId, EUnsupportedProfile);
        case 4 => r := ReadBlob(MAX_ENVELOPE_BYTES, true);
        case 5 => r := ReadBlob(MAX_ENVELOPE_BYTES, true);
        case 6 => r := ReadTextIf(IsPurposeId, UnexpectedField);
        case _ => r := Err(UnknownField);
      } else {
        match key
        case 1 => r := ReadNum(true);
        case 2 => r := ReadTextIf(IsProfileId, EUnsupportedProfile);
        case 3 => r := ReadTextIf(IsWrapperPurposeId, UnsupportedPurpose);
        case 4 => r := ReadTextIf(IsFormatId, UnsupportedFormat);
        case 5 => r := ReadBlob(MAX_PAYLOAD_BYTES, false);
        case 6 => r := ReadBlobs();
        case 7 => r := ReadKeyId();
        case 8 => r := ReadKeyId();
        case 9 => r := ReadNum(false);
        case 10 => r := ReadBlob(ES256_SIGNATURE_BYTES, true);
        case 11 => r := ReadBlob(ML_DSA_65_SIGNATURE_BYTES, true);
        case _ => r := Err(UnknownField);
      }
    }
  }

  function Resumed(done: seq<bytes>, more: Read<seq<bytes>>): (r: Read<seq<bytes>>) {
    match more case Err(e) => Err(e) case Ok(x) => Ok((done + x.0, x.1))
  }

  lemma ListResumes(done: seq<bytes>, more: Read<seq<bytes>>)
    ensures Resumed([], more) == more
    ensures more.Ok? && more.value.0 == [] ==> Resumed(done, more) == Ok((done, more.value.1))
  {
    if more.Ok? { assert [] + more.value.0 == more.value.0; assert done + [] == done; }
  }

  lemma ListStep(done: seq<bytes>, s: bytes, count: nat)
    requires count > 0 && TakeNonEmpty(s).Ok?
    ensures var x := TakeNonEmpty(s).value;
      Resumed(done, TakeList(s, count)) == Resumed(done + [x.0], TakeList(x.1, count - 1))
  {
    hide TakeNonEmpty;
    var x := TakeNonEmpty(s).value;
    var more := TakeList(x.1, count - 1);
    if more.Ok? { assert done + ([x.0] + more.value.0) == (done + [x.0]) + more.value.0; }
  }

  /** Prefix, map head and the loop over its entries: keys must ascend, each value must be of its
      kind, nothing may follow. */
  method ReadMap(schema: Schema, input: bytes, limit: nat) returns (r: Result<Fields, EnvelopeError>)
    ensures r == ReadDocument(schema, input, limit)
  {
    hide TakeHead, TakeUint, ReadField, MagicPrefix;
    if |input| > limit { return Err(TooLarge); }
    if !(MagicPrefix() <= input) { return Err(BadPrefix); }
    var decoder := new Decoder(input[|MagicPrefix()|..]);
    assert decoder.Rest() == input[|MagicPrefix()|..];
    var head := decoder.ReadHead();
    if head.Err? { return Err(head.error); }
    if head.value.0 != 5 { return Err(WrongType); }
    ghost var s := decoder.Rest();
    var entries := head.value.1;
    var previous: Option<u64> := None;
    var fields: Fields := map[];
    for i := 0 to entries
      invariant decoder.Valid()
      invariant ReadFields(schema, s, entries, -1, map[])
             == ReadFields(schema, decoder.Rest(), entries - i, if previous.None? then -1 else previous.value, fields)
    {
      var key := decoder.ReadUint();
      if key.Err? { return Err(key.error); }
      if previous.Some? {
        if key.value == previous.value { return Err(DuplicateKey); }
        if key.value < previous.value { return Err(KeysNotSorted); }
      }
      previous := Some(key.value);
      var field := decoder.ReadEntry(schema, key.value);
      if field.Err? { return Err(field.error); }
      fields := fields[key.value := field.value];
    }
    if decoder.position != |decoder.input| { return Err(ETrailingBytes); }
    return Ok(fields);
  }

  method ReadPublicKey(input: bytes) returns (r: Result<Pair, EnvelopeError>)
    ensures r == DecodePublicKey(input)
    ensures forall k :: r == Ok(k) <==> PublicKeyOk(k) && input == EncodePublicKey(k)
  {
    hide ReadDocument, FromEnvelopeFields, EncodePublicKey, PublicKeyOk;
    forall k ensures DecodePublicKey(input) == Ok(k) <==> PublicKeyOk(k) && input == EncodePublicKey(k) {
      EnvelopeTheorems.PublicKeyExact(input, k);
    }
    var m := ReadMap(EnvelopeMap, input, MAX_ENVELOPE_BYTES);
    if m.Err? { return Err(m.error); }
    var p := FromEnvelopeFields(m.value);
    if p.Err? { return Err(p.error); }
    if p.value.kind != KIND_PUBLIC_KEY { return Err(UnsupportedKind); }
    if p.value.purpose.Some? { return Err(UnexpectedField); }
    var k := NewPublicKey(p.value.classical, p.value.postQuantum);
    if k.Err? { return Err(ComponentError(k.error)); }
    return Ok(k.value);
  }

  method ReadSignature(input: bytes) returns (r: Result<SignatureEnvelope, EnvelopeError>)
    ensures r == DecodeSignature(input)
    ensures forall e :: r == Ok(e) <==> SignatureOk(e.signature) && input == EncodeSignature(e)
  {
    hide ReadDocument, FromEnvelopeFields, EncodeSignature, SignatureOk;
    forall e ensures DecodeSignature(input) == Ok(e) <==> SignatureOk(e.signature) && input == EncodeSignature(e) {
      EnvelopeTheorems.SignatureExact(input, e);
    }
    var m := ReadMap(EnvelopeMap, input, MAX_ENVELOPE_BYTES);
    if m.Err? { return Err(m.error); }
    var p := FromEnvelopeFields(m.value);
    if p.Err? { return Err(p.error); }
    if p.value.kind != KIND_SIGNATURE { return Err(UnsupportedKind); }
    if p.value.purpose.None? { return Err(MissingField); }
    var s := NewSignature(p.value.classical, p.value.postQuantum);
    if s.Err? { return Err(ComponentError(s.error)); }
    return Ok(SignatureEnvelope(p.value.purpose.value, s.value));
  }

  method ReadWrapper(input: bytes) returns (r: Result<Wrapper, EnvelopeError>)
    ensures r == DecodeWrapper(input)
    ensures forall w :: r == Ok(w) <==> WrapperOk(w) && input == EncodeWrapper(w)
  {
    hide ReadDocument, FromWrapperFields, EncodeWrapper, WrapperOk;
    forall w ensures DecodeWrapper(input) == Ok(w) <==> WrapperOk(w) && input == EncodeWrapper(w) {
      EnvelopeTheorems.WrapperExact(input, w);
    }
    var m := ReadMap(WrapperMap, input, MAX_WRAPPER_BYTES);
    if m.Err? { return Err(m.error); }
    return FromWrapperFields(m.value);
  }

  // ------------------------------------------------------------ writing

  method WriteUintPair(out: Buffer, key: u64, value: u64)
    modifies out
    ensures out.data == old(out.data) + WriteEntry(key, Num(value))
  {
    hide Head;
    WriteHead(out, 0, key);
    WriteHead(out, 0, value);
  }

  method WriteTextPair(out: Buffer, key: u64, value: bytes)
    requires |value| < U64_LIMIT
    modifies out
    ensures out.data == old(out.data) + WriteEntry(key, Txt(value))
  {
    hide Head;
    WriteHead(out, 0, key);
    WriteHead(out, 3, |value|);
    out.Extend(value);
  }

  method WriteBytesPair(out: Buffer, key: u64, value: bytes)
    requires |value| < U64_LIMIT
    modifies out
    ensures out.data == old(out.data) + WriteEntry(key, Blob(value))
  {
    hide Head;
    WriteHead(out, 0, key);
    WriteHead(out, 2, |value|);
    out.Extend(value);
  }

  lemma {:induction false} WriteBlobsSnoc(bs: seq<bytes>, i: nat)
    requires i < |bs|
    ensures WriteBlobs(bs[..i + 1]) == WriteBlobs(bs[..i]) + WriteBlob(bs[i])
  {
    hide WriteBlob;
    if i == 0 {
      assert bs[..1][1..] == [] && bs[..0] == [];
    } else {
      WriteBlobsSnoc(bs[1..], i - 1);
      assert bs[1..][..i] == bs[..i + 1][1..] && bs[1..][..i - 1] == bs[..i][1..];
    }
  }

  lemma BlobsCountable(bs: seq<bytes>)
    requires |bs| < U64_LIMIT && BlobsOk(bs)
    ensures Countable(bs)
  {
  }

  method WriteByteString(out: Buffer, value: bytes)
    requires |value| < U64_LIMIT
    modifies out
    ensures out.data == old(out.data) + WriteBlob(value)
  {
    hide Head;
    WriteHead(out, 2, |value|);
    out.Extend(value);
  }

  method WriteBlobsPair(out: Buffer, key: u64, values: seq<bytes>)
    requires Countable(values)
    modifies out
    ensures out.data == old(out.data) + WriteEntry(key, Blobs(values))
  {
    hide Head, WriteBlob;
    ghost var start := out.data;
    WriteHead(out, 0, key);
    WriteHead(out, 4, |values|);
    ghost var heads := Head(0, key) + Head(4, |values|);
    for i := 0 to |values|
      invariant out.data == start + (heads + WriteBlobs(values[..i]))
    {
      WriteBlobsSnoc(values, i);
      Assoc3(start, heads, WriteBlobs(values[..i]), WriteBlob(values[i]));
      WriteByteString(out, values[i]);
    }
    assert values[..|values|] == values;
    assert heads + WriteBlobs(values) == WriteEntry(key, Blobs(values));
  }

  method WritePublicKey(k: Pair) returns (s: bytes)
    requires PublicKeyOk(k)
    ensures s == EncodePublicKey(k)
  {
    hide Head, WriteEntry, MagicPrefix, ProfileId;
    var out := new Buffer();
    out.Extend(MagicPrefix());
    WriteHead(out, 5, 5);
    WriteUintPair(out, 1, ENVELOPE_VERSION);
    WriteUintPair(out, 2, KIND_PUBLIC_KEY);
    WriteTextPair(out, 3, ProfileId());
    WriteBytesPair(out, 4, k.classical);
    WriteBytesPair(out, 5, k.postQuantum);
    s := out.data;
  }

  method WriteSignature(e: SignatureEnvelope) returns (s: bytes)
    requires SignatureOk(e.signature)
    ensures s == EncodeSignature(e)
  {
    hide Head, WriteEntry, MagicPrefix, ProfileId, PurposeId;
    var out := new Buffer();
    out.Extend(MagicPrefix());
    WriteHead(out, 5, 6);
    WriteUintPair(out, 1, ENVELOPE_VERSION);
    WriteUintPair(out, 2, KIND_SIGNATURE);
    WriteTextPair(out, 3, ProfileId());
    WriteBytesPair(out, 4, e.signature.classical);
    WriteBytesPair(out, 5, e.signature.postQuantum);
    WriteTextPair(out, 6, PurposeId(e.purpose));
    s := out.data;
  }

  method WriteCommittedPayload(payload: bytes, disclosures: seq<bytes>) returns (s: bytes)
    requires |payload| < U64_LIMIT && Countable(disclosures)
    ensures s == CommittedPayload(payload, disclosures)
  {
    hide Head, WriteEntry, Countable;
    var out := new Buffer();
    WriteHead(out, 5, 2);
    WriteBytesPair(out, 1, payload);
    WriteBlobsPair(out, 2, disclosures);
    s := out.data;
  }

  /** The last three entries: generation and both signatures. */
  method WriteWrapperSeal(out: Buffer, generation: u64, signature: Pair)
    requires SignatureOk(signature)
    modifies out
    ensures out.data == old(out.data)
      + (WriteEntry(9, Num(generation)) + (WriteEntry(10, Blob(signature.classical))
      + WriteEntry(11, Blob(signature.postQuantum))))
  {
    hide WriteEntry;
    WriteUintPair(out, 9, generation);
    WriteBytesPair(out, 10, signature.classical);
    WriteBytesPair(out, 11, signature.postQuantum);
  }

  method WriteWrapperContents(out: Buffer, w: Wrapper)
    requires WrapperOk(w)
    modifies out
    ensures out.data == old(out.data) + WrapperContents(w)
  {
    hide Head, WriteEntry, CommittedPayload, BlobsOk, Countable;
    BlobsCountable(w.disclosures);
    WriteBytesPair(out, 5, w.payload);
    WriteBlobsPair(out, 6, w.disclosures);
    WriteTextPair(out, 7, w.classicalKeyId);
    WriteTextPair(out, 8, w.pqKeyId);
    WriteWrapperSeal(out, w.generation, w.signature);
  }

  method WriteWrapper(w: Wrapper) returns (s: bytes)
    requires WrapperOk(w)
    ensures s == EncodeWrapper(w)
  {
    hide Head, WriteEntry, MagicPrefix, ProfileId, PurposeId, CredentialFormat, WrapperContents, WrapperOk;
    var out := new Buffer();
    out.Extend(MagicPrefix());
    WriteHead(out, 5, 11);
    WriteUintPair(out, 1, WRAPPER_VERSION);
    WriteTextPair(out, 2, ProfileId());
    WriteTextPair(out, 3, PurposeId(w.purpose));
    WriteTextPair(out, 4, CredentialFormat());
    WriteWrapperContents(out, w);
    s := out.data;
  }

  // ------------------------------------------------------------ the wrapper's constructor

  method ValidateKeyId(id: bytes) returns (r: Option<HybridError>)
    ensures r == KeyIdError(id)
  {
    if id == [] { return Some(NonCanonicalInput); }
    if |id| > MAX_KEY_ID_BYTES { return Some(ResourceLimitExceeded); }
    r := None;
  }

  /** The checks in order, the disclosures in a loop; the first failure is reported. */
  method TryNewWrapper(w: Wrapper) returns (r: Result<Wrapper, HybridError>)
    requires |w.disclosures| < U64_LIMIT
    ensures r == NewWrapper(w)
  {
    hide CommittedPayload, KeyIdError;
    if w.purpose != TestSdJwtWrapperV1 && w.purpose != TestMdocWrapperV1 { return Err(PolicyDenied); }
    if w.payload == [] { return Err(NonCanonicalInput); }
    if |w.payload| > MAX_PAYLOAD_BYTES { return Err(ResourceLimitExceeded); }
    assert w.disclosures[0..] == w.disclosures;
    for i := 0 to |w.disclosures|
      invariant DisclosureError(w.disclosures) == DisclosureError(w.disclosures[i..])
    {
      assert w.disclosures[i..][0] == w.disclosures[i] && w.disclosures[i..][1..] == w.disclosures[i + 1..];
      if w.disclosures[i] == [] { return Err(NonCanonicalInput); }
      if |w.disclosures[i]| > MAX_PAYLOAD_BYTES { return Err(ResourceLimitExceeded); }
    }
    var bad := ValidateKeyId(w.classicalKeyId);
    if bad.Some? { return Err(bad.value); }
    bad := ValidateKeyId(w.pqKeyId);
    if bad.Some? { return Err(bad.value); }
    if w.generation == 0 { return Err(Mismatch(GenerationField)); }
    BlobsCountable(w.disclosures);
    var committed := WriteCommittedPayload(w.payload, w.disclosures);
    if |committed| > MAX_COMMITTED_PAYLOAD_BYTES { return Err(ResourceLimitExceeded); }
    r := Ok(w);
  }
}
