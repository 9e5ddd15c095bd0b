/** The proximity messages as a CBOR reader on the other side sees them. */
module ProximityWire {
  import opened Bytes
  import opened Utf8
  import opened Cbor
  import opened CborTheorems
  import opened Proximity
  import opened ProximityTheorems

  lemma {:induction false} EngagementHeight(key: bytes, uuid: Uuid)
    requires |key| < U64_LIMIT
    ensures Height(Map(EngagementPairs(key, uuid))) <= MAX_DEPTH
  {
    hide Encode, MaxHeight, MaxPairHeight, Embedded;
    EmbeddedNormal(key);
    MapHeight(BleOptions(uuid), 1);
    var m := Array([Uint(RETRIEVAL_METHOD_BLE), Uint(1), Map(BleOptions(uuid))]);
    ArrayHeight(m.items, 2);
    ArrayHeight([m], 3);
    ArrayHeight([Uint(CIPHER_SUITE), Embedded(key)], 2);
    MapHeight(EngagementPairs(key, uuid), 4);
  }

  /** Version "1.0", cipher suite 1 with the embedded device key, one BLE peripheral-server method
      with the UUID (ISO/IEC 18013-5 section 8.2.1.1). */
  lemma {:induction false} EngagementReadsBack(key: bytes, uuid: Uuid)
    requires |key| < U64_LIMIT
    ensures FromCanonical(BuildDeviceEngagement(key, uuid)) == Ok(Map([
      (Uint(0), Text(Ascii("1.0"))),
      (Uint(1), Array([Uint(1), Tag(24, ByteStr(key))])),
      (Uint(2), Array([Array([Uint(2), Uint(1), Map([(Uint(0), Bool(true)), (Uint(11), ByteStr(uuid))])])]))]))
  {
    hide Encode, FromCanonical, Height, Valid, IsNormal;
    EngagementNormal(key, uuid);
    EngagementHeight(key, uuid);
    ReadsBack(Map(EngagementPairs(key, uuid)));
  }

  /** Engagement, then reader key, both embedded, then a null handover (section 9.1.5.1). */
  lemma {:induction false} TranscriptReadsBack(engagement: bytes, readerKey: bytes)
    requires |engagement| < U64_LIMIT && |readerKey| < U64_LIMIT
    ensures FromCanonical(SessionTranscript(engagement, readerKey))
         == Ok(Array([Tag(24, ByteStr(engagement)), Tag(24, ByteStr(readerKey)), Null]))
  {
    hide Encode, FromCanonical, Height, Valid, IsNormal;
    TranscriptNormal(engagement, readerKey);
    ReadsBack(TranscriptValue(engagement, readerKey));
  }

  lemma {:induction false} AuthenticationHeight(engagement: bytes, readerKey: bytes)
    requires |engagement| < U64_LIMIT && |readerKey| < U64_LIMIT
    ensures Height(DeviceAuthentication(SessionTranscript(engagement, readerKey))) <= MAX_DEPTH
  {
    hide Encode, MaxHeight, EmbeddedTranscript, SessionTranscript, Ascii;
    TranscriptEmbedded(engagement, readerKey);
    ArrayHeight(TranscriptValue(engagement, readerKey).items, 2);
    ArrayHeight(DeviceAuthentication(SessionTranscript(engagement, readerKey)).items, 3);
  }

  function AuthenticationLabel(): (t: bytes) { Ascii("DeviceAuthentication") }
  function MdlDocType(): (t: bytes) { Ascii("org.iso.18013.5.1.mDL") }

  /** `s` is the tag-24 wrapping of the encoding of `v`. */
  ghost predicate Wraps(s: bytes, v: Value) {
    exists a :: FromCanonical(s) == Ok(Tag(24, ByteStr(a))) && FromCanonical(a) == Ok(v)
  }

  /** What the device key signs: the tag-24 wrapping of a four-element array whose second element is
      the transcript itself, not a byte string of it (section 9.1.3.4). */
  lemma {:induction false} SigningInputReadsBack(engagement: bytes, readerKey: bytes)
    requires |engagement| < U64_LIMIT && |readerKey| < U64_LIMIT
    requires |Encode(DeviceAuthentication(SessionTranscript(engagement, readerKey)))| < U64_LIMIT
    ensures Wraps(DeviceAuthSigningInput(SessionTranscript(engagement, readerKey)), Array([
      Text(AuthenticationLabel()),
      Array([Tag(24, ByteStr(engagement)), Tag(24, ByteStr(readerKey)), Null]),
      Text(MdlDocType()),
      Tag(24, ByteStr([0xA0]))]))
  {
    hide Encode, FromCanonical, Height, Valid, IsNormal, SessionTranscript, Ascii;
    var t := SessionTranscript(engagement, readerKey);
    TranscriptEmbedded(engagement, readerKey);
    AuthenticationNormal(engagement, readerKey);
    AuthenticationHeight(engagement, readerKey);
    ReadsBack(DeviceAuthentication(t));
    EmptyMapBytes();
    var a := Encode(DeviceAuthentication(t));
    EmbeddedNormal(a);
    ReadsBack(Embedded(a));
    assert FromCanonical(DeviceAuthSigningInput(t)) == Ok(Tag(24, ByteStr(a)));
  }

  /** The response carries the transcript and the signature, in that order. */
  lemma {:induction false} ResponseReadsBack(transcript: bytes, signature: bytes)
    requires |transcript| < U64_LIMIT && |signature| < U64_LIMIT
    ensures FromCanonical(AssembleDeviceResponse(transcript, signature))
         == Ok(Array([Text(Ascii("DeviceResponse")), ByteStr(transcript), ByteStr(signature)]))
  {
    hide Encode, FromCanonical, MaxHeight, NormItems, ValidUtf8, Ascii;
    var items := [Text(Ascii("DeviceResponse")), ByteStr(transcript), ByteStr(signature)];
    LiteralText("DeviceResponse");
    NormalArray(items);
    ArrayHeight(items, 1);
    ReadsBack(Array(items));
  }
}
