/** The signed message determines everything that went into it. */
module TbsTheorems {
  import opened Bytes
  import opened Cbor
  import opened CborTheorems
  import opened HybridTypes
  import opened StrictMap
  import opened Envelope
  import opened Framing
  import opened Tbs

  predicate FieldFits(v: bytes) { 0 < |v| <= 4096 }
  predicate OptionalFits(v: Option<bytes>) { v.Some? ==> FieldFits(v.value) }

  /** A context that can be signed for a purpose. */
  predicate ContextOk(p: Purpose, c: Context) {
    FieldsFit(c) && c.keyGeneration > 0 && NonceAndTimeOk(c) && PurposeAllows(p, c)
  }

  /** Construction succeeds exactly on signable contexts and payloads of at most 4096 bytes. */
  lemma BuildSucceedsIff(p: Purpose, c: Context, payload: bytes)
    ensures Build(p, c, payload).Ok? <==> ContextOk(p, c) && |payload| <= MAX_FIELD_BYTES
    ensures Build(p, c, payload).Ok? ==> Build(p, c, payload).value == Message(p, c, payload)
  {
    hide Message, PurposeAllows;
  }

  /** The optional fields of a context. */
  datatype Slot = Issuer | Transaction | Session | Audience | Transcript

  predicate Present(c: Context, f: Slot) {
    match f
    case Issuer => c.issuerIdentity.Some?
    case Transaction => c.transactionId.Some?
    case Session => c.sessionId.Some?
    case Audience => c.audience.Some?
    case Transcript => c.transcriptHash.Some?
  }

  function Demanded(p: Purpose): (fs: set<Slot>) {
    match p
    case PrivateProviderMessageV1 => {Session, Audience, Transcript}
    case TestSdJwtWrapperV1 => {Issuer, Transaction, Audience}
    case TestMdocWrapperV1 => {Issuer, Transaction, Audience}
    case _ => {}
  }

  function Forbidden(p: Purpose): (fs: set<Slot>) {
    if p == WalletExportV1 || p == WalletRecoveryV1 then {Issuer, Transaction, Session, Audience, Transcript} else {}
  }

  /** A purpose allows a context exactly when its demanded fields are present and its forbidden ones
      absent, and a wrapper bound to a session also carries the transcript hash. */
  lemma {:induction false} PurposeAllowsIff(p: Purpose, c: Context)
    ensures PurposeAllows(p, c) <==>
      && (forall f :: f in Demanded(p) ==> Present(c, f))
      && (forall f :: f in Forbidden(p) ==> !Present(c, f))
      && (p in {TestSdJwtWrapperV1, TestMdocWrapperV1} && Present(c, Session) ==> Present(c, Transcript))
  {
    assert Issuer in Demanded(p) ==> p in {TestSdJwtWrapperV1, TestMdocWrapperV1};
    if p == WalletExportV1 || p == WalletRecoveryV1 {
      assert Issuer in Forbidden(p) && Transaction in Forbidden(p) && Session in Forbidden(p);
      assert Audience in Forbidden(p) && Transcript in Forbidden(p);
    } else if p == PrivateProviderMessageV1 {
      assert Session in Demanded(p) && Audience in Demanded(p) && Transcript in Demanded(p);
    } else {
      assert Issuer in Demanded(p) && Transaction in Demanded(p) && Audience in Demanded(p);
    }
  }

  /** Which error a refused message gets: an over-long payload or field, a zero generation, a purpose
      that disallows the context, or otherwise a non-canonical one. */
  lemma {:induction false} BuildErrors(p: Purpose, c: Context, payload: bytes)
    requires Build(p, c, payload).Err?
    ensures var e := Build(p, c, payload).error;
      && (|payload| > 4096 ==> e == ResourceLimitExceeded)
      && (e == PolicyDenied <==> |payload| <= 4096 && FieldsFit(c) && c.keyGeneration > 0 && NonceAndTimeOk(c))
      && (e == Mismatch(GenerationField) <==> |payload| <= 4096 && FieldsFit(c) && c.keyGeneration == 0)
      && (|payload| <= 4096 && FieldsFit(c) && c.keyGeneration > 0 && !NonceAndTimeOk(c) ==> e == NonCanonicalInput)
      && (|payload| <= 4096 && !FieldsFit(c) ==> e == ResourceLimitExceeded || e == NonCanonicalInput)
  {
    hide Message, PurposeAllows;
  }

  predicate FieldsFit(c: Context) {
    && FieldFits(c.walletIdentity) && OptionalFits(c.issuerIdentity) && OptionalFits(c.transactionId)
    && OptionalFits(c.sessionId) && OptionalFits(c.audience)
  }

  predicate NonceAndTimeOk(c: Context) { 16 <= |c.nonce| <= 64 && c.createdAt < c.expiresAt }

  // ------------------------------------------------------------ contexts

  lemma {:induction false} NumberReads(n: u64)
    ensures FromBe(ToBe(n, 8)) == n
  {
    hide ToBe, FromBe, Pow256;
    Pow256Values();
    FromToBe(n, 8);
  }

  lemma {:induction false} ContextFieldsReadBack(p: Purpose, c: Context)
    requires ContextOk(p, c)
    ensures ContextOf(ContextFields(c)) == Some(c)
  {
    hide ToBe, FromBe, PurposeAllows;
    NumberReads(c.keyGeneration);
    NumberReads(c.createdAt);
    NumberReads(c.expiresAt);
  }

  lemma {:induction false} ContextFieldsShort(p: Purpose, c: Context)
    requires ContextOk(p, c)
    ensures forall i :: 0 <= i < 10 ==> |ContextFields(c)[i]| <= MAX_FIELD_BYTES
    ensures Short(ContextFields(c))
  {
    hide ToBe, PurposeAllows;
  }

  /** Every field of a signable context is recovered from its encoding. */
  lemma {:induction false} ContextRoundTrip(p: Purpose, c: Context)
    requires ContextOk(p, c)
    ensures DecodeContext(EncodeContext(c)) == Some(c)
  {
    hide ContextFields, ContextOf, Tagged, ReadTagged, ContextDomain, ContextOk;
    ContextFieldsShort(p, c);
    TaggedReadBack(ContextFields(c), 1);
    ContextFieldsReadBack(p, c);
    var d, t := ContextDomain(), Tagged(ContextFields(c), 1);
    assert (d + t)[..|d|] == d && (d + t)[|d|..] == t;
  }

  lemma {:induction false} TaggedLength(fs: seq<bytes>, tag: nat)
    requires tag + |fs| <= 256 && forall i :: 0 <= i < |fs| ==> |fs[i]| <= MAX_FIELD_BYTES
    ensures |Tagged(fs, tag)| <= (MAX_FIELD_BYTES + 5) * |fs|
    decreases fs
  {
    hide ToBe;
    if fs != [] { TaggedLength(fs[1..], tag + 1); }
  }

  lemma {:induction false} ContextLength(p: Purpose, c: Context)
    requires ContextOk(p, c)
    ensures |EncodeContext(c)| < U32_LIMIT
  {
    hide ContextFields, Tagged, ContextDomain, ContextOk;
    ContextFieldsShort(p, c);
    TaggedLength(ContextFields(c), 1);
  }

  // ------------------------------------------------------------ messages

  /** Purpose, context and payload are recovered from any message that was built. */
  lemma {:induction false} MessageRoundTrip(p: Purpose, c: Context, payload: bytes)
    requires Build(p, c, payload).Ok?
    ensures DecodeMessage(Build(p, c, payload).value) == Some(Signed(p, c, payload))
  {
    hide EncodeContext, DecodeContext, TbsDomain, ProfileId, PurposeId, PurposeOf, Frames, ReadFrames, CommonError,
      PurposeAllows, ContextOk;
    BuildSucceedsIff(p, c, payload);
    ContextLength(p, c);
    ContextRoundTrip(p, c);
    PurposeRoundTrip(PurposeId(p), p);
    var fs := [ProfileId(), PurposeId(p), EncodeContext(c), payload];
    FramesReadBack(fs);
    var d, t := TbsDomain(), Frames(fs);
    assert (d + t)[..|d|] == d && (d + t)[|d|..] == t;
  }

  /** Two calls that build the same bytes were asked to sign the same thing. */
  lemma MessageInjective(p: Purpose, c: Context, payload: bytes, q: Purpose, d: Context, other: bytes)
    requires Build(p, c, payload).Ok? && Build(p, c, payload) == Build(q, d, other)
    ensures p == q && c == d && payload == other
  {
    hide Build, DecodeMessage;
    MessageRoundTrip(p, c, payload);
    MessageRoundTrip(q, d, other);
  }

  // ------------------------------------------------------------ committed payloads

  lemma BlobInjective(a: bytes, x: bytes, b: bytes, y: bytes)
    requires |a| < U64_LIMIT && |b| < U64_LIMIT && WriteBlob(a) + x == WriteBlob(b) + y
    ensures a == b && x == y
  {
    hide Head, ReadHead;
    HeadRoundTrip(2, |a|, a + x);
    HeadRoundTrip(2, |b|, b + y);
    assert WriteBlob(a) + x == Head(2, |a|) + (a + x);
    assert WriteBlob(b) + y == Head(2, |b|) + (b + y);
    CutEqual(a, x, b, y);
  }

  lemma {:induction false} BlobsInjective(xs: seq<bytes>, ys: seq<bytes>)
    requires |xs| == |ys| && Countable(xs) && Countable(ys) && WriteBlobs(xs) == WriteBlobs(ys)
    ensures xs == ys
  {
    hide WriteBlob;
    if xs != [] {
      BlobInjective(xs[0], WriteBlobs(xs[1..]), ys[0], WriteBlobs(ys[1..]));
      BlobsInjective(xs[1..], ys[1..]);
      assert xs == [xs[0]] + xs[1..] && ys == [ys[0]] + ys[1..];
    }
  }

  lemma {:induction false} BlobListInjective(xs: seq<bytes>, ys: seq<bytes>)
    requires Countable(xs) && Countable(ys)
    requires Head(4, |xs|) + WriteBlobs(xs) == Head(4, |ys|) + WriteBlobs(ys)
    ensures xs == ys
  {
    hide Head, ReadHead, WriteBlobs;
    HeadRoundTrip(4, |xs|, WriteBlobs(xs));
    HeadRoundTrip(4, |ys|, WriteBlobs(ys));
    BlobsInjective(xs, ys);
  }

  /** The committed payload fixes the payload and the whole disclosure list, order and boundaries
      included, for every pair of inputs. */
  lemma {:induction false} CommittedPayloadInjective(payload: bytes, ds: seq<bytes>, other: bytes, es: seq<bytes>)
    requires |payload| < U64_LIMIT && |other| < U64_LIMIT && Countable(ds) && Countable(es)
    requires CommittedPayload(payload, ds) == CommittedPayload(other, es)
    ensures payload == other && ds == es
  {
    hide Head, ReadHead, WriteBlobs, WriteBlob;
    CommittedLayout(payload, ds);
    CommittedLayout(other, es);
    var x, y := CommittedTail(ds), CommittedTail(es);
    CutEqual(Head(5, 2) + Head(0, 1), WriteBlob(payload) + x, Head(5, 2) + Head(0, 1), WriteBlob(other) + y);
    BlobInjective(payload, x, other, y);
    CutEqual(Head(0, 2), Head(4, |ds|) + WriteBlobs(ds), Head(0, 2), Head(4, |es|) + WriteBlobs(es));
    BlobListInjective(ds, es);
  }

  function CommittedTail(ds: seq<bytes>): (s: bytes) { Head(0, 2) + (Head(4, |ds|) + WriteBlobs(ds)) }

  lemma CommittedLayout(payload: bytes, ds: seq<bytes>)
    ensures CommittedPayload(payload, ds) == (Head(5, 2) + Head(0, 1)) + (WriteBlob(payload) + CommittedTail(ds))
  {
    hide Head, WriteBlobs, WriteBlob;
  }

  // ------------------------------------------------------------ wrappers

  function WrapperMessage(w: Wrapper, c: Context): (r: Result<bytes, HybridError>) {
    Build(w.purpose, c, CommittedPayload(w.payload, w.disclosures))
  }

  /** A wrapper that exists never fails for its size: only its context can make signing fail. */
  lemma WrapperMessageIff(w: Wrapper, c: Context)
    requires WrapperOk(w)
    ensures WrapperMessage(w, c).Ok? <==> ContextOk(w.purpose, c)
  {
    hide Build, CommittedPayload, ContextOk;
    BuildSucceedsIff(w.purpose, c, CommittedPayload(w.payload, w.disclosures));
  }

  /** Wrappers with the same signed bytes agree on purpose, payload, every disclosure and context. */
  lemma WrapperMessageBinds(w: Wrapper, c: Context, v: Wrapper, d: Context)
    requires WrapperOk(w) && WrapperOk(v) && WrapperMessage(w, c).Ok? && WrapperMessage(w, c) == WrapperMessage(v, d)
    ensures w.purpose == v.purpose && w.payload == v.payload && w.disclosures == v.disclosures && c == d
  {
    hide Build, CommittedPayload;
    MessageInjective(w.purpose, c, CommittedPayload(w.payload, w.disclosures),
                     v.purpose, d, CommittedPayload(v.payload, v.disclosures));
    CommittedPayloadInjective(w.payload, w.disclosures, v.payload, v.disclosures);
  }

  /** What the relying party expects of a wrapper's unsigned identifiers. */
  datatype Binding = Binding(classicalKeyId: bytes, pqKeyId: bytes, generation: u64)

  type Verifier = (Pair, bytes, Pair) -> Result<(), HybridError>

  function VerifyWrapper(w: Wrapper, expected: Purpose, b: Binding, c: Context, key: Pair, verifier: Verifier)
    : (r: Result<(), HybridError>)
  {
    if w.purpose != expected then Err(PolicyDenied)
    else if w.classicalKeyId != b.classicalKeyId || w.pqKeyId != b.pqKeyId then Err(Mismatch(IdentityField))
    else if w.generation != b.generation || c.keyGeneration != b.generation then Err(Mismatch(GenerationField))
    else
      match WrapperMessage(w, c)
      case Err(e) => Err(e)
      case Ok(m) => verifier(key, m, w.signature)
  }

  /** Exactly which wrappers verify, and that one message reaches the verifier. */
  lemma VerifyWrapperIff(w: Wrapper, expected: Purpose, b: Binding, c: Context, key: Pair, verifier: Verifier)
    requires WrapperOk(w)
    ensures VerifyWrapper(w, expected, b, c, key, verifier).Ok? <==>
      && w.purpose == expected
      && Binding(w.classicalKeyId, w.pqKeyId, w.generation) == b
      && c.keyGeneration == b.generation
      && ContextOk(w.purpose, c)
      && verifier(key, Message(expected, c, CommittedPayload(w.payload, w.disclosures)), w.signature).Ok?
  {
    hide Message, CommittedPayload, ContextOk, CommonError, PurposeAllows;
    WrapperMessageIff(w, c);
    BuildSucceedsIff(w.purpose, c, CommittedPayload(w.payload, w.disclosures));
  }

  /** If a verifier accepts only messages its signer signed, a wrapper verifies only when its own
      payload, disclosures, purpose and context were signed; none can be changed. */
  lemma AcceptedWrapperWasSigned(w: Wrapper, expected: Purpose, b: Binding, c: Context, key: Pair, verifier: Verifier,
                                 signed: set<Signed>)
    requires WrapperOk(w) && VerifyWrapper(w, expected, b, c, key, verifier).Ok?
    requires forall m, s :: verifier(key, m, s).Ok? ==>
      exists x :: x in signed && Build(x.purpose, x.context, x.payload) == Ok(m)
    ensures Signed(w.purpose, c, CommittedPayload(w.payload, w.disclosures)) in signed
  {
    hide Build, CommittedPayload;
    var m := WrapperMessage(w, c).value;
    assert verifier(key, m, w.signature).Ok?;
    var x :| x in signed && Build(x.purpose, x.context, x.payload) == Ok(m);
    MessageInjective(x.purpose, x.context, x.payload, w.purpose, c, CommittedPayload(w.payload, w.disclosures));
    assert x == Signed(x.purpose, x.context, x.payload);
  }
}
