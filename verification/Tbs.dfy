/** The one message both component signatures cover: domain, profile, purpose, context, payload. */
module Tbs {
  import opened Bytes
  import opened HybridTypes
  import opened Framing

  const MAX_FIELD_BYTES: nat := 4096
  const MIN_NONCE_BYTES: nat := 16
  const MAX_NONCE_BYTES: nat := 64

  type Hash = h: bytes | |h| == 32 witness seq(32, _ => 0)

  function TbsDomain(): (d: bytes) ensures |d| == 28 { Ascii("EUWALLET-HYBRID-SIGNATURE-V1") }
  function ContextDomain(): (d: bytes) ensures |d| == 26 { Ascii("EUWALLET-HYBRID-CONTEXT-V1") }

  datatype Context = Context(
    walletIdentity: bytes, issuerIdentity: Option<bytes>, keyGeneration: u64, transactionId: Option<bytes>,
    sessionId: Option<bytes>, audience: Option<bytes>, nonce: bytes, createdAt: u64, expiresAt: u64,
    transcriptHash: Option<Hash>)

  // ------------------------------------------------------------ validation

  function FieldError(v: bytes): (e: Option<HybridError>) {
    if v == [] then Some(NonCanonicalInput)
    else if |v| > MAX_FIELD_BYTES then Some(ResourceLimitExceeded)
    else None
  }

  function OptionalError(v: Option<bytes>): (e: Option<HybridError>) { if v.None? then None else FieldError(v.value) }

  /** The checks made for every purpose; the first that fails is reported. */
  function CommonError(c: Context): (e: Option<HybridError>) {
    if FieldError(c.walletIdentity).Some? then FieldError(c.walletIdentity)
    else if OptionalError(c.issuerIdentity).Some? then OptionalError(c.issuerIdentity)
    else if OptionalError(c.transactionId).Some? then OptionalError(c.transactionId)
    else if OptionalError(c.sessionId).Some? then OptionalError(c.sessionId)
    else if OptionalError(c.audience).Some? then OptionalError(c.audience)
    else if c.keyGeneration == 0 then Some(Mismatch(GenerationField))
    else if !(MIN_NONCE_BYTES <= |c.nonce| <= MAX_NONCE_BYTES) then Some(NonCanonicalInput)
    else if c.createdAt >= c.expiresAt then Some(NonCanonicalInput)
    else None
  }

  /** Which fields a purpose demands, and which it forbids. */
  predicate PurposeAllows(p: Purpose, c: Context) {
    match p
    case WalletExportV1 | WalletRecoveryV1 =>
      c.issuerIdentity.None? && c.transactionId.None? && c.sessionId.None? && c.audience.None? && c.transcriptHash.None?
    case PrivateProviderMessageV1 =>
      c.sessionId.Some? && c.audience.Some? && c.transcriptHash.Some?
    case TestSdJwtWrapperV1 | TestMdocWrapperV1 =>
      && c.issuerIdentity.Some? && c.transactionId.Some? && c.audience.Some?
      && (c.sessionId.Some? ==> c.transcriptHash.Some?)
  }

  // ------------------------------------------------------------ construction

  function Flat(v: Option<bytes>): (s: bytes) { if v.None? then [] else v.value }

  /** Field values in tag order, from tag 1. An absent field is written empty. */
  function ContextFields(c: Context): (fs: seq<bytes>)
    ensures |fs| == 10
  {
    [c.walletIdentity, Flat(c.issuerIdentity), ToBe(c.keyGeneration, 8), Flat(c.transactionId), Flat(c.sessionId),
     Flat(c.audience), c.nonce, ToBe(c.createdAt, 8), ToBe(c.expiresAt, 8), Flat(c.transcriptHash)]
  }

  function EncodeContext(c: Context): (s: bytes) { ContextDomain() + Tagged(ContextFields(c), 1) }

  function Message(p: Purpose, c: Context, payload: bytes): (s: bytes) {
    TbsDomain() + Frames([ProfileId(), PurposeId(p), EncodeContext(c), payload])
  }

  function Build(p: Purpose, c: Context, payload: bytes): (r: Result<bytes, HybridError>) {
    if |payload| > MAX_FIELD_BYTES then Err(ResourceLimitExceeded)
    else if CommonError(c).Some? then Err(CommonError(c).value)
    else if !PurposeAllows(p, c) then Err(PolicyDenied)
    else Ok(Message(p, c, payload))
  }

  // ------------------------------------------------------------ reading a message back

  function Unflat(v: bytes): (r: Option<bytes>) { if v == [] then None else Some(v) }

  /** A context from its ten field values. */
  function ContextOf(fs: seq<bytes>): (r: Option<Context>) {
    if |fs| != 10 || |fs[2]| != 8 || |fs[7]| != 8 || |fs[8]| != 8 || (|fs[9]| != 0 && |fs[9]| != 32) then None
    else
      var generation, created, expires := FromBe(fs[2]), FromBe(fs[7]), FromBe(fs[8]);
      if generation >= U64_LIMIT || created >= U64_LIMIT || expires >= U64_LIMIT then None
      else Some(Context(fs[0], Unflat(fs[1]), generation, Unflat(fs[3]), Unflat(fs[4]), Unflat(fs[5]), fs[6],
                        created, expires, if fs[9] == [] then None else Some(fs[9])))
  }

  function DecodeContext(s: bytes): (r: Option<Context>) {
    if !(ContextDomain() <= s) then None
    else match ReadTagged(s[|ContextDomain()|..], 1) case None => None case Some(fs) => ContextOf(fs)
  }

  datatype Signed = Signed(purpose: Purpose, context: Context, payload: bytes)

  function DecodeMessage(s: bytes): (r: Option<Signed>) {
    if !(TbsDomain() <= s) then None
    else
      match ReadFrames(s[|TbsDomain()|..])
      case None => None
      case Some(fs) =>
        if |fs| != 4 || fs[0] != ProfileId() || PurposeOf(fs[1]).None? || DecodeContext(fs[2]).None? then None
        else Some(Signed(PurposeOf(fs[1]).value, DecodeContext(fs[2]).value, fs[3]))
  }
}
