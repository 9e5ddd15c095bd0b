/** Key and signature envelopes and the credential wrapper of the hybrid profile. */
module Envelope {
  import opened Bytes
  import opened Utf8
  import opened Cbor
  import opened HybridTypes
  import opened StrictMap

  const ENVELOPE_VERSION: u64 := 1
  const KIND_PUBLIC_KEY: u64 := 1
  const KIND_SIGNATURE: u64 := 2
  const WRAPPER_VERSION: u64 := 1
  const MAX_WRAPPER_BYTES: nat := 65536
  const MAX_COMMITTED_PAYLOAD_BYTES: nat := 4096

  function GetNum(m: Fields, k: u64): (r: Option<u64>) { if k in m && m[k].Num? then Some(m[k].n) else None }
  function GetTxt(m: Fields, k: u64): (r: Option<bytes>) { if k in m && m[k].Txt? then Some(m[k].text) else None }
  function GetBlob(m: Fields, k: u64): (r: Option<bytes>) { if k in m && m[k].Blob? then Some(m[k].blob) else None }
  function GetBlobs(m: Fields, k: u64): (r: Option<seq<bytes>>) {
    if k in m && m[k].Blobs? then Some(m[k].blobs) else None
  }

  // ------------------------------------------------------------ envelopes

  datatype SignatureEnvelope = SignatureEnvelope(purpose: Purpose, signature: Pair)

  function EncodePublicKey(k: Pair): (s: bytes) {
    MagicPrefix() + (Head(5, 5) + (WriteEntry(1, Num(ENVELOPE_VERSION)) + (WriteEntry(2, Num(KIND_PUBLIC_KEY))
      + (WriteEntry(3, Txt(ProfileId())) + (WriteEntry(4, Blob(k.classical)) + WriteEntry(5, Blob(k.postQuantum)))))))
  }

  function EncodeSignature(e: SignatureEnvelope): (s: bytes) {
    MagicPrefix() + (Head(5, 6) + (WriteEntry(1, Num(ENVELOPE_VERSION)) + (WriteEntry(2, Num(KIND_SIGNATURE))
      + (WriteEntry(3, Txt(ProfileId())) + (WriteEntry(4, Blob(e.signature.classical))
      + (WriteEntry(5, Blob(e.signature.postQuantum)) + WriteEntry(6, Txt(PurposeId(e.purpose)))))))))
  }

  datatype Parsed = Parsed(kind: u64, classical: bytes, postQuantum: bytes, purpose: Option<Purpose>)

  /** The mandatory fields of an envelope, after its entries were read. */
  function FromEnvelopeFields(m: Fields): (r: Result<Parsed, EnvelopeError>) {
    if GetNum(m, 1).None? then Err(MissingField)
    else if GetNum(m, 1).value != ENVELOPE_VERSION then Err(UnsupportedVersion)
    else if GetNum(m, 2).None? || GetTxt(m, 3).None? || GetBlob(m, 4).None? || GetBlob(m, 5).None?
      then Err(MissingField)
    else Ok(Parsed(GetNum(m, 2).value, GetBlob(m, 4).value, GetBlob(m, 5).value,
                   if GetTxt(m, 6).None? then None else PurposeOf(GetTxt(m, 6).value)))
  }

  function ParseEnvelope(input: bytes): (r: Result<Parsed, EnvelopeError>) {
    match ReadDocument(EnvelopeMap, input, MAX_ENVELOPE_BYTES)
    case Err(e) => Err(e)
    case Ok(m) => FromEnvelopeFields(m)
  }

  function ComponentError(e: HybridError): (r: EnvelopeError) {
    if e == ResourceLimitExceeded then TooLarge else EMalformedComponent
  }

  function DecodePublicKey(input: bytes): (r: Result<Pair, EnvelopeError>) {
    match ParseEnvelope(input)
    case Err(e) => Err(e)
    case Ok(p) =>
      if p.kind != KIND_PUBLIC_KEY then Err(UnsupportedKind)
      else if p.purpose.Some? then Err(UnexpectedField)
      else
        match NewPublicKey(p.classical, p.postQuantum)
        case Err(e) => Err(ComponentError(e))
        case Ok(k) => Ok(k)
  }

  function DecodeSignature(input: bytes): (r: Result<SignatureEnvelope, EnvelopeError>) {
    match ParseEnvelope(input)
    case Err(e) => Err(e)
    case Ok(p) =>
      if p.kind != KIND_SIGNATURE then Err(UnsupportedKind)
      else if p.purpose.None? then Err(MissingField)
      else
        match NewSignature(p.classical, p.postQuantum)
        case Err(e) => Err(ComponentError(e))
        case Ok(s) => Ok(SignatureEnvelope(p.purpose.value, s))
  }

  // ------------------------------------------------------------ credential wrapper

  /** Key identifiers are UTF-8 text. */
  datatype Wrapper = Wrapper(purpose: Purpose, payload: bytes, disclosures: seq<bytes>, classicalKeyId: bytes,
                             pqKeyId: bytes, generation: u64, signature: Pair)

  /** The committed map `{1: payload, 2: [disclosures]}` that both signatures cover. */
  function CommittedPayload(payload: bytes, disclosures: seq<bytes>): (s: bytes) {
    Head(5, 2) + (WriteEntry(1, Blob(payload)) + WriteEntry(2, Blobs(disclosures)))
  }

  predicate KeyIdOk(id: bytes) { 0 < |id| <= 128 && ValidUtf8(id) }

  /** What is asked of the fields one by one. */
  predicate PartsOk(w: Wrapper) {
    && (w.purpose == TestSdJwtWrapperV1 || w.purpose == TestMdocWrapperV1)
    && 0 < |w.payload| <= 4096
    && |w.disclosures| < U64_LIMIT && BlobsOk(w.disclosures)
    && KeyIdOk(w.classicalKeyId) && KeyIdOk(w.pqKeyId)
    && w.generation > 0
    && SignatureOk(w.signature)
  }

  /** Everything the constructor enforces, and the Rust types guarantee. */
  predicate WrapperOk(w: Wrapper) { PartsOk(w) && |CommittedPayload(w.payload, w.disclosures)| <= 4096 }

  function DisclosureError(ds: seq<bytes>): (r: Option<HybridError>)
    ensures r.None? <==> BlobsOk(ds)
  {
    if ds == [] then None
    else if ds[0] == [] then Some(NonCanonicalInput)
    else if |ds[0]| > MAX_PAYLOAD_BYTES then Some(ResourceLimitExceeded)
    else DisclosureError(ds[1..])
  }

  function KeyIdError(id: bytes): (r: Option<HybridError>) {
    if id == [] then Some(NonCanonicalInput)
    else if |id| > MAX_KEY_ID_BYTES then Some(ResourceLimitExceeded)
    else None
  }

  /** The constructor: checks in order, first failure reported. */
  function NewWrapper(w: Wrapper): (r: Result<Wrapper, HybridError>) {
    if !IsWrapperPurpose(w.purpose) then Err(PolicyDenied)
    else if w.payload == [] then Err(NonCanonicalInput)
    else if |w.payload| > MAX_PAYLOAD_BYTES then Err(ResourceLimitExceeded)
    else if DisclosureError(w.disclosures).Some? then Err(DisclosureError(w.disclosures).value)
    else if KeyIdError(w.classicalKeyId).Some? then Err(KeyIdError(w.classicalKeyId).value)
    else if KeyIdError(w.pqKeyId).Some? then Err(KeyIdError(w.pqKeyId).value)
    else if w.generation == 0 then Err(Mismatch(GenerationField))
    else if |CommittedPayload(w.payload, w.disclosures)| > MAX_COMMITTED_PAYLOAD_BYTES then Err(ResourceLimitExceeded)
    else Ok(w)
  }

  function WrapperContents(w: Wrapper): (s: bytes) {
    WriteEntry(5, Blob(w.payload)) + (WriteEntry(6, Blobs(w.disclosures))
      + (WriteEntry(7, Txt(w.classicalKeyId)) + (WriteEntry(8, Txt(w.pqKeyId))
      + (WriteEntry(9, Num(w.generation)) + (WriteEntry(10, Blob(w.signature.classical))
      + WriteEntry(11, Blob(w.signature.postQuantum)))))))
  }

  function EncodeWrapper(w: Wrapper): (s: bytes) {
    MagicPrefix() + (Head(5, 11) + (WriteEntry(1, Num(WRAPPER_VERSION)) + (WriteEntry(2, Txt(ProfileId()))
      + (WriteEntry(3, Txt(PurposeId(w.purpose))) + (WriteEntry(4, Txt(CredentialFormat()))
      + WrapperContents(w))))))
  }

  function FromWrapperFields(m: Fields): (r: Result<Wrapper, EnvelopeError>) {
    if GetNum(m, 1).None? then Err(MissingField)
    else if GetNum(m, 1).value != WRAPPER_VERSION then Err(UnsupportedVersion)
    else if GetTxt(m, 4).None? || GetTxt(m, 2).None? || GetBlob(m, 10).None? || GetBlob(m, 11).None?
      then Err(MissingField)
    else
      match NewSignature(GetBlob(m, 10).value, GetBlob(m, 11).value)
      case Err(_) => Err(EMalformedComponent)
      case Ok(sig) =>
        if GetTxt(m, 3).None? || PurposeOf(GetTxt(m, 3).value).None? || GetBlob(m, 5).None? || GetBlobs(m, 6).None?
           || GetTxt(m, 7).None? || GetTxt(m, 8).None? || GetNum(m, 9).None? then Err(MissingField)
        else
          match NewWrapper(Wrapper(PurposeOf(GetTxt(m, 3).value).value, GetBlob(m, 5).value, GetBlobs(m, 6).value,
                                   GetTxt(m, 7).value, GetTxt(m, 8).value, GetNum(m, 9).value, sig))
          case Err(e) => Err(ComponentError(e))
          case Ok(w) => Ok(w)
  }

  function DecodeWrapper(input: bytes): (r: Result<Wrapper, EnvelopeError>) {
    match ReadDocument(WrapperMap, input, MAX_WRAPPER_BYTES)
    case Err(e) => Err(e)
    case Ok(m) => FromWrapperFields(m)
  }
}
