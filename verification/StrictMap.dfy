/** The strict CBOR maps of the hybrid profile: unsigned keys in ascending order, each with one
    fixed kind of value. Envelopes and credential wrappers share the reader. */
module StrictMap {
  import opened Bytes
  import opened Utf8
  import opened Cbor
  import opened HybridTypes

  const MAX_ENVELOPE_BYTES: nat := 8192
  const MAX_TEXT_BYTES: nat := 64
  const MAX_PAYLOAD_BYTES: nat := 4096
  const MAX_KEY_ID_BYTES: nat := 128
  /** One past the largest key any of the maps defines. */
  const KEY_LIMIT: nat := 12

  datatype EnvelopeError =
    | TooLarge | BadPrefix | ETruncated | NonCanonical | EIndefiniteLength | DuplicateKey | KeysNotSorted
    | UnknownField | UnsupportedVersion | UnsupportedKind | EUnsupportedProfile | UnsupportedPurpose
    | UnsupportedFormat | ZeroGeneration | EmptyField | MissingField | UnexpectedField | WrongType
    | EInvalidUtf8 | EMalformedComponent | ETrailingBytes

  type Read<T> = Result<(T, bytes), EnvelopeError>

  /** Shared magic prefix of every envelope and wrapper. */
  function MagicPrefix(): (p: bytes)
    ensures |p| == 35
  {
    Ascii("EUWALLET-EXPERIMENTAL-HYBRID-PQ-V1") + [0]
  }

  function CredentialFormat(): (id: bytes)
    ensures |id| == 18 && IsAscii(id)
  {
    Ascii("dev-hybrid-pq+cbor")
  }

  // ------------------------------------------------------------ items

  function HeadError(e: CborError): (r: EnvelopeError) {
    match e
    case Truncated => ETruncated
    case IndefiniteLength => EIndefiniteLength
    case _ => NonCanonical
  }

  function TakeHead(s: bytes): (r: Result<HeadItem, EnvelopeError>)
    ensures r.Ok? ==> |r.value.rest| < |s|
  {
    match ReadHead(s)
    case Err(e) => Err(HeadError(e))
    case Ok(h) => Ok(h)
  }

  function TakeUint(s: bytes): (r: Read<u64>)
    ensures r.Ok? ==> |r.value.1| < |s|
  {
    match TakeHead(s)
    case Err(e) => Err(e)
    case Ok(h) => if h.m != 0 then Err(WrongType) else Ok((h.arg, h.rest))
  }

  /** A string of major type `m` and at most `limit` bytes. */
  function TakeString(s: bytes, m: major, limit: nat): (r: Read<bytes>)
    ensures r.Ok? ==> |r.value.1| < |s|
  {
    match TakeHead(s)
    case Err(e) => Err(e)
    case Ok(h) =>
      if h.m != m then Err(WrongType)
      else if h.arg > limit then Err(TooLarge)
      else if |h.rest| < h.arg then Err(ETruncated)
      else Ok((h.rest[..h.arg], h.rest[h.arg..]))
  }

  function TakeText(s: bytes): (r: Read<bytes>)
    ensures r.Ok? ==> |r.value.1| < |s|
  {
    match TakeString(s, 3, MAX_TEXT_BYTES)
    case Err(e) => Err(e)
    case Ok(x) => if ValidUtf8(x.0) then Ok(x) else Err(EInvalidUtf8)
  }

  function TakeNonEmpty(s: bytes): (r: Read<bytes>)
    ensures r.Ok? ==> |r.value.1| < |s|
  {
    match TakeString(s, 2, MAX_PAYLOAD_BYTES)
    case Err(e) => Err(e)
    case Ok(x) => if x.0 == [] then Err(EmptyField) else Ok(x)
  }

  function TakeList(s: bytes, count: nat): (r: Read<seq<bytes>>)
    ensures r.Ok? ==> |r.value.1| <= |s| && |r.value.0| == count
    decreases |s|, count
  {
    if count == 0 then Ok(([], s))
    else
      match TakeNonEmpty(s)
      case Err(e) => Err(e)
      case Ok(x) =>
        match TakeList(x.1, count - 1)
        case Err(e) => Err(e)
        case Ok(xs) => Ok(([x.0] + xs.0, xs.1))
  }

  function TakeKeyId(s: bytes): (r: Read<bytes>)
    ensures r.Ok? ==> |r.value.1| < |s|
  {
    match TakeString(s, 3, MAX_KEY_ID_BYTES)
    case Err(e) => Err(e)
    case Ok(x) =>
      if x.0 == [] then Err(EmptyField) else if ValidUtf8(x.0) then Ok(x) else Err(EInvalidUtf8)
  }

  // ------------------------------------------------------------ fields

  datatype Field = Num(n: u64) | Txt(text: bytes) | Blob(blob: bytes) | Blobs(blobs: seq<bytes>)

  datatype Schema = EnvelopeMap | WrapperMap

  function AsNum(r: Read<u64>): (f: Read<Field>) {
    match r case Err(e) => Err(e) case Ok(x) => Ok((Num(x.0), x.1))
  }

  function AsTxt(r: Read<bytes>): (f: Read<Field>) {
    match r case Err(e) => Err(e) case Ok(x) => Ok((Txt(x.0), x.1))
  }

  function AsBlob(r: Read<bytes>): (f: Read<Field>) {
    match r case Err(e) => Err(e) case Ok(x) => Ok((Blob(x.0), x.1))
  }

  /** A text that must satisfy one more condition. */
  function TakeTextIf(s: bytes, ok: bytes -> bool, error: EnvelopeError): (r: Read<bytes>) {
    match TakeText(s)
    case Err(e) => Err(e)
    case Ok(x) => if ok(x.0) then Ok(x) else Err(error)
  }

  predicate IsProfileId(t: bytes) { t == ProfileId() }
  predicate IsPurposeId(t: bytes) { PurposeOf(t).Some? }
  predicate IsWrapperPurposeId(t: bytes) { PurposeOf(t).Some? && IsWrapperPurpose(PurposeOf(t).value) }
  predicate IsFormatId(t: bytes) { t == CredentialFormat() }

  function ReadDisclosures(s: bytes): (r: Read<Field>) {
    match TakeHead(s)
    case Err(e) => Err(e)
    case Ok(h) =>
      if h.m != 4 then Err(WrongType)
      else match TakeList(h.rest, h.arg) case Err(e) => Err(e) case Ok(x) => Ok((Blobs(x.0), x.1))
  }

  function ReadGeneration(s: bytes): (r: Read<Field>) {
    match TakeUint(s)
    case Err(e) => Err(e)
    case Ok(x) => if x.0 == 0 then Err(ZeroGeneration) else Ok((Num(x.0), x.1))
  }

  function ReadEnvelopeField(key: u64, s: bytes): (r: Read<Field>) {
    if key == 1 || key == 2 then AsNum(TakeUint(s))
    else if key == 3 then AsTxt(TakeTextIf(s, IsProfileId, EUnsupportedProfile))
    else if key == 4 || key == 5 then AsBlob(TakeString(s, 2, MAX_ENVELOPE_BYTES))
    else if key == 6 then AsTxt(TakeTextIf(s, IsPurposeId, UnexpectedField))
    else Err(UnknownField)
  }

  function ReadWrapperField(key: u64, s: bytes): (r: Read<Field>) {
    if key == 1 then AsNum(TakeUint(s))
    else if key == 2 then AsTxt(TakeTextIf(s, IsProfileId, EUnsupportedProfile))
    else if key == 3 then AsTxt(TakeTextIf(s, IsWrapperPurposeId, UnsupportedPurpose))
    else if key == 4 then AsTxt(TakeTextIf(s, IsFormatId, UnsupportedFormat))
    else if key == 5 then AsBlob(TakeNonEmpty(s))
    else if key == 6 then ReadDisclosures(s)
    else if key == 7 || key == 8 then AsTxt(TakeKeyId(s))
    else if key == 9 then ReadGeneration(s)
    else if key == 10 then AsBlob(TakeString(s, 2, ES256_SIGNATURE_BYTES))
    else if key == 11 then AsBlob(TakeString(s, 2, ML_DSA_65_SIGNATURE_BYTES))
    else Err(UnknownField)
  }

  function ReadField(schema: Schema, key: u64, s: bytes): (r: Read<Field>)
    ensures r.Ok? ==> |r.value.1| < |s|
  {
    if schema.EnvelopeMap? then ReadEnvelopeField(key, s) else ReadWrapperField(key, s)
  }

  type Fields = map<u64, Field>

  /** The entries of a map; `prev` is the last key read, -1 before the first. */
  function ReadFields(schema: Schema, s: bytes, count: nat, prev: int, acc: Fields): (r: Read<Fields>)
    decreases |s|
  {
    if count == 0 then Ok((acc, s))
    else
      match TakeUint(s)
      case Err(e) => Err(e)
      case Ok(key) =>
        if key.0 == prev then Err(DuplicateKey)
        else if key.0 < prev then Err(KeysNotSorted)
        else
          match ReadField(schema, key.0, key.1)
          case Err(e) => Err(e)
          case Ok(f) => ReadFields(schema, f.1, count - 1, key.0, acc[key.0 := f.0])
  }

  /** Magic prefix, map head, entries, nothing after them. */
  function ReadDocument(schema: Schema, input: bytes, limit: nat): (r: Result<Fields, EnvelopeError>) {
    if |input| > limit then Err(TooLarge)
    else if !(MagicPrefix() <= input) then Err(BadPrefix)
    else
      match TakeHead(input[|MagicPrefix()|..])
      case Err(e) => Err(e)
      case Ok(h) =>
        if h.m != 5 then Err(WrongType)
        else
          match ReadFields(schema, h.rest, h.arg, -1, map[])
          case Err(e) => Err(e)
          case Ok(x) => if x.1 != [] then Err(ETrailingBytes) else Ok(x.0)
  }

  // ------------------------------------------------------------ writing

  function WriteBlob(b: bytes): (s: bytes) { Head(2, |b|) + b }

  function WriteBlobs(bs: seq<bytes>): (s: bytes) {
    if bs == [] then [] else WriteBlob(bs[0]) + WriteBlobs(bs[1..])
  }

  function WriteField(f: Field): (s: bytes) {
    match f
    case Num(n) => Head(0, n)
    case Txt(t) => Head(3, |t|) + t
    case Blob(b) => WriteBlob(b)
    case Blobs(bs) => Head(4, |bs|) + WriteBlobs(bs)
  }

  function WriteEntry(key: nat, f: Field): (s: bytes) { Head(0, key) + WriteField(f) }

  /** Entries with keys from `lo` on, ascending. */
  function WriteFrom(m: Fields, lo: nat): (s: bytes)
    decreases KEY_LIMIT - lo
  {
    if lo >= KEY_LIMIT then []
    else (if lo in m then WriteEntry(lo, m[lo]) else []) + WriteFrom(m, lo + 1)
  }

  function CountFrom(m: Fields, lo: nat): (n: nat)
    ensures n <= KEY_LIMIT
    ensures lo <= KEY_LIMIT ==> n <= KEY_LIMIT - lo
    decreases KEY_LIMIT - lo
  {
    if lo >= KEY_LIMIT then 0 else (if lo in m then 1 else 0) + CountFrom(m, lo + 1)
  }

  function WriteDocument(m: Fields): (s: bytes) {
    MagicPrefix() + (Head(5, CountFrom(m, 0)) + WriteFrom(m, 0))
  }

  /** What the reader demands of the value under each key. */
  predicate FieldOk(schema: Schema, key: u64, f: Field) {
    if schema.EnvelopeMap? then
      if key == 1 || key == 2 then f.Num?
      else if key == 3 then f == Txt(ProfileId())
      else if key == 4 || key == 5 then f.Blob? && |f.blob| <= MAX_ENVELOPE_BYTES
      else key == 6 && f.Txt? && IsPurposeId(f.text)
    else
      if key == 1 then f.Num?
      else if key == 2 then f == Txt(ProfileId())
      else if key == 3 then f.Txt? && IsWrapperPurposeId(f.text)
      else if key == 4 then f == Txt(CredentialFormat())
      else if key == 5 then f.Blob? && 0 < |f.blob| <= MAX_PAYLOAD_BYTES
      else if key == 6 then f.Blobs? && |f.blobs| < U64_LIMIT && BlobsOk(f.blobs)
      else if key == 7 || key == 8 then f.Txt? && 0 < |f.text| <= MAX_KEY_ID_BYTES && ValidUtf8(f.text)
      else if key == 9 then f.Num? && f.n > 0
      else if key == 10 then f.Blob? && |f.blob| <= ES256_SIGNATURE_BYTES
      else key == 11 && f.Blob? && |f.blob| <= ML_DSA_65_SIGNATURE_BYTES
  }

  predicate BlobsOk(bs: seq<bytes>) { forall i :: 0 <= i < |bs| ==> 0 < |bs[i]| <= MAX_PAYLOAD_BYTES }

  /** Lengths that a 64-bit head can carry. */
  predicate Countable(bs: seq<bytes>) { |bs| < U64_LIMIT && forall i :: 0 <= i < |bs| ==> |bs[i]| < U64_LIMIT }

  predicate FieldsOk(schema: Schema, m: Fields) {
    forall k :: k in m ==> k < KEY_LIMIT && FieldOk(schema, k, m[k])
  }
}
