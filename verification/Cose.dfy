/** COSE_Sign1 (RFC 9052 sections 3.1, 4.2 and 4.4; RFC 9360 section 2): headers, the bytes to
    be signed, and the wire structure. Signing and verifying are supplied from outside. */
module Cose {
  import opened Bytes
  import opened Cbor

  const LABEL_ALG: u64 := 1
  const LABEL_CRIT: u64 := 2
  const LABEL_KID: u64 := 4
  const LABEL_X5CHAIN: u64 := 33

  const MAX_X5CHAIN_CERTIFICATES: nat := 8
  const MAX_X5CHAIN_CERTIFICATE_BYTES: nat := 65536
  const MAX_X5CHAIN_TOTAL_BYTES: nat := 262144
  const MAX_PRIVATE_LABELS: nat := 8
  const MAX_PRIVATE_LABEL_BYTES: nat := 65536
  const I64_MAX: int := 0x7FFF_FFFF_FFFF_FFFF

  type i64 = n: int | -0x8000_0000_0000_0000 <= n <= 0x7FFF_FFFF_FFFF_FFFF

  datatype Alg = Es256 | Es384 | EdDsa

  datatype CoseError =
    | Crypto
    | UnknownCriticalParam(labelId: i64)
    | MalformedHeader
    | MalformedStructure
    | AlgMismatch

  /** Certificates as DER bytes, leaf first. */
  datatype X5Chain = Single(certificate: bytes) | Chain(certificates: seq<bytes>)

  datatype UnprotectedHeader = UnprotectedHeader(kid: Option<bytes>, x5chain: Option<X5Chain>,
                                                 privateLabels: seq<(i64, bytes)>)

  datatype CoseSign1 = CoseSign1(protected: bytes, unprotected: UnprotectedHeader,
                                 payload: Option<bytes>, signature: bytes)

  datatype ProtectedHeader = ProtectedHeader(alg: Alg, kid: Option<bytes>, x5chain: Option<X5Chain>)

  function AlgId(alg: Alg): (id: i64) {
    match alg
    case Es256 => -7
    case Es384 => -35
    case EdDsa => -8
  }

  function AlgFromId(id: i64): (r: Option<Alg>) {
    if id == -7 then Some(Es256) else if id == -35 then Some(Es384) else if id == -8 then Some(EdDsa) else None
  }

  // ------------------------------------------------------------ certificate chains

  predicate CertificateSizeOk(certificate: bytes) {
    0 < |certificate| <= MAX_X5CHAIN_CERTIFICATE_BYTES
  }

  function TotalSize(certificates: seq<bytes>): (n: nat) {
    if certificates == [] then 0 else |certificates[0]| + TotalSize(certificates[1..])
  }

  /** Bounded shape: one certificate, or 2 to 8, each and in total within the byte limits. */
  predicate ChainOk(chain: X5Chain) {
    match chain
    case Single(c) => CertificateSizeOk(c)
    case Chain(cs) =>
      && 2 <= |cs| <= MAX_X5CHAIN_CERTIFICATES
      && (forall i :: 0 <= i < |cs| ==> CertificateSizeOk(cs[i]))
      && TotalSize(cs) <= MAX_X5CHAIN_TOTAL_BYTES
  }

  predicate AllBytes(items: seq<Value>) { forall i :: 0 <= i < |items| ==> items[i].ByteStr? }

  function Bodies(items: seq<Value>): (r: seq<bytes>)
    requires AllBytes(items)
    ensures |r| == |items|
    ensures forall i :: 0 <= i < |items| ==> r[i] == items[i].body
  {
    seq(|items|, i requires 0 <= i < |items| => items[i].body)
  }

  function ChainFromValue(v: Value): (r: Result<X5Chain, CoseError>)
    ensures r.Ok? ==> ChainOk(r.value)
  {
    match v
    case ByteStr(c) => if ChainOk(Single(c)) then Ok(Single(c)) else Err(MalformedHeader)
    case Array(items) =>
      if AllBytes(items) && ChainOk(Chain(Bodies(items))) then Ok(Chain(Bodies(items))) else Err(MalformedHeader)
    case _ => Err(MalformedHeader)
  }

  function ByteStrings(certificates: seq<bytes>): (r: seq<Value>)
    ensures |r| == |certificates|
    ensures forall i :: 0 <= i < |certificates| ==> r[i] == ByteStr(certificates[i])
  {
    seq(|certificates|, i requires 0 <= i < |certificates| => ByteStr(certificates[i]))
  }

  function ChainToValue(chain: X5Chain): (v: Value) {
    match chain
    case Single(c) => ByteStr(c)
    case Chain(cs) => Array(ByteStrings(cs))
  }

  // ------------------------------------------------------------ header maps

  function IntegerLabel(v: Value): (r: Result<i64, CoseError>) {
    match v
    case Uint(n) => if n <= I64_MAX then Ok(n) else Err(MalformedHeader)
    case Nint(n) => if n <= I64_MAX then Ok(-1 - n) else Err(MalformedHeader)
    case _ => Err(MalformedHeader)
  }

  function LabelValue(labelId: i64): (v: Value) {
    if labelId < 0 then Nint(-1 - labelId) else Uint(labelId)
  }

  /** The value of the first pair keyed by this unsigned label. */
  function HeaderValue(pairs: seq<(Value, Value)>, labelId: u64): (r: Option<Value>) {
    if pairs == [] then None
    else if pairs[0].0 == Uint(labelId) then Some(pairs[0].1)
    else HeaderValue(pairs[1..], labelId)
  }

  predicate UniqueLabels(pairs: seq<(Value, Value)>) {
    forall i, j :: 0 <= i < j < |pairs| ==> pairs[i].0 != pairs[j].0
  }

  predicate HasKey(pairs: seq<(Value, Value)>, key: Value) {
    exists i :: 0 <= i < |pairs| && pairs[i].0 == key
  }

  /** Every critical label must be one that is implemented, present and listed once. */
  function CheckCritical(items: seq<Value>, pairs: seq<(Value, Value)>, seen: seq<Value>): (r: Option<CoseError>) {
    if items == [] then None
    else
      match IntegerLabel(items[0])
      case Err(e) => Some(e)
      case Ok(labelId) =>
        if labelId == LABEL_CRIT then Some(MalformedHeader)
        else if labelId != LABEL_ALG && labelId != LABEL_KID && labelId != LABEL_X5CHAIN then
          Some(UnknownCriticalParam(labelId))
        else if items[0] in seen || !HasKey(pairs, items[0]) then Some(MalformedHeader)
        else CheckCritical(items[1..], pairs, seen + [items[0]])
  }

  function CriticalError(pairs: seq<(Value, Value)>): (r: Option<CoseError>) {
    match HeaderValue(pairs, LABEL_CRIT)
    case None => None
    case Some(crit) =>
      if !crit.Array? || crit.items == [] then Some(MalformedHeader) else CheckCritical(crit.items, pairs, [])
  }

  function ParseAlg(pairs: seq<(Value, Value)>): (r: Result<Alg, CoseError>) {
    match HeaderValue(pairs, LABEL_ALG)
    case None => Err(MalformedHeader)
    case Some(v) =>
      match IntegerLabel(v)
      case Err(e) => Err(e)
      case Ok(id) => match AlgFromId(id) case None => Err(MalformedHeader) case Some(alg) => Ok(alg)
  }

  function ParseKid(pairs: seq<(Value, Value)>): (r: Result<Option<bytes>, CoseError>) {
    match HeaderValue(pairs, LABEL_KID)
    case None => Ok(None)
    case Some(v) => if v.ByteStr? then Ok(Some(v.body)) else Err(MalformedHeader)
  }

  function ParseX5Chain(pairs: seq<(Value, Value)>): (r: Result<Option<X5Chain>, CoseError>)
    ensures r.Ok? && r.value.Some? ==> ChainOk(r.value.value)
  {
    match HeaderValue(pairs, LABEL_X5CHAIN)
    case None => Ok(None)
    case Some(v) => match ChainFromValue(v) case Err(e) => Err(e) case Ok(c) => Ok(Some(c))
  }

  function ParseProtected(protected: bytes): (r: Result<ProtectedHeader, CoseError>) {
    match FromCanonical(protected)
    case Err(_) => Err(MalformedHeader)
    case Ok(value) =>
      if !value.Map? then Err(MalformedHeader)
      else if !UniqueLabels(value.pairs) then Err(MalformedHeader)
      else
        match CriticalError(value.pairs)
        case Some(e) => Err(e)
        case None =>
          match ParseAlg(value.pairs)
          case Err(e) => Err(e)
          case Ok(alg) =>
            match ParseKid(value.pairs)
            case Err(e) => Err(e)
            case Ok(kid) =>
              match ParseX5Chain(value.pairs)
              case Err(e) => Err(e)
              case Ok(x) => Ok(ProtectedHeader(alg, kid, x))
  }

  // ------------------------------------------------------------ private labels

  /** A private-use entry worth keeping: negative label, byte string within bounds. */
  predicate Keepable(p: (Value, Value)) {
    && IntegerLabel(p.0).Ok? && IntegerLabel(p.0).value < 0
    && p.1.ByteStr? && |p.1.body| <= MAX_PRIVATE_LABEL_BYTES
  }

  /** The first `room` private-use entries, in order. */
  function PrivateEntries(pairs: seq<(Value, Value)>, room: nat): (r: seq<(i64, bytes)>) {
    if pairs == [] then []
    else if !Keepable(pairs[0]) then PrivateEntries(pairs[1..], room)
    else if room == 0 then []
    else [(IntegerLabel(pairs[0].0).value, pairs[0].1.body)] + PrivateEntries(pairs[1..], room - 1)
  }

  function ParseUnprotected(value: Value): (r: Result<UnprotectedHeader, CoseError>) {
    if !value.Map? then Err(MalformedStructure)
    else if !UniqueLabels(value.pairs) then Err(MalformedHeader)
    else if HeaderValue(value.pairs, LABEL_ALG).Some? || HeaderValue(value.pairs, LABEL_CRIT).Some? then
      Err(MalformedHeader)
    else
      match ParseKid(value.pairs)
      case Err(e) => Err(e)
      case Ok(kid) =>
        match ParseX5Chain(value.pairs)
        case Err(e) => Err(e)
        case Ok(x) => Ok(UnprotectedHeader(kid, x, PrivateEntries(value.pairs, MAX_PRIVATE_LABELS)))
  }

  predicate HeadersCompatible(p: ProtectedHeader, u: UnprotectedHeader) {
    && !(p.kid.Some? && u.kid.Some?)
    && !(p.x5chain.Some? && u.x5chain.Some?)
    && (u.x5chain.Some? ==> ChainOk(u.x5chain.value))
  }

  // ------------------------------------------------------------ messages

  function SigValue(protected: bytes, aad: bytes, payload: bytes): (v: Value) {
    Array([Text(Ascii("Signature1")), ByteStr(protected), ByteStr(aad), ByteStr(payload)])
  }

  /** The exact bytes handed to the signer and the verifier. */
  function SigStructure(protected: bytes, aad: bytes, payload: bytes): (s: bytes) {
    Encode(SigValue(protected, aad, payload))
  }

  function ProtectedPairs(alg: Alg): (pairs: seq<(Value, Value)>) {
    [(Uint(LABEL_ALG), LabelValue(AlgId(alg)))]
  }

  function EncodeProtected(alg: Alg): (s: bytes) {
    Encode(Map(ProtectedPairs(alg)))
  }

  /** A signature made outside, or none. */
  type Signer = (Alg, bytes) -> Option<bytes>
  /** Does this signature verify under this key over these bytes? */
  type Verifier = (Alg, bytes, bytes, bytes) -> bool

  function Sign(signer: Signer, alg: Alg, payload: bytes, aad: bytes, unprotected: UnprotectedHeader)
    : (r: Result<CoseSign1, CoseError>)
  {
    var protected := EncodeProtected(alg);
    match ParseProtected(protected)
    case Err(e) => Err(e)
    case Ok(header) =>
      if !HeadersCompatible(header, unprotected) then Err(MalformedHeader)
      else
        match signer(alg, SigStructure(protected, aad, payload))
        case None => Err(Crypto)
        case Some(sig) => Ok(CoseSign1(protected, unprotected, Some(payload), sig))
  }

  function Verify(m: CoseSign1, verifier: Verifier, expected: Alg, key: bytes, aad: bytes, detached: Option<bytes>)
    : (r: Result<(), CoseError>)
  {
    match ParseProtected(m.protected)
    case Err(e) => Err(e)
    case Ok(header) =>
      if !HeadersCompatible(header, m.unprotected) then Err(MalformedHeader)
      else if header.alg != expected then Err(AlgMismatch)
      else if m.payload.Some? == detached.Some? then Err(MalformedStructure)
      else
        var payload := if m.payload.Some? then m.payload.value else detached.value;
        if verifier(expected, key, SigStructure(m.protected, aad, payload), m.signature) then Ok(()) else Err(Crypto)
  }

  function FromValue(v: Value): (r: Result<CoseSign1, CoseError>) {
    if !v.Array? || |v.items| != 4 then Err(MalformedStructure)
    else if !v.items[0].ByteStr? then Err(MalformedStructure)
    else
      match ParseProtected(v.items[0].body)
      case Err(e) => Err(e)
      case Ok(header) =>
        match ParseUnprotected(v.items[1])
        case Err(e) => Err(e)
        case Ok(u) =>
          if !HeadersCompatible(header, u) then Err(MalformedHeader)
          else if !v.items[2].ByteStr? && !v.items[2].Null? then Err(MalformedStructure)
          else if !v.items[3].ByteStr? then Err(MalformedStructure)
          else
            Ok(CoseSign1(v.items[0].body, u, if v.items[2].ByteStr? then Some(v.items[2].body) else None,
                         v.items[3].body))
  }

  function KidPairs(kid: Option<bytes>): (pairs: seq<(Value, Value)>) {
    if kid.None? then [] else [(Uint(LABEL_KID), ByteStr(kid.value))]
  }

  function ChainPairs(chain: Option<X5Chain>): (pairs: seq<(Value, Value)>) {
    if chain.None? then [] else [(Uint(LABEL_X5CHAIN), ChainToValue(chain.value))]
  }

  function PrivatePairs(labels: seq<(i64, bytes)>): (pairs: seq<(Value, Value)>)
    ensures |pairs| == |labels|
    ensures forall i :: 0 <= i < |labels| ==> pairs[i] == (LabelValue(labels[i].0), ByteStr(labels[i].1))
  {
    seq(|labels|, i requires 0 <= i < |labels| => (LabelValue(labels[i].0), ByteStr(labels[i].1)))
  }

  function UnprotectedPairs(u: UnprotectedHeader): (pairs: seq<(Value, Value)>) {
    KidPairs(u.kid) + (ChainPairs(u.x5chain) + PrivatePairs(u.privateLabels))
  }

  function ToValue(m: CoseSign1): (v: Value) {
    Array([ByteStr(m.protected), Map(UnprotectedPairs(m.unprotected)),
           if m.payload.Some? then ByteStr(m.payload.value) else Null, ByteStr(m.signature)])
  }
}
