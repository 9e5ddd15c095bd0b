/** Types of the hybrid post-quantum profile: identifiers, errors, keys and signatures. */
module HybridTypes {
  import opened Bytes

  const ES256_PUBLIC_KEY_BYTES: nat := 65
  const ES256_SIGNATURE_BYTES: nat := 64
  const ML_DSA_65_PUBLIC_KEY_BYTES: nat := 1952
  const ML_DSA_65_SIGNATURE_BYTES: nat := 3309

  datatype Component = Classical | PostQuantum
  datatype MismatchField = ProfileField | IdentityField | GenerationField

  datatype HybridError =
    | UnsupportedProfile
    | MalformedComponent(component: Component)
    | ComponentFailure(component: Component)
    | VerificationFailure(component: Component)
    | Mismatch(field: MismatchField)
    | NonCanonicalInput
    | ResourceLimitExceeded
    | DowngradeDetected
    | PolicyDenied
    | BackendFailure

  predicate IsAscii(s: bytes) { forall i :: 0 <= i < |s| ==> s[i] < 128 }

  /** Identifier of the one frozen signature profile. */
  function ProfileId(): (id: bytes)
    ensures |id| == 21 && IsAscii(id)
  {
    Ascii("euwallet-hybrid-pq-v1")
  }

  datatype Purpose =
    | WalletExportV1
    | WalletRecoveryV1
    | PrivateProviderMessageV1
    | TestSdJwtWrapperV1
    | TestMdocWrapperV1

  function ExportId(): (id: bytes) ensures |id| == 16 && IsAscii(id) { Ascii("wallet-export-v1") }
  function RecoveryId(): (id: bytes) ensures |id| == 18 && IsAscii(id) { Ascii("wallet-recovery-v1") }
  function ProviderId(): (id: bytes) ensures |id| == 27 && IsAscii(id) { Ascii("private-provider-message-v1") }
  function SdJwtId(): (id: bytes) ensures |id| == 22 && IsAscii(id) { Ascii("test-sd-jwt-wrapper-v1") }
  function MdocId(): (id: bytes) ensures |id| == 20 && IsAscii(id) { Ascii("test-mdoc-wrapper-v1") }

  function PurposeId(p: Purpose): (id: bytes)
    ensures 16 <= |id| <= 27 && IsAscii(id)
  {
    match p
    case WalletExportV1 => ExportId()
    case WalletRecoveryV1 => RecoveryId()
    case PrivateProviderMessageV1 => ProviderId()
    case TestSdJwtWrapperV1 => SdJwtId()
    case TestMdocWrapperV1 => MdocId()
  }

  function PurposeOf(id: bytes): (r: Option<Purpose>) {
    if id == ExportId() then Some(WalletExportV1)
    else if id == RecoveryId() then Some(WalletRecoveryV1)
    else if id == ProviderId() then Some(PrivateProviderMessageV1)
    else if id == SdJwtId() then Some(TestSdJwtWrapperV1)
    else if id == MdocId() then Some(TestMdocWrapperV1)
    else None
  }

  lemma PurposeIdsDistinct(p: Purpose, q: Purpose)
    requires PurposeId(p) == PurposeId(q)
    ensures p == q
  {
    hide ExportId, RecoveryId, ProviderId, SdJwtId, MdocId;
  }

  /** Identifiers and purposes are in bijection. */
  lemma PurposeRoundTrip(id: bytes, p: Purpose)
    ensures PurposeOf(id) == Some(p) <==> id == PurposeId(p)
  {
    hide ExportId, RecoveryId, ProviderId, SdJwtId, MdocId;
  }

  /** A logical identity (UTF-8 text) at one key generation. */
  datatype KeyRef = KeyRef(identity: bytes, generation: u64)

  predicate IsWrapperPurpose(p: Purpose) { p.TestSdJwtWrapperV1? || p.TestMdocWrapperV1? }

  /** Both components of a verification key, or of a signature. The profile is the only one. */
  datatype Pair = Pair(classical: bytes, postQuantum: bytes)

  predicate PublicKeyOk(k: Pair) {
    |k.classical| == 65 && k.classical[0] == 0x04 && |k.postQuantum| == 1952
  }

  predicate SignatureOk(s: Pair) {
    |s.classical| == 64 && |s.postQuantum| == 3309
  }

  function NewPublicKey(classical: bytes, postQuantum: bytes): (r: Result<Pair, HybridError>)
    ensures r.Ok? <==> PublicKeyOk(Pair(classical, postQuantum))
    ensures r.Ok? ==> r.value == Pair(classical, postQuantum)
    ensures r.Err? ==>
      r.error == MalformedComponent(if |classical| == 65 && classical[0] == 0x04 then PostQuantum else Classical)
  {
    if |classical| != ES256_PUBLIC_KEY_BYTES then Err(MalformedComponent(Classical))
    else if classical[0] != 0x04 then Err(MalformedComponent(Classical))
    else if |postQuantum| != ML_DSA_65_PUBLIC_KEY_BYTES then Err(MalformedComponent(PostQuantum))
    else Ok(Pair(classical, postQuantum))
  }

  function NewSignature(classical: bytes, postQuantum: bytes): (r: Result<Pair, HybridError>)
    ensures r.Ok? <==> SignatureOk(Pair(classical, postQuantum))
    ensures r.Ok? ==> r.value == Pair(classical, postQuantum)
    ensures r.Err? ==> r.error == MalformedComponent(if |classical| == 64 then PostQuantum else Classical)
  {
    if |classical| != ES256_SIGNATURE_BYTES then Err(MalformedComponent(Classical))
    else if |postQuantum| != ML_DSA_65_SIGNATURE_BYTES then Err(MalformedComponent(PostQuantum))
    else Ok(Pair(classical, postQuantum))
  }
}
