/** The one entry point that verifies a hybrid signature: decode both envelopes, bind them to the
    transaction, rebuild the message, check both components over it. */
module AtomicVerify {
  import opened Bytes
  import opened HybridTypes
  import opened StrictMap
  import opened Envelope
  import opened EnvelopeTheorems
  import opened Tbs
  import opened TbsTheorems

  datatype ErrorClass =
    | UnsupportedProfileClass | MalformedComponentClass | ComponentFailureClass | VerificationFailureClass
    | MismatchClass | NonCanonicalInputClass | ResourceLimitClass | DowngradeClass | PolicyDeniedClass
    | BackendFailureClass

  function ClassOf(e: HybridError): (c: ErrorClass) {
    match e
    case UnsupportedProfile => UnsupportedProfileClass
    case MalformedComponent(_) => MalformedComponentClass
    case ComponentFailure(_) => ComponentFailureClass
    case VerificationFailure(_) => VerificationFailureClass
    case Mismatch(_) => MismatchClass
    case NonCanonicalInput => NonCanonicalInputClass
    case ResourceLimitExceeded => ResourceLimitClass
    case DowngradeDetected => DowngradeClass
    case PolicyDenied => PolicyDeniedClass
    case BackendFailure => BackendFailureClass
  }

  function EnvelopeClass(e: EnvelopeError): (c: ErrorClass) {
    match e
    case EUnsupportedProfile => UnsupportedProfileClass
    case EMalformedComponent => MalformedComponentClass
    case TooLarge => ResourceLimitClass
    case _ => NonCanonicalInputClass
  }

  datatype Input = Input(
    signatureEnvelope: bytes, keyEnvelope: bytes, resolved: KeyRef, expected: KeyRef, purpose: Purpose,
    context: Context, payload: bytes, audience: Option<bytes>, nonce: bytes, seenNonces: seq<bytes>, now: u64,
    downgradeAttempted: bool)

  /** One component's verification: key, message, signature. */
  type Check = (bytes, bytes, bytes) -> bool

  function BindingError(i: Input, e: SignatureEnvelope): (r: Option<ErrorClass>) {
    if e.purpose != i.purpose then Some(MismatchClass)
    else if i.resolved.identity != i.expected.identity then Some(ClassOf(Mismatch(IdentityField)))
    else if i.resolved.generation != i.expected.generation || i.context.keyGeneration != i.expected.generation
      then Some(ClassOf(Mismatch(GenerationField)))
    else if i.context.walletIdentity != i.expected.identity || i.context.audience != i.audience
      || i.context.nonce != i.nonce || i.nonce in i.seenNonces
      || i.context.createdAt > i.now || i.context.expiresAt <= i.now
      then Some(PolicyDeniedClass)
    else if i.downgradeAttempted then Some(DowngradeClass)
    else None
  }

  function CheckComponents(i: Input, e: SignatureEnvelope, k: Pair, es256: Check, mlDsa: Check)
    : (r: Result<(), ErrorClass>)
  {
    match Build(i.purpose, i.context, i.payload)
    case Err(error) => Err(ClassOf(error))
    case Ok(m) =>
      if !es256(k.classical, m, e.signature.classical) then Err(VerificationFailureClass)
      else if !mlDsa(k.postQuantum, m, e.signature.postQuantum) then Err(VerificationFailureClass)
      else Ok(())
  }

  function Verify(i: Input, es256: Check, mlDsa: Check): (r: Result<(), ErrorClass>) {
    match DecodeSignature(i.signatureEnvelope)
    case Err(error) => Err(EnvelopeClass(error))
    case Ok(e) =>
      match DecodePublicKey(i.keyEnvelope)
      case Err(error) => Err(EnvelopeClass(error))
      case Ok(k) =>
        if EncodeSignature(e) != i.signatureEnvelope || EncodePublicKey(k) != i.keyEnvelope
          then Err(NonCanonicalInputClass)
        else if BindingError(i, e).Some? then Err(BindingError(i, e).value)
        else CheckComponents(i, e, k, es256, mlDsa)
  }

  // ------------------------------------------------------------ the re-encoding guard

  /** Decoded envelopes re-encode to the bytes they came from: the guard can never reject. */
  lemma GuardNeverFires(s: bytes, t: bytes)
    ensures DecodeSignature(s).Ok? ==> EncodeSignature(DecodeSignature(s).value) == s
    ensures DecodePublicKey(t).Ok? ==> EncodePublicKey(DecodePublicKey(t).value) == t
  {
    hide DecodeSignature, DecodePublicKey, EncodeSignature, EncodePublicKey;
    if DecodeSignature(s).Ok? { SignatureExact(s, DecodeSignature(s).value); }
    if DecodePublicKey(t).Ok? { PublicKeyExact(t, DecodePublicKey(t).value); }
  }

  // ------------------------------------------------------------ acceptance

  /** Everything acceptance rests on, in terms of what the two envelopes contain. */
  ghost predicate Authentic(i: Input, e: SignatureEnvelope, k: Pair, es256: Check, mlDsa: Check) {
    var m := Message(i.purpose, i.context, i.payload);
    && SignatureOk(e.signature) && i.signatureEnvelope == EncodeSignature(e)
    && PublicKeyOk(k) && i.keyEnvelope == EncodePublicKey(k)
    && e.purpose == i.purpose
    && i.resolved == i.expected
    && i.context.keyGeneration == i.expected.generation && i.context.walletIdentity == i.expected.identity
    && i.context.audience == i.audience && i.context.nonce == i.nonce && i.nonce !in i.seenNonces
    && i.context.createdAt <= i.now < i.context.expiresAt
    && !i.downgradeAttempted
    && ContextOk(i.purpose, i.context) && |i.payload| <= MAX_FIELD_BYTES
    && es256(k.classical, m, e.signature.classical) && mlDsa(k.postQuantum, m, e.signature.postQuantum)
  }

  lemma BindingErrorIff(i: Input, e: SignatureEnvelope)
    ensures BindingError(i, e).None? <==>
      && e.purpose == i.purpose && i.resolved == i.expected
      && i.context.keyGeneration == i.expected.generation && i.context.walletIdentity == i.expected.identity
      && i.context.audience == i.audience && i.context.nonce == i.nonce && i.nonce !in i.seenNonces
      && i.context.createdAt <= i.now < i.context.expiresAt && !i.downgradeAttempted
  {
  }

  lemma {:induction false} ComponentsIff(i: Input, e: SignatureEnvelope, k: Pair, es256: Check, mlDsa: Check)
    ensures CheckComponents(i, e, k, es256, mlDsa).Ok? <==>
      var m := Message(i.purpose, i.context, i.payload);
      && ContextOk(i.purpose, i.context) && |i.payload| <= MAX_FIELD_BYTES
      && es256(k.classical, m, e.signature.classical) && mlDsa(k.postQuantum, m, e.signature.postQuantum)
  {
    hide Message, Build, ContextOk;
    BuildSucceedsIff(i.purpose, i.context, i.payload);
  }

  /** An input is accepted exactly when its envelopes are the encodings of a signature and a key for
      which every binding holds and both components verify over the one message. */
  lemma {:induction false} AcceptedIff(i: Input, es256: Check, mlDsa: Check)
    ensures Verify(i, es256, mlDsa).Ok? <==> exists e, k :: Authentic(i, e, k, es256, mlDsa)
  {
    hide DecodeSignature, DecodePublicKey, EncodeSignature, EncodePublicKey, SignatureOk, PublicKeyOk, BindingError,
      CheckComponents, Message, ContextOk;
    if Verify(i, es256, mlDsa).Ok? {
      var e, k := DecodeSignature(i.signatureEnvelope).value, DecodePublicKey(i.keyEnvelope).value;
      Characterise(i, e, k, es256, mlDsa);
      assert Authentic(i, e, k, es256, mlDsa);
    }
    if exists e, k :: Authentic(i, e, k, es256, mlDsa) {
      var e, k :| Authentic(i, e, k, es256, mlDsa);
      Characterise(i, e, k, es256, mlDsa);
    }
  }

  lemma {:induction false} Characterise(i: Input, e: SignatureEnvelope, k: Pair, es256: Check, mlDsa: Check)
    ensures Authentic(i, e, k, es256, mlDsa) <==>
      && Verify(i, es256, mlDsa).Ok?
      && DecodeSignature(i.signatureEnvelope) == Ok(e) && DecodePublicKey(i.keyEnvelope) == Ok(k)
  {
    hide DecodeSignature, DecodePublicKey, EncodeSignature, EncodePublicKey, SignatureOk, PublicKeyOk, BindingError,
      CheckComponents, Message, ContextOk;
    SignatureExact(i.signatureEnvelope, e);
    PublicKeyExact(i.keyEnvelope, k);
    BindingErrorIff(i, e);
    ComponentsIff(i, e, k, es256, mlDsa);
  }

  /** A rejection does not tell which component failed: it is the same whatever the two component
      verifiers answered. */
  lemma RejectionRevealsNoComponent(i: Input, es256: Check, mlDsa: Check, otherEs256: Check, otherMlDsa: Check)
    requires Verify(i, es256, mlDsa).Err? && Verify(i, otherEs256, otherMlDsa).Err?
    ensures Verify(i, es256, mlDsa) == Verify(i, otherEs256, otherMlDsa)
  {
    hide DecodeSignature, DecodePublicKey, EncodeSignature, EncodePublicKey, BindingError, Build;
  }

  /** Every message a component verifies under this key comes from the signer's log. */
  ghost predicate OnlySigned(check: Check, key: bytes, signed: set<Signed>) {
    forall m, s :: check(key, m, s) ==> exists x :: x in signed && Build(x.purpose, x.context, x.payload) == Ok(m)
  }

  /** One sound component is enough: whatever the other verifier accepts, an accepted purpose,
      context and payload were signed as they stand. */
  lemma AcceptedWasSigned(i: Input, k: Pair, es256: Check, mlDsa: Check, signed: set<Signed>)
    requires Verify(i, es256, mlDsa).Ok? && DecodePublicKey(i.keyEnvelope) == Ok(k)
    requires OnlySigned(es256, k.classical, signed) || OnlySigned(mlDsa, k.postQuantum, signed)
    ensures Signed(i.purpose, i.context, i.payload) in signed
  {
    hide DecodeSignature, DecodePublicKey, EncodeSignature, EncodePublicKey, BindingError, Build;
    var m := Build(i.purpose, i.context, i.payload).value;
    assert exists x :: x in signed && Build(x.purpose, x.context, x.payload) == Ok(m);
    var x :| x in signed && Build(x.purpose, x.context, x.payload) == Ok(m);
    MessageInjective(i.purpose, i.context, i.payload, x.purpose, x.context, x.payload);
    assert x == Signed(i.purpose, i.context, i.payload);
  }

  /** Which class a rejection carries, by what first went wrong. */
  lemma {:induction false} RejectionClasses(i: Input, es256: Check, mlDsa: Check)
    ensures var r := Verify(i, es256, mlDsa);
      var s, t := DecodeSignature(i.signatureEnvelope), DecodePublicKey(i.keyEnvelope);
      && (s.Err? ==> r == Err(ClassOfEnvelope(s.error)))
      && (s.Ok? && t.Err? ==> r == Err(ClassOfEnvelope(t.error)))
      && (s.Ok? && t.Ok? ==>
           && (!Bound(i, s.value) ==> r == Err(MismatchClass))
           && (Bound(i, s.value) && !Permitted(i) ==> r == Err(PolicyDeniedClass))
           && (Bound(i, s.value) && Permitted(i) && i.downgradeAttempted ==> r == Err(DowngradeClass))
           && (Bound(i, s.value) && Permitted(i) && !i.downgradeAttempted && Signable(i) && r.Err? ==>
                r == Err(VerificationFailureClass)))
  {
    hide DecodeSignature, DecodePublicKey, EncodeSignature, EncodePublicKey, Build, ContextOk;
    GuardNeverFires(i.signatureEnvelope, i.keyEnvelope);
    BuildSucceedsIff(i.purpose, i.context, i.payload);
  }

  function ClassOfEnvelope(e: EnvelopeError): (c: ErrorClass) {
    if e == TooLarge then ResourceLimitClass
    else if e == EUnsupportedProfile then UnsupportedProfileClass
    else if e == EMalformedComponent then MalformedComponentClass
    else NonCanonicalInputClass
  }

  predicate Signable(i: Input) { ContextOk(i.purpose, i.context) && |i.payload| <= 4096 }

  predicate Bound(i: Input, e: SignatureEnvelope) {
    e.purpose == i.purpose && i.resolved == i.expected && i.context.keyGeneration == i.expected.generation
  }

  /** Identity, audience, fresh nonce and time window. */
  predicate Permitted(i: Input) {
    && i.context.walletIdentity == i.expected.identity && i.context.audience == i.audience
    && i.context.nonce == i.nonce && i.nonce !in i.seenNonces
    && i.context.createdAt <= i.now < i.context.expiresAt
  }
}
