/** Hybrid key agreement: P-256 and ML-KEM-768 run together, bound to one transcript and fed to one
    key combiner. The primitives are parameters. */
module KeyAgreement {
  import opened Bytes
  import opened CborCodec
  import opened HybridTypes
  import opened Framing
  import opened Tbs

  const P256_SHARE_BYTES: nat := 65
  const ENCAPSULATION_KEY_BYTES: nat := 1184
  const CIPHERTEXT_BYTES: nat := 1088
  const MAX_IDENTITY_BYTES: nat := 128
  const MAX_CONTEXT_BYTES: nat := 4096

  function TranscriptDomain(): (d: bytes) ensures |d| == 33 { Ascii("EUWALLET-HYBRID-KEM-TRANSCRIPT-V1") }
  function KemLabel(): (d: bytes) ensures |d| == 40 { Ascii("EUWALLET-UG-P256-MLKEM768-HKDF-SHA256-V1") }
  function ExtractInfo(): (d: bytes)
    ensures |d| == 45
  {
    Ascii("EUWALLET-HYBRID-UNIVERSAL-") + Ascii("COMBINER-EXTRACT-V1")
  }

  function TrafficInfo(): (d: bytes) ensures |d| == 30 { Ascii("EUWALLET-HYBRID-TRAFFIC-KEY-V1") }

  /** 32 bytes, as the key encapsulation always returns. */
  type SharedSecret = Hash

  /** The cryptography underneath; secrets and randomness are byte strings. Decapsulation is total:
      a ciphertext of the right size that was never made is rejected implicitly. */
  datatype Primitives = Primitives(
    isScalar: bytes -> bool,
    share: bytes -> bytes,
    agree: (bytes, bytes) -> Option<bytes>,
    isKemSecret: bytes -> bool,
    kemKey: bytes -> bytes,
    encapsulate: (bytes, bytes) -> Option<(bytes, SharedSecret)>,
    decapsulate: (bytes, bytes) -> SharedSecret,
    sha256: bytes -> Hash,
    hkdf: (bytes, bytes, bytes, nat) -> bytes)

  /** For well-formed secrets: sizes, and that both ends of each exchange compute the same secret. */
  ghost predicate Correct(p: Primitives) {
    && (forall a :: p.isScalar(a) ==> |p.share(a)| == P256_SHARE_BYTES && p.share(a)[0] == 0x04)
    && (forall k :: p.isKemSecret(k) ==> |p.kemKey(k)| == ENCAPSULATION_KEY_BYTES)
    && (forall a, b :: p.isScalar(a) && p.isScalar(b) ==>
         && p.agree(a, p.share(b)).Some? && |p.agree(a, p.share(b)).value| == 32
         && p.agree(a, p.share(b)) == p.agree(b, p.share(a)))
    && (forall k, r :: p.isKemSecret(k) && p.encapsulate(p.kemKey(k), r).Some? ==>
         && |p.encapsulate(p.kemKey(k), r).value.0| == CIPHERTEXT_BYTES
         && p.decapsulate(k, p.encapsulate(p.kemKey(k), r).value.0) == p.encapsulate(p.kemKey(k), r).value.1)
  }

  /** The checked decapsulation: the only test is the ciphertext's size. */
  function KemOpen(p: Primitives, secret: bytes, ciphertext: bytes): (r: Option<SharedSecret>) {
    if |ciphertext| != CIPHERTEXT_BYTES then None else Some(p.decapsulate(secret, ciphertext))
  }

  predicate AgreementKeyOk(k: Pair) {
    |k.classical| == P256_SHARE_BYTES && k.classical[0] == 0x04 && |k.postQuantum| == ENCAPSULATION_KEY_BYTES
  }

  function NewAgreementKey(classical: bytes, postQuantum: bytes): (r: Result<Pair, HybridError>)
    ensures r.Ok? ==> r.value == Pair(classical, postQuantum) && AgreementKeyOk(r.value)
    ensures r.Err? ==>
      r.error == MalformedComponent(if |classical| == 65 && classical[0] == 0x04 then PostQuantum else Classical)
  {
    if |classical| != P256_SHARE_BYTES || classical[0] != 0x04 then Err(MalformedComponent(Classical))
    else if |postQuantum| != ENCAPSULATION_KEY_BYTES then Err(MalformedComponent(PostQuantum))
    else Ok(Pair(classical, postQuantum))
  }

  // ------------------------------------------------------------ transcript and combiner

  /** Everything the two sides must agree on. */
  datatype View = View(sender: bytes, recipient: KeyRef, context: bytes, key: Pair, ephemeral: bytes, ciphertext: bytes)

  function TranscriptFields(v: View): (fs: seq<bytes>)
    ensures |fs| == 9
  {
    [ProfileId(), v.sender, v.recipient.identity, ToBe(v.recipient.generation, 8), v.context, v.key.classical,
     v.key.postQuantum, v.ephemeral, v.ciphertext]
  }

  function Transcript(v: View): (s: bytes) { TranscriptDomain() + Frames(TranscriptFields(v)) }

  function TranscriptHash(p: Primitives, v: View): (r: Result<Hash, HybridError>) {
    if Short(TranscriptFields(v)) then Ok(p.sha256(Transcript(v))) else Err(ResourceLimitExceeded)
  }

  function CombinerInput(v: View, pqSecret: bytes, classicalSecret: bytes, hash: Hash): (s: bytes) {
    pqSecret + (classicalSecret + (v.ciphertext + (v.ephemeral + (v.key.postQuantum + (v.key.classical
      + (KemLabel() + hash))))))
  }

  function TrafficKey(p: Primitives, v: View, pqSecret: bytes, classicalSecret: bytes, hash: Hash): (k: bytes) {
    var combined := p.hkdf(CombinerInput(v, pqSecret, classicalSecret, hash), KemLabel(), ExtractInfo(), 32);
    p.hkdf(combined, hash, TrafficInfo() + hash, 32)
  }

  // ------------------------------------------------------------ the two sides

  function IdentityError(identity: bytes): (e: Option<HybridError>) {
    if identity == [] || |identity| > MAX_IDENTITY_BYTES then Some(Mismatch(IdentityField)) else None
  }

  function ContextError(context: bytes): (e: Option<HybridError>) {
    if context == [] || |context| > MAX_CONTEXT_BYTES then Some(NonCanonicalInput) else None
  }

  datatype Encapsulation = Encapsulation(
    sender: bytes, recipient: bytes, generation: u64, ephemeral: bytes, ciphertext: bytes, transcriptHash: Hash)

  /** The sender: `ephemeralSecret` and `seed` are the fresh randomness of the two components. */
  function Encapsulate(p: Primitives, sender: bytes, recipient: KeyRef, key: Pair, context: bytes,
                       ephemeralSecret: bytes, seed: bytes)
    : (r: Result<(Encapsulation, bytes), HybridError>)
  {
    if IdentityError(sender).Some? then Err(IdentityError(sender).value)
    else if ContextError(context).Some? then Err(ContextError(context).value)
    else if p.agree(ephemeralSecret, key.classical).None? then Err(ComponentFailure(Classical))
    else if p.encapsulate(key.postQuantum, seed).None? then Err(ComponentFailure(PostQuantum))
    else
      var ephemeral := p.share(ephemeralSecret);
      var kem := p.encapsulate(key.postQuantum, seed).value;
      var v := View(sender, recipient, context, key, ephemeral, kem.0);
      match TranscriptHash(p, v)
      case Err(e) => Err(e)
      case Ok(hash) =>
        Ok((Encapsulation(sender, recipient.identity, recipient.generation, ephemeral, kem.0, hash),
            TrafficKey(p, v, kem.1, p.agree(ephemeralSecret, key.classical).value, hash)))
  }

  function BindingError(sender: bytes, recipient: KeyRef, e: Encapsulation): (r: Option<HybridError>) {
    if e.sender != sender || e.recipient != recipient.identity then Some(Mismatch(IdentityField))
    else if e.generation != recipient.generation then Some(Mismatch(GenerationField))
    else None
  }

  /** The recipient, once its platform has derived the P-256 secret. */
  function DecapsulateComponents(p: Primitives, recipient: KeyRef, key: Pair, kemSecret: bytes, classicalSecret: bytes,
                                 sender: bytes, context: bytes, e: Encapsulation, authenticated: Hash)
    : (r: Result<bytes, HybridError>)
  {
    if IdentityError(sender).Some? then Err(IdentityError(sender).value)
    else if ContextError(context).Some? then Err(ContextError(context).value)
    else if |classicalSecret| != 32 then Err(MalformedComponent(Classical))
    else if BindingError(sender, recipient, e).Some? then Err(BindingError(sender, recipient, e).value)
    else
      var v := View(sender, recipient, context, key, e.ephemeral, e.ciphertext);
      match TranscriptHash(p, v)
      case Err(error) => Err(error)
      case Ok(hash) =>
        if hash != e.transcriptHash || hash != authenticated then Err(DowngradeDetected)
        else
          match KemOpen(p, kemSecret, e.ciphertext)
          case None => Err(MalformedComponent(PostQuantum))
          case Some(pqSecret) => Ok(TrafficKey(p, v, pqSecret, classicalSecret, e.transcriptHash))
  }

  datatype RecipientKey = RecipientKey(reference: KeyRef, classicalSecret: bytes, kemSecret: bytes)

  /** A recipient key as generation makes it. */
  predicate KeyOk(p: Primitives, r: RecipientKey) { p.isScalar(r.classicalSecret) && p.isKemSecret(r.kemSecret) }

  function PublicOf(p: Primitives, r: RecipientKey): (k: Result<Pair, HybridError>) {
    NewAgreementKey(p.share(r.classicalSecret), p.kemKey(r.kemSecret))
  }

  function Decapsulate(p: Primitives, recipient: RecipientKey, sender: bytes, context: bytes, e: Encapsulation,
                       authenticated: Hash)
    : (r: Result<bytes, HybridError>)
  {
    if IdentityError(sender).Some? then Err(IdentityError(sender).value)
    else if ContextError(context).Some? then Err(ContextError(context).value)
    else if BindingError(sender, recipient.reference, e).Some? then
      Err(BindingError(sender, recipient.reference, e).value)
    else
      match PublicOf(p, recipient)
      case Err(error) => Err(error)
      case Ok(key) =>
        match p.agree(recipient.classicalSecret, e.ephemeral)
        case None => Err(ComponentFailure(Classical))
        case Some(secret) =>
          DecapsulateComponents(p, recipient.reference, key, recipient.kemSecret, secret, sender, context, e,
                                authenticated)
  }

  // ------------------------------------------------------------ agreement

  function OwnKey(p: Primitives, r: RecipientKey): (k: Pair) { Pair(p.share(r.classicalSecret), p.kemKey(r.kemSecret)) }

  lemma {:induction false} AgreedFieldsShort(v: View)
    requires |v.sender| <= MAX_IDENTITY_BYTES && |v.recipient.identity| <= MAX_IDENTITY_BYTES
    requires |v.context| <= MAX_CONTEXT_BYTES && AgreementKeyOk(v.key)
    requires |v.ephemeral| == P256_SHARE_BYTES && |v.ciphertext| == CIPHERTEXT_BYTES
    ensures Short(TranscriptFields(v))
  {
    hide ToBe, ProfileId;
  }

  /** For every admissible identity, generation and context, and whenever the key encapsulation
      itself succeeds: the sender's side succeeds, and the recipient derives the same traffic key. */
  lemma {:induction false} BothSidesAgree(p: Primitives, sender: bytes, recipient: RecipientKey, context: bytes,
                                          ephemeralSecret: bytes, seed: bytes)
    requires Correct(p) && KeyOk(p, recipient) && p.isScalar(ephemeralSecret)
    requires 0 < |sender| <= MAX_IDENTITY_BYTES && 0 < |context| <= MAX_CONTEXT_BYTES
    requires |recipient.reference.identity| <= MAX_IDENTITY_BYTES
    requires p.encapsulate(p.kemKey(recipient.kemSecret), seed).Some?
    ensures var r := Encapsulate(p, sender, recipient.reference, OwnKey(p, recipient), context, ephemeralSecret, seed);
      r.Ok? && Decapsulate(p, recipient, sender, context, r.value.0, r.value.0.transcriptHash) == Ok(r.value.1)
  {
    hide TrafficKey, Short, TranscriptFields;
    var key, kem := OwnKey(p, recipient), p.encapsulate(p.kemKey(recipient.kemSecret), seed).value;
    assert KemOpen(p, recipient.kemSecret, kem.0) == Some(kem.1);
    assert p.agree(ephemeralSecret, p.share(recipient.classicalSecret))
        == p.agree(recipient.classicalSecret, p.share(ephemeralSecret));
    AgreedFieldsShort(View(sender, recipient.reference, context, key, p.share(ephemeralSecret), kem.0));
  }

  /** What the recipient's own values say, when it releases a key. */
  function RecipientView(key: Pair, recipient: KeyRef, sender: bytes, context: bytes, e: Encapsulation): (v: View) {
    View(sender, recipient, context, key, e.ephemeral, e.ciphertext)
  }

  /** With the P-256 secret given: a key is released exactly when that secret has 32 bytes, identities
      and generation match, the ciphertext has its size and the authenticated hash is the hash of the
      recipient's own view. Nothing is asked of the primitives, nor of the ephemeral share. */
  lemma {:induction false} ComponentsIff(p: Primitives, recipient: KeyRef, key: Pair, kemSecret: bytes,
                                         classicalSecret: bytes, sender: bytes, context: bytes, e: Encapsulation,
                                         authenticated: Hash)
    ensures var r := DecapsulateComponents(p, recipient, key, kemSecret, classicalSecret, sender, context, e,
                                           authenticated);
      var v := RecipientView(key, recipient, sender, context, e);
      && (r.Ok? <==>
           && 0 < |sender| <= MAX_IDENTITY_BYTES && 0 < |context| <= MAX_CONTEXT_BYTES
           && |classicalSecret| == 32 && |e.ciphertext| == CIPHERTEXT_BYTES
           && e.sender == sender && KeyRef(e.recipient, e.generation) == recipient
           && e.transcriptHash == authenticated && TranscriptHash(p, v) == Ok(authenticated))
      && (r.Ok? ==> r.value == TrafficKey(p, v, p.decapsulate(kemSecret, e.ciphertext), classicalSecret, authenticated))
  {
    hide TrafficKey, TranscriptHash;
  }

  /** The whole recipient side: its own key must be well formed and the exchange must succeed with a
      32-byte secret; the rest is as for the components. */
  lemma {:induction false} DecapsulateIff(p: Primitives, recipient: RecipientKey, sender: bytes, context: bytes,
                                          e: Encapsulation, authenticated: Hash)
    ensures Decapsulate(p, recipient, sender, context, e, authenticated).Ok? <==>
      && 0 < |sender| <= MAX_IDENTITY_BYTES && 0 < |context| <= MAX_CONTEXT_BYTES
      && e.sender == sender && KeyRef(e.recipient, e.generation) == recipient.reference
      && AgreementKeyOk(OwnKey(p, recipient))
      && p.agree(recipient.classicalSecret, e.ephemeral).Some?
      && |p.agree(recipient.classicalSecret, e.ephemeral).value| == 32
      && |e.ciphertext| == CIPHERTEXT_BYTES
      && e.transcriptHash == authenticated
      && TranscriptHash(p, RecipientView(OwnKey(p, recipient), recipient.reference, sender, context, e))
           == Ok(authenticated)
  {
    hide TrafficKey, TranscriptHash;
  }

  // ------------------------------------------------------------ completed runs

  /** One completed call of the component entry point. The public key is one the constructor made. */
  datatype Release = Release(recipient: KeyRef, key: Pair, kemSecret: bytes, classicalSecret: bytes, sender: bytes,
                             context: bytes, e: Encapsulation, authenticated: Hash)

  ghost predicate Released(p: Primitives, x: Release) {
    && AgreementKeyOk(x.key)
    && DecapsulateComponents(p, x.recipient, x.key, x.kemSecret, x.classicalSecret, x.sender, x.context, x.e,
                             x.authenticated).Ok?
  }

  /** Why a key is not released. The checks come in one order, and each refusal names the first that
      fails: parties and context, the P-256 secret, the identities and generation the message carries,
      a field beyond its length prefix, a transcript that is not the authenticated one, the ciphertext. */
  lemma {:induction false} RefusalIff(p: Primitives, x: Release, error: HybridError)
    ensures DecapsulateComponents(p, x.recipient, x.key, x.kemSecret, x.classicalSecret, x.sender, x.context, x.e,
                                  x.authenticated) == Err(error) <==>
      var e, hash := x.e, TranscriptHash(p, RecipientView(x.key, x.recipient, x.sender, x.context, x.e));
      if !(1 <= |x.sender| <= 128) then error == Mismatch(IdentityField)
      else if !(1 <= |x.context| <= 4096) then error == NonCanonicalInput
      else if |x.classicalSecret| != 32 then error == MalformedComponent(Classical)
      else if (x.sender, x.recipient.identity) != (e.sender, e.recipient) then error == Mismatch(IdentityField)
      else if x.recipient.generation != e.generation then error == Mismatch(GenerationField)
      else if hash.Err? then error == ResourceLimitExceeded
      else if !(e.transcriptHash == x.authenticated == hash.value) then error == DowngradeDetected
      else |e.ciphertext| != 1088 && error == MalformedComponent(PostQuantum)
  {
    hide TrafficKey, Short, TranscriptFields, Transcript;
  }

  function ReleaseView(x: Release): (v: View) { RecipientView(x.key, x.recipient, x.sender, x.context, x.e) }

  function PqSecret(p: Primitives, x: Release): (s: SharedSecret) { p.decapsulate(x.kemSecret, x.e.ciphertext) }

  /** What the run feeds to key derivation. */
  function DerivationInput(p: Primitives, x: Release): (s: bytes) {
    CombinerInput(ReleaseView(x), PqSecret(p, x), x.classicalSecret, x.e.transcriptHash)
  }

  /** One completed call of the recipient side that holds both secrets. */
  datatype Opening = Opening(recipient: RecipientKey, sender: bytes, context: bytes, e: Encapsulation,
                             authenticated: Hash)

  ghost predicate Opened(p: Primitives, x: Opening) {
    Decapsulate(p, x.recipient, x.sender, x.context, x.e, x.authenticated).Ok?
  }

  /** The component call it makes. */
  ghost function Inner(p: Primitives, x: Opening): (y: Release)
    requires Opened(p, x)
  {
    Release(x.recipient.reference, OwnKey(p, x.recipient), x.recipient.kemSecret,
            p.agree(x.recipient.classicalSecret, x.e.ephemeral).value, x.sender, x.context, x.e, x.authenticated)
  }

  /** A completed recipient run is a completed component run with the same key released. */
  lemma {:induction false} OpenedIsReleased(p: Primitives, x: Opening)
    requires Opened(p, x)
    ensures var y := Inner(p, x);
      && Released(p, y)
      && Decapsulate(p, x.recipient, x.sender, x.context, x.e, x.authenticated)
           == DecapsulateComponents(p, y.recipient, y.key, y.kemSecret, y.classicalSecret, y.sender, y.context, y.e,
                                    y.authenticated)
  {
    hide DecapsulateComponents;
    DecapsulateIff(p, x.recipient, x.sender, x.context, x.e, x.authenticated);
  }

  // ------------------------------------------------------------ what the transcript binds

  function ViewOf(fs: seq<bytes>): (v: Option<View>) {
    if |fs| != 9 || fs[0] != ProfileId() || |fs[3]| != 8 || FromBe(fs[3]) >= U64_LIMIT then None
    else Some(View(fs[1], KeyRef(fs[2], FromBe(fs[3])), fs[4], Pair(fs[5], fs[6]), fs[7], fs[8]))
  }

  /** A reader of transcripts, to say that nothing in one is lost. */
  function ReadTranscript(s: bytes): (v: Option<View>) {
    if !(TranscriptDomain() <= s) then None
    else match ReadFrames(s[|TranscriptDomain()|..]) case None => None case Some(fs) => ViewOf(fs)
  }

  lemma {:induction false} FieldsReadBack(v: View)
    ensures ViewOf(TranscriptFields(v)) == Some(v)
  {
    hide ToBe, FromBe, ProfileId, Pow256;
    Pow256Values();
    FromToBe(v.recipient.generation, 8);
  }

  /** Sender, recipient, generation, context and all four public values are recovered. */
  lemma {:induction false} TranscriptReadBack(v: View)
    requires Short(TranscriptFields(v))
    ensures ReadTranscript(Transcript(v)) == Some(v)
  {
    hide Frames, ReadFrames, TranscriptFields, TranscriptDomain, ViewOf, Short;
    FramesReadBack(TranscriptFields(v));
    FieldsReadBack(v);
    var d, t := TranscriptDomain(), Frames(TranscriptFields(v));
    assert (d + t)[..|d|] == d && (d + t)[|d|..] == t;
  }

  /** The same view, or a collision of the hash function. */
  ghost predicate SameOrCollision(p: Primitives, v: View, w: View) {
    v == w || (Transcript(v) != Transcript(w) && p.sha256(Transcript(v)) == p.sha256(Transcript(w)))
  }

  lemma {:induction false} EqualHashes(p: Primitives, v: View, w: View)
    requires TranscriptHash(p, v).Ok? && TranscriptHash(p, v) == TranscriptHash(p, w)
    ensures SameOrCollision(p, v, w)
  {
    hide Transcript, ReadTranscript, Short, TranscriptFields;
    TranscriptReadBack(v);
    TranscriptReadBack(w);
  }

  /** A recipient that accepts a hash authenticated by a sender shares the sender's whole view, or
      the two transcripts are a collision of the hash function. */
  lemma {:induction false} AuthenticatedViewsAgree(p: Primitives, x: Release, sent: View)
    requires Released(p, x) && TranscriptHash(p, sent) == Ok(x.authenticated)
    ensures SameOrCollision(p, ReleaseView(x), sent)
  {
    hide DecapsulateComponents, TranscriptHash, SameOrCollision, TrafficKey;
    ComponentsIff(p, x.recipient, x.key, x.kemSecret, x.classicalSecret, x.sender, x.context, x.e, x.authenticated);
    EqualHashes(p, ReleaseView(x), sent);
  }

  lemma {:induction false} OpenedViewsAgree(p: Primitives, x: Opening, sent: View)
    requires Opened(p, x) && TranscriptHash(p, sent) == Ok(x.authenticated)
    ensures SameOrCollision(p, ReleaseView(Inner(p, x)), sent)
  {
    hide SameOrCollision, TranscriptHash, Released;
    OpenedIsReleased(p, x);
    AuthenticatedViewsAgree(p, Inner(p, x), sent);
  }

  // ------------------------------------------------------------ what the combiner binds

  ghost predicate CombinerSizes(v: View, pqSecret: bytes, classicalSecret: bytes) {
    |pqSecret| == 32 && |classicalSecret| == 32 && |v.ciphertext| == CIPHERTEXT_BYTES && AgreementKeyOk(v.key)
  }

  /** Every combiner input is found at its own offset, whatever the length of the ephemeral share. */
  lemma {:induction false} CombinerLayout(v: View, pqSecret: bytes, classicalSecret: bytes, hash: Hash)
    requires CombinerSizes(v, pqSecret, classicalSecret)
    ensures var s, n := CombinerInput(v, pqSecret, classicalSecret, hash), |v.ephemeral|;
      && |s| == 2473 + n
      && s[..32] == pqSecret && s[32..64] == classicalSecret && s[64..1152] == v.ciphertext
      && s[1152..1152 + n] == v.ephemeral && s[1152 + n..2336 + n] == v.key.postQuantum
      && s[2336 + n..2401 + n] == v.key.classical
      && s[2401 + n..2441 + n] == KemLabel() && s[2441 + n..] == hash
  {
    hide KemLabel;
    var s, kem := CombinerInput(v, pqSecret, classicalSecret, hash), KemLabel();
    var t6 := kem + hash;
    var t5 := v.key.classical + t6;
    var t4 := v.key.postQuantum + t5;
    var t3 := v.ephemeral + t4;
    var t2 := v.ciphertext + t3;
    var t1 := classicalSecret + t2;
    Locate([], pqSecret, t1, s);
    Locate(pqSecret, classicalSecret, t2, s);
    var p2 := pqSecret + classicalSecret;
    Locate(p2, v.ciphertext, t3, s);
    var p3 := p2 + v.ciphertext;
    Locate(p3, v.ephemeral, t4, s);
    var p4 := p3 + v.ephemeral;
    Locate(p4, v.key.postQuantum, t5, s);
    var p5 := p4 + v.key.postQuantum;
    Locate(p5, v.key.classical, t6, s);
    var p6 := p5 + v.key.classical;
    Locate(p6, kem, hash, s);
  }

  lemma Locate(before: bytes, a: bytes, rest: bytes, s: bytes)
    requires s == before + (a + rest)
    ensures s == (before + a) + rest && s[|before|..|before| + |a|] == a && s[|before| + |a|..] == rest
  {
  }

  /** Different component secrets or public values never reach the key derivation as the same input. */
  lemma {:induction false} CombinerInjective(v: View, pqSecret: bytes, classicalSecret: bytes, hash: Hash,
                                             w: View, otherPq: bytes, otherClassical: bytes, otherHash: Hash)
    requires CombinerSizes(v, pqSecret, classicalSecret) && CombinerSizes(w, otherPq, otherClassical)
    requires CombinerInput(v, pqSecret, classicalSecret, hash) == CombinerInput(w, otherPq, otherClassical, otherHash)
    ensures pqSecret == otherPq && classicalSecret == otherClassical && hash == otherHash
    ensures v.ciphertext == w.ciphertext && v.ephemeral == w.ephemeral && v.key == w.key
  {
    hide CombinerInput, KemLabel;
    CombinerLayout(v, pqSecret, classicalSecret, hash);
    CombinerLayout(w, otherPq, otherClassical, otherHash);
  }

  lemma {:induction false} ReleasedFacts(p: Primitives, x: Release)
    requires Released(p, x)
    ensures CombinerSizes(ReleaseView(x), PqSecret(p, x), x.classicalSecret)
    ensures TranscriptHash(p, ReleaseView(x)) == Ok(x.e.transcriptHash)
  {
    hide DecapsulateComponents, TranscriptHash, TrafficKey;
    ComponentsIff(p, x.recipient, x.key, x.kemSecret, x.classicalSecret, x.sender, x.context, x.e, x.authenticated);
  }

  /** Any two completed calls of the component entry point that feed key derivation the same bytes
      used the same two secrets and public values, the ephemeral share of whatever length included,
      and agreed on everything else too, or exhibit a hash collision. */
  lemma {:induction false} DerivationBinds(p: Primitives, x: Release, y: Release)
    requires Released(p, x) && Released(p, y) && DerivationInput(p, x) == DerivationInput(p, y)
    ensures PqSecret(p, x) == PqSecret(p, y) && x.classicalSecret == y.classicalSecret
    ensures x.e.ciphertext == y.e.ciphertext && x.e.ephemeral == y.e.ephemeral && x.key == y.key
    ensures SameOrCollision(p, ReleaseView(x), ReleaseView(y))
  {
    hide Released, CombinerInput, CombinerSizes, TranscriptHash, SameOrCollision;
    ReleasedFacts(p, x);
    ReleasedFacts(p, y);
    CombinerInjective(ReleaseView(x), PqSecret(p, x), x.classicalSecret, x.e.transcriptHash,
                      ReleaseView(y), PqSecret(p, y), y.classicalSecret, y.e.transcriptHash);
    EqualHashes(p, ReleaseView(x), ReleaseView(y));
  }

  /** The same of any two completed runs of the whole recipient side. */
  lemma {:induction false} OpeningsBind(p: Primitives, x: Opening, y: Opening)
    requires Opened(p, x) && Opened(p, y) && DerivationInput(p, Inner(p, x)) == DerivationInput(p, Inner(p, y))
    ensures p.decapsulate(x.recipient.kemSecret, x.e.ciphertext) == p.decapsulate(y.recipient.kemSecret, y.e.ciphertext)
    ensures p.agree(x.recipient.classicalSecret, x.e.ephemeral) == p.agree(y.recipient.classicalSecret, y.e.ephemeral)
    ensures x.e.ciphertext == y.e.ciphertext && x.e.ephemeral == y.e.ephemeral
    ensures OwnKey(p, x.recipient) == OwnKey(p, y.recipient)
    ensures SameOrCollision(p, ReleaseView(Inner(p, x)), ReleaseView(Inner(p, y)))
  {
    hide DerivationInput, SameOrCollision, Released, DecapsulateComponents, TranscriptHash;
    DecapsulateIff(p, x.recipient, x.sender, x.context, x.e, x.authenticated);
    DecapsulateIff(p, y.recipient, y.sender, y.context, y.e, y.authenticated);
    OpenedIsReleased(p, x);
    OpenedIsReleased(p, y);
    DerivationBinds(p, Inner(p, x), Inner(p, y));
  }

  // ------------------------------------------------------------ what the traffic key binds

  datatype HkdfCall = HkdfCall(ikm: bytes, salt: bytes, info: bytes, length: nat)

  function Call(p: Primitives, c: HkdfCall): (k: bytes) { p.hkdf(c.ikm, c.salt, c.info, c.length) }

  /** Everything a traffic key is made of. */
  datatype Derivation = Derivation(view: View, pqSecret: SharedSecret, classicalSecret: bytes, hash: Hash)

  /** Extraction from the combiner input under the protocol label. */
  function ExtractCall(d: Derivation): (c: HkdfCall) {
    HkdfCall(CombinerInput(d.view, d.pqSecret, d.classicalSecret, d.hash), KemLabel(), ExtractInfo(), 32)
  }

  /** Expansion of the extracted secret, salted and labelled with the transcript hash. */
  function ExpandCall(p: Primitives, d: Derivation): (c: HkdfCall) {
    HkdfCall(Call(p, ExtractCall(d)), d.hash, TrafficInfo() + d.hash, 32)
  }

  /** Two different calls of the key derivation function with one result. */
  ghost predicate HkdfCollision(p: Primitives, c: HkdfCall, d: HkdfCall) { c != d && Call(p, c) == Call(p, d) }

  ghost predicate Collides(p: Primitives, d: Derivation, e: Derivation) {
    || HkdfCollision(p, ExtractCall(d), ExtractCall(e))
    || HkdfCollision(p, ExpandCall(p, d), ExpandCall(p, e))
    || (Transcript(d.view) != Transcript(e.view) && p.sha256(Transcript(d.view)) == p.sha256(Transcript(e.view)))
  }

  lemma {:induction false} CombinerSecrets(v: View, s: SharedSecret, c: bytes, t: SharedSecret, d: bytes, hash: Hash)
    requires CombinerInput(v, s, c, hash) == CombinerInput(v, t, d, hash)
    ensures s == t && c == d
  {
    hide KemLabel;
    var rest := v.ciphertext + (v.ephemeral + (v.key.postQuantum + (v.key.classical + (KemLabel() + hash))));
    CutEqual(s, c + rest, t, d + rest);
    assert |c| == |d|;
    CutEqual(c, rest, d, rest);
  }

  /** Equal traffic keys come from equal secrets and equal views, whatever their sizes, or exhibit a
      collision of the key derivation or the hash function. */
  lemma {:induction false} TrafficKeyBinds(p: Primitives, d: Derivation, e: Derivation)
    requires TranscriptHash(p, d.view) == Ok(d.hash) && TranscriptHash(p, e.view) == Ok(e.hash)
    requires TrafficKey(p, d.view, d.pqSecret, d.classicalSecret, d.hash)
          == TrafficKey(p, e.view, e.pqSecret, e.classicalSecret, e.hash)
    ensures d == e || Collides(p, d, e)
  {
    hide CombinerInput, TranscriptHash, Transcript, KemLabel, ExtractInfo, TrafficInfo;
    if !Collides(p, d, e) {
      assert Call(p, ExpandCall(p, d)) == Call(p, ExpandCall(p, e));
      assert d.hash == e.hash && Call(p, ExtractCall(d)) == Call(p, ExtractCall(e));
      EqualHashes(p, d.view, e.view);
      CombinerSecrets(d.view, d.pqSecret, d.classicalSecret, e.pqSecret, e.classicalSecret, d.hash);
    }
  }

  /** A completed component run that released `k` from `d`. */
  ghost predicate FromRelease(p: Primitives, x: Release, d: Derivation, k: bytes) {
    && AgreementKeyOk(x.key)
    && DecapsulateComponents(p, x.recipient, x.key, x.kemSecret, x.classicalSecret, x.sender, x.context, x.e,
                             x.authenticated) == Ok(k)
    && d == Derivation(ReleaseView(x), PqSecret(p, x), x.classicalSecret, x.e.transcriptHash)
  }

  /** A completed run of the whole recipient side. */
  ghost predicate FromOpening(p: Primitives, x: Opening, d: Derivation, k: bytes) {
    && Decapsulate(p, x.recipient, x.sender, x.context, x.e, x.authenticated) == Ok(k)
    && p.agree(x.recipient.classicalSecret, x.e.ephemeral) == Some(d.classicalSecret)
    && d.view == RecipientView(OwnKey(p, x.recipient), x.recipient.reference, x.sender, x.context, x.e)
    && d.pqSecret == p.decapsulate(x.recipient.kemSecret, x.e.ciphertext) && d.hash == x.e.transcriptHash
  }

  datatype Sending = Sending(sender: bytes, recipient: KeyRef, key: Pair, context: bytes, ephemeralSecret: bytes,
                             seed: bytes)

  /** A completed run of the sender. */
  ghost predicate FromSending(p: Primitives, x: Sending, d: Derivation, k: bytes) {
    var r := Encapsulate(p, x.sender, x.recipient, x.key, x.context, x.ephemeralSecret, x.seed);
    && r.Ok? && r.value.1 == k
    && p.agree(x.ephemeralSecret, x.key.classical) == Some(d.classicalSecret)
    && p.encapsulate(x.key.postQuantum, x.seed) == Some((d.view.ciphertext, d.pqSecret))
    && d.view == View(x.sender, x.recipient, x.context, x.key, p.share(x.ephemeralSecret), d.view.ciphertext)
    && d.hash == r.value.0.transcriptHash
  }

  ghost predicate Derived(p: Primitives, d: Derivation, k: bytes) {
    || (exists x :: FromRelease(p, x, d, k))
    || (exists x :: FromOpening(p, x, d, k))
    || (exists x :: FromSending(p, x, d, k))
  }

  lemma {:induction false} DerivedFacts(p: Primitives, d: Derivation, k: bytes)
    requires Derived(p, d, k)
    ensures TranscriptHash(p, d.view) == Ok(d.hash)
    ensures k == TrafficKey(p, d.view, d.pqSecret, d.classicalSecret, d.hash)
  {
    hide TranscriptHash, TrafficKey;
    if x: Release :| FromRelease(p, x, d, k) {
      ComponentsIff(p, x.recipient, x.key, x.kemSecret, x.classicalSecret, x.sender, x.context, x.e, x.authenticated);
    } else if x: Opening :| FromOpening(p, x, d, k) {
      DecapsulateIff(p, x.recipient, x.sender, x.context, x.e, x.authenticated);
      ComponentsIff(p, x.recipient.reference, OwnKey(p, x.recipient), x.recipient.kemSecret, d.classicalSecret,
                    x.sender, x.context, x.e, x.authenticated);
    }
  }

  /** Any two completed runs, of sender or recipient on either side, that arrive at the same traffic
      key used the same two secrets and share their whole view, or exhibit a collision. */
  lemma {:induction false} KeysBind(p: Primitives, d: Derivation, e: Derivation, k: bytes)
    requires Derived(p, d, k) && Derived(p, e, k)
    ensures d == e || Collides(p, d, e)
  {
    hide Derived, TranscriptHash, TrafficKey, Collides;
    DerivedFacts(p, d, k);
    DerivedFacts(p, e, k);
    TrafficKeyBinds(p, d, e);
  }

  /** The sender succeeds exactly with admissible identity and context, when both components do and
      every transcript field fits its length prefix; it then publishes what was bound. */
  lemma {:induction false} EncapsulateIff(p: Primitives, x: Sending)
    ensures var r := Encapsulate(p, x.sender, x.recipient, x.key, x.context, x.ephemeralSecret, x.seed);
      var kem := p.encapsulate(x.key.postQuantum, x.seed);
      && (r.Ok? <==>
           && 0 < |x.sender| <= MAX_IDENTITY_BYTES && 0 < |x.context| <= MAX_CONTEXT_BYTES
           && p.agree(x.ephemeralSecret, x.key.classical).Some? && kem.Some?
           && Short(TranscriptFields(View(x.sender, x.recipient, x.context, x.key, p.share(x.ephemeralSecret),
                                          kem.value.0))))
      && (r.Ok? ==> r.value.0.sender == x.sender && KeyRef(r.value.0.recipient, r.value.0.generation) == x.recipient
                    && r.value.0.ephemeral == p.share(x.ephemeralSecret) && r.value.0.ciphertext == kem.value.0)
  {
    hide TrafficKey, Transcript, Short, TranscriptFields;
  }

  // ------------------------------------------------------------ negotiation

  function CountExact(offers: seq<bytes>): (n: nat) {
    if offers == [] then 0 else (if offers[0] == ProfileId() then 1 else 0) + CountExact(offers[1..])
  }

  function Negotiate(offers: seq<bytes>, required: bool): (r: Result<(), HybridError>) {
    if !required || CountExact(offers) != 1 || |offers| != 1 then Err(DowngradeDetected) else Ok(())
  }

  /** Only the one exact offer is ever accepted, and only when hybrid is required. */
  lemma NegotiateIff(offers: seq<bytes>, required: bool)
    ensures Negotiate(offers, required).Ok? <==> required && offers == [ProfileId()]
  {
    hide ProfileId;
    if |offers| == 1 {
      assert offers == [offers[0]] && CountExact(offers[1..]) == 0;
    }
  }

  // ------------------------------------------------------------ the transcript as it is written

  lemma FieldsInOrder(v: View)
    ensures var fs := TranscriptFields(v);
      && fs[0] == ProfileId() && fs[1] == v.sender && fs[2] == v.recipient.identity
      && fs[3] == ToBe(v.recipient.generation, 8) && fs[4] == v.context && fs[5] == v.key.classical
      && fs[6] == v.key.postQuantum && fs[7] == v.ephemeral && fs[8] == v.ciphertext
    ensures |TranscriptFields(v)[0]| < U32_LIMIT && |TranscriptFields(v)[3]| < U32_LIMIT
  {
  }

  /** Frames 0 to 4: the profile, both parties and the session context. */
  method WriteParties(out: Buffer, v: View) returns (f: Result<(), HybridError>)
    requires out.data == UpTo(TranscriptDomain(), TranscriptFields(v), 0)
    modifies out
    ensures f == if Short(TranscriptFields(v)[..5]) then Ok(()) else Err(ResourceLimitExceeded)
    ensures f.Ok? ==> out.data == UpTo(TranscriptDomain(), TranscriptFields(v), 5)
  {
    hide Frames, UpTo, TranscriptDomain, ProfileId, ToBe, TranscriptFields;
    ghost var fs, d := TranscriptFields(v), TranscriptDomain();
    FieldsInOrder(v);
    f := WriteNext(out, ProfileId(), d, fs, 0);
    f := WriteNext(out, v.sender, d, fs, 1);
    if f.Err? { assert fs[..5][1] == fs[1]; return; }
    f := WriteNext(out, v.recipient.identity, d, fs, 2);
    if f.Err? { assert fs[..5][2] == fs[2]; return; }
    f := WriteNext(out, ToBe(v.recipient.generation, 8), d, fs, 3);
    f := WriteNext(out, v.context, d, fs, 4);
    if f.Err? { assert fs[..5][4] == fs[4]; }
  }

  /** Frames 5 to 8: the recipient's keys, the ephemeral share and the ciphertext. */
  method WriteExchange(out: Buffer, v: View) returns (f: Result<(), HybridError>)
    requires out.data == UpTo(TranscriptDomain(), TranscriptFields(v), 5)
    modifies out
    ensures f == if Short(TranscriptFields(v)[5..]) then Ok(()) else Err(ResourceLimitExceeded)
    ensures f.Ok? ==> out.data == UpTo(TranscriptDomain(), TranscriptFields(v), 9)
  {
    hide Frames, UpTo, TranscriptDomain, ProfileId, ToBe, TranscriptFields;
    ghost var fs, d := TranscriptFields(v), TranscriptDomain();
    FieldsInOrder(v);
    f := WriteNext(out, v.key.classical, d, fs, 5);
    if f.Err? { assert fs[5..][0] == fs[5]; return; }
    f := WriteNext(out, v.key.postQuantum, d, fs, 6);
    if f.Err? { assert fs[5..][1] == fs[6]; return; }
    f := WriteNext(out, v.ephemeral, d, fs, 7);
    if f.Err? { assert fs[5..][2] == fs[7]; return; }
    f := WriteNext(out, v.ciphertext, d, fs, 8);
    if f.Err? { assert fs[5..][3] == fs[8]; }
  }

  lemma ShortHalves(fs: seq<bytes>, n: nat)
    requires n <= |fs|
    ensures Short(fs) <==> Short(fs[..n]) && Short(fs[n..])
  {
    assert fs == fs[..n] + fs[n..];
  }

  method WriteTranscript(p: Primitives, v: View) returns (r: Result<Hash, HybridError>)
    ensures r == TranscriptHash(p, v)
  {
    hide Frames, UpTo, TranscriptDomain, TranscriptFields, Short;
    UpToEnds(TranscriptDomain(), TranscriptFields(v));
    ShortHalves(TranscriptFields(v), 5);
    var out := new Buffer();
    out.Extend(TranscriptDomain());
    var f := WriteParties(out, v);
    if f.Err? { return Err(f.error); }
    f := WriteExchange(out, v);
    if f.Err? { return Err(f.error); }
    r := Ok(p.sha256(out.data));
  }

  lemma Shift(a: bytes, b: bytes, c: bytes)
    ensures a + (b + c) == (a + b) + c
  {
  }

  method WriteCombinerInput(v: View, pqSecret: bytes, classicalSecret: bytes, hash: Hash) returns (s: bytes)
    ensures s == CombinerInput(v, pqSecret, classicalSecret, hash)
  {
    hide KemLabel;
    var out := new Buffer();
    ghost var t6 := KemLabel() + hash;
    ghost var t5 := v.key.classical + t6;
    ghost var t4 := v.key.postQuantum + t5;
    ghost var t3 := v.ephemeral + t4;
    ghost var t2 := v.ciphertext + t3;
    out.Extend(pqSecret);
    assert out.data == pqSecret;
    out.Extend(classicalSecret);
    Shift(pqSecret, classicalSecret, t2);
    Shift(out.data, v.ciphertext, t3);
    out.Extend(v.ciphertext);
    Shift(out.data, v.ephemeral, t4);
    out.Extend(v.ephemeral);
    Shift(out.data, v.key.postQuantum, t5);
    out.Extend(v.key.postQuantum);
    Shift(out.data, v.key.classical, t6);
    out.Extend(v.key.classical);
    Shift(out.data, KemLabel(), hash);
    out.Extend(KemLabel());
    out.Extend(hash);
    s := out.data;
  }

  /** Extraction, then expansion under the transcript hash. */
  method DeriveTrafficKey(p: Primitives, v: View, pqSecret: bytes, classicalSecret: bytes, hash: Hash)
    returns (k: bytes)
    ensures k == TrafficKey(p, v, pqSecret, classicalSecret, hash)
  {
    hide CombinerInput, KemLabel, ExtractInfo, TrafficInfo;
    var input := WriteCombinerInput(v, pqSecret, classicalSecret, hash);
    var combined := p.hkdf(input, KemLabel(), ExtractInfo(), 32);
    var info := new Buffer();
    info.Extend(TrafficInfo());
    info.Extend(hash);
    assert info.data == TrafficInfo() + hash;
    k := p.hkdf(combined, hash, info.data, 32);
  }
}
