/** Exactly which signed messages the other side accepts, whatever private labels a caller adds. */
module CoseAcceptance {
  import opened Bytes
  import opened Cbor
  import opened CborTheorems
  import opened Cose
  import opened CoseTheorems

  /** The value of the first private entry with this label. */
  function FirstWith(labels: seq<(i64, bytes)>, l: i64): (r: Option<bytes>) {
    if labels == [] then None else if labels[0].0 == l then Some(labels[0].1) else FirstWith(labels[1..], l)
  }

  /** What the sender can check beforehand: no private entry poses as the algorithm or as `crit`,
      and none poses as a certificate of a size the receiver refuses. */
  predicate Acceptable(u: UnprotectedHeader) {
    && FirstWith(u.privateLabels, LABEL_ALG).None? && FirstWith(u.privateLabels, LABEL_CRIT).None?
    && (u.x5chain.None? && FirstWith(u.privateLabels, LABEL_X5CHAIN).Some? ==>
         CertificateSizeOk(FirstWith(u.privateLabels, LABEL_X5CHAIN).value))
  }

  function AsValue(b: Option<bytes>): (v: Option<Value>) { if b.None? then None else Some(ByteStr(b.value)) }

  lemma {:induction false} PrivateHeaderValue(labels: seq<(i64, bytes)>, l: u64)
    requires l <= I64_MAX
    ensures HeaderValue(PrivatePairs(labels), l) == AsValue(FirstWith(labels, l))
  {
    if labels != [] {
      PrivateHeaderValue(labels[1..], l);
      var ps := PrivatePairs(labels);
      assert ps[1..] == PrivatePairs(labels[1..]);
      assert ps[0] == (LabelValue(labels[0].0), ByteStr(labels[0].1));
    }
  }

  /** A lookup in the emitted map: the proper field first, a private entry in its absence. */
  lemma {:induction false} EmittedValue(u: UnprotectedHeader, l: u64)
    requires l <= I64_MAX
    ensures HeaderValue(UnprotectedPairs(u), l)
         == if l == LABEL_KID && u.kid.Some? then Some(ByteStr(u.kid.value))
            else if l == LABEL_X5CHAIN && u.x5chain.Some? then Some(ChainToValue(u.x5chain.value))
            else AsValue(FirstWith(u.privateLabels, l))
  {
    hide ChainToValue, HeaderValue, FirstWith, PrivatePairs, KidPairs, ChainPairs;
    var k, c, p := KidPairs(u.kid), ChainPairs(u.x5chain), PrivatePairs(u.privateLabels);
    HeaderValueConcat(k, c + p, l);
    HeaderValueConcat(c, p, l);
    SingleHeaderValues(u, l);
    PrivateHeaderValue(u.privateLabels, l);
  }

  lemma {:induction false} HeaderAcceptedIff(u: UnprotectedHeader)
    requires Storable(u) && |UnprotectedPairs(u)| < U64_LIMIT
    ensures var r := ParseUnprotected(Norm(Map(UnprotectedPairs(u))));
      (r.Ok? <==> Acceptable(u)) && (r.Err? ==> r.error == MalformedHeader)
  {
    hide Norm, ChainToValue, HeaderValue, FirstWith, UnprotectedPairs, Storable, PlainPair, PrivateEntries,
      ChainFromValue, UniqueLabels, Height, Encode;
    var ps := UnprotectedPairs(u);
    forall i | 0 <= i < |ps| ensures PlainPair(ps[i]) { UnprotectedPairsPlain(u, i); }
    NormedHeaderShape(ps);
    NormKeepsHeaderValue(ps, LABEL_ALG);
    NormKeepsHeaderValue(ps, LABEL_CRIT);
    NormKeepsHeaderValue(ps, LABEL_KID);
    NormKeepsHeaderValue(ps, LABEL_X5CHAIN);
    EmittedValue(u, LABEL_ALG);
    EmittedValue(u, LABEL_CRIT);
    EmittedValue(u, LABEL_KID);
    EmittedValue(u, LABEL_X5CHAIN);
    StorableChain(u);
    if FirstWith(u.privateLabels, LABEL_X5CHAIN).Some? {
      SingleCertificate(FirstWith(u.privateLabels, LABEL_X5CHAIN).value);
    }
    ChainErrors();
  }

  lemma SingleCertificate(b: bytes)
    ensures ChainFromValue(ByteStr(b)).Ok? <==> CertificateSizeOk(b)
  {
  }

  lemma ChainErrors()
    ensures forall v :: ChainFromValue(v).Err? ==> ChainFromValue(v).error == MalformedHeader
  {
  }

  /** What the receiver makes of a message sent through `to_value` and canonical encoding. */
  function Received(m: CoseSign1): (r: Result<CoseSign1, CoseError>) {
    match FromCanonical(Encode(ToValue(m)))
    case Err(_) => Err(MalformedStructure)
    case Ok(v) => FromValue(v)
  }

  lemma {:induction false} ReceivedIs(m: CoseSign1, header: ProtectedHeader)
    requires Storable(m.unprotected) && |UnprotectedPairs(m.unprotected)| < U64_LIMIT
    requires |m.protected| < U64_LIMIT && |m.signature| < U64_LIMIT && m.payload.Some? && |m.payload.value| < U64_LIMIT
    requires ParseProtected(m.protected) == Ok(header) && header.kid.None? && header.x5chain.None?
    ensures var u := ParseUnprotected(Norm(Map(UnprotectedPairs(m.unprotected))));
      Received(m) == match u case Err(e) => Err(e) case Ok(x) => Ok(m.(unprotected := x))
  {
    hide Encode, ParseProtected, UnprotectedPairs, Storable, Norm, Height, FromCanonical, Valid, ParseUnprotected,
      ToValue;
    SignedItems(m);
    FromCanonicalOfEncode(ToValue(m));
    var v := Norm(Map(UnprotectedPairs(m.unprotected)));
    if ParseUnprotected(v).Ok? { ParsedChainOk(v); }
  }

  lemma ParsedChainOk(v: Value)
    requires ParseUnprotected(v).Ok?
    ensures var u := ParseUnprotected(v).value; u.x5chain.Some? ==> ChainOk(u.x5chain.value)
  {
    hide ChainFromValue, HeaderValue, UniqueLabels, PrivateEntries, ChainOk;
  }

  /** For a correct signer: what was signed is received and verifies exactly when its private
      entries are acceptable; otherwise it is refused as a malformed header. */
  lemma {:induction false} SignedMessageAcceptedIff(signer: Signer, verifier: Verifier, alg: Alg, key: bytes,
                                                    payload: bytes, aad: bytes, u: UnprotectedHeader)
    requires CorrectPair(signer, verifier, alg, key)
    requires Sign(signer, alg, payload, aad, u).Ok?
    requires Storable(u) && |UnprotectedPairs(u)| < U64_LIMIT
    requires |payload| < U64_LIMIT && |Sign(signer, alg, payload, aad, u).value.signature| < U64_LIMIT
    ensures var r := Received(Sign(signer, alg, payload, aad, u).value);
      && (r.Ok? && Verify(r.value, verifier, alg, key, aad, None) == Ok(()) <==> Acceptable(u))
      && (!Acceptable(u) ==> r == Err(MalformedHeader))
  {
    hide Encode, EncodeProtected, ParseProtected, ParseUnprotected, UnprotectedPairs, Storable, SigStructure, ChainOk,
      Norm, Received, Acceptable;
    var m := Sign(signer, alg, payload, aad, u).value;
    ProtectedHeaderParses(alg);
    ReceivedIs(m, ProtectedHeader(alg, None, None));
    HeaderAcceptedIff(u);
    assert signer(alg, SigStructure(m.protected, aad, payload)) == Some(m.signature);
    var v := Norm(Map(UnprotectedPairs(u)));
    if ParseUnprotected(v).Ok? { ParsedChainOk(v); }
  }

  /** A private entry labelled 1 is signed without complaint and refused on arrival. */
  lemma {:induction false} PosingAsAlgorithmIsRefused(signer: Signer, verifier: Verifier, alg: Alg, key: bytes)
    requires CorrectPair(signer, verifier, alg, key)
    requires signer(alg, SigStructure(EncodeProtected(alg), [], [])).Some?
    requires |signer(alg, SigStructure(EncodeProtected(alg), [], [])).value| < U64_LIMIT
    ensures var u := UnprotectedHeader(None, None, [(1, [0])]);
      Sign(signer, alg, [], [], u).Ok? && Received(Sign(signer, alg, [], [], u).value) == Err(MalformedHeader)
  {
    hide Encode, EncodeProtected, ParseProtected, ParseUnprotected, SigStructure, Received;
    var u := UnprotectedHeader(None, None, [(1, [0])]);
    ProtectedHeaderParses(alg);
    SignedMessageAcceptedIff(signer, verifier, alg, key, [], [], u);
  }

  // ------------------------------------------------------------ what an accepted message says

  /** What one signature covers. */
  datatype Covered = Covered(protected: bytes, aad: bytes, payload: bytes)

  predicate Fits(x: Covered) { |x.protected| < U64_LIMIT && |x.aad| < U64_LIMIT && |x.payload| < U64_LIMIT }

  /** Under this algorithm and key the verifier accepts only what the signer's log holds. */
  ghost predicate OnlySigned(verifier: Verifier, alg: Alg, key: bytes, signed: set<Covered>) {
    forall message, sig :: verifier(alg, key, message, sig) ==>
      exists x :: x in signed && Fits(x) && message == SigStructure(x.protected, x.aad, x.payload)
  }

  /** An accepted message's protected header, external data and payload, attached or detached, were
      signed as they stand, and the header names the expected algorithm. */
  lemma {:induction false} AcceptedWasSigned(m: CoseSign1, verifier: Verifier, expected: Alg, key: bytes, aad: bytes,
                                             detached: Option<bytes>, signed: set<Covered>)
    requires Verify(m, verifier, expected, key, aad, detached) == Ok(()) && OnlySigned(verifier, expected, key, signed)
    requires m.payload.Some? != detached.Some? ==>
      Fits(Covered(m.protected, aad, if m.payload.Some? then m.payload.value else detached.value))
    ensures m.payload.Some? != detached.Some?
    ensures Covered(m.protected, aad, if m.payload.Some? then m.payload.value else detached.value) in signed
    ensures ParseProtected(m.protected).Ok? && ParseProtected(m.protected).value.alg == expected
  {
    hide ParseProtected, SigStructure, HeadersCompatible;
    var payload := if m.payload.Some? then m.payload.value else detached.value;
    var message := SigStructure(m.protected, aad, payload);
    assert verifier(expected, key, message, m.signature);
    var x :| x in signed && Fits(x) && message == SigStructure(x.protected, x.aad, x.payload);
    SigStructureInjective(m.protected, aad, payload, x.protected, x.aad, x.payload);
    assert x == Covered(m.protected, aad, payload);
  }
}
