/** Every state and every output of a run, told from the inputs and environments alone. */
module ProximityRuns {
  import opened Bytes
  import opened Cbor
  import opened Proximity
  import ProximityWire

  // ------------------------------------------------------------ histories of inputs

  /** Nothing since step `a` that an engaged wallet reacts to. */
  predicate CalmEngaged(run: Run, a: int, i: int)
    requires -1 <= a && i <= |run|
  {
    forall k :: a < k < i ==>
      !run[k].0.ReaderEstablishment? && !run[k].0.ConsentGranted? && !run[k].0.ReaderTermination?
  }

  predicate CalmSession(run: Run, b: int, i: int)
    requires -1 <= b && i <= |run|
  {
    forall k :: b < k < i ==>
      !run[k].0.ConsentGranted? && !run[k].0.ConsentDeclined? && !run[k].0.ReaderTermination?
  }

  predicate CalmSigning(run: Run, c: int, i: int)
    requires -1 <= c && i <= |run|
  {
    forall k :: c < k < i ==> !run[k].0.DeviceSignatureProduced? && !run[k].0.ReaderTermination?
  }

  predicate Untouched(run: Run, i: nat)
    requires i <= |run|
  {
    forall k :: 0 <= k < i ==> !run[k].0.StartEngagement? && !run[k].0.ReaderTermination?
  }

  /** The first start, with no termination before it. */
  predicate StartsAt(run: Run, a: nat) { a < |run| && run[a].0.StartEngagement? && Untouched(run, a) }

  /** The first establishment, consent or termination after the start, and it is an establishment
      that passes every guard. */
  predicate EstablishesAt(run: Run, a: nat, b: nat) {
    && StartsAt(run, a) && a < b < |run| && CalmEngaged(run, a, b)
    && run[b].0.ReaderEstablishment? && ReaderAccepted(run[b].1)
  }

  /** The first consent, refusal or termination after that, and it is consent. */
  predicate ConsentsAt(run: Run, a: nat, b: nat, c: nat) {
    EstablishesAt(run, a, b) && b < c < |run| && CalmSession(run, b, c) && run[c].0.ConsentGranted?
  }

  /** The first signature or termination after that, and it is a signature. */
  predicate SignsAt(run: Run, a: nat, b: nat, c: nat, d: nat) {
    ConsentsAt(run, a, b, c) && c < d < |run| && CalmSigning(run, c, d) && run[d].0.DeviceSignatureProduced?
  }

  function EngagementOf(run: Run, a: nat): (e: bytes)
    requires a < |run| && run[a].0.StartEngagement?
  {
    BuildDeviceEngagement(run[a].0.deviceKey, run[a].0.bleUuid)
  }

  function TranscriptOf(run: Run, a: nat, b: nat): (t: bytes)
    requires a < |run| && run[a].0.StartEngagement? && b < |run| && run[b].0.ReaderEstablishment?
  {
    SessionTranscript(EngagementOf(run, a), run[b].0.readerKey)
  }

  // ------------------------------------------------------------ states

  lemma {:induction false} IdleIff(run: Run, i: nat)
    requires i <= |run|
    ensures StateAt(run, i) == Idle <==> Untouched(run, i)
  {
    hide BuildDeviceEngagement, SessionTranscript, DeviceAuthSigningInput, AssembleDeviceResponse;
    if i > 0 { IdleIff(run, i - 1); }
  }

  predicate EngagedSince(run: Run, i: nat, a: nat) { i <= |run| && StartsAt(run, a) && a < i && CalmEngaged(run, a, i) }

  lemma {:induction false} EngagedIff(run: Run, i: nat, e: bytes)
    requires i <= |run|
    ensures StateAt(run, i) == Engaged(e) <==> exists a: nat :: EngagedSince(run, i, a) && e == EngagementOf(run, a)
  {
    hide BuildDeviceEngagement, SessionTranscript, DeviceAuthSigningInput, AssembleDeviceResponse;
    if i > 0 {
      EngagedIff(run, i - 1, e);
      IdleIff(run, i - 1);
      if StateAt(run, i) == Engaged(e) {
        if StateAt(run, i - 1).Idle? {
          assert EngagedSince(run, i, i - 1);
        } else {
          var a: nat :| EngagedSince(run, i - 1, a) && e == EngagementOf(run, a);
          assert EngagedSince(run, i, a);
        }
      }
      if a: nat :| EngagedSince(run, i, a) && e == EngagementOf(run, a) {
        if a < i - 1 { assert EngagedSince(run, i - 1, a); }
      }
    }
  }

  predicate SessionSince(run: Run, i: nat, a: nat, b: nat) {
    i <= |run| && EstablishesAt(run, a, b) && b < i && CalmSession(run, b, i)
  }

  lemma {:induction false} SessionFrom(run: Run, i: nat) returns (a: nat, b: nat)
    requires i <= |run| && StateAt(run, i).SessionEstablished?
    ensures SessionSince(run, i, a, b) && StateAt(run, i).sessionTranscript == TranscriptOf(run, a, b)
  {
    hide BuildDeviceEngagement, SessionTranscript, DeviceAuthSigningInput, AssembleDeviceResponse;
    var s := StateAt(run, i - 1);
    if s.Engaged? {
      EngagedIff(run, i - 1, s.deviceEngagement);
      a :| EngagedSince(run, i - 1, a) && s.deviceEngagement == EngagementOf(run, a);
      b := i - 1;
    } else {
      a, b := SessionFrom(run, i - 1);
    }
  }

  lemma {:induction false} SessionTo(run: Run, i: nat, a: nat, b: nat)
    requires SessionSince(run, i, a, b)
    ensures StateAt(run, i) == SessionEstablished(TranscriptOf(run, a, b))
  {
    hide BuildDeviceEngagement, SessionTranscript, DeviceAuthSigningInput, AssembleDeviceResponse;
    if b < i - 1 {
      SessionTo(run, i - 1, a, b);
    } else {
      assert EngagedSince(run, i - 1, a);
      EngagedIff(run, i - 1, EngagementOf(run, a));
    }
  }

  lemma {:induction false} SessionIff(run: Run, i: nat, t: bytes)
    requires i <= |run|
    ensures StateAt(run, i) == SessionEstablished(t) <==>
      exists a: nat, b: nat :: SessionSince(run, i, a, b) && t == TranscriptOf(run, a, b)
  {
    hide StateAt, TranscriptOf, CalmEngaged, CalmSession, Untouched;
    if StateAt(run, i) == SessionEstablished(t) { var a, b := SessionFrom(run, i); }
    if a: nat, b: nat :| SessionSince(run, i, a, b) && t == TranscriptOf(run, a, b) { SessionTo(run, i, a, b); }
  }

  predicate SigningSince(run: Run, i: nat, a: nat, b: nat, c: nat) {
    i <= |run| && ConsentsAt(run, a, b, c) && c < i && CalmSigning(run, c, i)
  }

  lemma {:induction false} SigningFrom(run: Run, i: nat) returns (a: nat, b: nat, c: nat)
    requires i <= |run| && StateAt(run, i).SigningResponse?
    ensures SigningSince(run, i, a, b, c) && StateAt(run, i).sessionTranscript == TranscriptOf(run, a, b)
  {
    hide BuildDeviceEngagement, SessionTranscript, DeviceAuthSigningInput, AssembleDeviceResponse;
    if StateAt(run, i - 1).SessionEstablished? {
      a, b := SessionFrom(run, i - 1);
      c := i - 1;
    } else {
      a, b, c := SigningFrom(run, i - 1);
    }
  }

  lemma {:induction false} SigningTo(run: Run, i: nat, a: nat, b: nat, c: nat)
    requires SigningSince(run, i, a, b, c)
    ensures StateAt(run, i) == SigningResponse(TranscriptOf(run, a, b))
  {
    hide BuildDeviceEngagement, SessionTranscript, DeviceAuthSigningInput, AssembleDeviceResponse;
    if c < i - 1 {
      SigningTo(run, i - 1, a, b, c);
    } else {
      assert SessionSince(run, i - 1, a, b);
      SessionTo(run, i - 1, a, b);
    }
  }

  // ------------------------------------------------------------ outputs

  /** The engagement is emitted exactly at the first start, unless the reader terminated before. */
  lemma {:induction false} EngagementIff(run: Run, i: nat, x: bytes)
    requires i < |run|
    ensures EmitDeviceEngagement(x) in OutputsAt(run, i) <==> StartsAt(run, i) && x == EngagementOf(run, i)
  {
    hide BuildDeviceEngagement, SessionTranscript, DeviceAuthSigningInput, AssembleDeviceResponse, StateAt;
    IdleIff(run, i);
  }

  /** Consent is asked for exactly at an establishment that passes every guard. */
  lemma {:induction false} ConsentPromptIff(run: Run, i: nat)
    requires i < |run|
    ensures RenderConsent in OutputsAt(run, i) <==> exists a: nat :: EstablishesAt(run, a, i)
  {
    hide BuildDeviceEngagement, SessionTranscript, DeviceAuthSigningInput, AssembleDeviceResponse, StateAt;
    if RenderConsent in OutputsAt(run, i) {
      var e := StateAt(run, i).deviceEngagement;
      EngagedIff(run, i, e);
      var a: nat :| EngagedSince(run, i, a) && e == EngagementOf(run, a);
      assert EstablishesAt(run, a, i);
    }
    if a: nat :| EstablishesAt(run, a, i) {
      assert EngagedSince(run, i, a);
      EngagedIff(run, i, EngagementOf(run, a));
    }
  }

  /** The device is asked to sign exactly at consent in a live session: with the key reference of
      that step, over that session's transcript. */
  lemma {:induction false} SigningRequestIff(run: Run, i: nat, ref: bytes, x: bytes)
    requires i < |run|
    ensures SignDeviceAuth(ref, x) in OutputsAt(run, i) <==>
      exists a: nat, b: nat :: ConsentsAt(run, a, b, i) && ref == run[i].1.deviceKeyRef
                            && x == DeviceAuthSigningInput(TranscriptOf(run, a, b))
  {
    hide BuildDeviceEngagement, SessionTranscript, DeviceAuthSigningInput, AssembleDeviceResponse, StateAt;
    if SignDeviceAuth(ref, x) in OutputsAt(run, i) {
      var t := StateAt(run, i).sessionTranscript;
      SessionIff(run, i, t);
      var a: nat, b: nat :| SessionSince(run, i, a, b) && t == TranscriptOf(run, a, b);
      assert ConsentsAt(run, a, b, i);
    }
    if a: nat, b: nat :| ConsentsAt(run, a, b, i) && ref == run[i].1.deviceKeyRef
                         && x == DeviceAuthSigningInput(TranscriptOf(run, a, b)) {
      assert SessionSince(run, i, a, b);
      SessionIff(run, i, TranscriptOf(run, a, b));
    }
  }

  /** A response is emitted exactly when a device signature arrives first after consent, in a session
      of the first start and a guarded establishment: with that session's transcript and that
      signature. So such a signature is always answered, and nothing else is. */
  lemma {:induction false} ResponseIff(run: Run, i: nat, x: bytes)
    requires i < |run|
    ensures EmitDeviceResponse(x) in OutputsAt(run, i) <==>
      exists a: nat, b: nat, c: nat :: SignsAt(run, a, b, c, i)
        && x == AssembleDeviceResponse(TranscriptOf(run, a, b), run[i].0.signature)
  {
    hide BuildDeviceEngagement, SessionTranscript, DeviceAuthSigningInput, AssembleDeviceResponse, StateAt;
    if EmitDeviceResponse(x) in OutputsAt(run, i) {
      var t := StateAt(run, i).sessionTranscript;
      var a, b, c := SigningFrom(run, i);
      assert SignsAt(run, a, b, c, i);
    }
    if a: nat, b: nat, c: nat :| SignsAt(run, a, b, c, i)
                                 && x == AssembleDeviceResponse(TranscriptOf(run, a, b), run[i].0.signature) {
      assert SigningSince(run, i, a, b, c);
      SigningTo(run, i, a, b, c);
    }
  }

  /** Such a signature is answered by exactly one response, in which a reader finds the label, that
      run's transcript and that signature. */
  lemma {:induction false} SignatureAnswered(run: Run, a: nat, b: nat, c: nat, d: nat)
    requires SignsAt(run, a, b, c, d)
    ensures var t, sig := TranscriptOf(run, a, b), run[d].0.signature;
      && OutputsAt(run, d) == [EmitDeviceResponse(AssembleDeviceResponse(t, sig))]
      && (|t| < U64_LIMIT && |sig| < U64_LIMIT ==>
           FromCanonical(AssembleDeviceResponse(t, sig))
             == Ok(Array([Text(ResponseLabel()), ByteStr(t), ByteStr(sig)])))
  {
    hide OutputsAt, TranscriptOf, AssembleDeviceResponse, FromCanonical;
    var t, sig := TranscriptOf(run, a, b), run[d].0.signature;
    ResponseIff(run, d, AssembleDeviceResponse(t, sig));
    OneOutput(run, d);
    if |t| < U64_LIMIT && |sig| < U64_LIMIT { ProximityWire.ResponseReadsBack(t, sig); }
  }

  function ResponseLabel(): (t: bytes) { Ascii("DeviceResponse") }

  /** Teardown is announced exactly when the reader terminates, in any state, or the user declines
      in a live session. */
  lemma {:induction false} TerminationIff(run: Run, i: nat)
    requires i < |run|
    ensures EmitTermination in OutputsAt(run, i) <==>
      || run[i].0.ReaderTermination?
      || (run[i].0.ConsentDeclined? && exists a: nat, b: nat :: SessionSince(run, i, a, b))
  {
    hide BuildDeviceEngagement, SessionTranscript, DeviceAuthSigningInput, AssembleDeviceResponse, StateAt;
    if StateAt(run, i).SessionEstablished? { SessionIff(run, i, StateAt(run, i).sessionTranscript); }
    if a: nat, b: nat :| SessionSince(run, i, a, b) { SessionIff(run, i, TranscriptOf(run, a, b)); }
  }

  /** No step emits two things; with the equivalences above, every output of every step is known. */
  lemma {:induction false} OneOutput(run: Run, i: nat)
    requires i < |run|
    ensures |OutputsAt(run, i)| <= 1
  {
    hide BuildDeviceEngagement, SessionTranscript, DeviceAuthSigningInput, AssembleDeviceResponse, StateAt;
  }

  /** What makes an engaged or a live session abort, and with which reason. */
  predicate AbortCause(run: Run, i: nat, r: AbortReason)
    requires i < |run|
  {
    var input, env := run[i].0, run[i].1;
    match r
    case ReaderKeyInvalid => input.ReaderEstablishment? && !env.readerKeyOnCurve
    case SessionTranscriptUnbound => input.ReaderEstablishment? && env.readerKeyOnCurve && !env.transcriptBound
    case ReaderAuthInvalid =>
      && input.ReaderEstablishment? && env.readerKeyOnCurve && env.transcriptBound
      && env.readerAuthPresent && !env.readerAuthValid
    case RequestOutOfOrder => input.ConsentGranted?
    case NoConsent => input.ConsentDeclined?
  }

  /** A run aborts at a step exactly for one of these causes: the reader's key, the transcript, the
      reader's authentication or a premature consent while engaged, or a refusal in a live session. */
  lemma {:induction false} AbortIff(run: Run, i: nat, r: AbortReason)
    requires i < |run|
    ensures !StateAt(run, i).Aborted? && StateAt(run, i + 1) == Aborted(r) <==>
      && AbortCause(run, i, r)
      && (if r == NoConsent then exists a: nat, b: nat :: SessionSince(run, i, a, b)
          else exists a: nat :: EngagedSince(run, i, a))
  {
    hide BuildDeviceEngagement, SessionTranscript, DeviceAuthSigningInput, AssembleDeviceResponse, StateAt;
    StateStep(run, i);
    if StateAt(run, i).SessionEstablished? { SessionIff(run, i, StateAt(run, i).sessionTranscript); }
    if StateAt(run, i).Engaged? { EngagedIff(run, i, StateAt(run, i).deviceEngagement); }
    if a: nat, b: nat :| SessionSince(run, i, a, b) { SessionIff(run, i, TranscriptOf(run, a, b)); }
    if a: nat :| EngagedSince(run, i, a) { EngagedIff(run, i, EngagementOf(run, a)); }
  }

  lemma StateStep(run: Run, i: nat)
    requires i < |run|
    ensures StateAt(run, i + 1) == Step(StateAt(run, i), run[i].0, run[i].1).0
  {
    hide Step;
  }
}
