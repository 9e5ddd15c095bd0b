/** The ISO/IEC 18013-5 proximity presentation machine: device engagement, session
    establishment, consent, device signature, response. Transport and cryptography stay in the
    shell; their verdicts enter as the environment of each step. */
module Proximity {
  import opened Bytes
  import opened Cbor

  const CIPHER_SUITE: u64 := 1
  const RETRIEVAL_METHOD_BLE: u64 := 2
  const DOC_TYPE_MDL := Ascii("org.iso.18013.5.1.mDL")

  type Uuid = u: bytes | |u| == 16 witness seq(16, i => 0)

  datatype AbortReason =
    | SessionTranscriptUnbound
    | ReaderKeyInvalid
    | RequestOutOfOrder
    | NoConsent
    | ReaderAuthInvalid

  datatype State =
    | Idle
    | Engaged(deviceEngagement: bytes)
    | SessionEstablished(sessionTranscript: bytes)
    | SigningResponse(sessionTranscript: bytes)
    | Responded
    | Terminated
    | Aborted(reason: AbortReason)

  datatype Input =
    | StartEngagement(deviceKey: bytes, bleUuid: Uuid)
    | ReaderEstablishment(readerKey: bytes)
    | ConsentGranted
    | ConsentDeclined
    | DeviceSignatureProduced(signature: bytes)
    | ReaderTermination

  datatype Output =
    | EmitDeviceEngagement(engagement: bytes)
    | RenderConsent
    | SignDeviceAuth(keyRef: bytes, signingInput: bytes)
    | EmitDeviceResponse(response: bytes)
    | EmitTermination

  /** Facts the shell resolved for one step. */
  datatype Env = Env(readerKeyOnCurve: bool, transcriptBound: bool, readerAuthPresent: bool,
                     readerAuthValid: bool, deviceKeyRef: bytes)

  predicate ReaderAuthOk(env: Env) { !env.readerAuthPresent || env.readerAuthValid }

  /** All three guards of the reader's session establishment. */
  predicate ReaderAccepted(env: Env) {
    env.readerKeyOnCurve && env.transcriptBound && (env.readerAuthPresent ==> env.readerAuthValid)
  }

  // ------------------------------------------------------------ CBOR structures

  function Embedded(s: bytes): (v: Value) { Tag(24, ByteStr(s)) }

  function BleOptions(uuid: Uuid): (pairs: seq<(Value, Value)>) {
    [(Uint(0), Bool(true)), (Uint(11), ByteStr(uuid))]
  }

  function EngagementPairs(deviceKey: bytes, uuid: Uuid): (pairs: seq<(Value, Value)>) {
    var security := Array([Uint(CIPHER_SUITE), Embedded(deviceKey)]);
    var bleMethod := Array([Uint(RETRIEVAL_METHOD_BLE), Uint(1), Map(BleOptions(uuid))]);
    [(Uint(0), Text(Ascii("1.0"))), (Uint(1), security), (Uint(2), Array([bleMethod]))]
  }

  function BuildDeviceEngagement(deviceKey: bytes, uuid: Uuid): (s: bytes) {
    Encode(Map(EngagementPairs(deviceKey, uuid)))
  }

  function TranscriptValue(engagement: bytes, readerKey: bytes): (v: Value) {
    Array([Embedded(engagement), Embedded(readerKey), Null])
  }

  function SessionTranscript(engagement: bytes, readerKey: bytes): (s: bytes) {
    Encode(TranscriptValue(engagement, readerKey))
  }

  /** The transcript re-read as an item, `Null` when it does not decode. */
  function EmbeddedTranscript(transcript: bytes): (v: Value) {
    match DecodeAt(transcript, 0)
    case Ok(x) => x.0
    case Err(_) => Null
  }

  function DeviceAuthentication(transcript: bytes): (v: Value) {
    Array([Text(Ascii("DeviceAuthentication")), EmbeddedTranscript(transcript), Text(DOC_TYPE_MDL),
           Embedded(Encode(Map([])))])
  }

  function DeviceAuthSigningInput(transcript: bytes): (s: bytes) {
    Encode(Embedded(Encode(DeviceAuthentication(transcript))))
  }

  function AssembleDeviceResponse(transcript: bytes, signature: bytes): (s: bytes) {
    Encode(Array([Text(Ascii("DeviceResponse")), ByteStr(transcript), ByteStr(signature)]))
  }

  // ------------------------------------------------------------ the machine

  function Step(state: State, input: Input, env: Env): (r: (State, seq<Output>)) {
    match (state, input)
    case (Idle, StartEngagement(key, uuid)) =>
      var e := BuildDeviceEngagement(key, uuid);
      (Engaged(e), [EmitDeviceEngagement(e)])
    case (Engaged(engagement), ReaderEstablishment(readerKey)) =>
      if !env.readerKeyOnCurve then (Aborted(ReaderKeyInvalid), [])
      else if !env.transcriptBound then (Aborted(SessionTranscriptUnbound), [])
      else if !ReaderAuthOk(env) then (Aborted(ReaderAuthInvalid), [])
      else (SessionEstablished(SessionTranscript(engagement, readerKey)), [RenderConsent])
    case (SessionEstablished(t), ConsentGranted) =>
      (SigningResponse(t), [SignDeviceAuth(env.deviceKeyRef, DeviceAuthSigningInput(t))])
    case (SessionEstablished(_), ConsentDeclined) => (Aborted(NoConsent), [EmitTermination])
    case (SigningResponse(t), DeviceSignatureProduced(sig)) =>
      (Responded, [EmitDeviceResponse(AssembleDeviceResponse(t, sig))])
    case (Engaged(_), ConsentGranted) => (Aborted(RequestOutOfOrder), [])
    case (_, ReaderTermination) => (Terminated, [EmitTermination])
    case (_, _) => (state, [])
  }

  /** A run: the inputs in order, each with the environment it met. */
  type Run = seq<(Input, Env)>

  function StateAt(run: Run, i: nat): (s: State)
    requires i <= |run|
  {
    if i == 0 then Idle else Step(StateAt(run, i - 1), run[i - 1].0, run[i - 1].1).0
  }

  function OutputsAt(run: Run, i: nat): (o: seq<Output>)
    requires i < |run|
  {
    Step(StateAt(run, i), run[i].0, run[i].1).1
  }

  // ------------------------------------------------------------ the reference model

  datatype St = StIdle | StEngaged | StSessionEstablished | StSigningResponse | StResponded | StAborted | StTerminated

  datatype Ev =
    | EvStart | EvReaderEstablish(valid: bool) | EvConsentGrant | EvConsentDecline | EvDeviceSign | EvTerminate

  datatype Ctx = Ctx(st: St, sessionBound: bool, consented: bool)

  const INIT := Ctx(StIdle, false, false)

  function ModelStep(c: Ctx, ev: Ev): (r: Ctx) {
    match ev
    case EvStart => if c.st == StIdle then c.(st := StEngaged) else c
    case EvReaderEstablish(valid) =>
      if c.st == StEngaged then
        if valid then c.(st := StSessionEstablished, sessionBound := true) else c.(st := StAborted)
      else c
    case EvConsentGrant =>
      if c.st == StSessionEstablished then c.(st := StSigningResponse, consented := true)
      else if c.st == StEngaged then c.(st := StAborted)
      else c
    case EvConsentDecline => if c.st == StSessionEstablished then c.(st := StAborted) else c
    case EvDeviceSign => if c.st == StSigningResponse then c.(st := StResponded) else c
    case EvTerminate => c.(st := StTerminated)
  }

  function ModelRun(evs: seq<Ev>): (c: Ctx) {
    if evs == [] then INIT else ModelStep(ModelRun(evs[..|evs| - 1]), evs[|evs| - 1])
  }

  function AbstractState(s: State): (st: St) {
    match s
    case Idle => StIdle
    case Engaged(_) => StEngaged
    case SessionEstablished(_) => StSessionEstablished
    case SigningResponse(_) => StSigningResponse
    case Responded => StResponded
    case Terminated => StTerminated
    case Aborted(_) => StAborted
  }

  function AbstractInput(input: Input, env: Env): (ev: Ev) {
    match input
    case StartEngagement(_, _) => EvStart
    case ReaderEstablishment(_) => EvReaderEstablish(ReaderAccepted(env))
    case ConsentGranted => EvConsentGrant
    case ConsentDeclined => EvConsentDecline
    case DeviceSignatureProduced(_) => EvDeviceSign
    case ReaderTermination => EvTerminate
  }
}
