/** Safety of every run of the proximity machine, and what its signatures bind. */
module ProximityTheorems {
  import opened Bytes
  import opened Utf8
  import opened Cbor
  import opened CborTheorems
  import KeyedSort
  import opened Proximity

  // ------------------------------------------------------------ progress

  /** How far a session has come. No step goes back. */
  function Rank(s: State): (r: nat) {
    match s
    case Idle => 0
    case Engaged(_) => 1
    case SessionEstablished(_) => 2
    case SigningResponse(_) => 3
    case Responded => 4
    case Aborted(_) => 5
    case Terminated => 6
  }

  lemma {:induction false} RankMonotone(run: Run, i: nat, j: nat)
    requires i <= j <= |run|
    ensures Rank(StateAt(run, i)) <= Rank(StateAt(run, j))
  {
    hide BuildDeviceEngagement, SessionTranscript, DeviceAuthSigningInput, AssembleDeviceResponse;
    if i < j { RankMonotone(run, i, j - 1); }
  }

  /** The step at `i` moved the machine from rank `r` to rank `r + 1`. */
  predicate Advances(run: Run, i: nat, r: nat)
    requires i < |run|
  {
    Rank(StateAt(run, i)) == r && Rank(StateAt(run, i + 1)) == r + 1
  }

  lemma {:induction false} AdvanceOnce(run: Run, i: nat, j: nat, r: nat)
    requires i < j < |run| && Advances(run, i, r)
    ensures !Advances(run, j, r)
  {
    hide Step;
    RankMonotone(run, i + 1, j);
  }

  predicate EmitsEngagement(o: seq<Output>) { exists x :: x in o && x.EmitDeviceEngagement? }
  predicate RequestsSignature(o: seq<Output>) { exists x :: x in o && x.SignDeviceAuth? }
  predicate EmitsResponse(o: seq<Output>) { exists x :: x in o && x.EmitDeviceResponse? }

  lemma EmissionsAdvance(run: Run, i: nat)
    requires i < |run|
    ensures EmitsEngagement(OutputsAt(run, i)) ==> Advances(run, i, 0)
    ensures RequestsSignature(OutputsAt(run, i)) ==> Advances(run, i, 2)
    ensures EmitsResponse(OutputsAt(run, i)) ==> Advances(run, i, 3)
    ensures |OutputsAt(run, i)| <= 1
  {
    hide BuildDeviceEngagement, SessionTranscript, DeviceAuthSigningInput, AssembleDeviceResponse;
    assert StateAt(run, i + 1) == Step(StateAt(run, i), run[i].0, run[i].1).0;
  }

  /** In any run there is at most one engagement, one signing request and one response: never in two
      steps, and no step emits more than one thing. */
  lemma EmittedAtMostOnce(run: Run, i: nat, j: nat)
    requires i <= j < |run|
    ensures |OutputsAt(run, i)| <= 1
    ensures i < j ==> !(EmitsEngagement(OutputsAt(run, i)) && EmitsEngagement(OutputsAt(run, j)))
    ensures i < j ==> !(RequestsSignature(OutputsAt(run, i)) && RequestsSignature(OutputsAt(run, j)))
    ensures i < j ==> !(EmitsResponse(OutputsAt(run, i)) && EmitsResponse(OutputsAt(run, j)))
  {
    hide OutputsAt, EmitsEngagement, RequestsSignature, EmitsResponse;
    EmissionsAdvance(run, i);
    EmissionsAdvance(run, j);
    if i < j {
      if Advances(run, i, 0) { AdvanceOnce(run, i, j, 0); }
      if Advances(run, i, 2) { AdvanceOnce(run, i, j, 2); }
      if Advances(run, i, 3) { AdvanceOnce(run, i, j, 3); }
    }
  }

  // ------------------------------------------------------------ history

  /** At step `a` the idle wallet was asked to engage with this key and UUID, and did. */
  predicate EngagementAt(run: Run, a: nat, key: bytes, uuid: Uuid) {
    && a < |run|
    && run[a].0 == StartEngagement(key, uuid)
    && OutputsAt(run, a) == [EmitDeviceEngagement(BuildDeviceEngagement(key, uuid))]
  }

  /** At step `b` a reader passed every guard and its key was bound to that engagement. */
  predicate SessionAt(run: Run, b: nat, readerKey: bytes) {
    && b < |run|
    && run[b].0 == ReaderEstablishment(readerKey)
    && ReaderAccepted(run[b].1)
    && OutputsAt(run, b) == [RenderConsent]
  }

  /** At step `c` the user consented and the device was asked to sign over the transcript. */
  predicate ConsentAt(run: Run, c: nat, transcript: bytes) {
    && c < |run|
    && run[c].0 == ConsentGranted
    && OutputsAt(run, c) == [SignDeviceAuth(run[c].1.deviceKeyRef, DeviceAuthSigningInput(transcript))]
  }

  lemma {:induction false} EngagedHistory(run: Run, i: nat)
    requires i <= |run| && StateAt(run, i).Engaged?
    ensures exists a: nat, key, uuid: Uuid :: a < i && EngagementAt(run, a, key, uuid)
              && StateAt(run, i) == Engaged(BuildDeviceEngagement(key, uuid))
  {
    hide BuildDeviceEngagement, SessionTranscript, DeviceAuthSigningInput, AssembleDeviceResponse;
    var s, input := StateAt(run, i - 1), run[i - 1].0;
    if s.Engaged? {
      EngagedHistory(run, i - 1);
    } else {
      assert EngagementAt(run, i - 1, input.deviceKey, input.bleUuid);
    }
  }

  predicate BoundSession(run: Run, a: nat, b: nat, key: bytes, uuid: Uuid, readerKey: bytes) {
    a < b && EngagementAt(run, a, key, uuid) && SessionAt(run, b, readerKey)
  }

  function BoundTranscript(key: bytes, uuid: Uuid, readerKey: bytes): (t: bytes) {
    SessionTranscript(BuildDeviceEngagement(key, uuid), readerKey)
  }

  lemma {:induction false} SessionHistory(run: Run, i: nat)
    requires i <= |run| && StateAt(run, i).SessionEstablished?
    ensures exists a: nat, b: nat, key, uuid: Uuid, readerKey ::
              b < i && BoundSession(run, a, b, key, uuid, readerKey)
              && StateAt(run, i).sessionTranscript == BoundTranscript(key, uuid, readerKey)
  {
    hide BuildDeviceEngagement, SessionTranscript, DeviceAuthSigningInput, AssembleDeviceResponse;
    var s, input := StateAt(run, i - 1), run[i - 1].0;
    if s.SessionEstablished? {
      SessionHistory(run, i - 1);
    } else {
      EngagedHistory(run, i - 1);
      var a: nat, key, uuid: Uuid :| a < i - 1 && EngagementAt(run, a, key, uuid)
                                && s == Engaged(BuildDeviceEngagement(key, uuid));
      assert SessionAt(run, i - 1, input.readerKey);
      assert BoundSession(run, a, i - 1, key, uuid, input.readerKey);
    }
  }

  /** Steps `a < b < c`: engagement, guarded establishment, consent over their transcript. */
  predicate ConsentedSession(run: Run, a: nat, b: nat, c: nat, key: bytes, uuid: Uuid, readerKey: bytes) {
    && b < c
    && BoundSession(run, a, b, key, uuid, readerKey)
    && ConsentAt(run, c, BoundTranscript(key, uuid, readerKey))
  }

  /** A signing request is only ever made for a guarded, consented session, over its transcript. */
  lemma {:induction false} SigningRequestJustified(run: Run, c: nat)
    requires c < |run| && RequestsSignature(OutputsAt(run, c))
    ensures exists a: nat, b: nat, key, uuid: Uuid, readerKey :: ConsentedSession(run, a, b, c, key, uuid, readerKey)
  {
    hide BuildDeviceEngagement, SessionTranscript, DeviceAuthSigningInput, AssembleDeviceResponse;
    SessionHistory(run, c);
    var a: nat, b: nat, key, uuid: Uuid, readerKey :|
      b < c && BoundSession(run, a, b, key, uuid, readerKey)
      && StateAt(run, c).sessionTranscript == BoundTranscript(key, uuid, readerKey);
    assert ConsentedSession(run, a, b, c, key, uuid, readerKey);
  }

  lemma {:induction false} SigningHistory(run: Run, i: nat)
    requires i <= |run| && StateAt(run, i).SigningResponse?
    ensures exists a: nat, b: nat, c: nat, key, uuid: Uuid, readerKey ::
              c < i && ConsentedSession(run, a, b, c, key, uuid, readerKey)
              && StateAt(run, i).sessionTranscript == BoundTranscript(key, uuid, readerKey)
  {
    hide BuildDeviceEngagement, SessionTranscript, DeviceAuthSigningInput, AssembleDeviceResponse;
    var s := StateAt(run, i - 1);
    if s.SigningResponse? {
      SigningHistory(run, i - 1);
    } else {
      SessionHistory(run, i - 1);
      var a: nat, b: nat, key, uuid: Uuid, readerKey :|
        b < i - 1 && BoundSession(run, a, b, key, uuid, readerKey)
        && s.sessionTranscript == BoundTranscript(key, uuid, readerKey);
      assert ConsentedSession(run, a, b, i - 1, key, uuid, readerKey);
    }
  }

  /** Everything that must have preceded a response emitted at step `d`. */
  predicate ResponseJustified(run: Run, a: nat, b: nat, c: nat, d: nat, key: bytes, uuid: Uuid, readerKey: bytes) {
    && c < d < |run|
    && ConsentedSession(run, a, b, c, key, uuid, readerKey)
    && run[d].0.DeviceSignatureProduced?
    && OutputsAt(run, d)
       == [EmitDeviceResponse(AssembleDeviceResponse(BoundTranscript(key, uuid, readerKey), run[d].0.signature))]
  }

  /** No response without engagement, guarded establishment, consent and device signature, in
      that order; and the response carries exactly the transcript of that engagement and reader. */
  lemma {:induction false} NoResponseWithoutConsentedSession(run: Run, d: nat)
    requires d < |run| && EmitsResponse(OutputsAt(run, d))
    ensures exists a: nat, b: nat, c: nat, key, uuid: Uuid, readerKey ::
              ResponseJustified(run, a, b, c, d, key, uuid, readerKey)
  {
    hide BuildDeviceEngagement, SessionTranscript, DeviceAuthSigningInput, AssembleDeviceResponse;
    SigningHistory(run, d);
    var a: nat, b: nat, c: nat, key, uuid: Uuid, readerKey :|
      c < d && ConsentedSession(run, a, b, c, key, uuid, readerKey)
      && StateAt(run, d).sessionTranscript == BoundTranscript(key, uuid, readerKey);
    assert ResponseJustified(run, a, b, c, d, key, uuid, readerKey);
  }

  // ------------------------------------------------------------ refinement of the model

  /** One production step is one step of the reference model. */
  lemma StepRefines(s: State, input: Input, env: Env, c: Ctx)
    requires c.st == AbstractState(s)
    ensures ModelStep(c, AbstractInput(input, env)).st == AbstractState(Step(s, input, env).0)
  {
    hide BuildDeviceEngagement, SessionTranscript, DeviceAuthSigningInput, AssembleDeviceResponse;
  }

  function AbstractRun(run: Run): (evs: seq<Ev>)
    ensures |evs| == |run|
    ensures forall i :: 0 <= i < |run| ==> evs[i] == AbstractInput(run[i].0, run[i].1)
  {
    seq(|run|, i requires 0 <= i < |run| => AbstractInput(run[i].0, run[i].1))
  }

  /** Every run of the machine is a run of the model, state by state. */
  lemma {:induction false} RunRefines(run: Run, i: nat)
    requires i <= |run|
    ensures ModelRun(AbstractRun(run)[..i]).st == AbstractState(StateAt(run, i))
  {
    if i > 0 {
      RunRefines(run, i - 1);
      var evs := AbstractRun(run);
      assert evs[..i][..i - 1] == evs[..i - 1];
      assert evs[..i][i - 1] == AbstractInput(run[i - 1].0, run[i - 1].1);
      StepRefines(StateAt(run, i - 1), run[i - 1].0, run[i - 1].1, ModelRun(evs[..i - 1]));
    }
  }

  /** Reachable model contexts that sign or have responded are session-bound and consented. */
  lemma {:induction false} ModelSafety(evs: seq<Ev>)
    ensures var c := ModelRun(evs);
      && (c.st == StSessionEstablished ==> c.sessionBound)
      && (c.st == StSigningResponse || c.st == StResponded ==> c.sessionBound && c.consented)
  {
    if evs != [] { ModelSafety(evs[..|evs| - 1]); }
  }

  /** `model::run` folds the step over the events. */
  method RunModel(evs: seq<Ev>) returns (c: Ctx)
    ensures c == ModelRun(evs)
    ensures c.st == StResponded ==> c.sessionBound && c.consented
  {
    c := INIT;
    for i := 0 to |evs|
      invariant c == ModelRun(evs[..i])
    {
      assert evs[..i + 1][..i] == evs[..i];
      c := ModelStep(c, evs[i]);
    }
    assert evs[..|evs|] == evs;
    ModelSafety(evs);
  }

  // ------------------------------------------------------------ what a signature binds

  /** Every byte string built on the way has a 64-bit length, as any Rust vector does. */
  predicate Representable(key: bytes, uuid: Uuid, readerKey: bytes) {
    && |key| < U64_LIMIT && |readerKey| < U64_LIMIT
    && |BuildDeviceEngagement(key, uuid)| < U64_LIMIT
    && |BoundTranscript(key, uuid, readerKey)| < U64_LIMIT
    && |Encode(DeviceAuthentication(BoundTranscript(key, uuid, readerKey)))| < U64_LIMIT
  }

  lemma {:induction false} EmbeddedNormal(s: bytes)
    requires |s| < U64_LIMIT
    ensures Valid(Embedded(s)) && IsNormal(Embedded(s)) && Height(Embedded(s)) == 1
  {
    assert Norm(ByteStr(s)) == ByteStr(s);
  }

  lemma {:induction false} OptionsNormal(uuid: Uuid)
    ensures Valid(Map(BleOptions(uuid))) && IsNormal(Map(BleOptions(uuid)))
  {
    hide Encode, EncodedPairs, KeyedSort.Ascending, NormedPairs;
    var pairs := BleOptions(uuid);
    SmallKeysAscend(pairs);
    NormalMap(pairs);
  }

  lemma {:induction false} SecurityNormal(key: bytes)
    requires |key| < U64_LIMIT
    ensures var v := Array([Uint(CIPHER_SUITE), Embedded(key)]); Valid(v) && IsNormal(v)
  {
    hide Embedded, NormItems;
    EmbeddedNormal(key);
    NormalArray([Uint(CIPHER_SUITE), Embedded(key)]);
  }

  lemma {:induction false} MethodNormal(uuid: Uuid)
    ensures var v := Array([Uint(RETRIEVAL_METHOD_BLE), Uint(1), Map(BleOptions(uuid))]); Valid(v) && IsNormal(v)
  {
    hide BleOptions, NormItems;
    OptionsNormal(uuid);
    NormalArray([Uint(RETRIEVAL_METHOD_BLE), Uint(1), Map(BleOptions(uuid))]);
  }

  lemma {:induction false} SingletonNormal(v: Value)
    requires Valid(v) && IsNormal(v)
    ensures Valid(Array([v])) && IsNormal(Array([v]))
  {
    NormalArray([v]);
  }

  lemma {:induction false} EngagementNormal(key: bytes, uuid: Uuid)
    requires |key| < U64_LIMIT
    ensures Valid(Map(EngagementPairs(key, uuid))) && IsNormal(Map(EngagementPairs(key, uuid)))
  {
    hide BleOptions, Embedded, Encode, EncodedPairs, KeyedSort.Ascending, NormedPairs, NormItems;
    LiteralText("1.0");
    SecurityNormal(key);
    MethodNormal(uuid);
    var pairs := EngagementPairs(key, uuid);
    SingletonNormal(pairs[2].1.items[0]);
    SmallKeysAscend(pairs);
    NormalMap(pairs);
  }

  /** The engagement bytes determine the device key and the advertised UUID. */
  lemma {:induction false} EngagementInjective(k1: bytes, u1: Uuid, k2: bytes, u2: Uuid)
    requires |k1| < U64_LIMIT && |k2| < U64_LIMIT
    requires BuildDeviceEngagement(k1, u1) == BuildDeviceEngagement(k2, u2)
    ensures k1 == k2 && u1 == u2
  {
    EngagementNormal(k1, u1);
    EngagementNormal(k2, u2);
    NormalInjective(Map(EngagementPairs(k1, u1)), Map(EngagementPairs(k2, u2)));
    hide Encode;
    var p1, p2 := EngagementPairs(k1, u1), EngagementPairs(k2, u2);
    assert p1[1].1.items[1] == p2[1].1.items[1];
    assert p1[2].1.items[0].items[2].pairs[1] == p2[2].1.items[0].items[2].pairs[1];
  }

  lemma {:induction false} TranscriptNormal(engagement: bytes, readerKey: bytes)
    requires |engagement| < U64_LIMIT && |readerKey| < U64_LIMIT
    ensures Valid(TranscriptValue(engagement, readerKey)) && IsNormal(TranscriptValue(engagement, readerKey))
    ensures Height(TranscriptValue(engagement, readerKey)) <= MAX_DEPTH
  {
    var items := TranscriptValue(engagement, readerKey).items;
    EmbeddedNormal(engagement);
    EmbeddedNormal(readerKey);
    hide Embedded;
    NormalArray(items);
    assert Height(items[0]) == 1 && Height(items[1]) == 1 && Height(items[2]) == 0;
    assert items[1..][1..][1..] == [];
    assert MaxHeight(items[1..][1..]) == 0;
    assert MaxHeight(items[1..]) == 1;
  }

  /** The transcript embedded in the signing input always decodes (the `Null` fallback is dead)
      and stands there byte for byte. */
  lemma {:induction false} TranscriptEmbedded(engagement: bytes, readerKey: bytes)
    requires |engagement| < U64_LIMIT && |readerKey| < U64_LIMIT
    ensures var t := SessionTranscript(engagement, readerKey);
      && DecodeAt(t, 0) == Ok((TranscriptValue(engagement, readerKey), []))
      && EmbeddedTranscript(t) == TranscriptValue(engagement, readerKey)
      && Encode(EmbeddedTranscript(t)) == t
  {
    var v := TranscriptValue(engagement, readerKey);
    TranscriptNormal(engagement, readerKey);
    hide Encode, DecodeItem;
    RoundTrip(v, MAX_DEPTH, []);
    assert Encode(v) + [] == Encode(v);
  }

  lemma {:induction false} TranscriptInjective(e1: bytes, r1: bytes, e2: bytes, r2: bytes)
    requires |e1| < U64_LIMIT && |r1| < U64_LIMIT && |e2| < U64_LIMIT && |r2| < U64_LIMIT
    requires SessionTranscript(e1, r1) == SessionTranscript(e2, r2)
    ensures e1 == e2 && r1 == r2
  {
    TranscriptNormal(e1, r1);
    TranscriptNormal(e2, r2);
    NormalInjective(TranscriptValue(e1, r1), TranscriptValue(e2, r2));
    hide Encode;
    assert TranscriptValue(e1, r1).items[0] == TranscriptValue(e2, r2).items[0];
    assert TranscriptValue(e1, r1).items[1] == TranscriptValue(e2, r2).items[1];
  }

  lemma {:induction false} FourNormal(a: Value, b: Value, c: Value, d: Value)
    requires Valid(a) && Valid(b) && Valid(c) && Valid(d)
    requires IsNormal(a) && IsNormal(b) && IsNormal(c) && IsNormal(d)
    ensures Valid(Array([a, b, c, d])) && IsNormal(Array([a, b, c, d]))
  {
    hide IsNormal;
    NormalArray([a, b, c, d]);
  }

  lemma {:induction false} AuthenticationNormal(engagement: bytes, readerKey: bytes)
    requires |engagement| < U64_LIMIT && |readerKey| < U64_LIMIT
    ensures var v := DeviceAuthentication(SessionTranscript(engagement, readerKey));
            Valid(v) && IsNormal(v)
  {
    hide Encode, Embedded, EmbeddedTranscript, TranscriptValue, SessionTranscript, Valid, IsNormal, Height, Ascii;
    TranscriptEmbedded(engagement, readerKey);
    TranscriptNormal(engagement, readerKey);
    LiteralText("DeviceAuthentication");
    LiteralText("org.iso.18013.5.1.mDL");
    EmptyMapBytes();
    EmbeddedNormal(Encode(Map([])));
    FourNormal(Text(Ascii("DeviceAuthentication")), TranscriptValue(engagement, readerKey), Text(DOC_TYPE_MDL),
               Embedded(Encode(Map([]))));
  }

  lemma {:induction false} EmptyMapBytes()
    ensures Encode(Map([])) == [0xA0]
  {
    assert EncodedPairs([]) == [];
    assert KeyedSort.Canonical<bytes>([]) == [];
    assert ToBe(0, 0) == [];
  }

  lemma {:induction false} EmbeddedInjective(a: bytes, b: bytes)
    requires |a| < U64_LIMIT && |b| < U64_LIMIT
    requires Encode(Embedded(a)) == Encode(Embedded(b))
    ensures a == b
  {
    NormalInjective(Embedded(a), Embedded(b));
  }

  /** The device-auth signing input determines device key, BLE UUID and reader key. */
  lemma {:induction false} SigningInputBinds(k1: bytes, u1: Uuid, r1: bytes, k2: bytes, u2: Uuid, r2: bytes)
    requires Representable(k1, u1, r1) && Representable(k2, u2, r2)
    requires DeviceAuthSigningInput(BoundTranscript(k1, u1, r1)) == DeviceAuthSigningInput(BoundTranscript(k2, u2, r2))
    ensures k1 == k2 && u1 == u2 && r1 == r2
  {
    hide Encode, BuildDeviceEngagement, IsNormal, Valid, TranscriptValue, EmbeddedTranscript;
    var e1, e2 := BuildDeviceEngagement(k1, u1), BuildDeviceEngagement(k2, u2);
    var t1, t2 := BoundTranscript(k1, u1, r1), BoundTranscript(k2, u2, r2);
    EmbeddedInjective(Encode(DeviceAuthentication(t1)), Encode(DeviceAuthentication(t2)));
    AuthenticationNormal(e1, r1);
    AuthenticationNormal(e2, r2);
    NormalInjective(DeviceAuthentication(t1), DeviceAuthentication(t2));
    assert DeviceAuthentication(t1).items[1] == DeviceAuthentication(t2).items[1];
    TranscriptEmbedded(e1, r1);
    TranscriptEmbedded(e2, r2);
    TranscriptInjective(e1, r1, e2, r2);
    EngagementInjective(k1, u1, k2, u2);
  }

  /** Every byte string a run builds has a 64-bit length. */
  predicate RunRepresentable(run: Run) {
    forall a, b :: 0 <= a < |run| && 0 <= b < |run| && run[a].0.StartEngagement? && run[b].0.ReaderEstablishment? ==>
      Representable(run[a].0.deviceKey, run[a].0.bleUuid, run[b].0.readerKey)
  }

  /** Across any two runs, two signing requests over the same bytes, under whatever key references,
      come from sessions with the same device key, UUID and reader key. */
  lemma {:induction false} EqualRequestsSameSession(run1: Run, c1: nat, ref1: bytes, run2: Run, c2: nat, ref2: bytes,
                                                    input: bytes)
    requires RunRepresentable(run1) && c1 < |run1| && SignDeviceAuth(ref1, input) in OutputsAt(run1, c1)
    requires RunRepresentable(run2) && c2 < |run2| && SignDeviceAuth(ref2, input) in OutputsAt(run2, c2)
    ensures exists a1: nat, b1: nat, a2: nat, b2: nat, key, uuid: Uuid, readerKey ::
              && ConsentedSession(run1, a1, b1, c1, key, uuid, readerKey)
              && ConsentedSession(run2, a2, b2, c2, key, uuid, readerKey)
  {
    hide Step, OutputsAt, DeviceAuthSigningInput, BoundTranscript, Representable;
    SigningRequestJustified(run1, c1);
    SigningRequestJustified(run2, c2);
    var a1: nat, b1: nat, k1, u1: Uuid, r1 :| ConsentedSession(run1, a1, b1, c1, k1, u1, r1);
    var a2: nat, b2: nat, k2, u2: Uuid, r2 :| ConsentedSession(run2, a2, b2, c2, k2, u2, r2);
    assert run1[a1].0.StartEngagement? && run1[b1].0.ReaderEstablishment?;
    assert run2[a2].0.StartEngagement? && run2[b2].0.ReaderEstablishment?;
    SigningInputBinds(k1, u1, r1, k2, u2, r2);
    assert ConsentedSession(run2, a2, b2, c2, k1, u1, r1);
  }
}
