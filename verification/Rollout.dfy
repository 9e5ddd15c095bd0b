/** Runtime rollout of the experimental profile: who may raise the mode, and what a kill switch stops. */
module Rollout {
  import opened Bytes
  import opened HybridTypes

  datatype Mode = Disabled | ExperimentalLocalOnly | PrivateProfileAllowed | HybridRequired
  datatype Origin = LocalOperator | Remote
  datatype Operation = NewLocalExperiment | NewPrivateProfileSession | NewHybridRequiredSession | OpenExistingArtifact

  /** Modes in increasing order of capability. */
  function Rank(m: Mode): (n: nat) {
    match m
    case Disabled => 0
    case ExperimentalLocalOnly => 1
    case PrivateProfileAllowed => 2
    case HybridRequired => 3
  }

  function RequiredMode(op: Operation): (m: Mode) {
    match op
    case NewLocalExperiment => ExperimentalLocalOnly
    case NewPrivateProfileSession => PrivateProfileAllowed
    case NewHybridRequiredSession => HybridRequired
    case OpenExistingArtifact => Disabled
  }

  /** The modes under which a new operation may start. */
  function Suffices(op: Operation): (ms: set<Mode>) {
    match op
    case NewLocalExperiment => {ExperimentalLocalOnly, PrivateProfileAllowed, HybridRequired}
    case NewPrivateProfileSession => {PrivateProfileAllowed, HybridRequired}
    case NewHybridRequiredSession => {HybridRequired}
    case OpenExistingArtifact => {Disabled, ExperimentalLocalOnly, PrivateProfileAllowed, HybridRequired}
  }

  /** The order of the modes, and what each operation needs of it, written out. */
  lemma {:induction false} ModeTables(m: Mode, n: Mode, op: Operation)
    ensures Rank(m) <= Rank(n) <==>
      || m == n || m == Disabled || n == HybridRequired
      || (m == ExperimentalLocalOnly && n == PrivateProfileAllowed)
    ensures Rank(m) >= Rank(RequiredMode(op)) <==> m in Suffices(op)
  {
  }

  datatype State = State(mode: Mode, killed: bool)

  const INITIAL: State := State(Disabled, false)

  datatype Event =
    | RequestMode(origin: Origin, mode: Mode)
    | ActivateKill(origin: Origin)
    | ClearKill(origin: Origin)

  predicate Refused(s: State, e: Event) {
    match e
    case RequestMode(o, m) => o == Remote && Rank(m) > Rank(s.mode)
    case ActivateKill(_) => false
    case ClearKill(o) => o == Remote
  }

  /** A refused event changes nothing. */
  function Apply(s: State, e: Event): (t: State) {
    if Refused(s, e) then s
    else
      match e
      case RequestMode(_, m) => s.(mode := m)
      case ActivateKill(_) => s.(killed := true)
      case ClearKill(_) => s.(killed := false)
  }

  function Run(s: State, es: seq<Event>): (t: State) {
    if es == [] then s else Apply(Run(s, es[..|es| - 1]), es[|es| - 1])
  }

  /** `compiled` is whether this build contains the experimental feature. */
  function EffectiveMode(compiled: bool, s: State): (m: Mode) { if compiled then s.mode else Disabled }

  predicate Authorized(compiled: bool, s: State, op: Operation) {
    op.OpenExistingArtifact? || (!s.killed && Rank(EffectiveMode(compiled, s)) >= Rank(RequiredMode(op)))
  }

  /** Whether a session may continue classically. */
  predicate FallbackAllowed(compiled: bool, s: State) { EffectiveMode(compiled, s) != HybridRequired }

  // ------------------------------------------------------------ the policy object

  class RolloutPolicy {
    var configuredMode: Mode
    var killSwitch: bool

    ghost function Abstract(): (s: State)
      reads this
    {
      State(configuredMode, killSwitch)
    }

    constructor ()
      ensures Abstract() == INITIAL
    {
      configuredMode := Disabled;
      killSwitch := false;
    }

    method Request(origin: Origin, mode: Mode) returns (r: Result<(), HybridError>)
      modifies this
      ensures Abstract() == Apply(old(Abstract()), RequestMode(origin, mode))
      ensures r == if Refused(old(Abstract()), RequestMode(origin, mode)) then Err(PolicyDenied) else Ok(())
    {
      if origin == Remote && Rank(mode) > Rank(configuredMode) { return Err(PolicyDenied); }
      configuredMode := mode;
      r := Ok(());
    }

    method Kill(origin: Origin)
      modifies this
      ensures Abstract() == Apply(old(Abstract()), ActivateKill(origin))
    {
      killSwitch := true;
    }

    method Clear(origin: Origin) returns (r: Result<(), HybridError>)
      modifies this
      ensures Abstract() == Apply(old(Abstract()), ClearKill(origin))
      ensures r == if Refused(old(Abstract()), ClearKill(origin)) then Err(PolicyDenied) else Ok(())
    {
      if origin == Remote { return Err(PolicyDenied); }
      killSwitch := false;
      r := Ok(());
    }

    /** Any sequence of calls, refused ones included, leaves the object where the history leads. */
    method Replay(es: seq<Event>)
      modifies this
      ensures Abstract() == Run(old(Abstract()), es)
    {
      hide Apply;
      for i := 0 to |es|
        invariant Abstract() == Run(old(Abstract()), es[..i])
      {
        assert es[..i + 1][..i] == es[..i];
        match es[i]
        case RequestMode(origin, mode) => var r := Request(origin, mode);
        case ActivateKill(origin) => Kill(origin);
        case ClearKill(origin) => var r := Clear(origin);
      }
      assert es[..|es|] == es;
    }

    method Authorize(compiled: bool, op: Operation) returns (r: Result<(), HybridError>)
      ensures r == if Authorized(compiled, Abstract(), op) then Ok(()) else Err(PolicyDenied)
      ensures r.Ok? <==> op == OpenExistingArtifact || (compiled && !killSwitch && configuredMode in Suffices(op))
    {
      if op == OpenExistingArtifact { return Ok(()); }
      if killSwitch { return Err(PolicyDenied); }
      var effective := if compiled then configuredMode else Disabled;
      if Rank(effective) < Rank(RequiredMode(op)) { return Err(PolicyDenied); }
      r := Ok(());
    }

    method ClassicalFallback(compiled: bool) returns (r: Result<(), HybridError>)
      ensures r == if FallbackAllowed(compiled, Abstract()) then Ok(()) else Err(DowngradeDetected)
      ensures r.Ok? <==> !compiled || configuredMode in {Disabled, ExperimentalLocalOnly, PrivateProfileAllowed}
    {
      var effective := if compiled then configuredMode else Disabled;
      if effective == HybridRequired { return Err(DowngradeDetected); }
      r := Ok(());
    }
  }

  // ------------------------------------------------------------ what a whole history determines

  predicate IsLocalRequest(e: Event) { e.RequestMode? && e.origin == LocalOperator }

  /** A mode request that no local operator has overridden since. */
  predicate Standing(es: seq<Event>, i: int) {
    0 <= i < |es| && es[i].RequestMode? && forall j :: i < j < |es| ==> !IsLocalRequest(es[j])
  }

  predicate NoLocalRequest(es: seq<Event>) { forall i :: 0 <= i < |es| ==> !IsLocalRequest(es[i]) }

  lemma {:induction false} StandingStep(es: seq<Event>, i: int)
    requires es != []
    ensures var n := |es| - 1;
      Standing(es, i) <==> (i == n && es[n].RequestMode?) || (i < n && Standing(es[..n], i) && !IsLocalRequest(es[n]))
  {
    hide IsLocalRequest;
    var n := |es| - 1;
    if i < n && Standing(es[..n], i) && !IsLocalRequest(es[n]) {
      forall j | i < j < |es| ensures !IsLocalRequest(es[j]) { if j < n { assert es[j] == es[..n][j]; } }
    }
    if i < n && Standing(es, i) {
      forall j | i < j < n ensures !IsLocalRequest(es[..n][j]) { assert es[j] == es[..n][j]; }
    }
  }

  ghost predicate ModeExplained(es: seq<Event>, mode: Mode) {
    && (forall i :: Standing(es, i) ==> Rank(mode) <= Rank(es[i].mode))
    && ((exists i :: Standing(es, i) && es[i].mode == mode) || (mode == Disabled && NoLocalRequest(es)))
  }

  /** After any history the mode is the least of the requests that stand: never above the last the
      local operator made, and lowered by every remote request since. */
  lemma {:induction false} ModeIsLeastStanding(es: seq<Event>)
    ensures ModeExplained(es, Run(INITIAL, es).mode)
  {
    if es != [] {
      var n := |es| - 1;
      ModeIsLeastStanding(es[..n]);
      ModeStep(es, Run(INITIAL, es[..n]));
    }
  }

  lemma {:induction false} ModeStep(es: seq<Event>, s: State)
    requires es != [] && ModeExplained(es[..|es| - 1], s.mode)
    ensures ModeExplained(es, Apply(s, es[|es| - 1]).mode)
  {
    hide Standing;
    var n := |es| - 1;
    var e, mode := es[n], Apply(s, es[n]).mode;
    forall i
      ensures Standing(es, i) <==> (i == n && e.RequestMode?) || (i < n && Standing(es[..n], i) && !IsLocalRequest(e))
    {
      StandingStep(es, i);
    }
    forall i | Standing(es[..n], i) ensures 0 <= i < n && es[i].RequestMode? { StandingInRange(es[..n], i); }
    if e.RequestMode? && !Refused(s, e) {
      assert Standing(es, n) && es[n].mode == mode;
    } else {
      if i :| Standing(es[..n], i) && es[..n][i].mode == s.mode {
        assert Standing(es, i);
      } else {
        forall i | 0 <= i < |es| ensures !IsLocalRequest(es[i]) { if i < n { assert es[..n][i] == es[i]; } }
      }
    }
  }

  lemma StandingInRange(es: seq<Event>, i: int)
    requires Standing(es, i)
    ensures 0 <= i < |es| && es[i].RequestMode?
  {
  }

  /** The kill switch is on exactly when some activation has had no local clearing since. */
  lemma {:induction false} KilledIff(es: seq<Event>)
    ensures Run(INITIAL, es).killed <==> exists i :: Uncleared(es, i)
  {
    if es != [] {
      var n := |es| - 1;
      KilledIff(es[..n]);
      if i :| Uncleared(es[..n], i) { UnclearedStep(es, i); }
      if i :| Uncleared(es, i) { UnclearedStep(es, i); }
      UnclearedStep(es, n);
    }
  }

  predicate Uncleared(es: seq<Event>, i: int) {
    0 <= i < |es| && es[i].ActivateKill? && forall j :: i < j < |es| ==> es[j] != ClearKill(LocalOperator)
  }

  predicate UnclearedAfter(es: seq<Event>, i: int)
    requires es != []
  {
    var n := |es| - 1;
    Uncleared(es, i) == (if i == n then es[n].ActivateKill?
                         else i < n && Uncleared(es[..n], i) && es[n] != ClearKill(LocalOperator))
  }

  lemma {:induction false} UnclearedStep(es: seq<Event>, i: int)
    requires es != []
    ensures UnclearedAfter(es, i)
  {
    var n := |es| - 1;
    if i < n && Uncleared(es[..n], i) && es[n] != ClearKill(LocalOperator) {
      forall j | i < j < |es| ensures es[j] != ClearKill(LocalOperator) { if j < n { assert es[j] == es[..n][j]; } }
    }
    if i < n && Uncleared(es, i) {
      forall j | i < j < n ensures es[..n][j] != ClearKill(LocalOperator) { assert es[j] == es[..n][j]; }
    }
  }

  // ------------------------------------------------------------ safety

  predicate AllRemote(es: seq<Event>) { forall i :: 0 <= i < |es| ==> es[i].origin == Remote }

  /** From any state, remote configuration alone can only take authorisations away; whatever it
      does, existing artifacts stay readable. */
  lemma {:induction false} RemoteOnlyRestricts(compiled: bool, s: State, es: seq<Event>, op: Operation)
    requires AllRemote(es)
    ensures Authorized(compiled, Run(s, es), op) ==> Authorized(compiled, s, op)
    ensures Authorized(compiled, Run(s, es), OpenExistingArtifact)
  {
    if es != [] {
      var n := |es| - 1;
      RemoteOnlyRestricts(compiled, s, es[..n], op);
      assert es[n].origin == Remote;
    }
  }

  /** Exactly when a history authorises a new operation: the build has the feature, no kill is
      uncleared, a local operator's request stands, and every standing request reaches its mode. */
  lemma {:induction false} AuthorisedIff(compiled: bool, es: seq<Event>, op: Operation)
    requires op != OpenExistingArtifact
    ensures Authorized(compiled, Run(INITIAL, es), op) <==>
      && compiled
      && (forall i :: !Uncleared(es, i))
      && (exists i :: Standing(es, i) && IsLocalRequest(es[i]))
      && (forall i :: Standing(es, i) ==> Rank(es[i].mode) >= Rank(RequiredMode(op)))
  {
    hide Uncleared, Run;
    ModeIsLeastStanding(es);
    KilledIff(es);
    if Run(INITIAL, es).mode != Disabled { LastLocal(es); }
  }

  /** A mode other than the initial one rests on a standing local request. */
  lemma {:induction false} LastLocal(es: seq<Event>)
    requires Run(INITIAL, es).mode != Disabled
    ensures exists i :: Standing(es, i) && IsLocalRequest(es[i])
  {
    var i := |es| - 1;
    while i >= 0 && !IsLocalRequest(es[i])
      invariant -1 <= i < |es|
      invariant forall j :: i < j < |es| ==> !IsLocalRequest(es[j])
    {
      i := i - 1;
    }
    if i < 0 { OnlyDisabled(es); } else { assert Standing(es, i); }
  }

  lemma {:induction false} OnlyDisabled(es: seq<Event>)
    requires NoLocalRequest(es)
    ensures Run(INITIAL, es).mode == Disabled
  {
    if es != [] {
      var n := |es| - 1;
      assert forall j :: 0 <= j < n ==> es[..n][j] == es[j];
      OnlyDisabled(es[..n]);
      assert !IsLocalRequest(es[n]);
    }
  }

  function WithoutKills(es: seq<Event>): (r: seq<Event>) {
    if es == [] then []
    else
      var rest := WithoutKills(es[..|es| - 1]);
      if es[|es| - 1].RequestMode? then rest + [es[|es| - 1]] else rest
  }

  /** Kill-switch events never soften, or harden, the refusal to fall back: erasing them from a
      history leaves the fallback decision as it was. */
  lemma {:induction false} FallbackIgnoresKills(compiled: bool, s: State, es: seq<Event>)
    ensures FallbackAllowed(compiled, Run(s, es)) <==> FallbackAllowed(compiled, Run(s, WithoutKills(es)))
  {
    ModeIgnoresKills(s, es);
  }

  lemma {:induction false} ModeIgnoresKills(s: State, es: seq<Event>)
    ensures Run(s, es).mode == Run(s, WithoutKills(es)).mode
  {
    if es != [] {
      var n := |es| - 1;
      ModeIgnoresKills(s, es[..n]);
      var rest, w := WithoutKills(es[..n]), WithoutKills(es);
      if es[n].RequestMode? { assert w[..|w| - 1] == rest && w[|w| - 1] == es[n]; }
    }
  }

  /** The object, after any calls from the default, authorises a new operation exactly when the
      history does, and always opens existing artifacts. */
  method DecideAfter(es: seq<Event>, compiled: bool, op: Operation) returns (r: Result<(), HybridError>)
    ensures op == OpenExistingArtifact ==> r.Ok?
    ensures op != OpenExistingArtifact ==> (r.Ok? <==>
      && compiled
      && (forall i :: !Uncleared(es, i))
      && (exists i :: Standing(es, i) && IsLocalRequest(es[i]))
      && (forall i :: Standing(es, i) ==> Rank(es[i].mode) >= Rank(RequiredMode(op))))
  {
    hide Uncleared, Run;
    var policy := new RolloutPolicy();
    policy.Replay(es);
    r := policy.Authorize(compiled, op);
    if op != OpenExistingArtifact { AuthorisedIff(compiled, es, op); }
  }
}
