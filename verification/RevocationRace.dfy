/** A run in which revoking a device does not last: an enrolment of the same identity has passed
    its revoked check, and its registration lands after the revocation. */
module RevocationRace {
  import opened Prelude
  import opened Attestation
  import opened DeviceRepo
  import opened Middleware
  import opened Protocol
  import opened EnrollHandler
  import opened Server
  import opened ServerTheorems
  import opened Schedules
  import Base64

  // --------------------------------------- a development backend and one device key

  const KEY := Some(PublicKey(0))
  const IDENTITY := "00"
  const ADMITTED := Admitted(Csr(KEY, true), [], [])

  function DevelopmentBackend(): Config {
    Config(Pki(_ => None, _ => Some(Csr(KEY, true)), (_, _) => false, _ => Some([]), _ => IDENTITY,
               _ => None, _ => None, _ => None),
           DEVELOPMENT_POLICY, 3600, _ => "", "")
  }

  /** A CSR and no attestation chain. */
  function Request(): EnrollRequest {
    EnrollRequest("", Base64.EncodeToString([0]), [])
  }

  function CertificateWith(serial: Serial): Certificate {
    Certificate(IDENTITY, [URN_PREFIX + IDENTITY], KEY, serial, -60, 3600)
  }

  lemma RequestIsAdmitted()
    ensures Admit(DevelopmentBackend(), Request()) == Ok(ADMITTED)
  {
    Base64.RoundTrip([0]);
    assert |Base64.EncodeToString([0])| == 4;
  }

  function StepWith(id: nat, serial: Option<Serial>): Action {
    StepEnrolment(id, Env(0, 0, None, 0, serial, true))
  }

  /** A request up to the point where it holds a signed certificate. */
  function UpToSigned(id: nat, serial: Serial): seq<Action> {
    [ArriveEnrolment(id, Request()), StepWith(id, None), StepWith(id, None), StepWith(id, None),
     StepWith(id, Some(serial))]
  }

  function InPhase(s: State, id: nat, phase: Phase): State {
    s.(enrolments := s.enrolments[id := Enrolment(Request(), phase)])
  }

  lemma OneStep(cfg: Config, s: State, a: Action, rest: seq<Action>, s': State)
    requires Enabled(s, a) && Apply(cfg, s, a) == s'
    ensures Execute(cfg, s, [a] + rest) == Execute(cfg, s', rest)
  {
    assert ([a] + rest)[1..] == rest;
  }

  lemma TwoSteps(cfg: Config, s: State, a: Action, b: Action)
    requires Enabled(s, a) && Enabled(Apply(cfg, s, a), b)
    ensures Execute(cfg, s, [a, b]) == Some(Apply(cfg, Apply(cfg, s, a), b))
  {
    assert [a, b] == [a] + [b] && [b] == [b] + [];
    OneStep(cfg, s, a, [b], Apply(cfg, s, a));
    OneStep(cfg, Apply(cfg, s, a), b, [], Apply(cfg, Apply(cfg, s, a), b));
  }

  lemma TakesNoChallenge(s: State, id: nat)
    requires s.now == 0
    ensures Enabled(InPhase(s, id, Arrived), StepWith(id, None))
    ensures Apply(DevelopmentBackend(), InPhase(s, id, Arrived), StepWith(id, None))
            == InPhase(s, id, Consumed(ADMITTED))
  {
    RequestIsAdmitted();
  }

  lemma PassesWithoutAttestation(s: State, id: nat)
    requires s.now == 0
    ensures Enabled(InPhase(s, id, Consumed(ADMITTED)), StepWith(id, None))
    ensures Apply(DevelopmentBackend(), InPhase(s, id, Consumed(ADMITTED)), StepWith(id, None))
            == InPhase(s, id, Vetted(ADMITTED, IDENTITY, SOFTWARE))
  {
    assert Vet(DevelopmentBackend(), ADMITTED, Env(0, 0, None, 0, None, true)) == Vetted(ADMITTED, IDENTITY, SOFTWARE);
  }

  lemma PassesCheck(s: State, id: nat)
    requires s.now == 0 && !RevokedIn(s, IDENTITY)
    ensures Enabled(InPhase(s, id, Vetted(ADMITTED, IDENTITY, SOFTWARE)), StepWith(id, None))
    ensures Apply(DevelopmentBackend(), InPhase(s, id, Vetted(ADMITTED, IDENTITY, SOFTWARE)), StepWith(id, None))
            == InPhase(s, id, Cleared(ADMITTED, IDENTITY, SOFTWARE))
  {
  }

  /** `s` with the request's certificate signed. */
  function AfterSigning(s: State, id: nat, serial: Serial): State {
    InPhase(s, id, Signed(ADMITTED, SOFTWARE, CertificateWith(serial)))
      .(minted := s.minted[serial := Minted(id, CertificateWith(serial))])
  }

  lemma GetsSigned(s: State, id: nat, serial: Serial)
    requires s.now == 0 && serial !in s.minted
    ensures var cleared := InPhase(s, id, Cleared(ADMITTED, IDENTITY, SOFTWARE));
            Enabled(cleared, StepWith(id, Some(serial)))
            && Apply(DevelopmentBackend(), cleared, StepWith(id, Some(serial))) == AfterSigning(s, id, serial)
  {
  }

  lemma ReachesSigned(s: State, id: nat, serial: Serial, rest: seq<Action>)
    requires s.now == 0 && id !in s.enrolments && serial !in s.minted && !RevokedIn(s, IDENTITY)
    ensures Execute(DevelopmentBackend(), s, UpToSigned(id, serial) + rest)
            == Execute(DevelopmentBackend(), AfterSigning(s, id, serial), rest)
  {
    var cfg, step := DevelopmentBackend(), StepWith(id, None);
    var r4 := [StepWith(id, Some(serial))] + rest;
    var r3 := [step] + r4;
    var r2 := [step] + r3;
    var r1 := [step] + r2;
    assert UpToSigned(id, serial) + rest == [ArriveEnrolment(id, Request())] + r1;
    OneStep(cfg, s, ArriveEnrolment(id, Request()), r1, InPhase(s, id, Arrived));
    TakesNoChallenge(s, id);
    OneStep(cfg, InPhase(s, id, Arrived), step, r2, InPhase(s, id, Consumed(ADMITTED)));
    PassesWithoutAttestation(s, id);
    OneStep(cfg, InPhase(s, id, Consumed(ADMITTED)), step, r3, InPhase(s, id, Vetted(ADMITTED, IDENTITY, SOFTWARE)));
    PassesCheck(s, id);
    var cleared := InPhase(s, id, Cleared(ADMITTED, IDENTITY, SOFTWARE));
    OneStep(cfg, InPhase(s, id, Vetted(ADMITTED, IDENTITY, SOFTWARE)), step, r4, cleared);
    GetsSigned(s, id, serial);
    OneStep(cfg, cleared, StepWith(id, Some(serial)), rest, AfterSigning(s, id, serial));
  }

  /** Both requests as far as the race needs them, and then `rest`. */
  function Setup(rest: seq<Action>): seq<Action> {
    UpToSigned(0, 1) + ([StepWith(0, None)] + (UpToSigned(1, 2) + rest))
  }

  function Registered(): State {
    Apply(DevelopmentBackend(), AfterSigning(INITIAL, 0, 1), StepWith(0, None))
  }

  /** The first request has registered the device, the second holds its signed certificate. */
  function BothSigned(): State {
    AfterSigning(Registered(), 1, 2)
  }

  lemma RegisteredHolds()
    ensures var s := Registered();
            && s.now == 0 && 1 !in s.enrolments && 2 !in s.minted
            && !RevokedIn(s, IDENTITY) && IDENTITY in s.shared.repo.devices
  {
  }

  lemma SetupRuns(rest: seq<Action>)
    ensures Execute(DevelopmentBackend(), INITIAL, Setup(rest)) == Execute(DevelopmentBackend(), BothSigned(), rest)
  {
    var tail := UpToSigned(1, 2) + rest;
    ReachesSigned(INITIAL, 0, 1, [StepWith(0, None)] + tail);
    OneStep(DevelopmentBackend(), AfterSigning(INITIAL, 0, 1), StepWith(0, None), tail, Registered());
    RegisteredHolds();
    ReachesSigned(Registered(), 1, 2, rest);
  }

  /** The first enrolment registers the device; a second one of the same key gets as far as its
      signed certificate; the device is revoked; the second enrolment registers. */
  function Race(): seq<Action> {
    Setup([RevokeDevice(IDENTITY), StepWith(1, None)])
  }

  lemma RaceEnds()
    ensures var s := BothSigned();
            && IDENTITY in s.shared.repo.devices
            && var s' := Apply(DevelopmentBackend(), s, RevokeDevice(IDENTITY));
               RevokedIn(s', IDENTITY) && Enabled(s', StepWith(1, None))
               && !RevokedIn(Apply(DevelopmentBackend(), s', StepWith(1, None)), IDENTITY)
  {
    RegisteredHolds();
  }

  lemma RaceExecutes()
    ensures |Race()| == 13 && Race()[11] == RevokeDevice(IDENTITY)
    ensures Execute(DevelopmentBackend(), INITIAL, Race()[..11]) == Some(BothSigned())
    ensures var end := Execute(DevelopmentBackend(), INITIAL, Race());
            end.Some? && !RevokedIn(end.value, IDENTITY)
  {
    var cfg := DevelopmentBackend();
    var revoke, register := RevokeDevice(IDENTITY), StepWith(1, None);
    assert Race()[..11] == Setup([]);
    SetupRuns([]);
    SetupRuns([revoke, register]);
    RaceEnds();
    TwoSteps(cfg, BothSigned(), revoke, register);
  }

  /** Identity revoked in step `t` and not revoked any more in state `n`. */
  ghost predicate Undone(cfg: Config, states: seq<State>, actions: seq<Action>, t: nat, n: nat, identity: string) {
    && IsRun(cfg, states, actions) && t < n < |states|
    && actions[t] == RevokeDevice(identity) && identity in Repo(states, t).devices
    && !RevokedIn(states[n], identity)
  }

  lemma ExecutionUndoes(cfg: Config, actions: seq<Action>, t: nat, identity: string, s: State, end: State)
    returns (states: seq<State>)
    requires Execute(cfg, INITIAL, actions) == Some(end) && !RevokedIn(end, identity)
    requires t < |actions| && actions[t] == RevokeDevice(identity)
    requires Execute(cfg, INITIAL, actions[..t]) == Some(s) && identity in s.shared.repo.devices
    ensures Undone(cfg, states, actions, t, |actions|, identity)
  {
    states := ExecutionIsRun(cfg, actions);
    assert actions[..|actions|] == actions;
    assert states[t] == s && states[|actions|] == end;
  }

  /** So a revocation is not permanent in every run: the race above undoes one. */
  lemma RevocationCanBeUndone()
    ensures exists states :: Undone(DevelopmentBackend(), states, Race(), 11, 13, IDENTITY)
  {
    RaceExecutes();
    RaceEnds();
    var end := Execute(DevelopmentBackend(), INITIAL, Race());
    var states := ExecutionUndoes(DevelopmentBackend(), Race(), 11, IDENTITY, BothSigned(), end.value);
  }
}
