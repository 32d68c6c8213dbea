/** Runs built action by action, and the schedule in which one enrolment has the backend to
    itself. */
module Schedules {
  import opened Prelude
  import opened EnrollHandler
  import opened Protocol
  import opened Server

  /** The state after the actions, if each is enabled in its turn. */
  function Execute(cfg: Config, s: State, actions: seq<Action>): Option<State>
    decreases |actions|
  {
    if |actions| == 0 then Some(s)
    else if Enabled(s, actions[0]) then Execute(cfg, Apply(cfg, s, actions[0]), actions[1..])
    else None
  }

  lemma {:induction false} ExecuteAppend(cfg: Config, s: State, a: seq<Action>, b: seq<Action>)
    ensures Execute(cfg, s, a + b) ==
            match Execute(cfg, s, a) case None => None case Some(s') => Execute(cfg, s', b)
    decreases |a|
  {
    if |a| == 0 {
      assert a + b == b;
    } else {
      assert (a + b)[1..] == a[1..] + b;
      if Enabled(s, a[0]) {
        ExecuteAppend(cfg, Apply(cfg, s, a[0]), a[1..], b);
      }
    }
  }

  /** An execution from the initial state is a run. */
  lemma {:induction false} ExecutionIsRun(cfg: Config, actions: seq<Action>) returns (states: seq<State>)
    requires Execute(cfg, INITIAL, actions).Some?
    ensures IsRun(cfg, states, actions)
    ensures forall n :: 0 <= n <= |actions| ==> Execute(cfg, INITIAL, actions[..n]) == Some(states[n])
  {
    if |actions| == 0 {
      states := [INITIAL];
    } else {
      var m := |actions| - 1;
      assert actions == actions[..m] + [actions[m]];
      ExecuteAppend(cfg, INITIAL, actions[..m], [actions[m]]);
      var prefix := ExecutionIsRun(cfg, actions[..m]);
      assert actions[..m][..m] == actions[..m];
      states := prefix + [Apply(cfg, prefix[m], actions[m])];
      forall i | 0 <= i < |actions|
        ensures Leads(cfg, states, actions, i)
      {
        assert i < m ==> Leads(cfg, prefix, actions[..m], i);
      }
      forall n | 0 <= n <= |actions|
        ensures Execute(cfg, INITIAL, actions[..n]) == Some(states[n])
      {
        if n <= m {
          assert actions[..m][..n] == actions[..n];
        } else {
          assert actions[..n] == actions;
          assert Execute(cfg, prefix[m], [actions[m]]) == Some(states[n]);
        }
      }
    }
  }

  // ------------------------------------------------------------ one request alone

  /** A serial is drawn only when the certificate is signed. */
  function EnvFor(phase: Phase, env: Env): Env {
    if phase.Cleared? then env else env.(serial := None)
  }

  function SoloActions(cfg: Config, sh: Shared, req: EnrollRequest, id: nat, phase: Phase, env: Env): seq<Action>
    decreases Rank(phase)
  {
    if Final(phase) then []
    else
      var (sh', phase') := Advance(cfg, sh, req, phase, env);
      [StepEnrolment(id, EnvFor(phase, env))] + SoloActions(cfg, sh', req, id, phase', env)
  }

  lemma SerialMattersOnlyToSigning(cfg: Config, sh: Shared, req: EnrollRequest, phase: Phase, env: Env)
    requires !Final(phase)
    ensures Advance(cfg, sh, req, phase, EnvFor(phase, env)) == Advance(cfg, sh, req, phase, env)
  {
  }

  /** The request has moved; the clock, the other requests, the pings and the issues have not. */
  ghost predicate OnlyMoved(s: State, s': State, id: nat) {
    && s'.now == s.now && s'.pings == s.pings && s'.issues == s.issues
    && id in s.enrolments && id in s'.enrolments && s'.enrolments[id].req == s.enrolments[id].req
    && s'.enrolments - {id} == s.enrolments - {id}
  }

  /** The request reads the clock of this state throughout. */
  ghost predicate EnvFits(s: State, env: Env) {
    env.takenAt == s.now && env.verifiedAt == s.now && env.signedAt == s.now
  }

  predicate BeforeSigning(phase: Phase) {
    phase.Arrived? || phase.Consumed? || phase.Vetted? || phase.Cleared?
  }

  lemma SoloStep(cfg: Config, s: State, id: nat, env: Env)
    requires id in s.enrolments && !Final(s.enrolments[id].phase) && EnvFits(s, env)
    requires BeforeSigning(s.enrolments[id].phase) && env.serial.Some? ==> env.serial.value !in s.minted
    ensures var e := s.enrolments[id];
            var a := StepEnrolment(id, EnvFor(e.phase, env));
            && Enabled(s, a)
            && var s' := Apply(cfg, s, a);
              && OnlyMoved(s, s', id)
              && (s'.shared, s'.enrolments[id].phase) == Advance(cfg, s.shared, e.req, e.phase, env)
              && (BeforeSigning(s'.enrolments[id].phase) && env.serial.Some? ==> env.serial.value !in s'.minted)
  {
    SerialMattersOnlyToSigning(cfg, s.shared, s.enrolments[id].req, s.enrolments[id].phase, env);
  }

  /** Among the schedules of the backend is the one in which a request is served from where it is
      to its end without interruption, and it does what the handler does when run alone. */
  lemma {:induction false} SoloSchedule(cfg: Config, s: State, id: nat, env: Env) returns (end: State)
    requires id in s.enrolments && EnvFits(s, env)
    requires BeforeSigning(s.enrolments[id].phase) && env.serial.Some? ==> env.serial.value !in s.minted
    ensures var e := s.enrolments[id];
            && Execute(cfg, s, SoloActions(cfg, s.shared, e.req, id, e.phase, env)) == Some(end)
            && OnlyMoved(s, end, id)
            && (end.shared, end.enrolments[id].phase) == RunAlone(cfg, s.shared, e.req, e.phase, env)
            && Final(end.enrolments[id].phase)
    decreases Rank(s.enrolments[id].phase)
  {
    var e := s.enrolments[id];
    RunAloneEnds(cfg, s.shared, e.req, e.phase, env);
    if Final(e.phase) {
      end := s;
    } else {
      SoloStep(cfg, s, id, env);
      var a := StepEnrolment(id, EnvFor(e.phase, env));
      var s' := Apply(cfg, s, a);
      var rest := SoloActions(cfg, s'.shared, e.req, id, s'.enrolments[id].phase, env);
      end := SoloSchedule(cfg, s', id, env);
      assert ([a] + rest)[1..] == rest;
    }
  }
}
