/** The challenge store inside the backend: every run of the backend drives it through one of its
    histories, and the background sweep changes nothing but the store itself. */
module ServerChallenges {
  import opened EnrollHandler
  import opened Protocol
  import opened Server
  import Base64
  import CS = ChallengeStore

  // ------------------------------------------------------ the history of the store

  /** What an action does to the store, as an event of its history. */
  function StoreEvents(cfg: Config, s: State, a: Action): seq<CS.Event>
    requires Enabled(s, a)
  {
    match a
    case IssueChallenge(random, expiresAt) => [CS.Issued(Base64.EncodeToString(random), expiresAt)]
    case SweepChallenges => [CS.Swept(s.now)]
    case StepEnrolment(id, env) => if Takes(cfg, s, id) then [CS.Verified(ChallengeKey(cfg, s, id), s.now)] else []
    case _ => []
  }

  /** The next step of the request looks its challenge up. */
  predicate Takes(cfg: Config, s: State, id: nat)
    requires id in s.enrolments
  {
    && s.enrolments[id].phase.Arrived? && Admit(cfg, s.enrolments[id].req).Ok?
    && Admit(cfg, s.enrolments[id].req).value.challenge != []
  }

  function ChallengeKey(cfg: Config, s: State, id: nat): string
    requires id in s.enrolments && Takes(cfg, s, id)
  {
    Base64.EncodeToString(Admit(cfg, s.enrolments[id].req).value.challenge)
  }

  ghost function StoreHistory(cfg: Config, states: seq<State>, actions: seq<Action>, n: nat): seq<CS.Event>
    requires IsRun(cfg, states, actions) && n < |states|
  {
    if n == 0 then []
    else
      assert Leads(cfg, states, actions, n - 1);
      StoreHistory(cfg, states, actions, n - 1) + StoreEvents(cfg, states[n - 1], actions[n - 1])
  }

  lemma StepOnStore(cfg: Config, s: State, a: Action)
    requires Enabled(s, a)
    ensures var events, s' := StoreEvents(cfg, s, a), Apply(cfg, s, a);
            && |events| <= 1 && s.now <= s'.now
            && s'.shared.store == (if events == [] then s.shared.store else CS.Apply(s.shared.store, events[0]))
            && (events != [] && !events[0].Issued? ==> events[0].at == s.now)
  {
  }

  lemma HistoryStep(cfg: Config, s: State, a: Action, h: seq<CS.Event>)
    requires Enabled(s, a) && CS.Explains(h, s.shared.store, s.now)
    ensures var s' := Apply(cfg, s, a);
            CS.Explains(h + StoreEvents(cfg, s, a), s'.shared.store, s'.now)
  {
    var events, s' := StoreEvents(cfg, s, a), Apply(cfg, s, a);
    StepOnStore(cfg, s, a);
    if events == [] {
      assert h + events == h;
      CS.ExplainsLater(h, s.shared.store, s.now, s'.now);
    } else {
      assert events == [events[0]];
      CS.ExplainsNext(h, s.shared.store, s.now, events[0]);
      CS.ExplainsLater(h + events, s'.shared.store, s.now, s'.now);
    }
  }

  /** The store of every reachable state is what the history of the run's issues, look-ups and sweeps
      makes of it. */
  lemma {:induction false} StoreFollowsHistory(cfg: Config, states: seq<State>, actions: seq<Action>, n: nat)
    requires IsRun(cfg, states, actions) && n < |states|
    ensures CS.Explains(StoreHistory(cfg, states, actions, n), states[n].shared.store, states[n].now)
  {
    if n > 0 {
      StoreFollowsHistory(cfg, states, actions, n - 1);
      assert Leads(cfg, states, actions, n - 1);
      HistoryStep(cfg, states[n - 1], actions[n - 1], StoreHistory(cfg, states, actions, n - 1));
    }
  }

  /** In every run a request gets past its challenge exactly when the challenge was issued, has not
      expired since its latest issue and was not looked up since. */
  lemma TakeFollowsHistory(cfg: Config, states: seq<State>, actions: seq<Action>, n: nat)
    requires IsRun(cfg, states, actions) && n < |actions|
    requires actions[n].StepEnrolment? && actions[n].id in states[n].enrolments && Takes(cfg, states[n], actions[n].id)
    ensures actions[n].id in states[n + 1].enrolments
    ensures states[n + 1].enrolments[actions[n].id].phase.Consumed? <==>
            CS.Accepts(StoreHistory(cfg, states, actions, n), ChallengeKey(cfg, states[n], actions[n].id),
                       states[n].now)
  {
    assert Leads(cfg, states, actions, n);
    StoreFollowsHistory(cfg, states, actions, n);
    var h := StoreHistory(cfg, states, actions, n);
    CS.VerificationFollowsHistory(h, ChallengeKey(cfg, states[n], actions[n].id), states[n].now);
  }

  // ------------------------------------------------------------ runs without sweeps

  function WithoutSweeps(actions: seq<Action>): seq<Action> {
    if |actions| == 0 then []
    else
      var n := |actions| - 1;
      WithoutSweeps(actions[..n]) + (if actions[n].SweepChallenges? then [] else [actions[n]])
  }

  /** The two states differ only in entries that have expired and that `s` has swept. */
  ghost predicate SameButSwept(s: State, u: State) {
    && u == s.(shared := s.shared.(store := u.shared.store))
    && CS.Simulates(s.shared.store, u.shared.store, s.now)
  }

  lemma SweepStep(cfg: Config, s: State, u: State)
    requires SameButSwept(s, u)
    ensures SameButSwept(Apply(cfg, s, SweepChallenges), u)
  {
  }

  /** An expired entry that is still there is refused like one that has been swept. */
  lemma TakeSimulates(cfg: Config, sh: Shared, store: CS.Entries, req: EnrollRequest, now: int)
    requires CS.Simulates(sh.store, store, now)
    ensures var (a, b) := (TakeChallenge(cfg, sh, req, now), TakeChallenge(cfg, sh.(store := store), req, now));
            a.1 == b.1 && a.0.repo == b.0.repo && CS.Simulates(a.0.store, b.0.store, now)
  {
  }

  lemma TakeStep(cfg: Config, s: State, u: State, id: nat, env: Env)
    requires SameButSwept(s, u) && Enabled(s, StepEnrolment(id, env)) && s.enrolments[id].phase.Arrived?
    ensures SameButSwept(Apply(cfg, s, StepEnrolment(id, env)), Apply(cfg, u, StepEnrolment(id, env)))
  {
    TakeSimulates(cfg, s.shared, u.shared.store, s.enrolments[id].req, s.now);
  }

  lemma LaterStep(cfg: Config, s: State, u: State, id: nat, env: Env)
    requires SameButSwept(s, u) && Enabled(s, StepEnrolment(id, env)) && !s.enrolments[id].phase.Arrived?
    ensures SameButSwept(Apply(cfg, s, StepEnrolment(id, env)), Apply(cfg, u, StepEnrolment(id, env)))
  {
  }

  lemma SharedStep(cfg: Config, s: State, u: State, a: Action)
    requires SameButSwept(s, u) && Enabled(s, a) && !a.SweepChallenges?
    ensures Enabled(u, a) && SameButSwept(Apply(cfg, s, a), Apply(cfg, u, a))
  {
    if a.StepEnrolment? {
      if s.enrolments[a.id].phase.Arrived? {
        TakeStep(cfg, s, u, a.id, a.env);
      } else {
        LaterStep(cfg, s, u, a.id, a.env);
      }
    }
  }

  lemma RunPrefix(cfg: Config, states: seq<State>, actions: seq<Action>, n: nat)
    requires IsRun(cfg, states, actions) && n <= |actions|
    ensures IsRun(cfg, states[..n + 1], actions[..n])
  {
    var states', actions' := states[..n + 1], actions[..n];
    forall i | 0 <= i < |actions'|
      ensures Leads(cfg, states', actions', i)
    {
      assert Leads(cfg, states, actions, i);
    }
  }

  lemma RunExtends(cfg: Config, states: seq<State>, actions: seq<Action>, a: Action)
    requires IsRun(cfg, states, actions) && Enabled(states[|actions|], a)
    ensures IsRun(cfg, states + [Apply(cfg, states[|actions|], a)], actions + [a])
  {
    var states' := states + [Apply(cfg, states[|actions|], a)];
    forall i | 0 <= i < |actions + [a]|
      ensures Leads(cfg, states', actions + [a], i)
    {
      assert i < |actions| ==> Leads(cfg, states, actions, i);
    }
  }

  /** Deleting every sweep from a run of the backend leaves a run that ends with the same requests
      in the same phases, the same verdicts, the same registry and the same certificates: only
      expired entries of the store differ. */
  lemma {:induction false} SweepsUnobservable(cfg: Config, states: seq<State>, actions: seq<Action>)
    returns (unswept: seq<State>)
    requires IsRun(cfg, states, actions)
    ensures IsRun(cfg, unswept, WithoutSweeps(actions))
    ensures SameButSwept(states[|actions|], unswept[|unswept| - 1])
    decreases |actions|
  {
    if |actions| == 0 {
      unswept := states;
    } else {
      var n := |actions| - 1;
      RunPrefix(cfg, states, actions, n);
      unswept := SweepsUnobservable(cfg, states[..n + 1], actions[..n]);
      assert Leads(cfg, states, actions, n);
      var last := unswept[|unswept| - 1];
      if actions[n].SweepChallenges? {
        SweepStep(cfg, states[n], last);
        assert WithoutSweeps(actions) == WithoutSweeps(actions[..n]);
      } else {
        SharedStep(cfg, states[n], last, actions[n]);
        RunExtends(cfg, unswept, WithoutSweeps(actions[..n]), actions[n]);
        unswept := unswept + [Apply(cfg, last, actions[n])];
      }
    }
  }
}
