/** The backend as a concurrent system. Any number of enrolments and pings are in flight, each
    somewhere in its sequence of atomic steps; challenges are issued and swept, and an operator
    revokes devices and serials, between any two of those steps. */
module Server {
  import opened Prelude
  import opened Attestation
  import opened DeviceRepo
  import opened Middleware
  import opened Protocol
  import opened EnrollHandler
  import Base64
  import CS = ChallengeStore

  datatype Enrolment = Enrolment(req: EnrollRequest, phase: Phase)

  datatype Stage =
    | NoRead
    | GotRecord(record: DeviceRecord)
    | WasActive(record: DeviceRecord)
    | Done(verdict: Verdict)

  datatype Ping = Ping(serial: Serial, identity: string, stage: Stage)

  // What happened, for the statements about whole runs.
  datatype Issue = Issue(challenge: string, expiresAt: int)
  datatype Grant = Grant(issue: int, at: int)
  datatype Minted = Minted(request: nat, cert: Certificate)
  datatype Write = Write(request: nat, record: DeviceRecord)

  /** `issues`, `grants`, `minted` and `written` only record history; no step consults them
      except to keep serials fresh. */
  datatype State = State(
    now: int,
    shared: Shared,
    enrolments: map<nat, Enrolment>,
    pings: map<nat, Ping>,
    issues: seq<Issue>,
    grants: map<nat, Grant>,
    minted: map<Serial, Minted>,
    written: seq<Write>)

  datatype Action =
    | Tick(to: int)
    | IssueChallenge(random: bytes, expiresAt: int)
    | SweepChallenges
    | ArriveEnrolment(id: nat, req: EnrollRequest)
    | StepEnrolment(id: nat, env: Env)
    | ArrivePing(id: nat, peer: Option<Certificate>)
    | StepPing(id: nat)
    | RevokeDevice(identity: string)
    | RevokeSerial(serial: Serial)

  const INITIAL := State(0, Shared(map[], EMPTY_REGISTRY), map[], map[], [], map[], map[], [])

  /** Index of the latest issue of a challenge, or -1. */
  function LatestIssue(issues: seq<Issue>, challenge: string): (i: int)
    ensures -1 <= i < |issues|
    ensures i >= 0 ==> issues[i].challenge == challenge
    ensures forall j :: i < j < |issues| ==> issues[j].challenge != challenge
  {
    if |issues| == 0 then -1
    else if issues[|issues| - 1].challenge == challenge then |issues| - 1
    else LatestIssue(issues[..|issues| - 1], challenge)
  }

  /** The TLS layer lets through certificates this CA issued that are within their validity. */
  predicate TlsAccepts(s: State, peer: Option<Certificate>) {
    peer.Some? ==>
      && peer.value.serial in s.minted && s.minted[peer.value.serial].cert == peer.value
      && peer.value.notBefore <= s.now <= peer.value.notAfter
  }

  /** The clock never goes backwards, identifiers are used once, and serials are fresh. */
  predicate Enabled(s: State, a: Action) {
    match a
    case Tick(to) => s.now <= to
    case ArriveEnrolment(id, _) => id !in s.enrolments
    case StepEnrolment(id, env) =>
      && id in s.enrolments && !Final(s.enrolments[id].phase)
      && env.takenAt == s.now && env.verifiedAt == s.now && env.signedAt == s.now
      && (env.serial.Some? ==> env.serial.value !in s.minted)
    case ArrivePing(id, peer) => id !in s.pings && TlsAccepts(s, peer)
    case StepPing(id) => id in s.pings && !s.pings[id].stage.Done?
    case _ => true
  }

  function NewGrants(s: State, id: nat, before: Phase, after: Phase): map<nat, Grant> {
    if before.Arrived? && after.Consumed? && after.adm.challenge != [] then
      s.grants[id := Grant(LatestIssue(s.issues, Base64.EncodeToString(after.adm.challenge)), s.now)]
    else s.grants
  }

  function NewMinted(s: State, id: nat, after: Phase): map<Serial, Minted> {
    if after.Signed? then s.minted[after.cert.serial := Minted(id, after.cert)] else s.minted
  }

  function NewWritten(s: State, id: nat, req: EnrollRequest, after: Phase, env: Env): seq<Write> {
    if after.Recorded? then
      s.written + [Write(id, RecordFor(req, after.level, after.cert, env.signedAt))]
    else s.written
  }

  function AdvanceEnrolment(cfg: Config, s: State, id: nat, env: Env): State
    requires id in s.enrolments && !Final(s.enrolments[id].phase)
  {
    var e := s.enrolments[id];
    var (shared, phase) := Advance(cfg, s.shared, e.req, e.phase, env);
    s.(shared := shared,
       enrolments := s.enrolments[id := Enrolment(e.req, phase)],
       grants := NewGrants(s, id, e.phase, phase),
       minted := NewMinted(s, id, phase),
       written := NewWritten(s, id, e.req, phase, env))
  }

  function AdvancePing(repo: Registry, p: Ping): Stage
    requires !p.stage.Done?
  {
    match p.stage
    case NoRead =>
      var record := Find(repo, p.identity);
      if record.None? then Done(UnauthorizedOrRevoked) else GotRecord(record.value)
    case GotRecord(record) =>
      if Active(repo, p.identity) then WasActive(record) else Done(UnauthorizedOrRevoked)
    case WasActive(record) =>
      Done(if p.serial in repo.revokedSerials then SerialRevoked
           else if record.certSerial != p.serial then NotCurrent
           else Accepted(p.identity, record.deviceLabel))
  }

  function NewPing(pki: Pki, peer: Option<Certificate>): Ping {
    match Bind(pki, peer)
    case Err(refusal) => Ping(0, "", Done(refusal))
    case Ok(identity) => Ping(peer.value.serial, identity, NoRead)
  }

  function Apply(cfg: Config, s: State, a: Action): State
    requires Enabled(s, a)
  {
    match a
    case Tick(to) => s.(now := to)
    case IssueChallenge(random, expiresAt) =>
      var challenge := Base64.EncodeToString(random);
      s.(shared := s.shared.(store := CS.Put(s.shared.store, challenge, expiresAt)),
         issues := s.issues + [Issue(challenge, expiresAt)])
    case SweepChallenges => s.(shared := s.shared.(store := CS.Sweep(s.shared.store, s.now)))
    case ArriveEnrolment(id, req) => s.(enrolments := s.enrolments[id := Enrolment(req, Arrived)])
    case StepEnrolment(id, env) => AdvanceEnrolment(cfg, s, id, env)
    case ArrivePing(id, peer) => s.(pings := s.pings[id := NewPing(cfg.pki, peer)])
    case StepPing(id) =>
      s.(pings := s.pings[id := s.pings[id].(stage := AdvancePing(s.shared.repo, s.pings[id]))])
    case RevokeDevice(identity) =>
      s.(shared := s.shared.(repo := WithDeviceRevoked(s.shared.repo, identity)))
    case RevokeSerial(serial) =>
      s.(shared := s.shared.(repo := WithSerialRevoked(s.shared.repo, serial)))
  }

  /** Action `i` leads from state `i` to the next. */
  ghost predicate Leads(cfg: Config, states: seq<State>, actions: seq<Action>, i: int) {
    && 0 <= i < |actions| && i + 1 < |states|
    && Enabled(states[i], actions[i]) && states[i + 1] == Apply(cfg, states[i], actions[i])
  }

  ghost predicate IsRun(cfg: Config, states: seq<State>, actions: seq<Action>) {
    && |states| == |actions| + 1 && states[0] == INITIAL
    && forall i :: 0 <= i < |actions| ==> Leads(cfg, states, actions, i)
  }

  // ------------------------------------------------------------- the challenges

  /** Some accepted enrolment has used up issue `i`. */
  ghost predicate Used(s: State, i: int) {
    exists id :: id in s.grants && s.grants[id].issue == i
  }

  /** An entry of the store is the latest, unused issue of its challenge. */
  ghost predicate EntryOk(s: State, challenge: string)
    requires challenge in s.shared.store
  {
    var i := LatestIssue(s.issues, challenge);
    i >= 0 && s.issues[i].expiresAt == s.shared.store[challenge] && !Used(s, i)
  }

  ghost predicate GrantOk(cfg: Config, s: State, id: nat)
    requires id in s.grants
  {
    var g := s.grants[id];
    && 0 <= g.issue < |s.issues| && g.at < s.issues[g.issue].expiresAt && g.at <= s.now
    && id in s.enrolments && !s.enrolments[id].phase.Arrived?
    && Admit(cfg, s.enrolments[id].req).Ok?
    && Admit(cfg, s.enrolments[id].req).value.challenge != []
    && s.issues[g.issue].challenge == Base64.EncodeToString(Admit(cfg, s.enrolments[id].req).value.challenge)
  }

  ghost predicate ChallengeInv(cfg: Config, s: State) {
    && (forall c :: c in s.shared.store ==> EntryOk(s, c))
    && (forall id :: id in s.grants ==> GrantOk(cfg, s, id))
    && (forall a, b :: a in s.grants && b in s.grants && s.grants[a].issue == s.grants[b].issue ==> a == b)
  }

  lemma LatestIssueGrows(issues: seq<Issue>, added: Issue, challenge: string)
    ensures LatestIssue(issues + [added], challenge) ==
            if added.challenge == challenge then |issues| else LatestIssue(issues, challenge)
  {
    assert (issues + [added])[..|issues|] == issues;
  }

  lemma ChallengeInvIssue(cfg: Config, s: State, random: bytes, expiresAt: int)
    requires ChallengeInv(cfg, s)
    ensures ChallengeInv(cfg, Apply(cfg, s, IssueChallenge(random, expiresAt)))
  {
    var s' := Apply(cfg, s, IssueChallenge(random, expiresAt));
    var challenge := Base64.EncodeToString(random);
    forall c | c in s'.shared.store
      ensures EntryOk(s', c)
    {
      LatestIssueGrows(s.issues, Issue(challenge, expiresAt), c);
      if c != challenge {
        assert EntryOk(s, c);
        var i := LatestIssue(s.issues, c);
        assert Used(s', i) ==> Used(s, i);
      } else {
        forall id | id in s'.grants
          ensures s'.grants[id].issue != |s.issues|
        {
          assert GrantOk(cfg, s, id);
        }
      }
    }
    forall id | id in s'.grants
      ensures GrantOk(cfg, s', id)
    {
      assert GrantOk(cfg, s, id);
    }
  }

  /** The step is a grant: the store held the challenge and it had not expired. */
  ghost predicate Grants(cfg: Config, s: State, id: nat, s': State)
    requires id in s.enrolments && id in s'.enrolments
  {
    var adm := Admit(cfg, s.enrolments[id].req);
    && adm.Ok? && adm.value.challenge != []
    && var challenge := Base64.EncodeToString(adm.value.challenge);
      && challenge in s.shared.store && s.now < s.shared.store[challenge]
      && s'.shared.store == s.shared.store - {challenge}
      && s'.grants == s.grants[id := Grant(LatestIssue(s.issues, challenge), s.now)]
  }

  lemma TakeGrantsOrShrinks(cfg: Config, s: State, id: nat, env: Env)
    requires Enabled(s, StepEnrolment(id, env)) && s.enrolments[id].phase.Arrived?
    ensures var s' := Apply(cfg, s, StepEnrolment(id, env));
            Grants(cfg, s, id, s')
            || (s'.grants == s.grants
                && forall c :: c in s'.shared.store ==> c in s.shared.store && s'.shared.store[c] == s.shared.store[c])
  {
  }

  lemma GrantKeepsEntries(s: State, s': State, id: nat, challenge: string, c: string)
    requires challenge in s.shared.store && EntryOk(s, challenge)
    requires s'.issues == s.issues && s'.shared.store == s.shared.store - {challenge}
    requires s'.grants == s.grants[id := Grant(LatestIssue(s.issues, challenge), s.now)] && id !in s.grants
    requires c in s'.shared.store && EntryOk(s, c)
    ensures EntryOk(s', c)
  {
    var i := LatestIssue(s.issues, c);
    assert s.issues[i].challenge == c;
    assert i != LatestIssue(s.issues, challenge);
  }

  lemma ChallengeInvGrant(cfg: Config, s: State, id: nat, s': State)
    requires ChallengeInv(cfg, s) && id in s.enrolments && s.enrolments[id].phase.Arrived?
    requires id in s'.enrolments && !s'.enrolments[id].phase.Arrived? && s'.enrolments[id].req == s.enrolments[id].req
    requires forall k :: k in s.enrolments && k != id ==> k in s'.enrolments && s'.enrolments[k] == s.enrolments[k]
    requires s'.issues == s.issues && s'.now == s.now && Grants(cfg, s, id, s')
    ensures ChallengeInv(cfg, s')
  {
    var challenge := Base64.EncodeToString(Admit(cfg, s.enrolments[id].req).value.challenge);
    var issue := LatestIssue(s.issues, challenge);
    assert EntryOk(s, challenge);
    forall k | k in s.grants
      ensures k != id && s.grants[k].issue != issue
    {
      assert GrantOk(cfg, s, k);
      assert s.grants[k].issue == issue ==> Used(s, issue);
    }
    forall c | c in s'.shared.store
      ensures EntryOk(s', c)
    {
      GrantKeepsEntries(s, s', id, challenge, c);
    }
    forall k | k in s'.grants
      ensures GrantOk(cfg, s', k)
    {
      assert k == id || GrantOk(cfg, s, k);
    }
  }

  /** Steps that leave issues, grants and requests alone, and at most shrink the store. */
  lemma ChallengeInvFrame(cfg: Config, s: State, s': State)
    requires ChallengeInv(cfg, s)
    requires s'.issues == s.issues && s'.grants == s.grants && s.now <= s'.now
    requires forall c :: c in s'.shared.store ==> c in s.shared.store && s'.shared.store[c] == s.shared.store[c]
    requires forall id :: id in s.enrolments ==>
               id in s'.enrolments && s'.enrolments[id].req == s.enrolments[id].req
               && (!s.enrolments[id].phase.Arrived? ==> !s'.enrolments[id].phase.Arrived?)
    ensures ChallengeInv(cfg, s')
  {
    forall c | c in s'.shared.store
      ensures EntryOk(s', c)
    {
      assert EntryOk(s, c);
      assert Used(s', LatestIssue(s.issues, c)) ==> Used(s, LatestIssue(s.issues, c));
    }
    forall id | id in s'.grants
      ensures GrantOk(cfg, s', id)
    {
      assert GrantOk(cfg, s, id);
    }
  }

  lemma ChallengeInvStep(cfg: Config, s: State, a: Action)
    requires ChallengeInv(cfg, s) && Enabled(s, a)
    ensures ChallengeInv(cfg, Apply(cfg, s, a))
  {
    match a
    case IssueChallenge(random, expiresAt) => ChallengeInvIssue(cfg, s, random, expiresAt);
    case StepEnrolment(id, env) =>
      if s.enrolments[id].phase.Arrived? {
        TakeGrantsOrShrinks(cfg, s, id, env);
        if Grants(cfg, s, id, Apply(cfg, s, a)) {
          ChallengeInvGrant(cfg, s, id, Apply(cfg, s, a));
        } else {
          ChallengeInvFrame(cfg, s, Apply(cfg, s, a));
        }
      } else {
        NoChallengeTouched(cfg, s, id, env);
        ChallengeInvFrame(cfg, s, Apply(cfg, s, a));
      }
    case _ => ChallengeInvFrame(cfg, s, Apply(cfg, s, a));
  }

  lemma NoChallengeTouched(cfg: Config, s: State, id: nat, env: Env)
    requires Enabled(s, StepEnrolment(id, env)) && !s.enrolments[id].phase.Arrived?
    ensures var s' := Apply(cfg, s, StepEnrolment(id, env));
            s'.grants == s.grants && s'.shared.store == s.shared.store && !s'.enrolments[id].phase.Arrived?
  {
  }
}
