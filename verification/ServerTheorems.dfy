/** What holds over whole runs of the backend. */
module ServerTheorems {
  import opened Prelude
  import opened Attestation
  import opened DeviceRepo
  import opened Middleware
  import opened EnrollHandler
  import opened Server
  import opened ServerInvariants
  import Base64
  import V = Verifier
  import VM = VerifierMeaning

  // ------------------------------------------------ enrolments and challenges

  /** The requests that have written a record to the registry. */
  function Enrolled(s: State): set<nat> {
    set id | id in s.enrolments && Written(s.enrolments[id].phase)
  }

  /** Distinct small numbers are few. */
  lemma {:induction false} InjectionBound(ids: set<nat>, f: map<nat, int>, bound: nat)
    requires forall id :: id in ids ==> id in f && 0 <= f[id] < bound
    requires forall a, b :: a in ids && b in ids && f[a] == f[b] ==> a == b
    ensures |ids| <= bound
  {
    if bound == 0 {
      assert forall id :: id !in ids;
      assert ids == {};
    } else if top :| top in ids && f[top] == bound - 1 {
      InjectionBound(ids - {top}, f, bound - 1);
      assert |ids - {top}| == |ids| - 1;
    } else {
      InjectionBound(ids, f, bound - 1);
    }
  }

  /** The request used up an issue of the challenge its chain attests, before it expired. */
  ghost predicate UsedUpItsIssue(s: State, id: nat)
    requires id in Enrolled(s)
  {
    && id in s.grants && 0 <= s.grants[id].issue < |s.issues|
    && s.grants[id].at < s.issues[s.grants[id].issue].expiresAt
    && var challenge := s.enrolments[id].phase.adm.challenge;
      challenge != [] && s.issues[s.grants[id].issue].challenge == Base64.EncodeToString(challenge)
  }

  lemma EnrolledUsedUp(cfg: Config, s: State, id: nat)
    requires Inv(cfg, s) && !cfg.policy.allowEmptyAttestation && id in Enrolled(s)
    ensures UsedUpItsIssue(s, id)
  {
    assert EnrolmentOk(cfg, s, id);
    assert GrantOk(cfg, s, id);
  }

  /** Without a development bypass, each enrolment used up an issue of exactly the challenge its
      chain attests, before that issue expired; no two enrolments share an issue, so there are
      never more enrolments than issued challenges. */
  lemma EnrolmentsMatchIssues(cfg: Config, states: seq<State>, actions: seq<Action>, n: nat)
    requires IsRun(cfg, states, actions) && n < |states| && !cfg.policy.allowEmptyAttestation
    ensures var s := states[n];
            && (forall id :: id in Enrolled(s) ==> UsedUpItsIssue(s, id))
            && (forall a, b :: a in Enrolled(s) && b in Enrolled(s) && s.grants[a].issue == s.grants[b].issue ==>
                  a == b)
            && |Enrolled(s)| <= |s.issues|
  {
    InvAlongRun(cfg, states, actions, n);
    var s := states[n];
    forall id | id in Enrolled(s)
      ensures UsedUpItsIssue(s, id)
    {
      EnrolledUsedUp(cfg, s, id);
    }
    InjectionBound(Enrolled(s), map id | id in s.grants :: s.grants[id].issue, |s.issues|);
  }

  /** The grant is for the latest issue of its challenge, which the step from `s` to `s'` took
      out of the store. */
  ghost predicate Took(s: State, s': State, grant: Grant) {
    && grant.at == s.now && 0 <= grant.issue < |s.issues|
    && var challenge := s.issues[grant.issue].challenge;
      && grant.issue == LatestIssue(s.issues, challenge)
      && challenge in s.shared.store && challenge !in s'.shared.store
  }

  /** Step `m` of the run is the one in which request `id` took its challenge out of the store. */
  ghost predicate TookAt(states: seq<State>, actions: seq<Action>, m: int, id: nat, grant: Grant)
    requires |states| == |actions| + 1
  {
    && 0 <= m < |actions| && actions[m].StepEnrolment? && actions[m].id == id
    && Took(states[m], states[m + 1], grant)
  }

  /** A grant that a step adds or changes is taken in that step. */
  lemma GrantIsTaken(cfg: Config, s: State, a: Action, id: nat)
    requires Enabled(s, a) && ChallengeInv(cfg, s) && id in Apply(cfg, s, a).grants
    requires id in s.grants ==> s.grants[id] != Apply(cfg, s, a).grants[id]
    ensures a.StepEnrolment? && a.id == id && Took(s, Apply(cfg, s, a), Apply(cfg, s, a).grants[id])
  {
    if a.StepEnrolment? && s.enrolments[a.id].phase.Arrived? {
      TakeGrantsOrShrinks(cfg, s, a.id, a.env);
      var challenge := Base64.EncodeToString(Admit(cfg, s.enrolments[a.id].req).value.challenge);
      assert EntryOk(s, challenge);
    }
  }

  /** A grant is not bookkeeping alone: at its time the request found the latest issue of its
      challenge in the store and removed it. */
  lemma {:induction false} GrantsHappened(cfg: Config, states: seq<State>, actions: seq<Action>, n: nat, id: nat)
    requires IsRun(cfg, states, actions) && n < |states| && id in states[n].grants
    ensures exists m :: m < n && TookAt(states, actions, m, id, states[n].grants[id])
  {
    if n > 0 {
      var m := n - 1;
      assert Leads(cfg, states, actions, m);
      if id in states[m].grants && states[m].grants[id] == states[n].grants[id] {
        GrantsHappened(cfg, states, actions, m, id);
      } else {
        InvAlongRun(cfg, states, actions, m);
        GrantIsTaken(cfg, states[m], actions[m], id);
        assert TookAt(states, actions, m, id, states[n].grants[id]);
      }
    }
  }

  // --------------------------------------------------------- registry provenance

  /** The recorded name is that of the level in the key description of the request's leaf, which also holds
      the request's challenge. */
  ghost predicate RecordsLevel(cfg: Config, adm: Admitted, name: string) {
    && |adm.chainDER| > 0 && cfg.pki.parseCertificate(adm.chainDER[0]).Some?
    && exists kd :: VM.Describes(cfg.pki, cfg.pki.parseCertificate(adm.chainDER[0]).value, kd)
         && kd.attestationChallenge == adm.challenge && kd.attestationSecurityLevel in {1, 2}
         && (name == "STRONGBOX" <==> kd.attestationSecurityLevel == 2)
         && (name == "TEE" <==> kd.attestationSecurityLevel == 1)
  }

  lemma LevelRecorded(cfg: Config, s: State, id: nat, adm: Admitted, level: int)
    requires AttestedInTime(cfg, s, id, adm, level)
    ensures RecordsLevel(cfg, adm, LevelString(level))
  {
    var t :| V.Attests(cfg.pki, adm.chainDER, adm.csr.key, adm.challenge, level, t) && t <= s.now;
    var kd := V.JudgedDescription(cfg.pki, adm.chainDER).value;
    VM.JudgedIsDescribed(cfg.pki, adm.chainDER, kd);
    VM.ExtractedExactly(cfg.pki, adm.chainDER, adm.challenge);
    var leaf := cfg.pki.parseCertificate(adm.chainDER[0]).value;
    var k :| VM.FirstExtension(leaf.extensions, k)
             && cfg.pki.parseKeyDescription(leaf.extensions[k].value).Some?
             && cfg.pki.parseKeyDescription(leaf.extensions[k].value).value.attestationChallenge == adm.challenge;
    assert forall j :: VM.FirstExtension(leaf.extensions, j) ==> j == k;
    LevelNames(level);
  }

  /** Where a registry record comes from: a request whose chain, verified while it was served,
      attests the key whose fingerprint is the identity, at a hardware level, and a certificate
      over that same key. */
  ghost predicate Provenance(cfg: Config, s: State, record: DeviceRecord, id: nat) {
    && id in s.enrolments && Written(s.enrolments[id].phase)
    && var phase := s.enrolments[id].phase;
      && record.identity == phase.cert.commonName && record.certSerial == phase.cert.serial
      && PublicKeyFingerprint(cfg.pki, phase.cert.key) == Some(record.identity)
      && record.certSerial in s.minted && s.minted[record.certSerial] == Minted(id, phase.cert)
      && RecordsLevel(cfg, phase.adm, record.hardwareSecurityLevel)
      && record.deviceLabel == s.enrolments[id].req.deviceId && AllowedLabel(record.deviceLabel)
      && phase.cert.key == phase.adm.csr.key && phase.adm.challenge != []
      && AttestedInTime(cfg, s, id, phase.adm, phase.level)
  }

  /** Under a strict policy every record of every reachable registry has such a provenance. */
  lemma RegistryProvenance(cfg: Config, states: seq<State>, actions: seq<Action>, n: nat, identity: string)
    requires IsRun(cfg, states, actions) && n < |states| && V.Strict(cfg.policy)
    requires identity in states[n].shared.repo.devices
    ensures states[n].shared.repo.devices[identity].identity == identity
    ensures states[n].shared.repo.devices[identity].hardwareSecurityLevel in {"TEE", "STRONGBOX"}
    ensures exists id :: Provenance(cfg, states[n], states[n].shared.repo.devices[identity], id)
  {
    InvAlongRun(cfg, states, actions, n);
    var s := states[n];
    var id := RecordHasWriter(cfg, s, identity);
    LevelRecorded(cfg, s, id, s.enrolments[id].phase.adm, s.enrolments[id].phase.level);
    assert Provenance(cfg, s, s.shared.repo.devices[identity], id);
  }

  /** A request whose CSR has no usable key is never vetted in any run, although the comparison
      with the leaf is skipped for it. */
  lemma KeylessCsrRefused(cfg: Config, states: seq<State>, actions: seq<Action>, n: nat, id: nat)
    requires IsRun(cfg, states, actions) && n < |states| && id in states[n].enrolments
    requires Admit(cfg, states[n].enrolments[id].req).Ok?
    requires Admit(cfg, states[n].enrolments[id].req).value.csr.key.None?
    ensures var phase := states[n].enrolments[id].phase;
            phase.Arrived? || phase.Consumed? || phase.Refused?
  {
    InvAlongRun(cfg, states, actions, n);
    assert EnrolmentOk(cfg, states[n], id);
  }

  // ------------------------------------------------------ no untracked certificate

  ghost predicate Tracked(s: State, serial: Serial) {
    || serial in s.shared.repo.revokedSerials
    || exists k :: 0 <= k < |s.written| && s.written[k].record.certSerial == serial
  }

  /** Registry writes may fail: still, once no enrolment is in flight every serial ever signed
      was registered or is revoked, and a certificate is returned only after it was registered
      under the identity it names. */
  lemma NoUntrackedCertificate(cfg: Config, states: seq<State>, actions: seq<Action>, n: nat)
    requires IsRun(cfg, states, actions) && n < |states|
    ensures (forall id :: id in states[n].enrolments ==> Final(states[n].enrolments[id].phase)) ==>
              forall serial :: serial in states[n].minted ==> Tracked(states[n], serial)
    ensures forall id :: id in states[n].enrolments && states[n].enrolments[id].phase.Responded? ==>
              exists k :: 0 <= k < |states[n].written| && states[n].written[k].request == id
                && states[n].written[k].record.certSerial == states[n].enrolments[id].phase.cert.serial
                && states[n].written[k].record.identity == states[n].enrolments[id].phase.cert.commonName
  {
    InvAlongRun(cfg, states, actions, n);
    var s := states[n];
    forall id | id in s.enrolments && s.enrolments[id].phase.Responded?
      ensures exists k :: 0 <= k < |s.written| && s.written[k].request == id
                && s.written[k].record.certSerial == s.enrolments[id].phase.cert.serial
                && s.written[k].record.identity == s.enrolments[id].phase.cert.commonName
    {
      assert EnrolmentOk(cfg, s, id);
      var k :| 0 <= k < |s.written| && s.written[k].request == id;
      assert WriteOk(s, k);
    }
    if forall id :: id in s.enrolments ==> Final(s.enrolments[id].phase) {
      forall serial | serial in s.minted
        ensures Tracked(s, serial)
      {
        assert MintedOk(s, serial);
      }
    }
  }

  /** A certificate on record was valid from the start, names its identity in both places, and is
      filed under its own serial; it expires one lifetime after it was signed. */
  ghost predicate WellIssued(cfg: Config, s: State, serial: Serial)
    requires serial in s.minted
  {
    var cert := s.minted[serial].cert;
    && cert.serial == serial && cert.uris == [URN_PREFIX + cert.commonName]
    && cert.notBefore + 60 <= s.now && cert.notAfter == cert.notBefore + 60 + cfg.clientCertTTL
  }

  lemma WellIssuedStep(cfg: Config, s: State, a: Action, serial: Serial)
    requires Enabled(s, a) && serial in Apply(cfg, s, a).minted
    requires serial in s.minted ==> WellIssued(cfg, s, serial)
    ensures WellIssued(cfg, Apply(cfg, s, a), serial)
  {
    if a.StepEnrolment? && s.enrolments[a.id].phase.Cleared? {
      assert Apply(cfg, s, a).minted == s.minted || a.env.serial.Some?;
    }
  }

  lemma {:induction false} MintedInTime(cfg: Config, states: seq<State>, actions: seq<Action>, n: nat, serial: Serial)
    requires IsRun(cfg, states, actions) && n < |states| && serial in states[n].minted
    ensures WellIssued(cfg, states[n], serial)
  {
    if n > 0 {
      assert Leads(cfg, states, actions, n - 1);
      if serial in states[n - 1].minted {
        MintedInTime(cfg, states, actions, n - 1, serial);
      }
      WellIssuedStep(cfg, states[n - 1], actions[n - 1], serial);
    }
  }

  /** An answered certificate passes the TLS layer from then on until it expires. */
  lemma AnsweredPassesTls(cfg: Config, states: seq<State>, actions: seq<Action>, n: nat, id: nat)
    requires IsRun(cfg, states, actions) && n < |states|
    requires id in states[n].enrolments && states[n].enrolments[id].phase.Responded?
    ensures var cert := states[n].enrolments[id].phase.cert;
            TlsAccepts(states[n], Some(cert)) <==> states[n].now <= cert.notAfter
  {
    InvAlongRun(cfg, states, actions, n);
    AnsweredIsMinted(cfg, states[n], id);
    MintedInTime(cfg, states, actions, n, states[n].enrolments[id].phase.cert.serial);
  }

  // ---------------------------------------------------------------- pings in a run

  /** Request `id` is being served in state `m`. */
  ghost predicate Serving(states: seq<State>, m: int, id: nat) {
    0 <= m < |states| && id in states[m].pings && !states[m].pings[id].stage.Done?
  }

  function Repo(states: seq<State>, m: int): Registry
    requires 0 <= m < |states|
  {
    states[m].shared.repo
  }

  /** The three reads met the registries of states `i`, `j` and `k`, and the verdict was given
      in the step after state `k`. */
  ghost predicate Reads(states: seq<State>, i: int, j: int, k: int, id: nat, p: Ping, verdict: Verdict) {
    && i <= j <= k < |states| - 1 && Serving(states, i, id) && Serving(states, j, id) && Serving(states, k, id)
    && id in states[k + 1].pings && states[k + 1].pings[id].stage.Done?
    && verdict == StagedVerdict(p.identity, p.serial, Repo(states, i), Repo(states, j), Repo(states, k))
  }

  ghost predicate ReadOne(states: seq<State>, i: int, n: int, id: nat, identity: string, record: DeviceRecord) {
    i < n && Serving(states, i, id) && Find(Repo(states, i), identity) == Some(record)
  }

  ghost predicate ReadTwo(states: seq<State>, i: int, j: int, n: int, id: nat, identity: string, record: DeviceRecord) {
    && i <= j < n && ReadOne(states, i, n, id, identity, record)
    && Serving(states, j, id) && Active(Repo(states, j), identity)
  }

  ghost predicate Traced(states: seq<State>, n: nat, id: nat)
    requires n < |states| && id in states[n].pings
  {
    var p := states[n].pings[id];
    match p.stage
    case NoRead => true
    case GotRecord(record) => exists i :: ReadOne(states, i, n, id, p.identity, record)
    case WasActive(record) => exists i, j :: ReadTwo(states, i, j, n, id, p.identity, record)
    case Done(verdict) => p.identity == "" || exists i, j, k :: k < n && Reads(states, i, j, k, id, p, verdict)
  }

  /** The reads a ping has made so far are reads of states of the run in which it was served. */
  lemma {:induction false} PingTraced(cfg: Config, states: seq<State>, actions: seq<Action>, n: nat, id: nat)
    requires IsRun(cfg, states, actions) && n < |states| && id in states[n].pings
    ensures Traced(states, n, id)
  {
    if n > 0 {
      var m := n - 1;
      assert Leads(cfg, states, actions, m);
      if id in states[m].pings {
        PingTraced(cfg, states, actions, m, id);
        if states[n].pings[id] == states[m].pings[id] {
          TraceExtends(states, m, id);
        } else {
          TraceAdvances(cfg, states, actions, m, id);
        }
      }
    }
  }

  lemma TraceExtends(states: seq<State>, m: nat, id: nat)
    requires m + 1 < |states| && id in states[m].pings && Traced(states, m, id)
    requires id in states[m + 1].pings && states[m + 1].pings[id] == states[m].pings[id]
    ensures Traced(states, m + 1, id)
  {
    var p := states[m].pings[id];
    match p.stage
    case NoRead =>
    case GotRecord(record) =>
      var i :| ReadOne(states, i, m, id, p.identity, record);
      assert ReadOne(states, i, m + 1, id, p.identity, record);
    case WasActive(record) =>
      var i, j :| ReadTwo(states, i, j, m, id, p.identity, record);
      assert ReadTwo(states, i, j, m + 1, id, p.identity, record);
    case Done(verdict) =>
  }

  lemma TraceAdvances(cfg: Config, states: seq<State>, actions: seq<Action>, m: nat, id: nat)
    requires IsRun(cfg, states, actions) && m < |actions| && actions[m] == StepPing(id)
    requires id in states[m].pings && Traced(states, m, id)
    ensures id in states[m + 1].pings && Traced(states, m + 1, id)
  {
    assert Leads(cfg, states, actions, m);
    var p, p' := states[m].pings[id], states[m + 1].pings[id];
    match p.stage
    case NoRead =>
      var record := Find(Repo(states, m), p.identity);
      if record.None? {
        assert Reads(states, m, m, m, id, p', UnauthorizedOrRevoked);
      } else {
        assert ReadOne(states, m, m + 1, id, p.identity, record.value);
      }
    case GotRecord(record) =>
      var i :| ReadOne(states, i, m, id, p.identity, record);
      if Active(Repo(states, m), p.identity) {
        assert ReadTwo(states, i, m, m + 1, id, p.identity, record);
      } else {
        assert Reads(states, i, m, m, id, p', UnauthorizedOrRevoked);
      }
    case WasActive(record) =>
      var i, j :| ReadTwo(states, i, j, m, id, p.identity, record);
      assert Reads(states, i, j, m, id, p', states[m + 1].pings[id].stage.verdict);
  }

  function Registries(states: seq<State>): seq<Registry> {
    seq(|states|, m requires 0 <= m < |states| => Repo(states, m))
  }

  lemma RegistryProjection(cfg: Config, states: seq<State>, actions: seq<Action>) returns (run: seq<Registry>)
    requires IsRun(cfg, states, actions)
    ensures |run| == |states| && RegistryRun(run) && run == Registries(states)
    ensures forall m :: 0 <= m < |states| ==> run[m] == Repo(states, m) && Coherent(run[m])
  {
    run := Registries(states);
    forall m | 0 <= m < |run| - 1
      ensures StepAt(run, m)
    {
      assert Leads(cfg, states, actions, m);
      RegistryStep(cfg, states[m], actions[m]);
    }
    forall m | 0 <= m < |states|
      ensures Coherent(run[m])
    {
      InvAlongRun(cfg, states, actions, m);
    }
  }

  /** In every run of the whole backend, the outcome of a ping whose certificate is bound to an
      identity is the outcome of one look at the registry while the ping was being served. */
  lemma PingLinearizable(cfg: Config, states: seq<State>, actions: seq<Action>, n: nat, id: nat)
    requires IsRun(cfg, states, actions) && n < |states| && id in states[n].pings
    requires states[n].pings[id].stage.Done? && states[n].pings[id].identity != ""
    ensures var p := states[n].pings[id];
            exists m :: m < n && Serving(states, m, id)
              && (p.stage.verdict.Accepted? <==> Authorized(p.identity, p.serial, Repo(states, m)))
  {
    PingTraced(cfg, states, actions, n, id);
    var p := states[n].pings[id];
    var i, j, k :| k < n && Reads(states, i, j, k, id, p, p.stage.verdict);
    var run := RegistryProjection(cfg, states, actions);
    OutcomeLinearizable(run, i, j, k, p.identity, p.serial);
    if p.stage.verdict.Accepted? {
      assert Serving(states, i, id);
    } else {
      var m :| m in {i, j, k} && !Authorized(p.identity, p.serial, run[m]);
      assert Serving(states, m, id);
    }
  }

  // ------------------------------------------------------- permanence of revocation

  /** What every later state keeps of an earlier one: registered identities, revoked serials,
      what a ping presented and the verdict it got, and how a finished enrolment ended. */
  ghost predicate Persists(s: State, s': State) {
    && Keeps(s.shared.repo, s'.shared.repo) && s.now <= s'.now
    && (forall id :: id in s.pings ==>
          && id in s'.pings
          && s'.pings[id] == s.pings[id].(stage := s'.pings[id].stage)
          && (s.pings[id].stage.Done? ==> s'.pings[id] == s.pings[id]))
    && (forall id :: id in s.enrolments && Final(s.enrolments[id].phase) ==>
          id in s'.enrolments && s'.enrolments[id] == s.enrolments[id])
  }

  lemma PersistsStep(cfg: Config, s: State, a: Action)
    requires Enabled(s, a) && Coherent(s.shared.repo)
    ensures Persists(s, Apply(cfg, s, a))
  {
    CoherentStep(cfg, s, a);
  }

  lemma PersistsTrans(a: State, b: State, c: State)
    requires Persists(a, b) && Persists(b, c)
    ensures Persists(a, c)
  {
  }

  lemma {:induction false} RunKeepsState(cfg: Config, states: seq<State>, actions: seq<Action>, i: nat, j: nat)
    requires IsRun(cfg, states, actions) && i <= j < |states|
    ensures Persists(states[i], states[j])
    decreases j
  {
    if i < j {
      RunKeepsState(cfg, states, actions, i, j - 1);
      InvAlongRun(cfg, states, actions, j - 1);
      assert Leads(cfg, states, actions, j - 1);
      PersistsStep(cfg, states[j - 1], actions[j - 1]);
      PersistsTrans(states[i], states[j - 1], states[j]);
    }
  }

  /** A ping that gets to the registry presented a certificate on record, over a key whose fingerprint is
      the identity it is served under. */
  ghost predicate Bound(cfg: Config, s: State, p: Ping) {
    && p.serial in s.minted && s.minted[p.serial].cert.serial == p.serial
    && Claims(s.minted[p.serial].cert, p.identity)
    && PublicKeyFingerprint(cfg.pki, s.minted[p.serial].cert.key) == Some(p.identity)
  }

  lemma BoundStep(cfg: Config, s: State, a: Action, id: nat)
    requires Enabled(s, a) && id in Apply(cfg, s, a).pings && Apply(cfg, s, a).pings[id].identity != ""
    requires id in s.pings && s.pings[id].identity != "" ==> Bound(cfg, s, s.pings[id])
    ensures Bound(cfg, Apply(cfg, s, a), Apply(cfg, s, a).pings[id])
  {
    if a.ArrivePing? && a.id == id {
      BoundExactly(cfg.pki, a.peer);
    } else if a.StepEnrolment? {
      MintedGrows(cfg, s, a.id, a.env);
    }
  }

  lemma MintedGrows(cfg: Config, s: State, id: nat, env: Env)
    requires Enabled(s, StepEnrolment(id, env))
    ensures var s' := Apply(cfg, s, StepEnrolment(id, env));
            s'.pings == s.pings && forall n :: n in s.minted ==> n in s'.minted && s'.minted[n] == s.minted[n]
  {
    if s.enrolments[id].phase.Cleared? {
      SigningIsFresh(cfg, s, id, env);
    } else {
      OnlySigningMints(cfg, s, id, env);
    }
  }

  lemma {:induction false} PingIsBound(cfg: Config, states: seq<State>, actions: seq<Action>, n: nat, id: nat)
    requires IsRun(cfg, states, actions) && n < |states| && id in states[n].pings && states[n].pings[id].identity != ""
    ensures Bound(cfg, states[n], states[n].pings[id])
  {
    if n > 0 {
      assert Leads(cfg, states, actions, n - 1);
      if id in states[n - 1].pings && states[n - 1].pings[id].identity != "" {
        PingIsBound(cfg, states, actions, n - 1, id);
      }
      BoundStep(cfg, states[n - 1], actions[n - 1], id);
    }
  }

  // -------------------------------------------------------- the reason a ping is given

  /** The ping is served exactly in the states from `first` to `last`, and decided in the step after. */
  ghost predicate ServedBetween(states: seq<State>, id: nat, first: nat, last: nat) {
    && first <= last < |states| - 1
    && (forall m :: 0 <= m < |states| ==> (Serving(states, m, id) <==> first <= m <= last))
    && id in states[last + 1].pings && states[last + 1].pings[id].stage.Done?
  }

  /** A ping is served from a first state on without a gap. */
  lemma ServedFrom(cfg: Config, states: seq<State>, actions: seq<Action>, last: nat, id: nat)
    returns (first: nat)
    requires IsRun(cfg, states, actions) && last < |states| - 1 && Serving(states, last, id)
    requires id in states[last + 1].pings && states[last + 1].pings[id].stage.Done?
    ensures ServedBetween(states, id, first, last)
  {
    first := last;
    while first > 0 && Serving(states, first - 1, id)
      invariant first <= last && forall m :: first <= m <= last ==> Serving(states, m, id)
    {
      first := first - 1;
    }
    forall m | 0 <= m < |states|
      ensures Serving(states, m, id) <==> first <= m <= last
    {
      if m > last {
        RunKeepsState(cfg, states, actions, last + 1, m);
      } else if m < first && Serving(states, m, id) {
        RunKeepsState(cfg, states, actions, m, first - 1);
        RunKeepsState(cfg, states, actions, first - 1, last);
      }
    }
  }

  /** In every run of the whole backend: the verdict of a ping with its reason is that of one look at
      some instant at which it was being served exactly when the reason holds in the sense of
      `ReasonHolds` over those instants. */
  lemma PingWordingExactly(cfg: Config, states: seq<State>, actions: seq<Action>, n: nat, id: nat)
    returns (first: nat, last: nat)
    requires IsRun(cfg, states, actions) && n < |states| && id in states[n].pings
    requires states[n].pings[id].stage.Done? && states[n].pings[id].identity != ""
    ensures ServedBetween(states, id, first, last) && last < n
    ensures var p := states[n].pings[id];
            SomeLookSays(p.stage.verdict, Registries(states), first, last, p.identity, p.serial)
            <==> ReasonHolds(p.stage.verdict, Registries(states), first, last, p.identity, p.serial)
  {
    PingTraced(cfg, states, actions, n, id);
    var p := states[n].pings[id];
    var i, j, k :| k < n && Reads(states, i, j, k, id, p, p.stage.verdict);
    last := k;
    first := ServedFrom(cfg, states, actions, last, id);
    var run := RegistryProjection(cfg, states, actions);
    WordingLinearizableExactly(run, first, i, j, k, p.identity, p.serial);
  }

  /** The same when only the instants of the three reads are considered. */
  lemma PingWordingAtReadsExactly(cfg: Config, states: seq<State>, actions: seq<Action>, n: nat, id: nat)
    requires IsRun(cfg, states, actions) && n < |states| && id in states[n].pings
    requires states[n].pings[id].stage.Done? && states[n].pings[id].identity != ""
    ensures var p := states[n].pings[id];
            && (exists i, j, k :: k < n && Reads(states, i, j, k, id, p, p.stage.verdict))
            && forall i, j, k :: k < n && Reads(states, i, j, k, id, p, p.stage.verdict) ==>
                 (VerdictOfOneRead(p.identity, p.serial, Repo(states, i), Repo(states, j), Repo(states, k))
                  <==> ReasonHoldsAtReads(p.identity, p.serial, Repo(states, i), Repo(states, j), Repo(states, k)))
  {
    PingTraced(cfg, states, actions, n, id);
    var p := states[n].pings[id];
    var run := RegistryProjection(cfg, states, actions);
    forall i, j, k | k < n && Reads(states, i, j, k, id, p, p.stage.verdict)
      ensures VerdictOfOneRead(p.identity, p.serial, Repo(states, i), Repo(states, j), Repo(states, k))
              <==> ReasonHoldsAtReads(p.identity, p.serial, Repo(states, i), Repo(states, j), Repo(states, k))
    {
      WordingAtReadsExactly(run, i, j, k, p.identity, p.serial);
    }
  }

  /** The step that decides a ping is its own, and leaves the registry alone. */
  lemma DecidingStep(cfg: Config, states: seq<State>, actions: seq<Action>, m: nat, id: nat)
    requires IsRun(cfg, states, actions) && m < |actions| && Serving(states, m, id)
    requires id in states[m + 1].pings && states[m + 1].pings[id].stage.Done?
    ensures actions[m] == StepPing(id) && Repo(states, m + 1) == Repo(states, m)
  {
    assert Leads(cfg, states, actions, m);
  }

  /** A ping that arrived after state `t` and has its verdict in state `n` got it in a step in between. */
  lemma DecisionOf(cfg: Config, states: seq<State>, actions: seq<Action>, t: nat, n: nat, id: nat)
    returns (m: nat)
    requires IsRun(cfg, states, actions) && t < n < |states| && id !in states[t].pings
    requires id in states[n].pings && states[n].pings[id].stage.Done? && states[n].pings[id].identity != ""
    ensures t < m < n && Serving(states, m, id) && id in states[m + 1].pings
    ensures states[m + 1].pings[id] == states[n].pings[id]
  {
    var first, last := PingWordingExactly(cfg, states, actions, n, id);
    assert Serving(states, last, id);
    if last <= t {
      RunKeepsState(cfg, states, actions, last, t);
    }
    RunKeepsState(cfg, states, actions, last + 1, n);
    m := last;
  }

  // -------------------------------------------------------- pings after a revocation

  /** Once a serial is revoked, no ping presenting it that has not yet had its verdict is
      accepted, for every interleaving. */
  lemma RevokedSerialStaysOut(cfg: Config, states: seq<State>, actions: seq<Action>, t: nat, n: nat, id: nat)
    requires IsRun(cfg, states, actions) && t <= n < |states|
    requires id in states[n].pings && states[n].pings[id].serial in Repo(states, t).revokedSerials
    requires id in states[t].pings ==> !states[t].pings[id].stage.Done?
    requires states[n].pings[id].stage.Done?
    ensures !states[n].pings[id].stage.verdict.Accepted?
  {
    var p := states[n].pings[id];
    PingTraced(cfg, states, actions, n, id);
    if p.identity == "" {
      UnboundRefused(cfg, states, actions, n, id);
    } else {
      var i, j, k :| k < n && Reads(states, i, j, k, id, p, p.stage.verdict);
      if k < t {
        RunKeepsState(cfg, states, actions, k + 1, t);
      } else {
        RunKeepsState(cfg, states, actions, t, k);
      }
    }
  }

  lemma {:induction false} UnboundRefused(cfg: Config, states: seq<State>, actions: seq<Action>, n: nat, id: nat)
    requires IsRun(cfg, states, actions) && n < |states| && id in states[n].pings && states[n].pings[id].identity == ""
    ensures states[n].pings[id].stage.Done? && !states[n].pings[id].stage.verdict.Accepted?
  {
    if n > 0 {
      assert Leads(cfg, states, actions, n - 1);
      if id in states[n - 1].pings {
        UnboundRefused(cfg, states, actions, n - 1, id);
      }
    }
  }

  ghost predicate RevokedIn(s: State, identity: string) {
    identity in s.shared.repo.devices && s.shared.repo.devices[identity].isRevoked
  }

  /** Request `id` has passed its revoked check for the identity and has not registered yet. */
  ghost predicate PassedCheck(s: State, id: nat, identity: string) {
    && id in s.enrolments
    && var phase := s.enrolments[id].phase;
       (phase.Cleared? && phase.identity == identity) || (phase.Signed? && phase.cert.commonName == identity)
  }

  /** In step `m` request `id` registers the identity. */
  ghost predicate RegistersAt(states: seq<State>, actions: seq<Action>, m: int, id: nat, identity: string)
    requires |states| == |actions| + 1
  {
    && 0 <= m < |actions| && actions[m].StepEnrolment? && actions[m].id == id && actions[m].env.writable
    && id in states[m].enrolments && states[m].enrolments[id].phase.Signed?
    && states[m].enrolments[id].phase.cert.commonName == identity
  }

  /** Some enrolment had passed its revoked check before step `t` and registered before `n`. */
  ghost predicate Straddled(states: seq<State>, actions: seq<Action>, t: int, n: int, identity: string)
    requires |states| == |actions| + 1 && 0 <= t < |states|
  {
    exists m, id :: t < m < n && RegistersAt(states, actions, m, id, identity) && PassedCheck(states[t], id, identity)
  }

  lemma {:induction false} StaysRevoked(cfg: Config, states: seq<State>, actions: seq<Action>, t: nat, n: nat,
                                        identity: string)
    requires IsRun(cfg, states, actions) && t < n < |states|
    requires actions[t] == RevokeDevice(identity) && identity in Repo(states, t).devices
    requires !Straddled(states, actions, t, n, identity)
    ensures RevokedIn(states[n], identity)
    ensures forall id :: PassedCheck(states[n], id, identity) ==> PassedCheck(states[t], id, identity)
    decreases n
  {
    var m := n - 1;
    assert Leads(cfg, states, actions, m);
    if m > t {
      StaysRevoked(cfg, states, actions, t, m, identity);
      if actions[m].StepEnrolment? {
        var id := actions[m].id;
        assert RegistersAt(states, actions, m, id, identity) ==> PassedCheck(states[m], id, identity);
        RevokedSurvivesStep(cfg, states[m], id, actions[m].env, identity);
      }
    }
  }

  /** An enrolment step that does not register a revoked identity leaves it revoked, and lets no
      further request past the check for it. */
  lemma RevokedSurvivesStep(cfg: Config, s: State, id: nat, env: Env, identity: string)
    requires Enabled(s, StepEnrolment(id, env)) && RevokedIn(s, identity)
    requires !(env.writable && s.enrolments[id].phase.Signed? && s.enrolments[id].phase.cert.commonName == identity)
    ensures var s' := Apply(cfg, s, StepEnrolment(id, env));
            RevokedIn(s', identity) && forall k :: PassedCheck(s', k, identity) ==> PassedCheck(s, k, identity)
  {
  }

  /** A revoked identity stays revoked in every later state exactly when no enrolment of it
      straddles the revocation. */
  lemma RevocationPermanentExactly(cfg: Config, states: seq<State>, actions: seq<Action>, t: nat, n: nat,
                                   identity: string)
    requires IsRun(cfg, states, actions) && t < n < |states|
    requires actions[t] == RevokeDevice(identity) && identity in Repo(states, t).devices
    ensures (forall m :: t < m <= n ==> RevokedIn(states[m], identity)) <==> !Straddled(states, actions, t, n, identity)
  {
    if !Straddled(states, actions, t, n, identity) {
      forall m | t < m <= n
        ensures RevokedIn(states[m], identity)
      {
        assert !Straddled(states, actions, t, m, identity);
        StaysRevoked(cfg, states, actions, t, m, identity);
      }
    } else {
      var m, id :| t < m < n && RegistersAt(states, actions, m, id, identity) && PassedCheck(states[t], id, identity);
      assert Leads(cfg, states, actions, m);
      assert !RevokedIn(states[m + 1], identity);
    }
  }

  /** Once an identity is revoked and no enrolment of it straddles the revocation, no later ping
      for it is accepted. */
  lemma RevokedIdentityStaysOut(cfg: Config, states: seq<State>, actions: seq<Action>, t: nat, n: nat,
                                identity: string, id: nat)
    requires IsRun(cfg, states, actions) && t < n < |states|
    requires actions[t] == RevokeDevice(identity) && identity in Repo(states, t).devices
    requires !Straddled(states, actions, t, n, identity)
    requires id !in states[t].pings && id in states[n].pings && states[n].pings[id].identity == identity
    requires states[n].pings[id].stage.Done?
    ensures !states[n].pings[id].stage.verdict.Accepted?
  {
    if identity == "" {
      UnboundRefused(cfg, states, actions, n, id);
    } else {
      PingLinearizable(cfg, states, actions, n, id);
      var p := states[n].pings[id];
      var m :| m < n && Serving(states, m, id)
                 && (p.stage.verdict.Accepted? <==> Authorized(p.identity, p.serial, Repo(states, m)));
      if m <= t {
        RunKeepsState(cfg, states, actions, m, t);
      } else {
        RevocationPermanentExactly(cfg, states, actions, t, n, identity);
        assert RevokedIn(states[m], identity);
      }
    }
  }
}
