/** What every reachable state of the backend satisfies. */
module ServerInvariants {
  import opened Prelude
  import opened Attestation
  import opened DeviceRepo
  import opened Middleware
  import opened EnrollHandler
  import opened Server
  import V = Verifier

  /** The request was admitted, and its challenge, if it has one, was granted. */
  ghost predicate AdmittedOk(cfg: Config, s: State, id: nat, adm: Admitted)
    requires id in s.enrolments
  {
    Admit(cfg, s.enrolments[id].req) == Ok(adm) && (adm.challenge != [] ==> id in s.grants)
  }

  /** The chain verified at a time that has come, and not before the request had used up its
      challenge. */
  ghost predicate AttestedInTime(cfg: Config, s: State, id: nat, adm: Admitted, level: int) {
    exists t :: V.Attests(cfg.pki, adm.chainDER, adm.csr.key, adm.challenge, level, t) && t <= s.now
      && (adm.challenge != [] ==> id in s.grants && s.grants[id].at <= t)
  }

  /** The identity is the fingerprint of the CSR's key, and under a strict policy that key is
      the leaf key of a chain that verified during the request. */
  ghost predicate IdentityOk(cfg: Config, s: State, id: nat, adm: Admitted, identity: string, level: int) {
    && PublicKeyFingerprint(cfg.pki, adm.csr.key) == Some(identity)
    && (V.Strict(cfg.policy) ==> AttestedInTime(cfg, s, id, adm, level))
  }

  /** The certificate carries the CSR's key and its fingerprint, and is on record as minted. */
  ghost predicate CertificateOk(cfg: Config, s: State, id: nat, adm: Admitted, cert: Certificate) {
    && PublicKeyFingerprint(cfg.pki, adm.csr.key) == Some(cert.commonName)
    && cert.key == adm.csr.key
    && cert.serial in s.minted && s.minted[cert.serial] == Minted(id, cert)
  }

  ghost predicate EnrolmentOk(cfg: Config, s: State, id: nat)
    requires id in s.enrolments
  {
    match s.enrolments[id].phase
    case Arrived => true
    case Refused(_) => true
    case Consumed(adm) => AdmittedOk(cfg, s, id, adm)
    case Vetted(adm, identity, level) => AdmittedOk(cfg, s, id, adm) && IdentityOk(cfg, s, id, adm, identity, level)
    case Cleared(adm, identity, level) => AdmittedOk(cfg, s, id, adm) && IdentityOk(cfg, s, id, adm, identity, level)
    case RegisterFailed(adm, cert) => AdmittedOk(cfg, s, id, adm) && CertificateOk(cfg, s, id, adm, cert)
    case Signed(adm, level, cert) =>
      && AdmittedOk(cfg, s, id, adm) && CertificateOk(cfg, s, id, adm, cert)
      && IdentityOk(cfg, s, id, adm, cert.commonName, level)
    case Recorded(adm, level, cert) =>
      && AdmittedOk(cfg, s, id, adm) && CertificateOk(cfg, s, id, adm, cert)
      && IdentityOk(cfg, s, id, adm, cert.commonName, level) && HasWrite(s, id)
    case Responded(adm, level, cert) =>
      && AdmittedOk(cfg, s, id, adm) && CertificateOk(cfg, s, id, adm, cert)
      && IdentityOk(cfg, s, id, adm, cert.commonName, level) && HasWrite(s, id)
  }

  /** An answered certificate is named after the key it carries. */
  lemma AnsweredIsNamed(cfg: Config, s: State, id: nat)
    requires id in s.enrolments && EnrolmentOk(cfg, s, id) && s.enrolments[id].phase.Responded?
    ensures var cert := s.enrolments[id].phase.cert;
            PublicKeyFingerprint(cfg.pki, cert.key) == Some(cert.commonName)
  {
  }

  lemma AnsweredIsMinted(cfg: Config, s: State, id: nat)
    requires id in s.enrolments && EnrolmentOk(cfg, s, id) && s.enrolments[id].phase.Responded?
    ensures var cert := s.enrolments[id].phase.cert;
            cert.serial in s.minted && s.minted[cert.serial] == Minted(id, cert)
  {
  }

  ghost predicate HasWrite(s: State, id: nat) {
    exists k :: 0 <= k < |s.written| && s.written[k].request == id
  }

  /** The certificate a request has obtained, if it has come that far. */
  function CertificateOf(p: Phase): Option<Certificate> {
    if p.Signed? || p.RegisterFailed? || p.Recorded? || p.Responded? then Some(p.cert) else None
  }

  /** Every minted serial belongs to a request that still holds its certificate, or is revoked. */
  ghost predicate MintedOk(s: State, serial: Serial)
    requires serial in s.minted
  {
    var m := s.minted[serial];
    && m.cert.serial == serial && m.request in s.enrolments
    && (CertificateOf(s.enrolments[m.request].phase) == Some(m.cert)
        || (s.enrolments[m.request].phase.Refused? && serial in s.shared.repo.revokedSerials))
  }

  predicate Written(p: Phase) {
    p.Recorded? || p.Responded?
  }

  /** A write to the registry is the record of the certificate its request obtained. */
  ghost predicate WriteOk(s: State, k: int)
    requires 0 <= k < |s.written|
  {
    var w := s.written[k];
    && w.request in s.enrolments
    && var e := s.enrolments[w.request];
       Written(e.phase) && w.record == RecordFor(e.req, e.phase.level, e.phase.cert, w.record.enrolledAt)
  }

  /** Index of the last write for an identity, or -1. */
  function LatestWrite(written: seq<Write>, identity: string): (k: int)
    ensures -1 <= k < |written|
    ensures k >= 0 ==> written[k].record.identity == identity
    ensures forall j :: k < j < |written| ==> written[j].record.identity != identity
  {
    if |written| == 0 then -1
    else if written[|written| - 1].record.identity == identity then |written| - 1
    else LatestWrite(written[..|written| - 1], identity)
  }

  /** A device's record is the last one written for it, save for the revoked flag. */
  ghost predicate DeviceOk(s: State, identity: string) {
    var k := LatestWrite(s.written, identity);
    if k < 0 then identity !in s.shared.repo.devices
    else
      && identity in s.shared.repo.devices
      && s.shared.repo.devices[identity] == s.written[k].record.(isRevoked := s.shared.repo.devices[identity].isRevoked)
  }

  ghost predicate OneWriteEach(s: State) {
    forall j, k :: 0 <= j < k < |s.written| ==> s.written[j].request != s.written[k].request
  }

  ghost predicate Inv(cfg: Config, s: State) {
    && ChallengeInv(cfg, s)
    && (forall id :: id in s.enrolments ==> EnrolmentOk(cfg, s, id))
    && (forall serial :: serial in s.minted ==> MintedOk(s, serial))
    && (forall k :: 0 <= k < |s.written| ==> WriteOk(s, k))
    && OneWriteEach(s)
    && (forall identity :: DeviceOk(s, identity))
    && Coherent(s.shared.repo)
  }

  // ------------------------------------------------------------ one request moves

  /** Requests other than `id` keep their standing when histories only grow. */
  ghost predicate HistoryGrows(s: State, s': State) {
    && (forall k :: k in s.grants ==> k in s'.grants && s'.grants[k] == s.grants[k])
    && (forall n :: n in s.minted ==> n in s'.minted && s'.minted[n] == s.minted[n])
    && s.written <= s'.written && s.now <= s'.now
    && s.shared.repo.revokedSerials <= s'.shared.repo.revokedSerials
  }

  lemma EnrolmentFrame(cfg: Config, s: State, s': State, id: nat)
    requires id in s.enrolments && EnrolmentOk(cfg, s, id) && HistoryGrows(s, s')
    requires id in s'.enrolments && s'.enrolments[id] == s.enrolments[id]
    ensures EnrolmentOk(cfg, s', id)
  {
    if HasWrite(s, id) {
      var k :| 0 <= k < |s.written| && s.written[k].request == id;
      assert s'.written[k].request == id;
    }
    forall adm, level | AttestedInTime(cfg, s, id, adm, level)
      ensures AttestedInTime(cfg, s', id, adm, level)
    {
      AttestedFrame(cfg, s, s', id, adm, level);
    }
  }

  lemma AttestedFrame(cfg: Config, s: State, s': State, id: nat, adm: Admitted, level: int)
    requires AttestedInTime(cfg, s, id, adm, level) && s.now <= s'.now
    requires id in s.grants ==> id in s'.grants && s'.grants[id] == s.grants[id]
    ensures AttestedInTime(cfg, s', id, adm, level)
  {
    var t :| V.Attests(cfg.pki, adm.chainDER, adm.csr.key, adm.challenge, level, t) && t <= s.now
      && (adm.challenge != [] ==> id in s.grants && s.grants[id].at <= t);
  }

  lemma AdvanceGrowsHistory(cfg: Config, s: State, id: nat, env: Env)
    requires Enabled(s, StepEnrolment(id, env)) && Inv(cfg, s)
    ensures HistoryGrows(s, Apply(cfg, s, StepEnrolment(id, env)))
  {
    GrantsOnlyGrow(cfg, s, id, env);
    if s.enrolments[id].phase.Cleared? {
      SigningIsFresh(cfg, s, id, env);
    } else {
      OnlySigningMints(cfg, s, id, env);
    }
    RegistryGrows(cfg, s, id, env);
  }

  lemma GrantsOnlyGrow(cfg: Config, s: State, id: nat, env: Env)
    requires Enabled(s, StepEnrolment(id, env)) && ChallengeInv(cfg, s)
    ensures var s' := Apply(cfg, s, StepEnrolment(id, env));
            forall k :: k in s.grants ==> k in s'.grants && s'.grants[k] == s.grants[k]
  {
    assert id in s.grants ==> GrantOk(cfg, s, id);
    if s.enrolments[id].phase.Arrived? {
      TakeGrantsOrShrinks(cfg, s, id, env);
    } else {
      NoChallengeTouched(cfg, s, id, env);
    }
  }

  lemma SigningIsFresh(cfg: Config, s: State, id: nat, env: Env)
    requires Enabled(s, StepEnrolment(id, env)) && s.enrolments[id].phase.Cleared?
    ensures var s' := Apply(cfg, s, StepEnrolment(id, env));
            forall n :: n in s.minted ==> n in s'.minted && s'.minted[n] == s.minted[n]
  {
  }

  lemma RegistryGrows(cfg: Config, s: State, id: nat, env: Env)
    requires Enabled(s, StepEnrolment(id, env))
    ensures var s' := Apply(cfg, s, StepEnrolment(id, env));
            && s.written <= s'.written && s.now == s'.now
            && s.shared.repo.revokedSerials <= s'.shared.repo.revokedSerials
  {
  }

  lemma EarlyStepOk(cfg: Config, s: State, id: nat, env: Env)
    requires Enabled(s, StepEnrolment(id, env)) && ChallengeInv(cfg, s) && EnrolmentOk(cfg, s, id)
    requires var phase := s.enrolments[id].phase; phase.Arrived? || phase.Consumed? || phase.Vetted?
    ensures EnrolmentOk(cfg, Apply(cfg, s, StepEnrolment(id, env)), id)
  {
    var s' := Apply(cfg, s, StepEnrolment(id, env));
    if s.enrolments[id].phase.Consumed? && s'.enrolments[id].phase.Vetted? {
      VettedOk(cfg, s, id, s.enrolments[id].phase.adm, env);
    }
    if !s.enrolments[id].phase.Arrived? {
      IdentityFrame(cfg, s, s', id, env);
    }
  }

  lemma LateStepOk(cfg: Config, s: State, id: nat, env: Env)
    requires Enabled(s, StepEnrolment(id, env)) && EnrolmentOk(cfg, s, id)
    requires var phase := s.enrolments[id].phase;
             phase.Cleared? || phase.Signed? || phase.RegisterFailed? || phase.Recorded?
    ensures EnrolmentOk(cfg, Apply(cfg, s, StepEnrolment(id, env)), id)
  {
    var s' := Apply(cfg, s, StepEnrolment(id, env));
    IdentityFrame(cfg, s, s', id, env);
    if s.enrolments[id].phase.Signed? && s'.enrolments[id].phase.Recorded? {
      assert s'.written[|s.written|].request == id;
    }
  }

  lemma EnrolmentStepOk(cfg: Config, s: State, id: nat, env: Env)
    requires Enabled(s, StepEnrolment(id, env)) && Inv(cfg, s)
    ensures EnrolmentOk(cfg, Apply(cfg, s, StepEnrolment(id, env)), id)
  {
    var phase := s.enrolments[id].phase;
    assert EnrolmentOk(cfg, s, id);
    if phase.Arrived? || phase.Consumed? || phase.Vetted? {
      EarlyStepOk(cfg, s, id, env);
    } else {
      LateStepOk(cfg, s, id, env);
    }
  }

  lemma IdentityFrame(cfg: Config, s: State, s': State, id: nat, env: Env)
    requires Enabled(s, StepEnrolment(id, env)) && s' == Apply(cfg, s, StepEnrolment(id, env))
    requires !s.enrolments[id].phase.Arrived?
    ensures forall adm, identity, level :: IdentityOk(cfg, s, id, adm, identity, level) ==>
              IdentityOk(cfg, s', id, adm, identity, level)
  {
    NoChallengeTouched(cfg, s, id, env);
    forall adm, level | AttestedInTime(cfg, s, id, adm, level)
      ensures AttestedInTime(cfg, s', id, adm, level)
    {
      AttestedFrame(cfg, s, s', id, adm, level);
    }
  }

  lemma VettedOk(cfg: Config, s: State, id: nat, adm: Admitted, env: Env)
    requires Enabled(s, StepEnrolment(id, env)) && ChallengeInv(cfg, s) && AdmittedOk(cfg, s, id, adm)
    requires Vet(cfg, adm, env).Vetted?
    ensures IdentityOk(cfg, s, id, adm, Vet(cfg, adm, env).identity, Vet(cfg, adm, env).level)
  {
    if V.Strict(cfg.policy) {
      assert adm.challenge != [] ==> GrantOk(cfg, s, id);
      V.StrictAcceptanceAttests(cfg.pki, cfg.policy, env.verifiedAt, env.answers,
                                adm.chainDER, adm.challenge, adm.csr.key);
    }
  }

  lemma SigningMints(cfg: Config, s: State, id: nat, env: Env, serial: Serial)
    requires Enabled(s, StepEnrolment(id, env)) && s.enrolments[id].phase.Cleared?
    requires serial in Apply(cfg, s, StepEnrolment(id, env)).minted
    requires serial in s.minted ==> MintedOk(s, serial)
    ensures MintedOk(Apply(cfg, s, StepEnrolment(id, env)), serial)
  {
  }

  lemma OtherStepsKeepMinted(cfg: Config, s: State, id: nat, env: Env, serial: Serial)
    requires Enabled(s, StepEnrolment(id, env)) && !s.enrolments[id].phase.Cleared?
    requires serial in s.minted && MintedOk(s, serial)
    ensures MintedOk(Apply(cfg, s, StepEnrolment(id, env)), serial)
  {
  }

  lemma OnlySigningMints(cfg: Config, s: State, id: nat, env: Env)
    requires Enabled(s, StepEnrolment(id, env)) && !s.enrolments[id].phase.Cleared?
    ensures Apply(cfg, s, StepEnrolment(id, env)).minted == s.minted
  {
  }

  lemma MintedStepOk(cfg: Config, s: State, id: nat, env: Env, serial: Serial)
    requires Enabled(s, StepEnrolment(id, env)) && Inv(cfg, s)
    requires serial in Apply(cfg, s, StepEnrolment(id, env)).minted
    ensures MintedOk(Apply(cfg, s, StepEnrolment(id, env)), serial)
  {
    assert serial in s.minted ==> MintedOk(s, serial);
    if s.enrolments[id].phase.Cleared? {
      SigningMints(cfg, s, id, env, serial);
    } else {
      OnlySigningMints(cfg, s, id, env);
      OtherStepsKeepMinted(cfg, s, id, env, serial);
    }
  }

  lemma WriteStepOk(cfg: Config, s: State, id: nat, env: Env, k: int)
    requires Enabled(s, StepEnrolment(id, env)) && Inv(cfg, s)
    requires 0 <= k < |Apply(cfg, s, StepEnrolment(id, env)).written|
    ensures WriteOk(Apply(cfg, s, StepEnrolment(id, env)), k)
  {
    if k < |s.written| {
      assert WriteOk(s, k);
    }
  }

  lemma LatestWriteGrows(written: seq<Write>, added: Write, identity: string)
    ensures LatestWrite(written + [added], identity) ==
            if added.record.identity == identity then |written| else LatestWrite(written, identity)
  {
    assert (written + [added])[..|written|] == written;
  }

  /** The step writes the request's record to the registry. */
  ghost predicate Records(s: State, id: nat, env: Env)
    requires id in s.enrolments
  {
    s.enrolments[id].phase.Signed? && env.writable
  }

  lemma RecordingWrites(cfg: Config, s: State, id: nat, env: Env)
    requires Enabled(s, StepEnrolment(id, env)) && Records(s, id, env)
    ensures var s' := Apply(cfg, s, StepEnrolment(id, env));
            var phase := s.enrolments[id].phase;
            var record := RecordFor(s.enrolments[id].req, phase.level, phase.cert, env.signedAt);
            && s'.written == s.written + [Write(id, record)]
            && s'.shared.repo.devices == s.shared.repo.devices[record.identity := record]
            && !record.isRevoked
  {
  }

  lemma OtherStepsWriteNothing(cfg: Config, s: State, id: nat, env: Env)
    requires Enabled(s, StepEnrolment(id, env)) && !Records(s, id, env)
    ensures var s' := Apply(cfg, s, StepEnrolment(id, env));
            s'.written == s.written && s'.shared.repo.devices == s.shared.repo.devices
  {
  }

  lemma DeviceStepOk(cfg: Config, s: State, id: nat, env: Env, identity: string)
    requires Enabled(s, StepEnrolment(id, env)) && Inv(cfg, s)
    ensures DeviceOk(Apply(cfg, s, StepEnrolment(id, env)), identity)
  {
    assert DeviceOk(s, identity);
    if Records(s, id, env) {
      RecordingWrites(cfg, s, id, env);
      var phase := s.enrolments[id].phase;
      var record := RecordFor(s.enrolments[id].req, phase.level, phase.cert, env.signedAt);
      LatestWriteGrows(s.written, Write(id, record), identity);
    } else {
      OtherStepsWriteNothing(cfg, s, id, env);
    }
  }

  lemma OneWriteStepOk(cfg: Config, s: State, id: nat, env: Env)
    requires Enabled(s, StepEnrolment(id, env)) && Inv(cfg, s)
    ensures OneWriteEach(Apply(cfg, s, StepEnrolment(id, env)))
  {
    forall j | 0 <= j < |s.written| && Apply(cfg, s, StepEnrolment(id, env)).enrolments[id].phase.Recorded?
      ensures s.written[j].request != id
    {
      assert WriteOk(s, j);
    }
  }

  lemma InvEnrolmentStep(cfg: Config, s: State, id: nat, env: Env)
    requires Enabled(s, StepEnrolment(id, env)) && Inv(cfg, s)
    ensures Inv(cfg, Apply(cfg, s, StepEnrolment(id, env)))
  {
    var s' := Apply(cfg, s, StepEnrolment(id, env));
    ChallengeInvStep(cfg, s, StepEnrolment(id, env));
    AdvanceGrowsHistory(cfg, s, id, env);
    forall k | k in s'.enrolments
      ensures EnrolmentOk(cfg, s', k)
    {
      if k == id {
        EnrolmentStepOk(cfg, s, id, env);
      } else {
        EnrolmentFrame(cfg, s, s', k);
      }
    }
    forall serial | serial in s'.minted
      ensures MintedOk(s', serial)
    {
      MintedStepOk(cfg, s, id, env, serial);
    }
    forall k | 0 <= k < |s'.written|
      ensures WriteOk(s', k)
    {
      WriteStepOk(cfg, s, id, env, k);
    }
    OneWriteStepOk(cfg, s, id, env);
    forall identity
      ensures DeviceOk(s', identity)
    {
      DeviceStepOk(cfg, s, id, env, identity);
    }
    CoherentStep(cfg, s, StepEnrolment(id, env));
  }

  /** Every action is, on the registry, one of its atomic writes or nothing. */
  lemma RegistryStep(cfg: Config, s: State, a: Action)
    requires Enabled(s, a)
    ensures Step(s.shared.repo, Apply(cfg, s, a).shared.repo)
  {
    match a
    case StepEnrolment(id, env) =>
      var e := s.enrolments[id];
      if e.phase.Signed? && env.writable {
        assert !RecordFor(e.req, e.phase.level, e.phase.cert, env.signedAt).isRevoked;
      }
    case _ =>
  }

  lemma CoherentStep(cfg: Config, s: State, a: Action)
    requires Enabled(s, a) && Coherent(s.shared.repo)
    ensures Coherent(Apply(cfg, s, a).shared.repo) && Keeps(s.shared.repo, Apply(cfg, s, a).shared.repo)
  {
    RegistryStep(cfg, s, a);
    StepKeeps(s.shared.repo, Apply(cfg, s, a).shared.repo);
  }

  // ------------------------------------------------------------ everything else

  /** Steps other than those of enrolments leave the histories alone and at most add requests that
      have just arrived; a device's record keeps all but its revoked flag. */
  ghost predicate Bystands(s: State, s': State) {
    && HistoryGrows(s, s') && s'.minted == s.minted && s'.written == s.written
    && (forall id :: id in s.enrolments ==> id in s'.enrolments && s'.enrolments[id] == s.enrolments[id])
    && (forall id :: id in s'.enrolments && id !in s.enrolments ==> s'.enrolments[id].phase.Arrived?)
    && s'.shared.repo.devices.Keys == s.shared.repo.devices.Keys
    && forall i :: i in s.shared.repo.devices ==>
         s'.shared.repo.devices[i] == s.shared.repo.devices[i].(isRevoked := s'.shared.repo.devices[i].isRevoked)
  }

  lemma OthersBystand(cfg: Config, s: State, a: Action)
    requires Enabled(s, a) && !a.StepEnrolment?
    ensures Bystands(s, Apply(cfg, s, a))
  {
  }

  lemma MintedFrame(s: State, s': State, serial: Serial)
    requires Bystands(s, s') && serial in s.minted && MintedOk(s, serial)
    ensures MintedOk(s', serial)
  {
  }

  lemma WriteFrame(s: State, s': State, k: int)
    requires Bystands(s, s') && 0 <= k < |s.written| && WriteOk(s, k)
    ensures WriteOk(s', k)
  {
  }

  lemma DeviceFrame(s: State, s': State, identity: string)
    requires Bystands(s, s') && DeviceOk(s, identity)
    ensures DeviceOk(s', identity)
  {
  }

  lemma InvOtherStep(cfg: Config, s: State, a: Action)
    requires Enabled(s, a) && Inv(cfg, s) && !a.StepEnrolment?
    ensures Inv(cfg, Apply(cfg, s, a))
  {
    var s' := Apply(cfg, s, a);
    ChallengeInvStep(cfg, s, a);
    CoherentStep(cfg, s, a);
    OthersBystand(cfg, s, a);
    InvFrame(cfg, s, s');
  }

  lemma InvFrame(cfg: Config, s: State, s': State)
    requires Inv(cfg, s) && Bystands(s, s') && ChallengeInv(cfg, s') && Coherent(s'.shared.repo)
    ensures Inv(cfg, s')
  {
    forall k | k in s'.enrolments
      ensures EnrolmentOk(cfg, s', k)
    {
      if k in s.enrolments {
        EnrolmentFrame(cfg, s, s', k);
      }
    }
    forall serial | serial in s'.minted
      ensures MintedOk(s', serial)
    {
      MintedFrame(s, s', serial);
    }
    forall k | 0 <= k < |s'.written|
      ensures WriteOk(s', k)
    {
      WriteFrame(s, s', k);
    }
    forall identity
      ensures DeviceOk(s', identity)
    {
      DeviceFrame(s, s', identity);
    }
  }

  lemma InvStep(cfg: Config, s: State, a: Action)
    requires Enabled(s, a) && Inv(cfg, s)
    ensures Inv(cfg, Apply(cfg, s, a))
  {
    if a.StepEnrolment? {
      InvEnrolmentStep(cfg, s, a.id, a.env);
    } else {
      InvOtherStep(cfg, s, a);
    }
  }

  lemma InvInitial(cfg: Config)
    ensures Inv(cfg, INITIAL)
  {
  }

  /** Behind every record of the registry is a request that wrote it. */
  lemma RecordHasWriter(cfg: Config, s: State, identity: string) returns (writer: nat)
    requires Inv(cfg, s) && identity in s.shared.repo.devices
    ensures writer in s.enrolments && Written(s.enrolments[writer].phase) && EnrolmentOk(cfg, s, writer)
    ensures s.enrolments[writer].phase.cert.commonName == identity
    ensures var e, record := s.enrolments[writer], s.shared.repo.devices[identity];
            record == RecordFor(e.req, e.phase.level, e.phase.cert, record.enrolledAt).(isRevoked := record.isRevoked)
  {
    assert DeviceOk(s, identity);
    var k := LatestWrite(s.written, identity);
    assert WriteOk(s, k);
    writer := s.written[k].request;
  }

  lemma AnsweredIsRegistered(cfg: Config, s: State, id: nat)
    requires Inv(cfg, s) && id in s.enrolments && s.enrolments[id].phase.Responded?
    ensures s.enrolments[id].phase.cert.commonName in s.shared.repo.devices
  {
    assert EnrolmentOk(cfg, s, id);
    var k :| 0 <= k < |s.written| && s.written[k].request == id;
    assert WriteOk(s, k) && s.written[k].record.identity == s.enrolments[id].phase.cert.commonName;
    assert DeviceOk(s, s.enrolments[id].phase.cert.commonName);
  }

  /** The invariant holds throughout every run. */
  lemma {:induction false} InvAlongRun(cfg: Config, states: seq<State>, actions: seq<Action>, n: nat)
    requires IsRun(cfg, states, actions) && n < |states|
    ensures Inv(cfg, states[n])
  {
    if n == 0 {
      InvInitial(cfg);
    } else {
      InvAlongRun(cfg, states, actions, n - 1);
      assert Leads(cfg, states, actions, n - 1);
      InvStep(cfg, states[n - 1], actions[n - 1]);
    }
  }
}
