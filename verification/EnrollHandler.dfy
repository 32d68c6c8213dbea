/** One enrolment, as the sequence of atomic steps it takes on the shared challenge store and
    device registry. */
module EnrollHandler {
  import opened Prelude
  import opened Attestation
  import opened DeviceRepo
  import opened Middleware
  import opened Protocol
  import Base64
  import CS = ChallengeStore
  import RL = RevocationList
  import V = Verifier
  import AV = AttestationVerifier

  datatype Config = Config(
    pki: Pki,
    policy: Policy,
    clientCertTTL: int,
    writePem: Certificate -> string,
    caPem: string)

  const BAD_REQUEST := 400
  const FORBIDDEN := 403
  const INTERNAL_SERVER_ERROR := 500

  // ------------------------------------------------------- request validation

  predicate LabelChar(c: char, first: bool) {
    || 'A' <= c <= 'Z' || 'a' <= c <= 'z' || '0' <= c <= '9'
    || (!first && (c == '.' || c == '_' || c == '-'))
  }

  predicate AllowedLabel(s: string) {
    s == "" || (|s| <= 64 && forall i :: 0 <= i < |s| ==> LabelChar(s[i], i == 0))
  }

  function DecodeChain(chain: seq<string>): Option<seq<bytes>> {
    if |chain| == 0 then Some([])
    else
      match Base64.DecodeString(chain[0])
      case None => None
      case Some(der) =>
        match DecodeChain(chain[1..])
        case None => None
        case Some(rest) => Some([der] + rest)
  }

  /** What is known of a request once its body is decoded. An empty challenge means that the
      chain carries none, which only a development policy lets pass. */
  datatype Admitted = Admitted(csr: Csr, chainDER: seq<bytes>, challenge: bytes)

  /** Everything up to the look-up of the challenge: local to the request. */
  function Admit(cfg: Config, req: EnrollRequest): Result<Admitted, int> {
    if !AllowedLabel(req.deviceId) || req.csr == "" then Err(BAD_REQUEST)
    else
      var csrDER := Base64.DecodeString(req.csr);
      if csrDER.None? then Err(BAD_REQUEST)
      else
        var csr := cfg.pki.parseCsr(csrDER.value);
        if csr.None? then Err(BAD_REQUEST)
        else if !cfg.policy.allowEmptyAttestation && |req.attestationChain| < 2 then Err(BAD_REQUEST)
        else
          match DecodeChain(req.attestationChain)
          case None => Err(BAD_REQUEST)
          case Some(chainDER) =>
            var extracted := if |chainDER| > 0 then V.ExtractChallenge(cfg.pki, chainDER) else Ok([]);
            if extracted.Err? && !cfg.policy.allowEmptyAttestation then Err(BAD_REQUEST)
            else
              var challenge := if extracted.Ok? then extracted.value else [];
              if challenge == [] && !cfg.policy.allowEmptyAttestation then Err(BAD_REQUEST)
              else Ok(Admitted(csr.value, chainDER, challenge))
  }

  /** The challenge that is passed on is the one the verifier finds for itself, so an admitted
      request never fails with a challenge mismatch. */
  lemma AdmittedChallengeMatches(cfg: Config, req: EnrollRequest, now: int, answers: Option<V.Answers>)
    requires Admit(cfg, req).Ok?
    ensures var adm := Admit(cfg, req).value;
            && adm.challenge == V.HandlerChallenge(cfg.pki, adm.chainDER)
            && V.VerifyAttestation(cfg.pki, cfg.policy, now, answers, adm.chainDER, adm.challenge, adm.csr.key)
               != Err(V.ChallengeMismatch)
  {
    var adm := Admit(cfg, req).value;
    V.ExtractionAgreement(cfg.pki, cfg.policy, now, answers, adm.chainDER, adm.csr.key);
  }

  // ------------------------------------------------------------------ the steps

  datatype Shared = Shared(store: CS.Entries, repo: Registry)

  /** How far a request has come. `Recorded` has been written to the registry but not answered. */
  datatype Phase =
    | Arrived
    | Consumed(adm: Admitted)
    | Vetted(adm: Admitted, identity: string, level: int)
    | Cleared(adm: Admitted, identity: string, level: int)
    | Signed(adm: Admitted, level: int, cert: Certificate)
    | RegisterFailed(adm: Admitted, cert: Certificate)
    | Recorded(adm: Admitted, level: int, cert: Certificate)
    | Responded(adm: Admitted, level: int, cert: Certificate)
    | Refused(status: int)

  /** What the world supplies to a request: the clock when the challenge is taken, when the chain
      is verified and when the certificate is signed, the status list's answers, a serial if the
      random source works, and whether the registry accepts the write. */
  datatype Env = Env(
    takenAt: int,
    verifiedAt: int,
    answers: Option<V.Answers>,
    signedAt: int,
    serial: Option<Serial>,
    writable: bool)

  predicate Final(p: Phase) {
    p.Responded? || p.Refused?
  }

  function Rank(p: Phase): nat {
    match p
    case Arrived => 6
    case Consumed(_) => 5
    case Vetted(_, _, _) => 4
    case Cleared(_, _, _) => 3
    case Signed(_, _, _) => 2
    case RegisterFailed(_, _) => 1
    case Recorded(_, _, _) => 1
    case Responded(_, _, _) => 0
    case Refused(_) => 0
  }

  /** The CSR must be signed by its own key; the certificate carries that key and the
      server-derived identity, never the client's label. */
  function SignCSR(csr: Csr, identity: string, ttl: int, now: int, serial: Option<Serial>): Option<Certificate> {
    if !csr.signatureOk || serial.None? then None
    else Some(Certificate(identity, [URN_PREFIX + identity], csr.key, serial.value, now - 60, now + ttl))
  }

  function RecordFor(req: EnrollRequest, level: int, cert: Certificate, now: int): DeviceRecord {
    DeviceRecord(cert.commonName, req.deviceId, cert.serial, now, false, LevelString(level))
  }

  function TakeChallenge(cfg: Config, sh: Shared, req: EnrollRequest, now: int): (Shared, Phase) {
    match Admit(cfg, req)
    case Err(status) => (sh, Refused(status))
    case Ok(adm) =>
      if adm.challenge == [] then (sh, Consumed(adm))
      else
        var (ok, store) := CS.Take(sh.store, Base64.EncodeToString(adm.challenge), now);
        (sh.(store := store), if ok then Consumed(adm) else Refused(BAD_REQUEST))
  }

  function Verification(cfg: Config, adm: Admitted, env: Env): Result<AttestationRecord, V.VerifyError> {
    V.VerifyAttestation(cfg.pki, cfg.policy, env.verifiedAt, env.answers, adm.chainDER, adm.challenge, adm.csr.key)
  }

  function Vet(cfg: Config, adm: Admitted, env: Env): Phase {
    match Verification(cfg, adm, env)
    case Err(_) => Refused(FORBIDDEN)
    case Ok(record) =>
      match PublicKeyFingerprint(cfg.pki, adm.csr.key)
      case None => Refused(INTERNAL_SERVER_ERROR)
      case Some(identity) => Vetted(adm, identity, record.attestationSecurityLevel)
  }

  /** One atomic step. */
  function Advance(cfg: Config, sh: Shared, req: EnrollRequest, phase: Phase, env: Env): (r: (Shared, Phase))
    requires !Final(phase)
    ensures Rank(r.1) < Rank(phase)
  {
    match phase
    case Arrived => TakeChallenge(cfg, sh, req, env.takenAt)
    case Consumed(adm) => (sh, Vet(cfg, adm, env))
    case Vetted(adm, identity, level) =>
      var existing := Find(sh.repo, identity);
      (sh, if existing.Some? && existing.value.isRevoked then Refused(FORBIDDEN) else Cleared(adm, identity, level))
    case Cleared(adm, identity, level) =>
      (sh, match SignCSR(adm.csr, identity, cfg.clientCertTTL, env.signedAt, env.serial)
           case None => Refused(INTERNAL_SERVER_ERROR)
           case Some(cert) => Signed(adm, level, cert))
    case Signed(adm, level, cert) =>
      if env.writable then
        (sh.(repo := WithRecord(sh.repo, RecordFor(req, level, cert, env.signedAt))), Recorded(adm, level, cert))
      else (sh, RegisterFailed(adm, cert))
    case RegisterFailed(_, cert) =>
      (sh.(repo := WithSerialRevoked(sh.repo, cert.serial)), Refused(INTERNAL_SERVER_ERROR))
    case Recorded(adm, level, cert) => (sh, Responded(adm, level, cert))
  }

  /** The request from `phase` to its end, with nothing in between its steps. */
  function RunAlone(cfg: Config, sh: Shared, req: EnrollRequest, phase: Phase, env: Env): (Shared, Phase)
    decreases Rank(phase)
  {
    if Final(phase) then (sh, phase)
    else
      var (sh', phase') := Advance(cfg, sh, req, phase, env);
      RunAlone(cfg, sh', req, phase', env)
  }

  function ResponseFor(cfg: Config, cert: Certificate): EnrollResponse {
    var pem := cfg.writePem(cert);
    EnrollResponse(pem, Some(cfg.caPem), Some([pem, cfg.caPem]))
  }

  datatype HttpResult =
    | Created(body: EnrollResponse, deviceIdentity: string, deviceLabel: string)
    | HttpError(status: int)

  function Outcome(cfg: Config, req: EnrollRequest, phase: Phase): HttpResult
    requires Final(phase)
  {
    match phase
    case Responded(_, _, cert) => Created(ResponseFor(cfg, cert), cert.commonName, req.deviceId)
    case Refused(status) => HttpError(status)
  }

  lemma {:induction false} RunAloneEnds(cfg: Config, sh: Shared, req: EnrollRequest, phase: Phase, env: Env)
    ensures Final(RunAlone(cfg, sh, req, phase, env).1)
    decreases Rank(phase)
  {
    if !Final(phase) {
      var (sh', phase') := Advance(cfg, sh, req, phase, env);
      RunAloneEnds(cfg, sh', req, phase', env);
    }
  }

  predicate Barred(r: Registry, identity: string) {
    identity in r.devices && r.devices[identity].isRevoked
  }

  /** How an unrevoked request ends when nothing interferes: the failed write is compensated
      by revoking the serial just signed. */
  lemma RunAloneFromCheck(cfg: Config, sh: Shared, req: EnrollRequest, adm: Admitted, identity: string, level: int,
                          env: Env)
    requires !Barred(sh.repo, identity)
    ensures RunAlone(cfg, sh, req, Vetted(adm, identity, level), env) ==
            match SignCSR(adm.csr, identity, cfg.clientCertTTL, env.signedAt, env.serial)
            case None => (sh, Refused(INTERNAL_SERVER_ERROR))
            case Some(cert) =>
              if env.writable then
                (sh.(repo := WithRecord(sh.repo, RecordFor(req, level, cert, env.signedAt))),
                 Responded(adm, level, cert))
              else (sh.(repo := WithSerialRevoked(sh.repo, cert.serial)), Refused(INTERNAL_SERVER_ERROR))
  {
    var cleared := Cleared(adm, identity, level);
    assert Advance(cfg, sh, req, Vetted(adm, identity, level), env) == (sh, cleared);
    assert RunAlone(cfg, sh, req, Vetted(adm, identity, level), env) == RunAlone(cfg, sh, req, cleared, env);
    match SignCSR(adm.csr, identity, cfg.clientCertTTL, env.signedAt, env.serial)
    case None =>
      var refused := Refused(INTERNAL_SERVER_ERROR);
      assert Advance(cfg, sh, req, cleared, env) == (sh, refused);
      assert RunAlone(cfg, sh, req, refused, env) == (sh, refused);
    case Some(cert) =>
      var signed := Signed(adm, level, cert);
      assert Advance(cfg, sh, req, cleared, env) == (sh, signed);
      assert RunAlone(cfg, sh, req, cleared, env) == RunAlone(cfg, sh, req, signed, env);
      var (sh', next) := Advance(cfg, sh, req, signed, env);
      assert RunAlone(cfg, sh, req, signed, env) == RunAlone(cfg, sh', req, next, env);
      var (sh'', last) := Advance(cfg, sh', req, next, env);
      assert Final(last);
      assert RunAlone(cfg, sh'', req, last, env) == (sh'', last);
  }

  /** The attestation is accepted and an identity can be derived from the CSR's key. */
  predicate PassesAttestation(cfg: Config, adm: Admitted, env: Env) {
    && Verification(cfg, adm, env).Ok? && PublicKeyFingerprint(cfg.pki, adm.csr.key).Some?
  }

  /** The store holds the challenge and it has not expired, or none is needed. */
  predicate ChallengeLive(sh: Shared, adm: Admitted, now: int) {
    adm.challenge == []
    || (Base64.EncodeToString(adm.challenge) in sh.store && now < sh.store[Base64.EncodeToString(adm.challenge)])
  }

  lemma RunAloneToCheck(cfg: Config, sh: Shared, req: EnrollRequest, adm: Admitted, env: Env)
    requires Admit(cfg, req) == Ok(adm)
    ensures var (sh', end) := RunAlone(cfg, sh, req, Arrived, env);
            if ChallengeLive(sh, adm, env.takenAt) && PassesAttestation(cfg, adm, env) then
              var taken := TakeChallenge(cfg, sh, req, env.takenAt).0;
              && taken.repo == sh.repo && Vet(cfg, adm, env).Vetted?
              && (sh', end) == RunAlone(cfg, taken, req, Vet(cfg, adm, env), env)
            else
              sh'.repo == sh.repo
              && end == Refused(if !ChallengeLive(sh, adm, env.takenAt) then BAD_REQUEST
                                else if Verification(cfg, adm, env).Err? then FORBIDDEN
                                else INTERNAL_SERVER_ERROR)
  {
    var (taken, next) := Advance(cfg, sh, req, Arrived, env);
    assert RunAlone(cfg, sh, req, Arrived, env) == RunAlone(cfg, taken, req, next, env);
    if next.Consumed? {
      var vetted := Vet(cfg, adm, env);
      assert Advance(cfg, taken, req, next, env) == (taken, vetted);
      assert RunAlone(cfg, taken, req, next, env) == RunAlone(cfg, taken, req, vetted, env);
    }
  }

  /** A request served alone is answered with a certificate exactly when it is well-formed, its
      challenge is live, its attestation is accepted, its identity is not revoked, its CSR is
      signed by its own key, a serial can be drawn and the registry accepts the write. Then the
      certificate is the signed one and the registry gains its record; otherwise no device's record
      changes. */
  lemma EnrolmentSucceedsExactly(cfg: Config, sh: Shared, req: EnrollRequest, env: Env)
    ensures var (sh', end) := RunAlone(cfg, sh, req, Arrived, env);
            && (end.Responded? <==>
                && Admit(cfg, req).Ok?
                && var adm := Admit(cfg, req).value;
                  && ChallengeLive(sh, adm, env.takenAt) && PassesAttestation(cfg, adm, env)
                  && !Barred(sh.repo, PublicKeyFingerprint(cfg.pki, adm.csr.key).value)
                  && adm.csr.signatureOk && env.serial.Some? && env.writable)
            && (!end.Responded? ==> sh'.repo.devices == sh.repo.devices)
            && (end.Responded? ==>
                  var csr := Admit(cfg, req).value.csr;
                  var identity := PublicKeyFingerprint(cfg.pki, csr.key).value;
                  && end.level == Verification(cfg, Admit(cfg, req).value, env).value.attestationSecurityLevel
                  && SignCSR(csr, identity, cfg.clientCertTTL, env.signedAt, env.serial) == Some(end.cert)
                  && sh'.repo == WithRecord(sh.repo, RecordFor(req, end.level, end.cert, env.signedAt)))
  {
    if Admit(cfg, req).Ok? {
      var adm := Admit(cfg, req).value;
      RunAloneToCheck(cfg, sh, req, adm, env);
      if ChallengeLive(sh, adm, env.takenAt) && PassesAttestation(cfg, adm, env) {
        var vetted, taken := Vet(cfg, adm, env), TakeChallenge(cfg, sh, req, env.takenAt).0;
        RunAloneVerdict(cfg, taken, req, adm, vetted.identity, vetted.level, env);
      }
    } else {
      var next := Advance(cfg, sh, req, Arrived, env).1;
      assert RunAlone(cfg, sh, req, Arrived, env) == RunAlone(cfg, sh, req, next, env);
    }
  }

  lemma RunAloneVerdict(cfg: Config, sh: Shared, req: EnrollRequest, adm: Admitted, identity: string, level: int,
                        env: Env)
    ensures var (sh', end) := RunAlone(cfg, sh, req, Vetted(adm, identity, level), env);
            && (end.Responded? <==>
                && !Barred(sh.repo, identity)
                && adm.csr.signatureOk && env.serial.Some? && env.writable)
            && (!end.Responded? ==>
                  && sh'.repo.devices == sh.repo.devices
                  && end == Refused(if Barred(sh.repo, identity) then FORBIDDEN else INTERNAL_SERVER_ERROR))
            && (end.Responded? ==>
                  && end.level == level
                  && SignCSR(adm.csr, identity, cfg.clientCertTTL, env.signedAt, env.serial) == Some(end.cert)
                  && sh'.repo == WithRecord(sh.repo, RecordFor(req, end.level, end.cert, env.signedAt)))
  {
    if Barred(sh.repo, identity) {
      var refused := Refused(FORBIDDEN);
      assert Advance(cfg, sh, req, Vetted(adm, identity, level), env) == (sh, refused);
      assert RunAlone(cfg, sh, req, refused, env) == (sh, refused);
    } else {
      RunAloneFromCheck(cfg, sh, req, adm, identity, level, env);
    }
  }

  /** A request with a challenge, sent again, is refused and leaves the registry alone, however
      the first time ended. */
  lemma ReplayRefused(cfg: Config, sh: Shared, req: EnrollRequest, env: Env, again: Env)
    requires Admit(cfg, req).Ok? && Admit(cfg, req).value.challenge != []
    ensures var sh' := RunAlone(cfg, sh, req, Arrived, env).0;
            RunAlone(cfg, sh', req, Arrived, again) == (sh', Refused(BAD_REQUEST))
  {
    var key := Base64.EncodeToString(Admit(cfg, req).value.challenge);
    var (taken, next) := Advance(cfg, sh, req, Arrived, env);
    assert RunAlone(cfg, sh, req, Arrived, env) == RunAlone(cfg, taken, req, next, env);
    assert key !in taken.store;
    LaterStepsKeepStore(cfg, taken, req, next, env);
    var sh' := RunAlone(cfg, sh, req, Arrived, env).0;
    assert sh'.(store := sh'.store) == sh';
    var refused := Refused(BAD_REQUEST);
    assert Advance(cfg, sh', req, Arrived, again) == (sh', refused);
    assert RunAlone(cfg, sh', req, refused, again) == (sh', refused);
  }

  lemma {:induction false} LaterStepsKeepStore(cfg: Config, sh: Shared, req: EnrollRequest, phase: Phase, env: Env)
    requires !phase.Arrived?
    ensures RunAlone(cfg, sh, req, phase, env).0.store == sh.store
    decreases Rank(phase)
  {
    if !Final(phase) {
      var (sh', phase') := Advance(cfg, sh, req, phase, env);
      LaterStepsKeepStore(cfg, sh', req, phase', env);
    }
  }

  // -------------------------------------------------------------- the handler

  class EnrollHandler {
    const cfg: Config
    const verifier: AV.AttestationVerifier
    const store: CS.MemoryChallengeStore
    const deviceRepo: MemoryDeviceRepo

    constructor (cfg: Config, verifier: AV.AttestationVerifier, store: CS.MemoryChallengeStore, repo: MemoryDeviceRepo)
      ensures this.cfg == cfg && this.verifier == verifier && this.store == store && this.deviceRepo == repo
    {
      this.cfg, this.verifier, this.store, this.deviceRepo := cfg, verifier, store, repo;
    }

    ghost predicate Valid()
      reads store
    {
      cfg.pki == verifier.pki && cfg.policy == verifier.policy && store.Valid()
    }

    function View(): Shared
      reads store, deviceRepo
    {
      Shared(store.challenges, deviceRepo.View())
    }

    method DecodeCertificates(chain: seq<string>) returns (r: Option<seq<bytes>>)
      ensures r == DecodeChain(chain)
    {
      var ders: seq<bytes> := [];
      ghost var all := DecodeChain(chain);
      assert chain[0..] == chain && (all.Some? ==> ders + all.value == all.value);
      for i := 0 to |chain|
        invariant DecodeChain(chain) ==
                  match DecodeChain(chain[i..]) case None => None case Some(rest) => Some(ders + rest)
      {
        assert chain[i..][1..] == chain[i + 1..];
        var der := Base64.DecodeString(chain[i]);
        if der.None? {
          return None;
        }
        ghost var rest := DecodeChain(chain[i + 1..]);
        assert rest.Some? ==> ders + ([der.value] + rest.value) == ders + [der.value] + rest.value;
        ders := ders + [der.value];
      }
      assert ders + [] == ders;
      r := Some(ders);
    }

    /** With no other request in between, the handler is its steps run to the end. */
    method ServeHTTP(req: EnrollRequest, takenAt: int, verifiedAt: int, polls: AV.Polls, signedAt: int,
                     serial: Option<Serial>, writable: bool)
      returns (result: HttpResult, ghost end: Phase)
      requires Valid() && CS.NotBefore(store.history, takenAt)
      requires forall k :: RL.WellFormed(polls(k).fetch)
      modifies store, deviceRepo, verifier.revocations
      ensures Valid()
      ensures var chain := DecodeChain(req.attestationChain);
              var answers := if chain.Some? then old(verifier.Answers(chain.value, polls)) else None;
              (View(), end) == RunAlone(cfg, old(View()), req, Arrived,
                                        Env(takenAt, verifiedAt, answers, signedAt, serial, writable))
      ensures Final(end) && result == Outcome(cfg, req, end)
    {
      ghost var answers: Option<V.Answers> := None;
      if !AllowedLabel(req.deviceId) || req.csr == "" {
        end := Refused(BAD_REQUEST);
        return HttpError(BAD_REQUEST), end;
      }
      var csrDER := Base64.DecodeString(req.csr);
      if csrDER.None? {
        end := Refused(BAD_REQUEST);
        return HttpError(BAD_REQUEST), end;
      }
      var csr := cfg.pki.parseCsr(csrDER.value);
      if csr.None? || (!cfg.policy.allowEmptyAttestation && |req.attestationChain| < 2) {
        end := Refused(BAD_REQUEST);
        return HttpError(BAD_REQUEST), end;
      }
      var chainDER := DecodeCertificates(req.attestationChain);
      if chainDER.None? {
        end := Refused(BAD_REQUEST);
        return HttpError(BAD_REQUEST), end;
      }
      answers := verifier.Answers(chainDER.value, polls);
      ghost var env := Env(takenAt, verifiedAt, answers, signedAt, serial, writable);

      var challengeBytes: bytes := [];
      if |chainDER.value| > 0 {
        var extracted := V.ExtractChallenge(cfg.pki, chainDER.value);
        if extracted.Err? {
          if !cfg.policy.allowEmptyAttestation {
            end := Refused(BAD_REQUEST);
            return HttpError(BAD_REQUEST), end;
          }
        } else {
          challengeBytes := extracted.value;
        }
      }
      ghost var adm := Admitted(csr.value, chainDER.value, challengeBytes);
      if |challengeBytes| > 0 {
        var ok := store.VerifyAndConsumeChallenge(Base64.EncodeToString(challengeBytes), takenAt);
        if !ok {
          end := Refused(BAD_REQUEST);
          return HttpError(BAD_REQUEST), end;
        }
      } else if !cfg.policy.allowEmptyAttestation {
        end := Refused(BAD_REQUEST);
        return HttpError(BAD_REQUEST), end;
      }
      assert Admit(cfg, req) == Ok(adm);
      assert (View(), Consumed(adm)) == Advance(cfg, old(View()), req, Arrived, env);
      result, end := Finish(req, csr.value, chainDER.value, challengeBytes, verifiedAt, polls, signedAt, serial,
                            writable, env);
    }

    /** The steps after the challenge has been consumed. */
    method Finish(req: EnrollRequest, csr: Csr, chainDER: seq<bytes>, challengeBytes: bytes, verifiedAt: int,
                  polls: AV.Polls, signedAt: int, serial: Option<Serial>, writable: bool, ghost env: Env)
      returns (result: HttpResult, ghost end: Phase)
      requires Valid()
      requires forall k :: RL.WellFormed(polls(k).fetch)
      requires env.verifiedAt == verifiedAt && env.signedAt == signedAt
      requires env.serial == serial && env.writable == writable
      requires env.answers == verifier.Answers(chainDER, polls)
      modifies deviceRepo, verifier.revocations
      ensures Valid()
      ensures (View(), end) == RunAlone(cfg, old(View()), req, Consumed(Admitted(csr, chainDER, challengeBytes)), env)
      ensures Final(end) && result == Outcome(cfg, req, end)
    {
      ghost var adm := Admitted(csr, chainDER, challengeBytes);
      ghost var sh := View();
      var record := verifier.VerifyAttestation(chainDER, challengeBytes, csr.key, verifiedAt, polls);
      assert View() == sh;
      if record.Err? {
        end := Refused(FORBIDDEN);
        return HttpError(FORBIDDEN), end;
      }
      var identity := PublicKeyFingerprint(cfg.pki, csr.key);
      if identity.None? {
        end := Refused(INTERNAL_SERVER_ERROR);
        return HttpError(INTERNAL_SERVER_ERROR), end;
      }
      var level := record.value.attestationSecurityLevel;
      assert Vet(cfg, adm, env) == Vetted(adm, identity.value, level);
      result, end := Issue(req, csr, identity.value, level, signedAt, serial, writable, adm, env);
    }

    /** The steps after the attestation has been verified. */
    method Issue(req: EnrollRequest, csr: Csr, identity: string, level: int, signedAt: int, serial: Option<Serial>,
                 writable: bool, ghost adm: Admitted, ghost env: Env)
      returns (result: HttpResult, ghost end: Phase)
      requires env.signedAt == signedAt && env.serial == serial && env.writable == writable && adm.csr == csr
      modifies deviceRepo
      ensures (View(), end) == RunAlone(cfg, old(View()), req, Vetted(adm, identity, level), env)
      ensures Final(end) && result == Outcome(cfg, req, end)
    {
      ghost var sh := View();
      var existing := deviceRepo.GetDevice(identity);
      if existing.Some? && existing.value.isRevoked {
        end := Refused(FORBIDDEN);
        return HttpError(FORBIDDEN), end;
      }
      var cert := SignCSR(csr, identity, cfg.clientCertTTL, signedAt, serial);
      RunAloneFromCheck(cfg, sh, req, adm, identity, level, env);
      if cert.None? {
        end := Refused(INTERNAL_SERVER_ERROR);
        return HttpError(INTERNAL_SERVER_ERROR), end;
      }
      var ok := deviceRepo.RegisterDevice(RecordFor(req, level, cert.value, signedAt), writable);
      if !ok {
        deviceRepo.RevokeSerial(cert.value.serial);
        end := Refused(INTERNAL_SERVER_ERROR);
        return HttpError(INTERNAL_SERVER_ERROR), end;
      }
      end := Responded(adm, level, cert.value);
      result := Created(ResponseFor(cfg, cert.value), identity, req.deviceId);
    }
  }
}
