/** What an enrolment request has to look like and what its outcome consists of, field by field, with the
    status codes and limits as numbers. */
module EnrolmentMeaning {
  import opened Prelude
  import opened Attestation
  import opened DeviceRepo
  import opened Middleware
  import opened Protocol
  import opened EnrollHandler
  import Base64
  import V = Verifier

  // ------------------------------------------------------------------ the request

  /** The chain is decoded entry by entry, in its own order. */
  ghost predicate DecodedChain(chain: seq<string>, ders: seq<bytes>) {
    |ders| == |chain| && forall i :: 0 <= i < |chain| ==> Base64.DecodeString(chain[i]) == Some(ders[i])
  }

  lemma {:induction false} ChainDecodedExactly(chain: seq<string>, ders: seq<bytes>)
    ensures DecodeChain(chain) == Some(ders) <==> DecodedChain(chain, ders)
  {
    if |chain| > 0 {
      if |ders| > 0 {
        ChainDecodedExactly(chain[1..], ders[1..]);
        assert ders == [ders[0]] + ders[1..];
        if DecodeChain(chain) == Some(ders) {
          forall i | 0 <= i < |chain|
            ensures Base64.DecodeString(chain[i]) == Some(ders[i])
          {
            assert i > 0 ==> chain[i] == chain[1..][i - 1] && ders[i] == ders[1..][i - 1];
          }
        }
        if DecodedChain(chain, ders) {
          assert DecodedChain(chain[1..], ders[1..]);
        }
      }
    }
  }

  /** It cannot be decoded exactly when some entry cannot. */
  lemma {:induction false} ChainUndecodedExactly(chain: seq<string>)
    ensures DecodeChain(chain).None? <==> exists i :: 0 <= i < |chain| && Base64.DecodeString(chain[i]).None?
  {
    if |chain| > 0 {
      ChainUndecodedExactly(chain[1..]);
      if DecodeChain(chain).None? && Base64.DecodeString(chain[0]).Some? {
        var i :| 0 <= i < |chain[1..]| && Base64.DecodeString(chain[1..][i]).None?;
        assert chain[i + 1] == chain[1..][i];
      }
      if exists i :: 0 <= i < |chain| && Base64.DecodeString(chain[i]).None? {
        var i :| 0 <= i < |chain| && Base64.DecodeString(chain[i]).None?;
        assert i > 0 ==> chain[1..][i - 1] == chain[i];
      }
    }
  }

  /** Letters and digits, and, from the second character on, dot, hyphen and underscore; at most 64 in
      all. */
  ghost predicate GoodLabel(s: string) {
    && |s| <= 64
    && forall i :: 0 <= i < |s| ==>
         var c := s[i] as int;
         48 <= c <= 57 || 65 <= c <= 90 || 97 <= c <= 122 || (i > 0 && c in {45, 46, 95})
  }

  lemma LabelExactly(s: string)
    ensures AllowedLabel(s) <==> GoodLabel(s)
  {
  }

  /** The chain of a request yields this challenge: that of its leaf, or none where the development bypass
      lets it be absent. */
  ghost predicate Challenged(cfg: Config, chainDER: seq<bytes>, challenge: bytes) {
    || (challenge != [] && V.ExtractChallenge(cfg.pki, chainDER) == Ok(challenge))
    || (challenge == [] && cfg.policy.allowEmptyAttestation
        && (V.ExtractChallenge(cfg.pki, chainDER).Err? || V.ExtractChallenge(cfg.pki, chainDER) == Ok([])))
  }

  /** A request is admitted, with exactly these parts, if and only if it is well-formed so. */
  lemma AdmitsExactly(cfg: Config, req: EnrollRequest, adm: Admitted)
    ensures Admit(cfg, req) == Ok(adm) <==>
            && GoodLabel(req.deviceId) && req.csr != ""
            && Base64.DecodeString(req.csr).Some?
            && cfg.pki.parseCsr(Base64.DecodeString(req.csr).value) == Some(adm.csr)
            && (cfg.policy.allowEmptyAttestation || |req.attestationChain| >= 2)
            && DecodedChain(req.attestationChain, adm.chainDER)
            && Challenged(cfg, adm.chainDER, adm.challenge)
  {
    LabelExactly(req.deviceId);
    ChainDecodedExactly(req.attestationChain, adm.chainDER);
  }

  /** Every other request is refused with status 400. */
  lemma NotAdmitted(cfg: Config, req: EnrollRequest)
    ensures Admit(cfg, req).Err? ==> Admit(cfg, req) == Err(400)
  {
  }

  // ------------------------------------------------------------------- the outcome

  /** The certificate: named after the identity in both places, over the CSR's key, valid from a minute
      ago for one lifetime. */
  function IssuedTo(cfg: Config, csr: Csr, identity: string, serial: Serial, now: int): Certificate {
    Certificate(identity, ["urn:device:" + identity], csr.key, serial, now - 60, now + cfg.clientCertTTL)
  }

  /** The name under which the registry records an attested level. */
  ghost predicate NamesLevel(name: string, level: int) {
    && (name == "STRONGBOX" <==> level == 2) && (name == "TEE" <==> level == 1)
    && (name == "SOFTWARE" <==> level == 0)
  }

  /** A request served alone that succeeds is answered with this certificate, and the registry gains this
      record and nothing else: the identity, the client's label, the serial, the time, not revoked, and the
      level the attestation was accepted with. */
  lemma SuccessWrites(cfg: Config, sh: Shared, req: EnrollRequest, env: Env)
    requires RunAlone(cfg, sh, req, Arrived, env).1.Responded?
    ensures Admit(cfg, req).Ok? && PassesAttestation(cfg, Admit(cfg, req).value, env) && env.serial.Some?
    ensures var (sh', end) := RunAlone(cfg, sh, req, Arrived, env);
            var csr := Admit(cfg, req).value.csr;
            var identity := PublicKeyFingerprint(cfg.pki, csr.key).value;
            && end.cert == IssuedTo(cfg, csr, identity, env.serial.value, env.signedAt)
            && sh'.repo.revokedSerials == sh.repo.revokedSerials
            && identity in sh'.repo.devices
            && var record := sh'.repo.devices[identity];
              && sh'.repo.devices == sh.repo.devices[identity := record]
              && record.identity == identity && record.deviceLabel == req.deviceId
              && record.certSerial == env.serial.value && record.enrolledAt == env.signedAt && !record.isRevoked
              && NamesLevel(record.hardwareSecurityLevel,
                            Verification(cfg, Admit(cfg, req).value, env).value.attestationSecurityLevel)
  {
    EnrolmentSucceedsExactly(cfg, sh, req, env);
    LevelNames(RunAlone(cfg, sh, req, Arrived, env).1.level);
  }

  /** The answer carries the certificate's text, the CA's text, both as the chain, the identity and the
      client's label. */
  lemma AnswerCarries(cfg: Config, req: EnrollRequest, adm: Admitted, level: int, cert: Certificate)
    ensures var answer := Outcome(cfg, req, Responded(adm, level, cert));
            && answer.Created? && answer.deviceIdentity == cert.commonName && answer.deviceLabel == req.deviceId
            && answer.body.clientCertificate == cfg.writePem(cert) && answer.body.caCertificate == Some(cfg.caPem)
            && answer.body.certificateChain == Some([cfg.writePem(cert), cfg.caPem])
  {
  }

  /** Why a request served alone is refused: 400 when it is malformed or its challenge is not live, 403 when
      its attestation is refused or its identity is revoked, and 500 when no identity can be derived, no
      certificate can be signed or the registry does not accept the write. */
  lemma RefusalsExactly(cfg: Config, sh: Shared, req: EnrollRequest, env: Env)
    requires !RunAlone(cfg, sh, req, Arrived, env).1.Responded?
    ensures var end := RunAlone(cfg, sh, req, Arrived, env).1;
            end.Refused? && end.status ==
              if Admit(cfg, req).Err? || !ChallengeLive(sh, Admit(cfg, req).value, env.takenAt) then 400
              else
                var adm := Admit(cfg, req).value;
                var identity := PublicKeyFingerprint(cfg.pki, adm.csr.key);
                if Verification(cfg, adm, env).Err? || (identity.Some? && Barred(sh.repo, identity.value)) then 403
                else 500
  {
    if Admit(cfg, req).Ok? {
      var adm := Admit(cfg, req).value;
      RunAloneToCheck(cfg, sh, req, adm, env);
      if ChallengeLive(sh, adm, env.takenAt) && PassesAttestation(cfg, adm, env) {
        var vetted, taken := Vet(cfg, adm, env), TakeChallenge(cfg, sh, req, env.takenAt).0;
        RunAloneVerdict(cfg, taken, req, adm, vetted.identity, vetted.level, env);
      }
    } else {
      var next := Advance(cfg, sh, req, Arrived, env).1;
      assert RunAlone(cfg, sh, req, Arrived, env) == RunAlone(cfg, sh, req, next, env);
    }
    RunAloneEnds(cfg, sh, req, Arrived, env);
  }
}
