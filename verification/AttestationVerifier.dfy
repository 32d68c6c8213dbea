/** The verifier as it runs: loops over the chain, a status list client whose cache changes
    between look-ups, and a record filled in step by step. */
module AttestationVerifier {
  import opened Prelude
  import opened Attestation
  import opened Verifier
  import RL = RevocationList

  /** The time of one status look-up and what a fetch would bring then. */
  datatype Poll = Poll(now: int, fetch: RL.Fetch)

  type Polls = nat -> Poll

  function CallFor(pki: Pki, cert: AttestationCert, poll: Poll): RL.Call {
    RL.Call(PublicKeyFingerprint(pki, cert.key), poll.now, poll.fetch)
  }

  /** The cache before look-up `i` of a chain. */
  function CacheBefore(pki: Pki, cache: RL.Cache, ttl: nat, certs: seq<AttestationCert>, polls: Polls, i: nat): RL.Cache
    requires i <= |certs| && forall k :: RL.WellFormed(polls(k).fetch)
  {
    if i == 0 then cache
    else RL.Lookup(CacheBefore(pki, cache, ttl, certs, polls, i - 1), ttl, CallFor(pki, certs[i - 1], polls(i - 1))).1
  }

  /** The answers the client gives for the keys of a chain, in order. */
  ghost function AnswersFor(pki: Pki, cache: RL.Cache, ttl: nat, chainDER: seq<bytes>, polls: Polls): Answers
    requires forall k :: RL.WellFormed(polls(k).fetch)
  {
    var certs := match ParseChain(pki, chainDER, 0) case Ok(cs) => cs case Err(_) => [];
    (i: nat) =>
      if i < |certs| then
        RL.Lookup(CacheBefore(pki, cache, ttl, certs, polls, i), ttl, CallFor(pki, certs[i], polls(i))).0
      else Ok(false)
  }

  /** Each look-up is for the fingerprint of the key of its own certificate. */
  lemma AnswerForKey(pki: Pki, cache: RL.Cache, ttl: nat, chainDER: seq<bytes>, polls: Polls,
                     certs: seq<AttestationCert>, i: nat)
    requires forall k :: RL.WellFormed(polls(k).fetch)
    requires ParseChain(pki, chainDER, 0) == Ok(certs) && i < |certs|
    ensures AnswersFor(pki, cache, ttl, chainDER, polls)(i)
            == RL.Lookup(CacheBefore(pki, cache, ttl, certs, polls, i), ttl,
                         RL.Call(PublicKeyFingerprint(pki, certs[i].key), polls(i).now, polls(i).fetch)).0
  {
  }

  lemma {:induction false} FreshCacheKept(pki: Pki, cache: RL.Cache, ttl: nat, certs: seq<AttestationCert>,
                                          polls: Polls, i: nat)
    requires forall k :: RL.WellFormed(polls(k).fetch)
    requires i <= |certs| && cache.entries.Some? && forall k :: polls(k).now <= cache.fetchedAt + ttl
    ensures CacheBefore(pki, cache, ttl, certs, polls, i) == cache
  {
    if i > 0 {
      FreshCacheKept(pki, cache, ttl, certs, polls, i - 1);
    }
  }

  /** While the cached list is fresh, an accepted chain has no certificate whose key that list says is
      revoked, when the policy asks for the check. */
  lemma AcceptedChainUnlisted(pki: Pki, policy: Policy, now: int, cache: RL.Cache, ttl: nat, list: map<string, string>,
                              order: seq<string>, chainDER: seq<bytes>, expected: bytes, csrKey: Option<PublicKey>,
                              polls: Polls)
    requires forall k :: RL.WellFormed(polls(k).fetch) && polls(k).now <= cache.fetchedAt + ttl
    requires RL.IsOrder(order, list.Keys) && RL.CollisionsAgree(list) && cache.entries == Some(RL.Build(list, order))
    requires policy.checkRevocationList && |chainDER| > 0
    requires Verifier.VerifyAttestation(pki, policy, now, Some(AnswersFor(pki, cache, ttl, chainDER, polls)),
                                        chainDER, expected, csrKey).Ok?
    ensures ParseChain(pki, chainDER, 0).Ok?
    ensures forall cert :: cert in ParseChain(pki, chainDER, 0).value ==>
              var id := PublicKeyFingerprint(pki, cert.key);
              id.Some? && !RL.Says(list, id.value)
  {
    var answers := AnswersFor(pki, cache, ttl, chainDER, polls);
    var certs := ParseChain(pki, chainDER, 0).value;
    NoProblemMeansAllClear(answers, |certs|, 0);
    forall cert | cert in certs
      ensures PublicKeyFingerprint(pki, cert.key).Some?
      ensures !RL.Says(list, PublicKeyFingerprint(pki, cert.key).value)
    {
      var i :| 0 <= i < |certs| && certs[i] == cert;
      assert answers(i) == Ok(false);
      AnswerForKey(pki, cache, ttl, chainDER, polls, certs, i);
      FreshCacheKept(pki, cache, ttl, certs, polls, i);
      RL.TableAnswers(list, order, PublicKeyFingerprint(pki, cert.key).value);
    }
  }

  class AttestationVerifier {
    const pki: Pki
    const policy: Policy
    const revocations: RL.RevocationStatusClient?

    constructor (pki: Pki, policy: Policy, revocations: RL.RevocationStatusClient?)
      ensures this.pki == pki && this.policy == policy && this.revocations == revocations
    {
      this.pki, this.policy, this.revocations := pki, policy, revocations;
    }

    ghost function Answers(chainDER: seq<bytes>, polls: Polls): Option<Answers>
      requires forall k :: RL.WellFormed(polls(k).fetch)
      reads revocations
    {
      if revocations == null then None
      else Some(AnswersFor(pki, revocations.View(), revocations.ttl, chainDER, polls))
    }

    method VerifyAttestation(chainDER: seq<bytes>, expected: bytes, csrKey: Option<PublicKey>, now: int, polls: Polls)
      returns (r: Result<AttestationRecord, VerifyError>)
      requires forall k :: RL.WellFormed(polls(k).fetch)
      modifies revocations
      ensures r == Verifier.VerifyAttestation(pki, policy, now, old(Answers(chainDER, polls)),
                                              chainDER, expected, csrKey)
      ensures revocations != null && !policy.checkRevocationList ==> revocations.View() == old(revocations.View())
    {
      if |chainDER| == 0 {
        if policy.allowEmptyAttestation {
          return Ok(SoftwareRecord(expected));
        }
        return Err(ChainEmpty);
      }
      if |chainDER| < 2 && !policy.allowEmptyAttestation {
        return Err(ChainTooShort);
      }
      if |chainDER| > MAX_CHAIN_CERTIFICATES {
        return Err(ChainTooLong);
      }
      var parsed := ParseCertificates(chainDER);
      if parsed.Err? {
        return Err(parsed.error);
      }
      var certs := parsed.value;
      if policy.checkRevocationList && revocations != null {
        var problem := CheckRevocations(chainDER, certs, polls);
        if problem.Some? {
          return Err(problem.value);
        }
      }
      ParseChainHead(pki, chainDER, 0);
      if !policy.skipChainValidation && !pki.chainVerifies(certs, now) {
        return Err(ChainUntrusted);
      }
      var keyProblem := KeyProblem(pki, certs[0], csrKey);
      if keyProblem.Some? {
        return Err(keyProblem.value);
      }
      var attestationBytes := AttestationExtension(certs[0].extensions);
      if |attestationBytes| == 0 {
        if policy.allowEmptyAttestation {
          return Ok(SoftwareRecord(expected));
        }
        return Err(ExtensionMissing);
      }
      var kd := pki.parseKeyDescription(attestationBytes);
      if kd.None? {
        return Err(BadKeyDescription);
      }
      r := Judge(kd.value, expected);
    }

    method ParseCertificates(chainDER: seq<bytes>) returns (r: Result<seq<AttestationCert>, VerifyError>)
      ensures r == ParseChain(pki, chainDER, 0)
    {
      var certs: seq<AttestationCert> := [];
      ghost var all := ParseChain(pki, chainDER, 0);
      assert all.Ok? ==> certs + all.value == all.value;
      for i := 0 to |chainDER|
        invariant ParseChain(pki, chainDER, 0) ==
                  match ParseChain(pki, chainDER, i) case Err(e) => Err(e) case Ok(rest) => Ok(certs + rest)
      {
        var c := pki.parseCertificate(chainDER[i]);
        if c.None? {
          return Err(BadCertificate(i));
        }
        ghost var rest := ParseChain(pki, chainDER, i + 1);
        assert rest.Ok? ==> certs + ([c.value] + rest.value) == certs + [c.value] + rest.value;
        certs := certs + [c.value];
      }
      assert certs + [] == certs;
      r := Ok(certs);
    }

    method CheckRevocations(ghost chainDER: seq<bytes>, certs: seq<AttestationCert>, polls: Polls)
      returns (problem: Option<VerifyError>)
      requires forall k :: RL.WellFormed(polls(k).fetch)
      requires revocations != null && ParseChain(pki, chainDER, 0) == Ok(certs)
      modifies revocations
      ensures problem == RevocationProblem(old(Answers(chainDER, polls)).value, |certs|, 0)
    {
      ghost var answers := Answers(chainDER, polls).value;
      ghost var cache := revocations.View();
      for i := 0 to |certs|
        invariant RevocationProblem(answers, |certs|, 0) == RevocationProblem(answers, |certs|, i)
        invariant revocations.View() == CacheBefore(pki, cache, revocations.ttl, certs, polls, i)
      {
        var answer := revocations.IsKeyRevoked(CallFor(pki, certs[i], polls(i)));
        assert answer == answers(i);
        if answer.Err? {
          return Some(RevocationCheckFailed(i));
        }
        if answer.value {
          return Some(CertificateRevoked(i));
        }
      }
      problem := None;
    }

    method AttestationExtension(extensions: seq<Extension>) returns (value: bytes)
      ensures value == match FindExtension(extensions) case None => [] case Some(v) => v
    {
      value := [];
      for i := 0 to |extensions|
        invariant FindExtension(extensions) == FindExtension(extensions[i..])
      {
        assert extensions[i..][1..] == extensions[i + 1..];
        if extensions[i].oid == KEY_ATTESTATION_OID {
          return extensions[i].value;
        }
      }
    }

    method Judge(kd: KeyDescription, expected: bytes) returns (r: Result<AttestationRecord, VerifyError>)
      ensures r == JudgeKeyDescription(pki, policy, kd, expected)
    {
      if kd.attestationChallenge != expected {
        return Err(ChallengeMismatch);
      }
      if policy.requireHardwareBacked {
        if !HardwareLevel(kd.attestationSecurityLevel) {
          return Err(UntrustedAttestationLevel);
        }
        if !HardwareLevel(kd.keymasterSecurityLevel) {
          return Err(UntrustedKeymasterLevel);
        }
      }
      var rot := FindRootOfTrust(pki, kd.teeEnforced);
      if rot.Ok? && rot.value.None? && !policy.requireHardwareBacked {
        rot := FindRootOfTrust(pki, kd.softwareEnforced);
      }
      if rot.Err? {
        return Err(rot.error);
      }
      if policy.expectedPackageName != "" {
        var problem := VerifyApplicationId(pki, kd, policy.expectedPackageName);
        if problem.Some? {
          return Err(problem.value);
        }
      }
      var os := OsInfo(kd);
      if os.Err? {
        return Err(os.error);
      }
      var record := AttestationRecord(
        kd.attestationVersion, kd.attestationSecurityLevel, kd.keymasterVersion, kd.keymasterSecurityLevel,
        kd.attestationChallenge, false, 0, [], os.value.0, os.value.1);
      if rot.value.Some? {
        var root := rot.value.value;
        record := record.(deviceLocked := root.deviceLocked);
        record := record.(verifiedBootState := root.verifiedBootState);
        record := record.(verifiedBootKey := root.verifiedBootKey);
        if policy.requireDeviceLocked && !root.deviceLocked {
          return Err(DeviceUnlocked);
        }
        if policy.requireVerifiedBoot && record.verifiedBootState != BOOT_VERIFIED {
          return Err(BootUntrusted);
        }
      } else if policy.requireVerifiedBoot || policy.requireDeviceLocked {
        return Err(RootOfTrustMissing);
      }
      r := Ok(record);
    }

    method OsInfo(kd: KeyDescription) returns (r: Result<(int, int), VerifyError>)
      ensures r == ExtractOSInfo(kd, policy)
    {
      var version := FindIntTag(kd.teeEnforced, TAG_OS_VERSION);
      if version.Err? {
        return Err(BadAuthorizationList);
      }
      if version.value == 0 && !policy.requireHardwareBacked {
        var v := FindIntTag(kd.softwareEnforced, TAG_OS_VERSION);
        if v.Ok? {
          version := v;
        }
      }
      var patch := FindIntTag(kd.teeEnforced, TAG_OS_PATCH);
      if patch.Err? {
        return Err(BadAuthorizationList);
      }
      if patch.value == 0 && !policy.requireHardwareBacked {
        var v := FindIntTag(kd.softwareEnforced, TAG_OS_PATCH);
        if v.Ok? {
          patch := v;
        }
      }
      if policy.minOsVersion > 0 {
        if version.value == 0 {
          return Err(OsVersionMissing);
        }
        if version.value < policy.minOsVersion {
          return Err(OsVersionTooLow);
        }
      }
      if policy.minPatchLevel > 0 {
        if patch.value == 0 {
          return Err(PatchLevelMissing);
        }
        if patch.value < policy.minPatchLevel {
          return Err(PatchLevelTooLow);
        }
      }
      r := Ok((version.value, patch.value));
    }
  }
}
