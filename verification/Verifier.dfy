/** Key attestation: locating the extension, reading its authorization lists, and the policy
    decision. */
module Verifier {
  import opened Prelude
  import opened Attestation
  import opened Der
  import opened RevocationList

  datatype VerifyError =
    | ChainEmpty
    | ChainTooShort
    | ChainTooLong
    | BadCertificate(index: nat)
    | RevocationCheckFailed(index: nat)
    | CertificateRevoked(index: nat)
    | ChainUntrusted
    | KeyUnmarshalable
    | KeyMismatch
    | ExtensionMissing
    | BadKeyDescription
    | ChallengeMismatch
    | UntrustedAttestationLevel
    | UntrustedKeymasterLevel
    | BadAuthorizationList
    | BadRootOfTrust
    | ApplicationIdMissing
    | BadApplicationId
    | PackageNotListed
    | OsVersionMissing
    | OsVersionTooLow
    | PatchLevelMissing
    | PatchLevelTooLow
    | DeviceUnlocked
    | BootUntrusted
    | RootOfTrustMissing

  const MAX_CHAIN_CERTIFICATES := 16

  // ----------------------------------------------------- authorization lists

  function FirstWithTag(items: seq<RawValue>, tag: int): Option<RawValue> {
    if |items| == 0 then None
    else if items[0].tag == tag then Some(items[0])
    else FirstWithTag(items[1..], tag)
  }

  /** The class of an element is not looked at. */
  function FindTagged(list: bytes, tag: int): Result<Option<RawValue>, DerError> {
    if |list| == 0 then Ok(None)
    else
      match UnmarshalRawValues(list)
      case Err(e) => Err(e)
      case Ok(items) => Ok(FirstWithTag(items, tag))
  }

  function FindIntTag(list: bytes, tag: int): Result<int, DerError> {
    match FindTagged(list, tag)
    case Err(e) => Err(e)
    case Ok(None) => Ok(0)
    case Ok(Some(raw)) => UnmarshalInt(raw.content)
  }

  function FindRootOfTrust(pki: Pki, list: bytes): Result<Option<RootOfTrust>, VerifyError> {
    match FindTagged(list, TAG_ROOT_OF_TRUST)
    case Err(_) => Err(BadAuthorizationList)
    case Ok(None) => Ok(None)
    case Ok(Some(raw)) =>
      match pki.parseRootOfTrust(raw.content)
      case None => Err(BadRootOfTrust)
      case Some(rot) => Ok(Some(rot))
  }

  /** Element `k` is the first with the tag. */
  ghost predicate FirstAt(items: seq<RawValue>, tag: int, k: int) {
    0 <= k < |items| && items[k].tag == tag && forall j :: 0 <= j < k ==> items[j].tag != tag
  }

  lemma {:induction false} FirstWithTagIsFirst(items: seq<RawValue>, tag: int, k: nat)
    requires FirstAt(items, tag, k)
    ensures FirstWithTag(items, tag) == Some(items[k])
  {
    if k > 0 {
      FirstWithTagIsFirst(items[1..], tag, k - 1);
    }
  }

  lemma {:induction false} FirstWithTagAbsent(items: seq<RawValue>, tag: int)
    ensures FirstWithTag(items, tag).None? <==> forall e :: e in items ==> e.tag != tag
  {
    if |items| > 0 {
      FirstWithTagAbsent(items[1..], tag);
    }
  }

  /** In a printed authorization list the element that is found is the first with the tag,
      whatever its position, and nothing is found exactly when no element has it. */
  lemma FindTaggedInPrintedList(es: seq<RawValue>, tag: int, trailing: bytes, k: nat)
    requires PrintableList(es)
    ensures FindTagged(PrintList(es) + trailing, tag) == Ok(None) <==> forall e :: e in es ==> e.tag != tag
    ensures FirstAt(es, tag, k) ==> FindTagged(PrintList(es) + trailing, tag) == Ok(Some(es[k]))
  {
    ListRoundTrip(es, trailing);
    FirstWithTagAbsent(es, tag);
    if FirstAt(es, tag, k) {
      FirstWithTagIsFirst(es, tag, k);
    }
  }

  /** An integer printed under an explicit tag is read back exactly when it fits 64 bits; an
      absent tag reads as 0. */
  lemma FindIntTagInPrintedList(es: seq<RawValue>, tag: int, trailing: bytes, k: nat, v: int, after: bytes)
    requires PrintableList(es) && |IntegerContent(v)| < MAX_LENGTH
    ensures (forall e :: e in es ==> e.tag != tag) ==> FindIntTag(PrintList(es) + trailing, tag) == Ok(0)
    ensures FirstAt(es, tag, k) && es[k].content == PrintInteger(v) + after ==>
              FindIntTag(PrintList(es) + trailing, tag) ==
              if MIN_INT64 <= v <= MAX_INT64 then Ok(v) else Err(IntegerTooLarge)
  {
    FindTaggedInPrintedList(es, tag, trailing, k);
    IntegerRoundTrip(v, after);
  }

  // --------------------------------------------------------------- decisions

  /** First extension with the attestation OID. */
  function FindExtension(extensions: seq<Extension>): Option<bytes> {
    if |extensions| == 0 then None
    else if extensions[0].oid == KEY_ATTESTATION_OID then Some(extensions[0].value)
    else FindExtension(extensions[1..])
  }

  datatype ExtractError = EmptyChain | BadLeaf | BadExtension | NoExtension

  /** The challenge is read from the chain's leaf, never from the request. */
  function ExtractChallenge(pki: Pki, chainDER: seq<bytes>): Result<bytes, ExtractError> {
    if |chainDER| == 0 then Err(EmptyChain)
    else
      match pki.parseCertificate(chainDER[0])
      case None => Err(BadLeaf)
      case Some(leaf) =>
        match FindExtension(leaf.extensions)
        case None => Err(NoExtension)
        case Some(value) =>
          match pki.parseKeyDescription(value)
          case None => Err(BadExtension)
          case Some(kd) => Ok(kd.attestationChallenge)
  }

  function ParseChain(pki: Pki, chainDER: seq<bytes>, from: nat): Result<seq<AttestationCert>, VerifyError>
    requires from <= |chainDER|
    decreases |chainDER| - from
  {
    if from == |chainDER| then Ok([])
    else
      match pki.parseCertificate(chainDER[from])
      case None => Err(BadCertificate(from))
      case Some(c) =>
        match ParseChain(pki, chainDER, from + 1)
        case Err(e) => Err(e)
        case Ok(rest) => Ok([c] + rest)
  }

  lemma {:induction false} ParseChainHead(pki: Pki, chainDER: seq<bytes>, from: nat)
    requires from <= |chainDER| && ParseChain(pki, chainDER, from).Ok?
    ensures |ParseChain(pki, chainDER, from).value| == |chainDER| - from
    ensures forall i :: from <= i < |chainDER| ==>
              pki.parseCertificate(chainDER[i]) == Some(ParseChain(pki, chainDER, from).value[i - from])
    decreases |chainDER| - from
  {
    if from < |chainDER| {
      ParseChainHead(pki, chainDER, from + 1);
    }
  }

  /** What the status list answered for each certificate of the chain, in order. */
  type Answers = nat -> Result<bool, CacheError>

  /** The first certificate, from `from` on, whose check fails or that is revoked. */
  function RevocationProblem(answers: Answers, count: nat, from: nat): Option<VerifyError>
    requires from <= count
    decreases count - from
  {
    if from == count then None
    else
      match answers(from)
      case Err(_) => Some(RevocationCheckFailed(from))
      case Ok(true) => Some(CertificateRevoked(from))
      case Ok(false) => RevocationProblem(answers, count, from + 1)
  }

  function VerifyApplicationId(pki: Pki, kd: KeyDescription, expected: string): Option<VerifyError> {
    match FindTagged(kd.teeEnforced, TAG_ATTESTATION_APPLICATION_ID)
    case Err(_) => Some(BadAuthorizationList)
    case Ok(Some(raw)) => PackageListed(pki, raw.content, expected)
    case Ok(None) =>
      match FindTagged(kd.softwareEnforced, TAG_ATTESTATION_APPLICATION_ID)
      case Err(_) => Some(BadAuthorizationList)
      case Ok(None) => Some(ApplicationIdMissing)
      case Ok(Some(raw)) => PackageListed(pki, raw.content, expected)
  }

  function PackageListed(pki: Pki, raw: bytes, expected: string): Option<VerifyError> {
    match pki.parseApplicationId(raw)
    case None => Some(BadApplicationId)
    case Some(packages) => if expected in packages then None else Some(PackageNotListed)
  }

  /** An absent (or zero) TEE value falls back to the software list when hardware backing is
      not required; a software list that does not decode counts as absent. */
  function OsTag(kd: KeyDescription, requireHardware: bool, tag: int): Result<int, VerifyError> {
    match FindIntTag(kd.teeEnforced, tag)
    case Err(_) => Err(BadAuthorizationList)
    case Ok(v) =>
      if v == 0 && !requireHardware then
        match FindIntTag(kd.softwareEnforced, tag)
        case Err(_) => Ok(v)
        case Ok(w) => Ok(w)
      else Ok(v)
  }

  function ExtractOSInfo(kd: KeyDescription, policy: Policy): Result<(int, int), VerifyError> {
    match OsTag(kd, policy.requireHardwareBacked, TAG_OS_VERSION)
    case Err(e) => Err(e)
    case Ok(version) =>
      match OsTag(kd, policy.requireHardwareBacked, TAG_OS_PATCH)
      case Err(e) => Err(e)
      case Ok(patch) =>
        if policy.minOsVersion > 0 && version == 0 then Err(OsVersionMissing)
        else if policy.minOsVersion > 0 && version < policy.minOsVersion then Err(OsVersionTooLow)
        else if policy.minPatchLevel > 0 && patch == 0 then Err(PatchLevelMissing)
        else if policy.minPatchLevel > 0 && patch < policy.minPatchLevel then Err(PatchLevelTooLow)
        else Ok((version, patch))
  }

  function SelectRootOfTrust(pki: Pki, policy: Policy, kd: KeyDescription): Result<Option<RootOfTrust>, VerifyError> {
    match FindRootOfTrust(pki, kd.teeEnforced)
    case Err(e) => Err(e)
    case Ok(Some(rot)) => Ok(Some(rot))
    case Ok(None) =>
      if policy.requireHardwareBacked then Ok(None) else FindRootOfTrust(pki, kd.softwareEnforced)
  }

  function SoftwareRecord(challenge: bytes): AttestationRecord {
    AttestationRecord(0, SOFTWARE, 0, SOFTWARE, challenge, false, 0, [], 0, 0)
  }

  /** Steps 5 to 9: the key description against the expected challenge and the policy. */
  function JudgeKeyDescription(pki: Pki, policy: Policy, kd: KeyDescription, expected: bytes)
    : Result<AttestationRecord, VerifyError>
  {
    if kd.attestationChallenge != expected then Err(ChallengeMismatch)
    else if policy.requireHardwareBacked && !HardwareLevel(kd.attestationSecurityLevel) then
      Err(UntrustedAttestationLevel)
    else if policy.requireHardwareBacked && !HardwareLevel(kd.keymasterSecurityLevel) then Err(UntrustedKeymasterLevel)
    else
      match SelectRootOfTrust(pki, policy, kd)
      case Err(e) => Err(e)
      case Ok(root) =>
        var appIdError := if policy.expectedPackageName == "" then None
                          else VerifyApplicationId(pki, kd, policy.expectedPackageName);
        if appIdError.Some? then Err(appIdError.value)
        else
          match ExtractOSInfo(kd, policy)
          case Err(e) => Err(e)
          case Ok((version, patch)) =>
            var record := AttestationRecord(
              kd.attestationVersion, kd.attestationSecurityLevel, kd.keymasterVersion,
              kd.keymasterSecurityLevel, kd.attestationChallenge, false, 0, [], version, patch);
            match root
            case None =>
              if policy.requireVerifiedBoot || policy.requireDeviceLocked then Err(RootOfTrustMissing) else Ok(record)
            case Some(rot) =>
              if policy.requireDeviceLocked && !rot.deviceLocked then Err(DeviceUnlocked)
              else if policy.requireVerifiedBoot && rot.verifiedBootState != BOOT_VERIFIED then Err(BootUntrusted)
              else Ok(record.(deviceLocked := rot.deviceLocked, verifiedBootState := rot.verifiedBootState,
                              verifiedBootKey := rot.verifiedBootKey))
  }

  /** Step 2. A nil CSR key skips the comparison. */
  function KeyProblem(pki: Pki, leaf: AttestationCert, csrKey: Option<PublicKey>): Option<VerifyError> {
    if csrKey.None? then None
    else
      var leafDER, csrDER := MarshalKey(pki, leaf.key), MarshalKey(pki, csrKey);
      if leafDER.None? || csrDER.None? then Some(KeyUnmarshalable)
      else if leafDER != csrDER then Some(KeyMismatch)
      else None
  }

  /** Steps 1 to 4, on the parsed chain. */
  function JudgeChain(pki: Pki, policy: Policy, now: int, certs: seq<AttestationCert>, expected: bytes,
                      csrKey: Option<PublicKey>): Result<AttestationRecord, VerifyError>
    requires |certs| > 0
  {
    if !policy.skipChainValidation && !pki.chainVerifies(certs, now) then Err(ChainUntrusted)
    else
      var keyError := KeyProblem(pki, certs[0], csrKey);
      if keyError.Some? then Err(keyError.value) else JudgeLeaf(pki, policy, certs[0], expected)
  }

  /** Steps 3 and 4: the leaf's attestation extension. */
  function JudgeLeaf(pki: Pki, policy: Policy, leaf: AttestationCert, expected: bytes)
    : Result<AttestationRecord, VerifyError>
  {
    var value := FindExtension(leaf.extensions);
    if value.None? || |value.value| == 0 then
      if policy.allowEmptyAttestation then Ok(SoftwareRecord(expected)) else Err(ExtensionMissing)
    else
      match pki.parseKeyDescription(value.value)
      case None => Err(BadKeyDescription)
      case Some(kd) => JudgeKeyDescription(pki, policy, kd, expected)
  }

  /** The whole decision. `answers` is absent when no status list client is attached. */
  function VerifyAttestation(pki: Pki, policy: Policy, now: int, answers: Option<Answers>, chainDER: seq<bytes>,
                             expected: bytes, csrKey: Option<PublicKey>): Result<AttestationRecord, VerifyError>
  {
    if |chainDER| == 0 then
      if policy.allowEmptyAttestation then Ok(SoftwareRecord(expected)) else Err(ChainEmpty)
    else if |chainDER| < 2 && !policy.allowEmptyAttestation then Err(ChainTooShort)
    else if |chainDER| > MAX_CHAIN_CERTIFICATES then Err(ChainTooLong)
    else
      match ParseChain(pki, chainDER, 0)
      case Err(e) => Err(e)
      case Ok(certs) =>
        var listed := if policy.checkRevocationList && answers.Some?
                      then RevocationProblem(answers.value, |certs|, 0) else None;
        if listed.Some? then Err(listed.value)
        else
          ParseChainHead(pki, chainDER, 0);
          JudgeChain(pki, policy, now, certs, expected, csrKey)
  }

  // ------------------------------------------------------- strict acceptance

  /** Production policies: hardware keys, validated chains, nothing may be left out. */
  predicate Strict(policy: Policy) {
    policy.requireHardwareBacked && !policy.skipChainValidation && !policy.allowEmptyAttestation
  }

  /** The chain verifies at time `t`, its leaf carries the CSR's key (when the CSR has one) and
      this challenge, and the level is a hardware level. */
  ghost predicate Attests(pki: Pki, chainDER: seq<bytes>, csrKey: Option<PublicKey>, challenge: bytes, level: int,
                          t: int)
  {
    var certs := ParseChain(pki, chainDER, 0);
    && |chainDER| >= 2 && certs.Ok? && |certs.value| == |chainDER|
    && pki.parseCertificate(chainDER[0]) == Some(certs.value[0])
    && pki.chainVerifies(certs.value, t)
    && (csrKey.Some? ==> PublicKeyFingerprint(pki, certs.value[0].key) == PublicKeyFingerprint(pki, csrKey))
    && ExtractChallenge(pki, chainDER) == Ok(challenge)
    && JudgedDescription(pki, chainDER).Some?
    && JudgedDescription(pki, chainDER).value.attestationSecurityLevel == level && HardwareLevel(level)
  }

  lemma StrictAcceptanceAttests(pki: Pki, policy: Policy, now: int, answers: Option<Answers>, chainDER: seq<bytes>,
                                expected: bytes, csrKey: Option<PublicKey>)
    requires Strict(policy) && VerifyAttestation(pki, policy, now, answers, chainDER, expected, csrKey).Ok?
    ensures var record := VerifyAttestation(pki, policy, now, answers, chainDER, expected, csrKey).value;
            Attests(pki, chainDER, csrKey, expected, record.attestationSecurityLevel, now)
  {
    AcceptedIsJudged(pki, policy, now, answers, chainDER, expected, csrKey);
    ParseChainHead(pki, chainDER, 0);
  }

  /** The key description the verifier judges, when it gets that far. */
  function JudgedDescription(pki: Pki, chainDER: seq<bytes>): Option<KeyDescription> {
    if |chainDER| == 0 then None
    else
      match pki.parseCertificate(chainDER[0])
      case None => None
      case Some(leaf) =>
        match FindExtension(leaf.extensions)
        case None => None
        case Some(value) => if |value| == 0 then None else pki.parseKeyDescription(value)
  }

  /** The root of trust, application id and OS findings that a hardware-backed acceptance rests
      on all come from the TEE list, save that the application id may stand in the software list
      when the TEE list has none. */
  ghost predicate MeetsPolicy(pki: Pki, policy: Policy, kd: KeyDescription, record: AttestationRecord) {
    && HardwareLevel(kd.attestationSecurityLevel) && HardwareLevel(kd.keymasterSecurityLevel)
    && record.attestationSecurityLevel == kd.attestationSecurityLevel
    && record.keymasterSecurityLevel == kd.keymasterSecurityLevel
    && record.attestationChallenge == kd.attestationChallenge
    && (policy.requireDeviceLocked || policy.requireVerifiedBoot ==>
         exists rot: RootOfTrust :: FindRootOfTrust(pki, kd.teeEnforced) == Ok(Some(rot))
           && (policy.requireDeviceLocked ==> rot.deviceLocked)
           && (policy.requireVerifiedBoot ==> rot.verifiedBootState == BOOT_VERIFIED)
           && record.deviceLocked == rot.deviceLocked && record.verifiedBootState == rot.verifiedBootState
           && record.verifiedBootKey == rot.verifiedBootKey)
    && FindIntTag(kd.teeEnforced, TAG_OS_VERSION) == Ok(record.osVersion)
    && FindIntTag(kd.teeEnforced, TAG_OS_PATCH) == Ok(record.osPatchLevel)
    && (policy.minOsVersion > 0 ==> record.osVersion >= policy.minOsVersion)
    && (policy.minPatchLevel > 0 ==> record.osPatchLevel >= policy.minPatchLevel)
    && (policy.expectedPackageName != "" ==>
         exists list: bytes, raw: RawValue, packages: seq<string> :: list in {kd.teeEnforced, kd.softwareEnforced}
           && FindTagged(list, TAG_ATTESTATION_APPLICATION_ID) == Ok(Some(raw))
           && pki.parseApplicationId(raw.content) == Some(packages) && policy.expectedPackageName in packages)
  }

  lemma JudgedMeetsPolicy(pki: Pki, policy: Policy, kd: KeyDescription, expected: bytes)
    requires policy.requireHardwareBacked && JudgeKeyDescription(pki, policy, kd, expected).Ok?
    ensures MeetsPolicy(pki, policy, kd, JudgeKeyDescription(pki, policy, kd, expected).value)
    ensures kd.attestationChallenge == expected
  {
    if policy.expectedPackageName != "" {
      var tee, software := kd.teeEnforced, kd.softwareEnforced;
      var listed := FindTagged(tee, TAG_ATTESTATION_APPLICATION_ID);
      var list := if listed.Ok? && listed.value.Some? then tee else software;
      var raw := FindTagged(list, TAG_ATTESTATION_APPLICATION_ID).value.value;
      assert policy.expectedPackageName in pki.parseApplicationId(raw.content).value;
      assert list in {tee, software};
    }
  }

  lemma {:induction false} NoProblemMeansAllClear(answers: Answers, count: nat, from: nat)
    requires from <= count
    ensures RevocationProblem(answers, count, from).None? <==>
            forall i: nat :: from <= i < count ==> answers(i) == Ok(false)
    decreases count - from
  {
    if from < count {
      NoProblemMeansAllClear(answers, count, from + 1);
    }
  }

  /** An accepted chain parses, is cleared by the status list, and is judged. */
  lemma AcceptedIsParsed(pki: Pki, policy: Policy, now: int, answers: Option<Answers>, chainDER: seq<bytes>,
                         expected: bytes, csrKey: Option<PublicKey>) returns (certs: seq<AttestationCert>)
    requires !policy.allowEmptyAttestation
    requires VerifyAttestation(pki, policy, now, answers, chainDER, expected, csrKey).Ok?
    ensures |chainDER| > 0 && |certs| == |chainDER| && ParseChain(pki, chainDER, 0) == Ok(certs)
    ensures VerifyAttestation(pki, policy, now, answers, chainDER, expected, csrKey)
            == JudgeChain(pki, policy, now, certs, expected, csrKey)
    ensures policy.checkRevocationList && answers.Some? ==> RevocationProblem(answers.value, |chainDER|, 0).None?
  {
    certs := ParseChain(pki, chainDER, 0).value;
    ParseChainHead(pki, chainDER, 0);
  }

  lemma JudgedOnLeaf(pki: Pki, policy: Policy, now: int, chainDER: seq<bytes>, certs: seq<AttestationCert>,
                     expected: bytes, csrKey: Option<PublicKey>)
    requires |chainDER| > 0 && |certs| > 0 && pki.parseCertificate(chainDER[0]) == Some(certs[0])
    requires !policy.allowEmptyAttestation && JudgeChain(pki, policy, now, certs, expected, csrKey).Ok?
    ensures JudgedDescription(pki, chainDER).Some?
    ensures JudgeChain(pki, policy, now, certs, expected, csrKey)
            == JudgeKeyDescription(pki, policy, JudgedDescription(pki, chainDER).value, expected)
  {
  }

  /** Without the development bypass the record is the judgement of the leaf's key description. */
  lemma AcceptedIsJudged(pki: Pki, policy: Policy, now: int, answers: Option<Answers>, chainDER: seq<bytes>,
                         expected: bytes, csrKey: Option<PublicKey>)
    requires !policy.allowEmptyAttestation
    requires VerifyAttestation(pki, policy, now, answers, chainDER, expected, csrKey).Ok?
    ensures JudgedDescription(pki, chainDER).Some?
    ensures VerifyAttestation(pki, policy, now, answers, chainDER, expected, csrKey)
            == JudgeKeyDescription(pki, policy, JudgedDescription(pki, chainDER).value, expected)
    ensures policy.checkRevocationList && answers.Some? ==> RevocationProblem(answers.value, |chainDER|, 0).None?
  {
    var certs := AcceptedIsParsed(pki, policy, now, answers, chainDER, expected, csrKey);
    ParseChainHead(pki, chainDER, 0);
    JudgedOnLeaf(pki, policy, now, chainDER, certs, expected, csrKey);
  }

  /** A strict acceptance: the judged key description meets every requirement the policy switches
      on, and the status list cleared every certificate of the chain. */
  lemma StrictAcceptanceMeetsPolicy(pki: Pki, policy: Policy, now: int, answers: Option<Answers>, chainDER: seq<bytes>,
                                    expected: bytes, csrKey: Option<PublicKey>)
    requires Strict(policy) && VerifyAttestation(pki, policy, now, answers, chainDER, expected, csrKey).Ok?
    ensures var kd := JudgedDescription(pki, chainDER);
            kd.Some? && MeetsPolicy(pki, policy, kd.value,
                                    VerifyAttestation(pki, policy, now, answers, chainDER, expected, csrKey).value)
    ensures policy.checkRevocationList && answers.Some? ==>
              forall i: nat :: i < |chainDER| ==> answers.value(i) == Ok(false)
  {
    AcceptedIsJudged(pki, policy, now, answers, chainDER, expected, csrKey);
    JudgedMeetsPolicy(pki, policy, JudgedDescription(pki, chainDER).value, expected);
    if policy.checkRevocationList && answers.Some? {
      NoProblemMeansAllClear(answers.value, |chainDER|, 0);
    }
  }

  /** With hardware backing required, nothing in the software list can change the decision or the
      record when no package is expected or the TEE list settles the application id. */
  lemma SoftwareListIgnored(pki: Pki, policy: Policy, kd: KeyDescription, other: bytes, expected: bytes)
    requires policy.requireHardwareBacked
    requires policy.expectedPackageName == "" || FindTagged(kd.teeEnforced, TAG_ATTESTATION_APPLICATION_ID) != Ok(None)
    ensures JudgeKeyDescription(pki, policy, kd.(softwareEnforced := other), expected)
            == JudgeKeyDescription(pki, policy, kd, expected)
  {
    var kd' := kd.(softwareEnforced := other);
    assert SelectRootOfTrust(pki, policy, kd') == SelectRootOfTrust(pki, policy, kd);
    assert ExtractOSInfo(kd', policy) == ExtractOSInfo(kd, policy);
    var package := policy.expectedPackageName;
    assert package != "" ==> VerifyApplicationId(pki, kd', package) == VerifyApplicationId(pki, kd, package);
  }

  // ------------------------------------------------------ extraction agreement

  /** The challenge the handler passes on: the extracted one, or none when extraction failed. */
  function HandlerChallenge(pki: Pki, chainDER: seq<bytes>): bytes {
    match ExtractChallenge(pki, chainDER)
    case Err(_) => []
    case Ok(challenge) => challenge
  }

  lemma OwnChallengeNeverMismatches(pki: Pki, policy: Policy, kd: KeyDescription)
    ensures JudgeKeyDescription(pki, policy, kd, kd.attestationChallenge) != Err(ChallengeMismatch)
  {
  }

  /** Both sides select the first matching extension and decode it alike. */
  lemma ChainChallengeAgreement(pki: Pki, policy: Policy, now: int, certs: seq<AttestationCert>, chainDER: seq<bytes>,
                                csrKey: Option<PublicKey>)
    requires |certs| > 0 && |chainDER| > 0 && pki.parseCertificate(chainDER[0]) == Some(certs[0])
    ensures JudgeChain(pki, policy, now, certs, HandlerChallenge(pki, chainDER), csrKey) != Err(ChallengeMismatch)
  {
    var value := FindExtension(certs[0].extensions);
    if value.Some? && pki.parseKeyDescription(value.value).Some? {
      OwnChallengeNeverMismatches(pki, policy, pki.parseKeyDescription(value.value).value);
    }
  }

  /** Called as the handler calls it, the verifier never reports a challenge mismatch. */
  lemma ExtractionAgreement(pki: Pki, policy: Policy, now: int, answers: Option<Answers>, chainDER: seq<bytes>,
                            csrKey: Option<PublicKey>)
    ensures VerifyAttestation(pki, policy, now, answers, chainDER, HandlerChallenge(pki, chainDER), csrKey)
            != Err(ChallengeMismatch)
  {
    if |chainDER| > 0 {
      ParseNeverMismatch(pki, chainDER, 0);
      var parsed := ParseChain(pki, chainDER, 0);
      if parsed.Ok? {
        ParseChainHead(pki, chainDER, 0);
        RevocationNeverMismatch(answers, |chainDER|, 0);
        ChainChallengeAgreement(pki, policy, now, parsed.value, chainDER, csrKey);
      }
    }
  }

  lemma {:induction false} ParseNeverMismatch(pki: Pki, chainDER: seq<bytes>, from: nat)
    requires from <= |chainDER|
    ensures ParseChain(pki, chainDER, from) != Err(ChallengeMismatch)
    decreases |chainDER| - from
  {
    if from < |chainDER| {
      ParseNeverMismatch(pki, chainDER, from + 1);
    }
  }

  lemma {:induction false} RevocationNeverMismatch(answers: Option<Answers>, count: nat, from: nat)
    requires from <= count
    ensures answers.Some? ==> RevocationProblem(answers.value, count, from) != Some(ChallengeMismatch)
    decreases count - from
  {
    if from < count {
      RevocationNeverMismatch(answers, count, from + 1);
    }
  }

  // -------------------------------------------------------- policy monotonicity

  /** `weak` asks for no more than `strong` does, field by field. */
  predicate Weaker(weak: Policy, strong: Policy) {
    && (weak.requireHardwareBacked ==> strong.requireHardwareBacked)
    && (weak.requireDeviceLocked ==> strong.requireDeviceLocked)
    && (weak.requireVerifiedBoot ==> strong.requireVerifiedBoot)
    && (strong.skipChainValidation ==> weak.skipChainValidation)
    && (strong.allowEmptyAttestation ==> weak.allowEmptyAttestation)
    && (weak.expectedPackageName == "" || weak.expectedPackageName == strong.expectedPackageName)
    && (weak.minOsVersion > 0 ==> weak.minOsVersion <= strong.minOsVersion)
    && (weak.minPatchLevel > 0 ==> weak.minPatchLevel <= strong.minPatchLevel)
    && (weak.checkRevocationList ==> strong.checkRevocationList)
  }

  predicate SameFindings(a: AttestationRecord, b: AttestationRecord) {
    && a.attestationSecurityLevel == b.attestationSecurityLevel
    && a.keymasterSecurityLevel == b.keymasterSecurityLevel
    && a.attestationChallenge == b.attestationChallenge
    && a.deviceLocked == b.deviceLocked
    && a.verifiedBootState == b.verifiedBootState
    && a.verifiedBootKey == b.verifiedBootKey
  }

  /** Dropping the hardware requirement makes the verifier look for a root of trust in the
      software list. This is the case in which that look-up itself fails. */
  predicate SoftwareRootUnreadable(pki: Pki, weak: Policy, strong: Policy, chainDER: seq<bytes>) {
    var kd := JudgedDescription(pki, chainDER);
    && strong.requireHardwareBacked && !weak.requireHardwareBacked && kd.Some?
    && FindRootOfTrust(pki, kd.value.teeEnforced) == Ok(None)
    && FindRootOfTrust(pki, kd.value.softwareEnforced).Err?
  }

  lemma OsInfoMonotone(kd: KeyDescription, weak: Policy, strong: Policy)
    requires Weaker(weak, strong) && ExtractOSInfo(kd, strong).Ok?
    ensures ExtractOSInfo(kd, weak).Ok?
  {
    OsTagMonotone(kd, weak, strong, TAG_OS_VERSION);
    OsTagMonotone(kd, weak, strong, TAG_OS_PATCH);
  }

  /** A value the strong policy read from the TEE list is the value the weak policy reads. */
  lemma OsTagMonotone(kd: KeyDescription, weak: Policy, strong: Policy, tag: int)
    requires Weaker(weak, strong) && OsTag(kd, strong.requireHardwareBacked, tag).Ok?
    ensures OsTag(kd, weak.requireHardwareBacked, tag).Ok?
    ensures OsTag(kd, strong.requireHardwareBacked, tag).value != 0 ==>
              OsTag(kd, weak.requireHardwareBacked, tag) == OsTag(kd, strong.requireHardwareBacked, tag)
  {
  }

  /** What an accepted key description has to pass, requirement by requirement. */
  predicate Passes(pki: Pki, policy: Policy, kd: KeyDescription, expected: bytes) {
    && kd.attestationChallenge == expected
    && (policy.requireHardwareBacked ==>
          HardwareLevel(kd.attestationSecurityLevel) && HardwareLevel(kd.keymasterSecurityLevel))
    && (policy.expectedPackageName != "" ==> VerifyApplicationId(pki, kd, policy.expectedPackageName).None?)
    && ExtractOSInfo(kd, policy).Ok?
    && var root := SelectRootOfTrust(pki, policy, kd);
      root.Ok? && RootSuffices(policy, root.value)
  }

  predicate RootSuffices(policy: Policy, root: Option<RootOfTrust>) {
    && (policy.requireDeviceLocked ==> root.Some? && root.value.deviceLocked)
    && (policy.requireVerifiedBoot ==> root.Some? && root.value.verifiedBootState == BOOT_VERIFIED)
  }

  function FindingsOf(kd: KeyDescription, root: Option<RootOfTrust>): AttestationRecord {
    var rot := if root.Some? then root.value else RootOfTrust([], false, 0);
    AttestationRecord(kd.attestationVersion, kd.attestationSecurityLevel, kd.keymasterVersion,
                      kd.keymasterSecurityLevel, kd.attestationChallenge, rot.deviceLocked, rot.verifiedBootState,
                      rot.verifiedBootKey, 0, 0)
  }

  /** A key description is accepted exactly when it passes, and the findings are its own and those
      of the selected root of trust. */
  lemma AcceptedExactly(pki: Pki, policy: Policy, kd: KeyDescription, expected: bytes)
    ensures JudgeKeyDescription(pki, policy, kd, expected).Ok? <==> Passes(pki, policy, kd, expected)
    ensures Passes(pki, policy, kd, expected) ==>
              SameFindings(JudgeKeyDescription(pki, policy, kd, expected).value,
                           FindingsOf(kd, SelectRootOfTrust(pki, policy, kd).value))
  {
  }

  lemma JudgeMonotone(pki: Pki, weak: Policy, strong: Policy, kd: KeyDescription, expected: bytes)
    requires Weaker(weak, strong) && JudgeKeyDescription(pki, strong, kd, expected).Ok?
    ensures JudgeKeyDescription(pki, weak, kd, expected).Ok? <==>
            !(strong.requireHardwareBacked && !weak.requireHardwareBacked
              && FindRootOfTrust(pki, kd.teeEnforced) == Ok(None) && FindRootOfTrust(pki, kd.softwareEnforced).Err?)
    ensures (strong.requireDeviceLocked || strong.requireVerifiedBoot) ==>
              JudgeKeyDescription(pki, weak, kd, expected).Ok?
              && SameFindings(JudgeKeyDescription(pki, weak, kd, expected).value,
                              JudgeKeyDescription(pki, strong, kd, expected).value)
  {
    AcceptedExactly(pki, strong, kd, expected);
    AcceptedExactly(pki, weak, kd, expected);
    OsInfoMonotone(kd, weak, strong);
  }

  /** What a strong policy accepts, a weaker one accepts too, except exactly when dropping the
      hardware requirement exposes an unreadable software root of trust. */
  lemma AcceptanceMonotoneExactly(pki: Pki, weak: Policy, strong: Policy, now: int, answers: Option<Answers>,
                                  chainDER: seq<bytes>, expected: bytes, csrKey: Option<PublicKey>)
    requires Weaker(weak, strong)
    requires VerifyAttestation(pki, strong, now, answers, chainDER, expected, csrKey).Ok?
    ensures VerifyAttestation(pki, weak, now, answers, chainDER, expected, csrKey).Ok?
            <==> !SoftwareRootUnreadable(pki, weak, strong, chainDER)
  {
    if |chainDER| > 0 {
      ParseChainHead(pki, chainDER, 0);
      var kd := JudgedDescription(pki, chainDER);
      if kd.Some? {
        JudgeMonotone(pki, weak, strong, kd.value, expected);
      }
    }
  }

  /** A library that parses every certificate to a leaf with one attestation extension, verifies
      every chain, and decodes the extension to `kd`. */
  function LibraryFor(kd: KeyDescription): Pki {
    var leaf := AttestationCert(Some(PublicKey(0)), [Extension(KEY_ATTESTATION_OID, [1])]);
    Pki(_ => Some(leaf), _ => None, (_, _) => true, _ => Some([]), _ => "", _ => Some(kd), _ => None, _ => None)
  }

  /** The exception is not empty: a hardware key with an empty TEE list and a software list that is
      not DER is accepted with hardware backing required, and refused once it is not. */
  lemma WeakerPolicyCanRefuse()
    ensures exists pki, weak, strong, chainDER, expected ::
              && Weaker(weak, strong) && Strict(strong) && Strict(weak.(requireHardwareBacked := true))
              && VerifyAttestation(pki, strong, 0, None, chainDER, expected, None).Ok?
              && VerifyAttestation(pki, weak, 0, None, chainDER, expected, None) == Err(BadAuthorizationList)
  {
    var level := TRUSTED_ENVIRONMENT;
    var kd := KeyDescription(3, level, 3, level, [9], [5], []);
    var pki, chainDER := LibraryFor(kd), [[0], [0]];
    var strong := Policy(true, false, false, false, false, "", 0, 0, false);
    var weak := strong.(requireHardwareBacked := false);
    ParseChainHead(pki, chainDER, 0);
    assert UnmarshalRawValues([5]) == Err(Truncated);
    assert FindTagged([], TAG_ROOT_OF_TRUST) == Ok(None);
    assert ParseChain(pki, chainDER, 2) == Ok([]);
    assert ParseChain(pki, chainDER, 1).Ok?;
    assert ParseChain(pki, chainDER, 0).Ok?;
    assert JudgeKeyDescription(pki, strong, kd, [9]).Ok?;
    assert JudgeKeyDescription(pki, weak, kd, [9]) == Err(BadAuthorizationList);
    assert VerifyAttestation(pki, strong, 0, None, chainDER, [9], None).Ok?;
    assert VerifyAttestation(pki, weak, 0, None, chainDER, [9], None) == Err(BadAuthorizationList);
  }

  /** A strong policy that requires a locked device or verified boot never meets that
      exception, and the record's levels, challenge, lock and boot fields do not depend on
      which of the two policies accepted. */
  lemma PolicyMonotone(pki: Pki, weak: Policy, strong: Policy, now: int, answers: Option<Answers>,
                       chainDER: seq<bytes>, expected: bytes, csrKey: Option<PublicKey>)
    requires Weaker(weak, strong) && (strong.requireDeviceLocked || strong.requireVerifiedBoot)
    requires VerifyAttestation(pki, strong, now, answers, chainDER, expected, csrKey).Ok?
    ensures VerifyAttestation(pki, weak, now, answers, chainDER, expected, csrKey).Ok?
    ensures SameFindings(VerifyAttestation(pki, weak, now, answers, chainDER, expected, csrKey).value,
                         VerifyAttestation(pki, strong, now, answers, chainDER, expected, csrKey).value)
  {
    if |chainDER| > 0 {
      ParseChainHead(pki, chainDER, 0);
      var kd := JudgedDescription(pki, chainDER);
      if kd.Some? {
        JudgeMonotone(pki, weak, strong, kd.value, expected);
      }
    }
  }
}
