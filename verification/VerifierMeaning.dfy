/** What the verifier's decision means for the contents of a chain and of its two authorization lists,
    said without the functions that compute it: element by element, with the numbers the key
    attestation extension uses. */
module VerifierMeaning {
  import opened Prelude
  import opened Attestation
  import opened Der
  import opened Verifier

  // ---------------------------------------------------------------- the two lists

  /** The bytes hold these elements: a printed list with anything behind it, or nothing at all. */
  ghost predicate ListOf(b: bytes, es: seq<RawValue>) {
    (b == [] && es == []) || exists trailing :: PrintableList(es) && b == PrintList(es) + trailing
  }

  ghost predicate Lacks(es: seq<RawValue>, tag: int) {
    forall e :: e in es ==> e.tag != tag
  }

  lemma FoundIn(b: bytes, es: seq<RawValue>, tag: int)
    requires ListOf(b, es)
    ensures FindTagged(b, tag) == Ok(None) <==> Lacks(es, tag)
    ensures forall k :: FirstAt(es, tag, k) ==> FindTagged(b, tag) == Ok(Some(es[k]))
    ensures FindTagged(b, tag).Ok? && (!Lacks(es, tag) ==> exists k :: FirstAt(es, tag, k))
  {
    if b != [] {
      var trailing :| PrintableList(es) && b == PrintList(es) + trailing;
      ListRoundTrip(es, trailing);
      forall k: nat
        ensures FindTagged(b, tag) == Ok(None) <==> Lacks(es, tag)
        ensures FirstAt(es, tag, k) ==> FindTagged(b, tag) == Ok(Some(es[k]))
      {
        FindTaggedInPrintedList(es, tag, trailing, k);
      }
    }
    SomeFirst(es, tag);
  }

  lemma {:induction false} SomeFirst(es: seq<RawValue>, tag: int)
    ensures !Lacks(es, tag) ==> exists k :: FirstAt(es, tag, k)
  {
    if |es| > 0 && es[0].tag == tag {
      assert FirstAt(es, tag, 0);
    } else if !Lacks(es, tag) {
      assert es == [es[0]] + es[1..];
      SomeFirst(es[1..], tag);
      var k :| FirstAt(es[1..], tag, k);
      forall j | 0 <= j < k + 1
        ensures es[j].tag != tag
      {
        assert j > 0 ==> es[1..][j - 1] == es[j];
      }
      assert FirstAt(es, tag, k + 1);
    }
  }

  lemma UnreadableList(b: bytes, tag: int)
    requires forall es :: !ListOf(b, es)
    ensures FindTagged(b, tag).Err?
  {
    assert !ListOf(b, []);
    if FindTagged(b, tag).Ok? {
      var es := UnmarshalRawValues(b).value;
      ListReadExactly(b, es);
      assert ListOf(b, es);
    }
  }

  /** The first element with the tag holds the integer; an absent tag counts as 0. */
  ghost predicate IntAt(es: seq<RawValue>, tag: int, v: int) {
    (v == 0 && Lacks(es, tag)) || exists k :: FirstAt(es, tag, k) && UnmarshalInt(es[k].content) == Ok(v)
  }

  lemma IntRead(b: bytes, es: seq<RawValue>, tag: int, v: int)
    requires ListOf(b, es)
    ensures FindIntTag(b, tag) == Ok(v) <==> IntAt(es, tag, v)
  {
    FoundIn(b, es, tag);
    if !Lacks(es, tag) {
      var k :| FirstAt(es, tag, k);
      assert forall j :: FirstAt(es, tag, j) ==> j == k;
    }
  }

  /** The first element with tag 704 is this root of trust; none stands for its absence. */
  ghost predicate RootAt(pki: Pki, es: seq<RawValue>, rot: Option<RootOfTrust>) {
    if rot.None? then Lacks(es, 704)
    else exists k :: FirstAt(es, 704, k) && pki.parseRootOfTrust(es[k].content) == rot
  }

  lemma RootRead(pki: Pki, b: bytes, es: seq<RawValue>, rot: Option<RootOfTrust>)
    requires ListOf(b, es)
    ensures FindRootOfTrust(pki, b) == Ok(rot) <==> RootAt(pki, es, rot)
  {
    FoundIn(b, es, 704);
    if !Lacks(es, 704) {
      var k :| FirstAt(es, 704, k);
      assert forall j :: FirstAt(es, 704, j) ==> j == k;
    }
  }

  /** The first element with tag 709 lists the package. */
  ghost predicate PackageAt(pki: Pki, es: seq<RawValue>, name: string) {
    exists k :: FirstAt(es, 709, k) && pki.parseApplicationId(es[k].content).Some?
                && name in pki.parseApplicationId(es[k].content).value
  }

  /** Literal lists: an empty one holds nothing, and one with an OS version holds just that. */
  lemma LiteralLists()
    ensures FindTagged([0x30, 0x00], 704) == Ok(None) && FindIntTag([0x30, 0x00], 705) == Ok(0)
    ensures var list := [0x30, 0x09, 0xBF, 0x85, 0x41, 0x05, 0x02, 0x03, 0x02, 0x22, 0xE0];
            FindIntTag(list, 705) == Ok(140000) && FindIntTag(list, 706) == Ok(0)
  {
    EmptyListOctets();
    OsVersionListOctets();
    OsVersionRead();
    assert FirstWithTag([OS_VERSION_ELEMENT], 705) == Some(OS_VERSION_ELEMENT);
    assert FirstWithTag([], 706) == None && FirstWithTag([OS_VERSION_ELEMENT], 706) == None;
  }

  // -------------------------------------------------------------- one key description

  /** The lists of a key description; the software list may be unreadable. */
  ghost predicate Decoded(kd: KeyDescription, tee: seq<RawValue>, soft: Option<seq<RawValue>>) {
    && ListOf(kd.teeEnforced, tee)
    && match soft
       case Some(es) => ListOf(kd.softwareEnforced, es)
       case None => forall es :: !ListOf(kd.softwareEnforced, es)
  }

  /** The root of trust that counts: the TEE list's, or the software list's if the TEE list has none and
      hardware backing is not required. */
  ghost predicate RootChosen(pki: Pki, hardware: bool, tee: seq<RawValue>, soft: Option<seq<RawValue>>,
                             rot: Option<RootOfTrust>)
  {
    if hardware || !Lacks(tee, 704) then RootAt(pki, tee, rot) else soft.Some? && RootAt(pki, soft.value, rot)
  }

  /** The OS value that counts: the TEE list's, or, if that is absent or zero and hardware backing is not
      required, the software list's when it can be read. */
  ghost predicate OsChosen(hardware: bool, tee: seq<RawValue>, soft: Option<seq<RawValue>>, tag: int, v: int) {
    if hardware || !IntAt(tee, tag, 0) then IntAt(tee, tag, v)
    else if soft.Some? && exists w :: IntAt(soft.value, tag, w) then IntAt(soft.value, tag, v)
    else v == 0
  }

  ghost predicate PackageChosen(pki: Pki, tee: seq<RawValue>, soft: Option<seq<RawValue>>, name: string) {
    PackageAt(pki, tee, name) || (Lacks(tee, 709) && soft.Some? && PackageAt(pki, soft.value, name))
  }

  ghost predicate RecordFrom(kd: KeyDescription, rot: Option<RootOfTrust>, record: AttestationRecord) {
    && record.attestationVersion == kd.attestationVersion && record.keymasterVersion == kd.keymasterVersion
    && record.attestationSecurityLevel == kd.attestationSecurityLevel
    && record.keymasterSecurityLevel == kd.keymasterSecurityLevel
    && record.attestationChallenge == kd.attestationChallenge
    && record.deviceLocked == (rot.Some? && rot.value.deviceLocked)
    && record.verifiedBootState == (if rot.Some? then rot.value.verifiedBootState else 0)
    && record.verifiedBootKey == (if rot.Some? then rot.value.verifiedBootKey else [])
  }

  /** The key description is accepted with this record. */
  ghost predicate Judged(pki: Pki, policy: Policy, kd: KeyDescription, expected: bytes, tee: seq<RawValue>,
                         soft: Option<seq<RawValue>>, record: AttestationRecord)
  {
    && kd.attestationChallenge == expected
    && (policy.requireHardwareBacked ==>
          kd.attestationSecurityLevel in {1, 2} && kd.keymasterSecurityLevel in {1, 2})
    && (policy.expectedPackageName != "" ==> PackageChosen(pki, tee, soft, policy.expectedPackageName))
    && OsChosen(policy.requireHardwareBacked, tee, soft, 705, record.osVersion)
    && OsChosen(policy.requireHardwareBacked, tee, soft, 706, record.osPatchLevel)
    && (policy.minOsVersion > 0 ==> record.osVersion >= policy.minOsVersion)
    && (policy.minPatchLevel > 0 ==> record.osPatchLevel >= policy.minPatchLevel)
    && exists rot :: RootChosen(pki, policy.requireHardwareBacked, tee, soft, rot) && RecordFrom(kd, rot, record)
         && (policy.requireDeviceLocked ==> rot.Some? && rot.value.deviceLocked)
         && (policy.requireVerifiedBoot ==> rot.Some? && rot.value.verifiedBootState == 0)
  }

  lemma RootSelected(pki: Pki, policy: Policy, kd: KeyDescription, tee: seq<RawValue>, soft: Option<seq<RawValue>>,
                     rot: Option<RootOfTrust>)
    requires Decoded(kd, tee, soft)
    ensures SelectRootOfTrust(pki, policy, kd) == Ok(rot) <==>
            RootChosen(pki, policy.requireHardwareBacked, tee, soft, rot)
  {
    RootRead(pki, kd.teeEnforced, tee, rot);
    RootRead(pki, kd.teeEnforced, tee, None);
    if soft.Some? {
      RootRead(pki, kd.softwareEnforced, soft.value, rot);
    } else {
      UnreadableList(kd.softwareEnforced, 704);
    }
  }

  lemma OsSelected(policy: Policy, kd: KeyDescription, tee: seq<RawValue>, soft: Option<seq<RawValue>>, tag: int,
                   v: int)
    requires Decoded(kd, tee, soft)
    ensures OsTag(kd, policy.requireHardwareBacked, tag) == Ok(v) <==>
            OsChosen(policy.requireHardwareBacked, tee, soft, tag, v)
  {
    IntRead(kd.teeEnforced, tee, tag, v);
    IntRead(kd.teeEnforced, tee, tag, 0);
    if soft.None? {
      UnreadableList(kd.softwareEnforced, tag);
    } else {
      IntRead(kd.softwareEnforced, soft.value, tag, v);
      var read := FindIntTag(kd.softwareEnforced, tag);
      if read.Ok? {
        IntRead(kd.softwareEnforced, soft.value, tag, read.value);
      }
      forall w | IntAt(soft.value, tag, w)
        ensures read == Ok(w)
      {
        IntRead(kd.softwareEnforced, soft.value, tag, w);
      }
    }
  }

  lemma PackageSelected(pki: Pki, kd: KeyDescription, tee: seq<RawValue>, soft: Option<seq<RawValue>>, name: string)
    requires Decoded(kd, tee, soft)
    ensures VerifyApplicationId(pki, kd, name).None? <==> PackageChosen(pki, tee, soft, name)
  {
    PackageFound(pki, kd.teeEnforced, tee, name);
    if soft.Some? {
      PackageFound(pki, kd.softwareEnforced, soft.value, name);
    } else {
      UnreadableList(kd.softwareEnforced, 709);
    }
  }

  lemma PackageFound(pki: Pki, b: bytes, es: seq<RawValue>, name: string)
    requires ListOf(b, es)
    ensures FindTagged(b, 709).Ok?
    ensures FindTagged(b, 709).value.None? <==> Lacks(es, 709)
    ensures !Lacks(es, 709) ==>
              (PackageListed(pki, FindTagged(b, 709).value.value.content, name).None? <==> PackageAt(pki, es, name))
    ensures Lacks(es, 709) ==> !PackageAt(pki, es, name)
  {
    FoundIn(b, es, 709);
    if !Lacks(es, 709) {
      var k :| FirstAt(es, 709, k);
      assert forall j :: FirstAt(es, 709, j) ==> j == k;
    }
  }

  lemma OsInfoSelected(policy: Policy, kd: KeyDescription, tee: seq<RawValue>, soft: Option<seq<RawValue>>,
                       version: int, patch: int)
    requires Decoded(kd, tee, soft)
    ensures ExtractOSInfo(kd, policy) == Ok((version, patch)) <==>
            && OsChosen(policy.requireHardwareBacked, tee, soft, 705, version)
            && OsChosen(policy.requireHardwareBacked, tee, soft, 706, patch)
            && (policy.minOsVersion > 0 ==> version >= policy.minOsVersion)
            && (policy.minPatchLevel > 0 ==> patch >= policy.minPatchLevel)
  {
    OsSelected(policy, kd, tee, soft, 705, version);
    OsSelected(policy, kd, tee, soft, 706, patch);
  }

  /** A key description whose TEE list can be read is accepted, with exactly this record, if and only if
      it is judged so on the contents of its lists. */
  lemma JudgedExactly(pki: Pki, policy: Policy, kd: KeyDescription, expected: bytes, tee: seq<RawValue>,
                      soft: Option<seq<RawValue>>, record: AttestationRecord)
    requires Decoded(kd, tee, soft)
    ensures JudgeKeyDescription(pki, policy, kd, expected) == Ok(record) <==>
            Judged(pki, policy, kd, expected, tee, soft, record)
  {
    OsInfoSelected(policy, kd, tee, soft, record.osVersion, record.osPatchLevel);
    PackageSelected(pki, kd, tee, soft, policy.expectedPackageName);
    forall rot
      ensures SelectRootOfTrust(pki, policy, kd) == Ok(rot) <==>
              RootChosen(pki, policy.requireHardwareBacked, tee, soft, rot)
    {
      RootSelected(pki, policy, kd, tee, soft, rot);
    }
    JudgedParts(pki, policy, kd, expected, record);
  }

  /** The steps of the judgement, as one condition. */
  lemma JudgedParts(pki: Pki, policy: Policy, kd: KeyDescription, expected: bytes, record: AttestationRecord)
    ensures JudgeKeyDescription(pki, policy, kd, expected) == Ok(record) <==>
            && kd.attestationChallenge == expected
            && (policy.requireHardwareBacked ==>
                  kd.attestationSecurityLevel in {1, 2} && kd.keymasterSecurityLevel in {1, 2})
            && (policy.expectedPackageName != "" ==> VerifyApplicationId(pki, kd, policy.expectedPackageName).None?)
            && ExtractOSInfo(kd, policy) == Ok((record.osVersion, record.osPatchLevel))
            && var root := SelectRootOfTrust(pki, policy, kd);
              && root.Ok? && RecordFrom(kd, root.value, record)
              && (policy.requireDeviceLocked ==> root.value.Some? && root.value.value.deviceLocked)
              && (policy.requireVerifiedBoot ==> root.value.Some? && root.value.value.verifiedBootState == 0)
  {
  }

  /** A key description whose TEE list cannot be read is never accepted. */
  lemma UnreadableTeeRefused(pki: Pki, policy: Policy, kd: KeyDescription, expected: bytes)
    requires forall es :: !ListOf(kd.teeEnforced, es)
    ensures JudgeKeyDescription(pki, policy, kd, expected).Err?
  {
    UnreadableList(kd.teeEnforced, 704);
  }

  /** The first element with tag 704 is a root of trust of a locked device in the verified boot state. */
  ghost predicate LockedRootAt(pki: Pki, es: seq<RawValue>, k: int, rot: RootOfTrust) {
    && FirstAt(es, 704, k) && pki.parseRootOfTrust(es[k].content) == Some(rot)
    && rot.deviceLocked && rot.verifiedBootState == 0
  }

  /** What the default strict policy asks of a key description. */
  ghost predicate StrictlySound(pki: Pki, kd: KeyDescription, expected: bytes, tee: seq<RawValue>) {
    && kd.attestationChallenge == expected
    && kd.attestationSecurityLevel in {1, 2} && kd.keymasterSecurityLevel in {1, 2}
    && (exists v :: IntAt(tee, 705, v)) && (exists v :: IntAt(tee, 706, v))
    && exists k, rot :: LockedRootAt(pki, tee, k, rot)
  }

  lemma StrictNeeds(pki: Pki, kd: KeyDescription, expected: bytes, tee: seq<RawValue>, soft: Option<seq<RawValue>>,
                    record: AttestationRecord)
    requires Judged(pki, DEFAULT_STRICT_POLICY, kd, expected, tee, soft, record)
    ensures StrictlySound(pki, kd, expected, tee)
  {
    var rot :| RootChosen(pki, true, tee, soft, rot) && rot.Some? && rot.value.deviceLocked
               && rot.value.verifiedBootState == 0;
    var k :| FirstAt(tee, 704, k) && pki.parseRootOfTrust(tee[k].content) == rot;
    assert LockedRootAt(pki, tee, k, rot.value);
  }

  lemma StrictSuffices(pki: Pki, kd: KeyDescription, expected: bytes, tee: seq<RawValue>, soft: Option<seq<RawValue>>)
    returns (record: AttestationRecord)
    requires StrictlySound(pki, kd, expected, tee)
    ensures Judged(pki, DEFAULT_STRICT_POLICY, kd, expected, tee, soft, record)
  {
    var version :| IntAt(tee, 705, version);
    var patch :| IntAt(tee, 706, patch);
    var k, rot :| LockedRootAt(pki, tee, k, rot);
    record := AttestationRecord(
      kd.attestationVersion, kd.attestationSecurityLevel, kd.keymasterVersion, kd.keymasterSecurityLevel,
      kd.attestationChallenge, rot.deviceLocked, rot.verifiedBootState, rot.verifiedBootKey, version, patch);
    assert RootAt(pki, tee, Some(rot));
    assert RootChosen(pki, true, tee, soft, Some(rot));
    assert RecordFrom(kd, Some(rot), record);
  }

  /** The default strict policy accepts a hardware key of a locked, verified device and nothing else. */
  lemma DefaultStrictExactly(pki: Pki, kd: KeyDescription, expected: bytes, tee: seq<RawValue>,
                             soft: Option<seq<RawValue>>)
    requires Decoded(kd, tee, soft)
    ensures JudgeKeyDescription(pki, DEFAULT_STRICT_POLICY, kd, expected).Ok? <==>
            StrictlySound(pki, kd, expected, tee)
  {
    var judged := JudgeKeyDescription(pki, DEFAULT_STRICT_POLICY, kd, expected);
    if judged.Ok? {
      JudgedExactly(pki, DEFAULT_STRICT_POLICY, kd, expected, tee, soft, judged.value);
      StrictNeeds(pki, kd, expected, tee, soft, judged.value);
    }
    if StrictlySound(pki, kd, expected, tee) {
      var record := StrictSuffices(pki, kd, expected, tee, soft);
      JudgedExactly(pki, DEFAULT_STRICT_POLICY, kd, expected, tee, soft, record);
    }
  }

  // --------------------------------------------------------------------- the chain

  ghost predicate FirstExtension(extensions: seq<Extension>, k: int) {
    && 0 <= k < |extensions| && extensions[k].oid == "1.3.6.1.4.1.11129.2.1.17"
    && forall j :: 0 <= j < k ==> extensions[j].oid != "1.3.6.1.4.1.11129.2.1.17"
  }

  lemma {:induction false} ExtensionFound(extensions: seq<Extension>)
    ensures forall k :: FirstExtension(extensions, k) ==> FindExtension(extensions) == Some(extensions[k].value)
    ensures FindExtension(extensions).Some? <==> exists k :: FirstExtension(extensions, k)
  {
    if |extensions| > 0 {
      if extensions[0].oid == "1.3.6.1.4.1.11129.2.1.17" {
        assert FirstExtension(extensions, 0);
        assert forall k :: FirstExtension(extensions, k) ==> k == 0;
      } else {
        ExtensionFound(extensions[1..]);
        forall k | FirstExtension(extensions, k)
          ensures FirstExtension(extensions[1..], k - 1) && extensions[1..][k - 1] == extensions[k]
        {
        }
        if exists k :: FirstExtension(extensions[1..], k) {
          var k :| FirstExtension(extensions[1..], k);
          forall j | 0 <= j < k + 1
            ensures extensions[j].oid != "1.3.6.1.4.1.11129.2.1.17"
          {
            assert j > 0 ==> extensions[1..][j - 1] == extensions[j];
          }
          assert FirstExtension(extensions, k + 1);
        }
      }
    }
  }

  /** The leaf's first attestation extension decodes to this key description. */
  ghost predicate Describes(pki: Pki, leaf: AttestationCert, kd: KeyDescription) {
    exists k :: FirstExtension(leaf.extensions, k) && leaf.extensions[k].value != []
                && pki.parseKeyDescription(leaf.extensions[k].value) == Some(kd)
  }

  /** The leaf has no attestation extension, or an empty one. */
  ghost predicate DescribesNothing(leaf: AttestationCert) {
    forall k :: FirstExtension(leaf.extensions, k) ==> leaf.extensions[k].value == []
  }

  ghost predicate Certificates(pki: Pki, chainDER: seq<bytes>, certs: seq<AttestationCert>) {
    |certs| == |chainDER| && forall i :: 0 <= i < |certs| ==> pki.parseCertificate(chainDER[i]) == Some(certs[i])
  }

  /** The keys are the same when marshalled. */
  ghost predicate SameMarshalled(pki: Pki, a: Option<PublicKey>, b: PublicKey) {
    a.Some? && pki.marshalKey(b).Some? && pki.marshalKey(a.value) == pki.marshalKey(b)
  }

  /** What stands in for an attestation that a development policy lets be absent. */
  function Unattested(expected: bytes): AttestationRecord {
    AttestationRecord(0, 0, 0, 0, expected, false, 0, [], 0, 0)
  }

  ghost predicate Verified(pki: Pki, policy: Policy, now: int, answers: Option<Answers>, certs: seq<AttestationCert>,
                           expected: bytes, csrKey: Option<PublicKey>, record: AttestationRecord)
    requires |certs| > 0
  {
    && (policy.allowEmptyAttestation || |certs| >= 2) && |certs| <= 16
    && (policy.checkRevocationList && answers.Some? ==> forall i: nat :: i < |certs| ==> answers.value(i) == Ok(false))
    && (policy.skipChainValidation || pki.chainVerifies(certs, now))
    && (csrKey.Some? ==> SameMarshalled(pki, certs[0].key, csrKey.value))
    && ((exists kd :: Describes(pki, certs[0], kd) && JudgeKeyDescription(pki, policy, kd, expected) == Ok(record))
        || (policy.allowEmptyAttestation && DescribesNothing(certs[0]) && record == Unattested(expected)))
  }

  lemma {:induction false} ChainParsesExactly(pki: Pki, chainDER: seq<bytes>, from: nat, certs: seq<AttestationCert>)
    requires from <= |chainDER|
    ensures ParseChain(pki, chainDER, from) == Ok(certs) <==> Certificates(pki, chainDER[from..], certs)
    decreases |chainDER| - from
  {
    if from < |chainDER| {
      assert chainDER[from..][1..] == chainDER[from + 1..];
      if |certs| > 0 {
        ChainParsesExactly(pki, chainDER, from + 1, certs[1..]);
        assert certs == [certs[0]] + certs[1..];
        if ParseChain(pki, chainDER, from) == Ok(certs) {
          forall i | 0 <= i < |certs|
            ensures pki.parseCertificate(chainDER[from..][i]) == Some(certs[i])
          {
            assert i > 0 ==> chainDER[from..][i] == chainDER[from + 1..][i - 1] && certs[i] == certs[1..][i - 1];
          }
        }
        if Certificates(pki, chainDER[from..], certs) {
          forall i | 0 <= i < |certs[1..]|
            ensures pki.parseCertificate(chainDER[from + 1..][i]) == Some(certs[1..][i])
          {
            assert chainDER[from + 1..][i] == chainDER[from..][i + 1] && certs[1..][i] == certs[i + 1];
          }
        }
      }
    }
  }

  lemma ChainJudgedExactly(pki: Pki, policy: Policy, now: int, certs: seq<AttestationCert>, expected: bytes,
                           csrKey: Option<PublicKey>, record: AttestationRecord)
    requires |certs| > 0
    ensures JudgeChain(pki, policy, now, certs, expected, csrKey) == Ok(record) <==>
            && (policy.skipChainValidation || pki.chainVerifies(certs, now))
            && (csrKey.Some? ==> SameMarshalled(pki, certs[0].key, csrKey.value))
            && ((exists kd :: Describes(pki, certs[0], kd)
                              && JudgeKeyDescription(pki, policy, kd, expected) == Ok(record))
                || (policy.allowEmptyAttestation && DescribesNothing(certs[0]) && record == Unattested(expected)))
  {
    LeafJudgedExactly(pki, policy, certs[0], expected, record);
    KeyMatches(pki, certs[0], csrKey);
  }

  lemma DescribedLeaf(pki: Pki, policy: Policy, leaf: AttestationCert, expected: bytes, kd: KeyDescription)
    requires Describes(pki, leaf, kd)
    ensures JudgeLeaf(pki, policy, leaf, expected) == JudgeKeyDescription(pki, policy, kd, expected)
  {
    DescribedExactly(pki, leaf);
    var value := FindExtension(leaf.extensions);
    assert value.Some? && |value.value| > 0 && pki.parseKeyDescription(value.value) == Some(kd);
  }

  lemma UndescribedLeaf(pki: Pki, policy: Policy, leaf: AttestationCert, expected: bytes)
    requires forall kd :: !Describes(pki, leaf, kd)
    ensures JudgeLeaf(pki, policy, leaf, expected).Ok? <==> policy.allowEmptyAttestation && DescribesNothing(leaf)
    ensures JudgeLeaf(pki, policy, leaf, expected).Ok? ==>
              JudgeLeaf(pki, policy, leaf, expected).value == Unattested(expected)
  {
    DescribedExactly(pki, leaf);
    var value := FindExtension(leaf.extensions);
    assert value.None? || |value.value| == 0 || pki.parseKeyDescription(value.value) == None;
  }

  lemma LeafJudgedExactly(pki: Pki, policy: Policy, leaf: AttestationCert, expected: bytes, record: AttestationRecord)
    ensures JudgeLeaf(pki, policy, leaf, expected) == Ok(record) <==>
            || (exists kd :: Describes(pki, leaf, kd) && JudgeKeyDescription(pki, policy, kd, expected) == Ok(record))
            || (policy.allowEmptyAttestation && DescribesNothing(leaf) && record == Unattested(expected))
  {
    if exists kd :: Describes(pki, leaf, kd) {
      var kd :| Describes(pki, leaf, kd);
      OnlyDescription(pki, leaf, kd);
      DescribedLeaf(pki, policy, leaf, expected, kd);
    } else {
      UndescribedLeaf(pki, policy, leaf, expected);
    }
  }

  lemma OnlyDescription(pki: Pki, leaf: AttestationCert, kd: KeyDescription)
    requires Describes(pki, leaf, kd)
    ensures !DescribesNothing(leaf) && forall other :: Describes(pki, leaf, other) ==> other == kd
  {
    DescribedExactly(pki, leaf);
  }

  lemma KeyMatches(pki: Pki, leaf: AttestationCert, csrKey: Option<PublicKey>)
    ensures KeyProblem(pki, leaf, csrKey).None? <==> (csrKey.Some? ==> SameMarshalled(pki, leaf.key, csrKey.value))
  {
  }

  /** What the extension's value stands for. */
  lemma DescribedExactly(pki: Pki, leaf: AttestationCert)
    ensures var value := FindExtension(leaf.extensions);
            && (DescribesNothing(leaf) <==> value.None? || value.value == [])
            && (value.Some? && value.value != [] ==>
                  forall kd :: Describes(pki, leaf, kd) <==> pki.parseKeyDescription(value.value) == Some(kd))
            && (value.None? || value.value == [] ==> forall kd :: !Describes(pki, leaf, kd))
            && (value.Some? && value.value != [] && (forall kd :: !Describes(pki, leaf, kd)) ==>
                  pki.parseKeyDescription(value.value) == None)
  {
    ExtensionFound(leaf.extensions);
    if exists k :: FirstExtension(leaf.extensions, k) {
      var k :| FirstExtension(leaf.extensions, k);
      assert forall j :: FirstExtension(leaf.extensions, j) ==> j == k;
    }
  }

  /** A chain is accepted, with exactly this record, if and only if its certificates parse and are verified
      so; anything that does not parse is refused. */
  lemma VerifiedExactly(pki: Pki, policy: Policy, now: int, answers: Option<Answers>, chainDER: seq<bytes>,
                        expected: bytes, csrKey: Option<PublicKey>, record: AttestationRecord)
    requires |chainDER| > 0
    ensures VerifyAttestation(pki, policy, now, answers, chainDER, expected, csrKey) == Ok(record) <==>
            exists certs :: |certs| > 0 && Certificates(pki, chainDER, certs)
                            && Verified(pki, policy, now, answers, certs, expected, csrKey, record)
  {
    assert chainDER[0..] == chainDER;
    var parsed := ParseChain(pki, chainDER, 0);
    if parsed.Ok? {
      var certs := parsed.value;
      ChainParsesExactly(pki, chainDER, 0, certs);
      ChainJudgedExactly(pki, policy, now, certs, expected, csrKey, record);
      if policy.checkRevocationList && answers.Some? {
        NoProblemMeansAllClear(answers.value, |certs|, 0);
      }
      forall other | Certificates(pki, chainDER, other)
        ensures other == certs
      {
        ChainParsesExactly(pki, chainDER, 0, other);
      }
    } else {
      forall certs
        ensures !Certificates(pki, chainDER, certs)
      {
        ChainParsesExactly(pki, chainDER, 0, certs);
      }
    }
  }

  /** The default strict policy on a parsed chain: two to sixteen certificates, none revoked as far as a status
      list is attached, verified up to a trusted root, over the CSR's key, and attested. */
  lemma DefaultStrictChain(pki: Pki, now: int, answers: Option<Answers>, certs: seq<AttestationCert>, expected: bytes,
                           csrKey: Option<PublicKey>, record: AttestationRecord)
    requires |certs| > 0
    ensures Verified(pki, DEFAULT_STRICT_POLICY, now, answers, certs, expected, csrKey, record) <==>
            && 2 <= |certs| <= 16
            && (answers.Some? ==> forall i: nat :: i < |certs| ==> answers.value(i) == Ok(false))
            && pki.chainVerifies(certs, now)
            && (csrKey.Some? ==> SameMarshalled(pki, certs[0].key, csrKey.value))
            && exists kd :: Describes(pki, certs[0], kd)
                 && JudgeKeyDescription(pki, DEFAULT_STRICT_POLICY, kd, expected) == Ok(record)
  {
  }

  /** The development policy asks only that the key match, and lets an attestation be absent; one that is
      there is still judged. */
  lemma DevelopmentChain(pki: Pki, now: int, answers: Option<Answers>, certs: seq<AttestationCert>, expected: bytes,
                         csrKey: Option<PublicKey>, record: AttestationRecord)
    requires |certs| > 0
    ensures Verified(pki, DEVELOPMENT_POLICY, now, answers, certs, expected, csrKey, record) <==>
            && |certs| <= 16 && (csrKey.Some? ==> SameMarshalled(pki, certs[0].key, csrKey.value))
            && ((exists kd :: Describes(pki, certs[0], kd)
                              && JudgeKeyDescription(pki, DEVELOPMENT_POLICY, kd, expected) == Ok(record))
                || (DescribesNothing(certs[0]) && record == Unattested(expected)))
  {
  }

  /** And asks nothing of what it is told but that the challenge match and the lists can be read. */
  lemma DevelopmentJudged(pki: Pki, kd: KeyDescription, expected: bytes, tee: seq<RawValue>,
                          soft: Option<seq<RawValue>>, record: AttestationRecord)
    ensures Judged(pki, DEVELOPMENT_POLICY, kd, expected, tee, soft, record) <==>
            && kd.attestationChallenge == expected
            && OsChosen(false, tee, soft, 705, record.osVersion) && OsChosen(false, tee, soft, 706, record.osPatchLevel)
            && exists rot :: RootChosen(pki, false, tee, soft, rot) && RecordFrom(kd, rot, record)
  {
  }

  /** No chain at all is accepted by the development policy, as an unattested software key, and by no
      policy that requires an attestation. */
  lemma NoChain(pki: Pki, policy: Policy, now: int, answers: Option<Answers>, expected: bytes,
                csrKey: Option<PublicKey>)
    ensures VerifyAttestation(pki, DEVELOPMENT_POLICY, now, answers, [], expected, csrKey) == Ok(Unattested(expected))
    ensures !policy.allowEmptyAttestation ==> VerifyAttestation(pki, policy, now, answers, [], expected, csrKey).Err?
    ensures VerifyAttestation(pki, DEFAULT_STRICT_POLICY, now, answers, [], expected, csrKey).Err?
  {
  }

  /** The challenge is that of the leaf's first attestation extension. */
  lemma ExtractedExactly(pki: Pki, chainDER: seq<bytes>, challenge: bytes)
    ensures ExtractChallenge(pki, chainDER) == Ok(challenge) <==>
            && |chainDER| > 0 && pki.parseCertificate(chainDER[0]).Some?
            && var leaf := pki.parseCertificate(chainDER[0]).value;
              exists k :: FirstExtension(leaf.extensions, k)
                && pki.parseKeyDescription(leaf.extensions[k].value).Some?
                && pki.parseKeyDescription(leaf.extensions[k].value).value.attestationChallenge == challenge
  {
    if |chainDER| > 0 && pki.parseCertificate(chainDER[0]).Some? {
      ExtensionFound(pki.parseCertificate(chainDER[0]).value.extensions);
    }
  }

  /** The key description the verifier judges is the one the leaf describes. */
  lemma JudgedIsDescribed(pki: Pki, chainDER: seq<bytes>, kd: KeyDescription)
    ensures JudgedDescription(pki, chainDER) == Some(kd) <==>
            && |chainDER| > 0 && pki.parseCertificate(chainDER[0]).Some?
            && Describes(pki, pki.parseCertificate(chainDER[0]).value, kd)
  {
    if |chainDER| > 0 && pki.parseCertificate(chainDER[0]).Some? {
      DescribedExactly(pki, pki.parseCertificate(chainDER[0]).value);
    }
  }
}
