/** Data types of the attestation verifier, and the parts of X.509 and hashing it rests on. */
module Attestation {
  import opened Prelude

  const KEY_ATTESTATION_OID := "1.3.6.1.4.1.11129.2.1.17"

  const TAG_ROOT_OF_TRUST := 704
  const TAG_OS_VERSION := 705
  const TAG_OS_PATCH := 706
  const TAG_ATTESTATION_APPLICATION_ID := 709

  // Security levels and verified boot states are open enumerations: any integer can be attested.
  const SOFTWARE := 0
  const TRUSTED_ENVIRONMENT := 1
  const STRONG_BOX := 2

  const BOOT_VERIFIED := 0

  function LevelString(level: int): string {
    if level == SOFTWARE then "SOFTWARE"
    else if level == TRUSTED_ENVIRONMENT then "TEE"
    else if level == STRONG_BOX then "STRONGBOX"
    else "UNKNOWN"
  }

  predicate HardwareLevel(level: int) {
    level == TRUSTED_ENVIRONMENT || level == STRONG_BOX
  }

  datatype PublicKey = PublicKey(id: nat)

  datatype Extension = Extension(oid: string, value: bytes)

  /** A parsed certificate of an attestation chain. The key is absent when its algorithm is
      unknown to the parser. */
  datatype AttestationCert = AttestationCert(key: Option<PublicKey>, extensions: seq<Extension>)

  datatype Csr = Csr(key: Option<PublicKey>, signatureOk: bool)

  /** The authorization lists are kept as the bytes they were encoded in. */
  datatype KeyDescription = KeyDescription(
    attestationVersion: int,
    attestationSecurityLevel: int,
    keymasterVersion: int,
    keymasterSecurityLevel: int,
    attestationChallenge: bytes,
    softwareEnforced: bytes,
    teeEnforced: bytes)

  datatype RootOfTrust = RootOfTrust(verifiedBootKey: bytes, deviceLocked: bool, verifiedBootState: int)

  datatype AttestationRecord = AttestationRecord(
    attestationVersion: int,
    attestationSecurityLevel: int,
    keymasterVersion: int,
    keymasterSecurityLevel: int,
    attestationChallenge: bytes,
    deviceLocked: bool,
    verifiedBootState: int,
    verifiedBootKey: bytes,
    osVersion: int,
    osPatchLevel: int)

  datatype Policy = Policy(
    requireHardwareBacked: bool,
    requireDeviceLocked: bool,
    requireVerifiedBoot: bool,
    skipChainValidation: bool,
    allowEmptyAttestation: bool,
    expectedPackageName: string,
    minOsVersion: int,
    minPatchLevel: int,
    checkRevocationList: bool)

  const DEFAULT_STRICT_POLICY := Policy(true, true, true, false, false, "", 0, 0, true)
  const DEVELOPMENT_POLICY := Policy(false, false, false, true, true, "", 0, 0, false)

  /** Library code the repository calls: X.509 and CSR parsing, chain building (at a time),
      key marshalling, SHA-256, and the ASN.1 structures above the tag-length-value layer. */
  datatype Pki = Pki(
    parseCertificate: bytes -> Option<AttestationCert>,
    parseCsr: bytes -> Option<Csr>,
    chainVerifies: (seq<AttestationCert>, int) -> bool,
    marshalKey: PublicKey -> Option<bytes>,
    sha256Hex: bytes -> string,
    parseKeyDescription: bytes -> Option<KeyDescription>,
    parseRootOfTrust: bytes -> Option<RootOfTrust>,
    parseApplicationId: bytes -> Option<seq<string>>)

  /** x509.MarshalPKIXPublicKey; a nil key cannot be marshalled. */
  function MarshalKey(pki: Pki, key: Option<PublicKey>): Option<bytes> {
    match key
    case None => None
    case Some(k) => pki.marshalKey(k)
  }

  /** Hex SHA-256 of the marshalled key: the identity of an enrolled device. */
  function PublicKeyFingerprint(pki: Pki, key: Option<PublicKey>): Option<string> {
    match MarshalKey(pki, key)
    case None => None
    case Some(der) => Some(pki.sha256Hex(der))
  }

  /** Assumption: the hash has no collisions on marshalled keys. */
  ghost predicate FingerprintInjective(pki: Pki) {
    forall a, b :: PublicKeyFingerprint(pki, a).Some? && PublicKeyFingerprint(pki, a) == PublicKeyFingerprint(pki, b)
      ==> a == b
  }

  /** Assumption: a digest is 64 hexadecimal digits. */
  ghost predicate HexDigests(pki: Pki) {
    forall b :: |pki.sha256Hex(b)| == 64 && forall c :: c in pki.sha256Hex(b) ==> c in "0123456789abcdef"
  }

  /** The recorded level names the attested number. */
  lemma LevelNames(level: int)
    ensures LevelString(level) == "STRONGBOX" <==> level == 2
    ensures LevelString(level) == "TEE" <==> level == 1
    ensures LevelString(level) == "SOFTWARE" <==> level == 0
    ensures LevelString(level) == "UNKNOWN" <==> level < 0 || level > 2
  {
    assert |"STRONGBOX"| == 9 && |"TEE"| == 3 && |"SOFTWARE"| == 8 && |"UNKNOWN"| == 7;
  }

  /** The identity is the digest of the marshalled key, and absent when the key cannot be marshalled. */
  lemma IdentityIsDigest(pki: Pki, key: PublicKey)
    ensures PublicKeyFingerprint(pki, None) == None
    ensures pki.marshalKey(key).None? ==> PublicKeyFingerprint(pki, Some(key)) == None
    ensures pki.marshalKey(key).Some? ==>
              PublicKeyFingerprint(pki, Some(key)) == Some(pki.sha256Hex(pki.marshalKey(key).value))
  {
  }
}
