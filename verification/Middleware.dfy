/** Authorisation of a request over mutual TLS: three separately locked reads of a registry
    that other requests keep changing. */
module Middleware {
  import opened Prelude
  import opened Attestation
  import opened DeviceRepo

  /** An X.509 certificate as the client presents it. The TLS layer has already checked that
      this CA issued it and that it has not expired. */
  datatype Certificate = Certificate(
    commonName: string,
    uris: seq<string>,
    key: Option<PublicKey>,
    serial: Serial,
    notBefore: int,
    notAfter: int)

  datatype Verdict =
    | NoClientCertificate
    | Unidentified
    | IdentityMismatch
    | UnauthorizedOrRevoked
    | SerialRevoked
    | NotCurrent
    | Accepted(identity: string, deviceLabel: string)

  const URN_PREFIX := "urn:device:"

  function FirstDeviceUrn(uris: seq<string>): string {
    if |uris| == 0 then ""
    else if URN_PREFIX <= uris[0] then uris[0][|URN_PREFIX|..]
    else FirstDeviceUrn(uris[1..])
  }

  /** The common name, or else the first device URN among the alternative names. */
  function ClaimedIdentity(cert: Certificate): string {
    if cert.commonName != "" then cert.commonName else FirstDeviceUrn(cert.uris)
  }

  /** The checks that need no registry: an identity is claimed and the key is bound to it. */
  function Bind(pki: Pki, peer: Option<Certificate>): Result<string, Verdict> {
    match peer
    case None => Err(NoClientCertificate)
    case Some(cert) =>
      var identity := ClaimedIdentity(cert);
      if identity == "" then Err(Unidentified)
      else if PublicKeyFingerprint(pki, cert.key) != Some(identity) then Err(IdentityMismatch)
      else Ok(identity)
  }

  /** The first alternative name that is a device URN. */
  ghost predicate FirstUrnAt(uris: seq<string>, k: int) {
    && 0 <= k < |uris| && "urn:device:" <= uris[k]
    && forall j :: 0 <= j < k ==> !("urn:device:" <= uris[j])
  }

  /** The certificate claims this identity: by its common name, or, if that is empty, by its first device
      URN; an empty claim is none. */
  ghost predicate Claims(cert: Certificate, identity: string) {
    if cert.commonName != "" then identity == cert.commonName
    else if exists k :: FirstUrnAt(cert.uris, k) then
      exists k :: FirstUrnAt(cert.uris, k) && cert.uris[k] == "urn:device:" + identity
    else identity == ""
  }

  lemma {:induction false} UrnFound(uris: seq<string>)
    ensures forall k :: FirstUrnAt(uris, k) ==> uris[k] == "urn:device:" + FirstDeviceUrn(uris)
    ensures (forall k :: !FirstUrnAt(uris, k)) ==> FirstDeviceUrn(uris) == ""
  {
    if |uris| > 0 {
      var prefix := "urn:device:";
      if prefix <= uris[0] {
        assert uris[0] == uris[0][..|prefix|] + uris[0][|prefix|..];
        assert forall k :: FirstUrnAt(uris, k) ==> k == 0;
        assert FirstUrnAt(uris, 0);
      } else {
        UrnFound(uris[1..]);
        forall k | FirstUrnAt(uris, k)
          ensures FirstUrnAt(uris[1..], k - 1) && uris[1..][k - 1] == uris[k]
        {
          assert k > 0;
        }
        forall k | FirstUrnAt(uris[1..], k)
          ensures FirstUrnAt(uris, k + 1)
        {
          UrnBehind(uris, k);
        }
      }
    }
  }

  lemma UrnBehind(uris: seq<string>, k: int)
    requires |uris| > 0 && !("urn:device:" <= uris[0]) && FirstUrnAt(uris[1..], k)
    ensures FirstUrnAt(uris, k + 1)
  {
    forall j | 0 <= j < k + 1
      ensures !("urn:device:" <= uris[j])
    {
      assert j > 0 ==> uris[1..][j - 1] == uris[j];
    }
  }

  lemma ClaimedExactly(cert: Certificate, identity: string)
    ensures ClaimedIdentity(cert) == identity <==> Claims(cert, identity)
  {
    UrnFound(cert.uris);
    if exists k :: FirstUrnAt(cert.uris, k) {
      var k :| FirstUrnAt(cert.uris, k);
      assert forall j :: FirstUrnAt(cert.uris, j) ==> j == k;
      SameTail("urn:device:", FirstDeviceUrn(cert.uris), identity);
    }
  }

  lemma SameTail(prefix: string, a: string, b: string)
    ensures prefix + a == prefix + b <==> a == b
  {
    assert (prefix + a)[|prefix|..] == a && (prefix + b)[|prefix|..] == b;
  }

  /** A certificate is bound to an identity if and only if it claims it, the claim is not empty, and its
      key's fingerprint is that identity; otherwise the reason tells which of these fails. */
  lemma BoundExactly(pki: Pki, peer: Option<Certificate>)
    ensures forall identity :: Bind(pki, peer) == Ok(identity) <==>
              && peer.Some? && Claims(peer.value, identity) && identity != ""
              && PublicKeyFingerprint(pki, peer.value.key) == Some(identity)
    ensures Bind(pki, peer) == Err(NoClientCertificate) <==> peer.None?
    ensures Bind(pki, peer) == Err(Unidentified) <==> peer.Some? && Claims(peer.value, "")
    ensures Bind(pki, peer) == Err(IdentityMismatch) <==>
              peer.Some? && !Claims(peer.value, "")
              && forall identity :: Claims(peer.value, identity) ==>
                   PublicKeyFingerprint(pki, peer.value.key) != Some(identity)
  {
    if peer.Some? {
      forall identity
        ensures ClaimedIdentity(peer.value) == identity <==> Claims(peer.value, identity)
      {
        ClaimedExactly(peer.value, identity);
      }
      assert Claims(peer.value, ClaimedIdentity(peer.value));
    }
  }

  /** The verdict when the three reads meet the registries `r1`, `r2` and `r3`. */
  function StagedVerdict(identity: string, serial: Serial, r1: Registry, r2: Registry, r3: Registry): Verdict {
    var record := Find(r1, identity);
    if record.None? then UnauthorizedOrRevoked
    else if !Active(r2, identity) then UnauthorizedOrRevoked
    else if serial in r3.revokedSerials then SerialRevoked
    else if record.value.certSerial != serial then NotCurrent
    else Accepted(identity, record.value.deviceLabel)
  }

  /** Which verdict three reads give: the device must be found at the first and active at the second, the
      serial not revoked at the third, and current at the first, whose label the acceptance carries. */
  lemma VerdictExactly(identity: string, serial: Serial, r1: Registry, r2: Registry, r3: Registry)
    ensures var v := StagedVerdict(identity, serial, r1, r2, r3);
            var live := identity in r1.devices && identity in r2.devices && !r2.devices[identity].isRevoked;
            && (v == UnauthorizedOrRevoked <==> !live)
            && (v == SerialRevoked <==> live && serial in r3.revokedSerials)
            && (v == NotCurrent <==>
                  live && serial !in r3.revokedSerials && r1.devices[identity].certSerial != serial)
            && (v.Accepted? <==> live && serial !in r3.revokedSerials && r1.devices[identity].certSerial == serial)
            && (v.Accepted? ==> v == Accepted(identity, r1.devices[identity].deviceLabel))
  {
  }

  /** The verdict, reason included, of one look at one registry. */
  function SoloVerdict(identity: string, serial: Serial, r: Registry): Verdict {
    StagedVerdict(identity, serial, r, r, r)
  }

  /** The specification: one look at one registry. */
  predicate Authorized(identity: string, serial: Serial, r: Registry) {
    && identity in r.devices
    && !r.devices[identity].isRevoked
    && r.devices[identity].certSerial == serial
    && serial !in r.revokedSerials
  }

  /** Without interference the three reads decide exactly the one-look specification. */
  lemma SoloAcceptance(identity: string, serial: Serial, r: Registry)
    ensures SoloVerdict(identity, serial, r).Accepted? <==> Authorized(identity, serial, r)
  {
  }

  /** Whatever registrations and revocations fall between the reads, the outcome is that of
      one look at some instant of the request: an acceptance at the first read, a refusal at
      one of the three. */
  lemma OutcomeLinearizable(run: seq<Registry>, i: nat, j: nat, k: nat, identity: string, serial: Serial)
    requires RegistryRun(run) && i <= j <= k < |run| && Coherent(run[i])
    ensures var accepted := StagedVerdict(identity, serial, run[i], run[j], run[k]).Accepted?;
            && (accepted ==> Authorized(identity, serial, run[i]))
            && (!accepted ==> exists m :: m in {i, j, k} && !Authorized(identity, serial, run[m]))
  {
    RunKeeps(run, i, j);
    RunKeeps(run, j, k);
    if !StagedVerdict(identity, serial, run[i], run[j], run[k]).Accepted? {
      if Authorized(identity, serial, run[i]) {
        if Active(run[j], identity) {
          assert serial in run[k].revokedSerials;
          assert k in {i, j, k} && !Authorized(identity, serial, run[k]);
        } else {
          assert j in {i, j, k} && !Authorized(identity, serial, run[j]);
        }
      } else {
        assert i in {i, j, k};
      }
    }
  }

  /** Some look between the instants `from` and `last` gives the verdict, with its reason. */
  ghost predicate SomeLookSays(v: Verdict, run: seq<Registry>, from: nat, last: nat, identity: string, serial: Serial)
    requires from <= last < |run|
  {
    exists m :: from <= m <= last && SoloVerdict(identity, serial, run[m]) == v
  }

  /** The last instant from `from` to `last` at which the device is active, or `from`. */
  function LastActive(run: seq<Registry>, from: nat, last: nat, identity: string): (a: nat)
    requires from <= last < |run|
    ensures from <= a <= last && (a == from || Active(run[a], identity))
    ensures forall m :: a < m <= last ==> !Active(run[m], identity)
    decreases last
  {
    if from == last || Active(run[last], identity) then last else LastActive(run, from, last - 1, identity)
  }

  /** Two reasons can belong to no look at all. "Serial revoked" needs the serial to be revoked by
      the last instant at which the device was active; "not current" needs an instant at which the
      device was active under another serial. */
  ghost predicate ReasonHolds(v: Verdict, run: seq<Registry>, from: nat, last: nat, identity: string, serial: Serial)
    requires from <= last < |run|
  {
    match v
    case SerialRevoked => serial in run[LastActive(run, from, last, identity)].revokedSerials
    case NotCurrent =>
      exists m :: from <= m <= last && Active(run[m], identity) && run[m].devices[identity].certSerial != serial
    case _ => true
  }

  /** For a request that begins at `from` and reads at `i`, `j` and `k`: the verdict with its reason is
      that of one look at some instant inside the request exactly when the reason holds in that sense.
      Acceptances and "unauthorized or revoked" always are. */
  lemma WordingLinearizableExactly(run: seq<Registry>, from: nat, i: nat, j: nat, k: nat, identity: string,
                                   serial: Serial)
    requires RegistryRun(run) && from <= i <= j <= k < |run| && Coherent(run[from])
    ensures var v := StagedVerdict(identity, serial, run[i], run[j], run[k]);
            SomeLookSays(v, run, from, k, identity, serial) <==> ReasonHolds(v, run, from, k, identity, serial)
  {
    var v := StagedVerdict(identity, serial, run[i], run[j], run[k]);
    RunKeeps(run, from, i);
    if v.SerialRevoked? {
      LastLookAtRevoked(run, from, j, k, identity, serial);
    } else if v.NotCurrent? {
      forall m | from <= m <= k
        ensures SoloVerdict(identity, serial, run[m]) == v <==>
                Active(run[m], identity) && run[m].devices[identity].certSerial != serial
      {
        RunKeeps(run, from, m);
        RunKeeps(run, m, k);
      }
    } else if v.Accepted? {
      OutcomeLinearizable(run, i, j, k, identity, serial);
      assert SoloVerdict(identity, serial, run[i]) == v;
    } else {
      assert SoloVerdict(identity, serial, run[i]) == v || SoloVerdict(identity, serial, run[j]) == v;
    }
  }

  /** A revoked serial stays revoked, so the last active instant decides. */
  lemma LastLookAtRevoked(run: seq<Registry>, from: nat, j: nat, k: nat, identity: string, serial: Serial)
    requires RegistryRun(run) && from <= j <= k < |run| && Coherent(run[from]) && Active(run[j], identity)
    ensures SomeLookSays(SerialRevoked, run, from, k, identity, serial)
            <==> serial in run[LastActive(run, from, k, identity)].revokedSerials
  {
    var a := LastActive(run, from, k, identity);
    assert a >= j;
    forall m | from <= m <= k && SoloVerdict(identity, serial, run[m]) == SerialRevoked
      ensures serial in run[a].revokedSerials
    {
      RunKeeps(run, from, m);
      RunKeeps(run, m, a);
    }
    if serial in run[a].revokedSerials {
      assert SoloVerdict(identity, serial, run[a]) == SerialRevoked;
    }
  }

  /** The verdict of the three reads is that of one look at the instant of one of them. */
  ghost predicate VerdictOfOneRead(identity: string, serial: Serial, r1: Registry, r2: Registry, r3: Registry) {
    exists r :: r in {r1, r2, r3} && SoloVerdict(identity, serial, r) == StagedVerdict(identity, serial, r1, r2, r3)
  }

  /** The same when only the three instants of the reads are considered. */
  predicate ReasonHoldsAtReads(identity: string, serial: Serial, r1: Registry, r2: Registry, r3: Registry) {
    match StagedVerdict(identity, serial, r1, r2, r3)
    case SerialRevoked => serial in r2.revokedSerials || Active(r3, identity)
    case NotCurrent =>
      || Active(r1, identity)
      || r2.devices[identity].certSerial != serial
      || (Active(r3, identity) && r3.devices[identity].certSerial != serial)
    case _ => true
  }

  lemma ReasonOfThreeReads(identity: string, serial: Serial, r1: Registry, r2: Registry, r3: Registry)
    requires Coherent(r1) && Coherent(r2) && Coherent(r3) && Keeps(r1, r2) && Keeps(r2, r3)
    ensures VerdictOfOneRead(identity, serial, r1, r2, r3) <==> ReasonHoldsAtReads(identity, serial, r1, r2, r3)
  {
    var v := StagedVerdict(identity, serial, r1, r2, r3);
    assert VerdictOfOneRead(identity, serial, r1, r2, r3) <==>
        SoloVerdict(identity, serial, r1) == v || SoloVerdict(identity, serial, r2) == v
        || SoloVerdict(identity, serial, r3) == v by {
      assert r1 in {r1, r2, r3} && r2 in {r1, r2, r3} && r3 in {r1, r2, r3};
    }
    if v.Accepted? {
      assert !r1.devices[identity].isRevoked;
      assert SoloVerdict(identity, serial, r1) == v;
    } else if v.UnauthorizedOrRevoked? {
      assert SoloVerdict(identity, serial, r1) == v || SoloVerdict(identity, serial, r2) == v;
    }
  }

  /** The verdict with its reason is that of a look at the instant of one of the reads exactly under
      the condition on the reads. An instant between two reads may give the reason where they do not. */
  lemma WordingAtReadsExactly(run: seq<Registry>, i: nat, j: nat, k: nat, identity: string, serial: Serial)
    requires RegistryRun(run) && i <= j <= k < |run| && Coherent(run[i])
    ensures VerdictOfOneRead(identity, serial, run[i], run[j], run[k])
            <==> ReasonHoldsAtReads(identity, serial, run[i], run[j], run[k])
  {
    RunKeeps(run, i, j);
    RunKeeps(run, j, k);
    ReasonOfThreeReads(identity, serial, run[i], run[j], run[k]);
  }

  /** Indeed: a serial that is revoked on its own before the device is revoked gives, between the second
      and the third read, a look with the reason that none of the reads would give. */
  lemma LookBetweenReads()
    ensures exists run: seq<Registry>, i: nat, j: nat, k: nat, identity: string, serial: Serial ::
              && i <= j <= k < |run| && RegistryRun(run) && Coherent(run[0])
              && !VerdictOfOneRead(identity, serial, run[i], run[j], run[k])
              && SomeLookSays(StagedVerdict(identity, serial, run[i], run[j], run[k]), run, i, k, identity, serial)
  {
    var record := DeviceRecord("id", "", 7, 0, false, "TEE");
    var r0 := Registry(map["id" := record], {});
    var r1 := WithSerialRevoked(r0, 7);
    var run := [r0, r1, WithDeviceRevoked(r1, "id")];
    assert StepAt(run, 0) && StepAt(run, 1);
    assert StagedVerdict("id", 7, run[0], run[0], run[2]) == SerialRevoked;
    WordingAtReadsExactly(run, 0, 0, 2, "id", 7);
    assert SoloVerdict("id", 7, run[1]) == SerialRevoked;
    assert SomeLookSays(SerialRevoked, run, 0, 2, "id", 7);
    assert 0 as nat <= 0 as nat <= 2 as nat < |run|;
  }

  /** Neither exception is empty. Revoking the device between the second and the third read
      yields "serial revoked", which no single look at this run would say. */
  lemma WordingNotLinearizable()
    ensures exists run: seq<Registry>, i: nat, j: nat, k: nat, identity: string, serial: Serial ::
              && i <= j <= k < |run| && RegistryRun(run) && Coherent(run[0])
              && StagedVerdict(identity, serial, run[i], run[j], run[k]) == SerialRevoked
              && forall m :: i <= m <= k ==> SoloVerdict(identity, serial, run[m]) != SerialRevoked
  {
    var record := DeviceRecord("id", "", 7, 0, false, "TEE");
    var before := Registry(map["id" := record], {});
    var after := WithDeviceRevoked(before, "id");
    var run := [before, after];
    assert StepAt(run, 0);
    assert StagedVerdict("id", 7, run[0], run[0], run[1]) == SerialRevoked;
    assert forall m :: 0 <= m <= 1 ==> SoloVerdict("id", 7, run[m]) != SerialRevoked;
    assert 0 as nat <= 0 as nat <= 1 as nat < |run|;
  }

  /** Registering the presented serial between a first read that met a revoked record and the
      second read yields "not current" for a certificate that is current from then on. */
  lemma CurrentCertificateCalledStale()
    ensures exists run: seq<Registry>, i: nat, j: nat, k: nat, identity: string, serial: Serial ::
              && i <= j <= k < |run| && RegistryRun(run) && Coherent(run[0])
              && StagedVerdict(identity, serial, run[i], run[j], run[k]) == NotCurrent
              && Authorized(identity, serial, run[k])
              && forall m :: i <= m <= k ==> SoloVerdict(identity, serial, run[m]) != NotCurrent
  {
    var stale := DeviceRecord("id", "", 5, 0, true, "TEE");
    var current := DeviceRecord("id", "", 7, 0, false, "TEE");
    var before := Registry(map["id" := stale], {5});
    var after := WithRecord(before, current);
    var run := [before, after];
    assert StepAt(run, 0);
    assert StagedVerdict("id", 7, run[0], run[1], run[1]) == NotCurrent;
    assert forall m :: 0 <= m <= 1 ==> SoloVerdict("id", 7, run[m]) != NotCurrent;
    assert 0 as nat <= 1 as nat <= 1 as nat < |run|;
  }

  /** The middleware as one request runs it when no other request interferes. Without a
      repository the certificate alone decides. */
  method MtlsAuth(pki: Pki, repo: MemoryDeviceRepo?, peer: Option<Certificate>) returns (v: Verdict)
    ensures match Bind(pki, peer)
            case Err(refusal) => v == refusal
            case Ok(identity) =>
              if repo == null then v == Accepted(identity, "")
              else
                && v == SoloVerdict(identity, peer.value.serial, repo.View())
                && (v.Accepted? <==> Authorized(identity, peer.value.serial, repo.View()))
  {
    if peer.None? {
      return NoClientCertificate;
    }
    var cert := peer.value;
    var identity := cert.commonName;
    if identity == "" {
      for i := 0 to |cert.uris|
        invariant identity == "" && FirstDeviceUrn(cert.uris) == FirstDeviceUrn(cert.uris[i..])
      {
        assert cert.uris[i..][1..] == cert.uris[i + 1..];
        if URN_PREFIX <= cert.uris[i] {
          identity := cert.uris[i][|URN_PREFIX|..];
          break;
        }
      }
    }
    if identity == "" {
      return Unidentified;
    }
    if PublicKeyFingerprint(pki, cert.key) != Some(identity) {
      return IdentityMismatch;
    }
    var deviceLabel := "";
    if repo != null {
      SoloAcceptance(identity, cert.serial, repo.View());
      var record := repo.GetDevice(identity);
      if record.None? {
        return UnauthorizedOrRevoked;
      }
      var active := repo.IsDeviceActive(identity);
      if !active {
        return UnauthorizedOrRevoked;
      }
      var revoked := repo.IsSerialRevoked(cert.serial);
      if revoked {
        return SerialRevoked;
      }
      if record.value.certSerial != cert.serial {
        return NotCurrent;
      }
      deviceLabel := record.value.deviceLabel;
    }
    v := Accepted(identity, deviceLabel);
  }
}
