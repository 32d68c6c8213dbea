/** The registry of enrolled devices and the grow-only set of revoked serials. */
module DeviceRepo {
  import opened Prelude

  /** Certificate serials are the numbers themselves; their decimal rendering is one-to-one. */
  type Serial = nat

  datatype DeviceRecord = DeviceRecord(
    identity: string,
    deviceLabel: string,
    certSerial: Serial,
    enrolledAt: int,
    isRevoked: bool,
    hardwareSecurityLevel: string)

  datatype Registry = Registry(devices: map<string, DeviceRecord>, revokedSerials: set<Serial>)

  const EMPTY_REGISTRY := Registry(map[], {})

  function WithRecord(r: Registry, record: DeviceRecord): Registry {
    r.(devices := r.devices[record.identity := record])
  }

  function Find(r: Registry, identity: string): Option<DeviceRecord> {
    if identity in r.devices then Some(r.devices[identity]) else None
  }

  /** Both the record and the serial it currently carries. */
  function WithDeviceRevoked(r: Registry, identity: string): Registry {
    if identity !in r.devices then r
    else
      var record := r.devices[identity];
      Registry(r.devices[identity := record.(isRevoked := true)], r.revokedSerials + {record.certSerial})
  }

  function WithSerialRevoked(r: Registry, serial: Serial): Registry {
    r.(revokedSerials := r.revokedSerials + {serial})
  }

  /** Each write changes what it names and nothing else. */
  lemma WritesExactly(r: Registry, record: DeviceRecord, identity: string, serial: Serial, other: string)
    ensures Find(WithRecord(r, record), other) == if other == record.identity then Some(record) else Find(r, other)
    ensures WithRecord(r, record).revokedSerials == r.revokedSerials
    ensures other != identity ==> Find(WithDeviceRevoked(r, identity), other) == Find(r, other)
    ensures match Find(r, identity)
            case None => WithDeviceRevoked(r, identity) == r
            case Some(found) =>
              && Find(WithDeviceRevoked(r, identity), identity) == Some(found.(isRevoked := true))
              && WithDeviceRevoked(r, identity).revokedSerials == r.revokedSerials + {found.certSerial}
    ensures Find(WithSerialRevoked(r, serial), other) == Find(r, other)
    ensures WithSerialRevoked(r, serial).revokedSerials == r.revokedSerials + {serial}
    ensures Find(r, other) == None <==> other !in r.devices
    ensures Active(r, other) <==> Find(r, other).Some? && !Find(r, other).value.isRevoked
  {
  }

  predicate Active(r: Registry, identity: string) {
    identity in r.devices && !r.devices[identity].isRevoked
  }

  /** The serial of a revoked record is revoked, and records are filed under their identity. */
  ghost predicate Coherent(r: Registry) {
    forall i :: i in r.devices ==>
      r.devices[i].identity == i && (r.devices[i].isRevoked ==> r.devices[i].certSerial in r.revokedSerials)
  }

  /** One atomic write. The handler registers only records that are not revoked. */
  ghost predicate Step(r: Registry, r': Registry) {
    || r' == r
    || (exists record: DeviceRecord :: !record.isRevoked && r' == WithRecord(r, record))
    || (exists identity :: r' == WithDeviceRevoked(r, identity))
    || (exists serial :: r' == WithSerialRevoked(r, serial))
  }

  /** What every later registry keeps of an earlier one. */
  ghost predicate Keeps(r: Registry, r': Registry) {
    r.devices.Keys <= r'.devices.Keys && r.revokedSerials <= r'.revokedSerials
  }

  lemma StepKeeps(r: Registry, r': Registry)
    requires Step(r, r') && Coherent(r)
    ensures Coherent(r') && Keeps(r, r')
  {
  }

  ghost predicate StepAt(run: seq<Registry>, i: int) {
    0 <= i < |run| - 1 && Step(run[i], run[i + 1])
  }

  ghost predicate RegistryRun(run: seq<Registry>) {
    forall i :: 0 <= i < |run| - 1 ==> StepAt(run, i)
  }

  lemma KeepsTrans(a: Registry, b: Registry, c: Registry)
    requires Keeps(a, b) && Keeps(b, c)
    ensures Keeps(a, c)
  {
  }

  lemma {:induction false} RunKeeps(run: seq<Registry>, i: nat, j: nat)
    requires RegistryRun(run) && i <= j < |run| && Coherent(run[i])
    ensures Coherent(run[j]) && Keeps(run[i], run[j])
    decreases j
  {
    if i < j {
      RunKeeps(run, i, j - 1);
      assert StepAt(run, j - 1);
      StepKeeps(run[j - 1], run[j]);
      KeepsTrans(run[i], run[j - 1], run[j]);
    }
  }

  class MemoryDeviceRepo {
    var devices: map<string, DeviceRecord>
    var revokedSerials: set<Serial>

    constructor ()
      ensures View() == EMPTY_REGISTRY
    {
      devices, revokedSerials := map[], {};
    }

    function View(): Registry
      reads this
    {
      Registry(devices, revokedSerials)
    }

    /** The interface lets a write fail; the in-memory repository is the case `writable`. */
    method RegisterDevice(record: DeviceRecord, writable: bool) returns (ok: bool)
      modifies this
      ensures ok == writable
      ensures View() == if ok then WithRecord(old(View()), record) else old(View())
    {
      if writable {
        devices := devices[record.identity := record];
      }
      ok := writable;
    }

    method GetDevice(identity: string) returns (r: Option<DeviceRecord>)
      ensures r == Find(View(), identity)
    {
      if identity !in devices {
        return None;
      }
      r := Some(devices[identity]);
    }

    method RevokeDevice(identity: string) returns (found: bool)
      modifies this
      ensures found == (identity in old(devices))
      ensures View() == WithDeviceRevoked(old(View()), identity)
    {
      if identity !in devices {
        return false;
      }
      var record := devices[identity].(isRevoked := true);
      devices := devices[identity := record];
      revokedSerials := revokedSerials + {record.certSerial};
      found := true;
    }

    method RevokeSerial(serial: Serial)
      modifies this
      ensures View() == WithSerialRevoked(old(View()), serial)
    {
      revokedSerials := revokedSerials + {serial};
    }

    method IsSerialRevoked(serial: Serial) returns (revoked: bool)
      ensures revoked <==> serial in revokedSerials
    {
      revoked := serial in revokedSerials;
    }

    method IsDeviceActive(identity: string) returns (active: bool)
      ensures active == Active(View(), identity)
    {
      if identity !in devices {
        return false;
      }
      active := !devices[identity].isRevoked;
    }
  }
}
