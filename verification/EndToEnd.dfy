/** Any number of devices and the strict-policy backend, over a network that loses, repeats,
    reorders and invents messages. */
module EndToEnd {
  import opened Prelude
  import opened Attestation
  import opened DeviceRepo
  import opened Middleware
  import opened Protocol
  import opened EnrollHandler
  import opened Server
  import opened ServerInvariants
  import opened ServerTheorems
  import Base64
  import V = Verifier
  import EM = EnrolmentMeaning
  import K = Keystore
  import SR = SecurityRepository

  /** Where a device is in its one enrolment at a time. */
  datatype Task =
    | Idle
    | AwaitingChallenge
    | AwaitingResponse(req: EnrollRequest, entry: K.KeyEntry, level: K.Level)

  datatype Device = Device(client: SR.Client, task: Task)

  /** `keys` records the honest keys and the challenge each was generated with. */
  datatype World = World(server: State, devices: map<nat, Device>, keys: map<PublicKey, bytes>)

  /** What key generation and CSR construction yield. */
  datatype NewKey = NewKey(entry: K.KeyEntry, level: K.Level, csrDER: bytes, deviceLabel: string)

  datatype Event =
    | ServerDoes(action: Action)
    | BeginEnroll(device: nat)
    | ReceiveChallenge(device: nat, challenge: bytes, newKey: Option<NewKey>)
    | ReceiveResponse(device: nat, request: nat)
    | FailEnroll(device: nat)
    | Die(device: nat)
    | BuildClient(device: nat)

  function RequestFor(f: NewKey): EnrollRequest {
    EnrollRequest(f.deviceLabel, Base64.EncodeToString(f.csrDER),
                  seq(|f.entry.attestationChain|, i requires 0 <= i < |f.entry.attestationChain| =>
                        Base64.EncodeToString(f.entry.attestationChain[i])))
  }

  // -------------------------------------------------------------- the assumptions

  /** A verified chain whose leaf carries an honest key carries the challenge that key was
      generated with: such a key has no other attestation. */
  ghost predicate HonestChain(cfg: Config, keys: map<PublicKey, bytes>, chainDER: seq<bytes>) {
    var certs := V.ParseChain(cfg.pki, chainDER, 0);
    certs.Ok? && |certs.value| > 0 && (exists t :: cfg.pki.chainVerifies(certs.value, t))
      && certs.value[0].key.Some? && certs.value[0].key.value in keys
    ==> V.ExtractChallenge(cfg.pki, chainDER) == Ok(keys[certs.value[0].key.value])
  }

  ghost predicate HonestRequest(cfg: Config, keys: map<PublicKey, bytes>, req: EnrollRequest) {
    Admit(cfg, req).Ok? ==> HonestChain(cfg, keys, Admit(cfg, req).value.chainDER)
  }

  /** Keys are fresh: no request so far attests the key with another challenge, and the CSR is
      for this key. */
  ghost predicate Mintable(cfg: Config, w: World, f: NewKey, challenge: bytes) {
    && f.entry.key !in w.keys
    && (cfg.pki.parseCsr(f.csrDER).Some? ==> cfg.pki.parseCsr(f.csrDER).value.key == Some(f.entry.key))
    && forall id :: id in w.server.enrolments ==>
         HonestRequest(cfg, w.keys[f.entry.key := challenge], w.server.enrolments[id].req)
  }

  /** PEM texts read back as the certificate they were written from. */
  ghost predicate CodecOk(cfg: Config, codec: SR.Codec) {
    && SR.TrimInsensitive(codec)
    && (forall c :: codec.readPem(cfg.writePem(c)) == Some(c) && SR.PEM_HEADER <= SR.Trim(cfg.writePem(c)))
    && codec.readPem(cfg.caPem).Some? && SR.PEM_HEADER <= SR.Trim(cfg.caPem)
  }

  ghost predicate Setting(cfg: Config, codec: SR.Codec) {
    V.Strict(cfg.policy) && FingerprintInjective(cfg.pki) && HexDigests(cfg.pki) && CodecOk(cfg, codec)
  }

  // ------------------------------------------------------------------- the steps

  /** Nonces are fresh. Requests need not come from a device, and a challenge need not come from
      the backend; but a response reaches only the device whose request it answers. Pings and
      enrolments of one device do not overlap. */
  ghost predicate Possible(cfg: Config, codec: SR.Codec, w: World, e: Event) {
    match e
    case ServerDoes(a) =>
      && Enabled(w.server, a)
      && (a.IssueChallenge? ==> LatestIssue(w.server.issues, Base64.EncodeToString(a.random)) == -1)
      && (a.ArriveEnrolment? ==> HonestRequest(cfg, w.keys, a.req))
    case BeginEnroll(d) => d in w.devices && w.devices[d].task.Idle?
    case ReceiveChallenge(d, challenge, newKey) =>
      && d in w.devices && w.devices[d].task.AwaitingChallenge?
      && (newKey.Some? ==> Mintable(cfg, w, newKey.value, challenge))
    case ReceiveResponse(d, id) =>
      && d in w.devices && w.devices[d].task.AwaitingResponse?
      && id in w.server.enrolments && w.server.enrolments[id].phase.Responded?
      && w.server.enrolments[id].req == w.devices[d].task.req
    case FailEnroll(d) => d in w.devices && !w.devices[d].task.Idle?
    case Die(d) => d in w.devices
    case BuildClient(d) => d in w.devices && w.devices[d].task.Idle?
  }

  /** A response that cannot be parsed discards the key; otherwise it is installed in one go. */
  function Received(codec: SR.Codec, v: Device, r: EnrollResponse): Device
    requires v.task.AwaitingResponse?
  {
    match SR.ParseResponse(codec, r)
    case None => Device(SR.WithDiscarded(v.client), Idle)
    case Some(chain) => Device(SR.WithInstalled(v.client, chain, r, v.task.level), Idle)
  }

  ghost function NextDevice(cfg: Config, codec: SR.Codec, w: World, e: Event): Device
    requires Possible(cfg, codec, w, e) && !e.ServerDoes?
  {
    var v := w.devices[e.device];
    match e
    case BeginEnroll(_) => Device(SR.Invalidated(v.client), AwaitingChallenge)
    case ReceiveChallenge(_, _, None) => Device(SR.WithMinted(v.client, None), Idle)
    case ReceiveChallenge(_, _, Some(f)) =>
      Device(SR.WithMinted(v.client, Some(f.entry)), AwaitingResponse(RequestFor(f), f.entry, f.level))
    case ReceiveResponse(_, id) => Received(codec, v, ResponseFor(cfg, w.server.enrolments[id].phase.cert))
    case FailEnroll(_) => Device(if v.task.AwaitingResponse? then SR.WithDiscarded(v.client) else v.client, Idle)
    case Die(_) => Device(SR.Restarted(v.client), Idle)
    case BuildClient(_) => v.(client := SR.AfterPing(codec, v.client).0)
  }

  ghost function Next(cfg: Config, codec: SR.Codec, w: World, e: Event): World
    requires Possible(cfg, codec, w, e)
  {
    if e.ServerDoes? then w.(server := Apply(cfg, w.server, e.action))
    else
      var keys := if e.ReceiveChallenge? && e.newKey.Some? then w.keys[e.newKey.value.entry.key := e.challenge]
                  else w.keys;
      w.(devices := w.devices[e.device := NextDevice(cfg, codec, w, e)], keys := keys)
  }

  /** Freshly installed apps and a backend that has just started. */
  ghost predicate Start(w: World) {
    && w.server == INITIAL && w.keys == map[]
    && forall d :: d in w.devices ==>
         && K.SlotsDistinct(w.devices[d].client.ks)
         && w.devices[d].client == SR.Client(K.Keystore(w.devices[d].client.ks.aliasA, w.devices[d].client.ks.aliasB,
                                                        map[], None, None, None, None), None, None)
         && w.devices[d].task == Idle
  }

  /** Event `i` leads from world `i` to the next. */
  ghost predicate Follows(cfg: Config, codec: SR.Codec, worlds: seq<World>, events: seq<Event>, i: int) {
    && 0 <= i < |events| && i + 1 < |worlds|
    && Possible(cfg, codec, worlds[i], events[i]) && worlds[i + 1] == Next(cfg, codec, worlds[i], events[i])
  }

  ghost predicate IsHistory(cfg: Config, codec: SR.Codec, worlds: seq<World>, events: seq<Event>) {
    && |worlds| == |events| + 1 && Start(worlds[0])
    && forall i :: 0 <= i < |events| ==> Follows(cfg, codec, worlds, events, i)
  }

  // --------------------------------------------------------------- the invariant

  ghost predicate IssuesUnique(s: State) {
    forall i, j :: 0 <= i < j < |s.issues| ==> s.issues[i].challenge != s.issues[j].challenge
  }

  ghost predicate BackendOk(cfg: Config, w: World) {
    && Inv(cfg, w.server) && IssuesUnique(w.server)
    && forall id :: id in w.server.enrolments ==> HonestRequest(cfg, w.keys, w.server.enrolments[id].req)
  }

  /** The device's stored certificate is the one request `id` was answered with, over the key in
      its active slot, which is honest. */
  ghost predicate Holds(cfg: Config, w: World, ks: K.Keystore, id: nat) {
    && id in w.server.enrolments && w.server.enrolments[id].phase.Responded?
    && var cert := w.server.enrolments[id].phase.cert;
      && ks.clientPem == Some(cfg.writePem(cert)) && ks.caPem == Some(cfg.caPem)
      && K.ActiveKey(ks).Some? && cert.key == Some(K.ActiveKey(ks).value.key)
      && K.ActiveKey(ks).value.key in w.keys
  }

  ghost predicate IdentityHeld(cfg: Config, w: World, ks: K.Keystore) {
    if ks.clientPem.None? then K.ActiveKey(ks).None? else exists id :: Holds(cfg, w, ks, id)
  }

  /** The key a response is awaited for sits in the inactive slot and is honest, and the request
      is for that key. */
  ghost predicate PendingOk(cfg: Config, w: World, v: Device) {
    v.task.AwaitingResponse? ==>
      && K.PendingKey(v.client.ks) == Some(v.task.entry) && v.task.entry.key in w.keys
      && (Admit(cfg, v.task.req).Ok? ==> Admit(cfg, v.task.req).value.csr.key == Some(v.task.entry.key))
  }

  ghost predicate DeviceStateOk(cfg: Config, codec: SR.Codec, w: World, v: Device) {
    && K.SlotsDistinct(v.client.ks)
    && IdentityHeld(cfg, w, v.client.ks)
    && PendingOk(cfg, w, v)
    && SR.ClientCurrent(v.client) && SR.ChainCurrent(codec, v.client)
    && (!v.task.Idle? ==> v.client.api.None? && v.client.cachedChain.None?)
  }

  ghost predicate WorldOk(cfg: Config, codec: SR.Codec, w: World) {
    && BackendOk(cfg, w)
    && forall d :: d in w.devices ==> DeviceStateOk(cfg, codec, w, w.devices[d])
  }

  // ---------------------------------------------- one registration per honest key

  /** The request has been vetted for this key: its attestation was accepted and it has not been
      refused since. */
  ghost predicate VettedFor(cfg: Config, s: State, id: nat, key: PublicKey) {
    && id in s.enrolments
    && match s.enrolments[id].phase
       case Vetted(adm, _, _) => adm.csr.key == Some(key)
       case Cleared(adm, _, _) => adm.csr.key == Some(key)
       case Signed(adm, _, _) => adm.csr.key == Some(key)
       case Recorded(adm, _, _) => adm.csr.key == Some(key)
       case Responded(adm, _, _) => adm.csr.key == Some(key)
       case _ => false
  }

  /** A request vetted for an honest key attests exactly that key's challenge, and used up an
      issue of it. */
  lemma VettedUsesKeysChallenge(cfg: Config, w: World, id: nat, key: PublicKey)
    requires V.Strict(cfg.policy) && FingerprintInjective(cfg.pki) && BackendOk(cfg, w)
    requires key in w.keys && VettedFor(cfg, w.server, id, key)
    ensures id in w.server.grants && GrantOk(cfg, w.server, id)
    ensures w.server.issues[w.server.grants[id].issue].challenge == Base64.EncodeToString(w.keys[key])
  {
    var s := w.server;
    assert EnrolmentOk(cfg, s, id);
    var adm := s.enrolments[id].phase.adm;
    assert Admit(cfg, s.enrolments[id].req) == Ok(adm) && adm.challenge != [];
    assert exists level :: AttestedInTime(cfg, s, id, adm, level);
    var level :| AttestedInTime(cfg, s, id, adm, level);
    var t :| V.Attests(cfg.pki, adm.chainDER, adm.csr.key, adm.challenge, level, t);
    var certs := V.ParseChain(cfg.pki, adm.chainDER, 0).value;
    assert PublicKeyFingerprint(cfg.pki, adm.csr.key).Some?;
    assert certs[0].key == Some(key);
    assert HonestRequest(cfg, w.keys, s.enrolments[id].req);
    assert adm.challenge == w.keys[key];
    assert id in s.grants;
  }

  /** An honest key is vetted at most once: replays find its challenge gone. */
  lemma VettedOnce(cfg: Config, w: World, a: nat, b: nat, key: PublicKey)
    requires V.Strict(cfg.policy) && FingerprintInjective(cfg.pki) && BackendOk(cfg, w)
    requires key in w.keys && VettedFor(cfg, w.server, a, key) && VettedFor(cfg, w.server, b, key)
    ensures a == b
  {
    VettedUsesKeysChallenge(cfg, w, a, key);
    VettedUsesKeysChallenge(cfg, w, b, key);
    var i, j := w.server.grants[a].issue, w.server.grants[b].issue;
    assert w.server.issues[i].challenge == w.server.issues[j].challenge;
    assert i == j;
  }

  /** The registry holds, for the identity of an answered honest request, that request's serial. */
  lemma RecordMatchesCertificate(cfg: Config, w: World, id: nat, key: PublicKey)
    requires V.Strict(cfg.policy) && FingerprintInjective(cfg.pki) && BackendOk(cfg, w)
    requires key in w.keys && id in w.server.enrolments && w.server.enrolments[id].phase.Responded?
    requires w.server.enrolments[id].phase.cert.key == Some(key)
    ensures var cert := w.server.enrolments[id].phase.cert;
            && PublicKeyFingerprint(cfg.pki, cert.key) == Some(cert.commonName)
            && cert.commonName in w.server.shared.repo.devices
            && w.server.shared.repo.devices[cert.commonName].certSerial == cert.serial
            && (w.server.shared.repo.devices[cert.commonName].isRevoked ==>
                  cert.serial in w.server.shared.repo.revokedSerials)
  {
    var s := w.server;
    AnsweredIsNamed(cfg, s, id);
    var identity := s.enrolments[id].phase.cert.commonName;
    AnsweredIsRegistered(cfg, s, id);
    var writer := RecordHasWriter(cfg, s, identity);
    assert VettedFor(cfg, s, writer, key);
    AnsweredIsVetted(cfg, s, id);
    VettedOnce(cfg, w, id, writer, key);
  }

  lemma AnsweredIsVetted(cfg: Config, s: State, id: nat)
    requires id in s.enrolments && EnrolmentOk(cfg, s, id) && s.enrolments[id].phase.Responded?
    ensures forall key :: s.enrolments[id].phase.cert.key == Some(key) ==> VettedFor(cfg, s, id, key)
  {
  }

  // ----------------------------------------------------- the invariant is kept

  /** What no step takes away: answered requests and honest keys. */
  ghost predicate Grows(w: World, w': World) {
    && (forall k :: k in w.keys ==> k in w'.keys && w'.keys[k] == w.keys[k])
    && forall id :: id in w.server.enrolments && w.server.enrolments[id].phase.Responded? ==>
         id in w'.server.enrolments && w'.server.enrolments[id] == w.server.enrolments[id]
  }

  lemma StepGrows(cfg: Config, codec: SR.Codec, w: World, e: Event)
    requires Possible(cfg, codec, w, e)
    ensures Grows(w, Next(cfg, codec, w, e))
  {
  }

  lemma IdentityStillHeld(cfg: Config, w: World, w': World, ks: K.Keystore)
    requires Grows(w, w') && IdentityHeld(cfg, w, ks)
    ensures IdentityHeld(cfg, w', ks)
  {
    if ks.clientPem.Some? {
      var id :| Holds(cfg, w, ks, id);
      assert Holds(cfg, w', ks, id);
    }
  }

  lemma BackendStep(cfg: Config, codec: SR.Codec, w: World, e: Event)
    requires Possible(cfg, codec, w, e) && BackendOk(cfg, w)
    ensures BackendOk(cfg, Next(cfg, codec, w, e))
  {
    var w' := Next(cfg, codec, w, e);
    if e.ServerDoes? {
      InvStep(cfg, w.server, e.action);
      forall id | id in w'.server.enrolments
        ensures HonestRequest(cfg, w'.keys, w'.server.enrolments[id].req)
      {
        assert id in w.server.enrolments ==> HonestRequest(cfg, w.keys, w.server.enrolments[id].req);
      }
    }
  }

  /** A request built by a device is for the key it has just minted, and carries that key's attestation
      chain in order. */
  lemma RequestIsForItsKey(cfg: Config, w: World, f: NewKey, challenge: bytes)
    requires Mintable(cfg, w, f, challenge) && Admit(cfg, RequestFor(f)).Ok?
    ensures Admit(cfg, RequestFor(f)).value.csr.key == Some(f.entry.key)
    ensures Admit(cfg, RequestFor(f)).value.chainDER == f.entry.attestationChain
  {
    var adm := Admit(cfg, RequestFor(f)).value;
    EM.AdmitsExactly(cfg, RequestFor(f), adm);
    forall i | 0 <= i < |f.entry.attestationChain|
      ensures adm.chainDER[i] == f.entry.attestationChain[i]
    {
      Base64.RoundTrip(f.entry.attestationChain[i]);
    }
    Base64.RoundTrip(f.csrDER);
  }

  lemma SlotStep(cfg: Config, w: World, ks: K.Keystore, ks': K.Keystore)
    requires IdentityHeld(cfg, w, ks) && ks'.clientPem == ks.clientPem && ks'.caPem == ks.caPem
    requires K.ActiveKey(ks') == K.ActiveKey(ks)
    ensures IdentityHeld(cfg, w, ks')
  {
    if ks.clientPem.Some? {
      var id :| Holds(cfg, w, ks, id);
      assert Holds(cfg, w, ks', id);
    }
  }

  lemma ChallengeStep(cfg: Config, codec: SR.Codec, w: World, e: Event)
    requires Possible(cfg, codec, w, e) && e.ReceiveChallenge? && DeviceStateOk(cfg, codec, w, w.devices[e.device])
    ensures DeviceStateOk(cfg, codec, Next(cfg, codec, w, e), NextDevice(cfg, codec, w, e))
  {
    var v, w' := w.devices[e.device], Next(cfg, codec, w, e);
    var v' := NextDevice(cfg, codec, w, e);
    StepGrows(cfg, codec, w, e);
    K.PendingSlotIsolated(v.client.ks, if e.newKey.Some? then Some(e.newKey.value.entry) else None);
    SlotStep(cfg, w, v.client.ks, v'.client.ks);
    IdentityStillHeld(cfg, w, w', v'.client.ks);
    if e.newKey.Some? && Admit(cfg, RequestFor(e.newKey.value)).Ok? {
      RequestIsForItsKey(cfg, w, e.newKey.value, e.challenge);
    }
  }

  lemma DiscardStep(cfg: Config, codec: SR.Codec, w: World, v: Device)
    requires DeviceStateOk(cfg, codec, w, v) && v.task.AwaitingResponse?
    ensures DeviceStateOk(cfg, codec, w, Device(SR.WithDiscarded(v.client), Idle))
  {
    K.PendingSlotIsolated(v.client.ks, None);
    SlotStep(cfg, w, v.client.ks, SR.WithDiscarded(v.client).ks);
  }

  /** Installing the response of the device's own request makes the pending key the identity and
      stores the certificate over that key. */
  lemma ResponseStep(cfg: Config, codec: SR.Codec, w: World, v: Device, id: nat)
    requires CodecOk(cfg, codec) && BackendOk(cfg, w) && DeviceStateOk(cfg, codec, w, v) && v.task.AwaitingResponse?
    requires id in w.server.enrolments && w.server.enrolments[id].phase.Responded?
    requires w.server.enrolments[id].req == v.task.req
    ensures DeviceStateOk(cfg, codec, w, Received(codec, v, ResponseFor(cfg, w.server.enrolments[id].phase.cert)))
  {
    var cert := w.server.enrolments[id].phase.cert;
    var r := ResponseFor(cfg, cert);
    var parsed := SR.ParseResponse(codec, r);
    if parsed.None? {
      DiscardStep(cfg, codec, w, v);
    } else {
      var c := SR.WithInstalled(v.client, parsed.value, r, v.task.level);
      SR.InstalledChainPersists(codec, v.client, r, v.task.level);
      K.ActivationSwapsSlots(v.client.ks.(clientPem := Some(r.clientCertificate), caPem := SR.PersistedCa(r)));
      assert K.ActiveKey(c.ks) == Some(v.task.entry);
      assert EnrolmentOk(cfg, w.server, id);
      assert Holds(cfg, w, c.ks, id);
    }
  }

  lemma DeviceStep(cfg: Config, codec: SR.Codec, w: World, e: Event)
    requires Setting(cfg, codec) && WorldOk(cfg, codec, w) && Possible(cfg, codec, w, e) && !e.ServerDoes?
    ensures DeviceStateOk(cfg, codec, Next(cfg, codec, w, e), NextDevice(cfg, codec, w, e))
  {
    var v := w.devices[e.device];
    if e.ReceiveChallenge? {
      ChallengeStep(cfg, codec, w, e);
    } else {
      if e.ReceiveResponse? {
        ResponseStep(cfg, codec, w, v, e.request);
      } else if e.FailEnroll? && v.task.AwaitingResponse? {
        DiscardStep(cfg, codec, w, v);
      }
      IdentityStillHeld(cfg, w, Next(cfg, codec, w, e), NextDevice(cfg, codec, w, e).client.ks);
    }
  }

  lemma WorldStep(cfg: Config, codec: SR.Codec, w: World, e: Event)
    requires Setting(cfg, codec) && WorldOk(cfg, codec, w) && Possible(cfg, codec, w, e)
    ensures WorldOk(cfg, codec, Next(cfg, codec, w, e))
  {
    var w' := Next(cfg, codec, w, e);
    BackendStep(cfg, codec, w, e);
    StepGrows(cfg, codec, w, e);
    forall d | d in w'.devices
      ensures DeviceStateOk(cfg, codec, w', w'.devices[d])
    {
      if !e.ServerDoes? && d == e.device {
        DeviceStep(cfg, codec, w, e);
      } else {
        assert DeviceStateOk(cfg, codec, w, w.devices[d]);
        IdentityStillHeld(cfg, w, w', w'.devices[d].client.ks);
      }
    }
  }

  lemma {:induction false} WorldAlongHistory(cfg: Config, codec: SR.Codec, worlds: seq<World>, events: seq<Event>,
                                             n: nat)
    requires Setting(cfg, codec) && IsHistory(cfg, codec, worlds, events) && n < |worlds|
    ensures WorldOk(cfg, codec, worlds[n])
  {
    if n == 0 {
      InvInitial(cfg);
    } else {
      WorldAlongHistory(cfg, codec, worlds, events, n - 1);
      assert Follows(cfg, codec, worlds, events, n - 1);
      WorldStep(cfg, codec, worlds[n - 1], events[n - 1]);
    }
  }

  // ------------------------------------------------------- the events are the app's enrolment

  /** The device is between the start of an enrolment, when its client was `c`, and its end. */
  ghost predicate Underway(v: Device, c: SR.Client) {
    match v.task
    case Idle => false
    case AwaitingChallenge => v.client == SR.Invalidated(c)
    case AwaitingResponse(_, entry, _) => v.client == SR.WithMinted(SR.Invalidated(c), Some(entry))
  }

  /** What befell an enrolment, as the app's own method sees it. */
  ghost function ScriptOf(cfg: Config, w: World, e: Event): SR.Script
    requires e.ReceiveChallenge? || e.ReceiveResponse? || e.FailEnroll?
    requires e.device in w.devices && !w.devices[e.device].task.Idle?
    requires e.ReceiveResponse? ==> e.request in w.server.enrolments && w.server.enrolments[e.request].phase.Responded?
  {
    match w.devices[e.device].task
    case AwaitingChallenge => SR.Script(if e.ReceiveChallenge? then Some(e.challenge) else None, None, false, None)
    case AwaitingResponse(req, entry, level) =>
      SR.Script(Some([]), Some((entry, level)), e.ReceiveResponse?,
                if e.ReceiveResponse? then Some(ResponseFor(cfg, w.server.enrolments[e.request].phase.cert)) else None)
    case Idle => SR.Script(None, None, false, None)
  }

  /** The event is the death of the process, or leaves the device as `Enroll` leaves a client that was
      `c` when it was called. */
  ghost predicate EndsAsEnroll(cfg: Config, codec: SR.Codec, w: World, e: Event, d: nat, c: SR.Client)
    requires Possible(cfg, codec, w, e) && d in w.devices && !w.devices[d].task.Idle?
  {
    || e == Die(d)
    || ((e.ReceiveChallenge? || e.ReceiveResponse? || e.FailEnroll?) && e.device == d
        && Next(cfg, codec, w, e).devices[d].client == SR.AfterEnroll(codec, c, ScriptOf(cfg, w, e)).0)
  }

  lemma UnderwayStep(cfg: Config, codec: SR.Codec, w: World, e: Event, d: nat, c: SR.Client)
    requires Possible(cfg, codec, w, e) && d in w.devices && Underway(w.devices[d], c)
    ensures var v' := Next(cfg, codec, w, e).devices[d];
            Underway(v', c) || (v'.task.Idle? && EndsAsEnroll(cfg, codec, w, e, d, c))
  {
  }

  /** From the start of an enrolment to the event that ends it, whatever happens in between, the device
      goes through what the app's `Enroll` does, unless its process dies. */
  lemma {:induction false} EnrolmentIsEnroll(cfg: Config, codec: SR.Codec, worlds: seq<World>, events: seq<Event>,
                                             t: nat, n: nat, d: nat)
    requires IsHistory(cfg, codec, worlds, events) && t < n < |events| && events[t] == BeginEnroll(d)
    requires forall m :: t < m <= n ==> d in worlds[m].devices && !worlds[m].devices[d].task.Idle?
    ensures d in worlds[t].devices && Underway(worlds[n].devices[d], worlds[t].devices[d].client)
    ensures Follows(cfg, codec, worlds, events, n) && d in worlds[n + 1].devices
    ensures worlds[n + 1].devices[d].task.Idle? ==>
              EndsAsEnroll(cfg, codec, worlds[n], events[n], d, worlds[t].devices[d].client)
    decreases n
  {
    assert Follows(cfg, codec, worlds, events, t);
    if t + 1 < n {
      EnrolmentIsEnroll(cfg, codec, worlds, events, t, n - 1, d);
      UnderwayStep(cfg, codec, worlds[n - 1], events[n - 1], d, worlds[t].devices[d].client);
    }
    assert Follows(cfg, codec, worlds, events, n);
    UnderwayStep(cfg, codec, worlds[n], events[n], d, worlds[t].devices[d].client);
  }

  // ------------------------------------------------------------------ agreement

  /** The registry knows the certificate as the current one of the identity it names, and a
      revoked record has its serial revoked too. */
  ghost predicate RegistryAgrees(cfg: Config, repo: Registry, cert: Certificate) {
    && PublicKeyFingerprint(cfg.pki, cert.key) == Some(cert.commonName)
    && cert.commonName in repo.devices && repo.devices[cert.commonName].certSerial == cert.serial
    && (repo.devices[cert.commonName].isRevoked ==> cert.serial in repo.revokedSerials)
  }

  /** `cert` is the stored certificate, over the active key, and the registry agrees with it. */
  ghost predicate Agrees(cfg: Config, codec: SR.Codec, repo: Registry, ks: K.Keystore, cert: Certificate) {
    && SR.IsEnrolled(ks)
    && codec.readPem(ks.clientPem.value) == Some(cert) && cert.key == Some(K.ActiveKey(ks).value.key)
    && RegistryAgrees(cfg, repo, cert)
  }

  /** A ping of this device presents `cert` and the CA's certificate, signing with the active key. */
  ghost predicate Presents(codec: SR.Codec, c: SR.Client, cert: Certificate) {
    exists ca :: SR.AfterPing(codec, c).1 == Some(SR.MtlsClient(K.ActiveAlias(c.ks), Some([cert, ca])))
  }

  lemma HeldAgrees(cfg: Config, codec: SR.Codec, w: World, ks: K.Keystore, id: nat)
    requires Setting(cfg, codec) && BackendOk(cfg, w) && Holds(cfg, w, ks, id)
    ensures Agrees(cfg, codec, w.server.shared.repo, ks, w.server.enrolments[id].phase.cert)
  {
    RecordMatchesCertificate(cfg, w, id, K.ActiveKey(ks).value.key);
  }

  lemma HeldIsPresented(cfg: Config, codec: SR.Codec, w: World, v: Device, id: nat)
    requires CodecOk(cfg, codec) && DeviceStateOk(cfg, codec, w, v) && Holds(cfg, w, v.client.ks, id)
    ensures Presents(codec, v.client, w.server.enrolments[id].phase.cert)
  {
    var cert, ca := w.server.enrolments[id].phase.cert, codec.readPem(cfg.caPem).value;
    assert SR.Restored(codec, v.client.ks) == Ok(Some([cert, ca]));
    PresentsRestored(codec, v.client);
  }

  /** In every reachable world, whatever was lost, repeated, delayed, refused or cut off: a device
      that counts as enrolled stores a certificate over the key in its active slot, the registry
      agrees with it, and that certificate is the one the device presents, signing with the active
      key. A device stores a certificate exactly when it has an active key. */
  lemma EndToEndAgreement(cfg: Config, codec: SR.Codec, worlds: seq<World>, events: seq<Event>, n: nat, d: nat)
    requires Setting(cfg, codec) && IsHistory(cfg, codec, worlds, events) && n < |worlds| && d in worlds[n].devices
    ensures var v := worlds[n].devices[d];
            && (v.client.ks.clientPem.Some? <==> K.ActiveKey(v.client.ks).Some?)
            && (SR.IsEnrolled(v.client.ks) ==>
                 exists cert :: Agrees(cfg, codec, worlds[n].server.shared.repo, v.client.ks, cert)
                                && Presents(codec, v.client, cert))
  {
    WorldAlongHistory(cfg, codec, worlds, events, n);
    var w := worlds[n];
    var v := w.devices[d];
    assert DeviceStateOk(cfg, codec, w, v);
    if v.client.ks.clientPem.Some? {
      var id :| Holds(cfg, w, v.client.ks, id);
      HeldAgrees(cfg, codec, w, v.client.ks, id);
      HeldIsPresented(cfg, codec, w, v, id);
    }
  }

  /** A coherent client presents what a restart would restore. */
  lemma PresentsRestored(codec: SR.Codec, c: SR.Client)
    requires SR.ClientCurrent(c) && SR.ChainCurrent(codec, c)
    requires SR.Restored(codec, c.ks).Ok? && SR.Restored(codec, c.ks).value.Some?
    ensures SR.AfterPing(codec, c).1 == Some(SR.MtlsClient(K.ActiveAlias(c.ks), SR.Restored(codec, c.ks).value))
  {
  }

  // ---------------------------------------------------------------- the backend's run

  lemma BackendRun(cfg: Config, codec: SR.Codec, worlds: seq<World>, events: seq<Event>)
    returns (states: seq<State>, actions: seq<Action>)
    requires IsHistory(cfg, codec, worlds, events)
    ensures IsRun(cfg, states, actions) && |states| == |worlds|
    ensures forall i :: 0 <= i < |worlds| ==> states[i] == worlds[i].server
    ensures forall i :: 0 <= i < |events| && events[i].ServerDoes? ==> actions[i] == events[i].action
  {
    states := seq(|worlds|, i requires 0 <= i < |worlds| => worlds[i].server);
    actions := seq(|events|, i requires 0 <= i < |events| =>
                     if events[i].ServerDoes? then events[i].action else Tick(worlds[i].server.now));
    forall i | 0 <= i < |actions|
      ensures Leads(cfg, states, actions, i)
    {
      assert Follows(cfg, codec, worlds, events, i);
    }
  }

  lemma GrowsTrans(a: World, b: World, c: World)
    requires Grows(a, b) && Grows(b, c)
    ensures Grows(a, c)
  {
  }

  lemma {:induction false} WorldsGrow(cfg: Config, codec: SR.Codec, worlds: seq<World>, events: seq<Event>,
                                      i: nat, j: nat)
    requires IsHistory(cfg, codec, worlds, events) && i <= j < |worlds|
    ensures Grows(worlds[i], worlds[j])
    decreases j
  {
    if i < j {
      WorldsGrow(cfg, codec, worlds, events, i, j - 1);
      assert Follows(cfg, codec, worlds, events, j - 1);
      StepGrows(cfg, codec, worlds[j - 1], events[j - 1]);
      GrowsTrans(worlds[i], worlds[j - 1], worlds[j]);
    }
  }

  /** A ping that starts with a certificate bound to an identity keeps both to its verdict. */
  lemma PingKeepsIdentity(cfg: Config, states: seq<State>, actions: seq<Action>, t: nat, n: nat,
                          ping: nat, cert: Certificate)
    requires IsRun(cfg, states, actions) && t < n < |states| && actions[t] == ArrivePing(ping, Some(cert))
    requires cert.commonName != "" && PublicKeyFingerprint(cfg.pki, cert.key) == Some(cert.commonName)
    ensures ping !in states[t].pings && ping in states[n].pings
    ensures states[n].pings[ping].identity == cert.commonName && states[n].pings[ping].serial == cert.serial
  {
    assert Leads(cfg, states, actions, t);
    assert states[t + 1].pings[ping] == Ping(cert.serial, cert.commonName, NoRead);
    RunKeepsState(cfg, states, actions, t + 1, n);
  }

  lemma AuthorizedUnlessRevoked(cfg: Config, w: World, id: nat, key: PublicKey, cert: Certificate)
    requires V.Strict(cfg.policy) && FingerprintInjective(cfg.pki) && BackendOk(cfg, w)
    requires key in w.keys && id in w.server.enrolments && w.server.enrolments[id].phase.Responded?
    requires w.server.enrolments[id].phase.cert == cert && cert.key == Some(key)
    ensures Authorized(cert.commonName, cert.serial, w.server.shared.repo) <==>
            cert.serial !in w.server.shared.repo.revokedSerials
  {
    RecordMatchesCertificate(cfg, w, id, key);
  }

  lemma FingerprintIsLong(pki: Pki, key: Option<PublicKey>)
    requires HexDigests(pki) && PublicKeyFingerprint(pki, key).Some?
    ensures PublicKeyFingerprint(pki, key).value != ""
  {
    assert |PublicKeyFingerprint(pki, key).value| == 64;
  }

  lemma HeldIsNamed(cfg: Config, w: World, ks: K.Keystore, id: nat)
    requires HexDigests(cfg.pki) && BackendOk(cfg, w) && Holds(cfg, w, ks, id)
    ensures var cert := w.server.enrolments[id].phase.cert;
            PublicKeyFingerprint(cfg.pki, cert.key) == Some(cert.commonName) && cert.commonName != ""
  {
    AnsweredIsNamed(cfg, w.server, id);
    FingerprintIsLong(cfg.pki, w.server.enrolments[id].phase.cert.key);
  }

  /** Once a request of an honest key is answered, its certificate is authorized in every later
      world in which its serial is not revoked. */
  lemma AnsweredStaysAuthorized(cfg: Config, codec: SR.Codec, worlds: seq<World>, events: seq<Event>,
                                t: nat, m: nat, id: nat, ks: K.Keystore)
    requires Setting(cfg, codec) && IsHistory(cfg, codec, worlds, events) && t <= m < |worlds|
    requires Holds(cfg, worlds[t], ks, id)
    ensures var cert := worlds[t].server.enrolments[id].phase.cert;
            Authorized(cert.commonName, cert.serial, worlds[m].server.shared.repo)
            <==> cert.serial !in worlds[m].server.shared.repo.revokedSerials
  {
    WorldAlongHistory(cfg, codec, worlds, events, m);
    WorldsGrow(cfg, codec, worlds, events, t, m);
    AuthorizedUnlessRevoked(cfg, worlds[m], id, K.ActiveKey(ks).value.key, worlds[t].server.enrolments[id].phase.cert);
  }

  /** The certificate an enrolled device stores is the one some request was answered with. */
  lemma HeldCertificate(cfg: Config, codec: SR.Codec, worlds: seq<World>, events: seq<Event>,
                        n: nat, d: nat, cert: Certificate) returns (id: nat)
    requires Setting(cfg, codec) && IsHistory(cfg, codec, worlds, events) && n < |worlds|
    requires d in worlds[n].devices && SR.IsEnrolled(worlds[n].devices[d].client.ks)
    requires codec.readPem(worlds[n].devices[d].client.ks.clientPem.value) == Some(cert)
    ensures BackendOk(cfg, worlds[n]) && Holds(cfg, worlds[n], worlds[n].devices[d].client.ks, id)
    ensures worlds[n].server.enrolments[id].phase.cert == cert
  {
    WorldAlongHistory(cfg, codec, worlds, events, n);
    assert DeviceStateOk(cfg, codec, worlds[n], worlds[n].devices[d]);
    id :| Holds(cfg, worlds[n], worlds[n].devices[d].client.ks, id);
  }

  /** World `t` lets a ping in that presents the certificate an enrolled device holds. */
  ghost predicate PingsWithHeld(codec: SR.Codec, worlds: seq<World>, events: seq<Event>, t: nat, d: nat, ping: nat,
                                cert: Certificate)
    requires |worlds| == |events| + 1
  {
    && t < |events| && d in worlds[t].devices && SR.IsEnrolled(worlds[t].devices[d].client.ks)
    && codec.readPem(worlds[t].devices[d].client.ks.clientPem.value) == Some(cert)
    && events[t] == ServerDoes(ArrivePing(ping, Some(cert)))
  }

  ghost predicate Undecided(w: World, ping: nat) {
    ping in w.server.pings && !w.server.pings[ping].stage.Done?
  }

  ghost predicate Decided(w: World, ping: nat) {
    ping in w.server.pings && w.server.pings[ping].stage.Done?
  }

  ghost predicate RevokedSerial(w: World, serial: Serial) {
    serial in w.server.shared.repo.revokedSerials
  }

  /** The backend's run behind such a ping, which keeps its identity and serial to the verdict. */
  lemma HeldPingRun(cfg: Config, codec: SR.Codec, worlds: seq<World>, events: seq<Event>,
                    t: nat, n: nat, d: nat, ping: nat, cert: Certificate)
    returns (states: seq<State>, actions: seq<Action>, id: nat)
    requires Setting(cfg, codec) && IsHistory(cfg, codec, worlds, events) && t < n < |worlds|
    requires PingsWithHeld(codec, worlds, events, t, d, ping, cert)
    ensures Holds(cfg, worlds[t], worlds[t].devices[d].client.ks, id)
    ensures worlds[t].server.enrolments[id].phase.cert == cert
    ensures IsRun(cfg, states, actions) && |states| == |worlds|
    ensures forall i :: 0 <= i < |worlds| ==> states[i] == worlds[i].server
    ensures ping !in states[t].pings && ping in states[n].pings
    ensures states[n].pings[ping].identity == cert.commonName != "" && states[n].pings[ping].serial == cert.serial
  {
    id := HeldCertificate(cfg, codec, worlds, events, t, d, cert);
    HeldIsNamed(cfg, worlds[t], worlds[t].devices[d].client.ks, id);
    states, actions := BackendRun(cfg, codec, worlds, events);
    PingKeepsIdentity(cfg, states, actions, t, n, ping, cert);
  }

  lemma RefusedOnlyIfRevoked(cfg: Config, codec: SR.Codec, worlds: seq<World>, events: seq<Event>,
                             t: nat, n: nat, d: nat, ping: nat, cert: Certificate)
    requires Setting(cfg, codec) && IsHistory(cfg, codec, worlds, events) && t < n < |worlds|
    requires PingsWithHeld(codec, worlds, events, t, d, ping, cert) && Decided(worlds[n], ping)
    ensures worlds[n].server.pings[ping].stage.verdict.Accepted? || RevokedSerial(worlds[n], cert.serial)
  {
    var states, actions, id := HeldPingRun(cfg, codec, worlds, events, t, n, d, ping, cert);
    PingLinearizable(cfg, states, actions, n, ping);
    var m :| m < n && Serving(states, m, ping)
               && (states[n].pings[ping].stage.verdict.Accepted? <==>
                     Authorized(cert.commonName, cert.serial, Repo(states, m)));
    if m <= t {
      RunKeepsState(cfg, states, actions, m, t);
    }
    AnsweredStaysAuthorized(cfg, codec, worlds, events, t, m, id, worlds[t].devices[d].client.ks);
    RunKeepsState(cfg, states, actions, m, n);
  }

  /** A ping presenting the certificate that an enrolled device held when it started is accepted
      exactly when the serial is not revoked (on its own or with its device) at its last read. */
  lemma PingDecidedByLastRead(cfg: Config, codec: SR.Codec, worlds: seq<World>, events: seq<Event>,
                              t: nat, m: nat, d: nat, ping: nat, cert: Certificate)
    requires Setting(cfg, codec) && IsHistory(cfg, codec, worlds, events) && t < m && m + 1 < |worlds|
    requires PingsWithHeld(codec, worlds, events, t, d, ping, cert)
    requires Undecided(worlds[m], ping) && Decided(worlds[m + 1], ping)
    ensures worlds[m + 1].server.pings[ping].stage.verdict.Accepted? <==> !RevokedSerial(worlds[m], cert.serial)
  {
    var states, actions, _ := HeldPingRun(cfg, codec, worlds, events, t, m + 1, d, ping, cert);
    DecidingStep(cfg, states, actions, m, ping);
    if RevokedSerial(worlds[m], cert.serial) {
      RevokedSerialStaysOut(cfg, states, actions, m, m + 1, ping);
    } else {
      RefusedOnlyIfRevoked(cfg, codec, worlds, events, t, m + 1, d, ping, cert);
    }
  }

  /** So every such ping that is decided was decided at an instant while it was served, and accepted
      exactly when the serial was not revoked then: nothing else that devices, network or other
      requests do can turn it away. If it is turned away the serial stays revoked. */
  lemma PingAcceptedUnlessRevoked(cfg: Config, codec: SR.Codec, worlds: seq<World>, events: seq<Event>,
                                  t: nat, n: nat, d: nat, ping: nat, cert: Certificate)
    requires Setting(cfg, codec) && IsHistory(cfg, codec, worlds, events) && t < n < |worlds|
    requires PingsWithHeld(codec, worlds, events, t, d, ping, cert) && Decided(worlds[n], ping)
    ensures var accepted := worlds[n].server.pings[ping].stage.verdict.Accepted?;
            && (exists m :: t < m < n && Undecided(worlds[m], ping) && Decided(worlds[m + 1], ping)
                            && (accepted <==> !RevokedSerial(worlds[m], cert.serial)))
            && (!accepted ==> RevokedSerial(worlds[n], cert.serial))
  {
    var states, actions, _ := HeldPingRun(cfg, codec, worlds, events, t, n, d, ping, cert);
    var m := DecisionOf(cfg, states, actions, t, n, ping);
    PingDecidedByLastRead(cfg, codec, worlds, events, t, m, d, ping, cert);
    assert Undecided(worlds[m], ping) && Decided(worlds[m + 1], ping);
    RefusedOnlyIfRevoked(cfg, codec, worlds, events, t, n, d, ping, cert);
  }

  /** The certificate an enrolled device holds gets it past the TLS layer up to the moment it
      expires, and from the moment it was installed. */
  lemma PingStartsUntilExpiry(cfg: Config, codec: SR.Codec, worlds: seq<World>, events: seq<Event>,
                              n: nat, d: nat, ping: nat, cert: Certificate)
    requires Setting(cfg, codec) && IsHistory(cfg, codec, worlds, events) && n < |worlds|
    requires d in worlds[n].devices && SR.IsEnrolled(worlds[n].devices[d].client.ks)
    requires codec.readPem(worlds[n].devices[d].client.ks.clientPem.value) == Some(cert)
    requires ping !in worlds[n].server.pings
    ensures Enabled(worlds[n].server, ArrivePing(ping, Some(cert))) <==> worlds[n].server.now <= cert.notAfter
  {
    var id := HeldCertificate(cfg, codec, worlds, events, n, d, cert);
    var states, actions := BackendRun(cfg, codec, worlds, events);
    AnsweredPassesTls(cfg, states, actions, n, id);
  }

  // -------------------------------------------------- failures keep the identity

  /** A step that delivers no response to the device leaves its identity alone. */
  lemma StepKeepsIdentity(cfg: Config, codec: SR.Codec, w: World, e: Event, d: nat)
    requires Possible(cfg, codec, w, e) && d in w.devices && K.SlotsDistinct(w.devices[d].client.ks)
    requires !(e.ReceiveResponse? && e.device == d)
    ensures d in Next(cfg, codec, w, e).devices
    ensures var ks, ks' := w.devices[d].client.ks, Next(cfg, codec, w, e).devices[d].client.ks;
            K.ActiveKey(ks') == K.ActiveKey(ks) && ks'.clientPem == ks.clientPem && K.SlotsDistinct(ks')
  {
    if !e.ServerDoes? && e.device == d {
      K.PendingSlotIsolated(w.devices[d].client.ks, None);
      if e.ReceiveChallenge? && e.newKey.Some? {
        K.PendingSlotIsolated(w.devices[d].client.ks, Some(e.newKey.value.entry));
      }
    }
  }

  /** Until a response is delivered to it, a device keeps its active key and its certificate:
      failed generation, lost or refused requests, discards, restarts and anything that others do
      leave them as they were. */
  lemma {:induction false} FailuresKeepIdentity(cfg: Config, codec: SR.Codec, worlds: seq<World>, events: seq<Event>,
                                                t: nat, n: nat, d: nat)
    requires Setting(cfg, codec) && IsHistory(cfg, codec, worlds, events) && t <= n < |worlds| && d in worlds[t].devices
    requires forall i :: t <= i < n ==> !(events[i].ReceiveResponse? && events[i].device == d)
    ensures d in worlds[n].devices
    ensures K.ActiveKey(worlds[n].devices[d].client.ks) == K.ActiveKey(worlds[t].devices[d].client.ks)
    ensures worlds[n].devices[d].client.ks.clientPem == worlds[t].devices[d].client.ks.clientPem
    decreases n
  {
    if t < n {
      FailuresKeepIdentity(cfg, codec, worlds, events, t, n - 1, d);
      WorldAlongHistory(cfg, codec, worlds, events, n - 1);
      assert Follows(cfg, codec, worlds, events, n - 1);
      assert DeviceStateOk(cfg, codec, worlds[n - 1], worlds[n - 1].devices[d]);
      StepKeepsIdentity(cfg, codec, worlds[n - 1], events[n - 1], d);
    }
  }

  lemma ResponseParses(cfg: Config, codec: SR.Codec, cert: Certificate)
    requires CodecOk(cfg, codec)
    ensures SR.ParseResponse(codec, ResponseFor(cfg, cert)).Some?
  {
    var pem := cfg.writePem(cert);
    assert SR.ParseSingle(codec, pem) == codec.readPem(pem);
    assert SR.ParseSingle(codec, cfg.caPem) == codec.readPem(cfg.caPem);
    SR.ParsePair(codec, pem, cfg.caPem);
  }

  /** Installing a response makes the pending key the identity and stores whatever certificate came:
      hence a response must answer the device's own request, or the two would not belong together. */
  lemma InstallActivatesPendingKey(cfg: Config, codec: SR.Codec, v: Device, cert: Certificate)
    requires CodecOk(cfg, codec) && K.SlotsDistinct(v.client.ks) && v.task.AwaitingResponse?
    requires K.PendingKey(v.client.ks) == Some(v.task.entry)
    ensures var v' := Received(codec, v, ResponseFor(cfg, cert));
            && v'.task.Idle? && SR.IsEnrolled(v'.client.ks)
            && K.ActiveKey(v'.client.ks) == Some(v.task.entry) && K.PendingKey(v'.client.ks) == None
            && v'.client.ks.clientPem == Some(cfg.writePem(cert))
            && codec.readPem(v'.client.ks.clientPem.value) == Some(cert)
  {
    var r := ResponseFor(cfg, cert);
    ResponseParses(cfg, codec, cert);
    K.ActivationSwapsSlots(v.client.ks.(clientPem := Some(r.clientCertificate), caPem := SR.PersistedCa(r)));
  }

  // -------------------------------------------- revocation of an honest identity

  /** Once an honest key is registered, no other request gets past the revoked check for it. */
  lemma RegisteredPassesNoOther(cfg: Config, w: World, key: PublicKey, identity: string, id: nat)
    requires V.Strict(cfg.policy) && FingerprintInjective(cfg.pki) && BackendOk(cfg, w)
    requires key in w.keys && PublicKeyFingerprint(cfg.pki, Some(key)) == Some(identity)
    requires identity in w.server.shared.repo.devices
    ensures !PassedCheck(w.server, id, identity)
  {
    var first := RecordHasWriter(cfg, w.server, identity);
    assert VettedFor(cfg, w.server, first, key);
    if PassedCheck(w.server, id, identity) {
      assert EnrolmentOk(cfg, w.server, id);
      assert VettedFor(cfg, w.server, id, key);
      VettedOnce(cfg, w, first, id, key);
    }
  }

  /** For an honest key no enrolment can straddle a revocation, so revoking its device is final
      without any condition on the run. */
  lemma HonestRevocationPermanent(cfg: Config, codec: SR.Codec, worlds: seq<World>, events: seq<Event>,
                                  t: nat, n: nat, key: PublicKey, identity: string)
    requires Setting(cfg, codec) && IsHistory(cfg, codec, worlds, events) && t < n < |worlds|
    requires key in worlds[t].keys && PublicKeyFingerprint(cfg.pki, Some(key)) == Some(identity)
    requires events[t] == ServerDoes(RevokeDevice(identity)) && identity in worlds[t].server.shared.repo.devices
    ensures RevokedIn(worlds[n].server, identity)
  {
    var states, actions := BackendRun(cfg, codec, worlds, events);
    WorldAlongHistory(cfg, codec, worlds, events, t);
    forall id
      ensures !PassedCheck(states[t], id, identity)
    {
      RegisteredPassesNoOther(cfg, worlds[t], key, identity, id);
    }
    assert !Straddled(states, actions, t, n, identity);
    RevocationPermanentExactly(cfg, states, actions, t, n, identity);
    assert RevokedIn(states[n], identity);
  }
}
