/** Left alone, an enrolment of a good key succeeds, and so does the ping after it. */
module EnrolmentProgress {
  import opened Prelude
  import opened Attestation
  import opened Middleware
  import opened Protocol
  import opened EnrollHandler
  import opened Server
  import opened ServerInvariants
  import opened Schedules
  import opened EndToEnd
  import Base64
  import V = Verifier
  import K = Keystore
  import SR = SecurityRepository

  /** The world after the events, if each is possible in its turn. */
  ghost function Unfold(cfg: Config, codec: SR.Codec, w: World, events: seq<Event>): Option<World>
    decreases |events|
  {
    if |events| == 0 then Some(w)
    else if Possible(cfg, codec, w, events[0]) then Unfold(cfg, codec, Next(cfg, codec, w, events[0]), events[1..])
    else None
  }

  lemma OneEvent(cfg: Config, codec: SR.Codec, w: World, e: Event, rest: seq<Event>)
    requires Possible(cfg, codec, w, e)
    ensures Unfold(cfg, codec, w, [e] + rest) == Unfold(cfg, codec, Next(cfg, codec, w, e), rest)
  {
    assert ([e] + rest)[1..] == rest;
  }

  function AsEvents(actions: seq<Action>): seq<Event> {
    seq(|actions|, i requires 0 <= i < |actions| => ServerDoes(actions[i]))
  }

  /** Possible events, one after the other, are what a history is made of. */
  lemma {:induction false} UnfoldedWorlds(cfg: Config, codec: SR.Codec, w: World, events: seq<Event>)
    returns (worlds: seq<World>)
    requires Unfold(cfg, codec, w, events).Some?
    ensures |worlds| == |events| + 1 && worlds[0] == w
    ensures worlds[|events|] == Unfold(cfg, codec, w, events).value
    ensures forall i :: 0 <= i < |events| ==> Follows(cfg, codec, worlds, events, i)
    decreases |events|
  {
    worlds := [w];
    if |events| > 0 {
      var rest := UnfoldedWorlds(cfg, codec, Next(cfg, codec, w, events[0]), events[1..]);
      worlds := [w] + rest;
      forall i | 0 <= i < |events|
        ensures Follows(cfg, codec, worlds, events, i)
      {
        assert i > 0 ==> Follows(cfg, codec, rest, events[1..], i - 1);
      }
    }
  }

  /** Neither a challenge is issued nor a request arrives. */
  predicate Unconditional(a: Action) {
    !a.IssueChallenge? && !a.ArriveEnrolment?
  }

  /** Other steps of the backend are possible in every world in which it can take them. */
  lemma {:induction false} ServerRuns(cfg: Config, codec: SR.Codec, w: World, actions: seq<Action>, end: State,
                                      rest: seq<Event>)
    requires Execute(cfg, w.server, actions) == Some(end)
    requires forall a :: a in actions ==> Unconditional(a)
    ensures Unfold(cfg, codec, w, AsEvents(actions) + rest) == Unfold(cfg, codec, w.(server := end), rest)
    decreases |actions|
  {
    if |actions| == 0 {
      assert AsEvents(actions) + rest == rest;
    } else {
      var e := ServerDoes(actions[0]);
      assert actions[0] in actions;
      assert AsEvents(actions) + rest == [e] + (AsEvents(actions[1..]) + rest);
      OneEvent(cfg, codec, w, e, AsEvents(actions[1..]) + rest);
      ServerRuns(cfg, codec, Next(cfg, codec, w, e), actions[1..], end, rest);
    }
  }

  lemma {:induction false} SoloActionsAreSteps(cfg: Config, sh: Shared, req: EnrollRequest, id: nat, phase: Phase,
                                               env: Env)
    ensures forall a :: a in SoloActions(cfg, sh, req, id, phase, env) ==> Unconditional(a)
    decreases Rank(phase)
  {
    if !Final(phase) {
      var (sh', phase') := Advance(cfg, sh, req, phase, env);
      SoloActionsAreSteps(cfg, sh', req, id, phase', env);
    }
  }

  /** The key is fresh, its chain carries the challenge and is accepted, its CSR is signed, its
      identity is not revoked, and serial and registry are available. */
  ghost predicate Enrollable(cfg: Config, w: World, f: NewKey, random: bytes, env: Env) {
    && Mintable(cfg, w, f, random) && HonestRequest(cfg, w.keys[f.entry.key := random], RequestFor(f))
    && Admit(cfg, RequestFor(f)).Ok?
    && var adm := Admit(cfg, RequestFor(f)).value;
      && adm.challenge == random && adm.csr.signatureOk && PassesAttestation(cfg, adm, env)
      && !Barred(w.server.shared.repo, PublicKeyFingerprint(cfg.pki, adm.csr.key).value)
      && EnvFits(w.server, env) && env.serial.Some? && env.serial.value !in w.server.minted && env.writable
  }

  // ---------------------------------------------------------------- the opening

  function Issued(w: World, random: bytes, expiresAt: int): World {
    var s, challenge := w.server, Base64.EncodeToString(random);
    w.(server := s.(shared := s.shared.(store := s.shared.store[challenge := expiresAt]),
                    issues := s.issues + [Issue(challenge, expiresAt)]))
  }

  function Begun(w: World, d: nat): World
    requires d in w.devices
  {
    w.(devices := w.devices[d := Device(SR.Invalidated(w.devices[d].client), AwaitingChallenge)])
  }

  function Sent(w: World, d: nat, f: NewKey, random: bytes): World
    requires d in w.devices
  {
    var client := SR.WithMinted(w.devices[d].client, Some(f.entry));
    w.(devices := w.devices[d := Device(client, AwaitingResponse(RequestFor(f), f.entry, f.level))],
       keys := w.keys[f.entry.key := random])
  }

  function Arriving(w: World, id: nat, req: EnrollRequest): World {
    w.(server := w.server.(enrolments := w.server.enrolments[id := Enrolment(req, Arrived)]))
  }

  /** The world once the request has arrived. */
  function Opened(w: World, d: nat, f: NewKey, random: bytes, expiresAt: int, id: nat): World
    requires d in w.devices
  {
    Arriving(Sent(Begun(Issued(w, random, expiresAt), d), d, f, random), id, RequestFor(f))
  }

  function Opening(d: nat, f: NewKey, random: bytes, expiresAt: int, id: nat): seq<Event> {
    [ServerDoes(IssueChallenge(random, expiresAt)), BeginEnroll(d), ReceiveChallenge(d, random, Some(f)),
     ServerDoes(ArriveEnrolment(id, RequestFor(f)))]
  }

  lemma IssuePossible(cfg: Config, codec: SR.Codec, w: World, random: bytes, expiresAt: int)
    requires LatestIssue(w.server.issues, Base64.EncodeToString(random)) == -1
    ensures var e := ServerDoes(IssueChallenge(random, expiresAt));
            Possible(cfg, codec, w, e) && Next(cfg, codec, w, e) == Issued(w, random, expiresAt)
  {
  }

  lemma BeginPossible(cfg: Config, codec: SR.Codec, w: World, d: nat)
    requires d in w.devices && w.devices[d].task.Idle?
    ensures Possible(cfg, codec, w, BeginEnroll(d)) && Next(cfg, codec, w, BeginEnroll(d)) == Begun(w, d)
  {
  }

  lemma SendPossible(cfg: Config, codec: SR.Codec, w: World, d: nat, f: NewKey, random: bytes)
    requires d in w.devices && w.devices[d].task.AwaitingChallenge? && Mintable(cfg, w, f, random)
    ensures var e := ReceiveChallenge(d, random, Some(f));
            Possible(cfg, codec, w, e) && Next(cfg, codec, w, e) == Sent(w, d, f, random)
  {
  }

  lemma ArrivalPossible(cfg: Config, codec: SR.Codec, w: World, id: nat, req: EnrollRequest)
    requires id !in w.server.enrolments && HonestRequest(cfg, w.keys, req)
    ensures var e := ServerDoes(ArriveEnrolment(id, req));
            Possible(cfg, codec, w, e) && Next(cfg, codec, w, e) == Arriving(w, id, req)
  {
  }

  lemma OpeningRuns(cfg: Config, codec: SR.Codec, w: World, d: nat, f: NewKey, random: bytes, expiresAt: int,
                    id: nat, rest: seq<Event>)
    requires d in w.devices && w.devices[d].task.Idle? && id !in w.server.enrolments
    requires LatestIssue(w.server.issues, Base64.EncodeToString(random)) == -1
    requires Mintable(cfg, w, f, random) && HonestRequest(cfg, w.keys[f.entry.key := random], RequestFor(f))
    ensures Unfold(cfg, codec, w, Opening(d, f, random, expiresAt, id) + rest)
            == Unfold(cfg, codec, Opened(w, d, f, random, expiresAt, id), rest)
  {
    var e1, e2 := ServerDoes(IssueChallenge(random, expiresAt)), BeginEnroll(d);
    var e3, e4 := ReceiveChallenge(d, random, Some(f)), ServerDoes(ArriveEnrolment(id, RequestFor(f)));
    var w1 := Issued(w, random, expiresAt);
    var w2 := Begun(w1, d);
    var w3 := Sent(w2, d, f, random);
    assert Opening(d, f, random, expiresAt, id) + rest == [e1] + ([e2] + ([e3] + ([e4] + rest)));
    IssuePossible(cfg, codec, w, random, expiresAt);
    OneEvent(cfg, codec, w, e1, [e2] + ([e3] + ([e4] + rest)));
    BeginPossible(cfg, codec, w1, d);
    OneEvent(cfg, codec, w1, e2, [e3] + ([e4] + rest));
    SendPossible(cfg, codec, w2, d, f, random);
    OneEvent(cfg, codec, w2, e3, [e4] + rest);
    ArrivalPossible(cfg, codec, w3, id, RequestFor(f));
    OneEvent(cfg, codec, w3, e4, rest);
  }

  // ------------------------------------------------------- serving and delivering

  /** Request `id` has been answered with a certificate signed now under the serial of `env`, and
      nothing was revoked meanwhile. */
  ghost predicate Answered(cfg: Config, w: World, s: State, id: nat, env: Env) {
    && id in s.enrolments && s.enrolments[id].phase.Responded?
    && s.now == w.server.now && s.pings == w.server.pings
    && s.shared.repo.revokedSerials == w.server.shared.repo.revokedSerials
    && var cert := s.enrolments[id].phase.cert;
      && Some(cert.serial) == env.serial
      && cert.notBefore == s.now - 60 && cert.notAfter == s.now + cfg.clientCertTTL
  }

  /** The backend, undisturbed, answers the request that has just arrived. */
  lemma ServedAlone(cfg: Config, codec: SR.Codec, w: World, d: nat, f: NewKey, random: bytes, expiresAt: int,
                    id: nat, env: Env) returns (actions: seq<Action>, served: State)
    requires d in w.devices && id !in w.server.enrolments && w.server.now < expiresAt
    requires Enrollable(cfg, w, f, random, env)
    ensures var s := Opened(w, d, f, random, expiresAt, id).server;
            && Execute(cfg, s, actions) == Some(served) && forall a :: a in actions ==> Unconditional(a)
    ensures Answered(cfg, w, served, id, env) && served.enrolments[id].req == RequestFor(f)
  {
    var s := Opened(w, d, f, random, expiresAt, id).server;
    EnrolmentSucceedsExactly(cfg, s.shared, RequestFor(f), env);
    served := SoloSchedule(cfg, s, id, env);
    actions := SoloActions(cfg, s.shared, RequestFor(f), id, Arrived, env);
    SoloActionsAreSteps(cfg, s.shared, RequestFor(f), id, Arrived, env);
  }

  /** The device is enrolled under the key, with the certificate of request `id`. */
  ghost predicate EnrolledWith(cfg: Config, v: Device, entry: K.KeyEntry, cert: Certificate) {
    && v.task.Idle? && SR.IsEnrolled(v.client.ks) && K.ActiveKey(v.client.ks) == Some(entry)
    && v.client.ks.clientPem == Some(cfg.writePem(cert))
  }

  lemma DeliveryPossible(cfg: Config, codec: SR.Codec, w: World, d: nat, id: nat)
    requires CodecOk(cfg, codec) && d in w.devices && w.devices[d].task.AwaitingResponse?
    requires id in w.server.enrolments && w.server.enrolments[id].phase.Responded?
    requires w.server.enrolments[id].req == w.devices[d].task.req && K.SlotsDistinct(w.devices[d].client.ks)
    requires K.PendingKey(w.devices[d].client.ks) == Some(w.devices[d].task.entry)
    ensures Possible(cfg, codec, w, ReceiveResponse(d, id))
    ensures var w' := Next(cfg, codec, w, ReceiveResponse(d, id));
            && w'.server == w.server && d in w'.devices && w'.devices - {d} == w.devices - {d}
            && EnrolledWith(cfg, w'.devices[d], w.devices[d].task.entry, w.server.enrolments[id].phase.cert)
  {
    InstallActivatesPendingKey(cfg, codec, w.devices[d], w.server.enrolments[id].phase.cert);
  }

  /** The device and the request, before the enrolment begins. */
  ghost predicate Startable(cfg: Config, codec: SR.Codec, w: World, d: nat, f: NewKey, random: bytes,
                            expiresAt: int, id: nat, env: Env) {
    && CodecOk(cfg, codec) && d in w.devices && K.SlotsDistinct(w.devices[d].client.ks)
    && w.devices[d].task.Idle? && id !in w.server.enrolments
    && LatestIssue(w.server.issues, Base64.EncodeToString(random)) == -1 && w.server.now < expiresAt
    && Enrollable(cfg, w, f, random, env)
  }

  /** Meanwhile the device has the new key in its inactive slot. */
  lemma SentAwaits(w: World, d: nat, f: NewKey, random: bytes, expiresAt: int, id: nat)
    requires d in w.devices && K.SlotsDistinct(w.devices[d].client.ks)
    ensures var sent := Opened(w, d, f, random, expiresAt, id);
            && d in sent.devices && sent.devices - {d} == w.devices - {d}
            && var v := sent.devices[d];
              && v.task == AwaitingResponse(RequestFor(f), f.entry, f.level)
              && K.SlotsDistinct(v.client.ks) && K.PendingKey(v.client.ks) == Some(f.entry)
  {
    K.PendingSlotIsolated(w.devices[d].client.ks, Some(f.entry));
  }

  /** Issuing a challenge, handing it to the device, serving its request without interruption and
      delivering the response leaves the device enrolled under its new key, and no other device
      touched. */
  lemma EnrolmentCompletes(cfg: Config, codec: SR.Codec, w: World, d: nat, f: NewKey, random: bytes, expiresAt: int,
                           id: nat, env: Env) returns (events: seq<Event>, end: World)
    requires Startable(cfg, codec, w, d, f, random, expiresAt, id, env)
    ensures Unfold(cfg, codec, w, events) == Some(end)
    ensures d in end.devices && end.devices - {d} == w.devices - {d}
    ensures Answered(cfg, w, end.server, id, env)
    ensures EnrolledWith(cfg, end.devices[d], f.entry, end.server.enrolments[id].phase.cert)
  {
    var w1 := Opened(w, d, f, random, expiresAt, id);
    var actions, served := ServedAlone(cfg, codec, w, d, f, random, expiresAt, id, env);
    var w2 := w1.(server := served);
    var last := ReceiveResponse(d, id);
    SentAwaits(w, d, f, random, expiresAt, id);
    DeliveryPossible(cfg, codec, w2, d, id);
    end := Next(cfg, codec, w2, last);
    events := Opening(d, f, random, expiresAt, id) + (AsEvents(actions) + ([last] + []));
    OpeningRuns(cfg, codec, w, d, f, random, expiresAt, id, AsEvents(actions) + ([last] + []));
    ServerRuns(cfg, codec, w1, actions, served, [last] + []);
    OneEvent(cfg, codec, w2, last, []);
  }

  // --------------------------------------------------------------------- the ping

  lemma {:induction false} UnfoldAppend(cfg: Config, codec: SR.Codec, w: World, a: seq<Event>, b: seq<Event>)
    requires Unfold(cfg, codec, w, a).Some?
    ensures Unfold(cfg, codec, w, a + b) == Unfold(cfg, codec, Unfold(cfg, codec, w, a).value, b)
    decreases |a|
  {
    if |a| == 0 {
      assert a + b == b;
    } else {
      assert (a + b)[1..] == a[1..] + b;
      UnfoldAppend(cfg, codec, Next(cfg, codec, w, a[0]), a[1..], b);
    }
  }

  lemma {:induction false} UnfoldKeepsWorldOk(cfg: Config, codec: SR.Codec, w: World, events: seq<Event>)
    requires Setting(cfg, codec) && WorldOk(cfg, codec, w) && Unfold(cfg, codec, w, events).Some?
    ensures WorldOk(cfg, codec, Unfold(cfg, codec, w, events).value)
    decreases |events|
  {
    if |events| > 0 {
      WorldStep(cfg, codec, w, events[0]);
      UnfoldKeepsWorldOk(cfg, codec, Next(cfg, codec, w, events[0]), events[1..]);
    }
  }

  function PingActions(ping: nat, cert: Certificate): seq<Action> {
    [ArrivePing(ping, Some(cert)), StepPing(ping), StepPing(ping), StepPing(ping)]
  }

  function Pinged(s: State, ping: nat, cert: Certificate, stage: Stage): State {
    s.(pings := s.pings[ping := Ping(cert.serial, cert.commonName, stage)])
  }

  lemma PingStep(cfg: Config, s: State, ping: nat, cert: Certificate, stage: Stage, rest: seq<Action>)
    requires !stage.Done?
    ensures var p := Ping(cert.serial, cert.commonName, stage);
            Execute(cfg, Pinged(s, ping, cert, stage), [StepPing(ping)] + rest)
            == Execute(cfg, Pinged(s, ping, cert, AdvancePing(s.shared.repo, p)), rest)
  {
    assert ([StepPing(ping)] + rest)[1..] == rest;
    var p := Ping(cert.serial, cert.commonName, stage);
    var before, after := Pinged(s, ping, cert, stage), Pinged(s, ping, cert, AdvancePing(s.shared.repo, p));
    assert before.pings[ping := p.(stage := AdvancePing(s.shared.repo, p))] == after.pings;
    assert Apply(cfg, before, StepPing(ping)) == after;
  }

  /** A ping that the registry authorizes, served without interruption, is accepted. */
  lemma PingServedAlone(cfg: Config, s: State, ping: nat, cert: Certificate)
    requires ping !in s.pings && TlsAccepts(s, Some(cert)) && Bind(cfg.pki, Some(cert)) == Ok(cert.commonName)
    requires Authorized(cert.commonName, cert.serial, s.shared.repo)
    ensures var accepted := Accepted(cert.commonName, s.shared.repo.devices[cert.commonName].deviceLabel);
            Execute(cfg, s, PingActions(ping, cert)) == Some(Pinged(s, ping, cert, Done(accepted)))
  {
    var record := s.shared.repo.devices[cert.commonName];
    var step := StepPing(ping);
    var arrive := ArrivePing(ping, Some(cert));
    assert Apply(cfg, s, arrive) == Pinged(s, ping, cert, NoRead);
    assert PingActions(ping, cert) == [arrive] + ([step] + ([step] + ([step] + [])));
    assert ([arrive] + ([step] + ([step] + ([step] + []))))[1..] == [step] + ([step] + ([step] + []));
    PingStep(cfg, s, ping, cert, NoRead, [step] + ([step] + []));
    PingStep(cfg, s, ping, cert, GotRecord(record), [step] + []);
    PingStep(cfg, s, ping, cert, WasActive(record), []);
  }

  /** The TLS layer, the binding of identity to key and the registry all let the certificate in. */
  ghost predicate LetsIn(cfg: Config, s: State, cert: Certificate) {
    && TlsAccepts(s, Some(cert)) && Bind(cfg.pki, Some(cert)) == Ok(cert.commonName)
    && Authorized(cert.commonName, cert.serial, s.shared.repo)
  }

  ghost predicate ValidNow(s: State, cert: Certificate) {
    cert.notBefore <= s.now <= cert.notAfter && cert.serial !in s.shared.repo.revokedSerials
  }

  lemma HeldIsLetIn(cfg: Config, w: World, ks: K.Keystore, id: nat)
    requires V.Strict(cfg.policy) && FingerprintInjective(cfg.pki) && HexDigests(cfg.pki)
    requires BackendOk(cfg, w) && Holds(cfg, w, ks, id) && ValidNow(w.server, w.server.enrolments[id].phase.cert)
    ensures LetsIn(cfg, w.server, w.server.enrolments[id].phase.cert)
  {
    HeldIsNamed(cfg, w, ks, id);
    AnsweredIsMinted(cfg, w.server, id);
    AuthorizedUnlessRevoked(cfg, w, id, K.ActiveKey(ks).value.key, w.server.enrolments[id].phase.cert);
  }

  ghost predicate LetIn(s: State, ping: nat, cert: Certificate) {
    && ping in s.pings && s.pings[ping].serial == cert.serial
    && s.pings[ping].stage.Done? && s.pings[ping].stage.verdict.Accepted?
  }

  /** Building the client does not concern the backend, and the ping can follow. */
  lemma PingRuns(cfg: Config, codec: SR.Codec, w: World, d: nat, ping: nat, cert: Certificate)
    returns (events: seq<Event>, end: World)
    requires d in w.devices && w.devices[d].task.Idle? && ping !in w.server.pings && LetsIn(cfg, w.server, cert)
    ensures Unfold(cfg, codec, w, events) == Some(end) && LetIn(end.server, ping, cert)
    ensures end.server.enrolments == w.server.enrolments
  {
    var build, built := BuildClient(d), Next(cfg, codec, w, BuildClient(d));
    var actions := PingActions(ping, cert);
    PingServedAlone(cfg, w.server, ping, cert);
    var server := Execute(cfg, w.server, actions).value;
    end := built.(server := server);
    events := [build] + (AsEvents(actions) + []);
    OneEvent(cfg, codec, w, build, AsEvents(actions) + []);
    ServerRuns(cfg, codec, built, actions, server, []);
  }

  /** A device holding an answered certificate that is within its validity and not revoked presents
      it, and is let in. */
  lemma PingCompletes(cfg: Config, codec: SR.Codec, w: World, d: nat, id: nat, ping: nat)
    returns (events: seq<Event>, end: World)
    requires Setting(cfg, codec) && WorldOk(cfg, codec, w) && d in w.devices && w.devices[d].task.Idle?
    requires Holds(cfg, w, w.devices[d].client.ks, id) && ping !in w.server.pings
    requires ValidNow(w.server, w.server.enrolments[id].phase.cert)
    ensures Unfold(cfg, codec, w, events) == Some(end)
    ensures LetIn(end.server, ping, w.server.enrolments[id].phase.cert)
    ensures end.server.enrolments == w.server.enrolments
    ensures Presents(codec, w.devices[d].client, w.server.enrolments[id].phase.cert)
  {
    HeldIsLetIn(cfg, w, w.devices[d].client.ks, id);
    HeldIsPresented(cfg, codec, w, w.devices[d], id);
    events, end := PingRuns(cfg, codec, w, d, ping, w.server.enrolments[id].phase.cert);
  }

  /** From enrolment to authentication: in every world that keeps the invariant, an idle device can
      enrol under a fresh good key and then be let in with the certificate it got, provided
      certificates live at all and the drawn serial is not one that was revoked in advance. */
  lemma EnrolmentAndPingComplete(cfg: Config, codec: SR.Codec, w: World, d: nat, f: NewKey, random: bytes,
                                 expiresAt: int, id: nat, env: Env, ping: nat)
    returns (events: seq<Event>, end: World)
    requires Setting(cfg, codec) && WorldOk(cfg, codec, w)
    requires Startable(cfg, codec, w, d, f, random, expiresAt, id, env) && ping !in w.server.pings
    requires cfg.clientCertTTL >= 0 && env.serial.value !in w.server.shared.repo.revokedSerials
    ensures Unfold(cfg, codec, w, events) == Some(end)
    ensures id in end.server.enrolments && end.server.enrolments[id].phase.Responded?
    ensures Some(end.server.enrolments[id].phase.cert.serial) == env.serial
    ensures LetIn(end.server, ping, end.server.enrolments[id].phase.cert)
  {
    var enrol, enrolled := EnrolmentCompletes(cfg, codec, w, d, f, random, expiresAt, id, env);
    UnfoldKeepsWorldOk(cfg, codec, w, enrol);
    var cert := enrolled.server.enrolments[id].phase.cert;
    var held := EnrolledHolds(cfg, codec, enrolled, d, f.entry, cert);
    var later, last := PingCompletes(cfg, codec, enrolled, d, held, ping);
    UnfoldAppend(cfg, codec, w, enrol, later);
    events, end := enrol + later, last;
  }

  lemma EnrolledHolds(cfg: Config, codec: SR.Codec, w: World, d: nat, entry: K.KeyEntry, cert: Certificate)
    returns (held: nat)
    requires Setting(cfg, codec) && WorldOk(cfg, codec, w) && d in w.devices
    requires EnrolledWith(cfg, w.devices[d], entry, cert)
    ensures Holds(cfg, w, w.devices[d].client.ks, held) && w.server.enrolments[held].phase.cert == cert
  {
    var ks := w.devices[d].client.ks;
    assert DeviceStateOk(cfg, codec, w, w.devices[d]);
    held :| Holds(cfg, w, ks, held);
    var stored := w.server.enrolments[held].phase.cert;
    assert codec.readPem(cfg.writePem(stored)) == Some(stored) && codec.readPem(cfg.writePem(cert)) == Some(cert);
  }
}
