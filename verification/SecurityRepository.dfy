/** The app's side of enrolment, and its cached mutual-TLS client. */
module SecurityRepository {
  import opened Prelude
  import opened Middleware
  import opened Protocol
  import opened Keystore

  /** Certificate parsing: PEM text, and base64 DER for anything else. */
  datatype Codec = Codec(
    readPem: string -> Option<Certificate>,
    readBase64Der: string -> Option<Certificate>)

  type Chain = seq<Certificate>

  /** The HTTP client a ping uses: the key alias it signs with and the chain it presents. */
  datatype MtlsClient = MtlsClient(keyAlias: string, chain: Option<Chain>)

  datatype Client = Client(ks: Keystore, cachedChain: Option<Chain>, api: Option<MtlsClient>)

  const PEM_HEADER := "-----BEGIN CERTIFICATE-----"

  predicate IsSpace(c: char) {
    c == ' ' || c == '\n' || c == '\r' || c == '\t'
  }

  function TrimStart(s: string): string {
    if |s| > 0 && IsSpace(s[0]) then TrimStart(s[1..]) else s
  }

  function TrimEnd(s: string): string {
    if |s| > 0 && IsSpace(s[|s| - 1]) then TrimEnd(s[..|s| - 1]) else s
  }

  function Trim(s: string): string {
    TrimEnd(TrimStart(s))
  }

  /** The app's own test: a key in the active slot and a stored certificate that is not blank. */
  predicate IsEnrolled(ks: Keystore) {
    ActiveKey(ks).Some? && ks.clientPem.Some? && Trim(ks.clientPem.value) != ""
  }

  function ParseSingle(codec: Codec, s: string): Option<Certificate> {
    var cleaned := Trim(s);
    if PEM_HEADER <= cleaned then codec.readPem(cleaned) else codec.readBase64Der(cleaned)
  }

  function ParseAll(codec: Codec, ss: seq<string>): Option<Chain> {
    if |ss| == 0 then Some([])
    else
      var first := ParseSingle(codec, ss[0]);
      var rest := ParseAll(codec, ss[1..]);
      if first.None? || rest.None? then None else Some([first.value] + rest.value)
  }

  /** Trimming takes white space off both ends, all of it and nothing else. */
  lemma TrimExactly(s: string) returns (before: string, after: string)
    ensures s == before + Trim(s) + after
    ensures forall c :: c in before || c in after ==> c in {' ', '\n', '\r', '\t'}
    ensures Trim(s) != "" ==>
              Trim(s)[0] !in {' ', '\n', '\r', '\t'} && Trim(s)[|Trim(s)| - 1] !in {' ', '\n', '\r', '\t'}
  {
    before := TrimStartExactly(s);
    after := TrimEndExactly(TrimStart(s));
    assert TrimStart(s) == Trim(s) + after;
  }

  /** Not blank means that some character is no white space. */
  lemma EnrolledExactly(ks: Keystore)
    ensures IsEnrolled(ks) <==>
            && Entry(ks, ActiveAlias(ks)).Some? && ks.clientPem.Some?
            && exists c :: c in ks.clientPem.value && c !in {' ', '\n', '\r', '\t'}
  {
    if ks.clientPem.Some? {
      var pem := ks.clientPem.value;
      var before, after := TrimExactly(pem);
      if Trim(pem) != "" {
        assert Trim(pem)[0] in before + Trim(pem) + after;
      } else {
        assert pem == before + after;
      }
    }
  }

  lemma {:induction false} TrimStartExactly(s: string) returns (before: string)
    ensures s == before + TrimStart(s) && forall c :: c in before ==> IsSpace(c)
    ensures TrimStart(s) != "" ==> !IsSpace(TrimStart(s)[0])
  {
    before := "";
    if |s| > 0 && IsSpace(s[0]) {
      var rest := TrimStartExactly(s[1..]);
      before := [s[0]] + rest;
    }
  }

  lemma {:induction false} TrimEndExactly(s: string) returns (after: string)
    ensures s == TrimEnd(s) + after && forall c :: c in after ==> IsSpace(c)
    ensures TrimEnd(s) != "" ==> !IsSpace(TrimEnd(s)[|TrimEnd(s)| - 1])
    decreases |s|
  {
    after := "";
    if |s| > 0 && IsSpace(s[|s| - 1]) {
      var rest := TrimEndExactly(s[..|s| - 1]);
      after := rest + [s[|s| - 1]];
    }
  }

  /** One text is PEM when, trimmed, it begins with the header, and base64 DER otherwise. */
  lemma SingleParsedExactly(codec: Codec, s: string)
    ensures "-----BEGIN CERTIFICATE-----" <= Trim(s) ==> ParseSingle(codec, s) == codec.readPem(Trim(s))
    ensures !("-----BEGIN CERTIFICATE-----" <= Trim(s)) ==> ParseSingle(codec, s) == codec.readBase64Der(Trim(s))
  {
  }

  /** Texts are parsed one by one, in order. */
  lemma {:induction false} AllParsedExactly(codec: Codec, ss: seq<string>, chain: Chain)
    ensures ParseAll(codec, ss) == Some(chain) <==>
            |chain| == |ss| && forall i :: 0 <= i < |ss| ==> ParseSingle(codec, ss[i]) == Some(chain[i])
  {
    if |ss| > 0 {
      if |chain| > 0 {
        AllParsedExactly(codec, ss[1..], chain[1..]);
        assert chain == [chain[0]] + chain[1..];
        if ParseAll(codec, ss) == Some(chain) {
          forall i | 0 <= i < |ss|
            ensures ParseSingle(codec, ss[i]) == Some(chain[i])
          {
            assert i > 0 ==> ss[i] == ss[1..][i - 1] && chain[i] == chain[1..][i - 1];
          }
        }
      }
    }
  }

  /** Which texts make up the chain of a response, and which CA text is kept. */
  lemma ResponseTexts(codec: Codec, r: EnrollResponse)
    ensures r.certificateChain.Some? && r.certificateChain.value != [] ==>
              ParseResponse(codec, r) == ParseAll(codec, r.certificateChain.value)
    ensures r.certificateChain == None || r.certificateChain == Some([]) ==>
              ParseResponse(codec, r)
              == match r.caCertificate
                 case Some(ca) => ParseAll(codec, [r.clientCertificate, ca])
                 case None => ParseAll(codec, [r.clientCertificate])
    ensures r.caCertificate.Some? ==> PersistedCa(r) == r.caCertificate
    ensures forall front, last :: r.caCertificate.None? && r.certificateChain == Some(front + [last]) ==>
              PersistedCa(r) == Some(last)
    ensures r.caCertificate.None? && (r.certificateChain == None || r.certificateChain == Some([])) ==>
              PersistedCa(r) == None
  {
    assert r.caCertificate.Some? ==>
        [r.clientCertificate] + [r.caCertificate.value] == [r.clientCertificate, r.caCertificate.value];
    assert [r.clientCertificate] + [] == [r.clientCertificate];
  }

  /** The chain of a response: the listed one, or the client and CA certificates. */
  function ParseResponse(codec: Codec, r: EnrollResponse): Option<Chain> {
    if r.certificateChain.Some? && |r.certificateChain.value| > 0 then ParseAll(codec, r.certificateChain.value)
    else ParseAll(codec, [r.clientCertificate] + if r.caCertificate.Some? then [r.caCertificate.value] else [])
  }

  /** The CA text that is persisted: the response's own, or the last of its chain. */
  function PersistedCa(r: EnrollResponse): Option<string> {
    if r.caCertificate.Some? then r.caCertificate
    else if r.certificateChain.Some? && |r.certificateChain.value| > 0 then
      Some(r.certificateChain.value[|r.certificateChain.value| - 1])
    else None
  }

  /** The chain rebuilt from the persisted texts, [leaf] or [leaf, ca]; absent when the app has
      no certificate, and an error when a text cannot be read. */
  function Restored(codec: Codec, ks: Keystore): Result<Option<Chain>, ()> {
    if ks.clientPem.None? then Ok(None)
    else
      var leaf := codec.readPem(ks.clientPem.value);
      if leaf.None? then Err(())
      else if ks.caPem.None? then Ok(Some([leaf.value]))
      else
        var ca := codec.readPem(ks.caPem.value);
        if ca.None? then Err(()) else Ok(Some([leaf.value, ca.value]))
  }

  // ------------------------------------------------------------------- the steps

  function Invalidated(c: Client): Client {
    c.(cachedChain := None, api := None)
  }

  function WithMinted(c: Client, minted: Option<KeyEntry>): Client {
    c.(ks := WithGenerated(c.ks, minted))
  }

  function WithDiscarded(c: Client): Client {
    c.(ks := WithPendingDiscarded(c.ks))
  }

  /** From the parsed chain to the stored level: the part that runs to its end once begun. */
  function WithInstalled(c: Client, chain: Chain, r: EnrollResponse, level: Level): Client {
    var saved := c.ks.(clientPem := Some(r.clientCertificate), caPem := PersistedCa(r));
    c.(cachedChain := Some(chain), ks := WithPendingActivated(saved).(level := Some(level)))
  }

  /** What the world does to one enrolment: the challenge, the key generation, the CSR and the
      backend's response, each of which can fail. */
  datatype Script = Script(
    challenge: Option<bytes>,
    minted: Option<(KeyEntry, Level)>,
    csrOk: bool,
    response: Option<EnrollResponse>)

  function AfterEnroll(codec: Codec, c: Client, script: Script): (Client, bool) {
    var c1 := Invalidated(c);
    if script.challenge.None? then (c1, false)
    else if script.minted.None? then (WithMinted(c1, None), false)
    else
      var c2 := WithMinted(c1, Some(script.minted.value.0));
      var chain := if script.csrOk && script.response.Some? then ParseResponse(codec, script.response.value) else None;
      if chain.None? then (WithDiscarded(c2), false)
      else (WithInstalled(c2, chain.value, script.response.value, script.minted.value.1), true)
  }

  /** What an enrolment that got its challenge does to the key slots is one attempt: activated
      exactly when it succeeds, and never abandoned. A success stores the level of the new key and
      the certificate that came for it; a failure leaves both as they were. */
  lemma EnrollIsOneAttempt(codec: Codec, c: Client, script: Script)
    requires script.challenge.Some?
    ensures var (c', ok) := AfterEnroll(codec, c, script);
            var a := if script.minted.None? then GenerationFailed
                     else if ok then Activated(script.minted.value.0) else Rejected(script.minted.value.0);
            && c'.api == None && (!ok ==> c'.cachedChain == None)
            && c'.ks.entries == AfterAttempt(c.ks, a).entries && c'.ks.activeAlias == AfterAttempt(c.ks, a).activeAlias
            && (ok <==> script.minted.Some? && script.csrOk && script.response.Some?
                        && ParseResponse(codec, script.response.value).Some?)
            && (!ok ==> c'.ks == AfterAttempt(c.ks, a))
            && (ok ==>
                 && c'.ks.level == Some(script.minted.value.1)
                 && c'.ks.clientPem == Some(script.response.value.clientCertificate)
                 && c'.ks.caPem == PersistedCa(script.response.value)
                 && c'.cachedChain == ParseResponse(codec, script.response.value) && c'.cachedChain.Some?)
  {
  }

  /** An enrolment that gets no challenge only forgets what was cached. */
  lemma NoChallengeNothing(codec: Codec, c: Client, script: Script)
    requires script.challenge.None?
    ensures AfterEnroll(codec, c, script) == (Client(c.ks, None, None), false)
  {
  }

  /** The cached chain, or the restored one, which is then cached. */
  function Resolved(codec: Codec, c: Client): Result<(Client, Option<Chain>), ()> {
    if c.cachedChain.Some? then Ok((c, c.cachedChain))
    else
      match Restored(codec, c.ks)
      case Err(e) => Err(e)
      case Ok(chain) => Ok((c.(cachedChain := chain), chain))
  }

  /** A ping uses the cached client or builds one; an unreadable certificate stops it. */
  function AfterPing(codec: Codec, c: Client): (Client, Option<MtlsClient>) {
    if c.api.Some? then (c, c.api)
    else
      match Resolved(codec, c)
      case Err(_) => (c, None)
      case Ok((c', chain)) =>
        var api := Some(MtlsClient(ActiveAlias(c.ks), chain));
        (c'.(api := api), api)
  }

  /** A client that a ping has built serves the next ping too, and one is built whenever the stored
      certificates can be read or a chain is cached. */
  lemma PingCaches(codec: Codec, c: Client)
    ensures var (c', api) := AfterPing(codec, c);
            && (api.Some? ==> AfterPing(codec, c') == (c', api))
            && (api.Some? <==> c.api.Some? || c.cachedChain.Some? || Restored(codec, c.ks).Ok?)
            && c'.ks == c.ks
  {
  }

  /** The process dies and comes back: memory is gone, keystore and preferences are not. */
  function Restarted(c: Client): Client {
    Invalidated(c)
  }

  // ------------------------------------------------------------ cache coherence

  datatype Event =
    | Enroll(script: Script)
    | Ping
    | Restart

  function After(codec: Codec, c: Client, e: Event): Client {
    match e
    case Enroll(script) => AfterEnroll(codec, c, script).0
    case Ping => AfterPing(codec, c).0
    case Restart => Restarted(c)
  }

  function AfterAll(codec: Codec, c: Client, events: seq<Event>): Client {
    if |events| == 0 then c
    else After(codec, AfterAll(codec, c, events[..|events| - 1]), events[|events| - 1])
  }

  /** A cached client was built from the alias that is active now and the chain that is cached
      now (or from none when the app has no certificate). */
  ghost predicate ClientCurrent(c: Client) {
    c.api.Some? ==>
      && c.api.value == MtlsClient(ActiveAlias(c.ks), c.cachedChain)
      && (c.cachedChain.None? ==> c.ks.clientPem.None?)
  }

  /** The chain in memory is the one a restart would restore. */
  ghost predicate ChainCurrent(codec: Codec, c: Client) {
    c.cachedChain.Some? ==> Restored(codec, c.ks) == Ok(c.cachedChain)
  }

  /** As the backend builds them: two PEM texts, and the chain made of the same two. */
  ghost predicate ServerShaped(r: EnrollResponse) {
    && r.caCertificate.Some?
    && PEM_HEADER <= Trim(r.clientCertificate) && PEM_HEADER <= Trim(r.caCertificate.value)
    && r.certificateChain == Some([r.clientCertificate, r.caCertificate.value])
  }

  /** Assumption: PEM readers do not care about white space around the text. */
  ghost predicate TrimInsensitive(codec: Codec) {
    forall s :: codec.readPem(Trim(s)) == codec.readPem(s)
  }

  /** What the response must be for its chain to survive a restart. The stored texts are the client
      certificate and one CA text; without a list they are the chain, and with a list the list must
      be those two certificates. The stored texts are read as PEM, whereas a response may also hold
      base64 DER. */
  predicate Restorable(codec: Codec, r: EnrollResponse) {
    var client, ca := r.clientCertificate, r.caCertificate;
    if r.certificateChain.Some? && |r.certificateChain.value| > 0 then
      var list := r.certificateChain.value;
      && |list| == 2
      && codec.readPem(client) == ParseSingle(codec, list[0])
      && codec.readPem(if ca.Some? then ca.value else list[1]) == ParseSingle(codec, list[1])
    else
      && codec.readPem(client) == ParseSingle(codec, client)
      && (ca.Some? ==> codec.readPem(ca.value) == ParseSingle(codec, ca.value))
  }

  lemma {:induction false} ParsedLength(codec: Codec, ss: seq<string>)
    requires ParseAll(codec, ss).Some?
    ensures |ParseAll(codec, ss).value| == |ss|
  {
    if |ss| > 0 {
      ParsedLength(codec, ss[1..]);
    }
  }

  lemma ParseOne(codec: Codec, a: string)
    ensures var x := ParseSingle(codec, a);
            ParseAll(codec, [a]) == if x.None? then None else Some([x.value])
  {
    assert [a][1..] == [] && ParseAll(codec, []) == Some([]);
    var x := ParseSingle(codec, a);
    if x.Some? {
      assert [x.value] + [] == [x.value];
    }
  }

  /** The chain a response installs is the one a restart restores exactly when the response is
      restorable. */
  lemma RestoredExactly(codec: Codec, c: Client, r: EnrollResponse, level: Level)
    requires ParseResponse(codec, r).Some?
    ensures Restored(codec, WithInstalled(c, ParseResponse(codec, r).value, r, level).ks) == Ok(ParseResponse(codec, r))
            <==> Restorable(codec, r)
  {
    var client, ca := r.clientCertificate, r.caCertificate;
    if r.certificateChain.Some? && |r.certificateChain.value| > 0 {
      var list := r.certificateChain.value;
      ParsedLength(codec, list);
      if |list| == 2 {
        assert list == [list[0], list[1]];
        ParsePair(codec, list[0], list[1]);
      }
    } else if ca.Some? {
      assert [client] + [ca.value] == [client, ca.value];
      ParsePair(codec, client, ca.value);
    } else {
      assert [client] + [] == [client];
      ParseOne(codec, client);
    }
  }

  /** Every text of the response is PEM. */
  ghost predicate AllPem(r: EnrollResponse) {
    && PEM_HEADER <= Trim(r.clientCertificate)
    && (r.caCertificate.Some? ==> PEM_HEADER <= Trim(r.caCertificate.value))
    && (r.certificateChain.Some? ==> forall s :: s in r.certificateChain.value ==> PEM_HEADER <= Trim(s))
  }

  /** So for PEM texts the list must be absent or empty, or be the two certificates that the other
      fields name. */
  lemma RestoredExactlyForPem(codec: Codec, c: Client, r: EnrollResponse, level: Level)
    requires TrimInsensitive(codec) && AllPem(r) && ParseResponse(codec, r).Some?
    ensures Restored(codec, WithInstalled(c, ParseResponse(codec, r).value, r, level).ks) == Ok(ParseResponse(codec, r))
            <==> (r.certificateChain.Some? && |r.certificateChain.value| > 0 ==>
                    var list := r.certificateChain.value;
                    && |list| == 2
                    && ParseSingle(codec, list[0]) == ParseSingle(codec, r.clientCertificate)
                    && (r.caCertificate.Some? ==>
                          ParseSingle(codec, list[1]) == ParseSingle(codec, r.caCertificate.value)))
  {
    RestoredExactly(codec, c, r, level);
    forall s | PEM_HEADER <= Trim(s)
      ensures codec.readPem(s) == ParseSingle(codec, s)
    {
    }
  }

  lemma ServerShapedIsRestorable(codec: Codec, r: EnrollResponse)
    requires TrimInsensitive(codec) && ServerShaped(r)
    ensures Restorable(codec, r)
  {
  }

  /** The backend's responses are restorable. */
  lemma InstalledChainPersists(codec: Codec, c: Client, r: EnrollResponse, level: Level)
    requires TrimInsensitive(codec) && ServerShaped(r) && ParseResponse(codec, r).Some?
    ensures Restored(codec, WithInstalled(c, ParseResponse(codec, r).value, r, level).ks) == Ok(ParseResponse(codec, r))
  {
    ServerShapedIsRestorable(codec, r);
    RestoredExactly(codec, c, r, level);
  }

  lemma ParsePair(codec: Codec, a: string, b: string)
    ensures var x, y := ParseSingle(codec, a), ParseSingle(codec, b);
            ParseAll(codec, [a, b]) == if x.None? || y.None? then None else Some([x.value, y.value])
  {
    assert [a, b][1..] == [b] && [b][1..] == [];
    var x, y := ParseSingle(codec, a), ParseSingle(codec, b);
    assert ParseAll(codec, []) == Some([]);
    if x.Some? && y.Some? {
      assert [y.value] + [] == [y.value];
      assert ParseAll(codec, [b]) == Some([y.value]);
      assert [x.value] + [y.value] == [x.value, y.value];
    } else if x.Some? {
      assert ParseAll(codec, [b]).None?;
    }
  }

  /** A response that the event brings is restorable, if it can be parsed at all. */
  predicate OnlyRestorable(codec: Codec, e: Event) {
    e.Enroll? && e.script.response.Some? && ParseResponse(codec, e.script.response.value).Some? ==>
      Restorable(codec, e.script.response.value)
  }

  /** Over every run of enrolments, pings and restarts that do not overlap, whatever fails in
      them: any cached client matches the active alias and the cached chain, and, when every response
      that can be parsed is restorable, the cached chain is the one a restart restores. */
  lemma {:induction false} CacheCoherence(codec: Codec, c: Client, events: seq<Event>)
    requires c.api.None? && c.cachedChain.None?
    ensures ClientCurrent(AfterAll(codec, c, events))
    ensures (forall i :: 0 <= i < |events| ==> OnlyRestorable(codec, events[i]))
            ==> ChainCurrent(codec, AfterAll(codec, c, events))
  {
    if |events| > 0 {
      var n := |events| - 1;
      CacheCoherence(codec, c, events[..n]);
      var before, e := AfterAll(codec, c, events[..n]), events[n];
      if e.Enroll? && AfterEnroll(codec, before, e.script).1 {
        var c2 := WithMinted(Invalidated(before), Some(e.script.minted.value.0));
        RestoredExactly(codec, c2, e.script.response.value, e.script.minted.value.1);
      }
    }
  }

  /** In particular a list that does not have two certificates is cut short, or lengthened, by a
      restart: only the client certificate and one CA text are persisted. */
  lemma LongChainNotRestored(codec: Codec, c: Client, r: EnrollResponse, level: Level)
    requires ParseResponse(codec, r).Some? && r.certificateChain.Some?
    requires |r.certificateChain.value| == 1 || |r.certificateChain.value| > 2
    ensures Restored(codec, WithInstalled(c, ParseResponse(codec, r).value, r, level).ks) != Ok(ParseResponse(codec, r))
  {
    RestoredExactly(codec, c, r, level);
  }

  // ------------------------------------------------------- an installation cut short

  /** The client after the first `k` of the five writes of an installation: the cached chain, the
      client certificate, the CA text, the slots, the level. */
  function InstallPrefix(c: Client, chain: Chain, r: EnrollResponse, level: Level, k: nat): Client {
    var c1 := if k >= 1 then c.(cachedChain := Some(chain)) else c;
    var c2 := if k >= 2 then c1.(ks := c1.ks.(clientPem := Some(r.clientCertificate))) else c1;
    var c3 := if k >= 3 then c2.(ks := c2.ks.(caPem := PersistedCa(r))) else c2;
    var c4 := if k >= 4 then c3.(ks := WithPendingActivated(c3.ks)) else c3;
    if k >= 5 then c4.(ks := c4.ks.(level := Some(level))) else c4
  }

  lemma InstallPrefixComplete(c: Client, chain: Chain, r: EnrollResponse, level: Level)
    ensures InstallPrefix(c, chain, r, level, 5) == WithInstalled(c, chain, r, level)
  {
  }

  /** An exception at that point discards the pending key; the death of the process forgets what
      was in memory. */
  function CutShort(c: Client, chain: Chain, r: EnrollResponse, level: Level, k: nat, died: bool): Client {
    var cut := InstallPrefix(c, chain, r, level, k);
    if died then Restarted(cut) else WithDiscarded(cut)
  }

  /** The next ping presents a certificate over the key it signs with. */
  ghost predicate PingMatches(codec: Codec, c: Client) {
    var api := AfterPing(codec, c).1;
    && api.Some? && api.value.chain.Some? && |api.value.chain.value| > 0
    && Entry(c.ks, api.value.keyAlias).Some?
    && api.value.chain.value[0].key == Some(Entry(c.ks, api.value.keyAlias).value.key)
  }

  /** Re-enrolling under a fresh key, with nothing cached, an identity that works now, and a
      response for the pending key. */
  ghost predicate ReadyToInstall(codec: Codec, c: Client, r: EnrollResponse) {
    && SlotsDistinct(c.ks) && c.api.None? && c.cachedChain.None? && PingMatches(codec, c)
    && PendingKey(c.ks).Some? && PendingKey(c.ks).value.key != ActiveKey(c.ks).value.key
    && TrimInsensitive(codec) && ServerShaped(r) && ParseResponse(codec, r).Some?
    && ParseResponse(codec, r).value[0].key == Some(PendingKey(c.ks).value.key)
  }

  lemma ServerShapedChain(codec: Codec, r: EnrollResponse)
    requires TrimInsensitive(codec) && ServerShaped(r) && ParseResponse(codec, r).Some?
    ensures codec.readPem(r.clientCertificate).Some? && codec.readPem(r.caCertificate.value).Some?
    ensures ParseResponse(codec, r).value
            == [codec.readPem(r.clientCertificate).value, codec.readPem(r.caCertificate.value).value]
  {
    ParsePair(codec, r.clientCertificate, r.caCertificate.value);
    assert ParseSingle(codec, r.clientCertificate) == codec.readPem(r.clientCertificate);
    assert ParseSingle(codec, r.caCertificate.value) == codec.readPem(r.caCertificate.value);
  }

  /** Why an installation must run to its end, and from where on it no longer matters: cut short
      after `k` writes, the app can still authenticate if and only if the slots had been swapped, or
      the new chain had reached neither memory (on an exception) nor the preferences (on a death). */
  lemma InterruptedInstallExactly(codec: Codec, c: Client, r: EnrollResponse, level: Level, k: nat, died: bool)
    requires ReadyToInstall(codec, c, r) && k <= 5
    ensures PingMatches(codec, CutShort(c, ParseResponse(codec, r).value, r, level, k, died))
            <==> k >= 4 || k == 0 || (k == 1 && died)
    ensures var chain := ParseResponse(codec, r).value;
            InstallPrefix(c, chain, r, level, 0) == c
            && InstallPrefix(c, chain, r, level, 5) == WithInstalled(c, chain, r, level)
  {
    InstallPrefixComplete(c, ParseResponse(codec, r).value, r, level);
    ServerShapedChain(codec, r);
    var cut := InstallPrefix(c, ParseResponse(codec, r).value, r, level, k);
    if k < 4 {
      PendingSlotIsolated(cut.ks, None);
      assert ActiveAlias(cut.ks) == ActiveAlias(c.ks) && ActiveKey(cut.ks) == ActiveKey(c.ks);
    } else {
      ActivationSwapsSlots(InstallPrefix(c, ParseResponse(codec, r).value, r, level, 3).ks);
      PendingSlotIsolated(cut.ks, None);
      assert ActiveKey(cut.ks) == PendingKey(c.ks);
    }
  }

  // --------------------------------------------------------------- the repository

  class SecurityRepository {
    const codec: Codec
    const keystoreManager: KeystoreManager
    var protectedApi: Option<MtlsClient>
    var cachedClientChain: Option<Chain>

    constructor (codec: Codec, keystoreManager: KeystoreManager)
      ensures this.codec == codec && this.keystoreManager == keystoreManager
      ensures View() == Client(keystoreManager.View(), None, None)
    {
      this.codec, this.keystoreManager := codec, keystoreManager;
      protectedApi, cachedClientChain := None, None;
    }

    function View(): Client
      reads this, keystoreManager
    {
      Client(keystoreManager.View(), cachedClientChain, protectedApi)
    }

    method HasIdentity() returns (enrolled: bool)
      ensures enrolled == IsEnrolled(View().ks)
    {
      var has := keystoreManager.HasKey();
      enrolled := has && keystoreManager.clientPem.Some? && Trim(keystoreManager.clientPem.value) != "";
    }

    method InvalidateClient()
      modifies this
      ensures View() == Invalidated(old(View()))
    {
      protectedApi, cachedClientChain := None, None;
    }

    /** Any failure after the key was minted discards it. */
    method Enroll(script: Script) returns (ok: bool)
      modifies this, keystoreManager
      ensures (View(), ok) == AfterEnroll(codec, old(View()), script)
    {
      InvalidateClient();
      if script.challenge.None? {
        return false;
      }
      if script.minted.None? {
        ok := keystoreManager.GenerateKeyPairWithAttestation(None);
        return false;
      }
      ok := keystoreManager.GenerateKeyPairWithAttestation(Some(script.minted.value.0));
      if !script.csrOk || script.response.None? {
        keystoreManager.DiscardPendingKey();
        return false;
      }
      var response := script.response.value;
      var installedChain := ParseCertificateChain(response);
      if installedChain.None? {
        keystoreManager.DiscardPendingKey();
        return false;
      }
      cachedClientChain := installedChain;
      keystoreManager.SaveCertificates(Some(response.clientCertificate), PersistedCa(response));
      keystoreManager.ActivatePendingKey();
      keystoreManager.SaveSecurityLevel(Some(script.minted.value.1));
      ok := true;
    }

    method ParseCertificateChain(response: EnrollResponse) returns (chain: Option<Chain>)
      ensures chain == ParseResponse(codec, response)
    {
      var texts := if response.certificateChain.Some? then response.certificateChain.value else [];
      if |texts| == 0 {
        var ca := if response.caCertificate.Some? then [response.caCertificate.value] else [];
        texts := [response.clientCertificate] + ca;
      }
      chain := ParseCertificates(texts);
    }

    method ParseCertificates(texts: seq<string>) returns (chain: Option<Chain>)
      ensures chain == ParseAll(codec, texts)
    {
      var certs: Chain := [];
      ghost var all := ParseAll(codec, texts);
      assert texts[0..] == texts && (all.Some? ==> certs + all.value == all.value);
      for i := 0 to |texts|
        invariant ParseAll(codec, texts) ==
                  match ParseAll(codec, texts[i..]) case None => None case Some(rest) => Some(certs + rest)
      {
        assert texts[i..][1..] == texts[i + 1..];
        var c := ParseSingle(codec, texts[i]);
        if c.None? {
          return None;
        }
        ghost var rest := ParseAll(codec, texts[i + 1..]);
        assert rest.Some? ==> certs + ([c.value] + rest.value) == certs + [c.value] + rest.value;
        certs := certs + [c.value];
      }
      assert certs + [] == certs;
      chain := Some(certs);
    }

    method PingProtected() returns (used: Option<MtlsClient>)
      modifies this
      ensures (View(), used) == AfterPing(codec, old(View()))
    {
      if protectedApi.Some? {
        return protectedApi;
      }
      var name := keystoreManager.GetKeyAlias();
      var chain := ResolveClientChain();
      if chain.Err? {
        return None;
      }
      protectedApi := Some(MtlsClient(name, chain.value));
      used := protectedApi;
    }

    method ResolveClientChain() returns (chain: Result<Option<Chain>, ()>)
      modifies this
      ensures match Resolved(codec, old(View()))
              case Err(e) => chain == Err(e) && View() == old(View())
              case Ok((c, resolved)) => chain == Ok(resolved) && View() == c
    {
      if cachedClientChain.Some? {
        return Ok(cachedClientChain);
      }
      if keystoreManager.clientPem.None? {
        return Ok(None);
      }
      var leaf := codec.readPem(keystoreManager.clientPem.value);
      if leaf.None? {
        return Err(());
      }
      if keystoreManager.caPem.None? {
        cachedClientChain := Some([leaf.value]);
      } else {
        var ca := codec.readPem(keystoreManager.caPem.value);
        if ca.None? {
          return Err(());
        }
        cachedClientChain := Some([leaf.value, ca.value]);
      }
      chain := Ok(cachedClientChain);
    }
  }
}
