/** One backend under the default strict policy, one device and one key for which everything that the
    end-to-end theorems assume holds, and a history in which the device enrols and is let in. */
module StrictInstance {
  import opened Prelude
  import opened Attestation
  import opened DeviceRepo
  import opened Middleware
  import opened Protocol
  import opened EnrollHandler
  import opened Server
  import opened ServerInvariants
  import opened EndToEnd
  import opened EnrolmentProgress
  import Base64
  import Der
  import V = Verifier
  import K = Keystore
  import SR = SecurityRepository

  // ---------------------------------------------- a PEM writer that loses nothing

  /** Ones and a final zero. */
  function Digits(n: nat): string {
    if n == 0 then "0" else ['1'] + Digits(n - 1)
  }

  function IntDigits(i: int): string {
    Digits(if i >= 0 then 2 * i else -2 * i - 1)
  }

  function Text(s: string): string {
    Digits(|s|) + s
  }

  function Texts(ss: seq<string>): string {
    if |ss| == 0 then "0" else ['1'] + (Text(ss[0]) + Texts(ss[1..]))
  }

  function KeyDigits(key: Option<PublicKey>): string {
    Digits(match key case None => 0 case Some(k) => k.id + 1)
  }

  function Body(c: Certificate): string {
    Text(c.commonName) + (Texts(c.uris) + (KeyDigits(c.key) + (Digits(c.serial) + (IntDigits(c.notBefore)
      + IntDigits(c.notAfter)))))
  }

  function WritePem(c: Certificate): string {
    SR.PEM_HEADER + Body(c)
  }

  lemma {:induction false} DigitsApart(m: nat, n: nat, x: string, y: string)
    requires Digits(m) + x == Digits(n) + y
    ensures m == n && x == y
  {
    assert (Digits(m) + x)[0] == Digits(m)[0] && (Digits(n) + y)[0] == Digits(n)[0];
    if m == 0 || n == 0 {
      assert m == n;
      assert (Digits(m) + x)[1..] == x && (Digits(n) + y)[1..] == y;
    } else {
      assert (Digits(m) + x)[1..] == Digits(m - 1) + x;
      assert (Digits(n) + y)[1..] == Digits(n - 1) + y;
      DigitsApart(m - 1, n - 1, x, y);
    }
  }

  lemma TextApart(s: string, t: string, x: string, y: string)
    requires Text(s) + x == Text(t) + y
    ensures s == t && x == y
  {
    assert Text(s) + x == Digits(|s|) + (s + x) && Text(t) + y == Digits(|t|) + (t + y);
    DigitsApart(|s|, |t|, s + x, t + y);
    assert (s + x)[..|s|] == s && (t + y)[..|t|] == t;
    assert (s + x)[|s|..] == x && (t + y)[|t|..] == y;
  }

  lemma {:induction false} TextsApart(ss: seq<string>, ts: seq<string>, x: string, y: string)
    requires Texts(ss) + x == Texts(ts) + y
    ensures ss == ts && x == y
  {
    assert (Texts(ss) + x)[0] == Texts(ss)[0] && (Texts(ts) + y)[0] == Texts(ts)[0];
    if |ss| == 0 || |ts| == 0 {
      assert ss == ts;
      assert (Texts(ss) + x)[1..] == x && (Texts(ts) + y)[1..] == y;
    } else {
      assert (Texts(ss) + x)[1..] == Text(ss[0]) + (Texts(ss[1..]) + x);
      assert (Texts(ts) + y)[1..] == Text(ts[0]) + (Texts(ts[1..]) + y);
      TextApart(ss[0], ts[0], Texts(ss[1..]) + x, Texts(ts[1..]) + y);
      TextsApart(ss[1..], ts[1..], x, y);
      assert ss == [ss[0]] + ss[1..] && ts == [ts[0]] + ts[1..];
    }
  }

  lemma BodyApart(a: Certificate, b: Certificate)
    requires Body(a) == Body(b)
    ensures a == b
  {
    var a5, b5 := IntDigits(a.notAfter), IntDigits(b.notAfter);
    var a4, b4 := IntDigits(a.notBefore) + a5, IntDigits(b.notBefore) + b5;
    var a3, b3 := Digits(a.serial) + a4, Digits(b.serial) + b4;
    var a2, b2 := KeyDigits(a.key) + a3, KeyDigits(b.key) + b3;
    var a1, b1 := Texts(a.uris) + a2, Texts(b.uris) + b2;
    TextApart(a.commonName, b.commonName, a1, b1);
    TextsApart(a.uris, b.uris, a2, b2);
    KeysApart(a.key, b.key, a3, b3);
    DigitsApart(a.serial, b.serial, a4, b4);
    IntsApart(a.notBefore, b.notBefore, a5, b5);
    assert a5 + "" == a5 && b5 + "" == b5;
    IntsApart(a.notAfter, b.notAfter, "", "");
  }

  lemma KeysApart(a: Option<PublicKey>, b: Option<PublicKey>, x: string, y: string)
    requires KeyDigits(a) + x == KeyDigits(b) + y
    ensures a == b && x == y
  {
    DigitsApart(match a case None => 0 case Some(k) => k.id + 1, match b case None => 0 case Some(k) => k.id + 1, x, y);
  }

  lemma IntsApart(i: int, j: int, x: string, y: string)
    requires IntDigits(i) + x == IntDigits(j) + y
    ensures i == j && x == y
  {
    DigitsApart(if i >= 0 then 2 * i else -2 * i - 1, if j >= 0 then 2 * j else -2 * j - 1, x, y);
  }

  lemma PemApart(a: Certificate, b: Certificate)
    requires WritePem(a) == WritePem(b)
    ensures a == b
  {
    assert WritePem(a)[|SR.PEM_HEADER|..] == Body(a) && WritePem(b)[|SR.PEM_HEADER|..] == Body(b);
    BodyApart(a, b);
  }

  // -------------------------------------------------------------- trimming and reading

  lemma {:induction false} DigitsEnd(n: nat)
    ensures |Digits(n)| > 0 && Digits(n)[|Digits(n)| - 1] == '0'
  {
    if n > 0 {
      DigitsEnd(n - 1);
    }
  }

  /** The text begins with a dash and ends with a zero. */
  lemma PemIsTrimmed(c: Certificate)
    ensures SR.Trim(WritePem(c)) == WritePem(c) && SR.PEM_HEADER <= SR.Trim(WritePem(c))
  {
    var tail := IntDigits(c.notAfter);
    DigitsEnd(if c.notAfter >= 0 then 2 * c.notAfter else -2 * c.notAfter - 1);
    var front := Text(c.commonName) + (Texts(c.uris) + (KeyDigits(c.key) + (Digits(c.serial)
      + IntDigits(c.notBefore))));
    assert Body(c) == front + tail;
    var pem := WritePem(c);
    assert pem[|pem| - 1] == tail[|tail| - 1] == '0';
    assert pem[0] == SR.PEM_HEADER[0] == '-';
  }

  lemma {:induction false} TrimStartBegins(s: string)
    ensures var t := SR.TrimStart(s);
            |t| > 0 ==> !SR.IsSpace(t[0])
  {
    if |s| > 0 && SR.IsSpace(s[0]) {
      TrimStartBegins(s[1..]);
    }
  }

  lemma {:induction false} TrimEndEnds(s: string)
    ensures var t := SR.TrimEnd(s);
            t <= s && (|t| > 0 ==> !SR.IsSpace(t[|t| - 1]))
    decreases |s|
  {
    if |s| > 0 && SR.IsSpace(s[|s| - 1]) {
      TrimEndEnds(s[..|s| - 1]);
    }
  }

  lemma TrimTwice(s: string)
    ensures SR.Trim(SR.Trim(s)) == SR.Trim(s)
  {
    TrimStartBegins(s);
    TrimEndEnds(SR.TrimStart(s));
  }

  ghost function ReadTrimmed(t: string): Option<Certificate> {
    if exists c :: WritePem(c) == t then
      var c :| WritePem(c) == t;
      Some(c)
    else None
  }

  ghost function ReadPem(s: string): Option<Certificate> {
    ReadTrimmed(SR.Trim(s))
  }

  ghost function ExampleCodec(): SR.Codec {
    SR.Codec(s => ReadPem(s), s => None)
  }

  lemma ReadsBack(c: Certificate)
    ensures ReadPem(WritePem(c)) == Some(c)
  {
    PemIsTrimmed(c);
    var read := ReadTrimmed(WritePem(c));
    assert read.Some? && WritePem(read.value) == WritePem(c);
    PemApart(read.value, c);
  }

  // ------------------------------------------------------------------- the backend

  const HONEST := PublicKey(0)
  const NONCE: bytes := [9]
  const CA_CERTIFICATE := Certificate("ca", [], None, 0, 0, 0)
  const ROOT := RootOfTrust([], true, BOOT_VERIFIED)
  const ROOT_ELEMENT := Der.RawValue(Der.CONTEXT_SPECIFIC, TAG_ROOT_OF_TRUST, true, [1])

  lemma RootIsPrintable()
    ensures Der.PrintableList([ROOT_ELEMENT])
  {
    assert Der.Printable(ROOT_ELEMENT);
    var tag := Der.PrintTag(Der.CONTEXT_SPECIFIC, true, TAG_ROOT_OF_TRUST);
    assert Der.Groups(TAG_ROOT_OF_TRUST / 128) == Der.Groups(0) + [128 + 5];
    assert |tag| == 3;
    assert |Der.PrintElement(ROOT_ELEMENT)| == 5;
    assert Der.PrintElements([ROOT_ELEMENT]) == Der.PrintElement(ROOT_ELEMENT) + Der.PrintElements([]);
  }

  /** An authorization list with a root of trust and nothing else. */
  function TeeList(): bytes {
    RootIsPrintable();
    Der.PrintList([ROOT_ELEMENT])
  }

  function Description(): KeyDescription {
    KeyDescription(3, TRUSTED_ENVIRONMENT, 3, TRUSTED_ENVIRONMENT, NONCE, [], TeeList())
  }

  function Leaf(): AttestationCert {
    AttestationCert(Some(HONEST), [Extension(KEY_ATTESTATION_OID, [1])])
  }

  function Digest(): string {
    seq(64, i => '0')
  }

  function ExamplePki(): Pki {
    Pki(der => Some(Leaf()), der => Some(Csr(Some(HONEST), true)), (certs, t) => true,
        k => if k == HONEST then Some([0]) else None, der => Digest(),
        der => Some(Description()), der => Some(ROOT), der => None)
  }

  function StrictBackend(): Config {
    Config(ExamplePki(), DEFAULT_STRICT_POLICY, 3600, c => WritePem(c), WritePem(CA_CERTIFICATE))
  }

  lemma CodecIsOk()
    ensures CodecOk(StrictBackend(), ExampleCodec())
  {
    forall s
      ensures ReadPem(SR.Trim(s)) == ReadPem(s)
    {
      TrimTwice(s);
    }
    forall c
      ensures ReadPem(WritePem(c)) == Some(c) && SR.PEM_HEADER <= SR.Trim(WritePem(c))
    {
      ReadsBack(c);
      PemIsTrimmed(c);
    }
  }

  lemma SettingHolds()
    ensures Setting(StrictBackend(), ExampleCodec())
  {
    CodecIsOk();
    OneFingerprint();
    DigestIsHex();
  }

  /** Only one key can be marshalled at all. */
  lemma OneFingerprint()
    ensures FingerprintInjective(ExamplePki())
  {
    forall key | PublicKeyFingerprint(ExamplePki(), key).Some?
      ensures key == Some(HONEST)
    {
      assert MarshalKey(ExamplePki(), key).Some?;
    }
  }

  lemma DigestIsHex()
    ensures HexDigests(ExamplePki())
  {
    var hex := "0123456789abcdef";
    assert hex[0] == '0';
    forall b
      ensures |ExamplePki().sha256Hex(b)| == 64 && forall c :: c in ExamplePki().sha256Hex(b) ==> c in hex
    {
      assert ExamplePki().sha256Hex(b) == Digest();
      assert forall c :: c in Digest() ==> c == hex[0];
    }
  }

  // -------------------------------------------------------------- the attestation

  lemma RootIsFound()
    ensures V.FindRootOfTrust(ExamplePki(), TeeList()) == Ok(Some(ROOT))
    ensures V.FindIntTag(TeeList(), TAG_OS_VERSION) == Ok(0) && V.FindIntTag(TeeList(), TAG_OS_PATCH) == Ok(0)
  {
    var list := [ROOT_ELEMENT];
    RootIsPrintable();
    assert TeeList() + [] == TeeList();
    V.FindTaggedInPrintedList(list, TAG_ROOT_OF_TRUST, [], 0);
    V.FindTaggedInPrintedList(list, TAG_OS_VERSION, [], 0);
    V.FindTaggedInPrintedList(list, TAG_OS_PATCH, [], 0);
    Der.ElementRoundTrip(Der.RawValue(Der.UNIVERSAL, Der.TAG_SEQUENCE, true, Der.PrintElements(list)), []);
    assert |TeeList()| > 0;
  }

  lemma DescriptionPasses()
    ensures V.JudgeKeyDescription(ExamplePki(), DEFAULT_STRICT_POLICY, Description(), NONCE).Ok?
  {
    RootIsFound();
    V.AcceptedExactly(ExamplePki(), DEFAULT_STRICT_POLICY, Description(), NONCE);
  }

  const CHAIN: seq<bytes> := [[0], [0]]
  const CSR := Csr(Some(HONEST), true)
  const ADMITTED := Admitted(CSR, CHAIN, NONCE)

  /** The status list clears every key, a serial is drawn and the write succeeds. */
  function ExampleEnv(): Env {
    Env(0, 0, Some(i => Ok(false)), 0, Some(1), true)
  }

  lemma ChainParses()
    ensures V.ParseChain(ExamplePki(), CHAIN, 0) == Ok([Leaf(), Leaf()])
  {
    var pki := ExamplePki();
    assert V.ParseChain(pki, CHAIN, 2) == Ok([]);
    assert pki.parseCertificate(CHAIN[1]) == Some(Leaf()) && [Leaf()] + [] == [Leaf()];
    assert V.ParseChain(pki, CHAIN, 1) == Ok([Leaf()]);
    assert pki.parseCertificate(CHAIN[0]) == Some(Leaf()) && [Leaf()] + [Leaf()] == [Leaf(), Leaf()];
  }

  lemma AttestationAccepted()
    ensures PassesAttestation(StrictBackend(), ADMITTED, ExampleEnv())
  {
    ChainParses();
    DescriptionPasses();
    var answers := ExampleEnv().answers.value;
    V.NoProblemMeansAllClear(answers, 2, 0);
    assert V.FindExtension(Leaf().extensions) == Some([1]);
    assert V.JudgeChain(ExamplePki(), DEFAULT_STRICT_POLICY, 0, [Leaf(), Leaf()], NONCE, Some(HONEST)).Ok?;
  }

  // ------------------------------------------------------------- the device's key

  function FreshKey(): NewKey {
    NewKey(K.KeyEntry(HONEST, CHAIN), K.TeeLevel, [0], "")
  }

  lemma PairDecodes(text: string, der: bytes)
    requires Base64.DecodeString(text) == Some(der)
    ensures DecodeChain([text, text]) == Some([der, der])
  {
    assert [text, text][1..] == [text] && [text][1..] == [];
    assert DecodeChain([]) == Some([]) && [der] + [] == [der];
    assert DecodeChain([text]) == Some([der]) && [der] + [der] == [der, der];
  }

  lemma ChallengeExtracted(chainDER: seq<bytes>)
    requires |chainDER| > 0
    ensures V.ExtractChallenge(ExamplePki(), chainDER) == Ok(NONCE)
  {
    assert V.FindExtension(Leaf().extensions) == Some([1]);
  }

  lemma RequestAdmitted()
    ensures Admit(StrictBackend(), RequestFor(FreshKey())) == Ok(ADMITTED)
  {
    var req, text := RequestFor(FreshKey()), Base64.EncodeToString([0]);
    Base64.RoundTrip([0]);
    assert |text| == 4;
    assert req.attestationChain == [text, text];
    PairDecodes(text, [0]);
    ChallengeExtracted(CHAIN);
    AdmittedParts(StrictBackend(), req, [0], CHAIN);
  }

  /** What an accepted validation comes to when nothing is wrong with the request. */
  lemma AdmittedParts(cfg: Config, req: EnrollRequest, csrDER: bytes, chainDER: seq<bytes>)
    requires req.deviceId == "" && req.csr != "" && Base64.DecodeString(req.csr) == Some(csrDER)
    requires cfg.pki.parseCsr(csrDER).Some? && |req.attestationChain| >= 2
    requires DecodeChain(req.attestationChain) == Some(chainDER) && |chainDER| > 0
    requires V.ExtractChallenge(cfg.pki, chainDER).Ok? && V.ExtractChallenge(cfg.pki, chainDER).value != []
    ensures Admit(cfg, req)
            == Ok(Admitted(cfg.pki.parseCsr(csrDER).value, chainDER, V.ExtractChallenge(cfg.pki, chainDER).value))
  {
  }

  lemma ChainsAreHonest(chainDER: seq<bytes>)
    ensures HonestChain(StrictBackend(), map[HONEST := NONCE], chainDER)
  {
    if |chainDER| > 0 {
      ChallengeExtracted(chainDER);
    }
  }

  function Client(): SR.Client {
    SR.Client(K.Keystore("a", "b", map[], None, None, None, None), None, None)
  }

  function FirstWorld(): World {
    World(INITIAL, map[0 := Device(Client(), Idle)], map[])
  }

  lemma FirstWorldStarts()
    ensures Start(FirstWorld()) && WorldOk(StrictBackend(), ExampleCodec(), FirstWorld())
  {
    InvInitial(StrictBackend());
    assert "a" != "b";
  }

  lemma EnrolmentCanStart()
    ensures Startable(StrictBackend(), ExampleCodec(), FirstWorld(), 0, FreshKey(), NONCE, 1, 0, ExampleEnv())
  {
    CodecIsOk();
    FirstWorldStarts();
    RequestAdmitted();
    AttestationAccepted();
    forall chainDER
      ensures HonestChain(StrictBackend(), map[HONEST := NONCE], chainDER)
    {
      ChainsAreHonest(chainDER);
    }
    assert Mintable(StrictBackend(), FirstWorld(), FreshKey(), NONCE);
    assert FirstWorld().keys[HONEST := NONCE] == map[HONEST := NONCE];
  }

  // -------------------------------------------------------------------- the history

  /** Under the default strict policy, with every assumption of the end-to-end theorems met, there is a
      history in which a device enrols and is let in. */
  lemma StrictHistoryExists()
    ensures StrictBackend().policy == DEFAULT_STRICT_POLICY && Setting(StrictBackend(), ExampleCodec())
    ensures exists worlds: seq<World>, events: seq<Event>, cert: Certificate ::
              IsHistory(StrictBackend(), ExampleCodec(), worlds, events)
              && LetIn(worlds[|events|].server, 0, cert)
  {
    var cfg, codec := StrictBackend(), ExampleCodec();
    SettingHolds();
    FirstWorldStarts();
    EnrolmentCanStart();
    var events, end := EnrolmentAndPingComplete(cfg, codec, FirstWorld(), 0, FreshKey(), NONCE, 1, 0, ExampleEnv(), 0);
    var worlds := UnfoldedWorlds(cfg, codec, FirstWorld(), events);
    assert IsHistory(cfg, codec, worlds, events);
    assert LetIn(worlds[|events|].server, 0, end.server.enrolments[0].phase.cert);
  }
}
