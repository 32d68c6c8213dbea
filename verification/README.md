# Verified model of the enrolment and authentication protocol

A device mints a hardware key that attests a single-use challenge, enrols with the backend, gets a
short-lived client certificate over that key, and afterwards authenticates over mutual TLS. This
project models that protocol from end to end and proves what it is for: an enrolled device and the
registry agree, a challenge buys at most one enrolment, failures leave the old identity working, and
revocation holds, with the exact condition under which it does.

`dafny verify dfyconfig.toml` checks everything.

## How the model is built

Every component that updates state in place is a class (`MemoryChallengeStore`, `MemoryDeviceRepo`,
`RevocationStatusClient`, `AttestationVerifier`, `EnrollHandler`, `KeystoreManager`,
`SecurityRepository`). Its methods are proved against functions on values, and the whole-run theorems
are about those same functions:

- `Server` is the backend as a transition system. Each enrolment (`EnrollHandler.Advance`) and each
  ping is a program counter with locals over the shared store and registry; one step is one locked
  operation. Challenges are issued and swept, and devices and serials are revoked, between any two
  steps. `ServerInvariants` and `ServerTheorems` hold the invariant and the theorems over all runs.
- `Schedules` ties the two together: the handler run alone is one of the backend's interleavings.
- `EndToEnd` puts any number of devices and the network around it, and `EnrolmentProgress` shows that
  an undisturbed enrolment and the ping after it succeed there. `StrictInstance` is a concrete backend,
  codec and device that meet all assumptions. `RevocationRace` is one concrete run.
- `Verifier`, `Der` and `Base64` are the decision procedure and the encodings below it;
  `RevocationList` is the status list cache. `VerifierMeaning` and `EnrolmentMeaning` say what the
  decisions mean for the contents of a chain, a request and its outcome, without naming the functions
  that compute them.
- `ChallengeStore` also has a specification by history, and `Keystore` one by attempts.
  `ServerChallenges` carries the former over to runs of the whole backend.

## Assumptions

They appear as explicit premises in `Enabled`, `Possible`, `Mintable` and `Setting`:

- The clock never goes backwards; certificate serials are fresh. End to end, challenge bytes are fresh.
- The fingerprint is injective on keys that can be marshalled, and a digest is 64 hexadecimal digits.
- Parsing, chain verification (at a time), hashing and key marshalling are uninterpreted functions,
  gathered in `Attestation.Pki`. That the CSR is signed by its own key is a field of the parsed CSR.
- An honest key has one attestation: a verified chain over it carries the challenge it was made with.
- A device runs one enrolment at a time, and no ping overlaps an enrolment. Once a response has been
  parsed, the installation (lines 113 to 121 of SecurityRepository.kt) runs to its end.
- A response reaches only the device whose request it answers. Requests may come from anywhere, be
  repeated, delayed and lost, and challenges may be invented. `EndToEnd.InstallActivatesPendingKey` and
  `SecurityRepository.InterruptedInstallExactly` say why the last two assumptions are needed, and what
  happens without them.
- PEM texts read back as the certificate they were written from, whatever white space surrounds them.

## Where code and documentation part

- The repository's own README.md (line 229) and the comment at lines 186 and 187 of enroll_handler.go say that re-enrolment
  with a revoked identity is refused. The check and the registration are separate steps, and the
  registration overwrites the record with an unrevoked one: `RevocationRace.RevocationCanBeUndone` is
  a run in which that undoes a revocation, and `ServerTheorems.RevocationPermanentExactly` is the exact
  condition. The serials stay revoked in any case (`ServerTheorems.RevokedSerialStaysOut`), and for an
  honest key the situation cannot arise (`EndToEnd.HonestRevocationPermanent`).
- The middleware's three reads always amount to one atomic check as far as accepting and refusing
  go. The reason they report is that of one look at some instant of the request exactly under the
  condition of `Middleware.WordingLinearizableExactly` (over whole runs,
  `ServerTheorems.PingWordingExactly`); `Middleware.WordingNotLinearizable` and
  `Middleware.CurrentCertificateCalledStale` are the two ways in which it fails.
- A weaker policy can refuse what a stronger one accepts (`Verifier.WeakerPolicyCanRefuse`), in
  exactly one situation (`Verifier.AcceptanceMonotoneExactly`).
- The comment at line 204 of SecurityRepository.kt says the restored chain is [leaf, ca]. It is the
  chain that was installed exactly for the responses of `SecurityRepository.RestoredExactly`, among
  them all that the backend sends (`SecurityRepository.InstalledChainPersists`); a listed chain of any
  other length is cut short or lengthened.

## Model

| member | source | states |
|---|---|---|
| EndToEnd.EndToEndAgreement | android/app/src/main/java/com/kypeli/mtlspoc/data/repository/SecurityRepository.kt:66-131 | In every reachable world of any number of devices, a strict backend and a network that loses, repeats, reorders and invents messages: a device stores a certificate exactly when it has an active key, and an enrolled device stores a certificate over its active key, the registry holds that serial for the key's fingerprint, and a ping presents that certificate and signs with the active alias |
| EndToEnd.PingDecidedByLastRead | backend/internal/middleware/mtls_auth.go:77-99 | A ping presenting the certificate an enrolled device held when it started is accepted if and only if the serial is not revoked (on its own or with its device) in the state of its last read |
| EndToEnd.PingAcceptedUnlessRevoked | backend/internal/middleware/mtls_auth.go:65-99 | Every such ping that has a verdict got it in a step at which it was being served, and is accepted if and only if its serial was not revoked in that state; a refusal implies the serial is revoked ever after |
| EndToEnd.EnrolmentIsEnroll | android/app/src/main/java/com/kypeli/mtlspoc/data/repository/SecurityRepository.kt:66-131 | In every history, from the start of an enrolment to the event that ends it, whatever happens in between, the device goes through exactly what the Enroll method is specified to do, unless its process dies |
| EndToEnd.PingStartsUntilExpiry | backend/internal/ca/signer.go:165-179 | The certificate an enrolled device holds gets past the TLS layer if and only if it has not expired |
| EndToEnd.FailuresKeepIdentity | android/app/src/main/java/com/kypeli/mtlspoc/data/repository/SecurityRepository.kt:66-131 | Until a response is delivered to it, nothing that happens in the world (failed key generation, lost, refused or replayed requests, discards, restarts, other devices) changes a device's active key or stored certificate |
| EndToEnd.VettedOnce | backend/internal/handlers/enroll_handler.go:139-172 | In no state that keeps the backend invariant do two requests stand vetted for the same honest key: replays find its single challenge consumed |
| EndToEnd.RecordMatchesCertificate | backend/internal/handlers/enroll_handler.go:203-219 | In every state that keeps the backend invariant, the registry record of an honest key whose request was answered carries exactly the serial of the answered certificate, and its serial is revoked if the record is |
| EndToEnd.RequestIsForItsKey | android/app/src/main/java/com/kypeli/mtlspoc/data/repository/SecurityRepository.kt:85-103 | A request built by a device is admitted only with that device's new key and its attestation chain in order |
| EndToEnd.WorldStep | android/app/src/main/java/com/kypeli/mtlspoc/data/repository/SecurityRepository.kt:66-131 | Every step of a device, of the backend or of the network keeps the joint invariant of backend, keystores, pending requests and cached clients |
| EndToEnd.WorldAlongHistory | android/app/src/main/java/com/kypeli/mtlspoc/data/repository/SecurityRepository.kt:66-131 | The joint invariant holds in every world of every history |
| EndToEnd.HonestRevocationPermanent | backend/internal/handlers/enroll_handler.go:186-192 | Revoking the registered device of an honest key is final in every run, without any condition on interleavings |
| EndToEnd.RegisteredPassesNoOther | backend/internal/handlers/enroll_handler.go:186-192 | Once an honest key is registered no other request is past the revoked check for it |
| EndToEnd.InstallActivatesPendingKey | android/app/src/main/java/com/kypeli/mtlspoc/data/repository/SecurityRepository.kt:108-121 | Installing any response of the backend makes the pending key the identity, empties the other slot and stores the certificate that came: hence a response must answer the device's own request |
| EndToEnd.BackendRun | backend/internal/handlers/enroll_handler.go:76-236 | The backend part of every end-to-end history is a run of the backend transition system, so every theorem about runs applies to it |
| Attestation.LevelNames | backend/internal/attestation/types.go:33-44 | The names of the levels 0, 1 and 2, and UNKNOWN for every other number |
| Attestation.IdentityIsDigest | backend/internal/attestation/revocation.go:24-31 | The identity is the digest of the marshalled key, and absent when the key cannot be marshalled |
| EnrolmentProgress.EnrolmentCompletes | android/app/src/main/java/com/kypeli/mtlspoc/data/repository/SecurityRepository.kt:66-131 | From any world with an idle device, a fresh key whose chain is accepted and no interference, a sequence of possible events ends with the device enrolled under that key and every other device untouched |
| EnrolmentProgress.PingCompletes | backend/internal/middleware/mtls_auth.go:34-118 | A device that holds an answered, valid and unrevoked certificate presents it, and an undisturbed ping with it is accepted |
| EnrolmentProgress.EnrolmentAndPingComplete | android/app/src/main/java/com/kypeli/mtlspoc/data/repository/SecurityRepository.kt:66-153 | From any world that keeps the invariant, an idle device with a fresh good key can be enrolled and then let in under the serial drawn for it, provided the certificate lifetime is not negative and the serial was not revoked in advance |
| EnrolmentProgress.UnfoldedWorlds | android/app/src/main/java/com/kypeli/mtlspoc/data/repository/SecurityRepository.kt:66-153 | Events that are possible one after the other are a piece of a history, so the two results above speak of the histories of the safety theorems |
| StrictInstance.StrictHistoryExists | backend/internal/attestation/types.go:126-135 | Under the default strict policy there is a backend, a PEM codec, a device and a key that meet every assumption of the end-to-end theorems, and a history in which the device enrols and is let in |
| Schedules.SoloSchedule | backend/internal/handlers/enroll_handler.go:76-236 | Among the interleavings of the backend is the one that serves a request from where it stands to its end without interruption, and it has exactly the effect of the handler run alone |
| ServerTheorems.EnrolmentsMatchIssues | backend/internal/handlers/enroll_handler.go:141-164 | Without the development bypass, successful enrolments map one-to-one into earlier issues of exactly the challenge their chain attests, each consumed before that issue expired; enrolments never outnumber issues |
| ServerTheorems.GrantsHappened | backend/internal/storage/challenge_store.go:48-61 | Each such consumption is a real step of the run: at that time the request found the latest issue of the challenge in the store and removed it |
| ServerTheorems.RegistryProvenance | backend/internal/handlers/enroll_handler.go:166-219 | Under a strict policy every record of every reachable registry names the fingerprint of the leaf key of a chain that verified while its request was served, after the request had used up its challenge; "STRONGBOX" or "TEE" exactly as the key description in that leaf says 2 or 1; a validated label; and a serial whose certificate carries that same key and CN |
| ServerTheorems.LevelRecorded | backend/internal/handlers/enroll_handler.go:212-212 | The recorded level is "STRONGBOX" if and only if the key description in the request's leaf says 2, and "TEE" if and only if it says 1 |
| ServerTheorems.KeylessCsrRefused | backend/internal/attestation/verifier.go:159-172 | In no run is a request whose CSR has a nil key ever vetted, signed or registered, although the leaf comparison is skipped for it |
| ServerTheorems.NoUntrackedCertificate | backend/internal/handlers/enroll_handler.go:194-219 | With registry writes that may fail: once no enrolment is in flight every serial ever signed was registered or is revoked, and every answered certificate was registered first, under the identity it names |
| ServerTheorems.MintedInTime | backend/internal/ca/signer.go:165-179 | Every certificate ever minted was already valid when minted, repeats its CN as device URN, and expires one lifetime after it was signed |
| ServerTheorems.AnsweredPassesTls | backend/internal/ca/signer.go:165-179 | An answered certificate passes the TLS layer exactly until it expires |
| ServerTheorems.PingTraced | backend/internal/middleware/mtls_auth.go:75-99 | Whatever reads a ping has made are reads of registries of the run at instants at which the ping was being served |
| ServerTheorems.PingIsBound | backend/internal/middleware/mtls_auth.go:43-73 | In every run a ping that gets to the registry presented a certificate this backend minted, which claims the identity and whose key fingerprint is that identity |
| ServerTheorems.PingLinearizable | backend/internal/middleware/mtls_auth.go:75-99 | In every run of the whole backend the accept-or-refuse outcome of a ping equals one atomic check of one registry state at an instant inside the ping |
| ServerTheorems.PingWordingExactly | backend/internal/middleware/mtls_auth.go:77-98 | In every run of the whole backend the verdict of a ping with its reason is that of one look at some state in which it was served if and only if the reason holds in that sense over exactly those states |
| ServerTheorems.PingWordingAtReadsExactly | backend/internal/middleware/mtls_auth.go:77-98 | The same for the states of its three reads alone |
| ServerTheorems.RunKeepsState | backend/internal/storage/device_repo.go:55-90 | Registered identities, revoked serials, a ping's presented serial and final verdict, and a finished enrolment's outcome are never taken back by any run |
| ServerTheorems.RevokedSerialStaysOut | backend/internal/middleware/mtls_auth.go:85-90 | Once a serial is revoked, no ping presenting it that has no verdict yet is accepted, for every interleaving |
| ServerTheorems.StaysRevoked | backend/internal/handlers/enroll_handler.go:186-219 | A revoked identity stays revoked, and no new request passes its revoked check, while no enrolment straddles the revocation |
| ServerTheorems.RevocationPermanentExactly | backend/internal/handlers/enroll_handler.go:186-219 | A revoked identity stays revoked in all later states if and only if no enrolment of it had passed its revoked check before the revocation and registered after it |
| ServerTheorems.RevokedIdentityStaysOut | backend/internal/middleware/mtls_auth.go:77-83 | Without such a straddling enrolment no ping that starts after the revocation of its identity is accepted |
| RevocationRace.RevocationCanBeUndone | backend/internal/handlers/enroll_handler.go:186-219 | A concrete run of the development-mode backend in which a revoked device ends up unrevoked, so the if-and-only-if above is not vacuous |
| ServerInvariants.InvStep | backend/internal/handlers/enroll_handler.go:139-219 | Every atomic step of the backend keeps the invariant tying challenges, requests in flight, minted serials, registry writes and the registry together |
| ServerInvariants.InvAlongRun | backend/internal/handlers/enroll_handler.go:139-219 | The invariant holds in every state of every run |
| ServerInvariants.CoherentStep | backend/internal/storage/device_repo.go:72-90 | In every step a revoked record's serial stays in the revoked set, and records and revoked serials only accumulate |
| Server.ChallengeInvStep | backend/internal/storage/challenge_store.go:33-75 | Every step keeps: a store entry is the latest unused issue of its challenge, and no issue is used twice |
| Server.TakeGrantsOrShrinks | backend/internal/handlers/enroll_handler.go:154-160 | The consuming step either removes a live challenge and records its use, or records nothing and adds nothing to the store |
| EnrollHandler.EnrollHandler.ServeHTTP | backend/internal/handlers/enroll_handler.go:76-236 | The handler, served alone, leaves exactly the store and registry that its atomic steps run to the end leave, and answers with their outcome |
| EnrollHandler.EnrollHandler.Finish | backend/internal/handlers/enroll_handler.go:166-236 | The same from the consumed challenge on |
| EnrollHandler.EnrollHandler.Issue | backend/internal/handlers/enroll_handler.go:186-236 | The same from the verified attestation on: revoked check, signing, registration, and revoking the fresh serial when registration fails |
| EnrollHandler.EnrollHandler.DecodeCertificates | backend/internal/handlers/enroll_handler.go:128-137 | The loop decodes the whole chain in order, or stops at the first entry that is not base64 |
| EnrollHandler.EnrolmentSucceedsExactly | backend/internal/handlers/enroll_handler.go:92-219 | A request served alone gets a certificate if and only if it is well-formed, its challenge is live, its attestation is accepted, its identity is not revoked, its CSR signature holds, a serial is drawn and the write succeeds; then the certificate is the signed one and the registry gains its record, otherwise no record changes |
| EnrollHandler.ReplayRefused | backend/internal/handlers/enroll_handler.go:154-160 | A request with a challenge, sent a second time, is refused with status 400 and changes neither store nor registry, however the first ended |
| EnrollHandler.RunAloneFromCheck | backend/internal/handlers/enroll_handler.go:186-219 | From the revoked check on, an unrevoked request ends registered and answered, or refused with the freshly signed serial revoked |
| EnrolmentMeaning.AdmitsExactly | backend/internal/handlers/enroll_handler.go:92-164 | A request is admitted with exactly given parts if and only if its label matches the pattern, its CSR decodes and parses, its chain is long enough and decodes entry by entry in order, and the leaf yields the challenge, or none where that is allowed |
| EnrolmentMeaning.NotAdmitted | backend/internal/handlers/enroll_handler.go:92-164 | Every other request is refused with status 400 |
| EnrolmentMeaning.LabelExactly | backend/internal/handlers/enroll_handler.go:26-26 | The label pattern, as character codes and a length |
| EnrolmentMeaning.ChainDecodedExactly | backend/internal/handlers/enroll_handler.go:128-137 | The chain decodes to given certificates if and only if each entry decodes to the one at its place |
| EnrolmentMeaning.ChainUndecodedExactly | backend/internal/handlers/enroll_handler.go:128-137 | The chain fails to decode if and only if some entry does |
| EnrolmentMeaning.SuccessWrites | backend/internal/handlers/enroll_handler.go:194-219 | A success issues a certificate with the identity as CN and device URN over the CSR key, valid from a minute ago for one lifetime, and adds exactly one record: identity, label, serial, time, not revoked, and "STRONGBOX", "TEE" or "SOFTWARE" for the accepted level 2, 1 or 0 |
| EnrolmentMeaning.AnswerCarries | backend/internal/handlers/enroll_handler.go:224-231 | The answer carries certificate, CA, both as chain in this order, identity and label |
| EnrolmentMeaning.RefusalsExactly | backend/internal/handlers/enroll_handler.go:92-219 | Which of 400, 403 and 500 a request served alone is refused with |
| Middleware.OutcomeLinearizable | backend/internal/middleware/mtls_auth.go:77-99 | Under any interleaving of registrations and revocations the outcome of the separately locked reads is that of one atomic check: an acceptance at the first read, a refusal at one of the three |
| Middleware.WordingLinearizableExactly | backend/internal/middleware/mtls_auth.go:77-98 | Reason included, the verdict of the three reads is that of one look at some instant from the beginning of the request to its last read if and only if: a "serial revoked" had the serial revoked by the last instant at which the device was active, and a "not current" had the device active under another serial at some instant; every other verdict always is |
| Middleware.WordingAtReadsExactly | backend/internal/middleware/mtls_auth.go:77-98 | The exact condition when only the instants of the three reads are considered |
| Middleware.LookBetweenReads | backend/internal/middleware/mtls_auth.go:77-98 | The two conditions differ: a run in which an instant between two reads gives the reason and none of the reads does |
| Middleware.WordingNotLinearizable | backend/internal/middleware/mtls_auth.go:79-90 | The first exception is real: revoking the device between the second and the third read reports a reason no look at that run would give |
| Middleware.CurrentCertificateCalledStale | backend/internal/middleware/mtls_auth.go:78-98 | The second exception is real: re-registering a revoked device between the first and the second read reports "not current" for a certificate that is current from then on |
| Middleware.MtlsAuth | backend/internal/middleware/mtls_auth.go:34-118 | The request handler, without interference, gives the verdict of binding certificate to identity and then of one look at the registry, accepting exactly the authorized |
| Middleware.BoundExactly | backend/internal/middleware/mtls_auth.go:37-73 | A certificate is bound to an identity if and only if it claims it (common name, or else first device URN) and its key fingerprint is that identity; otherwise which of the three refusals follows |
| Middleware.ClaimedExactly | backend/internal/middleware/mtls_auth.go:44-54 | The claimed identity: the common name, or else what follows urn:device: in the first alternative name that begins so |
| Middleware.VerdictExactly | backend/internal/middleware/mtls_auth.go:77-104 | Which verdict three reads give, and that an acceptance carries the label of the record first read |
| DeviceRepo.RunKeeps | backend/internal/storage/device_repo.go:55-107 | Over any run of atomic writes the registry stays coherent (a revoked record's serial is revoked) and neither identities nor revoked serials disappear |
| DeviceRepo.StepKeeps | backend/internal/storage/device_repo.go:55-90 | Each atomic write keeps that coherence |
| DeviceRepo.WritesExactly | backend/internal/storage/device_repo.go:55-107 | What each write does to every record and to the revoked serials, and that it touches nothing else |
| DeviceRepo.MemoryDeviceRepo.RegisterDevice | backend/internal/storage/device_repo.go:55-60 | Replaces the record of its identity and nothing else; a write that fails changes nothing |
| DeviceRepo.MemoryDeviceRepo.GetDevice | backend/internal/storage/device_repo.go:62-70 | The record filed under the identity, if any |
| DeviceRepo.MemoryDeviceRepo.RevokeDevice | backend/internal/storage/device_repo.go:72-83 | Marks the record revoked and adds the serial it carries to the revoked set; an unknown identity changes nothing |
| DeviceRepo.MemoryDeviceRepo.RevokeSerial | backend/internal/storage/device_repo.go:85-90 | Adds the serial to the revoked set and nothing else |
| DeviceRepo.MemoryDeviceRepo.IsSerialRevoked | backend/internal/storage/device_repo.go:92-97 | True exactly for revoked serials |
| DeviceRepo.MemoryDeviceRepo.IsDeviceActive | backend/internal/storage/device_repo.go:99-107 | True exactly for a registered, unrevoked identity |
| ChallengeStore.VerificationFollowsHistory | backend/internal/storage/challenge_store.go:48-61 | For every interleaving of issues, verifications and sweeps a verification answers by the history alone: issued, before the expiry of the latest issue, not verified since |
| ChallengeStore.EntriesAreLiveIssues | backend/internal/storage/challenge_store.go:33-75 | An entry is exactly a live issue, save that a live issue may have been swept after it expired |
| ChallengeStore.SecondVerificationFails | backend/internal/storage/challenge_store.go:57-58 | After one verification, valid or not, the challenge is not accepted again until it is issued again |
| ChallengeStore.CleanupUnobservable | backend/internal/storage/challenge_store.go:63-75 | Deleting every sweep from a run leaves every verification result as it was |
| ChallengeStore.SweepSimulation | backend/internal/storage/challenge_store.go:63-75 | The swept map simulates the unswept one: it lacks only entries strictly past their expiry |
| ServerChallenges.StoreFollowsHistory | backend/internal/storage/challenge_store.go:33-75 | In every run of the backend the store is what the history of that run's issues, look-ups and sweeps makes of it |
| ServerChallenges.TakeFollowsHistory | backend/internal/handlers/enroll_handler.go:154-160 | In every run a request gets past its challenge if and only if the challenge was issued, is before the expiry of its latest issue and was not looked up since |
| ServerChallenges.SweepsUnobservable | backend/internal/storage/challenge_store.go:63-75 | Deleting every sweep from a run of the backend leaves a run that ends with the same requests in the same phases, verdicts, registry and certificates; only expired store entries differ |
| ChallengeStore.MemoryChallengeStore.GenerateAndStoreChallenge | backend/internal/storage/challenge_store.go:33-46 | Stores the encoded random bytes under the expiry it returns; a failing random source changes nothing |
| ChallengeStore.MemoryChallengeStore.VerifyAndConsumeChallenge | backend/internal/storage/challenge_store.go:48-61 | True exactly when the history accepts the challenge now; the entry is gone afterwards in either case |
| ChallengeStore.MemoryChallengeStore.CleanupPass | backend/internal/storage/challenge_store.go:66-73 | In whatever order the map is walked, removes exactly the entries strictly past their expiry |
| Base64.RoundTrip | backend/internal/storage/challenge_store.go:34-38 | Padded base64 decoding undoes encoding, for every byte string |
| Base64.AlphabetInOrder | backend/internal/storage/challenge_store.go:38-38 | The digits are those of section 4 of RFC 4648, in its order |
| Base64.EncodesBits | backend/internal/storage/challenge_store.go:38-38 | Each group of three bytes becomes the four digits of its 24 bits, most significant first, with one or two padding characters for what is missing at the end |
| Base64.EncodedLength | backend/internal/storage/challenge_store.go:38-38 | Four characters for every three bytes begun |
| Base64.DecodesExactly | backend/internal/handlers/enroll_handler.go:106-106 | A text is decoded to given bytes if and only if, line breaks aside, it is their encoding up to the bits that padding leaves unused |
| Base64.LineBreaksIgnored | backend/internal/handlers/enroll_handler.go:106-106 | A carriage return or line feed changes nothing wherever it stands |
| Base64.EncodingInjective | backend/internal/handlers/enroll_handler.go:155-155 | Two byte strings have the same encoding exactly when they are equal |
| Base64.KeyHitsExactlyIssuedBytes | backend/internal/handlers/enroll_handler.go:154-156 | The re-encoded key names a store entry exactly when the attested bytes are issued bytes |
| Verifier.PolicyMonotone | backend/internal/attestation/verifier.go:91-271 | What a policy requiring a locked device or verified boot accepts, every pointwise weaker policy accepts too, with the same levels, challenge, lock and boot fields |
| Verifier.AcceptanceMonotoneExactly | backend/internal/attestation/verifier.go:217-229 | Without that requirement a weaker policy accepts too if and only if dropping the hardware requirement does not expose an undecodable software-list root of trust |
| Verifier.WeakerPolicyCanRefuse | backend/internal/attestation/verifier.go:220-229 | That exception is real: a hardware key with an empty TEE list and a software list that is not DER is accepted by a strict policy and refused once hardware backing is not required |
| Verifier.AcceptedExactly | backend/internal/attestation/verifier.go:199-270 | A key description is accepted if and only if it passes each requirement the policy switches on, and the levels, challenge, lock and boot fields of the record are its own and those of the selected root of trust |
| VerifierMeaning.JudgedExactly | backend/internal/attestation/verifier.go:199-270 | A key description whose TEE list can be read is accepted with exactly a given record if and only if the contents of its lists say so: challenge, levels 1 or 2, root of trust from the first element 704, package in the first 709, OS values from the first 705 and 706 against the minimums, with the fall-backs to the software list; the record holds those very values |
| VerifierMeaning.UnreadableTeeRefused | backend/internal/attestation/verifier.go:220-223 | A key description whose TEE list cannot be read is never accepted |
| VerifierMeaning.DefaultStrictExactly | backend/internal/attestation/types.go:126-135 | The default strict policy accepts a key description if and only if it has the challenge, hardware levels, readable OS values, and a TEE root of trust of a locked device in boot state 0 |
| VerifierMeaning.VerifiedExactly | backend/internal/attestation/verifier.go:91-202 | A chain is accepted with exactly a given record if and only if every certificate parses, their number is allowed, none is revoked, the chain verifies unless skipped, the leaf key is the CSR key, and the first extension with the attestation OID is accepted or may be absent |
| VerifierMeaning.DefaultStrictChain | backend/internal/attestation/types.go:126-135 | What that means under the default strict policy: two to sixteen certificates, status list heeded, chain verified, key matched, attested |
| VerifierMeaning.DevelopmentChain | backend/internal/attestation/types.go:138-147 | What that means under the development policy: only the key must match, and the attestation may be absent |
| VerifierMeaning.DevelopmentJudged | backend/internal/attestation/types.go:138-147 | An attestation that is present is still held to its challenge and its lists under the development policy |
| VerifierMeaning.NoChain | backend/internal/attestation/verifier.go:96-105 | No chain is accepted by the development policy as an unattested software key, and by no policy that requires an attestation |
| VerifierMeaning.ExtractedExactly | backend/internal/attestation/verifier.go:65-83 | The extracted challenge is that of the first extension with the attestation OID of the first certificate, and of nothing else |
| VerifierMeaning.RootRead | backend/internal/attestation/verifier.go:373-387 | A list yields a root of trust if and only if its first element 704 parses to exactly that, and none if and only if no element has that tag |
| VerifierMeaning.OsSelected | backend/internal/attestation/verifier.go:332-351 | Which OS value counts: that of the TEE list unless it is absent or zero and hardware is not required, and then that of a readable software list |
| VerifierMeaning.PackageSelected | backend/internal/attestation/verifier.go:275-300 | The package must be listed in the first element 709 of the TEE list, or of the software list when the TEE list has none |
| VerifierMeaning.LiteralLists | backend/internal/attestation/verifier.go:391-422 | Looking for tags in the literal octets of an empty list and of a list with OS version 140000 |
| Verifier.JudgeMonotone | backend/internal/attestation/verifier.go:199-270 | The same on one key description, whatever the chain |
| Verifier.OsTagMonotone | backend/internal/attestation/verifier.go:332-351 | An OS value read under the stronger policy is the value the weaker one reads, through the fallback to the software list |
| Verifier.StrictAcceptanceAttests | backend/internal/attestation/verifier.go:141-215 | A strict acceptance means a chain verified at that time whose leaf carries the CSR's key and exactly the expected challenge, at a hardware level |
| Verifier.StrictAcceptanceMeetsPolicy | backend/internal/attestation/verifier.go:126-270 | A strict acceptance meets every requirement the policy switches on, with root of trust and OS values taken from the TEE list, and the status list cleared every certificate of the chain |
| Verifier.JudgedMeetsPolicy | backend/internal/attestation/verifier.go:199-300 | The same on one key description, with the expected package listed in an application id |
| Verifier.SoftwareListIgnored | backend/internal/attestation/verifier.go:217-229 | With hardware backing required, replacing the whole software list changes neither decision nor record, when no package is expected or the TEE list settles the application id |
| Verifier.ExtractionAgreement | backend/internal/attestation/verifier.go:65-83 | Called as the handler calls it, under any policy, the verifier never fails with a challenge mismatch |
| EnrollHandler.AdmittedChallengeMatches | backend/internal/handlers/enroll_handler.go:139-167 | For every request the handler admits, the challenge it passes on is the extracted one, or none when extraction failed, and the verification of that very request is never a challenge mismatch |
| Verifier.FindTaggedInPrintedList | backend/internal/attestation/verifier.go:389-408 | In every printed authorization list the search returns the first element with the tag, at any position, and nothing exactly when no element has it |
| Verifier.FindIntTagInPrintedList | backend/internal/attestation/verifier.go:410-422 | An integer printed under a tag is read back exactly when it fits 64 bits, and an absent tag reads as 0 |
| Verifier.NoProblemMeansAllClear | backend/internal/attestation/verifier.go:126-137 | The revocation loop reports nothing if and only if every certificate was answered "not revoked" |
| AttestationVerifier.AttestationVerifier.VerifyAttestation | backend/internal/attestation/verifier.go:91-271 | The verifier with its loops, stepwise record and status cache decides exactly as the specification does on the answers the cache gives; an unconsulted cache is untouched |
| AttestationVerifier.AttestationVerifier.CheckRevocations | backend/internal/attestation/verifier.go:126-137 | The loop, each look-up of which may change the cache, reports the first failed or positive answer in chain order |
| AttestationVerifier.AnswerForKey | backend/internal/attestation/verifier.go:128-129 | Each look-up is for the fingerprint of the key of its own certificate |
| AttestationVerifier.AcceptedChainUnlisted | backend/internal/attestation/verifier.go:126-137 | While the cached list is fresh, an accepted chain holds no key that the list says is revoked |
| AttestationVerifier.AttestationVerifier.ParseCertificates | backend/internal/attestation/verifier.go:117-124 | The loop parses the chain in order or reports the first index that fails |
| AttestationVerifier.AttestationVerifier.AttestationExtension | backend/internal/attestation/verifier.go:174-181 | The loop finds the first extension with the attestation OID |
| AttestationVerifier.AttestationVerifier.Judge | backend/internal/attestation/verifier.go:199-270 | The stepwise evaluation of a key description gives the specification's record or its first error |
| AttestationVerifier.AttestationVerifier.OsInfo | backend/internal/attestation/verifier.go:332-371 | The reassigned OS values and minimum checks agree with the specification |
| Der.ElementRoundTrip | backend/internal/attestation/verifier.go:396-399 | One DER element printed by ITU-T X.690 (sections 8.1.2.4, 8.1.3 and 10.1) is read back with class, tag, content and what follows it, high tag numbers included |
| Der.ListRoundTrip | backend/internal/attestation/verifier.go:396-399 | A printed SEQUENCE is read back element for element, whatever follows it |
| Der.LengthParses | backend/internal/attestation/verifier.go:396-399 | A printed length is read back exactly when it is below 2^31 |
| Der.IntegerRoundTrip | backend/internal/attestation/verifier.go:417-421 | A printed INTEGER (section 8.3 of ITU-T X.690) is read back exactly when it fits 64 bits, and is otherwise an error |
| Der.ElementCanonical | backend/internal/attestation/verifier.go:396-399 | The reader accepts nothing but DER: the bytes consumed are the printing of the element returned |
| Der.ListReadExactly | backend/internal/attestation/verifier.go:396-399 | A list is read as given elements if and only if it is their printing, followed by anything |
| Der.IntegerReadExactly | backend/internal/attestation/verifier.go:417-421 | An INTEGER is read as a value if and only if it is that value's printing, followed by anything, and the value fits 64 bits |
| Der.IdentifierOctets | backend/internal/attestation/verifier.go:396-399 | Identifier octets of section 8.1.2 of ITU-T X.690, as numbers, for every class and every tag below 16384 |
| Der.LengthOctets | backend/internal/attestation/verifier.go:396-399 | Length octets of section 8.1.3, as numbers, for every length below 65536 |
| Der.LeadingOctets | backend/internal/attestation/types.go:9-14 | Every printed SEQUENCE begins with 0x30 and every printed INTEGER with 0x02; tags 704, 705, 706 and 709 have the identifier octets BF 85 40, BF 85 41, BF 85 42 and BF 85 45 |
| Der.IntegerOctets | backend/internal/attestation/verifier.go:417-421 | Contents octets of integers at the limits of one and two octets and of an OS version, literally |
| Der.EmptyListOctets | backend/internal/attestation/verifier.go:396-399 | The octets 30 00 are read as the empty list |
| Der.OsVersionListOctets | backend/internal/attestation/verifier.go:396-399 | A literal list of eleven octets is read as one element with tag 705 |
| RevocationList.AnswerAgreesWithFreshList | backend/internal/attestation/revocation.go:72-89 | An answer is the answer of the list brought by the last fetch that really happened and succeeded, no earlier than the look-up time minus the TTL; when colliding ids disagree a positive answer is still given by some entry of that list |
| RevocationList.FirstAnswer | backend/internal/attestation/revocation.go:72-89 | On a first call: revoked exactly when the one entry under the id, upper case aside, spells REVOKED; not revoked when there is no such entry; in whatever order the list is walked |
| RevocationList.RevokedStatusExactly | backend/internal/attestation/revocation.go:87-88 | A status counts as revoked if and only if it has the seven letters of REVOKED in any case (or the Kelvin sign for the K) |
| RevocationList.ToLowerExactly | backend/internal/attestation/revocation.go:114-114 | Lower-casing changes exactly the capital letters, each to its small one |
| RevocationList.HexLowered | backend/internal/attestation/revocation.go:114-114 | An id in upper-case hexadecimal is stored under the same digits in lower case |
| RevocationList.CacheHoldsLastFetch | backend/internal/attestation/revocation.go:81-85 | The cache is at all times the table and time of the last successful fetch, where a call fetches only when its key has a fingerprint and the table is absent or stale |
| RevocationList.OrderIrrelevantExactly | backend/internal/attestation/revocation.go:112-116 | The lower-casing loop builds the same table in every iteration order if and only if ids that collide after lower-casing carry the same status |
| RevocationList.BuildOrigin | backend/internal/attestation/revocation.go:112-115 | The table holds exactly the lower-cased ids, each with the status of some entry spelled that way |
| RevocationList.FailedFetchKeepsCache | backend/internal/attestation/revocation.go:81-85 | A failed fetch is reported and leaves entries and fetch time unchanged; a fetch happens only when the table is absent or older than the TTL |
| RevocationList.RevocationStatusClient.IsKeyRevoked | backend/internal/attestation/revocation.go:72-89 | The locked call answers and updates the cache as the specification of a look-up does |
| RevocationList.RevocationStatusClient.FetchLocked | backend/internal/attestation/revocation.go:91-119 | A successful fetch replaces table and time together; a failed one changes neither |
| Keystore.TwoSlotSafety | android/app/src/main/java/com/kypeli/mtlspoc/security/KeystoreManager.kt:36-114 | Over every run of attempts: the identity is the key of the last activation, or the original one while there was none; its slot alternates with activations; the other slot is empty unless the last attempt was cut off |
| Keystore.AttemptOnSlots | android/app/src/main/java/com/kypeli/mtlspoc/security/KeystoreManager.kt:52-114 | One attempt acts on the two slots as its abstract description says, and keeps the aliases distinct |
| Keystore.PendingSlotIsolated | android/app/src/main/java/com/kypeli/mtlspoc/security/KeystoreManager.kt:52-114 | Generating and discarding never change the active alias or the key under it |
| Keystore.ActivationSwapsSlots | android/app/src/main/java/com/kypeli/mtlspoc/security/KeystoreManager.kt:96-103 | Activation makes the pending key the identity and leaves no key in the other slot |
| Keystore.AliasesDiffer | android/app/src/main/java/com/kypeli/mtlspoc/security/KeystoreManager.kt:30-31 | The two slot aliases and the legacy alias are three different names |
| Keystore.ActiveExactly | android/app/src/main/java/com/kypeli/mtlspoc/security/KeystoreManager.kt:36-41 | Slot B is active exactly when its alias is stored; the other slot is the inactive one |
| Keystore.KeystoreManager.GetKeyAlias | android/app/src/main/java/com/kypeli/mtlspoc/security/KeystoreManager.kt:36-39 | The stored alias when it is one of the two slots, and slot A otherwise |
| Keystore.KeystoreManager.GenerateKeyPairWithAttestation | android/app/src/main/java/com/kypeli/mtlspoc/security/KeystoreManager.kt:52-90 | Empties the inactive slot and puts the new key there, or leaves it empty when generation fails |
| Keystore.KeystoreManager.ActivatePendingKey | android/app/src/main/java/com/kypeli/mtlspoc/security/KeystoreManager.kt:96-103 | Deletes the superseded key and makes the inactive alias the active one |
| Keystore.KeystoreManager.DiscardPendingKey | android/app/src/main/java/com/kypeli/mtlspoc/security/KeystoreManager.kt:109-114 | Removes the key in the inactive slot and nothing else |
| Keystore.KeystoreManager.DeleteKey | android/app/src/main/java/com/kypeli/mtlspoc/security/KeystoreManager.kt:219-232 | Removes both slots and the legacy alias and clears all preferences |
| SecurityRepository.CacheCoherence | android/app/src/main/java/com/kypeli/mtlspoc/data/repository/SecurityRepository.kt:145-231 | Over every non-overlapping run of enrolments, pings and restarts, whatever fails: a cached client was built from the current active alias and current chain, and when every parsed response is restorable the chain in memory is the one a restart restores |
| SecurityRepository.InstalledChainPersists | android/app/src/main/java/com/kypeli/mtlspoc/data/repository/SecurityRepository.kt:108-116 | For responses shaped as the backend builds them, the chain installed in memory equals the one restored from the persisted texts |
| SecurityRepository.RestoredExactly | android/app/src/main/java/com/kypeli/mtlspoc/data/repository/SecurityRepository.kt:108-116 | The chain a response installs in memory is the one a restart restores if and only if the response lists no chain, or lists two certificates that are those of the client text and the stored CA text; and the stored texts are readable as PEM |
| SecurityRepository.RestoredExactlyForPem | android/app/src/main/java/com/kypeli/mtlspoc/data/repository/SecurityRepository.kt:206-248 | For PEM responses: if and only if the listed chain is absent or empty, or has two entries whose certificates are those of the client certificate and, when present, the CA certificate |
| SecurityRepository.LongChainNotRestored | android/app/src/main/java/com/kypeli/mtlspoc/data/repository/SecurityRepository.kt:114-116 | A listed chain of one certificate, or of more than two, is never the one restored |
| SecurityRepository.InterruptedInstallExactly | android/app/src/main/java/com/kypeli/mtlspoc/data/repository/SecurityRepository.kt:110-130 | Cut short after any number of its writes, by an exception or by the death of the process, an installation leaves an app that can authenticate if and only if the slots had been swapped, or nothing had been written, or only memory had been written and was lost |
| SecurityRepository.EnrollIsOneAttempt | android/app/src/main/java/com/kypeli/mtlspoc/data/repository/SecurityRepository.kt:66-131 | What an enrolment does to the slots is one attempt, activated exactly when it succeeds; a success stores the certificate and level of the new key, a failure changes only the slots |
| SecurityRepository.NoChallengeNothing | android/app/src/main/java/com/kypeli/mtlspoc/data/repository/SecurityRepository.kt:70-74 | An enrolment that gets no challenge only forgets the cached client and chain |
| SecurityRepository.SecurityRepository.Enroll | android/app/src/main/java/com/kypeli/mtlspoc/data/repository/SecurityRepository.kt:66-131 | The method, with its early failures and its discarding handler, ends in the specified keystore, preferences and caches |
| SecurityRepository.SecurityRepository.PingProtected | android/app/src/main/java/com/kypeli/mtlspoc/data/repository/SecurityRepository.kt:145-189 | Uses the cached client or builds one from the active alias and the resolved chain, and caches it |
| SecurityRepository.PingCaches | android/app/src/main/java/com/kypeli/mtlspoc/data/repository/SecurityRepository.kt:147-150 | The client a ping built serves the next one; a ping fails to build one exactly when nothing is cached and the stored texts cannot be read |
| SecurityRepository.SecurityRepository.ResolveClientChain | android/app/src/main/java/com/kypeli/mtlspoc/data/repository/SecurityRepository.kt:206-231 | Returns the cached chain, or restores [leaf, ca] from the persisted texts and caches it; an unreadable text changes nothing |
| SecurityRepository.SecurityRepository.ParseCertificateChain | android/app/src/main/java/com/kypeli/mtlspoc/data/repository/SecurityRepository.kt:233-248 | Parses the listed chain, or else the client and CA certificates, in order |
| SecurityRepository.AllParsedExactly | android/app/src/main/java/com/kypeli/mtlspoc/data/repository/SecurityRepository.kt:236-239 | Texts parse to a chain if and only if each parses to the certificate at its place |
| SecurityRepository.SingleParsedExactly | android/app/src/main/java/com/kypeli/mtlspoc/data/repository/SecurityRepository.kt:250-262 | A text that, trimmed, begins with the PEM header is read as PEM, and any other as base64 DER |
| SecurityRepository.TrimExactly | android/app/src/main/java/com/kypeli/mtlspoc/data/repository/SecurityRepository.kt:254-254 | Trimming removes all white space at both ends and nothing else |
| SecurityRepository.ResponseTexts | android/app/src/main/java/com/kypeli/mtlspoc/data/repository/SecurityRepository.kt:114-116 | Which texts of a response make up the chain, and which CA text is stored |
| SecurityRepository.SecurityRepository.InvalidateClient | android/app/src/main/java/com/kypeli/mtlspoc/data/repository/SecurityRepository.kt:195-200 | Clears the cached client and chain and nothing else |
| SecurityRepository.SecurityRepository.HasIdentity | android/app/src/main/java/com/kypeli/mtlspoc/data/repository/SecurityRepository.kt:43-44 | True exactly when the active slot holds a key and a non-blank certificate is stored |
| SecurityRepository.EnrolledExactly | android/app/src/main/java/com/kypeli/mtlspoc/data/repository/SecurityRepository.kt:43-44 | Enrolled means: a key under the active alias and a stored certificate text with some character that is no white space |

## Left out

- HTTP, TLS handshakes, JSON, logging, start-up and shutdown: input and output. The TLS layer appears as the guard that a presented certificate was issued by this CA and is within its validity.
- The request body limit and the HTTP method check: they precede everything modelled.
- X.509, CSR and KeyDescription parsing, chain building, ECDSA and SHA-256: library code, uninterpreted.
- The ASN.1 inside a root of trust and inside an application id: uninterpreted above the tag-length-value layer.
- Certificate bootstrap, embedded roots, certificate pools and configuration loading.
- User interface, dependency injection, HTTP client construction, the socket factory and the trust manager.
- StrongBox detection and the fall-back to TEE: key generation is one step that fails or yields a key and its level. The walk along the cause chain is a single-function fact.
- A caller-supplied CA for a ping: it replaces the server's trust anchor and touches neither chain nor alias.
- A crash between the two writes of activating a key (deleting the superseded key, storing the alias): the swap is one step.
- Concurrent pings inside the app and the locking of its caches: pings and enrolments of one device do not overlap.
- Android's lenient base64 decoder: the bytes of a challenge reach the device as they are. The backend's decoder is modelled.
- White space and letter case beyond ASCII, except the two letters that fold into those of REVOKED.
- Fractions of a second, which the validity dates of a certificate drop: times are whole seconds.
- The unique id of a key description and the optional hash of a root of trust: never read.
- The clock readings of one enrolment are those of the state in which the step is taken; the enrolment time in a record is the signing time, where the source reads the clock once more.
- EnrollHandler.EnrollHandler.ServeHTTP: proved for a request that runs alone, because a method cannot be interrupted. Interleaving is the subject of `Server`, which runs the same steps.
- Middleware.MtlsAuth: proved for a request that runs alone, for the same reason.
- Keystore.KeystoreManager.DeleteKey: no theorem about runs uses it, because the repository never calls it.
