/** Two alternating key slots in the device's keystore and the preferences that go with them. */
module Keystore {
  import opened Prelude
  import opened Attestation

  datatype Level = StrongBoxLevel | TeeLevel

  /** A hardware key and the attestation chain minted with it. */
  datatype KeyEntry = KeyEntry(key: PublicKey, attestationChain: seq<bytes>)

  datatype Keystore = Keystore(
    aliasA: string,
    aliasB: string,
    entries: map<string, KeyEntry>,
    activeAlias: Option<string>,
    caPem: Option<string>,
    clientPem: Option<string>,
    level: Option<Level>)

  function AliasA(base: string): string { base + "_a" }

  function AliasB(base: string): string { base + "_b" }

  ghost predicate SlotsDistinct(ks: Keystore) {
    ks.aliasA != ks.aliasB
  }

  lemma AliasesDiffer(base: string)
    ensures AliasA(base) != AliasB(base) && AliasA(base) != base && AliasB(base) != base
    ensures AliasA(base)[..|base|] == base && AliasA(base)[|base|..] == "_a"
    ensures AliasB(base)[..|base|] == base && AliasB(base)[|base|..] == "_b"
  {
    assert AliasA(base)[|base| + 1] == 'a' && AliasB(base)[|base| + 1] == 'b';
    assert |AliasA(base)| == |base| + 2 && |AliasB(base)| == |base| + 2;
  }

  /** An unknown stored alias counts as slot A. */
  function ActiveAlias(ks: Keystore): string {
    var stored := if ks.activeAlias.Some? then ks.activeAlias.value else ks.aliasA;
    if stored == ks.aliasA || stored == ks.aliasB then stored else ks.aliasA
  }

  function InactiveAlias(ks: Keystore): string {
    if ActiveAlias(ks) == ks.aliasA then ks.aliasB else ks.aliasA
  }

  /** Slot B is active exactly when its alias is stored; an absent or unknown alias means slot A. */
  lemma ActiveExactly(ks: Keystore)
    ensures ActiveAlias(ks) == if ks.activeAlias == Some(ks.aliasB) then ks.aliasB else ks.aliasA
    ensures ks.aliasA != ks.aliasB ==>
              {ActiveAlias(ks), InactiveAlias(ks)} == {ks.aliasA, ks.aliasB} && ActiveAlias(ks) != InactiveAlias(ks)
  {
  }

  function Entry(ks: Keystore, name: string): Option<KeyEntry> {
    if name in ks.entries then Some(ks.entries[name]) else None
  }

  /** The key of the current identity, if there is one. */
  function ActiveKey(ks: Keystore): Option<KeyEntry> {
    Entry(ks, ActiveAlias(ks))
  }

  function PendingKey(ks: Keystore): Option<KeyEntry> {
    Entry(ks, InactiveAlias(ks))
  }

  /** A stale pending key goes first; `minted` is absent when the hardware fails. */
  function WithGenerated(ks: Keystore, minted: Option<KeyEntry>): Keystore {
    var target := InactiveAlias(ks);
    var cleared := ks.entries - {target};
    ks.(entries := if minted.Some? then cleared[target := minted.value] else cleared)
  }

  function WithPendingDiscarded(ks: Keystore): Keystore {
    ks.(entries := ks.entries - {InactiveAlias(ks)})
  }

  function WithPendingActivated(ks: Keystore): Keystore {
    ks.(entries := ks.entries - {ActiveAlias(ks)}, activeAlias := Some(InactiveAlias(ks)))
  }

  // ------------------------------------------------------------ two-slot safety

  /** One pass through an enrolment, as far as the slots are concerned. An abandoned one was cut
      off by the death of the process before it could discard its key. */
  datatype Attempt =
    | GenerationFailed
    | Rejected(minted: KeyEntry)
    | Abandoned(minted: KeyEntry)
    | Activated(minted: KeyEntry)

  function AfterAttempt(ks: Keystore, a: Attempt): Keystore {
    match a
    case GenerationFailed => WithGenerated(ks, None)
    case Rejected(k) => WithPendingDiscarded(WithGenerated(ks, Some(k)))
    case Abandoned(k) => WithGenerated(ks, Some(k))
    case Activated(k) => WithPendingActivated(WithGenerated(ks, Some(k)))
  }

  function AfterAttempts(ks: Keystore, attempts: seq<Attempt>): Keystore {
    if |attempts| == 0 then ks
    else AfterAttempt(AfterAttempts(ks, attempts[..|attempts| - 1]), attempts[|attempts| - 1])
  }

  /** Generating and discarding leave the identity and its key alone, and the other slot holds
      the new key, or nothing. */
  lemma PendingSlotIsolated(ks: Keystore, minted: Option<KeyEntry>)
    requires SlotsDistinct(ks)
    ensures ActiveAlias(WithGenerated(ks, minted)) == ActiveAlias(ks)
    ensures ActiveKey(WithGenerated(ks, minted)) == ActiveKey(ks) && PendingKey(WithGenerated(ks, minted)) == minted
    ensures ActiveAlias(WithPendingDiscarded(ks)) == ActiveAlias(ks)
    ensures ActiveKey(WithPendingDiscarded(ks)) == ActiveKey(ks) && PendingKey(WithPendingDiscarded(ks)) == None
    ensures forall name :: name != InactiveAlias(ks) ==>
              Entry(WithGenerated(ks, minted), name) == Entry(WithPendingDiscarded(ks), name) == Entry(ks, name)
    ensures WithGenerated(ks, minted).(entries := ks.entries) == WithPendingDiscarded(ks).(entries := ks.entries) == ks
  {
  }

  /** Activating swaps the slots: the pending key is the identity and no other slot is occupied. */
  lemma ActivationSwapsSlots(ks: Keystore)
    requires SlotsDistinct(ks)
    ensures ActiveAlias(WithPendingActivated(ks)) == InactiveAlias(ks)
    ensures InactiveAlias(WithPendingActivated(ks)) == ActiveAlias(ks)
    ensures ActiveKey(WithPendingActivated(ks)) == PendingKey(ks) && PendingKey(WithPendingActivated(ks)) == None
    ensures forall name :: name != ActiveAlias(ks) ==> Entry(WithPendingActivated(ks), name) == Entry(ks, name)
    ensures WithPendingActivated(ks).(entries := ks.entries, activeAlias := ks.activeAlias) == ks
  {
  }

  /** What the slots amount to: which is the identity's, and what each holds. */
  datatype Slots = Slots(active: string, inactive: string, identity: Option<KeyEntry>, pending: Option<KeyEntry>)

  function SlotsOf(ks: Keystore): Slots {
    Slots(ActiveAlias(ks), InactiveAlias(ks), ActiveKey(ks), PendingKey(ks))
  }

  function SlotsAfter(s: Slots, a: Attempt): Slots {
    match a
    case GenerationFailed => s.(pending := None)
    case Rejected(_) => s.(pending := None)
    case Abandoned(k) => s.(pending := Some(k))
    case Activated(k) => Slots(s.inactive, s.active, Some(k), None)
  }

  function SlotsAfterAll(s: Slots, attempts: seq<Attempt>): Slots {
    if |attempts| == 0 then s
    else SlotsAfter(SlotsAfterAll(s, attempts[..|attempts| - 1]), attempts[|attempts| - 1])
  }

  lemma AttemptOnSlots(ks: Keystore, a: Attempt)
    requires SlotsDistinct(ks)
    ensures SlotsDistinct(AfterAttempt(ks, a)) && SlotsOf(AfterAttempt(ks, a)) == SlotsAfter(SlotsOf(ks), a)
  {
    var minted := if a.GenerationFailed? then None else Some(a.minted);
    PendingSlotIsolated(ks, minted);
    if a.Rejected? {
      PendingSlotIsolated(WithGenerated(ks, minted), minted);
    }
    ActivationSwapsSlots(WithGenerated(ks, minted));
  }

  lemma {:induction false} AttemptsOnSlots(ks: Keystore, attempts: seq<Attempt>)
    requires SlotsDistinct(ks)
    ensures SlotsDistinct(AfterAttempts(ks, attempts))
    ensures SlotsOf(AfterAttempts(ks, attempts)) == SlotsAfterAll(SlotsOf(ks), attempts)
  {
    if |attempts| > 0 {
      AttemptsOnSlots(ks, attempts[..|attempts| - 1]);
      AttemptOnSlots(AfterAttempts(ks, attempts[..|attempts| - 1]), attempts[|attempts| - 1]);
    }
  }

  function Activations(attempts: seq<Attempt>): nat {
    if |attempts| == 0 then 0
    else Activations(attempts[..|attempts| - 1]) + if attempts[|attempts| - 1].Activated? then 1 else 0
  }

  /** Attempt `i` is the last that activated its key. */
  ghost predicate LastActivated(attempts: seq<Attempt>, i: int) {
    && 0 <= i < |attempts| && attempts[i].Activated?
    && forall j :: i < j < |attempts| ==> !attempts[j].Activated?
  }

  lemma {:induction false} IdentityHistory(s: Slots, attempts: seq<Attempt>, i: int)
    ensures LastActivated(attempts, i) ==> SlotsAfterAll(s, attempts).identity == Some(attempts[i].minted)
  {
    if LastActivated(attempts, i) && i < |attempts| - 1 {
      var n := |attempts| - 1;
      assert !attempts[n].Activated?;
      assert LastActivated(attempts[..n], i);
      IdentityHistory(s, attempts[..n], i);
    }
  }

  lemma {:induction false} IdentityUntouched(s: Slots, attempts: seq<Attempt>)
    requires forall a :: a in attempts ==> !a.Activated?
    ensures SlotsAfterAll(s, attempts).identity == s.identity
  {
    if |attempts| > 0 {
      IdentityUntouched(s, attempts[..|attempts| - 1]);
      assert attempts[|attempts| - 1] in attempts;
    }
  }

  lemma {:induction false} SlotsAlternate(s: Slots, attempts: seq<Attempt>)
    ensures var end := SlotsAfterAll(s, attempts);
            (end.active, end.inactive) ==
            (if Activations(attempts) % 2 == 0 then (s.active, s.inactive) else (s.inactive, s.active))
  {
    if |attempts| > 0 {
      SlotsAlternate(s, attempts[..|attempts| - 1]);
    }
  }

  /** Over every run of attempts: the identity is the key of the last activation, or the original
      one while there was none; its slot alternates with the activations; and the other slot is
      empty unless the last attempt was abandoned, in which case it holds that attempt's key. */
  lemma TwoSlotSafety(ks: Keystore, attempts: seq<Attempt>)
    requires SlotsDistinct(ks) && |attempts| > 0
    ensures var end := SlotsOf(AfterAttempts(ks, attempts));
            var last := attempts[|attempts| - 1];
            && (forall i :: LastActivated(attempts, i) ==> end.identity == Some(attempts[i].minted))
            && ((forall a :: a in attempts ==> !a.Activated?) ==> end.identity == ActiveKey(ks))
            && end.active == (if Activations(attempts) % 2 == 0 then ActiveAlias(ks) else InactiveAlias(ks))
            && end.pending == (if last.Abandoned? then Some(last.minted) else None)
  {
    AttemptsOnSlots(ks, attempts);
    SlotsAlternate(SlotsOf(ks), attempts);
    forall i
      ensures LastActivated(attempts, i) ==> SlotsAfterAll(SlotsOf(ks), attempts).identity == Some(attempts[i].minted)
    {
      IdentityHistory(SlotsOf(ks), attempts, i);
    }
    if forall a :: a in attempts ==> !a.Activated? {
      IdentityUntouched(SlotsOf(ks), attempts);
    }
  }

  // ---------------------------------------------------------------- the manager

  class KeystoreManager {
    const keyAlias: string
    var entries: map<string, KeyEntry>
    var activeAlias: Option<string>
    var caPem: Option<string>
    var clientPem: Option<string>
    var securityLevel: Option<Level>

    constructor (keyAlias: string)
      ensures View() == Keystore(AliasA(keyAlias), AliasB(keyAlias), map[], None, None, None, None)
    {
      this.keyAlias := keyAlias;
      entries, activeAlias, caPem, clientPem, securityLevel := map[], None, None, None, None;
    }

    function View(): Keystore
      reads this
    {
      Keystore(AliasA(keyAlias), AliasB(keyAlias), entries, activeAlias, caPem, clientPem, securityLevel)
    }

    method GetKeyAlias() returns (name: string)
      ensures name == ActiveAlias(View())
    {
      var stored := if activeAlias.Some? then activeAlias.value else AliasA(keyAlias);
      name := if stored == AliasA(keyAlias) || stored == AliasB(keyAlias) then stored else AliasA(keyAlias);
    }

    method GetInactiveAlias() returns (name: string)
      ensures name == InactiveAlias(View())
    {
      var active := GetKeyAlias();
      name := if active == AliasA(keyAlias) then AliasB(keyAlias) else AliasA(keyAlias);
    }

    method DeleteEntry(name: string)
      modifies this
      ensures View() == old(View()).(entries := old(entries) - {name})
    {
      if name in entries {
        entries := entries - {name};
      } else {
        assert entries == entries - {name};
      }
    }

    method GenerateKeyPairWithAttestation(minted: Option<KeyEntry>) returns (ok: bool)
      modifies this
      ensures View() == WithGenerated(old(View()), minted) && ok == minted.Some?
    {
      var target := GetInactiveAlias();
      DeleteEntry(target);
      if minted.Some? {
        entries := entries[target := minted.value];
      }
      ok := minted.Some?;
    }

    method ActivatePendingKey()
      modifies this
      ensures View() == WithPendingActivated(old(View()))
    {
      AliasesDiffer(keyAlias);
      var pending := GetInactiveAlias();
      var previous := GetKeyAlias();
      if previous != pending {
        DeleteEntry(previous);
      }
      activeAlias := Some(pending);
    }

    method DiscardPendingKey()
      modifies this
      ensures View() == WithPendingDiscarded(old(View()))
    {
      var pending := GetInactiveAlias();
      DeleteEntry(pending);
    }

    method HasKey() returns (has: bool)
      ensures has == ActiveKey(View()).Some?
    {
      var active := GetKeyAlias();
      has := active in entries;
    }

    method SaveCertificates(client: Option<string>, ca: Option<string>)
      modifies this
      ensures View() == old(View()).(clientPem := client, caPem := ca)
    {
      clientPem := client;
      caPem := ca;
    }

    method SaveSecurityLevel(level: Option<Level>)
      modifies this
      ensures View() == old(View()).(level := level)
    {
      securityLevel := level;
    }

    /** Every slot, the unsuffixed legacy one included, and all preferences. */
    method DeleteKey()
      modifies this
      ensures View() == Keystore(old(View()).aliasA, old(View()).aliasB,
                                 old(entries) - {AliasA(keyAlias), AliasB(keyAlias), keyAlias}, None, None, None, None)
    {
      DeleteEntry(AliasA(keyAlias));
      DeleteEntry(AliasB(keyAlias));
      DeleteEntry(keyAlias);
      assert entries == old(entries) - {AliasA(keyAlias), AliasB(keyAlias), keyAlias};
      activeAlias, caPem, clientPem, securityLevel := None, None, None, None;
    }
  }
}
