/** The cached copy of the attestation status list. */
module RevocationList {
  import opened Prelude

  datatype CacheError = NoFingerprint | FetchFailed

  /** What a fetch would bring if it were made now: an error, or the published list, the order
      in which the runtime walks its keys, and the time at which the fetch completes. */
  datatype Fetch =
    | Failed
    | Fetched(list: map<string, string>, order: seq<string>, doneAt: int)

  datatype Cache = Cache(entries: Option<map<string, string>>, fetchedAt: int)

  /** One call of IsKeyRevoked: the key's fingerprint (absent when the key cannot be
      marshalled), the time of the staleness test, and what a fetch would bring. */
  datatype Call = Call(id: Option<string>, now: int, fetch: Fetch)

  const EMPTY_CACHE := Cache(None, 0)

  // ---------------------------------------------------------- spelling rules

  /** ASCII lower-casing; the ids that are looked up are lower-case hexadecimal. */
  function LowerChar(c: char): char {
    if 'A' <= c <= 'Z' then (c as int - 'A' as int + 'a' as int) as char else c
  }

  function ToLower(s: string): (r: string)
    ensures |r| == |s|
  {
    if |s| == 0 then "" else [LowerChar(s[0])] + ToLower(s[1..])
  }

  /** Simple case folding as far as the letters of REVOKED reach: the Kelvin sign folds to K. */
  function Fold(c: char): char {
    if 'a' <= c <= 'z' then (c as int - 'a' as int + 'A' as int) as char
    else if c == '\U{212A}' then 'K'
    else if c == '\U{017F}' then 'S'
    else c
  }

  predicate EqualFold(s: string, t: string) {
    |s| == |t| && forall i :: 0 <= i < |s| ==> Fold(s[i]) == Fold(t[i])
  }

  predicate IsRevokedStatus(status: string) {
    EqualFold(status, "REVOKED")
  }

  /** Lower-casing, character by character. */
  ghost predicate LowerCased(s: string, t: string) {
    && |s| == |t|
    && forall i :: 0 <= i < |s| ==> t[i] == if 65 <= s[i] as int <= 90 then (s[i] as int + 32) as char else s[i]
  }

  lemma {:induction false} ToLowerExactly(s: string, t: string)
    ensures ToLower(s) == t <==> LowerCased(s, t)
  {
    if |s| > 0 && |t| > 0 {
      ToLowerExactly(s[1..], t[1..]);
      if ToLower(s) == t {
        assert t[0] == LowerChar(s[0]) && ToLower(s)[1..] == ToLower(s[1..]);
        forall i | 0 < i < |s|
          ensures t[i] == LowerChar(s[i])
        {
          assert s[1..][i - 1] == s[i] && t[1..][i - 1] == t[i];
        }
      }
      if LowerCased(s, t) {
        assert LowerCased(s[1..], t[1..]);
        assert t == [t[0]] + t[1..];
      }
    }
  }

  /** An id in upper-case hexadecimal becomes the same digits in lower case. */
  lemma HexLowered(s: string, t: string)
    requires |s| == |t|
    requires forall i :: 0 <= i < |s| ==>
               || ('0' <= s[i] <= '9' && t[i] == s[i])
               || (s[i], t[i]) in {('A', 'a'), ('B', 'b'), ('C', 'c'), ('D', 'd'), ('E', 'e'), ('F', 'f')}
               || (t[i] == s[i] && s[i] in {'a', 'b', 'c', 'd', 'e', 'f'})
    ensures ToLower(s) == t
  {
    ToLowerExactly(s, t);
  }

  /** The seven letters of REVOKED in any case; the fifth may also be the Kelvin sign, which folds to
      K. */
  ghost predicate SpellsRevoked(status: string) {
    && |status| == 7
    && forall i :: 0 <= i < 7 ==>
         status[i] == "REVOKED"[i] || status[i] == "revoked"[i] || (i == 4 && status[i] == '\U{212A}')
  }

  lemma RevokedStatusExactly(status: string)
    ensures IsRevokedStatus(status) <==> SpellsRevoked(status)
  {
    forall i | 0 <= i < 7 && |status| == 7
      ensures Fold(status[i]) == Fold("REVOKED"[i]) <==>
              status[i] == "REVOKED"[i] || status[i] == "revoked"[i] || (i == 4 && status[i] == '\U{212A}')
    {
      RevokedLetter(i, status[i]);
    }
  }

  lemma RevokedLetter(i: nat, c: char)
    requires i < 7
    ensures Fold(c) == Fold("REVOKED"[i]) <==>
            c == "REVOKED"[i] || c == "revoked"[i] || (i == 4 && c == '\U{212A}')
  {
    var upper, lower := "REVOKED", "revoked";
    assert upper == ['R', 'E', 'V', 'O', 'K', 'E', 'D'] && lower == ['r', 'e', 'v', 'o', 'k', 'e', 'd'];
  }

  // ------------------------------------------------------ building the table

  ghost predicate IsOrder(order: seq<string>, keys: set<string>) {
    (forall k :: k in keys <==> k in order) && forall i, j :: 0 <= i < j < |order| ==> order[i] != order[j]
  }

  /** The table after the loop has walked `order`. */
  function Build(list: map<string, string>, order: seq<string>): map<string, string>
    requires forall k :: k in order ==> k in list
  {
    if |order| == 0 then map[]
    else
      var n := |order| - 1;
      Build(list, order[..n])[ToLower(order[n]) := list[order[n]]]
  }

  ghost predicate WellFormed(f: Fetch) {
    f.Fetched? ==> IsOrder(f.order, f.list.Keys)
  }

  /** Ids that collide after lower-casing carry the same status. */
  ghost predicate CollisionsAgree(list: map<string, string>) {
    forall a, b :: a in list && b in list && ToLower(a) == ToLower(b) ==> list[a] == list[b]
  }

  /** The published list itself says that the key is revoked: it has an entry whose id is the key's, upper
      case letters aside, and whose status spells REVOKED. */
  ghost predicate Says(list: map<string, string>, id: string) {
    exists k :: k in list && LowerCased(k, id) && SpellsRevoked(list[k])
  }

  ghost predicate Spells(order: seq<string>, k: string, id: string) {
    k in order && ToLower(k) == id
  }

  /** An id is in the table exactly when some walked key lower-cases to it, and then it
      carries the status of such a key. */
  lemma {:induction false} BuildOrigin(list: map<string, string>, order: seq<string>, id: string)
    requires forall k :: k in order ==> k in list
    ensures id in Build(list, order) <==> exists k :: Spells(order, k, id)
    ensures id in Build(list, order) ==>
              exists k :: Spells(order, k, id) && Build(list, order)[id] == list[k]
  {
    if |order| > 0 {
      var n := |order| - 1;
      BuildOrigin(list, order[..n], id);
      assert order == order[..n] + [order[n]];
      assert forall k :: Spells(order, k, id) <==> Spells(order[..n], k, id) || (k == order[n] && ToLower(k) == id);
      if ToLower(order[n]) == id {
        assert Spells(order, order[n], id);
      } else if id in Build(list, order[..n]) {
        var k :| Spells(order[..n], k, id) && Build(list, order[..n])[id] == list[k];
        assert Spells(order, k, id);
      }
    }
  }

  lemma BuildAgreeing(list: map<string, string>, order: seq<string>, k: string)
    requires IsOrder(order, list.Keys) && CollisionsAgree(list) && k in list
    ensures ToLower(k) in Build(list, order) && Build(list, order)[ToLower(k)] == list[k]
  {
    BuildOrigin(list, order, ToLower(k));
    assert Spells(order, k, ToLower(k));
  }

  lemma SameTable(list: map<string, string>, o: seq<string>, o': seq<string>)
    requires IsOrder(o, list.Keys) && IsOrder(o', list.Keys) && CollisionsAgree(list)
    ensures Build(list, o) == Build(list, o')
  {
    forall id
      ensures id in Build(list, o) <==> id in Build(list, o')
      ensures id in Build(list, o) ==> Build(list, o)[id] == Build(list, o')[id]
    {
      BuildOrigin(list, o, id);
      BuildOrigin(list, o', id);
      if exists k :: Spells(o, k, id) {
        var k :| Spells(o, k, id);
        BuildAgreeing(list, o, k);
        BuildAgreeing(list, o', k);
      } else if exists k' :: Spells(o', k', id) {
        var k' :| Spells(o', k', id);
        BuildAgreeing(list, o, k');
      }
    }
  }

  lemma {:induction false} SomeOrder(keys: set<string>) returns (order: seq<string>)
    ensures IsOrder(order, keys)
  {
    if keys == {} {
      order := [];
    } else {
      var k :| k in keys;
      var rest := SomeOrder(keys - {k});
      order := rest + [k];
    }
  }

  lemma OrderEndingWith(list: map<string, string>, last: string) returns (order: seq<string>)
    requires last in list
    ensures IsOrder(order, list.Keys) && ToLower(last) in Build(list, order)
    ensures Build(list, order)[ToLower(last)] == list[last]
  {
    var rest := SomeOrder(list.Keys - {last});
    order := rest + [last];
    assert order[..|rest|] == rest;
  }

  /** The loop builds the same table in every iteration order exactly when colliding ids
      carry the same status. */
  lemma OrderIrrelevantExactly(list: map<string, string>)
    ensures (forall o, o' :: IsOrder(o, list.Keys) && IsOrder(o', list.Keys) ==> Build(list, o) == Build(list, o'))
            <==> CollisionsAgree(list)
  {
    if CollisionsAgree(list) {
      forall o, o' | IsOrder(o, list.Keys) && IsOrder(o', list.Keys)
        ensures Build(list, o) == Build(list, o')
      {
        SameTable(list, o, o');
      }
    } else {
      var a, b :| a in list && b in list && ToLower(a) == ToLower(b) && list[a] != list[b];
      var o := OrderEndingWith(list, a);
      var o' := OrderEndingWith(list, b);
      assert Build(list, o)[ToLower(a)] != Build(list, o')[ToLower(a)];
    }
  }

  // ------------------------------------------------------------- the client

  predicate Stale(c: Cache, ttl: nat, now: int) {
    c.entries.None? || now - c.fetchedAt > ttl
  }

  /** The table that answers a call, refreshed when absent or stale. */
  function Refreshed(c: Cache, ttl: nat, call: Call): Result<Cache, CacheError>
    requires WellFormed(call.fetch)
  {
    if Stale(c, ttl, call.now) then
      match call.fetch
      case Failed => Err(FetchFailed)
      case Fetched(list, order, doneAt) => Ok(Cache(Some(Build(list, order)), doneAt))
    else Ok(c)
  }

  function Present(c: Cache, id: string): bool {
    c.entries.Some? && id in c.entries.value && IsRevokedStatus(c.entries.value[id])
  }

  function Lookup(c: Cache, ttl: nat, call: Call): (Result<bool, CacheError>, Cache)
    requires WellFormed(call.fetch)
  {
    if call.id.None? then (Err(NoFingerprint), c)
    else
      match Refreshed(c, ttl, call)
      case Err(e) => (Err(e), c)
      case Ok(c') => (Ok(Present(c', call.id.value)), c')
  }

  ghost predicate WellFormedCalls(calls: seq<Call>) {
    forall i :: 0 <= i < |calls| ==> WellFormed(calls[i].fetch)
  }

  /** The clock never goes backwards: a fetch completes no earlier than it was asked for. */
  ghost predicate TimeOrdered(calls: seq<Call>) {
    forall i :: 0 <= i < |calls| && calls[i].fetch.Fetched? ==> calls[i].now <= calls[i].fetch.doneAt
  }

  function After(ttl: nat, calls: seq<Call>): Cache
    requires WellFormedCalls(calls)
  {
    if |calls| == 0 then EMPTY_CACHE
    else
      var n := |calls| - 1;
      Lookup(After(ttl, calls[..n]), ttl, calls[n]).1
  }

  /** Call `j` really fetched, with success: its key has a fingerprint and it met an absent or
      stale table. */
  ghost predicate Fetches(ttl: nat, calls: seq<Call>, j: int)
    requires WellFormedCalls(calls)
  {
    && 0 <= j < |calls| && calls[j].id.Some? && calls[j].fetch.Fetched?
    && Stale(After(ttl, calls[..j]), ttl, calls[j].now)
  }

  /** Call `j` is the last that fetched with success. */
  ghost predicate LastFetch(ttl: nat, calls: seq<Call>, j: int)
    requires WellFormedCalls(calls)
  {
    Fetches(ttl, calls, j) && forall k :: j < k < |calls| ==> !Fetches(ttl, calls, k)
  }

  /** The table that the fetch of a call brings. */
  function Brought(f: Fetch): Cache
    requires f.Fetched? && WellFormed(f)
  {
    Cache(Some(Build(f.list, f.order)), f.doneAt)
  }

  lemma FetchesInPrefix(ttl: nat, calls: seq<Call>, n: nat, j: int)
    requires WellFormedCalls(calls) && n <= |calls| && j < n
    ensures Fetches(ttl, calls[..n], j) == Fetches(ttl, calls, j)
  {
    if 0 <= j {
      assert calls[..n][..j] == calls[..j];
    }
  }

  /** The cache is always the table of the last successful fetch. */
  lemma {:induction false} CacheHoldsLastFetch(ttl: nat, calls: seq<Call>) returns (j: int)
    requires WellFormedCalls(calls)
    ensures After(ttl, calls).entries.Some? ==>
              LastFetch(ttl, calls, j) && After(ttl, calls) == Brought(calls[j].fetch)
  {
    j := -1;
    if |calls| > 0 {
      var n := |calls| - 1;
      if Fetches(ttl, calls, n) {
        j := n;
      } else {
        j := CacheHoldsLastFetch(ttl, calls[..n]);
        if After(ttl, calls).entries.Some? {
          assert After(ttl, calls) == After(ttl, calls[..n]);
          FetchesInPrefix(ttl, calls, n, j);
          forall k | j < k < n
            ensures !Fetches(ttl, calls, k)
          {
            FetchesInPrefix(ttl, calls, n, k);
          }
        }
      }
    }
  }

  /** An answer at time t is the answer of the list that the last successful fetch brought, by
      this or an earlier call, no earlier than t minus the TTL. When ids that collide after
      lower-casing disagree, a positive answer is still one that some entry of that list gives. */
  lemma AnswerAgreesWithFreshList(ttl: nat, calls: seq<Call>)
    requires |calls| > 0 && WellFormedCalls(calls) && TimeOrdered(calls)
    ensures var n := |calls| - 1;
            var answer := Lookup(After(ttl, calls[..n]), ttl, calls[n]).0;
            answer.Ok? ==>
              calls[n].id.Some? &&
              exists j :: LastFetch(ttl, calls, j) && calls[j].fetch.doneAt >= calls[n].now - ttl
                && (answer.value ==> Says(calls[j].fetch.list, calls[n].id.value))
                && (CollisionsAgree(calls[j].fetch.list) ==>
                     (answer.value <==> Says(calls[j].fetch.list, calls[n].id.value)))
  {
    var n := |calls| - 1;
    var answer := Lookup(After(ttl, calls[..n]), ttl, calls[n]).0;
    if answer.Ok? {
      var j := CacheHoldsLastFetch(ttl, calls);
      assert answer == Ok(Present(After(ttl, calls), calls[n].id.value));
      assert !Fetches(ttl, calls, n) ==> !Stale(After(ttl, calls), ttl, calls[n].now);
      TableAnswers(calls[j].fetch.list, calls[j].fetch.order, calls[n].id.value);
    }
  }

  lemma TableAnswers(list: map<string, string>, order: seq<string>, id: string)
    requires IsOrder(order, list.Keys)
    ensures Present(Cache(Some(Build(list, order)), 0), id) ==> Says(list, id)
    ensures CollisionsAgree(list) ==> (Present(Cache(Some(Build(list, order)), 0), id) <==> Says(list, id))
  {
    BuildOrigin(list, order, id);
    if Present(Cache(Some(Build(list, order)), 0), id) {
      var k :| Spells(order, k, id) && Build(list, order)[id] == list[k];
      ToLowerExactly(k, id);
      RevokedStatusExactly(list[k]);
    }
    if CollisionsAgree(list) && Says(list, id) {
      var k :| k in list && LowerCased(k, id) && SpellsRevoked(list[k]);
      ToLowerExactly(k, id);
      RevokedStatusExactly(list[k]);
      BuildAgreeing(list, order, k);
    }
  }

  /** A first call that fetches a list answers what the list says, for every order in which its keys are
      walked: revoked exactly when the entry under the key's id spells REVOKED, when only one entry has
      that id; and not revoked when none has. */
  lemma FirstAnswer(list: map<string, string>, order: seq<string>, id: string, k: string, ttl: nat, now: int,
                    doneAt: int)
    requires IsOrder(order, list.Keys)
    ensures var answer := Lookup(EMPTY_CACHE, ttl, Call(Some(id), now, Fetched(list, order, doneAt))).0;
            && (k in list && LowerCased(k, id)
                && (forall other :: other in list && LowerCased(other, id) ==> other == k)
                ==> answer == Ok(SpellsRevoked(list[k])))
            && ((forall other :: other in list ==> !LowerCased(other, id)) ==> answer == Ok(false))
  {
    BuildOrigin(list, order, id);
    if id in Build(list, order) {
      var origin :| Spells(order, origin, id) && Build(list, order)[id] == list[origin];
      ToLowerExactly(origin, id);
      RevokedStatusExactly(list[origin]);
    }
    if k in list && LowerCased(k, id) {
      ToLowerExactly(k, id);
      assert Spells(order, k, id);
    }
  }

  /** A failed fetch is reported and leaves the entries and the fetch time as they were; a
      fresh table is used without looking at what a fetch would bring. */
  lemma FailedFetchKeepsCache(c: Cache, ttl: nat, call: Call, other: Fetch)
    requires WellFormed(call.fetch) && WellFormed(other)
    ensures call.id.None? ==> Lookup(c, ttl, call) == (Err(NoFingerprint), c)
    ensures Lookup(c, ttl, call).0.Err? ==> Lookup(c, ttl, call).1 == c
    ensures call.id.Some? ==>
              (Lookup(c, ttl, call).0 == Err(FetchFailed) <==>
               call.fetch.Failed? && (c.entries.None? || call.now > c.fetchedAt + ttl))
    ensures c.entries.Some? && call.now <= c.fetchedAt + ttl ==>
              Lookup(c, ttl, call) == Lookup(c, ttl, call.(fetch := other))
  {
  }

  class RevocationStatusClient {
    const ttl: nat
    var entries: Option<map<string, string>>
    var fetched: int

    constructor (ttl: nat)
      ensures View() == EMPTY_CACHE && this.ttl == ttl
    {
      this.ttl := ttl;
      entries, fetched := None, 0;
    }

    function View(): Cache
      reads this
    {
      Cache(entries, fetched)
    }

    /** The caller holds the client's lock for the whole call, fetch included. */
    method IsKeyRevoked(call: Call) returns (r: Result<bool, CacheError>)
      requires WellFormed(call.fetch)
      modifies this
      ensures (r, View()) == Lookup(old(View()), ttl, call)
    {
      if call.id.None? {
        return Err(NoFingerprint);
      }
      if entries.None? || call.now - fetched > ttl {
        var error := FetchLocked(call.fetch);
        if error.Some? {
          return Err(error.value);
        }
      }
      var id := call.id.value;
      r := Ok(id in entries.value && IsRevokedStatus(entries.value[id]));
    }

    method FetchLocked(fetch: Fetch) returns (error: Option<CacheError>)
      requires WellFormed(fetch)
      modifies this
      ensures fetch.Failed? ==> error == Some(FetchFailed) && View() == old(View())
      ensures fetch.Fetched? ==>
                error == None && View() == Cache(Some(Build(fetch.list, fetch.order)), fetch.doneAt)
    {
      if fetch.Failed? {
        return Some(FetchFailed);
      }
      var table: map<string, string> := map[];
      for i := 0 to |fetch.order|
        invariant table == Build(fetch.list, fetch.order[..i])
        invariant View() == old(View())
      {
        assert fetch.order[..i + 1][..i] == fetch.order[..i];
        table := table[ToLower(fetch.order[i]) := fetch.list[fetch.order[i]]];
      }
      assert fetch.order[..|fetch.order|] == fetch.order;
      entries, fetched, error := Some(table), fetch.doneAt, None;
    }
  }
}
