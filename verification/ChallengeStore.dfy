/** Single-use attestation challenges with an expiry, and the background sweep. */
module ChallengeStore {
  import opened Prelude
  import Base64

  /** One atomic step on the store. Expiries are computed before the lock is taken, so they
      bear no relation to the order of the steps; the other times are read under the lock. */
  datatype Event =
    | Issued(challenge: string, expiresAt: int)
    | Verified(challenge: string, at: int)
    | Swept(at: int)

  type Entries = map<string, int>

  function Put(m: Entries, challenge: string, expiresAt: int): Entries {
    m[challenge := expiresAt]
  }

  /** The entry goes whether or not it is still valid. */
  function Take(m: Entries, challenge: string, now: int): (bool, Entries) {
    if challenge in m then (now < m[challenge], m - {challenge}) else (false, m)
  }

  function Sweep(m: Entries, now: int): Entries {
    map c | c in m && !(now > m[c]) :: m[c]
  }

  function Apply(m: Entries, e: Event): Entries {
    match e
    case Issued(c, expiresAt) => Put(m, c, expiresAt)
    case Verified(c, at) => Take(m, c, at).1
    case Swept(at) => Sweep(m, at)
  }

  /** The entries after a run of the store. */
  function After(h: seq<Event>): Entries {
    if |h| == 0 then map[] else Apply(After(h[..|h| - 1]), h[|h| - 1])
  }

  /** The results of the verifications of a run, in order. */
  function Answers(h: seq<Event>): seq<bool> {
    if |h| == 0 then []
    else
      var n := |h| - 1;
      var e := h[n];
      Answers(h[..n]) + (if e.Verified? then [Take(After(h[..n]), e.challenge, e.at).0] else [])
  }

  // ------------------------------------------------- the history specification

  predicate Touches(e: Event, challenge: string) {
    (e.Issued? || e.Verified?) && e.challenge == challenge
  }

  /** Event `i` issued the challenge, and it was neither issued again nor verified since. */
  ghost predicate Live(h: seq<Event>, challenge: string, i: int) {
    && 0 <= i < |h| && h[i].Issued? && h[i].challenge == challenge
    && forall j :: i < j < |h| ==> !Touches(h[j], challenge)
  }

  /** The challenge was issued, `now` is before the expiry of its latest issue, and it has not
      been verified since that issue. */
  ghost predicate Accepts(h: seq<Event>, challenge: string, now: int) {
    exists i :: Live(h, challenge, i) && now < h[i].expiresAt
  }

  /** The clock never goes backwards. */
  ghost predicate TimeOrdered(h: seq<Event>) {
    forall i, j :: 0 <= i < j < |h| && !h[i].Issued? && !h[j].Issued? ==> h[i].at <= h[j].at
  }

  ghost predicate NotBefore(h: seq<Event>, now: int) {
    forall i :: 0 <= i < |h| && !h[i].Issued? ==> h[i].at <= now
  }

  /** The history explains the entries, and nothing in it lies in the future. */
  ghost predicate Explains(h: seq<Event>, m: Entries, now: int) {
    After(h) == m && TimeOrdered(h) && NotBefore(h, now)
  }

  lemma ExplainsLater(h: seq<Event>, m: Entries, now: int, later: int)
    requires Explains(h, m, now) && now <= later
    ensures Explains(h, m, later)
  {
  }

  lemma ExplainsNext(h: seq<Event>, m: Entries, now: int, e: Event)
    requires Explains(h, m, now) && (e.Issued? || e.at == now)
    ensures Explains(h + [e], Apply(m, e), now)
  {
    assert (h + [e])[..|h|] == h;
  }

  /** An entry is exactly a live issue, save that a live issue may have been swept after it
      expired. */
  lemma {:induction false} EntriesAreLiveIssues(h: seq<Event>, challenge: string)
    requires TimeOrdered(h)
    ensures challenge in After(h) ==> exists i :: Live(h, challenge, i) && After(h)[challenge] == h[i].expiresAt
    ensures forall i :: Live(h, challenge, i) && challenge !in After(h) ==>
              exists j :: 0 <= j < |h| && h[j].Swept? && h[j].at > h[i].expiresAt
  {
    if |h| > 0 {
      var n := |h| - 1;
      var g := h[..n];
      EntriesAreLiveIssues(g, challenge);
      if challenge in After(h) {
        if h[n] == Issued(challenge, After(h)[challenge]) {
          assert Live(h, challenge, n);
        } else {
          var i :| Live(g, challenge, i) && After(g)[challenge] == g[i].expiresAt;
          assert Live(h, challenge, i);
        }
      }
      forall i | Live(h, challenge, i) && challenge !in After(h)
        ensures exists j :: 0 <= j < |h| && h[j].Swept? && h[j].at > h[i].expiresAt
      {
        assert i < n && Live(g, challenge, i);
        if challenge !in After(g) {
          var j :| 0 <= j < |g| && g[j].Swept? && g[j].at > g[i].expiresAt;
          assert h[j].Swept? && h[j].at > h[i].expiresAt;
        } else {
          var k :| Live(g, challenge, k) && After(g)[challenge] == g[k].expiresAt;
          OneLiveIssue(g, challenge, i, k);
          assert h[n].Swept? && h[n].at > h[i].expiresAt;
        }
      }
    }
  }

  lemma OneLiveIssue(h: seq<Event>, challenge: string, i: int, k: int)
    requires Live(h, challenge, i) && Live(h, challenge, k)
    ensures i == k
  {
    assert Touches(h[i], challenge) && Touches(h[k], challenge);
  }

  /** For every interleaving of issues, verifications and sweeps, a verification answers by
      the history alone. */
  lemma VerificationFollowsHistory(h: seq<Event>, challenge: string, now: int)
    requires TimeOrdered(h) && NotBefore(h, now)
    ensures Take(After(h), challenge, now).0 <==> Accepts(h, challenge, now)
  {
    EntriesAreLiveIssues(h, challenge);
    if challenge in After(h) {
      var k :| Live(h, challenge, k) && After(h)[challenge] == h[k].expiresAt;
      if Accepts(h, challenge, now) {
        var i :| Live(h, challenge, i) && now < h[i].expiresAt;
        OneLiveIssue(h, challenge, i, k);
      }
    }
  }

  /** A challenge is accepted at most once per issue, whatever happens in between. */
  lemma SecondVerificationFails(h: seq<Event>, challenge: string, now: int, later: seq<Event>, again: int)
    requires forall j :: 0 <= j < |later| ==> !(later[j].Issued? && later[j].challenge == challenge)
    ensures !Accepts(h + [Verified(challenge, now)] + later, challenge, again)
  {
    var all := h + [Verified(challenge, now)] + later;
    forall i | Live(all, challenge, i)
      ensures false
    {
      assert all[|h|] == Verified(challenge, now);
      assert Touches(all[|h|], challenge);
    }
  }

  // ------------------------------------------------------ the sweep is unobservable

  function WithoutSweeps(h: seq<Event>): seq<Event> {
    if |h| == 0 then []
    else WithoutSweeps(h[..|h| - 1]) + (if h[|h| - 1].Swept? then [] else [h[|h| - 1]])
  }

  /** The swept entries are those of the run without sweeps, minus some that have expired. */
  ghost predicate Simulates(swept: Entries, unswept: Entries, now: int) {
    && (forall c :: c in swept ==> c in unswept && swept[c] == unswept[c])
    && (forall c :: c in unswept && c !in swept ==> unswept[c] < now)
  }

  ghost predicate SameAnswers(h: seq<Event>, now: int) {
    Simulates(After(h), After(WithoutSweeps(h)), now) && Answers(h) == Answers(WithoutSweeps(h))
  }

  /** Each event keeps the simulation, and both maps answer a verification alike. */
  lemma SimulationStep(swept: Entries, unswept: Entries, now: int, e: Event)
    requires Simulates(swept, unswept, now) && (e.Issued? || e.at == now)
    ensures Simulates(Apply(swept, e), if e.Swept? then unswept else Apply(unswept, e), now)
    ensures e.Verified? ==> Take(swept, e.challenge, now).0 == Take(unswept, e.challenge, now).0
  {
  }

  lemma PrefixOrdered(h: seq<Event>, now: int)
    requires |h| > 0 && TimeOrdered(h) && NotBefore(h, now)
    ensures var n := |h| - 1;
            TimeOrdered(h[..n]) && NotBefore(h[..n], if h[n].Issued? then now else h[n].at)
  {
  }

  /** The last event in the run without sweeps, if it is still there. */
  lemma WithoutSweepsLast(h: seq<Event>)
    requires |h| > 0
    ensures var e, w := h[|h| - 1], WithoutSweeps(h[..|h| - 1]);
            && After(WithoutSweeps(h)) == (if e.Swept? then After(w) else Apply(After(w), e))
            && Answers(WithoutSweeps(h))
               == Answers(w) + (if e.Verified? then [Take(After(w), e.challenge, e.at).0] else [])
  {
    var e, w := h[|h| - 1], WithoutSweeps(h[..|h| - 1]);
    if e.Swept? {
      assert WithoutSweeps(h) == w;
    } else {
      assert WithoutSweeps(h) == w + [e] && (w + [e])[..|w|] == w;
    }
  }

  lemma {:induction false} SweepSimulation(h: seq<Event>, now: int)
    requires TimeOrdered(h) && NotBefore(h, now)
    ensures SameAnswers(h, now)
  {
    if |h| > 0 {
      var n := |h| - 1;
      var e := h[n];
      var t := if e.Issued? then now else e.at;
      PrefixOrdered(h, now);
      SweepSimulation(h[..n], t);
      WithoutSweepsLast(h);
      SimulationStep(After(h[..n]), After(WithoutSweeps(h[..n])), t, e);
    }
  }

  /** Deleting every sweep from a run leaves every verification result as it was. */
  lemma CleanupUnobservable(h: seq<Event>)
    requires TimeOrdered(h)
    ensures Answers(WithoutSweeps(h)) == Answers(h)
  {
    var now := LastTime(h);
    SweepSimulation(h, now);
  }

  lemma {:induction false} LastTime(h: seq<Event>) returns (now: int)
    ensures NotBefore(h, now)
  {
    if |h| == 0 {
      now := 0;
    } else {
      var n := |h| - 1;
      now := LastTime(h[..n]);
      if !h[n].Issued? && h[n].at > now {
        now := h[n].at;
      }
    }
  }

  // ----------------------------------------------------------------- the store

  class MemoryChallengeStore {
    var challenges: Entries
    ghost var history: seq<Event>

    ghost predicate Valid()
      reads this
    {
      TimeOrdered(history) && challenges == After(history)
    }

    constructor ()
      ensures Valid() && history == []
    {
      challenges, history := map[], [];
    }

    /** `random` is what the random source delivers, if it does; `now` is read before the lock. */
    method GenerateAndStoreChallenge(random: Option<bytes>, now: int, ttl: int)
      returns (r: Option<(string, int)>)
      requires Valid()
      modifies this
      ensures Valid()
      ensures random.None? ==> r == None && history == old(history) && challenges == old(challenges)
      ensures random.Some? ==>
                r == Some((Base64.EncodeToString(random.value), now + ttl))
                && history == old(history) + [Issued(r.value.0, r.value.1)]
    {
      if random.None? {
        return None;
      }
      var challenge := Base64.EncodeToString(random.value);
      var expiresAt := now + ttl;
      challenges := challenges[challenge := expiresAt];
      history := history + [Issued(challenge, expiresAt)];
      assert history[..|history| - 1] == old(history);
      r := Some((challenge, expiresAt));
    }

    method VerifyAndConsumeChallenge(challenge: string, now: int) returns (ok: bool)
      requires Valid() && NotBefore(history, now)
      modifies this
      ensures Valid() && history == old(history) + [Verified(challenge, now)]
      ensures ok <==> Accepts(old(history), challenge, now)
      ensures (ok, challenges) == Take(old(challenges), challenge, now)
      ensures challenge !in challenges
    {
      VerificationFollowsHistory(history, challenge, now);
      history := history + [Verified(challenge, now)];
      assert history[..|history| - 1] == old(history);
      if challenge !in challenges {
        return false;
      }
      var expiresAt := challenges[challenge];
      challenges := challenges - {challenge};
      ok := now < expiresAt;
    }

    /** One pass of the worker; the runtime walks the map in no particular order. */
    method CleanupPass(now: int)
      requires Valid() && NotBefore(history, now)
      modifies this
      ensures Valid() && history == old(history) + [Swept(now)]
      ensures forall c :: c in challenges <==> c in old(challenges) && now <= old(challenges)[c]
      ensures forall c :: c in challenges ==> challenges[c] == old(challenges)[c]
    {
      ghost var before := challenges;
      var left := challenges.Keys;
      while left != {}
        invariant left <= before.Keys && history == old(history)
        invariant forall c :: c in challenges <==> c in before && (c in left || now <= before[c])
        invariant forall c :: c in challenges ==> challenges[c] == before[c]
        decreases left
      {
        var c :| c in left;
        if now > challenges[c] {
          challenges := challenges - {c};
        }
        left := left - {c};
      }
      history := history + [Swept(now)];
      assert history[..|history| - 1] == old(history);
      assert challenges == Sweep(before, now);
    }
  }
}
