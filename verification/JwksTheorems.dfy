/** Main results about the key cache, over every run of concurrent calls. */
module JwksTheorems {
  import opened Wrappers
  import opened JwksCache
  import opened JwksMachine
  import opened JwksInvariants

  lemma Reachable(cache: Option<Jwks>, actions: seq<Action>)
    requires Startable(cache)
    ensures Inv(Run(Init(cache), actions))
  {
    InitHolds(cache);
    RunKeeps(Init(cache), actions);
  }

  /** At most one fetch is in flight, and it belongs to the holder of the refresh mutex. */
  lemma AtMostOneFetch(cache: Option<Jwks>, actions: seq<Action>, id: nat, other: nat)
    requires Startable(cache)
    ensures var s := Run(Init(cache), actions);
            && (id in s.callers && s.callers[id].pc.Fetching? ==> s.holder == Some(id))
            && (id in s.callers && s.callers[id].pc.Fetching? && other in s.callers && s.callers[other].pc.Fetching?
                ==> id == other)
  {
    Reachable(cache, actions);
  }

  lemma {:induction false} LastStartIsLatest(log: seq<Event>, i: nat)
    requires LawfulLog(log) && i < |log| && log[i].FetchStarted?
    ensures LastStart(log).Some? && log[i].at <= LastStart(log).value
    decreases |log|
  {
    var past, e := log[..|log| - 1], log[|log| - 1];
    assert Lawful(log[..|log| - 1], e);
    if i < |log| - 1 {
      assert LawfulLog(past) by {
        forall k | 0 <= k < |past| ensures Lawful(past[..k], past[k]) {
          assert past[..k] == log[..k] && Lawful(log[..k], log[k]);
        }
      }
      LastStartIsLatest(past, i);
    }
  }

  /** Any two fetches start at least the back-off apart. */
  lemma FetchesAreSpaced(cache: Option<Jwks>, actions: seq<Action>, i: nat, j: nat)
    requires Startable(cache)
    requires i < j < |Run(Init(cache), actions).log|
    requires Run(Init(cache), actions).log[i].FetchStarted? && Run(Init(cache), actions).log[j].FetchStarted?
    ensures var log := Run(Init(cache), actions).log; log[j].at - log[i].at >= REFRESH_BACKOFF
  {
    Reachable(cache, actions);
    var log := Run(Init(cache), actions).log;
    assert Lawful(log[..j], log[j]);
    assert LawfulLog(log[..j]) by {
      forall k | 0 <= k < j ensures Lawful(log[..j][..k], log[..j][k]) {
        assert log[..j][..k] == log[..k] && Lawful(log[..k], log[k]);
      }
    }
    LastStartIsLatest(log[..j], i);
  }

  /** The cache only ever changes when the holder's fetch succeeds; a failed, dropped or refused
      refresh leaves it as it was. */
  lemma CacheChangesOnlyByFetching(s: Verifier, a: Action)
    requires Inv(s)
    ensures var t := Step(s, a);
            t.cells.cache != s.cells.cache ==>
              && a.FetchReply? && a.fetched.Some? && s.holder == Some(a.id)
              && t.cells.cache == Some(Jwks(a.fetched.value, s.now, false))
              && (s.cells.cache.Some? ==> !s.cells.cache.value.immutable)
  {
    if a.FetchReply? {
      assert CallerInv(s, a.id);
    }
  }

  /** `fetched_at` never goes back, and a cache is never emptied. */
  lemma {:induction false} FetchedAtNeverDecreases(s: Verifier, actions: seq<Action>)
    requires Inv(s) && s.cells.cache.Some?
    ensures var t := Run(s, actions).cells.cache;
            && t.Some? && s.cells.cache.value.fetchedAt <= t.value.fetchedAt
            && t.value.immutable == s.cells.cache.value.immutable
            && (s.cells.cache.value.immutable ==> t == s.cells.cache)
    decreases |actions|
  {
    if actions != [] {
      StepKeeps(s, actions[0]);
      CacheChangesOnlyByFetching(s, actions[0]);
      FetchedAtNeverDecreases(Step(s, actions[0]), actions[1..]);
    }
  }

  lemma {:induction false} NoStartNoFetch(log: seq<Event>, i: nat)
    requires LastStart(log).None? && i < |log|
    ensures !log[i].FetchStarted?
  {
    if i < |log| - 1 {
      NoStartNoFetch(log[..|log| - 1], i);
    }
  }

  /** A verifier over a static document never fetches and never loses its keys. */
  lemma StaticNeverFetches(document: Jwks, actions: seq<Action>)
    requires document.immutable && document.fetchedAt == 0
    ensures var s := Run(Init(Some(document)), actions);
            && s.cells.cache == Some(document)
            && forall i :: 0 <= i < |s.log| ==> !s.log[i].FetchStarted?
  {
    Reachable(Some(document), actions);
    InitHolds(Some(document));
    FetchedAtNeverDecreases(Init(Some(document)), actions);
    var log := Run(Init(Some(document)), actions).log;
    forall i | 0 <= i < |log| ensures !log[i].FetchStarted? {
      NoStartNoFetch(log, i);
    }
  }

  /** Every key set that `current_keys` returns is immutable or within grace when it is checked. */
  lemma ServedKeysAreSafe(cache: Option<Jwks>, actions: seq<Action>, i: nat)
    requires Startable(cache)
    requires i < |Run(Init(cache), actions).log| && Run(Init(cache), actions).log[i].Served?
    ensures var e := Run(Init(cache), actions).log[i]; e.keys.immutable || WithinGrace(e.keys, e.at)
  {
    Reachable(cache, actions);
    var log := Run(Init(cache), actions).log;
    assert Lawful(log[..i], log[i]);
  }

  /** A token is rejected for an unknown key id only against a static key set, or against one that
      the same call has fetched. */
  lemma UnknownKeyIsNeverBlamedOnStaleKeys(cache: Option<Jwks>, actions: seq<Action>, i: nat)
    requires Startable(cache)
    requires i < |Run(Init(cache), actions).log| && Run(Init(cache), actions).log[i].Decided?
    requires Run(Init(cache), actions).log[i].verdict == UnknownKeyId
    ensures var log := Run(Init(cache), actions).log;
            var keys := log[i].against;
            keys.Some? && (keys.value.immutable || FetchEnded(log[i].id, keys.value) in log[..i])
  {
    Reachable(cache, actions);
    var log := Run(Init(cache), actions).log;
    assert Lawful(log[..i], log[i]);
  }

  /** Each call forces at most one refresh, and from then on decides only against a set that it has
      fetched since; otherwise the answer is that the authority is unavailable. */
  lemma OneForcedRefreshPerCall(cache: Option<Jwks>, actions: seq<Action>, i: nat, j: nat)
    requires Startable(cache)
    requires i < j < |Run(Init(cache), actions).log|
    requires var log := Run(Init(cache), actions).log; log[i].Forced? && log[j].id == log[i].id
    ensures var log := Run(Init(cache), actions).log;
            && !log[j].Forced?
            && (log[j].Decided? ==>
                  || (log[j].verdict == AuthorityUnavailable && log[j].against == None)
                  || (log[j].against.Some? &&
                      exists k :: i < k < j && log[k] == FetchEnded(log[j].id, log[j].against.value)))
  {
    Reachable(cache, actions);
    var log := Run(Init(cache), actions).log;
    var id := log[j].id;
    assert Lawful(log[..j], log[j]);
    assert log[..j][i] == log[i] == Forced(id);
    if log[j].Decided? && log[j].against.Some? {
      var keys := log[j].against.value;
      var k :| 0 <= k < j && log[..j][k] == FetchEnded(id, keys) && WasForced(log[..j][..k], id);
      assert log[..j][..k] == log[..k];
      var f :| 0 <= f < k && log[..k][f] == Forced(id);
      ForcedOnce(log, i, f);
      ForcedOnce(log, f, i);
    }
  }

  lemma ForcedOnce(log: seq<Event>, a: nat, b: nat)
    requires LawfulLog(log) && a < |log| && b < |log| && log[a].Forced?
    ensures a < b ==> log[b] != log[a]
  {
    if a < b {
      assert log[..b][a] == log[a];
      assert Lawful(log[..b], log[b]);
    }
  }

  /** A call whose forced refresh brings no key set, because it is backed off or its fetch fails, never
      decides about the credential: the authority is unavailable. */
  lemma FailedForcedRefreshIsUndecided(cache: Option<Jwks>, actions: seq<Action>, i: nat, j: nat)
    requires Startable(cache)
    requires i < j < |Run(Init(cache), actions).log|
    requires var log := Run(Init(cache), actions).log;
             && log[i].Forced? && log[j].Decided? && log[j].id == log[i].id
             && forall k :: i < k < j ==> !(log[k].FetchEnded? && log[k].id == log[i].id)
    ensures var e := Run(Init(cache), actions).log[j]; e.verdict == AuthorityUnavailable && e.against == None
  {
    OneForcedRefreshPerCall(cache, actions, i, j);
  }

  /** The refused or failed refresh ends the call at once, and frees the mutex. */
  lemma FailedForcedRefreshEndsTheCall(s: Verifier, id: nat, a: Action)
    requires Inv(s) && id in s.callers && s.callers[id].goal.Bearer?
    requires s.callers[id].pc.CheckBackoff? || s.callers[id].pc.Fetching?
    requires s.callers[id].pc.force
    requires a == if s.callers[id].pc.Fetching? then FetchReply(id, None) else Advance(id)
    requires s.callers[id].pc.CheckBackoff? ==> BackedOff(s.cells.lastAttempt, s.now)
    ensures var t := Step(s, a);
            && t.log != [] && t.log[|t.log| - 1] == Decided(id, AuthorityUnavailable, None)
            && id !in t.callers && t.holder == None && t.cells == s.cells
  {
  }

  /** Warming reports success exactly when the key set is static or its own fetch has just succeeded. */
  lemma WarmOutcome(s: Verifier, a: Action, i: nat)
    requires Inv(s) && |s.log| <= i < |Step(s, a).log| && Step(s, a).log[i].Warmed?
    ensures Step(s, a).log[i].ok <==> Static(s) || (a.FetchReply? && a.fetched.Some?)
    ensures a.FetchReply? || a.Advance?
  {
    if a.FetchReply? || a.Advance? {
      assert CallerInv(s, a.id);
    }
  }

  /** Call `id` is about to judge a signature with keys that hold the key id it asked for. */
  predicate Judging(s: Verifier, id: nat, keys: Jwks) {
    && id in s.callers && s.callers[id].goal.Bearer? && s.callers[id].pc.Deciding?
    && s.callers[id].pc.keys == keys && s.callers[id].goal.kid in keys.keyIds
  }

  ghost predicate JudgedBy(s: Verifier, a: Action, e: Event) {
    && e.Decided? && e.against.Some? && Judging(s, e.id, e.against.value)
    && a == Signature(e.id, e.verdict == SignatureValid)
  }

  lemma AdvanceNeverJudges(s: Verifier, id: nat, i: nat)
    requires id in s.callers && |s.log| <= i < |StepAdvance(s, id).log| && StepAdvance(s, id).log[i].Decided?
    ensures StepAdvance(s, id).log[i].verdict !in {SignatureValid, SignatureInvalid}
  {
  }

  /** A step that reports a signature verdict is the check itself, on such a call. */
  lemma SignatureStep(s: Verifier, a: Action, i: nat)
    requires |s.log| <= i < |Step(s, a).log| && Step(s, a).log[i].Decided?
    requires Step(s, a).log[i].verdict in {SignatureValid, SignatureInvalid}
    ensures i == |s.log| && JudgedBy(s, a, Step(s, a).log[i])
  {
    if a.Advance? && a.id in s.callers {
      AdvanceNeverJudges(s, a.id, i);
    }
  }

  /** And the check on such a call reports exactly its outcome. */
  lemma CheckIsReported(s: Verifier, id: nat, valid: bool, keys: Jwks)
    requires Judging(s, id, keys)
    ensures Step(s, Signature(id, valid)).log ==
            s.log + [Decided(id, if valid then SignatureValid else SignatureInvalid, Some(keys))]
  {
  }

  /** In every run, each signature verdict was reported by a check with that outcome, on keys that hold
      the key id of the call. */
  lemma {:induction false} VerdictsComeFromChecks(s: Verifier, actions: seq<Action>, i: nat) returns (n: nat)
    requires |s.log| <= i < |Run(s, actions).log| && Run(s, actions).log[i].Decided?
    requires Run(s, actions).log[i].verdict in {SignatureValid, SignatureInvalid}
    ensures n < |actions|
    ensures var t := Run(s, actions[..n]); |t.log| == i && JudgedBy(t, actions[n], Run(s, actions).log[i])
    decreases |actions|
  {
    var next := Step(s, actions[0]);
    RunLogGrows(next, actions[1..]);
    if i < |next.log| {
      SignatureStep(s, actions[0], i);
      n := 0;
    } else {
      var m := VerdictsComeFromChecks(next, actions[1..], i);
      n := m + 1;
      assert actions[..n][1..] == actions[1..][..m] && actions[..n][0] == actions[0];
    }
  }

  lemma LogGrows(s: Verifier, a: Action)
    ensures s.log <= Step(s, a).log
  {
  }

  lemma {:induction false} RunLogGrows(s: Verifier, actions: seq<Action>)
    ensures s.log <= Run(s, actions).log
    decreases |actions|
  {
    if actions != [] {
      LogGrows(s, actions[0]);
      RunLogGrows(Step(s, actions[0]), actions[1..]);
    }
  }
}
