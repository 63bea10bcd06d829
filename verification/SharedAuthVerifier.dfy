/**
`SharedAuthVerifier` with its two cells as fields, and the proof that an uncontended call of the
concurrent machine decides exactly what the sequential methods compute.
*/
module SharedAuthVerifiers {
  import opened Wrappers
  import opened JwksCache
  import opened JwksMachine

  class SharedAuthVerifier {
    var cache: Option<Jwks>
    var refresh: Option<Time>

    constructor (cache: Option<Jwks>)
      ensures Model() == Init(cache).cells
    {
      this.cache, refresh := cache, None;
    }

    function Model(): Cells
      reads this
    {
      Cells(cache, refresh)
    }

    method ReadinessNow(now: Time) returns (r: Readiness)
      ensures r == ReadinessOf(cache, now)
    {
      if cache.None? {
        return Unavailable;
      }
      if cache.value.immutable || now - cache.value.fetchedAt <= JWKS_TTL {
        r := Ready;
      } else if now - cache.value.fetchedAt <= JWKS_GRACE {
        r := Grace;
      } else {
        r := Unavailable;
      }
    }

    /** `fetch` is what a fetch would bring; it is not looked at when none is started. */
    method Refresh(force: bool, now: Time, fetch: Option<set<string>>) returns (keys: Option<Jwks>)
      modifies this
      ensures var r := RefreshKeys(old(Model()), force, now, fetch); Model() == r.cells && keys == r.keys
    {
      if !force {
        if cache.Some? && (cache.value.immutable || now - cache.value.fetchedAt <= JWKS_TTL) {
          return cache;
        }
      }
      if cache.Some? && cache.value.immutable {
        return cache;
      }
      if refresh.Some? && now - refresh.value < REFRESH_BACKOFF {
        if force {
          return None;
        }
        return if cache.Some? && now - cache.value.fetchedAt <= JWKS_GRACE then cache else None;
      }
      refresh := Some(now);
      if fetch.None? {
        return None;
      }
      cache := Some(Jwks(fetch.value, now, false));
      keys := cache;
    }

    method Keys(now: Time, fetch: Option<set<string>>) returns (keys: Option<Jwks>)
      modifies this
      ensures var r := CurrentKeys(old(Model()), now, fetch); Model() == r.cells && keys == r.keys
    {
      var cached := cache;
      if cached.Some? && (cached.value.immutable || now - cached.value.fetchedAt <= JWKS_TTL) {
        return cached;
      }
      keys := Refresh(false, now, fetch);
      if keys.None? {
        keys := if cached.Some? && now - cached.value.fetchedAt <= JWKS_GRACE then cached else None;
      }
    }

    method Verify(kid: string, now: Time, fetch: Option<set<string>>, valid: bool) returns (verdict: Verdict)
      modifies this
      ensures (Model(), verdict) == VerifyBearer(old(Model()), kid, now, fetch, valid)
    {
      var current := Keys(now, fetch);
      if current.None? {
        return AuthorityUnavailable;
      }
      if kid in current.value.keyIds {
        return Check(valid);
      }
      if current.value.immutable {
        return UnknownKeyId;
      }
      var refreshed := Refresh(true, now, fetch);
      if refreshed.None? {
        return AuthorityUnavailable;
      }
      verdict := if kid in refreshed.value.keyIds then Check(valid) else UnknownKeyId;
    }
  }

  // ----- an uncontended call of the machine

  /** A bearer call that nobody keeps from the mutex. */
  predicate Uncontended(s: Verifier, id: nat) {
    && id in s.callers && s.callers[id].goal.Bearer?
    && s.holder == if Locked(s.callers[id].pc) then Some(id) else None
  }

  function Rank(pc: Pc): nat {
    match pc
    case Begin => 15
    case Waiting(force, _) => if force then 7 else 14
    case CheckCurrent(_) => 13
    case CheckImmutable(force, _) => if force then 6 else 12
    case CheckBackoff(force, _) => if force then 5 else 11
    case ReadGrace(_) => 10
    case Fetching(force, _) => if force then 4 else 10
    case UseStale(_) => 9
    case Deciding(_, forced) => if forced then 3 else 8
  }

  function Next(s: Verifier, id: nat, fetch: Option<set<string>>, valid: bool): Action
    requires Uncontended(s, id)
  {
    var c := s.callers[id];
    if c.pc.Fetching? then FetchReply(id, fetch)
    else if c.pc.Deciding? && c.goal.kid in c.pc.keys.keyIds then Signature(id, valid)
    else Advance(id)
  }

  lemma NextProgresses(s: Verifier, id: nat, fetch: Option<set<string>>, valid: bool)
    requires Uncontended(s, id)
    ensures var t := Step(s, Next(s, id, fetch, valid));
            id in t.callers ==> Uncontended(t, id) && Rank(t.callers[id].pc) < Rank(s.callers[id].pc)
  {
  }

  /** Runs call `id` to its end, with no time passing and no other call moving. */
  function Alone(s: Verifier, id: nat, fetch: Option<set<string>>, valid: bool): Verifier
    requires id in s.callers ==> Uncontended(s, id)
    decreases if id in s.callers then 1 + Rank(s.callers[id].pc) else 0
  {
    if id !in s.callers then s
    else
      NextProgresses(s, id, fetch, valid);
      Alone(Step(s, Next(s, id, fetch, valid)), id, fetch, valid)
  }

  /** It is a run of the machine. */
  lemma {:induction false} AloneIsARun(s: Verifier, id: nat, fetch: Option<set<string>>, valid: bool)
    returns (actions: seq<Action>)
    requires id in s.callers ==> Uncontended(s, id)
    ensures Run(s, actions) == Alone(s, id, fetch, valid)
    decreases if id in s.callers then 1 + Rank(s.callers[id].pc) else 0
  {
    if id !in s.callers {
      actions := [];
    } else {
      var a := Next(s, id, fetch, valid);
      NextProgresses(s, id, fetch, valid);
      var rest := AloneIsARun(Step(s, a), id, fetch, valid);
      actions := [a] + rest;
      assert actions[1..] == rest;
    }
  }

  ghost predicate EndsWith(s: Verifier, id: nat, outcome: (Cells, Verdict), t: Verifier) {
    && t.cells == outcome.0 && t.now == s.now && t.holder == None
    && t.callers == s.callers - {id}
    && t.log != [] && t.log[|t.log| - 1].Decided? && t.log[|t.log| - 1].id == id
    && t.log[|t.log| - 1].verdict == outcome.1
  }

  lemma AloneDecides(s: Verifier, id: nat, fetch: Option<set<string>>, valid: bool)
    requires Uncontended(s, id) && s.callers[id].pc.Deciding? && s.callers[id].pc.forced
    ensures var c := s.callers[id];
            EndsWith(s, id, (s.cells, if c.goal.kid in c.pc.keys.keyIds then Check(valid) else UnknownKeyId),
                     Alone(s, id, fetch, valid))
  {
  }

  /** The verdict on what a forced refresh returned. */
  function Ruled(r: Refreshed, kid: string, valid: bool): (Cells, Verdict) {
    (r.cells, if r.keys.None? then AuthorityUnavailable
              else if kid in r.keys.value.keyIds then Check(valid) else UnknownKeyId)
  }

  lemma AloneForcedFetch(s: Verifier, id: nat, fetch: Option<set<string>>, valid: bool)
    requires Uncontended(s, id) && s.callers[id].pc == Fetching(true, None)
    ensures var keys := if fetch.Some? then Some(Jwks(fetch.value, s.now, false)) else None;
            var cells := if fetch.Some? then s.cells.(cache := keys) else s.cells;
            EndsWith(s, id, Ruled(Refreshed(cells, keys, true), s.callers[id].goal.kid, valid),
                     Alone(s, id, fetch, valid))
  {
    var s1 := Step(s, FetchReply(id, fetch));
    assert Alone(s, id, fetch, valid) == Alone(s1, id, fetch, valid);
    if fetch.Some? {
      AloneDecides(s1, id, fetch, valid);
      assert s1.callers - {id} == s.callers - {id};
    } else {
      assert Alone(s1, id, fetch, valid) == s1;
    }
  }

  lemma AloneBackoff(s: Verifier, id: nat, fetch: Option<set<string>>, valid: bool)
    requires Uncontended(s, id) && s.callers[id].pc == CheckBackoff(true, None)
    requires s.cells.cache.Some? ==> !s.cells.cache.value.immutable
    ensures EndsWith(s, id, Ruled(RefreshKeys(s.cells, true, s.now, fetch), s.callers[id].goal.kid, valid),
                     Alone(s, id, fetch, valid))
  {
    var s1 := Step(s, Advance(id));
    assert Alone(s, id, fetch, valid) == Alone(s1, id, fetch, valid);
    if !BackedOff(s.cells.lastAttempt, s.now) {
      AloneForcedFetch(s1, id, fetch, valid);
      assert s1.callers - {id} == s.callers - {id};
    } else {
      assert Alone(s1, id, fetch, valid) == s1;
    }
  }

  lemma AloneForces(s: Verifier, id: nat, fetch: Option<set<string>>, valid: bool)
    requires Uncontended(s, id) && s.callers[id].pc == Waiting(true, None)
    ensures EndsWith(s, id, Ruled(RefreshKeys(s.cells, true, s.now, fetch), s.callers[id].goal.kid, valid),
                     Alone(s, id, fetch, valid))
  {
    var s1 := Step(s, Advance(id));
    var s2 := Step(s1, Advance(id));
    assert s1.callers[id].pc == CheckImmutable(true, None);
    assert s2.callers - {id} == s.callers - {id};
    if s.cells.cache.Some? && s.cells.cache.value.immutable {
      AloneDecides(s2, id, fetch, valid);
    } else {
      AloneBackoff(s2, id, fetch, valid);
    }
  }

  /** What follows once `current_keys` has returned `keys`. */
  function Afterwards(c: Cells, kid: string, keys: Jwks, now: Time, fetch: Option<set<string>>, valid: bool)
    : (Cells, Verdict)
  {
    if kid in keys.keyIds then (c, Check(valid))
    else if keys.immutable then (c, UnknownKeyId)
    else Ruled(RefreshKeys(c, true, now, fetch), kid, valid)
  }

  lemma AloneServed(s: Verifier, id: nat, fetch: Option<set<string>>, valid: bool)
    requires Uncontended(s, id) && s.callers[id].pc.Deciding? && !s.callers[id].pc.forced
    ensures var c := s.callers[id];
            EndsWith(s, id, Afterwards(s.cells, c.goal.kid, c.pc.keys, s.now, fetch, valid), Alone(s, id, fetch, valid))
  {
    var c := s.callers[id];
    if c.goal.kid !in c.pc.keys.keyIds && !c.pc.keys.immutable {
      var s1 := Step(s, Advance(id));
      AloneForces(s1, id, fetch, valid);
      assert s1.callers - {id} == s.callers - {id};
    }
  }

  function Concluded(r: Refreshed, kid: string, now: Time, fetch: Option<set<string>>, valid: bool): (Cells, Verdict) {
    if r.keys.None? then (r.cells, AuthorityUnavailable)
    else Afterwards(r.cells, kid, r.keys.value, now, fetch, valid)
  }

  lemma AloneStale(s: Verifier, id: nat, fetch: Option<set<string>>, valid: bool)
    requires Uncontended(s, id) && s.callers[id].pc.UseStale?
    ensures var c := s.callers[id];
            EndsWith(s, id,
                     Concluded(Refreshed(s.cells, Filter(c.pc.stale, s.now), false), c.goal.kid, s.now, fetch, valid),
                     Alone(s, id, fetch, valid))
  {
    var s1 := Step(s, Advance(id));
    if id in s1.callers {
      AloneServed(s1, id, fetch, valid);
      assert s1.callers - {id} == s.callers - {id};
    }
  }

  lemma AloneFetches(s: Verifier, id: nat, fetch: Option<set<string>>, valid: bool)
    requires Uncontended(s, id) && s.callers[id].pc.Fetching? && !s.callers[id].pc.force
    ensures var c := s.callers[id];
            var keys := if fetch.Some? then Some(Jwks(fetch.value, s.now, false)) else None;
            var cells := if fetch.Some? then s.cells.(cache := keys) else s.cells;
            EndsWith(s, id,
              Concluded(Refreshed(cells, if keys.Some? then keys else Filter(c.pc.stale, s.now), true),
                        c.goal.kid, s.now, fetch, valid),
              Alone(s, id, fetch, valid))
  {
    var s1 := Step(s, FetchReply(id, fetch));
    assert s1.callers - {id} == s.callers - {id};
    if fetch.Some? {
      AloneServed(s1, id, fetch, valid);
    } else {
      AloneStale(s1, id, fetch, valid);
    }
  }

  lemma AloneReadsGrace(s: Verifier, id: nat, fetch: Option<set<string>>, valid: bool)
    requires Uncontended(s, id) && s.callers[id].pc == ReadGrace(s.cells.cache)
    ensures EndsWith(s, id,
              Concluded(Refreshed(s.cells, Filter(s.cells.cache, s.now), false), s.callers[id].goal.kid, s.now,
                        fetch, valid),
              Alone(s, id, fetch, valid))
  {
    var s1 := Step(s, Advance(id));
    assert s1.callers - {id} == s.callers - {id};
    if s1.callers[id].pc.Deciding? {
      AloneServed(s1, id, fetch, valid);
    } else {
      AloneStale(s1, id, fetch, valid);
    }
  }

  lemma AloneRefreshes(s: Verifier, id: nat, fetch: Option<set<string>>, valid: bool)
    requires Uncontended(s, id) && s.callers[id].pc == CheckImmutable(false, s.cells.cache)
    requires s.cells.cache.Some? ==> !Current(s.cells.cache.value, s.now)
    ensures EndsWith(s, id, Concluded(CurrentKeys(s.cells, s.now, fetch), s.callers[id].goal.kid, s.now, fetch, valid),
                     Alone(s, id, fetch, valid))
  {
    var s1 := Step(s, Advance(id));
    assert s1.callers[id].pc == CheckBackoff(false, s.cells.cache);
    var s2 := Step(s1, Advance(id));
    assert s2.callers - {id} == s.callers - {id};
    if BackedOff(s.cells.lastAttempt, s.now) {
      AloneReadsGrace(s2, id, fetch, valid);
    } else {
      AloneFetches(s2, id, fetch, valid);
    }
  }

  lemma AloneWaits(s: Verifier, id: nat, fetch: Option<set<string>>, valid: bool)
    requires Uncontended(s, id) && s.callers[id].pc == Waiting(false, s.cells.cache)
    requires s.cells.cache.Some? ==> !Current(s.cells.cache.value, s.now)
    ensures EndsWith(s, id, Concluded(CurrentKeys(s.cells, s.now, fetch), s.callers[id].goal.kid, s.now, fetch, valid),
                     Alone(s, id, fetch, valid))
  {
    var s1 := Step(s, Advance(id));
    assert s1.callers[id].pc == CheckCurrent(s.cells.cache);
    var s2 := Step(s1, Advance(id));
    assert s2.callers - {id} == s.callers - {id};
    AloneRefreshes(s2, id, fetch, valid);
  }

  /** The machine refines the sequential methods: a call that starts when the mutex is free and runs
      undisturbed leaves the cells and reaches the verdict of `VerifyBearer`. */
  lemma AloneVerifies(s: Verifier, id: nat, fetch: Option<set<string>>, valid: bool)
    requires Uncontended(s, id) && s.callers[id].pc.Begin?
    ensures EndsWith(s, id, VerifyBearer(s.cells, s.callers[id].goal.kid, s.now, fetch, valid),
                     Alone(s, id, fetch, valid))
  {
    var s1 := Step(s, Advance(id));
    assert s1.callers - {id} == s.callers - {id};
    if s1.callers[id].pc.Deciding? {
      AloneServed(s1, id, fetch, valid);
    } else {
      AloneWaits(s1, id, fetch, valid);
    }
  }
}
