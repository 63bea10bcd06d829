/**
The Shared Auth key cache: what one call of `readiness`, `refresh_keys`, `current_keys` and
`verify_bearer` does at a fixed instant with nobody else in between. The fetch and the signature
check are oracles.
*/
module JwksCache {
  import opened Wrappers

  /** Nanoseconds of the monotonic clock. */
  type Time = nat

  const SECOND: nat := 1_000_000_000
  const JWKS_TTL: nat := 10 * 60 * SECOND
  const JWKS_GRACE: nat := 60 * 60 * SECOND
  const REFRESH_BACKOFF: nat := 30 * SECOND

  /** A validated key set, by its key ids. */
  datatype Jwks = Jwks(keyIds: set<string>, fetchedAt: Time, immutable: bool)

  datatype Readiness = Ready | Grace | Unavailable

  /** How `verify_bearer` ends, before the claims are looked at. */
  datatype Verdict = SignatureValid | SignatureInvalid | UnknownKeyId | AuthorityUnavailable

  /** The two cells of a verifier: the cache, and the last refresh attempt behind its mutex. */
  datatype Cells = Cells(cache: Option<Jwks>, lastAttempt: Option<Time>)

  /** The new cells, the keys if any, and whether a fetch was started. */
  datatype Refreshed = Refreshed(cells: Cells, keys: Option<Jwks>, fetched: bool)

  predicate Current(j: Jwks, now: Time) {
    j.immutable || now - j.fetchedAt <= JWKS_TTL
  }

  predicate WithinGrace(j: Jwks, now: Time) {
    now - j.fetchedAt <= JWKS_GRACE
  }

  predicate BackedOff(lastAttempt: Option<Time>, now: Time) {
    lastAttempt.Some? && now - lastAttempt.value < REFRESH_BACKOFF
  }

  function Filter(j: Option<Jwks>, now: Time): Option<Jwks> {
    if j.Some? && WithinGrace(j.value, now) then j else None
  }

  function ReadinessOf(cache: Option<Jwks>, now: Time): Readiness {
    match cache
    case None => Unavailable
    case Some(j) => if Current(j, now) then Ready else if WithinGrace(j, now) then Grace else Unavailable
  }

  /** `fetch` is what a fetch would bring: a validated set of key ids, or nothing. */
  function RefreshKeys(c: Cells, force: bool, now: Time, fetch: Option<set<string>>): Refreshed {
    if !force && c.cache.Some? && Current(c.cache.value, now) then Refreshed(c, c.cache, false)
    else if c.cache.Some? && c.cache.value.immutable then Refreshed(c, c.cache, false)
    else if BackedOff(c.lastAttempt, now) then Refreshed(c, if force then None else Filter(c.cache, now), false)
    else
      match fetch
      case None => Refreshed(Cells(c.cache, Some(now)), None, true)
      case Some(keyIds) =>
        var renewed := Some(Jwks(keyIds, now, false));
        Refreshed(Cells(renewed, Some(now)), renewed, true)
  }

  function CurrentKeys(c: Cells, now: Time, fetch: Option<set<string>>): Refreshed {
    if c.cache.Some? && Current(c.cache.value, now) then Refreshed(c, c.cache, false)
    else
      var r := RefreshKeys(c, false, now, fetch);
      if r.keys.Some? then r else r.(keys := Filter(c.cache, now))
  }

  /** `valid` is the outcome of the signature check once the key is found. */
  function Check(valid: bool): Verdict {
    if valid then SignatureValid else SignatureInvalid
  }

  function VerifyBearer(c: Cells, kid: string, now: Time, fetch: Option<set<string>>, valid: bool): (Cells, Verdict) {
    var current := CurrentKeys(c, now, fetch);
    if current.keys.None? then (current.cells, AuthorityUnavailable)
    else if kid in current.keys.value.keyIds then (current.cells, Check(valid))
    else if current.keys.value.immutable then (current.cells, UnknownKeyId)
    else
      var forced := RefreshKeys(current.cells, true, now, fetch);
      if forced.keys.None? then (forced.cells, AuthorityUnavailable)
      else (forced.cells, if kid in forced.keys.value.keyIds then Check(valid) else UnknownKeyId)
  }

  // ----- readiness agrees with the key path

  /** Ready: keys are there without a fetch, whatever the back-off state. */
  lemma ReadyIff(cache: Option<Jwks>, now: Time)
    ensures ReadinessOf(cache, now) == Ready <==>
            forall last, fetch :: var r := CurrentKeys(Cells(cache, last), now, fetch); r.keys.Some? && !r.fetched
  {
    if ReadinessOf(cache, now) != Ready {
      var r := CurrentKeys(Cells(cache, None), now, None);
      assert r.fetched;
    }
  }

  /** Ready or Grace: keys are there even if every fetch fails, and they are still safe to use. */
  lemma UsableIff(cache: Option<Jwks>, now: Time)
    ensures ReadinessOf(cache, now) != Unavailable <==>
            forall last, fetch :: CurrentKeys(Cells(cache, last), now, fetch).keys.Some?
    ensures forall last, fetch ::
              var r := CurrentKeys(Cells(cache, last), now, fetch);
              r.keys.Some? ==> r.keys.value.immutable || WithinGrace(r.keys.value, now)
  {
    if ReadinessOf(cache, now) == Unavailable {
      assert CurrentKeys(Cells(cache, None), now, None).keys.None?;
    }
  }

  predicate OnlyByFetching(c: Cells, now: Time, fetch: Option<set<string>>) {
    var r := CurrentKeys(c, now, fetch);
    r.keys.Some? <==> r.fetched && fetch.Some? && r.keys == Some(Jwks(fetch.value, now, false))
  }

  /** Unavailable: keys can only come from a fetch that succeeds now. */
  lemma UnavailableIff(cache: Option<Jwks>, now: Time)
    ensures ReadinessOf(cache, now) == Unavailable <==>
            forall last, fetch :: OnlyByFetching(Cells(cache, last), now, fetch)
  {
    if ReadinessOf(cache, now) != Unavailable {
      assert !OnlyByFetching(Cells(cache, None), now, None);
    }
  }

  /** An unknown key id is held against the credential exactly when a static key set lacks it, or
      when a current cached set lacks it, no fetch has been attempted lately, and the set fetched now
      lacks it too. In particular a call that had to fetch first, as on a cold start, never does: its
      own fetch backs the forced refresh off, and the authority is reported unavailable. */
  lemma UnknownKeyIdIff(c: Cells, kid: string, now: Time, fetch: Option<set<string>>, valid: bool)
    ensures VerifyBearer(c, kid, now, fetch, valid).1 == UnknownKeyId <==>
            && c.cache.Some? && kid !in c.cache.value.keyIds
            && (c.cache.value.immutable
                || (Current(c.cache.value, now) && !BackedOff(c.lastAttempt, now)
                    && fetch.Some? && kid !in fetch.value))
  {
  }

  /** Some key set that the call gets to see holds the key id. Either the cache does, and is static, at
      most ten minutes old, or at most an hour old while no fetch can replace it; or a fetch does, started
      because there is no such cache or because the cache lacks the id. */
  ghost predicate KeyAtHand(c: Cells, kid: string, now: Time, fetch: Option<set<string>>) {
    var mayFetch := c.lastAttempt.None? || now - c.lastAttempt.value >= 30_000_000_000;
    || (c.cache.Some? && kid in c.cache.value.keyIds &&
        (|| c.cache.value.immutable
         || now - c.cache.value.fetchedAt <= 600_000_000_000
         || (now - c.cache.value.fetchedAt <= 3_600_000_000_000 && (!mayFetch || fetch.None?))))
    || (mayFetch && fetch.Some? && kid in fetch.value &&
        (|| c.cache.None?
         || (!c.cache.value.immutable &&
             (now - c.cache.value.fetchedAt > 600_000_000_000 || kid !in c.cache.value.keyIds))))
  }

  /** A signature is judged exactly when the key is at hand, and the verdict is the check's. */
  lemma SignatureVerdictIff(c: Cells, kid: string, now: Time, fetch: Option<set<string>>, valid: bool)
    ensures var verdict := VerifyBearer(c, kid, now, fetch, valid).1;
            && (verdict == SignatureValid <==> valid && KeyAtHand(c, kid, now, fetch))
            && (verdict == SignatureInvalid <==> !valid && KeyAtHand(c, kid, now, fetch))
  {
    var current := CurrentKeys(c, now, fetch);
    if current.fetched {
      assert BackedOff(current.cells.lastAttempt, now);
    }
  }

  /** Readiness by the age of the cache: ten minutes, one hour. */
  lemma ReadinessByAge(cache: Option<Jwks>, now: Time)
    ensures ReadinessOf(cache, now) == Ready <==>
            cache.Some? && (cache.value.immutable || now - cache.value.fetchedAt <= 600_000_000_000)
    ensures ReadinessOf(cache, now) == Grace <==>
            cache.Some? && !cache.value.immutable
            && 600_000_000_000 < now - cache.value.fetchedAt <= 3_600_000_000_000
  {
  }

  /** A fetch is started exactly when the cache is not current and the last attempt is at least thirty
      seconds ago; it is remembered, and only its success replaces the cache. */
  lemma FetchIff(c: Cells, now: Time, fetch: Option<set<string>>)
    ensures var r := CurrentKeys(c, now, fetch);
            && (r.fetched <==>
                  && (c.cache.None? || (!c.cache.value.immutable && now - c.cache.value.fetchedAt > 600_000_000_000))
                  && (c.lastAttempt.None? || now - c.lastAttempt.value >= 30_000_000_000))
            && r.cells.lastAttempt == (if r.fetched then Some(now) else c.lastAttempt)
            && r.cells.cache == if r.fetched && fetch.Some? then Some(Jwks(fetch.value, now, false)) else c.cache
  {
  }

  /** The same fetch outcome, two verdicts: on a cold start the set that lacks "k" leaves the call
      undecided; with a cached set that was still current it is held against the credential. */
  lemma ColdStartStaysUndecided()
    ensures VerifyBearer(Cells(None, None), "k", 0, Some({"other"}), true).1 == AuthorityUnavailable
    ensures VerifyBearer(Cells(Some(Jwks({"other"}, 0, false)), None), "k", 0, Some({"other"}), true).1 == UnknownKeyId
  {
  }
}
