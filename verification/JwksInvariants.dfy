/**
What every run of concurrent calls keeps: one holder of the refresh mutex, spaced fetches, keys that
are immutable or within grace when served, and decisions that are never blamed on stale keys.
*/
module JwksInvariants {
  import opened Wrappers
  import opened JwksCache
  import opened JwksMachine

  // ----- reading the log

  function LastStart(log: seq<Event>): Option<Time> {
    if log == [] then None
    else if log[|log| - 1].FetchStarted? then Some(log[|log| - 1].at)
    else LastStart(log[..|log| - 1])
  }

  ghost predicate WasForced(log: seq<Event>, id: nat) {
    Forced(id) in log
  }

  /** Call `id` itself fetched exactly these keys. */
  ghost predicate OwnFetch(log: seq<Event>, id: nat, keys: Jwks) {
    FetchEnded(id, keys) in log
  }

  /** ... and did so after its key id had been found unknown. */
  ghost predicate ForcedFetch(log: seq<Event>, id: nat, keys: Jwks) {
    exists k :: 0 <= k < |log| && log[k] == FetchEnded(id, keys) && WasForced(log[..k], id)
  }

  ghost predicate Lawful(past: seq<Event>, e: Event) {
    && (e.FetchStarted? ==> LastStart(past).None? || e.at - LastStart(past).value >= REFRESH_BACKOFF)
    && (e.Served? ==> e.keys.immutable || WithinGrace(e.keys, e.at))
    && (e.Forced? ==> !WasForced(past, e.id))
    && (e.Decided? ==>
          && (e.verdict == AuthorityUnavailable <==> e.against.None?)
          && (e.verdict == UnknownKeyId ==> e.against.value.immutable || OwnFetch(past, e.id, e.against.value))
          && (WasForced(past, e.id) && e.against.Some? ==> ForcedFetch(past, e.id, e.against.value)))
  }

  ghost predicate LawfulLog(log: seq<Event>) {
    forall i :: 0 <= i < |log| ==> Lawful(log[..i], log[i])
  }

  // ----- the invariant

  /** The verifier was built from a static document. */
  predicate Static(s: Verifier) {
    s.cells.cache.Some? && s.cells.cache.value.immutable
  }

  /** A key set that some call holds on to. */
  predicate Plausible(s: Verifier, keys: Jwks) {
    keys.fetchedAt <= s.now && (keys.immutable <==> Static(s))
  }

  /** Inside the refresh that an unknown key id forces. */
  predicate InForced(pc: Pc) {
    || (pc.Waiting? && pc.force) || (pc.CheckImmutable? && pc.force)
    || (pc.CheckBackoff? && pc.force) || (pc.Fetching? && pc.force)
  }

  predicate HasSnapshot(pc: Pc) {
    || pc.Waiting? || pc.CheckCurrent? || pc.CheckImmutable? || pc.CheckBackoff?
    || pc.ReadGrace? || pc.Fetching? || pc.UseStale?
  }

  ghost predicate CallerInv(s: Verifier, id: nat) {
    id in s.callers ==>
      var c := s.callers[id];
      && id < s.arrived
      && (HasSnapshot(c.pc) && c.pc.stale.Some? ==> Plausible(s, c.pc.stale.value))
      && (c.pc.Deciding? ==> Plausible(s, c.pc.keys))
      && (if c.goal.Warm? then c.pc.Begin? || InForced(c.pc)
          else if InForced(c.pc) then WasForced(s.log, id) && !Static(s)
          else if c.pc.Deciding? && c.pc.forced then WasForced(s.log, id) && ForcedFetch(s.log, id, c.pc.keys)
          else !WasForced(s.log, id))
      && (Static(s) ==> c.pc.Begin? || InForced(c.pc) || c.pc.Deciding?)
      && (Static(s) ==> !c.pc.CheckBackoff? && !c.pc.Fetching?)
  }

  ghost predicate LockInv(s: Verifier) {
    && (s.holder.Some? ==> s.holder.value in s.callers)
    && forall id :: id in s.callers ==> (Locked(s.callers[id].pc) <==> s.holder == Some(id))
  }

  ghost predicate CellsInv(s: Verifier) {
    && s.cells.lastAttempt == LastStart(s.log)
    && (s.cells.lastAttempt.Some? ==> s.cells.lastAttempt.value <= s.now)
    && (s.cells.cache.Some? ==> s.cells.cache.value.fetchedAt <= s.now)
    && (Static(s) ==> LastStart(s.log).None?)
    && forall i :: 0 <= i < |s.log| ==> s.log[i].id < s.arrived
  }

  ghost predicate Inv(s: Verifier) {
    LockInv(s) && CellsInv(s) && (forall id :: CallerInv(s, id)) && LawfulLog(s.log)
  }

  // ----- appending to the log

  lemma AppendLawful(log: seq<Event>, e: Event)
    requires LawfulLog(log) && Lawful(log, e)
    ensures LawfulLog(log + [e])
  {
    var longer := log + [e];
    forall i | 0 <= i < |longer| ensures Lawful(longer[..i], longer[i]) {
      assert longer[..i] == log[..i];
      assert log[..|log|] == log;
    }
  }

  lemma LastStartAfter(log: seq<Event>, e: Event)
    ensures LastStart(log + [e]) == if e.FetchStarted? then Some(e.at) else LastStart(log)
  {
    assert (log + [e])[..|log|] == log;
  }

  lemma ForcedFetchPersists(log: seq<Event>, e: Event)
    ensures forall id, keys :: ForcedFetch(log, id, keys) ==> ForcedFetch(log + [e], id, keys)
  {
    forall id, keys | ForcedFetch(log, id, keys) ensures ForcedFetch(log + [e], id, keys) {
      var k :| 0 <= k < |log| && log[k] == FetchEnded(id, keys) && WasForced(log[..k], id);
      assert (log + [e])[k] == log[k] && (log + [e])[..k] == log[..k];
    }
  }

  lemma FetchAfterForce(log: seq<Event>, id: nat, keys: Jwks)
    requires WasForced(log, id)
    ensures ForcedFetch(log + [FetchEnded(id, keys)], id, keys)
  {
    var longer := log + [FetchEnded(id, keys)];
    assert longer[|log|] == FetchEnded(id, keys) && longer[..|log|] == log;
  }

  lemma SaysNothingElse(log: seq<Event>, e: Event, id: nat)
    requires !e.FetchEnded?
    ensures WasForced(log + [e], id) <==> WasForced(log, id) || e == Forced(id)
    ensures forall keys :: OwnFetch(log + [e], id, keys) <==> OwnFetch(log, id, keys)
    ensures forall keys :: ForcedFetch(log, id, keys) ==> ForcedFetch(log + [e], id, keys)
  {
    ForcedFetchPersists(log, e);
  }

  /** An event of call `id` that neither starts a fetch nor forces a refresh, in a state that is
      otherwise fine. */
  lemma Record(s: Verifier, e: Event)
    requires LockInv(s) && CellsInv(s) && (forall id :: CallerInv(s, id)) && LawfulLog(s.log)
    requires !e.FetchStarted? && !e.Forced? && Lawful(s.log, e) && e.id < s.arrived
    ensures Inv(s.(log := s.log + [e]))
  {
    AppendLawful(s.log, e);
    LastStartAfter(s.log, e);
    ForcedFetchPersists(s.log, e);
    var t := s.(log := s.log + [e]);
    forall id ensures CallerInv(t, id) { assert CallerInv(s, id); }
  }

  lemma LeaveKeeps(s: Verifier, id: nat)
    requires Inv(s) && id in s.callers
    ensures Inv(Leave(s, id))
  {
    var t := Leave(s, id);
    forall other ensures CallerInv(t, other) { assert CallerInv(s, other); }
  }

  /** A call moves on without touching the cells, the log or the mutex. */
  lemma GotoKeeps(s: Verifier, id: nat, pc: Pc)
    requires Inv(s) && id in s.callers && Locked(pc) == Locked(s.callers[id].pc)
    requires CallerInv(Goto(s, id, pc), id)
    ensures Inv(Goto(s, id, pc))
  {
    var t := Goto(s, id, pc);
    forall other ensures CallerInv(t, other) { assert CallerInv(s, other); }
  }

  lemma ReleaseKeeps(s: Verifier, id: nat, pc: Pc)
    requires Inv(s) && id in s.callers && Locked(s.callers[id].pc) && !Locked(pc)
    requires CallerInv(Goto(s, id, pc), id)
    ensures Inv(Goto(s, id, pc).(holder := None))
  {
    var t := Goto(s, id, pc).(holder := None);
    forall other ensures CallerInv(t, other) { assert CallerInv(s, other); assert CallerInv(Goto(s, id, pc), id); }
  }

  lemma DecideKeeps(s: Verifier, id: nat, verdict: Verdict, against: Option<Jwks>)
    requires Inv(s) && id in s.callers && Lawful(s.log, Decided(id, verdict, against))
    ensures Inv(Decide(s, id, verdict, against))
  {
    assert CallerInv(s, id);
    LeaveKeeps(s, id);
    Record(Leave(s, id), Decided(id, verdict, against));
  }

  // ----- steps

  lemma ServeKeeps(s: Verifier, id: nat, keys: Jwks)
    requires Inv(s) && id in s.callers && s.callers[id].goal.Bearer? && !WasForced(s.log, id)
    requires s.callers[id].pc.Begin? || s.callers[id].pc.UseStale?
    requires Plausible(s, keys) && (keys.immutable || WithinGrace(keys, s.now))
    ensures Inv(Serve(s, id, keys))
  {
    assert CallerInv(s, id);
    GotoKeeps(s, id, Deciding(keys, false));
    Record(Goto(s, id, Deciding(keys, false)), Served(id, keys, s.now));
  }

  lemma RefreshReturnsKeeps(s: Verifier, id: nat, force: bool, stale: Option<Jwks>, keys: Option<Jwks>)
    requires Inv(s) && id in s.callers && Locked(s.callers[id].pc)
    requires force == InForced(s.callers[id].pc)
    requires stale.Some? ==> Plausible(s, stale.value)
    requires keys.Some? ==> Plausible(s, keys.value) && (keys.value.immutable || WithinGrace(keys.value, s.now))
    requires force && keys.Some? && s.callers[id].goal.Bearer? ==> ForcedFetch(s.log, id, keys.value)
    requires Static(s) ==> keys.Some?
    ensures Inv(RefreshReturns(s, id, force, stale, keys))
  {
    assert CallerInv(s, id);
    if s.callers[id].goal.Warm? {
      LeaveKeeps(s, id);
      Record(Leave(s, id), Warmed(id, keys.Some?));
    } else if force {
      if keys.Some? {
        ReleaseKeeps(s, id, Deciding(keys.value, true));
      } else {
        DecideKeeps(s, id, AuthorityUnavailable, None);
      }
    } else if keys.Some? {
      ReleaseKeeps(s, id, Deciding(keys.value, false));
      Record(Goto(s, id, Deciding(keys.value, false)).(holder := None), Served(id, keys.value, s.now));
    } else {
      ReleaseKeeps(s, id, UseStale(stale));
    }
  }

  lemma NoteStart(s: Verifier, id: nat)
    requires Inv(s) && id < s.arrived && !Static(s) && !BackedOff(s.cells.lastAttempt, s.now)
    ensures Inv(s.(cells := s.cells.(lastAttempt := Some(s.now)), log := s.log + [FetchStarted(id, s.now)]))
  {
    var e := FetchStarted(id, s.now);
    var t := s.(cells := s.cells.(lastAttempt := Some(s.now)), log := s.log + [e]);
    assert LawfulLog(t.log) by {
      AppendLawful(s.log, e);
    }
    assert CellsInv(t) by {
      LastStartAfter(s.log, e);
    }
    forall other ensures CallerInv(t, other) {
      assert CallerInv(s, other);
      SaysNothingElse(s.log, e, other);
    }
  }

  lemma StartFetchKeeps(s: Verifier, id: nat)
    requires Inv(s) && id in s.callers && s.callers[id].pc.CheckBackoff? && !BackedOff(s.cells.lastAttempt, s.now)
    ensures Inv(StepAdvance(s, id))
  {
    var pc := s.callers[id].pc;
    assert CallerInv(s, id);
    GotoKeeps(s, id, Fetching(pc.force, pc.stale));
    NoteStart(Goto(s, id, Fetching(pc.force, pc.stale)), id);
  }

  lemma ForceKeeps(s: Verifier, id: nat)
    requires Inv(s) && id in s.callers && s.callers[id].pc.Deciding? && s.callers[id].goal.Bearer?
    requires !s.callers[id].pc.forced && !s.callers[id].pc.keys.immutable
    ensures Inv(Goto(s, id, Waiting(true, None)).(log := s.log + [Forced(id)]))
  {
    var e, t := Forced(id), Goto(s, id, Waiting(true, None)).(log := s.log + [Forced(id)]);
    assert CallerInv(s, id);
    assert LawfulLog(t.log) by {
      AppendLawful(s.log, e);
    }
    assert CellsInv(t) by {
      LastStartAfter(s.log, e);
    }
    assert t.log[|s.log|] == e;
    forall other ensures CallerInv(t, other) {
      assert CallerInv(s, other);
      SaysNothingElse(s.log, e, other);
    }
  }

  lemma TakeMutexKeeps(s: Verifier, id: nat)
    requires Inv(s) && id in s.callers && s.callers[id].pc.Waiting? && s.holder.None?
    ensures Inv(StepAdvance(s, id))
  {
    assert CallerInv(s, id);
    var t := StepAdvance(s, id);
    forall other ensures CallerInv(t, other) { assert CallerInv(s, other); }
  }

  lemma AdvanceKeeps(s: Verifier, id: nat)
    requires Inv(s) && id in s.callers
    ensures Inv(StepAdvance(s, id))
  {
    var cache, c := s.cells.cache, s.callers[id];
    assert CallerInv(s, id);
    match c.pc
    case Begin =>
      if c.goal.Warm? {
        GotoKeeps(s, id, Waiting(true, None));
      } else if cache.Some? && Current(cache.value, s.now) {
        ServeKeeps(s, id, cache.value);
      } else {
        GotoKeeps(s, id, Waiting(false, cache));
      }
    case Waiting(force, stale) =>
      if s.holder.None? {
        TakeMutexKeeps(s, id);
      }
    case CheckCurrent(stale) =>
      if cache.Some? && Current(cache.value, s.now) {
        RefreshReturnsKeeps(s, id, false, stale, cache);
      } else {
        GotoKeeps(s, id, CheckImmutable(false, stale));
      }
    case CheckImmutable(force, stale) =>
      if cache.Some? && cache.value.immutable {
        RefreshReturnsKeeps(s, id, force, stale, cache);
      } else {
        GotoKeeps(s, id, CheckBackoff(force, stale));
      }
    case CheckBackoff(force, stale) =>
      if !BackedOff(s.cells.lastAttempt, s.now) {
        StartFetchKeeps(s, id);
      } else if force {
        RefreshReturnsKeeps(s, id, true, stale, None);
      } else {
        GotoKeeps(s, id, ReadGrace(stale));
      }
    case ReadGrace(stale) => RefreshReturnsKeeps(s, id, false, stale, Filter(cache, s.now));
    case Fetching(_, _) =>
    case UseStale(stale) =>
      if Filter(stale, s.now).Some? {
        ServeKeeps(s, id, stale.value);
      } else {
        DecideKeeps(s, id, AuthorityUnavailable, None);
      }
    case Deciding(keys, forced) =>
      if c.goal.Bearer? && c.goal.kid !in keys.keyIds {
        if keys.immutable || forced {
          DecideKeeps(s, id, UnknownKeyId, Some(keys));
        } else {
          ForceKeeps(s, id);
        }
      }
  }

  lemma FetchReplyKeeps(s: Verifier, id: nat, fetched: Option<set<string>>)
    requires Inv(s) && id in s.callers && s.callers[id].pc.Fetching?
    ensures Inv(StepFetchReply(s, id, fetched))
  {
    var pc := s.callers[id].pc;
    assert CallerInv(s, id);
    match fetched
    case None =>
      Record(s, FetchFailed(id));
      RefreshReturnsKeeps(s.(log := s.log + [FetchFailed(id)]), id, pc.force, pc.stale, None);
    case Some(keyIds) =>
      var keys := Jwks(keyIds, s.now, false);
      Record(s, FetchEnded(id, keys));
      if WasForced(s.log, id) {
        FetchAfterForce(s.log, id, keys);
      }
      var noted := s.(log := s.log + [FetchEnded(id, keys)]);
      var stored := noted.(cells := s.cells.(cache := Some(keys)));
      forall other ensures CallerInv(stored, other) { assert CallerInv(noted, other); }
      RefreshReturnsKeeps(stored, id, pc.force, pc.stale, Some(keys));
  }

  /** The invariant is inductive: any action, enabled or not, keeps it. */
  lemma StepKeeps(s: Verifier, a: Action)
    requires Inv(s)
    ensures Inv(Step(s, a))
  {
    var t := Step(s, a);
    match a
    case Tick(_) =>
      forall id ensures CallerInv(t, id) { assert CallerInv(s, id); }
    case Call(_) =>
      assert CallerInv(s, s.arrived);
      forall id ensures CallerInv(t, id) { assert CallerInv(s, id); }
    case Advance(id) =>
      if id in s.callers {
        AdvanceKeeps(s, id);
      }
    case FetchReply(id, fetched) =>
      if id in s.callers && s.callers[id].pc.Fetching? {
        FetchReplyKeeps(s, id, fetched);
      }
    case Signature(id, valid) =>
      if t != s {
        assert CallerInv(s, id);
        DecideKeeps(s, id, Check(valid), Some(s.callers[id].pc.keys));
      }
    case Cancel(id) =>
      if id in s.callers {
        LeaveKeeps(s, id);
      }
  }

  lemma {:induction false} RunKeeps(s: Verifier, actions: seq<Action>)
    requires Inv(s)
    ensures Inv(Run(s, actions))
    decreases |actions|
  {
    if actions != [] {
      StepKeeps(s, actions[0]);
      RunKeeps(Step(s, actions[0]), actions[1..]);
    }
  }

  /** A verifier starts empty, or with a static document. */
  predicate Startable(cache: Option<Jwks>) {
    cache.Some? ==> cache.value.immutable && cache.value.fetchedAt == 0
  }

  lemma InitHolds(cache: Option<Jwks>)
    requires Startable(cache)
    ensures Inv(Init(cache))
  {
  }
}
