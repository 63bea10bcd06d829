/**
One verifier shared by any number of concurrent calls. Every await of `current_keys` and
`refresh_keys` is a step boundary: the cache is read, the refresh mutex is taken, the checks are
made and the fetch runs at different instants, and any call may be dropped at any of them.
*/
module JwksMachine {
  import opened Wrappers
  import opened JwksCache

  datatype Goal = Warm | Bearer(kid: string)

  /** Where a call stands. `stale` is the snapshot that `current_keys` took of the cache. */
  datatype Pc =
    | Begin
    | Waiting(force: bool, stale: Option<Jwks>)        // for the refresh mutex
    | CheckCurrent(stale: Option<Jwks>)                // mutex held from here ...
    | CheckImmutable(force: bool, stale: Option<Jwks>)
    | CheckBackoff(force: bool, stale: Option<Jwks>)
    | ReadGrace(stale: Option<Jwks>)
    | Fetching(force: bool, stale: Option<Jwks>)       // ... to here
    | UseStale(stale: Option<Jwks>)                    // the refresh failed
    | Deciding(keys: Jwks, forced: bool)

  datatype Caller = Caller(goal: Goal, pc: Pc)

  datatype Event =
    | FetchStarted(id: nat, at: Time)
    | FetchEnded(id: nat, keys: Jwks)
    | FetchFailed(id: nat)
    | Served(id: nat, keys: Jwks, at: Time)   // `current_keys` returned
    | Forced(id: nat)                         // the key id was unknown: one forced refresh
    | Decided(id: nat, verdict: Verdict, against: Option<Jwks>)
    | Warmed(id: nat, ok: bool)

  datatype Verifier = Verifier(
    now: Time, cells: Cells, holder: Option<nat>, arrived: nat, callers: map<nat, Caller>, log: seq<Event>)

  datatype Action =
    | Tick(elapsed: nat)
    | Call(goal: Goal)
    | Advance(id: nat)
    | FetchReply(id: nat, fetched: Option<set<string>>)
    | Signature(id: nat, valid: bool)
    | Cancel(id: nat)

  function Init(cache: Option<Jwks>): Verifier {
    Verifier(0, Cells(cache, None), None, 0, map[], [])
  }

  predicate Locked(pc: Pc) {
    pc.CheckCurrent? || pc.CheckImmutable? || pc.CheckBackoff? || pc.ReadGrace? || pc.Fetching?
  }

  function Goto(s: Verifier, id: nat, pc: Pc): Verifier
    requires id in s.callers
  {
    s.(callers := s.callers[id := s.callers[id].(pc := pc)])
  }

  /** The call returns or is dropped, and with it a mutex guard it holds. */
  function Leave(s: Verifier, id: nat): Verifier
    requires id in s.callers
  {
    s.(callers := s.callers - {id}, holder := if Locked(s.callers[id].pc) then None else s.holder)
  }

  function Decide(s: Verifier, id: nat, verdict: Verdict, keys: Option<Jwks>): Verifier
    requires id in s.callers
  {
    var left := Leave(s, id);
    left.(log := left.log + [Decided(id, verdict, keys)])
  }

  /** `current_keys` returns `keys`. */
  function Serve(s: Verifier, id: nat, keys: Jwks): Verifier
    requires id in s.callers
  {
    Goto(s, id, Deciding(keys, false)).(log := s.log + [Served(id, keys, s.now)])
  }

  /** `refresh_keys` returns, giving up the mutex. */
  function RefreshReturns(s: Verifier, id: nat, force: bool, stale: Option<Jwks>, keys: Option<Jwks>): Verifier
    requires id in s.callers
  {
    if s.callers[id].goal.Warm? then
      var left := Leave(s, id);
      left.(log := left.log + [Warmed(id, keys.Some?)])
    else if force then
      if keys.Some? then Goto(s, id, Deciding(keys.value, true)).(holder := None)
      else Decide(s, id, AuthorityUnavailable, None)
    else
      if keys.Some? then Serve(s, id, keys.value).(holder := None)
      else Goto(s, id, UseStale(stale)).(holder := None)
  }

  function StepAdvance(s: Verifier, id: nat): Verifier
    requires id in s.callers
  {
    var cache := s.cells.cache;
    match s.callers[id].pc
    case Begin =>
      if s.callers[id].goal.Warm? then Goto(s, id, Waiting(true, None))
      else if cache.Some? && Current(cache.value, s.now) then Serve(s, id, cache.value)
      else Goto(s, id, Waiting(false, cache))
    case Waiting(force, stale) =>
      if s.holder.Some? then s
      else Goto(s, id, if force then CheckImmutable(true, stale) else CheckCurrent(stale)).(holder := Some(id))
    case CheckCurrent(stale) =>
      if cache.Some? && Current(cache.value, s.now) then RefreshReturns(s, id, false, stale, cache)
      else Goto(s, id, CheckImmutable(false, stale))
    case CheckImmutable(force, stale) =>
      if cache.Some? && cache.value.immutable then RefreshReturns(s, id, force, stale, cache)
      else Goto(s, id, CheckBackoff(force, stale))
    case CheckBackoff(force, stale) =>
      if !BackedOff(s.cells.lastAttempt, s.now) then
        Goto(s, id, Fetching(force, stale))
        .(cells := s.cells.(lastAttempt := Some(s.now)), log := s.log + [FetchStarted(id, s.now)])
      else if force then RefreshReturns(s, id, true, stale, None)
      else Goto(s, id, ReadGrace(stale))
    case ReadGrace(stale) =>
      RefreshReturns(s, id, false, stale, Filter(cache, s.now))
    case Fetching(_, _) => s
    case UseStale(stale) =>
      if Filter(stale, s.now).Some? then Serve(s, id, stale.value)
      else Decide(s, id, AuthorityUnavailable, None)
    case Deciding(keys, forced) =>
      if s.callers[id].goal.Warm? || s.callers[id].goal.kid in keys.keyIds then s
      else if keys.immutable || forced then Decide(s, id, UnknownKeyId, Some(keys))
      else Goto(s, id, Waiting(true, None)).(log := s.log + [Forced(id)])
  }

  function StepFetchReply(s: Verifier, id: nat, fetched: Option<set<string>>): Verifier
    requires id in s.callers && s.callers[id].pc.Fetching?
  {
    var pc := s.callers[id].pc;
    match fetched
    case None => RefreshReturns(s.(log := s.log + [FetchFailed(id)]), id, pc.force, pc.stale, None)
    case Some(keyIds) =>
      var keys := Jwks(keyIds, s.now, false);
      RefreshReturns(s.(cells := s.cells.(cache := Some(keys)), log := s.log + [FetchEnded(id, keys)]),
                     id, pc.force, pc.stale, Some(keys))
  }

  /** One atomic step. An action that is not enabled changes nothing. */
  function Step(s: Verifier, a: Action): Verifier {
    match a
    case Tick(elapsed) => s.(now := s.now + elapsed)
    case Call(goal) => s.(arrived := s.arrived + 1, callers := s.callers[s.arrived := Caller(goal, Begin)])
    case Advance(id) => if id in s.callers then StepAdvance(s, id) else s
    case FetchReply(id, fetched) =>
      if id in s.callers && s.callers[id].pc.Fetching? then StepFetchReply(s, id, fetched) else s
    case Signature(id, valid) =>
      if id in s.callers && s.callers[id].pc.Deciding? && s.callers[id].goal.Bearer?
         && s.callers[id].goal.kid in s.callers[id].pc.keys.keyIds
      then Decide(s, id, Check(valid), Some(s.callers[id].pc.keys))
      else s
    case Cancel(id) => if id in s.callers then Leave(s, id) else s
  }

  function Run(s: Verifier, actions: seq<Action>): Verifier
    decreases |actions|
  {
    if actions == [] then s else Run(Step(s, actions[0]), actions[1..])
  }
}
