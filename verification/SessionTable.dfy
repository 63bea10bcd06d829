/**
The identity-bound session table of `authorize_mcp`, as values: the critical sections over the
shared map and the semaphore, and the state machine of any number of requests whose sections
interleave. The inner MCP service is nondeterministic: each of its answers is part of an action.
*/
module SessionTable {
  import opened Wrappers

  type SessionId = string

  /** Nanoseconds of the monotonic clock. */
  type Time = nat

  const SESSION_BINDING_IDLE: nat := 10 * 60 * 1_000_000_000

  datatype Principal = Principal(subject: string, sharedAuthSession: string, oauthClient: string, realm: string)

  /** A binding also carries one semaphore permit: removing the binding frees it. */
  datatype Binding = Binding(principal: Principal, lastSeen: Time)

  /** The semaphore's available permits and the bindings, each holding one of the others. */
  datatype Table = Table(free: nat, bindings: map<SessionId, Binding>)

  // ----- critical sections

  predicate Fresh(binding: Binding, now: Time) {
    now - binding.lastSeen <= SESSION_BINDING_IDLE
  }

  function Kept(bindings: map<SessionId, Binding>, now: Time): map<SessionId, Binding> {
    map sid | sid in bindings && Fresh(bindings[sid], now) :: bindings[sid]
  }

  function Evicted(bindings: map<SessionId, Binding>, now: Time): map<SessionId, Binding> {
    map sid | sid in bindings && !Fresh(bindings[sid], now) :: bindings[sid]
  }

  /** `retain`: every evicted binding gives its permit back. */
  function Sweep(t: Table, now: Time): Table {
    Table(t.free + |Evicted(t.bindings, now)|, Kept(t.bindings, now))
  }

  predicate Admissible(t: Table, sid: SessionId, principal: Principal) {
    sid in t.bindings && t.bindings[sid].principal == principal
  }

  function Touch(t: Table, sid: SessionId, now: Time): Table
    requires sid in t.bindings
  {
    t.(bindings := t.bindings[sid := t.bindings[sid].(lastSeen := now)])
  }

  /** The permit moves from the request into the new binding. */
  function Bind(t: Table, sid: SessionId, principal: Principal, now: Time): Table {
    t.(bindings := t.bindings[sid := Binding(principal, now)])
  }

  function Release(t: Table): Table {
    t.(free := t.free + 1)
  }

  function Remove(t: Table, sid: SessionId): Table {
    if sid in t.bindings then Table(t.free + 1, t.bindings - {sid}) else t
  }

  // ----- requests in flight

  datatype Status = Success | NotFound | OtherStatus

  datatype SessionHeader = Absent | Names(sid: SessionId) | Malformed

  datatype Response = Response(status: Status, header: SessionHeader)

  /** Where a request stands between two of its atomic steps. */
  datatype Phase =
    | Verified                                            // bearer and headers accepted
    | Swept                                               // idle bindings evicted, no permit yet
    | Forwarded(permit: bool)                             // inside the MCP service
    | Inserting(created: SessionId, response: Response)   // permit held, session created
    | Closing(response: Response)                         // permit held, closing a refused session
    | Removing(response: Response)                        // about to drop the named binding

  datatype Request = Request(principal: Principal, incoming: Option<SessionId>, delete: bool, phase: Phase)

  datatype Reply = Forbidden | SessionCapacity | AuthorityUnavailable | Passed(response: Response)

  /** What an observer of the table and of the MCP service would write down. */
  datatype Event =
    | Created(id: nat, sid: SessionId, principal: Principal, at: Time)
    | Admitted(id: nat, sid: SessionId, principal: Principal, at: Time)
    | Expired(evicted: map<SessionId, Binding>, at: Time)
    | Answered(id: nat, delete: bool, response: Response)
    | Removed(id: nat, sid: SessionId, principal: Principal)
    | Replied(id: nat, reply: Reply)

  datatype System = System(
    stateful: bool, maxSessions: nat, now: Time, table: Table,
    arrived: nat, requests: map<nat, Request>, log: seq<Event>)

  datatype Action =
    | Tick(elapsed: nat)
    | Arrive(principal: Principal, incoming: Option<SessionId>, delete: bool)
    | Advance(id: nat)
    | Answer(id: nat, response: Response)
    | Cancel(id: nat)

  function Init(stateful: bool, maxSessions: nat): System {
    System(stateful, maxSessions, 0, Table(maxSessions, map[]), 0, map[], [])
  }

  predicate HoldsPermit(r: Request) {
    r.phase == Forwarded(true) || r.phase.Inserting? || r.phase.Closing?
  }

  function SetPhase(s: System, id: nat, phase: Phase): System
    requires id in s.requests
  {
    s.(requests := s.requests[id := s.requests[id].(phase := phase)])
  }

  /** The request future completes or is dropped; a permit it still holds is dropped with it. */
  function Leave(s: System, id: nat): System
    requires id in s.requests
  {
    s.(requests := s.requests - {id},
       table := if HoldsPermit(s.requests[id]) then Release(s.table) else s.table)
  }

  function Finish(s: System, id: nat, reply: Reply): System
    requires id in s.requests
  {
    var left := Leave(s, id);
    left.(log := left.log + [Replied(id, reply)])
  }

  function StepVerified(s: System, id: nat): System
    requires id in s.requests
  {
    var r := s.requests[id];
    match r.incoming
    case Some(sid) =>
      if !s.stateful || !Admissible(s.table, sid, r.principal) then Finish(s, id, Forbidden)
      else
        SetPhase(s, id, Forwarded(false))
        .(table := Touch(s.table, sid, s.now), log := s.log + [Admitted(id, sid, r.principal, s.now)])
    case None =>
      if !s.stateful then SetPhase(s, id, Forwarded(false))
      else
        SetPhase(s, id, Swept)
        .(table := Sweep(s.table, s.now), log := s.log + [Expired(Evicted(s.table.bindings, s.now), s.now)])
  }

  function StepAcquire(s: System, id: nat): System
    requires id in s.requests
  {
    if s.table.free == 0 then Finish(s, id, SessionCapacity)
    else SetPhase(s, id, Forwarded(true)).(table := s.table.(free := s.table.free - 1))
  }

  function StepInsert(s: System, id: nat): System
    requires id in s.requests && s.requests[id].phase.Inserting?
  {
    var r := s.requests[id];
    var sid := r.phase.created;
    if sid in s.table.bindings then Finish(s, id, AuthorityUnavailable)
    else
      s.(requests := s.requests - {id},
         table := Bind(s.table, sid, r.principal, s.now),
         log := s.log + [Created(id, sid, r.principal, s.now), Replied(id, Passed(r.phase.response))])
  }

  /** Removal by session id: the principal is not looked at again. */
  function StepRemove(s: System, id: nat): System
    requires id in s.requests && s.requests[id].phase.Removing?
  {
    var r := s.requests[id];
    if r.incoming.None? then Finish(s, id, Passed(r.phase.response))
    else
      s.(requests := s.requests - {id},
         table := Remove(s.table, r.incoming.value),
         log := s.log + [Removed(id, r.incoming.value, r.principal), Replied(id, Passed(r.phase.response))])
  }

  /** An answer that ends the named session: a successful DELETE, or 404 to any method. */
  predicate Ends(delete: bool, response: Response) {
    (delete && response.status == Success) || response.status == NotFound
  }

  /** What `authorize_mcp` does once the MCP service has answered: go on, or reply. */
  datatype Next = Continue(phase: Phase) | Done(reply: Reply)

  function AfterAnswer(stateful: bool, r: Request, response: Response): Next {
    if !stateful then Done(Passed(response))
    else if response.header.Malformed? then Done(AuthorityUnavailable)
    else if r.phase == Forwarded(true) then
      if response.status == Success then
        if response.header.Names? then Continue(Inserting(response.header.sid, response))
        else Done(AuthorityUnavailable)
      else if response.header.Names? then Continue(Closing(response))
      else Done(Passed(response))
    else if r.incoming.Some? && response.header.Names? && response.header.sid != r.incoming.value then
      Done(AuthorityUnavailable)
    else if r.incoming.Some? && Ends(r.delete, response) then Continue(Removing(response))
    else Done(Passed(response))
  }

  function StepAnswer(s: System, id: nat, response: Response): System
    requires id in s.requests
  {
    var r := s.requests[id];
    var heard := s.(log := s.log + [Answered(id, r.delete, response)]);
    match AfterAnswer(s.stateful, r, response)
    case Continue(phase) => SetPhase(heard, id, phase)
    case Done(reply) => Finish(heard, id, reply)
  }

  /** One atomic step. An action that is not enabled changes nothing. */
  function Step(s: System, a: Action): System {
    match a
    case Tick(elapsed) => s.(now := s.now + elapsed)
    case Arrive(principal, incoming, delete) =>
      s.(arrived := s.arrived + 1,
         requests := s.requests[s.arrived := Request(principal, incoming, delete, Verified)])
    case Advance(id) =>
      if id !in s.requests then s
      else (
        match s.requests[id].phase
        case Verified => StepVerified(s, id)
        case Swept => StepAcquire(s, id)
        case Forwarded(_) => s
        case Inserting(_, _) => StepInsert(s, id)
        case Closing(response) => Finish(s, id, Passed(response))
        case Removing(_) => StepRemove(s, id))
    case Answer(id, response) =>
      if id in s.requests && s.requests[id].phase.Forwarded? then StepAnswer(s, id, response) else s
    case Cancel(id) =>
      if id in s.requests then Leave(s, id) else s
  }

  function Run(s: System, actions: seq<Action>): System
    decreases |actions|
  {
    if actions == [] then s else Run(Step(s, actions[0]), actions[1..])
  }

  // ----- reading the log

  /** The principal that the log says `sid` is bound to. */
  function Owner(log: seq<Event>, sid: SessionId): Option<Principal> {
    if log == [] then None
    else
      var past := log[..|log| - 1];
      match log[|log| - 1]
      case Created(_, created, principal, _) => if created == sid then Some(principal) else Owner(past, sid)
      case Expired(evicted, _) => if sid in evicted then None else Owner(past, sid)
      case Removed(_, removed, _) => if removed == sid then None else Owner(past, sid)
      case _ => Owner(past, sid)
  }

  /** When the log last shows `sid` being created or used. */
  function LastUse(log: seq<Event>, sid: SessionId): Time {
    if log == [] then 0
    else
      var past := log[..|log| - 1];
      match log[|log| - 1]
      case Created(_, used, _, at) => if used == sid then at else LastUse(past, sid)
      case Admitted(_, used, _, at) => if used == sid then at else LastUse(past, sid)
      case _ => LastUse(past, sid)
  }

  /** Request `id` was let through to `sid` as `principal`. */
  ghost predicate WasAdmitted(log: seq<Event>, id: nat, sid: SessionId, principal: Principal) {
    exists i ::
      0 <= i < |log| && log[i].Admitted? && log[i].id == id && log[i].sid == sid && log[i].principal == principal
  }

  /** The service answered a DELETE with success, or any request with 404. */
  predicate EndsSession(e: Event)
    requires e.Answered?
  {
    match e.response.status
    case Success => e.delete
    case NotFound => true
    case OtherStatus => false
  }

  ghost predicate WasEnded(log: seq<Event>, id: nat) {
    exists i :: 0 <= i < |log| && log[i].Answered? && log[i].id == id && EndsSession(log[i])
  }

  /** An eviction takes exactly the bindings not used for more than ten minutes. */
  ghost predicate ExactExpiry(past: seq<Event>, evicted: map<SessionId, Binding>, at: Time) {
    && (forall sid :: sid in evicted ==>
          Owner(past, sid) == Some(evicted[sid].principal) && at - LastUse(past, sid) > SESSION_BINDING_IDLE)
    && (forall sid :: Owner(past, sid).Some? && sid !in evicted ==>
          at - LastUse(past, sid) <= SESSION_BINDING_IDLE)
  }

  /** What each event must look like, given the events before it. */
  ghost predicate Lawful(past: seq<Event>, e: Event) {
    && (e.Created? ==> Owner(past, e.sid) == None)
    && (e.Admitted? ==> Owner(past, e.sid) == Some(e.principal))
    && (e.Expired? ==> ExactExpiry(past, e.evicted, e.at))
    && (e.Removed? ==> WasAdmitted(past, e.id, e.sid, e.principal) && WasEnded(past, e.id))
  }

  ghost predicate LawfulLog(log: seq<Event>) {
    forall i :: 0 <= i < |log| ==> Lawful(log[..i], log[i])
  }

  /** A removal that takes away a binding of somebody else. */
  ghost predicate ForeignRemoval(past: seq<Event>, e: Event) {
    e.Removed? && Owner(past, e.sid).Some? && Owner(past, e.sid) != Some(e.principal)
  }

  ghost predicate NoForeignRemoval(log: seq<Event>) {
    forall i :: 0 <= i < |log| ==> !ForeignRemoval(log[..i], log[i])
  }
}
