/**
`AuthState` and one undisturbed pass of `authorize_mcp` over it, in the order of the original: the
shared map and the semaphore are fields, and each critical section is a method.
*/
module AuthStates {
  import opened Wrappers
  import opened SessionTable
  import opened SessionInvariants
  import opened SessionReissue

  class AuthState {
    const stateful: bool
    var sessions: map<SessionId, Binding>
    var permits: nat

    constructor (stateful: bool, maxSessions: nat)
      ensures this.stateful == stateful && Model() == Init(stateful, maxSessions).table
    {
      this.stateful := stateful;
      sessions, permits := map[], maxSessions;
    }

    function Model(): Table
      reads this
    {
      Table(permits, sessions)
    }

    method AdmitExisting(sid: SessionId, principal: Principal, now: Time) returns (ok: bool)
      modifies this`sessions
      ensures ok <==> Admissible(old(Model()), sid, principal)
      ensures Model() == if ok then Touch(old(Model()), sid, now) else old(Model())
    {
      if sid !in sessions || sessions[sid].principal != principal {
        return false;
      }
      sessions := sessions[sid := sessions[sid].(lastSeen := now)];
      ok := true;
    }

    method RetainFresh(now: Time)
      modifies this
      ensures Model() == Sweep(old(Model()), now)
    {
      permits := permits + |Evicted(sessions, now)|;
      sessions := map sid | sid in sessions && now - sessions[sid].lastSeen <= SESSION_BINDING_IDLE :: sessions[sid];
    }

    method TryAcquire() returns (ok: bool)
      modifies this`permits
      ensures ok <==> 0 < old(permits)
      ensures permits == old(permits) - if ok then 1 else 0
    {
      ok := permits > 0;
      if ok {
        permits := permits - 1;
      }
    }

    method DropPermit()
      modifies this`permits
      ensures permits == old(permits) + 1
    {
      permits := permits + 1;
    }

    /** The caller's permit ends up in the binding, or is dropped. */
    method InsertCreated(sid: SessionId, principal: Principal, now: Time) returns (ok: bool)
      modifies this
      ensures ok <==> sid !in old(sessions)
      ensures Model() == if ok then Bind(old(Model()), sid, principal, now) else Release(old(Model()))
    {
      if sid in sessions {
        DropPermit();
        return false;
      }
      sessions := sessions[sid := Binding(principal, now)];
      ok := true;
    }

    method RemoveSession(sid: SessionId)
      modifies this
      ensures Model() == Remove(old(Model()), sid)
    {
      if sid in sessions {
        sessions := sessions - {sid};
        DropPermit();
      }
    }

    /** `response` is what the MCP service answers if the request gets that far. */
    method AuthorizeMcp(principal: Principal, incoming: Option<SessionId>, delete: bool, now: Time, response: Response)
      returns (reply: Reply)
      modifies this
      ensures (Model(), reply) == Undisturbed(old(Model()), stateful, principal, incoming, delete, now, response)
    {
      var newSessionPermit := false;
      if stateful {
        if incoming.Some? {
          var admitted := AdmitExisting(incoming.value, principal, now);
          if !admitted {
            return Forbidden;
          }
        } else {
          RetainFresh(now);
          newSessionPermit := TryAcquire();
          if !newSessionPermit {
            return SessionCapacity;
          }
        }
      } else if incoming.Some? {
        return Forbidden;
      }
      if stateful {
        if response.header.Malformed? {
          if newSessionPermit {
            DropPermit();
          }
          return AuthorityUnavailable;
        }
        if newSessionPermit {
          if response.status == Success {
            if !response.header.Names? {
              DropPermit();
              return AuthorityUnavailable;
            }
            var inserted := InsertCreated(response.header.sid, principal, now);
            if !inserted {
              return AuthorityUnavailable;
            }
          } else {
            DropPermit();
          }
        } else if incoming.Some? && response.header.Names? && incoming.value != response.header.sid {
          return AuthorityUnavailable;
        }
        if incoming.Some? {
          if (delete && response.status == Success) || response.status == NotFound {
            RemoveSession(incoming.value);
          }
        }
      }
      reply := Passed(response);
    }
  }

  /** Up to the MCP service: the table, the early reply if there is one, and whether a permit is held. */
  function Entered(t: Table, stateful: bool, principal: Principal, incoming: Option<SessionId>, now: Time)
    : (Table, Option<Reply>, bool)
  {
    match incoming
    case Some(sid) =>
      if stateful && Admissible(t, sid, principal) then (Touch(t, sid, now), None, false)
      else (t, Some(Forbidden), false)
    case None =>
      if !stateful then (t, None, false)
      else
        var swept := Sweep(t, now);
        if swept.free == 0 then (swept, Some(SessionCapacity), false)
        else (swept.(free := swept.free - 1), None, true)
  }

  /** From the service's answer on. */
  function Served(t: Table, stateful: bool, permit: bool, principal: Principal, incoming: Option<SessionId>,
                  delete: bool, now: Time, response: Response): (Table, Reply)
  {
    var back := if permit then Release(t) else t;
    if !stateful then (back, Passed(response))
    else if response.header.Malformed? then (back, AuthorityUnavailable)
    else if permit then
      if response.status != Success then (back, Passed(response))
      else if response.header.Absent? || response.header.sid in t.bindings then (back, AuthorityUnavailable)
      else (Bind(t, response.header.sid, principal, now), Passed(response))
    else if incoming.Some? && response.header.Names? && response.header.sid != incoming.value then
      (back, AuthorityUnavailable)
    else (if incoming.Some? && Ends(delete, response) then Remove(t, incoming.value) else t, Passed(response))
  }

  /** The table and the reply after a request that nothing interleaves with. */
  function Undisturbed(t: Table, stateful: bool, principal: Principal, incoming: Option<SessionId>, delete: bool,
                       now: Time, response: Response): (Table, Reply)
  {
    var (entered, early, permit) := Entered(t, stateful, principal, incoming, now);
    if early.Some? then (entered, early.value)
    else Served(entered, stateful, permit, principal, incoming, delete, now, response)
  }

  /** The same request as actions of the state machine. */
  function Script(id: nat, principal: Principal, incoming: Option<SessionId>, delete: bool, response: Response)
    : seq<Action>
  {
    [Arrive(principal, incoming, delete), Advance(id), Advance(id)] + [Answer(id, response), Advance(id)]
  }

  /** `t` is `s` after request `id` has been answered with `reply`, leaving `table`. */
  ghost predicate LeftWith(s: System, t: System, id: nat, table: Table, reply: Reply) {
    && t == s.(table := table, log := t.log, requests := s.requests - {id})
    && t.log != [] && t.log[|t.log| - 1] == Replied(id, reply)
  }

  lemma EntryAgrees(s: System, id: nat)
    requires id in s.requests && s.requests[id].phase.Verified?
    ensures var r := s.requests[id];
            var t := Step(Step(s, Advance(id)), Advance(id));
            var (table, early, permit) := Entered(s.table, s.stateful, r.principal, r.incoming, s.now);
            if early.Some? then LeftWith(s, t, id, table, early.value)
            else t == s.(table := table, log := t.log, requests := s.requests[id := r.(phase := Forwarded(permit))])
  {
    var r := s.requests[id];
    if r.incoming.None? && s.stateful {
      SweepStep(s, id);
      var s1 := Step(s, Advance(id));
      if 0 < s1.table.free {
        AcquireStep(s1, id);
      }
      assert s1.requests - {id} == s.requests - {id};
      assert s1.requests[id := r.(phase := Forwarded(true))] == s.requests[id := r.(phase := Forwarded(true))];
    }
  }

  lemma ExitAgrees(s: System, id: nat, response: Response)
    requires id in s.requests && s.requests[id].phase.Forwarded?
    requires s.requests[id].phase.permit ==> s.requests[id].incoming.None?
    ensures var r := s.requests[id];
            var t := Step(Step(s, Answer(id, response)), Advance(id));
            var (table, reply) :=
              Served(s.table, s.stateful, r.phase.permit, r.principal, r.incoming, r.delete, s.now, response);
            LeftWith(s, t, id, table, reply)
  {
    var s1 := Step(s, Answer(id, response));
    if id in s1.requests {
      assert s1.requests - {id} == s.requests - {id};
    }
  }

  lemma ScriptUnfolds(s: System, id: nat, principal: Principal, incoming: Option<SessionId>, delete: bool,
                      response: Response)
    ensures Run(s, Script(id, principal, incoming, delete, response)) ==
            Step(Step(Step(Step(Step(s, Arrive(principal, incoming, delete)), Advance(id)), Advance(id)),
                      Answer(id, response)), Advance(id))
  {
    var arrive := Arrive(principal, incoming, delete);
    var s3 := Run(s, [arrive, Advance(id), Advance(id)]);
    RunConcat(s, [arrive, Advance(id), Advance(id)], [Answer(id, response), Advance(id)]);
    RunThree(s, arrive, Advance(id), Advance(id));
    RunTwo(s3, Answer(id, response), Advance(id));
  }

  lemma ServedAlone(s: System, id: nat, response: Response)
    requires id in s.requests && s.requests[id].phase.Verified?
    ensures var r := s.requests[id];
            var t := Step(Step(Step(Step(s, Advance(id)), Advance(id)), Answer(id, response)), Advance(id));
            var (table, reply) := Undisturbed(s.table, s.stateful, r.principal, r.incoming, r.delete, s.now, response);
            LeftWith(s, t, id, table, reply)
  {
    var s2 := Step(Step(s, Advance(id)), Advance(id));
    EntryAgrees(s, id);
    if id in s2.requests {
      ExitAgrees(s2, id, response);
      assert s2.requests - {id} == s.requests - {id};
    }
  }

  /** The sequential pass and the state machine agree on the table and on the reply. */
  lemma UndisturbedIsARun(s: System, principal: Principal, incoming: Option<SessionId>, delete: bool,
                          response: Response)
    requires s.arrived !in s.requests
    ensures var t := Run(s, Script(s.arrived, principal, incoming, delete, response));
            var (table, reply) := Undisturbed(s.table, s.stateful, principal, incoming, delete, s.now, response);
            && t == s.(arrived := s.arrived + 1, table := table, log := t.log)
            && t.log != [] && t.log[|t.log| - 1] == Replied(s.arrived, reply)
  {
    var s1 := Step(s, Arrive(principal, incoming, delete));
    ScriptUnfolds(s, s.arrived, principal, incoming, delete, response);
    ServedAlone(s1, s.arrived, response);
    assert s1.requests - {s.arrived} == s.requests;
  }

  lemma CreatedTable(t: Table, principal: Principal, sid: SessionId, now: Time)
    requires sid !in Kept(t.bindings, now) && 0 < Sweep(t, now).free
    ensures Undisturbed(t, true, principal, None, false, now, Response(Success, Names(sid))).0 ==
            Table(Sweep(t, now).free - 1, Kept(t.bindings, now)[sid := Binding(principal, now)])
  {
  }

  lemma DeletedTable(free: nat, kept: map<SessionId, Binding>, principal: Principal, sid: SessionId, now: Time,
                     header: SessionHeader)
    requires sid !in kept && (header == Absent || header == Names(sid))
    ensures Undisturbed(Table(free, kept[sid := Binding(principal, now)]), true, principal, Some(sid), true, now,
                        Response(Success, header)).0 == Table(free + 1, kept)
  {
    assert kept[sid := Binding(principal, now)] - {sid} == kept;
  }

  /** The owner's DELETE undoes the creation: what is left of the two requests is the eviction of idle
      bindings, and every permit is back. */
  lemma DeleteUndoesCreate(s: System, principal: Principal, sid: SessionId, header: SessionHeader)
    requires Inv(s) && s.stateful && sid !in Kept(s.table.bindings, s.now) && 0 < Sweep(s.table, s.now).free
    requires header == Absent || header == Names(sid)
    ensures var t := Run(s, Script(s.arrived, principal, None, false, Response(Success, Names(sid))));
            var u := Run(t, Script(t.arrived, principal, Some(sid), true, Response(Success, header)));
            u.table == Sweep(s.table, s.now) && u.requests == s.requests
  {
    var created, ended := Response(Success, Names(sid)), Response(Success, header);
    var t := Run(s, Script(s.arrived, principal, None, false, created));
    ArrivalsAreNew(s);
    UndisturbedIsARun(s, principal, None, false, created);
    CreatedTable(s.table, principal, sid, s.now);
    UndisturbedIsARun(t, principal, Some(sid), true, ended);
    DeletedTable(Sweep(s.table, s.now).free - 1, Kept(s.table.bindings, s.now), principal, sid, s.now, header);
  }

  lemma ArrivalsAreNew(s: System)
    requires Shaped(s)
    ensures s.arrived !in s.requests && s.arrived + 1 !in s.requests
  {
    assert forall id :: id in s.requests ==> ShapedRequest(s, id, s.requests[id]);
  }

  /** Nobody else gets anywhere: another principal's request is answered Forbidden and changes nothing. */
  lemma OthersAreForbidden(s: System, principal: Principal, sid: SessionId, delete: bool, response: Response)
    requires Inv(s) && (sid !in s.table.bindings || s.table.bindings[sid].principal != principal)
    ensures var t := Run(s, Script(s.arrived, principal, Some(sid), delete, response));
            && t == s.(arrived := s.arrived + 1, log := t.log)
            && t.log != [] && t.log[|t.log| - 1] == Replied(s.arrived, Forbidden)
  {
    ArrivalsAreNew(s);
    UndisturbedIsARun(s, principal, Some(sid), delete, response);
  }

  // ----- the outcome of an undisturbed request, case by case

  /** A request of the bound principal that the service answers in order: the binding goes on a
      successful DELETE and on 404, and otherwise stays, used just now. */
  lemma AdmittedOutcome(t: Table, principal: Principal, sid: SessionId, delete: bool, now: Time, response: Response)
    requires sid in t.bindings && t.bindings[sid].principal == principal
    requires response.header == Absent || response.header == Names(sid)
    ensures var (u, reply) := Undisturbed(t, true, principal, Some(sid), delete, now, response);
            && reply == Passed(response)
            && (sid !in u.bindings <==> (delete && response.status == Success) || response.status == NotFound)
            && u == if sid in u.bindings then Table(t.free, t.bindings[sid := Binding(principal, now)])
                    else Table(t.free + 1, t.bindings - {sid})
  {
    assert t.bindings[sid := Binding(principal, now)] - {sid} == t.bindings - {sid};
  }

  /** An answer whose session header is malformed or names another session is withheld. */
  lemma MismatchOutcome(t: Table, principal: Principal, sid: SessionId, delete: bool, now: Time, response: Response)
    requires sid in t.bindings && t.bindings[sid].principal == principal
    requires response.header != Absent && response.header != Names(sid)
    ensures Undisturbed(t, true, principal, Some(sid), delete, now, response) ==
            (Table(t.free, t.bindings[sid := Binding(principal, now)]), AuthorityUnavailable)
  {
  }

  /** Without sessions nothing is kept: a request that names one is forbidden, any other is passed on. */
  lemma StatelessOutcome(t: Table, principal: Principal, incoming: Option<SessionId>, delete: bool, now: Time,
                         response: Response)
    ensures Undisturbed(t, false, principal, incoming, delete, now, response) ==
            (t, if incoming.Some? then Forbidden else Passed(response))
  {
  }

  /** `u` is `t` without the bindings idle for more than ten minutes, their permits free again. */
  ghost predicate SweptTo(t: Table, now: Time, u: Table) {
    && (forall sid :: sid in u.bindings <==> sid in t.bindings && now - t.bindings[sid].lastSeen <= 600_000_000_000)
    && (forall sid :: sid in u.bindings ==> u.bindings[sid] == t.bindings[sid])
    && u.free + |u.bindings| == t.free + |t.bindings|
  }

  lemma SweepIsExact(t: Table, now: Time)
    ensures SweptTo(t, now, Sweep(t, now))
  {
    SweepConserves(t, now);
  }

  /** A creation: refused without a permit; a session is bound exactly when the service succeeds with an
      id that is not bound; in every other case only the sweep remains, and the reply says whether the
      answer could be passed on. */
  lemma CreationOutcome(t: Table, u: Table, principal: Principal, delete: bool, now: Time, response: Response)
    requires SweptTo(t, now, u)
    ensures var (v, reply) := Undisturbed(t, true, principal, None, delete, now, response);
            if u.free == 0 then v == u && reply == SessionCapacity
            else
              match response.header
              case Malformed => v == u && reply == AuthorityUnavailable
              case Absent =>
                v == u && reply == if response.status == Success then AuthorityUnavailable else Passed(response)
              case Names(sid) =>
                if response.status != Success then v == u && reply == Passed(response)
                else if sid in u.bindings then v == u && reply == AuthorityUnavailable
                else v == Table(u.free - 1, u.bindings[sid := Binding(principal, now)]) && reply == Passed(response)
  {
    SweepIsExact(t, now);
    assert u.bindings == Sweep(t, now).bindings;
  }

  /** The same rule for a request in flight, whatever else is going on: its two steps after the answer
      leave its session unbound exactly on a successful DELETE or 404, and touch nothing else. */
  lemma AnsweredOutcome(s: System, id: nat, sid: SessionId, response: Response)
    requires s.stateful && id in s.requests && sid in s.table.bindings
    requires s.requests[id].incoming == Some(sid) && s.requests[id].phase == Forwarded(false)
    requires response.header == Absent || response.header == Names(sid)
    ensures var u := Step(Step(s, Answer(id, response)), Advance(id));
            var ended := (s.requests[id].delete && response.status == Success) || response.status == NotFound;
            && (sid !in u.table.bindings <==> ended)
            && u.table == (if ended then Table(s.table.free + 1, s.table.bindings - {sid}) else s.table)
            && u.requests == s.requests - {id}
            && u.log != [] && u.log[|u.log| - 1] == Replied(id, Passed(response))
  {
    var s1 := Step(s, Answer(id, response));
    if id in s1.requests {
      assert s1.requests - {id} == s.requests - {id};
    }
  }
}
