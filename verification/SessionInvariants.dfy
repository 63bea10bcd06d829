/**
What every interleaving of the session table keeps: permits are conserved, the log of bindings is
lawful, and the table says exactly what the log says.
*/
module SessionInvariants {
  import opened Wrappers
  import opened SessionTable

  function Holders(requests: map<nat, Request>): set<nat> {
    set id | id in requests && HoldsPermit(requests[id])
  }

  /** Every permit is free, inside a binding, or held by a request that is creating a session. */
  ghost predicate Accounted(s: System) {
    s.table.free + |s.table.bindings| + |Holders(s.requests)| == s.maxSessions
  }

  /** A request inside the MCP service, or about to drop the binding it named. */
  predicate UsesSession(r: Request, sid: SessionId) {
    r.incoming == Some(sid) && (r.phase == Forwarded(false) || r.phase.Removing?)
  }

  ghost predicate ShapedRequest(s: System, id: nat, r: Request) {
    && id < s.arrived
    && (r.phase.Swept? || HoldsPermit(r) ==> s.stateful && r.incoming.None?)
    && (r.phase.Removing? ==> s.stateful && r.incoming.Some? && WasEnded(s.log, id))
    && (r.phase == Forwarded(false) ==> s.stateful == r.incoming.Some?)
    && (r.incoming.Some? && UsesSession(r, r.incoming.value) ==>
          WasAdmitted(s.log, id, r.incoming.value, r.principal))
  }

  ghost predicate Shaped(s: System) {
    && (forall id :: id in s.requests ==> ShapedRequest(s, id, s.requests[id]))
    && (!s.stateful ==> s.table.bindings == map[])
  }

  /** The table agrees with the log about one session. */
  ghost predicate Agrees(s: System, sid: SessionId) {
    if sid in s.table.bindings then
      && Owner(s.log, sid) == Some(s.table.bindings[sid].principal)
      && LastUse(s.log, sid) == s.table.bindings[sid].lastSeen <= s.now
    else Owner(s.log, sid) == None
  }

  ghost predicate Faithful(s: System) {
    forall sid :: Agrees(s, sid)
  }

  ghost predicate Inv(s: System) {
    Accounted(s) && Shaped(s) && Faithful(s) && LawfulLog(s.log)
  }

  // ----- counting permits

  lemma HoldersAfterUpdate(requests: map<nat, Request>, id: nat, r: Request)
    ensures |Holders(requests[id := r])| ==
            |Holders(requests)| - (if id in requests && HoldsPermit(requests[id]) then 1 else 0)
                                + (if HoldsPermit(r) then 1 else 0)
  {
    if HoldsPermit(r) {
      assert Holders(requests[id := r]) == Holders(requests) + {id};
    } else {
      assert Holders(requests[id := r]) == Holders(requests) - {id};
    }
  }

  lemma HoldersAfterLeaving(requests: map<nat, Request>, id: nat)
    requires id in requests
    ensures |Holders(requests - {id})| == |Holders(requests)| - if HoldsPermit(requests[id]) then 1 else 0
  {
    assert Holders(requests - {id}) == Holders(requests) - {id};
  }

  lemma SweepConserves(t: Table, now: Time)
    ensures Sweep(t, now).free + |Sweep(t, now).bindings| == t.free + |t.bindings|
  {
    var kept, evicted := Kept(t.bindings, now), Evicted(t.bindings, now);
    assert kept.Keys + evicted.Keys == t.bindings.Keys;
    assert |kept.Keys| + |evicted.Keys| == |kept.Keys + evicted.Keys|;
  }

  lemma BindConserves(t: Table, sid: SessionId, principal: Principal, now: Time)
    requires sid !in t.bindings
    ensures |Bind(t, sid, principal, now).bindings| == |t.bindings| + 1
  {
    assert Bind(t, sid, principal, now).bindings.Keys == t.bindings.Keys + {sid};
  }

  lemma TouchConserves(t: Table, sid: SessionId, now: Time)
    requires sid in t.bindings
    ensures |Touch(t, sid, now).bindings| == |t.bindings|
  {
    assert Touch(t, sid, now).bindings.Keys == t.bindings.Keys;
  }

  lemma RemoveConserves(t: Table, sid: SessionId)
    ensures Remove(t, sid).free + |Remove(t, sid).bindings| == t.free + |t.bindings|
  {
    assert (t.bindings - {sid}).Keys == t.bindings.Keys - {sid};
  }

  /** No step loses or invents a permit. */
  lemma StepAccounts(s: System, a: Action)
    requires Accounted(s)
    requires forall id :: id in s.requests ==>
               id < s.arrived && (HoldsPermit(s.requests[id]) ==> s.requests[id].incoming.None?)
    ensures Accounted(Step(s, a))
  {
    match a
    case Tick(_) =>
    case Arrive(principal, incoming, delete) =>
      HoldersAfterUpdate(s.requests, s.arrived, Request(principal, incoming, delete, Verified));
    case Advance(id) =>
      if id in s.requests {
        AdvanceAccounts(s, id);
      }
    case Answer(id, response) =>
      if id in s.requests && s.requests[id].phase.Forwarded? {
        HoldersAfterLeaving(s.requests, id);
        match AfterAnswer(s.stateful, s.requests[id], response)
        case Continue(phase) => HoldersAfterUpdate(s.requests, id, s.requests[id].(phase := phase));
        case Done(_) =>
      }
    case Cancel(id) =>
      if id in s.requests {
        HoldersAfterLeaving(s.requests, id);
      }
  }

  lemma AdvanceAccounts(s: System, id: nat)
    requires Accounted(s) && id in s.requests
    ensures Accounted(Step(s, Advance(id)))
  {
    var r := s.requests[id];
    HoldersAfterLeaving(s.requests, id);
    match r.phase
    case Verified =>
      HoldersAfterUpdate(s.requests, id, r.(phase := Forwarded(false)));
      HoldersAfterUpdate(s.requests, id, r.(phase := Swept));
      SweepConserves(s.table, s.now);
      if r.incoming.Some? && r.incoming.value in s.table.bindings {
        TouchConserves(s.table, r.incoming.value, s.now);
      }
    case Swept =>
      HoldersAfterUpdate(s.requests, id, r.(phase := Forwarded(true)));
    case Forwarded(_) =>
    case Inserting(sid, _) =>
      if sid !in s.table.bindings {
        BindConserves(s.table, sid, r.principal, s.now);
      }
    case Closing(_) =>
    case Removing(_) =>
      if r.incoming.Some? {
        RemoveConserves(s.table, r.incoming.value);
      }
  }

  // ----- keeping the log lawful

  lemma AppendLawful(log: seq<Event>, e: Event)
    requires LawfulLog(log) && Lawful(log, e)
    ensures LawfulLog(log + [e])
  {
    var longer := log + [e];
    forall i | 0 <= i < |longer| ensures Lawful(longer[..i], longer[i]) {
      assert longer[..i] == log[..i];
      assert log[..|log|] == log;
    }
  }

  lemma OwnerAfter(log: seq<Event>, e: Event, sid: SessionId)
    ensures (log + [e])[..|log|] == log
    ensures Owner(log + [e], sid) ==
            if e.Created? && e.sid == sid then Some(e.principal)
            else if (e.Expired? && sid in e.evicted) || (e.Removed? && e.sid == sid) then None
            else Owner(log, sid)
    ensures LastUse(log + [e], sid) ==
            if (e.Created? || e.Admitted?) && e.sid == sid then e.at else LastUse(log, sid)
  {
    assert (log + [e])[..|log|] == log;
  }

  lemma WitnessesPersist(log: seq<Event>, e: Event)
    ensures forall id, sid, p :: WasAdmitted(log, id, sid, p) ==> WasAdmitted(log + [e], id, sid, p)
    ensures forall id :: WasEnded(log, id) ==> WasEnded(log + [e], id)
  {
    forall id, sid, p | WasAdmitted(log, id, sid, p) ensures WasAdmitted(log + [e], id, sid, p) {
      var i :| 0 <= i < |log| && log[i].Admitted? && log[i].id == id && log[i].sid == sid && log[i].principal == p;
      assert (log + [e])[i] == log[i];
    }
    forall id | WasEnded(log, id) ensures WasEnded(log + [e], id) {
      var i :| 0 <= i < |log| && log[i].Answered? && log[i].id == id && EndsSession(log[i]);
      assert (log + [e])[i] == log[i];
    }
  }

  /** Events that say nothing about bindings: the rest of the invariant is untouched. */
  lemma LogNeutral(s: System, e: Event)
    requires Shaped(s) && Faithful(s) && LawfulLog(s.log)
    requires e.Answered? || e.Replied?
    ensures var t := s.(log := s.log + [e]); Shaped(t) && Faithful(t) && LawfulLog(t.log)
  {
    var t := s.(log := s.log + [e]);
    assert LawfulLog(t.log) by {
      AppendLawful(s.log, e);
    }
    assert Shaped(t) by {
      WitnessesPersist(s.log, e);
    }
    forall sid ensures Agrees(t, sid) {
      assert Agrees(s, sid);
      OwnerAfter(s.log, e, sid);
    }
  }

  lemma FinishKeeps(s: System, id: nat, reply: Reply)
    requires Shaped(s) && Faithful(s) && LawfulLog(s.log) && id in s.requests
    ensures var t := Finish(s, id, reply); Shaped(t) && Faithful(t) && LawfulLog(t.log)
  {
    var left := Leave(s, id);
    forall sid ensures Agrees(left, sid) {
      assert Agrees(s, sid);
    }
    LogNeutral(left, Replied(id, reply));
  }

  lemma TouchKeeps(s: System, id: nat, sid: SessionId)
    requires Shaped(s) && Faithful(s) && LawfulLog(s.log) && id in s.requests
    requires s.requests[id].phase.Verified? && s.requests[id].incoming == Some(sid)
    requires s.stateful && Admissible(s.table, sid, s.requests[id].principal)
    ensures var t := StepVerified(s, id); Shaped(t) && Faithful(t) && LawfulLog(t.log)
  {
    var t := StepVerified(s, id);
    var e := Admitted(id, sid, s.requests[id].principal, s.now);
    assert Agrees(s, sid);
    assert LawfulLog(t.log) by {
      AppendLawful(s.log, e);
    }
    assert Shaped(t) by {
      WitnessesPersist(s.log, e);
      assert t.log[|s.log|] == e;
      assert WasAdmitted(t.log, id, sid, e.principal);
    }
    forall other ensures Agrees(t, other) {
      assert Agrees(s, other);
      OwnerAfter(s.log, e, other);
    }
  }

  lemma SweepKeeps(s: System, id: nat)
    requires Shaped(s) && Faithful(s) && LawfulLog(s.log) && id in s.requests
    requires s.requests[id].phase.Verified? && s.requests[id].incoming.None? && s.stateful
    ensures var t := StepVerified(s, id); Shaped(t) && Faithful(t) && LawfulLog(t.log)
  {
    var t := StepVerified(s, id);
    var evicted := Evicted(s.table.bindings, s.now);
    var e := Expired(evicted, s.now);
    forall sid
      ensures sid in evicted ==>
        Owner(s.log, sid) == Some(evicted[sid].principal) && s.now - LastUse(s.log, sid) > SESSION_BINDING_IDLE
      ensures Owner(s.log, sid).Some? && sid !in evicted ==> s.now - LastUse(s.log, sid) <= SESSION_BINDING_IDLE
    {
      assert Agrees(s, sid);
    }
    assert LawfulLog(t.log) by {
      AppendLawful(s.log, e);
    }
    assert Shaped(t) by {
      WitnessesPersist(s.log, e);
    }
    forall sid ensures Agrees(t, sid) {
      assert Agrees(s, sid);
      OwnerAfter(s.log, e, sid);
    }
  }

  lemma StepVerifiedKeeps(s: System, id: nat)
    requires Shaped(s) && Faithful(s) && LawfulLog(s.log) && id in s.requests && s.requests[id].phase.Verified?
    ensures var t := StepVerified(s, id); Shaped(t) && Faithful(t) && LawfulLog(t.log)
  {
    var r := s.requests[id];
    if r.incoming.Some? {
      if s.stateful && Admissible(s.table, r.incoming.value, r.principal) {
        TouchKeeps(s, id, r.incoming.value);
      } else {
        FinishKeeps(s, id, Forbidden);
      }
    } else if s.stateful {
      SweepKeeps(s, id);
    } else {
      forall sid ensures Agrees(StepVerified(s, id), sid) { assert Agrees(s, sid); }
    }
  }

  lemma StepInsertKeeps(s: System, id: nat)
    requires Inv(s) && id in s.requests && s.requests[id].phase.Inserting?
    ensures var t := StepInsert(s, id); Shaped(t) && Faithful(t) && LawfulLog(t.log)
  {
    var r := s.requests[id];
    var sid := r.phase.created;
    if sid in s.table.bindings {
      FinishKeeps(s, id, AuthorityUnavailable);
    } else {
      var e := Created(id, sid, r.principal, s.now);
      var bound := s.(requests := s.requests - {id}, table := Bind(s.table, sid, r.principal, s.now),
                      log := s.log + [e]);
      assert Agrees(s, sid);
      AppendLawful(s.log, e);
      WitnessesPersist(s.log, e);
      forall other ensures Agrees(bound, other) {
        assert Agrees(s, other);
        OwnerAfter(s.log, e, other);
      }
      LogNeutral(bound, Replied(id, Passed(r.phase.response)));
      assert s.log + [e] + [Replied(id, Passed(r.phase.response))] == StepInsert(s, id).log;
    }
  }

  lemma StepRemoveKeeps(s: System, id: nat)
    requires Inv(s) && id in s.requests && s.requests[id].phase.Removing?
    ensures var t := StepRemove(s, id); Shaped(t) && Faithful(t) && LawfulLog(t.log)
  {
    var r := s.requests[id];
    assert ShapedRequest(s, id, r);
    var sid := r.incoming.value;
    var e := Removed(id, sid, r.principal);
    var dropped := s.(requests := s.requests - {id}, table := Remove(s.table, sid), log := s.log + [e]);
    AppendLawful(s.log, e);
    WitnessesPersist(s.log, e);
    forall other ensures Agrees(dropped, other) {
      assert Agrees(s, other);
      OwnerAfter(s.log, e, other);
    }
    LogNeutral(dropped, Replied(id, Passed(r.phase.response)));
    assert s.log + [e] + [Replied(id, Passed(r.phase.response))] == StepRemove(s, id).log;
  }

  lemma StepAnswerKeeps(s: System, id: nat, response: Response)
    requires Inv(s) && id in s.requests && s.requests[id].phase.Forwarded?
    ensures var t := StepAnswer(s, id, response); Shaped(t) && Faithful(t) && LawfulLog(t.log)
  {
    var r := s.requests[id];
    var e := Answered(id, r.delete, response);
    assert ShapedRequest(s, id, r);
    LogNeutral(s, e);
    var heard := s.(log := s.log + [e]);
    match AfterAnswer(s.stateful, r, response)
    case Done(reply) => FinishKeeps(heard, id, reply);
    case Continue(phase) =>
      assert heard.log[|s.log|] == e;
      forall sid ensures Agrees(SetPhase(heard, id, phase), sid) {
        assert Agrees(heard, sid);
      }
  }

  /** The invariant is inductive: any action, enabled or not, keeps it. */
  lemma StepKeeps(s: System, a: Action)
    requires Inv(s)
    ensures Inv(Step(s, a))
  {
    StepAccounts(s, a);
    var t := Step(s, a);
    match a
    case Tick(_) =>
      forall sid ensures Agrees(t, sid) { assert Agrees(s, sid); }
    case Arrive(_, _, _) =>
      forall sid ensures Agrees(t, sid) { assert Agrees(s, sid); }
    case Cancel(_) =>
      forall sid ensures Agrees(t, sid) { assert Agrees(s, sid); }
    case Answer(id, response) =>
      if id in s.requests && s.requests[id].phase.Forwarded? {
        StepAnswerKeeps(s, id, response);
      }
    case Advance(id) =>
      if id in s.requests {
        var r := s.requests[id];
        assert ShapedRequest(s, id, r);
        match r.phase
        case Verified => StepVerifiedKeeps(s, id);
        case Swept =>
          if s.table.free == 0 {
            FinishKeeps(s, id, SessionCapacity);
          } else {
            forall sid ensures Agrees(t, sid) { assert Agrees(s, sid); }
          }
        case Forwarded(_) =>
        case Inserting(_, _) => StepInsertKeeps(s, id);
        case Closing(response) => FinishKeeps(s, id, Passed(response));
        case Removing(_) => StepRemoveKeeps(s, id);
      }
  }

  /** In every run, from any number of concurrent requests and whatever the MCP service answers. */
  lemma {:induction false} RunKeeps(s: System, actions: seq<Action>)
    requires Inv(s)
    ensures Inv(Run(s, actions))
    decreases |actions|
  {
    if actions != [] {
      StepKeeps(s, actions[0]);
      RunKeeps(Step(s, actions[0]), actions[1..]);
    }
  }

  lemma {:induction false} RunConcat(s: System, a: seq<Action>, b: seq<Action>)
    ensures Run(s, a + b) == Run(Run(s, a), b)
    decreases |a|
  {
    if a == [] {
      assert a + b == b;
    } else {
      assert (a + b)[1..] == a[1..] + b;
      RunConcat(Step(s, a[0]), a[1..], b);
    }
  }

  lemma InitHolds(stateful: bool, maxSessions: nat)
    ensures Inv(Init(stateful, maxSessions))
  {
    assert Holders(map[]) == {};
    var s := Init(stateful, maxSessions);
    assert forall sid :: Agrees(s, sid);
  }
}
