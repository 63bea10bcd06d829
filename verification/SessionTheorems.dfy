/**
Main results about the session table: the bound, the capacity reply, who may use a session, and
exactly when a binding can be removed by somebody else's request.
*/
module SessionTheorems {
  import opened Wrappers
  import opened SessionTable
  import opened SessionInvariants

  /** In every run the table stays within its bound, and no exit path loses a permit. */
  lemma EveryRunIsAccountedFor(stateful: bool, maxSessions: nat, actions: seq<Action>)
    ensures var s := Run(Init(stateful, maxSessions), actions);
            && s.table.free + |s.table.bindings| + |Holders(s.requests)| == maxSessions
            && |s.table.bindings| <= maxSessions
            && (s.requests == map[] ==> s.table.free + |s.table.bindings| == maxSessions)
            && LawfulLog(s.log)
  {
    InitHolds(stateful, maxSessions);
    RunKeeps(Init(stateful, maxSessions), actions);
    RunKeepsConfig(Init(stateful, maxSessions), actions);
    assert Holders(map[]) == {};
  }

  lemma {:induction false} RunKeepsConfig(s: System, actions: seq<Action>)
    ensures Run(s, actions).maxSessions == s.maxSessions && Run(s, actions).stateful == s.stateful
    decreases |actions|
  {
    if actions != [] {
      RunKeepsConfig(Step(s, actions[0]), actions[1..]);
    }
  }

  /** A creation is refused for capacity exactly when every permit is in use. */
  lemma CapacityReplyIff(s: System, id: nat)
    requires Inv(s) && id in s.requests && s.requests[id].phase.Swept?
    ensures var t := Step(s, Advance(id));
            t.log == s.log + [Replied(id, SessionCapacity)] <==>
            |s.table.bindings| + |Holders(s.requests)| == s.maxSessions
  {
    assert |s.log + [Replied(id, SessionCapacity)]| == |s.log| + 1;
  }

  /** Refused right after its own sweep, every permit is inside a binding used during the last ten
      minutes or held by another creation in flight: idle bindings never cause a refusal. */
  lemma RefusalMeansBusy(s: System, id: nat)
    requires Inv(s) && s.stateful
    requires id in s.requests && s.requests[id].phase.Verified? && s.requests[id].incoming.None?
    ensures var t := Step(Step(s, Advance(id)), Advance(id));
            t.log == Step(s, Advance(id)).log + [Replied(id, SessionCapacity)] <==>
            |Kept(s.table.bindings, s.now)| + |Holders(s.requests)| == s.maxSessions
  {
    StepKeeps(s, Advance(id));
    HoldersAfterUpdate(s.requests, id, s.requests[id].(phase := Swept));
    CapacityReplyIff(Step(s, Advance(id)), id);
  }

  /** While a binding stays in the table its principal never changes and its last use never goes back. */
  lemma BindingIsStable(s: System, a: Action, sid: SessionId)
    requires Inv(s) && sid in s.table.bindings && sid in Step(s, a).table.bindings
    ensures Step(s, a).table.bindings[sid].principal == s.table.bindings[sid].principal
    ensures s.table.bindings[sid].lastSeen <= Step(s, a).table.bindings[sid].lastSeen
  {
    assert Agrees(s, sid);
  }

  // ----- who may use a session

  /** The events that take a binding away: its eviction, or a removal by its id. */
  predicate Ending(e: Event, sid: SessionId) {
    (e.Expired? && sid in e.evicted) || (e.Removed? && e.sid == sid)
  }

  ghost predicate Concerns(e: Event, sid: SessionId) {
    (e.Created? && e.sid == sid) || Ending(e, sid)
  }

  /** `sid` was created at `j` for `principal`, and nothing created or ended it again since. */
  ghost predicate CreatedAt(log: seq<Event>, j: int, sid: SessionId, principal: Principal) {
    && 0 <= j < |log| && log[j].Created? && log[j].sid == sid && log[j].principal == principal
    && forall k :: j < k < |log| ==> !Concerns(log[k], sid)
  }

  lemma {:induction false} OwnerIsTheCreator(log: seq<Event>, sid: SessionId) returns (j: nat)
    requires Owner(log, sid).Some?
    ensures CreatedAt(log, j, sid, Owner(log, sid).value)
  {
    var past, e := log[..|log| - 1], log[|log| - 1];
    if e.Created? && e.sid == sid {
      j := |log| - 1;
    } else {
      j := OwnerIsTheCreator(past, sid);
      assert CreatedAt(past, j, sid, Owner(past, sid).value);
      assert forall k :: 0 <= k < |past| ==> log[k] == past[k];
    }
  }

  /** Every request forwarded with a session id was admitted as the principal that created it. */
  lemma ForwardedAsItsCreator(stateful: bool, maxSessions: nat, actions: seq<Action>, i: nat)
    requires i < |Run(Init(stateful, maxSessions), actions).log|
    requires Run(Init(stateful, maxSessions), actions).log[i].Admitted?
    ensures var log := Run(Init(stateful, maxSessions), actions).log;
            exists j :: CreatedAt(log[..i], j, log[i].sid, log[i].principal)
  {
    EveryRunIsAccountedFor(stateful, maxSessions, actions);
    var log := Run(Init(stateful, maxSessions), actions).log;
    assert Lawful(log[..i], log[i]);
    var j := OwnerIsTheCreator(log[..i], log[i].sid);
  }

  /** Eviction after more than ten idle minutes, or the owner's own request that the service answered
      with a successful DELETE or with 404. */
  ghost predicate RightfulEnd(past: seq<Event>, e: Event, sid: SessionId, principal: Principal) {
    || (e.Expired? && sid in e.evicted && e.at - LastUse(past, sid) > SESSION_BINDING_IDLE)
    || (e.Removed? && e.sid == sid && e.principal == principal
        && WasAdmitted(past, e.id, sid, principal) && WasEnded(past, e.id))
  }

  /** A binding that is gone later on was ended rightfully in between. */
  lemma {:induction false} BindingsEndRightfully(log: seq<Event>, i: nat, j: nat, sid: SessionId, principal: Principal)
    returns (k: nat)
    requires LawfulLog(log) && NoForeignRemoval(log)
    requires i <= j <= |log|
    requires Owner(log[..i], sid) == Some(principal) && Owner(log[..j], sid) != Some(principal)
    ensures i <= k < j && RightfulEnd(log[..k], log[k], sid, principal)
    decreases j - i
  {
    assert Lawful(log[..i], log[i]) && !ForeignRemoval(log[..i], log[i]);
    assert log[..i + 1] == log[..i] + [log[i]];
    OwnerAfter(log[..i], log[i], sid);
    if Owner(log[..i + 1], sid) == Some(principal) {
      k := BindingsEndRightfully(log, i + 1, j, sid, principal);
    } else {
      k := i;
    }
  }

  lemma {:induction false} OwnersChangeByEnding(log: seq<Event>, i: nat, j: nat, sid: SessionId, principal: Principal)
    returns (k: nat)
    requires LawfulLog(log) && i <= j <= |log|
    requires Owner(log[..i], sid) == Some(principal) && Owner(log[..j], sid) != Some(principal)
    ensures i <= k < j && Ending(log[k], sid)
    decreases j - i
  {
    assert Lawful(log[..i], log[i]);
    assert log[..i + 1] == log[..i] + [log[i]];
    OwnerAfter(log[..i], log[i], sid);
    if Owner(log[..i + 1], sid) == Some(principal) {
      k := OwnersChangeByEnding(log, i + 1, j, sid, principal);
    } else {
      k := i;
    }
  }

  lemma LogGrows(s: System, a: Action)
    ensures s.log <= Step(s, a).log
  {
  }

  lemma {:induction false} RunLogGrows(s: System, actions: seq<Action>)
    ensures s.log <= Run(s, actions).log
    decreases |actions|
  {
    if actions != [] {
      LogGrows(s, actions[0]);
      RunLogGrows(Step(s, actions[0]), actions[1..]);
    }
  }

  /** In every run, whatever the service does: a binding never changes its principal in place. If a
      session is later bound to another principal, or no longer bound, its binding was evicted or
      removed in between. */
  lemma BindingsChangeByEnding(stateful: bool, maxSessions: nat, before: seq<Action>, after: seq<Action>,
                               sid: SessionId)
    returns (k: nat)
    requires var s, t := Run(Init(stateful, maxSessions), before), Run(Init(stateful, maxSessions), before + after);
             && sid in s.table.bindings
             && (sid !in t.table.bindings || t.table.bindings[sid].principal != s.table.bindings[sid].principal)
    ensures var s, t := Run(Init(stateful, maxSessions), before), Run(Init(stateful, maxSessions), before + after);
            |s.log| <= k < |t.log| && Ending(t.log[k], sid)
  {
    var start := Init(stateful, maxSessions);
    var s, t := Run(start, before), Run(start, before + after);
    InitHolds(stateful, maxSessions);
    RunKeeps(start, before);
    RunKeeps(start, before + after);
    RunConcat(start, before, after);
    RunLogGrows(s, after);
    assert Agrees(s, sid) && Agrees(t, sid);
    assert t.log[..|s.log|] == s.log && t.log[..|t.log|] == t.log;
    k := OwnersChangeByEnding(t.log, |s.log|, |t.log|, sid, s.table.bindings[sid].principal);
  }

  // ----- when a removal can hit somebody else's binding

  /** No request in flight names a session that is now bound to another principal. */
  ghost predicate NoStaleUser(s: System) {
    forall id, sid :: id in s.requests && sid in s.table.bindings && UsesSession(s.requests[id], sid) ==>
      s.table.bindings[sid].principal == s.requests[id].principal
  }

  ghost predicate ForeignUser(s: System, sid: SessionId, principal: Principal) {
    exists id :: id in s.requests && UsesSession(s.requests[id], sid) && s.requests[id].principal != principal
  }

  /** The action binds a newly created session. */
  predicate Binds(s: System, a: Action) {
    && a.Advance? && a.id in s.requests && s.requests[a.id].phase.Inserting?
    && s.requests[a.id].phase.created !in s.table.bindings
  }

  /** The service did not reissue an id that a request of another principal in flight still names. */
  ghost predicate Prudent(s: System, a: Action) {
    Binds(s, a) ==> !ForeignUser(s, s.requests[a.id].phase.created, s.requests[a.id].principal)
  }

  ghost predicate PrudentRun(s: System, actions: seq<Action>)
    decreases |actions|
  {
    actions == [] || (Prudent(s, actions[0]) && PrudentRun(Step(s, actions[0]), actions[1..]))
  }

  /** Reissuing an id is harmless exactly when nobody else's request in flight names it. */
  lemma BindingIsSafeIff(s: System, a: Action)
    requires Inv(s) && NoStaleUser(s) && Binds(s, a)
    ensures NoStaleUser(Step(s, a)) <==> Prudent(s, a)
  {
    var sid, principal := s.requests[a.id].phase.created, s.requests[a.id].principal;
    var t := Step(s, a);
    assert ShapedRequest(s, a.id, s.requests[a.id]);
    if ForeignUser(s, sid, principal) {
      var id :| id in s.requests && UsesSession(s.requests[id], sid) && s.requests[id].principal != principal;
      assert id in t.requests && sid in t.table.bindings && UsesSession(t.requests[id], sid);
    }
  }

  lemma UsersWereAdmitted(s: System, a: Action, id: nat, sid: SessionId)
    requires Shaped(s) && id in Step(s, a).requests && UsesSession(Step(s, a).requests[id], sid)
    ensures id in s.requests && Step(s, a).requests[id].principal == s.requests[id].principal
    ensures UsesSession(s.requests[id], sid) || Admissible(s.table, sid, s.requests[id].principal)
  {
    if id in s.requests {
      assert ShapedRequest(s, id, s.requests[id]);
    }
  }

  lemma OnlyBindingAddsSessions(s: System, a: Action, sid: SessionId)
    requires !Binds(s, a) && sid in Step(s, a).table.bindings
    ensures sid in s.table.bindings
  {
  }

  lemma OtherStepsStaySafe(s: System, a: Action)
    requires Inv(s) && NoStaleUser(s) && !Binds(s, a)
    ensures NoStaleUser(Step(s, a))
  {
    var t := Step(s, a);
    forall id, sid | id in t.requests && sid in t.table.bindings && UsesSession(t.requests[id], sid)
      ensures t.table.bindings[sid].principal == t.requests[id].principal
    {
      UsersWereAdmitted(s, a, id, sid);
      OnlyBindingAddsSessions(s, a, sid);
      BindingIsStable(s, a, sid);
    }
  }

  lemma RemovalsAreByUsers(s: System, a: Action, i: nat)
    requires Shaped(s) && |s.log| <= i < |Step(s, a).log| && Step(s, a).log[i].Removed?
    ensures i == |s.log| && a.Advance? && a.id in s.requests
    ensures var e := Step(s, a).log[i];
            UsesSession(s.requests[a.id], e.sid) && e.principal == s.requests[a.id].principal
  {
    var r := s.requests[a.id];
    assert ShapedRequest(s, a.id, r);
  }

  lemma SafeStepRemovesOwn(s: System, a: Action)
    requires Inv(s) && NoStaleUser(s) && NoForeignRemoval(s.log)
    ensures NoForeignRemoval(Step(s, a).log)
  {
    var longer := Step(s, a).log;
    LogGrows(s, a);
    forall i | 0 <= i < |longer| ensures !ForeignRemoval(longer[..i], longer[i]) {
      if i < |s.log| {
        assert longer[..i] == s.log[..i] && longer[i] == s.log[i];
      } else if longer[i].Removed? {
        RemovalsAreByUsers(s, a, i);
        assert longer[..i] == s.log;
        assert Agrees(s, longer[i].sid);
      }
    }
  }

  lemma {:induction false} PrudentRunRemovesOwn(s: System, actions: seq<Action>)
    requires Inv(s) && NoStaleUser(s) && NoForeignRemoval(s.log) && PrudentRun(s, actions)
    ensures NoForeignRemoval(Run(s, actions).log)
    decreases |actions|
  {
    if actions != [] {
      var a := actions[0];
      StepKeeps(s, a);
      SafeStepRemovesOwn(s, a);
      if Binds(s, a) {
        BindingIsSafeIff(s, a);
      } else {
        OtherStepsStaySafe(s, a);
      }
      PrudentRunRemovesOwn(Step(s, a), actions[1..]);
    }
  }

  /** From the start: if the MCP service never reissues an id that another principal's request in
      flight still names, every binding that disappears was ended rightfully. */
  lemma PrudentServiceIsSafe(stateful: bool, maxSessions: nat, actions: seq<Action>)
    requires PrudentRun(Init(stateful, maxSessions), actions)
    ensures NoForeignRemoval(Run(Init(stateful, maxSessions), actions).log)
  {
    InitHolds(stateful, maxSessions);
    PrudentRunRemovesOwn(Init(stateful, maxSessions), actions);
  }

  /** End to end: in every run with a prudent service, a binding that is in the table at one point and
      is gone, or bound to another principal, at a later one was ended rightfully in between. */
  lemma LostBindingsEndedRightfully(stateful: bool, maxSessions: nat, before: seq<Action>, after: seq<Action>,
                                    sid: SessionId)
    returns (k: nat)
    requires PrudentRun(Init(stateful, maxSessions), before + after)
    requires var s, t := Run(Init(stateful, maxSessions), before), Run(Init(stateful, maxSessions), before + after);
             && sid in s.table.bindings
             && (sid !in t.table.bindings || t.table.bindings[sid].principal != s.table.bindings[sid].principal)
    ensures var s, t := Run(Init(stateful, maxSessions), before), Run(Init(stateful, maxSessions), before + after);
            |s.log| <= k < |t.log| && RightfulEnd(t.log[..k], t.log[k], sid, s.table.bindings[sid].principal)
  {
    var start := Init(stateful, maxSessions);
    var s, t := Run(start, before), Run(start, before + after);
    InitHolds(stateful, maxSessions);
    RunKeeps(start, before);
    RunKeeps(start, before + after);
    RunConcat(start, before, after);
    RunLogGrows(s, after);
    PrudentServiceIsSafe(stateful, maxSessions, before + after);
    assert Agrees(s, sid) && Agrees(t, sid);
    assert t.log[..|s.log|] == s.log && t.log[..|t.log|] == t.log;
    k := BindingsEndRightfully(t.log, |s.log|, |t.log|, sid, s.table.bindings[sid].principal);
  }

  lemma StaleRemovalHits(s: System, id: nat, sid: SessionId)
    requires Inv(s) && id in s.requests && sid in s.table.bindings && UsesSession(s.requests[id], sid)
    requires s.table.bindings[sid].principal != s.requests[id].principal && s.requests[id].phase.Removing?
    ensures Run(s, [Advance(id)]) == Step(s, Advance(id)) && PrudentRun(s, [Advance(id)])
    ensures !NoForeignRemoval(Step(s, Advance(id)).log)
  {
    assert [Advance(id)][1..] == [];
    assert Agrees(s, sid);
    var log, at := Step(s, Advance(id)).log, |s.log|;
    assert log[..at] == s.log && log[at] == Removed(id, sid, s.requests[id].principal);
    assert ForeignRemoval(log[..at], log[at]);
  }

  /** At most two more steps of a stale request remove the other principal's binding. */
  lemma StaleUserRemoves(s: System, id: nat, sid: SessionId) returns (actions: seq<Action>)
    requires Inv(s) && id in s.requests && sid in s.table.bindings && UsesSession(s.requests[id], sid)
    requires s.table.bindings[sid].principal != s.requests[id].principal
    ensures PrudentRun(s, actions) && !NoForeignRemoval(Run(s, actions).log)
  {
    if s.requests[id].phase.Removing? {
      actions := [Advance(id)];
      StaleRemovalHits(s, id, sid);
    } else {
      var gone := Answer(id, Response(NotFound, Absent));
      actions := [gone, Advance(id)];
      assert actions[1..] == [Advance(id)];
      assert ShapedRequest(s, id, s.requests[id]);
      StepKeeps(s, gone);
      StaleRemovalHits(Step(s, gone), id, sid);
    }
  }

  /** The exact condition: whatever a prudent service does from here on, removals stay rightful if
      and only if no request in flight is stale now. */
  lemma SafeIffNoStaleUser(s: System)
    requires Inv(s) && NoForeignRemoval(s.log)
    ensures (forall actions :: PrudentRun(s, actions) ==> NoForeignRemoval(Run(s, actions).log)) <==> NoStaleUser(s)
  {
    if NoStaleUser(s) {
      forall actions | PrudentRun(s, actions) ensures NoForeignRemoval(Run(s, actions).log) {
        PrudentRunRemovesOwn(s, actions);
      }
    } else {
      var id, sid :| id in s.requests && sid in s.table.bindings && UsesSession(s.requests[id], sid)
        && s.table.bindings[sid].principal != s.requests[id].principal;
      var actions := StaleUserRemoves(s, id, sid);
      assert PrudentRun(s, actions);
    }
  }
}
