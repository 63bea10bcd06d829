/**
A concrete run in which a request removes a binding that belongs to somebody else. Ann's request on
session "s" is still inside the MCP service when, after ten idle minutes, Bob's creation evicts her
binding and the service hands out "s" again; her request is then answered with 404, and Bob's binding
is dropped.
*/
module SessionReissue {
  import opened Wrappers
  import opened SessionTable
  import opened SessionInvariants
  import opened SessionTheorems

  lemma RunTwo(s: System, a: Action, b: Action)
    ensures Run(s, [a, b]) == Step(Step(s, a), b)
  {
    assert [a, b][1..] == [b] && [b][1..] == [];
    assert Run(Step(s, a), [b]) == Run(Step(Step(s, a), b), []);
  }

  lemma RunThree(s: System, a: Action, b: Action, c: Action)
    ensures Run(s, [a, b, c]) == Step(Step(Step(s, a), b), c)
  {
    assert [a, b, c][1..] == [b, c];
    RunTwo(Step(s, a), b, c);
  }

  function Opened(sid: SessionId): Response {
    Response(Success, Names(sid))
  }

  /** The undisturbed creation of `sid` by the request that arrives as number `id`. */
  function Creation(id: nat, principal: Principal, sid: SessionId): seq<Action> {
    [Arrive(principal, None, false), Advance(id), Advance(id)] + [Answer(id, Opened(sid)), Advance(id)]
  }

  lemma SweepStep(s: System, id: nat)
    requires s.stateful && id in s.requests && s.requests[id].phase.Verified? && s.requests[id].incoming.None?
    ensures var t := Step(s, Advance(id));
            t == s.(log := t.log, table := Sweep(s.table, s.now),
                    requests := s.requests[id := s.requests[id].(phase := Swept)])
  {
  }

  lemma AcquireStep(s: System, id: nat)
    requires id in s.requests && s.requests[id].phase.Swept? && 0 < s.table.free
    ensures Step(s, Advance(id)) ==
            s.(table := s.table.(free := s.table.free - 1),
               requests := s.requests[id := s.requests[id].(phase := Forwarded(true))])
  {
  }

  /** Sweep and acquisition of a request that has just arrived. */
  lemma EnterSteps(s: System, id: nat, principal: Principal)
    requires s.stateful && id in s.requests && s.requests[id] == Request(principal, None, false, Verified)
    requires 0 < Sweep(s.table, s.now).free
    ensures var swept := Sweep(s.table, s.now);
            var t := Step(Step(s, Advance(id)), Advance(id));
            t == s.(log := t.log, table := swept.(free := swept.free - 1),
                    requests := s.requests[id := Request(principal, None, false, Forwarded(true))])
  {
    var s1 := Step(s, Advance(id));
    SweepStep(s, id);
    AcquireStep(s1, id);
    assert s1.requests[id := Request(principal, None, false, Forwarded(true))]
        == s.requests[id := Request(principal, None, false, Forwarded(true))];
  }

  lemma CreationEnters(s: System, principal: Principal)
    requires s.stateful && s.arrived !in s.requests && 0 < Sweep(s.table, s.now).free
    ensures var id, swept := s.arrived, Sweep(s.table, s.now);
            var t := Run(s, [Arrive(principal, None, false), Advance(id), Advance(id)]);
            && t == s.(arrived := id + 1, log := t.log, table := swept.(free := swept.free - 1),
                       requests := s.requests[id := Request(principal, None, false, Forwarded(true))])
  {
    var id, arrive := s.arrived, Arrive(principal, None, false);
    var s1 := Step(s, arrive);
    var t := Run(s, [arrive, Advance(id), Advance(id)]);
    assert t == Step(Step(s1, Advance(id)), Advance(id)) by {
      RunThree(s, arrive, Advance(id), Advance(id));
    }
    EnterSteps(s1, id, principal);
    assert s1.requests[id := Request(principal, None, false, Forwarded(true))]
        == s.requests[id := Request(principal, None, false, Forwarded(true))];
  }

  lemma CreationEnds(s: System, id: nat, principal: Principal, sid: SessionId)
    requires s.stateful && id in s.requests && s.requests[id] == Request(principal, None, false, Forwarded(true))
    requires sid !in s.table.bindings
    ensures var t := Run(s, [Answer(id, Opened(sid)), Advance(id)]);
            t == s.(log := t.log, requests := s.requests - {id}, table := Bind(s.table, sid, principal, s.now))
  {
    RunTwo(s, Answer(id, Opened(sid)), Advance(id));
    var s1 := Step(s, Answer(id, Opened(sid)));
    assert s1.requests - {id} == s.requests - {id};
  }

  /** It succeeds whenever the sweep leaves a permit and the id is not bound. */
  lemma CreationSucceeds(s: System, principal: Principal, sid: SessionId)
    requires s.stateful && s.arrived !in s.requests
    requires sid !in Kept(s.table.bindings, s.now) && 0 < Sweep(s.table, s.now).free
    ensures var t := Run(s, Creation(s.arrived, principal, sid));
            t == s.(arrived := s.arrived + 1, log := t.log,
                    table := Table(Sweep(s.table, s.now).free - 1,
                                   Kept(s.table.bindings, s.now)[sid := Binding(principal, s.now)]))
  {
    var id := s.arrived;
    var enter := [Arrive(principal, None, false), Advance(id), Advance(id)];
    RunConcat(s, enter, [Answer(id, Opened(sid)), Advance(id)]);
    CreationEnters(s, principal);
    var mid := Run(s, enter);
    CreationEnds(mid, id, principal, sid);
    assert mid.requests - {id} == s.requests;
  }

  const Ann := Principal("ann", "1", "client", "realm")
  const Bob := Principal("bob", "2", "client", "realm")

  /** Ann's request, admitted while her binding is live and left pending. */
  const AnnAsks: seq<Action> := [Arrive(Ann, Some("s"), false), Advance(1), Tick(SESSION_BINDING_IDLE + 1)]

  const AnnIsAnswered: seq<Action> := [Answer(1, Response(NotFound, Absent)), Advance(1)]

  const AnnPending := Request(Ann, Some("s"), false, Forwarded(false))

  lemma RequestOutlivesItsBinding(s: System)
    requires s.stateful && s.arrived == 1 && s.requests == map[] && s.now == 0
    requires s.table == Table(0, map["s" := Binding(Ann, 0)])
    ensures var t := Run(s, AnnAsks);
            t == s.(arrived := 2, requests := map[1 := AnnPending], now := SESSION_BINDING_IDLE + 1, log := t.log)
  {
    RunThree(s, AnnAsks[0], AnnAsks[1], AnnAsks[2]);
    var s2 := Step(Step(s, AnnAsks[0]), Advance(1));
    assert s2.requests == map[1 := AnnPending] && s2.table == s.table;
  }

  /** The service answers Ann's pending request late, and Bob loses his session. */
  lemma LateAnswerRemovesReissuedSession()
    ensures !NoForeignRemoval(
              Run(Init(true, 1), Creation(0, Ann, "s") + AnnAsks + Creation(2, Bob, "s") + AnnIsAnswered).log)
  {
    var s0 := Init(true, 1);
    var s1 := Run(s0, Creation(0, Ann, "s"));
    assert s1.(log := []) == System(true, 1, 0, Table(0, map["s" := Binding(Ann, 0)]), 1, map[], []) by {
      assert Evicted(s0.table.bindings, 0) == map[] && Kept(s0.table.bindings, 0) == map[];
      CreationSucceeds(s0, Ann, "s");
    }
    var s2 := Run(s1, AnnAsks);
    RequestOutlivesItsBinding(s1);
    var s3 := Run(s2, Creation(2, Bob, "s"));
    assert s3.requests == map[1 := AnnPending] && s3.table.bindings == map["s" := Binding(Bob, s2.now)] by {
      assert Evicted(s2.table.bindings, s2.now) == s2.table.bindings && Kept(s2.table.bindings, s2.now) == map[];
      CreationSucceeds(s2, Bob, "s");
    }
    RunConcat(s0, Creation(0, Ann, "s"), AnnAsks);
    RunConcat(s0, Creation(0, Ann, "s") + AnnAsks, Creation(2, Bob, "s"));
    RunConcat(s0, Creation(0, Ann, "s") + AnnAsks + Creation(2, Bob, "s"), AnnIsAnswered);
    InitHolds(true, 1);
    RunKeeps(s0, Creation(0, Ann, "s") + AnnAsks + Creation(2, Bob, "s"));
    StaleAnswerHits(s3);
  }

  lemma StaleAnswerHits(s: System)
    requires Inv(s) && s.stateful
    requires 1 in s.requests && s.requests[1] == AnnPending
    requires "s" in s.table.bindings && s.table.bindings["s"].principal == Bob
    ensures !NoForeignRemoval(Run(s, AnnIsAnswered).log)
  {
    RunTwo(s, AnnIsAnswered[0], AnnIsAnswered[1]);
    StepKeeps(s, AnnIsAnswered[0]);
    StaleRemovalHits(Step(s, AnnIsAnswered[0]), 1, "s");
  }
}
