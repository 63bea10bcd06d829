/**
The wave-2 registry probe over a package graph: depth-first topological sort with cycle reporting,
the closure worklist, and each consumer's readiness.
*/
module PackageReadiness {
  import opened PackageGraph
  import opened Ordering

  /** `Unknown` stands for the `KeyError` on a name that is not a package. */
  datatype Outcome = Fine | Cyclic(path: seq<string>) | Unknown(name: string)

  datatype Validation = Ordered(order: seq<string>) | Rejected(why: Outcome)

  /** A cycle of edges that visits no package twice, apart from its two ends. */
  predicate SimpleCycle(g: Graph, p: seq<string>) {
    Cycle(g, p) && NoRepeats(p[1..])
  }

  predicate Dangling(g: Graph, name: string) {
    name !in g && exists n :: n in g && name in g[n]
  }

  ghost predicate Genuine(g: Graph, why: Outcome) {
    match why
    case Fine => false
    case Cyclic(path) => SimpleCycle(g, path)
    case Unknown(name) => Dangling(g, name)
  }

  lemma GenuineRefutes(g: Graph, why: Outcome)
    requires Genuine(g, why)
    ensures !(Acyclic(g) && Closed(g))
  {
    if why.Cyclic? {
      assert Cycle(g, why.path);
    }
  }

  /** An edge from the top of a repetition-free stack back to one of its packages closes a simple cycle. */
  lemma StackCycle(g: Graph, stack: seq<string>, start: nat)
    requires start < |stack| && IsPath(g, stack) && NoRepeats(stack)
    requires Edge(g, stack[|stack| - 1], stack[start])
    ensures SimpleCycle(g, stack[start..] + [stack[start]])
  {
    var path := stack[start..] + [stack[start]];
    forall i | 0 <= i < |path| - 1 ensures Edge(g, path[i], path[i + 1]) {
      assert path[i] == stack[start + i];
      if i < |path| - 2 {
        assert path[i + 1] == stack[start + i + 1] && Edge(g, stack[start + i], stack[start + i + 1]);
      }
    }
    forall i, j | 0 <= i < j < |path[1..]| ensures path[1..][i] != path[1..][j] {
      assert path[1..][i] == stack[start + 1 + i];
      assert j < |path[1..]| - 1 ==> path[1..][j] == stack[start + 1 + j];
    }
  }

  class DepthFirst {
    const graph: Graph
    var state: map<string, int>
    var order: seq<string>
    var stack: seq<string>

    constructor (g: Graph)
      ensures graph == g && state == map[] && order == [] && stack == []
    {
      graph := g;
      state, order, stack := map[], [], [];
    }

    ghost predicate Valid()
      reads this
    {
      && state.Keys <= graph.Keys
      && (forall n :: n in order <==> n in state && state[n] == 2)
      && (forall n :: n in stack <==> n in state && state[n] == 1)
      && (forall n :: n in state ==> state[n] == 1 || state[n] == 2)
      && NoRepeats(stack) && (stack != [] ==> IsPath(graph, stack))
      && Topological(graph, order)
    }

    method Visit(coordinate: string) returns (r: Outcome)
      requires Valid()
      requires stack != [] ==> Edge(graph, stack[|stack| - 1], coordinate)
      requires stack == [] ==> coordinate in graph
      modifies this`state, this`order, this`stack
      ensures old(state.Keys) <= state.Keys
      ensures r.Fine? ==> Valid() && stack == old(stack) && old(order) <= order && coordinate in order
      ensures !r.Fine? ==> Genuine(graph, r)
      decreases graph.Keys - state.Keys, 1
    {
      if coordinate in state && state[coordinate] == 2 {
        return Fine;
      }
      if coordinate in state && state[coordinate] == 1 {
        assert coordinate in stack;
        var path := CycleFrom(coordinate);
        return Cyclic(path);
      }
      if coordinate !in graph {
        return Unknown(coordinate);
      }
      r := VisitNew(coordinate);
    }

    /** A package met for the first time: its dependencies come first. */
    method VisitNew(coordinate: string) returns (r: Outcome)
      requires Valid() && coordinate in graph && coordinate !in state
      requires stack != [] ==> Edge(graph, stack[|stack| - 1], coordinate)
      modifies this`state, this`order, this`stack
      ensures old(state.Keys) <= state.Keys
      ensures r.Fine? ==> Valid() && stack == old(stack) && old(order) <= order && coordinate in order
      ensures !r.Fine? ==> Genuine(graph, r)
      decreases graph.Keys - state.Keys, 0
    {
      ghost var unseen, above := graph.Keys - state.Keys, stack;
      Enter(coordinate);
      assert coordinate in unseen && graph.Keys - state.Keys == unseen - {coordinate};
      r := VisitDependencies(coordinate);
      if r.Fine? {
        Exit(coordinate, above);
      }
    }

    /** Visits the dependencies of the package on top of the stack, in their order. */
    method VisitDependencies(coordinate: string) returns (r: Outcome)
      requires Valid() && stack != [] && stack[|stack| - 1] == coordinate
      modifies this`state, this`order, this`stack
      ensures old(state.Keys) <= state.Keys
      ensures r.Fine? ==>
        && Valid() && stack == old(stack) && old(order) <= order
        && forall d :: d in graph[coordinate] ==> d in order
      ensures !r.Fine? ==> Genuine(graph, r)
      decreases graph.Keys - state.Keys, 2
    {
      assert coordinate in stack;
      var dependencies := graph[coordinate];
      for i := 0 to |dependencies|
        invariant Valid() && stack == old(stack)
        invariant old(state.Keys) <= state.Keys && old(order) <= order
        invariant forall k :: 0 <= k < i ==> dependencies[k] in order
      {
        assert Edge(graph, coordinate, dependencies[i]);
        r := Visit(dependencies[i]);
        if !r.Fine? {
          return;
        }
      }
      r := Fine;
    }

    /** Visits every package, in name order. */
    method VisitAll(names: seq<string>) returns (r: Outcome)
      requires Valid() && stack == [] && forall n :: n in names ==> n in graph
      modifies this`state, this`order, this`stack
      ensures r.Fine? ==> Topological(graph, order) && forall k :: 0 <= k < |names| ==> names[k] in order
      ensures !r.Fine? ==> Genuine(graph, r)
    {
      for i := 0 to |names|
        invariant Valid() && stack == []
        invariant forall k :: 0 <= k < i ==> names[k] in order
      {
        assert names[i] in names;
        r := Visit(names[i]);
        if !r.Fine? {
          return;
        }
      }
      r := Fine;
    }

    /** The part of the stack from the package met again on, closed by that package. */
    method CycleFrom(coordinate: string) returns (path: seq<string>)
      requires Valid() && coordinate in stack && Edge(graph, stack[|stack| - 1], coordinate)
      ensures SimpleCycle(graph, path)
    {
      var start := 0;
      while stack[start] != coordinate
        invariant start < |stack| && coordinate !in stack[..start]
        decreases |stack| - start
      {
        start := start + 1;
      }
      path := stack[start..] + [coordinate];
      StackCycle(graph, stack, start);
    }

    method Enter(coordinate: string)
      requires Valid() && coordinate in graph && coordinate !in state
      requires stack != [] ==> Edge(graph, stack[|stack| - 1], coordinate)
      modifies this`state, this`stack
      ensures Valid() && stack == old(stack) + [coordinate]
      ensures state.Keys == old(state.Keys) + {coordinate}
    {
      state := state[coordinate := 1];
      stack := stack + [coordinate];
    }

    method Exit(coordinate: string, ghost above: seq<string>)
      requires Valid() && stack == above + [coordinate]
      requires forall d :: d in graph[coordinate] ==> d in order
      modifies this`state, this`order, this`stack
      ensures Valid() && stack == above && order == old(order) + [coordinate]
      ensures state.Keys == old(state.Keys)
    {
      ghost var full := stack;
      assert full == above + [coordinate] && full[|above|] == coordinate;
      assert coordinate in full && coordinate !in order;
      PathPrefix(graph, above, coordinate);
      TopologicalSnoc(graph, order, coordinate);
      stack := stack[..|stack| - 1];
      state := state[coordinate := 2];
      order := order + [coordinate];
    }
  }

  /** Terminates on every map. It orders all packages, dependencies first, or reports a genuine cycle
      or a dangling name; it succeeds exactly when there is neither. */
  method ValidateAcyclic(g: Graph) returns (r: Validation)
    ensures r.Ordered? ==> Topological(g, r.order) && forall n :: n in r.order <==> n in g
    ensures r.Rejected? ==> Genuine(g, r.why)
    ensures r.Ordered? <==> Acyclic(g) && Closed(g)
  {
    var search := new DepthFirst(g);
    var names := SortedNames(g.Keys);
    var outcome := search.VisitAll(names);
    if outcome.Fine? {
      CompleteOrder(g, names, search.order);
      r := Ordered(search.order);
    } else {
      GenuineRefutes(g, outcome);
      r := Rejected(outcome);
    }
  }

  lemma CompleteOrder(g: Graph, names: seq<string>, order: seq<string>)
    requires Topological(g, order)
    requires forall n :: n in g ==> n in names
    requires forall k :: 0 <= k < |names| ==> names[k] in order
    ensures forall n :: n in order <==> n in g
    ensures Acyclic(g) && Closed(g)
  {
    assert forall n :: n in g ==> n in order;
    OrderedIsAcyclic(g, order);
    OrderedIsClosed(g, order);
  }

  function Reverse(s: seq<string>): (r: seq<string>)
    ensures forall x :: x in r <==> x in s
  {
    if s == [] then [] else Reverse(s[1..]) + [s[0]]
  }

  /** What the worklist keeps: everything seen is reachable, and nothing reachable has been lost. */
  ghost predicate Sweeping(g: Graph, from: set<string>, closure: set<string>, stack: seq<string>) {
    && closure <= g.Keys
    && (forall n :: n in closure || n in stack ==> Reachable(g, from, n))
    && (forall n :: n in from ==> n in closure || n in stack)
    && (forall a, b :: a in closure && Edge(g, a, b) ==> b in closure || b in stack)
  }

  lemma SweepOn(g: Graph, from: set<string>, closure: set<string>, rest: seq<string>, coordinate: string)
    requires Sweeping(g, from, closure, rest + [coordinate])
    ensures Reachable(g, from, coordinate)
    ensures coordinate in closure ==> Sweeping(g, from, closure, rest)
    ensures coordinate in g ==> Sweeping(g, from, closure + {coordinate}, rest + Reverse(g[coordinate]))
  {
    var stack := rest + [coordinate];
    assert coordinate in stack;
    assert forall n :: n in stack <==> n in rest || n == coordinate;
    if coordinate in g {
      forall n | n in g[coordinate] ensures Reachable(g, from, n) {
        DependencyIsReachable(g, from, coordinate, n);
      }
    }
  }

  /** The worklist: returns exactly what is reachable, and fails exactly when something reachable is
      not a package. */
  method PackageClosure(roots: seq<string>, g: Graph) returns (known: bool, closure: set<string>)
    ensures known <==> forall n :: Reachable(g, Names(roots), n) ==> n in g
    ensures known ==> forall n :: n in closure <==> Reachable(g, Names(roots), n)
  {
    closure := {};
    var stack := Reverse(roots);
    ghost var from := Names(roots);
    forall n | n in from ensures Reachable(g, from, n) { RootIsReachable(g, from, n); }
    while stack != []
      invariant Sweeping(g, from, closure, stack)
      decreases g.Keys - closure, |stack|
    {
      var coordinate := stack[|stack| - 1];
      assert stack == stack[..|stack| - 1] + [coordinate];
      stack := stack[..|stack| - 1];
      SweepOn(g, from, closure, stack, coordinate);
      if coordinate in closure {
        continue;
      }
      if coordinate !in g {
        return false, closure + {coordinate};
      }
      closure := closure + {coordinate};
      stack := stack + Reverse(g[coordinate]);
    }
    forall n | Reachable(g, from, n) ensures n in closure {
      var p :| IsPath(g, p) && p[0] in from && p[|p| - 1] == n;
      ClosedSetHoldsPath(g, closure, p);
    }
    known := true;
  }

  function Names(s: seq<string>): set<string> {
    set n | n in s
  }

  // ----- consumers

  datatype State = Ready | NotPublished | NoCompatibleVersion | ProbeError

  function Blocked(closure: seq<string>, states: map<string, State>): seq<string>
    requires forall n :: n in closure ==> n in states
  {
    if closure == [] then []
    else (if states[closure[0]] != Ready then [closure[0]] else []) + Blocked(closure[1..], states)
  }

  lemma {:induction false} BlockedElements(closure: seq<string>, states: map<string, State>)
    requires forall n :: n in closure ==> n in states
    ensures forall n :: n in Blocked(closure, states) <==> n in closure && states[n] != Ready
    ensures Ascending(closure) ==> Ascending(Blocked(closure, states))
  {
    if closure != [] {
      var rest := Blocked(closure[1..], states);
      BlockedElements(closure[1..], states);
      assert closure == [closure[0]] + closure[1..];
      if Ascending(closure) {
        forall i | 0 <= i < |rest| ensures StrLe(closure[0], rest[i]) && closure[0] != rest[i] {
          assert rest[i] in rest && rest[i] in closure[1..];
        }
      }
    }
  }

  /** One consumer: its recursive closure in name order, the packages that block it, and whether the
      resolver may run. */
  method ConsumerReadiness(g: Graph, direct: seq<string>, states: map<string, State>)
    returns (closure: seq<string>, blocked: seq<string>, readyForResolver: bool)
    requires Closed(g) && (forall n :: n in direct ==> n in g) && states.Keys == g.Keys
    ensures Ascending(closure) && forall n :: n in closure <==> Reachable(g, Names(direct), n)
    ensures Ascending(blocked)
    ensures forall n :: n in blocked <==> Reachable(g, Names(direct), n) && n in states && states[n] != Ready
    ensures readyForResolver <==> forall n :: Reachable(g, Names(direct), n) ==> n in states && states[n] == Ready
  {
    ReachableIsKnown(g, Names(direct));
    var known, reached := PackageClosure(direct, g);
    closure := SortedNames(reached);
    BlockedElements(closure, states);
    blocked := Blocked(closure, states);
    readyForResolver := blocked == [];
    if !readyForResolver {
      assert blocked[0] in blocked;
    }
  }

  lemma ReachableIsKnown(g: Graph, roots: set<string>)
    requires Closed(g) && roots <= g.Keys
    ensures forall n :: Reachable(g, roots, n) ==> n in g
  {
    forall n | Reachable(g, roots, n) ensures n in g {
      var p :| IsPath(g, p) && p[0] in roots && p[|p| - 1] == n;
      ClosedSetHoldsPath(g, g.Keys, p);
    }
  }

  /** The topological order restricted to a consumer's closure installs exactly that closure, every
      dependency before what needs it. */
  lemma InstallOrder(g: Graph, order: seq<string>, roots: set<string>, closure: set<string>)
    requires Topological(g, order) && (forall n :: n in g ==> n in order) && Closed(g) && roots <= g.Keys
    requires forall n :: n in closure <==> Reachable(g, roots, n)
    ensures Topological(g, Restrict(order, closure))
    ensures forall n :: n in Restrict(order, closure) <==> Reachable(g, roots, n)
  {
    forall a, b | a in closure && Edge(g, a, b) ensures b in closure {
      DependencyIsReachable(g, roots, a, b);
    }
    RestrictIsTopological(g, order, closure);
    RestrictElements(order, closure);
    ReachableIsKnown(g, roots);
  }
}
