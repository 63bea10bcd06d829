/** Finite dependency maps: paths, cycles, reachability and dependency order. */
module PackageGraph {
  import opened Ordering

  type Graph = map<string, seq<string>>

  predicate Edge(g: Graph, a: string, b: string) {
    a in g && b in g[a]
  }

  predicate IsPath(g: Graph, p: seq<string>) {
    p != [] && forall i :: 0 <= i < |p| - 1 ==> Edge(g, p[i], p[i + 1])
  }

  predicate Cycle(g: Graph, p: seq<string>) {
    IsPath(g, p) && 2 <= |p| && p[0] == p[|p| - 1]
  }

  ghost predicate Acyclic(g: Graph) {
    forall p :: !Cycle(g, p)
  }

  /** Every dependency is itself a package of the map. */
  predicate Closed(g: Graph) {
    forall n :: n in g ==> forall d :: d in g[n] ==> d in g
  }

  /** No package twice, and every dependency before its dependents. */
  predicate Topological(g: Graph, order: seq<string>) {
    && NoRepeats(order)
    && forall i :: 0 <= i < |order| ==> order[i] in g && forall d :: d in g[order[i]] ==> d in order[..i]
  }

  ghost predicate Reachable(g: Graph, roots: set<string>, n: string) {
    exists p :: IsPath(g, p) && p[0] in roots && p[|p| - 1] == n
  }

  // ----- reachability

  lemma RootIsReachable(g: Graph, roots: set<string>, n: string)
    requires n in roots
    ensures Reachable(g, roots, n)
  {
    assert IsPath(g, [n]);
  }

  lemma DependencyIsReachable(g: Graph, roots: set<string>, n: string, d: string)
    requires Reachable(g, roots, n) && Edge(g, n, d)
    ensures Reachable(g, roots, d)
  {
    var p :| IsPath(g, p) && p[0] in roots && p[|p| - 1] == n;
    var q := p + [d];
    assert IsPath(g, q);
    assert q[0] in roots && q[|q| - 1] == d;
  }

  /** A set that holds the roots and follows every edge holds everything reachable. */
  lemma {:induction false} ClosedSetHoldsPath(g: Graph, s: set<string>, p: seq<string>)
    requires IsPath(g, p) && p[0] in s
    requires forall a, b :: a in s && Edge(g, a, b) ==> b in s
    ensures p[|p| - 1] in s
  {
    if |p| > 1 {
      assert Edge(g, p[0], p[1]);
      assert IsPath(g, p[1..]) by {
        forall i | 0 <= i < |p[1..]| - 1 ensures Edge(g, p[1..][i], p[1..][i + 1]) {
          assert Edge(g, p[i + 1], p[i + 2]);
        }
      }
      ClosedSetHoldsPath(g, s, p[1..]);
    }
  }

  // ----- orders and cycles

  /** Along a path the positions in a dependency order go strictly down. */
  lemma {:induction false} PathGoesDown(g: Graph, order: seq<string>, p: seq<string>, i: nat) returns (j: int)
    requires Topological(g, order) && IsPath(g, p) && i < |order| && p[0] == order[i]
    ensures 0 <= j <= i - (|p| - 1) && order[j] == p[|p| - 1]
  {
    if |p| == 1 {
      j := i;
    } else {
      assert Edge(g, p[0], p[1]);
      var k :| 0 <= k < i && order[k] == p[1];
      assert IsPath(g, p[1..]) by {
        forall m | 0 <= m < |p[1..]| - 1 ensures Edge(g, p[1..][m], p[1..][m + 1]) {
          assert Edge(g, p[m + 1], p[m + 2]);
        }
      }
      j := PathGoesDown(g, order, p[1..], k);
    }
  }

  lemma TopologicalSnoc(g: Graph, order: seq<string>, n: string)
    requires Topological(g, order) && n in g && n !in order
    requires forall d :: d in g[n] ==> d in order
    ensures Topological(g, order + [n])
  {
    var more := order + [n];
    forall i | 0 <= i < |more| ensures more[i] in g && forall d :: d in g[more[i]] ==> d in more[..i] {
      assert more[..i] == order[..i];
      assert order[..|order|] == order;
    }
  }

  lemma PathPrefix(g: Graph, p: seq<string>, n: string)
    requires IsPath(g, p + [n]) && NoRepeats(p + [n])
    ensures p != [] ==> IsPath(g, p)
    ensures NoRepeats(p) && n !in p
  {
    var q := p + [n];
    assert forall i :: 0 <= i < |p| ==> p[i] == q[i];
    assert forall i :: 0 <= i < |p| ==> q[i] != q[|p|];
  }

  /** A map that can be ordered completely has no cycle. */
  lemma OrderedIsAcyclic(g: Graph, order: seq<string>)
    requires Topological(g, order) && forall n :: n in g ==> n in order
    ensures Acyclic(g)
  {
    forall p ensures !Cycle(g, p) {
      if Cycle(g, p) {
        assert Edge(g, p[0], p[1]);
        var i :| 0 <= i < |order| && order[i] == p[0];
        var j := PathGoesDown(g, order, p, i);
      }
    }
  }

  /** In a complete dependency order every dependency is a package. */
  lemma OrderedIsClosed(g: Graph, order: seq<string>)
    requires Topological(g, order) && forall n :: n in g ==> n in order
    ensures Closed(g)
  {
    forall n, d | n in g && d in g[n] ensures d in g {
      var i :| 0 <= i < |order| && order[i] == n;
      assert d in order[..i];
    }
  }

  // ----- installing one consumer's closure

  function Restrict(order: seq<string>, keep: set<string>): seq<string> {
    if order == [] then []
    else
      var front := Restrict(order[..|order| - 1], keep);
      if order[|order| - 1] in keep then front + [order[|order| - 1]] else front
  }

  lemma {:induction false} RestrictElements(order: seq<string>, keep: set<string>)
    ensures forall n :: n in Restrict(order, keep) <==> n in order && n in keep
    ensures NoRepeats(order) ==> NoRepeats(Restrict(order, keep))
  {
    if order != [] {
      var front, last := order[..|order| - 1], order[|order| - 1];
      RestrictElements(front, keep);
      assert order == front + [last];
      assert forall k :: 0 <= k < |front| ==> front[k] == order[k];
    }
  }

  /** Restricting a dependency order to a dependency-closed set leaves a dependency order. */
  lemma {:induction false} RestrictIsTopological(g: Graph, order: seq<string>, keep: set<string>)
    requires Topological(g, order)
    requires forall a, b :: a in keep && Edge(g, a, b) ==> b in keep
    ensures Topological(g, Restrict(order, keep))
  {
    RestrictElements(order, keep);
    if order != [] {
      var front, last := order[..|order| - 1], order[|order| - 1];
      assert Topological(g, front) by {
        forall i | 0 <= i < |front| ensures front[i] in g && forall d :: d in g[front[i]] ==> d in front[..i] {
          assert front[i] == order[i] && front[..i] == order[..i];
        }
      }
      RestrictIsTopological(g, front, keep);
      RestrictElements(front, keep);
      var kept, r := Restrict(front, keep), Restrict(order, keep);
      if last in keep {
        forall i | 0 <= i < |r| ensures r[i] in g && forall d :: d in g[r[i]] ==> d in r[..i] {
          if i < |kept| {
            assert r[i] == kept[i] && r[..i] == kept[..i];
          } else {
            assert r[..i] == kept;
            forall d | d in g[last] ensures d in kept {
              assert d in order[..|order| - 1] && Edge(g, last, d);
            }
          }
        }
      }
    }
  }
}
