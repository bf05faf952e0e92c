/** Dependency graphs: a node maps to the nodes it refers to. */
module Graphs {
  import opened Ordering

  type Graph = map<string, seq<string>>

  /** Successors of a node; a node without an entry has none. */
  function Deps(g: Graph, n: string): seq<string> {
    if n in g then g[n] else []
  }

  predicate Walk(g: Graph, p: seq<string>) {
    |p| > 0 && forall i :: 0 <= i < |p| - 1 ==> p[i + 1] in Deps(g, p[i])
  }

  predicate Inside(p: seq<string>, nodes: set<string>) {
    forall i :: 0 <= i < |p| ==> p[i] in nodes
  }

  /** A walk of at least one edge that returns to its first node. */
  predicate ClosedWalk(g: Graph, p: seq<string>) {
    |p| >= 2 && Walk(g, p) && p[0] == p[|p| - 1]
  }

  ghost predicate Acyclic(g: Graph, nodes: set<string>) {
    forall p :: Inside(p, nodes) ==> !ClosedWalk(g, p)
  }

  /** A walk of at least one edge from `a` to `b`. */
  predicate WalkBetween(g: Graph, p: seq<string>, a: string, b: string) {
    |p| >= 2 && Walk(g, p) && p[0] == a && p[|p| - 1] == b
  }

  ghost predicate Reaches(g: Graph, a: string, b: string) {
    exists p :: WalkBetween(g, p, a, b)
  }

  predicate DepsEarlier(g: Graph, nodes: set<string>, order: seq<string>) {
    forall i, d :: 0 <= i < |order| && d in Deps(g, order[i]) && d in nodes ==> d in order[..i]
  }

  /** A duplicate-free enumeration of `nodes` with every dependency first. */
  ghost predicate Topological(g: Graph, nodes: set<string>, order: seq<string>) {
    NoDuplicates(order) && Elements(order) == nodes && DepsEarlier(g, nodes, order)
  }

  /** The first index of `x`. */
  function Position(order: seq<string>, x: string): (i: nat)
    requires x in order
    ensures i < |order| && order[i] == x
    ensures forall k :: 0 <= k < |order| && order[k] == x ==> i <= k
  {
    if order[0] == x then 0 else 1 + Position(order[1..], x)
  }

  lemma EarlierPosition(order: seq<string>, x: string, i: nat)
    requires i <= |order| && x in order[..i]
    ensures x in order && Position(order, x) < i
  {
    var k :| 0 <= k < i && order[k] == x;
  }

  /** Along a walk inside a topologically ordered set, positions fall. */
  lemma {:induction false} WalkDescends(g: Graph, nodes: set<string>, order: seq<string>, p: seq<string>)
    requires Topological(g, nodes, order) && Walk(g, p) && Inside(p, nodes)
    ensures p[0] in order && p[|p| - 1] in order
    ensures |p| >= 2 ==> Position(order, p[|p| - 1]) < Position(order, p[0])
  {
    assert p[0] in Elements(order) && p[|p| - 1] in Elements(order);
    if |p| >= 2 {
      var q := p[1..];
      forall i | 0 <= i < |q| - 1
        ensures q[i + 1] in Deps(g, q[i])
      {
        var k := i + 1;
        assert p[k + 1] in Deps(g, p[k]);
      }
      WalkDescends(g, nodes, order, q);
      assert p[0 + 1] in Deps(g, p[0]);
      EarlierPosition(order, p[1], Position(order, p[0]));
    }
  }

  lemma TopologicalMeansAcyclic(g: Graph, nodes: set<string>, order: seq<string>)
    requires Topological(g, nodes, order)
    ensures Acyclic(g, nodes)
  {
    forall p | Inside(p, nodes)
      ensures !ClosedWalk(g, p)
    {
      if ClosedWalk(g, p) {
        WalkDescends(g, nodes, order, p);
      }
    }
  }

  lemma WalkConcat(g: Graph, p: seq<string>, q: seq<string>)
    requires Walk(g, p) && Walk(g, q) && p[|p| - 1] == q[0]
    ensures Walk(g, p + q[1..])
    ensures (p + q[1..])[|p + q[1..]| - 1] == q[|q| - 1]
  {
    var r := p + q[1..];
    forall i | 0 <= i < |r| - 1
      ensures r[i + 1] in Deps(g, r[i])
    {
      if i >= |p| - 1 {
        var k := i - (|p| - 1);
        assert r[i] == q[k] && r[i + 1] == q[k + 1];
      }
    }
  }
}
