/**
  The second stage of `topologicalOrder`: Kahn's algorithm over in-degrees,
  always emitting the lexicographically smallest ready service.
*/
module Kahn {
  import opened Ordering
  import opened Graphs
  import opened CycleSearch

  // ----- Counting dependencies that are still open -----

  /** How many entries of `deps` name a member of `open`. */
  function Remaining(deps: seq<string>, open: set<string>): nat {
    if deps == [] then 0
    else Remaining(deps[..|deps| - 1], open) + if deps[|deps| - 1] in open then 1 else 0
  }

  lemma {:induction false} RemainingZero(deps: seq<string>, open: set<string>)
    ensures Remaining(deps, open) == 0 <==> forall d :: d in deps ==> d !in open
  {
    if deps == [] {
    } else {
      var init, last := deps[..|deps| - 1], deps[|deps| - 1];
      assert deps == init + [last];
      RemainingZero(init, open);
      assert last in deps;
      assert forall d :: d in deps <==> d in init || d == last;
    }
  }

  lemma {:induction false} RemainingShrink(deps: seq<string>, open: set<string>, name: string)
    requires name in open
    ensures Remaining(deps, open) == Remaining(deps, open - {name}) + multiset(deps)[name]
  {
    if deps == [] {
    } else {
      var init, last := deps[..|deps| - 1], deps[|deps| - 1];
      assert deps == init + [last];
      RemainingShrink(init, open, name);
      assert multiset(deps)[name] == multiset(init)[name] + if last == name then 1 else 0;
    }
  }

  // ----- In-degree and dependents tables -----

  type Degrees = map<string, nat>
  type Dependents = map<string, seq<string>>

  function Degree(indegree: Degrees, n: string): nat {
    if n in indegree then indegree[n] else 0
  }

  function DependentsOf(dependents: Dependents, d: string): seq<string> {
    if d in dependents then dependents[d] else []
  }

  function Edges(dependents: Dependents, d: string, n: string): nat {
    multiset(DependentsOf(dependents, d))[n]
  }

  function SelectedEdges(deps: seq<string>, closure: set<string>, d: string): nat {
    if d in closure then multiset(deps)[d] else 0
  }

  /** The tables differ only in the row of `name`. */
  ghost predicate SameElsewhere(name: string, indegree: Degrees, dependents: Dependents, indegree': Degrees,
                                dependents': Dependents) {
    && (forall n :: n != name ==> Degree(indegree', n) == Degree(indegree, n))
    && (forall d, n :: n != name ==> Edges(dependents', d, n) == Edges(dependents, d, n))
  }

  ghost predicate RowCounted(closure: set<string>, name: string, deps: seq<string>, indegree: Degrees,
                             dependents: Dependents) {
    && Degree(indegree, name) == Remaining(deps, closure)
    && forall d :: Edges(dependents, d, name) == SelectedEdges(deps, closure, d)
  }

  lemma EdgesAfterAppend(dependents: Dependents, d: string, name: string)
    ensures forall d', n' :: Edges(dependents[d := DependentsOf(dependents, d) + [name]], d', n')
                             == Edges(dependents, d', n') + if d' == d && n' == name then 1 else 0
  {
  }

  lemma RowNext(closure: set<string>, name: string, deps: seq<string>, i: nat, indegree: Degrees,
                dependents: Dependents, indegree': Degrees, dependents': Dependents)
    requires i < |deps| && RowCounted(closure, name, deps[..i], indegree, dependents)
    requires if deps[i] in closure then
               && indegree' == indegree[name := Degree(indegree, name) + 1]
               && dependents' == dependents[deps[i] := DependentsOf(dependents, deps[i]) + [name]]
             else indegree' == indegree && dependents' == dependents
    ensures RowCounted(closure, name, deps[..i + 1], indegree', dependents')
    ensures SameElsewhere(name, indegree, dependents, indegree', dependents')
  {
    var longer := deps[..i + 1];
    assert longer[..|longer| - 1] == deps[..i] && longer == deps[..i] + [deps[i]];
    if deps[i] in closure {
      EdgesAfterAppend(dependents, deps[i], name);
    }
    forall d
      ensures Edges(dependents', d, name) == SelectedEdges(longer, closure, d)
    {
      assert multiset(longer)[d] == multiset(deps[..i])[d] + if d == deps[i] then 1 else 0;
    }
  }

  method CountRow(services: Graph, closure: set<string>, name: string, indegree: Degrees, dependents: Dependents)
    returns (indegree': Degrees, dependents': Dependents)
    requires RowCounted(closure, name, [], indegree, dependents)
    ensures RowCounted(closure, name, Deps(services, name), indegree', dependents')
    ensures SameElsewhere(name, indegree, dependents, indegree', dependents')
  {
    var deps := Deps(services, name);
    indegree', dependents' := indegree, dependents;
    assert deps[..0] == [];
    for i := 0 to |deps|
      invariant RowCounted(closure, name, deps[..i], indegree', dependents')
      invariant SameElsewhere(name, indegree, dependents, indegree', dependents')
    {
      ghost var indegree0, dependents0 := indegree', dependents';
      var dependency := deps[i];
      if dependency in closure {
        indegree' := indegree'[name := Degree(indegree', name) + 1];
        dependents' := dependents'[dependency := DependentsOf(dependents', dependency) + [name]];
      }
      RowNext(closure, name, deps, i, indegree0, dependents0, indegree', dependents');
    }
    assert deps[..|deps|] == deps;
  }

  /** Rows in `counted` hold the full counts; the other rows are empty. */
  ghost predicate Tables(services: Graph, closure: set<string>, counted: set<string>, indegree: Degrees,
                         dependents: Dependents) {
    forall n :: RowCounted(closure, n, if n in counted then Deps(services, n) else [], indegree, dependents)
  }

  ghost predicate ReadyIs(ready: seq<string>, want: iset<string>) {
    NoDuplicates(ready) && forall n :: n in ready <==> n in want
  }

  lemma ReadyAppend(ready: seq<string>, want: iset<string>, name: string, want': iset<string>)
    requires ReadyIs(ready, want) && name !in want
    requires forall n :: n in want' <==> n in want || n == name
    ensures ReadyIs(ready + [name], want')
  {
    assert name !in ready;
  }

  lemma TablesNext(services: Graph, closure: set<string>, counted: set<string>, name: string, indegree: Degrees,
                   dependents: Dependents, indegree': Degrees, dependents': Dependents)
    requires Tables(services, closure, counted, indegree, dependents)
    requires RowCounted(closure, name, Deps(services, name), indegree', dependents')
    requires SameElsewhere(name, indegree, dependents, indegree', dependents')
    ensures Tables(services, closure, counted + {name}, indegree', dependents')
  {
    forall n | n != name
      ensures RowCounted(closure, n, if n in counted + {name} then Deps(services, n) else [], indegree', dependents')
    {
      assert RowCounted(closure, n, if n in counted then Deps(services, n) else [], indegree, dependents);
    }
  }

  /** Members of `among` none of whose dependencies is open. */
  ghost function Unblocked(services: Graph, among: set<string>, open: set<string>): iset<string> {
    iset n | n in among && Remaining(Deps(services, n), open) == 0
  }

  method BuildTables(services: Graph, closure: set<string>)
    returns (indegree: Degrees, dependents: Dependents, ready: seq<string>)
    ensures Tables(services, closure, closure, indegree, dependents)
    ensures ReadyIs(ready, Unblocked(services, closure, closure))
  {
    indegree, dependents, ready := map[], map[], [];
    var todo, counted := closure, {};
    while todo != {}
      invariant counted + todo == closure && counted !! todo
      invariant Tables(services, closure, counted, indegree, dependents)
      invariant ReadyIs(ready, Unblocked(services, counted, closure))
    {
      var name :| name in todo;
      ghost var indegree0, dependents0 := indegree, dependents;
      assert RowCounted(closure, name, [], indegree, dependents);
      indegree, dependents := CountRow(services, closure, name, indegree, dependents);
      TablesNext(services, closure, counted, name, indegree0, dependents0, indegree, dependents);
      if Degree(indegree, name) == 0 {
        ReadyAppend(ready, Unblocked(services, counted, closure), name,
                    Unblocked(services, counted + {name}, closure));
        ready := ready + [name];
      }
      todo, counted := todo - {name}, counted + {name};
    }
    assert counted == closure;
  }

  // ----- Emitting -----

  /** While `rest` of `name`'s dependents still has to be decremented. */
  ghost predicate DegreesDuring(services: Graph, closure: set<string>, open: set<string>, rest: seq<string>,
                                indegree: Degrees) {
    forall n :: n in closure ==> Degree(indegree, n) == Remaining(Deps(services, n), open) + multiset(rest)[n]
  }

  ghost function ZeroDegree(open: set<string>, indegree: Degrees): iset<string> {
    iset n | n in open && Degree(indegree, n) == 0
  }

  lemma DecrementKeeps(services: Graph, closure: set<string>, open: set<string>, rest: seq<string>, indegree: Degrees)
    requires rest != [] && rest[0] in closure
    requires DegreesDuring(services, closure, open, rest, indegree)
    ensures Degree(indegree, rest[0]) > 0
    ensures DegreesDuring(services, closure, open, rest[1..], indegree[rest[0] := Degree(indegree, rest[0]) - 1])
  {
    assert rest == [rest[0]] + rest[1..];
    assert forall n :: multiset(rest)[n] == multiset(rest[1..])[n] + if n == rest[0] then 1 else 0;
  }

  method Release(services: Graph, closure: set<string>, ghost open: set<string>, toRelease: seq<string>,
                 indegree: Degrees, ready: seq<string>) returns (indegree': Degrees, ready': seq<string>)
    requires open <= closure && forall n :: n in toRelease ==> n in open
    requires DegreesDuring(services, closure, open, toRelease, indegree)
    requires ReadyIs(ready, ZeroDegree(open, indegree))
    ensures DegreesDuring(services, closure, open, [], indegree')
    ensures ReadyIs(ready', ZeroDegree(open, indegree'))
  {
    indegree', ready' := indegree, ready;
    assert toRelease[0..] == toRelease;
    for i := 0 to |toRelease|
      invariant DegreesDuring(services, closure, open, toRelease[i..], indegree')
      invariant ReadyIs(ready', ZeroDegree(open, indegree'))
    {
      var dependent := toRelease[i];
      assert toRelease[i..][1..] == toRelease[i + 1..];
      DecrementKeeps(services, closure, open, toRelease[i..], indegree');
      ghost var indegree0 := indegree';
      indegree' := indegree'[dependent := Degree(indegree', dependent) - 1];
      if Degree(indegree', dependent) == 0 {
        ReadyAppend(ready', ZeroDegree(open, indegree0), dependent, ZeroDegree(open, indegree'));
        ready' := ready' + [dependent];
      }
    }
    assert toRelease[|toRelease|..] == [];
  }

  /** The services whose selected dependencies have all been emitted. */
  ghost function Available(services: Graph, closure: set<string>, emitted: seq<string>): set<string> {
    set n | n in closure && n !in emitted && forall d :: d in Deps(services, n) && d in closure ==> d in emitted
  }

  /** Each position holds the smallest service available there. */
  ghost predicate Greedy(services: Graph, closure: set<string>, order: seq<string>) {
    forall i :: 0 <= i < |order| ==>
      && order[i] in Available(services, closure, order[..i])
      && forall n :: n in Available(services, closure, order[..i]) ==> AtMost(order[i], n)
  }

  lemma ZeroDegreeIsAvailable(services: Graph, closure: set<string>, order: seq<string>, indegree: Degrees, n: string)
    requires DegreesDuring(services, closure, closure - Elements(order), [], indegree)
    ensures n in ZeroDegree(closure - Elements(order), indegree) <==> n in Available(services, closure, order)
  {
    RemainingZero(Deps(services, n), closure - Elements(order));
  }

  lemma GreedyNext(services: Graph, closure: set<string>, order: seq<string>, name: string)
    requires Greedy(services, closure, order)
    requires name in Available(services, closure, order)
    requires forall n :: n in Available(services, closure, order) ==> AtMost(name, n)
    ensures Greedy(services, closure, order + [name])
  {
    var longer := order + [name];
    forall i | 0 <= i < |longer|
      ensures longer[i] in Available(services, closure, longer[..i])
      ensures forall n :: n in Available(services, closure, longer[..i]) ==> AtMost(longer[i], n)
    {
      assert longer[..i] == order[..i];
      if i == |order| {
        assert order[..i] == order;
      }
    }
  }

  lemma GreedyPrefixes(services: Graph, closure: set<string>, order: seq<string>)
    requires Greedy(services, closure, order)
    ensures NoDuplicates(order) && Inside(order, closure) && DepsEarlier(services, closure, order)
  {
    forall i, j | 0 <= i < j < |order|
      ensures order[i] != order[j]
    {
      assert order[j] in Available(services, closure, order[..j]);
      assert order[i] == order[..j][i];
    }
    forall i | 0 <= i < |order|
      ensures order[i] in closure
      ensures forall d :: d in Deps(services, order[i]) && d in closure ==> d in order[..i]
    {
      assert order[i] in Available(services, closure, order[..i]);
    }
  }

  /** Removing `name` from the open set is what its dependents account for. */
  lemma EmitDegrees(services: Graph, closure: set<string>, open: set<string>, name: string, indegree: Degrees,
                    dependents: Dependents, indegree0: Degrees)
    requires Tables(services, closure, closure, indegree0, dependents)
    requires open <= closure && name in open && DegreesDuring(services, closure, open, [], indegree)
    ensures DegreesDuring(services, closure, open - {name}, DependentsOf(dependents, name), indegree)
  {
    forall n | n in closure
      ensures Degree(indegree, n) ==
              Remaining(Deps(services, n), open - {name}) + multiset(DependentsOf(dependents, name))[n]
    {
      RemainingShrink(Deps(services, n), open, name);
      assert RowCounted(closure, n, Deps(services, n), indegree0, dependents);
      assert Edges(dependents, name, n) == SelectedEdges(Deps(services, n), closure, name);
    }
  }

  /** A dependent of a service that is about to be emitted is itself still open. */
  lemma DependentsAreOpen(services: Graph, closure: set<string>, order: seq<string>, name: string,
                          dependents: Dependents, indegree0: Degrees, n: string)
    requires Tables(services, closure, closure, indegree0, dependents)
    requires Greedy(services, closure, order) && name in Available(services, closure, order)
    requires n in DependentsOf(dependents, name)
    ensures n in closure - Elements(order) - {name}
  {
    assert Edges(dependents, name, n) > 0;
    assert RowCounted(closure, n, if n in closure then Deps(services, n) else [], indegree0, dependents);
    assert Edges(dependents, name, n) == SelectedEdges(if n in closure then Deps(services, n) else [], closure, name);
    assert n in closure && name in Deps(services, n);
    GreedyPrefixes(services, closure, order);
  }

  lemma EmitReady(ready: seq<string>, open: set<string>, indegree: Degrees)
    requires ready != [] && ReadyIs(ready, ZeroDegree(open, indegree))
    ensures ReadyIs(ready[1..], ZeroDegree(open - {ready[0]}, indegree))
  {
    assert ready[0] !in ready[1..];
    assert forall n :: n in ready <==> n == ready[0] || n in ready[1..];
  }

  lemma SortedReady(ready: seq<string>, want: iset<string>)
    requires ReadyIs(ready, want)
    ensures ReadyIs(SortStrings(ready), want)
    ensures |SortStrings(ready)| == |ready|
    ensures forall i :: 0 <= i < |ready| ==> AtMost(SortStrings(ready)[0], SortStrings(ready)[i])
  {
    SortNoDuplicates(ready);
    SortSorts(ready);
    forall n
      ensures n in SortStrings(ready) <==> n in ready
    {
      SortKeepsMembers(ready, n);
    }
    SortKeepsMembers(ready, "");
  }

  method EmitAll(services: Graph, closure: set<string>) returns (order: seq<string>)
    ensures Greedy(services, closure, order)
    ensures Available(services, closure, order) == {}
  {
    var indegree, dependents, ready := BuildTables(services, closure);
    ghost var indegree0 := indegree;
    order := [];
    ghost var open := closure;
    InitialDegrees(services, closure, indegree, dependents);
    while |ready| > 0
      invariant Greedy(services, closure, order) && open == closure - Elements(order)
      invariant DegreesDuring(services, closure, open, [], indegree)
      invariant ReadyIs(ready, ZeroDegree(open, indegree))
      decreases open
    {
      SortedReady(ready, ZeroDegree(open, indegree));
      ready := SortStrings(ready);
      var name := ready[0];
      SmallestReady(services, closure, order, indegree, ready);
      GreedyNext(services, closure, order, name);
      EmitReady(ready, open, indegree);
      EmitDegrees(services, closure, open, name, indegree, dependents, indegree0);
      forall n | n in DependentsOf(dependents, name)
        ensures n in open - {name}
      {
        DependentsAreOpen(services, closure, order, name, dependents, indegree0, n);
      }
      ready := ready[1..];
      indegree, ready := Release(services, closure, open - {name}, DependentsOf(dependents, name), indegree, ready);
      ElementsAppend(order, name);
      order := order + [name];
      open := open - {name};
    }
    forall n
      ensures n !in Available(services, closure, order)
    {
      ZeroDegreeIsAvailable(services, closure, order, indegree, n);
    }
  }

  lemma InitialDegrees(services: Graph, closure: set<string>, indegree: Degrees, dependents: Dependents)
    requires Tables(services, closure, closure, indegree, dependents)
    ensures DegreesDuring(services, closure, closure, [], indegree)
    ensures ZeroDegree(closure, indegree) == Unblocked(services, closure, closure)
  {
    forall n | n in closure
      ensures Degree(indegree, n) == Remaining(Deps(services, n), closure)
    {
      assert RowCounted(closure, n, Deps(services, n), indegree, dependents);
    }
  }

  lemma SmallestReady(services: Graph, closure: set<string>, order: seq<string>, indegree: Degrees, ready: seq<string>)
    requires DegreesDuring(services, closure, closure - Elements(order), [], indegree)
    requires ready != [] && ReadyIs(ready, ZeroDegree(closure - Elements(order), indegree))
    requires forall i :: 0 <= i < |ready| ==> AtMost(ready[0], ready[i])
    ensures ready[0] in Available(services, closure, order)
    ensures forall n :: n in Available(services, closure, order) ==> AtMost(ready[0], n)
  {
    ZeroDegreeIsAvailable(services, closure, order, indegree, ready[0]);
    forall n | n in Available(services, closure, order)
      ensures AtMost(ready[0], n)
    {
      ZeroDegreeIsAvailable(services, closure, order, indegree, n);
    }
  }

  // ----- topologicalOrder -----

  datatype Outcome =
    | Ordered(order: seq<string>)
    | CycleFound(path: seq<string>)
    | CycleDetected

  /** If some topological order exists, nothing is left when nothing is available. */
  lemma StuckMeansComplete(services: Graph, closure: set<string>, order: seq<string>, reference: seq<string>)
    requires Topological(services, closure, reference)
    requires Greedy(services, closure, order) && Available(services, closure, order) == {}
    ensures Topological(services, closure, order)
  {
    GreedyPrefixes(services, closure, order);
    assert Elements(order) <= closure;
    forall i | 0 <= i < |reference|
      ensures reference[i] in order
    {
      EmittedUpTo(services, closure, order, reference, i);
    }
    forall n | n in closure
      ensures n in order
    {
      assert n in Elements(reference);
    }
  }

  lemma {:induction false} EmittedUpTo(services: Graph, closure: set<string>, order: seq<string>,
                                       reference: seq<string>, i: nat)
    requires Topological(services, closure, reference) && i < |reference|
    requires Available(services, closure, order) == {}
    ensures reference[i] in order
  {
    forall d | d in Deps(services, reference[i]) && d in closure
      ensures d in order
    {
      assert d in reference[..i];
      var k :| 0 <= k < i && reference[k] == d;
      EmittedUpTo(services, closure, order, reference, k);
    }
    assert reference[i] in Elements(reference);
    assert reference[i] !in Available(services, closure, order);
  }

  method TopologicalOrder(services: Graph, closure: set<string>) returns (r: Outcome)
    ensures r.Ordered? <==> Acyclic(services, closure)
    ensures r.Ordered? ==> Topological(services, closure, r.order) && Greedy(services, closure, r.order)
    ensures r.CycleFound? ==> ClosedWalk(services, r.path) && Inside(r.path, closure)
    ensures !r.CycleDetected?
  {
    var search := Search(map[], []);
    ghost var finished := [];
    ghost var visited: set<string> := {};
    var selected := SelectedNames(closure);
    for i := 0 to |selected|
      invariant SearchInv(services, closure, search, finished) && search.stack == []
      invariant Elements(selected[..i]) <= Elements(finished)
    {
      var cycle;
      assert selected[i] in closure;
      cycle, search, finished := Visit(services, closure, selected[i], search, finished);
      if cycle.Some? {
        return CycleFound(cycle.value);
      }
      assert selected[..i + 1] == selected[..i] + [selected[i]];
      ElementsAppend(selected[..i], selected[i]);
    }
    assert selected[..|selected|] == selected;
    assert Elements(finished) == closure;
    TopologicalMeansAcyclic(services, closure, finished);
    var order := EmitAll(services, closure);
    StuckMeansComplete(services, closure, order, finished);
    DistinctCount(order);
    if |order| != |closure| {
      return CycleDetected;
    }
    return Ordered(order);
  }

  method SelectedNames(closure: set<string>) returns (selected: seq<string>)
    ensures Elements(selected) == closure && Sorted(selected)
  {
    selected := [];
    var todo := closure;
    while todo != {}
      invariant Elements(selected) + todo == closure
    {
      var name :| name in todo;
      todo := todo - {name};
      ElementsAppend(selected, name);
      selected := selected + [name];
    }
    SortSorts(selected);
    forall n
      ensures n in SortStrings(selected) <==> n in selected
    {
      SortKeepsMembers(selected, n);
    }
    selected := SortStrings(selected);
  }

  // ----- The order is the lexicographically least one -----

  /** `a` is `b`, or smaller at the first position where they differ. */
  ghost predicate LexAtMost(a: seq<string>, b: seq<string>) {
    a == b || exists i :: 0 <= i < |a| && i < |b| && a[..i] == b[..i] && Before(a[i], b[i])
  }

  /** A topological order picks an available service at each position. */
  lemma TopologicalPicksAvailable(services: Graph, closure: set<string>, other: seq<string>, i: nat)
    requires Topological(services, closure, other) && i < |other|
    ensures other[i] in Available(services, closure, other[..i])
  {
    assert other[i] in Elements(other);
  }

  lemma {:induction false} LeastFrom(services: Graph, closure: set<string>, order: seq<string>, other: seq<string>,
                                     i: nat)
    requires Topological(services, closure, order) && Greedy(services, closure, order)
    requires Topological(services, closure, other) && |order| == |other|
    requires i <= |order| && order[..i] == other[..i]
    ensures LexAtMost(order, other)
    decreases |order| - i
  {
    if i == |order| {
      assert order == order[..i] && other == other[..i];
    } else {
      TopologicalPicksAvailable(services, closure, other, i);
      assert AtMost(order[i], other[i]);
      if order[i] == other[i] {
        assert order[..i + 1] == order[..i] + [order[i]] && other[..i + 1] == other[..i] + [other[i]];
        LeastFrom(services, closure, order, other, i + 1);
      }
    }
  }

  /** No topological order of the selection comes before the one Kahn's loop emits. */
  lemma GreedyIsLeast(services: Graph, closure: set<string>, order: seq<string>, other: seq<string>)
    requires Topological(services, closure, order) && Greedy(services, closure, order)
    requires Topological(services, closure, other)
    ensures |order| == |other| && LexAtMost(order, other)
  {
    DistinctCount(order);
    DistinctCount(other);
    LeastFrom(services, closure, order, other, 0);
  }

  lemma LexAntisymmetric(a: seq<string>, b: seq<string>)
    requires LexAtMost(a, b) && LexAtMost(b, a)
    ensures a == b
  {
    if a != b {
      var i :| 0 <= i < |a| && i < |b| && a[..i] == b[..i] && Before(a[i], b[i]);
      var j :| 0 <= j < |b| && j < |a| && b[..j] == a[..j] && Before(b[j], a[j]);
      if i < j {
        assert a[..j][i] == b[..j][i];
      } else if j < i {
        assert a[..i][j] == b[..i][j];
      } else {
        BeforeTransitive(a[i], b[i], a[i]);
      }
      BeforeIrreflexive(a[i]);
      BeforeIrreflexive(a[j]);
    }
  }

  /** The order is a function of the selection, whatever order the maps are read in. */
  lemma GreedyIsUnique(services: Graph, closure: set<string>, order: seq<string>, other: seq<string>)
    requires Topological(services, closure, order) && Greedy(services, closure, order)
    requires Topological(services, closure, other) && Greedy(services, closure, other)
    ensures order == other
  {
    GreedyIsLeast(services, closure, order, other);
    GreedyIsLeast(services, closure, other, order);
    LexAntisymmetric(order, other);
  }
}
