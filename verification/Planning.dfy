/**
  Service selection and ordering: `validateDependencies`, `dependencyClosure`
  and `topologicalOrder`. `services` maps a service to its `depends_on` list.
*/
module Planning {
  import opened Ordering
  import opened Graphs

  // ----- validateDependencies -----

  datatype Validation =
    | Valid
    | UnknownDependency(service: string, dependency: string)
    | RepeatedDependency(service: string, dependency: string)

  /** Every listed dependency is a service, and none is listed twice. */
  predicate WellDeclared(services: Graph, name: string)
    requires name in services
  {
    (forall d :: d in services[name] ==> d in services) && NoDuplicates(services[name])
  }

  method ValidateService(services: Graph, name: string) returns (r: Validation)
    requires name in services
    ensures r.Valid? <==> WellDeclared(services, name)
    ensures r.UnknownDependency? ==> r.dependency in services[name] && r.dependency !in services
    ensures r.RepeatedDependency? ==> multiset(services[name])[r.dependency] >= 2
    ensures !r.Valid? ==> r.service == name
  {
    var deps := services[name];
    var seen: set<string> := {};
    for i := 0 to |deps|
      invariant seen == Elements(deps[..i])
      invariant forall j :: 0 <= j < i ==> deps[j] in services
      invariant NoDuplicates(deps[..i])
    {
      var dependency := deps[i];
      if dependency !in services {
        return UnknownDependency(name, dependency);
      }
      if dependency in seen {
        assert deps == deps[..i] + [dependency] + deps[i + 1..];
        assert dependency in multiset(deps[..i]);
        var k :| 0 <= k < i && deps[..i][k] == dependency;
        assert deps[k] == deps[i];
        return RepeatedDependency(name, dependency);
      }
      seen := seen + {dependency};
      assert deps[..i + 1] == deps[..i] + [dependency];
    }
    assert deps[..|deps|] == deps;
    return Valid;
  }

  method ValidateDependencies(services: Graph) returns (r: Validation)
    ensures r.Valid? <==> forall name :: name in services ==> WellDeclared(services, name)
    ensures r.UnknownDependency? ==>
              r.service in services && r.dependency in services[r.service] && r.dependency !in services
    ensures r.RepeatedDependency? ==>
              r.service in services && multiset(services[r.service])[r.dependency] >= 2
  {
    var todo := services.Keys;
    while todo != {}
      invariant todo <= services.Keys
      invariant forall name :: name in services && name !in todo ==> WellDeclared(services, name)
    {
      var name :| name in todo;
      todo := todo - {name};
      r := ValidateService(services, name);
      if !r.Valid? {
        return;
      }
    }
    return Valid;
  }

  // ----- dependencyClosure -----

  ghost predicate DependencyClosed(services: Graph, s: set<string>) {
    forall n, d :: n in s && d in Deps(services, n) ==> d in s
  }

  /** Every name the selection can meet. */
  ghost predicate Universe(services: Graph, u: set<string>) {
    DependencyClosed(services, u)
  }

  /** What `grown` adds to `base` has its dependencies in `grown`. */
  ghost predicate ClosedAbove(services: Graph, base: set<string>, grown: set<string>) {
    forall n, d :: n in grown && n !in base && d in Deps(services, n) ==> d in grown
  }

  /** Any closed set containing `name` covers what `grown` adds to `base`. */
  ghost predicate Needed(services: Graph, name: string, base: set<string>, grown: set<string>) {
    forall s: set<string> :: DependencyClosed(services, s) && name in s ==> grown <= base + s
  }

  predicate Covers(deps: seq<string>, count: nat, grown: set<string>) {
    forall j :: 0 <= j < count && j < |deps| ==> deps[j] in grown
  }

  lemma CoversNext(deps: seq<string>, i: nat, before: set<string>, after: set<string>)
    requires i < |deps| && Covers(deps, i, before) && before <= after && deps[i] in after
    ensures Covers(deps, i + 1, after)
  {
  }

  lemma NeededStep(services: Graph, name: string, base: set<string>, before: set<string>, dep: string,
                   after: set<string>)
    requires Needed(services, name, base, before) && Needed(services, dep, before, after)
    requires dep in Deps(services, name)
    ensures Needed(services, name, base, after)
  {
  }

  method VisitClosure(services: Graph, name: string, closure: set<string>, ghost universe: set<string>)
    returns (grown: set<string>)
    requires Universe(services, universe) && closure <= universe && name in universe
    ensures closure + {name} <= grown <= universe
    ensures ClosedAbove(services, closure, grown)
    ensures Needed(services, name, closure, grown)
    decreases universe - closure
  {
    if name in closure {
      return closure;
    }
    grown := closure + {name};
    var deps := Deps(services, name);
    for i := 0 to |deps|
      invariant closure + {name} <= grown <= universe
      invariant Covers(deps, i, grown)
      invariant ClosedAbove(services, closure + {name}, grown)
      invariant Needed(services, name, closure, grown)
    {
      ghost var before := grown;
      grown := VisitClosure(services, deps[i], grown, universe);
      NeededStep(services, name, closure, before, deps[i], grown);
      CoversNext(deps, i, before, grown);
    }
  }

  /** The least dependency-closed set containing the roots. */
  ghost predicate LeastClosed(services: Graph, roots: seq<string>, closure: set<string>) {
    && (forall r :: r in roots ==> r in closure)
    && DependencyClosed(services, closure)
    && forall s: set<string> :: DependencyClosed(services, s) && (forall r :: r in roots ==> r in s) ==> closure <= s
  }

  function AllNames(services: Graph, roots: seq<string>): set<string> {
    services.Keys + Elements(roots) + set n, d | n in services && d in services[n] :: d
  }

  method DependencyClosure(services: Graph, roots: seq<string>) returns (closure: set<string>)
    ensures LeastClosed(services, roots, closure)
  {
    ghost var universe := AllNames(services, roots);
    closure := {};
    for i := 0 to |roots|
      invariant closure <= universe
      invariant forall j :: 0 <= j < i ==> roots[j] in closure
      invariant DependencyClosed(services, closure)
      invariant forall s: set<string> ::
                  DependencyClosed(services, s) && (forall r :: r in roots ==> r in s) ==> closure <= s
    {
      closure := VisitClosure(services, roots[i], closure, universe);
    }
  }

  /** A member of the closure is a root or is reached from one. */
  lemma ClosureIsReachability(services: Graph, roots: seq<string>, closure: set<string>, n: string)
    requires LeastClosed(services, roots, closure)
    ensures n in closure <==> n in roots || exists r :: r in roots && Reaches(services, r, n)
  {
    if n in closure {
      var s := set m | m in closure && (m in roots || exists r :: r in roots && Reaches(services, r, m));
      forall m, d | m in s && d in Deps(services, m)
        ensures d in s
      {
        if m in roots {
          assert WalkBetween(services, [m, d], m, d);
        } else {
          var r :| r in roots && Reaches(services, r, m);
          var p :| WalkBetween(services, p, r, m);
          WalkConcat(services, p, [m, d]);
          assert WalkBetween(services, p + [m, d][1..], r, d);
        }
      }
      assert closure <= s;
    } else if r :| r in roots && Reaches(services, r, n) {
      var p :| WalkBetween(services, p, r, n);
      WalkStaysClosed(services, closure, p);
    }
  }

  lemma {:induction false} WalkStaysClosed(services: Graph, s: set<string>, p: seq<string>)
    requires DependencyClosed(services, s) && Walk(services, p) && p[0] in s
    ensures Inside(p, s)
  {
    if |p| > 1 {
      var q := p[..|p| - 1];
      WalkStaysClosed(services, s, q);
      assert p[|p| - 2] in s;
      assert p[|p| - 2 + 1] in Deps(services, p[|p| - 2]);
    }
  }
}
