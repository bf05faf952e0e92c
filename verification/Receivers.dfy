/** `exportReceivers` and `dependsTransitively`: who receives a route's exports. */
module Receivers {
  import opened Ordering
  import opened Graphs
  import opened Planning

  /** Nothing visited beyond `base` depends on `target`, and all its dependencies were visited. */
  ghost predicate Explored(services: Graph, target: string, base: set<string>, visited: set<string>) {
    && ClosedAbove(services, base, visited)
    && forall n :: n in visited && n !in base ==> target !in Deps(services, n)
  }

  lemma ReachStep(services: Graph, a: string, d: string, target: string)
    requires d in Deps(services, a) && (d == target || Reaches(services, d, target))
    ensures Reaches(services, a, target)
  {
    if d == target {
      assert WalkBetween(services, [a, d], a, target);
    } else {
      var p :| WalkBetween(services, p, d, target);
      WalkConcat(services, [a, d], p);
      assert WalkBetween(services, [a, d] + p[1..], a, target);
    }
  }

  method DependsTransitively(services: Graph, candidate: string, target: string, visiting: set<string>,
                             ghost universe: set<string>)
    returns (found: bool, visited: set<string>)
    requires DependencyClosed(services, universe) && visiting <= universe && candidate in universe
    ensures visiting + {candidate} <= visited <= universe
    ensures found ==> Reaches(services, candidate, target)
    ensures !found ==> Explored(services, target, visiting, visited)
    decreases universe - visiting
  {
    if candidate in visiting {
      return false, visiting;
    }
    visited := visiting + {candidate};
    var deps := Deps(services, candidate);
    for i := 0 to |deps|
      invariant visiting + {candidate} <= visited <= universe
      invariant Covers(deps, i, visited)
      invariant target !in deps[..i]
      invariant Explored(services, target, visiting + {candidate}, visited)
    {
      var dependency := deps[i];
      if dependency == target {
        ReachStep(services, candidate, dependency, target);
        return true, visited;
      }
      ghost var before := visited;
      found, visited := DependsTransitively(services, dependency, target, visited, universe);
      if found {
        ReachStep(services, candidate, dependency, target);
        return;
      }
      ExploredNext(services, target, visiting + {candidate}, before, visited);
      CoversNext(deps, i, before, visited);
    }
    CandidateExplored(services, target, visiting, candidate, visited);
    return false, visited;
  }

  lemma ExploredNext(services: Graph, target: string, base: set<string>, before: set<string>, after: set<string>)
    requires base <= before <= after
    requires Explored(services, target, base, before) && Explored(services, target, before, after)
    ensures Explored(services, target, base, after)
  {
  }

  lemma CandidateExplored(services: Graph, target: string, visiting: set<string>, candidate: string,
                          visited: set<string>)
    requires Explored(services, target, visiting + {candidate}, visited)
    requires Covers(Deps(services, candidate), |Deps(services, candidate)|, visited)
    requires target !in Deps(services, candidate)
    ensures Explored(services, target, visiting, visited)
  {
    forall n, d | n in visited && n !in visiting && d in Deps(services, n)
      ensures d in visited
    {
      if n == candidate {
        var j :| 0 <= j < |Deps(services, candidate)| && Deps(services, candidate)[j] == d;
      } else {
        assert n !in visiting + {candidate};
      }
    }
  }

  lemma {:induction false} ExploredBlocksWalk(services: Graph, target: string, visited: set<string>, p: seq<string>)
    requires Explored(services, target, {}, visited) && Walk(services, p) && p[0] in visited
    ensures p[|p| - 1] in visited
    ensures |p| >= 2 ==> p[|p| - 1] != target
  {
    if |p| > 1 {
      var q := p[..|p| - 1];
      ExploredBlocksWalk(services, target, visited, q);
      assert p[|p| - 2 + 1] in Deps(services, p[|p| - 2]);
    }
  }

  /** From an empty visited set the search decides reachability by a walk of at least one edge. */
  method DependsOn(services: Graph, candidate: string, target: string) returns (found: bool)
    ensures found <==> Reaches(services, candidate, target)
  {
    ghost var universe := AllNames(services, [candidate]);
    var visited;
    found, visited := DependsTransitively(services, candidate, target, {}, universe);
    if !found {
      forall p
        ensures !WalkBetween(services, p, candidate, target)
      {
        if WalkBetween(services, p, candidate, target) {
          ExploredBlocksWalk(services, target, visited, p);
        }
      }
    }
  }

  /** The owner and every service that depends on it, directly or not, in sorted order. */
  method ExportReceivers(services: Graph, owner: string) returns (receivers: seq<string>)
    ensures Sorted(receivers) && NoDuplicates(receivers)
    ensures forall n :: n in receivers <==> n == owner || (n in services && Reaches(services, n, owner))
  {
    var result := [owner];
    var todo := services.Keys;
    while todo != {}
      invariant todo <= services.Keys && NoDuplicates(result)
      invariant forall n :: n in result ==> n !in todo || n == owner
      invariant forall n :: n in result <==> n == owner || (n in services && n !in todo && Reaches(services, n, owner))
    {
      var name :| name in todo;
      todo := todo - {name};
      if name != owner {
        var depends := DependsOn(services, name, owner);
        if depends {
          result := result + [name];
        }
      }
    }
    SortSorts(result);
    SortNoDuplicates(result);
    forall n
      ensures n in SortStrings(result) <==> n in result
    {
      SortKeepsMembers(result, n);
    }
    receivers := SortStrings(result);
  }
}
