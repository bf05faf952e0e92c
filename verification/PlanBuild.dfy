/** `Build`: selection, ordering and what the supervisor may rely on. */
module PlanBuild {
  import opened Ordering
  import opened Graphs
  import opened Planning
  import opened Kahn
  import opened Supervision

  datatype BuildResult = Built(plan: Plan) | BadDependencies(error: Validation) | Cyclic(path: seq<string>)

  lemma ClosureInServices(services: Graph, roots: seq<string>, closure: set<string>)
    requires forall name :: name in services ==> WellDeclared(services, name)
    requires forall r :: r in roots ==> r in services
    requires LeastClosed(services, roots, closure)
    ensures closure <= services.Keys
  {
    assert DependencyClosed(services, services.Keys);
  }

  /** Dependencies of selected services are the same in the whole and in the selected graph. */
  lemma SelectedTopological(services: Graph, selected: Graph, closure: set<string>, order: seq<string>)
    requires closure <= services.Keys && selected == (map n | n in closure :: services[n])
    requires Topological(services, closure, order)
    ensures Topological(selected, closure, order)
  {
    forall i, d | 0 <= i < |order| && d in Deps(selected, order[i]) && d in closure
      ensures d in order[..i]
    {
      assert order[i] in Elements(order);
      assert Deps(selected, order[i]) == Deps(services, order[i]);
    }
  }

  ghost predicate SoundDeclarations(services: Graph) {
    forall name :: name in services ==> WellDeclared(services, name)
  }

  /** A root, or something a root depends on at any depth. */
  ghost predicate Selects(services: Graph, roots: seq<string>, n: string) {
    n in roots || exists r :: r in roots && Reaches(services, r, n)
  }

  /** A cycle among the selected services. */
  ghost predicate SelectedCycle(services: Graph, roots: seq<string>, path: seq<string>) {
    ClosedWalk(services, path) && forall i :: 0 <= i < |path| ==> Selects(services, roots, path[i])
  }

  lemma CycleIsInClosure(services: Graph, roots: seq<string>, closure: set<string>, path: seq<string>)
    requires LeastClosed(services, roots, closure)
    ensures SelectedCycle(services, roots, path) <==> ClosedWalk(services, path) && Inside(path, closure)
  {
    forall i | 0 <= i < |path|
      ensures Selects(services, roots, path[i]) <==> path[i] in closure
    {
      ClosureIsReachability(services, roots, closure, path[i]);
    }
  }

  lemma AcyclicMeansNone(services: Graph, roots: seq<string>, closure: set<string>)
    requires LeastClosed(services, roots, closure)
    ensures Acyclic(services, closure) <==> forall path :: !SelectedCycle(services, roots, path)
  {
    forall path
      ensures SelectedCycle(services, roots, path) <==> ClosedWalk(services, path) && Inside(path, closure)
    {
      CycleIsInClosure(services, roots, closure, path);
    }
  }

  /**
    The roots are known services, as `selectRoots` checks. A plan is built
    exactly when the declarations are sound and there is no cycle among the
    roots and what they depend on; a reported cycle is one of those. A plan
    that is built meets everything the supervisor's liveness needs.
  */
  method Build(services: Graph, roots: seq<string>, exits: set<string>, shutdowns: set<string>)
    returns (r: BuildResult)
    requires forall root :: root in roots ==> root in services
    ensures r.Built? ==> ValidPlan(r.plan) && LeastClosed(services, roots, r.plan.services)
    ensures r.BadDependencies? <==> !SoundDeclarations(services)
    ensures r.Built?
       <==> SoundDeclarations(services) && forall path :: !SelectedCycle(services, roots, path)
    ensures r.Cyclic? ==> SelectedCycle(services, roots, r.path)
    ensures r.Built? ==> Acyclic(services, r.plan.services) && Greedy(services, r.plan.services, r.plan.order)
  {
    var validation := ValidateDependencies(services);
    if !validation.Valid? {
      return BadDependencies(validation);
    }
    var closure := DependencyClosure(services, roots);
    ClosureInServices(services, roots, closure);
    AcyclicMeansNone(services, roots, closure);
    var outcome := TopologicalOrder(services, closure);
    match outcome
    case CycleFound(path) =>
      CycleIsInClosure(services, roots, closure, path);
      return Cyclic(path);
    case CycleDetected => assert false; return Cyclic([]);
    case Ordered(order) =>
      var selected := map n | n in closure :: services[n];
      SelectedTopological(services, selected, closure, order);
      return Built(Plan(order, closure, selected, exits, shutdowns));
  }
}
