/** Cleanup: when it runs, what it handles and in which order. */
module SupervisorCleanup {
  import opened Ordering
  import opened Graphs
  import opened Planning
  import opened Supervision
  import opened SupervisorInvariant
  import opened SupervisorSteps

  // ----- runShutdownCommands -----

  /**
    The loop of `runShutdownCommands`. `fails` is the set of services whose
    command cannot be expanded, started or completed in time; the loop goes on
    after each of them.
  */
  method RunShutdownCommands(plan: Plan, registered: set<string>, fails: set<string>)
    returns (handled: seq<CleanupAct>, failed: seq<string>)
    ensures handled == ShutdownOrder(plan, registered, |plan.order|)
    ensures forall n :: n in failed <==> n in fails && RunShutdown(n) in handled
  {
    handled, failed := [], [];
    var index := |plan.order|;
    while index > 0
      invariant 0 <= index <= |plan.order|
      invariant handled + ShutdownOrder(plan, registered, index) == ShutdownOrder(plan, registered, |plan.order|)
      invariant forall n :: n in failed <==> n in fails && RunShutdown(n) in handled
    {
      index := index - 1;
      var name := plan.order[index];
      if name in registered && name in plan.shutdowns {
        assert handled + ([RunShutdown(name)] + ShutdownOrder(plan, registered, index))
            == (handled + [RunShutdown(name)]) + ShutdownOrder(plan, registered, index);
        handled := handled + [RunShutdown(name)];
        if name in fails {
          failed := failed + [name];
        }
      } else {
        assert [] + ShutdownOrder(plan, registered, index) == ShutdownOrder(plan, registered, index);
      }
    }
    assert handled + [] == handled;
  }

  /** `releaseRoutesAndShutdown`: routes first, then the commands, whether or not the release failed. */
  method ReleaseRoutesAndShutdown(plan: Plan, registered: set<string>, releaseFails: bool, fails: set<string>)
    returns (acts: seq<CleanupAct>, err: bool)
    ensures acts == Cleanup(plan, registered)
    ensures err <==> releaseFails || exists n :: n in fails && RunShutdown(n) in acts
  {
    var handled, failed := RunShutdownCommands(plan, registered, fails);
    acts := [ReleaseRoutes] + handled;
    err := releaseFails || failed != [];
    if failed != [] {
      assert failed[0] in failed;
    }
  }

  lemma {:induction false} ShutdownMembers(plan: Plan, registered: set<string>, k: nat, n: string)
    requires k <= |plan.order|
    ensures RunShutdown(n) in ShutdownOrder(plan, registered, k)
       <==> n in plan.order[..k] && n in registered && n in plan.shutdowns
  {
    if k == 0 {
    } else {
      ShutdownMembers(plan, registered, k - 1, n);
      assert plan.order[..k] == plan.order[..k - 1] + [plan.order[k - 1]];
    }
  }

  /** Both are shutdowns of planned services, the second of one started earlier. */
  predicate Descends(plan: Plan, first: CleanupAct, second: CleanupAct) {
    && first.RunShutdown? && second.RunShutdown? && first.service in plan.order && second.service in plan.order
    && Position(plan.order, second.service) < Position(plan.order, first.service)
  }

  /** What is handled after the service at position `k` was started before it. */
  lemma LatestComesFirst(plan: Plan, registered: set<string>, k: nat, j: nat)
    requires k < |plan.order| && NoDuplicates(plan.order) && j < |ShutdownOrder(plan, registered, k)|
    ensures Descends(plan, RunShutdown(plan.order[k]), ShutdownOrder(plan, registered, k)[j])
  {
    var rest := ShutdownOrder(plan, registered, k);
    EntriesAreServices(plan, registered, k, j);
    assert rest[j] in rest;
    ShutdownMembers(plan, registered, k, rest[j].service);
    EarlierPosition(plan.order, rest[j].service, k);
  }

  ghost predicate AllPairs(holds: (CleanupAct, CleanupAct) -> bool, acts: seq<CleanupAct>) {
    forall i, j :: 0 <= i < j < |acts| ==> holds(acts[i], acts[j])
  }

  /** The head of the list stands in the relation to everything behind it. */
  ghost predicate HeadHolds(plan: Plan, registered: set<string>, holds: (CleanupAct, CleanupAct) -> bool, k: nat) {
    k < |plan.order| ==>
      var rest := ShutdownOrder(plan, registered, k);
      forall j :: 0 <= j < |rest| ==> holds(RunShutdown(plan.order[k]), rest[j])
  }

  lemma {:induction false} ShutdownPairs(plan: Plan, registered: set<string>, holds: (CleanupAct, CleanupAct) -> bool,
                                         k: nat)
    requires k <= |plan.order| && forall m: nat :: HeadHolds(plan, registered, holds, m)
    ensures AllPairs(holds, ShutdownOrder(plan, registered, k))
  {
    if k == 0 {
    } else {
      ShutdownPairs(plan, registered, holds, k - 1);
      assert HeadHolds(plan, registered, holds, k - 1);
      var rest, n := ShutdownOrder(plan, registered, k - 1), plan.order[k - 1];
      assert ShutdownOrder(plan, registered, k) ==
             (if n in registered && n in plan.shutdowns then [RunShutdown(n)] else []) + rest;
    }
  }

  /** Later entries belong to services started earlier. */
  lemma ShutdownDescends(plan: Plan, registered: set<string>, k: nat, i: nat, j: nat)
    requires k <= |plan.order| && NoDuplicates(plan.order) && i < j < |ShutdownOrder(plan, registered, k)|
    ensures Descends(plan, ShutdownOrder(plan, registered, k)[i], ShutdownOrder(plan, registered, k)[j])
  {
    var holds := (a: CleanupAct, b: CleanupAct) => Descends(plan, a, b);
    forall m: nat ensures HeadHolds(plan, registered, holds, m) {
      if m < |plan.order| {
        forall l | 0 <= l < |ShutdownOrder(plan, registered, m)|
          ensures holds(RunShutdown(plan.order[m]), ShutdownOrder(plan, registered, m)[l])
        {
          LatestComesFirst(plan, registered, m, l);
        }
      }
    }
    ShutdownPairs(plan, registered, holds, k);
    assert holds(ShutdownOrder(plan, registered, k)[i], ShutdownOrder(plan, registered, k)[j]);
  }

  lemma {:induction false} EntriesAreServices(plan: Plan, registered: set<string>, k: nat, i: nat)
    requires k <= |plan.order| && i < |ShutdownOrder(plan, registered, k)|
    ensures ShutdownOrder(plan, registered, k)[i].RunShutdown?
  {
    if k == 0 {
    } else {
      var rest, n := ShutdownOrder(plan, registered, k - 1), plan.order[k - 1];
      if n in registered && n in plan.shutdowns {
        if i > 0 {
          EntriesAreServices(plan, registered, k - 1, i - 1);
        }
      } else {
        assert ShutdownOrder(plan, registered, k) == rest;
        EntriesAreServices(plan, registered, k - 1, i);
      }
    }
  }

  /** A transitive dependency was started earlier. */
  lemma DependencyStartsEarlier(plan: Plan, a: string, b: string)
    requires ValidPlan(plan) && a in plan.services && Reaches(plan.deps, a, b)
    ensures a in plan.order && b in plan.order && Position(plan.order, b) < Position(plan.order, a)
  {
    var p :| WalkBetween(plan.deps, p, a, b);
    WalkStaysClosed(plan.deps, plan.services, p);
    WalkDescends(plan.deps, plan.services, plan.order, p);
  }

  /** Commands in `acts` run with dependents before what they depend on. */
  ghost predicate DependentsFirst(plan: Plan, acts: seq<CleanupAct>) {
    forall i, j :: 0 <= i < |acts| && 0 <= j < |acts| ==> OrderedPair(plan, acts, i, j)
  }

  ghost predicate OrderedPair(plan: Plan, acts: seq<CleanupAct>, i: nat, j: nat)
    requires i < |acts| && j < |acts|
  {
    acts[i].RunShutdown? && acts[j].RunShutdown? && Reaches(plan.deps, acts[i].service, acts[j].service) ==> i < j
  }

  lemma CleanupMembers(plan: Plan, registered: set<string>, n: string)
    requires ValidPlan(plan) && registered <= plan.services
    ensures RunShutdown(n) in Cleanup(plan, registered) <==> n in registered && n in plan.shutdowns
  {
    ShutdownMembers(plan, registered, |plan.order|, n);
    assert plan.order[..|plan.order|] == plan.order;
    assert n in plan.services <==> n in Elements(plan.order);
  }

  lemma CleanupDistinct(plan: Plan, registered: set<string>)
    requires NoDuplicates(plan.order)
    ensures NoDuplicates(Cleanup(plan, registered))
  {
    var acts, k := Cleanup(plan, registered), |plan.order|;
    forall i, j | 0 <= i < j < |acts|
      ensures acts[i] != acts[j]
    {
      EntriesAreServices(plan, registered, k, j - 1);
      if i > 0 {
        ShutdownDescends(plan, registered, k, i - 1, j - 1);
      }
    }
  }

  lemma CleanupPair(plan: Plan, registered: set<string>, i: nat, j: nat)
    requires ValidPlan(plan) && registered <= plan.services
    requires i < |Cleanup(plan, registered)| && j < |Cleanup(plan, registered)|
    ensures OrderedPair(plan, Cleanup(plan, registered), i, j)
  {
    var acts := Cleanup(plan, registered);
    if acts[i].RunShutdown? && acts[j].RunShutdown? && Reaches(plan.deps, acts[i].service, acts[j].service) {
      assert acts[i] in acts;
      CleanupMembers(plan, registered, acts[i].service);
      DependencyStartsEarlier(plan, acts[i].service, acts[j].service);
      if j < i {
        ShutdownDescends(plan, registered, |plan.order|, j - 1, i - 1);
      }
    }
  }

  /**
    Cleanup releases routes first and then handles each registered shutdown
    command exactly once, a dependent's before that of anything it depends on,
    directly or not.
  */
  lemma CleanupOrder(plan: Plan, registered: set<string>)
    requires ValidPlan(plan) && registered <= plan.services
    ensures Cleanup(plan, registered)[0] == ReleaseRoutes && NoDuplicates(Cleanup(plan, registered))
    ensures forall n :: RunShutdown(n) in Cleanup(plan, registered) <==> n in registered && n in plan.shutdowns
    ensures DependentsFirst(plan, Cleanup(plan, registered))
  {
    var acts := Cleanup(plan, registered);
    CleanupDistinct(plan, registered);
    forall n
      ensures RunShutdown(n) in acts <==> n in registered && n in plan.shutdowns
    {
      CleanupMembers(plan, registered, n);
    }
    forall i, j | 0 <= i < |acts| && 0 <= j < |acts|
      ensures OrderedPair(plan, acts, i, j)
    {
      CleanupPair(plan, registered, i, j);
    }
  }

  // ----- When cleanup runs -----

  /** All events of a service were taken, and it finished if it was started. */
  ghost predicate Settled(s: Sys, n: string) {
    && Proj(s.queue, n) == []
    && PhaseOf(s.seen, n) == PhaseOf(s.phase, n)
    && (PhaseOf(s.phase, n).Fresh? || PhaseOf(s.phase, n).Finished?)
  }

  lemma InactiveIsSettled(plan: Plan, s: Sys, n: string)
    requires AllServices(plan, s) && n in plan.services && n !in s.active
    ensures Settled(s, n)
  {
    assert ServiceInv(s, n);
    if PhaseOf(s.phase, n).Fresh? {
      ReplayOnlyFresh(PhaseOf(s.seen, n), Proj(s.queue, n));
    } else {
      ReplayStaysFinished(PhaseOf(s.seen, n), Proj(s.queue, n));
    }
  }

  /**
    When cleanup has run, every started worker's terminal event was consumed,
    and it handled precisely the shutdowns that workers registered: none was
    missed in the channel.
  */
  lemma CleanupSeesEverything(plan: Plan, run: seq<Sys>, i: nat)
    requires ValidPlan(plan) && IsRun(plan, run) && i < |run| && run[i].cleanup != []
    ensures forall n :: n in plan.services ==> Settled(run[i], n)
    ensures run[i].registered == set n | n in plan.services && Registered(PhaseOf(run[i].phase, n))
    ensures run[i].cleanup == Cleanup(plan, run[i].registered)
  {
    RunInv(plan, run, i);
    CleanedState(plan, run[i]);
  }

  lemma CleanedState(plan: Plan, s: Sys)
    requires Inv(plan, s) && s.cleanup != []
    ensures forall n :: n in plan.services ==> Settled(s, n)
    ensures s.registered == set n | n in plan.services && Registered(PhaseOf(s.phase, n))
  {
    forall n | n in plan.services
      ensures Settled(s, n) && (n in s.registered <==> Registered(PhaseOf(s.phase, n)))
    {
      InactiveIsSettled(plan, s, n);
      assert ServiceInv(s, n);
    }
  }

  /** Returning without cleanup leaves nothing registered and nothing unfinished. */
  lemma NoCleanupNeeded(plan: Plan, run: seq<Sys>, i: nat)
    requires ValidPlan(plan) && IsRun(plan, run) && i < |run|
    requires run[i].control.Returned? && run[i].cleanup == []
    ensures run[i].registered == {} && !Unfinished(run[i])
  {
    RunInv(plan, run, i);
  }

  lemma CleanupStays(plan: Plan, s: Sys, step: Step)
    requires Inv(plan, s) && Enabled(plan, s, step) && s.cleanup != []
    ensures Apply(plan, s, step).cleanup == s.cleanup && Apply(plan, s, step).control.Returned?
  {
  }

  lemma CleanupNext(plan: Plan, s: Sys, t: Sys)
    requires Inv(plan, s) && Next(plan, s, t) && s.cleanup != []
    ensures t.cleanup == s.cleanup
  {
    var step :| Enabled(plan, s, step) && t == Apply(plan, s, step);
    CleanupStays(plan, s, step);
  }

  lemma CleanupStaysInRun(plan: Plan, run: seq<Sys>, k: nat)
    requires ValidPlan(plan) && IsRun(plan, run) && k + 1 < |run| && run[k].cleanup != []
    ensures run[k + 1].cleanup == run[k].cleanup
  {
    RunInv(plan, run, k);
    CleanupNext(plan, run[k], run[k + 1]);
  }

  predicate KeptAt(cleanups: seq<seq<CleanupAct>>, k: nat) {
    k + 1 < |cleanups| && cleanups[k] != [] ==> cleanups[k + 1] == cleanups[k]
  }

  lemma {:induction false} KeptForGood(cleanups: seq<seq<CleanupAct>>, i: nat, j: nat)
    requires i <= j < |cleanups| && cleanups[i] != [] && forall k: nat :: KeptAt(cleanups, k)
    ensures cleanups[j] == cleanups[i]
  {
    if i < j {
      KeptForGood(cleanups, i, j - 1);
      assert KeptAt(cleanups, j - 1);
    }
  }

  /** Cleanup runs at most once: after it, no step repeats or extends it. */
  lemma CleanupOnce(plan: Plan, run: seq<Sys>, i: nat, j: nat)
    requires ValidPlan(plan) && IsRun(plan, run) && i <= j < |run| && run[i].cleanup != []
    ensures run[j].cleanup == run[i].cleanup
  {
    var cleanups := seq(|run|, k requires 0 <= k < |run| => run[k].cleanup);
    forall k: nat ensures KeptAt(cleanups, k) {
      if k + 1 < |run| && run[k].cleanup != [] {
        CleanupStaysInRun(plan, run, k);
      }
    }
    KeptForGood(cleanups, i, j);
  }
}
