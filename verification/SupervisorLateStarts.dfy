/** Exactly when a service is still started once the run's context is done. */
module SupervisorLateStarts {
  import opened Graphs
  import opened Supervision

  /** The rest of the pass comes to a service that it would start. */
  ghost predicate CanStart(plan: Plan, states: map<string, State>, k: nat) {
    exists j :: StartableAt(plan, states, k, j)
  }

  predicate StartableAt(plan: Plan, states: map<string, State>, k: nat, j: nat) {
    k <= j < |plan.order| && Decide(plan, states, plan.order[j]).Start?
  }

  /** Anything that may happen from `path[0]` on. */
  ghost predicate IsPath(plan: Plan, path: seq<Sys>) {
    path != [] && forall i :: 0 <= i < |path| - 1 ==> Next(plan, path[i], path[i + 1])
  }

  predicate NewStart(before: seq<Act>, after: seq<Act>) {
    exists i :: |before| <= i < |after| && after[i].Begin?
  }

  /** Some continuation of `s` starts a service. */
  ghost predicate MayStart(plan: Plan, s: Sys) {
    exists path: seq<Sys> :: IsPath(plan, path) && path[0] == s && NewStart(s.log, path[|path| - 1].log)
  }

  // ----- States from which nothing starts any more -----

  ghost predicate Barren(plan: Plan, s: Sys) {
    RunErr(s) && (s.control.AtPass? ==> !CanStart(plan, s.states, s.control.k) || |s.queue| >= Capacity(plan))
  }

  /** The log may grow, but by no start. */
  predicate GrowsIdly(before: seq<Act>, after: seq<Act>) {
    before <= after && forall i :: |before| <= i < |after| ==> !after[i].Begin?
  }

  /** A turn that starts nothing makes nothing startable. */
  lemma TurnOpensNothing(plan: Plan, s: Sys, k: nat, j: nat)
    requires ValidPlan(plan) && k < |plan.order| && !Decide(plan, s.states, plan.order[k]).Start?
    requires StartableAt(plan, Turn(plan, s, k).states, k + 1, j)
    ensures StartableAt(plan, s.states, k, j)
  {
    var n, m, after := plan.order[k], plan.order[j], Turn(plan, s, k).states;
    assert n != m;
    forall d | d in Deps(plan.deps, m)
      ensures StateIn(after, d) == StateIn(s.states, d)
    {
      assert d == n && Decide(plan, s.states, n).Block? ==> DependencyFailed(plan, after, m);
    }
  }

  lemma BarrenTurn(plan: Plan, s: Sys)
    requires ValidPlan(plan) && Barren(plan, s) && Enabled(plan, s, Schedule)
    ensures Barren(plan, Apply(plan, s, Schedule)) && GrowsIdly(s.log, Apply(plan, s, Schedule).log)
  {
    var k := s.control.k;
    if Decide(plan, s.states, plan.order[k]).Start? {
      assert StartableAt(plan, s.states, k, k);
    }
    var t := Turn(plan, s, k);
    if CanStart(plan, t.states, t.control.k) {
      var j: nat :| StartableAt(plan, t.states, t.control.k, j);
      TurnOpensNothing(plan, s, k, j);
    }
  }

  lemma BarrenStep(plan: Plan, s: Sys, step: Step)
    requires ValidPlan(plan) && Barren(plan, s) && Enabled(plan, s, step)
    ensures Barren(plan, Apply(plan, s, step)) && GrowsIdly(s.log, Apply(plan, s, step).log)
  {
    if step.Schedule? {
      BarrenTurn(plan, s);
    }
  }

  lemma {:induction false} BarrenPath(plan: Plan, path: seq<Sys>)
    requires ValidPlan(plan) && IsPath(plan, path) && Barren(plan, path[0])
    ensures Barren(plan, path[|path| - 1]) && GrowsIdly(path[0].log, path[|path| - 1].log)
    decreases |path|
  {
    if |path| == 1 {
    } else {
      var init := path[..|path| - 1];
      forall i | 0 <= i < |init| - 1
        ensures Next(plan, init[i], init[i + 1])
      {
        assert Next(plan, path[i], path[i + 1]);
      }
      BarrenPath(plan, init);
      var s, t := path[|path| - 2], path[|path| - 2 + 1];
      assert Next(plan, s, t);
      var step :| Enabled(plan, s, step) && t == Apply(plan, s, step);
      BarrenStep(plan, s, step);
    }
  }

  // ----- A path to the next start -----

  /** A turn that starts nothing leaves a startable service startable. */
  lemma TurnSparesStartable(plan: Plan, s: Sys, k: nat, j: nat)
    requires ValidPlan(plan) && StartableAt(plan, s.states, k, j) && !Decide(plan, s.states, plan.order[k]).Start?
    ensures StartableAt(plan, Turn(plan, s, k).states, k + 1, j)
  {
    var n, m, after := plan.order[k], plan.order[j], Turn(plan, s, k).states;
    assert n != m;
    forall d | d in Deps(plan.deps, m)
      ensures StateIn(after, d) == StateIn(s.states, d)
    {
      assert StateIn(s.states, d).Ready? || StateIn(s.states, d).Success?;
    }
  }

  lemma PathFrom(plan: Plan, s: Sys, step: Step, path: seq<Sys>)
    requires Enabled(plan, s, step) && IsPath(plan, path) && path[0] == Apply(plan, s, step)
    ensures IsPath(plan, [s] + path) && ([s] + path)[0] == s
    ensures ([s] + path)[|[s] + path| - 1] == path[|path| - 1]
  {
    var longer := [s] + path;
    assert Next(plan, s, path[0]);
    forall i | 0 <= i < |longer| - 1
      ensures Next(plan, longer[i], longer[i + 1])
    {
      assert i > 0 ==> longer[i] == path[i - 1] && longer[i + 1] == path[i - 1 + 1];
      assert i > 0 ==> Next(plan, path[i - 1], path[i - 1 + 1]);
    }
  }

  lemma {:induction false} StartIsReached(plan: Plan, s: Sys, j: nat) returns (path: seq<Sys>)
    requires ValidPlan(plan) && s.control.AtPass? && |s.queue| < Capacity(plan)
    requires StartableAt(plan, s.states, s.control.k, j)
    ensures IsPath(plan, path) && path[0] == s && NewStart(s.log, path[|path| - 1].log)
    decreases j - s.control.k
  {
    var k := s.control.k;
    var t := Apply(plan, s, Schedule);
    if Decide(plan, s.states, plan.order[k]).Start? {
      path := [t];
      assert t.log[|s.log|] == Begin(plan.order[k]);
    } else {
      TurnSparesStartable(plan, s, k, j);
      path := StartIsReached(plan, t, j);
      assert t.log == s.log;
    }
    PathFrom(plan, s, Schedule, path);
    path := [s] + path;
  }

  /**
    Once the context of the run is done, a service can still be started from a
    state exactly when the loop is inside a pass, the rest of that pass comes
    to a pending service whose dependencies are all usable, and the channel has
    room for the notice.
  */
  lemma LateStartExactly(plan: Plan, s: Sys)
    requires ValidPlan(plan) && RunErr(s)
    ensures MayStart(plan, s)
       <==> s.control.AtPass? && CanStart(plan, s.states, s.control.k) && |s.queue| < Capacity(plan)
  {
    if Barren(plan, s) {
      forall path: seq<Sys> | IsPath(plan, path) && path[0] == s
        ensures !NewStart(s.log, path[|path| - 1].log)
      {
        BarrenPath(plan, path);
      }
    } else {
      var j: nat :| StartableAt(plan, s.states, s.control.k, j);
      var path := StartIsReached(plan, s, j);
    }
  }
}
