/** Every step keeps the invariant and moves each service along its life cycle. */
module SupervisorSteps {
  import opened Supervision
  import opened SupervisorInvariant

  // ----- Leaving the top of the loop -----

  lemma BlockKeepsView(v: View)
    requires ViewInv(v)
    ensures ViewInv(v.(state := if v.state.Pending? then Blocked else v.state))
  {
  }

  lemma LeavingView(plan: Plan, p: Sys, exit: Exit, n: string)
    requires n in p.states
    ensures ViewOf(Leaving(plan, p, exit), n)
         == ViewOf(p, n).(state := if exit.ReturnError? && StateOf(p, n).Pending? then Blocked else StateOf(p, n))
  {
  }

  lemma LeavingSound(plan: Plan, p: Sys, exit: Exit)
    requires Sound(plan, p)
    requires exit.ReturnError? || exit.ReturnCancelled? ==> p.primaryErr || p.ctxDone
    ensures Sound(plan, Leaving(plan, p, exit))
  {
    forall n | n in plan.services
      ensures ServiceInv(Leaving(plan, p, exit), n)
    {
      assert ServiceInv(p, n);
      LeavingView(plan, p, exit, n);
      BlockKeepsView(ViewOf(p, n));
    }
  }

  lemma ExitKeeps(plan: Plan, s: Sys, routesActive: bool)
    requires ValidPlan(plan) && Inv(plan, s) && s.control.AtExit?
    ensures Inv(plan, Leaving(plan, s, ExitOf(s, routesActive)))
  {
    if s.active == {} && !s.primaryErr && !s.ctxDone {
      NothingPending(plan, s);
    }
    LeavingSound(plan, s, ExitOf(s, routesActive));
    assert s.cleanup == [] && [] + Cleanup(plan, s.registered) == Cleanup(plan, s.registered);
  }

  lemma NothingPending(plan: Plan, s: Sys)
    requires ValidPlan(plan) && Inv(plan, s) && s.control.AtExit?
    requires s.active == {} && !s.primaryErr && !s.ctxDone
    ensures forall n :: n in s.states ==> !s.states[n].Pending?
  {
    NoStall(plan, s);
    forall n | n in s.states
      ensures !s.states[n].Pending?
    {
      assert !StateOf(s, n).Pending?;
    }
  }

  // ----- The scheduling pass -----

  lemma EnterKeeps(plan: Plan, s: Sys)
    requires Inv(plan, s) && s.control.AtTop?
    ensures Inv(plan, Check(s))
  {
    ControlKeeps(plan, s, Check(s));
  }

  lemma TurnKeeps(plan: Plan, s: Sys)
    requires ValidPlan(plan) && Inv(plan, s) && s.control.AtPass? && s.control.k < |plan.order|
    ensures Inv(plan, Turn(plan, s, s.control.k))
  {
    TurnSound(plan, s, s.control.k);
    TurnPasses(plan, s, s.control.k);
  }

  lemma PassEndsKeeps(plan: Plan, s: Sys)
    requires Inv(plan, s) && s.control == AtPass(|plan.order|)
    ensures Inv(plan, s.(control := AtExit))
  {
    ControlKeeps(plan, s, s.(control := AtExit));
  }

  // ----- Every step -----

  lemma ConsumeKeeps(plan: Plan, s: Sys)
    requires Inv(plan, s) && s.control.AtSelect? && s.queue != []
    ensures Inv(plan, Take(s))
  {
    forall n | n in plan.services
      ensures ServiceInv(Take(s), n)
    {
      assert ServiceInv(s, n);
      TakeKeeps(s, n);
    }
    TakeShape(plan, s);
  }

  lemma TakeShape(plan: Plan, s: Sys)
    requires Shape(plan, s) && s.queue != []
    ensures Shape(plan, Take(s))
  {
    var e := s.queue[0];
    assert e.RouteFailed? || e.service in plan.services;
    assert StatesAfter(s.states, e).Keys == s.states.Keys;
    forall i | 0 <= i < |s.queue[1..]|
      ensures s.queue[1..][i].RouteFailed? || s.queue[1..][i].service in plan.services
    {
      assert s.queue[1..][i] == s.queue[i + 1];
    }
  }

  lemma SendsKeep(plan: Plan, s: Sys, step: Step)
    requires Inv(plan, s) && Enabled(plan, s, step) && (step.WorkerSends? || step.RouteFailure?)
    ensures Inv(plan, Apply(plan, s, step))
  {
    forall n | n in plan.services
      ensures ServiceInv(Apply(plan, s, step), n)
    {
      assert ServiceInv(s, n);
      if step.WorkerSends? {
        SendKeeps(s, step.event, n);
      } else {
        RouteFailureKeeps(s, RouteFailed(step.service, step.required), n);
      }
    }
  }

  lemma ContextKeeps(plan: Plan, s: Sys, step: Step)
    requires Inv(plan, s) && Enabled(plan, s, step) && (step.NoticeDone? || step.CancelContext?)
    ensures Inv(plan, Apply(plan, s, step))
  {
    forall n | n in plan.services
      ensures ServiceInv(Apply(plan, s, step), n)
    {
      assert ServiceInv(s, n);
      assert ViewOf(Apply(plan, s, step), n) == ViewOf(s, n);
    }
  }

  lemma StepKeeps(plan: Plan, s: Sys, step: Step)
    requires ValidPlan(plan) && Inv(plan, s) && Enabled(plan, s, step)
    ensures Inv(plan, Apply(plan, s, step))
  {
    match step {
      case Enter => EnterKeeps(plan, s);
      case Schedule => TurnKeeps(plan, s);
      case PassEnds => PassEndsKeeps(plan, s);
      case Exits(routesActive) => ExitKeeps(plan, s, routesActive);
      case Consume => ConsumeKeeps(plan, s);
      case WorkerSends(_) => SendsKeep(plan, s, step);
      case RouteFailure(_, _) => SendsKeep(plan, s, step);
      case NoticeDone => ContextKeeps(plan, s, step);
      case CancelContext => ContextKeeps(plan, s, step);
    }
  }

  // ----- The life cycle of one service -----

  /** pending→starting→ready→terminal, pending→blocked, starting→terminal. */
  predicate Moves(a: State, b: State) {
    || a == b
    || (a.Pending? && (b.Starting? || b.Blocked?))
    || (a.Starting? && (b.Ready? || b.Failed? || b.Stopped?))
    || (a.Ready? && (b.Success? || b.Failed? || b.Stopped?))
  }

  lemma TurnMoves(plan: Plan, s: Sys, k: nat, n: string)
    requires k < |plan.order|
    ensures Moves(StateOf(s, n), StateOf(Turn(plan, s, k), n))
  {
  }

  lemma TakeMoves(s: Sys, n: string)
    requires s.queue != [] && ServiceInv(s, n)
    ensures Moves(StateOf(s, n), StateOf(Take(s), n))
  {
    if Concerns(s.queue[0], n) {
      TakeOwn(s, n);
    } else {
      TakeOther(s, n);
    }
  }

  lemma ExitMoves(plan: Plan, s: Sys, routesActive: bool, n: string)
    requires n in plan.services && Inv(plan, s)
    ensures Moves(StateOf(s, n), StateOf(Leaving(plan, s, ExitOf(s, routesActive)), n))
  {
    LeavingView(plan, s, ExitOf(s, routesActive), n);
  }

  /** One step moves a service along its life cycle or leaves it alone. */
  lemma StepMoves(plan: Plan, s: Sys, step: Step, n: string)
    requires n in plan.services && ValidPlan(plan) && Inv(plan, s) && Enabled(plan, s, step)
    ensures Moves(StateOf(s, n), StateOf(Apply(plan, s, step), n))
  {
    assert ServiceInv(s, n);
    match step {
      case Schedule => TurnMoves(plan, s, s.control.k, n);
      case Exits(routesActive) => ExitMoves(plan, s, routesActive, n);
      case Consume => TakeMoves(s, n);
      case _ =>
    }
  }

  // ----- Runs -----

  lemma {:induction false} RunInv(plan: Plan, run: seq<Sys>, i: nat)
    requires ValidPlan(plan) && IsRun(plan, run) && i < |run|
    ensures Inv(plan, run[i])
  {
    if i == 0 {
      InitInv(plan);
    } else {
      var k := i - 1;
      RunInv(plan, run, k);
      assert Next(plan, run[k], run[k + 1]);
      var step :| Enabled(plan, run[k], step) && run[k + 1] == Apply(plan, run[k], step);
      StepKeeps(plan, run[k], step);
    }
  }

  lemma ViewActive(v: View)
    requires ViewInv(v)
    ensures v.active <==> v.state.Starting? || v.state.Ready?
  {
    if v.phase.Fresh? {
      ReplayOnlyFresh(v.seen, v.queued);
    }
  }

  lemma ActiveMeans(plan: Plan, s: Sys)
    requires Inv(plan, s)
    ensures s.active == set n | n in plan.services && (StateOf(s, n).Starting? || StateOf(s, n).Ready?)
  {
    forall n | n in plan.services
      ensures n in s.active <==> StateOf(s, n).Starting? || StateOf(s, n).Ready?
    {
      assert ServiceInv(s, n);
      ViewActive(ViewOf(s, n));
    }
  }

  /** `active` is exactly the set of starting or ready services, in every state of every run. */
  lemma ActiveIsStartingOrReady(plan: Plan, run: seq<Sys>, i: nat)
    requires ValidPlan(plan) && IsRun(plan, run) && i < |run|
    ensures run[i].active
         == set n | n in plan.services && (StateOf(run[i], n).Starting? || StateOf(run[i], n).Ready?)
  {
    var s := run[i];
    RunInv(plan, run, i);
    ActiveMeans(plan, s);
  }

  lemma RunMoves(plan: Plan, run: seq<Sys>, i: nat, n: string)
    requires ValidPlan(plan) && IsRun(plan, run) && i < |run| - 1 && n in plan.services
    ensures Moves(StateOf(run[i], n), StateOf(run[i + 1], n))
  {
    RunInv(plan, run, i);
    assert Next(plan, run[i], run[i + 1]);
    var step :| Enabled(plan, run[i], step) && run[i + 1] == Apply(plan, run[i], step);
    StepMoves(plan, run[i], step, n);
  }

  predicate MovesAt(states: seq<State>, k: nat) {
    k + 1 < |states| ==> Moves(states[k], states[k + 1])
  }

  lemma {:induction false} StaysTerminal(states: seq<State>, i: nat, j: nat)
    requires i <= j < |states| && states[i].Terminal() && forall k: nat :: MovesAt(states, k)
    ensures states[j] == states[i]
  {
    if i < j {
      StaysTerminal(states, i, j - 1);
      assert MovesAt(states, j - 1);
      TerminalStays(states[j - 1], states[j]);
    }
  }

  /** A terminal state is final. */
  lemma TerminalIsFinal(plan: Plan, run: seq<Sys>, i: nat, j: nat, n: string)
    requires ValidPlan(plan) && IsRun(plan, run) && i <= j < |run| && n in plan.services
    requires StateOf(run[i], n).Terminal()
    ensures StateOf(run[j], n) == StateOf(run[i], n)
  {
    var states := seq(|run|, k requires 0 <= k < |run| => StateOf(run[k], n));
    forall k: nat
      ensures MovesAt(states, k)
    {
      if k + 1 < |run| {
        RunMoves(plan, run, k, n);
      }
    }
    StaysTerminal(states, i, j);
  }

  lemma TerminalStays(a: State, b: State)
    requires Moves(a, b) && a.Terminal()
    ensures a == b
  {
  }

  /**
    While the loop waits, something can still happen on its own, unless only
    external resources are left: an event is queued, or a started service has
    not finished. In particular no service waits for a start that cannot come.
  */
  lemma WaitingIsLive(plan: Plan, run: seq<Sys>, i: nat)
    requires ValidPlan(plan) && IsRun(plan, run) && i < |run| && run[i].control.AtSelect?
    ensures run[i].active == {} ==> !Unfinished(run[i])
    ensures run[i].queue == [] ==>
              forall n :: n in run[i].active ==>
                PhaseOf(run[i].phase, n).Running? || PhaseOf(run[i].phase, n).Announced?
  {
    var s := run[i];
    RunInv(plan, run, i);
    WaitingState(plan, s);
  }

  lemma WaitingState(plan: Plan, s: Sys)
    requires Inv(plan, s) && s.control.AtSelect?
    ensures s.active == {} ==> !Unfinished(s)
    ensures s.queue == [] ==>
              forall n :: n in s.active ==> PhaseOf(s.phase, n).Running? || PhaseOf(s.phase, n).Announced?
  {
    ActiveMeans(plan, s);
    if s.active == {} {
      forall n | n in s.states
        ensures !s.states[n].Pending? && !s.states[n].Starting? && !s.states[n].Ready?
      {
        assert StateOf(s, n) == s.states[n] && n in plan.services;
      }
    }
    if s.queue == [] {
      forall n | n in s.active
        ensures PhaseOf(s.phase, n).Running? || PhaseOf(s.phase, n).Announced?
      {
        assert ServiceInv(s, n);
        assert Proj(s.queue, n) == [];
      }
    }
  }
}
