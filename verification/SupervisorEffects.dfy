/** What each step of the loop does, field by field. */
module SupervisorEffects {
  import opened Graphs
  import opened Supervision

  predicate Usable(state: State) {
    state == Ready || state == Success
  }

  predicate Broken(state: State) {
    state == Failed || state == Blocked || state == Stopped
  }

  predicate Done(state: State) {
    state == Success || state == Failed || state == Blocked || state == Stopped
  }

  /** Only service `n` may have a new state. */
  ghost predicate OnlyState(s: Sys, t: Sys, n: string) {
    forall m :: m != n ==> StateOf(t, m) == StateOf(s, m)
  }

  predicate AllUsable(plan: Plan, s: Sys, n: string) {
    forall d :: d in Deps(plan.deps, n) ==> Usable(StateOf(s, d))
  }

  predicate SomeBroken(plan: Plan, s: Sys, n: string) {
    exists d :: d in Deps(plan.deps, n) && Broken(StateOf(s, d))
  }

  lemma DecisionMeans(plan: Plan, s: Sys, n: string)
    ensures Decide(plan, s.states, n).Start? <==> StateOf(s, n) == Pending && AllUsable(plan, s, n)
    ensures Decide(plan, s.states, n).Block? <==> StateOf(s, n) == Pending && SomeBroken(plan, s, n)
  {
  }

  /**
    What may happen next. A send waits while as many events are buffered as
    four for every service and one make; so does the start of a service.
  */
  lemma StepsAllowed(plan: Plan, s: Sys, step: Step)
    ensures Enabled(plan, s, step) <==>
              match step
              case Enter => s.control == AtTop
              case Schedule =>
                && s.control.AtPass? && s.control.k < |plan.order|
                && (StateOf(s, plan.order[s.control.k]) == Pending && AllUsable(plan, s, plan.order[s.control.k]) ==>
                      |s.queue| < 4 * |plan.order| + 1)
              case PassEnds => s.control == AtPass(|plan.order|)
              case Exits(_) => s.control == AtExit
              case Consume => s.control == AtSelect && s.queue != []
              case NoticeDone => s.control == AtSelect && s.ctxDone && !s.noticed
              case CancelContext => !s.ctxDone
              case WorkerSends(e) =>
                && e.service in plan.services && MaySend(plan, PhaseOf(s.phase, e.service), e)
                && |s.queue| < 4 * |plan.order| + 1
              case RouteFailure(_, _) => |s.queue| < 4 * |plan.order| + 1
  {
    if step.Schedule? && s.control.AtPass? && s.control.k < |plan.order| {
      DecisionMeans(plan, s, plan.order[s.control.k]);
    }
  }

  /** The loop enters a pass exactly when there is no error and neither context is done. */
  lemma EnterEffect(plan: Plan, s: Sys)
    requires Enabled(plan, s, Enter)
    ensures var t := Apply(plan, s, Enter);
            && t.control == (if s.primaryErr || s.cancelCalled || s.ctxDone then AtExit else AtPass(0))
            && t == s.(control := t.control, log := t.log)
  {
  }

  /**
    A turn of the pass starts its service exactly when that is pending and all
    its dependencies are usable, blocks it exactly when it is pending and some
    dependency is broken, and otherwise leaves everything as it is.
  */
  lemma ScheduleEffect(plan: Plan, s: Sys)
    requires Enabled(plan, s, Schedule)
    ensures var n, t := plan.order[s.control.k], Apply(plan, s, Schedule);
            var starts := StateOf(s, n) == Pending && AllUsable(plan, s, n);
            && t.control == AtPass(s.control.k + 1) && OnlyState(s, t, n)
            && StateOf(t, n) == (if starts then Starting
                                 else if StateOf(s, n) == Pending && SomeBroken(plan, s, n) then Blocked
                                 else StateOf(s, n))
            && t == s.(control := t.control, states := t.states,
                       active := if starts then s.active + {n} else s.active,
                       queue := if starts then s.queue + [Started(n)] else s.queue,
                       phase := if starts then s.phase[n := Running(false)] else s.phase,
                       log := if starts then s.log + [Begin(n)] else s.log)
  {
    DecisionMeans(plan, s, plan.order[s.control.k]);
  }

  /**
    The part between a pass and the `select` returns exactly when nobody is
    active and the session failed, or the caller's context is done, or every
    service is terminal with nothing registered and no route active. The first
    two run the cleanup, the first also blocks what is still pending.
  */
  lemma ExitEffect(plan: Plan, s: Sys, routesActive: bool)
    requires Enabled(plan, s, Exits(routesActive))
    ensures var t := Apply(plan, s, Exits(routesActive));
            && (t.control == Returned
                <==> s.active == {} && (s.primaryErr || s.ctxDone
                                        || ((forall n :: n in s.states ==> Done(s.states[n]))
                                            && s.registered == {} && !routesActive)))
            && (t.control != Returned ==> t == s.(control := AtSelect))
            && (t.control == Returned && !s.primaryErr && !s.ctxDone ==> t == s.(control := Returned))
            && (t.control == Returned && (s.primaryErr || s.ctxDone) ==>
                  && t.cleanup == s.cleanup + Cleanup(plan, s.registered) && t.cancelCalled
                  && t == s.(control := Returned, cleanup := t.cleanup, cancelCalled := true, states := t.states)
                  && t.states.Keys == s.states.Keys
                  && forall n :: n in s.states ==>
                       t.states[n] == if s.primaryErr && s.states[n] == Pending then Blocked else s.states[n])
  {
    if !Unfinished(s) {
      forall n | n in s.states
        ensures Done(s.states[n])
      {
      }
    }
  }

  /** A required route that fails, or a service that fails. */
  predicate IsFailure(e: Event) {
    match e
    case RouteFailed(_, required) => required
    case Ended(_, outcome) => outcome == Failed
    case _ => false
  }

  /** Taking an event records it for its service, and a failure is the session's unless it is over already. */
  lemma ConsumeEffect(plan: Plan, s: Sys)
    requires Enabled(plan, s, Consume)
    ensures var e, t := s.queue[0], Apply(plan, s, Consume);
            var failed := s.primaryErr || (IsFailure(e) && !s.cancelCalled && !s.ctxDone);
            && t.control == AtTop && s.queue == [e] + t.queue
            && t.primaryErr == failed && t.cancelCalled == (s.cancelCalled || (failed && !s.primaryErr))
            && t.registered == (if e.ShutdownRegistered? then s.registered + {e.service} else s.registered)
            && t.active == (if e.Ended? then s.active - {e.service} else s.active)
            && OnlyState(s, t, e.service)
            && StateOf(t, e.service)
               == (match e case BecameReady(_) => Ready case Ended(_, outcome) => outcome
                           case _ => StateOf(s, e.service))
            && t.ctxDone == s.ctxDone && t.noticed == s.noticed && t.cleanup == s.cleanup && t.phase == s.phase
  {
  }

  /** The notice of a done context cancels the run once; whatever else others do changes nothing the loop owns. */
  lemma OtherEffects(plan: Plan, s: Sys, step: Step)
    requires Enabled(plan, s, step)
    ensures step.NoticeDone? ==> Apply(plan, s, step) == s.(cancelCalled := true, noticed := true, control := AtTop)
    ensures step.PassEnds? ==> Apply(plan, s, step) == s.(control := AtExit)
    ensures step.CancelContext? || step.WorkerSends? || step.RouteFailure? ==>
              var t := Apply(plan, s, step);
              && t.states == s.states && t.active == s.active && t.registered == s.registered
              && t.primaryErr == s.primaryErr && t.cancelCalled == s.cancelCalled && t.control == s.control
              && t.cleanup == s.cleanup && s.queue <= t.queue && (step.CancelContext? ==> t.ctxDone)
              && (step.WorkerSends? ==> t.queue == s.queue + [step.event])
              && (step.RouteFailure? ==> t.queue == s.queue + [RouteFailed(step.service, step.required)])
  {
  }
}
