/** The loop of `Run` over its local variables, tied to the transition system. */
module SupervisorLoop {
  import opened Supervision
  import opened SupervisorInvariant
  import opened SupervisorSteps
  import opened SupervisorHistory
  import opened SupervisorCleanup

  class Loop {
    const plan: Plan
    /** Services whose shutdown command fails when cleanup runs it. */
    const shutdownFails: set<string>
    var states: map<string, State>
    var active: set<string>
    var primaryErr: bool
    var registered: set<string>
    var cancelCalled: bool
    var ctxDone: bool
    var noticed: bool
    var control: Control
    var events: seq<Event>
    var phase: map<string, Phase>
    var seen: map<string, Phase>
    var cleanup: seq<CleanupAct>
    var log: seq<Act>

    /** The run so far, for statements about every interleaving. */
    ghost var run: seq<Sys>

    function Snapshot(): Sys
      reads this
    {
      Sys(states, active, primaryErr, registered, cancelCalled, ctxDone, noticed, control, events, phase, seen,
          cleanup, log)
    }

    ghost predicate Valid()
      reads this
    {
      IsRun(plan, run) && run[|run| - 1] == Snapshot()
    }

    constructor (plan: Plan, shutdownFails: set<string>)
      ensures this.plan == plan && Snapshot() == Init(plan) && Valid()
    {
      this.plan, this.shutdownFails := plan, shutdownFails;
      states, active, primaryErr, registered := map n | n in plan.services :: Pending, {}, false, {};
      cancelCalled, ctxDone, noticed, control, events := false, false, false, AtTop, [];
      phase, seen, cleanup, log := map[], map[], [], [];
      run := [Init(plan)];
    }

    /** The first line of the loop. */
    method EnterTop()
      modifies this`control, this`log
      ensures Snapshot() == Check(old(Snapshot()))
    {
      if !primaryErr && !RunErr(Snapshot()) {
        control, log := AtPass(0), log + [Checked];
      } else {
        control := AtExit;
      }
    }

    /** The closure `start`: the notice is sent before the worker goroutine begins. */
    method StartOne(name: string)
      modifies this`states, this`active, this`events, this`phase, this`log
      ensures Snapshot() == Carry(old(Snapshot()), name, Start)
    {
      states := states[name := Starting];
      active := active + {name};
      events := events + [Started(name)];
      phase := phase[name := Running(false)];
      log := log + [Begin(name)];
    }

    /** The body of the scheduling loop for the service at position `k`. */
    method ScheduleService(k: nat)
      requires k < |plan.order|
      modifies this`states, this`active, this`events, this`phase, this`log, this`control
      ensures Snapshot() == Turn(plan, old(Snapshot()), k)
    {
      var name := plan.order[k];
      var verdict := Decide(plan, states, name);
      match verdict {
        case Leave =>
        case Block => states := states[name := Blocked];
        case Start => StartOne(name);
      }
      control := AtPass(k + 1);
    }

    /** The decision to wait or to return, which reads the caller's context again. */
    method Exit(routesActive: bool)
      modifies this`control, this`cleanup, this`states, this`cancelCalled
      ensures Snapshot() == Leaving(plan, old(Snapshot()), ExitOf(old(Snapshot()), routesActive))
    {
      var exit := ExitOf(Snapshot(), routesActive);
      match exit
      case Wait => control := AtSelect;
      case ReturnDone => control := Returned;
      case ReturnCancelled =>
        AddCleanup();
        cancelCalled, control := true, Returned;
      case ReturnError =>
        AddCleanup();
        states := BlockPending(states);
        cancelCalled, control := true, Returned;
    }

    /** Runs the cleanup; whatever ran before stays on record. */
    method AddCleanup()
      modifies this`cleanup
      ensures cleanup == old(cleanup) + Cleanup(plan, registered)
    {
      var handled, _ := RunShutdownCommands(plan, registered, shutdownFails);
      cleanup := cleanup + ([ReleaseRoutes] + handled);
    }

    method Record(update: Event)
      modifies this`states, this`active, this`registered
      ensures states == StatesAfter(old(states), update)
      ensures active == if update.Ended? then old(active) - {update.service} else old(active)
      ensures registered ==
              if update.ShutdownRegistered? then old(registered) + {update.service} else old(registered)
    {
      match update
      case RouteFailed(_, _) =>
      case ShutdownRegistered(n) => registered := registered + {n};
      case Started(_) =>
      case BecameReady(n) => states := states[n := Ready];
      case Ended(n, outcome) =>
        active := active - {n};
        states := states[n := outcome];
    }

    /** The receive arm of the `select`. */
    method Receive()
      requires events != []
      modifies this`states, this`active, this`registered
      modifies this`seen, this`events, this`control, this`log, this`primaryErr, this`cancelCalled
      ensures Snapshot() == Take(old(Snapshot()))
    {
      var update := events[0];
      var first := FirstFailure(Snapshot(), update);
      Record(update);
      Settle(update, first);
    }

    /** What an update does besides the per-service tables: history, failure, back to the top. */
    method Settle(update: Event, first: bool)
      requires events != []
      modifies this`seen, this`events, this`control, this`log, this`primaryErr, this`cancelCalled
      ensures seen == SeenAfter(old(seen), update) && events == old(events)[1..] && control == AtTop
      ensures log == old(log) + [Took(update)]
      ensures primaryErr == (old(primaryErr) || first) && cancelCalled == (old(cancelCalled) || first)
    {
      if first {
        primaryErr, cancelCalled := true, true;
      }
      seen, events, control, log := SeenAfter(seen, update), events[1..], AtTop, log + [Took(update)];
    }

    method Do(step: Step)
      requires Enabled(plan, Snapshot(), step)
      modifies this
      ensures Snapshot() == Apply(plan, old(Snapshot()), step) && run == old(run)
    {
      match step
      case Enter => EnterTop();
      case Schedule => ScheduleService(control.k);
      case PassEnds => control := AtExit;
      case Exits(routesActive) => Exit(routesActive);
      case Consume => Receive();
      case NoticeDone => cancelCalled, noticed, control := true, true, AtTop;
      case CancelContext => ctxDone, log := true, log + [ContextDone];
      case WorkerSends(e) =>
        phase := phase[e.service := Advance(PhaseOf(phase, e.service), e).value];
        events := events + [e];
      case RouteFailure(n, required) => events := events + [RouteFailed(n, required)];
    }

    method Act(step: Step)
      requires Valid() && Enabled(plan, Snapshot(), step)
      modifies this
      ensures Valid() && Snapshot() == Apply(plan, old(Snapshot()), step)
      ensures run == old(run) + [Snapshot()]
    {
      ghost var before := Snapshot();
      Do(step);
      assert Next(plan, before, Snapshot());
      ExtendRun(plan, run, Snapshot());
      run := run + [Snapshot()];
    }

    /** What workers, routes and the caller do between two steps of the loop, as far as they can. */
    method Others(steps: seq<Step>)
      requires Valid()
      modifies this
      ensures Valid() && old(run) <= run && control == old(control) && states == old(states) && active == old(active)
      ensures primaryErr == old(primaryErr)
    {
      for i := 0 to |steps|
        invariant Valid() && old(run) <= run
        invariant control == old(control) && states == old(states) && active == old(active)
        invariant primaryErr == old(primaryErr)
      {
        if IsOutside(steps[i]) && Enabled(plan, Snapshot(), steps[i]) {
          Act(steps[i]);
        }
      }
    }

    /** One turn of the pass, after whatever happened since the last. */
    method PassTurn(k: nat, others: seq<Step>) returns (blocked: bool)
      requires Valid() && ValidPlan(plan) && k < |plan.order| && control == AtPass(k)
      modifies this
      ensures Valid() && old(run) <= run
      ensures if blocked then RouteCount(events) > 0 else control == AtPass(k + 1)
    {
      Others(others);
      TurnIsPossible(plan, run, |run| - 1);
      blocked := !Enabled(plan, Snapshot(), Schedule);
      if !blocked {
        Act(Schedule);
      }
    }

    /**
      The loop over the order, with anything happening before each turn. It
      gets through unless route failures fill the channel.
    */
    method Pass(between: seq<seq<Step>>) returns (blocked: bool)
      requires Valid() && ValidPlan(plan) && control == AtPass(0) && |between| >= |plan.order|
      modifies this
      ensures Valid() && old(run) <= run
      ensures if blocked then RouteCount(events) > 0
              else control == AtPass(|plan.order|) && Passed(plan, states, |plan.order|)
    {
      for k := 0 to |plan.order|
        invariant Valid() && old(run) <= run && control == AtPass(k)
      {
        blocked := PassTurn(k, between[k]);
        if blocked {
          return;
        }
      }
      ReachedIsSound(plan, run, |run| - 1);
      blocked := false;
    }

    /** Drives the loop, the workers and the context by an arbitrary schedule. */
    method Drive(schedule: seq<Step>)
      requires Valid()
      modifies this
      ensures Valid() && old(run) <= run
      ensures ValidPlan(plan) ==> Inv(plan, Snapshot()) && HistoryInv(plan, Snapshot())
    {
      for i := 0 to |schedule|
        invariant Valid() && old(run) <= run
      {
        if Enabled(plan, Snapshot(), schedule[i]) {
          Act(schedule[i]);
        }
      }
      if ValidPlan(plan) {
        ReachedIsSound(plan, run, |run| - 1);
      }
    }
  }

  /** Steps of other goroutines. */
  predicate IsOutside(step: Step) {
    step.WorkerSends? || step.RouteFailure? || step.CancelContext?
  }

  lemma ReachedIsSound(plan: Plan, run: seq<Sys>, i: nat)
    requires ValidPlan(plan) && IsRun(plan, run) && i < |run|
    ensures Inv(plan, run[i]) && HistoryInv(plan, run[i])
  {
    RunInv(plan, run, i);
    RunHistory(plan, run, i);
  }

  lemma TurnIsPossible(plan: Plan, run: seq<Sys>, i: nat)
    requires ValidPlan(plan) && IsRun(plan, run) && i < |run|
    requires run[i].control.AtPass? && run[i].control.k < |plan.order|
    ensures RouteCount(run[i].queue) > 0 || Enabled(plan, run[i], Schedule)
  {
    if RouteCount(run[i].queue) == 0 {
      PassNeverBlocks(plan, run, i);
    }
  }

  lemma ExtendRun(plan: Plan, run: seq<Sys>, s: Sys)
    requires IsRun(plan, run) && Next(plan, run[|run| - 1], s)
    ensures IsRun(plan, run + [s])
  {
    var longer := run + [s];
    forall i | 0 <= i < |longer| - 1
      ensures Next(plan, longer[i], longer[i + 1])
    {
      if i < |run| - 1 {
        assert Next(plan, run[i], run[i + 1]);
      }
    }
  }
}
