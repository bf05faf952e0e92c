/**
  The supervisor as a transition system: the loop variables of `Run`, the event
  channel, and one worker automaton per service.
*/
module Supervision {
  import opened Options
  import opened Graphs

  datatype State = Pending | Starting | Ready | Success | Failed | Blocked | Stopped
  {
    predicate Terminal() {
      Success? || Failed? || Blocked? || Stopped?
    }
  }

  datatype Event =
    | Started(service: string)
    | ShutdownRegistered(service: string)
    | BecameReady(service: string)
    | Ended(service: string, outcome: State)
    | RouteFailed(service: string, required: bool)

  /** `exits` holds the exit-completing services, `shutdowns` those with a shutdown command. */
  datatype Plan = Plan(
    order: seq<string>, services: set<string>, deps: Graph, exits: set<string>, shutdowns: set<string>)

  /** What the planner guarantees: a topological order of a dependency-closed selection. */
  ghost predicate ValidPlan(plan: Plan) {
    && Topological(plan.deps, plan.services, plan.order)
    && forall n, d :: n in plan.services && d in Deps(plan.deps, n) ==> d in plan.services
  }

  // ----- Workers -----

  /** How far a worker has come; `reg` tells whether it registered its shutdown command. */
  datatype Phase =
    | Fresh
    | Running(reg: bool)
    | Announced(reg: bool)
    | Finished(reg: bool, outcome: State)

  function Advance(p: Phase, e: Event): Option<Phase> {
    match e
    case Started(_) => if p.Fresh? then Some(Running(false)) else None
    case ShutdownRegistered(_) => if p == Running(false) then Some(Running(true)) else None
    case BecameReady(_) => if p.Running? then Some(Announced(p.reg)) else None
    case Ended(_, outcome) =>
      if p.Running? && (outcome.Failed? || outcome.Stopped?) then Some(Finished(p.reg, outcome))
      else if p.Announced? && (outcome.Success? || outcome.Failed? || outcome.Stopped?)
      then Some(Finished(p.reg, outcome))
      else None
    case RouteFailed(_, _) => None
  }

  /** What `runService` can send next; the start notice is sent by the loop itself. */
  predicate MaySend(plan: Plan, p: Phase, e: Event) {
    && !e.Started? && Advance(p, e).Some?
    && (e.ShutdownRegistered? ==> e.service in plan.exits && e.service in plan.shutdowns)
    && (e.BecameReady? && e.service in plan.exits && e.service in plan.shutdowns ==> p.reg)
    && (e.Ended? && p.Announced? ==> (e.outcome.Success? <==> e.service in plan.exits))
  }

  function Replay(p: Phase, events: seq<Event>): Option<Phase>
    decreases |events|
  {
    if events == [] then Some(p)
    else
      match Advance(p, events[0])
      case None => None
      case Some(q) => Replay(q, events[1..])
  }

  function Registered(p: Phase): bool {
    !p.Fresh? && p.reg
  }

  // ----- The whole system -----

  /**
    Where the loop stands between two steps: before the check of its context,
    at position `k` of the scheduling pass, before the decision to wait or
    return, in the `select`, or done.
  */
  datatype Control = AtTop | AtPass(k: nat) | AtExit | AtSelect | Returned

  datatype CleanupAct = ReleaseRoutes | RunShutdown(service: string)

  /** What happened, for statements over whole runs. */
  datatype Act = Checked | Begin(service: string) | Took(event: Event) | ContextDone

  datatype Sys = Sys(
    states: map<string, State>, active: set<string>, primaryErr: bool, registered: set<string>,
    cancelCalled: bool, ctxDone: bool, noticed: bool, control: Control, queue: seq<Event>,
    phase: map<string, Phase>, seen: map<string, Phase>, cleanup: seq<CleanupAct>, log: seq<Act>)

  function Capacity(plan: Plan): nat {
    |plan.order| * 4 + 1
  }

  function StateIn(states: map<string, State>, n: string): State {
    if n in states then states[n] else Pending
  }

  function StateOf(s: Sys, n: string): State {
    StateIn(s.states, n)
  }

  function PhaseOf(phases: map<string, Phase>, n: string): Phase {
    if n in phases then phases[n] else Fresh
  }

  /** `runCtx.Err() != nil`. */
  predicate RunErr(s: Sys) {
    s.cancelCalled || s.ctxDone
  }

  function Init(plan: Plan): Sys {
    Sys(map n | n in plan.services :: Pending, {}, false, {}, false, false, false, AtTop, [], map[], map[], [], [])
  }

  // ----- The scheduling pass -----

  /** The first line of the loop: a pass begins unless the session failed or its context is done. */
  function Check(s: Sys): Sys {
    var calm := !s.primaryErr && !RunErr(s);
    s.(control := if calm then AtPass(0) else AtExit, log := if calm then s.log + [Checked] else s.log)
  }

  predicate DependenciesReady(plan: Plan, states: map<string, State>, n: string) {
    forall d :: d in Deps(plan.deps, n) ==> StateIn(states, d).Ready? || StateIn(states, d).Success?
  }

  predicate DependencyFailed(plan: Plan, states: map<string, State>, n: string) {
    exists d :: d in Deps(plan.deps, n)
      && (StateIn(states, d).Failed? || StateIn(states, d).Blocked? || StateIn(states, d).Stopped?)
  }

  datatype Verdict = Leave | Block | Start

  /** The decision the scheduling loop takes for one service. */
  function Decide(plan: Plan, states: map<string, State>, n: string): Verdict {
    if !StateIn(states, n).Pending? then Leave
    else if DependencyFailed(plan, states, n) then Block
    else if DependenciesReady(plan, states, n) then Start
    else Leave
  }

  function Carry(s: Sys, n: string, v: Verdict): Sys {
    s.(states := if v.Leave? then s.states else s.states[n := if v.Block? then Blocked else Starting],
       active := if v.Start? then s.active + {n} else s.active,
       queue := if v.Start? then s.queue + [Started(n)] else s.queue,
       phase := if v.Start? then s.phase[n := Running(false)] else s.phase,
       log := if v.Start? then s.log + [Begin(n)] else s.log)
  }

  /** One turn of the scheduling loop. Nothing keeps other goroutines from acting before the next. */
  function Turn(plan: Plan, s: Sys, k: nat): Sys
    requires k < |plan.order|
  {
    Carry(s, plan.order[k], Decide(plan, s.states, plan.order[k])).(control := AtPass(k + 1))
  }

  // ----- Cleanup -----

  /** Shutdown commands in reverse start order, for registered services that have one. */
  function ShutdownOrder(plan: Plan, registered: set<string>, k: nat): seq<CleanupAct>
    requires k <= |plan.order|
  {
    if k == 0 then []
    else
      var n := plan.order[k - 1];
      (if n in registered && n in plan.shutdowns then [RunShutdown(n)] else []) + ShutdownOrder(plan, registered, k - 1)
  }

  function Cleanup(plan: Plan, registered: set<string>): seq<CleanupAct> {
    [ReleaseRoutes] + ShutdownOrder(plan, registered, |plan.order|)
  }

  function BlockPending(states: map<string, State>): map<string, State> {
    map n | n in states :: if states[n].Pending? then Blocked else states[n]
  }

  predicate Unfinished(s: Sys) {
    exists n :: n in s.states && (s.states[n].Pending? || s.states[n].Starting? || s.states[n].Ready?)
  }

  /** How the part of the loop before the `select` ends; the caller's context is read here once more. */
  datatype Exit = ReturnError | ReturnCancelled | ReturnDone | Wait

  function ExitOf(p: Sys, routesActive: bool): Exit {
    if p.active != {} then Wait
    else if p.primaryErr then ReturnError
    else if p.ctxDone then ReturnCancelled
    else if !Unfinished(p) && p.registered == {} && !routesActive then ReturnDone
    else Wait
  }

  function Leaving(plan: Plan, p: Sys, exit: Exit): Sys {
    p.(control := if exit.Wait? then AtSelect else Returned,
       cleanup := if exit.ReturnError? || exit.ReturnCancelled? then p.cleanup + Cleanup(plan, p.registered)
                  else p.cleanup,
       cancelCalled := p.cancelCalled || exit.ReturnError? || exit.ReturnCancelled?,
       states := if exit.ReturnError? then BlockPending(p.states) else p.states)
  }

  // ----- Taking an event -----

  function SeenAfter(seen: map<string, Phase>, e: Event): map<string, Phase> {
    match Advance(PhaseOf(seen, e.service), e)
    case Some(p) => seen[e.service := p]
    case None => seen
  }

  function StatesAfter(states: map<string, State>, e: Event): map<string, State> {
    match e
    case BecameReady(n) => states[n := Ready]
    case Ended(n, outcome) => states[n := outcome]
    case _ => states
  }

  /** Events that make the session fail, unless it already failed or was cancelled. */
  predicate Failing(e: Event) {
    (e.RouteFailed? && e.required) || (e.Ended? && e.outcome.Failed?)
  }

  predicate FirstFailure(s: Sys, e: Event) {
    Failing(e) && !s.primaryErr && !RunErr(s)
  }

  function Take(s: Sys): Sys
    requires s.queue != []
  {
    var e := s.queue[0];
    s.(queue := s.queue[1..], control := AtTop, log := s.log + [Took(e)],
       seen := SeenAfter(s.seen, e),
       states := StatesAfter(s.states, e),
       active := if e.Ended? then s.active - {e.service} else s.active,
       registered := if e.ShutdownRegistered? then s.registered + {e.service} else s.registered,
       primaryErr := s.primaryErr || FirstFailure(s, e),
       cancelCalled := s.cancelCalled || FirstFailure(s, e))
  }

  // ----- Steps -----

  datatype Step =
    | Enter
    | Schedule
    | PassEnds
    | Exits(routesActive: bool)
    | Consume
    | NoticeDone
    | CancelContext
    | WorkerSends(event: Event)
    | RouteFailure(service: string, required: bool)

  predicate Enabled(plan: Plan, s: Sys, step: Step) {
    match step
    case Enter => s.control.AtTop?
    case Schedule =>
      && s.control.AtPass? && s.control.k < |plan.order|
      && (Decide(plan, s.states, plan.order[s.control.k]).Start? ==> |s.queue| < Capacity(plan))
    case PassEnds => s.control == AtPass(|plan.order|)
    case Exits(_) => s.control.AtExit?
    case Consume => s.control.AtSelect? && s.queue != []
    case NoticeDone => s.control.AtSelect? && s.ctxDone && !s.noticed
    case CancelContext => !s.ctxDone
    case WorkerSends(e) =>
      && !e.RouteFailed? && e.service in plan.services && MaySend(plan, PhaseOf(s.phase, e.service), e)
      && |s.queue| < Capacity(plan)
    case RouteFailure(_, _) => |s.queue| < Capacity(plan)
  }

  function Apply(plan: Plan, s: Sys, step: Step): Sys
    requires Enabled(plan, s, step)
  {
    match step
    case Enter => Check(s)
    case Schedule => Turn(plan, s, s.control.k)
    case PassEnds => s.(control := AtExit)
    case Exits(routesActive) => Leaving(plan, s, ExitOf(s, routesActive))
    case Consume => Take(s)
    case NoticeDone => s.(cancelCalled := true, noticed := true, control := AtTop)
    case CancelContext => s.(ctxDone := true, log := s.log + [ContextDone])
    case WorkerSends(e) =>
      s.(queue := s.queue + [e], phase := s.phase[e.service := Advance(PhaseOf(s.phase, e.service), e).value])
    case RouteFailure(n, required) => s.(queue := s.queue + [RouteFailed(n, required)])
  }

  ghost predicate Next(plan: Plan, s: Sys, s': Sys) {
    exists step :: Enabled(plan, s, step) && s' == Apply(plan, s, step)
  }

  /** A run: every interleaving of the loop, the workers, the routes and the caller's context. */
  ghost predicate IsRun(plan: Plan, run: seq<Sys>) {
    && |run| > 0 && run[0] == Init(plan)
    && forall i :: 0 <= i < |run| - 1 ==> Next(plan, run[i], run[i + 1])
  }
}
