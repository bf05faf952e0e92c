/** What every step of the supervisor keeps, service by service. */
module SupervisorInvariant {
  import opened Options
  import opened Graphs
  import opened Ordering
  import opened Supervision

  // ----- The channel as seen by one service -----

  predicate Concerns(e: Event, n: string) {
    !e.RouteFailed? && e.service == n
  }

  function Only(e: Event, n: string): seq<Event> {
    if Concerns(e, n) then [e] else []
  }

  /** The queued events of one service, oldest first. */
  function Proj(queue: seq<Event>, n: string): seq<Event> {
    if queue == [] then [] else Only(queue[0], n) + Proj(queue[1..], n)
  }

  lemma {:induction false} ProjAppend(queue: seq<Event>, e: Event, n: string)
    ensures Proj(queue + [e], n) == Proj(queue, n) + Only(e, n)
  {
    if queue == [] {
      assert (queue + [e])[1..] == [];
    } else {
      assert (queue + [e])[1..] == queue[1..] + [e];
      ProjAppend(queue[1..], e, n);
    }
  }

  lemma {:induction false} ReplayAppend(p: Phase, events: seq<Event>, e: Event)
    requires Replay(p, events).Some?
    ensures Replay(p, events + [e]) == Advance(Replay(p, events).value, e)
    decreases |events|
  {
    if events == [] {
      assert (events + [e])[1..] == [];
      assert Replay(p, [e]) == match Advance(p, e) { case None => None case Some(q) => Replay(q, []) };
    } else {
      assert (events + [e])[1..] == events[1..] + [e];
      ReplayAppend(Advance(p, events[0]).value, events[1..], e);
    }
  }

  // ----- The per-service invariant -----

  predicate StateAgrees(state: State, seen: Phase, phase: Phase) {
    match seen
    case Fresh => if phase.Fresh? then state.Pending? || state.Blocked? else state.Starting?
    case Running(_) => state.Starting?
    case Announced(_) => state.Ready?
    case Finished(_, outcome) => state == outcome && !outcome.Blocked? && outcome.Terminal()
  }

  /** Everything the system holds about one service. */
  datatype View = View(state: State, seen: Phase, phase: Phase, queued: seq<Event>, active: bool, registered: bool)

  function ViewOf(s: Sys, n: string): View {
    View(StateOf(s, n), PhaseOf(s.seen, n), PhaseOf(s.phase, n), Proj(s.queue, n), n in s.active, n in s.registered)
  }

  predicate ViewInv(v: View) {
    && Replay(v.seen, v.queued) == Some(v.phase)
    && StateAgrees(v.state, v.seen, v.phase)
    && (v.active <==> !v.phase.Fresh? && !v.seen.Finished?)
    && (v.registered <==> Registered(v.seen))
  }

  predicate ServiceInv(s: Sys, n: string) {
    ViewInv(ViewOf(s, n))
  }

  ghost predicate AllServices(plan: Plan, s: Sys) {
    forall n :: n in plan.services ==> ServiceInv(s, n)
  }

  ghost predicate Shape(plan: Plan, s: Sys) {
    && s.states.Keys == plan.services
    && s.active <= plan.services && s.registered <= plan.services
    && (forall i :: 0 <= i < |s.queue| ==> s.queue[i].RouteFailed? || s.queue[i].service in plan.services)
    && (s.cancelCalled ==> s.primaryErr || s.ctxDone)
  }

  /** Waiting with nobody active means that nothing is left to schedule. */
  ghost predicate SelectInv(s: Sys) {
    s.control.AtSelect? && s.active == {} ==> forall n :: n in s.states ==> !s.states[n].Pending?
  }

  ghost predicate CleanupInv(plan: Plan, s: Sys) {
    && (s.cleanup != [] ==> s.control.Returned? && s.active == {} && s.cleanup == Cleanup(plan, s.registered))
    && (s.control.Returned? ==> s.active == {})
    && (s.control.Returned? && s.cleanup == [] ==> s.registered == {} && !Unfinished(s))
  }

  /** A service left pending waits for a dependency that is still on its way. */
  predicate Waits(plan: Plan, states: map<string, State>, n: string) {
    exists d :: d in Deps(plan.deps, n) && (StateIn(states, d).Pending? || StateIn(states, d).Starting?)
  }

  ghost predicate Passed(plan: Plan, states: map<string, State>, k: nat) {
    k <= |plan.order| &&
    forall i :: 0 <= i < k && StateIn(states, plan.order[i]).Pending? ==> Waits(plan, states, plan.order[i])
  }

  /** The part of the order the pass has gone through leaves pending only what has to wait. */
  ghost predicate PassInv(plan: Plan, s: Sys) {
    && (s.control.AtPass? ==> Passed(plan, s.states, s.control.k))
    && (s.control.AtExit? ==> s.primaryErr || s.ctxDone || Passed(plan, s.states, |plan.order|))
  }

  ghost predicate Sound(plan: Plan, s: Sys) {
    Shape(plan, s) && AllServices(plan, s)
  }

  ghost predicate Inv(plan: Plan, s: Sys) {
    Sound(plan, s) && PassInv(plan, s) && SelectInv(s) && CleanupInv(plan, s)
  }

  lemma InitInv(plan: Plan)
    ensures Inv(plan, Init(plan))
  {
    forall n | n in plan.services
      ensures ServiceInv(Init(plan), n)
    {
      assert Proj([], n) == [];
    }
    assert forall x :: x in Init(plan).states <==> x in plan.services;
  }

  // ----- Worker steps -----

  lemma ReplayOnlyFresh(p: Phase, events: seq<Event>)
    requires Replay(p, events) == Some(Fresh)
    ensures p.Fresh? && events == []
    decreases |events|
  {
    if events != [] {
      ReplayOnlyFresh(Advance(p, events[0]).value, events[1..]);
    }
  }

  lemma ReplayStaysFinished(p: Phase, events: seq<Event>)
    requires p.Finished? && Replay(p, events).Some?
    ensures events == []
  {
  }

  lemma SendKeeps(s: Sys, e: Event, n: string)
    requires ServiceInv(s, n) && !e.RouteFailed? && !e.Started?
    requires Advance(PhaseOf(s.phase, e.service), e).Some?
    ensures ServiceInv(s.(queue := s.queue + [e],
                          phase := s.phase[e.service := Advance(PhaseOf(s.phase, e.service), e).value]), n)
  {
    ProjAppend(s.queue, e, n);
    if e.service == n {
      ReplayAppend(PhaseOf(s.seen, n), Proj(s.queue, n), e);
      if PhaseOf(s.seen, n).Finished? {
        ReplayStaysFinished(PhaseOf(s.seen, n), Proj(s.queue, n));
      }
    } else {
      assert Proj(s.queue, n) + [] == Proj(s.queue, n);
    }
  }

  lemma RouteFailureKeeps(s: Sys, e: Event, n: string)
    requires ServiceInv(s, n) && e.RouteFailed?
    ensures ServiceInv(s.(queue := s.queue + [e]), n)
  {
    ProjAppend(s.queue, e, n);
    assert Proj(s.queue, n) + [] == Proj(s.queue, n);
  }

  // ----- Taking an event -----

  function TakeView(v: View, e: Event): View
    requires v.queued != []
  {
    var t := v.(queued := v.queued[1..], seen := match Advance(v.seen, e) case Some(p) => p case None => v.seen);
    match e
    case ShutdownRegistered(_) => t.(registered := true)
    case BecameReady(_) => t.(state := Ready)
    case Ended(_, outcome) => t.(active := false, state := outcome)
    case _ => t
  }

  lemma TakeViewKeeps(v: View, e: Event)
    requires ViewInv(v) && v.queued != [] && e == v.queued[0]
    ensures ViewInv(TakeView(v, e))
  {
    var q := Advance(v.seen, e).value;
    assert Replay(q, v.queued[1..]) == Some(v.phase);
    if v.phase.Fresh? {
      ReplayOnlyFresh(q, v.queued[1..]);
    }
  }

  lemma ProjHead(queue: seq<Event>, n: string)
    requires queue != []
    ensures if Concerns(queue[0], n)
            then Proj(queue, n) == [queue[0]] + Proj(queue[1..], n) && Proj(queue, n)[1..] == Proj(queue[1..], n)
            else Proj(queue, n) == Proj(queue[1..], n)
  {
  }

  lemma TakeOther(s: Sys, n: string)
    requires s.queue != [] && !Concerns(s.queue[0], n)
    ensures ViewOf(Take(s), n) == ViewOf(s, n)
  {
    ProjHead(s.queue, n);
    SeenOther(s.seen, s.queue[0], n);
    StatesOther(s.states, s.queue[0], n);
  }

  lemma SeenOther(seen: map<string, Phase>, e: Event, n: string)
    requires !Concerns(e, n)
    ensures PhaseOf(SeenAfter(seen, e), n) == PhaseOf(seen, n)
  {
  }

  lemma StatesOther(states: map<string, State>, e: Event, n: string)
    requires !Concerns(e, n)
    ensures n in StatesAfter(states, e) <==> n in states
    ensures n in states ==> StatesAfter(states, e)[n] == states[n]
  {
  }

  lemma TakeOwn(s: Sys, n: string)
    requires s.queue != [] && Concerns(s.queue[0], n)
    ensures Proj(s.queue, n) != [] && Proj(s.queue, n)[0] == s.queue[0]
    ensures ViewOf(Take(s), n) == TakeView(ViewOf(s, n), s.queue[0])
  {
    ProjHead(s.queue, n);
  }

  lemma TakeKeeps(s: Sys, n: string)
    requires s.queue != [] && ServiceInv(s, n)
    ensures ServiceInv(Take(s), n)
  {
    if Concerns(s.queue[0], n) {
      TakeOwn(s, n);
      TakeViewKeeps(ViewOf(s, n), s.queue[0]);
    } else {
      TakeOther(s, n);
    }
  }

  // ----- Scheduling -----

  lemma StartKeeps(s: Sys, n: string, m: string)
    requires ServiceInv(s, n) && ServiceInv(s, m) && StateOf(s, n).Pending?
    ensures ServiceInv(Carry(s, n, Start), m)
  {
    var e := Started(n);
    ProjAppend(s.queue, e, m);
    if m == n {
      ReplayOnlyFresh(PhaseOf(s.seen, n), Proj(s.queue, n));
      ReplayAppend(PhaseOf(s.seen, n), Proj(s.queue, n), e);
    } else {
      assert Proj(s.queue, m) + [] == Proj(s.queue, m);
    }
  }

  lemma CarryKeeps(plan: Plan, s: Sys, n: string, v: Verdict)
    requires Sound(plan, s) && n in plan.services
    requires !v.Leave? ==> StateOf(s, n).Pending?
    ensures Sound(plan, Carry(s, n, v))
  {
    forall m | m in plan.services
      ensures ServiceInv(Carry(s, n, v), m)
    {
      assert ServiceInv(s, n) && ServiceInv(s, m);
      match v {
        case Start => StartKeeps(s, n, m);
        case Block => BlockKeeps(s, n, m);
        case Leave =>
      }
    }
  }

  lemma BlockKeeps(s: Sys, n: string, m: string)
    requires ServiceInv(s, n) && ServiceInv(s, m) && StateOf(s, n).Pending?
    ensures ServiceInv(Carry(s, n, Block), m)
  {
  }

  /** A move of the loop itself leaves every service alone. */
  lemma ControlKeeps(plan: Plan, s: Sys, t: Sys)
    requires Sound(plan, s) && t == s.(control := t.control, log := t.log)
    ensures Sound(plan, t)
  {
    forall n | n in plan.services
      ensures ServiceInv(t, n)
    {
      assert ServiceInv(s, n) && ViewOf(t, n) == ViewOf(s, n);
    }
  }

  /** The order holds services only. */
  lemma OrderInside(plan: Plan, i: nat)
    requires ValidPlan(plan) && i < |plan.order|
    ensures plan.order[i] in plan.services
  {
    assert plan.order[i] in Elements(plan.order);
  }

  lemma TurnSound(plan: Plan, s: Sys, k: nat)
    requires ValidPlan(plan) && Sound(plan, s) && k < |plan.order|
    ensures Sound(plan, Turn(plan, s, k))
  {
    OrderInside(plan, k);
    var n := plan.order[k];
    var carried := Carry(s, n, Decide(plan, s.states, n));
    CarryKeeps(plan, s, n, Decide(plan, s.states, n));
    ControlKeeps(plan, carried, Turn(plan, s, k));
  }

  // ----- No stall -----

  /** Dependencies of a service lie before it in the order, so the rest of a pass does not touch their states. */
  lemma EarlierDeps(plan: Plan, i: nat, d: string)
    requires ValidPlan(plan) && i < |plan.order| && d in Deps(plan.deps, plan.order[i])
    ensures d in plan.order[..i]
  {
    OrderInside(plan, i);
    assert d in plan.services;
  }

  lemma EarlierDiffer(plan: Plan, i: nat, k: nat, d: string)
    requires ValidPlan(plan) && i <= k < |plan.order| && d in Deps(plan.deps, plan.order[i])
    ensures d != plan.order[k]
  {
    EarlierDeps(plan, i, d);
    var j :| 0 <= j < i && plan.order[j] == d;
  }

  /** After its turn a service is no longer pending, or it waits. */
  lemma TurnSettles(plan: Plan, s: Sys, k: nat)
    requires ValidPlan(plan) && k < |plan.order|
    ensures var states := Turn(plan, s, k).states;
            StateIn(states, plan.order[k]).Pending? ==> Waits(plan, states, plan.order[k])
  {
    var n, states := plan.order[k], Turn(plan, s, k).states;
    forall d | d in Deps(plan.deps, n)
      ensures StateIn(states, d) == StateIn(s.states, d)
    {
      EarlierDiffer(plan, k, k, d);
    }
  }

  lemma TurnKeepsWaiting(plan: Plan, s: Sys, k: nat, i: nat)
    requires ValidPlan(plan) && i < k < |plan.order|
    requires StateIn(s.states, plan.order[i]).Pending? ==> Waits(plan, s.states, plan.order[i])
    ensures var states := Turn(plan, s, k).states;
            StateIn(states, plan.order[i]).Pending? ==> Waits(plan, states, plan.order[i])
  {
    var states := Turn(plan, s, k).states;
    assert plan.order[i] != plan.order[k];
    if StateIn(states, plan.order[i]).Pending? {
      var d :| d in Deps(plan.deps, plan.order[i])
        && (StateIn(s.states, d).Pending? || StateIn(s.states, d).Starting?);
      EarlierDiffer(plan, i, k, d);
      assert StateIn(states, d) == StateIn(s.states, d);
    }
  }

  lemma TurnPasses(plan: Plan, s: Sys, k: nat)
    requires ValidPlan(plan) && k < |plan.order| && Passed(plan, s.states, k)
    ensures Passed(plan, Turn(plan, s, k).states, k + 1)
  {
    var states := Turn(plan, s, k).states;
    forall i | 0 <= i < k + 1 && StateIn(states, plan.order[i]).Pending?
      ensures Waits(plan, states, plan.order[i])
    {
      if i < k {
        TurnKeepsWaiting(plan, s, k, i);
      } else {
        TurnSettles(plan, s, k);
      }
    }
  }

  lemma StartingIsActive(plan: Plan, s: Sys, d: string)
    requires AllServices(plan, s) && d in plan.services && StateOf(s, d).Starting?
    ensures d in s.active
  {
    assert ServiceInv(s, d);
    if PhaseOf(s.phase, d).Fresh? {
      ReplayOnlyFresh(PhaseOf(s.seen, d), Proj(s.queue, d));
    }
  }

  lemma {:induction false} NothingPending(plan: Plan, s: Sys, i: nat)
    requires ValidPlan(plan) && AllServices(plan, s) && s.active == {} && i < |plan.order|
    requires Passed(plan, s.states, |plan.order|)
    ensures !StateOf(s, plan.order[i]).Pending?
  {
    if StateOf(s, plan.order[i]).Pending? {
      var d :| d in Deps(plan.deps, plan.order[i])
        && (StateIn(s.states, d).Pending? || StateIn(s.states, d).Starting?);
      EarlierDeps(plan, i, d);
      var j :| 0 <= j < i && plan.order[j] == d;
      NothingPending(plan, s, j);
      OrderInside(plan, j);
      StartingIsActive(plan, s, d);
    }
  }

  /**
    The supervisor never stalls: a scheduling pass that leaves no worker active
    leaves no service pending, because `Order` is topological and closed.
  */
  lemma NoStall(plan: Plan, s: Sys)
    requires ValidPlan(plan) && Sound(plan, s) && Passed(plan, s.states, |plan.order|) && s.active == {}
    ensures forall n :: n in plan.services ==> !StateOf(s, n).Pending?
  {
    forall n | n in plan.services
      ensures !StateOf(s, n).Pending?
    {
      assert n in Elements(plan.order);
      var i :| 0 <= i < |plan.order| && plan.order[i] == n;
      NothingPending(plan, s, i);
    }
  }
}
