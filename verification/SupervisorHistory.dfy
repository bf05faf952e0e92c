/** Statements about whole supervisor runs, read off the history. */
module SupervisorHistory {
  import opened Graphs
  import opened Ordering
  import opened Supervision
  import opened SupervisorInvariant
  import opened SupervisorSteps

  // ----- Starts follow their dependencies and never follow a failure -----

  /** The loop took the event that makes `d` usable by its dependents. */
  predicate Supplies(a: Act, d: string) {
    a == Took(BecameReady(d)) || a == Took(Ended(d, Success))
  }

  predicate Heard(log: seq<Act>, d: string) {
    exists i :: 0 <= i < |log| && Supplies(log[i], d)
  }

  predicate Halts(a: Act) {
    a.ContextDone? || (a.Took? && Failing(a.event))
  }

  predicate HasHalt(log: seq<Act>) {
    exists i :: 0 <= i < |log| && Halts(log[i])
  }

  /** Every start comes after a consumed ready or success of all its dependencies. */
  ghost predicate Justified(plan: Plan, log: seq<Act>) {
    forall i :: 0 <= i < |log| && log[i].Begin? ==>
      forall d :: d in Deps(plan.deps, log[i].service) ==> Heard(log[..i], d)
  }

  /** The start at `i` belongs to the pass that the check at `c` opened. */
  predicate InPass(log: seq<Act>, c: nat, i: nat) {
    c < i <= |log| && log[c].Checked? && forall j :: c < j < i ==> log[j].Begin? || log[j].ContextDone?
  }

  ghost predicate PassOpen(log: seq<Act>, i: nat) {
    exists c :: InPass(log, c, i)
  }

  /** No check passes after a failure or a cancellation, and every start belongs to a pass. */
  ghost predicate Quiet(log: seq<Act>) {
    forall i :: 0 <= i < |log| ==>
      (log[i].Checked? ==> !HasHalt(log[..i])) && (log[i].Begin? ==> PassOpen(log, i))
  }

  ghost predicate UsableHeard(s: Sys) {
    forall d :: StateOf(s, d).Ready? || StateOf(s, d).Success? ==> Heard(s.log, d)
  }

  /** Only terminal outcomes are announced as the end of a service. */
  predicate Tidy(queue: seq<Event>) {
    forall i :: 0 <= i < |queue| && queue[i].Ended? ==> queue[i].outcome.Terminal()
  }

  ghost predicate HistoryInv(plan: Plan, s: Sys) {
    && Tidy(s.queue) && UsableHeard(s) && Justified(plan, s.log) && Quiet(s.log)
    && (HasHalt(s.log) ==> s.primaryErr || RunErr(s))
    && (s.control.AtPass? ==> PassOpen(s.log, |s.log|))
  }

  lemma HeardGrows(log: seq<Act>, a: Act, d: string)
    ensures Heard(log + [a], d) <==> Heard(log, d) || Supplies(a, d)
  {
    var longer := log + [a];
    if i :| 0 <= i < |log| && Supplies(log[i], d) {
      assert Supplies(longer[i], d);
    }
    if Supplies(a, d) {
      assert Supplies(longer[|log|], d);
    }
  }

  lemma HaltGrows(log: seq<Act>, a: Act)
    ensures HasHalt(log + [a]) <==> HasHalt(log) || Halts(a)
  {
    var longer := log + [a];
    if i :| 0 <= i < |log| && Halts(log[i]) {
      assert Halts(longer[i]);
    }
    if Halts(a) {
      assert Halts(longer[|log|]);
    }
  }

  lemma JustifiedGrows(plan: Plan, log: seq<Act>, a: Act)
    requires Justified(plan, log)
    requires a.Begin? ==> forall d :: d in Deps(plan.deps, a.service) ==> Heard(log, d)
    ensures Justified(plan, log + [a])
  {
    var longer := log + [a];
    forall i | 0 <= i < |longer| && longer[i].Begin?
      ensures forall d :: d in Deps(plan.deps, longer[i].service) ==> Heard(longer[..i], d)
    {
      if i < |log| {
        assert longer[..i] == log[..i] && longer[i] == log[i];
      } else {
        assert longer[..i] == log;
      }
    }
  }

  /** A pass that is open stays what it is when the log grows, and stays open until an event is taken. */
  lemma PassGrows(log: seq<Act>, a: Act, i: nat)
    requires i <= |log| && PassOpen(log, i)
    ensures PassOpen(log + [a], i)
    ensures i == |log| && (a.Begin? || a.ContextDone?) ==> PassOpen(log + [a], i + 1)
  {
    var c :| InPass(log, c, i);
    assert InPass(log + [a], c, i);
    if i == |log| && (a.Begin? || a.ContextDone?) {
      assert InPass(log + [a], c, i + 1);
    }
  }

  lemma CheckOpens(log: seq<Act>)
    ensures PassOpen(log + [Checked], |log| + 1)
  {
    assert InPass(log + [Checked], |log|, |log| + 1);
  }

  lemma QuietGrows(log: seq<Act>, a: Act)
    requires Quiet(log)
    requires a.Checked? ==> !HasHalt(log)
    requires a.Begin? ==> PassOpen(log, |log|)
    ensures Quiet(log + [a])
  {
    var longer := log + [a];
    forall i | 0 <= i < |longer|
      ensures (longer[i].Checked? ==> !HasHalt(longer[..i])) && (longer[i].Begin? ==> PassOpen(longer, i))
    {
      if i < |log| {
        assert longer[..i] == log[..i] && longer[i] == log[i];
      } else {
        assert longer[..i] == log;
      }
      if longer[i].Begin? {
        PassGrows(log, a, i);
      }
    }
  }

  /** What follows from the log alone, once the states it speaks of are the same. */
  lemma UsableGrows(s: Sys, t: Sys, a: Act)
    requires UsableHeard(s) && t.log == s.log + [a]
    requires forall d :: StateOf(t, d).Ready? || StateOf(t, d).Success? ==>
               Supplies(a, d) || StateOf(t, d) == StateOf(s, d)
    ensures UsableHeard(t)
  {
    forall d | StateOf(t, d).Ready? || StateOf(t, d).Success?
      ensures Heard(t.log, d)
    {
      HeardGrows(s.log, a, d);
    }
  }

  // ----- Scheduling -----

  lemma CheckHistory(plan: Plan, s: Sys)
    requires HistoryInv(plan, s) && s.control.AtTop?
    ensures HistoryInv(plan, Check(s))
  {
    if !s.primaryErr && !RunErr(s) {
      JustifiedGrows(plan, s.log, Checked);
      QuietGrows(s.log, Checked);
      HaltGrows(s.log, Checked);
      CheckOpens(s.log);
      UsableGrows(s, Check(s), Checked);
    } else {
      assert forall d :: StateOf(Check(s), d) == StateOf(s, d);
    }
  }

  lemma StartIsHeard(plan: Plan, s: Sys, n: string)
    requires UsableHeard(s) && Decide(plan, s.states, n).Start?
    ensures forall d :: d in Deps(plan.deps, n) ==> Heard(s.log, d)
  {
    assert forall d :: d in Deps(plan.deps, n) ==> StateOf(s, d).Ready? || StateOf(s, d).Success?;
  }

  lemma TurnHistory(plan: Plan, s: Sys, k: nat)
    requires HistoryInv(plan, s) && s.control == AtPass(k) && k < |plan.order|
    ensures HistoryInv(plan, Turn(plan, s, k))
  {
    var n, t := plan.order[k], Turn(plan, s, k);
    if Decide(plan, s.states, n).Start? {
      StartIsHeard(plan, s, n);
      JustifiedGrows(plan, s.log, Begin(n));
      QuietGrows(s.log, Begin(n));
      HaltGrows(s.log, Begin(n));
      PassGrows(s.log, Begin(n), |s.log|);
      UsableGrows(s, t, Begin(n));
    } else {
      assert forall d :: StateOf(t, d).Ready? || StateOf(t, d).Success? ==> StateOf(t, d) == StateOf(s, d);
    }
  }

  lemma LeavingHistory(plan: Plan, p: Sys, exit: Exit)
    requires HistoryInv(plan, p)
    ensures HistoryInv(plan, Leaving(plan, p, exit))
  {
    var t := Leaving(plan, p, exit);
    forall d | StateOf(t, d).Ready? || StateOf(t, d).Success?
      ensures Heard(t.log, d)
    {
      assert StateOf(p, d) == StateOf(t, d);
    }
  }

  lemma TakeHistory(plan: Plan, s: Sys)
    requires s.queue != [] && HistoryInv(plan, s)
    ensures HistoryInv(plan, Take(s))
  {
    var e := s.queue[0];
    JustifiedGrows(plan, s.log, Took(e));
    QuietGrows(s.log, Took(e));
    HaltGrows(s.log, Took(e));
    forall d
      ensures StateOf(Take(s), d).Ready? || StateOf(Take(s), d).Success? ==>
                Supplies(Took(e), d) || StateOf(Take(s), d) == StateOf(s, d)
    {
      TakenState(s.states, e, d);
    }
    UsableGrows(s, Take(s), Took(e));
  }

  lemma TakenState(states: map<string, State>, e: Event, d: string)
    requires e.Ended? ==> e.outcome.Terminal()
    ensures d in StatesAfter(states, e) && (StatesAfter(states, e)[d].Ready? || StatesAfter(states, e)[d].Success?)
            ==> Supplies(Took(e), d) || (d in states && states[d] == StatesAfter(states, e)[d])
  {
  }

  lemma CancelHistory(plan: Plan, s: Sys)
    requires HistoryInv(plan, s)
    ensures HistoryInv(plan, s.(ctxDone := true, log := s.log + [ContextDone]))
  {
    var t := s.(ctxDone := true, log := s.log + [ContextDone]);
    JustifiedGrows(plan, s.log, ContextDone);
    QuietGrows(s.log, ContextDone);
    if s.control.AtPass? {
      PassGrows(s.log, ContextDone, |s.log|);
    }
    UsableGrows(s, t, ContextDone);
  }

  lemma StepHistory(plan: Plan, s: Sys, step: Step)
    requires HistoryInv(plan, s) && Enabled(plan, s, step)
    ensures HistoryInv(plan, Apply(plan, s, step))
  {
    match step {
      case Enter => CheckHistory(plan, s);
      case Schedule => TurnHistory(plan, s, s.control.k);
      case Exits(routesActive) => LeavingHistory(plan, s, ExitOf(s, routesActive));
      case Consume => TakeHistory(plan, s);
      case CancelContext => CancelHistory(plan, s);
      case _ =>
        var t := Apply(plan, s, step);
        assert forall d :: StateOf(t, d) == StateOf(s, d);
    }
  }

  lemma {:induction false} RunHistory(plan: Plan, run: seq<Sys>, i: nat)
    requires IsRun(plan, run) && i < |run|
    ensures HistoryInv(plan, run[i])
  {
    if i == 0 {
    } else {
      var k := i - 1;
      RunHistory(plan, run, k);
      assert Next(plan, run[k], run[k + 1]);
      var step :| Enabled(plan, run[k], step) && run[k + 1] == Apply(plan, run[k], step);
      StepHistory(plan, run[k], step);
    }
  }

  /** In every run each start follows a consumed ready or success of all its dependencies. */
  lemma StartsAreOrdered(plan: Plan, run: seq<Sys>, i: nat)
    requires IsRun(plan, run) && i < |run|
    ensures Justified(plan, run[i].log)
  {
    RunHistory(plan, run, i);
  }

  /** In every run nothing starts after the loop took the first failure. */
  lemma NoStartAfterFailure(plan: Plan, run: seq<Sys>, i: nat, j: nat, k: nat)
    requires IsRun(plan, run) && i < |run| && j < k < |run[i].log|
    requires run[i].log[j].Took? && Failing(run[i].log[j].event)
    ensures !run[i].log[k].Begin?
  {
    RunHistory(plan, run, i);
    var log := run[i].log;
    if log[k].Begin? {
      var c :| InPass(log, c, k);
      CheckComesFirst(log, c, j);
    }
  }

  lemma HaltBefore(log: seq<Act>, c: nat, j: nat)
    requires c < |log| && j < |log| && Halts(log[j])
    ensures j < c ==> HasHalt(log[..c])
  {
    if j < c {
      assert log[..c][j] == log[j];
    }
  }

  lemma CheckComesFirst(log: seq<Act>, c: nat, j: nat)
    requires Quiet(log) && c < |log| && j < |log| && log[c].Checked? && Halts(log[j])
    ensures c < j
  {
    HaltBefore(log, c, j);
  }

  /**
    A start after a cancellation belongs to the pass whose check came before
    the cancellation, and the loop took no event in between; after that pass
    there is none.
  */
  lemma LateStartsBelongToOnePass(plan: Plan, run: seq<Sys>, i: nat, j: nat, k: nat)
    requires IsRun(plan, run) && i < |run| && j < k < |run[i].log|
    requires run[i].log[j].ContextDone? && run[i].log[k].Begin?
    ensures exists c: nat :: c < j && InPass(run[i].log, c, k)
    ensures forall l :: j <= l < |run[i].log| ==> !run[i].log[l].Checked?
  {
    RunHistory(plan, run, i);
    var log := run[i].log;
    var c :| InPass(log, c, k);
    CheckComesFirst(log, c, j);
    forall l | j <= l < |log|
      ensures !log[l].Checked?
    {
      if log[l].Checked? {
        CheckComesFirst(log, l, j);
      }
    }
  }

  /** So nothing starts after a cancellation that falls outside a pass. */
  lemma NoStartAfterIdleCancel(plan: Plan, run: seq<Sys>, i: nat, j: nat, k: nat)
    requires IsRun(plan, run) && i < |run| && j < k < |run[i].log|
    requires run[i].log[j].ContextDone? && !PassOpen(run[i].log, j)
    ensures !run[i].log[k].Begin?
  {
    var log := run[i].log;
    if log[k].Begin? {
      LateStartsBelongToOnePass(plan, run, i, j, k);
      var c: nat :| c < j && InPass(log, c, k);
      assert InPass(log, c, j);
    }
  }

  /**
    And inside a pass it happens: with any plan that has a service, a context
    cancelled right after the check is followed by the first start.
  */
  lemma StartAfterCancel(plan: Plan) returns (run: seq<Sys>)
    requires ValidPlan(plan) && plan.order != []
    ensures IsRun(plan, run) && run[|run| - 1].log == [Checked, ContextDone, Begin(plan.order[0])]
  {
    var s0 := Init(plan);
    var s1 := Apply(plan, s0, Enter);
    var s2 := Apply(plan, s1, CancelContext);
    FirstStarts(plan, s2.states);
    var s3 := Apply(plan, s2, Schedule);
    run := [s0, s1, s2, s3];
    assert Next(plan, s0, s1) && Next(plan, s1, s2) && Next(plan, s2, s3);
    forall i | 0 <= i < |run| - 1
      ensures Next(plan, run[i], run[i + 1])
    {
      assert i == 0 || i == 1 || i == 2;
    }
  }

  lemma FirstStarts(plan: Plan, states: map<string, State>)
    requires ValidPlan(plan) && plan.order != [] && StateIn(states, plan.order[0]).Pending?
    ensures Decide(plan, states, plan.order[0]).Start?
  {
    forall d | d in Deps(plan.deps, plan.order[0])
      ensures false
    {
      EarlierDeps(plan, 0, d);
    }
  }

  // ----- The event buffer -----

  /** Events a worker can still cause to be sent. */
  function Rank(p: Phase): nat {
    match p
    case Fresh => 4
    case Running(reg) => if reg then 2 else 3
    case Announced(_) => 1
    case Finished(_, _) => 0
  }

  lemma {:induction false} ReplayCosts(p: Phase, events: seq<Event>)
    requires Replay(p, events).Some?
    ensures |events| + Rank(Replay(p, events).value) <= Rank(p)
    decreases |events|
  {
    if events == [] {
    } else {
      ReplayCosts(Advance(p, events[0]).value, events[1..]);
    }
  }

  function Count(queue: seq<Event>, names: set<string>): nat {
    if queue == [] then 0
    else (if !queue[0].RouteFailed? && queue[0].service in names then 1 else 0) + Count(queue[1..], names)
  }

  function RouteCount(queue: seq<Event>): nat {
    if queue == [] then 0 else (if queue[0].RouteFailed? then 1 else 0) + RouteCount(queue[1..])
  }

  lemma {:induction false} CountSplit(queue: seq<Event>, names: set<string>, n: string)
    requires n in names
    ensures Count(queue, names) == Count(queue, names - {n}) + |Proj(queue, n)|
  {
    if queue == [] {
    } else {
      CountSplit(queue[1..], names, n);
    }
  }

  lemma {:induction false} CountBound(queue: seq<Event>, names: set<string>)
    requires forall n :: n in names ==> |Proj(queue, n)| <= 4
    ensures Count(queue, names) <= 4 * |names|
    decreases |names|
  {
    if names == {} {
      CountNone(queue);
    } else {
      var n :| n in names;
      CountSplit(queue, names, n);
      CountBound(queue, names - {n});
      assert |names - {n}| == |names| - 1;
    }
  }

  lemma {:induction false} CountNone(queue: seq<Event>)
    ensures Count(queue, {}) == 0
  {
    if queue == [] {
    } else {
      CountNone(queue[1..]);
    }
  }

  lemma {:induction false} CountAll(queue: seq<Event>, names: set<string>)
    requires forall i :: 0 <= i < |queue| ==> queue[i].RouteFailed? || queue[i].service in names
    ensures |queue| == Count(queue, names) + RouteCount(queue)
  {
    if queue == [] {
    } else {
      forall i | 0 <= i < |queue[1..]|
        ensures queue[1..][i].RouteFailed? || queue[1..][i].service in names
      {
        assert queue[1..][i] == queue[i + 1];
      }
      CountAll(queue[1..], names);
    }
  }

  lemma QueueBound(plan: Plan, s: Sys)
    requires ValidPlan(plan) && Sound(plan, s)
    ensures |s.queue| <= 4 * |plan.order| + RouteCount(s.queue)
  {
    forall n | n in plan.services
      ensures |Proj(s.queue, n)| <= 4
    {
      assert ServiceInv(s, n);
      ReplayCosts(PhaseOf(s.seen, n), Proj(s.queue, n));
    }
    CountBound(s.queue, plan.services);
    CountAll(s.queue, plan.services);
    DistinctCount(plan.order);
  }

  /**
    No service has more than four events in the buffer of 4n+1, in every state
    of every run and so also in the middle of a scheduling pass, whatever the
    services started earlier in it have sent meanwhile. Only route failures
    can fill the buffer.
  */
  lemma BufferNeverFull(plan: Plan, run: seq<Sys>, i: nat)
    requires ValidPlan(plan) && IsRun(plan, run) && i < |run|
    ensures |run[i].queue| < Capacity(plan) + RouteCount(run[i].queue)
  {
    RunInv(plan, run, i);
    QueueBound(plan, run[i]);
  }

  /** Without route failures in the buffer the loop's own send in a scheduling pass does not block. */
  lemma PassNeverBlocks(plan: Plan, run: seq<Sys>, i: nat)
    requires ValidPlan(plan) && IsRun(plan, run) && i < |run| && RouteCount(run[i].queue) == 0
    requires run[i].control.AtPass?
    ensures Enabled(plan, run[i], Schedule) || Enabled(plan, run[i], PassEnds)
  {
    RunInv(plan, run, i);
    QueueBound(plan, run[i]);
  }
}
