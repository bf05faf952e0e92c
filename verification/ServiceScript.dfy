/**
  The events `runService` sends for one service, path by path, checked against
  the worker automaton.
*/
module ServiceScript {
  import opened Supervision

  /** How the fallible calls of `runService` turn out, in the order they are made. */
  datatype Course = Course(
    planFails: bool, valuesFail: bool, commandFails: bool,
    startFails: bool, cancelledAtStart: bool,
    discoverFails: bool, discoverIncomplete: bool, expandFails: bool, endpointFails: bool,
    processFails: bool, cancelledAfterExit: bool,
    readyFails: bool, cancelledAtReady: bool,
    routeFails: bool, cancelledAtRoute: bool,
    cancelledAtEnd: bool)

  function StoppedOrFailed(n: string, cancelled: bool): seq<Event> {
    [Ended(n, if cancelled then Stopped else Failed)]
  }

  /** What is sent before the completion kind matters; empty when the service gets that far. */
  function EarlyExit(n: string, c: Course): seq<Event> {
    if c.planFails || c.valuesFail || c.commandFails then [Ended(n, Failed)]
    else if c.startFails then StoppedOrFailed(n, c.cancelledAtStart)
    else if c.discoverFails || c.discoverIncomplete || c.expandFails || c.endpointFails then [Ended(n, Failed)]
    else []
  }

  function ExitingScript(n: string, hasShutdown: bool, c: Course): seq<Event> {
    (if !c.processFails && hasShutdown then [ShutdownRegistered(n)] else [])
    + if c.cancelledAfterExit then [Ended(n, Stopped)]
      else if c.processFails then [Ended(n, Failed)]
      else if c.readyFails then StoppedOrFailed(n, c.cancelledAtReady)
      else if c.routeFails then StoppedOrFailed(n, c.cancelledAtRoute)
      else [BecameReady(n), Ended(n, Success)]
  }

  function LongRunningScript(n: string, c: Course): seq<Event> {
    if c.readyFails then StoppedOrFailed(n, c.cancelledAtReady)
    else if c.routeFails then StoppedOrFailed(n, c.cancelledAtRoute)
    else [BecameReady(n)] + StoppedOrFailed(n, c.cancelledAtEnd)
  }

  function Script(n: string, exits: bool, hasShutdown: bool, c: Course): seq<Event> {
    if EarlyExit(n, c) != [] then EarlyExit(n, c)
    else if exits then ExitingScript(n, hasShutdown, c)
    else LongRunningScript(n, c)
  }

  /** Every event is one the automaton may send, and the last one ends it. */
  predicate Completes(plan: Plan, p: Phase, n: string, events: seq<Event>)
    decreases |events|
  {
    if events == [] then p.Finished?
    else
      && events[0].service == n && !events[0].RouteFailed? && MaySend(plan, p, events[0])
      && Completes(plan, Advance(p, events[0]).value, n, events[1..])
  }

  lemma Completes1(plan: Plan, p: Phase, n: string, a: Event)
    requires a.service == n && !a.RouteFailed? && MaySend(plan, p, a) && a.Ended?
    ensures Completes(plan, p, n, [a])
  {
  }

  lemma CompletesCons(plan: Plan, p: Phase, n: string, a: Event, rest: seq<Event>)
    requires a.service == n && !a.RouteFailed? && MaySend(plan, p, a)
    requires Completes(plan, Advance(p, a).value, n, rest)
    ensures Completes(plan, p, n, [a] + rest)
  {
    assert ([a] + rest)[1..] == rest;
  }

  /** Whatever happens, the service sends a complete script of at most three events. */
  lemma ScriptsComplete(plan: Plan, n: string, c: Course)
    ensures var script := Script(n, n in plan.exits, n in plan.shutdowns, c);
            |script| <= 3 && Completes(plan, Running(false), n, script)
  {
    var script := Script(n, n in plan.exits, n in plan.shutdowns, c);
    if |script| == 1 {
      assert script == [script[0]];
      Completes1(plan, Running(false), n, script[0]);
    } else if script[0].BecameReady? {
      Completes1(plan, Announced(false), n, script[1]);
      CompletesCons(plan, Running(false), n, script[0], [script[1]]);
      assert script == [script[0]] + [script[1]];
    } else if |script| == 2 {
      Completes1(plan, Running(true), n, script[1]);
      CompletesCons(plan, Running(false), n, script[0], [script[1]]);
      assert script == [script[0]] + [script[1]];
    } else {
      Completes1(plan, Announced(true), n, script[2]);
      CompletesCons(plan, Running(true), n, script[1], [script[2]]);
      CompletesCons(plan, Running(false), n, script[0], [script[1]] + [script[2]]);
      assert script == [script[0]] + ([script[1]] + [script[2]]);
    }
  }

  /** A complete script holds exactly one terminal event, and it is the last. */
  lemma {:induction false} OneTerminalEvent(plan: Plan, p: Phase, n: string, events: seq<Event>)
    requires Completes(plan, p, n, events) && !p.Finished?
    ensures events != [] && events[|events| - 1].Ended?
    ensures forall i :: 0 <= i < |events| - 1 ==> !events[i].Ended?
    decreases |events|
  {
    var q := Advance(p, events[0]).value;
    if !q.Finished? {
      OneTerminalEvent(plan, q, n, events[1..]);
      forall i | 0 <= i < |events| - 1
        ensures !events[i].Ended?
      {
        if i > 0 {
          assert events[i] == events[1..][i - 1];
        }
      }
    } else {
      NothingAfterFinished(plan, q, n, events[1..]);
    }
  }

  lemma NothingAfterFinished(plan: Plan, p: Phase, n: string, events: seq<Event>)
    requires Completes(plan, p, n, events) && p.Finished?
    ensures events == []
  {
  }

  // ----- The automaton accepts nothing else -----

  const SMOOTH := Course(false, false, false, false, false, false, false, false, false, false, false, false, false,
                         false, false, false)

  /** A course on which exactly these events are sent. */
  function CourseOf(events: seq<Event>): Course {
    match |events|
    case 1 =>
      if events[0].Ended? && events[0].outcome.Stopped? then SMOOTH.(startFails := true, cancelledAtStart := true)
      else SMOOTH.(planFails := true)
    case 2 =>
      var stopped := events[1].Ended? && events[1].outcome.Stopped?;
      if events[0].ShutdownRegistered? then SMOOTH.(readyFails := true, cancelledAtReady := stopped)
      else SMOOTH.(cancelledAtEnd := stopped)
    case _ => SMOOTH
  }

  lemma AnnouncedEnds(plan: Plan, reg: bool, n: string, events: seq<Event>)
    requires Completes(plan, Announced(reg), n, events)
    ensures |events| == 1 && events[0].Ended? && events[0].service == n
    ensures n in plan.exits <==> events[0].outcome.Success?
  {
    NothingAfterFinished(plan, Advance(Announced(reg), events[0]).value, n, events[1..]);
  }

  lemma RegisteredEnds(plan: Plan, n: string, events: seq<Event>)
    requires Completes(plan, Running(true), n, events)
    ensures events != [] && events[0].service == n
    ensures events[0].Ended? ==> |events| == 1 && (events[0].outcome.Failed? || events[0].outcome.Stopped?)
    ensures !events[0].Ended? ==> events[0].BecameReady? && Completes(plan, Announced(true), n, events[1..])
  {
    if events[0].Ended? {
      NothingAfterFinished(plan, Advance(Running(true), events[0]).value, n, events[1..]);
    }
  }

  /** Every sequence of events the worker automaton accepts is what `runService` sends on some course. */
  lemma AcceptedAreScripts(plan: Plan, n: string, events: seq<Event>)
    requires Completes(plan, Running(false), n, events)
    ensures events == Script(n, n in plan.exits, n in plan.shutdowns, CourseOf(events))
  {
    var e, rest := events[0], events[1..];
    if e.Ended? {
      NothingAfterFinished(plan, Advance(Running(false), e).value, n, rest);
      assert events == [e];
    } else if e.BecameReady? {
      AnnouncedEnds(plan, false, n, rest);
      assert events == [e, rest[0]];
    } else {
      RegisteredEnds(plan, n, rest);
      if rest[0].Ended? {
        assert events == [e, rest[0]];
      } else {
        AnnouncedEnds(plan, true, n, rest[1..]);
        assert events == [e, rest[0], rest[1]] && rest[1..][0] == rest[1];
      }
    }
  }

  /** Something goes wrong before the completion kind of the service matters. */
  predicate FailsEarly(c: Course) {
    || c.planFails || c.valuesFail || c.commandFails || c.startFails
    || c.discoverFails || c.discoverIncomplete || c.expandFails || c.endpointFails
  }

  /** A service that exits first has to exit, in time and without an error. */
  predicate ComesToReadiness(exits: bool, c: Course) {
    !FailsEarly(c) && (exits ==> !c.cancelledAfterExit && !c.processFails)
  }

  /** Which events a service sends, by what went wrong: no failed or cancelled course looks like a success. */
  lemma OutcomeIs(n: string, exits: bool, hasShutdown: bool, c: Course)
    ensures var events := Script(n, exits, hasShutdown, c);
            && events != []
            && var last := events[|events| - 1];
            && (ShutdownRegistered(n) in events <==> !FailsEarly(c) && exits && !c.processFails && hasShutdown)
            && (BecameReady(n) in events <==> ComesToReadiness(exits, c) && !c.readyFails && !c.routeFails)
            && (last == Ended(n, Success) <==> exits && ComesToReadiness(true, c) && !c.readyFails && !c.routeFails)
            && (last == Ended(n, Stopped) <==>
                  || (!c.planFails && !c.valuesFail && !c.commandFails && c.startFails && c.cancelledAtStart)
                  || (!FailsEarly(c) && exits && c.cancelledAfterExit)
                  || (ComesToReadiness(exits, c) && c.readyFails && c.cancelledAtReady)
                  || (ComesToReadiness(exits, c) && !c.readyFails && c.routeFails && c.cancelledAtRoute)
                  || (!exits && ComesToReadiness(false, c) && !c.readyFails && !c.routeFails && c.cancelledAtEnd))
            && (last == Ended(n, Success) || last == Ended(n, Stopped) || last == Ended(n, Failed))
  {
  }
}
