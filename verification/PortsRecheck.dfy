/** `Reallocate`: the recheck of a service's ports immediately before it starts. */
module PortsRecheck {
  import opened Ordering
  import opened Ports

  /** The current allocation under its name, or Go's zero value when there is none. */
  function AllocationOf(current: map<string, Allocation>, n: string): Allocation {
    if n in current then current[n].(name := n) else Allocation(n, "", 0, false)
  }

  predicate Probes(port: int, reserved: set<int>) {
    port > 0 && port !in reserved
  }

  datatype Turn = Turned(allocation: Allocation) | Stopped(failure: Failure)

  /** One name that is not left to discovery: keep the port, or choose anew. */
  function Recheck(w: World, c: Clock, mode: Mode, a: Allocation, reserved: set<int>, attempts: nat): (Turn, Clock)
    requires !mode.Discover? && (mode.Random? ==> mode.lower <= mode.upper)
  {
    var next := if Probes(a.port, reserved) then c.(probes := c.probes + 1) else c;
    if Probes(a.port, reserved) && w.free(c.probes, a.port) then (Turned(a), next)
    else
      var (pick, after) := Choose(w, next, mode, reserved, attempts);
      (if pick.Picked? then Turned(a.(port := pick.port, discovered := false)) else Stopped(pick.failure), after)
  }

  function TakeTurn(w: World, c: Clock, specs: map<string, Spec>, a: Allocation, n: string, reserved: set<int>,
                    attempts: nat): (Turn, Clock)
  {
    if n !in specs then (Stopped(NotConfigured), c)
    else if ModeOf(specs[n]).None? then (Stopped(BadSpec), c)
    else if ModeOf(specs[n]).value.Discover? then (Turned(a.(discovered := true, port := 0)), c)
    else Recheck(w, c, ModeOf(specs[n]).value, a, reserved, attempts)
  }

  function Claim(specs: map<string, Spec>, n: string, reserved: set<int>, port: int): set<int> {
    if IsDynamic(specs, n) then reserved + {port} else reserved
  }

  function ReallocateNames(w: World, c: Clock, specs: map<string, Spec>, names: seq<string>,
                           result: map<string, Allocation>, reserved: set<int>, attempts: nat): (Result, Clock)
    decreases |names|
  {
    if names == [] then (Allocated(result), c) else
    var n := names[0];
    var (turn, after) := TakeTurn(w, c, specs, AllocationOf(result, n), n, reserved, attempts);
    if turn.Stopped? then (Failed(turn.failure), after)
    else ReallocateNames(w, after, specs, names[1..], result[n := turn.allocation],
                         Claim(specs, n, reserved, turn.allocation.port), attempts)
  }

  /** The ports of the names that are not rechecked. */
  function OtherPorts(current: map<string, Allocation>, selected: set<string>): set<int> {
    set n | n in current && n !in selected && current[n].port > 0 :: current[n].port
  }

  method ReserveOthers(current: map<string, Allocation>, selected: set<string>) returns (reserved: set<int>)
    ensures reserved == OtherPorts(current, selected)
  {
    reserved := {};
    var left := current.Keys;
    while left != {}
      invariant left <= current.Keys && reserved == OtherPorts(current, selected + left)
      decreases |left|
    {
      var name :| name in left;
      OneMoreOther(current, selected + left, name);
      assert selected + (left - {name}) == (if name in selected then selected + left else selected + left - {name});
      if name !in selected && current[name].port > 0 {
        reserved := reserved + {current[name].port};
      }
      left := left - {name};
    }
    assert selected + left == selected;
  }

  lemma OneMoreOther(current: map<string, Allocation>, selected: set<string>, name: string)
    requires name in current && name in selected
    ensures OtherPorts(current, selected - {name}) ==
            OtherPorts(current, selected) + (if current[name].port > 0 then {current[name].port} else {})
  {
    var p := current[name].port;
    if p > 0 {
      assert name !in selected - {name};
      assert p in OtherPorts(current, selected - {name});
    }
  }

  method RecheckOne(w: World, c: Clock, mode: Mode, a: Allocation, reserved: set<int>, attempts: nat)
    returns (turn: Turn, after: Clock)
    requires !mode.Discover? && (mode.Random? ==> mode.lower <= mode.upper)
    ensures (turn, after) == Recheck(w, c, mode, a, reserved, attempts)
  {
    after := c;
    if a.port > 0 && a.port !in reserved {
      var free := w.free(after.probes, a.port);
      after := after.(probes := after.probes + 1);
      if free {
        return Turned(a), after;
      }
    }
    var pick, next := PickPort(w, after, mode, reserved, attempts);
    after := next;
    if pick.Missed? {
      return Stopped(pick.failure), after;
    }
    turn := Turned(a.(port := pick.port, discovered := false));
  }

  method Reallocate(w: World, c: Clock, specs: map<string, Spec>, current: map<string, Allocation>, names: seq<string>,
                    maxAttempts: int)
    returns (r: Result, after: Clock)
    ensures (r, after) == ReallocateNames(w, c, specs, SortStrings(names), current,
                                          OtherPorts(current, Elements(names)), Attempts(maxAttempts))
  {
    var result := current;
    var reserved := ReserveOthers(current, Elements(names));
    ghost var others := reserved;
    var ordered := SortStrings(names);
    var attempts := Attempts(maxAttempts);
    after := c;
    for i := 0 to |ordered|
      invariant ReallocateNames(w, c, specs, ordered, current, others, attempts) ==
                ReallocateNames(w, after, specs, ordered[i..], result, reserved, attempts)
    {
      var name := ordered[i];
      assert ordered[i..][0] == name && ordered[i..][1..] == ordered[i + 1..];
      if name !in specs {
        return Failed(NotConfigured), after;
      }
      var mode := ModeOf(specs[name]);
      if mode.None? {
        return Failed(BadSpec), after;
      }
      var allocation := AllocationOf(result, name);
      if mode.value.Discover? {
        result := result[name := allocation.(discovered := true, port := 0)];
      } else {
        var turn, next := RecheckOne(w, after, mode.value, allocation, reserved, attempts);
        after := next;
        if turn.Stopped? {
          return Failed(turn.failure), after;
        }
        reserved := reserved + {turn.allocation.port};
        result := result[name := turn.allocation];
      }
    }
    r := Allocated(result);
  }

  // ----- What a recheck promises -----

  /** The port stays, because it is free and nobody claimed it. */
  ghost predicate Kept(w: World, from: nat, to: nat, was: Allocation, a: Allocation, taken: set<int>) {
    a == was && Probes(was.port, taken) && ProbedFree(w, from, to, was.port)
  }

  /** The port was chosen anew, because there was none, it was claimed or it was busy. */
  ghost predicate Moved(w: World, from: nat, to: nat, mode: Mode, was: Allocation, a: Allocation, taken: set<int>) {
    && (Probes(was.port, taken) ==> ProbedBusy(w, from, to, was.port))
    && a == was.(port := a.port, discovered := false)
    && Justified(w, from, to, mode, a.port, taken)
  }

  ghost predicate RecheckedFrom(w: World, from: nat, to: nat, mode: Mode, was: Allocation, a: Allocation,
                                taken: set<int>) {
    if mode.Discover? then a == was.(discovered := true, port := 0)
    else Kept(w, from, to, was, a, taken) || Moved(w, from, to, mode, was, a, taken)
  }

  lemma RecheckDecides(w: World, c: Clock, mode: Mode, a: Allocation, reserved: set<int>, attempts: nat)
    requires !mode.Discover? && (mode.Random? ==> mode.lower <= mode.upper)
    ensures var (turn, after) := Recheck(w, c, mode, a, reserved, attempts);
            && c.probes <= after.probes
            && (turn.Turned? ==> RecheckedFrom(w, c.probes, after.probes, mode, a, turn.allocation, reserved))
  {
    var next := if Probes(a.port, reserved) then c.(probes := c.probes + 1) else c;
    ChoiceIsJustified(w, next, mode, reserved, attempts);
    var (turn, after) := Recheck(w, c, mode, a, reserved, attempts);
    if Probes(a.port, reserved) {
      if w.free(c.probes, a.port) {
        assert ProbedFree(w, c.probes, after.probes, a.port);
      } else {
        assert ProbedBusy(w, c.probes, after.probes, a.port);
      }
    }
    if turn.Turned? && !(Probes(a.port, reserved) && w.free(c.probes, a.port)) {
      WidenJustified(w, next.probes, after.probes, c.probes, after.probes, mode, turn.allocation.port, reserved);
    }
  }

  /** What `n` finds claimed: ports of names not rechecked, and ports of the names before it. */
  function TakenBefore(specs: map<string, Spec>, current: map<string, Allocation>, selected: set<string>,
                       result: map<string, Allocation>, n: string): set<int>
  {
    OtherPorts(current, selected) + PortsOf(specs, EarlierThan(selected, n), result)
  }

  ghost predicate RecheckedName(w: World, from: nat, to: nat, specs: map<string, Spec>,
                                current: map<string, Allocation>, selected: set<string>,
                                result: map<string, Allocation>, n: string)
  {
    && n in result && HasMode(specs, n)
    && RecheckedFrom(w, from, to, ModeOf(specs[n]).value, AllocationOf(current, n), result[n],
                     TakenBefore(specs, current, selected, result, n))
  }

  ghost predicate RecheckedDone(w: World, from: nat, to: nat, specs: map<string, Spec>,
                                current: map<string, Allocation>, selected: set<string>,
                                result: map<string, Allocation>, done: set<string>)
  {
    forall n :: n in done ==> RecheckedName(w, from, to, specs, current, selected, result, n)
  }

  ghost predicate OthersUntouched(current: map<string, Allocation>, result: map<string, Allocation>,
                                  done: set<string>) {
    result.Keys == current.Keys + done && forall n :: n in current && n !in done ==> result[n] == current[n]
  }

  ghost predicate RecheckedAll(w: World, from: nat, to: nat, specs: map<string, Spec>, current: map<string, Allocation>,
                               selected: set<string>, result: map<string, Allocation>, done: set<string>)
  {
    OthersUntouched(current, result, done) && RecheckedDone(w, from, to, specs, current, selected, result, done)
  }

  lemma WidenRechecked(w: World, from: nat, to: nat, from': nat, to': nat, mode: Mode, was: Allocation, a: Allocation,
                       taken: set<int>)
    requires RecheckedFrom(w, from, to, mode, was, a, taken) && from' <= from && to <= to'
    ensures RecheckedFrom(w, from', to', mode, was, a, taken)
  {
    Widen(w, from, to, from', to');
    if !mode.Discover? && Moved(w, from, to, mode, was, a, taken) {
      WidenJustified(w, from, to, from', to', mode, a.port, taken);
    }
  }

  /** The names already handled do not notice the next one. */
  lemma EarlierUndisturbed(w: World, from: nat, to: nat, to': nat, specs: map<string, Spec>,
                           current: map<string, Allocation>, selected: set<string>, result: map<string, Allocation>,
                           m: string, n: string, a: Allocation)
    requires RecheckedName(w, from, to, specs, current, selected, result, m) && to <= to' && Before(m, n)
    ensures RecheckedName(w, from, to', specs, current, selected, result[n := a], m)
  {
    BeforeIrreflexive(n);
    if Before(n, m) {
      BeforeTransitive(n, m, n);
    }
    PortsOfNext(specs, EarlierThan(selected, m), result, n, a);
    WidenRechecked(w, from, to, from, to', ModeOf(specs[m]).value, AllocationOf(current, m), result[m],
                   TakenBefore(specs, current, selected, result, m));
  }

  /** Where the loop of `Reallocate` stands. */
  ghost predicate Rechecking(w: World, from: nat, c: Clock, specs: map<string, Spec>, current: map<string, Allocation>,
                             selected: set<string>, names: seq<string>, done: set<string>,
                             result: map<string, Allocation>, reserved: set<int>)
  {
    && Splits(selected, done, names) && from <= c.probes
    && RecheckedAll(w, from, c.probes, specs, current, selected, result, done)
    && reserved == OtherPorts(current, selected) + PortsOf(specs, done, result)
  }

  lemma TurnIsRechecked(w: World, c: Clock, specs: map<string, Spec>, a: Allocation, n: string, reserved: set<int>,
                        attempts: nat)
    ensures var (turn, after) := TakeTurn(w, c, specs, a, n, reserved, attempts);
            && c.probes <= after.probes
            && (turn.Turned? ==>
                  && HasMode(specs, n)
                  && RecheckedFrom(w, c.probes, after.probes, ModeOf(specs[n]).value, a, turn.allocation, reserved))
  {
    if IsDynamic(specs, n) {
      RecheckDecides(w, c, ModeOf(specs[n]).value, a, reserved, attempts);
    }
  }

  lemma DoneUndisturbed(w: World, from: nat, to: nat, to': nat, specs: map<string, Spec>,
                        current: map<string, Allocation>, selected: set<string>, result: map<string, Allocation>,
                        done: set<string>, n: string, a: Allocation)
    requires RecheckedDone(w, from, to, specs, current, selected, result, done)
    requires to <= to' && EarlierThan(selected, n) == done
    ensures RecheckedDone(w, from, to', specs, current, selected, result[n := a], done)
  {
    forall m | m in done ensures RecheckedName(w, from, to', specs, current, selected, result[n := a], m) {
      assert m in EarlierThan(selected, n);
      EarlierUndisturbed(w, from, to, to', specs, current, selected, result, m, n, a);
    }
  }

  lemma NextIsRechecked(w: World, from: nat, to: nat, to': nat, specs: map<string, Spec>,
                        current: map<string, Allocation>, selected: set<string>, result: map<string, Allocation>,
                        done: set<string>, n: string, a: Allocation)
    requires OthersUntouched(current, result, done) && from <= to <= to'
    requires HasMode(specs, n) && n !in done && EarlierThan(selected, n) == done
    requires RecheckedFrom(w, to, to', ModeOf(specs[n]).value, AllocationOf(result, n), a,
                           OtherPorts(current, selected) + PortsOf(specs, done, result))
    ensures RecheckedName(w, from, to', specs, current, selected, result[n := a], n)
    ensures OthersUntouched(current, result[n := a], done + {n})
  {
    PortsOfNext(specs, done, result, n, a);
    assert AllocationOf(result, n) == AllocationOf(current, n);
    WidenRechecked(w, to, to', from, to', ModeOf(specs[n]).value, AllocationOf(current, n), a,
                   OtherPorts(current, selected) + PortsOf(specs, done, result));
  }

  lemma RecheckedNext(w: World, from: nat, to: nat, to': nat, specs: map<string, Spec>,
                      current: map<string, Allocation>, selected: set<string>, result: map<string, Allocation>,
                      done: set<string>, n: string, a: Allocation)
    requires RecheckedAll(w, from, to, specs, current, selected, result, done) && from <= to <= to'
    requires HasMode(specs, n) && n !in done && EarlierThan(selected, n) == done
    requires RecheckedFrom(w, to, to', ModeOf(specs[n]).value, AllocationOf(result, n), a,
                           OtherPorts(current, selected) + PortsOf(specs, done, result))
    ensures RecheckedAll(w, from, to', specs, current, selected, result[n := a], done + {n})
  {
    DoneUndisturbed(w, from, to, to', specs, current, selected, result, done, n, a);
    NextIsRechecked(w, from, to, to', specs, current, selected, result, done, n, a);
    OneMoreDone(w, from, to', specs, current, selected, result[n := a], done, n);
  }

  lemma OneMoreDone(w: World, from: nat, to: nat, specs: map<string, Spec>, current: map<string, Allocation>,
                    selected: set<string>, result: map<string, Allocation>, done: set<string>, n: string)
    requires RecheckedDone(w, from, to, specs, current, selected, result, done)
    requires RecheckedName(w, from, to, specs, current, selected, result, n)
    ensures RecheckedDone(w, from, to, specs, current, selected, result, done + {n})
  {
  }

  lemma ClaimNext(specs: map<string, Spec>, others: set<int>, done: set<string>, result: map<string, Allocation>,
                  n: string, a: Allocation)
    requires n !in done
    ensures Claim(specs, n, others + PortsOf(specs, done, result), a.port) ==
            others + PortsOf(specs, done + {n}, result[n := a])
  {
    PortsOfNext(specs, done, result, n, a);
  }

  lemma RecheckingNext(w: World, from: nat, c: Clock, after: Clock, specs: map<string, Spec>,
                       current: map<string, Allocation>, selected: set<string>, names: seq<string>, done: set<string>,
                       result: map<string, Allocation>, reserved: set<int>, a: Allocation)
    requires Rechecking(w, from, c, specs, current, selected, names, done, result, reserved) && names != []
    requires c.probes <= after.probes && HasMode(specs, names[0])
    requires RecheckedFrom(w, c.probes, after.probes, ModeOf(specs[names[0]]).value, AllocationOf(result, names[0]), a,
                           reserved)
    ensures Rechecking(w, from, after, specs, current, selected, names[1..], done + {names[0]}, result[names[0] := a],
                       Claim(specs, names[0], reserved, a.port))
  {
    SplitsNext(selected, done, names);
    RecheckedNext(w, from, c.probes, after.probes, specs, current, selected, result, done, names[0], a);
    ClaimNext(specs, OtherPorts(current, selected), done, result, names[0], a);
  }

  lemma {:induction false} ReallocateNamesMeans(
    w: World, from: nat, c: Clock, specs: map<string, Spec>, current: map<string, Allocation>, selected: set<string>,
    names: seq<string>, done: set<string>, result: map<string, Allocation>, reserved: set<int>, attempts: nat)
    requires Rechecking(w, from, c, specs, current, selected, names, done, result, reserved)
    ensures var (r, after) := ReallocateNames(w, c, specs, names, result, reserved, attempts);
            r.Allocated? ==> RecheckedAll(w, from, after.probes, specs, current, selected, r.ports, selected)
    decreases |names|
  {
    if names == [] {
      assert done == selected;
    } else {
      var n := names[0];
      TurnIsRechecked(w, c, specs, AllocationOf(result, n), n, reserved, attempts);
      var (turn, after) := TakeTurn(w, c, specs, AllocationOf(result, n), n, reserved, attempts);
      if turn.Turned? {
        RecheckingNext(w, from, c, after, specs, current, selected, names, done, result, reserved, turn.allocation);
        ReallocateNamesMeans(w, from, after, specs, current, selected, names[1..], done + {n},
                             result[n := turn.allocation], Claim(specs, n, reserved, turn.allocation.port), attempts);
      }
    }
  }

  /**
    For every world: names that are not selected keep their allocation, and a
    selected port moves only when it was claimed or probed busy.
  */
  lemma ReallocateMeans(w: World, c: Clock, specs: map<string, Spec>, current: map<string, Allocation>,
                        names: seq<string>, attempts: nat)
    requires NoDuplicates(names)
    ensures var selected := Elements(names);
            var (r, after) := ReallocateNames(w, c, specs, SortStrings(names), current, OtherPorts(current, selected),
                attempts);
            r.Allocated? ==> RecheckedAll(w, c.probes, after.probes, specs, current, selected, r.ports, selected)
  {
    var selected := Elements(names);
    SortSplits(names);
    assert PortsOf(specs, {}, current) == {};
    ReallocateNamesMeans(w, c.probes, c, specs, current, selected, SortStrings(names), {}, current,
                         OtherPorts(current, selected), attempts);
  }

  // ----- When the ports stay distinct -----

  ghost predicate Distinct(ports: map<string, Allocation>) {
    forall m, n :: m in ports && n in ports && m != n && ports[m].port > 0 ==> ports[m].port != ports[n].port
  }

  /** As `Resolve` leaves it: distinct ports, and fixed names hold their fixed port. */
  ghost predicate Settled(specs: map<string, Spec>, current: map<string, Allocation>, selected: set<string>) {
    && Distinct(current)
    && forall n :: n in selected && IsFixed(specs, n) ==>
         n in current && current[n].port == FixedPort(specs, n) && current[n].port > 0
  }

  /** A name of this mode may be moved to `port`. */
  predicate Reaches(mode: Mode, port: int) {
    match mode
    case FirstFree(start) => start <= port <= MAX_PORT
    case Random(lower, upper) => lower <= port <= upper
    case _ => false
  }

  /** No selected dynamic name can be moved onto the port of a selected fixed name that is handled after it. */
  ghost predicate OutOfReach(specs: map<string, Spec>, selected: set<string>) {
    forall d, f :: d in selected && f in selected && Before(d, f) && HasMode(specs, d) && IsFixed(specs, f) ==>
      !Reaches(ModeOf(specs[d]).value, FixedPort(specs, f))
  }

  /** In particular selections of one kind only are out of reach. */
  lemma UnmixedIsOutOfReach(specs: map<string, Spec>, selected: set<string>)
    requires (forall n :: n in selected ==> IsFixed(specs, n)) || (forall n :: n in selected ==> !IsFixed(specs, n))
    ensures OutOfReach(specs, selected)
  {
  }

  /** Where a rechecked port may come from; only the fixed arm ignores what is taken. */
  lemma PortComesFrom(w: World, from: nat, to: nat, mode: Mode, was: Allocation, a: Allocation, taken: set<int>)
    requires RecheckedFrom(w, from, to, mode, was, a, taken) && !mode.Discover?
    ensures a.port !in taken || (mode.Fixed? && a.port == mode.port)
    ensures a.port == was.port > 0 || Reaches(mode, a.port) || (mode.Fixed? && a.port == mode.port)
  {
  }

  /** The earlier of two rechecked names does not end up on the port of the later. */
  lemma LaterDiffers(w: World, from: nat, to: nat, specs: map<string, Spec>, current: map<string, Allocation>,
                     selected: set<string>, result: map<string, Allocation>, m: string, n: string)
    requires RecheckedAll(w, from, to, specs, current, selected, result, selected)
    requires Settled(specs, current, selected) && OutOfReach(specs, selected)
    requires m in selected && n in selected && Before(m, n) && result[n].port > 0
    ensures result[m].port != result[n].port
  {
    assert RecheckedName(w, from, to, specs, current, selected, result, m);
    assert RecheckedName(w, from, to, specs, current, selected, result, n);
    BeforeIrreflexive(m);
    if IsDynamic(specs, m) {
      var earlier := EarlierThan(selected, n);
      assert m in earlier && result[m].port in PortsOf(specs, earlier, result);
      PortComesFrom(w, from, to, ModeOf(specs[m]).value, AllocationOf(current, m), result[m],
                    TakenBefore(specs, current, selected, result, m));
      PortComesFrom(w, from, to, ModeOf(specs[n]).value, AllocationOf(current, n), result[n],
                    TakenBefore(specs, current, selected, result, n));
    }
  }

  lemma OtherDiffers(w: World, from: nat, to: nat, specs: map<string, Spec>, current: map<string, Allocation>,
                     selected: set<string>, result: map<string, Allocation>, m: string, n: string)
    requires RecheckedAll(w, from, to, specs, current, selected, result, selected)
    requires Settled(specs, current, selected)
    requires m in current && m !in selected && n in selected && result[m].port > 0
    ensures result[m].port != result[n].port
  {
    assert RecheckedName(w, from, to, specs, current, selected, result, n);
    assert result[m].port in OtherPorts(current, selected);
  }

  /** Rechecked ports stay distinct as long as no dynamic name can reach a later fixed port. */
  lemma RecheckKeepsDistinct(w: World, from: nat, to: nat, specs: map<string, Spec>, current: map<string, Allocation>,
                             selected: set<string>, result: map<string, Allocation>)
    requires RecheckedAll(w, from, to, specs, current, selected, result, selected)
    requires Settled(specs, current, selected) && OutOfReach(specs, selected)
    ensures Distinct(result)
  {
    forall m, n | m in result && n in result && m != n && result[m].port > 0
      ensures result[m].port != result[n].port
    {
      BeforeTotal(m, n);
      if m in selected && n in selected {
        if result[n].port > 0 {
          if Before(m, n) {
            LaterDiffers(w, from, to, specs, current, selected, result, m, n);
          } else {
            LaterDiffers(w, from, to, specs, current, selected, result, n, m);
          }
        }
      } else if n in selected {
        OtherDiffers(w, from, to, specs, current, selected, result, m, n);
      } else if m in selected && result[n].port > 0 {
        OtherDiffers(w, from, to, specs, current, selected, result, n, m);
      }
    }
  }
}
