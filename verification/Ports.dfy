/**
  Allocation of the named ports of a session, and the recheck before a service
  starts. Whether a port can be bound is answered by an oracle that may change
  its mind from one probe to the next.
*/
module Ports {
  import opened Options
  import opened Ordering

  datatype Spec = Spec(fixed: Option<int>, firstFree: Option<int>, random: seq<int>, discover: bool)

  datatype Mode = Fixed(port: int) | FirstFree(start: int) | Random(lower: int, upper: int) | Discover

  datatype Allocation = Allocation(name: string, owner: string, port: int, discovered: bool)

  /** `free(t, p)`: probe number `t` may bind port `p`. `raw(k)`: what draw number `k` yields, None for a read error. */
  datatype World = World(free: (nat, int) -> bool, raw: nat -> Option<nat>)

  /** How many probes and draws were made so far. */
  datatype Clock = Clock(probes: nat, draws: nat)

  datatype Failure = Rejected | NotConfigured | BadSpec | FixedUnavailable | Exhausted | SourceFailed

  datatype Pick = Picked(port: int) | Missed(failure: Failure)

  datatype Result = Allocated(ports: map<string, Allocation>) | Failed(failure: Failure)

  const MAX_PORT := 65535
  const DEFAULT_ATTEMPTS := 16

  predicate ValidPort(port: int) {
    1 <= port <= MAX_PORT
  }

  // ----- Modes -----

  function Given(spec: Spec): nat {
    (if spec.fixed.Some? then 1 else 0) + (if spec.firstFree.Some? then 1 else 0)
    + (if spec.random != [] then 1 else 0) + (if spec.discover then 1 else 0)
  }

  function ModeOf(spec: Spec): Option<Mode> {
    if Given(spec) != 1 then None
    else if spec.fixed.Some? then Some(Fixed(spec.fixed.value))
    else if spec.firstFree.Some? then
      if ValidPort(spec.firstFree.value) then Some(FirstFree(spec.firstFree.value)) else None
    else if spec.random != [] then
      if |spec.random| == 2 && spec.random[0] <= spec.random[1] && ValidPort(spec.random[0])
          && ValidPort(spec.random[1])
      then Some(Random(spec.random[0], spec.random[1])) else None
    else Some(Discover)
  }

  /** Every legal mode is written in one way only; a fixed port is the one mode whose number is not checked here. */
  lemma ModeIsUnambiguous(spec: Spec, mode: Mode)
    ensures ModeOf(spec) == Some(mode) <==>
              match mode
              case Fixed(p) => spec == Spec(Some(p), None, [], false)
              case FirstFree(s) => spec == Spec(None, Some(s), [], false) && ValidPort(s)
              case Random(l, u) => spec == Spec(None, None, [l, u], false) && 1 <= l <= u <= MAX_PORT
              case Discover => spec == Spec(None, None, [], true)
  {
  }

  // ----- The search for one port -----

  /** Probes the unreserved ports from `port` upwards. */
  function FirstFreeFrom(w: World, probes: nat, port: int, reserved: set<int>): (Option<int>, nat)
    decreases MAX_PORT + 1 - port
  {
    if port > MAX_PORT then (None, probes)
    else if port in reserved then FirstFreeFrom(w, probes, port + 1, reserved)
    else if w.free(probes, port) then (Some(port), probes + 1)
    else FirstFreeFrom(w, probes + 1, port + 1, reserved)
  }

  function RandomFree(w: World, c: Clock, lower: int, upper: int, reserved: set<int>, attempts: nat): (Pick, Clock)
    requires lower <= upper
    decreases attempts
  {
    if attempts == 0 then (Missed(Exhausted), c)
    else
      var drawn := w.raw(c.draws);
      var next := c.(draws := c.draws + 1);
      if drawn.None? then (Missed(SourceFailed), next)
      else
        var port := lower + drawn.value % (upper - lower + 1);
        if port in reserved then RandomFree(w, next, lower, upper, reserved, attempts - 1)
        else if w.free(next.probes, port) then (Picked(port), next.(probes := next.probes + 1))
        else RandomFree(w, next.(probes := next.probes + 1), lower, upper, reserved, attempts - 1)
  }

  function Choose(w: World, c: Clock, mode: Mode, reserved: set<int>, attempts: nat): (Pick, Clock)
    requires !mode.Discover? && (mode.Random? ==> mode.lower <= mode.upper)
  {
    match mode
    case Fixed(p) =>
      (if w.free(c.probes, p) then Picked(p) else Missed(FixedUnavailable), c.(probes := c.probes + 1))
    case FirstFree(start) =>
      (var (port, probes) := FirstFreeFrom(w, c.probes, start, reserved);
       (if port.Some? then Picked(port.value) else Missed(Exhausted), c.(probes := probes)))
    case Random(lower, upper) => RandomFree(w, c, lower, upper, reserved, attempts)
  }

  method FindFirstFree(w: World, c: Clock, start: int, reserved: set<int>) returns (r: Pick, after: Clock)
    ensures (r, after) == Choose(w, c, FirstFree(start), reserved, 0)
  {
    var port, probes := start, c.probes;
    while port <= MAX_PORT
      invariant FirstFreeFrom(w, c.probes, start, reserved) == FirstFreeFrom(w, probes, port, reserved)
    {
      if port !in reserved {
        if w.free(probes, port) {
          return Picked(port), c.(probes := probes + 1);
        }
        probes := probes + 1;
      }
      port := port + 1;
    }
    return Missed(Exhausted), c.(probes := probes);
  }

  method FindRandomFree(w: World, c: Clock, lower: int, upper: int, reserved: set<int>, attempts: nat)
    returns (r: Pick, after: Clock)
    requires lower <= upper
    ensures (r, after) == RandomFree(w, c, lower, upper, reserved, attempts)
  {
    after := c;
    for attempt := 0 to attempts
      invariant RandomFree(w, c, lower, upper, reserved, attempts) ==
                RandomFree(w, after, lower, upper, reserved, attempts - attempt)
    {
      var drawn := w.raw(after.draws);
      after := after.(draws := after.draws + 1);
      if drawn.None? {
        return Missed(SourceFailed), after;
      }
      var port := lower + drawn.value % (upper - lower + 1);
      if port !in reserved {
        var free := w.free(after.probes, port);
        after := after.(probes := after.probes + 1);
        if free {
          return Picked(port), after;
        }
      }
    }
    r := Missed(Exhausted);
  }

  /** Some probe between `from` and `to` could bind the port. */
  ghost predicate ProbedFree(w: World, from: nat, to: nat, port: int) {
    exists t: nat :: from <= t < to && w.free(t, port)
  }

  ghost predicate ProbedBusy(w: World, from: nat, to: nat, port: int) {
    exists t: nat :: from <= t < to && !w.free(t, port)
  }

  /** Every port from `start` up to `limit`, excluded, is reserved or was probed busy. */
  ghost predicate NoneBelow(w: World, from: nat, to: nat, start: int, limit: int, reserved: set<int>) {
    forall q :: start <= q < limit ==> q in reserved || ProbedBusy(w, from, to, q)
  }

  /** What a port of each mode is, independent of how it was searched. */
  ghost predicate Justified(w: World, from: nat, to: nat, mode: Mode, port: int, reserved: set<int>) {
    && ProbedFree(w, from, to, port)
    && match mode
       case Fixed(p) => port == p
       case FirstFree(start) =>
         start <= port <= MAX_PORT && port !in reserved && NoneBelow(w, from, to, start, port, reserved)
       case Random(lower, upper) => lower <= port <= upper && port !in reserved
       case Discover => false
  }

  lemma {:induction false} FirstFreeIsLeast(w: World, probes: nat, start: int, reserved: set<int>)
    ensures var (port, after) := FirstFreeFrom(w, probes, start, reserved);
            && probes <= after
            && (port.Some? ==> Justified(w, probes, after, FirstFree(start), port.value, reserved))
            && (port.None? ==> NoneBelow(w, probes, after, start, MAX_PORT + 1, reserved))
    decreases MAX_PORT + 1 - start
  {
    if start <= MAX_PORT {
      if start in reserved {
        FirstFreeIsLeast(w, probes, start + 1, reserved);
      } else if w.free(probes, start) {
        assert ProbedFree(w, probes, probes + 1, start);
      } else {
        FirstFreeIsLeast(w, probes + 1, start + 1, reserved);
        var (port, after) := FirstFreeFrom(w, probes + 1, start + 1, reserved);
        assert ProbedBusy(w, probes, after, start);
        Widen(w, probes + 1, after, probes, after);
      }
    }
  }

  lemma Widen(w: World, from: nat, to: nat, from': nat, to': nat)
    requires from' <= from && to <= to'
    ensures forall q :: ProbedFree(w, from, to, q) ==> ProbedFree(w, from', to', q)
    ensures forall q :: ProbedBusy(w, from, to, q) ==> ProbedBusy(w, from', to', q)
  {
    forall q | ProbedFree(w, from, to, q) ensures ProbedFree(w, from', to', q) {
      var t: nat :| from <= t < to && w.free(t, q);
    }
    forall q | ProbedBusy(w, from, to, q) ensures ProbedBusy(w, from', to', q) {
      var t: nat :| from <= t < to && !w.free(t, q);
    }
  }

  lemma WidenJustified(w: World, from: nat, to: nat, from': nat, to': nat, mode: Mode, port: int, reserved: set<int>)
    requires Justified(w, from, to, mode, port, reserved) && from' <= from && to <= to'
    ensures Justified(w, from', to', mode, port, reserved)
  {
    Widen(w, from, to, from', to');
  }

  lemma {:induction false} RandomIsWithinBounds(w: World, c: Clock, lower: int, upper: int, reserved: set<int>,
                                                attempts: nat)
    requires lower <= upper
    ensures var (r, after) := RandomFree(w, c, lower, upper, reserved, attempts);
            && c.probes <= after.probes && after.draws <= c.draws + attempts
            && (r.Picked? ==> Justified(w, c.probes, after.probes, Random(lower, upper), r.port, reserved))
    decreases attempts
  {
    if attempts > 0 && w.raw(c.draws).Some? {
      var next := c.(draws := c.draws + 1);
      var probed := next.(probes := next.probes + 1);
      var port := lower + w.raw(c.draws).value % (upper - lower + 1);
      if port in reserved {
        RandomIsWithinBounds(w, next, lower, upper, reserved, attempts - 1);
      } else if w.free(next.probes, port) {
        assert ProbedFree(w, c.probes, probed.probes, port);
      } else {
        RandomIsWithinBounds(w, probed, lower, upper, reserved, attempts - 1);
        var after := RandomFree(w, probed, lower, upper, reserved, attempts - 1).1;
        Widen(w, probed.probes, after.probes, c.probes, after.probes);
      }
    }
  }

  lemma ChoiceIsJustified(w: World, c: Clock, mode: Mode, reserved: set<int>, attempts: nat)
    requires !mode.Discover? && (mode.Random? ==> mode.lower <= mode.upper)
    ensures var (r, after) := Choose(w, c, mode, reserved, attempts);
            && c.probes <= after.probes
            && (r.Picked? ==> Justified(w, c.probes, after.probes, mode, r.port, reserved))
            && (r.Missed? && mode.Fixed? ==> ProbedBusy(w, c.probes, after.probes, mode.port))
            && (r.Missed? && mode.FirstFree? ==>
                  NoneBelow(w, c.probes, after.probes, mode.start, MAX_PORT + 1, reserved))
  {
    match mode
    case Fixed(p) =>
      if w.free(c.probes, p) {
        assert ProbedFree(w, c.probes, c.probes + 1, p);
      } else {
        assert ProbedBusy(w, c.probes, c.probes + 1, p);
      }
    case FirstFree(start) =>
      FirstFreeIsLeast(w, c.probes, start, reserved);
      var (port, after) := FirstFreeFrom(w, c.probes, start, reserved);
      assert port.None? ==> NoneBelow(w, c.probes, after, start, MAX_PORT + 1, reserved);
    case Random(lower, upper) => RandomIsWithinBounds(w, c, lower, upper, reserved, attempts);
  }

  function Attempts(maxAttempts: int): nat {
    if maxAttempts <= 0 then DEFAULT_ATTEMPTS else maxAttempts
  }

  method PickPort(w: World, c: Clock, mode: Mode, reserved: set<int>, attempts: nat) returns (r: Pick, after: Clock)
    requires !mode.Discover? && (mode.Random? ==> mode.lower <= mode.upper)
    ensures (r, after) == Choose(w, c, mode, reserved, attempts)
  {
    match mode
    case Fixed(p) =>
      r := if w.free(c.probes, p) then Picked(p) else Missed(FixedUnavailable);
      after := c.(probes := c.probes + 1);
    case FirstFree(start) => r, after := FindFirstFree(w, c, start, reserved);
    case Random(lower, upper) => r, after := FindRandomFree(w, c, lower, upper, reserved, attempts);
  }

  // ----- Resolve: every port of the configuration -----

  predicate HasMode(specs: map<string, Spec>, n: string) {
    n in specs && ModeOf(specs[n]).Some?
  }

  predicate AllHaveModes(specs: map<string, Spec>, names: seq<string>) {
    forall n :: n in names ==> HasMode(specs, n)
  }

  predicate IsDynamic(specs: map<string, Spec>, n: string) {
    HasMode(specs, n) && !ModeOf(specs[n]).value.Discover?
  }

  predicate IsFixed(specs: map<string, Spec>, n: string) {
    HasMode(specs, n) && ModeOf(specs[n]).value.Fixed?
  }

  function FixedPort(specs: map<string, Spec>, n: string): int
    requires IsFixed(specs, n)
  {
    ModeOf(specs[n]).value.port
  }

  function FixedPorts(specs: map<string, Spec>): set<int> {
    set n | n in specs && IsFixed(specs, n) :: FixedPort(specs, n)
  }

  /** What the first loop of `Resolve` accepts, in whatever order it visits the map. */
  ghost predicate Acceptable(specs: map<string, Spec>) {
    AcceptableFor(specs, specs.Keys)
  }

  ghost predicate AcceptableFor(specs: map<string, Spec>, names: set<string>) {
    && (forall n :: n in names ==> HasMode(specs, n) && (IsFixed(specs, n) ==> ValidPort(FixedPort(specs, n))))
    && (forall m, n :: m in names && n in names && m != n && IsFixed(specs, m) && IsFixed(specs, n) ==>
          FixedPort(specs, m) != FixedPort(specs, n))
  }

  function FixedPortsOf(specs: map<string, Spec>, names: set<string>): set<int> {
    set n | n in names && IsFixed(specs, n) :: FixedPort(specs, n)
  }

  method ReserveFixed(specs: map<string, Spec>) returns (ok: bool, reserved: set<int>)
    ensures ok <==> Acceptable(specs)
    ensures ok ==> reserved == FixedPorts(specs)
  {
    reserved := {};
    var left := specs.Keys;
    while left != {}
      invariant left <= specs.Keys
      invariant AcceptableFor(specs, specs.Keys - left) && reserved == FixedPortsOf(specs, specs.Keys - left)
      decreases |left|
    {
      var name :| name in left;
      NameFits(specs, specs.Keys - left, name);
      var mode := ModeOf(specs[name]);
      if mode.None? {
        return false, {};
      }
      if mode.value.Fixed? {
        var port := mode.value.port;
        if !ValidPort(port) {
          return false, {};
        }
        if port in reserved {
          return false, {};
        }
        reserved := reserved + {port};
      }
      OneMoreName(specs, specs.Keys - left, name);
      assert specs.Keys - (left - {name}) == specs.Keys - left + {name};
      left := left - {name};
    }
    assert specs.Keys - left == specs.Keys;
    ok := true;
  }

  /** A further name is acceptable if its port is legal and not the fixed port of an earlier one. */
  ghost predicate NameFitsIn(specs: map<string, Spec>, names: set<string>, name: string) {
    && HasMode(specs, name)
    && (IsFixed(specs, name) ==>
          ValidPort(FixedPort(specs, name)) && FixedPort(specs, name) !in FixedPortsOf(specs, names))
  }

  lemma NameFits(specs: map<string, Spec>, names: set<string>, name: string)
    requires AcceptableFor(specs, names) && names <= specs.Keys && name in specs && name !in names
    ensures NameFitsIn(specs, names, name) ==> AcceptableFor(specs, names + {name})
    ensures !NameFitsIn(specs, names, name) ==> !Acceptable(specs)
  {
    if IsFixed(specs, name) {
      if FixedPort(specs, name) in FixedPortsOf(specs, names) {
        var other :| other in names && IsFixed(specs, other) && FixedPort(specs, other) == FixedPort(specs, name);
      } else {
        forall m | m in names && IsFixed(specs, m)
          ensures FixedPort(specs, m) != FixedPort(specs, name)
        {
          assert FixedPort(specs, m) in FixedPortsOf(specs, names);
        }
      }
    }
  }

  lemma OneMoreName(specs: map<string, Spec>, names: set<string>, name: string)
    requires HasMode(specs, name)
    ensures FixedPortsOf(specs, names + {name}) ==
            FixedPortsOf(specs, names) + (if IsFixed(specs, name) then {FixedPort(specs, name)} else {})
  {
    if IsFixed(specs, name) {
      var port := FixedPort(specs, name);
      assert name in names + {name};
      assert port in FixedPortsOf(specs, names + {name});
    }
  }

  function OwnerOf(owners: map<string, string>, n: string): string {
    if n in owners then owners[n] else ""
  }

  /** The port of the next name: zero while it is left to discovery. */
  function NextPort(w: World, c: Clock, mode: Mode, reserved: set<int>, attempts: nat): (Pick, Clock)
    requires mode.Random? ==> mode.lower <= mode.upper
  {
    if mode.Discover? then (Picked(0), c) else Choose(w, c, mode, reserved, attempts)
  }

  function Reserve(mode: Mode, reserved: set<int>, port: int): set<int> {
    if mode.Discover? then reserved else reserved + {port}
  }

  /** The second loop of `Resolve`, from some name on. */
  function ResolveNames(w: World, c: Clock, specs: map<string, Spec>, owners: map<string, string>, names: seq<string>,
                        result: map<string, Allocation>, reserved: set<int>, attempts: nat): (Result, Clock)
    requires AllHaveModes(specs, names)
    decreases |names|
  {
    if names == [] then (Allocated(result), c) else
    var n := names[0];
    assert n in names && HasMode(specs, n);
    var mode := ModeOf(specs[n]).value;
    var (pick, after) := NextPort(w, c, mode, reserved, attempts);
    if pick.Missed? then (Failed(pick.failure), after) else
    var a := Allocation(n, OwnerOf(owners, n), pick.port, mode.Discover?);
    ResolveNames(w, after, specs, owners, names[1..], result[n := a], Reserve(mode, reserved, pick.port), attempts)
  }

  /** Ports given to the names of `done` that are not left to discovery. */
  function PortsOf(specs: map<string, Spec>, done: set<string>, result: map<string, Allocation>): set<int> {
    set n | n in done && n in result && IsDynamic(specs, n) :: result[n].port
  }

  lemma PortsOfNext(specs: map<string, Spec>, done: set<string>, result: map<string, Allocation>, n: string,
                    a: Allocation)
    requires n !in done
    ensures PortsOf(specs, done, result[n := a]) == PortsOf(specs, done, result)
    ensures PortsOf(specs, done + {n}, result[n := a]) ==
            PortsOf(specs, done, result) + (if IsDynamic(specs, n) then {a.port} else {})
  {
    var more := result[n := a];
    forall p ensures p in PortsOf(specs, done, more) <==> p in PortsOf(specs, done, result) {
      if p in PortsOf(specs, done, more) {
        var m :| m in done && m in more && IsDynamic(specs, m) && more[m].port == p;
        assert m in result;
      }
      if p in PortsOf(specs, done, result) {
        var m :| m in done && m in result && IsDynamic(specs, m) && result[m].port == p;
        assert m in more && more[m].port == p;
      }
    }
    var added := if IsDynamic(specs, n) then {a.port} else {};
    forall p ensures p in PortsOf(specs, done + {n}, more) <==> p in PortsOf(specs, done, more) + added {
      if p in added {
        assert n in done + {n} && n in more && more[n].port == p;
      }
    }
  }

  function EarlierThan(names: set<string>, n: string): set<string> {
    set m | m in names && Before(m, n)
  }

  /** What `Resolve` promises of the allocation of one name. */
  ghost predicate Sound(w: World, from: nat, to: nat, specs: map<string, Spec>, owners: map<string, string>,
                        result: map<string, Allocation>, n: string)
    requires n in result && HasMode(specs, n)
  {
    var mode := ModeOf(specs[n]).value;
    var taken := FixedPorts(specs) + PortsOf(specs, EarlierThan(specs.Keys, n), result);
    && result[n].name == n && result[n].owner == OwnerOf(owners, n) && result[n].discovered == mode.Discover?
    && (mode.Discover? ==> result[n].port == 0)
    && (!mode.Discover? ==> Justified(w, from, to, mode, result[n].port, taken))
  }

  ghost predicate SoundAll(w: World, from: nat, to: nat, specs: map<string, Spec>, owners: map<string, string>,
                           result: map<string, Allocation>, names: set<string>)
  {
    forall n :: n in names ==> n in result && HasMode(specs, n) && Sound(w, from, to, specs, owners, result, n)
  }

  /** `names` lists the rest of `all` in order; `done` are the names before. */
  ghost predicate Splits(all: set<string>, done: set<string>, names: seq<string>) {
    && all == done + Elements(names)
    && (forall m, n :: m in done && n in names ==> Before(m, n))
    && (forall i, j :: 0 <= i < j < |names| ==> Before(names[i], names[j]))
  }

  lemma SplitsNext(all: set<string>, done: set<string>, names: seq<string>)
    requires Splits(all, done, names) && names != []
    ensures names[0] !in done && EarlierThan(all, names[0]) == done
    ensures Splits(all, done + {names[0]}, names[1..])
  {
    var n := names[0];
    BeforeIrreflexive(n);
    assert n in names;
    forall m | m in names ensures !Before(m, n) {
      var i :| 0 <= i < |names| && names[i] == m;
      if i > 0 && Before(m, n) {
        BeforeTransitive(m, n, m);
        BeforeIrreflexive(m);
      }
    }
    assert Elements(names) == {n} + Elements(names[1..]);
  }

  lemma SoundNext(w: World, from: nat, to: nat, to': nat, specs: map<string, Spec>, owners: map<string, string>,
                  result: map<string, Allocation>, done: set<string>, n: string, a: Allocation)
    requires SoundAll(w, from, to, specs, owners, result, done) && to <= to' && n !in done
    requires forall m :: m in done ==> Before(m, n)
    ensures SoundAll(w, from, to', specs, owners, result[n := a], done)
  {
    forall m | m in done ensures Sound(w, from, to', specs, owners, result[n := a], m) {
      var earlier := EarlierThan(specs.Keys, m);
      if Before(n, m) {
        BeforeTransitive(n, m, n);
        BeforeIrreflexive(n);
      }
      PortsOfNext(specs, earlier, result, n, a);
      var mode := ModeOf(specs[m]).value;
      if !mode.Discover? {
        WidenJustified(w, from, to, from, to', mode, result[m].port,
            FixedPorts(specs) + PortsOf(specs, earlier, result));
      }
    }
  }

  /** One turn of the loop: `pick` is the port chosen for `n`, or zero for a port to be discovered. */
  lemma SoundTurn(w: World, from: nat, c: Clock, after: Clock, specs: map<string, Spec>, owners: map<string, string>,
                  result: map<string, Allocation>, done: set<string>, n: string, port: int)
    requires SoundAll(w, from, c.probes, specs, owners, result, done) && from <= c.probes <= after.probes
    requires HasMode(specs, n) && n !in done && done == EarlierThan(specs.Keys, n) && result.Keys == done
    requires var mode := ModeOf(specs[n]).value;
             if mode.Discover? then port == 0
             else Justified(w, c.probes, after.probes, mode, port, FixedPorts(specs) + PortsOf(specs, done, result))
    ensures var a := Allocation(n, OwnerOf(owners, n), port, ModeOf(specs[n]).value.Discover?);
            SoundAll(w, from, after.probes, specs, owners, result[n := a], done + {n})
  {
    var mode := ModeOf(specs[n]).value;
    var a := Allocation(n, OwnerOf(owners, n), port, mode.Discover?);
    var reserved := FixedPorts(specs) + PortsOf(specs, done, result);
    PortsOfNext(specs, done, result, n, a);
    SoundNext(w, from, c.probes, after.probes, specs, owners, result, done, n, a);
    if !mode.Discover? {
      WidenJustified(w, c.probes, after.probes, from, after.probes, mode, port, reserved);
    }
    assert Sound(w, from, after.probes, specs, owners, result[n := a], n);
  }

  lemma ReservedNext(specs: map<string, Spec>, done: set<string>, result: map<string, Allocation>, n: string,
                     a: Allocation)
    requires n !in done
    ensures FixedPorts(specs) + PortsOf(specs, done + {n}, result[n := a]) ==
            FixedPorts(specs) + PortsOf(specs, done, result) + (if IsDynamic(specs, n) then {a.port} else {})
  {
    PortsOfNext(specs, done, result, n, a);
  }

  ghost predicate ResolveSound(w: World, from: nat, specs: map<string, Spec>, owners: map<string, string>, r: Result,
                               after: Clock)
  {
    && from <= after.probes
    && (r.Allocated? ==>
          r.ports.Keys == specs.Keys && SoundAll(w, from, after.probes, specs, owners, r.ports, specs.Keys))
  }

  /** Where the loop of `Resolve` stands: `done` was handled, `names` is left. */
  ghost predicate Resolving(w: World, from: nat, c: Clock, specs: map<string, Spec>, owners: map<string, string>,
                            names: seq<string>, done: set<string>, result: map<string, Allocation>, reserved: set<int>)
  {
    && Splits(specs.Keys, done, names) && result.Keys == done && from <= c.probes
    && (forall n :: n in specs ==> HasMode(specs, n))
    && SoundAll(w, from, c.probes, specs, owners, result, done)
    && reserved == FixedPorts(specs) + PortsOf(specs, done, result)
  }

  lemma ResolvingNext(w: World, from: nat, c: Clock, specs: map<string, Spec>, owners: map<string, string>,
                      names: seq<string>, done: set<string>, result: map<string, Allocation>, reserved: set<int>,
                      attempts: nat)
    requires Resolving(w, from, c, specs, owners, names, done, result, reserved) && names != []
    ensures names[0] in names && HasMode(specs, names[0])
    ensures var n := names[0];
            var mode := ModeOf(specs[n]).value;
            var (pick, after) := NextPort(w, c, mode, reserved, attempts);
            && c.probes <= after.probes
            && (pick.Picked? ==>
                  Resolving(w, from, after, specs, owners, names[1..], done + {n},
                            result[n := Allocation(n, OwnerOf(owners, n), pick.port, mode.Discover?)],
                            Reserve(mode, reserved, pick.port)))
  {
    var n := names[0];
    assert n in names;
    var mode := ModeOf(specs[n]).value;
    if !mode.Discover? {
      ChoiceIsJustified(w, c, mode, reserved, attempts);
    }
    var (pick, after) := NextPort(w, c, mode, reserved, attempts);
    if pick.Picked? {
      ResolvingPicked(w, from, c, after, specs, owners, names, done, result, reserved, pick.port);
    }
  }

  lemma ResolvingPicked(w: World, from: nat, c: Clock, after: Clock, specs: map<string, Spec>,
                        owners: map<string, string>, names: seq<string>, done: set<string>,
                        result: map<string, Allocation>, reserved: set<int>, port: int)
    requires Resolving(w, from, c, specs, owners, names, done, result, reserved) && names != []
    requires names[0] in specs && HasMode(specs, names[0]) && c.probes <= after.probes
    requires var mode := ModeOf(specs[names[0]]).value;
             if mode.Discover? then port == 0 else Justified(w, c.probes, after.probes, mode, port, reserved)
    ensures var n := names[0];
            var mode := ModeOf(specs[n]).value;
            Resolving(w, from, after, specs, owners, names[1..], done + {n},
                      result[n := Allocation(n, OwnerOf(owners, n), port, mode.Discover?)],
                      Reserve(mode, reserved, port))
  {
    var n := names[0];
    var a := Allocation(n, OwnerOf(owners, n), port, ModeOf(specs[n]).value.Discover?);
    SplitsNext(specs.Keys, done, names);
    SoundTurn(w, from, c, after, specs, owners, result, done, n, port);
    ReservedNext(specs, done, result, n, a);
  }

  lemma {:induction false} ResolveNamesIsSound(
    w: World, from: nat, c: Clock, specs: map<string, Spec>, owners: map<string, string>, names: seq<string>,
    done: set<string>, result: map<string, Allocation>, reserved: set<int>, attempts: nat)
    requires Resolving(w, from, c, specs, owners, names, done, result, reserved)
    ensures AllHaveModes(specs, names)
    ensures var (r, after) := ResolveNames(w, c, specs, owners, names, result, reserved, attempts);
            ResolveSound(w, from, specs, owners, r, after)
    decreases |names|
  {
    if names == [] {
      assert done == specs.Keys;
    } else {
      ResolvingNext(w, from, c, specs, owners, names, done, result, reserved, attempts);
      var n := names[0];
      var mode := ModeOf(specs[n]).value;
      var (pick, after) := NextPort(w, c, mode, reserved, attempts);
      if pick.Picked? {
        var more := result[n := Allocation(n, OwnerOf(owners, n), pick.port, mode.Discover?)];
        ResolveNamesIsSound(w, from, after, specs, owners, names[1..], done + {n}, more,
                            Reserve(mode, reserved, pick.port), attempts);
      }
    }
  }

  /** No two names share a port, every port is a TCP port and every fixed port is honoured. */
  ghost predicate GoodPorts(specs: map<string, Spec>, ports: map<string, Allocation>) {
    && (forall n :: n in ports && !ports[n].discovered ==> ValidPort(ports[n].port))
    && (forall m, n :: m in ports && n in ports && m != n && !ports[m].discovered && !ports[n].discovered ==>
          ports[m].port != ports[n].port)
    && (forall n :: n in ports && IsFixed(specs, n) ==> !ports[n].discovered && ports[n].port == FixedPort(specs, n))
  }

  /** The earlier of two dynamic ports is reserved when the later is searched. */
  lemma EarlierIsReserved(w: World, from: nat, to: nat, specs: map<string, Spec>, owners: map<string, string>,
                          ports: map<string, Allocation>, m: string, n: string)
    requires Acceptable(specs) && ports.Keys == specs.Keys && SoundAll(w, from, to, specs, owners, ports, specs.Keys)
    requires m in ports && n in ports && !ports[m].discovered && !ports[n].discovered && Before(m, n)
    ensures ports[m].port != ports[n].port
  {
    assert Sound(w, from, to, specs, owners, ports, m) && Sound(w, from, to, specs, owners, ports, n);
    var earlier := EarlierThan(specs.Keys, n);
    BeforeIrreflexive(m);
    if IsFixed(specs, m) {
      assert FixedPort(specs, m) in FixedPorts(specs);
    }
    if IsFixed(specs, n) {
      assert FixedPort(specs, n) in FixedPorts(specs);
    } else {
      assert m in earlier && ports[m].port in PortsOf(specs, earlier, ports);
    }
  }

  lemma SoundMeansGood(w: World, from: nat, to: nat, specs: map<string, Spec>, owners: map<string, string>,
                       ports: map<string, Allocation>)
    requires Acceptable(specs) && ports.Keys == specs.Keys && SoundAll(w, from, to, specs, owners, ports, specs.Keys)
    ensures GoodPorts(specs, ports)
  {
    forall n | n in ports
      ensures !ports[n].discovered ==> ValidPort(ports[n].port)
      ensures IsFixed(specs, n) ==> !ports[n].discovered && ports[n].port == FixedPort(specs, n)
    {
      assert Sound(w, from, to, specs, owners, ports, n);
    }
    forall m, n | m in ports && n in ports && m != n && !ports[m].discovered && !ports[n].discovered
      ensures ports[m].port != ports[n].port
    {
      BeforeTotal(m, n);
      if Before(m, n) {
        EarlierIsReserved(w, from, to, specs, owners, ports, m, n);
      } else {
        EarlierIsReserved(w, from, to, specs, owners, ports, n, m);
      }
    }
  }

  lemma {:induction false} OrderIsUnique(all: set<string>, done: set<string>, a: seq<string>, b: seq<string>)
    requires Splits(all, done, a) && Splits(all, done, b)
    ensures a == b
    decreases |a|
  {
    FirstIsNew(all, done, a);
    FirstIsNew(all, done, b);
    if a == [] || b == [] {
    } else {
      SplitsNext(all, done, a);
      SplitsNext(all, done, b);
      HeadsAgree(all, done, a, b);
      OrderIsUnique(all, done + {a[0]}, a[1..], b[1..]);
      assert a == [a[0]] + a[1..] && b == [b[0]] + b[1..];
    }
  }

  lemma FirstIsNew(all: set<string>, done: set<string>, names: seq<string>)
    requires Splits(all, done, names)
    ensures if names == [] then all == done else names[0] in all && names[0] !in done
  {
    if names != [] {
      assert names[0] in names;
      SplitsNext(all, done, names);
    }
  }

  lemma HeadsAgree(all: set<string>, done: set<string>, a: seq<string>, b: seq<string>)
    requires Splits(all, done, a) && Splits(all, done, b) && a != [] && b != []
    requires EarlierThan(all, a[0]) == done && EarlierThan(all, b[0]) == done && a[0] !in done && b[0] !in done
    ensures a[0] == b[0]
  {
    assert a[0] in all && b[0] in all;
    BeforeTotal(a[0], b[0]);
    assert Before(a[0], b[0]) <==> a[0] in EarlierThan(all, b[0]);
    assert Before(b[0], a[0]) <==> b[0] in EarlierThan(all, a[0]);
  }

  /** The keys of the map in the order of `sort.Strings`. */
  method SortedNames(specs: map<string, Spec>) returns (names: seq<string>)
    ensures Splits(specs.Keys, {}, names)
  {
    names := [];
    var left := specs.Keys;
    while left != {}
      invariant left <= specs.Keys && Elements(names) == specs.Keys - left && NoDuplicates(names)
      decreases |left|
    {
      var name :| name in left;
      assert name !in Elements(names);
      ElementsAppend(names, name);
      names := names + [name];
      left := left - {name};
    }
    SortSplits(names);
    names := SortStrings(names);
  }

  lemma SortSplits(names: seq<string>)
    requires NoDuplicates(names)
    ensures Splits(Elements(names), {}, SortStrings(names))
  {
    var sorted := SortStrings(names);
    SortSorts(names);
    SortNoDuplicates(names);
    forall x ensures x in sorted <==> x in names {
      SortKeepsMembers(names, x);
    }
    assert Elements(sorted) == Elements(names);
    forall i, j | 0 <= i < j < |sorted| ensures Before(sorted[i], sorted[j]) {
      assert AtMost(sorted[i], sorted[j]) && sorted[i] != sorted[j];
    }
  }

  /**
    `Resolve`: rejects exactly the configurations the first loop rejects, and
    otherwise runs the names in their one sorted order. A success is sound.
  */
  method Resolve(w: World, c: Clock, specs: map<string, Spec>, owners: map<string, string>, maxAttempts: int)
    returns (r: Result, after: Clock)
    ensures !Acceptable(specs) ==> r == Failed(Rejected) && after == c
    ensures Acceptable(specs) ==> exists names ::
              && Splits(specs.Keys, {}, names) && AllHaveModes(specs, names)
              && (r, after) == ResolveNames(w, c, specs, owners, names, map[], FixedPorts(specs), Attempts(maxAttempts))
    ensures r.Allocated? ==> Acceptable(specs) && r.ports.Keys == specs.Keys && GoodPorts(specs, r.ports)
    ensures r.Allocated? ==> SoundAll(w, c.probes, after.probes, specs, owners, r.ports, specs.Keys)
  {
    var ok, reserved := ReserveFixed(specs);
    if !ok {
      return Failed(Rejected), c;
    }
    var names := SortedNames(specs);
    StartsResolving(w, c, specs, owners, names);
    ResolveNamesIsSound(w, c.probes, c, specs, owners, names, {}, map[], reserved, Attempts(maxAttempts));
    r, after := AllocateNames(w, c, specs, owners, names, reserved, Attempts(maxAttempts));
    if r.Allocated? {
      SoundMeansGood(w, c.probes, after.probes, specs, owners, r.ports);
    }
  }

  lemma StartsResolving(w: World, c: Clock, specs: map<string, Spec>, owners: map<string, string>, names: seq<string>)
    requires Splits(specs.Keys, {}, names) && Acceptable(specs)
    ensures Resolving(w, c.probes, c, specs, owners, names, {}, map[], FixedPorts(specs))
  {
    assert PortsOf(specs, {}, map[]) == {};
  }

  /** The second loop. */
  method AllocateNames(w: World, c: Clock, specs: map<string, Spec>, owners: map<string, string>, names: seq<string>,
                       fixed: set<int>, attempts: nat)
    returns (r: Result, after: Clock)
    requires AllHaveModes(specs, names)
    ensures (r, after) == ResolveNames(w, c, specs, owners, names, map[], fixed, attempts)
  {
    var result, reserved := map[], fixed;
    after := c;
    for i := 0 to |names|
      invariant ResolveNames(w, c, specs, owners, names, map[], fixed, attempts) ==
                ResolveNames(w, after, specs, owners, names[i..], result, reserved, attempts)
    {
      var name := names[i];
      assert names[i..][0] == name && names[i..][1..] == names[i + 1..];
      assert name in names && HasMode(specs, name);
      var mode := ModeOf(specs[name]).value;
      var allocation := Allocation(name, OwnerOf(owners, name), 0, mode.Discover?);
      if !mode.Discover? {
        var pick, next := PickPort(w, after, mode, reserved, attempts);
        after := next;
        if pick.Missed? {
          return Failed(pick.failure), after;
        }
        allocation := allocation.(port := pick.port);
        reserved := reserved + {pick.port};
      }
      result := result[name := allocation];
    }
    r := Allocated(result);
  }
}
