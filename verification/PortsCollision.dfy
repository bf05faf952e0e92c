/** The fixed arm of `Reallocate` ignores what is claimed: exactly when that makes two ports collide. */
module PortsCollision {
  import opened Options
  import opened Ordering
  import opened Ports
  import opened PortsRecheck

  /** A world where port `p` alone can be bound and every draw is `d`. */
  function OnlyFree(p: int, d: nat): World {
    World((_, q) => q == p, _ => Some(d))
  }

  lemma {:induction false} FirstFreeFindsOnly(p: int, d: nat, probes: nat, start: int, reserved: set<int>)
    requires start <= p <= MAX_PORT && p !in reserved
    ensures FirstFreeFrom(OnlyFree(p, d), probes, start, reserved).0 == Some(p)
    decreases p - start
  {
    if start < p {
      FirstFreeFindsOnly(p, d, if start in reserved then probes else probes + 1, start + 1, reserved);
    }
  }

  /** A reachable port that is the only free one is chosen. */
  lemma ChoosesOnly(mode: Mode, p: int, c: Clock, reserved: set<int>, attempts: nat)
    requires Reaches(mode, p) && (mode.Random? ==> mode.lower <= mode.upper) && p !in reserved && attempts > 0
    ensures var d: nat := if mode.Random? then p - mode.lower else 0;
            Choose(OnlyFree(p, d), c, mode, reserved, attempts).0 == Picked(p)
  {
    if mode.FirstFree? {
      FirstFreeFindsOnly(p, 0, c.probes, mode.start, reserved);
    } else {
      var d: nat := p - mode.lower;
      SmallModulo(d, mode.upper - mode.lower + 1);
    }
  }

  lemma SmallModulo(d: nat, n: nat)
    requires d < n
    ensures d % n == d
  {
  }

  function Collision(mode: Mode, p: int): World
    requires Reaches(mode, p)
  {
    OnlyFree(p, if mode.Random? then p - mode.lower else 0)
  }

  lemma MovesOnto(specs: map<string, Spec>, a: Allocation, d: string, p: int, c: Clock, reserved: set<int>,
                  attempts: nat)
    requires HasMode(specs, d) && Reaches(ModeOf(specs[d]).value, p) && a.port != p && p !in reserved && attempts > 0
    ensures TakeTurn(Collision(ModeOf(specs[d]).value, p), c, specs, a, d, reserved, attempts).0 ==
            Turned(a.(port := p, discovered := false))
  {
    var mode := ModeOf(specs[d]).value;
    var next := if Probes(a.port, reserved) then c.(probes := c.probes + 1) else c;
    ChoosesOnly(mode, p, next, reserved, attempts);
  }

  // ----- A world that is calm except for the turn of one name -----

  ghost predicate AgreeWithin(w: World, v: World, from: nat, to: nat) {
    w.raw == v.raw && forall t: nat, p: int :: from <= t < to ==> w.free(t, p) == v.free(t, p)
  }

  lemma {:induction false} FirstFreeAgrees(w: World, v: World, probes: nat, start: int, reserved: set<int>)
    requires AgreeWithin(w, v, probes, FirstFreeFrom(v, probes, start, reserved).1)
    ensures FirstFreeFrom(w, probes, start, reserved) == FirstFreeFrom(v, probes, start, reserved)
    decreases MAX_PORT + 1 - start
  {
    if start <= MAX_PORT {
      FirstFreeIsLeast(v, if start in reserved then probes else probes + 1, start + 1, reserved);
      if start in reserved {
        FirstFreeAgrees(w, v, probes, start + 1, reserved);
      } else if !v.free(probes, start) {
        FirstFreeAgrees(w, v, probes + 1, start + 1, reserved);
      }
    }
  }

  lemma {:induction false} RandomAgrees(w: World, v: World, c: Clock, lower: int, upper: int, reserved: set<int>,
                                        attempts: nat)
    requires lower <= upper
    requires AgreeWithin(w, v, c.probes, RandomFree(v, c, lower, upper, reserved, attempts).1.probes)
    ensures RandomFree(w, c, lower, upper, reserved, attempts) == RandomFree(v, c, lower, upper, reserved, attempts)
    decreases attempts
  {
    if attempts > 0 && v.raw(c.draws).Some? {
      var next := c.(draws := c.draws + 1);
      var probed := next.(probes := next.probes + 1);
      var port := lower + v.raw(c.draws).value % (upper - lower + 1);
      if port in reserved {
        RandomAgrees(w, v, next, lower, upper, reserved, attempts - 1);
      } else if !v.free(next.probes, port) {
        RandomIsWithinBounds(v, probed, lower, upper, reserved, attempts - 1);
        RandomAgrees(w, v, probed, lower, upper, reserved, attempts - 1);
      }
    }
  }

  lemma TurnAgrees(w: World, v: World, c: Clock, specs: map<string, Spec>, a: Allocation, n: string, reserved: set<int>,
                   attempts: nat)
    requires IsDynamic(specs, n)
    requires AgreeWithin(w, v, c.probes, TakeTurn(v, c, specs, a, n, reserved, attempts).1.probes)
    ensures TakeTurn(w, c, specs, a, n, reserved, attempts) == TakeTurn(v, c, specs, a, n, reserved, attempts)
  {
    var mode := ModeOf(specs[n]).value;
    var next := if Probes(a.port, reserved) then c.(probes := c.probes + 1) else c;
    ChoiceIsJustified(v, next, mode, reserved, attempts);
    if !(Probes(a.port, reserved) && v.free(c.probes, a.port)) {
      if mode.FirstFree? {
        FirstFreeAgrees(w, v, next.probes, mode.start, reserved);
      } else if mode.Random? {
        RandomAgrees(w, v, next, mode.lower, mode.upper, reserved, attempts);
      }
    }
  }

  /** Everything is free, except in the time window where only port `p` is. */
  function CalmExcept(v: World, from: nat, to: nat): World {
    World((t, p) => if from <= t < to then v.free(t, p) else true, v.raw)
  }

  ghost predicate Calm(w: World, from: nat, to: nat) {
    forall t: nat, p: int :: from <= t < to ==> w.free(t, p)
  }

  function DynamicCount(specs: map<string, Spec>, names: seq<string>): nat {
    if names == [] then 0 else (if IsDynamic(specs, names[0]) then 1 else 0) + DynamicCount(specs, names[1..])
  }

  /** Each name keeps its port when everything is free: unclaimed, or fixed to the port it has. */
  predicate Stays(specs: map<string, Spec>, result: map<string, Allocation>, reserved: set<int>, n: string) {
    HasMode(specs, n) &&
    (IsDynamic(specs, n) ==>
       && n in result && result[n].port > 0
       && if IsFixed(specs, n) then result[n].port == FixedPort(specs, n) else result[n].port !in reserved)
  }

  ghost predicate AllStay(specs: map<string, Spec>, result: map<string, Allocation>, reserved: set<int>,
                          names: seq<string>) {
    && (forall n :: n in names ==> Stays(specs, result, reserved, n))
    && (forall i, j :: 0 <= i < j < |names| && IsDynamic(specs, names[i]) && IsDynamic(specs, names[j]) ==>
          names[i] in result && names[j] in result && result[names[i]].port != result[names[j]].port)
    && NoDuplicates(names)
  }

  /** The same ports, though a name may be written or a port be marked as discovered. */
  ghost predicate SamePorts(specs: map<string, Spec>, names: seq<string>, result: map<string, Allocation>,
                            after: map<string, Allocation>)
  {
    && (forall n :: n !in names ==> (n in result <==> n in after) && (n in result ==> after[n] == result[n]))
    && (forall n :: n in names && IsDynamic(specs, n) ==> n in result && n in after && after[n].port == result[n].port)
  }

  lemma CalmTurn(w: World, c: Clock, specs: map<string, Spec>, result: map<string, Allocation>, reserved: set<int>,
                 n: string, attempts: nat)
    requires Stays(specs, result, reserved, n) && Calm(w, c.probes, c.probes + if IsDynamic(specs, n) then 1 else 0)
    ensures var (turn, after) := TakeTurn(w, c, specs, AllocationOf(result, n), n, reserved, attempts);
            && turn.Turned?
            && after == c.(probes := c.probes + if IsDynamic(specs, n) then 1 else 0)
            && (IsDynamic(specs, n) ==> turn.allocation.port == result[n].port)
  {
  }

  lemma AllStayNext(specs: map<string, Spec>, result: map<string, Allocation>, reserved: set<int>, names: seq<string>,
                    a: Allocation)
    requires AllStay(specs, result, reserved, names) && names != []
    requires IsDynamic(specs, names[0]) ==> names[0] in result && a.port == result[names[0]].port
    ensures AllStay(specs, result[names[0] := a], Claim(specs, names[0], reserved, a.port), names[1..])
  {
    var n := names[0];
    forall m | m in names[1..] ensures m != n && Stays(specs, result[n := a], Claim(specs, n, reserved, a.port), m) {
      var j :| 0 <= j < |names[1..]| && names[1..][j] == m;
      assert names[j + 1] == m && m in names;
      assert Stays(specs, result, reserved, m);
    }
  }

  /** A calm stretch of the loop leaves every port where it is. */
  lemma {:induction false} CalmStretch(w: World, c: Clock, specs: map<string, Spec>, names: seq<string>,
                                       rest: seq<string>, result: map<string, Allocation>, reserved: set<int>,
                                       attempts: nat)
    returns (after: Clock, ports: map<string, Allocation>, claimed: set<int>)
    requires AllStay(specs, result, reserved, names) && Calm(w, c.probes, c.probes + DynamicCount(specs, names))
    ensures ReallocateNames(w, c, specs, names + rest, result, reserved, attempts) ==
            ReallocateNames(w, after, specs, rest, ports, claimed, attempts)
    ensures after == c.(probes := c.probes + DynamicCount(specs, names)) && SamePorts(specs, names, result, ports)
    ensures claimed == reserved + PortsOf(specs, Elements(names), result)
    decreases |names|
  {
    if names == [] {
      assert names + rest == rest;
      assert PortsOf(specs, Elements(names), result) == {};
      return c, result, reserved;
    }
    var n := names[0];
    assert n in names && Stays(specs, result, reserved, n);
    CalmTurn(w, c, specs, result, reserved, n, attempts);
    var (turn, next) := TakeTurn(w, c, specs, AllocationOf(result, n), n, reserved, attempts);
    AllStayNext(specs, result, reserved, names, turn.allocation);
    var more := result[n := turn.allocation];
    var claim := Claim(specs, n, reserved, turn.allocation.port);
    assert (names + rest)[0] == n && (names + rest)[1..] == names[1..] + rest;
    after, ports, claimed := CalmStretch(w, next, specs, names[1..], rest, more, claim, attempts);
    StretchPorts(specs, names, result, turn.allocation);
    SamePortsNext(specs, names, result, turn.allocation, ports);
  }

  lemma StretchPorts(specs: map<string, Spec>, names: seq<string>, result: map<string, Allocation>, a: Allocation)
    requires names != [] && NoDuplicates(names)
    requires IsDynamic(specs, names[0]) ==> names[0] in result && a.port == result[names[0]].port
    ensures PortsOf(specs, Elements(names), result) ==
            (if IsDynamic(specs, names[0]) then {a.port} else {})
            + PortsOf(specs, Elements(names[1..]), result[names[0] := a])
  {
    var n := names[0];
    assert Elements(names) == {n} + Elements(names[1..]);
    PortsOfNext(specs, Elements(names[1..]), result, n, a);
    forall p ensures p in PortsOf(specs, Elements(names), result) <==>
                     p in (if IsDynamic(specs, n) then {a.port} else {})
                         + PortsOf(specs, Elements(names[1..]), result) {
      if IsDynamic(specs, n) {
        assert n in Elements(names) && n in result && result[n].port == a.port;
      }
    }
  }

  lemma SamePortsNext(specs: map<string, Spec>, names: seq<string>, result: map<string, Allocation>, a: Allocation,
                      after: map<string, Allocation>)
    requires names != [] && NoDuplicates(names)
    requires IsDynamic(specs, names[0]) ==> names[0] in result && a.port == result[names[0]].port
    requires SamePorts(specs, names[1..], result[names[0] := a], after)
    ensures SamePorts(specs, names, result, after)
  {
    var n := names[0];
    assert names == [n] + names[1..];
    assert n !in names[1..];
  }

  // ----- When the ports stay distinct, exactly -----

  /** What `Resolve` leaves of the selected names, and what earlier rechecks keep. */
  ghost predicate FullyAllocated(specs: map<string, Spec>, current: map<string, Allocation>, selected: set<string>) {
    && Distinct(current)
    && forall n :: n in selected ==>
         HasMode(specs, n) &&
         (IsDynamic(specs, n) ==>
            n in current && current[n].port > 0 && (IsFixed(specs, n) ==> current[n].port == FixedPort(specs, n)))
  }

  /** Port `p` belongs to another name, or to a fixed one. */
  ghost predicate Elsewhere(specs: map<string, Spec>, current: map<string, Allocation>, names: seq<string>, p: int) {
    exists m :: m in current && current[m].port == p && (m !in names || IsFixed(specs, m))
  }

  /** Names that still have their own port, while `claimed` holds only ports of other names, stay. */
  lemma UntouchedStay(specs: map<string, Spec>, current: map<string, Allocation>, selected: set<string>,
                      ports: map<string, Allocation>, claimed: set<int>, names: seq<string>)
    requires FullyAllocated(specs, current, selected) && Elements(names) <= selected && NoDuplicates(names)
    requires forall n :: n in names && n in current ==> n in ports && ports[n] == current[n]
    requires forall p :: p in claimed ==> Elsewhere(specs, current, names, p)
    ensures AllStay(specs, ports, claimed, names)
  {
    forall n | n in names ensures Stays(specs, ports, claimed, n) {
      assert n in Elements(names);
      if IsDynamic(specs, n) {
        assert ports[n].port in claimed ==> Elsewhere(specs, current, names, ports[n].port);
      }
    }
    forall i, j | 0 <= i < j < |names| && IsDynamic(specs, names[i]) && IsDynamic(specs, names[j])
      ensures names[i] in ports && names[j] in ports && ports[names[i]].port != ports[names[j]].port
    {
      assert names[i] in Elements(names) && names[j] in Elements(names);
    }
  }

  /** The selected names in order: those before `d`, `d`, and the rest. */
  ghost predicate Around(selected: set<string>, pre: seq<string>, d: string, post: seq<string>) {
    && selected == Elements(pre) + {d} + Elements(post)
    && NoDuplicates(pre) && NoDuplicates(post) && d !in pre && d !in post
    && Elements(pre) !! Elements(post)
  }

  lemma PrefixStays(specs: map<string, Spec>, current: map<string, Allocation>, selected: set<string>, pre: seq<string>,
                    d: string, post: seq<string>)
    requires FullyAllocated(specs, current, selected) && Around(selected, pre, d, post)
    ensures AllStay(specs, current, OtherPorts(current, selected), pre)
  {
    forall p | p in OtherPorts(current, selected) ensures Elsewhere(specs, current, pre, p) {
      var m :| m in current && m !in selected && current[m].port > 0 && current[m].port == p;
      assert m in pre <==> m in Elements(pre);
    }
    UntouchedStay(specs, current, selected, current, OtherPorts(current, selected), pre);
  }

  /** What is claimed when the turn of `d` comes belongs to names that are not selected or come earlier. */
  lemma ClaimedBefore(specs: map<string, Spec>, current: map<string, Allocation>, selected: set<string>,
                      pre: seq<string>, d: string, post: seq<string>, p: int)
    requires Around(selected, pre, d, post)
    requires p in OtherPorts(current, selected) + PortsOf(specs, Elements(pre), current)
    ensures exists m :: m in current && current[m].port == p && m != d && m !in post
  {
    if p in OtherPorts(current, selected) {
      var m :| m in current && m !in selected && current[m].port > 0 && current[m].port == p;
      assert m !in Elements(post);
      assert m != d && m !in post;
    } else {
      var m :| m in Elements(pre) && m in current && IsDynamic(specs, m) && current[m].port == p;
      assert m !in Elements(post);
      assert m != d && m !in post;
    }
  }

  lemma SuffixStays(specs: map<string, Spec>, current: map<string, Allocation>, selected: set<string>, pre: seq<string>,
                    d: string, post: seq<string>, f: string, ports: map<string, Allocation>)
    requires FullyAllocated(specs, current, selected) && Around(selected, pre, d, post)
    requires f in post && IsFixed(specs, f)
    requires forall n :: n in post && n in current ==> n in ports && ports[n] == current[n]
    ensures AllStay(specs, ports,
        OtherPorts(current, selected) + PortsOf(specs, Elements(pre), current) + {FixedPort(specs, f)},
                    post)
  {
    var claimed := OtherPorts(current, selected) + PortsOf(specs, Elements(pre), current);
    assert f in Elements(post);
    forall p | p in claimed + {FixedPort(specs, f)} ensures Elsewhere(specs, current, post, p) {
      if p in claimed {
        ClaimedBefore(specs, current, selected, pre, d, post, p);
        var m :| m in current && current[m].port == p && m != d && m !in post;
      } else {
        assert f in current && current[f].port == p;
      }
    }
    UntouchedStay(specs, current, selected, ports, claimed + {FixedPort(specs, f)}, post);
  }

  /** The clock after the turn of `d` in a world that offers it nothing but port `p`. */
  function TurnEnds(specs: map<string, Spec>, current: map<string, Allocation>, d: string, p: int, start: Clock,
                    claimed: set<int>, attempts: nat): Clock
    requires HasMode(specs, d) && Reaches(ModeOf(specs[d]).value, p)
  {
    TakeTurn(Collision(ModeOf(specs[d]).value, p), start, specs, AllocationOf(current, d), d, claimed, attempts).1
  }

  /** The world that is calm before and after the turn of `d`, and offers it nothing but port `p`. */
  function CollisionWorld(specs: map<string, Spec>, current: map<string, Allocation>, d: string, p: int, start: Clock,
                          claimed: set<int>, attempts: nat): World
    requires HasMode(specs, d) && Reaches(ModeOf(specs[d]).value, p)
  {
    CalmExcept(Collision(ModeOf(specs[d]).value, p), start.probes,
               TurnEnds(specs, current, d, p, start, claimed, attempts).probes)
  }

  lemma TurnMovesOnto(specs: map<string, Spec>, current: map<string, Allocation>, d: string, p: int, start: Clock,
                      claimed: set<int>, attempts: nat)
    requires HasMode(specs, d) && Reaches(ModeOf(specs[d]).value, p) && attempts > 0
    requires AllocationOf(current, d).port != p && p !in claimed
    ensures TakeTurn(CollisionWorld(specs, current, d, p, start, claimed, attempts), start, specs,
                     AllocationOf(current, d), d, claimed, attempts) ==
            (Turned(AllocationOf(current, d).(port := p, discovered := false)),
             TurnEnds(specs, current, d, p, start, claimed, attempts))
    ensures start.probes <= TurnEnds(specs, current, d, p, start, claimed, attempts).probes
  {
    var v := Collision(ModeOf(specs[d]).value, p);
    var w := CollisionWorld(specs, current, d, p, start, claimed, attempts);
    MovesOnto(specs, AllocationOf(current, d), d, p, start, claimed, attempts);
    TurnIsRechecked(v, start, specs, AllocationOf(current, d), d, claimed, attempts);
    TurnAgrees(w, v, start, specs, AllocationOf(current, d), d, claimed, attempts);
  }

  predicate BothOn(r: Result, d: string, f: string, p: int) {
    r.Allocated? && d in r.ports && f in r.ports && r.ports[d].port == r.ports[f].port == p > 0
  }

  lemma OneTurn(w: World, c: Clock, end: Clock, specs: map<string, Spec>, d: string, post: seq<string>,
                ports: map<string, Allocation>, claimed: set<int>, a: Allocation, attempts: nat)
    requires IsDynamic(specs, d)
    requires TakeTurn(w, c, specs, AllocationOf(ports, d), d, claimed, attempts) == (Turned(a), end)
    ensures ReallocateNames(w, c, specs, [d] + post, ports, claimed, attempts) ==
            ReallocateNames(w, end, specs, post, ports[d := a], claimed + {a.port}, attempts)
  {
    assert ([d] + post)[0] == d && ([d] + post)[1..] == post;
  }

  /** The fixed name keeps its port although `d` was just moved onto it. */
  lemma SuffixCollides(w: World, end: Clock, specs: map<string, Spec>, current: map<string, Allocation>,
                       selected: set<string>, pre: seq<string>, d: string, post: seq<string>, f: string,
                       ports: map<string, Allocation>, attempts: nat)
    requires FullyAllocated(specs, current, selected) && Around(selected, pre, d, post)
    requires f in post && IsFixed(specs, f) && Calm(w, end.probes, end.probes + DynamicCount(specs, post))
    requires forall n :: n in post && n in current ==> n in ports && ports[n] == current[n]
    requires d in ports && ports[d].port == FixedPort(specs, f)
    ensures var claimed := OtherPorts(current, selected) + PortsOf(specs, Elements(pre), current)
        + {FixedPort(specs, f)};
            var r := ReallocateNames(w, end, specs, post, ports, claimed, attempts).0;
            BothOn(r, d, f, FixedPort(specs, f))
  {
    var claimed := OtherPorts(current, selected) + PortsOf(specs, Elements(pre), current) + {FixedPort(specs, f)};
    assert f in Elements(post) && f in current && f in ports;
    SuffixStays(specs, current, selected, pre, d, post, f, ports);
    var after, ports', claim := CalmStretch(w, end, specs, post, [], ports, claimed, attempts);
    assert post + [] == post;
  }

  lemma FixedIsUnclaimed(specs: map<string, Spec>, current: map<string, Allocation>, selected: set<string>,
                         pre: seq<string>, d: string, post: seq<string>, f: string)
    requires FullyAllocated(specs, current, selected) && Around(selected, pre, d, post) && f in post
        && IsFixed(specs, f)
    ensures FixedPort(specs, f) !in OtherPorts(current, selected) + PortsOf(specs, Elements(pre), current)
    ensures AllocationOf(current, d).port != FixedPort(specs, f)
  {
    var p := FixedPort(specs, f);
    assert f in Elements(post) && f in current && current[f].port == p;
    if p in OtherPorts(current, selected) + PortsOf(specs, Elements(pre), current) {
      ClaimedBefore(specs, current, selected, pre, d, post, p);
    }
  }

  lemma Collides(specs: map<string, Spec>, current: map<string, Allocation>, selected: set<string>, pre: seq<string>,
                 d: string, post: seq<string>, f: string, c: Clock, attempts: nat)
    returns (w: World)
    requires FullyAllocated(specs, current, selected) && Around(selected, pre, d, post) && attempts > 0
    requires f in post && IsFixed(specs, f) && HasMode(specs, d) && Reaches(ModeOf(specs[d]).value, FixedPort(specs, f))
    ensures var r := ReallocateNames(w, c, specs, pre + ([d] + post), current, OtherPorts(current, selected),
        attempts).0;
            BothOn(r, d, f, FixedPort(specs, f))
  {
    var reserved, p := OtherPorts(current, selected), FixedPort(specs, f);
    var claimed := reserved + PortsOf(specs, Elements(pre), current);
    var start := c.(probes := c.probes + DynamicCount(specs, pre));
    w := CollisionWorld(specs, current, d, p, start, claimed, attempts);
    var end := TurnEnds(specs, current, d, p, start, claimed, attempts);
    var a := AllocationOf(current, d).(port := p, discovered := false);
    assert AllocationOf(current, d).port != p && p !in claimed by {
      FixedIsUnclaimed(specs, current, selected, pre, d, post, f);
    }
    TurnMovesOnto(specs, current, d, p, start, claimed, attempts);
    assert AllStay(specs, current, reserved, pre) by {
      PrefixStays(specs, current, selected, pre, d, post);
    }
    var after, ports, claim := CalmStretch(w, c, specs, pre, [d] + post, current, reserved, attempts);
    KeepsSuffix(specs, current, pre, d, post, ports, a);
    OneTurn(w, start, end, specs, d, post, ports, claimed, a, attempts);
    SuffixCollides(w, end, specs, current, selected, pre, d, post, f, ports[d := a], attempts);
  }

  lemma KeepsSuffix(specs: map<string, Spec>, current: map<string, Allocation>, pre: seq<string>, d: string,
                    post: seq<string>, ports: map<string, Allocation>, a: Allocation)
    requires SamePorts(specs, pre, current, ports) && d !in post && Elements(pre) !! Elements(post) && d !in pre
    ensures forall n :: n in post && n in current ==> n in ports && ports[d := a][n] == current[n]
    ensures AllocationOf(ports, d) == AllocationOf(current, d)
  {
    forall n | n in post && n in current ensures n in ports && ports[d := a][n] == current[n] {
      assert n in Elements(post);
      assert n !in Elements(pre);
      assert n !in pre;
    }
  }

  /** A recheck that succeeds leaves the ports distinct. */
  ghost predicate StaysDistinct(w: World, c: Clock, specs: map<string, Spec>, current: map<string, Allocation>,
                                names: seq<string>, attempts: nat)
  {
    var r := ReallocateNames(w, c, specs, SortStrings(names), current, OtherPorts(current, Elements(names)),
        attempts).0;
    r.Allocated? ==> Distinct(r.ports)
  }

  lemma SplitAround(selected: set<string>, names: seq<string>, i: nat)
    requires Splits(selected, {}, names) && i < |names|
    ensures Around(selected, names[..i], names[i], names[i + 1..])
    ensures names == names[..i] + ([names[i]] + names[i + 1..])
  {
    var pre, d, post := names[..i], names[i], names[i + 1..];
    forall m, n | 0 <= m < n < |names| ensures names[m] != names[n] {
      BeforeIrreflexive(names[m]);
    }
    assert names == pre + ([d] + post);
    forall x ensures x in selected <==> x in Elements(pre) + {d} + Elements(post) {
      assert x in Elements(names) <==> x in names;
    }
  }

  lemma CollisionFound(specs: map<string, Spec>, current: map<string, Allocation>, names: seq<string>, c: Clock,
                       d: string, f: string)
    returns (w: World)
    requires NoDuplicates(names) && FullyAllocated(specs, current, Elements(names))
    requires d in names && f in names && Before(d, f) && HasMode(specs, d) && IsFixed(specs, f)
    requires Reaches(ModeOf(specs[d]).value, FixedPort(specs, f))
    ensures !StaysDistinct(w, c, specs, current, names, 1)
  {
    var i, j := OrderOf(names, d, f);
    var selected, sorted := Elements(names), SortStrings(names);
    SplitAround(selected, sorted, i);
    assert sorted[i + 1..][j - i - 1] == f;
    w := Collides(specs, current, selected, sorted[..i], d, sorted[i + 1..], f, c, 1);
    BeforeIrreflexive(d);
  }

  lemma OrderOf(names: seq<string>, d: string, f: string) returns (i: nat, j: nat)
    requires NoDuplicates(names) && d in names && f in names && Before(d, f)
    ensures var sorted := SortStrings(names);
            i < j < |sorted| && sorted[i] == d && sorted[j] == f && Splits(Elements(names), {}, sorted)
  {
    var sorted := SortStrings(names);
    SortSplits(names);
    SortKeepsMembers(names, d);
    SortKeepsMembers(names, f);
    i :| 0 <= i < |sorted| && sorted[i] == d;
    j :| 0 <= j < |sorted| && sorted[j] == f;
    BeforeIrreflexive(d);
    if Before(f, d) {
      BeforeTransitive(d, f, d);
    }
  }

  /**
    Rechecking keeps the ports distinct in every world exactly when no selected
    dynamic name can be moved onto the port of a fixed name that comes later.
  */
  lemma DistinctExactlyWhenOutOfReach(specs: map<string, Spec>, current: map<string, Allocation>, names: seq<string>,
                                      c: Clock)
    requires NoDuplicates(names) && FullyAllocated(specs, current, Elements(names))
    ensures OutOfReach(specs, Elements(names)) <==>
              forall w: World, attempts: nat :: StaysDistinct(w, c, specs, current, names, attempts)
  {
    var selected := Elements(names);
    if OutOfReach(specs, selected) {
      forall w: World, attempts: nat ensures StaysDistinct(w, c, specs, current, names, attempts) {
        ReallocateMeans(w, c, specs, current, names, attempts);
        var (r, after) := ReallocateNames(w, c, specs, SortStrings(names), current, OtherPorts(current, selected),
            attempts);
        if r.Allocated? {
          RecheckKeepsDistinct(w, c.probes, after.probes, specs, current, selected, r.ports);
        }
      }
    } else {
      var d, f :| d in selected && f in selected && Before(d, f) && HasMode(specs, d) && IsFixed(specs, f) &&
                  Reaches(ModeOf(specs[d]).value, FixedPort(specs, f));
      var w := CollisionFound(specs, current, names, c, d, f);
      assert !StaysDistinct(w, c, specs, current, names, 1);
    }
  }
}
