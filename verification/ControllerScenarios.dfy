/** Runs from an empty controller that end on the failing side of each edge. */
module ControllerScenarios {
  import opened RouteDomain
  import opened RouteStore
  import opened Reconcile
  import opened Claims
  import opened ClaimOrders
  import opened Leases
  import opened ControllerState
  import opened ControllerInvariant
  import opened ControllerRefresh
  import opened ControllerRuns
  import opened ControllerEdges

  // ----- Reachable states -----

  /** A run of calls within the contract ends in `s`, with no call after `now`. */
  ghost predicate Reachable(names: Naming, s: Ctl, now: int) {
    exists calls, states :: EndsIn(names, calls, states, s, now)
  }

  ghost predicate EndsIn(names: Naming, calls: seq<Call>, states: seq<Ctl>, s: Ctl, now: int) {
    IsLeaseRun(names, calls, states) && states[|calls|] == s && forall i :: 0 <= i < |calls| ==> calls[i].now <= now
  }

  lemma FreshReachable(names: Naming, now: int)
    ensures Reachable(names, Fresh(), now)
  {
    assert EndsIn(names, [], [Fresh()], Fresh(), now);
  }

  lemma ReachMore(names: Naming, s: Ctl, now: int, c: Call, s': Ctl)
    requires Reachable(names, s, now) && now <= c.now && c.clock != 0
    requires Admissible(s, c.op, c.now) && CallRel(names, s, c, s')
    ensures Reachable(names, s', c.now)
  {
    var calls, states :| EndsIn(names, calls, states, s, now);
    var more, after := calls + [c], states + [s'];
    forall i | 0 <= i < |more|
      ensures StepAt(names, more, after, i)
    {
      if i < |calls| {
        assert StepAt(names, calls, states, i);
      }
    }
    assert EndsIn(names, more, after, s', c.now);
  }

  lemma ReachableGood(names: Naming, s: Ctl, now: int)
    requires LowerNames(names) && Reachable(names, s, now)
    ensures Good(names, s, now)
  {
    var calls, states :| EndsIn(names, calls, states, s, now);
    WholeRunInvariant(names, calls, states, |calls|, now);
  }

  // ----- What can be applied -----

  predicate NothingFound(routes: Routes) {
    forall id :: id in routes ==> IsManual(routes, id)
  }

  lemma ApplyExists(names: Naming, s: Ctl, now: int, clock: int, first: string) returns (s': Ctl, manual: Routes)
    requires LowerNames(names) && Applicable(s.tables.claims, names, now, s.routes) && first in s.tables.claims
    ensures ApplyRel(names, s, now, clock, true, s', manual, Applied)
  {
    var order := OrderStartingWith(s.tables.claims, first);
    OrderFolds(s.tables.claims, names, now, order);
    manual := Fold(names, now, NOTHING_YET, s.tables.claims, order).acc.manual;
    s' := Installed(s, manual, clock);
  }

  lemma Applies(names: Naming, s: Ctl, edited: Tables, now: int, clock: int, first: string) returns (s': Ctl)
    requires LowerNames(names) && Applicable(edited.claims, names, now, s.routes) && first in edited.claims
    ensures Transact(names, s, edited, now, clock, true, s', Applied)
  {
    var manual;
    s', manual := ApplyExists(names, s.(tables := edited), now, clock, first);
    assert TransactVia(names, s, edited, now, clock, true, s', Applied, s', manual);
  }

  lemma AppliedAt(names: Naming, s: Ctl, edited: Tables, now: int, clock: int, s': Ctl, id: RouteID)
    requires Transact(names, s, edited, now, clock, true, s', Applied)
    ensures IsManual(s'.routes, id) <==> WantedID(edited.claims, now, id)
    ensures IsFound(s'.routes, id) ==> IsFound(s.routes, id)
  {
    var mid, manual :| TransactVia(names, s, edited, now, clock, true, s', Applied, mid, manual);
    WantedNotFound(edited.claims, names, now, manual);
    WithManualAt(s.routes, manual, clock, id);
    WantedKeys(edited.claims, names, now, manual, id);
  }

  lemma AppliedReady(names: Naming, s: Ctl, edited: Tables, now: int, clock: int, s': Ctl)
    requires Transact(names, s, edited, now, clock, true, s', Applied)
    ensures s'.tables == edited && Ready(s')
  {
  }

  lemma AppliedState(names: Naming, s: Ctl, edited: Tables, now: int, clock: int, s': Ctl)
    requires Transact(names, s, edited, now, clock, true, s', Applied)
    ensures s'.tables == edited && Ready(s')
    ensures forall id :: IsManual(s'.routes, id) <==> WantedID(edited.claims, now, id)
    ensures NothingFound(s.routes) ==> NothingFound(s'.routes)
  {
    AppliedReady(names, s, edited, now, clock, s');
    forall id
      ensures IsManual(s'.routes, id) <==> WantedID(edited.claims, now, id)
      ensures IsFound(s'.routes, id) ==> IsFound(s.routes, id)
    {
      AppliedAt(names, s, edited, now, clock, s', id);
    }
  }

  /** A request for the plain hostname of `id`, or for a subdomain of its own. */
  function Ask(id: RouteID, port: int, subdomain: string): Request {
    Request(id.project, id.branch, port, subdomain)
  }

  function Create(clientID: string, leaseID: string, req: Request, ttl: int, now: int): Call {
    Call(CreateLease(clientID, req, ttl, leaseID), now, 1, true)
  }

  /** A new client's lease that fits is created and published. */
  lemma Creates(names: Naming, s: Ctl, before: int, clientID: string, leaseID: string, req: Request, ttl: int, now: int)
    returns (s': Ctl)
    requires LowerNames(names) && Reachable(names, s, before) && before <= now && NothingFound(s.routes)
    requires clientID != "" && clientID !in s.tables.clients && NoColon(leaseID) && leaseID !in s.tables.claims
    requires ValidID(req.ID()) && ttl > 0
    requires Compatible(WithClient(s.tables, leaseID, clientID, req, now, ttl).claims, names, now)
    ensures Reachable(names, s', now) && Good(names, s', now) && Ready(s') && NothingFound(s'.routes)
    ensures s'.tables == WithClient(s.tables, leaseID, clientID, req, now, ttl)
    ensures forall id :: IsManual(s'.routes, id) <==> WantedID(s'.tables.claims, now, id)
    ensures OpRel(names, s, CreateLease(clientID, req, ttl, leaseID), now, 1, true, s', true)
  {
    var edited := WithClient(s.tables, leaseID, clientID, req, now, ttl);
    s' := Applies(names, s, edited, now, 1, leaseID);
    AppliedState(names, s, edited, now, 1, s');
    assert TransactOK(names, s, edited, now, 1, true, s', true);
    var c := Create(clientID, leaseID, req, ttl, now);
    assert OpRel(names, s, c.op, c.now, c.clock, c.pub, s', true);
    ReachMore(names, s, before, c, s');
    ReachableGood(names, s', now);
  }

  /** The daemon's route is stored and published. */
  lemma SetsSystem(names: Naming, req: Request) returns (s: Ctl)
    requires LowerNames(names) && ValidID(req.ID()) && names(req.project, req.branch, req.subdomain).Host?
    ensures Reachable(names, s, 1) && Good(names, s, 1) && NothingFound(s.routes) && IsManual(s.routes, req.ID())
    ensures s.tables == WithSystem(Fresh().tables, req)
  {
    var edited, k := WithSystem(Fresh().tables, req), SystemKey(req.ID());
    s := Applies(names, Fresh(), edited, 1, 1, k);
    AppliedState(names, Fresh(), edited, 1, 1, s);
    assert Holds(edited.claims, 1, k, req.ID());
    assert OpRel(names, Fresh(), SetSystemRoute(req), 1, 1, true, s, true);
    FreshReachable(names, 1);
    ReachMore(names, Fresh(), 1, Call(SetSystemRoute(req), 1, 1, true), s);
    ReachableGood(names, s, 1);
  }

  lemma LoneLive(claims: ClaimTable, names: Naming, now: int, k: string)
    requires k in claims && HostOf(names, claims[k]).Host?
    requires forall j :: j in claims && j != k ==> !Live(claims[j], now)
    ensures Compatible(claims, names, now)
  {
  }

  lemma TwoLive(claims: ClaimTable, names: Naming, now: int)
    requires claims.Keys == {"L1", "L2"} && claims["L1"].ID() != claims["L2"].ID()
    requires HostOf(names, claims["L1"]).Host? && HostOf(names, claims["L2"]).Host?
    requires HostOf(names, claims["L1"]) != HostOf(names, claims["L2"])
    ensures Compatible(claims, names, now)
  {
  }

  /** A route whose only unexpired claim is `k` can be refreshed. */
  lemma RefreshesAlone(names: Naming, s: Ctl, k: string, now: int) returns (s': Ctl)
    requires k in s.tables.claims && Live(s.tables.claims[k], now) && HostOf(names, s.tables.claims[k]).Host?
    requires forall j :: Holds(s.tables.claims, now, j, s.tables.claims[k].ID()) ==> j == k
    ensures RefreshRel(names, s, s.tables.claims[k].ID(), now, 1, s', true)
    ensures IsManual(s'.routes, s.tables.claims[k].ID())
  {
    var c := s.tables.claims[k];
    var id := c.ID();
    var r := Route(id.project, id.branch, c.port, "", HostOf(names, c).name,
                   if id in s.routes then s.routes[id].createdAt else 1, c.expires, Manual, "");
    s' := s.(routes := s.routes[id := r]);
    assert Holds(s.tables.claims, now, k, id);
    assert RefreshVia(names, s, id, now, 1, s', r);
  }

  /** One lease, created at time 1. */
  lemma Leased(names: Naming, a: RouteID, subdomain: string, ttl: int) returns (s: Ctl)
    requires LowerNames(names) && ValidID(a) && names(a.project, a.branch, subdomain).Host? && ttl > 0
    ensures Reachable(names, s, 1) && Good(names, s, 1) && Ready(s) && NothingFound(s.routes) && IsManual(s.routes, a)
    ensures s.tables == WithClient(Fresh().tables, "L1", "c1", Ask(a, 1, subdomain), 1, ttl)
    ensures Holds(s.tables.claims, 1, "L1", a)
  {
    FreshReachable(names, 1);
    LoneLive(WithClient(Fresh().tables, "L1", "c1", Ask(a, 1, subdomain), 1, ttl).claims, names, 1, "L1");
    s := Creates(names, Fresh(), 1, "c1", "L1", Ask(a, 1, subdomain), ttl, 1);
    assert Holds(s.tables.claims, 1, "L1", a);
  }

  // ----- Two routes with one hostname -----

  predicate SharePlainHost(names: Naming, a: RouteID, b: RouteID) {
    && a != b && ValidID(a) && ValidID(b)
    && LegacyHost(names, a).Host? && LegacyHost(names, a) == LegacyHost(names, b)
  }

  /**
    Under the repository's rule there are such routes, a third one with a
    hostname of its own, and the subdomain that the lemmas below use, for every
    base domain that leaves room for a name.
  */
  lemma RouteNamesShare(baseDomain: string)
    requires |TrimDots(baseDomain)| <= 247
    ensures LowerNames(RouteNames(baseDomain))
    ensures SharePlainHost(RouteNames(baseDomain), RouteID("a", "b-c"), RouteID("a-b", "c"))
    ensures RouteNames(baseDomain)("a", "b-c", "x").Host?
    ensures RouteNames(baseDomain)("a", "b-c", "x") != LegacyHost(RouteNames(baseDomain), RouteID("a", "b-c"))
    ensures LegacyHost(RouteNames(baseDomain), RouteID("a", "b")).Host?
    ensures LegacyHost(RouteNames(baseDomain), RouteID("a", "b-c"))
         != LegacyHost(RouteNames(baseDomain), RouteID("a", "b"))
  {
    DomainIsNotInjective(baseDomain);
    RouteNamesAreLower(baseDomain);
    assert |Lower(TrimDots(baseDomain))| == |TrimDots(baseDomain)| && |Lower("x")| == 1;
    assert |FirstLabel("a", "b")| == 3;
  }

  lemma TakenBy(names: Naming, s: Ctl, k: string, b: RouteID, a: RouteID, now: int)
    requires Good(names, s, now) && Holds(s.tables.claims, now, k, b) && a != b
    ensures HostElsewhere(s.routes, a, HostOf(names, s.tables.claims[k]))
  {
    assert Served(s.tables.claims, names, now, s.routes);
  }

  function LateClaims(a: RouteID, b: RouteID, port: int): ClaimTable {
    map["L1" := Claim("L1", "c1", a.project, a.branch, 1, "", 1, 2, false, false),
        "L2" := Claim("L2", "c2", b.project, b.branch, port, "", 9, 12, false, false)]
  }

  lemma OnlyLater(a: RouteID, b: RouteID, port: int)
    ensures forall id :: WantedID(LateClaims(a, b, port), 3, id) <==> id == b
  {
    assert Holds(LateClaims(a, b, port), 3, "L2", b);
  }

  /** A lease of `a` has lapsed when a lease of `b` takes the hostname. */
  lemma Overtaken(names: Naming, a: RouteID, b: RouteID, port: int) returns (s: Ctl)
    requires LowerNames(names) && ValidID(a) && ValidID(b)
    requires LegacyHost(names, a).Host? && LegacyHost(names, b).Host?
    ensures Reachable(names, s, 3) && Good(names, s, 3) && Ready(s) && NothingFound(s.routes)
    ensures s.tables.claims == LateClaims(a, b, port)
    ensures s.tables.clients == map["c1" := "L1", "c2" := "L2"] && s.tables.legacyIDs == map[]
    ensures forall id :: IsManual(s.routes, id) <==> id == b
  {
    var s1 := Leased(names, a, "", 1);
    LoneLive(WithClient(s1.tables, "L2", "c2", Ask(b, port, ""), 3, 9).claims, names, 3, "L2");
    s := Creates(names, s1, 1, "c2", "L2", Ask(b, port, ""), 9, 3);
    OnlyLater(a, b, port);
  }

  /** The late heartbeat of the first lease then stores a second route under the hostname, unpublished. */
  lemma ExpiredRenewalClashes(names: Naming, a: RouteID, b: RouteID) returns (s: Ctl, s': Ctl)
    requires LowerNames(names) && SharePlainHost(names, a, b)
    ensures Reachable(names, s, 3) && OpRel(names, s, HeartbeatLease("L1", 9), 4, 1, true, s', true)
    ensures !HostsDistinct(s'.routes) && Ready(s') && !BoardInv(s')
  {
    s := Overtaken(names, a, b, 2);
    var t := WithRenewal(s.tables, "L1", 4, 9);
    s' := RefreshesAlone(names, s.(tables := t), "L1", 4);
    GoodLater(names, s, 3, 4);
    TakenBy(names, s, "L2", b, a, 4);
    ExpiredRenewal(names, s, "L1", 9, 4, 1, s', true);
    ExpiredRenewalIsUnpublished(names, s, "L1", 9, 4, 1, s', true);
  }

  /** When both leases are for one route, with different ports, the late repeated create fails and blocks everything. */
  lemma RepeatedCreateBlocks(names: Naming, a: RouteID) returns (s: Ctl, s': Ctl)
    requires LowerNames(names) && ValidID(a) && LegacyHost(names, a).Host?
    ensures Reachable(names, s, 3) && OpRel(names, s, CreateLease("c1", Ask(a, 1, ""), 9, "L3"), 4, 1, true, s', false)
    ensures s'.tables != s.tables && Applicable(s.tables.claims, names, 4, s.routes)
    ensures forall later :: later < 12 ==> !Applicable(s'.tables.claims, names, later, s'.routes)
  {
    s := Overtaken(names, a, a, 2);
    s' := s.(tables := WithRenewal(s.tables, "L1", 4, 9));
    var claims := s'.tables.claims;
    assert Holds(claims, 4, "L1", a) && Holds(claims, 4, "L2", a);
    assert RenewRel(names, s, "L1", 9, 4, 1, s', false);
    assert SameRequest(ClaimAt(s.tables, "L1"), Ask(a, 1, ""));
    forall later | later < 12
      ensures !Applicable(claims, names, later, s'.routes)
    {
      ClashBlocks(claims, names, later, "L1", claims["L1"], "L2", claims["L2"]);
    }
    LoneLive(s.tables.claims, names, 4, "L2");
  }

  // ----- Legacy calls on leased routes -----

  /** A legacy heartbeat on a live lease under a subdomain fails and leaves incompatible claims behind. */
  lemma AdoptionFails(names: Naming, a: RouteID) returns (s: Ctl, s': Ctl)
    requires LowerNames(names) && ValidID(a)
    requires names(a.project, a.branch, "x").Host? && names(a.project, a.branch, "x") != LegacyHost(names, a)
    ensures Reachable(names, s, 1) && OpRel(names, s, HeartbeatLegacy(a, 0, 5), 2, 1, true, s', false)
    ensures !Compatible(s'.tables.claims, names, 2)
  {
    s := Leased(names, a, "x", 5);
    s' := s.(tables := Adopted(s, a, 5, 2));
    GoodLater(names, s, 1, 2);
    AdoptionRecasts(names, s, a, 5, 2);
    assert Holds(s'.tables.claims, 2, "L1", a) && Holds(s'.tables.claims, 2, LegacyKey(a), a);
    assert AdoptRel(names, s, a, 5, 2, 1, s', false);
    FailedAdoption(names, s, a, 5, 2, 1, s');
  }

  /** A route none of whose claims is unexpired can be adopted. */
  lemma AdoptsAlone(names: Naming, s: Ctl, a: RouteID, ttl: int, now: int) returns (s': Ctl)
    requires Index(s.tables) && ValidID(a) && a !in s.tables.legacyIDs && IsManual(s.routes, a) && ttl > 0
    requires !WantedID(s.tables.claims, now, a) && LegacyHost(names, a).Host?
    ensures AdoptRel(names, s, a, ttl, now, 1, s', true)
  {
    var t := Adopted(s, a, ttl, now);
    AdoptionRecasts(names, s, a, ttl, now);
    forall j | Holds(t.claims, now, j, a)
      ensures j == LegacyKey(a)
    {
      assert !Holds(s.tables.claims, now, j, a);
    }
    s' := RefreshesAlone(names, s.(tables := t), LegacyKey(a), now);
  }

  /** A lease of `a` under a subdomain, and a longer one of `b` under its plain hostname. */
  lemma BothLeased(names: Naming, a: RouteID, b: RouteID) returns (s: Ctl)
    requires LowerNames(names) && SharePlainHost(names, a, b)
    requires names(a.project, a.branch, "x").Host? && names(a.project, a.branch, "x") != LegacyHost(names, a)
    ensures Reachable(names, s, 2) && Good(names, s, 2) && Ready(s) && IsManual(s.routes, a)
    ensures s.tables.claims == map["L1" := Claim("L1", "c1", a.project, a.branch, 1, "x", 5, 6, false, false),
                                   "L2" := Claim("L2", "c2", b.project, b.branch, 2, "", 9, 11, false, false)]
    ensures s.tables.legacyIDs == map[] && Host(s.routes[a].domain) == names(a.project, a.branch, "x")
  {
    var s1 := Leased(names, a, "x", 5);
    TwoLive(WithClient(s1.tables, "L2", "c2", Ask(b, 2, ""), 2, 9).claims, names, 2);
    s := Creates(names, s1, 1, "c2", "L2", Ask(b, 2, ""), 9, 2);
    assert Holds(s.tables.claims, 2, "L1", a);
  }

  /** A legacy heartbeat on a lapsed lease under a subdomain succeeds and takes another route's hostname. */
  lemma AdoptionClashes(names: Naming, a: RouteID, b: RouteID) returns (s: Ctl, s': Ctl)
    requires LowerNames(names) && SharePlainHost(names, a, b)
    requires names(a.project, a.branch, "x").Host? && names(a.project, a.branch, "x") != LegacyHost(names, a)
    ensures Reachable(names, s, 2) && OpRel(names, s, HeartbeatLegacy(a, 0, 5), 7, 1, true, s', true)
    ensures !HostsDistinct(s'.routes) && Ready(s') && !BoardInv(s')
  {
    s := BothLeased(names, a, b);
    GoodLater(names, s, 2, 7);
    TakenBy(names, s, "L2", b, a, 7);
    s' := AdoptsAlone(names, s, a, 5, 7);
    AdoptionIsExact(names, s, a, 5, 7, 1, s');
    AdoptionIsUnpublished(names, s, a, 5, 7, 1, s', true);
  }

  /** A legacy delete of a live lease's route leaves the lease unserved, and says so to nobody. */
  lemma DirectDeleteUnserves(names: Naming, a: RouteID) returns (s: Ctl, s': Ctl)
    requires LowerNames(names) && ValidID(a) && LegacyHost(names, a).Host?
    ensures Reachable(names, s, 1) && OpRel(names, s, DeleteLegacy(a), 1, 1, true, s', true)
    ensures LiveClaim(s'.tables, "L1", 1) && !Served(s'.tables.claims, names, 1, s'.routes)
  {
    s := Leased(names, a, "", 5);
    s' := DirectDelete(s, a, true);
    DirectDeleteServes(names, s, a, 1);
  }

  // ----- Lease calls on the daemon's routes -----

  /** One lease heartbeat on the daemon's claim, and the next lease to be created drops the daemon's route. */
  lemma SystemHeartbeatLapses(names: Naming, a: RouteID, b: RouteID) returns (s: Ctl, mid: Ctl, s': Ctl)
    requires LowerNames(names) && ValidID(a) && ValidID(b) && a != b
    requires LegacyHost(names, a).Host? && LegacyHost(names, b).Host?
    ensures Reachable(names, s, 1) && IsManual(s.routes, a)
    ensures OpRel(names, s, HeartbeatLease(SystemKey(a), 1), 2, 1, true, mid, true)
    ensures OpRel(names, mid, CreateLease("c1", Ask(b, 2, ""), 9, "L1"), 3, 1, true, s', true)
    ensures SystemKey(a) in s'.tables.claims && !IsManual(s'.routes, a)
  {
    var k := SystemKey(a);
    s := SetsSystem(names, Ask(a, 1, ""));
    var t := WithRenewal(s.tables, k, 2, 1);
    mid := RefreshesAlone(names, s.(tables := t), k, 2);
    KeysDistinct(a, a);
    var edited := WithClient(mid.tables, "L1", "c1", Ask(b, 2, ""), 3, 9);
    LoneLive(edited.claims, names, 3, "L1");
    assert NothingFound(mid.routes);
    s' := Applies(names, mid, edited, 3, 1, "L1");
    AppliedState(names, mid, edited, 3, 1, s');
  }

  /** A lease delete of a system claim beside another claim can succeed. */
  lemma SystemDeletes(names: Naming, s: Ctl, k: string, now: int, first: string) returns (s': Ctl)
    requires Good(names, s, now) && LowerNames(names) && k in s.tables.claims && s.tables.claims[k].system
    requires first in s.tables.claims && first != k
    ensures OpRel(names, s, DeleteLease(k), now, 1, true, s', true)
  {
    var gone := WithoutClient(s.tables, k);
    assert ClaimFiled(s.tables, k);
    RemovalIsApplicable(names, s, now, gone.claims);
    var manual;
    s', manual := ApplyExists(names, s.(tables := gone), now, 1, first);
    assert SystemDelete(names, s, k, now, 1, true, s', true, s', manual, Applied);
  }

  /** One successful lease delete of the daemon's claim drops the daemon's route. */
  lemma SystemDeleteDropsRoute(names: Naming, a: RouteID, b: RouteID) returns (s: Ctl, s': Ctl)
    requires LowerNames(names) && ValidID(a) && ValidID(b) && a != b
    requires LegacyHost(names, a).Host? && LegacyHost(names, b).Host? && LegacyHost(names, a) != LegacyHost(names, b)
    ensures Reachable(names, s, 2) && IsManual(s.routes, a)
    ensures OpRel(names, s, DeleteLease(SystemKey(a)), 2, 1, true, s', true) && !IsManual(s'.routes, a)
  {
    s := BesideSystem(names, a, b);
    s' := SystemDeletes(names, s, SystemKey(a), 2, "L1");
    SystemDeleteDrops(names, s, SystemKey(a), 2, 1, true, s', true);
  }

  /** The daemon's route of `a` and a client's lease of `b`. */
  lemma BesideSystem(names: Naming, a: RouteID, b: RouteID) returns (s: Ctl)
    requires LowerNames(names) && ValidID(a) && ValidID(b) && a != b
    requires LegacyHost(names, a).Host? && LegacyHost(names, b).Host? && LegacyHost(names, a) != LegacyHost(names, b)
    ensures Reachable(names, s, 2) && Good(names, s, 2) && IsManual(s.routes, a) && IsManual(s.routes, b)
    ensures s.tables == WithClient(WithSystem(Fresh().tables, Ask(a, 1, "")), "L1", "c1", Ask(b, 2, ""), 2, 9)
    ensures "L1" != SystemKey(a)
  {
    var s1 := SetsSystem(names, Ask(a, 1, ""));
    KeysDistinct(a, a);
    s := Creates(names, s1, 1, "c1", "L1", Ask(b, 2, ""), 9, 2);
    assert Holds(s.tables.claims, 2, SystemKey(a), a) && Holds(s.tables.claims, 2, "L1", b);
  }

  /** A lease delete of the daemon's claim whose publication fails breaks the client index. */
  lemma FailedSystemDeleteBreaksIndex(names: Naming, a: RouteID) returns (s: Ctl, s': Ctl)
    requires LowerNames(names) && ValidID(a) && LegacyHost(names, a).Host?
    ensures Reachable(names, s, 1) && OpRel(names, s, DeleteLease(SystemKey(a)), 2, 1, false, s', false)
    ensures Index(s.tables) && !Index(s'.tables)
  {
    var k := SystemKey(a);
    s := SetsSystem(names, Ask(a, 1, ""));
    var gone := WithoutClient(s.tables, k);
    assert gone.claims == map[];
    var mid := Withdrawn(s.(tables := gone), map[]);
    assert ApplyRel(names, s.(tables := gone), 2, 1, false, mid, map[], Unpublished);
    s' := mid.(tables := s.tables.(clients := s.tables.clients["" := k]));
    assert SystemDelete(names, s, k, 2, 1, false, s', false, mid, map[], Unpublished);
    FailedSystemDelete(names, s, k, 2, 1, false, s');
  }

  // ----- A client's claim on the daemon's route -----

  /** A client may claim the daemon's route with its port and hostname; the routes then depend on the map order. */
  lemma MixedClaims(names: Naming, a: RouteID) returns (s: Ctl)
    requires LowerNames(names) && ValidID(a) && LegacyHost(names, a).Host?
    ensures Reachable(names, s, 2) && Good(names, s, 2) && Compatible(s.tables.claims, names, 2)
    ensures !OrderIndependent(s.tables.claims, names, 2)
  {
    var s1 := SetsSystem(names, Ask(a, 1, ""));
    KeysDistinct(a, a);
    s := Creates(names, s1, 1, "c1", "L1", Ask(a, 1, ""), 9, 2);
    assert Holds(s.tables.claims, 2, SystemKey(a), a) && Holds(s.tables.claims, 2, "L1", a);
    LoopIsOrderIndependentExactly(s.tables, names, 2);
  }

  // ----- A failed create over a discovered route -----

  /** A create whose publication fails takes the discovered route of the same id out of the store. */
  lemma FailedCreateDropsFound(names: Naming, found: Route) returns (s: Ctl, s': Ctl)
    requires LowerNames(names) && ValidID(found.ID()) && LegacyHost(names, found.ID()).Host?
    requires found.IsDiscovered() && Lower(found.domain) == found.domain
    ensures Reachable(names, s, 1) && IsFound(s.routes, found.ID())
    ensures OpRel(names, s, CreateLease("c1", Ask(found.ID(), 1, ""), 9, "L1"), 2, 1, false, s', false)
    ensures found.ID() !in s'.routes
  {
    var id := found.ID();
    s := Discovers(names, found);
    var edited := WithClient(s.tables, "L1", "c1", Ask(id, 1, ""), 2, 9);
    LoneLive(edited.claims, names, 2, "L1");
    var order := OrderStartingWith(edited.claims, "L1");
    OrderFolds(edited.claims, names, 2, order);
    var manual := Fold(names, 2, NOTHING_YET, edited.claims, order).acc.manual;
    var mid := Withdrawn(s.(tables := edited), manual);
    s' := mid.(tables := s.tables);
    assert Holds(edited.claims, 2, "L1", id);
    assert TransactVia(names, s, edited, 2, 1, false, s', Unpublished, mid, manual);
    assert Transact(names, s, edited, 2, 1, false, s', Unpublished);
  }

  lemma Discovers(names: Naming, found: Route) returns (s: Ctl)
    requires LowerNames(names) && found.IsDiscovered() && Lower(found.domain) == found.domain
    ensures Reachable(names, s, 1) && s.tables == Fresh().tables
    ensures forall id :: id in s.routes <==> id == found.ID()
    ensures IsFound(s.routes, found.ID())
  {
    s := Fresh().(routes := Reconciled(map[], [found], 1));
    OneDiscovered(found);
    var c := Call(ReconcileStore([found]), 1, 1, true);
    assert OpRel(names, Fresh(), c.op, c.now, c.clock, c.pub, s, true);
    FreshReachable(names, 1);
    ReachMore(names, Fresh(), 1, c, s);
  }

  lemma LoneSurvivor(found: Route, id: RouteID)
    ensures Survives(map[], [found], id) <==> id == found.ID()
  {
    assert [found][0].ID() == found.ID();
  }

  lemma OneDiscovered(found: Route)
    ensures forall id :: id in Reconciled(map[], [found], 1) <==> id == found.ID()
    ensures IsFound(Reconciled(map[], [found], 1), found.ID())
  {
    var r := Reconciled(map[], [found], 1);
    ReconcileRule(map[], [found], 1);
    forall id
      ensures id in r <==> id == found.ID()
    {
      LoneSurvivor(found, id);
    }
    assert IsManual(r, found.ID()) ==> found.ID() in ManualPart(r);
  }
}
