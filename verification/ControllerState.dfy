/** The controller as a value: tables, store, publication, and what each operation may do to them. */
module ControllerState {
  import opened RouteDomain
  import opened RouteStore
  import opened Claims
  import opened Leases

  /** Where traffic for a route goes. */
  datatype Target = Target(port: int, domain: string)

  type Board = map<RouteID, Target>

  /**
    `attempts` records the outcome of every publication the controller started;
    `board` is the manual routing of the last snapshot that was published.
  */
  datatype Ctl = Ctl(
    tables: Tables, routes: Routes, revision: nat, applied: nat, failed: bool, attempts: seq<bool>, board: Board)

  function Targets(routes: Routes): Board {
    map id | id in routes && !routes[id].IsDiscovered() :: Target(routes[id].port, routes[id].domain)
  }

  predicate Ready(s: Ctl) {
    s.applied > 0 && s.revision == s.applied && !s.failed
  }

  // ----- applyLocked -----

  /** No discovered route of another id has the hostname of an unexpired claim. */
  ghost predicate DiscoveredClear(claims: ClaimTable, names: Naming, now: int, routes: Routes) {
    forall id, k :: IsFound(routes, id) && k in claims && Live(claims[k], now) ==>
      (HostOf(names, claims[k]) == Host(Lower(routes[id].domain)) ==> claims[k].ID() == id)
  }

  /** When `applyLocked` gets as far as publishing. */
  ghost predicate Applicable(claims: ClaimTable, names: Naming, now: int, routes: Routes) {
    Compatible(claims, names, now) && DiscoveredClear(claims, names, now, routes)
  }

  /** The store with `manual` as its manual part. */
  function WithManual(routes: Routes, manual: Routes, clock: int): Routes {
    FoundPart(routes) + map id | id in manual :: Stamped(routes, manual[id], clock)
  }

  /** The store after `SetManual(previous)` undid a manual set with these ids. */
  function RolledBack(routes: Routes, ids: set<RouteID>): Routes {
    map id | id in routes && (!routes[id].IsDiscovered() || id !in ids) :: routes[id]
  }

  datatype Outcome = Applied | Rejected | Unpublished

  function Installed(s: Ctl, manual: Routes, clock: int): Ctl {
    s.(routes := WithManual(s.routes, manual, clock), revision := s.revision + 1, applied := s.revision + 1,
       failed := false, attempts := s.attempts + [true], board := Targets(WithManual(s.routes, manual, clock)))
  }

  function Withdrawn(s: Ctl, manual: Routes): Ctl {
    s.(routes := RolledBack(s.routes, manual.Keys), revision := s.revision + 1, failed := true,
       attempts := s.attempts + [false])
  }

  ghost predicate ApplyRel(names: Naming, s: Ctl, now: int, clock: int, pub: bool, s': Ctl, manual: Routes,
                           o: Outcome) {
    if Applicable(s.tables.claims, names, now, s.routes) then
      && WantedSet(s.tables.claims, names, now, manual)
      && o == (if pub then Applied else Unpublished)
      && s' == if pub then Installed(s, manual, clock) else Withdrawn(s, manual)
    else o == Rejected && s' == s
  }

  /** Edit the tables, apply, and put the old tables back when that fails. */
  ghost predicate Transact(names: Naming, s: Ctl, edited: Tables, now: int, clock: int, pub: bool, s': Ctl,
                           o: Outcome) {
    exists mid, manual :: TransactVia(names, s, edited, now, clock, pub, s', o, mid, manual)
  }

  ghost predicate TransactVia(names: Naming, s: Ctl, edited: Tables, now: int, clock: int, pub: bool, s': Ctl,
                              o: Outcome, mid: Ctl, manual: Routes) {
    && ApplyRel(names, s.(tables := edited), now, clock, pub, mid, manual, o)
    && s' == if o.Applied? then mid else mid.(tables := s.tables)
  }

  // ----- refreshRouteLocked -----

  /** The unexpired claims of `id` exist and agree. */
  ghost predicate Refreshable(claims: ClaimTable, names: Naming, now: int, id: RouteID) {
    && (exists k :: Holds(claims, now, k, id))
    && (forall k :: Holds(claims, now, k, id) ==> HostOf(names, claims[k]).Host?)
    && forall j, k :: Holds(claims, now, j, id) && Holds(claims, now, k, id) ==>
         claims[j].port == claims[k].port && HostOf(names, claims[j]) == HostOf(names, claims[k])
  }

  ghost predicate IsLatest(claims: ClaimTable, now: int, id: RouteID, e: int) {
    && (forall k :: Holds(claims, now, k, id) ==> claims[k].expires <= e)
    && exists k :: Holds(claims, now, k, id) && claims[k].expires == e
  }

  /** The route a refresh stores: the claims' data with the latest expiry. */
  ghost predicate Refreshed(claims: ClaimTable, names: Naming, now: int, id: RouteID, r: Route) {
    && r.ID() == id && r.host == "" && r.owner == "" && r.source == Manual
    && (forall k :: Holds(claims, now, k, id) ==>
          r.port == claims[k].port && HostOf(names, claims[k]) == Host(r.domain))
    && IsLatest(claims, now, id, r.expiresAt)
  }

  ghost predicate RefreshRel(names: Naming, s: Ctl, id: RouteID, now: int, clock: int, s': Ctl, ok: bool) {
    if Refreshable(s.tables.claims, names, now, id) then
      ok && exists r :: RefreshVia(names, s, id, now, clock, s', r)
    else !ok && s' == s
  }

  ghost predicate RefreshVia(names: Naming, s: Ctl, id: RouteID, now: int, clock: int, s': Ctl, r: Route) {
    && Refreshed(s.tables.claims, names, now, id, r)
    && r.createdAt == (if id in s.routes then s.routes[id].createdAt else clock)
    && s' == s.(routes := s.routes[id := r])
  }

  /** Renew claim `k` and refresh its route; a failed refresh does not undo the renewal. */
  ghost predicate RenewRel(names: Naming, s: Ctl, k: string, ttl: int, now: int, clock: int, s': Ctl, ok: bool) {
    RefreshRel(names, s.(tables := WithRenewal(s.tables, k, now, ttl)), ClaimAt(s.tables, k).ID(), now, clock, s', ok)
  }

  // ----- Operations -----

  datatype Op =
    | RegisterLegacy(id: RouteID, port: int, ttl: int)
    | HeartbeatLegacy(id: RouteID, requestedTTL: int, defaultTTL: int)
    | DeleteLegacy(id: RouteID)
    | CreateLease(clientID: string, req: Request, ttl: int, leaseID: string)
    | HeartbeatLease(leaseID: string, requestedTTL: int)
    | DeleteLease(leaseID: string)
    | SetSystemRoute(req: Request)
    | DeleteSystemRoute(id: RouteID)
    | Expire
    | Initialize
    | ReconcileStore(desired: seq<Route>)

  function RenewedTTL(c: Claim, requested: int): int {
    if requested > 0 then requested else c.ttl
  }

  predicate SameRequest(c: Claim, req: Request) {
    c.project == req.project && c.branch == req.branch && c.port == req.port && c.subdomain == req.subdomain
  }

  function Attempted(s: Ctl, pub: bool): Ctl {
    if pub then
      s.(revision := s.revision + 1, applied := s.revision + 1, failed := false, attempts := s.attempts + [true],
         board := Targets(s.routes))
    else s.(revision := s.revision + 1, failed := true, attempts := s.attempts + [false])
  }
}
