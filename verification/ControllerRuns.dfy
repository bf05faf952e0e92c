/** Operations of the controller and runs of them, interleaved with reconciliation. */
module ControllerRuns {
  import opened RouteStore
  import opened Reconcile
  import opened Claims
  import opened Leases
  import opened ControllerState
  import opened ControllerInvariant
  import opened ControllerRefresh

  ghost predicate TransactOK(names: Naming, s: Ctl, edited: Tables, now: int, clock: int, pub: bool, s': Ctl,
                             ok: bool) {
    exists o :: Transact(names, s, edited, now, clock, pub, s', o) && ok == o.Applied?
  }

  /** A legacy heartbeat on a manual route without a legacy claim adopts the route as it is stored. */
  ghost predicate AdoptRel(names: Naming, s: Ctl, id: RouteID, ttl: int, now: int, clock: int, s': Ctl, ok: bool)
    requires id in s.routes
  {
    RefreshRel(names, s.(tables := WithLegacy(s.tables, id, s.routes[id].port, now, ttl)), id, now, clock, s', ok)
  }

  /** A legacy delete of such a route takes it out of the store, past the tables. */
  function DirectDelete(s: Ctl, id: RouteID, pub: bool): Ctl {
    if pub then Attempted(s.(routes := s.routes - {id}), true) else Attempted(s, false)
  }

  /** A lease delete of a system claim: its rollback files the claim under the empty client id. */
  ghost predicate SystemDelete(names: Naming, s: Ctl, k: string, now: int, clock: int, pub: bool, s': Ctl, ok: bool,
                               mid: Ctl, manual: Routes, o: Outcome) {
    && ApplyRel(names, s.(tables := WithoutClient(s.tables, k)), now, clock, pub, mid, manual, o)
    && ok == o.Applied?
    && s' == if ok then mid
             else mid.(tables := s.tables.(clients := s.tables.clients[ClaimAt(s.tables, k).clientID := k]))
  }

  /** What one call may do, with `pub` the outcome of `publish` if it is reached. */
  ghost predicate OpRel(names: Naming, s: Ctl, op: Op, now: int, clock: int, pub: bool, s': Ctl, ok: bool) {
    match op
    case RegisterLegacy(id, port, ttl) =>
      TransactOK(names, s, WithLegacy(s.tables, id, port, now, ttl), now, clock, pub, s', ok)
    case HeartbeatLegacy(id, requested, default) =>
      if id in s.tables.legacyIDs then
        var k := s.tables.legacyIDs[id];
        RenewRel(names, s, k, RenewedTTL(ClaimAt(s.tables, k), requested), now, clock, s', ok)
      else if !IsManual(s.routes, id) then !ok && s' == s
      else AdoptRel(names, s, id, if requested > 0 then requested else default, now, clock, s', ok)
    case DeleteLegacy(id) =>
      if id in s.tables.legacyIDs then
        TransactOK(names, s, WithoutLegacy(s.tables, id), now, clock, pub, s', ok)
      else if !IsManual(s.routes, id) then !ok && s' == s
      else ok == pub && s' == DirectDelete(s, id, pub)
    case CreateLease(clientID, req, ttl, leaseID) =>
      if clientID == "" then !ok && s' == s
      else if clientID in s.tables.clients then
        var k := s.tables.clients[clientID];
        if SameRequest(ClaimAt(s.tables, k), req) then RenewRel(names, s, k, ttl, now, clock, s', ok)
        else !ok && s' == s
      else TransactOK(names, s, WithClient(s.tables, leaseID, clientID, req, now, ttl), now, clock, pub, s', ok)
    case HeartbeatLease(k, requested) =>
      if k !in s.tables.claims || s.tables.claims[k].legacy then !ok && s' == s
      else RenewRel(names, s, k, RenewedTTL(s.tables.claims[k], requested), now, clock, s', ok)
    case DeleteLease(k) =>
      if k !in s.tables.claims || s.tables.claims[k].legacy then ok && s' == s
      else if s.tables.claims[k].system then
        exists mid, manual, o :: SystemDelete(names, s, k, now, clock, pub, s', ok, mid, manual, o)
      else TransactOK(names, s, WithoutClient(s.tables, k), now, clock, pub, s', ok)
    case SetSystemRoute(req) =>
      TransactOK(names, s, WithSystem(s.tables, req), now, clock, pub, s', ok)
    case DeleteSystemRoute(id) =>
      if SystemKey(id) !in s.tables.claims then ok && s' == s
      else TransactOK(names, s, WithoutSystem(s.tables, id), now, clock, pub, s', ok)
    case Expire =>
      if Expired(s.tables.claims, now) == {} then ok && s' == s
      else TransactOK(names, s, WithoutExpired(s.tables, now), now, clock, pub, s', ok)
    case Initialize => ok == pub && s' == Attempted(s, pub)
    case ReconcileStore(desired) => ok && s' == s.(routes := Reconciled(s.routes, desired, clock))
  }

  // ----- Calls within the contract -----

  ghost predicate LiveClaim(t: Tables, k: string, now: int) {
    k in t.claims && Live(t.claims[k], now)
  }

  /**
    Validated names and fresh lease ids, positive TTLs, renewals only of
    unexpired claims, no lease call on a system claim, and legacy calls only on
    legacy-held ids (or ids without a manual route, which are refused).
  */
  ghost predicate Admissible(s: Ctl, op: Op, now: int) {
    match op
    case RegisterLegacy(id, _, ttl) => ValidID(id) && ttl > 0
    case HeartbeatLegacy(id, _, _) =>
      if id in s.tables.legacyIDs then LiveClaim(s.tables, s.tables.legacyIDs[id], now) else !IsManual(s.routes, id)
    case DeleteLegacy(id) => id in s.tables.legacyIDs || !IsManual(s.routes, id)
    case CreateLease(clientID, req, ttl, leaseID) =>
      && ttl > 0 && ValidID(req.ID()) && NoColon(leaseID) && leaseID !in s.tables.claims
      && (clientID in s.tables.clients ==> LiveClaim(s.tables, s.tables.clients[clientID], now))
    case HeartbeatLease(k, _) =>
      k in s.tables.claims ==>
        !s.tables.claims[k].system && (!s.tables.claims[k].legacy ==> LiveClaim(s.tables, k, now))
    case DeleteLease(k) => k in s.tables.claims ==> !s.tables.claims[k].system
    case SetSystemRoute(req) => ValidID(req.ID())
    case DeleteSystemRoute(id) => ValidID(id)
    case Expire => true
    case Initialize => true
    case ReconcileStore(desired) => GoodCandidates(desired)
  }

  /** What is kept by every step: the lease invariant, publication and the published routing. */
  ghost predicate Good(names: Naming, s: Ctl, now: int) {
    LeaseInv(names, s, now) && RevisionInv(s) && BoardInv(s)
  }

  lemma TransactGood(names: Naming, s: Ctl, edited: Tables, now: int, clock: int, pub: bool, s': Ctl, ok: bool)
    requires LowerNames(names) && Good(names, s, now) && clock != 0
    requires Index(edited) && PositiveTTLs(edited.claims)
    requires TransactOK(names, s, edited, now, clock, pub, s', ok)
    ensures Good(names, s', now)
  {
    var o :| Transact(names, s, edited, now, clock, pub, s', o) && ok == o.Applied?;
    TransactKeeps(names, s, edited, now, clock, pub, s', o);
    TransactRevision(names, s, edited, now, clock, pub, s', o);
  }

  lemma RenewGood(names: Naming, s: Ctl, k: string, ttl: int, now: int, clock: int, s': Ctl, ok: bool)
    requires LowerNames(names) && Good(names, s, now) && clock != 0
    requires LiveClaim(s.tables, k, now) && !s.tables.claims[k].system && ttl > 0
    requires RenewRel(names, s, k, ttl, now, clock, s', ok)
    ensures Good(names, s', now) && ok
  {
    RenewalSucceeds(names, s, k, ttl, now, clock, s', ok);
    RenewKeeps(names, s, k, ttl, now, clock, s', ok);
    PublicationUntouched(s, s');
  }

  lemma PublicationUntouched(s: Ctl, s': Ctl)
    requires RevisionInv(s) && BoardInv(s)
    requires s' == s.(tables := s'.tables, routes := s'.routes) && Targets(s'.routes) == Targets(s.routes)
    ensures RevisionInv(s') && BoardInv(s')
  {
  }

  lemma LegacyOpsKeep(names: Naming, s: Ctl, op: Op, now: int, clock: int, pub: bool, s': Ctl, ok: bool)
    requires LowerNames(names) && Good(names, s, now) && clock != 0
    requires op.RegisterLegacy? || op.HeartbeatLegacy? || op.DeleteLegacy?
    requires Admissible(s, op, now) && OpRel(names, s, op, now, clock, pub, s', ok)
    ensures Good(names, s', now)
  {
    match op {
      case RegisterLegacy(id, port, ttl) =>
        WithLegacyIndex(s.tables, id, port, now, ttl);
        TransactGood(names, s, WithLegacy(s.tables, id, port, now, ttl), now, clock, pub, s', ok);
      case HeartbeatLegacy(id, requested, _) =>
        if id in s.tables.legacyIDs {
          var k := s.tables.legacyIDs[id];
          assert LegacyEntry(s.tables, id);
          assert ClaimFiled(s.tables, k);
          RenewGood(names, s, k, RenewedTTL(s.tables.claims[k], requested), now, clock, s', ok);
        }
      case DeleteLegacy(id) =>
        if id in s.tables.legacyIDs {
          WithoutLegacyIndex(s.tables, id);
          TransactGood(names, s, WithoutLegacy(s.tables, id), now, clock, pub, s', ok);
        }
    }
  }

  lemma LeaseOpsKeep(names: Naming, s: Ctl, op: Op, now: int, clock: int, pub: bool, s': Ctl, ok: bool)
    requires LowerNames(names) && Good(names, s, now) && clock != 0
    requires op.CreateLease? || op.HeartbeatLease? || op.DeleteLease?
    requires Admissible(s, op, now) && OpRel(names, s, op, now, clock, pub, s', ok)
    ensures Good(names, s', now)
  {
    match op {
      case CreateLease(clientID, req, ttl, leaseID) =>
        if clientID in s.tables.clients {
          var k := s.tables.clients[clientID];
          assert ClientEntry(s.tables, clientID);
          if clientID != "" && SameRequest(ClaimAt(s.tables, k), req) {
            RenewGood(names, s, k, ttl, now, clock, s', ok);
          }
        } else if clientID != "" {
          WithClientIndex(s.tables, leaseID, clientID, req, now, ttl);
          TransactGood(names, s, WithClient(s.tables, leaseID, clientID, req, now, ttl), now, clock, pub, s', ok);
        }
      case HeartbeatLease(k, requested) =>
        if k in s.tables.claims && !s.tables.claims[k].legacy {
          RenewGood(names, s, k, RenewedTTL(s.tables.claims[k], requested), now, clock, s', ok);
        }
      case DeleteLease(k) =>
        if k in s.tables.claims && !s.tables.claims[k].legacy {
          WithoutClientIndex(s.tables, k);
          TransactGood(names, s, WithoutClient(s.tables, k), now, clock, pub, s', ok);
        }
    }
  }

  lemma DaemonOpsKeep(names: Naming, s: Ctl, op: Op, now: int, clock: int, pub: bool, s': Ctl, ok: bool)
    requires LowerNames(names) && Good(names, s, now) && clock != 0
    requires op.SetSystemRoute? || op.DeleteSystemRoute? || op.Expire? || op.Initialize? || op.ReconcileStore?
    requires Admissible(s, op, now) && OpRel(names, s, op, now, clock, pub, s', ok)
    ensures Good(names, s', now)
  {
    match op {
      case SetSystemRoute(req) =>
        WithSystemIndex(s.tables, req);
        TransactGood(names, s, WithSystem(s.tables, req), now, clock, pub, s', ok);
      case DeleteSystemRoute(id) =>
        if SystemKey(id) in s.tables.claims {
          WithoutSystemIndex(s.tables, id);
          TransactGood(names, s, WithoutSystem(s.tables, id), now, clock, pub, s', ok);
        }
      case Expire =>
        if Expired(s.tables.claims, now) != {} {
          WithoutExpiredIndex(s.tables, now);
          TransactGood(names, s, WithoutExpired(s.tables, now), now, clock, pub, s', ok);
        }
      case Initialize => AttemptedRevision(s, pub);
      case ReconcileStore(desired) => ReconcileKeeps(names, s, now, desired, clock);
    }
  }

  // ----- Runs -----

  /** One call with its time, its stamp for new routes, and the outcome of publishing. */
  datatype Call = Call(op: Op, now: int, clock: int, pub: bool)

  function Fresh(): Ctl {
    Ctl(Tables(map[], map[], map[]), map[], 0, 0, false, [], map[])
  }

  ghost predicate CallRel(names: Naming, s: Ctl, c: Call, s': Ctl) {
    exists ok :: OpRel(names, s, c.op, c.now, c.clock, c.pub, s', ok)
  }

  /** Any calls, in any order and at any times, from an empty controller. */
  ghost predicate IsRun(names: Naming, calls: seq<Call>, states: seq<Ctl>) {
    && |states| == |calls| + 1 && states[0] == Fresh()
    && forall i :: 0 <= i < |calls| ==> StepAt(names, calls, states, i)
  }

  ghost predicate StepAt(names: Naming, calls: seq<Call>, states: seq<Ctl>, i: nat)
    requires i < |calls| && |states| == |calls| + 1
  {
    CallRel(names, states[i], calls[i], states[i + 1])
  }

  /** A run of calls within the contract, with time running forward. */
  ghost predicate IsLeaseRun(names: Naming, calls: seq<Call>, states: seq<Ctl>) {
    && IsRun(names, calls, states)
    && (forall i :: 0 <= i < |calls| ==> calls[i].clock != 0 && Admissible(states[i], calls[i].op, calls[i].now))
    && forall i, j :: 0 <= i < j < |calls| ==> calls[i].now <= calls[j].now
  }

  lemma FreshGood(names: Naming, now: int)
    ensures Good(names, Fresh(), now)
  {
  }

  lemma CallKeeps(names: Naming, s: Ctl, c: Call, s': Ctl)
    requires LowerNames(names) && Good(names, s, c.now) && c.clock != 0
    requires Admissible(s, c.op, c.now) && CallRel(names, s, c, s')
    ensures Good(names, s', c.now)
  {
    var ok :| OpRel(names, s, c.op, c.now, c.clock, c.pub, s', ok);
    if c.op.RegisterLegacy? || c.op.HeartbeatLegacy? || c.op.DeleteLegacy? {
      LegacyOpsKeep(names, s, c.op, c.now, c.clock, c.pub, s', ok);
    } else if c.op.CreateLease? || c.op.HeartbeatLease? || c.op.DeleteLease? {
      LeaseOpsKeep(names, s, c.op, c.now, c.clock, c.pub, s', ok);
    } else {
      DaemonOpsKeep(names, s, c.op, c.now, c.clock, c.pub, s', ok);
    }
  }

  lemma GoodLater(names: Naming, s: Ctl, now: int, later: int)
    requires Good(names, s, now) && now <= later
    ensures Good(names, s, later)
  {
    TimeKeeps(names, s, now, later);
  }

  /**
    The whole-run lease invariant: after any calls, at any later time, the
    indexes are exact, unexpired claims are compatible and served with their
    port, hostname and latest expiry, every manual route has a claim, no two
    stored routes share a hostname, and a ready controller has published
    exactly the manual routing it stores.
  */
  lemma {:induction false} WholeRunInvariant(names: Naming, calls: seq<Call>, states: seq<Ctl>, i: nat, later: int)
    requires LowerNames(names) && IsLeaseRun(names, calls, states) && i <= |calls|
    requires i > 0 ==> calls[i - 1].now <= later
    ensures Good(names, states[i], later)
  {
    if i == 0 {
      FreshGood(names, later);
    } else {
      var k := i - 1;
      assert k > 0 ==> calls[k - 1].now <= calls[k].now;
      WholeRunInvariant(names, calls, states, k, calls[k].now);
      assert StepAt(names, calls, states, k);
      CallKeeps(names, states[k], calls[k], states[k + 1]);
      GoodLater(names, states[k + 1], calls[k].now, later);
    }
  }

  /** The same for the hostname rule of the repository, whatever the base domain. */
  lemma WholeRunUnderRouteNames(baseDomain: string, calls: seq<Call>, states: seq<Ctl>, i: nat, later: int)
    requires IsLeaseRun(RouteNames(baseDomain), calls, states) && i <= |calls|
    requires i > 0 ==> calls[i - 1].now <= later
    ensures Good(RouteNames(baseDomain), states[i], later)
  {
    RouteNamesAreLower(baseDomain);
    WholeRunInvariant(RouteNames(baseDomain), calls, states, i, later);
  }

  // ----- Publication, for any calls -----

  lemma TransactCounts(names: Naming, s: Ctl, edited: Tables, now: int, clock: int, pub: bool, s': Ctl, ok: bool)
    requires RevisionInv(s) && TransactOK(names, s, edited, now, clock, pub, s', ok)
    ensures RevisionInv(s')
  {
    var o :| Transact(names, s, edited, now, clock, pub, s', o) && ok == o.Applied?;
    var mid, manual :| TransactVia(names, s, edited, now, clock, pub, s', o, mid, manual);
  }

  lemma RefreshCounts(names: Naming, s: Ctl, t: Tables, id: RouteID, now: int, clock: int, s': Ctl, ok: bool)
    requires RevisionInv(s) && RefreshRel(names, s.(tables := t), id, now, clock, s', ok)
    ensures RevisionInv(s')
  {
  }

  lemma RenewalCounts(names: Naming, s: Ctl, k: string, ttl: int, now: int, clock: int, s': Ctl, ok: bool)
    requires RevisionInv(s) && RenewRel(names, s, k, ttl, now, clock, s', ok)
    ensures RevisionInv(s')
  {
    RefreshCounts(names, s, WithRenewal(s.tables, k, now, ttl), ClaimAt(s.tables, k).ID(), now, clock, s', ok);
  }

  lemma LegacyOpsCount(names: Naming, s: Ctl, op: Op, now: int, clock: int, pub: bool, s': Ctl, ok: bool)
    requires op.RegisterLegacy? || op.HeartbeatLegacy? || op.DeleteLegacy?
    requires RevisionInv(s) && OpRel(names, s, op, now, clock, pub, s', ok)
    ensures RevisionInv(s')
  {
    match op {
      case RegisterLegacy(id, port, ttl) =>
        TransactCounts(names, s, WithLegacy(s.tables, id, port, now, ttl), now, clock, pub, s', ok);
      case HeartbeatLegacy(id, requested, default) =>
        if id in s.tables.legacyIDs {
          var k := s.tables.legacyIDs[id];
          RenewalCounts(names, s, k, RenewedTTL(ClaimAt(s.tables, k), requested), now, clock, s', ok);
        } else if IsManual(s.routes, id) {
          var ttl := if requested > 0 then requested else default;
          RefreshCounts(names, s, WithLegacy(s.tables, id, s.routes[id].port, now, ttl), id, now, clock, s', ok);
        }
      case DeleteLegacy(id) =>
        if id in s.tables.legacyIDs {
          TransactCounts(names, s, WithoutLegacy(s.tables, id), now, clock, pub, s', ok);
        }
    }
  }

  lemma LeaseOpsCount(names: Naming, s: Ctl, op: Op, now: int, clock: int, pub: bool, s': Ctl, ok: bool)
    requires op.CreateLease? || op.HeartbeatLease? || op.DeleteLease?
    requires RevisionInv(s) && OpRel(names, s, op, now, clock, pub, s', ok)
    ensures RevisionInv(s')
  {
    match op {
      case CreateLease(clientID, req, ttl, leaseID) =>
        if clientID != "" && clientID !in s.tables.clients {
          TransactCounts(names, s, WithClient(s.tables, leaseID, clientID, req, now, ttl), now, clock, pub, s', ok);
        } else if clientID != "" && SameRequest(ClaimAt(s.tables, s.tables.clients[clientID]), req) {
          RenewalCounts(names, s, s.tables.clients[clientID], ttl, now, clock, s', ok);
        }
      case HeartbeatLease(k, requested) =>
        if k in s.tables.claims && !s.tables.claims[k].legacy {
          RenewalCounts(names, s, k, RenewedTTL(s.tables.claims[k], requested), now, clock, s', ok);
        }
      case DeleteLease(k) =>
        if k in s.tables.claims && !s.tables.claims[k].legacy && !s.tables.claims[k].system {
          TransactCounts(names, s, WithoutClient(s.tables, k), now, clock, pub, s', ok);
        }
    }
  }

  lemma DaemonOpsCount(names: Naming, s: Ctl, op: Op, now: int, clock: int, pub: bool, s': Ctl, ok: bool)
    requires op.SetSystemRoute? || op.DeleteSystemRoute? || op.Expire? || op.Initialize? || op.ReconcileStore?
    requires RevisionInv(s) && OpRel(names, s, op, now, clock, pub, s', ok)
    ensures RevisionInv(s')
  {
    match op {
      case SetSystemRoute(req) => TransactCounts(names, s, WithSystem(s.tables, req), now, clock, pub, s', ok);
      case DeleteSystemRoute(id) =>
        if SystemKey(id) in s.tables.claims {
          TransactCounts(names, s, WithoutSystem(s.tables, id), now, clock, pub, s', ok);
        }
      case Expire =>
        if Expired(s.tables.claims, now) != {} {
          TransactCounts(names, s, WithoutExpired(s.tables, now), now, clock, pub, s', ok);
        }
      case Initialize =>
      case ReconcileStore(desired) =>
    }
  }

  /** Every call counts its attempts to publish and records the latest outcome, within the contract or not. */
  lemma CallCounts(names: Naming, s: Ctl, c: Call, s': Ctl)
    requires RevisionInv(s) && CallRel(names, s, c, s')
    ensures RevisionInv(s')
  {
    var ok :| OpRel(names, s, c.op, c.now, c.clock, c.pub, s', ok);
    if c.op.RegisterLegacy? || c.op.HeartbeatLegacy? || c.op.DeleteLegacy? {
      LegacyOpsCount(names, s, c.op, c.now, c.clock, c.pub, s', ok);
    } else if c.op.CreateLease? || c.op.HeartbeatLease? || c.op.DeleteLease? {
      LeaseOpsCount(names, s, c.op, c.now, c.clock, c.pub, s', ok);
    } else {
      DaemonOpsCount(names, s, c.op, c.now, c.clock, c.pub, s', ok);
    }
  }

  lemma StepCounts(names: Naming, calls: seq<Call>, states: seq<Ctl>, k: nat)
    requires IsRun(names, calls, states) && k < |calls| && RevisionInv(states[k])
    ensures RevisionInv(states[k + 1])
  {
    assert StepAt(names, calls, states, k);
    CallCounts(names, states[k], calls[k], states[k + 1]);
  }

  lemma {:induction false} RunCounts(names: Naming, calls: seq<Call>, states: seq<Ctl>, i: nat)
    requires IsRun(names, calls, states) && i <= |calls|
    ensures RevisionInv(states[i])
  {
    if i == 0 {
      assert states[i] == Fresh();
    } else {
      RunCounts(names, calls, states, i - 1);
      StepCounts(names, calls, states, i - 1);
    }
  }

  /**
    After any calls whatever, `applied` has not passed `revision` and the
    controller is ready exactly when its latest attempt to publish succeeded.
  */
  lemma AnyRunCounts(names: Naming, calls: seq<Call>, states: seq<Ctl>, i: nat)
    requires IsRun(names, calls, states) && i <= |calls|
    ensures states[i].applied <= states[i].revision == |states[i].attempts|
    ensures Ready(states[i]) <==> states[i].attempts != [] && states[i].attempts[|states[i].attempts| - 1]
  {
    RunCounts(names, calls, states, i);
    ReadyMeans(states[i]);
  }

  // ----- Failed calls -----

  predicate Transactional(op: Op) {
    op.RegisterLegacy? || op.DeleteLegacy? || op.CreateLease? || op.DeleteLease? || op.SetSystemRoute?
    || op.DeleteSystemRoute? || op.Expire?
  }

  /** The two arms without a rollback of their own, or with a wrong one. */
  ghost predicate NotUndone(s: Ctl, op: Op) {
    || (op.CreateLease? && op.clientID != "" && op.clientID in s.tables.clients
        && SameRequest(ClaimAt(s.tables, s.tables.clients[op.clientID]), op.req))
    || (op.DeleteLease? && op.leaseID in s.tables.claims && s.tables.claims[op.leaseID].system)
  }

  /**
    A failed register, create, delete, system-route or expire call leaves the
    tables and the manual routes exactly as they were, unless it renewed a
    client's claim or deleted a system claim as a lease.
  */
  lemma FailedCallChangesNothing(names: Naming, s: Ctl, op: Op, now: int, clock: int, pub: bool, s': Ctl)
    requires Good(names, s, now) && Transactional(op) && (op.CreateLease? ==> op.ttl > 0)
    requires OpRel(names, s, op, now, clock, pub, s', false)
    ensures ManualPart(s'.routes) == ManualPart(s.routes)
    ensures s'.tables == s.tables <==> !NotUndone(s, op)
  {
    if NotUndone(s, op) {
      if op.CreateLease? {
        FailedRenewal(names, s, op, now, clock, pub, s');
      } else {
        FailedSystemDelete(names, s, op.leaseID, now, clock, pub, s');
      }
    } else {
      FailedTransactional(names, s, op, now, clock, pub, s');
    }
  }

  lemma FailedTransactional(names: Naming, s: Ctl, op: Op, now: int, clock: int, pub: bool, s': Ctl)
    requires Transactional(op) && !NotUndone(s, op)
    requires OpRel(names, s, op, now, clock, pub, s', false)
    ensures s'.tables == s.tables && ManualPart(s'.routes) == ManualPart(s.routes)
  {
    match op {
      case RegisterLegacy(id, port, ttl) =>
        FailedEdit(names, s, WithLegacy(s.tables, id, port, now, ttl), now, clock, pub, s');
      case DeleteLegacy(id) =>
        if id in s.tables.legacyIDs {
          FailedEdit(names, s, WithoutLegacy(s.tables, id), now, clock, pub, s');
        }
      case CreateLease(clientID, req, ttl, leaseID) =>
        if clientID != "" && clientID !in s.tables.clients {
          FailedEdit(names, s, WithClient(s.tables, leaseID, clientID, req, now, ttl), now, clock, pub, s');
        }
      case DeleteLease(k) => FailedEdit(names, s, WithoutClient(s.tables, k), now, clock, pub, s');
      case SetSystemRoute(req) => FailedEdit(names, s, WithSystem(s.tables, req), now, clock, pub, s');
      case DeleteSystemRoute(id) => FailedEdit(names, s, WithoutSystem(s.tables, id), now, clock, pub, s');
      case Expire => FailedEdit(names, s, WithoutExpired(s.tables, now), now, clock, pub, s');
    }
  }

  /** A repeated create fails only for an expired claim, and leaves it renewed although its route was refused. */
  lemma FailedRenewal(names: Naming, s: Ctl, op: Op, now: int, clock: int, pub: bool, s': Ctl)
    requires Good(names, s, now) && op.CreateLease? && NotUndone(s, op) && op.ttl > 0
    requires OpRel(names, s, op, now, clock, pub, s', false)
    ensures s'.tables == WithRenewal(s.tables, s.tables.clients[op.clientID], now, op.ttl) && s'.routes == s.routes
    ensures s'.tables != s.tables && !Live(ClaimAt(s.tables, s.tables.clients[op.clientID]), now)
  {
    var k := s.tables.clients[op.clientID];
    assert ClientEntry(s.tables, op.clientID);
    if Live(s.tables.claims[k], now) {
      RenewalSucceeds(names, s, k, op.ttl, now, clock, s', false);
    }
    assert s'.tables.claims[k].expires == now + op.ttl;
  }

  /** The claim is put back, but with an index entry no claim has: the tables are no longer well indexed. */
  lemma FailedSystemDelete(names: Naming, s: Ctl, k: string, now: int, clock: int, pub: bool, s': Ctl)
    requires Index(s.tables) && k in s.tables.claims && s.tables.claims[k].system
    requires OpRel(names, s, DeleteLease(k), now, clock, pub, s', false)
    ensures s'.tables == s.tables.(clients := s.tables.clients["" := k]) && !Index(s'.tables)
    ensures s'.tables != s.tables && ManualPart(s'.routes) == ManualPart(s.routes)
  {
    assert ClaimFiled(s.tables, k) && !s.tables.claims[k].legacy;
    var mid, manual, o :| SystemDelete(names, s, k, now, clock, pub, s', false, mid, manual, o);
    NoEmptyClient(s.tables);
    assert !ClientEntry(s'.tables, "");
    RollbackKeepsManual(s.routes, manual.Keys);
  }

  lemma FailedEdit(names: Naming, s: Ctl, edited: Tables, now: int, clock: int, pub: bool, s': Ctl)
    requires TransactOK(names, s, edited, now, clock, pub, s', false)
    ensures s'.tables == s.tables && ManualPart(s'.routes) == ManualPart(s.routes)
  {
    var o :| Transact(names, s, edited, now, clock, pub, s', o) && false == o.Applied?;
    FailedTransaction(names, s, edited, now, clock, pub, s', o);
  }
}
