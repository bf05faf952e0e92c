/** What happens outside the contract of the lease calls, and exactly when it does harm. */
module ControllerEdges {
  import opened RouteDomain
  import opened RouteStore
  import opened Claims
  import opened Leases
  import opened ControllerState
  import opened ControllerInvariant
  import opened ControllerRefresh
  import opened ControllerRuns

  /** Taking claims away never makes the rest inapplicable, so deletes and sweeps fail only in publishing. */
  lemma RemovalIsApplicable(names: Naming, s: Ctl, now: int, rest: ClaimTable)
    requires RouteInv(names, s, now) && LowerNames(names)
    requires forall k :: k in rest ==> k in s.tables.claims && rest[k] == s.tables.claims[k]
    ensures Applicable(rest, names, now, s.routes)
  {
    forall id, k | IsFound(s.routes, id) && k in rest && Live(rest[k], now)
      ensures HostOf(names, rest[k]) == Host(Lower(s.routes[id].domain)) ==> rest[k].ID() == id
    {
      assert Holds(s.tables.claims, now, k, rest[k].ID());
    }
  }

  lemma SweepFailsOnlyInPublishing(names: Naming, s: Ctl, now: int, clock: int, pub: bool, s': Ctl, ok: bool)
    requires Good(names, s, now) && LowerNames(names) && Expired(s.tables.claims, now) != {}
    requires OpRel(names, s, Expire, now, clock, pub, s', ok)
    ensures ok <==> pub
  {
    var edited := WithoutExpired(s.tables, now);
    RemovalIsApplicable(names, s, now, edited.claims);
    var o :| Transact(names, s, edited, now, clock, pub, s', o) && ok == o.Applied?;
    TransactSucceeds(names, s, edited, now, clock, pub, s', o);
  }

  // ----- Renewing a claim that has expired but was not swept -----

  predicate StoredAs(routes: Routes, id: RouteID, port: int, host: Hostname) {
    IsManual(routes, id) && routes[id].port == port && Host(routes[id].domain) == host
  }

  /**
    Renewing an expired claim succeeds exactly when its hostname can be built
    and, while another claim of the route is unexpired, the route is stored
    with its port and hostname. It puts the route back without a hostname
    check; so the lease invariant is kept exactly when the call succeeds and no
    route of another id has the claim's hostname. (No renewal of an expired
    claim of the daemon keeps it.)
  */
  lemma ExpiredRenewal(names: Naming, s: Ctl, k: string, ttl: int, now: int, clock: int, s': Ctl, ok: bool)
    requires Good(names, s, now) && LowerNames(names) && clock != 0 && k in s.tables.claims && ttl > 0
    requires !Live(s.tables.claims[k], now)
    requires RenewRel(names, s, k, ttl, now, clock, s', ok)
    ensures ok <==> RenewalFits(names, s, s.tables.claims[k], now)
    ensures ok ==> (HostsDistinct(s'.routes)
               <==> !HostElsewhere(s.routes, s.tables.claims[k].ID(), HostOf(names, s.tables.claims[k])))
    ensures LeaseInv(names, s', now)
       <==> ok && !s.tables.claims[k].system
            && !HostElsewhere(s.routes, s.tables.claims[k].ID(), HostOf(names, s.tables.claims[k]))
  {
    ExpiredRenewalSucceeds(names, s, k, ttl, now, clock, s', ok);
    if s.tables.claims[k].system {
      DaemonRenewalUnfiled(s.tables, k, ttl, now);
    }
    if ok {
      LateRenewalIsExact(names, s, k, ttl, now, clock, s');
    } else {
      var i, j := FailedRenewalBlocks(names, s, k, ttl, now, clock, s');
    }
  }

  /** A claim new to a route can be refreshed with its other holders exactly when it asks for what is stored. */
  lemma RefreshableExactly(before: ClaimTable, after: ClaimTable, names: Naming, now: int, k: string, id: RouteID,
                           routes: Routes)
    requires Served(before, names, now, routes) && Holds(after, now, k, id)
    requires forall j :: Holds(after, now, j, id) && j != k <==> Holds(before, now, j, id)
    requires forall j :: Holds(before, now, j, id) ==> j in after && after[j] == before[j]
    ensures Refreshable(after, names, now, id)
       <==> HostOf(names, after[k]).Host?
            && (WantedID(before, now, id) ==> StoredAs(routes, id, after[k].port, HostOf(names, after[k])))
  {
    if WantedID(before, now, id) {
      var j :| Holds(before, now, j, id);
      assert Holds(after, now, j, id);
    }
  }

  /** What decides about a late renewal: the state before the call. */
  ghost predicate RenewalFits(names: Naming, s: Ctl, c: Claim, now: int) {
    && HostOf(names, c).Host?
    && (WantedID(s.tables.claims, now, c.ID()) ==> StoredAs(s.routes, c.ID(), c.port, HostOf(names, c)))
  }

  lemma ExpiredRenewalSucceeds(names: Naming, s: Ctl, k: string, ttl: int, now: int, clock: int, s': Ctl, ok: bool)
    requires Served(s.tables.claims, names, now, s.routes) && k in s.tables.claims && ttl > 0
    requires !Live(s.tables.claims[k], now)
    requires RenewRel(names, s, k, ttl, now, clock, s', ok)
    ensures ok <==> RenewalFits(names, s, s.tables.claims[k], now)
  {
    var claims, id := WithRenewal(s.tables, k, now, ttl).claims, s.tables.claims[k].ID();
    LateHolders(s.tables, k, ttl, now);
    RefreshableExactly(s.tables.claims, claims, names, now, k, id, s.routes);
  }

  /** Apart from the renewed claim the same claims hold the route. */
  lemma LateHolders(t: Tables, k: string, ttl: int, now: int)
    requires k in t.claims && !Live(t.claims[k], now) && ttl > 0
    ensures var claims, id := WithRenewal(t, k, now, ttl).claims, t.claims[k].ID();
            && Holds(claims, now, k, id)
            && (forall j :: Holds(claims, now, j, id) && j != k <==> Holds(t.claims, now, j, id))
            && (forall j :: Holds(t.claims, now, j, id) ==> j in claims && claims[j] == t.claims[j])
  {
  }

  /** A renewed claim of the daemon is filed only under the permanent expiry. */
  lemma DaemonRenewalFiled(t: Tables, k: string, ttl: int, now: int)
    requires Index(t) && k in t.claims && t.claims[k].system
    ensures Index(WithRenewal(t, k, now, ttl)) <==> now + ttl == SYSTEM_EXPIRY
  {
    var u := WithRenewal(t, k, now, ttl);
    assert ClaimFiled(t, k);
    if now + ttl == SYSTEM_EXPIRY {
      forall j | j in u.claims
        ensures ClaimFiled(u, j)
      {
        assert ClaimFiled(t, j);
      }
      OtherEntries(t, u, k);
    } else {
      assert !ClaimFiled(u, k);
    }
  }

  lemma DaemonRenewalUnfiled(t: Tables, k: string, ttl: int, now: int)
    requires Index(t) && k in t.claims && t.claims[k].system && !Live(t.claims[k], now) && ttl > 0
    ensures !Index(WithRenewal(t, k, now, ttl))
  {
    assert ClaimFiled(t, k);
    DaemonRenewalFiled(t, k, ttl, now);
  }

  lemma LateRenewalIsExact(names: Naming, s: Ctl, k: string, ttl: int, now: int, clock: int, s': Ctl)
    requires Good(names, s, now) && LowerNames(names) && clock != 0 && k in s.tables.claims && ttl > 0
    requires !Live(s.tables.claims[k], now)
    requires RenewRel(names, s, k, ttl, now, clock, s', true)
    ensures s'.tables == WithRenewal(s.tables, k, now, ttl)
    ensures HostsDistinct(s'.routes)
       <==> !HostElsewhere(s.routes, s.tables.claims[k].ID(), HostOf(names, s.tables.claims[k]))
    ensures !s.tables.claims[k].system ==>
              (LeaseInv(names, s', now)
          <==> !HostElsewhere(s.routes, s.tables.claims[k].ID(), HostOf(names, s.tables.claims[k])))
  {
    var c, t := s.tables.claims[k], WithRenewal(s.tables, k, now, ttl);
    var r :| RefreshVia(names, s.(tables := t), c.ID(), now, clock, s', r);
    assert Holds(t.claims, now, k, c.ID()) && HostOf(names, t.claims[k]) == HostOf(names, c);
    ReplacedHosts(s.routes, c.ID(), r);
    if !c.system {
      RenewalRecasts(s.tables, k, ttl, now);
      RefreshIsExact(names, s, t, k, c.ID(), now, clock, s', r);
      WithRenewalIndex(s.tables, k, now, ttl);
      RenewalPositive(s.tables, k, now, ttl);
    }
  }

  /**
    No renewal publishes, so a ready controller stays ready; what it published
    is still what it stores exactly when the call failed or the route was still
    stored with the claim's port and hostname.
  */
  lemma ExpiredRenewalIsUnpublished(names: Naming, s: Ctl, k: string, ttl: int, now: int, clock: int, s': Ctl, ok: bool)
    requires Good(names, s, now) && Ready(s) && k in s.tables.claims && ttl > 0
    requires RenewRel(names, s, k, ttl, now, clock, s', ok)
    ensures Ready(s') && s'.attempts == s.attempts && s'.board == s.board
    ensures var c := s.tables.claims[k];
            BoardInv(s') <==> (ok ==> StoredAs(s.routes, c.ID(), c.port, HostOf(names, c)))
  {
    if ok {
      var c, t := s.tables.claims[k], WithRenewal(s.tables, k, now, ttl);
      assert HostOf(names, t.claims[k]) == HostOf(names, c);
      RefreshTargets(names, s, t, k, c.ID(), now, clock, s');
    }
  }

  /** The claim is still there, unexpired and with the same demands, whatever its dates. */
  predicate StillAsks(claims: ClaimTable, later: int, k: string, c: Claim) {
    && k in claims && Live(claims[k], later) && claims[k].ID() == c.ID()
    && claims[k].port == c.port && claims[k].subdomain == c.subdomain
  }

  /** Two claims no table may hold unexpired together, or one (twice) that none may hold at all. */
  predicate Clash(names: Naming, a: Claim, b: Claim) {
    HostOf(names, a).TooLong? || !PairOK(names, a, b)
  }

  lemma ClashBlocks(claims: ClaimTable, names: Naming, later: int, i: string, a: Claim, j: string, b: Claim)
    requires Clash(names, a, b) && StillAsks(claims, later, i, a) && StillAsks(claims, later, j, b)
    ensures !Compatible(claims, names, later)
  {
    assert HostOf(names, claims[i]) == HostOf(names, a) && HostOf(names, claims[j]) == HostOf(names, b);
    assert PairOK(names, claims[i], claims[j]) <==> PairOK(names, a, b);
  }

  /** Nothing can be applied to any tables, at any time, while both claims are unexpired. */
  ghost predicate Blocking(names: Naming, i: string, a: Claim, j: string, b: Claim) {
    forall claims, later, routes :: StillAsks(claims, later, i, a) && StillAsks(claims, later, j, b) ==>
      !Applicable(claims, names, later, routes)
  }

  /** Claims of one route that cannot be refreshed contradict each other. */
  lemma UnrefreshableClash(claims: ClaimTable, names: Naming, now: int, k: string, id: RouteID)
    returns (i: string, j: string)
    requires Holds(claims, now, k, id) && !Refreshable(claims, names, now, id)
    ensures Holds(claims, now, i, id) && Holds(claims, now, j, id) && Clash(names, claims[i], claims[j])
  {
    if h :| Holds(claims, now, h, id) && HostOf(names, claims[h]).TooLong? {
      i, j := h, h;
    } else {
      i, j :| Holds(claims, now, i, id) && Holds(claims, now, j, id)
        && !(claims[i].port == claims[j].port && HostOf(names, claims[i]) == HostOf(names, claims[j]));
    }
  }

  /**
    A renewal that fails keeps the new expiry all the same. Two unexpired
    claims of the route then contradict each other (or one has no hostname),
    and as long as both are unexpired nothing can be applied, however the
    tables change otherwise.
  */
  lemma FailedRenewalBlocks(names: Naming, s: Ctl, k: string, ttl: int, now: int, clock: int, s': Ctl)
    returns (i: string, j: string)
    requires k in s.tables.claims && ttl > 0
    requires RenewRel(names, s, k, ttl, now, clock, s', false)
    ensures s'.tables == WithRenewal(s.tables, k, now, ttl) && s'.routes == s.routes
    ensures Holds(s'.tables.claims, now, i, s.tables.claims[k].ID())
         && Holds(s'.tables.claims, now, j, s.tables.claims[k].ID())
    ensures Blocking(names, i, s'.tables.claims[i], j, s'.tables.claims[j])
    ensures !Compatible(s'.tables.claims, names, now)
  {
    var claims, id := s'.tables.claims, s.tables.claims[k].ID();
    assert Holds(claims, now, k, id);
    i, j := UnrefreshableClash(claims, names, now, k, id);
    ClashIsBlocking(names, i, claims[i], j, claims[j]);
    ClashBlocks(claims, names, now, i, claims[i], j, claims[j]);
  }

  lemma ClashIsBlocking(names: Naming, i: string, a: Claim, j: string, b: Claim)
    requires Clash(names, a, b)
    ensures Blocking(names, i, a, j, b)
  {
    forall claims, later, routes | StillAsks(claims, later, i, a) && StillAsks(claims, later, j, b)
      ensures !Applicable(claims, names, later, routes)
    {
      ClashBlocks(claims, names, later, i, a, j, b);
    }
  }

  // ----- Legacy calls on routes held by leases -----

  /** The hostname a legacy claim of `id` asks for. */
  function LegacyHost(names: Naming, id: RouteID): Hostname {
    names(id.project, id.branch, "")
  }

  /**
    A heartbeat on such a route adopts it as a legacy claim. It succeeds
    exactly when the route's plain hostname can be built and, while one of its
    claims is unexpired, is the stored one; so never for a live lease under a
    subdomain of its own. A failed heartbeat leaves the adopted claim behind,
    with which the claims are not compatible. A successful one stores the route
    under its plain hostname without a check; so the lease invariant is kept
    exactly when the call succeeds and no other route has that hostname.
  */
  lemma LegacyAdoption(names: Naming, s: Ctl, id: RouteID, ttl: int, now: int, clock: int, s': Ctl, ok: bool)
    requires Good(names, s, now) && LowerNames(names) && clock != 0
    requires ValidID(id) && id !in s.tables.legacyIDs && IsManual(s.routes, id) && ttl > 0
    requires AdoptRel(names, s, id, ttl, now, clock, s', ok)
    ensures ok <==> LegacyHost(names, id).Host?
                    && (WantedID(s.tables.claims, now, id) ==> LegacyHost(names, id) == Host(s.routes[id].domain))
    ensures !ok ==> id in s'.tables.legacyIDs && s'.routes == s.routes && !Compatible(s'.tables.claims, names, now)
    ensures ok ==> (HostsDistinct(s'.routes) <==> !HostElsewhere(s.routes, id, LegacyHost(names, id)))
    ensures LeaseInv(names, s', now) <==> ok && !HostElsewhere(s.routes, id, LegacyHost(names, id))
  {
    AdoptionSucceeds(names, s, id, ttl, now, clock, s', ok);
    if ok {
      AdoptionIsExact(names, s, id, ttl, now, clock, s');
    } else {
      FailedAdoption(names, s, id, ttl, now, clock, s');
    }
  }

  /** The claim an adoption files. */
  function Adopted(s: Ctl, id: RouteID, ttl: int, now: int): Tables
    requires id in s.routes
  {
    WithLegacy(s.tables, id, s.routes[id].port, now, ttl)
  }

  lemma AdoptionRecasts(names: Naming, s: Ctl, id: RouteID, ttl: int, now: int)
    requires Index(s.tables) && ValidID(id) && id !in s.tables.legacyIDs && id in s.routes && ttl > 0
    ensures LegacyKey(id) !in s.tables.claims
    ensures Recast(s.tables.claims, Adopted(s, id, ttl, now).claims, LegacyKey(id), id, now)
    ensures var c := Adopted(s, id, ttl, now).claims[LegacyKey(id)];
            c.port == s.routes[id].port && HostOf(names, c) == LegacyHost(names, id)
  {
    LegacyLeaseIsKey(s.tables, id);
  }

  lemma AdoptionSucceeds(names: Naming, s: Ctl, id: RouteID, ttl: int, now: int, clock: int, s': Ctl, ok: bool)
    requires Good(names, s, now)
    requires ValidID(id) && id !in s.tables.legacyIDs && IsManual(s.routes, id) && ttl > 0
    requires AdoptRel(names, s, id, ttl, now, clock, s', ok)
    ensures ok <==> LegacyHost(names, id).Host?
                    && (WantedID(s.tables.claims, now, id) ==> LegacyHost(names, id) == Host(s.routes[id].domain))
  {
    var claims, k := Adopted(s, id, ttl, now).claims, LegacyKey(id);
    AdoptionRecasts(names, s, id, ttl, now);
    AdoptedHolders(s.tables.claims, claims, now, k, id);
    RefreshableExactly(s.tables.claims, claims, names, now, k, id, s.routes);
  }

  lemma AdoptionIsExact(names: Naming, s: Ctl, id: RouteID, ttl: int, now: int, clock: int, s': Ctl)
    requires Good(names, s, now) && LowerNames(names) && clock != 0
    requires ValidID(id) && id !in s.tables.legacyIDs && IsManual(s.routes, id) && ttl > 0
    requires AdoptRel(names, s, id, ttl, now, clock, s', true)
    ensures HostsDistinct(s'.routes) <==> !HostElsewhere(s.routes, id, LegacyHost(names, id))
    ensures LeaseInv(names, s', now) <==> !HostElsewhere(s.routes, id, LegacyHost(names, id))
  {
    var t := Adopted(s, id, ttl, now);
    var r :| RefreshVia(names, s.(tables := t), id, now, clock, s', r);
    AdoptionRecasts(names, s, id, ttl, now);
    RefreshIsExact(names, s, t, LegacyKey(id), id, now, clock, s', r);
    WithLegacyIndex(s.tables, id, s.routes[id].port, now, ttl);
  }

  lemma FailedAdoption(names: Naming, s: Ctl, id: RouteID, ttl: int, now: int, clock: int, s': Ctl)
    requires Good(names, s, now)
    requires ValidID(id) && id !in s.tables.legacyIDs && IsManual(s.routes, id) && ttl > 0
    requires AdoptRel(names, s, id, ttl, now, clock, s', false)
    ensures id in s'.tables.legacyIDs && s'.routes == s.routes && !Compatible(s'.tables.claims, names, now)
  {
    var claims := Adopted(s, id, ttl, now).claims;
    AdoptionRecasts(names, s, id, ttl, now);
    var i, j := UnrefreshableClash(claims, names, now, LegacyKey(id), id);
    ClashBlocks(claims, names, now, i, claims[i], j, claims[j]);
  }

  /**
    No adoption publishes: a ready controller stays ready, and what it
    published is still what it stores exactly when the call failed or the
    stored hostname was the plain one.
  */
  lemma AdoptionIsUnpublished(names: Naming, s: Ctl, id: RouteID, ttl: int, now: int, clock: int, s': Ctl, ok: bool)
    requires Good(names, s, now) && Ready(s)
    requires ValidID(id) && id !in s.tables.legacyIDs && IsManual(s.routes, id) && ttl > 0
    requires AdoptRel(names, s, id, ttl, now, clock, s', ok)
    ensures Ready(s') && s'.attempts == s.attempts && s'.board == s.board
    ensures BoardInv(s') <==> (ok ==> LegacyHost(names, id) == Host(s.routes[id].domain))
  {
    if ok {
      var t := Adopted(s, id, ttl, now);
      AdoptionRecasts(names, s, id, ttl, now);
      RefreshTargets(names, s, t, LegacyKey(id), id, now, clock, s');
    }
  }

  /** What a refresh makes of the routing, told from one of the claims. */
  lemma RefreshTargets(names: Naming, s: Ctl, t: Tables, k: string, id: RouteID, now: int, clock: int, s': Ctl)
    requires Holds(t.claims, now, k, id) && RefreshRel(names, s.(tables := t), id, now, clock, s', true)
    ensures s' == s.(tables := t, routes := s'.routes)
    ensures Targets(s'.routes) == Targets(s.routes)
       <==> StoredAs(s.routes, id, t.claims[k].port, HostOf(names, t.claims[k]))
  {
    var r :| RefreshVia(names, s.(tables := t), id, now, clock, s', r);
    TargetsKept(s.routes, id, r);
  }

  /** Apart from the adopted claim the same claims hold the route. */
  lemma AdoptedHolders(before: ClaimTable, after: ClaimTable, now: int, k: string, id: RouteID)
    requires k !in before && k in after && after == before[k := after[k]]
    ensures forall j :: Holds(after, now, j, id) && j != k <==> Holds(before, now, j, id)
  {
  }

  /**
    Deleting such a route past the tables leaves its claims unserved exactly
    when one of them has not expired.
  */
  lemma DirectDeleteServes(names: Naming, s: Ctl, id: RouteID, now: int)
    requires Good(names, s, now) && IsManual(s.routes, id)
    ensures DirectDelete(s, id, true).tables == s.tables
    ensures Served(s.tables.claims, names, now, DirectDelete(s, id, true).routes)
       <==> !WantedID(s.tables.claims, now, id)
  {
    var routes := s.routes - {id};
    if !WantedID(s.tables.claims, now, id) {
      forall k, i | Holds(s.tables.claims, now, k, i)
        ensures IsManual(routes, i) && routes[i].port == s.tables.claims[k].port
             && HostOf(names, s.tables.claims[k]) == Host(routes[i].domain)
      {
        assert i != id;
      }
    } else {
      var k :| Holds(s.tables.claims, now, k, id);
      assert !IsManual(routes, id);
    }
  }

  // ----- Lease calls on system claims -----

  /** A heartbeat on a system claim gives it an ordinary expiry: the table entry is then malformed. */
  lemma SystemHeartbeatBreaksExpiry(names: Naming, s: Ctl, k: string, requested: int, now: int, clock: int, pub: bool,
                                    s': Ctl, ok: bool)
    requires Index(s.tables) && k in s.tables.claims && s.tables.claims[k].system
    requires OpRel(names, s, HeartbeatLease(k, requested), now, clock, pub, s', ok)
    ensures Index(s'.tables) <==> now + RenewedTTL(s.tables.claims[k], requested) == SYSTEM_EXPIRY
  {
    assert ClaimFiled(s.tables, k);
    DaemonRenewalFiled(s.tables, k, RenewedTTL(s.tables.claims[k], requested), now);
  }

  /** The claim a heartbeat leaves in place of a system claim. */
  predicate Beaten(c: Claim, before: Claim, at: int) {
    c.ID() == before.ID() && c.system && c.expires == at
  }

  lemma SystemHeartbeatLeaves(names: Naming, s: Ctl, k: string, requested: int, now: int, clock: int, pub: bool,
                              s': Ctl, ok: bool)
    requires Index(s.tables) && k in s.tables.claims && s.tables.claims[k].system
    requires OpRel(names, s, HeartbeatLease(k, requested), now, clock, pub, s', ok)
    ensures k in s'.tables.claims
    ensures Beaten(s'.tables.claims[k], s.tables.claims[k], now + RenewedTTL(s.tables.claims[k], requested))
  {
    assert ClaimFiled(s.tables, k);
  }

  /**
    After it the daemon's route survives an applied transaction exactly when
    that comes before the new expiry or another unexpired claim asks for the
    route; nothing but the daemon's own claim made it permanent.
  */
  lemma BeatenRouteLapses(names: Naming, s: Ctl, edited: Tables, later: int, clock: int, pub: bool, s': Ctl, k: string,
                          before: Claim, at: int)
    requires k in edited.claims && Beaten(edited.claims[k], before, at)
    requires Transact(names, s, edited, later, clock, pub, s', Applied)
    ensures IsManual(s'.routes, before.ID())
       <==> later < at || exists j :: j != k && Holds(edited.claims, later, j, before.ID())
  {
    var mid, manual :| TransactVia(names, s, edited, later, clock, pub, s', Applied, mid, manual);
    WantedNotFound(edited.claims, names, later, manual);
    WithManualAt(s.routes, manual, clock, before.ID());
    WantedKeys(edited.claims, names, later, manual, before.ID());
    assert Holds(edited.claims, later, k, before.ID()) <==> later < at;
  }

  /** No sweep ever takes the expired system claim out of the tables. */
  lemma SweepsSpareSystem(names: Naming, s: Ctl, later: int, clock: int, pub: bool, s': Ctl, ok: bool, k: string)
    requires k in s.tables.claims && s.tables.claims[k].system
    requires OpRel(names, s, Expire, later, clock, pub, s', ok)
    ensures k in s'.tables.claims && s'.tables.claims[k] == s.tables.claims[k]
  {
    if Expired(s.tables.claims, later) != {} {
      var o :| Transact(names, s, WithoutExpired(s.tables, later), later, clock, pub, s', o) && ok == o.Applied?;
      TransactTables(names, s, WithoutExpired(s.tables, later), later, clock, pub, s', o);
      assert k !in Expired(s.tables.claims, later);
    }
  }

  lemma TransactTables(names: Naming, s: Ctl, edited: Tables, now: int, clock: int, pub: bool, s': Ctl, o: Outcome)
    requires Transact(names, s, edited, now, clock, pub, s', o)
    ensures s'.tables == if o.Applied? then edited else s.tables
  {
    var mid, manual :| TransactVia(names, s, edited, now, clock, pub, s', o, mid, manual);
  }

  /** After an applied edit a route is manual exactly when an unexpired claim asks for it. */
  lemma AppliedManual(names: Naming, s: Ctl, now: int, clock: int, pub: bool, s': Ctl, manual: Routes, id: RouteID)
    requires ApplyRel(names, s, now, clock, pub, s', manual, Applied)
    ensures s'.tables == s.tables && (IsManual(s'.routes, id) <==> WantedID(s.tables.claims, now, id))
  {
    WantedNotFound(s.tables.claims, names, now, manual);
    WithManualAt(s.routes, manual, clock, id);
    WantedKeys(s.tables.claims, names, now, manual, id);
  }

  lemma HoldersWithout(claims: ClaimTable, now: int, k: string, id: RouteID)
    ensures WantedID(claims - {k}, now, id) <==> exists j :: j != k && Holds(claims, now, j, id)
  {
    if j :| j != k && Holds(claims, now, j, id) {
      assert Holds(claims - {k}, now, j, id);
    }
    if j :| Holds(claims - {k}, now, j, id) {
      assert Holds(claims, now, j, id);
    }
  }

  /**
    A lease delete of a system claim is carried out like any other: it succeeds
    exactly when publishing does, and the daemon's route then stays exactly when
    another unexpired claim asks for it.
  */
  lemma SystemDeleteDrops(names: Naming, s: Ctl, k: string, now: int, clock: int, pub: bool, s': Ctl, ok: bool)
    requires Good(names, s, now) && LowerNames(names) && k in s.tables.claims && s.tables.claims[k].system
    requires OpRel(names, s, DeleteLease(k), now, clock, pub, s', ok)
    ensures ok <==> pub
    ensures ok ==> s'.tables == WithoutClient(s.tables, k)
    ensures ok ==> (IsManual(s'.routes, s.tables.claims[k].ID())
               <==> exists j :: j != k && Holds(s.tables.claims, now, j, s.tables.claims[k].ID()))
  {
    assert ClaimFiled(s.tables, k);
    var mid, manual, o :| SystemDelete(names, s, k, now, clock, pub, s', ok, mid, manual, o);
    RemovalIsApplicable(names, s, now, WithoutClient(s.tables, k).claims);
    if ok {
      var id := s.tables.claims[k].ID();
      AppliedManual(names, s.(tables := WithoutClient(s.tables, k)), now, clock, pub, s', manual, id);
      HoldersWithout(s.tables.claims, now, k, id);
    }
  }

  /** With the default TTL of a system claim the heartbeat expires it on the spot. */
  lemma SystemHeartbeatExpires(names: Naming, s: Ctl, req: Request, now: int, clock: int, pub: bool, s': Ctl, ok: bool)
    requires SystemKey(req.ID()) in s.tables.claims
    requires s.tables == WithSystem(s.tables, req)
    requires OpRel(names, s, HeartbeatLease(SystemKey(req.ID()), 0), now, clock, pub, s', ok)
    ensures !LiveClaim(s'.tables, SystemKey(req.ID()), now)
  {
    var k := SystemKey(req.ID());
    assert WithSystem(s.tables, req).claims[k].system;
    assert s'.tables == WithRenewal(s.tables, k, now, 0);
  }
}
