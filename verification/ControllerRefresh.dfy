/** What `refreshRouteLocked` does to the lease invariant: renewals and adoptions, exactly. */
module ControllerRefresh {
  import opened RouteDomain
  import opened RouteStore
  import opened Claims
  import opened Leases
  import opened ControllerState
  import opened ControllerInvariant

  /** A stored route of another id has the hostname. */
  ghost predicate HostElsewhere(routes: Routes, id: RouteID, host: Hostname) {
    exists i :: i in routes && i != id && Host(routes[i].domain) == host
  }

  /** The tables differ in claim `k` of route `id` only, which is now an unexpired claim of a client. */
  predicate Recast(before: ClaimTable, after: ClaimTable, k: string, id: RouteID, now: int) {
    && k in after && after == before[k := after[k]] && after[k].ID() == id && Live(after[k], now) && !after[k].system
    && (k in before ==> before[k].ID() == id)
  }

  lemma OtherHolders(before: ClaimTable, after: ClaimTable, k: string, id: RouteID, now: int, j: string, i: RouteID)
    requires Recast(before, after, k, id, now) && i != id
    ensures Holds(after, now, j, i) <==> Holds(before, now, j, i)
    ensures Holds(after, now, j, i) ==> j != k && after[j] == before[j]
  {
  }

  // ----- The parts of the invariant -----

  lemma RecastCompatible(names: Naming, s: Ctl, after: ClaimTable, k: string, id: RouteID, now: int)
    requires RouteInv(names, s, now) && Recast(s.tables.claims, after, k, id, now) && Refreshable(after, names, now, id)
    requires !HostElsewhere(s.routes, id, HostOf(names, after[k]))
    ensures Compatible(after, names, now)
  {
    var before := s.tables.claims;
    assert Holds(after, now, k, id);
    forall j | j in after && Live(after[j], now)
      ensures HostOf(names, after[j]).Host?
      ensures after[j].ID() != id ==> HostOf(names, after[j]) != HostOf(names, after[k])
    {
      if after[j].ID() == id {
        assert Holds(after, now, j, id);
      } else {
        OtherHolders(before, after, k, id, now, j, after[j].ID());
        assert Holds(before, now, j, after[j].ID());
      }
    }
    forall i, j | i in after && j in after && Live(after[i], now) && Live(after[j], now)
      ensures PairOK(names, after[i], after[j])
    {
      RecastPair(names, s, after, k, id, now, i, j);
    }
  }

  lemma RecastPair(names: Naming, s: Ctl, after: ClaimTable, k: string, id: RouteID, now: int, i: string, j: string)
    requires Compatible(s.tables.claims, names, now) && Recast(s.tables.claims, after, k, id, now)
    requires Refreshable(after, names, now, id)
    requires forall l :: l in after && Live(after[l], now) && after[l].ID() != id ==>
               HostOf(names, after[l]) != HostOf(names, after[k])
    requires i in after && j in after && Live(after[i], now) && Live(after[j], now)
    ensures PairOK(names, after[i], after[j])
  {
    assert Holds(after, now, k, id);
    if after[i].ID() == id {
      assert Holds(after, now, i, id);
    } else {
      OtherHolders(s.tables.claims, after, k, id, now, i, after[i].ID());
    }
    if after[j].ID() == id {
      assert Holds(after, now, j, id);
    } else {
      OtherHolders(s.tables.claims, after, k, id, now, j, after[j].ID());
    }
  }

  lemma RecastServed(names: Naming, s: Ctl, after: ClaimTable, k: string, id: RouteID, now: int, r: Route)
    requires Served(s.tables.claims, names, now, s.routes) && Recast(s.tables.claims, after, k, id, now)
    requires Refreshed(after, names, now, id, r)
    ensures Served(after, names, now, s.routes[id := r])
  {
    var routes := s.routes[id := r];
    forall j, i | Holds(after, now, j, i)
      ensures IsManual(routes, i) && routes[i].port == after[j].port
          && HostOf(names, after[j]) == Host(routes[i].domain)
    {
      if i != id {
        OtherHolders(s.tables.claims, after, k, id, now, j, i);
      }
    }
  }

  lemma RecastDates(names: Naming, s: Ctl, after: ClaimTable, k: string, id: RouteID, now: int, r: Route)
    requires Dates(s.tables.claims, now, s.routes) && Recast(s.tables.claims, after, k, id, now)
    requires Refreshed(after, names, now, id, r)
    ensures Dates(after, now, s.routes[id := r])
  {
    var before, routes := s.tables.claims, s.routes[id := r];
    forall i | i in routes && WantedID(after, now, i)
      ensures DateOK(after, now, i, routes[i])
    {
      if i != id {
        var j :| Holds(after, now, j, i);
        OtherHolders(before, after, k, id, now, j, i);
        assert Holds(before, now, j, i);
        OtherDate(before, after, k, id, now, i, s.routes[i]);
      } else {
        assert !OnlySystemFor(after, id);
      }
    }
  }

  lemma OtherDate(before: ClaimTable, after: ClaimTable, k: string, id: RouteID, now: int, i: RouteID, r: Route)
    requires Recast(before, after, k, id, now) && i != id && DateOK(before, now, i, r)
    ensures DateOK(after, now, i, r)
  {
    forall j
      ensures Holds(after, now, j, i) <==> Holds(before, now, j, i)
      ensures j in after && after[j].ID() == i <==> j in before && before[j].ID() == i
      ensures j in after && after[j].ID() == i ==> after[j] == before[j]
    {
      OtherHolders(before, after, k, id, now, j, i);
    }
    if NoSystemFor(after, i) {
      assert NoSystemFor(before, i);
      var j :| Holds(before, now, j, i) && before[j].expires == r.expiresAt;
      assert Holds(after, now, j, i);
    }
    if OnlySystemFor(after, i) {
      assert OnlySystemFor(before, i);
    }
  }

  lemma RecastOwned(before: ClaimTable, after: ClaimTable, k: string, id: RouteID, now: int, routes: Routes, r: Route)
    requires Owned(before, routes) && Recast(before, after, k, id, now)
    ensures Owned(after, routes[id := r])
  {
    forall i | IsManual(routes[id := r], i)
      ensures HasClaim(after, i)
    {
      if i == id {
        assert after[k].ID() == id;
      } else {
        assert IsManual(routes, i);
        var j :| j in before && before[j].ID() == i;
        assert after[j] == before[j];
      }
    }
  }

  lemma ReplacedHosts(routes: Routes, id: RouteID, r: Route)
    requires HostsDistinct(routes) && Lower(r.domain) == r.domain
    ensures HostsDistinct(routes[id := r]) <==> !HostElsewhere(routes, id, Host(r.domain))
  {
    var after := routes[id := r];
    if i :| i in routes && i != id && r.domain == routes[i].domain {
      assert after[i].domain == after[id].domain;
    }
  }

  /** The refreshed route keeps the route invariant exactly when no other route has its hostname. */
  lemma RefreshIsExact(names: Naming, s: Ctl, t: Tables, k: string, id: RouteID, now: int, clock: int, s': Ctl,
                       r: Route)
    requires RouteInv(names, s, now) && LowerNames(names) && clock != 0 && Recast(s.tables.claims, t.claims, k, id, now)
    requires Refreshable(t.claims, names, now, id) && RefreshVia(names, s.(tables := t), id, now, clock, s', r)
    ensures HostsDistinct(s'.routes) <==> !HostElsewhere(s.routes, id, HostOf(names, t.claims[k]))
    ensures RouteInv(names, s', now) <==> !HostElsewhere(s.routes, id, HostOf(names, t.claims[k]))
  {
    assert Holds(t.claims, now, k, id);
    assert HostOf(names, t.claims[k]) == Host(r.domain);
    ReplacedHosts(s.routes, id, r);
    if !HostElsewhere(s.routes, id, HostOf(names, t.claims[k])) {
      RecastCompatible(names, s, t.claims, k, id, now);
      RecastServed(names, s, t.claims, k, id, now, r);
      RecastDates(names, s, t.claims, k, id, now, r);
      RecastOwned(s.tables.claims, t.claims, k, id, now, s.routes, r);
    }
  }

  /** The published routing is unchanged exactly when the route was stored with this target. */
  lemma TargetsKept(routes: Routes, id: RouteID, r: Route)
    requires !r.IsDiscovered()
    ensures Targets(routes[id := r]) == Targets(routes)
       <==> IsManual(routes, id) && r.port == routes[id].port && r.domain == routes[id].domain
  {
    var after := Targets(routes[id := r]);
    assert id in after && after[id] == Target(r.port, r.domain);
    if IsManual(routes, id) && r.port == routes[id].port && r.domain == routes[id].domain {
      assert after == Targets(routes);
    }
  }

  // ----- Renewals of unexpired claims -----

  lemma RenewalRecasts(t: Tables, k: string, ttl: int, now: int)
    requires k in t.claims && !t.claims[k].system && ttl > 0
    ensures Recast(t.claims, WithRenewal(t, k, now, ttl).claims, k, t.claims[k].ID(), now)
  {
  }

  /** An unexpired claim's own route has its hostname, so no other has it. */
  lemma LiveHostIsFree(names: Naming, s: Ctl, k: string, now: int)
    requires RouteInv(names, s, now) && k in s.tables.claims && Live(s.tables.claims[k], now)
    ensures !HostElsewhere(s.routes, s.tables.claims[k].ID(), HostOf(names, s.tables.claims[k]))
  {
    assert Holds(s.tables.claims, now, k, s.tables.claims[k].ID());
  }

  lemma RenewalHolds(t: Tables, k: string, now: int, ttl: int, j: string)
    requires k in t.claims && Live(t.claims[k], now) && ttl > 0 && j in t.claims
    ensures var u := WithRenewal(t, k, now, ttl).claims;
            && (Live(u[j], now) <==> Live(t.claims[j], now))
            && u[j].ID() == t.claims[j].ID() && u[j].port == t.claims[j].port && u[j].subdomain == t.claims[j].subdomain
  {
  }

  /** Renewing an unexpired claim always succeeds. */
  lemma RenewalSucceeds(names: Naming, s: Ctl, k: string, ttl: int, now: int, clock: int, s': Ctl, ok: bool)
    requires RouteInv(names, s, now) && k in s.tables.claims && Live(s.tables.claims[k], now) && ttl > 0
    requires RenewRel(names, s, k, ttl, now, clock, s', ok)
    ensures ok
  {
    var t, id := WithRenewal(s.tables, k, now, ttl), s.tables.claims[k].ID();
    assert Holds(t.claims, now, k, id);
    forall j | Holds(t.claims, now, j, id)
      ensures Holds(s.tables.claims, now, j, id)
      ensures t.claims[j].port == s.tables.claims[j].port
      ensures HostOf(names, t.claims[j]) == HostOf(names, s.tables.claims[j])
    {
      RenewalHolds(s.tables, k, now, ttl, j);
    }
  }

  /** A renewal of an unexpired claim only moves dates: the route keeps its port and hostname. */
  lemma RenewKeeps(names: Naming, s: Ctl, k: string, ttl: int, now: int, clock: int, s': Ctl, ok: bool)
    requires LeaseInv(names, s, now) && LowerNames(names) && clock != 0
    requires k in s.tables.claims && Live(s.tables.claims[k], now) && !s.tables.claims[k].system && ttl > 0
    requires RenewRel(names, s, k, ttl, now, clock, s', ok)
    ensures LeaseInv(names, s', now) && Targets(s'.routes) == Targets(s.routes)
    ensures s' == s.(tables := s'.tables, routes := s'.routes)
  {
    RenewalSucceeds(names, s, k, ttl, now, clock, s', ok);
    var id, t := s.tables.claims[k].ID(), WithRenewal(s.tables, k, now, ttl);
    var r :| RefreshVia(names, s.(tables := t), id, now, clock, s', r);
    WithRenewalIndex(s.tables, k, now, ttl);
    RenewalPositive(s.tables, k, now, ttl);
    RenewedRoute(names, s, k, ttl, now, clock, t, s', r);
  }

  lemma RenewalPositive(t: Tables, k: string, now: int, ttl: int)
    requires PositiveTTLs(t.claims) && k in t.claims && ttl > 0
    ensures PositiveTTLs(WithRenewal(t, k, now, ttl).claims)
  {
  }

  lemma RenewedRoute(names: Naming, s: Ctl, k: string, ttl: int, now: int, clock: int, t: Tables, s': Ctl, r: Route)
    requires RouteInv(names, s, now) && LowerNames(names) && clock != 0
    requires k in s.tables.claims && Live(s.tables.claims[k], now) && !s.tables.claims[k].system && ttl > 0
    requires t == WithRenewal(s.tables, k, now, ttl) && Refreshable(t.claims, names, now, s.tables.claims[k].ID())
    requires RefreshVia(names, s.(tables := t), s.tables.claims[k].ID(), now, clock, s', r)
    ensures RouteInv(names, s', now) && Targets(s'.routes) == Targets(s.routes)
  {
    var id := s.tables.claims[k].ID();
    RenewalRecasts(s.tables, k, ttl, now);
    LiveHostIsFree(names, s, k, now);
    RefreshIsExact(names, s, t, k, id, now, clock, s', r);
    RenewalTarget(names, s, k, ttl, now, id, r);
    TargetsKept(s.routes, id, r);
  }

  lemma RenewalTarget(names: Naming, s: Ctl, k: string, ttl: int, now: int, id: RouteID, r: Route)
    requires Served(s.tables.claims, names, now, s.routes)
    requires k in s.tables.claims && Live(s.tables.claims[k], now) && ttl > 0
    requires id == s.tables.claims[k].ID() && Refreshed(WithRenewal(s.tables, k, now, ttl).claims, names, now, id, r)
    ensures IsManual(s.routes, id) && r.port == s.routes[id].port && r.domain == s.routes[id].domain
  {
    assert Holds(s.tables.claims, now, k, id);
    assert Holds(WithRenewal(s.tables, k, now, ttl).claims, now, k, id);
  }
}
