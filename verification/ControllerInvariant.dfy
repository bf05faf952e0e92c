/** The whole-run lease invariant and what applying and refreshing do to it. */
module ControllerInvariant {
  import opened RouteDomain
  import opened RouteStore
  import opened Reconcile
  import opened Claims
  import opened Leases
  import opened ControllerState

  // ----- The invariant -----

  /** Every unexpired claim has its manual route, with its port and hostname. */
  ghost predicate Served(claims: ClaimTable, names: Naming, now: int, routes: Routes) {
    forall k, id :: Holds(claims, now, k, id) ==>
      IsManual(routes, id) && routes[id].port == claims[k].port && HostOf(names, claims[k]) == Host(routes[id].domain)
  }

  ghost predicate NoSystemFor(claims: ClaimTable, id: RouteID) {
    forall k :: k in claims && claims[k].ID() == id ==> !claims[k].system
  }

  ghost predicate OnlySystemFor(claims: ClaimTable, id: RouteID) {
    forall k :: k in claims && claims[k].ID() == id ==> claims[k].system
  }

  /** Some unexpired claim asks for the route. */
  ghost predicate WantedID(claims: ClaimTable, now: int, id: RouteID) {
    exists k :: Holds(claims, now, k, id)
  }

  /** Routes of client and legacy claims carry the latest expiry; pure system routes never expire. */
  ghost predicate Dates(claims: ClaimTable, now: int, routes: Routes) {
    forall id :: id in routes && WantedID(claims, now, id) ==> DateOK(claims, now, id, routes[id])
  }

  ghost predicate DateOK(claims: ClaimTable, now: int, id: RouteID, r: Route) {
    && (NoSystemFor(claims, id) ==> r.source == Manual && IsLatest(claims, now, id, r.expiresAt))
    && (OnlySystemFor(claims, id) ==> r.source == System && r.expiresAt == 0)
  }

  ghost predicate HasClaim(claims: ClaimTable, id: RouteID) {
    exists k :: k in claims && claims[k].ID() == id
  }

  /** Every manual route has a claim, though it may have expired and not been swept. */
  ghost predicate Owned(claims: ClaimTable, routes: Routes) {
    forall id :: IsManual(routes, id) ==> HasClaim(claims, id)
  }

  /** No two stored routes share a hostname, and hostnames are in lower case. */
  ghost predicate HostsDistinct(routes: Routes) {
    && (forall id :: id in routes ==> Lower(routes[id].domain) == routes[id].domain)
    && forall a, b :: a in routes && b in routes && routes[a].domain == routes[b].domain ==> a == b
  }

  ghost predicate RouteInv(names: Naming, s: Ctl, now: int) {
    && Compatible(s.tables.claims, names, now)
    && Served(s.tables.claims, names, now, s.routes)
    && Dates(s.tables.claims, now, s.routes)
    && Owned(s.tables.claims, s.routes)
    && HostsDistinct(s.routes)
    && WellFiled(s.routes)
  }

  ghost predicate PositiveTTLs(claims: ClaimTable) {
    forall k :: k in claims && !claims[k].system ==> claims[k].ttl > 0
  }

  ghost predicate LeaseInv(names: Naming, s: Ctl, now: int) {
    Index(s.tables) && PositiveTTLs(s.tables.claims) && RouteInv(names, s, now)
  }

  // ----- Publication -----

  /** `revision` counts attempts; `applied` is the last successful one; errors mean the latest failed. */
  ghost predicate RevisionInv(s: Ctl) {
    && s.revision == |s.attempts| && s.applied <= s.revision
    && (s.failed <==> s.attempts != [] && !s.attempts[|s.attempts| - 1])
    && (s.attempts != [] && s.attempts[|s.attempts| - 1] ==> s.applied == s.revision)
    && (s.applied == s.revision && s.revision > 0 ==> s.attempts[|s.attempts| - 1])
  }

  /** `Ready` holds exactly when something was published and the latest attempt succeeded. */
  lemma ReadyMeans(s: Ctl)
    requires RevisionInv(s)
    ensures Ready(s) <==> s.attempts != [] && s.attempts[|s.attempts| - 1]
  {
  }

  /** A ready controller has published exactly the manual routing it stores. */
  ghost predicate BoardInv(s: Ctl) {
    Ready(s) ==> s.board == Targets(s.routes)
  }

  lemma AttemptedRevision(s: Ctl, pub: bool)
    requires RevisionInv(s)
    ensures RevisionInv(Attempted(s, pub)) && BoardInv(Attempted(s, pub))
  {
    ReadyMeans(Attempted(s, pub));
  }

  lemma TransactRevision(names: Naming, s: Ctl, edited: Tables, now: int, clock: int, pub: bool, s': Ctl, o: Outcome)
    requires RevisionInv(s) && BoardInv(s) && Transact(names, s, edited, now, clock, pub, s', o)
    ensures RevisionInv(s') && BoardInv(s')
  {
    var mid, manual :| TransactVia(names, s, edited, now, clock, pub, s', o, mid, manual);
    ReadyMeans(s');
  }

  // ----- A failed transaction -----

  lemma RollbackKeepsManual(routes: Routes, ids: set<RouteID>)
    ensures ManualPart(RolledBack(routes, ids)) == ManualPart(routes)
    ensures RolledBack(routes, ids) == routes <==> forall id :: IsFound(routes, id) ==> id !in ids
  {
    var r := RolledBack(routes, ids);
    assert forall id :: id in r <==> id in routes && (!routes[id].IsDiscovered() || id !in ids);
    assert forall id :: id in r ==> r[id] == routes[id];
    assert ManualPart(r) == ManualPart(routes);
    if forall id :: IsFound(routes, id) ==> id !in ids {
      assert forall id :: id in routes ==> id in r;
      assert r == routes;
    } else {
      var id :| IsFound(routes, id) && id in ids;
      assert id !in r;
    }
  }

  /**
    A failed transaction leaves the tables and the manual routes as before; the
    whole store is as before exactly when it was rejected before publishing or
    no wanted id was a discovered route.
  */
  lemma FailedTransaction(names: Naming, s: Ctl, edited: Tables, now: int, clock: int, pub: bool, s': Ctl, o: Outcome)
    requires Transact(names, s, edited, now, clock, pub, s', o) && !o.Applied?
    ensures s'.tables == s.tables && ManualPart(s'.routes) == ManualPart(s.routes)
    ensures s'.routes == s.routes
       <==> (o.Rejected? || forall id :: IsFound(s.routes, id) ==> !WantedID(edited.claims, now, id))
    ensures s'.applied == s.applied && s'.board == s.board
  {
    var mid, manual :| TransactVia(names, s, edited, now, clock, pub, s', o, mid, manual);
    if o.Unpublished? {
      RollbackKeepsManual(s.routes, manual.Keys);
      forall id
        ensures id in manual <==> WantedID(edited.claims, now, id)
      {
        WantedKeys(edited.claims, names, now, manual, id);
      }
    }
  }

  /** When a transaction succeeds. */
  lemma TransactSucceeds(names: Naming, s: Ctl, edited: Tables, now: int, clock: int, pub: bool, s': Ctl, o: Outcome)
    requires Transact(names, s, edited, now, clock, pub, s', o)
    ensures o.Applied? <==> Applicable(edited.claims, names, now, s.routes) && pub
    ensures o.Rejected? <==> !Applicable(edited.claims, names, now, s.routes)
  {
    var mid, manual :| TransactVia(names, s, edited, now, clock, pub, s', o, mid, manual);
  }

  // ----- A successful transaction establishes the route invariant -----

  lemma WithManualAt(routes: Routes, manual: Routes, clock: int, id: RouteID)
    requires forall i :: i in manual ==> !manual[i].IsDiscovered()
    ensures var r := WithManual(routes, manual, clock);
            && (IsManual(r, id) <==> id in manual)
            && (IsFound(r, id) <==> IsFound(routes, id) && id !in manual)
            && (id in manual ==> r[id] == Stamped(routes, manual[id], clock))
            && (IsFound(r, id) ==> r[id] == routes[id])
  {
  }

  lemma WantedNotFound(claims: ClaimTable, names: Naming, now: int, manual: Routes)
    requires WantedSet(claims, names, now, manual)
    ensures forall i :: i in manual ==> !manual[i].IsDiscovered() && manual[i].ID() == i
  {
    forall i | i in manual
      ensures !manual[i].IsDiscovered() && manual[i].ID() == i
    {
      assert Wanted(claims, names, now, i, manual[i]);
      var first :| WantedFrom(claims, names, now, i, manual[i], first);
    }
  }

  lemma InstalledServed(claims: ClaimTable, names: Naming, now: int, routes: Routes, manual: Routes, clock: int)
    requires WantedSet(claims, names, now, manual)
    ensures Served(claims, names, now, WithManual(routes, manual, clock))
  {
    var r := WithManual(routes, manual, clock);
    WantedNotFound(claims, names, now, manual);
    forall k, id | Holds(claims, now, k, id)
      ensures IsManual(r, id) && r[id].port == claims[k].port && HostOf(names, claims[k]) == Host(r[id].domain)
    {
      WithManualAt(routes, manual, clock, id);
      assert Wanted(claims, names, now, id, manual[id]);
    }
  }

  lemma InstalledOwned(claims: ClaimTable, names: Naming, now: int, routes: Routes, manual: Routes, clock: int)
    requires WantedSet(claims, names, now, manual)
    ensures Owned(claims, WithManual(routes, manual, clock))
  {
    var r := WithManual(routes, manual, clock);
    WantedNotFound(claims, names, now, manual);
    forall id | IsManual(r, id)
      ensures HasClaim(claims, id)
    {
      WithManualAt(routes, manual, clock, id);
      var first :| WantedFrom(claims, names, now, id, manual[id], first);
    }
  }

  lemma SystemWanted(t: Tables, names: Naming, now: int, id: RouteID, r: Route)
    requires Index(t) && Wanted(t.claims, names, now, id, r) && OnlySystemFor(t.claims, id)
    ensures r.source == System && r.expiresAt == 0
  {
    var first :| WantedFrom(t.claims, names, now, id, r, first);
    forall k | Holds(t.claims, now, k, id)
      ensures k == first
    {
      assert ClaimFiled(t, k) && ClaimFiled(t, first);
    }
  }

  lemma InstalledDates(t: Tables, names: Naming, now: int, routes: Routes, manual: Routes, clock: int)
    requires Index(t) && WantedSet(t.claims, names, now, manual)
    ensures Dates(t.claims, now, WithManual(routes, manual, clock))
  {
    var r := WithManual(routes, manual, clock);
    WantedNotFound(t.claims, names, now, manual);
    forall id | id in r && WantedID(t.claims, now, id)
      ensures DateOK(t.claims, now, id, r[id])
    {
      WithManualAt(routes, manual, clock, id);
      assert Wanted(t.claims, names, now, id, manual[id]);
      if NoSystemFor(t.claims, id) {
        WantedExpiry(t.claims, names, now, id, manual[id]);
      }
      if OnlySystemFor(t.claims, id) {
        SystemWanted(t, names, now, id, manual[id]);
      }
    }
  }

  lemma InstalledHosts(claims: ClaimTable, names: Naming, now: int, routes: Routes, manual: Routes, clock: int)
    requires LowerNames(names) && Applicable(claims, names, now, routes) && WantedSet(claims, names, now, manual)
    requires HostsDistinct(routes)
    ensures HostsDistinct(WithManual(routes, manual, clock))
  {
    var r := WithManual(routes, manual, clock);
    WantedNotFound(claims, names, now, manual);
    forall id | id in r
      ensures Lower(r[id].domain) == r[id].domain
    {
      WithManualAt(routes, manual, clock, id);
      if id in manual {
        var k := ClaimBehind(claims, names, now, manual, id);
      }
    }
    forall a, b | a in r && b in r && r[a].domain == r[b].domain
      ensures a == b
    {
      InstalledPair(claims, names, now, routes, manual, clock, a, b);
    }
  }

  lemma InstalledPair(claims: ClaimTable, names: Naming, now: int, routes: Routes, manual: Routes, clock: int,
                      a: RouteID, b: RouteID)
    requires Applicable(claims, names, now, routes) && WantedSet(claims, names, now, manual) && HostsDistinct(routes)
    requires var r := WithManual(routes, manual, clock); a in r && b in r && r[a].domain == r[b].domain
    ensures a == b
  {
    WantedNotFound(claims, names, now, manual);
    WithManualAt(routes, manual, clock, a);
    WithManualAt(routes, manual, clock, b);
    if a in manual && b in manual {
      WantedHostsDiffer(claims, names, now, manual, a, b);
    } else if a in manual {
      WantedMissesFound(claims, names, now, routes, manual, a, b);
    } else if b in manual {
      WantedMissesFound(claims, names, now, routes, manual, b, a);
    }
  }

  lemma WantedHostsDiffer(claims: ClaimTable, names: Naming, now: int, manual: Routes, a: RouteID, b: RouteID)
    requires Compatible(claims, names, now) && WantedSet(claims, names, now, manual)
    requires a in manual && b in manual && manual[a].domain == manual[b].domain
    ensures a == b
  {
    var j := ClaimBehind(claims, names, now, manual, a);
    var k := ClaimBehind(claims, names, now, manual, b);
    assert PairOK(names, claims[j], claims[k]);
  }

  lemma WantedMissesFound(claims: ClaimTable, names: Naming, now: int, routes: Routes, manual: Routes, a: RouteID,
                          b: RouteID)
    requires DiscoveredClear(claims, names, now, routes) && WantedSet(claims, names, now, manual)
    requires a in manual && IsFound(routes, b) && manual[a].domain == Lower(routes[b].domain)
    ensures a == b
  {
    var k := ClaimBehind(claims, names, now, manual, a);
  }

  /** An unexpired claim that a wanted route comes from. */
  lemma ClaimBehind(claims: ClaimTable, names: Naming, now: int, manual: Routes, id: RouteID) returns (k: string)
    requires WantedSet(claims, names, now, manual) && id in manual
    ensures Holds(claims, now, k, id) && HostOf(names, claims[k]) == Host(manual[id].domain)
  {
    assert Wanted(claims, names, now, id, manual[id]);
    k :| WantedFrom(claims, names, now, id, manual[id], k);
  }

  lemma InstalledFiled(claims: ClaimTable, names: Naming, now: int, routes: Routes, manual: Routes, clock: int)
    requires WantedSet(claims, names, now, manual) && WellFiled(routes) && clock != 0
    ensures WellFiled(WithManual(routes, manual, clock))
  {
    WantedNotFound(claims, names, now, manual);
    forall id | id in WithManual(routes, manual, clock)
      ensures WithManual(routes, manual, clock)[id].ID() == id && WithManual(routes, manual, clock)[id].createdAt != 0
    {
      WithManualAt(routes, manual, clock, id);
    }
  }

  lemma InstalledInv(names: Naming, s: Ctl, now: int, clock: int, manual: Routes)
    requires LowerNames(names) && Index(s.tables) && clock != 0
    requires Applicable(s.tables.claims, names, now, s.routes) && WantedSet(s.tables.claims, names, now, manual)
    requires HostsDistinct(s.routes) && WellFiled(s.routes)
    ensures RouteInv(names, Installed(s, manual, clock), now)
  {
    InstalledServed(s.tables.claims, names, now, s.routes, manual, clock);
    InstalledOwned(s.tables.claims, names, now, s.routes, manual, clock);
    InstalledDates(s.tables, names, now, s.routes, manual, clock);
    InstalledHosts(s.tables.claims, names, now, s.routes, manual, clock);
    InstalledFiled(s.tables.claims, names, now, s.routes, manual, clock);
  }

  // ----- A store with the same manual part keeps it -----

  lemma SameManual(names: Naming, s: Ctl, now: int, routes: Routes)
    requires RouteInv(names, s, now) && ManualPart(routes) == ManualPart(s.routes)
    requires HostsDistinct(routes) && WellFiled(routes)
    ensures RouteInv(names, s.(routes := routes), now)
  {
    forall id
      ensures IsManual(routes, id) <==> IsManual(s.routes, id)
      ensures IsManual(routes, id) ==> routes[id] == s.routes[id]
    {
      assert id in ManualPart(routes) <==> id in ManualPart(s.routes);
      assert IsManual(routes, id) ==> ManualPart(routes)[id] == routes[id];
      assert IsManual(s.routes, id) ==> ManualPart(s.routes)[id] == s.routes[id];
    }
    assert Served(s.tables.claims, names, now, routes);
    forall id | id in routes && WantedID(s.tables.claims, now, id)
      ensures DateOK(s.tables.claims, now, id, routes[id])
    {
      var k :| Holds(s.tables.claims, now, k, id);
    }
  }

  lemma RolledBackInv(names: Naming, s: Ctl, now: int, ids: set<RouteID>)
    requires RouteInv(names, s, now)
    ensures RouteInv(names, s.(routes := RolledBack(s.routes, ids)), now)
  {
    RollbackKeepsManual(s.routes, ids);
    SameManual(names, s, now, RolledBack(s.routes, ids));
  }

  /** Whatever the outcome, a transaction on well-indexed tables keeps the invariant. */
  lemma TransactKeeps(names: Naming, s: Ctl, edited: Tables, now: int, clock: int, pub: bool, s': Ctl, o: Outcome)
    requires LowerNames(names) && LeaseInv(names, s, now) && clock != 0
    requires Index(edited) && PositiveTTLs(edited.claims)
    requires Transact(names, s, edited, now, clock, pub, s', o)
    ensures LeaseInv(names, s', now)
  {
    var mid, manual :| TransactVia(names, s, edited, now, clock, pub, s', o, mid, manual);
    match o {
      case Applied => InstalledInv(names, s.(tables := edited), now, clock, manual);
      case Rejected =>
      case Unpublished => RolledBackInv(names, s, now, manual.Keys);
    }
  }

  // ----- Time and reconciliation -----

  /** Time passing only makes claims expire. */
  lemma TimeKeeps(names: Naming, s: Ctl, now: int, later: int)
    requires LeaseInv(names, s, now) && now <= later
    ensures LeaseInv(names, s, later)
  {
    var claims := s.tables.claims;
    assert forall k, id :: Holds(claims, later, k, id) ==> Holds(claims, now, k, id);
    forall id | id in s.routes && WantedID(claims, later, id)
      ensures DateOK(claims, later, id, s.routes[id])
    {
      var k :| Holds(claims, later, k, id);
      assert DateOK(claims, now, id, s.routes[id]);
      if NoSystemFor(claims, id) {
        var j :| Holds(claims, now, j, id) && claims[j].expires == s.routes[id].expiresAt;
        assert claims[k].expires <= claims[j].expires;
        assert Holds(claims, later, j, id);
      }
    }
  }

  /** What the scanner hands over: one lower-case hostname per id. */
  ghost predicate GoodCandidates(desired: seq<Route>) {
    OneHostPerID(desired) && forall i :: 0 <= i < |desired| ==> Lower(desired[i].domain) == desired[i].domain
  }

  /** The scanner builds every hostname from the id, so whatever it finds is within this contract. */
  lemma ScannedAreGood(baseDomain: string, desired: seq<Route>)
    requires forall i :: 0 <= i < |desired| ==>
               desired[i].domain == BuildDomain(baseDomain, desired[i].project, desired[i].branch)
    ensures OneHostPerID(desired) && GoodCandidates(desired)
  {
    forall i | 0 <= i < |desired|
      ensures Lower(desired[i].domain) == desired[i].domain
    {
      DomainIsLower(baseDomain, desired[i].project, desired[i].branch, "");
      LowerFixes("");
    }
  }

  /** A survivor's candidate, with the stored hostname. */
  lemma CandidateBehind(routes: Routes, desired: seq<Route>, clock: int, id: RouteID) returns (i: nat)
    requires OneHostPerID(desired) && IsFound(Reconciled(routes, desired, clock), id)
    ensures Survives(routes, desired, id)
    ensures i < |desired| && desired[i].ID() == id && Eligible(routes, desired[i])
    ensures Reconciled(routes, desired, clock)[id].domain == desired[i].domain
  {
    var r := Reconciled(routes, desired, clock);
    ReconcileRule(routes, desired, clock);
    assert IsManual(routes, id) ==> id in ManualPart(r);
    i :| 0 <= i < |desired| && desired[i].ID() == id && Eligible(routes, desired[i]);
  }

  lemma ManualStays(routes: Routes, desired: seq<Route>, clock: int, id: RouteID)
    requires OneHostPerID(desired) && IsManual(Reconciled(routes, desired, clock), id)
    ensures IsManual(routes, id) && Reconciled(routes, desired, clock)[id] == routes[id]
  {
    var r := Reconciled(routes, desired, clock);
    ReconcileRule(routes, desired, clock);
    assert id in ManualPart(r) && ManualPart(r)[id] == r[id];
  }

  lemma ReconcilePair(routes: Routes, desired: seq<Route>, clock: int, a: RouteID, b: RouteID)
    requires HostsDistinct(routes) && OneHostPerID(desired)
    requires var r := Reconciled(routes, desired, clock); IsFound(r, a) && b in r && r[a].domain == r[b].domain
    ensures a == b
  {
    var i := CandidateBehind(routes, desired, clock, a);
    if IsFound(Reconciled(routes, desired, clock), b) {
      var j := CandidateBehind(routes, desired, clock, b);
    } else {
      ManualStays(routes, desired, clock, b);
    }
  }

  lemma ReconcileHosts(routes: Routes, desired: seq<Route>, clock: int)
    requires HostsDistinct(routes) && GoodCandidates(desired)
    ensures HostsDistinct(Reconciled(routes, desired, clock))
  {
    var r := Reconciled(routes, desired, clock);
    forall id | id in r
      ensures Lower(r[id].domain) == r[id].domain
    {
      if IsFound(r, id) {
        var i := CandidateBehind(routes, desired, clock, id);
      } else {
        ManualStays(routes, desired, clock, id);
      }
    }
    forall a, b | a in r && b in r && r[a].domain == r[b].domain
      ensures a == b
    {
      if IsFound(r, a) {
        ReconcilePair(routes, desired, clock, a, b);
      } else if IsFound(r, b) {
        ReconcilePair(routes, desired, clock, b, a);
      } else {
        ManualStays(routes, desired, clock, a);
        ManualStays(routes, desired, clock, b);
      }
    }
  }

  lemma ReconcileFiled(routes: Routes, desired: seq<Route>, clock: int)
    requires WellFiled(routes) && clock != 0
    ensures WellFiled(Reconciled(routes, desired, clock))
  {
    ScanFiles(routes, desired);
    var next := ScanAll(routes, desired).next;
    assert Fileable(routes, next);
    CommitParts(routes, next, clock);
  }

  lemma ReconcileKeeps(names: Naming, s: Ctl, now: int, desired: seq<Route>, clock: int)
    requires LeaseInv(names, s, now) && GoodCandidates(desired) && clock != 0
    ensures LeaseInv(names, s.(routes := Reconciled(s.routes, desired, clock)), now)
    ensures Targets(Reconciled(s.routes, desired, clock)) == Targets(s.routes)
  {
    var r := Reconciled(s.routes, desired, clock);
    ReconcileRule(s.routes, desired, clock);
    ReconcileHosts(s.routes, desired, clock);
    ReconcileFiled(s.routes, desired, clock);
    SameManual(names, s, now, r);
    TargetsOfManual(r, s.routes);
  }

  lemma TargetsOfManual(a: Routes, b: Routes)
    requires ManualPart(a) == ManualPart(b)
    ensures Targets(a) == Targets(b)
  {
    forall id
      ensures IsManual(a, id) <==> IsManual(b, id)
      ensures IsManual(a, id) ==> a[id] == b[id]
    {
      assert id in ManualPart(a) <==> id in ManualPart(b);
      assert IsManual(a, id) ==> ManualPart(a)[id] == a[id];
      assert IsManual(b, id) ==> ManualPart(b)[id] == b[id];
    }
  }
}
