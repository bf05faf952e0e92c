/** The `Controller`: its fields, the operations that edit and undo them, and its store. */
module Controllers {
  import opened RouteDomain
  import opened RouteStore
  import opened Claims
  import opened Leases
  import opened ControllerState
  import opened ControllerInvariant
  import opened ControllerRuns

  const NO_ROUTE := Route("", "", 0, "", "", 0, 0, Manual, "")

  /** What `SetManual(previous)` makes of the store after a manual set is withdrawn. */
  lemma RollbackMeans(routes: Routes, manual: Routes, clock: int, previous: seq<Route>)
    requires WellFiled(routes) && Lists(previous, ManualPart(routes))
    requires forall i :: i in manual ==> !manual[i].IsDiscovered()
    ensures SetManualTo(WithManual(routes, manual, clock), previous, clock) == RolledBack(routes, manual.Keys)
  {
    var next := WithManual(routes, manual, clock);
    SetManualMeans(next, previous, ManualPart(routes), clock);
    forall id
      ensures id in SetManualTo(next, previous, clock) <==> id in RolledBack(routes, manual.Keys)
      ensures id in RolledBack(routes, manual.Keys) ==>
                SetManualTo(next, previous, clock)[id] == RolledBack(routes, manual.Keys)[id]
    {
      WithManualAt(routes, manual, clock, id);
    }
  }

  predicate FiledManual(manual: Routes) {
    forall i :: i in manual ==> !manual[i].IsDiscovered() && manual[i].ID() == i
  }

  lemma RolledBackFiled(routes: Routes, ids: set<RouteID>)
    requires WellFiled(routes)
    ensures WellFiled(RolledBack(routes, ids))
  {
  }

  lemma WithManualFiled(routes: Routes, manual: Routes, clock: int)
    requires WellFiled(routes) && clock != 0
    requires forall i :: i in manual ==> !manual[i].IsDiscovered() && manual[i].ID() == i
    ensures WellFiled(WithManual(routes, manual, clock))
  {
    forall id | id in WithManual(routes, manual, clock)
      ensures WithManual(routes, manual, clock)[id].ID() == id && WithManual(routes, manual, clock)[id].createdAt != 0
    {
      WithManualAt(routes, manual, clock, id);
    }
  }

  /** The owners table decides about discovered hostnames. */
  lemma OwnersDecide(claims: ClaimTable, names: Naming, now: int, owners: map<string, RouteID>, id: RouteID, d: string)
    requires OwnersMatch(claims, names, now, owners)
    ensures (d in owners ==> owners[d] == id)
       <==> forall k :: k in claims && Live(claims[k], now) && HostOf(names, claims[k]) == Host(d) ==>
           claims[k].ID() == id
  {
    if d in owners {
      var k :| OwnedBy(claims, names, now, k, owners[d], d);
    }
    forall k | k in claims && Live(claims[k], now) && HostOf(names, claims[k]) == Host(d)
      ensures d in owners && owners[d] == claims[k].ID()
    {
      assert Holds(claims, now, k, claims[k].ID());
    }
  }

  class Controller {
    const store: Store
    const names: Naming
    var claims: ClaimTable
    var clients: map<string, string>
    var legacyIDs: map<RouteID, string>
    var revision: nat
    var appliedRevision: nat
    var failed: bool
    /** Every publication started, with its outcome, and the manual routing last published. */
    var attempts: seq<bool>
    var board: Board

    function State(): Ctl
      reads this, store
    {
      Ctl(Tables(claims, clients, legacyIDs), store.routes, revision, appliedRevision, failed, attempts, board)
    }

    /** The tables are indexed and the store is well filed. */
    ghost predicate Valid()
      reads this, store
    {
      Index(Tables(claims, clients, legacyIDs)) && WellFiled(store.routes) && LowerNames(names)
    }

    constructor (store: Store, names: Naming)
      requires LowerNames(names)
      ensures this.store == store && this.names == names
      ensures State() == Fresh().(routes := store.routes)
    {
      this.store, this.names := store, names;
      claims, clients, legacyIDs := map[], map[], map[];
      revision, appliedRevision, failed, attempts, board := 0, 0, false, [], map[];
    }

    predicate IsReady()
      reads this
    {
      appliedRevision > 0 && revision == appliedRevision && !failed
    }

    /** Counts a publication whose outcome is `pub`. */
    method Record(pub: bool)
      modifies this`appliedRevision, this`failed, this`attempts, this`board
      ensures attempts == old(attempts) + [pub] && failed == !pub
      ensures appliedRevision == if pub then revision else old(appliedRevision)
      ensures board == if pub then Targets(store.routes) else old(board)
    {
      attempts, failed := attempts + [pub], !pub;
      if pub {
        appliedRevision, board := revision, Targets(store.routes);
      }
    }

    method Initialize(pub: bool) returns (ok: bool)
      modifies this
      ensures ok == pub && State() == Attempted(old(State()), pub)
    {
      revision := revision + 1;
      Record(pub);
      ok := pub;
    }

    // ----- applyLocked -----

    method DiscoveredConflict(now: int, owners: map<string, RouteID>) returns (conflict: bool)
      requires OwnersMatch(claims, names, now, owners)
      ensures conflict <==> !DiscoveredClear(claims, names, now, store.routes)
    {
      var todo := store.routes.Keys;
      while todo != {}
        invariant todo <= store.routes.Keys
        invariant forall id, k :: IsFound(store.routes, id) && id !in todo && k in claims && Live(claims[k], now) ==>
                    (HostOf(names, claims[k]) == Host(Lower(store.routes[id].domain)) ==> claims[k].ID() == id)
      {
        var id :| id in todo;
        todo := todo - {id};
        var existing := store.routes[id];
        if existing.IsDiscovered() {
          var d := Lower(existing.domain);
          OwnersDecide(claims, names, now, owners, id, d);
          if d in owners && owners[d] != id {
            return true;
          }
        }
      }
      return false;
    }

    method ListRoutes(manual: Routes) returns (desired: seq<Route>)
      requires forall i :: i in manual ==> manual[i].ID() == i
      ensures Lists(desired, manual)
    {
      desired := [];
      var todo := manual.Keys;
      while todo != {}
        invariant todo <= manual.Keys
        invariant Lists(desired, map i | i in manual && i !in todo :: manual[i])
      {
        var id :| id in todo;
        ghost var seen := map i | i in manual && i !in todo :: manual[i];
        ListsAppend(desired, seen, manual[id]);
        desired := desired + [manual[id]];
        assert seen[id := manual[id]] == map i | i in manual && i !in todo - {id} :: manual[i];
        todo := todo - {id};
      }
      assert manual == map i | i in manual && i !in todo :: manual[i];
    }

    method ApplyLocked(now: int, clock: int, pub: bool) returns (o: Outcome, manual: Routes)
      requires WellFiled(store.routes) && LowerNames(names) && clock != 0
      modifies this, store
      ensures ApplyRel(names, old(State()), now, clock, pub, State(), manual, o)
      ensures o.Applied? <==> Applicable(old(claims), names, now, old(store.routes)) && pub
      ensures o.Rejected? <==> !Applicable(old(claims), names, now, old(store.routes))
      ensures claims == old(claims) && clients == old(clients) && legacyIDs == old(legacyIDs)
      ensures WellFiled(store.routes)
    {
      var collected := CollectManual(claims, names, now);
      match collected
      case Refused => return Rejected, map[];
      case Going(acc) =>
        manual := acc.manual;
        var conflict := DiscoveredConflict(now, acc.owners);
        if conflict {
          return Rejected, manual;
        }
        WantedNotFound(claims, names, now, manual);
        o := Publish(manual, clock, pub);
    }

    method SwapIn(manual: Routes, clock: int) returns (previous: seq<Route>)
      requires WellFiled(store.routes) && clock != 0
      requires FiledManual(manual)
      modifies store
      ensures store.routes == WithManual(old(store.routes), manual, clock)
      ensures Lists(previous, ManualPart(old(store.routes)))
      ensures WellFiled(store.routes)
    {
      var desired := ListRoutes(manual);
      SetManualMeans(store.routes, desired, manual, clock);
      WithManualFiled(store.routes, manual, clock);
      previous := store.SetManual(desired, clock);
    }

    method SwapBack(previous: seq<Route>, ghost routes: Routes, ghost manual: Routes, clock: int)
      requires WellFiled(routes) && Lists(previous, ManualPart(routes)) && WellFiled(store.routes)
      requires FiledManual(manual)
      requires store.routes == WithManual(routes, manual, clock)
      modifies store
      ensures store.routes == RolledBack(routes, manual.Keys) && WellFiled(store.routes)
    {
      RolledBackFiled(routes, manual.Keys);
      RollbackMeans(routes, manual, clock, previous);
      var _ := store.SetManual(previous, clock);
    }

    /** Swaps the manual set in, publishes, and swaps the previous one back on failure. */
    method Publish(manual: Routes, clock: int, pub: bool) returns (o: Outcome)
      requires WellFiled(store.routes) && clock != 0 && FiledManual(manual)
      modifies this, store
      ensures o == if pub then Applied else Unpublished
      ensures State() == if pub then Installed(old(State()), manual, clock) else Withdrawn(old(State()), manual)
      ensures WellFiled(store.routes)
    {
      ghost var routes := store.routes;
      var previous := SwapIn(manual, clock);
      revision := revision + 1;
      if !pub {
        SwapBack(previous, routes, manual, clock);
        Record(false);
        o := Unpublished;
      } else {
        Record(true);
        o := Applied;
      }
    }

    // ----- refreshRouteLocked -----

    method RefreshRouteLocked(id: RouteID, now: int, clock: int) returns (ok: bool, route: Route)
      requires WellFiled(store.routes) && clock != 0
      modifies store
      ensures RefreshRel(names, old(State()), id, now, clock, State(), ok)
      ensures ok ==> Reissued(claims, names, now, old(store.routes), store.routes, clock, id, route)
      ensures WellFiled(store.routes)
    {
      var found, selected := SelectRoute(id, now);
      if !found {
        return false, NO_ROUTE;
      }
      if id in store.routes {
        selected := selected.(createdAt := store.routes[id].createdAt);
      }
      assert Refreshed(claims, names, now, id, selected);
      ghost var before := State();
      store.Add(selected, clock);
      assert RefreshVia(names, before, id, now, clock, State(), store.routes[id]);
      return true, selected;
    }

    /** The loop of `refreshRouteLocked`, over the claims in whatever order the map yields them. */
    method SelectRoute(id: RouteID, now: int) returns (ok: bool, selected: Route)
      ensures ok <==> Refreshable(claims, names, now, id)
      ensures ok ==> Refreshed(claims, names, now, id, selected) && selected.createdAt == 0
    {
      var todo, some := claims.Keys, false;
      selected := NO_ROUTE;
      while todo != {}
        invariant todo <= claims.Keys
        invariant some <==> exists k :: k !in todo && Holds(claims, now, k, id)
        invariant some ==> Selected(claims, names, now, id, selected, todo)
      {
        var k :| k in todo;
        ghost var todo0 := todo;
        todo := todo - {k};
        var claim := claims[k];
        if claim.ID() == id && Live(claim, now) {
          assert Holds(claims, now, k, id);
          var host := HostOf(names, claim);
          if host.TooLong? {
            return false, selected;
          }
          if !some {
            some := true;
            selected := Route(claim.project, claim.branch, claim.port, "", host.name, 0, claim.expires, Manual, "");
          } else {
            if selected.port != claim.port || host.name != selected.domain {
              SelectedDiffers(claims, names, now, id, selected, todo0, k);
              return false, selected;
            }
            if claim.expires > selected.expiresAt {
              selected := selected.(expiresAt := claim.expires);
            }
          }
        }
      }
      ok := some;
    }

    // ----- Operations -----

    method RegisterLegacy(id: RouteID, port: int, now: int, ttl: int, clock: int, pub: bool)
      returns (ok: bool, route: Route)
      requires Valid() && ValidID(id) && clock != 0
      modifies this, store
      ensures Valid() && OpRel(names, old(State()), Op.RegisterLegacy(id, port, ttl), now, clock, pub, State(), ok)
      ensures ok && ttl > 0 ==> Granted(claims, names, now, old(store.routes), store.routes, clock, id, route)
    {
      ghost var s := State();
      var leaseID, hadPrevious, previous := PutLegacy(id, port, now, ttl);
      ghost var edited := Tables(claims, clients, legacyIDs);
      var o, manual := ApplyLocked(now, clock, pub);
      ghost var mid := State();
      if !o.Applied? {
        UndoLegacy(id, leaseID, hadPrevious, previous, s.tables, edited);
      }
      TransactDone(names, s, edited, now, clock, pub, State(), o, mid, manual);
      ok, route := o.Applied?, if id in manual then manual[id] else NO_ROUTE;
      if ok && ttl > 0 {
        NewestGranted(names, s, edited, now, clock, pub, mid, manual, leaseID, id);
      }
    }

    method PutLegacy(id: RouteID, port: int, now: int, ttl: int)
      returns (leaseID: string, hadPrevious: bool, previous: Claim)
      requires Index(Tables(claims, clients, legacyIDs)) && ValidID(id)
      modifies this`claims, this`legacyIDs
      ensures Tables(claims, clients, legacyIDs) ==
          WithLegacy(old(Tables(claims, clients, legacyIDs)), id, port, now, ttl)
      ensures Index(Tables(claims, clients, legacyIDs))
      ensures leaseID == LegacyLease(old(Tables(claims, clients, legacyIDs)), id)
      ensures hadPrevious == (leaseID in old(claims)) && (hadPrevious ==> previous == old(claims)[leaseID])
      ensures leaseID in claims && claims[leaseID].ID() == id && claims[leaseID].expires == now + ttl
    {
      WithLegacyIndex(Tables(claims, clients, legacyIDs), id, port, now, ttl);
      leaseID := if id in legacyIDs then legacyIDs[id] else LegacyKey(id);
      hadPrevious := leaseID in claims;
      previous := ClaimAt(Tables(claims, clients, legacyIDs), leaseID);
      claims := claims[leaseID := Claim(leaseID, "", id.project, id.branch, port, "", ttl, now + ttl, true, false)];
      legacyIDs := legacyIDs[id := leaseID];
    }

    method UndoLegacy(id: RouteID, leaseID: string, hadPrevious: bool, previous: Claim, ghost t: Tables,
                      ghost edited: Tables)
      requires Index(t) && ValidID(id) && leaseID == LegacyLease(t, id)
      requires hadPrevious == (leaseID in t.claims) && (hadPrevious ==> previous == t.claims[leaseID])
      requires Tables(claims, clients, legacyIDs) == edited
      requires edited.clients == t.clients && edited.legacyIDs == t.legacyIDs[id := leaseID]
      requires edited.claims == t.claims[leaseID := ClaimAt(edited, leaseID)]
      modifies this`claims, this`legacyIDs
      ensures Tables(claims, clients, legacyIDs) == t
    {
      LegacyUndone(t, edited, id);
      if hadPrevious {
        claims := claims[leaseID := previous];
      } else {
        claims, legacyIDs := claims - {leaseID}, legacyIDs - {id};
      }
    }

    method HeartbeatLegacy(id: RouteID, requestedTTL: int, defaultTTL: int, now: int, clock: int, ghost pub: bool)
      returns (ok: bool, route: Route)
      requires Valid() && ValidID(id) && clock != 0
      modifies this`claims, this`legacyIDs, store
      ensures Valid()
      ensures ok ==> Reissued(claims, names, now, old(store.routes), store.routes, clock, id, route)
      ensures OpRel(names, old(State()), Op.HeartbeatLegacy(id, requestedTTL, defaultTTL), now, clock, pub, State(), ok)
    {
      if id !in legacyIDs {
        if id !in store.routes || store.routes[id].IsDiscovered() {
          return false, NO_ROUTE;
        }
        AdoptLegacy(id, if requestedTTL <= 0 then defaultTTL else requestedTTL, now);
        ExtendAdopted(id, requestedTTL, now);
        ok, route := RefreshRouteLocked(id, now, clock);
      } else {
        ExtendLegacy(id, requestedTTL, now);
        ok, route := RefreshRouteLocked(id, now, clock);
      }
    }

    /** Extending a claim that was just adopted with the same TTL leaves it as it is. */
    method ExtendAdopted(id: RouteID, requestedTTL: int, now: int)
      requires Index(Tables(claims, clients, legacyIDs)) && id in legacyIDs
      requires legacyIDs[id] in claims
      requires requestedTTL > 0 ==> claims[legacyIDs[id]].ttl == requestedTTL
      requires claims[legacyIDs[id]].expires == now + claims[legacyIDs[id]].ttl
      modifies this`claims
      ensures claims == old(claims)
    {
      RenewClaim(legacyIDs[id], requestedTTL, now);
    }

    /** Makes a legacy claim out of the stored route. */
    method AdoptLegacy(id: RouteID, ttl: int, now: int)
      requires Valid() && ValidID(id) && id in store.routes && id !in legacyIDs
      modifies this`claims, this`legacyIDs
      ensures Tables(claims, clients, legacyIDs)
           == WithLegacy(old(Tables(claims, clients, legacyIDs)), id, store.routes[id].port, now, ttl)
      ensures Index(Tables(claims, clients, legacyIDs))
      ensures id in legacyIDs && legacyIDs[id] in claims
      ensures claims[legacyIDs[id]].ttl == ttl && claims[legacyIDs[id]].expires == now + ttl
    {
      var existing := store.routes[id];
      assert existing.ID() == id;
      WithLegacyIndex(Tables(claims, clients, legacyIDs), id, existing.port, now, ttl);
      var leaseID := LegacyKey(id);
      claims := claims[leaseID :=
        Claim(leaseID, "", existing.project, existing.branch, existing.port, "", ttl, now + ttl, true, false)];
      legacyIDs := legacyIDs[id := leaseID];
    }

    method ExtendLegacy(id: RouteID, requestedTTL: int, now: int)
      requires Index(Tables(claims, clients, legacyIDs)) && id in legacyIDs
      modifies this`claims
      ensures legacyIDs[id] in old(claims) && old(claims)[legacyIDs[id]].ID() == id
      ensures Tables(claims, clients, legacyIDs)
           == WithRenewal(old(Tables(claims, clients, legacyIDs)), legacyIDs[id], now,
                          RenewedTTL(old(claims)[legacyIDs[id]], requestedTTL))
      ensures Index(Tables(claims, clients, legacyIDs))
    {
      ghost var t := Tables(claims, clients, legacyIDs);
      assert LegacyEntry(t, id);
      WithRenewalIndex(t, legacyIDs[id], now, RenewedTTL(claims[legacyIDs[id]], requestedTTL));
      RenewClaim(legacyIDs[id], requestedTTL, now);
    }

    /** Extends a claim; the table entry changes whether or not the refresh then succeeds. */
    method RenewClaim(leaseID: string, requestedTTL: int, now: int)
      requires leaseID in claims
      modifies this`claims
      ensures claims == old(claims)[leaseID :=
                Renewed(old(claims)[leaseID], now, RenewedTTL(old(claims)[leaseID], requestedTTL))]
    {
      var claim := claims[leaseID];
      if requestedTTL > 0 {
        claim := claim.(ttl := requestedTTL);
      }
      claims := claims[leaseID := claim.(expires := now + claim.ttl)];
    }

    method DeleteLegacy(id: RouteID, now: int, clock: int, pub: bool) returns (ok: bool)
      requires Valid() && clock != 0
      modifies this, store
      ensures Valid() && OpRel(names, old(State()), Op.DeleteLegacy(id), now, clock, pub, State(), ok)
    {
      if id !in legacyIDs {
        if id !in store.routes || store.routes[id].IsDiscovered() {
          return false;
        }
        ok := DeleteDirectly(id, clock, pub);
        return;
      }
      ok := DropLegacy(id, now, clock, pub);
    }

    /** The arm for a legacy claim: taken out, and put back if the rest cannot be applied. */
    method DropLegacy(id: RouteID, now: int, clock: int, pub: bool) returns (ok: bool)
      requires Valid() && clock != 0 && id in legacyIDs
      modifies this, store
      ensures Valid()
      ensures TransactOK(names, old(State()), WithoutLegacy(old(State()).tables, id), now, clock, pub, State(), ok)
    {
      ghost var s := State();
      var leaseID, previous := TakeLegacy(id);
      ghost var edited := Tables(claims, clients, legacyIDs);
      var o, manual := ApplyLocked(now, clock, pub);
      ghost var mid := State();
      if !o.Applied? {
        claims, legacyIDs := claims[leaseID := previous], legacyIDs[id := leaseID];
      }
      TransactDone(names, s, edited, now, clock, pub, State(), o, mid, manual);
      ok := o.Applied?;
    }

    method TakeLegacy(id: RouteID) returns (leaseID: string, previous: Claim)
      requires Index(Tables(claims, clients, legacyIDs)) && id in legacyIDs
      modifies this`claims, this`legacyIDs
      ensures Tables(claims, clients, legacyIDs) == WithoutLegacy(old(Tables(claims, clients, legacyIDs)), id)
      ensures Index(Tables(claims, clients, legacyIDs))
      ensures claims[leaseID := previous] == old(claims) && legacyIDs[id := leaseID] == old(legacyIDs)
    {
      ghost var t := Tables(claims, clients, legacyIDs);
      WithoutLegacyIndex(t, id);
      assert LegacyEntry(t, id);
      leaseID := legacyIDs[id];
      previous := claims[leaseID];
      claims, legacyIDs := claims - {leaseID}, legacyIDs - {id};
    }

    method DeleteDirectly(id: RouteID, clock: int, pub: bool) returns (ok: bool)
      requires WellFiled(store.routes) && IsManual(store.routes, id)
      modifies this`revision, this`appliedRevision, this`failed, this`attempts, this`board, store
      ensures ok == pub && State() == DirectDelete(old(State()), id, pub)
      ensures WellFiled(store.routes)
    {
      var existing := store.routes[id];
      ghost var before := store.routes;
      var _ := store.Delete(id);
      revision := revision + 1;
      if !pub {
        store.Add(existing, clock);
        assert store.routes == before;
      }
      Record(pub);
      ok := pub;
    }

    method CreateLease(clientID: string, req: Request, now: int, ttl: int, newLeaseID: string, clock: int, pub: bool)
      returns (ok: bool, claim: Claim, route: Route, created: bool)
      requires Valid() && ValidID(req.ID()) && clock != 0 && NoColon(newLeaseID) && newLeaseID !in claims
      modifies this, store
      ensures Valid()
      ensures OpRel(names, old(State()), Op.CreateLease(clientID, req, ttl, newLeaseID), now, clock, pub, State(), ok)
      ensures created <==> ok && clientID !in old(clients)
      ensures ok ==> clientID in clients && clients[clientID] in claims && claims[clients[clientID]] == claim
                     && claim.clientID == clientID && SameRequest(claim, req) && claim.expires == now + ttl
      ensures created && ttl > 0 ==>
                Granted(claims, names, now, old(store.routes), store.routes, clock, req.ID(), route)
      ensures ok && !created ==>
                Reissued(claims, names, now, old(store.routes), store.routes, clock, req.ID(), route)
    {
      ghost var s := State();
      created := false;
      if clientID == "" {
        return false, ClaimAt(Tables(map[], map[], map[]), ""), NO_ROUTE, false;
      }
      if clientID in clients {
        ok, claim, route := RenewClient(clientID, req, now, ttl, clock, newLeaseID, pub);
        return;
      }
      created, claim, route := AddClient(clientID, req, now, ttl, newLeaseID, clock, pub);
      ok := created;
    }

    /** The other arm: a new lease, taken back if it cannot be applied. */
    method AddClient(clientID: string, req: Request, now: int, ttl: int, leaseID: string, clock: int, pub: bool)
      returns (ok: bool, claim: Claim, route: Route)
      requires Valid() && ValidID(req.ID()) && clock != 0 && NoColon(leaseID) && leaseID !in claims
      requires clientID != "" && clientID !in clients
      modifies this, store
      ensures Valid()
      ensures TransactOK(names, old(State()), WithClient(old(State()).tables, leaseID, clientID, req, now, ttl), now,
                         clock, pub, State(), ok)
      ensures ok ==> clientID in clients && clients[clientID] in claims && claims[clients[clientID]] == claim
                     && claim.clientID == clientID && SameRequest(claim, req) && claim.expires == now + ttl
      ensures ok && ttl > 0 ==> Granted(claims, names, now, old(store.routes), store.routes, clock, req.ID(), route)
    {
      ghost var s := State();
      claim := PutClient(clientID, req, now, ttl, leaseID);
      ghost var edited := Tables(claims, clients, legacyIDs);
      var o, manual := ApplyLocked(now, clock, pub);
      ghost var mid := State();
      if !o.Applied? {
        claims, clients := claims - {leaseID}, clients - {clientID};
        assert Tables(claims, clients, legacyIDs) == s.tables;
      }
      TransactDone(names, s, edited, now, clock, pub, State(), o, mid, manual);
      ok, route := o.Applied?, if req.ID() in manual then manual[req.ID()] else NO_ROUTE;
      if ok && ttl > 0 {
        NewestGranted(names, s, edited, now, clock, pub, mid, manual, leaseID, req.ID());
      }
    }

    /** The idempotent arm of `CreateLease`. */
    method RenewClient(clientID: string, req: Request, now: int, ttl: int, clock: int, ghost otherID: string,
                       ghost pub: bool)
      returns (ok: bool, claim: Claim, route: Route)
      requires Valid() && clientID != "" && clientID in clients && clock != 0
      modifies this`claims, store
      ensures Valid()
      ensures OpRel(names, old(State()), Op.CreateLease(clientID, req, ttl, otherID), now, clock, pub, State(), ok)
      ensures ok ==> clients[clientID] in claims && claims[clients[clientID]] == claim
                     && claim.clientID == clientID && SameRequest(claim, req) && claim.expires == now + ttl
      ensures ok ==> Reissued(claims, names, now, old(store.routes), store.routes, clock, req.ID(), route)
    {
      ghost var t := Tables(claims, clients, legacyIDs);
      assert ClientEntry(t, clientID);
      var leaseID := clients[clientID];
      claim := claims[leaseID];
      if !SameRequest(claim, req) {
        return false, ClaimAt(Tables(map[], map[], map[]), ""), NO_ROUTE;
      }
      WithRenewalIndex(t, leaseID, now, ttl);
      claim := claim.(ttl := ttl, expires := now + ttl);
      claims := claims[leaseID := claim];
      assert Tables(claims, clients, legacyIDs) == WithRenewal(t, leaseID, now, ttl);
      ok, route := RefreshRouteLocked(req.ID(), now, clock);
    }

    method PutClient(clientID: string, req: Request, now: int, ttl: int, leaseID: string) returns (claim: Claim)
      requires Index(Tables(claims, clients, legacyIDs)) && ValidID(req.ID()) && NoColon(leaseID) && leaseID !in claims
      requires clientID != "" && clientID !in clients
      modifies this`claims, this`clients
      ensures Tables(claims, clients, legacyIDs)
           == WithClient(old(Tables(claims, clients, legacyIDs)), leaseID, clientID, req, now, ttl)
      ensures Index(Tables(claims, clients, legacyIDs))
      ensures claims - {leaseID} == old(claims) && clients - {clientID} == old(clients)
      ensures claim.clientID == clientID && SameRequest(claim, req) && claim.expires == now + ttl
      ensures leaseID in claims && claims[leaseID] == claim
    {
      WithClientIndex(Tables(claims, clients, legacyIDs), leaseID, clientID, req, now, ttl);
      claim := Claim(leaseID, clientID, req.project, req.branch, req.port, req.subdomain, ttl, now + ttl, false, false);
      claims, clients := claims[leaseID := claim], clients[clientID := leaseID];
    }

    method SetSystemRoute(req: Request, now: int, clock: int, pub: bool) returns (ok: bool, route: Route)
      requires Valid() && ValidID(req.ID()) && clock != 0
      modifies this, store
      ensures Valid() && OpRel(names, old(State()), Op.SetSystemRoute(req), now, clock, pub, State(), ok)
      ensures ok && now < SYSTEM_EXPIRY ==>
                Granted(claims, names, now, old(store.routes), store.routes, clock, req.ID(), route)
    {
      ghost var s := State();
      var leaseID, hadPrevious, previous := PutSystem(req);
      ghost var edited := Tables(claims, clients, legacyIDs);
      var o, manual := ApplyLocked(now, clock, pub);
      ghost var mid := State();
      if !o.Applied? {
        claims := if hadPrevious then claims[leaseID := previous] else claims - {leaseID};
      }
      TransactDone(names, s, edited, now, clock, pub, State(), o, mid, manual);
      ok, route := o.Applied?, if req.ID() in manual then manual[req.ID()] else NO_ROUTE;
      if ok && now < SYSTEM_EXPIRY {
        NewestGranted(names, s, edited, now, clock, pub, mid, manual, leaseID, req.ID());
      }
    }

    method PutSystem(req: Request) returns (leaseID: string, hadPrevious: bool, previous: Claim)
      requires Index(Tables(claims, clients, legacyIDs)) && ValidID(req.ID())
      modifies this`claims
      ensures Tables(claims, clients, legacyIDs) == WithSystem(old(Tables(claims, clients, legacyIDs)), req)
      ensures Index(Tables(claims, clients, legacyIDs))
      ensures (if hadPrevious then claims[leaseID := previous] else claims - {leaseID}) == old(claims)
      ensures leaseID == SystemKey(req.ID())
    {
      WithSystemIndex(Tables(claims, clients, legacyIDs), req);
      leaseID := SystemKey(req.ID());
      hadPrevious, previous := leaseID in claims, ClaimAt(Tables(claims, clients, legacyIDs), leaseID);
      claims := claims[leaseID :=
        Claim(leaseID, "", req.project, req.branch, req.port, req.subdomain, 0, SYSTEM_EXPIRY, false, true)];
    }

    method DeleteSystemRoute(id: RouteID, now: int, clock: int, pub: bool) returns (ok: bool)
      requires Valid() && ValidID(id) && clock != 0
      modifies this, store
      ensures Valid() && OpRel(names, old(State()), Op.DeleteSystemRoute(id), now, clock, pub, State(), ok)
    {
      ghost var s := State();
      var leaseID := SystemKey(id);
      if leaseID !in claims {
        return true;
      }
      WithoutSystemIndex(s.tables, id);
      var previous := claims[leaseID];
      claims := claims - {leaseID};
      var o, manual := ApplyLocked(now, clock, pub);
      ghost var mid := State();
      if !o.Applied? {
        claims := claims[leaseID := previous];
        assert Tables(claims, clients, legacyIDs) == s.tables;
      }
      TransactDone(names, s, WithoutSystem(s.tables, id), now, clock, pub, State(), o, mid, manual);
      ok := o.Applied?;
    }

    method HeartbeatLease(leaseID: string, requestedTTL: int, now: int, clock: int, ghost pub: bool)
      returns (ok: bool, claim: Claim, route: Route)
      requires Valid() && clock != 0
      modifies this`claims, store
      ensures (leaseID in old(claims) ==> !old(claims)[leaseID].system) ==> Valid()
      ensures OpRel(names, old(State()), Op.HeartbeatLease(leaseID, requestedTTL), now, clock, pub, State(), ok)
      ensures ok ==> leaseID in claims && claim == claims[leaseID]
                     && Reissued(claims, names, now, old(store.routes), store.routes, clock, claim.ID(), route)
    {
      ghost var s := State();
      if leaseID !in claims || claims[leaseID].legacy {
        return false, ClaimAt(Tables(map[], map[], map[]), ""), NO_ROUTE;
      }
      if !claims[leaseID].system {
        WithRenewalIndex(s.tables, leaseID, now, RenewedTTL(claims[leaseID], requestedTTL));
      }
      var id := claims[leaseID].ID();
      RenewClaim(leaseID, requestedTTL, now);
      claim := claims[leaseID];
      ok, route := RefreshRouteLocked(id, now, clock);
    }

    method DeleteLease(leaseID: string, now: int, clock: int, pub: bool) returns (ok: bool)
      requires Valid() && clock != 0
      modifies this, store
      ensures ok || (leaseID in old(claims) ==> !old(claims)[leaseID].system) ==> Valid()
      ensures OpRel(names, old(State()), Op.DeleteLease(leaseID), now, clock, pub, State(), ok)
    {
      ghost var s := State();
      if leaseID !in claims || claims[leaseID].legacy {
        return true;
      }
      var claim := TakeLease(leaseID);
      ghost var edited := Tables(claims, clients, legacyIDs);
      var o, manual := ApplyLocked(now, clock, pub);
      ghost var mid := State();
      if !o.Applied? {
        claims, clients := claims[leaseID := claim], clients[claim.clientID := leaseID];
      }
      ok := o.Applied?;
      if claim.system {
        assert SystemDelete(names, s, leaseID, now, clock, pub, State(), ok, mid, manual, o);
      } else {
        TransactDone(names, s, edited, now, clock, pub, State(), o, mid, manual);
      }
    }

    method TakeLease(leaseID: string) returns (claim: Claim)
      requires Index(Tables(claims, clients, legacyIDs)) && leaseID in claims && !claims[leaseID].legacy
      modifies this`claims, this`clients
      ensures claim == old(claims)[leaseID]
      ensures Tables(claims, clients, legacyIDs) == WithoutClient(old(Tables(claims, clients, legacyIDs)), leaseID)
      ensures Index(Tables(claims, clients, legacyIDs)) && claims[leaseID := claim] == old(claims)
      ensures clients[claim.clientID := leaseID]
           == if claim.system then old(clients)["" := leaseID] else old(clients)
    {
      ghost var t := Tables(claims, clients, legacyIDs);
      claim := claims[leaseID];
      assert ClaimFiled(t, leaseID);
      if claim.system {
        NoEmptyClient(t);
        WithoutSystemIndex(t, claim.ID());
      } else {
        WithoutClientIndex(t, leaseID);
      }
      claims, clients := claims - {leaseID}, clients - {claim.clientID};
    }

    method Expire(now: int, clock: int, pub: bool) returns (swept: nat, ok: bool)
      requires Valid() && clock != 0
      modifies this, store
      ensures Valid() && OpRel(names, old(State()), Op.Expire, now, clock, pub, State(), ok)
      ensures ok ==> swept == |Expired(old(claims), now)|
    {
      ghost var s := State();
      WithoutExpiredIndex(s.tables, now);
      var expired := TakeExpired(now);
      if |expired| == 0 {
        NothingExpired(s.tables, now);
        SweepIdle(names, s, now, clock, pub);
        return 0, true;
      }
      ok := ApplySweep(expired, s, now, clock, pub);
      SweepDone(names, s, now, clock, pub, State(), ok);
      swept := if ok then |expired| else 0;
    }

    /** Applies what is left after a sweep of `s`, or puts everything back. */
    method ApplySweep(expired: seq<Claim>, ghost s: Ctl, now: int, clock: int, pub: bool) returns (ok: bool)
      requires Index(s.tables) && WellFiled(store.routes) && LowerNames(names) && clock != 0
      requires State() == s.(tables := WithoutExpired(s.tables, now)) && Index(State().tables)
      requires ListsExpired(expired, s.tables.claims, Expired(s.tables.claims, now))
      modifies this, store
      ensures Valid()
      ensures TransactOK(names, s, WithoutExpired(s.tables, now), now, clock, pub, State(), ok)
    {
      var o, manual := ApplyLocked(now, clock, pub);
      ghost var mid := State();
      if !o.Applied? {
        PutBack(expired, s.tables, now);
      }
      TransactDone(names, s, WithoutExpired(s.tables, now), now, clock, pub, State(), o, mid, manual);
      ok := o.Applied?;
    }

    method TakeExpired(now: int) returns (expired: seq<Claim>)
      requires Index(Tables(claims, clients, legacyIDs))
      modifies this`claims, this`clients, this`legacyIDs
      ensures Tables(claims, clients, legacyIDs) == WithoutExpired(old(Tables(claims, clients, legacyIDs)), now)
      ensures ListsExpired(expired, old(claims), Expired(old(claims), now))
      ensures |expired| == |Expired(old(claims), now)|
    {
      ghost var t := Tables(claims, clients, legacyIDs);
      ghost var gone: set<string> := {};
      expired := [];
      var todo := claims.Keys;
      SweepStarts(t, now);
      while todo != {}
        invariant todo <= t.claims.Keys
        invariant Sweeping(t, now, todo, gone, expired, Tables(claims, clients, legacyIDs))
      {
        var leaseID :| leaseID in todo;
        expired, gone := SweepOne(leaseID, now, expired, t, todo, gone);
        todo := todo - {leaseID};
      }
      SweepEnds(t, now, gone, expired, Tables(claims, clients, legacyIDs));
    }

    /** One round of the sweep: the claim goes if it is not the daemon's and has expired. */
    method SweepOne(leaseID: string, now: int, expired: seq<Claim>, ghost t: Tables, ghost todo: set<string>,
                    ghost gone: set<string>)
      returns (expired': seq<Claim>, ghost gone': set<string>)
      requires Index(t) && leaseID in todo && leaseID in t.claims
      requires Sweeping(t, now, todo, gone, expired, Tables(claims, clients, legacyIDs))
      modifies this`claims, this`clients, this`legacyIDs
      ensures Sweeping(t, now, todo - {leaseID}, gone', expired', Tables(claims, clients, legacyIDs))
    {
      expired', gone' := expired, gone;
      SweepRound(t, now, todo, gone, expired, Tables(claims, clients, legacyIDs), leaseID);
      var claim := claims[leaseID];
      if !claim.system && !Live(claim, now) {
        TakeClaim(leaseID, t, gone);
        expired', gone' := expired + [claim], gone + {leaseID};
      }
    }

    method TakeClaim(leaseID: string, ghost t: Tables, ghost gone: set<string>)
      requires Tables(claims, clients, legacyIDs) == Without(t, gone)
      requires leaseID in t.claims && leaseID !in gone
      modifies this`claims, this`clients, this`legacyIDs
      ensures Tables(claims, clients, legacyIDs) == Without(t, gone + {leaseID})
    {
      TakeOne(t, gone, leaseID);
      var claim := claims[leaseID];
      claims := claims - {leaseID};
      if claim.legacy {
        legacyIDs := legacyIDs - {claim.ID()};
      } else {
        clients := clients - {claim.clientID};
      }
    }

    method PutBack(expired: seq<Claim>, ghost t: Tables, ghost now: int)
      requires Index(t) && Tables(claims, clients, legacyIDs) == WithoutExpired(t, now)
      requires ListsExpired(expired, t.claims, Expired(t.claims, now))
      modifies this`claims, this`clients, this`legacyIDs
      ensures Tables(claims, clients, legacyIDs) == t
    {
      AllOut(expired, t.claims, Expired(t.claims, now));
      for i := 0 to |expired|
        invariant Tables(claims, clients, legacyIDs) == Without(t, OutFrom(expired, i))
      {
        PutBackOne(expired, i, t, now);
      }
      assert OutFrom(expired, |expired|) == {};
      WithoutNothing(t);
    }

    method PutBackOne(expired: seq<Claim>, i: nat, ghost t: Tables, ghost now: int)
      requires Index(t) && i < |expired| && ListsExpired(expired, t.claims, Expired(t.claims, now))
      requires Tables(claims, clients, legacyIDs) == Without(t, OutFrom(expired, i))
      modifies this`claims, this`clients, this`legacyIDs
      ensures Tables(claims, clients, legacyIDs) == Without(t, OutFrom(expired, i + 1))
    {
      OutNext(expired, t.claims, Expired(t.claims, now), i);
      OutExpired(expired, t, now, i);
      RestoreClaim(expired[i], t, OutFrom(expired, i));
    }

    method RestoreClaim(claim: Claim, ghost t: Tables, ghost gone: set<string>)
      requires Index(t) && Tables(claims, clients, legacyIDs) == Without(t, gone)
      requires gone <= t.claims.Keys && forall j :: j in gone ==> !t.claims[j].system
      requires claim.leaseID in gone && t.claims[claim.leaseID] == claim
      modifies this`claims, this`clients, this`legacyIDs
      ensures Tables(claims, clients, legacyIDs) == Without(t, gone - {claim.leaseID})
    {
      RestoreOne(t, gone, claim.leaseID);
      claims := claims[claim.leaseID := claim];
      if claim.legacy {
        legacyIDs := legacyIDs[claim.ID() := claim.leaseID];
      } else {
        clients := clients[claim.clientID := claim.leaseID];
      }
    }
  }

  lemma WithoutNothing(t: Tables)
    ensures Without(t, {}) == t
  {
  }

  /** The lease ids of `expired[i..]`. */
  ghost function OutFrom(expired: seq<Claim>, i: nat): set<string> {
    set j | i <= j < |expired| :: expired[j].leaseID
  }

  lemma OutExpired(expired: seq<Claim>, t: Tables, now: int, i: nat)
    requires ListsExpired(expired, t.claims, Expired(t.claims, now))
    ensures OutFrom(expired, i) <= t.claims.Keys && forall k :: k in OutFrom(expired, i) ==> !t.claims[k].system
  {
  }

  lemma AllOut(expired: seq<Claim>, claims: ClaimTable, gone: set<string>)
    requires ListsExpired(expired, claims, gone)
    ensures OutFrom(expired, 0) == gone
  {
    forall k | k in gone
      ensures k in OutFrom(expired, 0)
    {
      var i :| 0 <= i < |expired| && expired[i].leaseID == k;
    }
  }

  lemma OutNext(expired: seq<Claim>, claims: ClaimTable, gone: set<string>, i: nat)
    requires ListsExpired(expired, claims, gone) && i < |expired|
    ensures expired[i].leaseID in OutFrom(expired, i) && expired[i].leaseID in claims
    ensures claims[expired[i].leaseID] == expired[i]
    ensures OutFrom(expired, i + 1) == OutFrom(expired, i) - {expired[i].leaseID}
  {
    assert OutFrom(expired, i) == OutFrom(expired, i + 1) + {expired[i].leaseID};
  }

  /** `expired` lists the claims of `gone`, each once. */
  ghost predicate ListsExpired(expired: seq<Claim>, claims: ClaimTable, gone: set<string>) {
    && (forall i, j :: 0 <= i < j < |expired| ==> expired[i].leaseID != expired[j].leaseID)
    && (forall i :: 0 <= i < |expired| ==> expired[i].leaseID in gone && expired[i].leaseID in claims
                                           && claims[expired[i].leaseID] == expired[i])
    && forall k :: k in gone ==> exists i :: 0 <= i < |expired| && expired[i].leaseID == k
  }

  /** The claims outside `todo` were swept: `gone` of them left, into `expired`. */
  ghost predicate Sweeping(t: Tables, now: int, todo: set<string>, gone: set<string>, expired: seq<Claim>, u: Tables) {
    && gone == Expired(t.claims, now) - todo && u == Without(t, gone)
    && ListsExpired(expired, t.claims, gone) && |expired| == |gone|
  }

  lemma SweepStarts(t: Tables, now: int)
    ensures Sweeping(t, now, t.claims.Keys, {}, [], t)
  {
    WithoutNothing(t);
  }

  lemma SweepEnds(t: Tables, now: int, gone: set<string>, expired: seq<Claim>, u: Tables)
    requires Sweeping(t, now, {}, gone, expired, u)
    ensures u == WithoutExpired(t, now) && ListsExpired(expired, t.claims, Expired(t.claims, now))
    ensures |expired| == |Expired(t.claims, now)|
  {
    assert gone == Expired(t.claims, now);
  }

  lemma NothingExpired(t: Tables, now: int)
    requires |Expired(t.claims, now)| == 0
    ensures Expired(t.claims, now) == {} && WithoutExpired(t, now) == t
  {
    WithoutNothing(t);
  }

  lemma ExpiredNext(claims: ClaimTable, now: int, todo: set<string>, k: string)
    requires k in todo && k in claims
    ensures Expired(claims, now) - (todo - {k})
         == if !claims[k].system && !Live(claims[k], now) then (Expired(claims, now) - todo) + {k}
            else Expired(claims, now) - todo
  {
  }

  lemma ExpiredAppend(expired: seq<Claim>, t: Tables, gone: set<string>, k: string)
    requires ListsExpired(expired, t.claims, gone) && k in t.claims && k !in gone && Index(t)
    ensures ListsExpired(expired + [t.claims[k]], t.claims, gone + {k})
  {
    var longer := expired + [t.claims[k]];
    assert ClaimFiled(t, k);
    assert longer[|expired|].leaseID == k;
    forall j | j in gone
      ensures exists i :: 0 <= i < |longer| && longer[i].leaseID == j
    {
      var i :| 0 <= i < |expired| && expired[i].leaseID == j;
      assert longer[i].leaseID == j;
    }
  }

  /** Both ways a round of the sweep can go. */
  lemma SweepRound(t: Tables, now: int, todo: set<string>, gone: set<string>, expired: seq<Claim>, u: Tables, k: string)
    requires Index(t) && k in todo && k in t.claims && Sweeping(t, now, todo, gone, expired, u)
    ensures k in u.claims && u.claims[k] == t.claims[k] && k !in gone && u == Without(t, gone)
    ensures if !t.claims[k].system && !Live(t.claims[k], now)
            then Sweeping(t, now, todo - {k}, gone + {k}, expired + [t.claims[k]], Without(t, gone + {k}))
            else Sweeping(t, now, todo - {k}, gone, expired, u)
  {
    StillThere(t, gone, k);
    if !t.claims[k].system && !Live(t.claims[k], now) {
      SweepTakes(t, now, todo, gone, expired, u, k);
    } else {
      SweepSpares(t, now, todo, gone, expired, u, k);
    }
  }

  lemma SweepTakes(t: Tables, now: int, todo: set<string>, gone: set<string>, expired: seq<Claim>, u: Tables, k: string)
    requires Index(t) && k in todo && k in t.claims && Sweeping(t, now, todo, gone, expired, u)
    requires !t.claims[k].system && !Live(t.claims[k], now)
    ensures Sweeping(t, now, todo - {k}, gone + {k}, expired + [t.claims[k]], Without(t, gone + {k}))
  {
    ExpiredNext(t.claims, now, todo, k);
    ExpiredAppend(expired, t, gone, k);
  }

  lemma SweepSpares(t: Tables, now: int, todo: set<string>, gone: set<string>, expired: seq<Claim>, u: Tables,
                    k: string)
    requires k in todo && k in t.claims && Sweeping(t, now, todo, gone, expired, u)
    requires t.claims[k].system || Live(t.claims[k], now)
    ensures Sweeping(t, now, todo - {k}, gone, expired, u)
  {
    ExpiredNext(t.claims, now, todo, k);
  }

  lemma StillThere(t: Tables, gone: set<string>, k: string)
    requires k in t.claims && k !in gone
    ensures k in Without(t, gone).claims && Without(t, gone).claims[k] == t.claims[k]
  {
  }

  lemma SweepIdle(names: Naming, s: Ctl, now: int, clock: int, pub: bool)
    requires Expired(s.tables.claims, now) == {}
    ensures OpRel(names, s, Op.Expire, now, clock, pub, s, true)
  {
  }

  lemma SweepDone(names: Naming, s: Ctl, now: int, clock: int, pub: bool, s': Ctl, ok: bool)
    requires Expired(s.tables.claims, now) != {}
    requires TransactOK(names, s, WithoutExpired(s.tables, now), now, clock, pub, s', ok)
    ensures OpRel(names, s, Op.Expire, now, clock, pub, s', ok)
  {
  }

  /** What undoing a legacy registration has to restore. */
  lemma LegacyUndone(t: Tables, edited: Tables, id: RouteID)
    requires Index(t) && ValidID(id)
    requires edited.legacyIDs == t.legacyIDs[id := LegacyLease(t, id)]
    requires edited.claims == t.claims[LegacyLease(t, id) := ClaimAt(edited, LegacyLease(t, id))]
    ensures var k := LegacyLease(t, id);
            if k in t.claims then edited.claims[k := t.claims[k]] == t.claims && edited.legacyIDs == t.legacyIDs
            else edited.claims - {k} == t.claims && edited.legacyIDs - {id} == t.legacyIDs
  {
    LegacyLeaseIsKey(t, id);
  }

  lemma TakeOne(t: Tables, gone: set<string>, k: string)
    requires k in t.claims && k !in gone
    ensures var u, c := Without(t, gone), t.claims[k];
            Without(t, gone + {k})
            == if c.legacy then Tables(u.claims - {k}, u.clients, u.legacyIDs - {c.ID()})
               else Tables(u.claims - {k}, u.clients - {c.clientID}, u.legacyIDs)
  {
    var more := gone + {k};
    assert t.claims - more == Without(t, gone).claims - {k};
    if t.claims[k].legacy {
      assert (set j | j in more && j in t.claims && t.claims[j].legacy :: t.claims[j].ID())
          == (set j | j in gone && j in t.claims && t.claims[j].legacy :: t.claims[j].ID()) + {t.claims[k].ID()};
      assert (set j | j in more && j in t.claims && !t.claims[j].legacy :: t.claims[j].clientID)
          == set j | j in gone && j in t.claims && !t.claims[j].legacy :: t.claims[j].clientID;
    } else {
      assert (set j | j in more && j in t.claims && !t.claims[j].legacy :: t.claims[j].clientID)
          == (set j | j in gone && j in t.claims && !t.claims[j].legacy :: t.claims[j].clientID)
             + {t.claims[k].clientID};
      assert (set j | j in more && j in t.claims && t.claims[j].legacy :: t.claims[j].ID())
          == set j | j in gone && j in t.claims && t.claims[j].legacy :: t.claims[j].ID();
    }
  }

  /** The route a successful edit hands out: what the claims want, and what is stored but for the stamp. */
  ghost predicate Granted(claims: ClaimTable, names: Naming, now: int, before: Routes, after: Routes, clock: int,
                          id: RouteID, route: Route) {
    Wanted(claims, names, now, id, route) && id in after && after[id] == Stamped(before, route, clock)
  }

  /** The same for a refresh. */
  ghost predicate Reissued(claims: ClaimTable, names: Naming, now: int, before: Routes, after: Routes, clock: int,
                           id: RouteID, route: Route) {
    Refreshed(claims, names, now, id, route) && after == before[id := Stamped(before, route, clock)]
  }

  lemma NewestGranted(names: Naming, s: Ctl, edited: Tables, now: int, clock: int, pub: bool, mid: Ctl, manual: Routes,
                      k: string, id: RouteID)
    requires ApplyRel(names, s.(tables := edited), now, clock, pub, mid, manual, Applied)
    requires k in edited.claims && edited.claims[k].ID() == id && now < edited.claims[k].expires
    ensures id in manual && Granted(edited.claims, names, now, s.routes, mid.routes, clock, id, manual[id])
  {
    assert Holds(edited.claims, now, k, id);
    WantedNotFound(edited.claims, names, now, manual);
    WithManualAt(s.routes, manual, clock, id);
  }

  lemma TransactDone(names: Naming, s: Ctl, edited: Tables, now: int, clock: int, pub: bool, s': Ctl, o: Outcome,
                     mid: Ctl, manual: Routes)
    requires ApplyRel(names, s.(tables := edited), now, clock, pub, mid, manual, o)
    requires s' == if o.Applied? then mid else mid.(tables := s.tables)
    ensures TransactOK(names, s, edited, now, clock, pub, s', o.Applied?)
  {
    assert TransactVia(names, s, edited, now, clock, pub, s', o, mid, manual);
    assert Transact(names, s, edited, now, clock, pub, s', o);
  }

  /** The selected route covers the unexpired claims of `id` outside `todo`. */
  ghost predicate Selected(claims: ClaimTable, names: Naming, now: int, id: RouteID, r: Route, todo: set<string>) {
    && r.ID() == id && r.host == "" && r.owner == "" && r.source == Manual && r.createdAt == 0
    && (forall k :: k !in todo && Holds(claims, now, k, id) ==>
          r.port == claims[k].port && HostOf(names, claims[k]) == Host(r.domain) && claims[k].expires <= r.expiresAt)
    && exists k :: k !in todo && Holds(claims, now, k, id) && claims[k].expires == r.expiresAt
  }

  lemma SelectedDiffers(claims: ClaimTable, names: Naming, now: int, id: RouteID, r: Route, todo: set<string>,
                        k: string)
    requires Selected(claims, names, now, id, r, todo) && Holds(claims, now, k, id)
    requires r.port != claims[k].port || HostOf(names, claims[k]) != Host(r.domain)
    ensures !Refreshable(claims, names, now, id)
  {
    var j :| j !in todo && Holds(claims, now, j, id) && claims[j].expires == r.expiresAt;
    assert claims[j].port == r.port;
  }
}
