/** What each call does to the tables and the store, entry by entry. */
module ControllerEffects {
  import opened RouteDomain
  import opened RouteStore
  import opened Claims
  import opened Leases
  import opened ControllerState
  import opened ControllerInvariant
  import opened ControllerRuns
  import opened ControllerEdges

  /** The maps agree everywhere else. */
  ghost predicate OnlyAt<K(!new), V>(a: map<K, V>, b: map<K, V>, k: K) {
    forall j :: j != k ==> (j in a <==> j in b) && (j in a ==> a[j] == b[j])
  }

  /** As `OnlyAt`, and `k` is gone. */
  ghost predicate Lost<K(!new), V>(a: map<K, V>, b: map<K, V>, k: K) {
    OnlyAt(a, b, k) && k !in b
  }

  lemma SameMaps<K(!new), V>(a: map<K, V>, b: map<K, V>, c: map<K, V>, k: K)
    requires OnlyAt(a, b, k) && OnlyAt(a, c, k) && (k in b <==> k in c) && (k in b ==> b[k] == c[k])
    ensures b == c
  {
    forall j
      ensures j in b <==> j in c
      ensures j in b ==> b[j] == c[j]
    {
    }
  }

  /**
    After an applied call exactly the routes with an unexpired claim are
    manual, with the claim's port and hostname; a discovered route stays as it
    was unless its id is now manual.
  */
  ghost predicate RoutesFollow(names: Naming, before: Routes, claims: ClaimTable, now: int, clock: int, after: Routes) {
    && (forall id :: IsManual(after, id) <==> exists k :: Holds(claims, now, k, id))
    && Served(claims, names, now, after)
    && (forall id :: IsFound(after, id) <==> IsFound(before, id) && !IsManual(after, id))
    && (forall id :: IsFound(after, id) ==> after[id] == before[id])
    && (forall id :: IsManual(after, id) ==> NewlyFiled(before, clock, after[id], id))
  }

  /** A manual route has no upstream host and no owner, and keeps the creation time of what it replaces. */
  predicate NewlyFiled(before: Routes, clock: int, r: Route, id: RouteID) {
    && r.ID() == id && r.host == "" && r.owner == ""
    && r.createdAt == if id in before && before[id].createdAt != 0 then before[id].createdAt else clock
  }

  lemma FollowAt(names: Naming, s: Ctl, now: int, clock: int, pub: bool, s': Ctl, manual: Routes, id: RouteID)
    requires ApplyRel(names, s, now, clock, pub, s', manual, Applied)
    ensures IsManual(s'.routes, id) <==> exists k :: Holds(s.tables.claims, now, k, id)
    ensures IsFound(s'.routes, id) <==> IsFound(s.routes, id) && !IsManual(s'.routes, id)
    ensures IsFound(s'.routes, id) ==> s'.routes[id] == s.routes[id]
    ensures IsManual(s'.routes, id) ==> NewlyFiled(s.routes, clock, s'.routes[id], id)
  {
    AppliedManual(names, s, now, clock, pub, s', manual, id);
    WantedNotFound(s.tables.claims, names, now, manual);
    WithManualAt(s.routes, manual, clock, id);
    if id in manual {
      assert Wanted(s.tables.claims, names, now, id, manual[id]);
    }
  }

  lemma AppliedFollows(names: Naming, s: Ctl, edited: Tables, now: int, clock: int, pub: bool, s': Ctl)
    requires TransactOK(names, s, edited, now, clock, pub, s', true)
    ensures s'.tables == edited && RoutesFollow(names, s.routes, edited.claims, now, clock, s'.routes)
  {
    var o :| Transact(names, s, edited, now, clock, pub, s', o) && true == o.Applied?;
    var mid, manual :| TransactVia(names, s, edited, now, clock, pub, s', o, mid, manual);
    InstalledServed(edited.claims, names, now, s.routes, manual, clock);
    forall id
      ensures IsManual(s'.routes, id) <==> exists k :: Holds(edited.claims, now, k, id)
      ensures IsFound(s'.routes, id) <==> IsFound(s.routes, id) && !IsManual(s'.routes, id)
      ensures IsFound(s'.routes, id) ==> s'.routes[id] == s.routes[id]
      ensures IsManual(s'.routes, id) ==> NewlyFiled(s.routes, clock, s'.routes[id], id)
    {
      FollowAt(names, s.(tables := edited), now, clock, pub, s', manual, id);
    }
  }

  lemma TransactDecides(names: Naming, s: Ctl, edited: Tables, now: int, clock: int, pub: bool, s': Ctl, ok: bool)
    requires TransactOK(names, s, edited, now, clock, pub, s', ok)
    ensures ok <==> Applicable(edited.claims, names, now, s.routes) && pub
    ensures !ok ==> s'.tables == s.tables
  {
    var o :| Transact(names, s, edited, now, clock, pub, s', o) && ok == o.Applied?;
    TransactSucceeds(names, s, edited, now, clock, pub, s', o);
    TransactTables(names, s, edited, now, clock, pub, s', o);
  }

  // ----- Calls that file a claim -----

  /** `after` is `before` with the claim filed under its key and nothing else changed in the claims. */
  ghost predicate Files(before: ClaimTable, after: ClaimTable, k: string, c: Claim) {
    OnlyAt(before, after, k) && k in after && after[k] == c
  }

  /** The call succeeds exactly when the claims with the new one can be applied and publishing succeeds. */
  ghost predicate AppliesWith(names: Naming, s: Ctl, now: int, k: string, c: Claim) {
    exists claims :: Files(s.tables.claims, claims, k, c) && Applicable(claims, names, now, s.routes)
  }

  lemma FilesDecide(names: Naming, s: Ctl, edited: Tables, now: int, clock: int, pub: bool, s': Ctl, ok: bool,
                    k: string, c: Claim)
    requires TransactOK(names, s, edited, now, clock, pub, s', ok) && Files(s.tables.claims, edited.claims, k, c)
    ensures ok <==> pub && AppliesWith(names, s, now, k, c)
  {
    TransactDecides(names, s, edited, now, clock, pub, s', ok);
    forall claims | Files(s.tables.claims, claims, k, c)
      ensures claims == edited.claims
    {
      SameMaps(s.tables.claims, claims, edited.claims, k);
    }
  }

  lemma LegacyFiled(t: Tables, id: RouteID, port: int, now: int, ttl: int)
    requires Index(t)
    ensures var u, k := WithLegacy(t, id, port, now, ttl), "legacy:" + (id.project + ":" + id.branch);
            && Files(t.claims, u.claims, k, Claim(k, "", id.project, id.branch, port, "", ttl, now + ttl, true, false))
            && OnlyAt(t.legacyIDs, u.legacyIDs, id) && id in u.legacyIDs && u.legacyIDs[id] == k
            && u.clients == t.clients
  {
    LegacyLeaseIsKey(t, id);
  }

  /** Registering files a legacy claim, replacing an earlier one, and its index entry. */
  lemma RegisterEffect(names: Naming, s: Ctl, id: RouteID, port: int, ttl: int, now: int, clock: int, pub: bool,
                       s': Ctl, ok: bool)
    requires Good(names, s, now)
    requires OpRel(names, s, RegisterLegacy(id, port, ttl), now, clock, pub, s', ok)
    ensures var k := "legacy:" + (id.project + ":" + id.branch);
            var c := Claim(k, "", id.project, id.branch, port, "", ttl, now + ttl, true, false);
            && (ok <==> pub && AppliesWith(names, s, now, k, c))
            && (ok ==> && Files(s.tables.claims, s'.tables.claims, k, c)
                       && OnlyAt(s.tables.legacyIDs, s'.tables.legacyIDs, id)
                       && id in s'.tables.legacyIDs && s'.tables.legacyIDs[id] == k
                       && s'.tables.clients == s.tables.clients
                       && RoutesFollow(names, s.routes, s'.tables.claims, now, clock, s'.routes))
    ensures !ok ==> s'.tables == s.tables
  {
    var k, edited := LegacyKey(id), WithLegacy(s.tables, id, port, now, ttl);
    var c := Claim(k, "", id.project, id.branch, port, "", ttl, now + ttl, true, false);
    LegacyFiled(s.tables, id, port, now, ttl);
    TransactDecides(names, s, edited, now, clock, pub, s', ok);
    FilesDecide(names, s, edited, now, clock, pub, s', ok, k, c);
    if ok {
      AppliedFollows(names, s, edited, now, clock, pub, s');
    }
  }

  /** Creating a lease for a new client files its claim and its index entry. */
  lemma CreateEffect(names: Naming, s: Ctl, clientID: string, req: Request, ttl: int, k: string, now: int, clock: int,
                     pub: bool, s': Ctl, ok: bool)
    requires clientID != "" && clientID !in s.tables.clients
    requires OpRel(names, s, CreateLease(clientID, req, ttl, k), now, clock, pub, s', ok)
    ensures var c := Claim(k, clientID, req.project, req.branch, req.port, req.subdomain, ttl, now + ttl, false, false);
            && (ok <==> pub && AppliesWith(names, s, now, k, c))
            && (ok ==> && Files(s.tables.claims, s'.tables.claims, k, c)
                       && OnlyAt(s.tables.clients, s'.tables.clients, clientID)
                       && clientID in s'.tables.clients && s'.tables.clients[clientID] == k
                       && s'.tables.legacyIDs == s.tables.legacyIDs
                       && RoutesFollow(names, s.routes, s'.tables.claims, now, clock, s'.routes))
    ensures !ok ==> s'.tables == s.tables
  {
    var edited := WithClient(s.tables, k, clientID, req, now, ttl);
    var c := Claim(k, clientID, req.project, req.branch, req.port, req.subdomain, ttl, now + ttl, false, false);
    TransactDecides(names, s, edited, now, clock, pub, s', ok);
    assert Files(s.tables.claims, edited.claims, k, c);
    FilesDecide(names, s, edited, now, clock, pub, s', ok, k, c);
    if ok {
      AppliedFollows(names, s, edited, now, clock, pub, s');
    }
  }

  /** A create is refused without effect for an empty client id, and for a known client with any other request. */
  lemma CreateRefused(names: Naming, s: Ctl, clientID: string, req: Request, ttl: int, k: string, now: int, clock: int,
                      pub: bool, s': Ctl, ok: bool)
    requires OpRel(names, s, CreateLease(clientID, req, ttl, k), now, clock, pub, s', ok)
    requires Index(s.tables)
    requires clientID == ""
          || (clientID in s.tables.clients
              && var c := ClaimAt(s.tables, s.tables.clients[clientID]);
                 !(c.project == req.project && c.branch == req.branch && c.port == req.port
                   && c.subdomain == req.subdomain))
    ensures !ok && s' == s
  {
    if clientID != "" {
      assert ClientEntry(s.tables, clientID);
    }
  }

  /** Setting a system route files a permanent claim of the daemon, replacing an earlier one. */
  lemma SetSystemEffect(names: Naming, s: Ctl, req: Request, now: int, clock: int, pub: bool, s': Ctl, ok: bool)
    requires OpRel(names, s, SetSystemRoute(req), now, clock, pub, s', ok)
    ensures var k := "system:" + (req.project + ":" + req.branch);
            var c := Claim(k, "", req.project, req.branch, req.port, req.subdomain, 0, SYSTEM_EXPIRY, false, true);
            && (ok <==> pub && AppliesWith(names, s, now, k, c))
            && (ok ==> && Files(s.tables.claims, s'.tables.claims, k, c)
                       && s'.tables.clients == s.tables.clients && s'.tables.legacyIDs == s.tables.legacyIDs
                       && RoutesFollow(names, s.routes, s'.tables.claims, now, clock, s'.routes))
    ensures !ok ==> s'.tables == s.tables
  {
    var k, edited := SystemKey(req.ID()), WithSystem(s.tables, req);
    var c := Claim(k, "", req.project, req.branch, req.port, req.subdomain, 0, SYSTEM_EXPIRY, false, true);
    TransactDecides(names, s, edited, now, clock, pub, s', ok);
    assert Files(s.tables.claims, edited.claims, k, c);
    FilesDecide(names, s, edited, now, clock, pub, s', ok, k, c);
    if ok {
      AppliedFollows(names, s, edited, now, clock, pub, s');
    }
  }

  // ----- Calls that take claims away -----

  /** Some other unexpired claim asks for the route of claim `k`. */
  ghost predicate AskedElsewhere(claims: ClaimTable, now: int, k: string, id: RouteID) {
    exists j :: j != k && Holds(claims, now, j, id)
  }

  /** Claim `k` of route `id` is gone, and its route with it unless another unexpired claim asks for that. */
  ghost predicate ClaimGone(names: Naming, s: Ctl, s': Ctl, now: int, clock: int, k: string, id: RouteID) {
    && Lost(s.tables.claims, s'.tables.claims, k)
    && (IsManual(s'.routes, id) <==> AskedElsewhere(s.tables.claims, now, k, id))
    && RoutesFollow(names, s.routes, s'.tables.claims, now, clock, s'.routes)
  }

  lemma HoldersBut(before: ClaimTable, after: ClaimTable, now: int, k: string, id: RouteID)
    requires Lost(before, after, k)
    ensures (exists j :: Holds(after, now, j, id)) <==> AskedElsewhere(before, now, k, id)
  {
    forall j
      ensures Holds(after, now, j, id) <==> j != k && Holds(before, now, j, id)
    {
    }
  }

  lemma RemovalGoes(names: Naming, s: Ctl, edited: Tables, now: int, clock: int, pub: bool, s': Ctl, ok: bool,
                    k: string, id: RouteID)
    requires Good(names, s, now) && LowerNames(names)
    requires TransactOK(names, s, edited, now, clock, pub, s', ok) && Lost(s.tables.claims, edited.claims, k)
    ensures (ok <==> pub) && (ok ==> s'.tables == edited && ClaimGone(names, s, s', now, clock, k, id))
    ensures !ok ==> s'.tables == s.tables
  {
    TransactDecides(names, s, edited, now, clock, pub, s', ok);
    RemovalIsApplicable(names, s, now, edited.claims);
    if ok {
      AppliedFollows(names, s, edited, now, clock, pub, s');
      HoldersBut(s.tables.claims, edited.claims, now, k, id);
    }
  }

  lemma LegacyClaimLost(t: Tables, id: RouteID)
    requires Index(t) && id in t.legacyIDs
    ensures Lost(t.claims, WithoutLegacy(t, id).claims, LegacyKey(id))
    ensures Lost(t.legacyIDs, WithoutLegacy(t, id).legacyIDs, id) && WithoutLegacy(t, id).clients == t.clients
  {
    LegacyLeaseIsKey(t, id);
  }

  lemma ClientClaimLost(t: Tables, k: string)
    requires k in t.claims
    ensures Lost(t.claims, WithoutClient(t, k).claims, k)
    ensures Lost(t.clients, WithoutClient(t, k).clients, t.claims[k].clientID)
    ensures WithoutClient(t, k).legacyIDs == t.legacyIDs
  {
  }

  /** Deleting a legacy route takes the legacy claim and its index entry away, and nothing else. */
  lemma DeleteLegacyEffect(names: Naming, s: Ctl, id: RouteID, now: int, clock: int, pub: bool, s': Ctl, ok: bool)
    requires Good(names, s, now) && LowerNames(names) && id in s.tables.legacyIDs
    requires OpRel(names, s, DeleteLegacy(id), now, clock, pub, s', ok)
    ensures (ok <==> pub) && (!ok ==> s'.tables == s.tables)
    ensures ok ==> && ClaimGone(names, s, s', now, clock, "legacy:" + (id.project + ":" + id.branch), id)
                   && Lost(s.tables.legacyIDs, s'.tables.legacyIDs, id) && s'.tables.clients == s.tables.clients
  {
    LegacyClaimLost(s.tables, id);
    RemovalGoes(names, s, WithoutLegacy(s.tables, id), now, clock, pub, s', ok, LegacyKey(id), id);
  }

  /** Deleting a client's lease takes its claim and its index entry away, and nothing else. */
  lemma DeleteLeaseEffect(names: Naming, s: Ctl, k: string, now: int, clock: int, pub: bool, s': Ctl, ok: bool)
    requires Good(names, s, now) && LowerNames(names)
    requires k in s.tables.claims && !s.tables.claims[k].legacy && !s.tables.claims[k].system
    requires OpRel(names, s, DeleteLease(k), now, clock, pub, s', ok)
    ensures (ok <==> pub) && (!ok ==> s'.tables == s.tables)
    ensures ok ==> && ClaimGone(names, s, s', now, clock, k, s.tables.claims[k].ID())
                   && Lost(s.tables.clients, s'.tables.clients, s.tables.claims[k].clientID)
                   && s'.tables.legacyIDs == s.tables.legacyIDs
  {
    ClientClaimLost(s.tables, k);
    RemovalGoes(names, s, WithoutClient(s.tables, k), now, clock, pub, s', ok, k, s.tables.claims[k].ID());
  }

  /** A successful lease delete of a system claim does the same to the daemon's claim. */
  lemma DeleteDaemonLeaseEffect(names: Naming, s: Ctl, k: string, now: int, clock: int, pub: bool, s': Ctl, ok: bool)
    requires Good(names, s, now) && LowerNames(names) && k in s.tables.claims && s.tables.claims[k].system
    requires OpRel(names, s, DeleteLease(k), now, clock, pub, s', ok)
    ensures ok <==> pub
    ensures ok ==> && Lost(s.tables.claims, s'.tables.claims, k)
                   && (IsManual(s'.routes, s.tables.claims[k].ID())
                       <==> AskedElsewhere(s.tables.claims, now, k, s.tables.claims[k].ID()))
                   && s'.tables.clients == s.tables.clients && s'.tables.legacyIDs == s.tables.legacyIDs
  {
    ClientClaimLost(s.tables, k);
    SystemDeleteDrops(names, s, k, now, clock, pub, s', ok);
    assert ClaimFiled(s.tables, k);
    NoEmptyClient(s.tables);
  }

  /** Deleting a system route takes the daemon's claim away, and nothing else. */
  lemma DeleteSystemEffect(names: Naming, s: Ctl, id: RouteID, now: int, clock: int, pub: bool, s': Ctl, ok: bool)
    requires Good(names, s, now) && LowerNames(names) && "system:" + (id.project + ":" + id.branch) in s.tables.claims
    requires OpRel(names, s, DeleteSystemRoute(id), now, clock, pub, s', ok)
    ensures (ok <==> pub) && (!ok ==> s'.tables == s.tables)
    ensures ok ==> && ClaimGone(names, s, s', now, clock, "system:" + (id.project + ":" + id.branch), id)
                   && s'.tables.clients == s.tables.clients && s'.tables.legacyIDs == s.tables.legacyIDs
  {
    RemovalGoes(names, s, WithoutSystem(s.tables, id), now, clock, pub, s', ok, SystemKey(id), id);
  }

  /** Deletes of what is not there: refused for a legacy route, and otherwise granted, all without effect. */
  lemma NothingToDelete(names: Naming, s: Ctl, op: Op, now: int, clock: int, pub: bool, s': Ctl, ok: bool)
    requires OpRel(names, s, op, now, clock, pub, s', ok)
    requires match op
             case DeleteLegacy(id) => id !in s.tables.legacyIDs && !IsManual(s.routes, id)
             case DeleteLease(k) => k !in s.tables.claims || s.tables.claims[k].legacy
             case DeleteSystemRoute(id) => "system:" + (id.project + ":" + id.branch) !in s.tables.claims
             case Expire => forall k :: k in s.tables.claims && !s.tables.claims[k].system ==>
                              now < s.tables.claims[k].expires
             case _ => false
    ensures s' == s && (ok <==> !op.DeleteLegacy?)
  {
    if op.Expire? {
      assert Expired(s.tables.claims, now) == {};
    }
  }

  /** A legacy delete past the tables takes the route out of the store, and nothing else. */
  lemma DirectDeleteEffect(names: Naming, s: Ctl, id: RouteID, now: int, clock: int, pub: bool, s': Ctl, ok: bool)
    requires id !in s.tables.legacyIDs && IsManual(s.routes, id)
    requires OpRel(names, s, DeleteLegacy(id), now, clock, pub, s', ok)
    ensures (ok <==> pub) && s'.tables == s.tables
    ensures if ok then Lost(s.routes, s'.routes, id) else s'.routes == s.routes
  {
  }

  /**
    A sweep keeps exactly the daemon's claims and the unexpired ones, with
    exactly their index entries.
  */
  lemma ExpireEffect(names: Naming, s: Ctl, now: int, clock: int, pub: bool, s': Ctl, ok: bool, gone: string)
    requires Good(names, s, now) && LowerNames(names)
    requires gone in s.tables.claims && !s.tables.claims[gone].system && s.tables.claims[gone].expires <= now
    requires OpRel(names, s, Expire, now, clock, pub, s', ok)
    ensures (ok <==> pub) && (!ok ==> s'.tables == s.tables)
    ensures ok ==> && Swept(s.tables, s'.tables, now)
                   && RoutesFollow(names, s.routes, s'.tables.claims, now, clock, s'.routes)
  {
    assert gone in Expired(s.tables.claims, now);
    SweepFailsOnlyInPublishing(names, s, now, clock, pub, s', ok);
    TransactDecides(names, s, WithoutExpired(s.tables, now), now, clock, pub, s', ok);
    if ok {
      AppliedFollows(names, s, WithoutExpired(s.tables, now), now, clock, pub, s');
      ExpiredAreSwept(s.tables, now);
    }
  }

  predicate Stays(c: Claim, now: int) {
    c.system || now < c.expires
  }

  ghost predicate Swept(t: Tables, u: Tables, now: int) {
    && (forall k :: k in u.claims <==> k in t.claims && Stays(t.claims[k], now))
    && (forall k :: k in u.claims ==> u.claims[k] == t.claims[k])
    && (forall c :: c in t.clients ==> t.clients[c] in t.claims
                                       && (c in u.clients <==> Stays(t.claims[t.clients[c]], now)))
    && (forall c :: c in u.clients ==> c in t.clients && u.clients[c] == t.clients[c])
    && (forall i :: i in t.legacyIDs ==> t.legacyIDs[i] in t.claims
                                         && (i in u.legacyIDs <==> Stays(t.claims[t.legacyIDs[i]], now)))
    && (forall i :: i in u.legacyIDs ==> i in t.legacyIDs && u.legacyIDs[i] == t.legacyIDs[i])
  }

  lemma ExpiredAreSwept(t: Tables, now: int)
    requires Index(t)
    ensures Swept(t, WithoutExpired(t, now), now)
  {
    var u, gone := WithoutExpired(t, now), Expired(t.claims, now);
    forall c | c in t.clients
      ensures t.clients[c] in t.claims && (c in u.clients <==> Stays(t.claims[t.clients[c]], now))
    {
      ClientStays(t, now, c);
    }
    forall i | i in t.legacyIDs
      ensures t.legacyIDs[i] in t.claims && (i in u.legacyIDs <==> Stays(t.claims[t.legacyIDs[i]], now))
    {
      LegacyStays(t, now, i);
    }
  }

  lemma ClientStays(t: Tables, now: int, c: string)
    requires Index(t) && c in t.clients
    ensures t.clients[c] in t.claims && (c in WithoutExpired(t, now).clients <==> Stays(t.claims[t.clients[c]], now))
  {
    var k, gone := t.clients[c], Expired(t.claims, now);
    assert ClientEntry(t, c);
    forall j | j in gone && j in t.claims && !t.claims[j].legacy && t.claims[j].clientID == c
      ensures j == k
    {
      assert ClaimFiled(t, j);
    }
    assert k in gone <==> !Stays(t.claims[k], now);
  }

  lemma LegacyStays(t: Tables, now: int, i: RouteID)
    requires Index(t) && i in t.legacyIDs
    ensures t.legacyIDs[i] in t.claims
    ensures i in WithoutExpired(t, now).legacyIDs <==> Stays(t.claims[t.legacyIDs[i]], now)
  {
    var k, gone := t.legacyIDs[i], Expired(t.claims, now);
    assert LegacyEntry(t, i) && ClaimFiled(t, k);
    forall j | j in gone && j in t.claims && t.claims[j].legacy && t.claims[j].ID() == i
      ensures j == k
    {
      assert ClaimFiled(t, j);
    }
    assert k in gone <==> !Stays(t.claims[k], now);
  }

  // ----- Calls that renew -----

  /** Claim `k` runs until `now + ttl` from now on, and nothing else in the tables has changed. */
  ghost predicate Extends(t: Tables, u: Tables, k: string, now: int, ttl: int) {
    && k in t.claims && Files(t.claims, u.claims, k, t.claims[k].(ttl := ttl, expires := now + ttl))
    && u.clients == t.clients && u.legacyIDs == t.legacyIDs
  }

  /** The route of the unexpired claims is filed with their port, hostname and latest expiry. */
  ghost predicate Refiled(names: Naming, before: Routes, claims: ClaimTable, now: int, clock: int, id: RouteID,
                          after: Routes) {
    && OnlyAt(before, after, id) && id in after && after[id].source == Manual
    && after[id].ID() == id && after[id].host == "" && after[id].owner == ""
    && after[id].createdAt == (if id in before then before[id].createdAt else clock)
    && (forall k :: Holds(claims, now, k, id) ==>
          after[id].port == claims[k].port && HostOf(names, claims[k]) == Host(after[id].domain)
          && claims[k].expires <= after[id].expiresAt)
    && exists k :: Holds(claims, now, k, id) && claims[k].expires == after[id].expiresAt
  }

  lemma RefreshEffect(names: Naming, s: Ctl, t: Tables, id: RouteID, now: int, clock: int, s': Ctl, ok: bool)
    requires RefreshRel(names, s.(tables := t), id, now, clock, s', ok)
    ensures s'.tables == t
    ensures if ok then Refiled(names, s.routes, t.claims, now, clock, id, s'.routes) else s'.routes == s.routes
  {
  }

  lemma RenewalEffect(names: Naming, s: Ctl, k: string, ttl: int, now: int, clock: int, s': Ctl, ok: bool)
    requires k in s.tables.claims && RenewRel(names, s, k, ttl, now, clock, s', ok)
    ensures Extends(s.tables, s'.tables, k, now, ttl)
    ensures if ok then Refiled(names, s.routes, s'.tables.claims, now, clock, s.tables.claims[k].ID(), s'.routes)
            else s'.routes == s.routes
  {
    RefreshEffect(names, s, WithRenewal(s.tables, k, now, ttl), s.tables.claims[k].ID(), now, clock, s', ok);
  }

  /** A lease heartbeat extends the claim by the requested TTL, or by its own when none is requested. */
  lemma HeartbeatLeaseEffect(names: Naming, s: Ctl, k: string, requested: int, now: int, clock: int, pub: bool, s': Ctl,
                             ok: bool)
    requires OpRel(names, s, HeartbeatLease(k, requested), now, clock, pub, s', ok)
    ensures k !in s.tables.claims || s.tables.claims[k].legacy ==> !ok && s' == s
    ensures k in s.tables.claims && !s.tables.claims[k].legacy ==>
              && Extends(s.tables, s'.tables, k, now, if requested > 0 then requested else s.tables.claims[k].ttl)
              && if ok then Refiled(names, s.routes, s'.tables.claims, now, clock, s.tables.claims[k].ID(), s'.routes)
                 else s'.routes == s.routes
  {
    if k in s.tables.claims && !s.tables.claims[k].legacy {
      RenewalEffect(names, s, k, RenewedTTL(s.tables.claims[k], requested), now, clock, s', ok);
    }
  }

  /** A repeated create with the client's own request extends its claim by the new TTL. */
  lemma RepeatedCreateEffect(names: Naming, s: Ctl, clientID: string, req: Request, ttl: int, k: string, now: int,
                             clock: int, pub: bool, s': Ctl, ok: bool)
    requires Index(s.tables) && clientID != "" && clientID in s.tables.clients
    requires var c := ClaimAt(s.tables, s.tables.clients[clientID]);
             c.project == req.project && c.branch == req.branch && c.port == req.port && c.subdomain == req.subdomain
    requires OpRel(names, s, CreateLease(clientID, req, ttl, k), now, clock, pub, s', ok)
    ensures Extends(s.tables, s'.tables, s.tables.clients[clientID], now, ttl)
    ensures if ok then Refiled(names, s.routes, s'.tables.claims, now, clock, req.ID(), s'.routes)
            else s'.routes == s.routes
  {
    assert ClientEntry(s.tables, clientID);
    RenewalEffect(names, s, s.tables.clients[clientID], ttl, now, clock, s', ok);
  }

  /** A legacy heartbeat extends the legacy claim in the same way. */
  lemma HeartbeatLegacyEffect(names: Naming, s: Ctl, id: RouteID, requested: int, default: int, now: int, clock: int,
                              pub: bool, s': Ctl, ok: bool)
    requires Index(s.tables) && id in s.tables.legacyIDs
    requires OpRel(names, s, HeartbeatLegacy(id, requested, default), now, clock, pub, s', ok)
    ensures var k := s.tables.legacyIDs[id];
            && k in s.tables.claims
            && Extends(s.tables, s'.tables, k, now, if requested > 0 then requested else s.tables.claims[k].ttl)
    ensures if ok then Refiled(names, s.routes, s'.tables.claims, now, clock, id, s'.routes) else s'.routes == s.routes
  {
    var k := s.tables.legacyIDs[id];
    assert LegacyEntry(s.tables, id);
    RenewalEffect(names, s, k, RenewedTTL(s.tables.claims[k], requested), now, clock, s', ok);
  }

  /** Without one it files a legacy claim with the stored port, and is refused when no manual route is stored. */
  lemma AdoptionEffect(names: Naming, s: Ctl, id: RouteID, requested: int, default: int, now: int, clock: int,
                       pub: bool, s': Ctl, ok: bool)
    requires Index(s.tables) && id !in s.tables.legacyIDs
    requires OpRel(names, s, HeartbeatLegacy(id, requested, default), now, clock, pub, s', ok)
    ensures !IsManual(s.routes, id) ==> !ok && s' == s
    ensures IsManual(s.routes, id) ==>
              var k, ttl := "legacy:" + (id.project + ":" + id.branch), if requested > 0 then requested else default;
              var c := Claim(k, "", id.project, id.branch, s.routes[id].port, "", ttl, now + ttl, true, false);
              && Files(s.tables.claims, s'.tables.claims, k, c)
              && OnlyAt(s.tables.legacyIDs, s'.tables.legacyIDs, id)
              && id in s'.tables.legacyIDs && s'.tables.legacyIDs[id] == k
              && s'.tables.clients == s.tables.clients
              && if ok then Refiled(names, s.routes, s'.tables.claims, now, clock, id, s'.routes)
                  else s'.routes == s.routes
  {
    if IsManual(s.routes, id) {
      var ttl := if requested > 0 then requested else default;
      LegacyFiled(s.tables, id, s.routes[id].port, now, ttl);
      RefreshEffect(names, s, WithLegacy(s.tables, id, s.routes[id].port, now, ttl), id, now, clock, s', ok);
    }
  }

  // ----- Publication -----

  /** Publishing the store as it is counts an attempt and changes neither the tables nor the store. */
  lemma InitializeEffect(names: Naming, s: Ctl, now: int, clock: int, pub: bool, s': Ctl, ok: bool)
    requires OpRel(names, s, Initialize, now, clock, pub, s', ok)
    ensures (ok <==> pub) && s'.tables == s.tables && s'.routes == s.routes && s'.attempts == s.attempts + [pub]
    ensures s'.revision == s.revision + 1 && s'.applied == (if pub then s.revision + 1 else s.applied)
    ensures if ok then s'.board == Targets(s'.routes) else s'.board == s.board
  {
  }

  /** What a ready controller has published: the port and hostname of every manual route, and nothing else. */
  lemma PublishedRouting(s: Ctl)
    requires BoardInv(s) && Ready(s)
    ensures forall id :: id in s.board <==> id in s.routes && !s.routes[id].source.Process?
    ensures forall id :: id in s.board ==>
              s.board[id].port == s.routes[id].port && s.board[id].domain == s.routes[id].domain
  {
  }
}
