/** The route store: `Add`, `SetManual` and `ReconcileDiscovered`. */
module RouteStore {

  datatype RouteID = RouteID(project: string, branch: string)

  datatype Source = Manual | Process | System

  /** Times are numbers; 0 is the zero time. */
  datatype Route = Route(
    project: string, branch: string, port: int, host: string, domain: string,
    createdAt: int, expiresAt: int, source: Source, owner: string)
  {
    predicate IsDiscovered() { source.Process? }
    function ID(): RouteID { RouteID(project, branch) }
  }

  type Routes = map<RouteID, Route>

  /** Every route is filed under its own id and carries a creation time. */
  ghost predicate WellFiled(routes: Routes) {
    forall id :: id in routes ==> routes[id].ID() == id && routes[id].createdAt != 0
  }

  predicate IsManual(routes: Routes, id: RouteID) {
    id in routes && !routes[id].IsDiscovered()
  }

  predicate IsFound(routes: Routes, id: RouteID) {
    id in routes && routes[id].IsDiscovered()
  }

  function ManualPart(routes: Routes): Routes {
    map id | id in routes && !routes[id].IsDiscovered() :: routes[id]
  }

  function FoundPart(routes: Routes): Routes {
    map id | id in routes && routes[id].IsDiscovered() :: routes[id]
  }

  // ----- SetManual -----

  /** The creation time a route keeps or gets when it replaces `routes[id]`. */
  function Stamped(routes: Routes, candidate: Route, clock: int): Route {
    var id := candidate.ID();
    if candidate.createdAt != 0 then candidate
    else if id in routes && routes[id].createdAt != 0 then candidate.(createdAt := routes[id].createdAt)
    else candidate.(createdAt := clock)
  }

  function Install(base: Routes, routes: Routes, desired: seq<Route>, clock: int): Routes {
    if desired == [] then base
    else
      var c := desired[|desired| - 1];
      Install(base, routes, desired[..|desired| - 1], clock)[c.ID() := Stamped(routes, c, clock)]
  }

  function SetManualTo(routes: Routes, desired: seq<Route>, clock: int): Routes {
    Install(FoundPart(routes), routes, desired, clock)
  }

  ghost predicate DistinctIDs(desired: seq<Route>) {
    forall i, j :: 0 <= i < j < |desired| ==> desired[i].ID() != desired[j].ID()
  }

  /** `desired` lists the routes of `manual`, each once. */
  ghost predicate Lists(desired: seq<Route>, manual: Routes) {
    && DistinctIDs(desired)
    && (forall i :: 0 <= i < |desired| ==> desired[i].ID() in manual && manual[desired[i].ID()] == desired[i])
    && forall id :: id in manual ==> manual[id] in desired && manual[id].ID() == id
  }

  lemma {:induction false} InstallIsUpdate(base: Routes, routes: Routes, desired: seq<Route>, clock: int, id: RouteID)
    requires DistinctIDs(desired)
    ensures var r := Install(base, routes, desired, clock);
            && (id in r <==> id in base || exists i :: 0 <= i < |desired| && desired[i].ID() == id)
            && (id in r ==>
                  || (exists i :: 0 <= i < |desired| && desired[i].ID() == id &&
                        r[id] == Stamped(routes, desired[i], clock))
                  || ((forall i :: 0 <= i < |desired| ==> desired[i].ID() != id) && r[id] == base[id]))
  {
    if desired == [] {
    } else {
      var n := |desired| - 1;
      var init := desired[..n];
      assert forall i :: 0 <= i < n ==> init[i] == desired[i];
      InstallIsUpdate(base, routes, init, clock, id);
    }
  }

  /** With one candidate per id, `SetManual` keeps discovered routes and replaces the manual ones. */
  lemma SetManualMeans(routes: Routes, desired: seq<Route>, manual: Routes, clock: int)
    requires Lists(desired, manual)
    ensures SetManualTo(routes, desired, clock)
         == FoundPart(routes) + map id | id in manual :: Stamped(routes, manual[id], clock)
  {
    var r := SetManualTo(routes, desired, clock);
    var want := FoundPart(routes) + map id | id in manual :: Stamped(routes, manual[id], clock);
    forall id
      ensures id in r <==> id in want
      ensures id in r ==> r[id] == want[id]
    {
      InstallIsUpdate(FoundPart(routes), routes, desired, clock, id);
      if id in manual {
        var i :| 0 <= i < |desired| && desired[i] == manual[id];
        assert desired[i].ID() == id;
      }
    }
  }

  // ----- ReconcileDiscovered -----

  datatype Conflict =
    | TakenByManual(id: RouteID)
    | HostTaken(domain: string)
    | HostShared(domain: string)
    | SeveralProcesses(id: RouteID)

  /** The variables of the first loop. */
  datatype Scan = Scan(next: Routes, blocked: set<RouteID>, domains: map<string, RouteID>, conflicts: seq<Conflict>)

  predicate ManualHost(routes: Routes, domain: string) {
    exists id :: id in routes && !routes[id].IsDiscovered() && routes[id].domain == domain
  }

  function AsFound(c: Route): Route {
    c.(source := Process, expiresAt := 0)
  }

  function Consider(routes: Routes, s: Scan, c: Route): Scan {
    var id := c.ID();
    if id in s.blocked then s
    else if IsManual(routes, id) then s.(conflicts := s.conflicts + [TakenByManual(id)])
    else if ManualHost(routes, c.domain) then s.(conflicts := s.conflicts + [HostTaken(c.domain)])
    else if c.domain in s.domains && s.domains[c.domain] != id then
      s.(next := s.next - {s.domains[c.domain]}, blocked := s.blocked + {s.domains[c.domain], id},
         conflicts := s.conflicts + [HostShared(c.domain)])
    else if id in s.next then
      if s.next[id].port != c.port || s.next[id].owner != c.owner then
        s.(next := s.next - {id}, blocked := s.blocked + {id}, conflicts := s.conflicts + [SeveralProcesses(id)])
      else s
    else s.(next := s.next[id := AsFound(c)], domains := s.domains[c.domain := id])
  }

  function ScanAll(routes: Routes, desired: seq<Route>): Scan {
    if desired == [] then Scan(map[], {}, map[], [])
    else Consider(routes, ScanAll(routes, desired[..|desired| - 1]), desired[|desired| - 1])
  }

  predicate SameRoute(a: Route, b: Route) {
    a.port == b.port && a.host == b.host && a.domain == b.domain && a.owner == b.owner
  }

  /** What the second and third loop file under one id. */
  function Committed(routes: Routes, c: Route, clock: int): Route {
    var id := c.ID();
    if IsFound(routes, id) then
      if SameRoute(routes[id], c) then routes[id] else c.(createdAt := routes[id].createdAt)
    else if c.createdAt == 0 then c.(createdAt := clock)
    else c
  }

  function Commit(routes: Routes, next: Routes, clock: int): Routes {
    ManualPart(routes) + map id | id in next :: Committed(routes, next[id], clock)
  }

  class Store {
    var routes: Routes

    constructor ()
      ensures routes == map[]
    {
      routes := map[];
    }

    method Add(route: Route, clock: int)
      requires WellFiled(routes)
      modifies this
      ensures routes == old(routes)[route.ID() := Stamped(old(routes), route, clock)]
      ensures var stored := routes[RouteID(route.project, route.branch)];
              && stored == route.(createdAt := stored.createdAt)
              && stored.createdAt == if route.createdAt != 0 then route.createdAt
                                     else if route.ID() in old(routes) then old(routes)[route.ID()].createdAt
                                     else clock
    {
      var id := route.ID();
      var stored := route;
      if id in routes {
        if route.createdAt == 0 {
          stored := stored.(createdAt := routes[id].createdAt);
        }
      } else if route.createdAt == 0 {
        stored := stored.(createdAt := clock);
      }
      routes := routes[id := stored];
    }

    method Delete(id: RouteID) returns (found: bool)
      modifies this
      ensures found <==> id in old(routes)
      ensures routes == old(routes) - {id}
    {
      found := id in routes;
      routes := routes - {id};
    }

    /** Replaces the manual routes and returns the previous ones. */
    method SetManual(desired: seq<Route>, clock: int) returns (previous: seq<Route>)
      requires WellFiled(routes)
      modifies this
      ensures routes == SetManualTo(old(routes), desired, clock)
      ensures Lists(previous, ManualPart(old(routes)))
    {
      previous := PreviousManual();
      var next := FoundPart(routes);
      for i := 0 to |desired|
        invariant routes == old(routes)
        invariant next == Install(FoundPart(routes), routes, desired[..i], clock)
      {
        assert desired[..i + 1][..i] == desired[..i];
        var candidate := desired[i];
        var id := candidate.ID();
        if id in routes && candidate.createdAt == 0 {
          candidate := candidate.(createdAt := routes[id].createdAt);
        }
        if candidate.createdAt == 0 {
          candidate := candidate.(createdAt := clock);
        }
        next := next[id := candidate];
      }
      assert desired[..|desired|] == desired;
      routes := next;
    }

    method PreviousManual() returns (previous: seq<Route>)
      requires WellFiled(routes)
      ensures Lists(previous, ManualPart(routes))
    {
      previous := [];
      var todo := routes.Keys;
      while todo != {}
        invariant todo <= routes.Keys
        invariant Lists(previous, map id | id in routes && id !in todo && !routes[id].IsDiscovered() :: routes[id])
      {
        var id :| id in todo;
        if !routes[id].IsDiscovered() {
          ghost var seen := map k | k in routes && k !in todo && !routes[k].IsDiscovered() :: routes[k];
          ListsAppend(previous, seen, routes[id]);
          previous := previous + [routes[id]];
          assert seen[id := routes[id]]
              == map k | k in routes && k !in todo - {id} && !routes[k].IsDiscovered() :: routes[k];
        } else {
          assert (map k | k in routes && k !in todo && !routes[k].IsDiscovered() :: routes[k])
              == map k | k in routes && k !in todo - {id} && !routes[k].IsDiscovered() :: routes[k];
        }
        todo := todo - {id};
      }
      assert ManualPart(routes) == map id | id in routes && id !in todo && !routes[id].IsDiscovered() :: routes[id];
    }

    method ReconcileDiscovered(desired: seq<Route>, clock: int) returns (changed: bool, conflicts: seq<Conflict>)
      requires WellFiled(routes)
      modifies this
      ensures routes == Commit(old(routes), ScanAll(old(routes), desired).next, clock)
      ensures conflicts == ScanAll(old(routes), desired).conflicts
      ensures changed <==> routes != old(routes)
    {
      var scan := Scan(map[], {}, map[], []);
      for i := 0 to |desired|
        invariant routes == old(routes)
        invariant scan == ScanAll(routes, desired[..i])
      {
        assert desired[..i + 1][..i] == desired[..i];
        scan := Consider(routes, scan, desired[i]);
      }
      assert desired[..|desired|] == desired;
      ScanFiles(routes, desired);
      assert Fileable(routes, scan.next);
      changed := Replace(scan.next, clock);
      conflicts := scan.conflicts;
    }

    /** The second loop, over stored discovered routes, then the third, over what remains of `next`. */
    method Replace(next: Routes, clock: int) returns (changed: bool)
      requires WellFiled(routes) && Fileable(routes, next)
      modifies this
      ensures routes == Commit(old(routes), next, clock)
      ensures changed <==> routes != old(routes)
    {
      ghost var before := routes;
      var rest;
      changed, rest := SweepStored(next, clock);
      ghost var swept := routes;
      var added := AddRest(rest, clock);
      changed := changed || added;
      SweptThenAdded(before, next, clock, rest, swept, routes);
      AddedChanges(before, next, clock, rest, swept, routes);
    }

    method SweepStored(next: Routes, clock: int) returns (changed: bool, rest: Routes)
      requires WellFiled(routes) && Fileable(routes, next)
      modifies this
      ensures Swept(old(routes), next, clock, {}, rest, routes)
      ensures changed <==> routes != old(routes)
    {
      ghost var before := routes;
      var todo := routes.Keys;
      changed, rest := false, next;
      while todo != {}
        invariant todo <= before.Keys
        invariant Swept(before, next, clock, todo, rest, routes)
        invariant changed <==> routes != before
      {
        var id :| id in todo;
        SweepNext(before, next, clock, todo, rest, routes, id);
        todo := todo - {id};
        if routes[id].IsDiscovered() {
          if id !in next {
            routes, changed := routes - {id}, true;
          } else {
            if !SameRoute(routes[id], next[id]) {
              routes, changed := routes[id := next[id].(createdAt := routes[id].createdAt)], true;
            }
            rest := rest - {id};
          }
        }
      }
    }

    method AddRest(rest: Routes, clock: int) returns (changed: bool)
      requires rest.Keys !! routes.Keys
      modifies this
      ensures routes == old(routes) + map id | id in rest :: Dated(rest[id], clock)
      ensures changed <==> rest != map[]
    {
      ghost var before := routes;
      var todo := rest.Keys;
      changed := false;
      while todo != {}
        invariant todo <= rest.Keys
        invariant routes == before + map id | id in rest && id !in todo :: Dated(rest[id], clock)
        invariant changed <==> todo != rest.Keys
      {
        var id :| id in todo;
        todo := todo - {id};
        var candidate := rest[id];
        if candidate.createdAt == 0 {
          candidate := candidate.(createdAt := clock);
        }
        routes, changed := routes[id := candidate], true;
        assert id in rest.Keys && id !in todo;
      }
      assert rest.Keys == {} <==> rest == map[];
    }
  }

  function Dated(c: Route, clock: int): Route {
    if c.createdAt == 0 then c.(createdAt := clock) else c
  }

  /** What the first loop hands over: discovered routes under their ids, none of them manual. */
  ghost predicate Fileable(routes: Routes, next: Routes) {
    forall id :: id in next ==> next[id].ID() == id && next[id].IsDiscovered() && !IsManual(routes, id)
  }

  lemma SweepNext(before: Routes, next: Routes, clock: int, todo: set<RouteID>, rest: Routes, routes: Routes,
                  id: RouteID)
    requires Swept(before, next, clock, todo, rest, routes) && Fileable(before, next)
    requires id in todo && todo <= before.Keys
    ensures id in routes && routes[id] == before[id]
    ensures var swept := if !routes[id].IsDiscovered() then routes
                         else if id !in next then routes - {id}
                         else if SameRoute(routes[id], next[id]) then routes
                         else routes[id := next[id].(createdAt := routes[id].createdAt)];
            Swept(before, next, clock, todo - {id},
                  if routes[id].IsDiscovered() && id in next then rest - {id} else rest, swept)
  {
  }

  lemma SweptThenAdded(before: Routes, next: Routes, clock: int, rest: Routes, swept: Routes, result: Routes)
    requires Fileable(before, next) && Swept(before, next, clock, {}, rest, swept)
    requires result == swept + map id | id in rest :: Dated(rest[id], clock)
    ensures result == Commit(before, next, clock)
  {
    var want := Commit(before, next, clock);
    forall id
      ensures id in result <==> id in want
      ensures id in result ==> result[id] == want[id]
    {
    }
  }

  lemma AddedChanges(before: Routes, next: Routes, clock: int, rest: Routes, swept: Routes, result: Routes)
    requires Swept(before, next, clock, {}, rest, swept)
    requires result == swept + map id | id in rest :: Dated(rest[id], clock)
    ensures result != before <==> swept != before || rest != map[]
  {
    if rest != map[] {
      var id :| id in rest;
      assert id in result && id !in before;
    } else {
      assert result == swept;
    }
  }

  lemma ListsAppend(previous: seq<Route>, seen: Routes, r: Route)
    requires Lists(previous, seen) && r.ID() !in seen
    ensures Lists(previous + [r], seen[r.ID() := r])
  {
    var longer, more := previous + [r], seen[r.ID() := r];
    forall id | id in more
      ensures more[id] in longer
    {
      if id != r.ID() {
        assert seen[id] in previous;
      } else {
        assert longer[|previous|] == r;
      }
    }
  }

  /** Scanned routes are discovered, filed under their ids, and never manual. */
  lemma {:induction false} ScanFiles(routes: Routes, desired: seq<Route>)
    ensures forall id :: id in ScanAll(routes, desired).next ==>
              && ScanAll(routes, desired).next[id].ID() == id
              && ScanAll(routes, desired).next[id].IsDiscovered() && !IsManual(routes, id)
  {
    if desired == [] {
    } else {
      ScanFiles(routes, desired[..|desired| - 1]);
    }
  }

  /** After the stored routes outside `todo` were compared with `next`. */
  ghost predicate Swept(before: Routes, next: Routes, clock: int, todo: set<RouteID>, rest: Routes, result: Routes) {
    && (forall id :: id in result <==> id in before && (id in todo || !before[id].IsDiscovered() || id in next))
    && (forall id :: id in result ==>
          result[id] == if id in todo || !before[id].IsDiscovered() then before[id]
                        else Committed(before, next[id], clock))
    && (forall id :: id in rest <==> id in next && !(id in before && id !in todo))
    && (forall id :: id in rest ==> rest[id] == next[id])
  }
}
