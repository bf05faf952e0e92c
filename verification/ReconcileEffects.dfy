/**
  What the route store holds after `SetManual` and `ReconcileDiscovered`, said
  field by field of the candidates and of what was stored before.
*/
module ReconcileEffects {
  import opened RouteStore
  import opened Reconcile

  // ----- SetManual -----

  /** `r` is `given` with a creation time: its own, else that of the route stored under its id, else the clock. */
  predicate DatedFrom(routes: Routes, given: Route, clock: int, r: Route) {
    && r == given.(createdAt := r.createdAt)
    && r.createdAt == if given.createdAt != 0 then given.createdAt
                      else if given.ID() in routes then routes[given.ID()].createdAt
                      else clock
  }

  /** Discovered routes stay where no manual route takes their id, and nothing else stays. */
  lemma SetManualEffect(routes: Routes, desired: seq<Route>, manual: Routes, clock: int, id: RouteID)
    requires WellFiled(routes) && Lists(desired, manual)
    ensures var r := SetManualTo(routes, desired, clock);
            && (id in r <==> id in manual || (id in routes && routes[id].source == Process))
            && (id in manual ==> DatedFrom(routes, manual[id], clock, r[id]))
            && (id in r && id !in manual ==> r[id] == routes[id])
  {
    SetManualMeans(routes, desired, manual, clock);
    if id in manual {
      assert manual[id] in desired && manual[id].ID() == id;
    }
  }

  // ----- The candidate an id is stored from -----

  /** No route that was registered has the candidate's id or its hostname. */
  predicate Unopposed(routes: Routes, c: Route) {
    forall id :: id in routes && routes[id].source != Process ==>
      (id.project != c.project || id.branch != c.branch) && routes[id].domain != c.domain
  }

  lemma EligibleMeans(routes: Routes, c: Route)
    ensures Eligible(routes, c) <==> Unopposed(routes, c)
  {
    if Eligible(routes, c) {
      forall id | id in routes && routes[id].source != Process
        ensures (id.project != c.project || id.branch != c.branch) && routes[id].domain != c.domain
      {
        assert id == c.ID() ==> IsManual(routes, c.ID());
      }
    }
  }

  predicate IsOf(c: Route, id: RouteID) {
    c.project == id.project && c.branch == id.branch
  }

  /** The first candidate of the id that no registered route opposes. */
  predicate FirstUnopposed(routes: Routes, desired: seq<Route>, id: RouteID, k: int) {
    && 0 <= k < |desired| && IsOf(desired[k], id) && Unopposed(routes, desired[k])
    && forall j :: 0 <= j < k ==> !(IsOf(desired[j], id) && Unopposed(routes, desired[j]))
  }

  /** A claimed id is held or blocked. */
  lemma {:induction false} ScanDecides(routes: Routes, desired: seq<Route>, id: RouteID)
    requires Claimed(routes, desired, id)
    ensures id in ScanAll(routes, desired).next || id in ScanAll(routes, desired).blocked
  {
    var p, c := desired[..|desired| - 1], desired[|desired| - 1];
    assert desired == p + [c];
    ClaimedNext(routes, p, c, id);
    if Claimed(routes, p, id) {
      ScanDecides(routes, p, id);
    }
  }

  lemma {:induction false} ScanHoldsFirst(routes: Routes, desired: seq<Route>, id: RouteID)
    requires id in ScanAll(routes, desired).next
    ensures exists k :: FirstUnopposed(routes, desired, id, k)
                     && ScanAll(routes, desired).next[id] == AsFound(desired[k])
  {
    var n := |desired| - 1;
    var p, c := desired[..n], desired[n];
    assert desired == p + [c];
    EligibleMeans(routes, c);
    if id in ScanAll(routes, p).next {
      ScanHoldsFirst(routes, p, id);
      var k :| FirstUnopposed(routes, p, id, k) && ScanAll(routes, p).next[id] == AsFound(p[k]);
      assert forall j :: 0 <= j <= k ==> desired[j] == p[j];
      assert FirstUnopposed(routes, desired, id, k);
    } else {
      if Claimed(routes, p, id) {
        ScanDecides(routes, p, id);
      }
      forall j | 0 <= j < n
        ensures !(IsOf(desired[j], id) && Unopposed(routes, desired[j]))
      {
        EligibleMeans(routes, desired[j]);
        assert p[j] == desired[j];
      }
      assert FirstUnopposed(routes, desired, id, n);
    }
  }

  // ----- What is stored of it -----

  /** A discovered route is stored under the id and agrees with the candidate in the four compared fields. */
  predicate Unchanged(routes: Routes, id: RouteID, c: Route) {
    && id in routes && routes[id].source == Process
    && routes[id].port == c.port && routes[id].host == c.host
    && routes[id].domain == c.domain && routes[id].owner == c.owner
  }

  /** What the store files under `id` for the candidate `c`. */
  predicate FiledFrom(routes: Routes, id: RouteID, c: Route, clock: int, r: Route) {
    && r.project == id.project && r.branch == id.branch
    && r.port == c.port && r.host == c.host && r.domain == c.domain && r.owner == c.owner
    && r.source == Process
    && r.expiresAt == (if Unchanged(routes, id, c) then routes[id].expiresAt else 0)
    && r.createdAt == (if id in routes && routes[id].source == Process then routes[id].createdAt
                       else if c.createdAt != 0 then c.createdAt
                       else clock)
  }

  /**
    A discovered route is stored from the first unopposed candidate of its id,
    upstream host included; it keeps the creation time it was first stored with.
  */
  lemma StoredFromFirst(routes: Routes, desired: seq<Route>, clock: int, id: RouteID)
    requires WellFiled(routes) && IsFound(Reconciled(routes, desired, clock), id)
    ensures exists k :: FirstUnopposed(routes, desired, id, k)
                     && FiledFrom(routes, id, desired[k], clock, Reconciled(routes, desired, clock)[id])
  {
    var next := ScanAll(routes, desired).next;
    ScanFiles(routes, desired);
    CommitParts(routes, next, clock);
    ScanHoldsFirst(routes, desired, id);
    var k :| FirstUnopposed(routes, desired, id, k) && next[id] == AsFound(desired[k]);
    assert FiledFrom(routes, id, desired[k], clock, Reconciled(routes, desired, clock)[id]);
  }

  ghost predicate FoundNeverExpires(routes: Routes) {
    forall id :: id in routes && routes[id].source == Process ==> routes[id].expiresAt == 0
  }

  /** Discovered routes have no expiry, as long as no other call has stored one that has. */
  lemma ReconciledNeverExpires(routes: Routes, desired: seq<Route>, clock: int)
    requires WellFiled(routes) && FoundNeverExpires(routes)
    ensures FoundNeverExpires(Reconciled(routes, desired, clock))
  {
    var r := Reconciled(routes, desired, clock);
    forall id | id in r && r[id].source == Process
      ensures r[id].expiresAt == 0
    {
      StoredFromFirst(routes, desired, clock, id);
    }
  }

  /** With one hostname per id the first candidate of the id is meant. */
  lemma FirstIsFirst(routes: Routes, desired: seq<Route>, id: RouteID, k: int)
    requires OneHostPerID(desired) && FirstUnopposed(routes, desired, id, k)
    ensures forall j :: 0 <= j < k ==> !IsOf(desired[j], id)
  {
    assert forall j :: 0 <= j < k && desired[j].ID() == desired[k].ID() ==> desired[j].domain == desired[k].domain;
  }

  // ----- Conflicts -----

  /** What the scan has reported so far, against what it holds and blocks. */
  ghost predicate Reported(routes: Routes, desired: seq<Route>, s: Scan) {
    && (s.conflicts == [] ==> s.blocked == {} && forall i :: 0 <= i < |desired| ==> Eligible(routes, desired[i]))
    && (s.conflicts != [] ==> s.blocked != {} || exists i :: 0 <= i < |desired| && !Eligible(routes, desired[i]))
  }

  lemma {:induction false} ScanReports(routes: Routes, desired: seq<Route>)
    ensures Reported(routes, desired, ScanAll(routes, desired))
  {
    if desired == [] {
    } else {
      var p, c := desired[..|desired| - 1], desired[|desired| - 1];
      assert desired == p + [c];
      ScanReports(routes, p);
      ReportedNext(routes, p, c, ScanAll(routes, p));
    }
  }

  lemma ReportedNext(routes: Routes, p: seq<Route>, c: Route, s: Scan)
    requires Reported(routes, p, s)
    ensures Reported(routes, p + [c], Consider(routes, s, c))
  {
    var q, s' := p + [c], Consider(routes, s, c);
    assert forall i :: 0 <= i < |p| ==> q[i] == p[i];
    assert q[|p|] == c;
    if s'.conflicts == [] {
      assert s.conflicts == [] && c.ID() !in s.blocked;
    } else if s.conflicts != [] {
      assert s.blocked <= s'.blocked;
      if i :| 0 <= i < |p| && !Eligible(routes, p[i]) {
        assert !Eligible(routes, q[i]);
      }
    } else if !Eligible(routes, c) {
      assert !Eligible(routes, q[|p|]);
    } else {
      assert c.ID() in s'.blocked;
    }
  }

  /** No conflict is reported exactly when every candidate's id ends up discovered. */
  lemma SilentMeansStored(routes: Routes, desired: seq<Route>, clock: int)
    requires OneHostPerID(desired)
    ensures ScanAll(routes, desired).conflicts == []
       <==> forall i :: 0 <= i < |desired| ==> IsFound(Reconciled(routes, desired, clock), desired[i].ID())
  {
    var s, r := ScanAll(routes, desired), Reconciled(routes, desired, clock);
    ScanRule(routes, desired);
    ScanReports(routes, desired);
    ScanFiles(routes, desired);
    CommitParts(routes, s.next, clock);
    if s.conflicts == [] {
      forall i | 0 <= i < |desired|
        ensures IsFound(r, desired[i].ID())
      {
        assert Eligible(routes, desired[i]) && Claimed(routes, desired, desired[i].ID());
        assert desired[i].ID() !in s.blocked;
      }
    }
    if forall i :: 0 <= i < |desired| ==> IsFound(r, desired[i].ID()) {
      AllStoredAllEligible(routes, desired);
      forall id
        ensures id !in s.blocked
      {
        assert Claimed(routes, desired, id) ==> IsFound(r, id);
      }
    }
  }

  lemma AllStoredAllEligible(routes: Routes, desired: seq<Route>)
    requires OneHostPerID(desired)
    requires forall i :: 0 <= i < |desired| ==> Claimed(routes, desired, desired[i].ID())
    ensures forall i :: 0 <= i < |desired| ==> Eligible(routes, desired[i])
  {
    forall i | 0 <= i < |desired|
      ensures Eligible(routes, desired[i])
    {
      var k :| 0 <= k < |desired| && desired[k].ID() == desired[i].ID() && Eligible(routes, desired[k]);
      assert desired[i].domain == desired[k].domain;
    }
  }
}
