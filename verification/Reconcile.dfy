/** The declarative rule behind `ReconcileDiscovered`. */
module Reconcile {
  import opened RouteStore

  /** Candidates with one id carry one hostname, as hostnames built from ids do. */
  predicate OneHostPerID(desired: seq<Route>) {
    forall i, j :: 0 <= i < |desired| && 0 <= j < |desired| && desired[i].ID() == desired[j].ID() ==>
      desired[i].domain == desired[j].domain
  }

  /** Neither the id nor the hostname belongs to a manual route. */
  predicate Eligible(routes: Routes, c: Route) {
    !IsManual(routes, c.ID()) && !ManualHost(routes, c.domain)
  }

  predicate Claimed(routes: Routes, desired: seq<Route>, id: RouteID) {
    exists i :: 0 <= i < |desired| && desired[i].ID() == id && Eligible(routes, desired[i])
  }

  predicate Agreed(desired: seq<Route>, id: RouteID) {
    forall i, j :: 0 <= i < |desired| && 0 <= j < |desired| && desired[i].ID() == id && desired[j].ID() == id ==>
      desired[i].port == desired[j].port && desired[i].owner == desired[j].owner
  }

  /** No other eligible id has this id's hostname. */
  predicate Alone(routes: Routes, desired: seq<Route>, id: RouteID) {
    forall i, j :: 0 <= i < |desired| && 0 <= j < |desired| ==>
      (desired[i].ID() == id && Eligible(routes, desired[j]) && desired[i].domain == desired[j].domain
       ==> desired[j].ID() == id)
  }

  predicate Survives(routes: Routes, desired: seq<Route>, id: RouteID) {
    Claimed(routes, desired, id) && Agreed(desired, id) && Alone(routes, desired, id)
  }

  /** The scan after `desired`: survivors in `next`, the other eligible ids blocked. */
  ghost predicate ScanMatches(routes: Routes, desired: seq<Route>, s: Scan) {
    && (forall id :: id in s.next <==> Survives(routes, desired, id))
    && (forall id :: id in s.blocked <==> Claimed(routes, desired, id) && !Survives(routes, desired, id))
    && (forall id, i :: id in s.next && 0 <= i < |desired| && desired[i].ID() == id ==>
          s.next[id].port == desired[i].port && s.next[id].owner == desired[i].owner
          && s.next[id].domain == desired[i].domain)
    && DomainsMatch(routes, desired, s)
  }

  /** A hostname is recorded exactly when an eligible id has it, with such an id as owner. */
  ghost predicate DomainsMatch(routes: Routes, desired: seq<Route>, s: Scan) {
    && (forall d :: d in s.domains ==> HasHost(routes, desired, s.domains[d], d))
    && forall i :: 0 <= i < |desired| && Eligible(routes, desired[i]) ==> desired[i].domain in s.domains
  }

  predicate HasHost(routes: Routes, desired: seq<Route>, id: RouteID, d: string) {
    exists i :: 0 <= i < |desired| && desired[i].ID() == id && Eligible(routes, desired[i]) && desired[i].domain == d
  }

  // ----- How the rule changes with one more candidate -----

  lemma ClaimedNext(routes: Routes, p: seq<Route>, c: Route, id: RouteID)
    ensures Claimed(routes, p + [c], id) <==> Claimed(routes, p, id) || (c.ID() == id && Eligible(routes, c))
  {
    var q := p + [c];
    if i :| 0 <= i < |p| && p[i].ID() == id && Eligible(routes, p[i]) {
      assert q[i] == p[i];
    }
    if c.ID() == id && Eligible(routes, c) {
      assert q[|p|] == c;
    }
  }

  /** `c` agrees with every earlier candidate of its id. */
  predicate AgreesWith(p: seq<Route>, c: Route) {
    forall i :: 0 <= i < |p| && p[i].ID() == c.ID() ==> p[i].port == c.port && p[i].owner == c.owner
  }

  lemma AgreedNext(p: seq<Route>, c: Route, id: RouteID)
    ensures Agreed(p + [c], id) <==> Agreed(p, id) && (c.ID() == id ==> AgreesWith(p, c))
  {
    var q := p + [c];
    assert forall i :: 0 <= i < |p| ==> q[i] == p[i];
    assert q[|p|] == c;
    if Agreed(q, id) {
      forall i, j | 0 <= i < |p| && 0 <= j < |p| && p[i].ID() == id && p[j].ID() == id
        ensures p[i].port == p[j].port && p[i].owner == p[j].owner
      {
        assert q[i] == p[i] && q[j] == p[j];
      }
      if c.ID() == id {
        forall i | 0 <= i < |p| && p[i].ID() == id
          ensures p[i].port == c.port && p[i].owner == c.owner
        {
          assert q[i] == p[i] && q[|p|] == c;
        }
      }
    }
  }

  /** No earlier eligible candidate of another id has the hostname of `c`. */
  predicate FreeHost(routes: Routes, p: seq<Route>, c: Route) {
    forall j :: 0 <= j < |p| && Eligible(routes, p[j]) && p[j].domain == c.domain ==> p[j].ID() == c.ID()
  }

  /** `id` has an earlier candidate with the hostname of `c`. */
  predicate Shares(p: seq<Route>, c: Route, id: RouteID) {
    exists i :: 0 <= i < |p| && p[i].ID() == id && p[i].domain == c.domain
  }

  lemma AloneNext(routes: Routes, p: seq<Route>, c: Route, id: RouteID)
    ensures Alone(routes, p + [c], id)
       <==> (Alone(routes, p, id) && (c.ID() == id ==> FreeHost(routes, p, c))
             && (c.ID() != id && Eligible(routes, c) ==> !Shares(p, c, id)))
  {
    var q := p + [c];
    assert q[|p|] == c;
    if Alone(routes, q, id) {
      forall i, j | 0 <= i < |p| && 0 <= j < |p| && p[i].ID() == id && Eligible(routes, p[j])
                    && p[i].domain == p[j].domain
        ensures p[j].ID() == id
      {
        assert q[i] == p[i] && q[j] == p[j];
      }
      if c.ID() == id {
        forall j | 0 <= j < |p| && Eligible(routes, p[j]) && p[j].domain == c.domain
          ensures p[j].ID() == c.ID()
        {
          assert q[j] == p[j];
        }
      }
      forall i | 0 <= i < |p| && c.ID() != id && Eligible(routes, c)
        ensures !(p[i].ID() == id && p[i].domain == c.domain)
      {
        assert q[i] == p[i];
      }
    }
    if Alone(routes, p, id) && (c.ID() == id ==> FreeHost(routes, p, c))
       && (c.ID() != id && Eligible(routes, c) ==> !Shares(p, c, id)) {
      forall i, j | 0 <= i < |q| && 0 <= j < |q| && q[i].ID() == id && Eligible(routes, q[j])
                    && q[i].domain == q[j].domain
        ensures q[j].ID() == id
      {
        assert i < |p| ==> q[i] == p[i];
        assert j < |p| ==> q[j] == p[j];
      }
    }
  }

  lemma SurvivesOther(routes: Routes, p: seq<Route>, c: Route, x: RouteID)
    requires x != c.ID()
    ensures Survives(routes, p + [c], x) <==> (Survives(routes, p, x) && (Eligible(routes, c) ==> !Shares(p, c, x)))
  {
    ClaimedNext(routes, p, c, x);
    AgreedNext(p, c, x);
    AloneNext(routes, p, c, x);
  }

  /** Candidates of one id are all eligible or none is. */
  lemma SameEligibility(routes: Routes, p: seq<Route>, c: Route)
    requires OneHostPerID(p + [c])
    ensures forall i :: 0 <= i < |p| && p[i].ID() == c.ID() ==>
              p[i].domain == c.domain && (Eligible(routes, p[i]) <==> Eligible(routes, c))
    ensures OneHostPerID(p)
  {
    var q := p + [c];
    assert q[|p|] == c;
    forall i | 0 <= i < |p| && p[i].ID() == c.ID()
      ensures p[i].domain == c.domain
    {
      assert q[i] == p[i];
    }
    forall i, j | 0 <= i < |p| && 0 <= j < |p| && p[i].ID() == p[j].ID()
      ensures p[i].domain == p[j].domain
    {
      assert q[i] == p[i] && q[j] == p[j];
    }
  }

  lemma SurvivesSelf(routes: Routes, p: seq<Route>, c: Route)
    requires OneHostPerID(p + [c])
    ensures Claimed(routes, p + [c], c.ID()) <==> Eligible(routes, c)
    ensures Survives(routes, p + [c], c.ID())
       <==> (Eligible(routes, c) && Agreed(p, c.ID()) && AgreesWith(p, c) && Alone(routes, p, c.ID())
             && FreeHost(routes, p, c))
  {
    SameEligibility(routes, p, c);
    ClaimedNext(routes, p, c, c.ID());
    AgreedNext(p, c, c.ID());
    AloneNext(routes, p, c, c.ID());
  }

  // ----- The scan implements the rule -----

  /** The part of `ScanMatches` about one id. */
  ghost predicate MatchesAt(routes: Routes, desired: seq<Route>, s: Scan, x: RouteID) {
    && (x in s.next <==> Survives(routes, desired, x))
    && (x in s.blocked <==> Claimed(routes, desired, x) && !Survives(routes, desired, x))
    && (x in s.next ==> Represents(desired, x, s.next[x]))
  }

  predicate Represents(desired: seq<Route>, x: RouteID, r: Route) {
    forall i :: 0 <= i < |desired| && desired[i].ID() == x ==>
      r.port == desired[i].port && r.owner == desired[i].owner && r.domain == desired[i].domain
  }

  lemma RepresentsNext(p: seq<Route>, c: Route, x: RouteID, r: Route)
    requires Represents(p, x, r)
    requires c.ID() == x ==> r.port == c.port && r.owner == c.owner && r.domain == c.domain
    ensures Represents(p + [c], x, r)
  {
  }

  /** An eligible survivor's hostname is recorded. */
  lemma SurvivorRecorded(routes: Routes, p: seq<Route>, c: Route, s: Scan, x: RouteID)
    requires OneHostPerID(p) && DomainsMatch(routes, p, s)
    requires Survives(routes, p, x) && Shares(p, c, x)
    ensures c.domain in s.domains
  {
    var i :| 0 <= i < |p| && p[i].ID() == x && p[i].domain == c.domain;
    var k :| 0 <= k < |p| && p[k].ID() == x && Eligible(routes, p[k]);
  }

  lemma OtherAt(routes: Routes, p: seq<Route>, c: Route, s: Scan, s': Scan, x: RouteID)
    requires OneHostPerID(p + [c]) && x != c.ID()
    requires MatchesAt(routes, p, s, x)
    requires x in s'.next <==> x in s.next && (Eligible(routes, c) ==> !Shares(p, c, x))
    requires x in s'.next ==> s'.next[x] == s.next[x]
    requires x in s'.blocked <==> x in s.blocked || (x in s.next && x !in s'.next)
    ensures MatchesAt(routes, p + [c], s', x)
  {
    SurvivesOther(routes, p, c, x);
    ClaimedNext(routes, p, c, x);
    if x in s'.next {
      RepresentsNext(p, c, x, s.next[x]);
    }
  }

  lemma DomainsKept(routes: Routes, p: seq<Route>, c: Route, s: Scan, s': Scan)
    requires DomainsMatch(routes, p, s)
    requires if Eligible(routes, c) && c.domain !in s.domains then s'.domains == s.domains[c.domain := c.ID()]
             else s'.domains == s.domains
    ensures DomainsMatch(routes, p + [c], s')
  {
    var q := p + [c];
    forall d | d in s'.domains
      ensures HasHost(routes, q, s'.domains[d], d)
    {
      if d in s.domains && (d != c.domain || s'.domains == s.domains) {
        var i :| 0 <= i < |p| && p[i].ID() == s.domains[d] && Eligible(routes, p[i]) && p[i].domain == d;
        assert q[i] == p[i];
      } else {
        assert q[|p|] == c;
      }
    }
    forall i | 0 <= i < |q| && Eligible(routes, q[i])
      ensures q[i].domain in s'.domains
    {
      if i < |p| {
        assert q[i] == p[i];
      }
    }
  }

  /** Which branch of the scan applies to `c`. */
  datatype Branch = AlreadyBlocked | NotEligible | Clash(owner: RouteID) | Repeat | First

  function BranchOf(routes: Routes, s: Scan, c: Route): Branch {
    if c.ID() in s.blocked then AlreadyBlocked
    else if !Eligible(routes, c) then NotEligible
    else if c.domain in s.domains && s.domains[c.domain] != c.ID() then Clash(s.domains[c.domain])
    else if c.ID() in s.next then Repeat
    else First
  }

  /** What one candidate does to the entry of another id. */
  lemma ConsiderOther(routes: Routes, s: Scan, c: Route, x: RouteID)
    requires x != c.ID()
    ensures var s' := Consider(routes, s, c);
            && (x in s'.next <==> x in s.next && BranchOf(routes, s, c) != Clash(x))
            && (x in s'.blocked <==> x in s.blocked || BranchOf(routes, s, c) == Clash(x))
            && (x in s'.next ==> s'.next[x] == s.next[x])
  {
  }

  lemma StepOther(routes: Routes, p: seq<Route>, c: Route, s: Scan, x: RouteID)
    requires OneHostPerID(p + [c]) && ScanMatches(routes, p, s) && x != c.ID()
    ensures MatchesAt(routes, p + [c], Consider(routes, s, c), x)
  {
    SameEligibility(routes, p, c);
    EntryMatches(routes, p, s, x);
    ConsiderOther(routes, s, c, x);
    if x in s.next {
      ClashMeansShares(routes, p, c, s, x);
    } else if BranchOf(routes, s, c) == Clash(x) {
      OwnerKnown(routes, p, c, s, x);
    }
    OtherAt(routes, p, c, s, Consider(routes, s, c), x);
  }

  lemma EntryMatches(routes: Routes, p: seq<Route>, s: Scan, x: RouteID)
    requires ScanMatches(routes, p, s)
    ensures MatchesAt(routes, p, s, x)
  {
  }

  /** The recorded owner of a hostname is claimed and shares the hostname. */
  lemma OwnerKnown(routes: Routes, p: seq<Route>, c: Route, s: Scan, x: RouteID)
    requires ScanMatches(routes, p, s) && c.domain in s.domains && s.domains[c.domain] == x
    ensures Shares(p, c, x) && (x in s.next || x in s.blocked)
  {
    var i :| 0 <= i < |p| && p[i].ID() == x && Eligible(routes, p[i]) && p[i].domain == c.domain;
    assert Claimed(routes, p, x);
  }

  /** Eligible candidates with the hostname of a survivor are the survivor's own. */
  lemma SoleOwner(routes: Routes, p: seq<Route>, c: Route, x: RouteID)
    requires Alone(routes, p, x) && Shares(p, c, x)
    ensures forall j :: 0 <= j < |p| && Eligible(routes, p[j]) && p[j].domain == c.domain ==> p[j].ID() == x
  {
  }

  /** A survivor shares the hostname of an eligible candidate exactly when the candidate clashes with it. */
  lemma ClashMeansShares(routes: Routes, p: seq<Route>, c: Route, s: Scan, x: RouteID)
    requires OneHostPerID(p + [c]) && ScanMatches(routes, p, s) && x != c.ID() && x in s.next
    ensures BranchOf(routes, s, c) == Clash(x) <==> Eligible(routes, c) && Shares(p, c, x)
  {
    SameEligibility(routes, p, c);
    if Eligible(routes, c) && Shares(p, c, x) {
      SurvivorRecorded(routes, p, c, s, x);
      SoleOwner(routes, p, c, x);
      assert HasHost(routes, p, s.domains[c.domain], c.domain);
      assert c.ID() in s.blocked ==> Claimed(routes, p, c.ID());
    }
    if BranchOf(routes, s, c) == Clash(x) {
      OwnerKnown(routes, p, c, s, x);
    }
  }

  // ----- The candidate's own entry, branch by branch -----

  lemma SelfBlocked(routes: Routes, p: seq<Route>, c: Route, s: Scan)
    requires OneHostPerID(p + [c]) && ScanMatches(routes, p, s) && BranchOf(routes, s, c).AlreadyBlocked?
    ensures MatchesAt(routes, p + [c], Consider(routes, s, c), c.ID())
  {
    SameEligibility(routes, p, c);
    SurvivesSelf(routes, p, c);
    assert Claimed(routes, p, c.ID());
  }

  lemma SelfNotEligible(routes: Routes, p: seq<Route>, c: Route, s: Scan)
    requires OneHostPerID(p + [c]) && ScanMatches(routes, p, s) && BranchOf(routes, s, c).NotEligible?
    ensures MatchesAt(routes, p + [c], Consider(routes, s, c), c.ID())
  {
    SameEligibility(routes, p, c);
    SurvivesSelf(routes, p, c);
    assert !Claimed(routes, p, c.ID());
  }

  lemma SelfClash(routes: Routes, p: seq<Route>, c: Route, s: Scan)
    requires OneHostPerID(p + [c]) && ScanMatches(routes, p, s) && BranchOf(routes, s, c).Clash?
    ensures MatchesAt(routes, p + [c], Consider(routes, s, c), c.ID())
  {
    SameEligibility(routes, p, c);
    SurvivesSelf(routes, p, c);
    ClashHostTaken(routes, p, c, s);
    ClashNotNext(routes, p, c, s);
  }

  lemma ClashHostTaken(routes: Routes, p: seq<Route>, c: Route, s: Scan)
    requires ScanMatches(routes, p, s) && BranchOf(routes, s, c).Clash?
    ensures !FreeHost(routes, p, c)
  {
    var owner := s.domains[c.domain];
    var i :| 0 <= i < |p| && p[i].ID() == owner && Eligible(routes, p[i]) && p[i].domain == c.domain;
  }

  lemma ClashNotNext(routes: Routes, p: seq<Route>, c: Route, s: Scan)
    requires OneHostPerID(p + [c]) && ScanMatches(routes, p, s) && BranchOf(routes, s, c).Clash?
    ensures c.ID() !in s.next
  {
    var owner := s.domains[c.domain];
    var i :| 0 <= i < |p| && p[i].ID() == owner && Eligible(routes, p[i]) && p[i].domain == c.domain;
    if Survives(routes, p, c.ID()) {
      SelfShares(routes, p, c);
      SoleOwner(routes, p, c, c.ID());
    }
  }

  /** A claimed id has an earlier candidate with the hostname of a later one. */
  lemma SelfShares(routes: Routes, p: seq<Route>, c: Route)
    requires OneHostPerID(p + [c]) && Claimed(routes, p, c.ID())
    ensures Shares(p, c, c.ID())
  {
    SameEligibility(routes, p, c);
    var k :| 0 <= k < |p| && p[k].ID() == c.ID() && Eligible(routes, p[k]);
  }

  lemma SelfRepeat(routes: Routes, p: seq<Route>, c: Route, s: Scan)
    requires OneHostPerID(p + [c]) && ScanMatches(routes, p, s) && BranchOf(routes, s, c).Repeat?
    ensures MatchesAt(routes, p + [c], Consider(routes, s, c), c.ID())
  {
    var id := c.ID();
    SameEligibility(routes, p, c);
    SurvivesSelf(routes, p, c);
    SelfShares(routes, p, c);
    SoleOwner(routes, p, c, id);
    var k :| 0 <= k < |p| && p[k].ID() == id && Eligible(routes, p[k]);
    EntryMatches(routes, p, s, id);
    assert AgreesWith(p, c) <==> s.next[id].port == c.port && s.next[id].owner == c.owner;
    if AgreesWith(p, c) {
      RepresentsNext(p, c, id, s.next[id]);
    }
  }

  lemma SelfFirst(routes: Routes, p: seq<Route>, c: Route, s: Scan)
    requires OneHostPerID(p + [c]) && ScanMatches(routes, p, s) && BranchOf(routes, s, c).First?
    ensures MatchesAt(routes, p + [c], Consider(routes, s, c), c.ID())
  {
    var id := c.ID();
    SameEligibility(routes, p, c);
    SurvivesSelf(routes, p, c);
    assert !Claimed(routes, p, id);
    assert forall i :: 0 <= i < |p| ==> p[i].ID() != id;
    FirstMeansNew(routes, p, c, s);
    assert FreeHost(routes, p, c);
    FirstRepresents(p, c);
  }

  lemma FirstRepresents(p: seq<Route>, c: Route)
    requires forall i :: 0 <= i < |p| ==> p[i].ID() != c.ID()
    ensures Represents(p + [c], c.ID(), AsFound(c))
    ensures Agreed(p, c.ID()) && AgreesWith(p, c)
  {
  }

  lemma ScanStep(routes: Routes, p: seq<Route>, c: Route, s: Scan)
    requires OneHostPerID(p + [c]) && ScanMatches(routes, p, s)
    ensures ScanMatches(routes, p + [c], Consider(routes, s, c))
  {
    match BranchOf(routes, s, c) {
      case AlreadyBlocked => SelfBlocked(routes, p, c, s);
      case NotEligible => SelfNotEligible(routes, p, c, s);
      case Clash(_) => SelfClash(routes, p, c, s);
      case Repeat => SelfRepeat(routes, p, c, s);
      case First => SelfFirst(routes, p, c, s);
    }
    forall x
      ensures MatchesAt(routes, p + [c], Consider(routes, s, c), x)
    {
      if x != c.ID() {
        StepOther(routes, p, c, s, x);
      }
    }
    DomainStep(routes, p, c, s);
    DomainsKept(routes, p, c, s, Consider(routes, s, c));
    AllMatch(routes, p + [c], Consider(routes, s, c));
  }

  lemma ConsiderDomains(routes: Routes, s: Scan, c: Route)
    ensures Consider(routes, s, c).domains
         == if BranchOf(routes, s, c).First? then s.domains[c.domain := c.ID()] else s.domains
  {
  }

  /** A candidate enters `next` exactly when it is eligible and its hostname is new. */
  lemma FirstMeansNew(routes: Routes, p: seq<Route>, c: Route, s: Scan)
    requires OneHostPerID(p + [c]) && ScanMatches(routes, p, s)
    ensures BranchOf(routes, s, c).First? <==> Eligible(routes, c) && c.domain !in s.domains
  {
    SameEligibility(routes, p, c);
    var id := c.ID();
    if id in s.blocked || id in s.next {
      ClaimedRecorded(routes, p, c, s);
    } else if c.domain in s.domains && s.domains[c.domain] == id {
      OwnerKnown(routes, p, c, s, id);
    }
  }

  lemma ClaimedRecorded(routes: Routes, p: seq<Route>, c: Route, s: Scan)
    requires OneHostPerID(p + [c]) && DomainsMatch(routes, p, s) && Claimed(routes, p, c.ID())
    ensures c.domain in s.domains
  {
    SameEligibility(routes, p, c);
    var k :| 0 <= k < |p| && p[k].ID() == c.ID() && Eligible(routes, p[k]);
  }

  lemma DomainStep(routes: Routes, p: seq<Route>, c: Route, s: Scan)
    requires OneHostPerID(p + [c]) && ScanMatches(routes, p, s)
    ensures if Eligible(routes, c) && c.domain !in s.domains
            then Consider(routes, s, c).domains == s.domains[c.domain := c.ID()]
            else Consider(routes, s, c).domains == s.domains
  {
    FirstMeansNew(routes, p, c, s);
    ConsiderDomains(routes, s, c);
  }

  lemma AllMatch(routes: Routes, desired: seq<Route>, s: Scan)
    requires forall x :: MatchesAt(routes, desired, s, x)
    requires DomainsMatch(routes, desired, s)
    ensures ScanMatches(routes, desired, s)
  {
    forall id | id in s.next
      ensures Survives(routes, desired, id) && Represents(desired, id, s.next[id])
    {
      assert MatchesAt(routes, desired, s, id);
    }
    forall id
      ensures Survives(routes, desired, id) ==> id in s.next
      ensures id in s.blocked <==> Claimed(routes, desired, id) && !Survives(routes, desired, id)
    {
      assert MatchesAt(routes, desired, s, id);
    }
  }

  /** The first loop keeps exactly the ids the rule lets survive. */
  lemma {:induction false} ScanRule(routes: Routes, desired: seq<Route>)
    requires OneHostPerID(desired)
    ensures ScanMatches(routes, desired, ScanAll(routes, desired))
  {
    if desired == [] {
    } else {
      var p, c := desired[..|desired| - 1], desired[|desired| - 1];
      assert desired == p + [c];
      SameEligibility(routes, p, c);
      ScanRule(routes, p);
      ScanStep(routes, p, c, ScanAll(routes, p));
    }
  }

  // ----- The reconciled store -----

  /** `ReconcileDiscovered` as a function of the stored routes and the candidates. */
  function Reconciled(routes: Routes, desired: seq<Route>, clock: int): Routes {
    Commit(routes, ScanAll(routes, desired).next, clock)
  }

  /**
    An id is stored afterwards exactly when it is manual or survives the rule;
    manual routes are untouched, and a survivor carries its candidates' port,
    owner and hostname.
  */
  lemma ReconcileRule(routes: Routes, desired: seq<Route>, clock: int)
    requires OneHostPerID(desired)
    ensures var r := Reconciled(routes, desired, clock);
            && (forall id :: id in r <==> IsManual(routes, id) || Survives(routes, desired, id))
            && ManualPart(r) == ManualPart(routes)
            && (forall id :: IsFound(r, id) ==> Represents(desired, id, r[id]))
  {
    ScanRule(routes, desired);
    ScanFiles(routes, desired);
    var next, r := ScanAll(routes, desired).next, Reconciled(routes, desired, clock);
    assert Fileable(routes, next);
    CommitParts(routes, next, clock);
    forall id | IsFound(r, id)
      ensures Represents(desired, id, r[id])
    {
      EntryMatches(routes, desired, ScanAll(routes, desired), id);
      CommittedFields(routes, next[id], clock);
    }
  }

  /** Whatever was stored before, the four compared fields end up as the candidate's. */
  lemma CommittedFields(routes: Routes, c: Route, clock: int)
    ensures SameRoute(Committed(routes, c, clock), c)
  {
  }

  lemma CommitParts(routes: Routes, next: Routes, clock: int)
    requires Fileable(routes, next)
    ensures var r := Commit(routes, next, clock);
            && ManualPart(r) == ManualPart(routes)
            && (forall id :: IsFound(r, id) <==> id in next)
            && (forall id :: id in next ==> r[id] == Committed(routes, next[id], clock))
            && (forall id :: id in r <==> IsManual(routes, id) || id in next)
  {
    var r := Commit(routes, next, clock);
    forall id | id in next
      ensures id in r && r[id] == Committed(routes, next[id], clock) && r[id].IsDiscovered()
    {
    }
    assert forall id :: id in r <==> IsManual(routes, id) || id in next;
  }

  /** Two candidate lists with the same members, in whatever order and number. */
  ghost predicate SameCandidates(a: seq<Route>, b: seq<Route>) {
    forall c :: c in a <==> c in b
  }

  lemma SurvivesAnyOrder(routes: Routes, a: seq<Route>, b: seq<Route>, id: RouteID)
    requires SameCandidates(a, b) && Survives(routes, a, id)
    ensures Survives(routes, b, id)
  {
    var i :| 0 <= i < |a| && a[i].ID() == id && Eligible(routes, a[i]);
    assert a[i] in b;
    forall i, j | 0 <= i < |b| && 0 <= j < |b|
      ensures b[i].ID() == id && b[j].ID() == id ==> b[i].port == b[j].port && b[i].owner == b[j].owner
      ensures b[i].ID() == id && Eligible(routes, b[j]) && b[i].domain == b[j].domain ==> b[j].ID() == id
    {
      PairAnyOrder(routes, a, b, id, i, j);
    }
  }

  lemma PairAnyOrder(routes: Routes, a: seq<Route>, b: seq<Route>, id: RouteID, i: nat, j: nat)
    requires SameCandidates(a, b) && Agreed(a, id) && Alone(routes, a, id) && i < |b| && j < |b|
    ensures b[i].ID() == id && b[j].ID() == id ==> b[i].port == b[j].port && b[i].owner == b[j].owner
    ensures b[i].ID() == id && Eligible(routes, b[j]) && b[i].domain == b[j].domain ==> b[j].ID() == id
  {
    assert b[i] in a && b[j] in a;
    var k :| 0 <= k < |a| && a[k] == b[i];
    var m :| 0 <= m < |a| && a[m] == b[j];
  }

  /** The surviving ids do not depend on the order of the candidates. */
  lemma OrderDoesNotMatter(routes: Routes, a: seq<Route>, b: seq<Route>, clock: int)
    requires OneHostPerID(a) && OneHostPerID(b) && SameCandidates(a, b)
    ensures Reconciled(routes, a, clock).Keys == Reconciled(routes, b, clock).Keys
  {
    ReconcileRule(routes, a, clock);
    ReconcileRule(routes, b, clock);
    forall id
      ensures id in Reconciled(routes, a, clock) <==> id in Reconciled(routes, b, clock)
    {
      if Survives(routes, a, id) {
        SurvivesAnyOrder(routes, a, b, id);
      }
      if Survives(routes, b, id) {
        SurvivesAnyOrder(routes, b, a, id);
      }
    }
  }

  /** Only the manual routes decide what the scan keeps. */
  lemma {:induction false} ScanSeesManualOnly(a: Routes, b: Routes, desired: seq<Route>)
    requires ManualPart(a) == ManualPart(b)
    ensures ScanAll(a, desired) == ScanAll(b, desired)
  {
    if desired == [] {
    } else {
      var c := desired[|desired| - 1];
      ScanSeesManualOnly(a, b, desired[..|desired| - 1]);
      ManualTests(a, b, c);
    }
  }

  lemma ManualTests(a: Routes, b: Routes, c: Route)
    requires ManualPart(a) == ManualPart(b)
    ensures IsManual(a, c.ID()) == IsManual(b, c.ID())
    ensures ManualHost(a, c.domain) == ManualHost(b, c.domain)
  {
    forall id
      ensures IsManual(a, id) == IsManual(b, id)
      ensures IsManual(a, id) ==> a[id] == b[id]
    {
      assert id in ManualPart(a) <==> id in ManualPart(b);
    }
    if ManualHost(a, c.domain) {
      var id :| id in a && !a[id].IsDiscovered() && a[id].domain == c.domain;
      assert IsManual(a, id);
    }
    if ManualHost(b, c.domain) {
      var id :| id in b && !b[id].IsDiscovered() && b[id].domain == c.domain;
      assert IsManual(b, id);
    }
  }

  /** Reconciling the same candidates again changes nothing. */
  lemma ReconcileIsIdempotent(routes: Routes, desired: seq<Route>, clock: int, later: int)
    ensures var once := Reconciled(routes, desired, clock);
            Reconciled(once, desired, later) == once
  {
    var next, once := ScanAll(routes, desired).next, Reconciled(routes, desired, clock);
    ScanFiles(routes, desired);
    assert Fileable(routes, next);
    CommitParts(routes, next, clock);
    ScanSeesManualOnly(routes, once, desired);
    CommitAgain(routes, next, clock, later);
  }

  lemma CommitAgain(routes: Routes, next: Routes, clock: int, later: int)
    requires Fileable(routes, next)
    ensures var once := Commit(routes, next, clock);
            Commit(once, next, later) == once
  {
    var once := Commit(routes, next, clock);
    CommitParts(routes, next, clock);
    assert Fileable(once, next);
    CommitParts(once, next, later);
    forall id | id in next
      ensures Committed(once, next[id], later) == once[id]
    {
      CommittedFields(routes, next[id], clock);
    }
  }

  /** Without one hostname per id the order of candidates can decide who survives. */
  lemma TwoHostsOrderMatters(clock: int)
    ensures exists a: seq<Route>, b: seq<Route> :: SameCandidates(a, b)
              && Reconciled(map[], a, clock).Keys != Reconciled(map[], b, clock).Keys
  {
    var x1 := Route("x", "m", 1, "", "d1", 0, 0, Process, "");
    var x2 := x1.(domain := "d2");
    var y2 := Route("y", "m", 1, "", "d2", 0, 0, Process, "");
    var none: Routes := map[];
    var empty := Scan(map[], {}, map[], []);
    ScanOfThree(none, x1, x2, y2);
    ScanOfThree(none, x2, x1, y2);
    assert x1.ID() != y2.ID();
    var a1 := Consider(none, empty, x1);
    assert a1 == Scan(map[x1.ID() := AsFound(x1)], {}, map["d1" := x1.ID()], []);
    assert Consider(none, a1, x2) == a1;
    assert y2.ID() in Consider(none, a1, y2).next;
    var b1 := Consider(none, empty, x2);
    assert b1 == Scan(map[x1.ID() := AsFound(x2)], {}, map["d2" := x1.ID()], []);
    assert Consider(none, b1, x1) == b1;
    assert y2.ID() !in Consider(none, b1, y2).next;
    var a, b := [x1, x2, y2], [x2, x1, y2];
    assert y2.ID() in Reconciled(none, a, clock) && y2.ID() !in Reconciled(none, b, clock);
    assert SameCandidates(a, b);
  }

  lemma ScanOfThree(routes: Routes, x: Route, y: Route, z: Route)
    ensures ScanAll(routes, [x, y, z])
         == Consider(routes, Consider(routes, Consider(routes, Scan(map[], {}, map[], []), x), y), z)
  {
    assert [x, y, z][..2] == [x, y] && [x, y][..1] == [x] && [x][..0] == [];
    assert ScanAll(routes, [x]) == Consider(routes, ScanAll(routes, []), x);
    assert ScanAll(routes, [x, y]) == Consider(routes, ScanAll(routes, [x]), y);
  }
}
