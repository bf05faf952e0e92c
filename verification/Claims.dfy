/** Claims and the route set they ask for: the first half of `applyLocked`. */
module Claims {
  import opened Ordering
  import opened RouteDomain
  import opened RouteStore

  /** One claim of a manual route. Times count nanoseconds from the zero time, as TTLs do. */
  datatype Claim = Claim(
    leaseID: string, clientID: string, project: string, branch: string, port: int, subdomain: string,
    ttl: int, expires: int, legacy: bool, system: bool)
  {
    function ID(): RouteID { RouteID(project, branch) }
  }

  type ClaimTable = map<string, Claim>

  /** The hostname rule in force: `BuildRouteDomain` for one base domain. */
  type Naming = (string, string, string) -> Hostname

  function HostOf(names: Naming, c: Claim): Hostname {
    names(c.project, c.branch, c.subdomain)
  }

  /** Hostnames are produced in lower case. */
  ghost predicate LowerNames(names: Naming) {
    forall p, b, s :: names(p, b, s).Host? ==> Lower(names(p, b, s).name) == names(p, b, s).name
  }

  /** The repository's rule. */
  function RouteNames(baseDomain: string): Naming {
    (p: string, b: string, s: string) => BuildRouteDomain(baseDomain, p, b, s)
  }

  lemma RouteNamesAreLower(baseDomain: string)
    ensures LowerNames(RouteNames(baseDomain))
  {
    forall p, b, s
      ensures var h := RouteNames(baseDomain)(p, b, s); h.Host? ==> Lower(h.name) == h.name
    {
      DomainIsLower(baseDomain, p, b, s);
    }
  }

  predicate Live(c: Claim, now: int) {
    now < c.expires
  }

  /** Claim `k` is unexpired and asks for route `id`. */
  predicate Holds(claims: ClaimTable, now: int, k: string, id: RouteID) {
    k in claims && Live(claims[k], now) && claims[k].ID() == id
  }

  // ----- Compatibility -----

  /** Same id means same port and hostname; same hostname means same id. */
  predicate PairOK(names: Naming, a: Claim, b: Claim) {
    && (a.ID() == b.ID() ==> a.port == b.port && HostOf(names, a) == HostOf(names, b))
    && (HostOf(names, a) == HostOf(names, b) ==> a.ID() == b.ID())
  }

  ghost predicate Compatible(claims: ClaimTable, names: Naming, now: int) {
    && (forall k :: k in claims && Live(claims[k], now) ==> HostOf(names, claims[k]).Host?)
    && (forall j, k :: j in claims && k in claims && Live(claims[j], now) && Live(claims[k], now) ==>
          PairOK(names, claims[j], claims[k]))
  }

  // ----- The wanted manual routes -----

  /** What a claim that is met first contributes as the expiry. */
  function StartExpiry(c: Claim): int {
    if c.system then 0 else c.expires
  }

  /** `e` is the latest of the first claim's start and the other claims' expiries. */
  ghost predicate LatestFrom(claims: ClaimTable, now: int, id: RouteID, first: string, e: int)
    requires first in claims
  {
    && StartExpiry(claims[first]) <= e
    && (forall k :: Holds(claims, now, k, id) && k != first ==> claims[k].expires <= e)
    && (e == StartExpiry(claims[first])
        || exists k :: Holds(claims, now, k, id) && k != first && claims[k].expires == e)
  }

  /** `r` is the route the unexpired claims of `id` ask for, when `first` is met first. */
  ghost predicate WantedFrom(claims: ClaimTable, names: Naming, now: int, id: RouteID, r: Route, first: string) {
    && Holds(claims, now, first, id)
    && r.source == (if claims[first].system then System else Manual)
    && LatestFrom(claims, now, id, first, r.expiresAt)
  }

  ghost predicate Wanted(claims: ClaimTable, names: Naming, now: int, id: RouteID, r: Route) {
    && r.ID() == id && r.host == "" && r.owner == "" && r.createdAt == 0
    && (forall k :: Holds(claims, now, k, id) ==>
          r.port == claims[k].port && HostOf(names, claims[k]) == Host(r.domain))
    && exists first :: WantedFrom(claims, names, now, id, r, first)
  }

  /** One wanted route for each id with an unexpired claim, and no other. */
  ghost predicate WantedSet(claims: ClaimTable, names: Naming, now: int, manual: Routes) {
    && (forall k, id :: Holds(claims, now, k, id) ==> id in manual)
    && forall id :: id in manual ==> Wanted(claims, names, now, id, manual[id])
  }

  // ----- The loop over the claims -----

  /** The variables `manual` and `domainOwners`. */
  datatype Acc = Acc(manual: Routes, owners: map<string, RouteID>)

  datatype AccResult = Going(acc: Acc) | Refused

  function NewRoute(c: Claim, domain: string): Route {
    Route(c.project, c.branch, c.port, "", domain, 0, StartExpiry(c), if c.system then System else Manual, "")
  }

  function AddClaim(names: Naming, now: int, acc: Acc, c: Claim): AccResult {
    if !Live(c, now) then Going(acc)
    else
      match HostOf(names, c)
      case TooLong => Refused
      case Host(domain) =>
        var id := c.ID();
        if Lower(domain) in acc.owners && acc.owners[Lower(domain)] != id then Refused
        else
          var owners := acc.owners[Lower(domain) := id];
          if id in acc.manual then
            var existing := acc.manual[id];
            if existing.domain != domain || existing.port != c.port then Refused
            else if c.expires > existing.expiresAt then
              Going(Acc(acc.manual[id := existing.(expiresAt := c.expires)], owners))
            else Going(Acc(acc.manual, owners))
          else Going(Acc(acc.manual[id := NewRoute(c, domain)], owners))
  }

  /** Exactly the hostnames of unexpired claims are owned, by the claims' ids. */
  ghost predicate OwnersMatch(claims: ClaimTable, names: Naming, now: int, owners: map<string, RouteID>) {
    && (forall k, id :: Holds(claims, now, k, id) && HostOf(names, claims[k]).Host? ==>
          HostOf(names, claims[k]).name in owners && owners[HostOf(names, claims[k]).name] == id)
    && forall d :: d in owners ==> exists k :: OwnedBy(claims, names, now, k, owners[d], d)
  }

  ghost predicate OwnedBy(claims: ClaimTable, names: Naming, now: int, k: string, id: RouteID, d: string) {
    Holds(claims, now, k, id) && HostOf(names, claims[k]) == Host(d)
  }

  ghost predicate AccInv(claims: ClaimTable, names: Naming, now: int, acc: Acc) {
    && Compatible(claims, names, now)
    && WantedSet(claims, names, now, acc.manual)
    && OwnersMatch(claims, names, now, acc.owners)
  }

  lemma HoldsMore(claims: ClaimTable, now: int, k: string, c: Claim)
    requires k !in claims
    ensures forall j, id :: Holds(claims[k := c], now, j, id)
              <==> (Holds(claims, now, j, id) || (j == k && Live(c, now) && c.ID() == id))
  {
  }

  lemma CompatibleMore(claims: ClaimTable, names: Naming, now: int, k: string, c: Claim)
    requires k !in claims && Compatible(claims, names, now)
    requires Live(c, now) ==> HostOf(names, c).Host?
    requires forall j :: j in claims && Live(claims[j], now) && Live(c, now) ==> PairOK(names, claims[j], c)
    ensures Compatible(claims[k := c], names, now)
  {
    var more := claims[k := c];
    forall i, j | i in more && j in more && Live(more[i], now) && Live(more[j], now)
      ensures PairOK(names, more[i], more[j])
    {
      if i != k && j == k {
        assert PairOK(names, claims[i], c);
      } else if i == k && j != k {
        assert PairOK(names, claims[j], c);
      }
    }
  }

  /** A claim the loop accepts is compatible with all unexpired claims before it. */
  lemma AcceptedPairs(claims: ClaimTable, names: Naming, now: int, acc: Acc, c: Claim, j: string)
    requires LowerNames(names) && AccInv(claims, names, now, acc)
    requires Live(c, now) && AddClaim(names, now, acc, c).Going?
    requires j in claims && Live(claims[j], now)
    ensures PairOK(names, claims[j], c)
  {
    assert Holds(claims, now, j, claims[j].ID());
    var domain := HostOf(names, c).name;
    assert Lower(domain) == domain;
    if claims[j].ID() == c.ID() {
      assert Wanted(claims, names, now, c.ID(), acc.manual[c.ID()]);
    }
  }

  /** A refusal is justified: `c` has no hostname, or some unexpired claim before it does not fit. */
  lemma RefusedPairs(claims: ClaimTable, names: Naming, now: int, acc: Acc, c: Claim)
    requires LowerNames(names) && AccInv(claims, names, now, acc)
    requires AddClaim(names, now, acc, c).Refused?
    ensures Live(c, now)
    ensures HostOf(names, c).TooLong? || exists j :: j in claims && Live(claims[j], now) && !PairOK(names, claims[j], c)
  {
    if HostOf(names, c).Host? {
      var domain := HostOf(names, c).name;
      assert Lower(domain) == domain;
      if domain in acc.owners && acc.owners[domain] != c.ID() {
        var j :| OwnedBy(claims, names, now, j, acc.owners[domain], domain);
        assert !PairOK(names, claims[j], c);
      } else {
        assert Wanted(claims, names, now, c.ID(), acc.manual[c.ID()]);
        var first :| WantedFrom(claims, names, now, c.ID(), acc.manual[c.ID()], first);
        assert !PairOK(names, claims[first], c);
      }
    }
  }

  lemma RefusedIncompatible(claims: ClaimTable, names: Naming, now: int, k: string, c: Claim, all: ClaimTable)
    requires forall j :: j in claims ==> j in all && all[j] == claims[j]
    requires k in all && all[k] == c && Live(c, now)
    requires HostOf(names, c).TooLong?
          || exists j :: j in claims && Live(claims[j], now) && !PairOK(names, claims[j], c)
    ensures !Compatible(all, names, now)
  {
  }

  lemma OwnersMore(claims: ClaimTable, names: Naming, now: int, owners: map<string, RouteID>, k: string, c: Claim,
                   d: string)
    requires k !in claims && OwnersMatch(claims, names, now, owners)
    requires Live(c, now) && HostOf(names, c) == Host(d) && (d in owners ==> owners[d] == c.ID())
    ensures OwnersMatch(claims[k := c], names, now, owners[d := c.ID()])
  {
    var more, owners' := claims[k := c], owners[d := c.ID()];
    HoldsMore(claims, now, k, c);
    forall j, id | Holds(more, now, j, id) && HostOf(names, more[j]).Host?
      ensures HostOf(names, more[j]).name in owners' && owners'[HostOf(names, more[j]).name] == id
    {
      assert j != k ==> Holds(claims, now, j, id) && more[j] == claims[j];
    }
    forall e | e in owners'
      ensures exists j :: OwnedBy(more, names, now, j, owners'[e], e)
    {
      if e == d {
        assert OwnedBy(more, names, now, k, owners'[e], e);
      } else {
        var j :| OwnedBy(claims, names, now, j, owners[e], e);
        assert OwnedBy(more, names, now, j, owners'[e], e);
      }
    }
  }

  lemma OwnersSame(claims: ClaimTable, names: Naming, now: int, owners: map<string, RouteID>, k: string, c: Claim)
    requires k !in claims && OwnersMatch(claims, names, now, owners) && !Live(c, now)
    ensures OwnersMatch(claims[k := c], names, now, owners)
  {
    var more := claims[k := c];
    HoldsMore(claims, now, k, c);
    forall d | d in owners
      ensures exists j :: OwnedBy(more, names, now, j, owners[d], d)
    {
      var j :| OwnedBy(claims, names, now, j, owners[d], d);
      assert OwnedBy(more, names, now, j, owners[d], d);
    }
    forall j, id | Holds(more, now, j, id) && HostOf(names, more[j]).Host?
      ensures HostOf(names, more[j]).name in owners && owners[HostOf(names, more[j]).name] == id
    {
      assert Holds(claims, now, j, id) && more[j] == claims[j];
    }
  }

  /** A route stays wanted when the added claim does not hold it. */
  lemma WantedOther(claims: ClaimTable, names: Naming, now: int, id: RouteID, r: Route, k: string, c: Claim)
    requires k !in claims && Wanted(claims, names, now, id, r) && (c.ID() != id || !Live(c, now))
    ensures Wanted(claims[k := c], names, now, id, r)
  {
    var more := claims[k := c];
    HoldsMore(claims, now, k, c);
    var first :| WantedFrom(claims, names, now, id, r, first);
    if r.expiresAt != StartExpiry(claims[first]) {
      var j :| Holds(claims, now, j, id) && j != first && claims[j].expires == r.expiresAt;
      assert Holds(more, now, j, id);
    }
    assert WantedFrom(more, names, now, id, r, first);
  }

  /** A further claim of the same route can only move the expiry later. */
  lemma WantedAgain(claims: ClaimTable, names: Naming, now: int, id: RouteID, r: Route, k: string, c: Claim)
    requires k !in claims && Wanted(claims, names, now, id, r)
    requires Live(c, now) && c.ID() == id && c.port == r.port && HostOf(names, c) == Host(r.domain)
    ensures Wanted(claims[k := c], names, now, id, if c.expires > r.expiresAt then r.(expiresAt := c.expires) else r)
  {
    var more, r' := claims[k := c], if c.expires > r.expiresAt then r.(expiresAt := c.expires) else r;
    HoldsMore(claims, now, k, c);
    var first :| WantedFrom(claims, names, now, id, r, first);
    assert Holds(more, now, k, id);
    LatestAgain(claims, now, id, first, r.expiresAt, k, c);
    assert WantedFrom(more, names, now, id, r', first);
  }

  lemma LatestAgain(claims: ClaimTable, now: int, id: RouteID, first: string, e: int, k: string, c: Claim)
    requires k !in claims && first in claims && LatestFrom(claims, now, id, first, e)
    requires Live(c, now) && c.ID() == id
    ensures LatestFrom(claims[k := c], now, id, first, if c.expires > e then c.expires else e)
  {
    var more := claims[k := c];
    HoldsMore(claims, now, k, c);
    if c.expires <= e && e != StartExpiry(claims[first]) {
      var j :| Holds(claims, now, j, id) && j != first && claims[j].expires == e;
      assert Holds(more, now, j, id);
    } else {
      assert Holds(more, now, k, id);
    }
  }

  lemma WantedNew(claims: ClaimTable, names: Naming, now: int, k: string, c: Claim, d: string)
    requires k !in claims && Live(c, now) && HostOf(names, c) == Host(d)
    requires forall j :: !Holds(claims, now, j, c.ID())
    ensures Wanted(claims[k := c], names, now, c.ID(), NewRoute(c, d))
  {
    var more := claims[k := c];
    HoldsMore(claims, now, k, c);
    forall j | Holds(more, now, j, c.ID())
      ensures j == k
    {
      assert !Holds(claims, now, j, c.ID());
    }
    assert WantedFrom(more, names, now, c.ID(), NewRoute(c, d), k);
  }

  lemma AcceptedCompatible(claims: ClaimTable, names: Naming, now: int, acc: Acc, k: string, c: Claim)
    requires LowerNames(names) && AccInv(claims, names, now, acc) && k !in claims
    requires AddClaim(names, now, acc, c).Going?
    ensures Compatible(claims[k := c], names, now)
  {
    forall j | j in claims && Live(claims[j], now) && Live(c, now)
      ensures PairOK(names, claims[j], c)
    {
      AcceptedPairs(claims, names, now, acc, c, j);
    }
    CompatibleMore(claims, names, now, k, c);
  }

  lemma AcceptedWanted(claims: ClaimTable, names: Naming, now: int, acc: Acc, k: string, c: Claim)
    requires LowerNames(names) && WantedSet(claims, names, now, acc.manual) && k !in claims
    requires AddClaim(names, now, acc, c).Going?
    ensures WantedSet(claims[k := c], names, now, AddClaim(names, now, acc, c).acc.manual)
  {
    var more, manual := claims[k := c], AddClaim(names, now, acc, c).acc.manual;
    HoldsMore(claims, now, k, c);
    forall j, id | Holds(more, now, j, id)
      ensures id in manual
    {
      assert Holds(claims, now, j, id) || id == c.ID();
    }
    forall id | id in manual
      ensures Wanted(more, names, now, id, manual[id])
    {
      if c.ID() != id || !Live(c, now) {
        WantedOther(claims, names, now, id, manual[id], k, c);
      } else if id in acc.manual {
        WantedAgain(claims, names, now, id, acc.manual[id], k, c);
      } else {
        WantedNew(claims, names, now, k, c, HostOf(names, c).name);
      }
    }
  }

  lemma AcceptedOwners(claims: ClaimTable, names: Naming, now: int, acc: Acc, k: string, c: Claim)
    requires LowerNames(names) && OwnersMatch(claims, names, now, acc.owners) && k !in claims
    requires AddClaim(names, now, acc, c).Going?
    ensures OwnersMatch(claims[k := c], names, now, AddClaim(names, now, acc, c).acc.owners)
  {
    if Live(c, now) {
      var domain := HostOf(names, c).name;
      assert Lower(domain) == domain;
      OwnersMore(claims, names, now, acc.owners, k, c, domain);
    } else {
      OwnersSame(claims, names, now, acc.owners, k, c);
    }
  }

  /** One round of the loop over the claims. */
  lemma AddClaimKeeps(claims: ClaimTable, names: Naming, now: int, acc: Acc, k: string, c: Claim)
    requires LowerNames(names) && AccInv(claims, names, now, acc) && k !in claims
    requires AddClaim(names, now, acc, c).Going?
    ensures AccInv(claims[k := c], names, now, AddClaim(names, now, acc, c).acc)
  {
    AcceptedCompatible(claims, names, now, acc, k, c);
    AcceptedWanted(claims, names, now, acc, k, c);
    AcceptedOwners(claims, names, now, acc, k, c);
  }

  /** An order in which the map may yield its keys. */
  ghost predicate Orders(order: seq<string>, claims: ClaimTable) {
    NoDuplicates(order) && Elements(order) == claims.Keys
  }

  /** The loop over the claims in a given order. */
  function Fold(names: Naming, now: int, acc: Acc, claims: ClaimTable, order: seq<string>): AccResult
    requires forall k :: k in order ==> k in claims
    decreases |order|
  {
    if order == [] then Going(acc)
    else
      match AddClaim(names, now, acc, claims[order[0]])
      case Refused => Refused
      case Going(next) => Fold(names, now, next, claims, order[1..])
  }

  const NOTHING_YET := Acc(map[], map[])

  /** The first loop of `applyLocked`, over the claims in whatever order the map yields them. */
  method CollectManual(claims: ClaimTable, names: Naming, now: int) returns (r: AccResult)
    requires LowerNames(names)
    ensures r.Going? <==> Compatible(claims, names, now)
    ensures r.Going? ==> AccInv(claims, names, now, r.acc)
  {
    var acc := NOTHING_YET;
    var todo := claims.Keys;
    ghost var done: ClaimTable := map[];
    while todo != {}
      invariant todo <= claims.Keys && done.Keys == claims.Keys - todo
      invariant forall j :: j in done ==> done[j] == claims[j]
      invariant AccInv(done, names, now, acc)
    {
      var k :| k in todo;
      todo := todo - {k};
      var next := AddClaim(names, now, acc, claims[k]);
      if next.Refused? {
        RefusedPairs(done, names, now, acc, claims[k]);
        RefusedIncompatible(done, names, now, k, claims[k], claims);
        return Refused;
      }
      AddClaimKeeps(done, names, now, acc, k, claims[k]);
      done := done[k := claims[k]];
      acc := next.acc;
    }
    assert done == claims;
    return Going(acc);
  }

  // ----- When the result does not depend on the order -----

  /** No unexpired system claim shares its route with an unexpired client or legacy claim. */
  ghost predicate NoMix(claims: ClaimTable, now: int) {
    forall j, k, id :: Holds(claims, now, j, id) && Holds(claims, now, k, id) ==>
      claims[j].system == claims[k].system && (claims[j].system ==> j == k)
  }

  lemma LatestIsUnique(claims: ClaimTable, names: Naming, now: int, id: RouteID, a: Route, b: Route)
    requires NoMix(claims, now) && Wanted(claims, names, now, id, a) && Wanted(claims, names, now, id, b)
    ensures a == b
  {
    var i :| WantedFrom(claims, names, now, id, a, i);
    var j :| WantedFrom(claims, names, now, id, b, j);
    assert Holds(claims, now, i, id) && Holds(claims, now, j, id);
    if a.expiresAt != StartExpiry(claims[i]) {
      var k :| Holds(claims, now, k, id) && k != i && claims[k].expires == a.expiresAt;
      assert k != j ==> claims[k].expires <= b.expiresAt;
    }
    if b.expiresAt != StartExpiry(claims[j]) {
      var k :| Holds(claims, now, k, id) && k != j && claims[k].expires == b.expiresAt;
      assert k != i ==> claims[k].expires <= a.expiresAt;
    }
  }

  /** Without mixing, the wanted set is determined by the claims, whatever the map order. */
  lemma WantedSetIsUnique(claims: ClaimTable, names: Naming, now: int, a: Routes, b: Routes)
    requires NoMix(claims, now) && WantedSet(claims, names, now, a) && WantedSet(claims, names, now, b)
    ensures a == b
  {
    forall id
      ensures id in a <==> id in b
      ensures id in a ==> a[id] == b[id]
    {
      WantedKeys(claims, names, now, a, id);
      WantedKeys(claims, names, now, b, id);
      if id in a {
        LatestIsUnique(claims, names, now, id, a[id], b[id]);
      }
    }
  }

  lemma WantedKeys(claims: ClaimTable, names: Naming, now: int, manual: Routes, id: RouteID)
    requires WantedSet(claims, names, now, manual)
    ensures id in manual <==> exists k :: Holds(claims, now, k, id)
  {
    if id in manual {
      var first :| WantedFrom(claims, names, now, id, manual[id], first);
    }
  }

  /** Without system claims the expiry is the latest of the unexpired claims'. */
  lemma WantedExpiry(claims: ClaimTable, names: Naming, now: int, id: RouteID, r: Route)
    requires Wanted(claims, names, now, id, r)
    requires forall k :: Holds(claims, now, k, id) ==> !claims[k].system
    ensures r.source == Manual
    ensures forall k :: Holds(claims, now, k, id) ==> claims[k].expires <= r.expiresAt
    ensures exists k :: Holds(claims, now, k, id) && claims[k].expires == r.expiresAt
  {
    var first :| WantedFrom(claims, names, now, id, r, first);
  }
}
