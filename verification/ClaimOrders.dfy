/** When the loop of `applyLocked` gives the same routes for every order of the claims. */
module ClaimOrders {
  import opened Ordering
  import opened RouteStore
  import opened Claims
  import opened Leases

  // ----- The specification -----

  /** Some route is held by an unexpired system claim and by an unexpired claim of a client. */
  ghost predicate MixedAt(claims: ClaimTable, now: int, j: string, k: string, id: RouteID) {
    Holds(claims, now, j, id) && Holds(claims, now, k, id) && claims[j].system && !claims[k].system
  }

  /** System claims are keyed by their route, so mixing is the only way to violate `NoMix`. */
  lemma MixIsMixed(t: Tables, now: int) returns (j: string, k: string, id: RouteID)
    requires Index(t) && !NoMix(t.claims, now)
    ensures MixedAt(t.claims, now, j, k, id)
  {
    j, k, id :| Holds(t.claims, now, j, id) && Holds(t.claims, now, k, id)
      && !(t.claims[j].system == t.claims[k].system && (t.claims[j].system ==> j == k));
    assert ClaimFiled(t, j) && ClaimFiled(t, k);
    if !t.claims[j].system {
      j, k := k, j;
    }
  }

  /** The latest expiry exists, whichever claim is met first. */
  lemma LatestExists(claims: ClaimTable, now: int, id: RouteID, first: string) returns (e: int)
    requires first in claims
    ensures LatestFrom(claims, now, id, first, e)
  {
    e := StartExpiry(claims[first]);
    var left := claims.Keys;
    while left != {}
      invariant left <= claims.Keys && StartExpiry(claims[first]) <= e
      invariant forall k :: Holds(claims, now, k, id) && k != first && k !in left ==> claims[k].expires <= e
      invariant e == StartExpiry(claims[first])
                || exists k :: Holds(claims, now, k, id) && k != first && claims[k].expires == e
    {
      var k :| k in left;
      left := left - {k};
      if Holds(claims, now, k, id) && k != first && claims[k].expires > e {
        e := claims[k].expires;
      }
    }
  }

  /** With another claim met first the route is as wanted, with that claim's source. */
  lemma OtherWanted(claims: ClaimTable, names: Naming, now: int, id: RouteID, r: Route, first: string)
    returns (other: Route)
    requires Wanted(claims, names, now, id, r) && Holds(claims, now, first, id)
    ensures Wanted(claims, names, now, id, other)
    ensures other.source == if claims[first].system then System else Manual
  {
    var e := LatestExists(claims, now, id, first);
    other := r.(source := if claims[first].system then System else Manual, expiresAt := e);
    assert WantedFrom(claims, names, now, id, other, first);
  }

  lemma ReplaceWanted(claims: ClaimTable, names: Naming, now: int, a: Routes, id: RouteID, r: Route)
    requires WantedSet(claims, names, now, a) && Wanted(claims, names, now, id, r)
    ensures WantedSet(claims, names, now, a[id := r])
  {
  }

  /** The wanted set is determined by the claims exactly when none of its routes is mixed. */
  lemma WantedSetIsUniqueExactly(t: Tables, names: Naming, now: int, a: Routes)
    requires Index(t) && WantedSet(t.claims, names, now, a)
    ensures (forall b :: WantedSet(t.claims, names, now, b) ==> b == a) <==> NoMix(t.claims, now)
  {
    if NoMix(t.claims, now) {
      forall b | WantedSet(t.claims, names, now, b)
        ensures b == a
      {
        WantedSetIsUnique(t.claims, names, now, a, b);
      }
    } else {
      var j, k, id := MixIsMixed(t, now);
      var r := OtherWanted(t.claims, names, now, id, a[id], if a[id].source == System then k else j);
      ReplaceWanted(t.claims, names, now, a, id, r);
      assert a[id := r] != a;
    }
  }

  // ----- The loop itself -----

  ghost predicate Suffix(order: seq<string>, done: ClaimTable, claims: ClaimTable) {
    && NoDuplicates(order) && Elements(order) == claims.Keys - done.Keys && done.Keys <= claims.Keys
    && forall k :: k in done ==> done[k] == claims[k]
  }

  lemma SuffixNext(order: seq<string>, done: ClaimTable, claims: ClaimTable)
    requires Suffix(order, done, claims) && order != []
    ensures order[0] in claims && order[0] !in done
    ensures Suffix(order[1..], done[order[0] := claims[order[0]]], claims)
  {
    var k := order[0];
    assert k in Elements(order);
    assert order == [k] + order[1..];
    assert Elements(order[1..]) == Elements(order) - {k};
  }

  lemma AllDone(order: seq<string>, done: ClaimTable, claims: ClaimTable)
    requires Suffix(order, done, claims) && order == []
    ensures done == claims
  {
    forall k
      ensures k in done <==> k in claims
    {
      assert k in claims.Keys - done.Keys ==> k in Elements(order);
    }
  }

  /** Any order of compatible claims gets through and ends in a wanted set. */
  lemma {:induction false} FoldIsWanted(claims: ClaimTable, names: Naming, now: int, done: ClaimTable, acc: Acc,
                                        order: seq<string>)
    requires LowerNames(names) && Compatible(claims, names, now)
    requires Suffix(order, done, claims) && AccInv(done, names, now, acc)
    ensures forall k :: k in order ==> k in claims
    ensures Fold(names, now, acc, claims, order).Going?
    ensures WantedSet(claims, names, now, Fold(names, now, acc, claims, order).acc.manual)
    decreases |order|
  {
    assert forall k :: k in order ==> k in Elements(order);
    if order == [] {
      AllDone(order, done, claims);
    } else {
      SuffixNext(order, done, claims);
      var k := order[0];
      NotRefused(claims, names, now, done, acc, k, claims[k]);
      AddClaimKeeps(done, names, now, acc, k, claims[k]);
      FoldIsWanted(claims, names, now, done[k := claims[k]], AddClaim(names, now, acc, claims[k]).acc, order[1..]);
    }
  }

  lemma NotRefused(claims: ClaimTable, names: Naming, now: int, done: ClaimTable, acc: Acc, k: string, c: Claim)
    requires LowerNames(names) && Compatible(claims, names, now) && AccInv(done, names, now, acc)
    requires k in claims && claims[k] == c && forall j :: j in done ==> j in claims && claims[j] == done[j]
    ensures AddClaim(names, now, acc, c).Going?
  {
    if AddClaim(names, now, acc, c).Refused? {
      RefusedPairs(done, names, now, acc, c);
      RefusedIncompatible(done, names, now, k, c, claims);
    }
  }

  lemma OrderFolds(claims: ClaimTable, names: Naming, now: int, order: seq<string>)
    requires LowerNames(names) && Compatible(claims, names, now) && Orders(order, claims)
    ensures forall k :: k in order ==> k in claims
    ensures Fold(names, now, NOTHING_YET, claims, order).Going?
    ensures WantedSet(claims, names, now, Fold(names, now, NOTHING_YET, claims, order).acc.manual)
  {
    FoldIsWanted(claims, names, now, map[], NOTHING_YET, order);
  }

  /** Claims met later do not change whether a route is the daemon's. */
  lemma {:induction false} FoldKeepsSource(claims: ClaimTable, names: Naming, now: int, acc: Acc, order: seq<string>,
                                           id: RouteID)
    requires forall k :: k in order ==> k in claims
    requires id in acc.manual && Fold(names, now, acc, claims, order).Going?
    ensures id in Fold(names, now, acc, claims, order).acc.manual
    ensures Fold(names, now, acc, claims, order).acc.manual[id].source == acc.manual[id].source
    decreases |order|
  {
    if order == [] {
    } else {
      var next := AddClaim(names, now, acc, claims[order[0]]);
      assert id in next.acc.manual && next.acc.manual[id].source == acc.manual[id].source;
      FoldKeepsSource(claims, names, now, next.acc, order[1..], id);
    }
  }

  lemma OrderStartingWith(claims: ClaimTable, first: string) returns (order: seq<string>)
    requires first in claims
    ensures Orders(order, claims) && order != [] && order[0] == first
  {
    order := [first];
    var left := claims.Keys - {first};
    while left != {}
      invariant left <= claims.Keys && Elements(order) == claims.Keys - left && NoDuplicates(order)
      invariant order != [] && order[0] == first
    {
      var k :| k in left;
      assert k !in Elements(order);
      ElementsAppend(order, k);
      order := order + [k];
      left := left - {k};
    }
  }

  /** The claim that is met first decides the source of its route. */
  lemma FirstDecides(claims: ClaimTable, names: Naming, now: int, order: seq<string>, id: RouteID)
    requires LowerNames(names) && Compatible(claims, names, now) && Orders(order, claims)
    requires order != [] && Holds(claims, now, order[0], id)
    ensures forall k :: k in order ==> k in claims
    ensures var r := Fold(names, now, NOTHING_YET, claims, order);
            r.Going? && id in r.acc.manual
            && r.acc.manual[id].source == if claims[order[0]].system then System else Manual
  {
    OrderFolds(claims, names, now, order);
    var next := AddClaim(names, now, NOTHING_YET, claims[order[0]]);
    assert forall k :: k in order[1..] ==> k in order;
    FoldKeepsSource(claims, names, now, next.acc, order[1..], id);
  }

  ghost predicate SameInOrders(claims: ClaimTable, names: Naming, now: int, a: seq<string>, b: seq<string>)
    requires forall k :: k in a ==> k in claims
    requires forall k :: k in b ==> k in claims
  {
    var x, y := Fold(names, now, NOTHING_YET, claims, a), Fold(names, now, NOTHING_YET, claims, b);
    x.Going? && y.Going? && x.acc.manual == y.acc.manual
  }

  ghost predicate OrderIndependent(claims: ClaimTable, names: Naming, now: int) {
    forall a, b :: Orders(a, claims) && Orders(b, claims) ==>
      (forall k :: k in a ==> k in claims) && (forall k :: k in b ==> k in claims)
      && SameInOrders(claims, names, now, a, b)
  }

  /**
    The loop over compatible claims gives the same manual routes in every order
    exactly when no unexpired system claim shares its route with another's.
  */
  lemma LoopIsOrderIndependentExactly(t: Tables, names: Naming, now: int)
    requires Index(t) && LowerNames(names) && Compatible(t.claims, names, now)
    ensures OrderIndependent(t.claims, names, now) <==> NoMix(t.claims, now)
  {
    if NoMix(t.claims, now) {
      forall a, b | Orders(a, t.claims) && Orders(b, t.claims)
        ensures (forall k :: k in a ==> k in t.claims) && (forall k :: k in b ==> k in t.claims)
        ensures SameInOrders(t.claims, names, now, a, b)
      {
        OrderFolds(t.claims, names, now, a);
        OrderFolds(t.claims, names, now, b);
        WantedSetIsUnique(t.claims, names, now, Fold(names, now, NOTHING_YET, t.claims, a).acc.manual,
                          Fold(names, now, NOTHING_YET, t.claims, b).acc.manual);
      }
    } else {
      var j, k, id := MixIsMixed(t, now);
      var a := OrderStartingWith(t.claims, j);
      var b := OrderStartingWith(t.claims, k);
      FirstDecides(t.claims, names, now, a, id);
      FirstDecides(t.claims, names, now, b, id);
      assert !SameInOrders(t.claims, names, now, a, b);
    }
  }
}
