/** The lease tables of the controller and the edits its operations make to them. */
module Leases {
  import opened RouteStore
  import opened Claims

  /** 9999-01-01, the expiry of system claims, in nanoseconds from the zero time 0001-01-01. */
  const SYSTEM_EXPIRY: int := 315506361600 * 1000000000

  datatype Tables = Tables(claims: ClaimTable, clients: map<string, string>, legacyIDs: map<RouteID, string>)

  predicate NoColon(s: string) {
    ':' !in s
  }

  /** Validated project names hold no colon. */
  predicate ValidID(id: RouteID) {
    NoColon(id.project)
  }

  function IDString(id: RouteID): string {
    id.project + ":" + id.branch
  }

  function LegacyKey(id: RouteID): string {
    "legacy:" + IDString(id)
  }

  function SystemKey(id: RouteID): string {
    "system:" + IDString(id)
  }

  lemma IDStringInjective(a: RouteID, b: RouteID)
    requires ValidID(a) && ValidID(b) && IDString(a) == IDString(b)
    ensures a == b
  {
    var s, t := IDString(a), IDString(b);
    assert s[|a.project|] == ':' && t[|b.project|] == ':';
    assert |a.project| == |b.project|;
    assert a.project == s[..|a.project|] == t[..|b.project|] == b.project;
    assert a.branch == s[|a.project| + 1..] == t[|b.project| + 1..] == b.branch;
  }

  /** Legacy and system keys name one route each and never collide with random lease ids. */
  lemma KeysDistinct(a: RouteID, b: RouteID)
    requires ValidID(a) && ValidID(b)
    ensures LegacyKey(a) == LegacyKey(b) ==> a == b
    ensures SystemKey(a) == SystemKey(b) ==> a == b
    ensures LegacyKey(a) != SystemKey(b)
    ensures !NoColon(LegacyKey(a)) && !NoColon(SystemKey(a))
  {
    assert LegacyKey(a)[6] == ':' && SystemKey(a)[6] == ':';
    assert LegacyKey(a)[0] == 'l' && SystemKey(b)[0] == 's';
    assert LegacyKey(a)[7..] == IDString(a) && LegacyKey(b)[7..] == IDString(b);
    assert SystemKey(a)[7..] == IDString(a) && SystemKey(b)[7..] == IDString(b);
    if IDString(a) == IDString(b) {
      IDStringInjective(a, b);
    }
  }

  predicate IsClient(c: Claim) {
    !c.legacy && !c.system
  }

  ghost predicate ClaimFiled(t: Tables, k: string)
    requires k in t.claims
  {
    var c := t.claims[k];
    && c.leaseID == k && ValidID(c.ID())
    && (c.legacy ==> !c.system && k == LegacyKey(c.ID()) && c.ID() in t.legacyIDs && t.legacyIDs[c.ID()] == k)
    && (c.system ==> k == SystemKey(c.ID()) && c.expires == SYSTEM_EXPIRY && c.clientID == "")
    && (IsClient(c) ==> NoColon(k) && c.clientID != "" && c.clientID in t.clients && t.clients[c.clientID] == k)
  }

  /** `clients` and `legacyIDs` are exact inverse indexes of the client and legacy claims. */
  ghost predicate Index(t: Tables) {
    && (forall k :: k in t.claims ==> ClaimFiled(t, k))
    && (forall id :: id in t.legacyIDs ==> LegacyEntry(t, id))
    && (forall c :: c in t.clients ==> ClientEntry(t, c))
  }

  ghost predicate LegacyEntry(t: Tables, id: RouteID)
    requires id in t.legacyIDs
  {
    var k := t.legacyIDs[id];
    k in t.claims && t.claims[k].legacy && t.claims[k].ID() == id
  }

  ghost predicate ClientEntry(t: Tables, c: string)
    requires c in t.clients
  {
    var k := t.clients[c];
    k in t.claims && IsClient(t.claims[k]) && t.claims[k].clientID == c
  }

  lemma NoEmptyClient(t: Tables)
    requires Index(t)
    ensures "" !in t.clients && t.clients - {""} == t.clients
  {
    assert "" in t.clients ==> ClientEntry(t, "") && ClaimFiled(t, t.clients[""]);
  }

  // ----- Edits -----

  function ClaimAt(t: Tables, k: string): Claim {
    if k in t.claims then t.claims[k] else Claim("", "", "", "", 0, "", 0, 0, false, false)
  }

  function LegacyLease(t: Tables, id: RouteID): string {
    if id in t.legacyIDs then t.legacyIDs[id] else LegacyKey(id)
  }

  function WithLegacy(t: Tables, id: RouteID, port: int, now: int, ttl: int): Tables {
    var k := LegacyLease(t, id);
    Tables(t.claims[k := Claim(k, "", id.project, id.branch, port, "", ttl, now + ttl, true, false)],
           t.clients, t.legacyIDs[id := k])
  }

  function WithoutLegacy(t: Tables, id: RouteID): Tables {
    Tables(t.claims - {LegacyLease(t, id)}, t.clients, t.legacyIDs - {id})
  }

  datatype Request = Request(project: string, branch: string, port: int, subdomain: string)
  {
    function ID(): RouteID { RouteID(project, branch) }
  }

  function WithClient(t: Tables, k: string, clientID: string, req: Request, now: int, ttl: int): Tables {
    var c := Claim(k, clientID, req.project, req.branch, req.port, req.subdomain, ttl, now + ttl, false, false);
    Tables(t.claims[k := c],
           t.clients[clientID := k], t.legacyIDs)
  }

  function WithoutClient(t: Tables, k: string): Tables {
    Tables(t.claims - {k}, t.clients - {ClaimAt(t, k).clientID}, t.legacyIDs)
  }

  function WithSystem(t: Tables, req: Request): Tables {
    var k := SystemKey(req.ID());
    var c := Claim(k, "", req.project, req.branch, req.port, req.subdomain, 0, SYSTEM_EXPIRY, false, true);
    t.(claims := t.claims[k := c])
  }

  function WithoutSystem(t: Tables, id: RouteID): Tables {
    t.(claims := t.claims - {SystemKey(id)})
  }

  function Renewed(c: Claim, now: int, ttl: int): Claim {
    c.(ttl := ttl, expires := now + ttl)
  }

  function WithRenewal(t: Tables, k: string, now: int, ttl: int): Tables {
    t.(claims := t.claims[k := Renewed(ClaimAt(t, k), now, ttl)])
  }

  /** The claims `Expire` sweeps. */
  function Expired(claims: ClaimTable, now: int): set<string> {
    set k | k in claims && !claims[k].system && !Live(claims[k], now)
  }

  /** The tables after the claims `gone` were taken out together with their index entries. */
  function Without(t: Tables, gone: set<string>): Tables {
    Tables(t.claims - gone,
           t.clients - (set k | k in gone && k in t.claims && !t.claims[k].legacy :: t.claims[k].clientID),
           t.legacyIDs - (set k | k in gone && k in t.claims && t.claims[k].legacy :: t.claims[k].ID()))
  }

  function WithoutExpired(t: Tables, now: int): Tables {
    Without(t, Expired(t.claims, now))
  }

  // ----- The edits keep the indexes -----

  lemma LegacyLeaseIsKey(t: Tables, id: RouteID)
    requires Index(t)
    ensures LegacyLease(t, id) == LegacyKey(id)
    ensures ValidID(id) && LegacyKey(id) in t.claims ==>
              t.claims[LegacyKey(id)].legacy && t.claims[LegacyKey(id)].ID() == id
    ensures ValidID(id) ==> (LegacyKey(id) in t.claims <==> id in t.legacyIDs)
  {
    if id in t.legacyIDs {
      assert LegacyEntry(t, id);
      assert ClaimFiled(t, t.legacyIDs[id]);
    }
    if ValidID(id) && LegacyKey(id) in t.claims {
      var c := t.claims[LegacyKey(id)];
      assert ClaimFiled(t, LegacyKey(id));
      KeysDistinct(id, c.ID());
      KeysDistinct(c.ID(), id);
    }
  }

  lemma WithLegacyIndex(t: Tables, id: RouteID, port: int, now: int, ttl: int)
    requires Index(t) && ValidID(id)
    ensures Index(WithLegacy(t, id, port, now, ttl))
  {
    LegacyLeaseIsKey(t, id);
    var u, k := WithLegacy(t, id, port, now, ttl), LegacyKey(id);
    forall j | j in u.claims
      ensures ClaimFiled(u, j)
    {
      if j != k {
        assert ClaimFiled(t, j);
        KeysDistinct(id, t.claims[j].ID());
      }
    }
    forall i | i in u.legacyIDs
      ensures LegacyEntry(u, i)
    {
      if i != id {
        assert LegacyEntry(t, i);
        assert ClaimFiled(t, t.legacyIDs[i]);
        KeysDistinct(id, i);
      }
    }
    forall c | c in u.clients
      ensures ClientEntry(u, c)
    {
      assert ClientEntry(t, c);
      assert ClaimFiled(t, t.clients[c]);
      KeysDistinct(id, id);
    }
  }

  lemma WithoutLegacyIndex(t: Tables, id: RouteID)
    requires Index(t) && id in t.legacyIDs
    ensures Index(WithoutLegacy(t, id))
  {
    var u, k := WithoutLegacy(t, id), t.legacyIDs[id];
    assert LegacyEntry(t, id);
    forall j | j in u.claims
      ensures ClaimFiled(u, j)
    {
      assert ClaimFiled(t, j);
    }
    forall i | i in u.legacyIDs
      ensures LegacyEntry(u, i)
    {
      assert LegacyEntry(t, i);
    }
    forall c | c in u.clients
      ensures ClientEntry(u, c)
    {
      assert ClientEntry(t, c);
    }
  }

  lemma WithClientIndex(t: Tables, k: string, clientID: string, req: Request, now: int, ttl: int)
    requires Index(t) && ValidID(req.ID()) && NoColon(k) && k !in t.claims
    requires clientID != "" && clientID !in t.clients
    ensures Index(WithClient(t, k, clientID, req, now, ttl))
  {
    var u := WithClient(t, k, clientID, req, now, ttl);
    forall j | j in u.claims
      ensures ClaimFiled(u, j)
    {
      if j != k {
        assert ClaimFiled(t, j);
      }
    }
    forall i | i in u.legacyIDs
      ensures LegacyEntry(u, i)
    {
      assert LegacyEntry(t, i);
    }
    forall c | c in u.clients
      ensures ClientEntry(u, c)
    {
      if c != clientID {
        assert ClientEntry(t, c);
      }
    }
  }

  lemma WithoutClientIndex(t: Tables, k: string)
    requires Index(t) && k in t.claims && IsClient(t.claims[k])
    ensures Index(WithoutClient(t, k))
  {
    var u := WithoutClient(t, k);
    assert ClaimFiled(t, k);
    forall j | j in u.claims
      ensures ClaimFiled(u, j)
    {
      assert ClaimFiled(t, j);
    }
    forall i | i in u.legacyIDs
      ensures LegacyEntry(u, i)
    {
      assert LegacyEntry(t, i);
    }
    forall c | c in u.clients
      ensures ClientEntry(u, c)
    {
      assert ClientEntry(t, c);
    }
  }

  lemma SystemClaimAt(t: Tables, id: RouteID)
    requires Index(t) && ValidID(id) && SystemKey(id) in t.claims
    ensures t.claims[SystemKey(id)].system && t.claims[SystemKey(id)].ID() == id
  {
    var k := SystemKey(id);
    assert ClaimFiled(t, k);
    KeysDistinct(id, t.claims[k].ID());
    KeysDistinct(t.claims[k].ID(), id);
  }

  lemma WithSystemIndex(t: Tables, req: Request)
    requires Index(t) && ValidID(req.ID())
    ensures Index(WithSystem(t, req))
  {
    var u, k := WithSystem(t, req), SystemKey(req.ID());
    if k in t.claims {
      SystemClaimAt(t, req.ID());
    }
    forall j | j in u.claims
      ensures ClaimFiled(u, j)
    {
      if j != k {
        assert ClaimFiled(t, j);
      }
    }
    OtherEntries(t, u, k);
  }

  /** Index entries survive when only the claim `k` changes, and it is neither legacy nor a client's. */
  lemma OtherEntries(t: Tables, u: Tables, k: string)
    requires Index(t) && u.legacyIDs == t.legacyIDs && u.clients == t.clients
    requires forall j :: j in t.claims && j != k ==> j in u.claims && u.claims[j] == t.claims[j]
    requires k in t.claims ==> t.claims[k].system
    ensures forall i :: i in u.legacyIDs ==> LegacyEntry(u, i)
    ensures forall c :: c in u.clients ==> ClientEntry(u, c)
  {
    forall i | i in u.legacyIDs
      ensures LegacyEntry(u, i)
    {
      assert LegacyEntry(t, i);
      assert ClaimFiled(t, t.legacyIDs[i]);
    }
    forall c | c in u.clients
      ensures ClientEntry(u, c)
    {
      assert ClientEntry(t, c);
    }
  }

  lemma WithoutSystemIndex(t: Tables, id: RouteID)
    requires Index(t) && ValidID(id) && SystemKey(id) in t.claims
    ensures Index(WithoutSystem(t, id))
  {
    var u := WithoutSystem(t, id);
    SystemClaimAt(t, id);
    forall j | j in u.claims
      ensures ClaimFiled(u, j)
    {
      assert ClaimFiled(t, j);
    }
    OtherEntries(t, u, SystemKey(id));
  }

  lemma WithRenewalIndex(t: Tables, k: string, now: int, ttl: int)
    requires Index(t) && k in t.claims && !t.claims[k].system
    ensures Index(WithRenewal(t, k, now, ttl))
  {
    var u := WithRenewal(t, k, now, ttl);
    assert ClaimFiled(t, k);
    forall j | j in u.claims
      ensures ClaimFiled(u, j)
    {
      assert ClaimFiled(t, j);
    }
    forall i | i in u.legacyIDs
      ensures LegacyEntry(u, i)
    {
      assert LegacyEntry(t, i);
    }
    forall c | c in u.clients
      ensures ClientEntry(u, c)
    {
      assert ClientEntry(t, c);
    }
  }

  lemma WithoutExpiredIndex(t: Tables, now: int)
    requires Index(t)
    ensures Index(WithoutExpired(t, now))
  {
    var u, gone := WithoutExpired(t, now), Expired(t.claims, now);
    forall j | j in u.claims
      ensures ClaimFiled(u, j)
    {
      KeptClaim(t, now, j);
    }
    forall i | i in u.legacyIDs
      ensures LegacyEntry(u, i)
    {
      assert LegacyEntry(t, i);
      assert t.legacyIDs[i] !in gone;
    }
    forall c | c in u.clients
      ensures ClientEntry(u, c)
    {
      assert ClientEntry(t, c);
      assert t.clients[c] !in gone;
    }
  }

  lemma KeptClaim(t: Tables, now: int, j: string)
    requires Index(t) && j in t.claims && j !in Expired(t.claims, now)
    ensures ClaimFiled(WithoutExpired(t, now), j)
  {
    assert ClaimFiled(t, j);
    KeptEntry(t, Expired(t.claims, now), j);
  }

  /** The index entry of a claim outside `gone` is not taken out. */
  lemma KeptEntry(t: Tables, gone: set<string>, j: string)
    requires Index(t) && j in t.claims && j !in gone
    requires forall k :: k in gone && k in t.claims ==> !t.claims[k].system
    ensures t.claims[j].legacy ==> t.claims[j].ID() in Without(t, gone).legacyIDs
    ensures IsClient(t.claims[j]) ==> t.claims[j].clientID in Without(t, gone).clients
  {
    var c := t.claims[j];
    assert ClaimFiled(t, j);
    if c.legacy {
      forall k | k in gone && k in t.claims && t.claims[k].legacy
        ensures t.claims[k].ID() != c.ID()
      {
        assert ClaimFiled(t, k);
      }
    } else if IsClient(c) {
      forall k | k in gone && k in t.claims && !t.claims[k].legacy
        ensures t.claims[k].clientID != c.clientID
      {
        assert ClaimFiled(t, k);
      }
    }
  }

  // ----- Undoing an edit -----

  lemma RestoreOne(t: Tables, gone: set<string>, k: string)
    requires Index(t) && k in gone && gone <= t.claims.Keys && forall j :: j in gone ==> !t.claims[j].system
    ensures var u, c := Without(t, gone), t.claims[k];
            Without(t, gone - {k})
            == if c.legacy then Tables(u.claims[c.leaseID := c], u.clients, u.legacyIDs[c.ID() := c.leaseID])
               else Tables(u.claims[c.leaseID := c], u.clients[c.clientID := c.leaseID], u.legacyIDs)
  {
    var u, c, v := Without(t, gone), t.claims[k], Without(t, gone - {k});
    assert ClaimFiled(t, k);
    KeptEntry(t, gone - {k}, k);
    assert v.claims == u.claims[k := c];
    RestoreLegacy(t, gone, k);
    RestoreClient(t, gone, k);
  }

  lemma RestoreLegacy(t: Tables, gone: set<string>, k: string)
    requires Index(t) && k in gone && gone <= t.claims.Keys && forall j :: j in gone ==> !t.claims[j].system
    ensures Without(t, gone - {k}).legacyIDs
         == if t.claims[k].legacy then Without(t, gone).legacyIDs[t.claims[k].ID() := k] else Without(t, gone).legacyIDs
  {
    var ids := set j | j in gone && j in t.claims && t.claims[j].legacy :: t.claims[j].ID();
    var kept := set j | j in gone - {k} && j in t.claims && t.claims[j].legacy :: t.claims[j].ID();
    assert ClaimFiled(t, k);
    if t.claims[k].legacy {
      KeptEntry(t, gone - {k}, k);
      assert ids == kept + {t.claims[k].ID()};
    } else {
      assert ids == kept;
    }
  }

  lemma RestoreClient(t: Tables, gone: set<string>, k: string)
    requires Index(t) && k in gone && gone <= t.claims.Keys && forall j :: j in gone ==> !t.claims[j].system
    ensures Without(t, gone - {k}).clients
         == if t.claims[k].legacy then Without(t, gone).clients else Without(t, gone).clients[t.claims[k].clientID := k]
  {
    var names := set j | j in gone && j in t.claims && !t.claims[j].legacy :: t.claims[j].clientID;
    var kept := set j | j in gone - {k} && j in t.claims && !t.claims[j].legacy :: t.claims[j].clientID;
    assert ClaimFiled(t, k);
    if t.claims[k].legacy {
      assert names == kept;
    } else {
      KeptEntry(t, gone - {k}, k);
      assert names == kept + {t.claims[k].clientID};
    }
  }
}
