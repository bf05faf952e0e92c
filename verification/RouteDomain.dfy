/** Public hostnames: `BuildDomainChecked` and `BuildRouteDomain`. */
module RouteDomain {

  datatype Hostname = Host(name: string) | TooLong

  function LowerChar(c: char): char {
    if 'A' <= c <= 'Z' then (c as int + 32) as char else c
  }

  /** `strings.ToLower` on ASCII names. */
  function Lower(s: string): string {
    seq(|s|, i requires 0 <= i < |s| => LowerChar(s[i]))
  }

  function ReplaceChar(s: string, from: char, to: char): string {
    seq(|s|, i requires 0 <= i < |s| => if s[i] == from then to else s[i])
  }

  function TrimLeft(s: string): string {
    if s != [] && s[0] == '.' then TrimLeft(s[1..]) else s
  }

  function TrimRight(s: string): string {
    if s != [] && s[|s| - 1] == '.' then TrimRight(s[..|s| - 1]) else s
  }

  /** `strings.Trim(s, ".")`. */
  function TrimDots(s: string): string {
    TrimRight(TrimLeft(s))
  }

  function SlugPart(s: string): string {
    ReplaceChar(ReplaceChar(Lower(s), '/', '-'), '_', '-')
  }

  /** What `BuildDomainChecked` puts in front of the base domain. */
  function FirstLabel(project: string, branch: string): string {
    SlugPart(project) + "-" + SlugPart(branch)
  }

  function BuildDomainChecked(baseDomain: string, project: string, branch: string): Hostname {
    var first := FirstLabel(project, branch);
    var domain := first + "." + Lower(TrimDots(baseDomain));
    if |first| > 63 || |domain| > 253 then TooLong else Host(domain)
  }

  /** The unchecked form, which the scanner uses: a hostname that is too long becomes empty. */
  function BuildDomain(baseDomain: string, project: string, branch: string): string {
    match BuildDomainChecked(baseDomain, project, branch)
    case Host(name) => name
    case TooLong => ""
  }

  function BuildRouteDomain(baseDomain: string, project: string, branch: string, subdomain: string): Hostname {
    if subdomain == "" then BuildDomainChecked(baseDomain, project, branch)
    else
      var domain := Lower(subdomain) + "." + Lower(TrimDots(baseDomain));
      if |domain| > 253 then TooLong else Host(domain)
  }

  predicate IsLower(s: string) {
    forall i :: 0 <= i < |s| ==> !('A' <= s[i] <= 'Z')
  }

  lemma LowerFixes(s: string)
    ensures IsLower(Lower(s))
    ensures IsLower(s) ==> Lower(s) == s
  {
  }

  lemma JoinedIsLower(a: string, b: string)
    requires IsLower(a) && IsLower(b)
    ensures IsLower(a + "." + b) && Lower(a + "." + b) == a + "." + b
  {
    LowerFixes(a + "." + b);
  }

  lemma LabelIsLower(project: string, branch: string)
    ensures IsLower(FirstLabel(project, branch))
  {
    LowerFixes(project);
    LowerFixes(branch);
    assert IsLower(SlugPart(project)) && IsLower(SlugPart(branch));
  }

  /** Hostnames come out in lower case, so comparing them lower-cased changes nothing. */
  lemma DomainIsLower(baseDomain: string, project: string, branch: string, subdomain: string)
    ensures var h := BuildRouteDomain(baseDomain, project, branch, subdomain);
            h.Host? ==> Lower(h.name) == h.name
  {
    var base := TrimDots(baseDomain);
    LowerFixes(base);
    LowerFixes(subdomain);
    LabelIsLower(project, branch);
    JoinedIsLower(Lower(subdomain), Lower(base));
    JoinedIsLower(FirstLabel(project, branch), Lower(base));
  }

  /** What a hostname has in front of the base domain. */
  function RouteLabel(project: string, branch: string, subdomain: string): string {
    if subdomain == "" then FirstLabel(project, branch) else Lower(subdomain)
  }

  lemma EqualWithTail(a: string, b: string, tail: string)
    ensures a + tail == b + tail <==> a == b
  {
    if a + tail == b + tail {
      assert |a| == |b|;
      assert a == (a + tail)[..|a|] == (b + tail)[..|b|] == b;
    }
  }

  /** Two routes share a hostname exactly when their labels agree; the base domain plays no part. */
  lemma RouteHostsEqualExactly(baseDomain: string, p: string, b: string, s: string, q: string, c: string, t: string)
    requires BuildRouteDomain(baseDomain, p, b, s).Host? && BuildRouteDomain(baseDomain, q, c, t).Host?
    ensures BuildRouteDomain(baseDomain, p, b, s) == BuildRouteDomain(baseDomain, q, c, t)
       <==> RouteLabel(p, b, s) == RouteLabel(q, c, t)
  {
    var tail := "." + Lower(TrimDots(baseDomain));
    EqualWithTail(RouteLabel(p, b, s), RouteLabel(q, c, t), tail);
    HostIsLabel(baseDomain, p, b, s);
    HostIsLabel(baseDomain, q, c, t);
  }

  lemma HostIsLabel(baseDomain: string, p: string, b: string, s: string)
    requires BuildRouteDomain(baseDomain, p, b, s).Host?
    ensures BuildRouteDomain(baseDomain, p, b, s)
         == Host(RouteLabel(p, b, s) + ("." + Lower(TrimDots(baseDomain))))
  {
    var base := Lower(TrimDots(baseDomain));
    assert RouteLabel(p, b, s) + "." + base == RouteLabel(p, b, s) + ("." + base);
  }

  /** Different routes can share a hostname, whatever the base domain: slugs forget where the hyphen was. */
  lemma DomainIsNotInjective(baseDomain: string)
    ensures FirstLabel("a", "b-c") == FirstLabel("a-b", "c") == FirstLabel("A", "b/c") == "a-b-c"
    ensures BuildDomainChecked(baseDomain, "a", "b-c") == BuildDomainChecked(baseDomain, "a-b", "c")
         == BuildDomainChecked(baseDomain, "A", "b/c")
  {
    assert SlugPart("b-c") == "b-c" && SlugPart("a-b") == "a-b" && SlugPart("b/c") == "b-c";
    assert FirstLabel("a", "b-c") == "a-b-c" == FirstLabel("a-b", "c");
    assert FirstLabel("A", "b/c") == "a-b-c";
  }

  // ----- Hostnames, character by character -----

  predicate Lowers(c: char, d: char) {
    d == if 'A' <= c <= 'Z' then (c as int + 32) as char else c
  }

  /** `/` and `_` become hyphens, letters become lower-case. */
  predicate Slugs(c: char, d: char) {
    if c == '/' || c == '_' then d == '-' else Lowers(c, d)
  }

  predicate IsLowered(s: string, t: string) {
    |t| == |s| && forall i :: 0 <= i < |s| ==> Lowers(s[i], t[i])
  }

  predicate IsSlug(s: string, t: string) {
    |t| == |s| && forall i :: 0 <= i < |s| ==> Slugs(s[i], t[i])
  }

  /** A subdomain lower-cased, or the slugs of project and branch with a hyphen between, 63 characters at most. */
  predicate IsLabel(project: string, branch: string, subdomain: string, front: string) {
    if subdomain != "" then IsLowered(subdomain, front)
    else
      && |front| == |project| + 1 + |branch| <= 63
      && IsSlug(project, front[..|project|]) && front[|project|] == '-' && IsSlug(branch, front[|project| + 1..])
  }

  predicate AllDots(s: string) {
    forall i :: 0 <= i < |s| ==> s[i] == '.'
  }

  /** `s[i..j]` is `s` without the dots at its ends. */
  predicate StripsDots(s: string, i: int, j: int) {
    && 0 <= i <= j <= |s| && AllDots(s[..i]) && AllDots(s[j..])
    && (i < j ==> s[i] != '.' && s[j - 1] != '.')
  }

  ghost predicate IsBase(baseDomain: string, base: string) {
    exists i, j :: StripsDots(baseDomain, i, j) && IsLowered(baseDomain[i..j], base)
  }

  lemma {:induction false} TrimLeftStrips(s: string) returns (i: nat)
    ensures i <= |s| && TrimLeft(s) == s[i..] && AllDots(s[..i]) && (i < |s| ==> s[i] != '.')
  {
    if s == [] || s[0] != '.' {
      i := 0;
    } else {
      var k := TrimLeftStrips(s[1..]);
      i := k + 1;
      assert s[..i] == [s[0]] + s[1..][..k];
    }
  }

  lemma {:induction false} TrimRightStrips(s: string) returns (j: nat)
    ensures j <= |s| && TrimRight(s) == s[..j] && AllDots(s[j..]) && (j > 0 ==> s[j - 1] != '.')
  {
    if s == [] || s[|s| - 1] != '.' {
      j := |s|;
    } else {
      var init := s[..|s| - 1];
      j := TrimRightStrips(init);
      assert s[j..] == init[j..] + [s[|s| - 1]];
      assert s[..j] == init[..j];
    }
  }

  lemma TrimDotsStrips(s: string) returns (i: nat, j: nat)
    ensures StripsDots(s, i, j) && TrimDots(s) == s[i..j]
  {
    i := TrimLeftStrips(s);
    var k := TrimRightStrips(s[i..]);
    j := i + k;
    assert s[i..][..k] == s[i..j] && s[i..][k..] == s[j..];
  }

  lemma StrippedIsUnique(s: string, i: int, j: int, k: int, m: int)
    requires StripsDots(s, i, j) && StripsDots(s, k, m)
    ensures s[i..j] == s[k..m]
  {
    assert forall x :: 0 <= x < i || j <= x < |s| ==> s[x] == '.' by {
      assert forall x :: 0 <= x < i ==> s[x] == s[..i][x];
      assert forall x :: j <= x < |s| ==> s[x] == s[j..][x - j];
    }
    assert forall x :: 0 <= x < k || m <= x < |s| ==> s[x] == '.' by {
      assert forall x :: 0 <= x < k ==> s[x] == s[..k][x];
      assert forall x :: m <= x < |s| ==> s[x] == s[m..][x - m];
    }
    if i < j && k < m {
      assert i == k && j == m;
    }
  }

  lemma LoweredIsLower(s: string, t: string)
    ensures IsLowered(s, t) <==> t == Lower(s)
  {
  }

  lemma SlugIsSlugPart(s: string, t: string)
    ensures IsSlug(s, t) <==> t == SlugPart(s)
  {
    var lower := Lower(s);
    var slashes := ReplaceChar(lower, '/', '-');
    forall i | 0 <= i < |s|
      ensures Slugs(s[i], SlugPart(s)[i])
    {
      assert SlugPart(s)[i] == if slashes[i] == '_' then '-' else slashes[i];
    }
  }

  lemma LabelIsRouteLabel(project: string, branch: string, subdomain: string, front: string)
    ensures IsLabel(project, branch, subdomain, front)
       <==> front == RouteLabel(project, branch, subdomain) && (subdomain == "" ==> |front| <= 63)
  {
    if subdomain != "" {
      LoweredIsLower(subdomain, front);
    } else if |front| == |project| + 1 + |branch| {
      var p, b := front[..|project|], front[|project| + 1..];
      SlugIsSlugPart(project, p);
      SlugIsSlugPart(branch, b);
      assert front == p + [front[|project|]] + b;
      assert FirstLabel(project, branch) == SlugPart(project) + "-" + SlugPart(branch);
    }
  }

  lemma BaseIsTrimmed(baseDomain: string, base: string)
    ensures IsBase(baseDomain, base) <==> base == Lower(TrimDots(baseDomain))
  {
    var i, j := TrimDotsStrips(baseDomain);
    LoweredIsLower(baseDomain[i..j], base);
    if k, m :| StripsDots(baseDomain, k, m) && IsLowered(baseDomain[k..m], base) {
      StrippedIsUnique(baseDomain, i, j, k, m);
    }
  }

  /** The hostname built is the only one of this form; none is built exactly when it would be too long. */
  lemma HostnameIs(baseDomain: string, project: string, branch: string, subdomain: string, h: string)
    ensures BuildRouteDomain(baseDomain, project, branch, subdomain) == Host(h)
       <==> |h| <= 253 && exists front, base ::
              h == front + "." + base && IsLabel(project, branch, subdomain, front) && IsBase(baseDomain, base)
  {
    var front, base := RouteLabel(project, branch, subdomain), Lower(TrimDots(baseDomain));
    LabelIsRouteLabel(project, branch, subdomain, front);
    BaseIsTrimmed(baseDomain, base);
    forall l, b | IsLabel(project, branch, subdomain, l) && IsBase(baseDomain, b)
      ensures l == front && b == base
    {
      LabelIsRouteLabel(project, branch, subdomain, l);
      BaseIsTrimmed(baseDomain, b);
    }
  }
}
