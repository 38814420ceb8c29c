/** How the tenant travels in the OIDC issuer URL: issuerFromRequest
    (internal/oidc/handler.go) writes it, tenantSlugFromIssuer
    (internal/oidc/storage.go) reads it back. */
module Issuer {
  import opened Strings

  /** strings.LastIndex(s[..i+1+|sub|], sub): the last i' <= i where `sub` occurs, or -1. */
  function LastIndexUpTo(s: string, sub: string, i: int): (r: int)
    requires -1 <= i <= |s|
    ensures -1 <= r <= i
    ensures r >= 0 ==> HasPrefix(s[r..], sub)
    ensures forall j :: r < j <= i ==> !HasPrefix(s[j..], sub)
  {
    if i == -1 then -1
    else if HasPrefix(s[i..], sub) then i
    else LastIndexUpTo(s, sub, i - 1)
  }

  /** strings.TrimSuffix(baseURL, "/"). */
  function TrimSlash(baseURL: string): string {
    if baseURL != "" && baseURL[|baseURL| - 1] == '/' then baseURL[..|baseURL| - 1] else baseURL
  }

  function Path(base: string, slug: string): string {
    base + "/t/" + slug + "/oidc"
  }

  function IssuerURL(baseURL: string, slug: string): string {
    Path(TrimSlash(baseURL), slug)
  }

  function TenantSlugFromIssuer(issuer: string): string {
    var i := LastIndexUpTo(issuer, "/t/", |issuer|);
    if i == -1 then "" else Cut(issuer[i + 3..], '/').0
  }

  lemma {:induction false} MarkerAt(s: string, j: nat)
    requires j <= |s|
    ensures HasPrefix(s[j..], "/t/") <==> j + 3 <= |s| && s[j] == '/' && s[j + 1] == 't' && s[j + 2] == '/'
  {
    if j + 3 <= |s| {
      assert s[j..][..3] == [s[j], s[j + 1], s[j + 2]];
    }
  }

  lemma {:induction false} NoOccurrenceAfterBase(base: string, slug: string, j: int)
    requires '/' !in slug && |base| < j <= |Path(base, slug)|
    requires slug == "t" ==> j != |base| + 2
    ensures !HasPrefix(Path(base, slug)[j..], "/t/")
  {
    var s := Path(base, slug);
    var k := |base| + 3;
    assert forall m :: 0 <= m < |slug| ==> s[k + m] == slug[m] && slug[m] in slug;
    assert forall m :: 0 <= m < 5 ==> s[k + |slug| + m] == "/oidc"[m];
    assert s[|base| + 1] == 't' && s[|base| + 2] == '/';
    assert slug == "t" || |slug| != 1 || slug[0] != 't';
    MarkerAt(s, j);
  }

  lemma {:induction false} SlugReadBack(base: string, slug: string)
    requires '/' !in slug && slug != "t"
    ensures TenantSlugFromIssuer(Path(base, slug)) == slug
  {
    var s := Path(base, slug);
    var i := LastIndexUpTo(s, "/t/", |s|);
    assert s[|base|..] == "/t/" + (slug + "/oidc");
    assert HasPrefix(s[|base|..], "/t/");
    if i > |base| {
      NoOccurrenceAfterBase(base, slug, i);
    }
    assert s[i + 3..] == slug + ['/'] + "oidc";
    CutFirst(slug, "oidc", '/');
  }

  lemma {:induction false} SlugTMisread(base: string)
    ensures TenantSlugFromIssuer(Path(base, "t")) == "oidc"
  {
    var s := Path(base, "t");
    var i := LastIndexUpTo(s, "/t/", |s|);
    assert s[|base| + 2..] == "/t/" + "oidc";
    assert HasPrefix(s[|base| + 2..], "/t/");
    if i > |base| + 2 {
      NoOccurrenceAfterBase(base, "t", i);
    }
    assert s[i + 3..] == "oidc";
    CutWithoutSeparator("oidc", '/');
  }

  /** The slug is read back from the issuer for every '/'-free slug except "t", which
      is read as "oidc": "/t/t/oidc" holds the marker "/t/" twice. */
  lemma {:induction false} IssuerTenantRoundTrip(baseURL: string, slug: string)
    requires '/' !in slug
    ensures TenantSlugFromIssuer(IssuerURL(baseURL, slug)) == slug <==> slug != "t"
    ensures TenantSlugFromIssuer(IssuerURL(baseURL, "t")) == "oidc"
  {
    if slug != "t" {
      SlugReadBack(TrimSlash(baseURL), slug);
    }
    SlugTMisread(TrimSlash(baseURL));
  }

  /** One trailing slash of the base URL makes no difference. */
  lemma {:induction false} IssuerSpelled(base: string, slug: string)
    requires base == "" || base[|base| - 1] != '/'
    ensures IssuerURL(base, slug) == IssuerURL(base + "/", slug) == base + "/t/" + slug + "/oidc"
  {
    assert (base + "/")[..|base + "/"| - 1] == base;
  }

  lemma {:induction false} CutWithoutSeparator(s: string, sep: char)
    requires sep !in s
    ensures Cut(s, sep) == (s, "")
  {
    if s == "" {
    } else {
      CutWithoutSeparator(s[1..], sep);
      assert [s[0]] + s[1..] == s;
    }
  }
}
