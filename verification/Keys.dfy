/** Sort keys of the application table (internal/store). The tables of this project
    are indexed by the structured `Key`; the lemmas below show that, for '#'-free
    ids, the strings DynamoDB sees distinguish exactly the same rows, and that each
    begins-with query selects exactly one kind of row. */
module Keys {
  import opened Strings

  datatype SortKey =
    | AppSK(id: string)
    | SamlSK(id: string)
    | OidcSK(id: string)
    | ClaimSK(id: string, name: string)
    | RoleSK(id: string, group: string)
    | EntityUniqueSK(entityID: string)

  datatype Key = Key(tenant: string, sk: SortKey)

  function TenantPK(slug: string): string { "TENANT#" + slug }

  function ClaimPrefix(id: string): string { "APP#" + id + "#CLAIM#" }

  function RolePrefix(id: string): string { "APP#" + id + "#ROLE#" }

  function Render(sk: SortKey): string {
    match sk
    case AppSK(id) => "APP#" + id
    case SamlSK(id) => "APP#" + id + "#SAML"
    case OidcSK(id) => "APP#" + id + "#OIDC"
    case ClaimSK(id, name) => ClaimPrefix(id) + name
    case RoleSK(id, group) => RolePrefix(id) + group
    case EntityUniqueSK(entityID) => "ENTITYUNIQUE#" + entityID
  }

  /** Application ids are hex strings (store.go, generateID); the encoding needs
      only that they hold no '#'. Names, groups and entityIDs are arbitrary. */
  predicate IdHashFree(sk: SortKey) {
    sk.EntityUniqueSK? || '#' !in sk.id
  }

  /** What follows "APP#<id>" in a rendered key. */
  function Suffix(sk: SortKey): string
    requires !sk.EntityUniqueSK?
  {
    match sk
    case AppSK(_) => ""
    case SamlSK(_) => "#SAML"
    case OidcSK(_) => "#OIDC"
    case ClaimSK(_, name) => "#CLAIM#" + name
    case RoleSK(_, group) => "#ROLE#" + group
  }

  lemma {:induction false} RenderSplit(sk: SortKey)
    requires !sk.EntityUniqueSK?
    ensures Render(sk) == "APP#" + (sk.id + Suffix(sk))
  {
    match sk
    case AppSK(id) => assert id + "" == id;
    case SamlSK(_) =>
    case OidcSK(_) =>
    case ClaimSK(_, _) =>
    case RoleSK(_, _) =>
  }

  lemma {:induction false} TailStart(a: string, x: string, b: string, y: string)
    requires '#' !in b
    requires x != "" ==> x[0] == '#'
    requires a + x == b + y
    ensures |b| <= |a|
  {
    assert forall i :: 0 <= i < |b| ==> (b + y)[i] == b[i] && b[i] != '#';
    assert |a| < |a + x| ==> (a + x)[|a|] == '#';
  }

  /** An id followed by nothing, or by text that starts with '#', can be read in one
      way only. */
  lemma {:induction false} IdAndTailUnique(a: string, x: string, b: string, y: string)
    requires '#' !in a && '#' !in b
    requires x != "" ==> x[0] == '#'
    requires y != "" ==> y[0] == '#'
    requires a + x == b + y
    ensures a == b && x == y
  {
    TailStart(a, x, b, y);
    TailStart(b, y, a, x);
    assert a == (a + x)[..|a|] && b == (b + y)[..|b|];
    assert x == (a + x)[|a|..] && y == (b + y)[|b|..];
  }

  lemma {:induction false} SuffixInjective(a: SortKey, b: SortKey)
    requires !a.EntityUniqueSK? && !b.EntityUniqueSK?
    requires a.id == b.id && Suffix(a) == Suffix(b)
    ensures a == b
  {
    if Suffix(a) != "" {
      assert Suffix(a)[1] == Suffix(b)[1];
    }
    if a.ClaimSK? {
      assert Suffix(a)[7..] == a.name && Suffix(b)[7..] == b.name;
    } else if a.RoleSK? {
      assert Suffix(a)[6..] == a.group && Suffix(b)[6..] == b.group;
    }
  }

  /** Distinct structured keys are distinct strings. */
  lemma {:induction false} RenderInjective(a: SortKey, b: SortKey)
    requires IdHashFree(a) && IdHashFree(b)
    requires Render(a) == Render(b)
    ensures a == b
  {
    if a.EntityUniqueSK? || b.EntityUniqueSK? {
      assert Render(a)[0] == Render(b)[0];
      assert a.EntityUniqueSK? ==> Render(a)[13..] == a.entityID;
      assert b.EntityUniqueSK? ==> Render(b)[13..] == b.entityID;
    } else {
      RenderSplit(a);
      RenderSplit(b);
      assert Render(a)[4..] == a.id + Suffix(a) && Render(b)[4..] == b.id + Suffix(b);
      IdAndTailUnique(a.id, Suffix(a), b.id, Suffix(b));
      SuffixInjective(a, b);
    }
  }

  /** A "APP#<id><tag>" prefix query, for a tag that starts with '#', matches on the
      id exactly and on the suffix by prefix. */
  lemma {:induction false} PrefixSelects(sk: SortKey, id: string, tag: string)
    requires IdHashFree(sk) && '#' !in id && !sk.EntityUniqueSK?
    requires tag != "" && tag[0] == '#'
    ensures HasPrefix(Render(sk), "APP#" + (id + tag)) <==> sk.id == id && HasPrefix(Suffix(sk), tag)
  {
    RenderSplit(sk);
    var body := sk.id + Suffix(sk);
    assert Render(sk) == "APP#" + body;
    PrefixShift("APP#", id + tag, body);
    if HasPrefix(body, id + tag) {
      var rest := body[|id + tag|..];
      assert body == id + (tag + rest);
      IdAndTailUnique(id, tag + rest, sk.id, Suffix(sk));
    }
    if sk.id == id {
      PrefixShift(id, tag, Suffix(sk));
    }
  }

  lemma {:induction false} PrefixShift(common: string, prefix: string, s: string)
    ensures HasPrefix(common + s, common + prefix) <==> HasPrefix(s, prefix)
  {
    if HasPrefix(common + s, common + prefix) {
      assert forall i ::
               0 <= i < |prefix| ==> s[i] == (common + s)[|common| + i] == (common + prefix)[|common| + i] == prefix[i];
    }
  }

  /** The claim-mapping query of one application returns its claim rows only:
      neither another application's rows nor roles, SAML, OIDC or marker rows. */
  lemma {:induction false} ClaimPrefixSelects(sk: SortKey, id: string)
    requires IdHashFree(sk) && '#' !in id
    ensures HasPrefix(Render(sk), ClaimPrefix(id)) <==> sk.ClaimSK? && sk.id == id
  {
    var tag := "#CLAIM#";
    assert ClaimPrefix(id) == "APP#" + (id + tag);
    if sk.EntityUniqueSK? {
      assert Render(sk)[0] != ClaimPrefix(id)[0];
    } else {
      PrefixSelects(sk, id, tag);
      assert sk.ClaimSK? == HasPrefix(Suffix(sk), tag) by {
        assert tag[1] == 'C';
      }
    }
  }

  lemma {:induction false} RolePrefixSelects(sk: SortKey, id: string)
    requires IdHashFree(sk) && '#' !in id
    ensures HasPrefix(Render(sk), RolePrefix(id)) <==> sk.RoleSK? && sk.id == id
  {
    var tag := "#ROLE#";
    assert RolePrefix(id) == "APP#" + (id + tag);
    if sk.EntityUniqueSK? {
      assert Render(sk)[0] != RolePrefix(id)[0];
    } else {
      PrefixSelects(sk, id, tag);
      assert sk.RoleSK? == HasPrefix(Suffix(sk), tag) by {
        assert tag[1] == 'R';
      }
    }
  }

  /** The filter of AppStore.List: a begins-with query on "APP#", then rows whose
      remaining text holds another '#' are dropped. */
  predicate ListedAsApplication(rendered: string) {
    HasPrefix(rendered, "APP#") && '#' !in rendered[4..]
  }

  lemma {:induction false} ListSelectsApplications(sk: SortKey)
    requires IdHashFree(sk)
    ensures ListedAsApplication(Render(sk)) <==> sk.AppSK?
  {
    if sk.EntityUniqueSK? {
      assert Render(sk)[0] == 'E';
    } else {
      RenderSplit(sk);
      assert Render(sk)[4..] == sk.id + Suffix(sk);
      if !sk.AppSK? {
        assert (sk.id + Suffix(sk))[|sk.id|] == '#';
      }
    }
  }
}
