/** One set of claim mappings, three readers: OIDC tokens (mappedClaims in
    internal/oidc/storage.go), SAML assertions (mappedAttributes in
    internal/saml/assertion_maker.go) and the preview (buildOIDCPreview in
    internal/service/preview.go), with exactly when they release the same thing. */
module ClaimRelease {
  import opened Wrappers
  import opened Strings
  import opened Table
  import opened OidcTokens

  datatype Value = Text(text: string) | List(items: seq<string>)

  /** The strings a value releases, however it is wrapped. */
  function Values(v: Option<Value>): seq<string> {
    match v
    case None => []
    case Some(Text(s)) => [s]
    case Some(List(items)) => items
  }

  predicate IsCognitoSource(sourceType: string) {
    sourceType in {"cognito", "attribute"}
  }

  const RESERVED: set<string> :=
    {"sub", "iss", "aud", "exp", "iat", "nbf", "nonce", "at_hash", "c_hash", "azp", "auth_time", "amr", "acr",
     "email", "email_verified", "name", "given_name", "family_name", "preferred_username"}

  lemma {:induction false} ReservedNames()
    ensures RESERVED == {"sub", "iss", "aud", "exp", "iat", "nbf", "nonce", "at_hash", "c_hash", "azp", "auth_time",
                         "amr", "acr", "email", "email_verified", "name", "given_name", "family_name",
                         "preferred_username"}
  {
  }

  // ---------- Reading a user ----------

  const CUSTOM_PREFIX := "custom:"

  function TrimPrefix(s: string, prefix: string): string {
    if HasPrefix(s, prefix) then s[|prefix|..] else s
  }

  function Attribute(custom: map<string, string>, key: string): string {
    if key in custom then custom[key] else ""
  }

  function FullName(c: SubjectClaims): string {
    if c.givenName != "" && c.familyName != "" then c.givenName + " " + c.familyName else ""
  }

  function ResolveSubjectField(c: SubjectClaims, source: string): string {
    if source == "email" then c.email
    else if source == "given_name" then c.givenName
    else if source == "family_name" then c.familyName
    else if source == "name" || source == "common_name" then FullName(c)
    else if source == "sub" || source == "username" then c.sub
    else Attribute(c.custom, TrimPrefix(source, CUSTOM_PREFIX))
  }

  /** The part of a SAML session attributes are read from. */
  datatype Session = Session(subjectID: string, userName: string, email: string, givenName: string, surname: string,
                             commonName: string, groups: seq<string>, custom: map<string, string>)

  /** buildSessionFromClaims never sets the common name. */
  function SessionFromClaims(c: SubjectClaims): Session {
    Session(c.sub, c.sub, c.email, c.givenName, c.familyName, "", c.groups, c.custom)
  }

  function ResolveSessionField(s: Session, source: string): string {
    if source == "email" then s.email
    else if source == "given_name" then s.givenName
    else if source == "family_name" then s.surname
    else if source == "name" || source == "common_name" then s.commonName
    else if source == "sub" then s.subjectID
    else if source == "username" then s.userName
    else Attribute(s.custom, source)
  }

  // ---------- Evaluating a mapping ----------

  /** Role values of the user's groups, in the groups' order. */
  function MappedGroups(groups: seq<string>, roles: map<string, string>): seq<string> {
    if groups == [] then []
    else
      var last := groups[|groups| - 1];
      MappedGroups(groups[..|groups| - 1], roles) + (if last in roles then [roles[last]] else [])
  }

  /** What one mapping yields for a user whose selected field reads `field`. */
  function Evaluate(cm: ClaimMapping, field: string, mapped: seq<string>): Option<Value> {
    if IsCognitoSource(cm.sourceType) then
      var val := if field == "" then cm.defaultValue else field;
      if val != "" then Some(Text(val)) else None
    else if cm.sourceType == "groupMapping" then (if mapped != [] then Some(List(mapped)) else None)
    else if cm.sourceType == "static" then (if cm.defaultValue != "" then Some(Text(cm.defaultValue)) else None)
    else None
  }

  function OidcValue(cm: ClaimMapping, c: SubjectClaims, roles: map<string, string>): Option<Value> {
    Evaluate(cm, ResolveSubjectField(c, cm.sourceAttribute), MappedGroups(c.groups, roles))
  }

  function SamlValue(cm: ClaimMapping, s: Session, roles: map<string, string>): Option<Value> {
    Evaluate(cm, ResolveSessionField(s, cm.sourceAttribute), MappedGroups(s.groups, roles))
  }

  function PreviewValue(cm: ClaimMapping, data: map<string, string>, groups: seq<string>,
                        roles: map<string, string>): Option<Value>
  {
    Evaluate(cm, Attribute(data, cm.sourceAttribute), MappedGroups(groups, roles))
  }

  /** The value of the last mapping to `target` that yields one. */
  function LastValue(ms: seq<ClaimMapping>, value: ClaimMapping -> Option<Value>, target: string): Option<Value> {
    if ms == [] then None
    else
      var last := ms[|ms| - 1];
      if last.targetAttribute == target && value(last).Some? then value(last)
        else LastValue(ms[..|ms| - 1], value, target)
  }

  /** What each source reads of a token's user. */
  lemma {:induction false} SubjectFieldsRead(c: SubjectClaims, key: string)
    ensures ResolveSubjectField(c, "email") == c.email && ResolveSubjectField(c, "given_name") == c.givenName
    ensures ResolveSubjectField(c, "family_name") == c.familyName
    ensures ResolveSubjectField(c, "sub") == c.sub && ResolveSubjectField(c, "username") == c.sub
    ensures ResolveSubjectField(c, "name") == ResolveSubjectField(c, "common_name")
            == if c.givenName == "" || c.familyName == "" then "" else c.givenName + " " + c.familyName
    ensures ResolveSubjectField(c, "custom:" + key) == if key in c.custom then c.custom[key] else ""
    ensures key !in {"email", "given_name", "family_name", "name", "common_name", "sub", "username"}
            && !("custom:" <= key)
            ==> ResolveSubjectField(c, key) == if key in c.custom then c.custom[key] else ""
  {
    assert ("custom:" + key)[|"custom:"|..] == key;
    assert ("custom:" + key)[0] == 'c' && ("custom:" + key)[1] == 'u';
  }

  /** What each source reads of a SAML session. */
  lemma {:induction false} SessionFieldsRead(s: Session, key: string)
    ensures ResolveSessionField(s, "email") == s.email && ResolveSessionField(s, "given_name") == s.givenName
    ensures ResolveSessionField(s, "family_name") == s.surname
    ensures ResolveSessionField(s, "sub") == s.subjectID && ResolveSessionField(s, "username") == s.userName
    ensures ResolveSessionField(s, "name") == ResolveSessionField(s, "common_name") == s.commonName
    ensures key !in {"email", "given_name", "family_name", "name", "common_name", "sub", "username"}
            ==> ResolveSessionField(s, key) == if key in s.custom then s.custom[key] else ""
  {
  }

  /** What each kind of mapping yields of a token's user: a field or its default, the roles of the
      user's groups, a constant; and nothing otherwise. */
  lemma {:induction false} MappingYieldsClaim(cm: ClaimMapping, c: SubjectClaims, roles: map<string, string>)
    ensures cm.sourceType == "cognito" || cm.sourceType == "attribute" ==>
              var field := ResolveSubjectField(c, cm.sourceAttribute);
              && (field != "" ==> OidcValue(cm, c, roles) == Some(Text(field)))
              && (field == "" && cm.defaultValue != "" ==> OidcValue(cm, c, roles) == Some(Text(cm.defaultValue)))
              && (field == cm.defaultValue == "" ==> OidcValue(cm, c, roles) == None)
    ensures cm.sourceType == "groupMapping" ==>
              var mapped := MappedGroups(c.groups, roles);
              OidcValue(cm, c, roles) == if mapped == [] then None else Some(List(mapped))
    ensures cm.sourceType == "static" ==>
              OidcValue(cm, c, roles) == if cm.defaultValue == "" then None else Some(Text(cm.defaultValue))
    ensures cm.sourceType !in {"cognito", "attribute", "groupMapping", "static"} ==> OidcValue(cm, c, roles) == None
  {
    hide ResolveSubjectField, MappedGroups;
  }

  /** The same of a SAML session. */
  lemma {:induction false} MappingYieldsAttribute(cm: ClaimMapping, s: Session, roles: map<string, string>)
    ensures cm.sourceType == "cognito" || cm.sourceType == "attribute" ==>
              var field := ResolveSessionField(s, cm.sourceAttribute);
              && (field != "" ==> SamlValue(cm, s, roles) == Some(Text(field)))
              && (field == "" && cm.defaultValue != "" ==> SamlValue(cm, s, roles) == Some(Text(cm.defaultValue)))
              && (field == cm.defaultValue == "" ==> SamlValue(cm, s, roles) == None)
    ensures cm.sourceType == "groupMapping" ==>
              var mapped := MappedGroups(s.groups, roles);
              SamlValue(cm, s, roles) == if mapped == [] then None else Some(List(mapped))
    ensures cm.sourceType == "static" ==>
              SamlValue(cm, s, roles) == if cm.defaultValue == "" then None else Some(Text(cm.defaultValue))
    ensures cm.sourceType !in {"cognito", "attribute", "groupMapping", "static"} ==> SamlValue(cm, s, roles) == None
  {
    hide ResolveSessionField, MappedGroups;
  }

  /** Each group yields its role, unmapped groups nothing, in the groups' order. */
  lemma {:induction false} GroupsMappedInOrder(a: seq<string>, b: seq<string>, g: string, roles: map<string, string>)
    ensures MappedGroups(a + b, roles) == MappedGroups(a, roles) + MappedGroups(b, roles)
    ensures MappedGroups([g], roles) == if g in roles then [roles[g]] else []
    decreases |b|
  {
    assert MappedGroups([g][..0], roles) == [];
    if b == [] {
      assert a + b == a;
    } else {
      var last := |b| - 1;
      assert (a + b)[..|a + b| - 1] == a + b[..last] && (a + b)[|a + b| - 1] == b[last];
      GroupsMappedInOrder(a, b[..last], g, roles);
    }
  }

  /** The mapping yields a value and no later one to its target does. */
  predicate LastYield(ms: seq<ClaimMapping>, value: ClaimMapping -> Option<Value>, i: nat)
    requires i < |ms|
  {
    && value(ms[i]).Some?
    && forall j :: i < j < |ms| && ms[j].targetAttribute == ms[i].targetAttribute ==> value(ms[j]).None?
  }

  lemma {:induction false} LastYieldIsValue(ms: seq<ClaimMapping>, value: ClaimMapping -> Option<Value>, i: nat)
    requires i < |ms| && LastYield(ms, value, i)
    ensures LastValue(ms, value, ms[i].targetAttribute) == value(ms[i])
    decreases |ms|
  {
    if i == |ms| - 1 {
    } else {
      LastYieldIsValue(ms[..|ms| - 1], value, i);
    }
  }

  lemma {:induction false} SomeYieldIsLast(ms: seq<ClaimMapping>, value: ClaimMapping -> Option<Value>, target: string)
    returns (i: nat)
    requires LastValue(ms, value, target).Some?
    ensures i < |ms| && ms[i].targetAttribute == target && LastYield(ms, value, i)
    decreases |ms|
  {
    var last := |ms| - 1;
    if ms[last].targetAttribute == target && value(ms[last]).Some? {
      i := last;
    } else {
      i := SomeYieldIsLast(ms[..last], value, target);
    }
  }

  predicate Releasable(target: string) { target != "" && target !in RESERVED }

  // ---------- The three readers ----------

  /** A role map built mapping by mapping: the last mapping of a group counts, and no group is
      mapped that no mapping names. */
  method BuildRoleMap(mappings: seq<RoleMapping>) returns (roles: map<string, string>)
    ensures roles == RolesOf(mappings)
    ensures forall i :: 0 <= i < |mappings| && LastOfGroup(mappings, i)
                        ==> && mappings[i].cognitoGroup in roles
                            && roles[mappings[i].cognitoGroup] == mappings[i].mappedValue
    ensures forall g :: g in roles ==> exists i :: 0 <= i < |mappings| && mappings[i].cognitoGroup == g
  {
    roles := map[];
    for i := 0 to |mappings|
      invariant roles == RolesOf(mappings[..i])
    {
      assert mappings[..i + 1][..i] == mappings[..i];
      roles := roles[mappings[i].cognitoGroup := mappings[i].mappedValue];
    }
    assert mappings[..|mappings|] == mappings;
    forall i | 0 <= i < |mappings| && LastOfGroup(mappings, i)
      ensures mappings[i].cognitoGroup in roles && roles[mappings[i].cognitoGroup] == mappings[i].mappedValue
    {
      LastRoleWins(mappings, i);
    }
    forall g | g in roles ensures exists i :: 0 <= i < |mappings| && mappings[i].cognitoGroup == g {
      RolesAreNamed(mappings, g);
    }
  }

  lemma {:induction false} LastRoleWins(mappings: seq<RoleMapping>, i: nat)
    requires i < |mappings| && LastOfGroup(mappings, i)
    ensures mappings[i].cognitoGroup in RolesOf(mappings)
            && RolesOf(mappings)[mappings[i].cognitoGroup] == mappings[i].mappedValue
    decreases |mappings|
  {
    if i == |mappings| - 1 {
    } else {
      LastRoleWins(mappings[..|mappings| - 1], i);
    }
  }

  lemma {:induction false} RolesAreNamed(mappings: seq<RoleMapping>, g: string)
    ensures g in RolesOf(mappings) ==> exists i :: 0 <= i < |mappings| && mappings[i].cognitoGroup == g
    decreases |mappings|
  {
    if mappings == [] {
    } else {
      RolesAreNamed(mappings[..|mappings| - 1], g);
    }
  }

  /** No later mapping names the same group. */
  predicate LastOfGroup(mappings: seq<RoleMapping>, i: nat)
    requires i < |mappings|
  {
    forall j :: i < j < |mappings| ==> mappings[j].cognitoGroup != mappings[i].cognitoGroup
  }

  function RolesOf(mappings: seq<RoleMapping>): map<string, string> {
    if mappings == [] then map[]
    else
      var last := mappings[|mappings| - 1];
      RolesOf(mappings[..|mappings| - 1])[last.cognitoGroup := last.mappedValue]
  }

  method CollectGroups(groups: seq<string>, roles: map<string, string>) returns (mapped: seq<string>)
    ensures mapped == MappedGroups(groups, roles)
  {
    mapped := [];
    for i := 0 to |groups|
      invariant mapped == MappedGroups(groups[..i], roles)
    {
      assert groups[..i + 1][..i] == groups[..i];
      if groups[i] in roles { mapped := mapped + [roles[groups[i]]]; }
    }
    assert groups[..|groups|] == groups;
  }

  lemma {:induction false} LastYields(ms: seq<ClaimMapping>, value: ClaimMapping -> Option<Value>)
    ensures forall i :: 0 <= i < |ms| && LastYield(ms, value, i) ==>
              LastValue(ms, value, ms[i].targetAttribute) == value(ms[i])
    ensures forall t :: LastValue(ms, value, t).Some? ==>
              exists i :: 0 <= i < |ms| && ms[i].targetAttribute == t && LastYield(ms, value, i)
  {
    forall i | 0 <= i < |ms| && LastYield(ms, value, i)
      ensures LastValue(ms, value, ms[i].targetAttribute) == value(ms[i])
    {
      LastYieldIsValue(ms, value, i);
    }
    forall t | LastValue(ms, value, t).Some?
      ensures exists i :: 0 <= i < |ms| && ms[i].targetAttribute == t && LastYield(ms, value, i)
    {
      var i := SomeYieldIsLast(ms, value, t);
    }
  }

  /** What one mapping contributes. */
  method MappedClaim(cm: ClaimMapping, c: SubjectClaims, roles: map<string, string>) returns (val: Option<Value>)
    ensures val == OidcValue(cm, c, roles)
  {
    hide ResolveSubjectField;
    val := None;
    if IsCognitoSource(cm.sourceType) {
      var field := ResolveSubjectField(c, cm.sourceAttribute);
      if field == "" && cm.defaultValue != "" { field := cm.defaultValue; }
      if field != "" { val := Some(Text(field)); }
    } else if cm.sourceType == "groupMapping" {
      var mapped := CollectGroups(c.groups, roles);
      if |mapped| > 0 { val := Some(List(mapped)); }
    } else if cm.sourceType == "static" {
      if cm.defaultValue != "" { val := Some(Text(cm.defaultValue)); }
    }
  }

  /** The OIDC claims of a client: nothing when the mappings cannot be loaded; group
      mappings yield nothing when the roles cannot. */
  method MappedClaims(loaded: Option<seq<ClaimMapping>>, loadedRoles: Option<seq<RoleMapping>>, c: SubjectClaims)
    returns (out: map<string, Value>)
    ensures forall t :: t in out <==> Releasable(t) && ReleasedClaim(loaded, loadedRoles, c, t).Some?
    ensures forall t :: t in out ==> Some(out[t]) == ReleasedClaim(loaded, loadedRoles, c, t)
    // Standard claims are never overridden.
    ensures forall t :: t in out ==>
              t != "" && t !in {"sub", "iss", "aud", "exp", "iat", "nbf", "nonce", "at_hash", "c_hash", "azp",
                                "auth_time", "amr", "acr", "email", "email_verified", "name", "given_name",
                                "family_name", "preferred_username"}
    // The last mapping to a target that yields a value decides it.
    ensures loaded.None? ==> out == map[]
    ensures loaded.Some? ==>
              var ms := loaded.value;
              var value := (cm: ClaimMapping) => OidcValue(cm, c, RolesOf(loadedRoles.GetOr([])));
              && (forall i :: 0 <= i < |ms| && LastYield(ms, value, i) && Releasable(ms[i].targetAttribute) ==>
                    ms[i].targetAttribute in out && Some(out[ms[i].targetAttribute]) == value(ms[i]))
              && (forall t :: t in out ==>
                    exists i :: 0 <= i < |ms| && ms[i].targetAttribute == t && LastYield(ms, value, i))
  {
    hide RESERVED, OidcValue;
    ReservedNames();
    out := map[];
    if loaded.None? { return; }
    var ms := loaded.value;
    var roles := BuildRoleMap(loadedRoles.GetOr([]));
    ghost var value := (cm: ClaimMapping) => OidcValue(cm, c, roles);
    for i := 0 to |ms|
      invariant forall t :: t in out <==> Releasable(t) && LastValue(ms[..i], value, t).Some?
      invariant forall t :: t in out ==> Some(out[t]) == LastValue(ms[..i], value, t)
    {
      assert ms[..i + 1][..i] == ms[..i];
      var cm := ms[i];
      if cm.targetAttribute == "" { continue; }
      if cm.targetAttribute in RESERVED { continue; }
      var val := MappedClaim(cm, c, roles);
      if val.Some? { out := out[cm.targetAttribute := val.value]; }
    }
    assert ms[..|ms|] == ms;
    LastYields(ms, value);
  }

  function ReleasedClaim(loaded: Option<seq<ClaimMapping>>, loadedRoles: Option<seq<RoleMapping>>, c: SubjectClaims,
                         t: string): Option<Value>
  {
    if loaded.None? then None
    else LastValue(loaded.value, (cm: ClaimMapping) => OidcValue(cm, c, RolesOf(loadedRoles.GetOr([]))), t)
  }

  datatype SamlAttribute = SamlAttribute(name: string, values: seq<string>)

  /** The attribute list: every mapping that yields something, in order. */
  function AttributesOf(ms: seq<ClaimMapping>, s: Session, roles: map<string, string>): seq<SamlAttribute> {
    if ms == [] then []
    else
      var last := ms[|ms| - 1];
      AttributesOf(ms[..|ms| - 1], s, roles)
      + (if SamlValue(last, s, roles).Some?
         then [SamlAttribute(last.targetAttribute, Values(SamlValue(last, s, roles)))] else [])
  }

  /** Each mapping that yields something becomes one attribute, in order, and no other does. */
  lemma {:induction false} AttributesInOrder(a: seq<ClaimMapping>, b: seq<ClaimMapping>, cm: ClaimMapping, s: Session,
                                             roles: map<string, string>)
    ensures AttributesOf(a + b, s, roles) == AttributesOf(a, s, roles) + AttributesOf(b, s, roles)
    ensures AttributesOf([cm], s, roles)
            == match SamlValue(cm, s, roles)
               case None => []
               case Some(Text(v)) => [SamlAttribute(cm.targetAttribute, [v])]
               case Some(List(vs)) => [SamlAttribute(cm.targetAttribute, vs)]
    decreases |b|
  {
    hide SamlValue;
    assert AttributesOf([cm][..0], s, roles) == [];
    if b == [] {
      assert a + b == a;
    } else {
      var last := |b| - 1;
      assert (a + b)[..|a + b| - 1] == a + b[..last] && (a + b)[|a + b| - 1] == b[last];
      AttributesInOrder(a, b[..last], cm, s, roles);
    }
  }

  /** The SAML attributes: none when either list cannot be loaded. */
  method MappedAttributes(loaded: Option<seq<ClaimMapping>>, loadedRoles: Option<seq<RoleMapping>>, s: Session)
    returns (attrs: seq<SamlAttribute>)
    ensures attrs == if loaded.None? || loadedRoles.None? then []
            else AttributesOf(loaded.value, s, RolesOf(loadedRoles.value))
  {
    attrs := [];
    if loaded.None? || loadedRoles.None? { return; }
    var ms := loaded.value;
    var roles := BuildRoleMap(loadedRoles.value);
    for i := 0 to |ms|
      invariant attrs == AttributesOf(ms[..i], s, roles)
    {
      hide ResolveSessionField;
      assert ms[..i + 1][..i] == ms[..i];
      var cm := ms[i];
      var values: seq<string> := [];
      if IsCognitoSource(cm.sourceType) {
        var val := ResolveSessionField(s, cm.sourceAttribute);
        if val == "" && cm.defaultValue != "" { val := cm.defaultValue; }
        if val != "" { values := [val]; }
      } else if cm.sourceType == "groupMapping" {
        values := CollectGroups(s.groups, roles);
      } else if cm.sourceType == "static" {
        if cm.defaultValue != "" { values := [cm.defaultValue]; }
      }
      assert values == Values(SamlValue(cm, s, roles)) && (values != [] <==> SamlValue(cm, s, roles).Some?);
      if |values| > 0 { attrs := attrs + [SamlAttribute(cm.targetAttribute, values)]; }
    }
    assert ms[..|ms|] == ms;
  }

  /** The preview: any target, reserved or not. */
  method BuildOIDCPreview(ms: seq<ClaimMapping>, roles: map<string, string>, data: map<string, string>,
                          groups: seq<string>)
    returns (claims: map<string, Value>)
    ensures var value := (cm: ClaimMapping) => PreviewValue(cm, data, groups, roles);
            forall t :: (t in claims <==> LastValue(ms, value, t).Some?)
              && (t in claims ==> Some(claims[t]) == LastValue(ms, value, t))
    ensures var value := (cm: ClaimMapping) => PreviewValue(cm, data, groups, roles);
            && (forall i :: 0 <= i < |ms| && LastYield(ms, value, i) ==>
                  ms[i].targetAttribute in claims && Some(claims[ms[i].targetAttribute]) == value(ms[i]))
            && (forall t :: t in claims ==>
                  exists i :: 0 <= i < |ms| && ms[i].targetAttribute == t && LastYield(ms, value, i))
  {
    claims := map[];
    ghost var value := (cm: ClaimMapping) => PreviewValue(cm, data, groups, roles);
    for i := 0 to |ms|
      invariant forall t :: t in claims <==> LastValue(ms[..i], value, t).Some?
      invariant forall t :: t in claims ==> Some(claims[t]) == LastValue(ms[..i], value, t)
    {
      assert ms[..i + 1][..i] == ms[..i];
      var cm := ms[i];
      var val: Option<Value> := None;
      if IsCognitoSource(cm.sourceType) {
        var field := Attribute(data, cm.sourceAttribute);
        if field == "" && cm.defaultValue != "" { field := cm.defaultValue; }
        if field != "" { val := Some(Text(field)); }
      } else if cm.sourceType == "groupMapping" {
        var mapped := CollectGroups(groups, roles);
        if |mapped| > 0 { val := Some(List(mapped)); }
      } else if cm.sourceType == "static" {
        if cm.defaultValue != "" { val := Some(Text(cm.defaultValue)); }
      }
      assert val == value(cm);
      if val.Some? { claims := claims[cm.targetAttribute := val.value]; }
    }
    assert ms[..|ms|] == ms;
    LastYields(ms, value);
  }

  // ---------- SAML and OIDC release the same ----------

  /** Sources the two protocols read differently. */
  predicate Divergent(source: string) {
    source == "name" || source == "common_name" || HasPrefix(source, CUSTOM_PREFIX)
  }

  lemma {:induction false} OtherSourcesAgree(c: SubjectClaims, source: string)
    requires !Divergent(source)
    ensures ResolveSubjectField(c, source) == ResolveSessionField(SessionFromClaims(c), source)
  {
  }

  /** For every divergent source some user's OIDC value is `wanted`, while SAML reads
      nothing. */
  lemma {:induction false} DivergentWitness(source: string, avoid: string) returns (c: SubjectClaims)
    requires Divergent(source)
    ensures ResolveSubjectField(c, source) != "" && ResolveSubjectField(c, source) != avoid
    ensures ResolveSessionField(SessionFromClaims(c), source) == ""
  {
    if source == "name" || source == "common_name" {
      c := NO_CLAIMS.(givenName := "A", familyName := if avoid == "A B" then "C" else "B");
      assert "A" + " " + "B" == "A B" && "A" + " " + "C" != "A B" by { assert ("A" + " " + "C")[2] == 'C'; }
    } else {
      var key := source[|CUSTOM_PREFIX|..];
      c := NO_CLAIMS.(custom := map[key := if avoid == "v" then "w" else "v"]);
      assert source[0] == 'c' && source[1] == 'u';
      assert |key| < |source|;
    }
  }

  ghost predicate SameForAll(cm: ClaimMapping) {
    forall c: SubjectClaims, roles: map<string, string> ::
      OidcValue(cm, c, roles) == SamlValue(cm, SessionFromClaims(c), roles)
  }

  /** A mapping releases the same over SAML and OIDC for every user and every role map if
      and only if it does not read a divergent source. */
  lemma {:induction false} MappingAgreesIff(cm: ClaimMapping)
    ensures SameForAll(cm) <==> !(IsCognitoSource(cm.sourceType) && Divergent(cm.sourceAttribute))
  {
    hide ResolveSubjectField, ResolveSessionField, Divergent, MappedGroups;
    if IsCognitoSource(cm.sourceType) && Divergent(cm.sourceAttribute) {
      var c := DivergentWitness(cm.sourceAttribute, cm.defaultValue);
      assert OidcValue(cm, c, map[]) != SamlValue(cm, SessionFromClaims(c), map[]);
    } else {
      forall c: SubjectClaims, roles: map<string, string>
        ensures OidcValue(cm, c, roles) == SamlValue(cm, SessionFromClaims(c), roles) {
        if !Divergent(cm.sourceAttribute) { OtherSourcesAgree(c, cm.sourceAttribute); }
      }
    }
  }

  /** The values of the last attribute called `name`. */
  function LastNamed(attrs: seq<SamlAttribute>, name: string): seq<string> {
    if attrs == [] then []
    else if attrs[|attrs| - 1].name == name then attrs[|attrs| - 1].values
    else LastNamed(attrs[..|attrs| - 1], name)
  }

  lemma {:induction false} LastNamedAppend(attrs: seq<SamlAttribute>, a: SamlAttribute, name: string)
    ensures LastNamed(attrs + [a], name) == if a.name == name then a.values else LastNamed(attrs, name)
  {
    assert (attrs + [a])[..|attrs|] == attrs;
  }

  /** The OIDC claims are the last-wins reading of the SAML attribute list built for the
      same user, target by target, for any list of mappings whose sources agree. */
  lemma {:induction false} OidcClaimsAreFoldOfSaml(ms: seq<ClaimMapping>, c: SubjectClaims, roles: map<string, string>,
                                                   target: string)
    requires forall i :: 0 <= i < |ms| ==> !(IsCognitoSource(ms[i].sourceType) && Divergent(ms[i].sourceAttribute))
    ensures Values(LastValue(ms, (cm: ClaimMapping) => OidcValue(cm, c, roles), target))
            == LastNamed(AttributesOf(ms, SessionFromClaims(c), roles), target)
    decreases |ms|
  {
    hide OidcValue, SamlValue, Divergent, IsCognitoSource;
    if ms == [] {
    } else {
      var last := ms[|ms| - 1];
      var rest := ms[..|ms| - 1];
      OidcClaimsAreFoldOfSaml(rest, c, roles, target);
      MappingAgreesIff(last);
      assert OidcValue(last, c, roles) == SamlValue(last, SessionFromClaims(c), roles);
      if SamlValue(last, SessionFromClaims(c), roles).Some? {
        LastNamedAppend(AttributesOf(rest, SessionFromClaims(c), roles),
                        SamlAttribute(last.targetAttribute, Values(SamlValue(last, SessionFromClaims(c), roles))),
                        target);
      } else {
        assert AttributesOf(ms, SessionFromClaims(c), roles) == AttributesOf(rest, SessionFromClaims(c), roles);
      }
    }
  }

  lemma {:induction false} LastValueSomeIff(ms: seq<ClaimMapping>, value: ClaimMapping -> Option<Value>, target: string)
    ensures LastValue(ms, value, target).Some?
            <==> exists i :: 0 <= i < |ms| && ms[i].targetAttribute == target && value(ms[i]).Some?
    decreases |ms|
  {
    if ms == [] {
    } else {
      LastValueSomeIff(ms[..|ms| - 1], value, target);
    }
  }

  /** When the role mappings cannot be loaded the two protocols part: SAML releases nothing,
      OIDC everything but group values. They agree exactly if no mapping to a releasable
      target yields anything without roles. */
  lemma {:induction false} RolesLostAgreeIff(ms: seq<ClaimMapping>, c: SubjectClaims)
    ensures (forall t :: Releasable(t) ==> ReleasedClaim(Some(ms), None, c, t).None?)
            <==> forall i :: 0 <= i < |ms| && Releasable(ms[i].targetAttribute) ==> OidcValue(ms[i], c, map[]).None?
  {
    hide OidcValue, Releasable;
    assert RolesOf([]) == map[];
    var value := (cm: ClaimMapping) => OidcValue(cm, c, RolesOf([]));
    forall t ensures ReleasedClaim(Some(ms), None, c, t).Some?
                     <==> exists i :: 0 <= i < |ms| && ms[i].targetAttribute == t && OidcValue(ms[i], c, map[]).Some?
    {
      LastValueSomeIff(ms, (cm: ClaimMapping) => OidcValue(cm, c, RolesOf(None.GetOr([]))), t);
    }
  }

  /** Without roles a group mapping yields nothing and every other mapping what it always
      yields. */
  lemma {:induction false} RolesLostValue(cm: ClaimMapping, c: SubjectClaims, roles: map<string, string>)
    ensures OidcValue(cm, c, map[])
            == if !IsCognitoSource(cm.sourceType) && cm.sourceType == "groupMapping" then None
               else OidcValue(cm, c, roles)
  {
    NoRolesNoGroups(c.groups);
  }

  lemma {:induction false} NoRolesNoGroups(groups: seq<string>)
    ensures MappedGroups(groups, map[]) == []
    decreases |groups|
  {
    if groups == [] {
    } else {
      NoRolesNoGroups(groups[..|groups| - 1]);
    }
  }

  // ---------- The preview ----------

  /** The test user of the preview knows a subject, an address and groups. */
  function TestClaims(sub: string, email: string, groups: seq<string>): SubjectClaims {
    NO_CLAIMS.(sub := sub, email := email, groups := groups)
  }

  function TestData(sub: string, email: string): map<string, string> {
    map["sub" := sub, "email" := email]
  }

  ghost predicate PreviewSameForAll(cm: ClaimMapping) {
    forall sub, email, groups, roles ::
      PreviewValue(cm, TestData(sub, email), groups, roles) == OidcValue(cm, TestClaims(sub, email, groups), roles)
  }

  lemma {:induction false} TestFieldsAgree(sub: string, email: string, groups: seq<string>, source: string)
    requires source != "username"
    ensures Attribute(TestData(sub, email), source) == ResolveSubjectField(TestClaims(sub, email, groups), source)
  {
  }

  /** The preview of a mapping is what the token would carry, for every test user, if and
      only if the mapping does not read `username`, which the preview does not know. */
  lemma {:induction false} PreviewAgreesIff(cm: ClaimMapping)
    ensures PreviewSameForAll(cm) <==> !(IsCognitoSource(cm.sourceType) && cm.sourceAttribute == "username")
  {
    hide MappedGroups;
    if IsCognitoSource(cm.sourceType) && cm.sourceAttribute == "username" {
      var sub := if cm.defaultValue == "v" then "w" else "v";
      assert PreviewValue(cm, TestData(sub, ""), [], map[]) != OidcValue(cm, TestClaims(sub, "", []), map[]);
    } else {
      hide ResolveSubjectField, Attribute;
      forall sub: string, email: string, groups: seq<string>, roles: map<string, string>
        ensures PreviewValue(cm, TestData(sub, email), groups, roles)
                == OidcValue(cm, TestClaims(sub, email, groups), roles)
      {
        if cm.sourceAttribute != "username" { TestFieldsAgree(sub, email, groups, cm.sourceAttribute); }
      }
    }
  }

  /** Over a whole list, the preview shows every releasable claim as the token carries it;
      it differs only in also showing reserved and empty targets, which tokens never do. */
  lemma {:induction false} PreviewIsTokenForReleasable(ms: seq<ClaimMapping>, sub: string, email: string,
                                                       groups: seq<string>, roles: map<string, string>, target: string)
    requires forall i :: 0 <= i < |ms| ==> !(IsCognitoSource(ms[i].sourceType) && ms[i].sourceAttribute == "username")
    ensures LastValue(ms, (cm: ClaimMapping) => PreviewValue(cm, TestData(sub, email), groups, roles), target)
            == LastValue(ms, (cm: ClaimMapping) => OidcValue(cm, TestClaims(sub, email, groups), roles), target)
    decreases |ms|
  {
    hide PreviewValue, OidcValue, IsCognitoSource;
    if ms == [] {
    } else {
      PreviewIsTokenForReleasable(ms[..|ms| - 1], sub, email, groups, roles, target);
      PreviewAgreesIff(ms[|ms| - 1]);
      assert PreviewValue(ms[|ms| - 1], TestData(sub, email), groups, roles)
             == OidcValue(ms[|ms| - 1], TestClaims(sub, email, groups), roles);
    }
  }
}
