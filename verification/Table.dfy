/** The DynamoDB table behind the application store: TableAPI of
    internal/store/store.go over structured keys (see module Keys). Every call may
    fail without effect; `faults` says, call by call, which ones do. */
module Table {
  import opened Wrappers
  import opened Strings
  import opened Keys

  datatype Application = Application(id: string, displayName: string, status: string)
  datatype SAMLConfig = SAMLConfig(entityID: string, acsURL: string)
  datatype OIDCConfig = OIDCConfig(clientSecret: string)
  datatype ClaimMapping = ClaimMapping(name: string, sourceType: string, sourceAttribute: string,
                                       targetAttribute: string, defaultValue: string)
  datatype RoleMapping = RoleMapping(cognitoGroup: string, mappedValue: string)

  /** An application row with its index attributes. */
  datatype AppRow = AppRow(app: Application, entityID: string, gsi1PK: string, gsi1SK: string)

  datatype Item =
    | AppItem(row: AppRow)
    | SamlItem(saml: SAMLConfig)
    | OidcItem(oidc: OIDCConfig)
    | MarkerItem(entityID: string, appID: string)
    | ClaimItem(claim: ClaimMapping)
    | RoleItem(role: RoleMapping)

  type Rows = map<Key, Item>

  datatype StoreError = NotFound | ConditionFailed | Unavailable

  /** Does the next call fail, and what is left of the schedule afterwards. */
  function NextFault(faults: seq<bool>): bool { faults != [] && faults[0] }

  function LaterFaults(faults: seq<bool>): seq<bool> { if faults == [] then [] else faults[1..] }

  /** The i-th entry of a fault schedule. */
  function FaultAt(faults: seq<bool>, i: nat): bool { i < |faults| && faults[i] }

  lemma {:induction false} LaterFaultAt(faults: seq<bool>, i: nat)
    ensures FaultAt(LaterFaults(faults), i) == FaultAt(faults, i + 1)
    ensures NextFault(faults) == FaultAt(faults, 0)
  {
  }

  predicate FaultFree(faults: seq<bool>) { forall i :: 0 <= i < |faults| ==> !faults[i] }

  class Table {
    var rows: Rows
    var faults: seq<bool>

    constructor ()
      ensures rows == map[] && faults == []
    {
      rows := map[];
      faults := [];
    }

    method Put(k: Key, item: Item) returns (e: Option<StoreError>)
      modifies this
      ensures faults == LaterFaults(old(faults))
      ensures e == if NextFault(old(faults)) then Some(Unavailable) else None
      ensures rows == if NextFault(old(faults)) then old(rows) else old(rows)[k := item]
    {
      var failed := NextFault(faults);
      faults := LaterFaults(faults);
      if failed { return Some(Unavailable); }
      rows := rows[k := item];
      return None;
    }

    method PutIfNotExists(k: Key, item: Item) returns (e: Option<StoreError>)
      modifies this
      ensures faults == LaterFaults(old(faults))
      ensures e == if NextFault(old(faults)) then Some(Unavailable)
                   else if k in old(rows) then Some(ConditionFailed) else None
      ensures rows == if NextFault(old(faults)) || k in old(rows) then old(rows) else old(rows)[k := item]
    {
      var failed := NextFault(faults);
      faults := LaterFaults(faults);
      if failed { return Some(Unavailable); }
      if k in rows { return Some(ConditionFailed); }
      rows := rows[k := item];
      return None;
    }

    method Get(k: Key) returns (r: Result<Item, StoreError>)
      modifies this`faults
      ensures faults == LaterFaults(old(faults))
      ensures r == if NextFault(old(faults)) then Err(Unavailable)
                   else if k in rows then Ok(rows[k]) else Err(NotFound)
    {
      var failed := NextFault(faults);
      faults := LaterFaults(faults);
      if failed { return Err(Unavailable); }
      if k !in rows { return Err(NotFound); }
      return Ok(rows[k]);
    }

    method Delete(k: Key) returns (e: Option<StoreError>)
      modifies this
      ensures faults == LaterFaults(old(faults))
      ensures e == if NextFault(old(faults)) then Some(Unavailable) else None
      ensures rows == if NextFault(old(faults)) then old(rows) else old(rows) - {k}
    {
      var failed := NextFault(faults);
      faults := LaterFaults(faults);
      if failed { return Some(Unavailable); }
      rows := rows - {k};
      return None;
    }

    /** All rows of a partition whose rendered sort key starts with `prefix`, in an
        order the table chooses. */
    method Query(tenant: string, prefix: string) returns (r: Result<seq<Key>, StoreError>)
      modifies this`faults
      ensures faults == LaterFaults(old(faults))
      ensures r.Err? <==> NextFault(old(faults))
      ensures r.Ok? ==> Enumerates(r.value, set k | k in rows && k.tenant == tenant && HasPrefix(Render(k.sk), prefix))
    {
      var failed := NextFault(faults);
      faults := LaterFaults(faults);
      if failed { return Err(Unavailable); }
      var found := Enumerate(set k | k in rows && k.tenant == tenant && HasPrefix(Render(k.sk), prefix));
      return Ok(found);
    }

    /** All application rows carrying the given index partition key. */
    method QueryGSI(gsi1PK: string) returns (r: Result<seq<Key>, StoreError>)
      modifies this`faults
      ensures faults == LaterFaults(old(faults))
      ensures r.Err? <==> NextFault(old(faults))
      ensures r.Ok? ==> Enumerates(r.value, set k | k in rows && rows[k].AppItem? && rows[k].row.gsi1PK == gsi1PK)
    {
      var failed := NextFault(faults);
      faults := LaterFaults(faults);
      if failed { return Err(Unavailable); }
      var found := Enumerate(set k | k in rows && rows[k].AppItem? && rows[k].row.gsi1PK == gsi1PK);
      return Ok(found);
    }
  }

  /** `s` lists the elements of `keys`, each exactly once. */
  ghost predicate Enumerates<T(!new)>(s: seq<T>, keys: set<T>) {
    && (forall k :: k in s <==> k in keys)
    && (forall i, j :: 0 <= i < j < |s| ==> s[i] != s[j])
  }

  method Enumerate<T(==, !new)>(keys: set<T>) returns (s: seq<T>)
    ensures Enumerates(s, keys)
  {
    s := [];
    var rest := keys;
    while rest != {}
      invariant rest <= keys
      invariant Enumerates(s, keys - rest)
      decreases rest
    {
      var k :| k in rest;
      s, rest := s + [k], rest - {k};
    }
  }
}
