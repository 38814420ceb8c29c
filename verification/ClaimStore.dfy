/** ClaimStore (internal/store/claim_store.go): replacing and reading the claim
    mappings of one application through prefix queries on the shared partition of its
    tenant. */
module ClaimStore {
  import opened Wrappers
  import opened Strings
  import opened Keys
  import opened Table
  import A = AppStore

  predicate IsClaimKey(k: Key, tenant: string, appID: string) {
    k.tenant == tenant && k.sk.ClaimSK? && k.sk.id == appID
  }

  function ClaimOf(rows: Rows, tenant: string, appID: string, name: string): Option<ClaimMapping> {
    var k := Key(tenant, ClaimSK(appID, name));
    if k in rows && rows[k].ClaimItem? then Some(rows[k].claim) else None
  }

  /** Every row outside the application's claim mappings is as before. */
  ghost predicate OthersUnchanged(before: Rows, after: Rows, tenant: string, appID: string) {
    forall k :: !IsClaimKey(k, tenant, appID) ==>
                  (k in after <==> k in before) && (k in before ==> after[k] == before[k])
  }

  /** The mappings by name, a later mapping replacing an earlier one. */
  function LastByName(mappings: seq<ClaimMapping>): map<string, ClaimMapping> {
    if mappings == [] then map[]
    else
      var last := mappings[|mappings| - 1];
      LastByName(mappings[..|mappings| - 1])[last.name := last]
  }

  /** The last mapping with a name is the one that stays ... */
  lemma {:induction false} LastMappingStays(mappings: seq<ClaimMapping>, i: nat)
    requires i < |mappings| && forall j :: i < j < |mappings| ==> mappings[j].name != mappings[i].name
    ensures mappings[i].name in LastByName(mappings) && LastByName(mappings)[mappings[i].name] == mappings[i]
    decreases |mappings|
  {
    var init := mappings[..|mappings| - 1];
    if i == |init| {
    } else {
      assert init[i] == mappings[i];
      LastMappingStays(init, i);
    }
  }

  /** ... and no other name is present. */
  lemma {:induction false} NamesComeFromMappings(mappings: seq<ClaimMapping>, name: string)
    requires forall i :: 0 <= i < |mappings| ==> mappings[i].name != name
    ensures name !in LastByName(mappings)
    decreases |mappings|
  {
    if mappings == [] {
    } else {
      NamesComeFromMappings(mappings[..|mappings| - 1], name);
    }
  }

  class ClaimStore {
    const db: Table

    constructor (db: Table)
      ensures this.db == db
    {
      this.db := db;
    }

    /** Deletes the application's mappings, best effort row by row. */
    method ClearClaimMappings(tenant: string, appID: string) returns (e: Option<StoreError>)
      requires '#' !in appID && A.IdsHashFree(db.rows)
      modifies db
      ensures OthersUnchanged(old(db.rows), db.rows, tenant, appID)
      ensures e.Some? <==> FaultAt(old(db.faults), 0)
      ensures e.Some? ==> db.rows == old(db.rows)
      ensures old(db.faults) == [] ==>
                e == None && db.faults == [] && forall k :: IsClaimKey(k, tenant, appID) ==> k !in db.rows
    {
      var existing := db.Query(tenant, ClaimPrefix(appID));
      if existing.Err? {
        return Some(existing.error);
      }
      ghost var keys := set k | k in db.rows && IsClaimKey(k, tenant, appID);
      assert forall k :: k in existing.value <==> k in keys by {
        forall k | k in db.rows
          ensures HasPrefix(Render(k.sk), ClaimPrefix(appID)) <==> k.sk.ClaimSK? && k.sk.id == appID {
          ClaimPrefixSelects(k.sk, appID);
        }
      }
      for i := 0 to |existing.value|
        invariant OthersUnchanged(old(db.rows), db.rows, tenant, appID)
        invariant old(db.faults) == [] ==> db.faults == []
        invariant old(db.faults) == [] ==> forall k ::
                      IsClaimKey(k, tenant, appID) ==> (k in db.rows <==> k in keys && k !in existing.value[..i])
      {
        var k := existing.value[i];
        assert k in existing.value;
        assert existing.value[..i + 1] == existing.value[..i] + [k];
        if HasPrefix(Render(k.sk), ClaimPrefix(appID)) {
          var _ := db.Delete(k);
        }
      }
      assert existing.value[..|existing.value|] == existing.value;
      return None;
    }

    /** Replaces the application's mappings. Whatever fails, no row outside them changes;
        without faults they end as the last-wins set of the argument. */
    method PutClaimMappings(tenant: string, appID: string, mappings: seq<ClaimMapping>) returns (e: Option<StoreError>)
      requires '#' !in appID && A.IdsHashFree(db.rows)
      modifies db
      ensures OthersUnchanged(old(db.rows), db.rows, tenant, appID)
      ensures e.None? ==> forall name :: name in LastByName(mappings)
                                         ==> ClaimOf(db.rows, tenant, appID, name) == Some(LastByName(mappings)[name])
      ensures FaultAt(old(db.faults), 0) ==> e.Some? && db.rows == old(db.rows)
      ensures old(db.faults) == [] ==>
                && e == None
                && forall name :: ClaimOf(db.rows, tenant, appID, name)
                                  == if name in LastByName(mappings) then Some(LastByName(mappings)[name]) else None
    {
      var failure := ClearClaimMappings(tenant, appID);
      if failure.Some? { return failure; }
      for i := 0 to |mappings|
        invariant forall name :: name in LastByName(mappings[..i])
                                 ==> ClaimOf(db.rows, tenant, appID, name) == Some(LastByName(mappings[..i])[name])
        invariant OthersUnchanged(old(db.rows), db.rows, tenant, appID)
        invariant old(db.faults) == [] ==> db.faults == []
        invariant old(db.faults) == [] ==>
                    forall name :: ClaimOf(db.rows, tenant, appID, name)
                                   == if name in LastByName(mappings[..i]) then Some(LastByName(mappings[..i])[name])
                                      else None
      {
        var m := mappings[i];
        assert mappings[..i + 1][..i] == mappings[..i];
        var failed := db.Put(Key(tenant, ClaimSK(appID, m.name)), ClaimItem(m));
        if failed.Some? {
          return failed;
        }
      }
      assert mappings[..|mappings|] == mappings;
      return None;
    }

    /** Each mapping of the application once; `names` says which row each came from. */
    method GetClaimMappings(tenant: string, appID: string)
      returns (r: Result<seq<ClaimMapping>, StoreError>, ghost names: seq<string>)
      requires '#' !in appID && A.IdsHashFree(db.rows)
      requires forall k :: k in db.rows && k.sk.ClaimSK? ==> db.rows[k].ClaimItem?
      modifies db`faults
      ensures r.Err? <==> NextFault(old(db.faults))
      ensures r.Ok? ==>
                && |names| == |r.value|
                && (forall i :: 0 <= i < |names| ==> ClaimOf(db.rows, tenant, appID, names[i]) == Some(r.value[i]))
                && (forall name :: ClaimOf(db.rows, tenant, appID, name).Some? ==> name in names)
                && (forall i, j :: 0 <= i < j < |names| ==> names[i] != names[j])
    {
      names := [];
      var items := db.Query(tenant, ClaimPrefix(appID));
      if items.Err? {
        return Err(items.error), [];
      }
      assert forall k :: k in items.value <==> k in db.rows && IsClaimKey(k, tenant, appID) by {
        forall k | k in db.rows
          ensures HasPrefix(Render(k.sk), ClaimPrefix(appID)) <==> k.sk.ClaimSK? && k.sk.id == appID {
          ClaimPrefixSelects(k.sk, appID);
        }
      }
      var mappings: seq<ClaimMapping> := [];
      for i := 0 to |items.value|
        invariant |mappings| == |names| == i
        invariant forall j :: 0 <= j < i ==>
                    && items.value[j] == Key(tenant, ClaimSK(appID, names[j]))
                    && ClaimOf(db.rows, tenant, appID, names[j]) == Some(mappings[j])
      {
        var k := items.value[i];
        assert k in items.value;
        mappings, names := mappings + [db.rows[k].claim], names + [k.sk.name];
      }
      forall name | ClaimOf(db.rows, tenant, appID, name).Some? ensures name in names {
        assert Key(tenant, ClaimSK(appID, name)) in items.value;
      }
      return Ok(mappings), names;
    }
  }
}
