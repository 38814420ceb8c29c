/** The in-memory table of internal/store/memorydb.go, which keeps rows in one flat map
    under "PK#SK", against a table keyed by the pair. */
module MemoryDB {
  import opened Wrappers
  import opened Strings
  import Table

  /** A row carries its own keys and an opaque payload. */
  datatype Row = Row(pk: string, sk: string, payload: string)

  type FlatRows = map<string, Row>

  type PairRows = map<(string, string), string>

  datatype Op =
    | Put(row: Row)
    | PutIfNotExists(newRow: Row)
    | Get(pk: string, sk: string)
    | Delete(delPK: string, delSK: string)
    | Query(queryPK: string, prefix: string)

  datatype Answer = Done | MissingPK | ConditionFailed | NotFound | Found(row: Row) | Rows(rows: set<Row>)

  function Flat(pk: string, sk: string): string { pk + "#" + sk }

  // ---------- The flat table ----------

  predicate Matches(rows: FlatRows, key: string, pk: string, prefix: string) {
    key in rows && HasPrefix(key, pk + "#") && HasPrefix(rows[key].sk, prefix)
  }

  function FlatMatches(rows: FlatRows, pk: string, prefix: string): set<string> {
    set k | k in rows && Matches(rows, k, pk, prefix)
  }

  function FlatStep(rows: FlatRows, op: Op): (FlatRows, Answer) {
    match op
    case Put(r) => if r.pk == "" then (rows, MissingPK) else (rows[Flat(r.pk, r.sk) := r], Done)
    case PutIfNotExists(r) =>
      if r.pk == "" then (rows, MissingPK)
      else if Flat(r.pk, r.sk) in rows then (rows, ConditionFailed)
      else (rows[Flat(r.pk, r.sk) := r], Done)
    case Get(pk, sk) => (rows, if Flat(pk, sk) in rows then Found(rows[Flat(pk, sk)]) else NotFound)
    case Delete(pk, sk) => (rows - {Flat(pk, sk)}, Done)
    case Query(pk, prefix) => (rows, Rows(set k | k in FlatMatches(rows, pk, prefix) :: rows[k]))
  }

  // ---------- The table it stands for ----------

  function PairStep(rows: PairRows, op: Op): (PairRows, Answer) {
    match op
    case Put(r) => if r.pk == "" then (rows, MissingPK) else (rows[(r.pk, r.sk) := r.payload], Done)
    case PutIfNotExists(r) =>
      if r.pk == "" then (rows, MissingPK)
      else if (r.pk, r.sk) in rows then (rows, ConditionFailed)
      else (rows[(r.pk, r.sk) := r.payload], Done)
    case Get(pk, sk) => (rows, if (pk, sk) in rows then Found(Row(pk, sk, rows[(pk, sk)])) else NotFound)
    case Delete(pk, sk) => (rows - {(pk, sk)}, Done)
    case Query(pk, prefix) =>
      (rows, Rows(set k | k in rows && k.0 == pk && HasPrefix(k.1, prefix) :: Row(k.0, k.1, rows[k])))
  }

  /** "TENANT#" and a slug without '#'. */
  predicate TenantKey(pk: string) {
    HasPrefix(pk, "TENANT#") && '#' !in pk[7..]
  }

  predicate OnTenants(op: Op) {
    match op
    case Put(r) => TenantKey(r.pk)
    case PutIfNotExists(r) => TenantKey(r.pk)
    case Get(pk, _) => TenantKey(pk)
    case Delete(pk, _) => TenantKey(pk)
    case Query(pk, _) => TenantKey(pk)
  }

  /** Flat keys of tenants agree only when both halves do; and a tenant's rows are exactly
      those whose flat key starts with its partition key and '#'. */
  lemma {:induction false} FlatInjective(pk: string, sk: string, pk': string, sk': string)
    requires TenantKey(pk) && TenantKey(pk')
    ensures Flat(pk, sk) == Flat(pk', sk') ==> pk == pk' && sk == sk'
    ensures HasPrefix(Flat(pk, sk), pk' + "#") <==> pk == pk'
  {
    var (slug, slug') := (pk[7..], pk'[7..]);
    assert pk == "TENANT#" + slug && pk' == "TENANT#" + slug';
    if Flat(pk, sk) == Flat(pk', sk') {
      assert Flat(pk, sk)[7..] == slug + ['#'] + sk && Flat(pk', sk')[7..] == slug' + ['#'] + sk';
      HeadsUnique(slug, sk, slug', sk', '#');
    }
    if HasPrefix(Flat(pk, sk), pk' + "#") {
      var rest := Flat(pk, sk)[|pk'| + 1..];
      assert Flat(pk, sk) == pk' + "#" + rest;
      assert Flat(pk, sk)[7..] == slug + ['#'] + sk && (pk' + "#" + rest)[7..] == slug' + ['#'] + rest;
      HeadsUnique(slug, sk, slug', rest, '#');
    }
  }

  /** The flat map holds, under each flat key, the row of the pair it was made from. */
  ghost predicate Represents(flat: FlatRows, rows: PairRows) {
    && (forall k :: k in flat ==> var r := flat[k];
        k == Flat(r.pk, r.sk) && TenantKey(r.pk) && (r.pk, r.sk) in rows && rows[(r.pk, r.sk)] == r.payload)
    && (forall k :: k in rows ==> TenantKey(k.0) && Flat(k.0, k.1) in flat)
  }

  lemma {:induction false} RowAt(flat: FlatRows, rows: PairRows, pk: string, sk: string)
    requires Represents(flat, rows) && TenantKey(pk)
    ensures Flat(pk, sk) in flat <==> (pk, sk) in rows
    ensures (pk, sk) in rows ==> flat[Flat(pk, sk)] == Row(pk, sk, rows[(pk, sk)])
  {
    if Flat(pk, sk) in flat {
      var r := flat[Flat(pk, sk)];
      FlatInjective(pk, sk, r.pk, r.sk);
    }
    if (pk, sk) in rows {
      assert Flat((pk, sk).0, (pk, sk).1) in flat;
    }
  }

  lemma {:induction false} WriteSimulates(flat: FlatRows, rows: PairRows, r: Row)
    requires Represents(flat, rows) && TenantKey(r.pk)
    ensures Represents(flat[Flat(r.pk, r.sk) := r], rows[(r.pk, r.sk) := r.payload])
  {
    hide Flat, TenantKey;
    var flat' := flat[Flat(r.pk, r.sk) := r];
    var rows' := rows[(r.pk, r.sk) := r.payload];
    forall k | k in flat' && k != Flat(r.pk, r.sk) ensures var s := flat'[k]; (s.pk, s.sk) != (r.pk, r.sk) {}
  }

  lemma {:induction false} DeleteSimulates(flat: FlatRows, rows: PairRows, pk: string, sk: string)
    requires Represents(flat, rows) && TenantKey(pk)
    ensures Represents(flat - {Flat(pk, sk)}, rows - {(pk, sk)})
  {
    hide Flat, TenantKey;
    forall k | k in rows && k != (pk, sk) ensures Flat(k.0, k.1) != Flat(pk, sk) { FlatInjective(k.0, k.1, pk, sk); }
  }

  lemma {:induction false} QuerySimulates(flat: FlatRows, rows: PairRows, pk: string, prefix: string)
    requires Represents(flat, rows) && TenantKey(pk)
    ensures (set k | k in FlatMatches(flat, pk, prefix) :: flat[k])
            == (set k | k in rows && k.0 == pk && HasPrefix(k.1, prefix) :: Row(k.0, k.1, rows[k]))
  {
    hide Flat, TenantKey, HasPrefix;
    forall k | k in flat ensures HasPrefix(k, pk + "#") <==> flat[k].pk == pk {
      FlatInjective(flat[k].pk, flat[k].sk, pk, "");
    }
    forall k | k in rows && k.0 == pk && HasPrefix(k.1, prefix)
      ensures Flat(k.0, k.1) in FlatMatches(flat, pk, prefix) && flat[Flat(k.0, k.1)] == Row(k.0, k.1, rows[k])
    {
      RowAt(flat, rows, k.0, k.1);
      assert k == (k.0, k.1);
    }
    forall k | k in FlatMatches(flat, pk, prefix)
      ensures var r := flat[k];
              (r.pk, r.sk) in rows && r.pk == pk && HasPrefix(r.sk, prefix) && r == Row(r.pk, r.sk, rows[(r.pk, r.sk)])
    {
    }
    var left := set k | k in FlatMatches(flat, pk, prefix) :: flat[k];
    var right := set k | k in rows && k.0 == pk && HasPrefix(k.1, prefix) :: Row(k.0, k.1, rows[k]);
    forall r | r in left ensures r in right {
      var k :| k in FlatMatches(flat, pk, prefix) && flat[k] == r;
      assert (r.pk, r.sk) in rows;
    }
    forall r | r in right ensures r in left {
      var k :| k in rows && k.0 == pk && HasPrefix(k.1, prefix) && r == Row(k.0, k.1, rows[k]);
      assert Flat(k.0, k.1) in FlatMatches(flat, pk, prefix);
    }
  }

  lemma {:induction false} StepSimulates(flat: FlatRows, rows: PairRows, op: Op)
    requires Represents(flat, rows) && OnTenants(op)
    ensures FlatStep(flat, op).1 == PairStep(rows, op).1
    ensures Represents(FlatStep(flat, op).0, PairStep(rows, op).0)
  {
    hide Represents, Flat, TenantKey, FlatMatches;
    match op
    case Put(r) => WriteSimulates(flat, rows, r);
    case PutIfNotExists(r) => WriteSimulates(flat, rows, r); RowAt(flat, rows, r.pk, r.sk);
    case Get(pk, sk) => RowAt(flat, rows, pk, sk);
    case Delete(pk, sk) => DeleteSimulates(flat, rows, pk, sk);
    case Query(pk, prefix) => QuerySimulates(flat, rows, pk, prefix);
  }

  // ---------- The store ----------

  /** Whatever pair-keyed table the flat rows stood for before, they stand for that table after
      the operation now, and the answer is that table's. */
  ghost predicate ActsAsTable(before: FlatRows, after: FlatRows, op: Op, a: Answer) {
    forall rows: PairRows :: Represents(before, rows) && OnTenants(op)
      ==> Represents(after, PairStep(rows, op).0) && a == PairStep(rows, op).1
  }

  lemma {:induction false} FlatStepActsAsTable(flat: FlatRows, op: Op)
    ensures ActsAsTable(flat, FlatStep(flat, op).0, op, FlatStep(flat, op).1)
  {
    hide Represents, FlatStep, PairStep, OnTenants;
    forall rows: PairRows | Represents(flat, rows) && OnTenants(op)
      ensures Represents(FlatStep(flat, op).0, PairStep(rows, op).0) && FlatStep(flat, op).1 == PairStep(rows, op).1
    {
      StepSimulates(flat, rows, op);
    }
  }

  class MemoryDB {
    var data: FlatRows

    constructor ()
      ensures Represents(data, map[])
    {
      data := map[];
    }

    method Put(r: Row) returns (a: Answer)
      modifies this
      ensures a == if r.pk == "" then MissingPK else Done
      ensures data == if r.pk == "" then old(data) else old(data)[r.pk + "#" + r.sk := r]
      ensures (data, a) == FlatStep(old(data), Op.Put(r)) && ActsAsTable(old(data), data, Op.Put(r), a)
    {
      FlatStepActsAsTable(data, Op.Put(r));
      if r.pk == "" { return MissingPK; }
      var key := Flat(r.pk, r.sk);
      data := data[key := r];
      return Done;
    }

    method PutIfNotExists(r: Row) returns (a: Answer)
      modifies this
      ensures a == if r.pk == "" then MissingPK else if r.pk + "#" + r.sk in old(data) then ConditionFailed else Done
      ensures data == if a == Done then old(data)[r.pk + "#" + r.sk := r] else old(data)
      ensures (data, a) == FlatStep(old(data), Op.PutIfNotExists(r))
              && ActsAsTable(old(data), data, Op.PutIfNotExists(r), a)
    {
      FlatStepActsAsTable(data, Op.PutIfNotExists(r));
      if r.pk == "" { return MissingPK; }
      var key := Flat(r.pk, r.sk);
      if key in data { return ConditionFailed; }
      data := data[key := r];
      return Done;
    }

    method Get(pk: string, sk: string) returns (a: Answer)
      ensures a == if pk + "#" + sk in data then Found(data[pk + "#" + sk]) else NotFound
      ensures (data, a) == FlatStep(data, Op.Get(pk, sk)) && ActsAsTable(data, data, Op.Get(pk, sk), a)
    {
      FlatStepActsAsTable(data, Op.Get(pk, sk));
      var key := Flat(pk, sk);
      if key !in data { return NotFound; }
      return Found(data[key]);
    }

    method Delete(pk: string, sk: string)
      modifies this
      ensures data == old(data) - {pk + "#" + sk}
      ensures (data, Done) == FlatStep(old(data), Op.Delete(pk, sk))
              && ActsAsTable(old(data), data, Op.Delete(pk, sk), Done)
    {
      FlatStepActsAsTable(data, Op.Delete(pk, sk));
      data := data - {Flat(pk, sk)};
    }

    /** Ranges over the whole map, in any order, keeping the rows that match, each once;
        `from` names the key each result comes from. */
    method Query(pk: string, prefix: string) returns (results: seq<Row>, ghost from: seq<string>)
      ensures Table.Enumerates(from, FlatMatches(data, pk, prefix)) && |from| == |results|
      ensures forall i :: 0 <= i < |from| ==> from[i] in data && results[i] == data[from[i]]
      ensures forall k :: k in from <==> k in data && pk + "#" <= k && prefix <= data[k].sk
      ensures ActsAsTable(data, data, Op.Query(pk, prefix), Rows(set r | r in results))
    {
      hide ActsAsTable, FlatStep, FlatMatches;
      var keys := Table.Enumerate(data.Keys);
      results, from := [], [];
      for i := 0 to |keys|
        invariant |from| == |results|
        invariant forall k :: k in from <==> k in keys[..i] && Matches(data, k, pk, prefix)
        invariant forall j, k :: 0 <= j < k < |from| ==> from[j] != from[k]
        invariant forall j :: 0 <= j < |from| ==> from[j] in data && results[j] == data[from[j]]
      {
        assert keys[..i + 1] == keys[..i] + [keys[i]] && keys[i] !in keys[..i];
        if Matches(data, keys[i], pk, prefix) {
          results, from := results + [data[keys[i]]], from + [keys[i]];
        }
      }
      assert keys[..|keys|] == keys;
      MatchesListed(data, pk, prefix, keys, from);
      QueryActsAsTable(data, pk, prefix, from, results);
    }
  }

  lemma {:induction false} MatchesListed(data: FlatRows, pk: string, prefix: string, keys: seq<string>,
                                         from: seq<string>)
    requires forall k :: k in keys <==> k in data
    requires forall k :: k in from <==> k in keys && Matches(data, k, pk, prefix)
    ensures forall k :: k in from <==> k in FlatMatches(data, pk, prefix)
  {
  }

  lemma {:induction false} QueryActsAsTable(data: FlatRows, pk: string, prefix: string, from: seq<string>,
                                            results: seq<Row>)
    requires |from| == |results| && forall k :: k in from <==> k in FlatMatches(data, pk, prefix)
    requires forall i :: 0 <= i < |from| ==> from[i] in data && results[i] == data[from[i]]
    ensures ActsAsTable(data, data, Op.Query(pk, prefix), Rows(set r | r in results))
  {
    hide ActsAsTable, Matches;
    FlatStepActsAsTable(data, Op.Query(pk, prefix));
    SameRows(data, FlatMatches(data, pk, prefix), from, results);
  }

  lemma {:induction false} SameRows(data: FlatRows, keys: set<string>, from: seq<string>, results: seq<Row>)
    requires keys <= data.Keys && |from| == |results| && forall k :: k in from <==> k in keys
    requires forall i :: 0 <= i < |from| ==> from[i] in data && results[i] == data[from[i]]
    ensures (set r | r in results) == (set k | k in keys :: data[k])
  {
    forall r | r in results ensures exists k :: k in keys && data[k] == r {
      var i :| 0 <= i < |results| && results[i] == r;
      assert from[i] in keys;
    }
    forall k | k in keys ensures data[k] in results {
      var i :| 0 <= i < |from| && from[i] == k;
      assert results[i] in results;
    }
  }

  function FlatAnswers(rows: FlatRows, ops: seq<Op>): seq<Answer>
    decreases |ops|
  {
    if ops == [] then [] else [FlatStep(rows, ops[0]).1] + FlatAnswers(FlatStep(rows, ops[0]).0, ops[1..])
  }

  function PairAnswers(rows: PairRows, ops: seq<Op>): seq<Answer>
    decreases |ops|
  {
    if ops == [] then [] else [PairStep(rows, ops[0]).1] + PairAnswers(PairStep(rows, ops[0]).0, ops[1..])
  }

  /** Over every sequence of operations on tenant partitions, the flat map answers exactly
      as a table keyed by the pair would. */
  lemma {:induction false} FlatMapSimulatesTable(flat: FlatRows, rows: PairRows, ops: seq<Op>)
    requires Represents(flat, rows) && forall i :: 0 <= i < |ops| ==> OnTenants(ops[i])
    ensures FlatAnswers(flat, ops) == PairAnswers(rows, ops)
    decreases |ops|
  {
    hide Represents, FlatStep, PairStep, OnTenants;
    if ops == [] {
    } else {
      StepSimulates(flat, rows, ops[0]);
      FlatMapSimulatesTable(FlatStep(flat, ops[0]).0, PairStep(rows, ops[0]).0, ops[1..]);
    }
  }

  /** Rows of two partitions can stand in each other's way exactly when they are one partition
      or one key, with '#' after it, begins the other; so a slug with '#' breaks the
      correspondence, whichever the other partition. */
  lemma {:induction false} PartitionsCollideIff(pk: string, pk': string)
    requires pk != "" && pk' != ""
    ensures (exists r: Row, s: Row ::
               && r.pk == pk && s.pk == pk'
               && FlatStep(FlatStep(map[], Op.Put(r)).0, Op.PutIfNotExists(s)).1 == ConditionFailed)
            <==> pk == pk' || pk + "#" <= pk' || pk' + "#" <= pk
  {
    HeadsMeetIff(pk + "#", pk' + "#");
    HashedPrefix(pk, pk');
    HashedPrefix(pk', pk);
    forall r: Row, s: Row | r.pk == pk && s.pk == pk'
      ensures FlatStep(FlatStep(map[], Op.Put(r)).0, Op.PutIfNotExists(s)).1 == ConditionFailed
              <==> (pk + "#") + r.sk == (pk' + "#") + s.sk
    {
    }
    if x, y :| (pk + "#") + x == (pk' + "#") + y {
      var (r, s) := (Row(pk, x, ""), Row(pk', y, ""));
      assert r.pk == pk && s.pk == pk';
      assert FlatStep(FlatStep(map[], Op.Put(r)).0, Op.PutIfNotExists(s)).1 == ConditionFailed;
    }
  }

  /** Where partitions collide the flat map and the table disagree. */
  lemma {:induction false} CollisionsDisagree(r: Row, s: Row)
    requires r.pk != "" && s.pk != "" && r.pk != s.pk && Flat(r.pk, r.sk) == Flat(s.pk, s.sk)
    ensures FlatStep(FlatStep(map[], Op.Put(r)).0, Op.PutIfNotExists(s)).1 == ConditionFailed
    ensures PairStep(PairStep(map[], Op.Put(r)).0, Op.PutIfNotExists(s)).1 == Done
  {
  }
}
