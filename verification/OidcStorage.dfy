/** The OIDC storage itself (internal/oidc/storage.go): handlers that put, get, delete and
    query rows of the transient table under rendered keys, where any call may fail. Every
    handler is proved to take whatever typed tables the rows show to what the machine of
    module OidcTokens makes of them, with exactly the losses its failing calls bring; so the
    theorems of OidcRuns are about these handlers. */
module OidcStorage {
  import opened Wrappers
  import opened Strings
  import opened Clock
  import opened OidcTokens
  import Table

  // ---------- Rendered keys ----------

  function SessionIndexPK(tenant: string, subject: string, clientID: string): string {
    "OIDCSESSION#t:" + tenant + "#u:" + subject + "#c:" + clientID
  }

  /** The partition and sort key a row is stored under. */
  function Location(row: Row): (string, string) {
    match row
    case AuthReqRow(id) => ("AUTHREQ#" + id, "META")
    case CodeRow(code) => ("AUTHCODE#" + code, "META")
    case AccessRow(id) => ("TOKEN#" + id, "META")
    case RefreshRow(id) => ("REFRESHTOKEN#" + id, "META")
    case IndexEntry(k) => (SessionIndexPK(k.tenant, k.subject, k.clientID), "TOKEN#" + k.ref)
  }

  lemma {:induction false} TokenLocations(id: string)
    ensures Location(AccessRow(id)) == ("TOKEN#" + id, "META")
    ensures Location(RefreshRow(id)) == ("REFRESHTOKEN#" + id, "META")
  {
  }

  /** Tenant slug and subject hold no '#'. */
  predicate CleanSession(tenant: string, subject: string) { '#' !in tenant && '#' !in subject }

  predicate Clean(row: Row) { row.IndexEntry? ==> CleanSession(row.key.tenant, row.key.subject) }

  function SessionHead(tenant: string, subject: string): string {
    "OIDCSESSION#t:" + tenant + "#u:" + subject + "#c:"
  }

  lemma {:induction false} SessionPKParts(k: IndexKey)
    ensures SessionIndexPK(k.tenant, k.subject, k.clientID)
            == "OIDCSESSION#t:" + (k.tenant + ['#'] + ("u:" + k.subject + ['#'] + ("c:" + k.clientID)))
  {
  }

  lemma {:induction false} SamePrefix(p: string, a: string, b: string)
    requires p + a == p + b
    ensures a == b
  {
    assert (p + a)[|p|..] == a && (p + b)[|p|..] == b;
  }

  /** Two sessions share an index partition only if they are the same session, when tenant
      slugs and subjects hold no '#'. */
  lemma {:induction false} SessionPartitionsDistinct(k: IndexKey, k': IndexKey)
    requires CleanSession(k.tenant, k.subject) && CleanSession(k'.tenant, k'.subject)
    requires SessionIndexPK(k.tenant, k.subject, k.clientID) == SessionIndexPK(k'.tenant, k'.subject, k'.clientID)
    ensures OfSession(k, k'.tenant, k'.subject, k'.clientID)
  {
    hide SessionIndexPK;
    var (u, u', c, c') := ("u:" + k.subject, "u:" + k'.subject, "c:" + k.clientID, "c:" + k'.clientID);
    SessionPKParts(k);
    SessionPKParts(k');
    SamePrefix("OIDCSESSION#t:", k.tenant + ['#'] + (u + ['#'] + c), k'.tenant + ['#'] + (u' + ['#'] + c'));
    HeadsUnique(k.tenant, u + ['#'] + c, k'.tenant, u' + ['#'] + c', '#');
    HeadsUnique(u, c, u', c', '#');
    SamePrefix("u:", k.subject, k'.subject);
    SamePrefix("c:", k.clientID, k'.clientID);
  }

  /** Two users' sessions at some clients share a partition, so that a logout from one
      sweeps the other's tokens, exactly when one's rendered head begins the other's. */
  lemma {:induction false} SessionPartitionsMeetIff(tenant: string, subject: string, tenant': string, subject': string)
    ensures (exists c, c' :: SessionIndexPK(tenant, subject, c) == SessionIndexPK(tenant', subject', c'))
            <==> || SessionHead(tenant, subject) <= SessionHead(tenant', subject')
                 || SessionHead(tenant', subject') <= SessionHead(tenant, subject)
  {
    var (h, h') := (SessionHead(tenant, subject), SessionHead(tenant', subject'));
    forall c: string
      ensures SessionIndexPK(tenant, subject, c) == h + c && SessionIndexPK(tenant', subject', c) == h' + c {}
    HeadsMeetIff(h, h');
    if c, c' :| h + c == h' + c' {
      assert SessionIndexPK(tenant, subject, c) == SessionIndexPK(tenant', subject', c');
    }
  }

  function Tag(row: Row): string {
    match row
    case AuthReqRow(_) => "AUTHREQ"
    case CodeRow(_) => "AUTHCODE"
    case AccessRow(_) => "TOKEN"
    case RefreshRow(_) => "REFRESHTOKEN"
    case IndexEntry(_) => "OIDCSESSION"
  }

  function AfterTag(row: Row): string {
    match row
    case AuthReqRow(id) => id
    case CodeRow(code) => code
    case AccessRow(id) => id
    case RefreshRow(id) => id
    case IndexEntry(k) => "t:" + k.tenant + "#u:" + k.subject + "#c:" + k.clientID
  }

  lemma {:induction false} LocationIsTagged(row: Row)
    ensures Location(row).0 == Tag(row) + ['#'] + AfterTag(row) && '#' !in Tag(row)
  {
    hide SessionIndexPK;
    match row
    case AuthReqRow(id) => Tagged("AUTHREQ", "AUTHREQ#", id);
    case CodeRow(code) => Tagged("AUTHCODE", "AUTHCODE#", code);
    case AccessRow(id) => Tagged("TOKEN", "TOKEN#", id);
    case RefreshRow(id) => Tagged("REFRESHTOKEN", "REFRESHTOKEN#", id);
    case IndexEntry(k) => SessionPKTagged(k);
  }

  lemma {:induction false} Tagged(tag: string, hashed: string, rest: string)
    requires hashed == tag + ['#']
    ensures hashed + rest == tag + ['#'] + rest
  {
  }

  lemma {:induction false} SessionPKTagged(k: IndexKey)
    ensures SessionIndexPK(k.tenant, k.subject, k.clientID)
            == "OIDCSESSION" + ['#'] + ("t:" + k.tenant + "#u:" + k.subject + "#c:" + k.clientID)
  {
  }

  /** Rows of different kinds never share a location, and rows that do hold the same id. */
  lemma {:induction false} LocationsAgree(a: Row, b: Row)
    requires Location(a) == Location(b)
    ensures (!a.IndexEntry? && a == b)
            || (a.IndexEntry? && b.IndexEntry? && a.key.ref == b.key.ref
                && SessionIndexPK(a.key.tenant, a.key.subject, a.key.clientID)
                   == SessionIndexPK(b.key.tenant, b.key.subject, b.key.clientID))
  {
    LocationIsTagged(a);
    LocationIsTagged(b);
    HeadsUnique(Tag(a), AfterTag(a), Tag(b), AfterTag(b), '#');
    assert |Tag(a)| == |Tag(b)|;
    if a.IndexEntry? && b.IndexEntry? {
      assert ("TOKEN#" + a.key.ref)[6..] == a.key.ref && ("TOKEN#" + b.key.ref)[6..] == b.key.ref;
    }
  }

  lemma {:induction false} LocationsDistinct(a: Row, b: Row)
    requires Clean(a) && Clean(b) && Location(a) == Location(b)
    ensures a == b
  {
    hide Location, SessionIndexPK;
    LocationsAgree(a, b);
    if a.IndexEntry? { SessionPartitionsDistinct(a.key, b.key); }
  }

  // ---------- What the rows show ----------

  datatype Item =
    | RequestItem(req: AuthRequest)
    | CodeItem(mapping: CodeMapping)
    | AccessItem(access: AccessToken)
    | RefreshItem(refresh: RefreshToken)
    | EntryItem(entry: IndexRow, ref: string)

  type Items = map<(string, string), Item>

  predicate Fits(row: Row, item: Item) {
    match row
    case AuthReqRow(_) => item.RequestItem?
    case CodeRow(_) => item.CodeItem?
    case AccessRow(_) => item.AccessItem?
    case RefreshRow(_) => item.RefreshItem?
    case IndexEntry(k) => item.EntryItem? && item.ref == k.ref
  }

  /** A location holds only items of the kind that is stored there. */
  ghost predicate Typed(items: Items) {
    forall row :: Location(row) in items ==> Fits(row, items[Location(row)])
  }

  function Cell(db: Db, row: Row): Option<Item> {
    match row
    case AuthReqRow(id) => if id in db.authReqs then Some(RequestItem(db.authReqs[id])) else None
    case CodeRow(code) => if code in db.codes then Some(CodeItem(db.codes[code])) else None
    case AccessRow(id) => if id in db.access then Some(AccessItem(db.access[id])) else None
    case RefreshRow(id) => if id in db.refresh then Some(RefreshItem(db.refresh[id])) else None
    case IndexEntry(k) => if k in db.index then Some(EntryItem(db.index[k], k.ref)) else None
  }

  function WriteRow(db: Db, row: Row, item: Item): Db
    requires Fits(row, item)
  {
    match row
    case AuthReqRow(id) => db.(authReqs := db.authReqs[id := item.req])
    case CodeRow(code) => db.(codes := db.codes[code := item.mapping])
    case AccessRow(id) => db.(access := db.access[id := item.access])
    case RefreshRow(id) => db.(refresh := db.refresh[id := item.refresh])
    case IndexEntry(k) => db.(index := db.index[k := item.entry])
  }

  function Fetch(items: Items, at: (string, string)): Option<Item> {
    if at in items then Some(items[at]) else None
  }

  /** The items hold the typed tables, row by row, under the rendered keys. */
  ghost predicate Shows(items: Items, clients: map<string, ClientInfo>, db: Db) {
    db.clients == clients && forall row :: Clean(row) ==> Fetch(items, Location(row)) == Cell(db, row)
  }

  lemma {:induction false} PutKeepsTyped(items: Items, row: Row, item: Item)
    requires Typed(items) && Fits(row, item)
    ensures Typed(items[Location(row) := item])
  {
    hide Location;
    var items' := items[Location(row) := item];
    forall other | Location(other) in items' ensures Fits(other, items'[Location(other)]) {
      if Location(other) == Location(row) { LocationsAgree(other, row); }
    }
  }

  lemma {:induction false} TypedAt(items: Items, row: Row)
    requires Typed(items) && Location(row) in items
    ensures Fits(row, items[Location(row)])
  {
  }

  lemma {:induction false} DeleteKeepsTyped(items: Items, row: Row)
    requires Typed(items)
    ensures Typed(items - {Location(row)})
  {
  }

  lemma {:induction false} ClientsShown(items: Items, clients: map<string, ClientInfo>, db: Db)
    requires Shows(items, clients, db)
    ensures db.clients == clients
  {
  }

  lemma {:induction false} PutShows(items: Items, clients: map<string, ClientInfo>, db: Db, row: Row, item: Item)
    requires Shows(items, clients, db) && Clean(row) && Fits(row, item)
    ensures Shows(items[Location(row) := item], clients, WriteRow(db, row, item))
  {
    hide Location, Clean;
    var items' := items[Location(row) := item];
    forall other | Clean(other) ensures Fetch(items', Location(other)) == Cell(WriteRow(db, row, item), other) {
      assert Fetch(items, Location(other)) == Cell(db, other);
      if Location(other) == Location(row) { LocationsDistinct(other, row); }
    }
  }

  lemma {:induction false} DeleteShows(items: Items, clients: map<string, ClientInfo>, db: Db, row: Row)
    requires Shows(items, clients, db) && Clean(row)
    ensures Shows(items - {Location(row)}, clients, RemoveRow(db, row))
  {
    hide Location, Clean;
    var items' := items - {Location(row)};
    forall other | Clean(other) ensures Fetch(items', Location(other)) == Cell(RemoveRow(db, row), other) {
      assert Fetch(items, Location(other)) == Cell(db, other);
      if Location(other) == Location(row) { LocationsDistinct(other, row); }
    }
  }

  lemma {:induction false} GetShows(items: Items, clients: map<string, ClientInfo>, db: Db, row: Row)
    requires Shows(items, clients, db) && Clean(row)
    ensures Fetch(items, Location(row)) == Cell(db, row)
  {
  }

  // ---------- The table ----------

  /** The transient table. Call number i fails, without effect, when the schedule says so. */
  class TokenTable {
    var items: Items
    const faults: seq<bool>
    var calls: nat

    constructor (faults: seq<bool>)
      ensures items == map[] && calls == 0 && this.faults == faults
    {
      this.faults := faults;
      items := map[];
      calls := 0;
    }

    /** Does the i-th call from now fail. */
    predicate Fails(i: nat)
      reads this
    {
      Table.FaultAt(faults, calls + i)
    }

    method Put(at: (string, string), item: Item) returns (ok: bool)
      modifies this
      ensures calls == old(calls) + 1 && ok == !old(Fails(0))
      ensures items == if ok then old(items)[at := item] else old(items)
    {
      ok := !Fails(0);
      calls := calls + 1;
      if ok { items := items[at := item]; }
    }

    method Get(at: (string, string)) returns (r: Option<Item>)
      modifies this`calls
      ensures calls == old(calls) + 1
      ensures r == if old(Fails(0)) then None else Fetch(items, at)
    {
      var failed := Fails(0);
      calls := calls + 1;
      if failed || at !in items { return None; }
      return Some(items[at]);
    }

    method Delete(at: (string, string)) returns (ok: bool)
      modifies this
      ensures calls == old(calls) + 1 && ok == !old(Fails(0))
      ensures items == if ok then old(items) - {at} else old(items)
    {
      ok := !Fails(0);
      calls := calls + 1;
      if ok { items := items - {at}; }
    }

    /** The items of a partition whose sort key starts with `prefix`, each once, in an order
        the table chooses. */
    method Query(pk: string, prefix: string) returns (r: Option<seq<Item>>, ghost from: seq<string>)
      modifies this`calls
      ensures calls == old(calls) + 1
      ensures r.None? <==> old(Fails(0))
      ensures r.Some? ==> && Table.Enumerates(from, set k | k in items && k.0 == pk && HasPrefix(k.1, prefix) :: k.1)
                          && |r.value| == |from|
                          && forall i :: 0 <= i < |from| ==>
                               (pk, from[i]) in items && r.value[i] == items[(pk, from[i])]
    {
      var failed := Fails(0);
      calls := calls + 1;
      from := [];
      if failed { return None, from; }
      var sks := Table.Enumerate(set k | k in items && k.0 == pk && HasPrefix(k.1, prefix) :: k.1);
      var found := [];
      forall j | 0 <= j < |sks| ensures (pk, sks[j]) in items {
        assert sks[j] in sks;
        var k :| k in items && k.0 == pk && k.1 == sks[j];
        assert k == (pk, sks[j]);
      }
      for i := 0 to |sks|
        invariant |found| == i
        invariant forall j :: 0 <= j < |sks| ==> (pk, sks[j]) in items
        invariant forall j :: 0 <= j < i ==> found[j] == items[(pk, sks[j])]
      {
        found := found + [items[(pk, sks[i])]];
      }
      return Some(found), sks;
    }
  }

  // ---------- Which call is which ----------

  function LookupCalls(clientID: string): nat { if clientID == "" then 0 else 1 }

  function IndexCalls(subject: string, clientID: string, ref: string): nat {
    if subject == "" || clientID == "" || ref == "" then 0 else 1
  }

  /** The calls that store a token: the client, the token, its index row. */
  function AccessCalls(req: TokenRequest, tokenID: string): nat {
    LookupCalls(req.GetClientID()) + 1 + IndexCalls(req.GetSubject(), req.GetClientID(), tokenID)
  }

  function AccessLosses(faults: seq<bool>, from: nat, req: TokenRequest): Losses {
    var n := LookupCalls(req.GetClientID());
    NO_LOSSES.(accessClient := n == 1 && Table.FaultAt(faults, from),
               accessIndex := Table.FaultAt(faults, from + n + 1))
  }

  /** Those calls for a refresh token, then the presented token's delete and that of its index row. */
  function RefreshLosses(faults: seq<bool>, from: nat, req: TokenRequest, refreshID: string): Losses {
    var n := LookupCalls(req.GetClientID());
    var m := from + n + 1 + IndexCalls(req.GetSubject(), req.GetClientID(), refreshID);
    NO_LOSSES.(refreshClient := n == 1 && Table.FaultAt(faults, from), refreshPut := Table.FaultAt(faults, from + n),
               refreshIndex := Table.FaultAt(faults, from + n + 1), presented := Table.FaultAt(faults, m),
               presentedIndex := Table.FaultAt(faults, m + 1))
  }

  function PairLosses(faults: seq<bool>, from: nat, req: TokenRequest, accessID: string, refreshID: string): Losses {
    var l := AccessLosses(faults, from, req);
    RefreshLosses(faults, from + AccessCalls(req, accessID), req, refreshID)
      .(accessClient := l.accessClient, accessIndex := l.accessIndex)
  }

  /** Each half of the pair feels its own losses only. */
  lemma {:induction false} PairIs(db: Db, now: int, tenant: string, req: TokenRequest, current: string,
                                  accessID: string, refreshID: string, faults: seq<bool>, from: nat)
    ensures var l := RefreshLosses(faults, from + AccessCalls(req, accessID), req, refreshID);
            var withAccess := CreateAccessToken(db, now, tenant, req, accessID, AccessLosses(faults, from, req));
            && PairLosses(faults, from, req, accessID, refreshID).refreshPut == l.refreshPut
            && CreateAccessAndRefreshTokens(db, now, tenant, req, current, accessID, refreshID,
                                            PairLosses(faults, from, req, accessID, refreshID))
               == if l.refreshPut then withAccess
                  else CreateRefreshToken(withAccess, now, tenant, req, current, refreshID, l)
  {
    hide NewAccessToken, NewRefreshToken, IndexSessionToken, DeleteSessionTokenIndex;
  }

  // ---------- Sweeping a session's index rows ----------

  /** The rows of a session, and which of them a sweep in this order fails to delete. */
  ghost function SessionRows(db: Db, tenant: string, userID: string, clientID: string): set<IndexKey> {
    set k | k in db.index && OfSession(k, tenant, userID, clientID)
  }

  ghost function KeptTokens(order: seq<IndexKey>, faults: seq<bool>, from: nat): set<string> {
    set i | 0 <= i < |order| && Table.FaultAt(faults, from + 1 + 2 * i) :: order[i].ref
  }

  ghost function KeptRows(order: seq<IndexKey>, faults: seq<bool>, from: nat): set<string> {
    set i | 0 <= i < |order| && Table.FaultAt(faults, from + 2 + 2 * i) :: order[i].ref
  }

  ghost function RefsTo(order: seq<IndexKey>, n: nat, index: map<IndexKey, IndexRow>, kind: TokenKind,
                        faults: seq<bool>, from: nat): set<string>
    requires n <= |order|
  {
    set i | 0 <= i < n && !Table.FaultAt(faults, from + 1 + 2 * i) && order[i] in index
      && index[order[i]].kind == kind :: order[i].ref
  }

  ghost function KeysTo(order: seq<IndexKey>, n: nat, faults: seq<bool>, from: nat): set<IndexKey>
    requires n <= |order|
  {
    set i | 0 <= i < n && !Table.FaultAt(faults, from + 2 + 2 * i) :: order[i]
  }

  /** The tables after the first n rows have been swept. */
  ghost function SweptTo(db: Db, order: seq<IndexKey>, n: nat, faults: seq<bool>, from: nat): Db
    requires n <= |order|
  {
    db.(access := db.access - RefsTo(order, n, db.index, Access, faults, from),
        refresh := db.refresh - RefsTo(order, n, db.index, Refresh, faults, from),
        index := db.index - KeysTo(order, n, faults, from))
  }

  function SweepOne(db: Db, k: IndexKey, kind: TokenKind, keepToken: bool, keepRow: bool): Db {
    var swept := if keepToken then db else RemoveRow(db, if kind.Access? then AccessRow(k.ref) else RefreshRow(k.ref));
    if keepRow then swept else RemoveRow(swept, IndexEntry(k))
  }

  lemma {:induction false} RefsToNext(order: seq<IndexKey>, n: nat, index: map<IndexKey, IndexRow>, kind: TokenKind,
                                      faults: seq<bool>, from: nat)
    requires n < |order| && order[n] in index
    ensures RefsTo(order, n + 1, index, kind, faults, from)
            == RefsTo(order, n, index, kind, faults, from)
               + (if !Table.FaultAt(faults, from + 1 + 2 * n) && index[order[n]].kind == kind then {order[n].ref}
                  else {})
  {
  }

  lemma {:induction false} KeysToNext(order: seq<IndexKey>, n: nat, faults: seq<bool>, from: nat)
    requires n < |order|
    ensures KeysTo(order, n + 1, faults, from)
            == KeysTo(order, n, faults, from) + (if !Table.FaultAt(faults, from + 2 + 2 * n) then {order[n]} else {})
  {
  }

  lemma {:induction false} MinusOneMore<K, V>(m: map<K, V>, gone: set<K>, gone': set<K>, k: K, keep: bool)
    requires gone' == gone + (if !keep then {k} else {})
    ensures m - gone' == if keep then m - gone else m - gone - {k}
  {
  }

  lemma {:induction false} SweptToNext(db: Db, order: seq<IndexKey>, n: nat, faults: seq<bool>, from: nat)
    requires n < |order| && order[n] in db.index
    ensures SweptTo(db, order, n + 1, faults, from)
            == SweepOne(SweptTo(db, order, n, faults, from), order[n], db.index[order[n]].kind,
                        Table.FaultAt(faults, from + 1 + 2 * n), Table.FaultAt(faults, from + 2 + 2 * n))
  {
    hide RefsTo, KeysTo, Table.FaultAt;
    var (k, kind) := (order[n], db.index[order[n]].kind);
    var (keepToken, keepRow) := (Table.FaultAt(faults, from + 1 + 2 * n), Table.FaultAt(faults, from + 2 + 2 * n));
    RefsToNext(order, n, db.index, Access, faults, from);
    RefsToNext(order, n, db.index, Refresh, faults, from);
    KeysToNext(order, n, faults, from);
    MinusOneMore(db.access, RefsTo(order, n, db.index, Access, faults, from),
                 RefsTo(order, n + 1, db.index, Access, faults, from), k.ref, keepToken || kind.Refresh?);
    MinusOneMore(db.refresh, RefsTo(order, n, db.index, Refresh, faults, from),
                 RefsTo(order, n + 1, db.index, Refresh, faults, from), k.ref, keepToken || kind.Access?);
    MinusOneMore(db.index, KeysTo(order, n, faults, from), KeysTo(order, n + 1, faults, from), k, keepRow);
  }

  lemma {:induction false} NothingSwept(db: Db, order: seq<IndexKey>, faults: seq<bool>, from: nat)
    ensures SweptTo(db, order, 0, faults, from) == db
  {
  }

  /** A session's rows, swept one by one in any order, add up to the whole logout. */
  lemma {:induction false} SweptIsTerminated(db: Db, tenant: string, userID: string, clientID: string,
                                             order: seq<IndexKey>, faults: seq<bool>, from: nat)
    requires userID != "" && clientID != "" && Table.Enumerates(order, SessionRows(db, tenant, userID, clientID))
    ensures SweptTo(db, order, |order|, faults, from)
            == TerminateSession(db, tenant, userID, clientID, KeptTokens(order, faults, from),
                                KeptRows(order, faults, from))
  {
    var (kept, keptRows) := (KeptTokens(order, faults, from), KeptRows(order, faults, from));
    SweptRefsAre(db, tenant, userID, clientID, order, faults, from, Access);
    SweptRefsAre(db, tenant, userID, clientID, order, faults, from, Refresh);
    SweptKeysAre(db, tenant, userID, clientID, order, faults, from);
    assert (db.index - KeysTo(order, |order|, faults, from))
           == TerminateSession(db, tenant, userID, clientID, kept, keptRows).index;
  }

  lemma {:induction false} SweptRefsAre(db: Db, tenant: string, userID: string, clientID: string, order: seq<IndexKey>,
                                        faults: seq<bool>, from: nat, kind: TokenKind)
    requires Table.Enumerates(order, SessionRows(db, tenant, userID, clientID))
    ensures RefsTo(order, |order|, db.index, kind, faults, from)
            == SweptRefs(db, tenant, userID, clientID, kind) - KeptTokens(order, faults, from)
  {
    RefsAreDistinct(db, tenant, userID, clientID, order);
    var (refs, swept) :=
      (RefsTo(order, |order|, db.index, kind, faults, from), SweptRefs(db, tenant, userID, clientID, kind));
    forall r | r in swept - KeptTokens(order, faults, from) ensures r in refs {
      var k :| k in db.index && OfSession(k, tenant, userID, clientID) && db.index[k].kind == kind && k.ref == r;
      assert k in order;
    }
    forall r | r in refs ensures r in swept && r !in KeptTokens(order, faults, from) {
      var i :| 0 <= i < |order| && !Table.FaultAt(faults, from + 1 + 2 * i) && order[i] in db.index
        && db.index[order[i]].kind == kind
               && order[i].ref == r;
      assert order[i] in SessionRows(db, tenant, userID, clientID);
    }
  }

  lemma {:induction false} SweptKeysAre(db: Db, tenant: string, userID: string, clientID: string, order: seq<IndexKey>,
                                        faults: seq<bool>, from: nat)
    requires Table.Enumerates(order, SessionRows(db, tenant, userID, clientID))
    ensures forall k :: k in db.index ==> (k in KeysTo(order, |order|, faults, from)
                                           <==> && OfSession(k, tenant, userID, clientID)
                                                && k.ref !in KeptRows(order, faults, from))
  {
    RefsAreDistinct(db, tenant, userID, clientID, order);
    forall k | k in KeysTo(order, |order|, faults, from) ensures OfSession(k, tenant, userID, clientID) {
      assert k in order;
    }
    forall k | k in db.index && OfSession(k, tenant, userID, clientID) && k.ref !in KeptRows(order, faults, from)
      ensures k in KeysTo(order, |order|, faults, from)
    {
      assert k in order;
    }
  }

  lemma {:induction false} RefsAreDistinct(db: Db, tenant: string, userID: string, clientID: string,
                                           order: seq<IndexKey>)
    requires Table.Enumerates(order, SessionRows(db, tenant, userID, clientID))
    ensures forall i, j :: 0 <= i < |order| && 0 <= j < |order| && order[i].ref == order[j].ref ==> i == j
  {
    forall i, j | 0 <= i < |order| && 0 <= j < |order| && order[i].ref == order[j].ref ensures i == j {
      assert order[i] in order && order[j] in order;
    }
  }

  /** The two records a revocation may find. */
  lemma {:induction false} RecordsShown(items: Items, clients: map<string, ClientInfo>, db: Db, token: string)
    requires Shows(items, clients, db)
    ensures var (a, r) := (Location(AccessRow(token)), Location(RefreshRow(token)));
            && (if a in items then token in db.access && items[a] == AccessItem(db.access[token])
                else token !in db.access)
            && (if r in items then token in db.refresh && items[r] == RefreshItem(db.refresh[token])
                else token !in db.refresh)
            && Shows(items - {a}, clients, db.(access := db.access - {token}))
            && Shows(items - {r}, clients, db.(refresh := db.refresh - {token}))
  {
    hide Shows, Location;
    GetShows(items, clients, db, AccessRow(token));
    GetShows(items, clients, db, RefreshRow(token));
    DeleteShows(items, clients, db, AccessRow(token));
    DeleteShows(items, clients, db, RefreshRow(token));
  }

  /** The sort keys an index query lists, as rows of the session. */
  ghost predicate Listed(items: Items, tenant: string, userID: string, clientID: string, sks: seq<string>) {
    var pk := SessionIndexPK(tenant, userID, clientID);
    Table.Enumerates(sks, set k | k in items && k.0 == pk && HasPrefix(k.1, "TOKEN#") :: k.1)
  }

  ghost function ListedRows(items: Items, tenant: string, userID: string, clientID: string,
                            sks: seq<string>): (order: seq<IndexKey>)
    requires Listed(items, tenant, userID, clientID, sks)
    ensures |order| == |sks|
  {
    seq(|sks|,
        i requires 0 <= i < |sks| => IndexKey(tenant, userID, clientID, if |sks[i]| < 6 then "" else sks[i][6..]))
  }

  lemma {:induction false} ListedAre(items: Items, tenant: string, userID: string, clientID: string, sks: seq<string>)
    requires Listed(items, tenant, userID, clientID, sks)
    ensures var order := ListedRows(items, tenant, userID, clientID, sks);
            forall i :: 0 <= i < |sks| ==> && OfSession(order[i], tenant, userID, clientID)
                                           && Location(IndexEntry(order[i]))
                                              == (SessionIndexPK(tenant, userID, clientID), sks[i])
  {
    forall i | 0 <= i < |sks| ensures |sks[i]| >= 6 && "TOKEN#" + sks[i][6..] == sks[i] {
      assert sks[i] in sks;
    }
  }

  /** The query lists exactly the session's index rows. */
  lemma {:induction false} ListedAreSessionRows(items: Items, clients: map<string, ClientInfo>, db: Db, tenant: string,
                                                userID: string, clientID: string, sks: seq<string>)
    requires Listed(items, tenant, userID, clientID, sks) && Shows(items, clients, db) && CleanSession(tenant, userID)
    ensures Table.Enumerates(ListedRows(items, tenant, userID, clientID, sks),
                             SessionRows(db, tenant, userID, clientID))
  {
    hide SessionIndexPK;
    var (pk, order) := (SessionIndexPK(tenant, userID, clientID), ListedRows(items, tenant, userID, clientID, sks));
    ListedAre(items, tenant, userID, clientID, sks);
    forall i | 0 <= i < |sks| ensures order[i] in db.index {
      assert sks[i] in sks;
      GetShows(items, clients, db, IndexEntry(order[i]));
    }
    forall k | k in db.index && OfSession(k, tenant, userID, clientID) ensures k in order {
      GetShows(items, clients, db, IndexEntry(k));
      assert (pk, "TOKEN#" + k.ref) in items;
      assert "TOKEN#" + k.ref in sks;
      var i :| 0 <= i < |sks| && sks[i] == "TOKEN#" + k.ref;
      assert sks[i][6..] == k.ref;
      assert order[i] == k;
    }
    forall i, j | 0 <= i < j < |order| ensures order[i] != order[j] {
      assert Location(IndexEntry(order[i])).1 == sks[i] && Location(IndexEntry(order[j])).1 == sks[j];
    }
  }

  /** Each listed item is what the tables hold for its row. */
  lemma {:induction false} ListedRowShown(items: Items, clients: map<string, ClientInfo>, db: Db, tenant: string,
                                          userID: string, clientID: string, sks: seq<string>, i: nat)
    requires Listed(items, tenant, userID, clientID, sks) && Shows(items, clients, db) && CleanSession(tenant, userID)
             && i < |sks|
    ensures var (k, at) :=
            (ListedRows(items, tenant, userID, clientID, sks)[i], (SessionIndexPK(tenant, userID, clientID), sks[i]));
            at in items ==> k in db.index && items[at] == EntryItem(db.index[k], k.ref)
  {
    hide SessionIndexPK;
    ListedAre(items, tenant, userID, clientID, sks);
    GetShows(items, clients, db, IndexEntry(ListedRows(items, tenant, userID, clientID, sks)[i]));
  }

  lemma {:induction false} SweepOneShows(items: Items, clients: map<string, ClientInfo>, db: Db, k: IndexKey,
                                         kind: TokenKind, keepToken: bool, keepRow: bool)
    requires Shows(items, clients, db) && CleanSession(k.tenant, k.subject)
    ensures var token := Location(if kind.Access? then AccessRow(k.ref) else RefreshRow(k.ref));
            var swept := if keepToken then items else items - {token};
            Shows(if keepRow then swept else swept - {Location(IndexEntry(k))}, clients,
                  SweepOne(db, k, kind, keepToken, keepRow))
  {
    hide Shows, Location;
    var row := if kind.Access? then AccessRow(k.ref) else RefreshRow(k.ref);
    DeleteShows(items, clients, db, row);
    DeleteShows(items, clients, db, IndexEntry(k));
    DeleteShows(items - {Location(row)}, clients, RemoveRow(db, row), IndexEntry(k));
  }

  // ---------- The handlers ----------

  class Storage {
    const table: TokenTable
    /** The applications, as the application store answers for them. */
    var clients: map<string, ClientInfo>

    ghost predicate Valid()
      reads this, table
    {
      Typed(table.items)
    }

    constructor (faults: seq<bool>, clients: map<string, ClientInfo>)
      ensures fresh(table) && table.faults == faults && table.calls == 0 && this.clients == clients
      ensures Valid() && Shows(table.items, clients, Initial(0).db.(clients := clients))
    {
      this.table := new TokenTable(faults);
      this.clients := clients;
    }

    /** The application store's lookup; None also when it fails. */
    method GetByClientID(clientID: string) returns (r: Option<ClientInfo>)
      modifies table`calls
      ensures table.calls == old(table.calls) + 1
      ensures r == if old(table.Fails(0)) || clientID !in clients then None else Some(clients[clientID])
    {
      var failed := table.Fails(0);
      table.calls := table.calls + 1;
      if failed || clientID !in clients { return None; }
      return Some(clients[clientID]);
    }

    method CreateAuthRequest(now: int, id: string, clientID: string, scopes: seq<string>, tenant: string)
      returns (ok: bool)
      requires Valid()
      modifies table
      ensures Valid() && ok == !old(table.Fails(0)) && (!ok ==> table.items == old(table.items))
      ensures ok ==>
                table.items == old(table.items)[("AUTHREQ#" + id, "META") :=
                  RequestItem(AuthRequest(clientID, scopes, tenant, false, 0, "", "", "", "", false, [], map[], "",
                                          Unix(now) + 600))]
      ensures ok ==> forall db :: Shows(old(table.items), clients, db)
                                  ==> Shows(table.items, clients,
                                            OidcTokens.CreateAuthRequest(db, now, id, clientID, scopes, tenant))
    {
      hide Typed, Shows;
      var item :=
        RequestItem(AuthRequest(clientID, scopes, tenant, false, 0, "", "", "", "", false, [], map[], "",
                                Unix(now + 10 * MINUTE)));
      PutKeepsTyped(table.items, AuthReqRow(id), item);
      ok := table.Put(Location(AuthReqRow(id)), item);
      forall db | ok && Shows(old(table.items), clients, db)
        ensures Shows(table.items, clients, OidcTokens.CreateAuthRequest(db, now, id, clientID, scopes, tenant))
      {
        PutShows(old(table.items), clients, db, AuthReqRow(id), item);
      }
    }

    /** Fails, changing nothing, when the auth request is gone or cannot be read or written. */
    method CompleteAuthRequest(now: int, id: string, c: SubjectClaims) returns (ok: bool)
      requires Valid()
      modifies table
      ensures Valid() && (!ok ==> table.items == old(table.items))
      ensures ok <==> ("AUTHREQ#" + id, "META") in old(table.items) && !old(table.Fails(0)) && !old(table.Fails(1))
      ensures ok ==>
                var at := ("AUTHREQ#" + id, "META");
                && old(table.items)[at].RequestItem?
                && var was := old(table.items)[at].req;
                table.items == old(table.items)[at :=
                  RequestItem(was.(done := true, authTime := now, userID := c.sub, email := c.email,
                                   givenName := c.givenName, familyName := c.familyName,
                                   emailVerified := c.emailVerified, groups := c.groups, custom := c.custom))]
      ensures ok ==> forall db :: Shows(old(table.items), clients, db)
                                  ==> && id in db.authReqs
                                      && Shows(table.items, clients, OidcTokens.CompleteAuthRequest(db, now, id, c))
    {
      hide Shows;
      var found := table.Get(Location(AuthReqRow(id)));
      if found.None? { return false; }
      var item := found.value.req;
      item := item.(userID := c.sub, done := true, authTime := now);
      item := item.(email := c.email, givenName := c.givenName, familyName := c.familyName);
      item := item.(emailVerified := c.emailVerified, groups := c.groups, custom := c.custom);
      PutKeepsTyped(table.items, AuthReqRow(id), RequestItem(item));
      ok := table.Put(Location(AuthReqRow(id)), RequestItem(item));
      forall db | ok && Shows(old(table.items), clients, db)
        ensures id in db.authReqs && Shows(table.items, clients, OidcTokens.CompleteAuthRequest(db, now, id, c))
      {
        GetShows(old(table.items), clients, db, AuthReqRow(id));
        PutShows(old(table.items), clients, db, AuthReqRow(id), RequestItem(item));
      }
    }

    /** Fails, changing nothing, when the code cannot be written; noting the code on the auth
        request is best effort. */
    method SaveAuthCode(now: int, id: string, code: string) returns (ok: bool)
      requires Valid()
      modifies table
      ensures Valid() && ok == !old(table.Fails(0)) && (!ok ==> table.items == old(table.items))
      ensures ok ==>
                var at := ("AUTHREQ#" + id, "META");
                var mapped :=
                  old(table.items)[("AUTHCODE#" + code, "META") := CodeItem(CodeMapping(id, Unix(now) + 600))];
                if at in mapped && mapped[at].RequestItem? && !old(table.Fails(1)) && !old(table.Fails(2))
                then table.items == mapped[at := RequestItem(mapped[at].req.(authCode := code))]
                else table.items == mapped
      ensures ok ==>
                var noted := !old(table.Fails(1)) && !old(table.Fails(2));
                forall db :: Shows(old(table.items), clients, db)
                             ==> Shows(table.items, clients, OidcTokens.SaveAuthCode(db, now, id, code, noted))
    {
      hide Shows;
      var mapping := CodeItem(CodeMapping(id, Unix(now + 10 * MINUTE)));
      PutKeepsTyped(table.items, CodeRow(code), mapping);
      ok := table.Put(Location(CodeRow(code)), mapping);
      if !ok { return; }
      ghost var mapped := table.items;
      var found := table.Get(Location(AuthReqRow(id)));
      if found.Some? {
        var item := RequestItem(found.value.req.(authCode := code));
        PutKeepsTyped(table.items, AuthReqRow(id), item);
        var _ := table.Put(Location(AuthReqRow(id)), item);
      }
      forall db | Shows(old(table.items), clients, db)
        ensures Shows(table.items, clients,
                      OidcTokens.SaveAuthCode(db, now, id, code, !old(table.Fails(1)) && !old(table.Fails(2))))
      {
        PutShows(old(table.items), clients, db, CodeRow(code), mapping);
        var shown := WriteRow(db, CodeRow(code), mapping);
        GetShows(mapped, clients, shown, AuthReqRow(id));
        if found.Some? {
          PutShows(mapped, clients, shown, AuthReqRow(id), RequestItem(found.value.req.(authCode := code)));
        }
      }
    }

    /** The code's auth request, if both rows are still there and can be read. */
    method AuthRequestByCode(code: string) returns (r: Option<string>)
      requires Valid()
      modifies table`calls
      ensures r.Some?
              <==> && !old(table.Fails(0)) && !old(table.Fails(1)) && ("AUTHCODE#" + code, "META") in table.items
                           && table.items[("AUTHCODE#" + code, "META")].CodeItem?
                           && ("AUTHREQ#" + table.items[("AUTHCODE#" + code, "META")].mapping.requestID, "META")
                              in table.items
      ensures r.Some? ==> r.value == table.items[("AUTHCODE#" + code, "META")].mapping.requestID
      ensures forall db :: Shows(table.items, clients, db)
                           ==> r == if old(table.Fails(0)) || old(table.Fails(1)) then None
                                    else OidcTokens.AuthRequestByCode(db, code)
    {
      var mapping := table.Get(Location(CodeRow(code)));
      forall db | Shows(table.items, clients, db)
        ensures Fetch(table.items, Location(CodeRow(code))) == Cell(db, CodeRow(code)) {
        GetShows(table.items, clients, db, CodeRow(code));
      }
      if mapping.None? { return None; }
      var id := mapping.value.mapping.requestID;
      var found := table.Get(Location(AuthReqRow(id)));
      forall db | Shows(table.items, clients, db)
        ensures Fetch(table.items, Location(AuthReqRow(id))) == Cell(db, AuthReqRow(id)) {
        GetShows(table.items, clients, db, AuthReqRow(id));
      }
      if found.None? { return None; }
      return Some(id);
    }

    /** Deletes the code the request names, best effort, then the request. */
    method DeleteAuthRequest(id: string) returns (ok: bool)
      requires Valid()
      modifies table
      ensures Valid()
      ensures var (was, at) := (old(table.items), ("AUTHREQ#" + id, "META"));
              var code := if !old(table.Fails(0)) && at in was && was[at].RequestItem? then was[at].req.authCode
                else "";
              var left := if code != "" && !old(table.Fails(1)) then was - {("AUTHCODE#" + code, "META")} else was;
              && ok == !old(table.Fails(if code != "" then 2 else 1))
              && table.items == if ok then left - {at} else left
      ensures forall db :: Shows(old(table.items), clients, db) ==>
                             var named := !old(table.Fails(0)) && id in db.authReqs && db.authReqs[id].authCode != "";
                             && ok == !old(table.Fails(if named then 2 else 1))
                             && Shows(table.items, clients,
                                      OidcTokens.DeleteAuthRequest(db, id, old(table.Fails(0)) || old(table.Fails(1)),
                                                                   !ok))
    {
      hide Shows;
      ghost var (was, lost) := (table.items, table.Fails(0) || table.Fails(1));
      var found := table.Get(Location(AuthReqRow(id)));
      var code := if found.Some? then found.value.req.authCode else "";
      if code != "" {
        var _ := table.Delete(Location(CodeRow(code)));
      }
      ghost var between := table.items;
      ok := table.Delete(Location(AuthReqRow(id)));
      forall db | Shows(was, clients, db)
        ensures var named := !old(table.Fails(0)) && id in db.authReqs && db.authReqs[id].authCode != "";
                && ok == !old(table.Fails(if named then 2 else 1))
                && Shows(table.items, clients, OidcTokens.DeleteAuthRequest(db, id, lost, !ok))
      {
        GetShows(was, clients, db, AuthReqRow(id));
        DeleteShows(was, clients, db, CodeRow(code));
        var shown := if code != "" && !lost then RemoveRow(db, CodeRow(code)) else db;
        DeleteShows(between, clients, shown, AuthReqRow(id));
        if id !in db.authReqs { assert db.authReqs - {id} == db.authReqs; }
      }
    }

    /** Best effort. */
    method IndexSessionToken(tenant: string, subject: string, clientID: string, kind: TokenKind, ref: string, ttl: int)
      requires Valid()
      modifies table
      ensures Valid() && table.calls == old(table.calls) + IndexCalls(subject, clientID, ref)
      ensures table.items == if subject == "" || clientID == "" || ref == "" || old(table.Fails(0))
              then old(table.items)
                             else old(table.items)[(SessionIndexPK(tenant, subject, clientID), "TOKEN#" + ref) :=
                                                   EntryItem(IndexRow(kind, ttl), ref)]
      ensures forall db :: Shows(old(table.items), clients, db) && CleanSession(tenant, subject)
                           ==> Shows(table.items, clients,
                                     OidcTokens.IndexSessionToken(db, tenant, subject, clientID, kind, ref, ttl,
                                                                  old(table.Fails(0))))
    {
      hide Typed, Shows;
      if subject == "" || clientID == "" || ref == "" { return; }
      var row := IndexEntry(IndexKey(tenant, subject, clientID, ref));
      var item := EntryItem(IndexRow(kind, ttl), ref);
      PutKeepsTyped(table.items, row, item);
      var ok := table.Put((SessionIndexPK(tenant, subject, clientID), "TOKEN#" + ref), item);
      forall db | Shows(old(table.items), clients, db) && CleanSession(tenant, subject)
        ensures Shows(table.items, clients,
                      OidcTokens.IndexSessionToken(db, tenant, subject, clientID, kind, ref, ttl, old(table.Fails(0))))
      {
        PutShows(old(table.items), clients, db, row, item);
      }
    }

    /** Best effort. */
    method DeleteSessionTokenIndex(tenant: string, subject: string, clientID: string, ref: string)
      requires Valid()
      modifies table
      ensures Valid() && table.calls == old(table.calls) + IndexCalls(subject, clientID, ref)
      ensures table.items == if subject == "" || clientID == "" || ref == "" || old(table.Fails(0))
              then old(table.items)
                             else old(table.items) - {(SessionIndexPK(tenant, subject, clientID), "TOKEN#" + ref)}
      ensures forall db :: Shows(old(table.items), clients, db) && CleanSession(tenant, subject)
                           ==> Shows(table.items, clients,
                                     OidcTokens.DeleteSessionTokenIndex(db, tenant, subject, clientID, ref,
                                                                        old(table.Fails(0))))
    {
      hide Shows;
      if subject == "" || clientID == "" || ref == "" { return; }
      var row := IndexEntry(IndexKey(tenant, subject, clientID, ref));
      var ok := table.Delete((SessionIndexPK(tenant, subject, clientID), "TOKEN#" + ref));
      forall db | Shows(old(table.items), clients, db) && CleanSession(tenant, subject)
        ensures Shows(table.items, clients,
                      OidcTokens.DeleteSessionTokenIndex(db, tenant, subject, clientID, ref, old(table.Fails(0))))
      {
        DeleteShows(old(table.items), clients, db, row);
      }
    }

    /** Fails, changing nothing, when the token cannot be written. */
    method CreateAccessToken(now: int, tenant: string, req: TokenRequest, tokenID: string) returns (ok: bool)
      requires Valid()
      modifies table
      ensures Valid() && ok == !old(table.Fails(LookupCalls(req.GetClientID())))
      ensures if ok then table.calls == old(table.calls) + AccessCalls(req, tokenID)
              else table.items == old(table.items)
      // The record lives as long as its client's configuration says, between a minute and a day; an
      // hour when that is unset or cannot be looked up.
      ensures ok ==>
                var (client, lookups) := (req.GetClientID(), if req.GetClientID() == "" then 0 else 1);
                var sec := if client != "" && !old(table.Fails(0)) && client in clients
                           then clients[client].accessLifetimeSec else 0;
                var life := if sec == 0 then 3600 else if sec < 60 then 60 else if sec > 86400 then 86400 else sec;
                var (expiry, c) := (now + life * SECOND, req.GetClaims());
                var item :=
                  AccessToken(Unix(expiry) + 3600, req.GetSubject(), req.GetAudience(), req.GetScopes(), client,
                              expiry, c.email, c.givenName, c.familyName, c.emailVerified, c.groups, c.custom);
                var stored := old(table.items)[("TOKEN#" + tokenID, "META") := AccessItem(item)];
                table.items == if req.GetSubject() == "" || client == "" || tokenID == ""
                  || old(table.Fails(lookups + 1))
                               then stored
                               else stored[(SessionIndexPK(tenant, req.GetSubject(), client), "TOKEN#" + tokenID) :=
                                           EntryItem(IndexRow(Access, item.ttl), tokenID)]
      ensures ok ==>
                var l := AccessLosses(table.faults, old(table.calls), req);
                forall db :: Shows(old(table.items), clients, db) && CleanSession(tenant, req.GetSubject())
                             ==> Shows(table.items, clients,
                                       OidcTokens.CreateAccessToken(db, now, tenant, req, tokenID, l))
    {
      hide Typed, Shows, Location, OidcTokens.IndexSessionToken;
      TokenLocations(tokenID);
      var clientID := req.GetClientID();
      var client: Option<ClientInfo> := None;
      if clientID != "" { client := GetByClientID(clientID); }
      var expiration := now + AccessLifetime(client);
      var claims := req.GetClaims();
      var ttl := Unix(expiration + HOUR);
      var item :=
        AccessToken(ttl, req.GetSubject(), req.GetAudience(), req.GetScopes(), clientID, expiration, claims.email,
                    claims.givenName, claims.familyName, claims.emailVerified, claims.groups, claims.custom);
      PutKeepsTyped(table.items, AccessRow(tokenID), AccessItem(item));
      ok := table.Put(Location(AccessRow(tokenID)), AccessItem(item));
      if !ok { return; }
      IndexSessionToken(tenant, req.GetSubject(), clientID, Access, tokenID, ttl);
      forall db | Shows(old(table.items), clients, db) && CleanSession(tenant, req.GetSubject())
        ensures Shows(table.items, clients,
                      OidcTokens.CreateAccessToken(db, now, tenant, req, tokenID,
                                                   AccessLosses(table.faults, old(table.calls), req)))
      {
        ClientsShown(old(table.items), clients, db);
        PutShows(old(table.items), clients, db, AccessRow(tokenID), AccessItem(item));
      }
    }

    /** The presented token and its index row, best effort. */
    method DropPresented(tenant: string, req: TokenRequest, current: string, ghost l: Losses)
      requires Valid() && l.presented == table.Fails(0) && l.presentedIndex == table.Fails(1)
      modifies table
      ensures Valid()
      ensures var left := if old(table.Fails(0)) then old(table.items)
                          else old(table.items) - {("REFRESHTOKEN#" + current, "META")};
              var (subject, client) := (req.GetSubject(), req.GetClientID());
              table.items == if subject == "" || client == "" || current == "" || old(table.Fails(1)) then left
                             else left - {(SessionIndexPK(tenant, subject, client), "TOKEN#" + current)}
      ensures forall db :: Shows(old(table.items), clients, db) && CleanSession(tenant, req.GetSubject())
                           ==> Shows(table.items, clients, Dropped(db, current, tenant, req, l))
    {
      hide Shows, Typed, Location, OidcTokens.DeleteSessionTokenIndex;
      TokenLocations(current);
      ghost var was := table.items;
      DeleteKeepsTyped(was, RefreshRow(current));
      var _ := table.Delete(Location(RefreshRow(current)));
      ghost var between := table.items;
      DeleteSessionTokenIndex(tenant, req.GetSubject(), req.GetClientID(), current);
      forall db | Shows(was, clients, db) && CleanSession(tenant, req.GetSubject())
        ensures Shows(table.items, clients, Dropped(db, current, tenant, req, l))
      {
        DeleteShows(was, clients, db, RefreshRow(current));
        assert Shows(between, clients, if l.presented then db else RemoveRow(db, RefreshRow(current)));
      }
    }

    /** Fails, changing nothing, when the token cannot be written. */
    method StoreRefreshToken(now: int, tenant: string, req: TokenRequest, refreshID: string) returns (ok: bool)
      requires Valid()
      modifies table
      ensures Valid() && ok == !RefreshLosses(table.faults, old(table.calls), req, refreshID).refreshPut
      ensures if ok then table.calls == old(table.calls) + AccessCalls(req, refreshID)
              else table.items == old(table.items)
      // The record lives as long as its client's configuration says; thirty days when that is unset
      // or cannot be looked up.
      ensures ok ==>
                var (client, lookups) := (req.GetClientID(), if req.GetClientID() == "" then 0 else 1);
                var sec := if client != "" && !old(table.Fails(0)) && client in clients
                           then clients[client].refreshLifetimeSec else 0;
                var (expiry, c) := (now + (if sec > 0 then sec else 2592000) * SECOND, req.GetClaims());
                var item :=
                  RefreshToken(Unix(expiry) + 3600, req.GetSubject(), client, req.GetAudience(), req.GetScopes(),
                               req.GetAMR(), req.GetAuthTime(), expiry, c.email, c.givenName, c.familyName,
                               c.emailVerified, c.groups, c.custom);
                var stored := old(table.items)[("REFRESHTOKEN#" + refreshID, "META") := RefreshItem(item)];
                table.items == if req.GetSubject() == "" || client == "" || refreshID == ""
                  || old(table.Fails(lookups + 1))
                               then stored
                               else stored[(SessionIndexPK(tenant, req.GetSubject(), client), "TOKEN#" + refreshID) :=
                                           EntryItem(IndexRow(Refresh, item.ttl), refreshID)]
      ensures ok ==>
                var l := RefreshLosses(table.faults, old(table.calls), req, refreshID);
                forall db :: Shows(old(table.items), clients, db) && CleanSession(tenant, req.GetSubject())
                             ==> Shows(table.items, clients,
                                       OidcTokens.CreateRefreshToken(db, now, tenant, req, "", refreshID, l))
    {
      hide Typed, Shows, Location, Cell, SessionIndexPK, OidcTokens.IndexSessionToken;
      TokenLocations(refreshID);
      ghost var (was, l) := (table.items, RefreshLosses(table.faults, table.calls, req, refreshID));
      var client: Option<ClientInfo> := None;
      if req.GetClientID() != "" { client := GetByClientID(req.GetClientID()); }
      var claims := req.GetClaims();
      var expiry := now + RefreshLifetime(client);
      var item :=
        RefreshToken(Unix(expiry + HOUR), req.GetSubject(), req.GetClientID(), req.GetAudience(), req.GetScopes(),
                     req.GetAMR(), req.GetAuthTime(), expiry, claims.email, claims.givenName, claims.familyName,
                     claims.emailVerified, claims.groups, claims.custom);
      PutKeepsTyped(table.items, RefreshRow(refreshID), RefreshItem(item));
      ok := table.Put(Location(RefreshRow(refreshID)), RefreshItem(item));
      if !ok { return; }
      IndexSessionToken(tenant, req.GetSubject(), req.GetClientID(), Refresh, refreshID, item.ttl);
      forall db | Shows(was, clients, db) && CleanSession(tenant, req.GetSubject())
        ensures Shows(table.items, clients, OidcTokens.CreateRefreshToken(db, now, tenant, req, "", refreshID, l))
      {
        ClientsShown(was, clients, db);
        PutShows(was, clients, db, RefreshRow(refreshID), RefreshItem(item));
      }
    }

    /** Fails, changing nothing, when the token cannot be written. The presented token,
        `current`, is deleted only after the new one is stored, best effort. */
    method CreateRefreshToken(now: int, tenant: string, req: TokenRequest, current: string, refreshID: string)
      returns (ok: bool)
      requires Valid()
      modifies table
      ensures Valid() && ok == !RefreshLosses(table.faults, old(table.calls), req, refreshID).refreshPut
      ensures !ok ==> table.items == old(table.items)
      ensures ok ==>
                var l := RefreshLosses(table.faults, old(table.calls), req, refreshID);
                forall db :: Shows(old(table.items), clients, db) && CleanSession(tenant, req.GetSubject())
                             ==> Shows(table.items, clients,
                                       OidcTokens.CreateRefreshToken(db, now, tenant, req, current, refreshID, l))
    {
      hide Typed, Shows, Dropped, OidcTokens.CreateRefreshToken;
      ghost var (was, l) := (table.items, RefreshLosses(table.faults, table.calls, req, refreshID));
      ok := StoreRefreshToken(now, tenant, req, refreshID);
      if !ok { return; }
      if current != "" && current != refreshID { DropPresented(tenant, req, current, l); }
      forall db | Shows(was, clients, db) && CleanSession(tenant, req.GetSubject())
        ensures Shows(table.items, clients, OidcTokens.CreateRefreshToken(db, now, tenant, req, current, refreshID, l))
      {
        ReplacedOrNot(db, now, tenant, req, current, refreshID, l);
      }
    }

    /** The access token first, then the refresh token. A failure in between leaves the
        access token behind. */
    method CreateAccessAndRefreshTokens(now: int, tenant: string, req: TokenRequest, current: string, accessID: string,
                                        refreshID: string)
      returns (ok: bool)
      requires Valid()
      modifies table
      ensures Valid()
      ensures var l := PairLosses(table.faults, old(table.calls), req, accessID, refreshID);
              var stored := !old(table.Fails(LookupCalls(req.GetClientID())));
              && ok == (stored && !l.refreshPut) && (!stored ==> table.items == old(table.items))
              && (stored ==>
                    forall db :: Shows(old(table.items), clients, db) && CleanSession(tenant, req.GetSubject())
                                 ==> Shows(table.items, clients,
                                           OidcTokens.CreateAccessAndRefreshTokens(db, now, tenant, req, current,
                                                                                   accessID, refreshID, l)))
    {
      hide Typed, Shows, AccessLosses, RefreshLosses, AccessCalls, LookupCalls, OidcTokens.CreateAccessToken,
           OidcTokens.CreateRefreshToken, OidcTokens.CreateAccessAndRefreshTokens;
      ghost var from := table.calls;
      ok := CreateAccessToken(now, tenant, req, accessID);
      if !ok { return; }
      ok := CreateRefreshToken(now, tenant, req, current, refreshID);
      forall db | Shows(old(table.items), clients, db) && CleanSession(tenant, req.GetSubject())
        ensures Shows(table.items, clients,
                      OidcTokens.CreateAccessAndRefreshTokens(db, now, tenant, req, current, accessID, refreshID,
                                                              PairLosses(table.faults, from, req, accessID, refreshID)))
      {
        PairIs(db, now, tenant, req, current, accessID, refreshID, table.faults, from);
      }
    }

    /** Unknown, expired, or of an application that is gone, inactive or could not be looked
        up: refused, and in all but the first case dropped, best effort. */
    method TokenRequestByRefreshToken(now: int, token: string) returns (r: Option<TokenRequest>)
      requires Valid()
      modifies table
      ensures Valid()
      ensures var (was, at) := (old(table.items), ("REFRESHTOKEN#" + token, "META"));
              && (r.Some? <==>
                    && !old(table.Fails(0)) && !old(table.Fails(1)) && at in was && was[at].RefreshItem?
                    && now <= was[at].refresh.expiresAt
                    && was[at].refresh.clientID in clients && clients[was[at].refresh.clientID].active)
              && (r.Some? ==>
                    var item := was[at].refresh;
                    && table.items == was
                    && r.value == FromRefreshToken(item.clientID, item.subject, item.audience, item.scopes, item.amr,
                                                   item.authTime,
                                                   SubjectClaims(item.subject, item.email, item.emailVerified,
                                                                 item.givenName, item.familyName, item.groups,
                                                                 item.custom)))
              // Refused: the record goes, unless there is none, it cannot be read, or the delete fails.
              && (r.None? ==>
                    table.items == if !old(table.Fails(0)) && at in was && was[at].RefreshItem?
                                      && !old(table.Fails(if now > was[at].refresh.expiresAt then 1 else 2))
                                   then was - {at} else was)
      ensures old(table.Fails(0)) ==> r == None && table.items == old(table.items)
      ensures !old(table.Fails(0)) ==>
                forall db :: Shows(old(table.items), clients, db) ==>
                               var expired := token in db.refresh && db.refresh[token].Expired(now);
                               var l := NO_LOSSES.(client := old(table.Fails(1)),
                                                   drop := old(table.Fails(if expired then 1 else 2)));
                               && r == OidcTokens.TokenRequestByRefreshToken(db, now, token, l).1
                               && Shows(table.items, clients,
                                        OidcTokens.TokenRequestByRefreshToken(db, now, token, l).0)
    {
      hide Shows;
      ghost var was := table.items;
      var found := table.Get(Location(RefreshRow(token)));
      forall db | Shows(was, clients, db)
        ensures Fetch(was, Location(RefreshRow(token))) == Cell(db, RefreshRow(token)) && db.clients == clients
                && Shows(was - {Location(RefreshRow(token))}, clients, RemoveRow(db, RefreshRow(token)))
      {
        GetShows(was, clients, db, RefreshRow(token));
        ClientsShown(was, clients, db);
        DeleteShows(was, clients, db, RefreshRow(token));
      }
      if found.None? { return None; }
      var item := found.value.refresh;
      if now > item.expiresAt {
        var _ := table.Delete(Location(RefreshRow(token)));
        return None;
      }
      var app := GetByClientID(item.clientID);
      if app.None? || !app.value.active {
        var _ := table.Delete(Location(RefreshRow(token)));
        return None;
      }
      return Some(FromRefreshToken(item.clientID, item.subject, item.audience, item.scopes, item.amr, item.authTime,
                                   item.Claims()));
    }

    /** What userinfo and introspection read of an access token: nothing from its expiry on. */
    method ReadAccessToken(now: int, tokenID: string) returns (r: Option<AccessToken>)
      requires Valid()
      modifies table`calls
      ensures var at := ("TOKEN#" + tokenID, "META");
              && (r.Some? <==> && !old(table.Fails(0)) && at in table.items && table.items[at].AccessItem?
                               && now < table.items[at].access.expiresAt)
              && (r.Some? ==> r.value == table.items[at].access)
      ensures forall db :: Shows(table.items, clients, db)
                           ==> r == if !old(table.Fails(0)) && tokenID in db.access && !db.access[tokenID].Expired(now)
                                    then Some(db.access[tokenID]) else None
    {
      var found := table.Get(Location(AccessRow(tokenID)));
      forall db | Shows(table.items, clients, db)
        ensures Fetch(table.items, Location(AccessRow(tokenID))) == Cell(db, AccessRow(tokenID))
      {
        GetShows(table.items, clients, db, AccessRow(tokenID));
      }
      if found.None? { return None; }
      var item := found.value.access;
      if !(item.expiresAt > now) { return None; }
      return Some(item);
    }

    /** Deletes the tokens row by row as the index query lists them, each index row after its
        token, best effort; `order` is the order of that list. */
    method TerminateSession(tenant: string, userID: string, clientID: string)
      returns (ok: bool, ghost order: seq<IndexKey>)
      requires Valid()
      modifies table
      ensures Valid()
      ensures ok == (userID == "" || clientID == "" || !old(table.Fails(0)))
      ensures !ok || userID == "" || clientID == "" ==> table.items == old(table.items)
      ensures ok && userID != "" && clientID != "" ==>
                forall db :: Shows(old(table.items), clients, db) && CleanSession(tenant, userID) ==>
                               && Table.Enumerates(order, SessionRows(db, tenant, userID, clientID))
                               && Shows(table.items, clients,
                                        OidcTokens.TerminateSession(db, tenant, userID, clientID,
                                                                    KeptTokens(order, table.faults, old(table.calls)),
                                                                    KeptRows(order, table.faults, old(table.calls))))
    {
      hide Shows, SweptTo, KeptTokens, KeptRows, SessionIndexPK, SessionRows;
      order := [];
      if userID == "" || clientID == "" { return true, order; }
      ghost var (was, from) := (table.items, table.calls);
      var rows, sks := table.Query(SessionIndexPK(tenant, userID, clientID), "TOKEN#");
      if rows.None? { return false, order; }
      order := ListedRows(was, tenant, userID, clientID, sks);
      ListedAre(was, tenant, userID, clientID, sks);
      forall db | Shows(was, clients, db) && CleanSession(tenant, userID)
        ensures Table.Enumerates(order, SessionRows(db, tenant, userID, clientID))
                && SweptTo(db, order, 0, table.faults, from) == db
      {
        ListedAreSessionRows(was, clients, db, tenant, userID, clientID, sks);
        NothingSwept(db, order, table.faults, from);
      }
      for i := 0 to |rows.value|
        invariant Valid() && table.calls == from + 1 + 2 * i
        invariant forall db :: Shows(was, clients, db) && CleanSession(tenant, userID)
                               ==> Shows(table.items, clients, SweptTo(db, order, i, table.faults, from))
      {
        ghost var (before, k) := (table.items, order[i]);
        var row := rows.value[i];
        match row.entry.kind {
          case Refresh => var _ := table.Delete(Location(RefreshRow(row.ref)));
          case Access => var _ := table.Delete(Location(AccessRow(row.ref)));
        }
        var _ := table.Delete((SessionIndexPK(tenant, userID, clientID), "TOKEN#" + row.ref));
        forall db | Shows(was, clients, db) && CleanSession(tenant, userID)
          ensures Shows(table.items, clients, SweptTo(db, order, i + 1, table.faults, from))
        {
          ListedRowShown(was, clients, db, tenant, userID, clientID, sks, i);
          SweepOneShows(before, clients, SweptTo(db, order, i, table.faults, from), k, row.entry.kind,
                        Table.FaultAt(table.faults, from + 1 + 2 * i), Table.FaultAt(table.faults, from + 2 + 2 * i));
          SweptToNext(db, order, i, table.faults, from);
        }
      }
      forall db | Shows(was, clients, db) && CleanSession(tenant, userID)
        ensures Shows(table.items, clients,
                      OidcTokens.TerminateSession(db, tenant, userID, clientID, KeptTokens(order, table.faults, from),
                                                  KeptRows(order, table.faults, from)))
      {
        SweptIsTerminated(db, tenant, userID, clientID, order, table.faults, from);
      }
      ok := true;
    }

    /** Deletes the record only for the client it was issued to. An access token whose record
        cannot be read passes for unknown. */
    method RevokeToken(token: string, clientID: string) returns (ok: bool)
      requires Valid()
      modifies table
      ensures Valid()
      ensures var (was, a, f) := (old(table.items), ("TOKEN#" + token, "META"), ("REFRESHTOKEN#" + token, "META"));
              if !old(table.Fails(0)) && a in was && was[a].AccessItem? then
                var own := clientID == "" || was[a].access.clientID == "" || was[a].access.clientID == clientID;
                && ok == !(own && old(table.Fails(1)))
                && table.items == if own && ok then was - {a} else was
              else if !old(table.Fails(1)) && f in was && was[f].RefreshItem? then
                var own := clientID == "" || was[f].refresh.clientID == "" || was[f].refresh.clientID == clientID;
                && ok == !(own && old(table.Fails(2)))
                && table.items == if own && ok then was - {f} else was
              else ok && table.items == was
      ensures forall db :: Shows(old(table.items), clients, db) ==>
                             var blind := old(table.Fails(0));
                             var missed := old(table.Fails(1))
                               || ((blind || token !in db.access) && old(table.Fails(2)));
                             Shows(table.items, clients, OidcTokens.RevokeToken(db, token, clientID, blind, missed))
      ensures forall db :: Shows(old(table.items), clients, db) ==>
                             var deletesAccess := token in db.access && !old(table.Fails(0))
                               && MayRevoke(clientID, db.access[token].clientID);
                             var deletesRefresh := && (token !in db.access || old(table.Fails(0)))
                               && !old(table.Fails(1))
                                                   && token in db.refresh
                                                   && MayRevoke(clientID, db.refresh[token].clientID);
                             ok == !((deletesAccess && old(table.Fails(1))) || (deletesRefresh && old(table.Fails(2))))
    {
      hide Shows, Location, Typed, Cell, RemoveRow;
      TokenLocations(token);
      ghost var was := table.items;
      DeleteKeepsTyped(was, AccessRow(token));
      DeleteKeepsTyped(was, RefreshRow(token));
      forall db | Shows(was, clients, db)
        ensures var (a, r) := (Location(AccessRow(token)), Location(RefreshRow(token)));
                && (if a in was then token in db.access && was[a] == AccessItem(db.access[token])
                    else token !in db.access)
                && (if r in was then token in db.refresh && was[r] == RefreshItem(db.refresh[token])
                    else token !in db.refresh)
                && Shows(was - {a}, clients, db.(access := db.access - {token}))
                && Shows(was - {r}, clients, db.(refresh := db.refresh - {token}))
      {
        RecordsShown(was, clients, db, token);
      }
      var access := table.Get(Location(AccessRow(token)));
      if access.Some? {
        TypedAt(was, AccessRow(token));
        var owner := access.value.access.clientID;
        if clientID != "" && owner != "" && owner != clientID { return true; }
        ok := table.Delete(Location(AccessRow(token)));
        return;
      }
      var refresh := table.Get(Location(RefreshRow(token)));
      if refresh.Some? {
        TypedAt(was, RefreshRow(token));
        var owner := refresh.value.refresh.clientID;
        if clientID != "" && owner != "" && owner != clientID { return true; }
        ok := table.Delete(Location(RefreshRow(token)));
        return;
      }
      return true;
    }
  }
}
