/** The OIDC token lifecycle (internal/oidc/storage.go, refresh_token.go) as functions
    on the transient tables: auth requests, codes, access and refresh tokens, and the
    session index that logout sweeps. Each handler runs as one step with one clock
    reading, and generated ids are fresh. */
module OidcTokens {
  import opened Wrappers
  import opened Clock

  datatype SubjectClaims = SubjectClaims(sub: string, email: string, emailVerified: bool, givenName: string,
                                         familyName: string, groups: seq<string>, custom: map<string, string>)

  const NO_CLAIMS := SubjectClaims("", "", false, "", "", [], map[])

  datatype AuthRequest = AuthRequest(clientID: string, scopes: seq<string>, tenant: string, done: bool, authTime: int,
                                     userID: string, email: string, givenName: string, familyName: string,
                                     emailVerified: bool, groups: seq<string>, custom: map<string, string>,
                                     authCode: string, ttl: int)

  datatype CodeMapping = CodeMapping(requestID: string, ttl: int)

  datatype AccessToken = AccessToken(ttl: int, subject: string, audience: seq<string>, scopes: seq<string>,
                                     clientID: string, expiresAt: int, email: string, givenName: string,
                                     familyName: string, emailVerified: bool, groups: seq<string>,
                                     custom: map<string, string>)
  {
    function Claims(): SubjectClaims {
      SubjectClaims(subject, email, emailVerified, givenName, familyName, groups, custom)
    }

    /** userinfo and introspection refuse the token from its expiry on. */
    predicate Expired(now: int) { expiresAt <= now }
  }

  datatype RefreshToken = RefreshToken(ttl: int, subject: string, clientID: string, audience: seq<string>,
                                       scopes: seq<string>, amr: seq<string>, authTime: int, expiresAt: int,
                                       email: string, givenName: string, familyName: string, emailVerified: bool,
                                       groups: seq<string>, custom: map<string, string>)
  {
    function Claims(): SubjectClaims {
      SubjectClaims(subject, email, emailVerified, givenName, familyName, groups, custom)
    }

    predicate Expired(now: int) { now > expiresAt }
  }

  /** What a token is issued for: the auth request of a code exchange, or the context
      recovered from a refresh token. */
  datatype TokenRequest =
    | FromAuthRequest(req: AuthRequest)
    | FromRefreshToken(clientID: string, subject: string, audience: seq<string>, scopes: seq<string>,
                       amr: seq<string>, authTime: int, claims: SubjectClaims)
  {
    function GetClientID(): string { if FromAuthRequest? then req.clientID else clientID }
    function GetSubject(): string { if FromAuthRequest? then req.userID else subject }
    function GetAudience(): seq<string> { if FromAuthRequest? then [req.clientID] else audience }
    function GetScopes(): seq<string> { if FromAuthRequest? then req.scopes else scopes }
    function GetAMR(): seq<string> { if FromAuthRequest? then ["pwd"] else amr }
    function GetAuthTime(): int { if FromAuthRequest? then req.authTime else authTime }
    function GetClaims(): SubjectClaims {
      if FromAuthRequest?
      then SubjectClaims(req.userID, req.email, req.emailVerified, req.givenName, req.familyName, req.groups,
                         req.custom)
      else claims
    }
  }

  datatype TokenKind = Access | Refresh

  datatype IndexKey = IndexKey(tenant: string, subject: string, clientID: string, ref: string)

  datatype IndexRow = IndexRow(kind: TokenKind, ttl: int)

  /** What GetByClientID says of an OIDC client. */
  datatype ClientInfo = ClientInfo(active: bool, accessLifetimeSec: int, refreshLifetimeSec: int)

  datatype Db = Db(authReqs: map<string, AuthRequest>, codes: map<string, CodeMapping>,
                   access: map<string, AccessToken>, refresh: map<string, RefreshToken>,
                   index: map<IndexKey, IndexRow>, clients: map<string, ClientInfo>)

  // ---------- Storage operations ----------

  /** Calls whose failure the code tolerates, and which of them fail in one request: lookups
      of the client (for either lifetime, or when a refresh token is presented), writes of
      index rows, the write of the refresh token itself, and deletes of the presented token,
      of its index row, of a refused token, of a used code and of its auth request. */
  datatype Losses = Losses(accessClient: bool, accessIndex: bool, refreshClient: bool, refreshPut: bool,
                           refreshIndex: bool, presented: bool, presentedIndex: bool, client: bool, drop: bool,
                           code: bool, request: bool)

  const NO_LOSSES := Losses(false, false, false, false, false, false, false, false, false, false, false)

  const REQUEST_TTL := 10 * MINUTE

  function CreateAuthRequest(db: Db, now: int, id: string, clientID: string, scopes: seq<string>, tenant: string): Db {
    db.(authReqs :=
        db.authReqs[id :=
                    AuthRequest(clientID, scopes, tenant, false, 0, "", "", "", "", false, [], map[], "",
                                Unix(now + REQUEST_TTL))])
  }

  function CompleteAuthRequest(db: Db, now: int, id: string, c: SubjectClaims): Db {
    if id !in db.authReqs then db
    else db.(authReqs := db.authReqs[id := db.authReqs[id].(
               userID := c.sub, done := true, authTime := now, email := c.email, givenName := c.givenName,
               familyName := c.familyName, emailVerified := c.emailVerified, groups := c.groups, custom := c.custom)])
  }

  /** `noted`: the request itself could be read and rewritten with the code. */
  function SaveAuthCode(db: Db, now: int, id: string, code: string, noted: bool): Db {
    var mapped := db.(codes := db.codes[code := CodeMapping(id, Unix(now + REQUEST_TTL))]);
    if !noted || id !in db.authReqs then mapped
    else mapped.(authReqs := db.authReqs[id := db.authReqs[id].(authCode := code)])
  }

  function AuthRequestByCode(db: Db, code: string): Option<string> {
    if code in db.codes && db.codes[code].requestID in db.authReqs then Some(db.codes[code].requestID) else None
  }

  function DeleteAuthRequest(db: Db, id: string, codeLost: bool, requestLost: bool): Db {
    if id !in db.authReqs then db
    else
      var code := db.authReqs[id].authCode;
      db.(codes := if code != "" && !codeLost then db.codes - {code} else db.codes,
          authReqs := if requestLost then db.authReqs else db.authReqs - {id})
  }

  const DEFAULT_TOKEN_LIFETIME := 1 * HOUR
  const DEFAULT_REFRESH_LIFETIME := 30 * DAY

  /** boundedTokenLifetime: 0 means one hour, otherwise between one minute and a day. */
  function BoundedTokenLifetime(sec: int): int {
    if sec == 0 then DEFAULT_TOKEN_LIFETIME
    else (if sec < 60 then 60 else if sec > 86400 then 86400 else sec) * SECOND
  }

  /** What a lookup of the client finds, unless it fails. */
  function ClientOf(db: Db, clientID: string, failed: bool): Option<ClientInfo> {
    if failed || clientID == "" || clientID !in db.clients then None else Some(db.clients[clientID])
  }

  function AccessLifetime(client: Option<ClientInfo>): int {
    if client.None? then DEFAULT_TOKEN_LIFETIME else BoundedTokenLifetime(client.value.accessLifetimeSec)
  }

  function RefreshLifetime(client: Option<ClientInfo>): int {
    if client.Some? && client.value.refreshLifetimeSec > 0 then client.value.refreshLifetimeSec * SECOND
      else DEFAULT_REFRESH_LIFETIME
  }

  function IndexSessionToken(db: Db, tenant: string, subject: string, clientID: string, kind: TokenKind, ref: string,
                             ttl: int, lost: bool): Db {
    if lost || subject == "" || clientID == "" || ref == "" then db
    else db.(index := db.index[IndexKey(tenant, subject, clientID, ref) := IndexRow(kind, ttl)])
  }

  function DeleteSessionTokenIndex(db: Db, tenant: string, subject: string, clientID: string, ref: string,
                                   lost: bool): Db
  {
    if lost || subject == "" || clientID == "" || ref == "" then db
    else db.(index := db.index - {IndexKey(tenant, subject, clientID, ref)})
  }

  function NewAccessToken(client: Option<ClientInfo>, now: int, req: TokenRequest): AccessToken {
    var expiresAt := now + AccessLifetime(client);
    var c := req.GetClaims();
    AccessToken(Unix(expiresAt + HOUR), req.GetSubject(), req.GetAudience(), req.GetScopes(), req.GetClientID(),
                expiresAt, c.email, c.givenName, c.familyName, c.emailVerified, c.groups, c.custom)
  }

  function NewRefreshToken(client: Option<ClientInfo>, now: int, req: TokenRequest): RefreshToken {
    var expiresAt := now + RefreshLifetime(client);
    var c := req.GetClaims();
    RefreshToken(Unix(expiresAt + HOUR), req.GetSubject(), req.GetClientID(), req.GetAudience(), req.GetScopes(),
                 req.GetAMR(), req.GetAuthTime(), expiresAt,
                 c.email, c.givenName, c.familyName, c.emailVerified, c.groups, c.custom)
  }

  function CreateAccessToken(db: Db, now: int, tenant: string, req: TokenRequest, tokenID: string, l: Losses): Db {
    var item := NewAccessToken(ClientOf(db, req.GetClientID(), l.accessClient), now, req);
    IndexSessionToken(db.(access := db.access[tokenID := item]), tenant, req.GetSubject(), req.GetClientID(), Access,
                      tokenID, item.ttl, l.accessIndex)
  }

  /** Issues a refresh token; `current`, when not "", is the presented token, which it
      replaces. */
  function CreateRefreshToken(db: Db, now: int, tenant: string, req: TokenRequest, current: string, refreshID: string,
                              l: Losses): Db
  {
    var item := NewRefreshToken(ClientOf(db, req.GetClientID(), l.refreshClient), now, req);
    var indexed :=
      IndexSessionToken(db.(refresh := db.refresh[refreshID := item]), tenant, req.GetSubject(), req.GetClientID(),
                        Refresh, refreshID, item.ttl, l.refreshIndex);
    if current != "" && current != refreshID
    then Dropped(indexed, current, tenant, req, l)
    else indexed
  }

  /** The presented token and its index row gone, as far as their deletes succeed. */
  function Dropped(db: Db, token: string, tenant: string, req: TokenRequest, l: Losses): Db {
    DeleteSessionTokenIndex(if l.presented then db else db.(refresh := db.refresh - {token}), tenant, req.GetSubject(),
                            req.GetClientID(), token, l.presentedIndex)
  }

  /** When the refresh token cannot be written the access token stays behind. */
  function CreateAccessAndRefreshTokens(db: Db, now: int, tenant: string, req: TokenRequest, current: string,
                                        accessID: string, refreshID: string, l: Losses): Db {
    var withAccess := CreateAccessToken(db, now, tenant, req, accessID, l);
    if l.refreshPut then withAccess else CreateRefreshToken(withAccess, now, tenant, req, current, refreshID, l)
  }

  predicate ClientActive(db: Db, clientID: string, lookupFailed: bool) {
    !lookupFailed && clientID in db.clients && db.clients[clientID].active
  }

  /** TokenRequestByRefreshToken: an unknown token is refused; an expired one, or one
      whose application is gone or inactive, or cannot be looked up, is refused and dropped. */
  function TokenRequestByRefreshToken(db: Db, now: int, token: string, l: Losses): (Db, Option<TokenRequest>) {
    if token !in db.refresh then (db, None)
    else
      var item := db.refresh[token];
      if item.Expired(now) || !ClientActive(db, item.clientID, l.client) then
        (if l.drop then db else db.(refresh := db.refresh - {token}), None)
      else (db, Some(FromRefreshToken(item.clientID, item.subject, item.audience, item.scopes, item.amr, item.authTime,
                                      item.Claims())))
  }

  predicate OfSession(k: IndexKey, tenant: string, userID: string, clientID: string) {
    k.tenant == tenant && k.subject == userID && k.clientID == clientID
  }

  function SweptRefs(db: Db, tenant: string, userID: string, clientID: string, kind: TokenKind): set<string> {
    set k | k in db.index && OfSession(k, tenant, userID, clientID) && db.index[k].kind == kind :: k.ref
  }

  /** Sweeps the tokens the session's index rows point to, and the rows; `kept` are the tokens
      and `keptRows` the rows' tokens whose delete fails. */
  function TerminateSession(db: Db, tenant: string, userID: string, clientID: string, kept: set<string>,
                            keptRows: set<string>): Db
  {
    if userID == "" || clientID == "" then db
    else
      db.(access := db.access - (SweptRefs(db, tenant, userID, clientID, Access) - kept),
          refresh := db.refresh - (SweptRefs(db, tenant, userID, clientID, Refresh) - kept),
          index := map k | k in db.index
            && (OfSession(k, tenant, userID, clientID) ==> k.ref in keptRows) :: db.index[k])
  }

  /** A token is revoked by its own client; anybody may revoke one without a client. */
  predicate MayRevoke(clientID: string, owner: string) {
    clientID == "" || owner == "" || owner == clientID
  }

  /** `blind`: the access token record could not be read; `missed`: the refresh token record
      could not, or the record found could not be deleted. */
  function RevokeToken(db: Db, token: string, clientID: string, blind: bool, missed: bool): Db {
    if token in db.access && !blind then
      if MayRevoke(clientID, db.access[token].clientID) && !missed then db.(access := db.access - {token}) else db
    else if token in db.refresh then
      if MayRevoke(clientID, db.refresh[token].clientID) && !missed then db.(refresh := db.refresh - {token}) else db
    else db
  }

  // ---------- Runs ----------

  /** A completed login: the auth request with the claims and time of its completion. */
  datatype Login = Login(requestID: string, clientID: string, claims: SubjectClaims, authTime: int)

  /** How a token came to be: under which tenant's issuer, and from which login. */
  datatype Issue = Issue(kind: TokenKind, tenant: string, login: Login)

  /** The tables, the clock, and what has happened: auth requests created (with their
      client), logins completed, tokens issued, and every id ever generated or presented;
      tokens whose index row was lost, and auth requests of which a delete was lost that
      would have ended them or a refresh token descending from them. */
  datatype World = World(db: Db, now: int, created: map<string, string>, logins: set<Login>,
                         issued: map<string, Issue>, seen: set<string>, unindexed: set<string>, forked: set<string>)

  datatype Row = AuthReqRow(id: string) | CodeRow(code: string) | AccessRow(id: string) | RefreshRow(id: string)
    | IndexEntry(key: IndexKey)

  datatype Event =
    | Authorize(id: string, clientID: string, scopes: seq<string>, tenant: string)
    | Complete(id: string, claims: SubjectClaims)
    | IssueCode(id: string, code: string, noted: bool)
    | Exchange(code: string, tenant: string, offline: bool, accessID: string, refreshID: string, losses: Losses)
    | RefreshGrant(token: string, tenant: string, proceed: bool, scopes: seq<string>, accessID: string,
                   refreshID: string, losses: Losses)
    | Logout(tenant: string, userID: string, clientID: string, kept: set<string>, keptRows: set<string>)
    | Revoke(token: string, clientID: string, blind: bool, missed: bool)
    | SetClient(clientID: string, info: Option<ClientInfo>)
    | Reap(row: Row)

  datatype Step = Step(at: int, event: Event)

  predicate Fresh(w: World, id: string) { id != "" && id !in w.seen }

  predicate RowReapable(db: Db, row: Row, now: int) {
    match row
    case AuthReqRow(id) => id in db.authReqs && Reapable(db.authReqs[id].ttl, now)
    case CodeRow(code) => code in db.codes && Reapable(db.codes[code].ttl, now)
    case AccessRow(id) => id in db.access && Reapable(db.access[id].ttl, now)
    case RefreshRow(id) => id in db.refresh && Reapable(db.refresh[id].ttl, now)
    case IndexEntry(key) => key in db.index && Reapable(db.index[key].ttl, now)
  }

  function RemoveRow(db: Db, row: Row): Db {
    match row
    case AuthReqRow(id) => db.(authReqs := db.authReqs - {id})
    case CodeRow(code) => db.(codes := db.codes - {code})
    case AccessRow(id) => db.(access := db.access - {id})
    case RefreshRow(id) => db.(refresh := db.refresh - {id})
    case IndexEntry(key) => db.(index := db.index - {key})
  }

  /** Time does not run backwards, generated ids are fresh, the sweep removes only rows
      past their TTL, and the protocol library issues a code only for a request that is
      done. A step whose first write fails changes nothing and is not a step. */
  predicate Enabled(w: World, s: Step) {
    s.at >= w.now &&
    match s.event
    case Authorize(id, _, _, _) => Fresh(w, id)
    case IssueCode(id, code, _) => Fresh(w, code) && id in w.db.authReqs && w.db.authReqs[id].done
    case Exchange(_, _, _, a, r, _) => Fresh(w, a) && Fresh(w, r) && a != r
    case RefreshGrant(token, _, _, _, a, r, _) => Fresh(w, a) && Fresh(w, r) && a != r && token !in {"", a, r}
    case Reap(row) => RowReapable(w.db, row, s.at)
    case _ => true
  }

  function LoginOf(id: string, req: AuthRequest): Login {
    Login(id, req.clientID, FromAuthRequest(req).GetClaims(), req.authTime)
  }

  function IssuedOne(w: World, i: Issue, t: string, indexLost: bool): World {
    w.(issued := w.issued[t := i], unindexed := if indexLost then w.unindexed + {t} else w.unindexed)
  }

  function ApplyExchange(w: World, at: int, code: string, tenant: string, offline: bool, accessID: string,
                         refreshID: string, l: Losses): World
  {
    var used := w.(now := at, seen := w.seen + {accessID, refreshID});
    match AuthRequestByCode(w.db, code)
    case None => used
    case Some(id) =>
      var req := FromAuthRequest(w.db.authReqs[id]);
      var login := LoginOf(id, w.db.authReqs[id]);
      var withAccess := IssuedOne(used, Issue(Access, tenant, login), accessID, l.accessIndex);
      if offline && l.refreshPut then
        withAccess.(db := CreateAccessAndRefreshTokens(w.db, at, tenant, req, "", accessID, refreshID, l))
      else
        var issued := if offline then IssuedOne(withAccess, Issue(Refresh, tenant, login), refreshID, l.refreshIndex)
          else withAccess;
        issued.(db :=
                DeleteAuthRequest(if offline
                                  then CreateAccessAndRefreshTokens(w.db, at, tenant, req, "", accessID, refreshID, l)
                                        else CreateAccessToken(w.db, at, tenant, req, accessID, l), id, l.code,
                                        l.request),
                forked := if l.request then w.forked + {id} else w.forked)
  }

  /** Lookup, then issue: unless the library stops after the lookup (`proceed` false: a read
      failed, or a client or scope check of its own). `scopes` are the narrowed scopes. */
  function ApplyRefreshGrant(w: World, at: int, token: string, tenant: string, proceed: bool, scopes: seq<string>,
                             accessID: string, refreshID: string, l: Losses): World {
    var used := w.(now := at, seen := w.seen + {accessID, refreshID, token});
    var (db, found) := TokenRequestByRefreshToken(w.db, at, token, l);
    if found.None? || !proceed || token !in w.issued then used.(db := db)
    else
      var login := w.issued[token].login;
      var withAccess := IssuedOne(used, Issue(Access, tenant, login), accessID, l.accessIndex);
      var issued := if l.refreshPut then withAccess
        else IssuedOne(withAccess, Issue(Refresh, tenant, login), refreshID, l.refreshIndex);
      var left := !l.refreshPut && l.presented;
      issued.(db :=
              CreateAccessAndRefreshTokens(db, at, tenant, found.value.(scopes := scopes), token, accessID, refreshID,
                                           l),
              forked := if left then w.forked + {login.requestID} else w.forked,
              unindexed := if left && !l.presentedIndex && tenant == w.issued[token].tenant
                then issued.unindexed + {token}
                           else issued.unindexed)
  }

  /** Tokens a logout fails to delete although it deletes their index row. */
  function Orphans(db: Db, tenant: string, userID: string, clientID: string, kept: set<string>,
                   keptRows: set<string>): set<string>
  {
    if userID == "" || clientID == "" then {}
    else set k | k in db.index && OfSession(k, tenant, userID, clientID) && k.ref in kept && k.ref !in keptRows :: k.ref
  }

  function Apply(w: World, s: Step): World {
    match s.event
    case Authorize(id, clientID, scopes, tenant) =>
      w.(now := s.at, db := CreateAuthRequest(w.db, s.at, id, clientID, scopes, tenant),
         created := w.created[id := clientID], seen := w.seen + {id})
    case Complete(id, c) =>
      var db := CompleteAuthRequest(w.db, s.at, id, c);
      w.(now := s.at, db := db,
         logins := if id in db.authReqs then w.logins + {LoginOf(id, db.authReqs[id])} else w.logins)
    case IssueCode(id, code, noted) =>
      w.(now := s.at, db := SaveAuthCode(w.db, s.at, id, code, noted), seen := w.seen + {code})
    case Exchange(code, tenant, offline, a, r, l) => ApplyExchange(w, s.at, code, tenant, offline, a, r, l)
    case RefreshGrant(token, tenant, proceed, scopes, a, r, l) =>
      ApplyRefreshGrant(w, s.at, token, tenant, proceed, scopes, a, r, l)
    case Logout(tenant, userID, clientID, kept, keptRows) =>
      w.(now := s.at, db := TerminateSession(w.db, tenant, userID, clientID, kept, keptRows),
         unindexed := w.unindexed + Orphans(w.db, tenant, userID, clientID, kept, keptRows))
    case Revoke(token, clientID, blind, missed) =>
      w.(now := s.at, db := RevokeToken(w.db, token, clientID, blind, missed))
    case SetClient(clientID, info) =>
      w.(now := s.at,
         db := w.db.(clients := if info.Some? then w.db.clients[clientID := info.value] else w.db.clients - {clientID}))
    case Reap(row) => w.(now := s.at, db := RemoveRow(w.db, row))
  }

  predicate Legal(w: World, steps: seq<Step>)
    decreases |steps|
  {
    steps == [] || (Enabled(w, steps[0]) && Legal(Apply(w, steps[0]), steps[1..]))
  }

  function Exec(w: World, steps: seq<Step>): World
    decreases |steps|
  {
    if steps == [] then w else Exec(Apply(w, steps[0]), steps[1..])
  }

  function Initial(now: int): World {
    World(Db(map[], map[], map[], map[], map[], map[]), now, map[], {}, map[], {}, {}, {})
  }

  // ---------- Invariants ----------

  /** The record says exactly what the login said. */
  predicate AccessMatches(item: AccessToken, i: Issue) {
    && i.kind.Access?
    && item.Claims() == i.login.claims && item.subject == i.login.claims.sub
    && item.clientID == i.login.clientID && item.audience == [i.login.clientID]
    && item.ttl == Unix(item.expiresAt + HOUR)
  }

  predicate RefreshMatches(item: RefreshToken, i: Issue) {
    && i.kind.Refresh?
    && item.Claims() == i.login.claims && item.subject == i.login.claims.sub
    && item.clientID == i.login.clientID && item.audience == [i.login.clientID]
    && item.amr == ["pwd"] && item.authTime == i.login.authTime
    && item.ttl == Unix(item.expiresAt + HOUR)
  }

  ghost predicate AccessFromLogins(access: map<string, AccessToken>, issued: map<string, Issue>) {
    forall t :: t in access ==> t in issued && AccessMatches(access[t], issued[t])
  }

  ghost predicate RefreshFromLogins(refresh: map<string, RefreshToken>, issued: map<string, Issue>) {
    forall t :: t in refresh ==> t in issued && RefreshMatches(refresh[t], issued[t])
  }

  function KeyOf(i: Issue, t: string): IndexKey {
    IndexKey(i.tenant, i.login.claims.sub, i.login.clientID, t)
  }

  /** Tokens without a subject or a client are not indexed. */
  predicate Indexable(i: Issue) { i.login.claims.sub != "" && i.login.clientID != "" }

  predicate HasIndexRow(index: map<IndexKey, IndexRow>, i: Issue, t: string, ttl: int) {
    KeyOf(i, t) in index && index[KeyOf(i, t)] == IndexRow(i.kind, ttl)
  }

  ghost predicate AccessIndexed(access: map<string, AccessToken>, issued: map<string, Issue>,
                                index: map<IndexKey, IndexRow>, now: int, unindexed: set<string>)
  {
    forall t :: t in access && t in issued && t !in unindexed && !access[t].Expired(now) && Indexable(issued[t])
                ==> HasIndexRow(index, issued[t], t, access[t].ttl)
  }

  ghost predicate RefreshIndexed(refresh: map<string, RefreshToken>, issued: map<string, Issue>,
                                 index: map<IndexKey, IndexRow>, now: int, unindexed: set<string>)
  {
    forall t :: t in refresh && t in issued && t !in unindexed && !refresh[t].Expired(now) && Indexable(issued[t])
                ==> HasIndexRow(index, issued[t], t, refresh[t].ttl)
  }

  ghost predicate IndexSound(index: map<IndexKey, IndexRow>, issued: map<string, Issue>) {
    forall k :: k in index ==>
                  k.ref in issued && Indexable(issued[k.ref]) && k == KeyOf(issued[k.ref], k.ref)
                    && index[k].kind == issued[k.ref].kind
  }

  ghost predicate Unindexed(index: map<IndexKey, IndexRow>, issued: map<string, Issue>, unindexed: set<string>) {
    forall t :: t in unindexed ==> t in issued && KeyOf(issued[t], t) !in index
  }

  /** Two refresh tokens of one login are one and the same, unless a delete was lost. */
  ghost predicate OneLive(refresh: map<string, RefreshToken>, issued: map<string, Issue>, forked: set<string>) {
    forall a, b :: (a in refresh && b in refresh && a in issued && b in issued && issued[a].login.requestID !in forked
                    && issued[a].login.requestID == issued[b].login.requestID) ==> a == b
  }

  /** No refresh token while its auth request is still there to be exchanged again, unless a
      delete was lost. */
  ghost predicate Spent(issued: map<string, Issue>, created: map<string, string>, authReqs: map<string, AuthRequest>,
                        forked: set<string>)
  {
    forall t :: t in issued ==> && issued[t].login.requestID in created
                                && (issued[t].kind.Refresh? && issued[t].login.requestID !in forked
                                    ==> issued[t].login.requestID !in authReqs)
  }

  ghost predicate IssuedToLogins(issued: map<string, Issue>, logins: set<Login>) {
    forall t :: t in issued ==> issued[t].login in logins
  }

  ghost predicate RequestsKnown(authReqs: map<string, AuthRequest>, created: map<string, string>, logins: set<Login>) {
    forall id :: id in authReqs ==> && id in created && authReqs[id].clientID == created[id]
                                    && (authReqs[id].done ==> LoginOf(id, authReqs[id]) in logins)
  }

  /** A code leads to a completed request or to none. */
  ghost predicate CodesLeadToLogins(codes: map<string, CodeMapping>, authReqs: map<string, AuthRequest>,
                                    created: map<string, string>)
  {
    forall code :: code in codes ==> && codes[code].requestID in created
                                     && (codes[code].requestID in authReqs ==> authReqs[codes[code].requestID].done)
  }

  ghost predicate IdsSeen(created: map<string, string>, issued: map<string, Issue>, codes: map<string, CodeMapping>,
                          seen: set<string>)
  {
    created.Keys <= seen && issued.Keys <= seen && codes.Keys <= seen && "" !in seen
  }

  ghost predicate TokensOk(w: World) {
    && AccessFromLogins(w.db.access, w.issued)
    && RefreshFromLogins(w.db.refresh, w.issued)
    && AccessIndexed(w.db.access, w.issued, w.db.index, w.now, w.unindexed)
    && RefreshIndexed(w.db.refresh, w.issued, w.db.index, w.now, w.unindexed)
    && IndexSound(w.db.index, w.issued)
    && Unindexed(w.db.index, w.issued, w.unindexed)
    && OneLive(w.db.refresh, w.issued, w.forked)
  }

  ghost predicate RequestsOk(w: World) {
    && Spent(w.issued, w.created, w.db.authReqs, w.forked)
    && IssuedToLogins(w.issued, w.logins)
    && RequestsKnown(w.db.authReqs, w.created, w.logins)
    && CodesLeadToLogins(w.db.codes, w.db.authReqs, w.created)
    && IdsSeen(w.created, w.issued, w.db.codes, w.seen)
  }

  ghost predicate Inv(w: World) { TokensOk(w) && RequestsOk(w) }

  // ---------- Steps that only remove rows ----------

  ghost predicate SubMap<K(!new), V(!new)>(a: map<K, V>, b: map<K, V>) {
    forall k :: k in a ==> k in b && a[k] == b[k]
  }

  ghost predicate KeepsIndexOf(live: set<string>, issued: map<string, Issue>, index: map<IndexKey, IndexRow>,
                               index': map<IndexKey, IndexRow>)
  {
    forall t :: t in live && t in issued && KeyOf(issued[t], t) in index ==> KeyOf(issued[t], t) in index'
  }

  ghost function LiveAccess(access: map<string, AccessToken>, now: int): set<string> {
    set t | t in access && !access[t].Expired(now)
  }

  ghost function LiveRefresh(refresh: map<string, RefreshToken>, now: int): set<string> {
    set t | t in refresh && !refresh[t].Expired(now)
  }

  /** Rows may go and time may pass; a live token that loses its index row is noted. */
  ghost predicate TokensShrink(w: World, w': World) {
    && w'.issued == w.issued && w.now <= w'.now && w.unindexed <= w'.unindexed && w.forked <= w'.forked
    && SubMap(w'.db.access, w.db.access) && SubMap(w'.db.refresh, w.db.refresh) && SubMap(w'.db.index, w.db.index)
    && KeepsIndexOf(LiveAccess(w'.db.access, w'.now) - w'.unindexed, w.issued, w.db.index, w'.db.index)
    && KeepsIndexOf(LiveRefresh(w'.db.refresh, w'.now) - w'.unindexed, w.issued, w.db.index, w'.db.index)
    && Unindexed(w'.db.index, w.issued, w'.unindexed - w.unindexed)
  }

  lemma {:induction false} ShrinkingKeepsTokens(w: World, w': World)
    requires TokensOk(w) && TokensShrink(w, w')
    ensures TokensOk(w')
  {
    forall t | t in w'.db.access && t in w.issued && t !in w'.unindexed && !w'.db.access[t].Expired(w'.now)
      && Indexable(w.issued[t])
      ensures HasIndexRow(w'.db.index, w.issued[t], t, w'.db.access[t].ttl)
    {
      assert t in LiveAccess(w'.db.access, w'.now) - w'.unindexed;
    }
    forall t | t in w'.db.refresh && t in w.issued && t !in w'.unindexed && !w'.db.refresh[t].Expired(w'.now)
      && Indexable(w.issued[t])
      ensures HasIndexRow(w'.db.index, w.issued[t], t, w'.db.refresh[t].ttl)
    {
      assert t in LiveRefresh(w'.db.refresh, w'.now) - w'.unindexed;
    }
    forall t | t in w'.unindexed ensures t in w.issued && KeyOf(w.issued[t], t) !in w'.db.index {
      if t !in w.unindexed { assert t in w'.unindexed - w.unindexed; }
    }
  }

  ghost predicate RequestsShrink(w: World, w': World) {
    && w'.created == w.created && w'.logins == w.logins && w'.issued == w.issued
    && w.seen <= w'.seen && "" !in w'.seen && w.forked <= w'.forked
    && SubMap(w'.db.authReqs, w.db.authReqs) && SubMap(w'.db.codes, w.db.codes)
  }

  lemma {:induction false} ShrinkingKeepsRequests(w: World, w': World)
    requires RequestsOk(w) && RequestsShrink(w, w')
    ensures RequestsOk(w')
  {
  }

  /** An index row carries its token's TTL, an hour past the token's expiry: by the time
      the sweep may take the row, the token is dead. */
  lemma {:induction false} DropIndexRowKeepsTokens(w: World, at: int, k: IndexKey)
    requires TokensOk(w) && at >= w.now && k in w.db.index && Reapable(w.db.index[k].ttl, at)
    ensures TokensOk(w.(now := at, db := w.db.(index := w.db.index - {k})))
  {
    var w' := w.(now := at, db := w.db.(index := w.db.index - {k}));
    var t := k.ref;
    assert t !in w.unindexed;
    assert t in w.db.access ==> AccessMatches(w.db.access[t], w.issued[t]);
    assert t in w.db.refresh ==> RefreshMatches(w.db.refresh[t], w.issued[t]);
    assert t in w.db.access ==> w.db.access[t].Expired(w.now) || w.db.index[k].ttl == w.db.access[t].ttl;
    assert t in w.db.refresh ==> w.db.refresh[t].Expired(w.now) || w.db.index[k].ttl == w.db.refresh[t].ttl;
    assert k.ref !in LiveAccess(w'.db.access, at) && k.ref !in LiveRefresh(w'.db.refresh, at);
    ShrinkingKeepsTokens(w, w');
  }

  lemma {:induction false} DropTokenKeepsTokens(w: World, at: int, id: string)
    requires TokensOk(w) && at >= w.now
    ensures TokensOk(w.(now := at, db := w.db.(access := w.db.access - {id})))
    ensures TokensOk(w.(now := at, db := w.db.(refresh := w.db.refresh - {id})))
  {
    ShrinkingKeepsTokens(w, w.(now := at, db := w.db.(access := w.db.access - {id})));
    ShrinkingKeepsTokens(w, w.(now := at, db := w.db.(refresh := w.db.refresh - {id})));
  }

  lemma {:induction false} TimeKeepsInv(w: World, at: int, seen: set<string>)
    requires Inv(w) && at >= w.now && "" !in seen
    ensures Inv(w.(now := at, seen := w.seen + seen))
  {
    ShrinkingKeepsTokens(w, w.(now := at, seen := w.seen + seen));
    ShrinkingKeepsRequests(w, w.(now := at, seen := w.seen + seen));
  }

  lemma {:induction false} ReapKeepsInv(w: World, at: int, row: Row)
    requires Inv(w) && at >= w.now && RowReapable(w.db, row, at)
    ensures Inv(w.(now := at, db := RemoveRow(w.db, row)))
  {
    var w' := w.(now := at, db := RemoveRow(w.db, row));
    match row
    case AuthReqRow(id) => ShrinkingKeepsTokens(w, w'); ShrinkingKeepsRequests(w, w');
    case CodeRow(code) => ShrinkingKeepsTokens(w, w'); ShrinkingKeepsRequests(w, w');
    case AccessRow(id) => DropTokenKeepsTokens(w, at, id); ShrinkingKeepsRequests(w, w');
    case RefreshRow(id) => DropTokenKeepsTokens(w, at, id); ShrinkingKeepsRequests(w, w');
    case IndexEntry(k) => DropIndexRowKeepsTokens(w, at, k); ShrinkingKeepsRequests(w, w');
  }

  lemma {:induction false} RevokeKeepsInv(w: World, at: int, token: string, clientID: string, blind: bool, missed: bool)
    requires Inv(w) && at >= w.now
    ensures Inv(w.(now := at, db := RevokeToken(w.db, token, clientID, blind, missed)))
  {
    hide AccessFromLogins, RefreshFromLogins, AccessIndexed, RefreshIndexed, IndexSound, OneLive,
         Spent, IssuedToLogins, RequestsKnown, CodesLeadToLogins;
    var w' := w.(now := at, db := RevokeToken(w.db, token, clientID, blind, missed));
    DropTokenKeepsTokens(w, at, token);
    ShrinkingKeepsTokens(w, w.(now := at));
    assert w'.db.authReqs == w.db.authReqs && w'.db.codes == w.db.codes;
    ShrinkingKeepsRequests(w, w');
  }

  // ---------- Logout ----------

  /** A token whose index row a logout removes is itself removed, or orphaned. */
  lemma {:induction false} LogoutKeepsIndexOfAccess(db: Db, issued: map<string, Issue>, live: set<string>,
                                                    tenant: string, userID: string, clientID: string,
                                                    kept: set<string>, keptRows: set<string>)
    requires IndexSound(db.index, issued) && AccessFromLogins(db.access, issued)
    requires live <= TerminateSession(db, tenant, userID, clientID, kept, keptRows).access.Keys
    requires live !! Orphans(db, tenant, userID, clientID, kept, keptRows)
    ensures KeepsIndexOf(live, issued, db.index, TerminateSession(db, tenant, userID, clientID, kept, keptRows).index)
  {
    forall t | t in live && t in issued && KeyOf(issued[t], t) in db.index
      ensures KeyOf(issued[t], t) in TerminateSession(db, tenant, userID, clientID, kept, keptRows).index
    {
      var k := KeyOf(issued[t], t);
      assert AccessMatches(db.access[t], issued[t]);
      if userID != "" && clientID != "" && OfSession(k, tenant, userID, clientID) {
        assert t in SweptRefs(db, tenant, userID, clientID, Access);
        assert t in kept && t !in Orphans(db, tenant, userID, clientID, kept, keptRows);
      }
    }
  }

  lemma {:induction false} LogoutKeepsIndexOfRefresh(db: Db, issued: map<string, Issue>, live: set<string>,
                                                     tenant: string, userID: string, clientID: string,
                                                     kept: set<string>, keptRows: set<string>)
    requires IndexSound(db.index, issued) && RefreshFromLogins(db.refresh, issued)
    requires live <= TerminateSession(db, tenant, userID, clientID, kept, keptRows).refresh.Keys
    requires live !! Orphans(db, tenant, userID, clientID, kept, keptRows)
    ensures KeepsIndexOf(live, issued, db.index, TerminateSession(db, tenant, userID, clientID, kept, keptRows).index)
  {
    forall t | t in live && t in issued && KeyOf(issued[t], t) in db.index
      ensures KeyOf(issued[t], t) in TerminateSession(db, tenant, userID, clientID, kept, keptRows).index
    {
      var k := KeyOf(issued[t], t);
      assert RefreshMatches(db.refresh[t], issued[t]);
      if userID != "" && clientID != "" && OfSession(k, tenant, userID, clientID) {
        assert t in SweptRefs(db, tenant, userID, clientID, Refresh);
        assert t in kept && t !in Orphans(db, tenant, userID, clientID, kept, keptRows);
      }
    }
  }

  lemma {:induction false} OrphansLoseTheirRows(db: Db, issued: map<string, Issue>, tenant: string, userID: string,
                                                clientID: string, kept: set<string>, keptRows: set<string>)
    requires IndexSound(db.index, issued)
    ensures Unindexed(TerminateSession(db, tenant, userID, clientID, kept, keptRows).index, issued,
                      Orphans(db, tenant, userID, clientID, kept, keptRows))
  {
  }

  lemma {:induction false} LogoutOnlyRemoves(db: Db, tenant: string, userID: string, clientID: string,
                                             kept: set<string>, keptRows: set<string>)
    ensures var db' := TerminateSession(db, tenant, userID, clientID, kept, keptRows);
            && SubMap(db'.access, db.access) && SubMap(db'.refresh, db.refresh) && SubMap(db'.index, db.index)
            && db'.authReqs == db.authReqs && db'.codes == db.codes && db'.clients == db.clients
  {
  }

  lemma {:induction false} LogoutKeepsInv(w: World, at: int, tenant: string, userID: string, clientID: string,
                                          kept: set<string>, keptRows: set<string>)
    requires Inv(w) && at >= w.now
    ensures Inv(Apply(w, Step(at, Logout(tenant, userID, clientID, kept, keptRows))))
  {
    hide TerminateSession, Orphans, KeepsIndexOf, AccessIndexed, RefreshIndexed, OneLive, RequestsOk;
    var w' := Apply(w, Step(at, Logout(tenant, userID, clientID, kept, keptRows)));
    LogoutOnlyRemoves(w.db, tenant, userID, clientID, kept, keptRows);
    LiveTokensAreStored(w'.db, at);
    LogoutKeepsIndexOfAccess(w.db, w.issued, LiveAccess(w'.db.access, at) - w'.unindexed, tenant, userID, clientID,
                             kept, keptRows);
    LogoutKeepsIndexOfRefresh(w.db, w.issued, LiveRefresh(w'.db.refresh, at) - w'.unindexed, tenant, userID, clientID,
                              kept, keptRows);
    OrphansLoseTheirRows(w.db, w.issued, tenant, userID, clientID, kept, keptRows);
    NoEmptyIds(w);
    LogoutShrinks(w, w');
  }

  lemma {:induction false} NoEmptyIds(w: World)
    requires Inv(w)
    ensures "" !in w.seen
  {
  }

  lemma {:induction false} LogoutShrinks(w: World, w': World)
    requires Inv(w) && TokensShrink(w, w') && RequestsShrink(w, w')
    ensures Inv(w')
  {
    hide TokensOk, RequestsOk, TokensShrink, RequestsShrink;
    ShrinkingKeepsTokens(w, w');
    ShrinkingKeepsRequests(w, w');
  }

  lemma {:induction false} LiveTokensAreStored(db: Db, now: int)
    ensures LiveAccess(db.access, now) <= db.access.Keys && LiveRefresh(db.refresh, now) <= db.refresh.Keys
  {
  }

  // ---------- Steps on auth requests ----------

  /** Auth requests, codes and logins may change while tokens stay. */
  lemma {:induction false} UntouchedTokensStayOk(w: World, w': World)
    requires TokensOk(w) && w.now <= w'.now && w'.issued == w.issued && w'.unindexed == w.unindexed
             && w.forked <= w'.forked
    requires w'.db.access == w.db.access && w'.db.refresh == w.db.refresh && w'.db.index == w.db.index
    ensures TokensOk(w')
  {
    ShrinkingKeepsTokens(w, w');
  }

  lemma {:induction false} AuthorizeKeepsInv(w: World, at: int, id: string, clientID: string, scopes: seq<string>,
                                             tenant: string)
    requires Inv(w) && at >= w.now && Fresh(w, id)
    ensures Inv(w.(now := at, db := CreateAuthRequest(w.db, at, id, clientID, scopes, tenant),
                   created := w.created[id := clientID], seen := w.seen + {id}))
  {
    hide AccessFromLogins, RefreshFromLogins, AccessIndexed, RefreshIndexed, IndexSound, OneLive, Unindexed;
    var w' := w.(now := at, db := CreateAuthRequest(w.db, at, id, clientID, scopes, tenant),
                 created := w.created[id := clientID], seen := w.seen + {id});
    assert id !in w.created;
    UntouchedTokensStayOk(w, w');
  }

  lemma {:induction false} CompleteKeepsInv(w: World, at: int, id: string, c: SubjectClaims)
    requires Inv(w) && at >= w.now
    ensures var db := CompleteAuthRequest(w.db, at, id, c);
            Inv(w.(now := at, db := db,
                   logins := if id in db.authReqs then w.logins + {LoginOf(id, db.authReqs[id])} else w.logins))
  {
    hide AccessFromLogins, RefreshFromLogins, AccessIndexed, RefreshIndexed, IndexSound, OneLive, Unindexed;
    var db := CompleteAuthRequest(w.db, at, id, c);
    var w' := w.(now := at, db := db,
                 logins := if id in db.authReqs then w.logins + {LoginOf(id, db.authReqs[id])} else w.logins);
    assert db.authReqs.Keys == w.db.authReqs.Keys;
    UntouchedTokensStayOk(w, w');
  }

  lemma {:induction false} IssueCodeKeepsInv(w: World, at: int, id: string, code: string, noted: bool)
    requires Inv(w) && at >= w.now && Fresh(w, code) && id in w.db.authReqs && w.db.authReqs[id].done
    ensures Inv(w.(now := at, db := SaveAuthCode(w.db, at, id, code, noted), seen := w.seen + {code}))
  {
    hide TokensOk, RequestsOk;
    var w' := w.(now := at, db := SaveAuthCode(w.db, at, id, code, noted), seen := w.seen + {code});
    UntouchedTokensStayOk(w, w');
    SavedCodeKeepsRequests(w, w', at, id, code, noted);
  }

  lemma {:induction false} SavedCodeKeepsRequests(w: World, w': World, at: int, id: string, code: string, noted: bool)
    requires RequestsOk(w) && Fresh(w, code) && id in w.db.authReqs && w.db.authReqs[id].done
    requires w' == w.(now := at, db := SaveAuthCode(w.db, at, id, code, noted), seen := w.seen + {code})
    ensures RequestsOk(w')
  {
    assert w'.db.authReqs.Keys == w.db.authReqs.Keys;
    assert LoginOf(id, w'.db.authReqs[id]) == LoginOf(id, w.db.authReqs[id]);
  }

  // ---------- Issuing ----------

  function IndexWith(index: map<IndexKey, IndexRow>, i: Issue, t: string, ttl: int, lost: bool): map<IndexKey, IndexRow>
  {
    if Indexable(i) && !lost then index[KeyOf(i, t) := IndexRow(i.kind, ttl)] else index
  }

  function NotedWith(unindexed: set<string>, t: string, lost: bool): set<string> {
    if lost then unindexed + {t} else unindexed
  }

  function WithAccess(w: World, t: string, item: AccessToken, i: Issue, lost: bool): World {
    w.(db := w.db.(access := w.db.access[t := item], index := IndexWith(w.db.index, i, t, item.ttl, lost)),
       issued := w.issued[t := i], seen := w.seen + {t}, unindexed := NotedWith(w.unindexed, t, lost))
  }

  function WithRefresh(w: World, t: string, item: RefreshToken, i: Issue, lost: bool): World {
    w.(db := w.db.(refresh := w.db.refresh[t := item], index := IndexWith(w.db.index, i, t, item.ttl, lost)),
       issued := w.issued[t := i], seen := w.seen + {t}, unindexed := NotedWith(w.unindexed, t, lost))
  }

  ghost predicate KnownLogin(w: World, login: Login) {
    login in w.logins && login.requestID in w.created
  }

  /** A refresh token may be issued: its login has none, and its auth request is used up. */
  ghost predicate FreeLogin(w: World, login: Login) {
    || login.requestID in w.forked
    || (login.requestID !in w.db.authReqs
        && forall r :: r in w.db.refresh && r in w.issued ==> w.issued[r].login.requestID != login.requestID)
  }

  lemma {:induction false} IndexWithKeepsIndexSound(index: map<IndexKey, IndexRow>, issued: map<string, Issue>,
                                                    t: string, i: Issue, ttl: int, lost: bool, unindexed: set<string>)
    requires IndexSound(index, issued) && Unindexed(index, issued, unindexed) && t !in issued
    ensures IndexSound(IndexWith(index, i, t, ttl, lost), issued[t := i])
    ensures Unindexed(IndexWith(index, i, t, ttl, lost), issued[t := i], NotedWith(unindexed, t, lost))
  {
  }

  lemma {:induction false} IndexWithKeepsRows(index: map<IndexKey, IndexRow>, i: Issue, t: string, ttl: int,
                                              lost: bool, j: Issue, u: string, uttl: int)
    requires HasIndexRow(index, j, u, uttl) && u != t
    ensures HasIndexRow(IndexWith(index, i, t, ttl, lost), j, u, uttl)
  {
  }

  lemma {:induction false} IndexWithKeepsAccessIndexed(access: map<string, AccessToken>, issued: map<string, Issue>,
                                                       index: map<IndexKey, IndexRow>, now: int, t: string, i: Issue,
                                                       ttl: int, lost: bool, unindexed: set<string>)
    requires AccessIndexed(access, issued, index, now, unindexed) && AccessFromLogins(access, issued) && t !in issued
    ensures AccessIndexed(access, issued[t := i], IndexWith(index, i, t, ttl, lost), now, NotedWith(unindexed, t, lost))
  {
    forall u | u in access && u !in unindexed && !access[u].Expired(now) && Indexable(issued[u])
      ensures HasIndexRow(IndexWith(index, i, t, ttl, lost), issued[u], u, access[u].ttl)
    {
      IndexWithKeepsRows(index, i, t, ttl, lost, issued[u], u, access[u].ttl);
    }
  }

  lemma {:induction false} IndexWithKeepsRefreshIndexed(refresh: map<string, RefreshToken>, issued: map<string, Issue>,
                                                        index: map<IndexKey, IndexRow>, now: int, t: string, i: Issue,
                                                        ttl: int, lost: bool, unindexed: set<string>)
    requires RefreshIndexed(refresh, issued, index, now, unindexed) && RefreshFromLogins(refresh, issued)
             && t !in issued
    ensures RefreshIndexed(refresh, issued[t := i], IndexWith(index, i, t, ttl, lost), now,
                           NotedWith(unindexed, t, lost))
  {
    forall u | u in refresh && u !in unindexed && !refresh[u].Expired(now) && Indexable(issued[u])
      ensures HasIndexRow(IndexWith(index, i, t, ttl, lost), issued[u], u, refresh[u].ttl)
    {
      IndexWithKeepsRows(index, i, t, ttl, lost, issued[u], u, refresh[u].ttl);
    }
  }

  lemma {:induction false} AccessIndexedWith(access: map<string, AccessToken>, issued: map<string, Issue>,
                                             index: map<IndexKey, IndexRow>, now: int, t: string, item: AccessToken,
                                             unindexed: set<string>)
    requires AccessIndexed(access, issued, index, now, unindexed)
    requires t in issued && (t in unindexed || (Indexable(issued[t]) ==> HasIndexRow(index, issued[t], t, item.ttl)))
    ensures AccessIndexed(access[t := item], issued, index, now, unindexed)
  {
  }

  lemma {:induction false} RefreshIndexedWith(refresh: map<string, RefreshToken>, issued: map<string, Issue>,
                                              index: map<IndexKey, IndexRow>, now: int, t: string, item: RefreshToken,
                                              unindexed: set<string>)
    requires RefreshIndexed(refresh, issued, index, now, unindexed)
    requires t in issued && (t in unindexed || (Indexable(issued[t]) ==> HasIndexRow(index, issued[t], t, item.ttl)))
    ensures RefreshIndexed(refresh[t := item], issued, index, now, unindexed)
  {
  }

  lemma {:induction false} WithTokenKeepsRequests(w: World, w': World, t: string, i: Issue)
    requires RequestsOk(w) && t != "" && KnownLogin(w, i.login)
    requires i.kind.Refresh? ==> i.login.requestID in w.forked || i.login.requestID !in w.db.authReqs
    requires w'.created == w.created && w'.logins == w.logins && w'.issued == w.issued[t := i]
             && w'.seen == w.seen + {t}
    requires w'.db.authReqs == w.db.authReqs && w'.db.codes == w.db.codes && w'.forked == w.forked
    ensures RequestsOk(w')
  {
  }

  lemma {:induction false} NewIssueKeepsRecords(access: map<string, AccessToken>, refresh: map<string, RefreshToken>,
                                                issued: map<string, Issue>, t: string, i: Issue, forked: set<string>)
    requires t !in issued && AccessFromLogins(access, issued) && RefreshFromLogins(refresh, issued)
             && OneLive(refresh, issued, forked)
    ensures AccessFromLogins(access, issued[t := i]) && RefreshFromLogins(refresh, issued[t := i])
            && OneLive(refresh, issued[t := i], forked)
  {
  }

  lemma {:induction false} WithAccessKeepsInv(w: World, t: string, item: AccessToken, i: Issue, lost: bool)
    requires Inv(w) && Fresh(w, t) && AccessMatches(item, i) && KnownLogin(w, i.login)
    ensures Inv(WithAccess(w, t, item, i, lost))
  {
    var w' := WithAccess(w, t, item, i, lost);
    assert t !in w.issued;
    IndexWithKeepsIndexSound(w.db.index, w.issued, t, i, item.ttl, lost, w.unindexed);
    IndexWithKeepsAccessIndexed(w.db.access, w.issued, w.db.index, w.now, t, i, item.ttl, lost, w.unindexed);
    IndexWithKeepsRefreshIndexed(w.db.refresh, w.issued, w.db.index, w.now, t, i, item.ttl, lost, w.unindexed);
    AccessIndexedWith(w.db.access, w'.issued, w'.db.index, w.now, t, item, w'.unindexed);
    NewIssueKeepsRecords(w.db.access, w.db.refresh, w.issued, t, i, w.forked);
    WithTokenKeepsRequests(w, w', t, i);
  }

  lemma {:induction false} WithRefreshKeepsInv(w: World, t: string, item: RefreshToken, i: Issue, lost: bool)
    requires Inv(w) && Fresh(w, t) && RefreshMatches(item, i) && KnownLogin(w, i.login) && FreeLogin(w, i.login)
    ensures Inv(WithRefresh(w, t, item, i, lost))
  {
    var w' := WithRefresh(w, t, item, i, lost);
    assert t !in w.issued;
    IndexWithKeepsIndexSound(w.db.index, w.issued, t, i, item.ttl, lost, w.unindexed);
    IndexWithKeepsAccessIndexed(w.db.access, w.issued, w.db.index, w.now, t, i, item.ttl, lost, w.unindexed);
    IndexWithKeepsRefreshIndexed(w.db.refresh, w.issued, w.db.index, w.now, t, i, item.ttl, lost, w.unindexed);
    RefreshIndexedWith(w.db.refresh, w'.issued, w'.db.index, w.now, t, item, w'.unindexed);
    NewIssueKeepsRecords(w.db.access, w.db.refresh, w.issued, t, i, w.forked);
    WithTokenKeepsRequests(w, w', t, i);
    assert OneLive(w'.db.refresh, w'.issued, w'.forked);
  }

  predicate RequestFor(req: TokenRequest, login: Login) {
    && req.GetSubject() == login.claims.sub && req.GetClientID() == login.clientID && req.GetClaims() == login.claims
    && req.GetAudience() == [login.clientID] && req.GetAMR() == ["pwd"] && req.GetAuthTime() == login.authTime
  }

  lemma {:induction false} NewTokensMatch(client: Option<ClientInfo>, at: int, req: TokenRequest, tenant: string,
                                          login: Login)
    requires RequestFor(req, login)
    ensures AccessMatches(NewAccessToken(client, at, req), Issue(Access, tenant, login))
    ensures RefreshMatches(NewRefreshToken(client, at, req), Issue(Refresh, tenant, login))
  {
  }

  lemma {:induction false} AccessTables(db: Db, at: int, tenant: string, req: TokenRequest, login: Login, id: string,
                                        l: Losses)
    requires RequestFor(req, login) && id != ""
    ensures var a := NewAccessToken(ClientOf(db, req.GetClientID(), l.accessClient), at, req);
            CreateAccessToken(db, at, tenant, req, id, l)
            == db.(access := db.access[id := a],
                   index := IndexWith(db.index, Issue(Access, tenant, login), id, a.ttl, l.accessIndex))
  {
  }

  lemma {:induction false} RefreshTables(db: Db, at: int, tenant: string, req: TokenRequest, login: Login, id: string,
                                         l: Losses)
    requires RequestFor(req, login) && id != ""
    ensures var r := NewRefreshToken(ClientOf(db, req.GetClientID(), l.refreshClient), at, req);
            CreateRefreshToken(db, at, tenant, req, "", id, l)
            == db.(refresh := db.refresh[id := r],
                   index := IndexWith(db.index, Issue(Refresh, tenant, login), id, r.ttl, l.refreshIndex))
  {
  }

  lemma {:induction false} PairTables(db: Db, at: int, tenant: string, req: TokenRequest, login: Login,
                                      accessID: string, refreshID: string, l: Losses)
    requires RequestFor(req, login) && accessID != "" && refreshID != ""
    ensures var a := NewAccessToken(ClientOf(db, req.GetClientID(), l.accessClient), at, req);
            var r := NewRefreshToken(ClientOf(db, req.GetClientID(), l.refreshClient), at, req);
            var (i, j) := (Issue(Access, tenant, login), Issue(Refresh, tenant, login));
            var withAccess :=
              db.(access := db.access[accessID := a], index := IndexWith(db.index, i, accessID, a.ttl, l.accessIndex));
            CreateAccessAndRefreshTokens(db, at, tenant, req, "", accessID, refreshID, l)
            == if l.refreshPut then withAccess
               else withAccess.(refresh := db.refresh[refreshID := r],
                                index := IndexWith(withAccess.index, j, refreshID, r.ttl, l.refreshIndex))
  {
    hide CreateAccessToken, CreateRefreshToken, NewAccessToken, NewRefreshToken, IndexWith, RequestFor;
    AccessTables(db, at, tenant, req, login, accessID, l);
    RefreshTables(CreateAccessToken(db, at, tenant, req, accessID, l), at, tenant, req, login, refreshID, l);
  }

  // ---------- Exchanging a code ----------

  /** The auth request used up, before its tokens are written. */
  function Consumed(w: World, at: int, id: string, l: Losses): World {
    w.(now := at, db := DeleteAuthRequest(w.db, id, l.code, l.request),
       forked := if l.request then w.forked + {id} else w.forked)
  }

  lemma {:induction false} ConsumedKeepsInv(w: World, at: int, id: string, l: Losses)
    requires Inv(w) && at >= w.now && id in w.db.authReqs && w.db.authReqs[id].done
    ensures Inv(Consumed(w, at, id, l)) && KnownLogin(Consumed(w, at, id, l), LoginOf(id, w.db.authReqs[id]))
  {
    var w' := Consumed(w, at, id, l);
    UntouchedTokensStayOk(w, w');
    ShrinkingKeepsRequests(w, w');
  }

  /** A request still there has no refresh token yet, unless a delete was lost. */
  lemma {:induction false} ConsumedFreesLogin(w: World, at: int, id: string, l: Losses)
    requires Inv(w) && id in w.db.authReqs
    ensures FreeLogin(Consumed(w, at, id, l), LoginOf(id, w.db.authReqs[id]))
  {
    assert RefreshFromLogins(w.db.refresh, w.issued);
  }

  function ClientFor(w: World, req: TokenRequest, failed: bool): Option<ClientInfo> {
    ClientOf(w.db, req.GetClientID(), failed)
  }

  function PlusAccess(w: World, base: World, at: int, req: TokenRequest, tenant: string, login: Login,
                      accessID: string, l: Losses): World
  {
    WithAccess(base, accessID, NewAccessToken(ClientFor(w, req, l.accessClient), at, req),
               Issue(Access, tenant, login), l.accessIndex)
  }

  function PlusPair(w: World, base: World, at: int, req: TokenRequest, tenant: string, login: Login,
                    accessID: string, refreshID: string, l: Losses): World {
    WithRefresh(PlusAccess(w, base, at, req, tenant, login, accessID, l), refreshID,
                NewRefreshToken(ClientFor(w, req, l.refreshClient), at, req), Issue(Refresh, tenant, login),
                l.refreshIndex)
  }

  lemma {:induction false} PlusAccessKeepsInv(w: World, base: World, at: int, req: TokenRequest, tenant: string,
                                              login: Login, accessID: string, l: Losses)
    requires Inv(base) && Fresh(base, accessID) && RequestFor(req, login) && KnownLogin(base, login)
    ensures Inv(PlusAccess(w, base, at, req, tenant, login, accessID, l))
    ensures KnownLogin(PlusAccess(w, base, at, req, tenant, login, accessID, l), login)
  {
    hide Inv, AccessMatches, RefreshMatches, NewAccessToken, NewRefreshToken, IndexWith, NotedWith, RequestFor;
    var client := ClientFor(w, req, l.accessClient);
    NewTokensMatch(client, at, req, tenant, login);
    WithAccessKeepsInv(base, accessID, NewAccessToken(client, at, req), Issue(Access, tenant, login), l.accessIndex);
  }

  lemma {:induction false} PlusPairKeepsInv(w: World, base: World, at: int, req: TokenRequest, tenant: string,
                                            login: Login, accessID: string, refreshID: string, l: Losses)
    requires Inv(base) && Fresh(base, accessID) && Fresh(base, refreshID) && accessID != refreshID
    requires RequestFor(req, login) && KnownLogin(base, login) && FreeLogin(base, login)
    ensures Inv(PlusPair(w, base, at, req, tenant, login, accessID, refreshID, l))
  {
    hide Inv, AccessMatches, RefreshMatches, NewAccessToken, NewRefreshToken, IndexWith, NotedWith, RequestFor;
    var client := ClientFor(w, req, l.refreshClient);
    RefreshIssued(base);
    NewIdsUnissued(base, accessID);
    PlusAccessKeepsInv(w, base, at, req, tenant, login, accessID, l);
    NewTokensMatch(client, at, req, tenant, login);
    WithRefreshKeepsInv(PlusAccess(w, base, at, req, tenant, login, accessID, l), refreshID,
                        NewRefreshToken(client, at, req), Issue(Refresh, tenant, login), l.refreshIndex);
  }

  lemma {:induction false} RefreshIssued(w: World)
    requires Inv(w)
    ensures w.db.refresh.Keys <= w.issued.Keys
  {
    assert RefreshFromLogins(w.db.refresh, w.issued);
  }

  lemma {:induction false} NewIdsUnissued(w: World, id: string)
    requires Inv(w) && Fresh(w, id)
    ensures id !in w.issued
  {
  }

  lemma {:induction false} DeleteAfterWriting(db: Db, db': Db, id: string, codeLost: bool, requestLost: bool)
    requires db' == db.(access := db'.access, refresh := db'.refresh, index := db'.index)
    ensures DeleteAuthRequest(db', id, codeLost, requestLost)
            == DeleteAuthRequest(db, id, codeLost, requestLost).(access := db'.access, refresh := db'.refresh,
                                                                 index := db'.index)
    ensures DeleteAuthRequest(db, id, codeLost, requestLost).(authReqs := db.authReqs, codes := db.codes) == db
  {
  }

  lemma {:induction false} RequestIsForItsLogin(id: string, req: AuthRequest)
    ensures RequestFor(FromAuthRequest(req), LoginOf(id, req))
  {
  }

  /** An exchange is: the request used up, then the tokens written, whichever comes first; or,
      when the refresh token cannot be written, the access token alone. */
  lemma {:induction false} ExchangeIs(w: World, at: int, code: string, tenant: string, offline: bool, accessID: string,
                                      refreshID: string, l: Losses)
    requires AuthRequestByCode(w.db, code).Some? && accessID != "" && refreshID != "" && accessID != refreshID
    ensures var id := AuthRequestByCode(w.db, code).value;
            var (req, login) := (FromAuthRequest(w.db.authReqs[id]), LoginOf(id, w.db.authReqs[id]));
            ApplyExchange(w, at, code, tenant, offline, accessID, refreshID, l)
            == (if offline && l.refreshPut then PlusAccess(w, w.(now := at), at, req, tenant, login, accessID, l)
                else if offline then PlusPair(w, Consumed(w, at, id, l), at, req, tenant, login, accessID, refreshID, l)
                else PlusAccess(w, Consumed(w, at, id, l), at, req, tenant, login, accessID,
                                l)).(seen := w.seen + {accessID, refreshID})
  {
    hide CreateAccessToken, CreateAccessAndRefreshTokens, LoginOf, RequestFor, DeleteAuthRequest, NewAccessToken,
         NewRefreshToken, IndexWith;
    var id := AuthRequestByCode(w.db, code).value;
    var (req, login) := (FromAuthRequest(w.db.authReqs[id]), LoginOf(id, w.db.authReqs[id]));
    RequestIsForItsLogin(id, w.db.authReqs[id]);
    AccessTables(w.db, at, tenant, req, login, accessID, l);
    PairTables(w.db, at, tenant, req, login, accessID, refreshID, l);
    DeleteAfterWriting(w.db, CreateAccessToken(w.db, at, tenant, req, accessID, l), id, l.code, l.request);
    DeleteAfterWriting(w.db, CreateAccessAndRefreshTokens(w.db, at, tenant, req, "", accessID, refreshID, l), id,
                       l.code, l.request);
  }

  lemma {:induction false} ExchangeKeepsInv(w: World, at: int, code: string, tenant: string, offline: bool,
                                            accessID: string, refreshID: string, l: Losses)
    requires Inv(w) && at >= w.now && Fresh(w, accessID) && Fresh(w, refreshID) && accessID != refreshID
    ensures Inv(ApplyExchange(w, at, code, tenant, offline, accessID, refreshID, l))
  {
    hide Inv, PlusAccess, PlusPair, RequestFor, KnownLogin, FreeLogin, DeleteAuthRequest, CreateAccessToken,
         CreateAccessAndRefreshTokens;
    var ids := {accessID, refreshID};
    match AuthRequestByCode(w.db, code)
    case None => TimeKeepsInv(w, at, ids);
    case Some(id) =>
      var (req, login) := (FromAuthRequest(w.db.authReqs[id]), LoginOf(id, w.db.authReqs[id]));
      ExchangeIs(w, at, code, tenant, offline, accessID, refreshID, l);
      CodeIsForLogin(w, code);
      ConsumedKeepsInv(w, at, id, l);
      ConsumedFreesLogin(w, at, id, l);
      var base := Consumed(w, at, id, l);
      if offline && l.refreshPut {
        TimeKeepsInv(w, at, {});
        assert w.(now := at, seen := w.seen + {}) == w.(now := at);
        KnownLoginKept(w, at, login);
        PlusAccessKeepsInv(w, w.(now := at), at, req, tenant, login, accessID, l);
        SeenAfterAccess(w, w.(now := at), at, req, tenant, login, accessID, l);
        TimeKeepsInv(PlusAccess(w, w.(now := at), at, req, tenant, login, accessID, l), at, ids);
      } else if offline {
        PlusPairKeepsInv(w, base, at, req, tenant, login, accessID, refreshID, l);
        SeenAfterPair(w, base, at, req, tenant, login, accessID, refreshID, l);
        TimeKeepsInv(PlusPair(w, base, at, req, tenant, login, accessID, refreshID, l), at, ids);
      } else {
        PlusAccessKeepsInv(w, base, at, req, tenant, login, accessID, l);
        SeenAfterAccess(w, base, at, req, tenant, login, accessID, l);
        TimeKeepsInv(PlusAccess(w, base, at, req, tenant, login, accessID, l), at, ids);
      }
      assert w.seen + {accessID} + ids == w.seen + ids && w.seen + {accessID} + {refreshID} + ids == w.seen + ids;
  }

  lemma {:induction false} KnownLoginKept(w: World, at: int, login: Login)
    requires KnownLogin(w, login)
    ensures KnownLogin(w.(now := at), login)
  {
  }

  lemma {:induction false} SeenAfterAccess(w: World, base: World, at: int, req: TokenRequest, tenant: string,
                                           login: Login, accessID: string, l: Losses)
    ensures var w' := PlusAccess(w, base, at, req, tenant, login, accessID, l);
            w'.seen == base.seen + {accessID} && w'.now == base.now
  {
  }

  lemma {:induction false} SeenAfterPair(w: World, base: World, at: int, req: TokenRequest, tenant: string,
                                         login: Login, accessID: string, refreshID: string, l: Losses)
    ensures var w' := PlusPair(w, base, at, req, tenant, login, accessID, refreshID, l);
            w'.seen == base.seen + {accessID} + {refreshID} && w'.now == base.now
  {
  }

  /** A code is exchanged only for a completed login. */
  lemma {:induction false} CodeIsForLogin(w: World, code: string)
    requires Inv(w) && AuthRequestByCode(w.db, code).Some?
    ensures var id := AuthRequestByCode(w.db, code).value;
            && w.db.authReqs[id].done && KnownLogin(w, LoginOf(id, w.db.authReqs[id]))
            && RequestFor(FromAuthRequest(w.db.authReqs[id]), LoginOf(id, w.db.authReqs[id]))
  {
  }

  // ---------- Rotating a refresh token ----------

  /** The presented token and its index row gone, as far as that goes, before the new pair is
      written. */
  function Rotating(w: World, at: int, token: string, tenant: string, req: TokenRequest, l: Losses): World
    requires token in w.issued
  {
    w.(now := at, seen := w.seen + {token}, db := Dropped(w.db, token, tenant, req, l),
       forked := if l.presented then w.forked + {w.issued[token].login.requestID} else w.forked,
       unindexed := if l.presented && !l.presentedIndex && tenant == w.issued[token].tenant then w.unindexed + {token}
         else w.unindexed)
  }

  lemma {:induction false} AccessIsNotRefresh(w: World, token: string)
    requires Inv(w) && token in w.db.refresh
    ensures token !in w.db.access && token in w.issued && "" !in w.seen
  {
    assert AccessFromLogins(w.db.access, w.issued) && RefreshFromLogins(w.db.refresh, w.issued);
  }

  lemma {:induction false} RotatingKeepsIndexOf(w: World, at: int, token: string, tenant: string, req: TokenRequest,
                                                l: Losses, live: set<string>)
    requires token in w.issued && RequestFor(req, w.issued[token].login)
    requires token in live ==> l.presented && token !in Rotating(w, at, token, tenant, req, l).unindexed
    ensures KeepsIndexOf(live, w.issued, w.db.index, Rotating(w, at, token, tenant, req, l).db.index)
  {
  }

  lemma {:induction false} RotatingNotes(w: World, at: int, token: string, tenant: string, req: TokenRequest, l: Losses)
    requires token in w.issued && token != "" && RequestFor(req, w.issued[token].login)
             && IndexSound(w.db.index, w.issued)
    ensures var w' := Rotating(w, at, token, tenant, req, l);
            Unindexed(w'.db.index, w.issued, w'.unindexed - w.unindexed)
  {
    var k := KeyOf(w.issued[token], token);
    assert k in w.db.index ==> Indexable(w.issued[token]);
  }

  lemma {:induction false} RotatingShrinks(w: World, at: int, token: string, tenant: string, req: TokenRequest,
                                           l: Losses)
    requires IndexSound(w.db.index, w.issued) && at >= w.now && "" !in w.seen
    requires token in w.db.refresh && token !in w.db.access && token != "" && token in w.issued
             && RequestFor(req, w.issued[token].login)
    ensures TokensShrink(w, Rotating(w, at, token, tenant, req, l))
  {
    hide RequestFor, KeyOf, IndexSound, Unindexed, KeepsIndexOf;
    var w' := Rotating(w, at, token, tenant, req, l);
    RotatingKeepsIndexOf(w, at, token, tenant, req, l, LiveAccess(w'.db.access, at) - w'.unindexed);
    RotatingKeepsIndexOf(w, at, token, tenant, req, l, LiveRefresh(w'.db.refresh, at) - w'.unindexed);
    RotatingNotes(w, at, token, tenant, req, l);
  }

  lemma {:induction false} RotatingSparesRequests(w: World, at: int, token: string, tenant: string, req: TokenRequest,
                                                  l: Losses)
    requires token in w.issued && token != "" && "" !in w.seen
    ensures RequestsShrink(w, Rotating(w, at, token, tenant, req, l))
  {
  }

  lemma {:induction false} RotatingKeepsInv(w: World, at: int, token: string, tenant: string, req: TokenRequest,
                                            l: Losses)
    requires Inv(w) && at >= w.now && token in w.db.refresh && token != "" && token in w.issued
             && RequestFor(req, w.issued[token].login)
    ensures Inv(Rotating(w, at, token, tenant, req, l))
  {
    hide AccessIndexed, RefreshIndexed, OneLive, RequestsOk, RequestFor, AccessFromLogins, RefreshFromLogins,
         IndexSound, Unindexed, TokensShrink, RequestsShrink, Rotating;
    AccessIsNotRefresh(w, token);
    RotatingShrinks(w, at, token, tenant, req, l);
    RotatingSparesRequests(w, at, token, tenant, req, l);
    LogoutShrinks(w, Rotating(w, at, token, tenant, req, l));
  }

  /** With the presented token gone, or noted as left behind, its login may have a new one. */
  lemma {:induction false} RotatingFreesLogin(w: World, at: int, token: string, tenant: string, req: TokenRequest,
                                              l: Losses)
    requires Inv(w) && token in w.db.refresh
    ensures token in w.issued
    ensures KnownLogin(Rotating(w, at, token, tenant, req, l), w.issued[token].login)
    ensures FreeLogin(Rotating(w, at, token, tenant, req, l), w.issued[token].login)
  {
    assert RefreshMatches(w.db.refresh[token], w.issued[token]);
  }

  lemma {:induction false} MapUpdateThenRemove<K, V>(m: map<K, V>, k: K, v: V, c: K)
    requires k != c
    ensures m[k := v] - {c} == (m - {c})[k := v]
  {
  }

  lemma {:induction false} IndexWithThenRemove(index: map<IndexKey, IndexRow>, i: Issue, t: string, ttl: int,
                                               lost: bool, k: IndexKey)
    requires k.ref != t
    ensures IndexWith(index, i, t, ttl, lost) - {k} == IndexWith(index - {k}, i, t, ttl, lost)
  {
  }

  /** Writing the new pair before or after dropping the old token makes no difference. */
  lemma {:induction false} DropCommutes(d: Db, tenant: string, req: TokenRequest, login: Login, token: string,
                                        accessID: string, a: AccessToken, refreshID: string, r: RefreshToken, l: Losses)
    requires token !in {"", accessID, refreshID}
    ensures var (i, j) := (Issue(Access, tenant, login), Issue(Refresh, tenant, login));
            var e := Dropped(d, token, tenant, req, l);
            Dropped(d.(access := d.access[accessID := a], refresh := d.refresh[refreshID := r],
                       index := IndexWith(IndexWith(d.index, i, accessID, a.ttl, l.accessIndex), j, refreshID, r.ttl,
                                          l.refreshIndex)),
                    token, tenant, req, l)
            == e.(access := e.access[accessID := a], refresh := e.refresh[refreshID := r],
                  index := IndexWith(IndexWith(e.index, i, accessID, a.ttl, l.accessIndex), j, refreshID, r.ttl,
                                     l.refreshIndex))
  {
    hide IndexWith;
    var (i, j) := (Issue(Access, tenant, login), Issue(Refresh, tenant, login));
    var key := IndexKey(tenant, req.GetSubject(), req.GetClientID(), token);
    IndexWithThenRemove(d.index, i, accessID, a.ttl, l.accessIndex, key);
    IndexWithThenRemove(IndexWith(d.index, i, accessID, a.ttl, l.accessIndex), j, refreshID, r.ttl, l.refreshIndex,
                        key);
    MapUpdateThenRemove(d.refresh, refreshID, r, token);
  }

  lemma {:induction false} ReplacedOrNot(db: Db, at: int, tenant: string, req: TokenRequest, current: string,
                                         refreshID: string, l: Losses)
    ensures var stored := CreateRefreshToken(db, at, tenant, req, "", refreshID, l);
            CreateRefreshToken(db, at, tenant, req, current, refreshID, l)
            == if current == "" || current == refreshID then stored else Dropped(stored, current, tenant, req, l)
  {
    hide Dropped, IndexSessionToken, NewRefreshToken;
  }

  /** The tables after a rotation: the presented token dropped, then the new pair written. */
  lemma {:induction false} RotationTables(w: World, at: int, token: string, tenant: string, req: TokenRequest,
                                          accessID: string, refreshID: string, l: Losses)
    requires token in w.issued && RequestFor(req, w.issued[token].login)
    requires accessID != "" && refreshID != "" && token !in {"", accessID, refreshID} && !l.refreshPut
    ensures CreateAccessAndRefreshTokens(w.db, at, tenant, req, token, accessID, refreshID, l)
            == PlusPair(w, Rotating(w, at, token, tenant, req, l), at, req, tenant, w.issued[token].login, accessID,
                        refreshID, l).db
  {
    hide CreateAccessToken, CreateRefreshToken, IndexWith, Dropped, NewAccessToken, NewRefreshToken;
    var login := w.issued[token].login;
    var d1 := CreateAccessToken(w.db, at, tenant, req, accessID, l);
    AccessTables(w.db, at, tenant, req, login, accessID, l);
    ReplacedOrNot(d1, at, tenant, req, token, refreshID, l);
    RefreshTables(d1, at, tenant, req, login, refreshID, l);
    DropCommutes(w.db, tenant, req, login, token, accessID, NewAccessToken(ClientFor(w, req, l.accessClient), at, req),
                 refreshID, NewRefreshToken(ClientFor(w, req, l.refreshClient), at, req), l);
  }

  /** A granted refresh is a rotation; or, when the refresh token cannot be written, an access
      token more. */
  lemma {:induction false} GrantIs(w: World, at: int, token: string, tenant: string, scopes: seq<string>,
                                   accessID: string, refreshID: string, l: Losses)
    requires Inv(w) && accessID != "" && refreshID != "" && accessID != refreshID && token !in {"", accessID, refreshID}
    requires TokenRequestByRefreshToken(w.db, at, token, l).1.Some?
    ensures token in w.db.refresh && token in w.issued
            && TokenRequestByRefreshToken(w.db, at, token, l).1.value.FromRefreshToken?
    ensures var req := TokenRequestByRefreshToken(w.db, at, token, l).1.value.(scopes := scopes);
            var login := w.issued[token].login;
            && RequestFor(req, login)
            && ApplyRefreshGrant(w, at, token, tenant, true, scopes, accessID, refreshID, l)
               == (if l.refreshPut then PlusAccess(w, w.(now := at), at, req, tenant, login, accessID, l)
                   else PlusPair(w, Rotating(w, at, token, tenant, req, l), at, req, tenant, login, accessID,
                                 refreshID, l)
                  ).(seen := w.seen + {accessID, refreshID, token})
  {
    hide Inv, NewAccessToken, NewRefreshToken, IndexWith, CreateAccessToken, CreateRefreshToken, Dropped,
         TokenRequestByRefreshToken;
    LookupIsForLogin(w, at, token, scopes, l);
    var req := TokenRequestByRefreshToken(w.db, at, token, l).1.value.(scopes := scopes);
    AccessTables(w.db, at, tenant, req, w.issued[token].login, accessID, l);
    if !l.refreshPut { RotationTables(w, at, token, tenant, req, accessID, refreshID, l); }
  }

  /** A refresh token stands for the login it descends from. */
  lemma {:induction false} LookupIsForLogin(w: World, at: int, token: string, scopes: seq<string>, l: Losses)
    requires Inv(w) && TokenRequestByRefreshToken(w.db, at, token, l).1.Some?
    ensures token in w.db.refresh && token in w.issued && TokenRequestByRefreshToken(w.db, at, token, l).0 == w.db
    ensures TokenRequestByRefreshToken(w.db, at, token, l).1.value.FromRefreshToken?
            && KnownLogin(w, w.issued[token].login)
    ensures RequestFor(TokenRequestByRefreshToken(w.db, at, token, l).1.value.(scopes := scopes), w.issued[token].login)
  {
    assert RefreshMatches(w.db.refresh[token], w.issued[token]);
  }

  lemma {:induction false} RefusedGrantKeepsInv(w: World, at: int, token: string, seen: set<string>, l: Losses)
    requires Inv(w) && at >= w.now && "" !in seen
    ensures Inv(w.(now := at, seen := w.seen + seen, db := TokenRequestByRefreshToken(w.db, at, token, l).0))
  {
    hide TokensOk, RequestsOk;
    DropTokenKeepsTokens(w, at, token);
    TimeKeepsInv(w, at, seen);
    var w' := w.(now := at, db := w.db.(refresh := w.db.refresh - {token}));
    DroppedKeepsRequests(w, w');
    TimeKeepsInv(w', at, seen);
  }

  lemma {:induction false} DroppedKeepsRequests(w: World, w': World)
    requires RequestsOk(w) && w' == w.(now := w'.now, db := w.db.(refresh := w'.db.refresh))
    ensures RequestsOk(w')
  {
  }

  lemma {:induction false} RefreshGrantKeepsInv(w: World, at: int, token: string, tenant: string, proceed: bool,
                                                scopes: seq<string>, accessID: string, refreshID: string, l: Losses)
    requires Inv(w) && at >= w.now && Fresh(w, accessID) && Fresh(w, refreshID) && accessID != refreshID
             && token !in {"", accessID, refreshID}
    ensures Inv(ApplyRefreshGrant(w, at, token, tenant, proceed, scopes, accessID, refreshID, l))
  {
    hide Inv, TokenRequestByRefreshToken, CreateAccessAndRefreshTokens, PlusAccess, PlusPair, Rotating, RequestFor,
         KnownLogin, FreeLogin;
    var ids := {accessID, refreshID, token};
    RefusedGrantKeepsInv(w, at, token, ids, l);
    var found := TokenRequestByRefreshToken(w.db, at, token, l).1;
    if found.Some? && proceed {
      GrantIs(w, at, token, tenant, scopes, accessID, refreshID, l);
      LookupIsForLogin(w, at, token, scopes, l);
      var (req, login) := (found.value.(scopes := scopes), w.issued[token].login);
      if l.refreshPut {
        TimeKeepsInv(w, at, {});
        assert w.(now := at, seen := w.seen + {}) == w.(now := at);
        KnownLoginKept(w, at, login);
        PlusAccessKeepsInv(w, w.(now := at), at, req, tenant, login, accessID, l);
        SeenAfterAccess(w, w.(now := at), at, req, tenant, login, accessID, l);
        TimeKeepsInv(PlusAccess(w, w.(now := at), at, req, tenant, login, accessID, l), at, ids);
        assert w.seen + {accessID} + ids == w.seen + ids;
      } else {
        var base := Rotating(w, at, token, tenant, req, l);
        RotatingKeepsInv(w, at, token, tenant, req, l);
        RotatingFreesLogin(w, at, token, tenant, req, l);
        SeenAfterRotating(w, at, token, tenant, req, l);
        PlusPairKeepsInv(w, base, at, req, tenant, login, accessID, refreshID, l);
        SeenAfterPair(w, base, at, req, tenant, login, accessID, refreshID, l);
        TimeKeepsInv(PlusPair(w, base, at, req, tenant, login, accessID, refreshID, l), at, ids);
        assert w.seen + {token} + {accessID} + {refreshID} + ids == w.seen + ids;
      }
    }
  }

  lemma {:induction false} SeenAfterRotating(w: World, at: int, token: string, tenant: string, req: TokenRequest,
                                             l: Losses)
    requires token in w.issued
    ensures Rotating(w, at, token, tenant, req, l).seen == w.seen + {token}
            && Rotating(w, at, token, tenant, req, l).now == at
  {
  }

  // ---------- Every step ----------

  lemma {:induction false} SetClientKeepsInv(w: World, at: int, clients: map<string, ClientInfo>)
    requires Inv(w) && at >= w.now
    ensures Inv(w.(now := at, db := w.db.(clients := clients)))
  {
    ShrinkingKeepsTokens(w, w.(now := at, db := w.db.(clients := clients)));
    ShrinkingKeepsRequests(w, w.(now := at, db := w.db.(clients := clients)));
  }

  lemma {:induction false} StepKeepsInv(w: World, s: Step)
    requires Inv(w) && Enabled(w, s)
    ensures Inv(Apply(w, s))
  {
    hide Inv;
    match s.event
    case Authorize(id, clientID, scopes, tenant) => AuthorizeKeepsInv(w, s.at, id, clientID, scopes, tenant);
    case Complete(id, c) => CompleteKeepsInv(w, s.at, id, c);
    case IssueCode(id, code, noted) => IssueCodeKeepsInv(w, s.at, id, code, noted);
    case Exchange(code, tenant, offline, a, r, l) => ExchangeKeepsInv(w, s.at, code, tenant, offline, a, r, l);
    case RefreshGrant(token, tenant, proceed, scopes, a, r, l) =>
      RefreshGrantKeepsInv(w, s.at, token, tenant, proceed, scopes, a, r, l);
    case Logout(tenant, userID, clientID, kept, keptRows) =>
      LogoutKeepsInv(w, s.at, tenant, userID, clientID, kept, keptRows);
    case Revoke(token, clientID, blind, missed) => RevokeKeepsInv(w, s.at, token, clientID, blind, missed);
    case SetClient(_, _) => SetClientKeepsInv(w, s.at, Apply(w, s).db.clients);
    case Reap(row) => ReapKeepsInv(w, s.at, row);
  }

  lemma {:induction false} RunKeepsInv(w: World, steps: seq<Step>)
    requires Inv(w) && Legal(w, steps)
    ensures Inv(Exec(w, steps))
    decreases |steps|
  {
    hide Inv, Apply, Enabled;
    if steps == [] {
    } else {
      StepKeepsInv(w, steps[0]);
      RunKeepsInv(Apply(w, steps[0]), steps[1..]);
    }
  }
}
