/** What holds of every run of the OIDC token machine: tokens say what their own login
    said, a code is exchanged once, a login has one refresh token, a token once gone or
    refused stays so, and logout ends every token of the session it names; each unless a
    call was lost that the code does not insist on, and then exactly which. */
module OidcRuns {
  import opened Wrappers
  import opened Clock
  import opened OidcTokens

  lemma {:induction false} RunFromStartKeepsInv(start: int, steps: seq<Step>)
    requires Legal(Initial(start), steps)
    ensures Inv(Exec(Initial(start), steps))
  {
    RunKeepsInv(Initial(start), steps);
  }

  lemma {:induction false} ExecPrefixNext(w: World, steps: seq<Step>, i: nat)
    requires 0 < i <= |steps|
    ensures Exec(w, steps[..i]) == Exec(Apply(w, steps[0]), steps[1..][..i - 1])
  {
    hide Apply;
    assert steps[..i][0] == steps[0] && steps[..i][1..] == steps[1..][..i - 1];
  }

  // ---------- Provenance ----------

  predicate CompletedIn(steps: seq<Step>, login: Login) {
    exists i :: 0 <= i < |steps| && steps[i] == Step(login.authTime, Complete(login.requestID, login.claims))
  }

  predicate AuthorizedIn(steps: seq<Step>, id: string, clientID: string) {
    exists i :: 0 <= i < |steps| && steps[i].event.Authorize? && steps[i].event.id == id
      && steps[i].event.clientID == clientID
  }

  lemma {:induction false} GrantsKeepRequests(w: World, s: Step)
    ensures s.event.Exchange? || s.event.RefreshGrant?
            ==> Apply(w, s).created == w.created && Apply(w, s).logins == w.logins
  {
    hide CreateAccessAndRefreshTokens, CreateAccessToken, DeleteAuthRequest, TokenRequestByRefreshToken;
  }

  lemma {:induction false} NewLoginIsCompletion(w: World, s: Step, login: Login)
    requires Inv(w) && login in Apply(w, s).logins && login !in w.logins
    ensures s == Step(login.authTime, Complete(login.requestID, login.claims))
    ensures login.requestID in w.created && w.created[login.requestID] == login.clientID
  {
    hide TokensOk, ApplyExchange, ApplyRefreshGrant;
    GrantsKeepRequests(w, s);
  }

  lemma {:induction false} NewRequestIsAuthorized(w: World, s: Step, id: string)
    requires Enabled(w, s) && Inv(w) && id in Apply(w, s).created
    ensures if id in w.created then Apply(w, s).created[id] == w.created[id]
            else s.event.Authorize? && s.event.id == id && s.event.clientID == Apply(w, s).created[id]
  {
    hide TokensOk, ApplyExchange, ApplyRefreshGrant;
    GrantsKeepRequests(w, s);
  }

  lemma {:induction false} RequestsComeFromAuthorizations(w: World, steps: seq<Step>, id: string)
    requires Inv(w) && Legal(w, steps) && id in Exec(w, steps).created
    ensures (id in w.created && w.created[id] == Exec(w, steps).created[id])
            || AuthorizedIn(steps, id, Exec(w, steps).created[id])
    decreases |steps|
  {
    hide Inv, Enabled, Apply;
    if steps == [] {
    } else {
      StepKeepsInv(w, steps[0]);
      RequestsComeFromAuthorizations(Apply(w, steps[0]), steps[1..], id);
      if id in Apply(w, steps[0]).created { NewRequestIsAuthorized(w, steps[0], id); }
      assert forall i :: 0 <= i < |steps[1..]| ==> steps[1..][i] == steps[i + 1];
    }
  }

  lemma {:induction false} LoginsComeFromCompletions(w: World, steps: seq<Step>, login: Login)
    requires Inv(w) && Legal(w, steps) && login in Exec(w, steps).logins
    ensures login in w.logins || CompletedIn(steps, login)
    decreases |steps|
  {
    hide Inv, Enabled, Apply;
    if steps == [] {
    } else {
      StepKeepsInv(w, steps[0]);
      LoginsComeFromCompletions(Apply(w, steps[0]), steps[1..], login);
      if login in Apply(w, steps[0]).logins && login !in w.logins { NewLoginIsCompletion(w, steps[0], login); }
      assert forall i :: 0 <= i < |steps[1..]| ==> steps[1..][i] == steps[i + 1];
    }
  }

  /** The login's client is the client its auth request was created for. */
  lemma {:induction false} LoginsKeepTheirClient(w: World, steps: seq<Step>, login: Login)
    requires Inv(w) && Legal(w, steps) && login in Exec(w, steps).logins
    requires forall l :: l in w.logins ==> l.requestID in w.created && w.created[l.requestID] == l.clientID
    ensures login.requestID in Exec(w, steps).created && Exec(w, steps).created[login.requestID] == login.clientID
    decreases |steps|
  {
    hide Inv, Enabled, Apply;
    if steps == [] {
    } else {
      var w' := Apply(w, steps[0]);
      StepKeepsInv(w, steps[0]);
      forall l | l in w'.logins ensures l.requestID in w'.created && w'.created[l.requestID] == l.clientID {
        if l !in w.logins { NewLoginIsCompletion(w, steps[0], l); }
        StepKeepsCreated(w, steps[0]);
        NewRequestIsAuthorized(w, steps[0], l.requestID);
      }
      LoginsKeepTheirClient(w', steps[1..], login);
    }
  }

  lemma {:induction false} StepKeepsCreated(w: World, s: Step)
    ensures w.created.Keys <= Apply(w, s).created.Keys
  {
    hide ApplyExchange, ApplyRefreshGrant;
    GrantsKeepRequests(w, s);
  }

  /** Every login tokens were issued to was completed in the run, for the client it was
      authorized for. */
  lemma {:induction false} IssuedLoginsHappened(start: int, steps: seq<Step>, t: string)
    requires Legal(Initial(start), steps) && t in Exec(Initial(start), steps).issued
    ensures var login := Exec(Initial(start), steps).issued[t].login;
            CompletedIn(steps, login) && AuthorizedIn(steps, login.requestID, login.clientID)
  {
    hide Apply, Enabled, Exec, Legal;
    var w := Exec(Initial(start), steps);
    RunFromStartKeepsInv(start, steps);
    var login := w.issued[t].login;
    assert login in w.logins;
    LoginsComeFromCompletions(Initial(start), steps, login);
    LoginsKeepTheirClient(Initial(start), steps, login);
    RequestsComeFromAuthorizations(Initial(start), steps, login.requestID);
  }

  /** Every stored refresh token carries exactly the subject, client, audience, AMR,
      authentication time and claims of the login it descends from, a completed login of
      the run for the client it was authorized for, however often the token was rotated. */
  lemma {:induction false} RefreshTokensCarryTheirLogin(start: int, steps: seq<Step>, t: string)
    requires Legal(Initial(start), steps) && t in Exec(Initial(start), steps).db.refresh
    ensures var w := Exec(Initial(start), steps);
            && t in w.issued && RefreshMatches(w.db.refresh[t], w.issued[t])
            && CompletedIn(steps, w.issued[t].login)
            && AuthorizedIn(steps, w.issued[t].login.requestID, w.issued[t].login.clientID)
  {
    hide Apply, Enabled, Exec, Legal, RefreshMatches, CompletedIn, AuthorizedIn;
    RunFromStartKeepsInv(start, steps);
    RecordsMatch(Exec(Initial(start), steps), t);
    IssuedLoginsHappened(start, steps, t);
  }

  /** The same of every stored access token. */
  lemma {:induction false} AccessTokensCarryTheirLogin(start: int, steps: seq<Step>, t: string)
    requires Legal(Initial(start), steps) && t in Exec(Initial(start), steps).db.access
    ensures var w := Exec(Initial(start), steps);
            && t in w.issued && AccessMatches(w.db.access[t], w.issued[t])
            && CompletedIn(steps, w.issued[t].login)
            && AuthorizedIn(steps, w.issued[t].login.requestID, w.issued[t].login.clientID)
  {
    hide Apply, Enabled, Exec, Legal, AccessMatches, CompletedIn, AuthorizedIn;
    RunFromStartKeepsInv(start, steps);
    RecordsMatch(Exec(Initial(start), steps), t);
    IssuedLoginsHappened(start, steps, t);
  }

  lemma {:induction false} RecordsMatch(w: World, t: string)
    requires Inv(w)
    ensures t in w.db.refresh ==> t in w.issued && RefreshMatches(w.db.refresh[t], w.issued[t])
    ensures t in w.db.access ==> t in w.issued && AccessMatches(w.db.access[t], w.issued[t])
  {
  }

  // ---------- Lineage ----------

  /** `s` issues `t`: out of an auth request, to the login that request records; or out of a
      stored refresh token, to the login that token descends from. */
  ghost predicate IssuedBy(w: World, s: Step, t: string, i: Issue) {
    match s.event
    case Exchange(code, tenant, _, a, r, _) =>
      && (t == a || t == r) && i.tenant == tenant && i.kind == (if t == a then Access else Refresh)
      && AuthRequestByCode(w.db, code).Some?
      && i.login == LoginOf(w.db.codes[code].requestID, w.db.authReqs[w.db.codes[code].requestID])
    case RefreshGrant(token, tenant, _, _, a, r, _) =>
      && (t == a || t == r) && i.tenant == tenant && i.kind == (if t == a then Access else Refresh)
      && token in w.db.refresh && token in w.issued && i.login == w.issued[token].login
    case _ => false
  }

  lemma {:induction false} StepIssues(w: World, s: Step, t: string)
    requires IssuesSeen(w) && Enabled(w, s) && t in Apply(w, s).issued
    ensures if t in w.issued then Apply(w, s).issued[t] == w.issued[t] else IssuedBy(w, s, t, Apply(w, s).issued[t])
  {
    hide CreateAccessAndRefreshTokens, CreateAccessToken, DeleteAuthRequest, TerminateSession, RevokeToken, RemoveRow,
         SaveAuthCode, CompleteAuthRequest, CreateAuthRequest, RowReapable, Orphans, LoginOf;
  }

  ghost predicate IssuesSeen(w: World) { w.issued.Keys <= w.seen }

  lemma {:induction false} InvIssuesSeen(w: World)
    requires Inv(w)
    ensures IssuesSeen(w)
  {
  }

  /** Once issued, a token's login never changes; and every token of a run was issued by one
      of its steps, to the login of the request exchanged or of the token presented there. */
  lemma {:induction false} TokensAreIssuedByTheirStep(w: World, steps: seq<Step>, t: string)
    requires Inv(w) && Legal(w, steps) && t in Exec(w, steps).issued
    ensures if t in w.issued then Exec(w, steps).issued[t] == w.issued[t]
            else exists i :: 0 <= i < |steps| && IssuedBy(Exec(w, steps[..i]), steps[i], t, Exec(w, steps).issued[t])
    decreases |steps|
  {
    hide Inv, Apply, Enabled, IssuedBy, IssuesSeen;
    if steps == [] {
    } else {
      var (w', rest) := (Apply(w, steps[0]), steps[1..]);
      InvIssuesSeen(w);
      StepKeepsInv(w, steps[0]);
      TokensAreIssuedByTheirStep(w', rest, t);
      StepKeepsIssued(w, steps[0], t);
      if t in w'.issued {
        StepIssues(w, steps[0], t);
        assert Exec(w, steps[..0]) == w;
      } else {
        var i :| 0 <= i < |rest| && IssuedBy(Exec(w', rest[..i]), rest[i], t, Exec(w, steps).issued[t]);
        ExecPrefixNext(w, steps, i + 1);
        assert IssuedBy(Exec(w, steps[..i + 1]), steps[i + 1], t, Exec(w, steps).issued[t]);
      }
    }
  }

  lemma {:induction false} StepKeepsIssued(w: World, s: Step, t: string)
    ensures t in w.issued ==> t in Apply(w, s).issued
  {
    hide CreateAccessAndRefreshTokens, CreateAccessToken, DeleteAuthRequest, TerminateSession, RevokeToken, RemoveRow,
         SaveAuthCode, CompleteAuthRequest, CreateAuthRequest, RowReapable, Orphans, LoginOf,
         TokenRequestByRefreshToken;
  }

  /** New tokens live as their own client is configured: an access token between a minute and a
      day, or an hour when that is unset or the client cannot be looked up; a refresh token thirty
      days in those cases. */
  lemma {:induction false} NewTokensLiveAsConfigured(db: Db, at: int, req: TokenRequest, failed: bool)
    ensures var known := !failed && req.GetClientID() != "" && req.GetClientID() in db.clients;
            var sec := if known then db.clients[req.GetClientID()].accessLifetimeSec else 0;
            var life := if sec == 0 then 3600 else if sec < 60 then 60 else if sec > 86400 then 86400 else sec;
            NewAccessToken(ClientOf(db, req.GetClientID(), failed), at, req).expiresAt == at + life * SECOND
    ensures var known := !failed && req.GetClientID() != "" && req.GetClientID() in db.clients;
            var sec := if known then db.clients[req.GetClientID()].refreshLifetimeSec else 0;
            NewRefreshToken(ClientOf(db, req.GetClientID(), failed), at, req).expiresAt
            == at + (if sec > 0 then sec else 2592000) * SECOND
  {
  }

  /** A granted refresh hands the presented token's whole record on, but for the scopes
      asked for and the new lifetimes, which are those configured for its client. */
  lemma {:induction false} GrantPassesLogin(w: World, at: int, token: string, tenant: string, scopes: seq<string>,
                                            a: string, r: string, l: Losses)
    requires Inv(w) && Enabled(w, Step(at, RefreshGrant(token, tenant, true, scopes, a, r, l)))
    requires TokenRequestByRefreshToken(w.db, at, token, l).1.Some?
    ensures token in w.issued && token in w.db.refresh && w.db.refresh[token].clientID in w.db.clients
    ensures var (w', was) := (ApplyRefreshGrant(w, at, token, tenant, true, scopes, a, r, l), w.db.refresh[token]);
            && a in w'.issued && w'.issued[a] == Issue(Access, tenant, w.issued[token].login)
            && a in w'.db.access && AccessMatches(w'.db.access[a], w.issued[token].(kind := Access))
            && w'.db.access[a].Claims() == was.Claims() && w'.db.access[a].scopes == scopes
            && at + 60 * SECOND <= w'.db.access[a].expiresAt <= at + 86400 * SECOND
            && (!l.accessClient && was.clientID != "" && 60 <= w.db.clients[was.clientID].accessLifetimeSec <= 86400
                ==> w'.db.access[a].expiresAt == at + w.db.clients[was.clientID].accessLifetimeSec * SECOND)
            && (!l.refreshPut ==>
                  && r in w'.issued && w'.issued[r] == Issue(Refresh, tenant, w.issued[token].login)
                  && r in w'.db.refresh
                  && w'.db.refresh[r].(ttl := was.ttl, expiresAt := was.expiresAt, scopes := was.scopes) == was
                  && w'.db.refresh[r].scopes == scopes
                  && (!l.refreshClient && was.clientID != "" && w.db.clients[was.clientID].refreshLifetimeSec > 0
                      ==> w'.db.refresh[r].expiresAt == at + w.db.clients[was.clientID].refreshLifetimeSec * SECOND))
  {
    hide Inv, CreateAccessAndRefreshTokens, NewAccessToken, NewRefreshToken, AccessMatches, RefreshMatches;
    LookupIsForLogin(w, at, token, scopes, l);
    RecordsMatch(w, token);
    var req := TokenRequestByRefreshToken(w.db, at, token, l).1.value.(scopes := scopes);
    CreateWritesOnly(w.db, at, tenant, req, token, a, r, l);
    NewTokensLiveAsConfigured(w.db, at, req, l.accessClient);
    NewTokensLiveAsConfigured(w.db, at, req, l.refreshClient);
    GrantedRecords(w.db.refresh[token], at, scopes, ClientOf(w.db, req.GetClientID(), l.accessClient),
                   ClientOf(w.db, req.GetClientID(), l.refreshClient), tenant, w.issued[token]);
  }

  lemma {:induction false} GrantedRecords(was: RefreshToken, at: int, scopes: seq<string>,
                                          forAccess: Option<ClientInfo>, forRefresh: Option<ClientInfo>,
                                          tenant: string, i: Issue)
    requires RefreshMatches(was, i)
    ensures var req :=
            FromRefreshToken(was.clientID, was.subject, was.audience, scopes, was.amr, was.authTime, was.Claims());
            var (access, refresh) := (NewAccessToken(forAccess, at, req), NewRefreshToken(forRefresh, at, req));
            && AccessMatches(access, i.(kind := Access)) && access.Claims() == was.Claims() && access.scopes == scopes
            && refresh.(ttl := was.ttl, expiresAt := was.expiresAt, scopes := was.scopes) == was
            && refresh.scopes == scopes
  {
  }

  lemma {:induction false} NewTokensScoped(client: Option<ClientInfo>, at: int, req: AuthRequest)
    ensures NewAccessToken(client, at, FromAuthRequest(req)).scopes == req.scopes
    ensures NewRefreshToken(client, at, FromAuthRequest(req)).scopes == req.scopes
  {
  }

  /** An exchange gives its tokens the login and the scopes of the exchanged request. */
  lemma {:induction false} ExchangePassesLogin(w: World, at: int, code: string, tenant: string, offline: bool,
                                               a: string, r: string, l: Losses)
    requires Inv(w) && Enabled(w, Step(at, Exchange(code, tenant, offline, a, r, l)))
             && AuthRequestByCode(w.db, code).Some?
    ensures var id := w.db.codes[code].requestID;
            var (w', login) := (ApplyExchange(w, at, code, tenant, offline, a, r, l), LoginOf(id, w.db.authReqs[id]));
            && login in w.logins
            && a in w'.issued && w'.issued[a] == Issue(Access, tenant, login)
            && a in w'.db.access && AccessMatches(w'.db.access[a], w'.issued[a])
            && w'.db.access[a].scopes == w.db.authReqs[id].scopes
            && at + 60 * SECOND <= w'.db.access[a].expiresAt <= at + 86400 * SECOND
            && (offline && !l.refreshPut ==>
                  && r in w'.issued && w'.issued[r] == Issue(Refresh, tenant, login)
                  && r in w'.db.refresh && RefreshMatches(w'.db.refresh[r], w'.issued[r])
                  && w'.db.refresh[r].scopes == w.db.authReqs[id].scopes && at < w'.db.refresh[r].expiresAt)
  {
    hide Inv, CreateAccessAndRefreshTokens, CreateAccessToken, NewAccessToken, NewRefreshToken, AccessMatches,
         RefreshMatches, RequestFor;
    CodeIsForLogin(w, code);
    var id := w.db.codes[code].requestID;
    var (req, login) := (FromAuthRequest(w.db.authReqs[id]), LoginOf(id, w.db.authReqs[id]));
    CreateWritesOnly(w.db, at, tenant, req, "", a, r, l);
    AccessWrites(w.db, at, tenant, req, a, l);
    NewTokensMatch(ClientOf(w.db, req.GetClientID(), l.accessClient), at, req, tenant, login);
    NewTokensMatch(ClientOf(w.db, req.GetClientID(), l.refreshClient), at, req, tenant, login);
    NewTokensScoped(ClientOf(w.db, req.GetClientID(), l.accessClient), at, w.db.authReqs[id]);
    NewTokensScoped(ClientOf(w.db, req.GetClientID(), l.refreshClient), at, w.db.authReqs[id]);
    NewTokensLiveAsConfigured(w.db, at, req, l.accessClient);
    NewTokensLiveAsConfigured(w.db, at, req, l.refreshClient);
  }

  // ---------- What a step may write ----------

  /** A step writes token records, codes and auth requests only under ids never seen before;
      an auth request still there keeps its client. */
  ghost predicate OnlyFreshWritten(w: World, w': World) {
    && w.seen <= w'.seen
    && (forall t :: t in w.seen && t in w'.db.access ==> t in w.db.access && w'.db.access[t] == w.db.access[t])
    && (forall t :: t in w.seen && t in w'.db.refresh ==> t in w.db.refresh && w'.db.refresh[t] == w.db.refresh[t])
    && (forall c :: c in w.seen && c in w'.db.codes ==> c in w.db.codes && w'.db.codes[c] == w.db.codes[c])
    && (forall id :: id in w.seen && id in w'.db.authReqs ==> id in w.db.authReqs)
  }

  lemma {:induction false} IndexingTouchesIndexOnly(db: Db, tenant: string, subject: string, clientID: string,
                                                    kind: TokenKind, ref: string, ttl: int, lost: bool)
    ensures IndexSessionToken(db, tenant, subject, clientID, kind, ref, ttl, lost).(index := db.index) == db
    ensures DeleteSessionTokenIndex(db, tenant, subject, clientID, ref, lost).(index := db.index) == db
  {
  }

  lemma {:induction false} AccessWrites(db: Db, at: int, tenant: string, req: TokenRequest, a: string, l: Losses)
    ensures CreateAccessToken(db, at, tenant, req, a, l).(index := db.index)
            == db.(access := db.access[a := NewAccessToken(ClientOf(db, req.GetClientID(), l.accessClient), at, req)])
  {
    hide NewAccessToken;
  }

  lemma {:induction false} RefreshWrites(db: Db, at: int, tenant: string, req: TokenRequest, current: string,
                                         r: string, l: Losses)
    ensures CreateRefreshToken(db, at, tenant, req, current, r, l).(index := db.index)
            == var written :=
               db.refresh[r := NewRefreshToken(ClientOf(db, req.GetClientID(), l.refreshClient), at, req)];
               db.(refresh := if current != "" && current != r && !l.presented then written - {current} else written)
  {
    hide NewRefreshToken, ClientOf, IndexSessionToken, DeleteSessionTokenIndex;
    var item := NewRefreshToken(ClientOf(db, req.GetClientID(), l.refreshClient), at, req);
    var written := db.(refresh := db.refresh[r := item]);
    IndexingTouchesIndexOnly(written, tenant, req.GetSubject(), req.GetClientID(), Refresh, r, item.ttl,
                             l.refreshIndex);
    var indexed :=
      IndexSessionToken(written, tenant, req.GetSubject(), req.GetClientID(), Refresh, r, item.ttl, l.refreshIndex);
    IndexingTouchesIndexOnly(if l.presented then indexed else indexed.(refresh := indexed.refresh - {current}),
                             tenant, req.GetSubject(), req.GetClientID(), Refresh, current, 0, l.presentedIndex);
  }

  lemma {:induction false} CreateWritesOnly(db: Db, at: int, tenant: string, req: TokenRequest, current: string,
                                            a: string, r: string, l: Losses)
    ensures var db' := CreateAccessAndRefreshTokens(db, at, tenant, req, current, a, r, l);
            && db'.access == db.access[a := NewAccessToken(ClientOf(db, req.GetClientID(), l.accessClient), at, req)]
            && db'.refresh
               == (var written :=
                   db.refresh[r := NewRefreshToken(ClientOf(db, req.GetClientID(), l.refreshClient), at, req)];
                               if l.refreshPut then db.refresh
                               else if current != "" && current != r && !l.presented then written - {current}
                                 else written)
            && db'.authReqs == db.authReqs && db'.codes == db.codes && db'.clients == db.clients
  {
    hide CreateAccessToken, CreateRefreshToken, NewRefreshToken, NewAccessToken;
    AccessWrites(db, at, tenant, req, a, l);
    RefreshWrites(CreateAccessToken(db, at, tenant, req, a, l), at, tenant, req, current, r, l);
  }

  lemma {:induction false} ExchangeWritesOnlyFresh(w: World, at: int, code: string, tenant: string, offline: bool,
                                                   a: string, r: string, l: Losses)
    requires Fresh(w, a) && Fresh(w, r)
    ensures OnlyFreshWritten(w, ApplyExchange(w, at, code, tenant, offline, a, r, l))
  {
    hide CreateAccessAndRefreshTokens, CreateAccessToken, NewAccessToken, NewRefreshToken;
    if AuthRequestByCode(w.db, code).Some? {
      var req := FromAuthRequest(w.db.authReqs[AuthRequestByCode(w.db, code).value]);
      CreateWritesOnly(w.db, at, tenant, req, "", a, r, l);
      AccessWrites(w.db, at, tenant, req, a, l);
    }
  }

  lemma {:induction false} GrantWritesOnlyFresh(w: World, at: int, token: string, tenant: string, proceed: bool,
                                                scopes: seq<string>, a: string, r: string, l: Losses)
    requires Fresh(w, a) && Fresh(w, r)
    ensures OnlyFreshWritten(w, ApplyRefreshGrant(w, at, token, tenant, proceed, scopes, a, r, l))
  {
    hide CreateAccessAndRefreshTokens, NewAccessToken, NewRefreshToken;
    var (db, found) := TokenRequestByRefreshToken(w.db, at, token, l);
    if found.Some? {
      CreateWritesOnly(db, at, tenant, found.value.(scopes := scopes), token, a, r, l);
    }
  }

  lemma {:induction false} RequestStepsWriteNoTokens(w: World, s: Step)
    requires Enabled(w, s) && (s.event.Authorize? || s.event.Complete? || s.event.IssueCode?)
    ensures OnlyFreshWritten(w, Apply(w, s))
  {
    hide LoginOf;
  }

  lemma {:induction false} RevocationOnlyRemoves(db: Db, token: string, clientID: string, blind: bool, missed: bool)
    ensures var db' := RevokeToken(db, token, clientID, blind, missed);
            && db' == db.(access := db'.access, refresh := db'.refresh)
            && db'.access in {db.access, db.access - {token}} && db'.refresh in {db.refresh, db.refresh - {token}}
  {
  }

  lemma {:induction false} SweepOnlyRemoves(db: Db, row: Row)
    ensures var db' := RemoveRow(db, row);
            && SubMap(db'.access, db.access) && SubMap(db'.refresh, db.refresh)
            && SubMap(db'.codes, db.codes) && SubMap(db'.authReqs, db.authReqs)
  {
  }

  lemma {:induction false} RemovalStepsWriteNoTokens(w: World, s: Step)
    requires s.event.Revoke? || s.event.SetClient? || s.event.Reap?
    ensures OnlyFreshWritten(w, Apply(w, s))
  {
    hide RevokeToken, RemoveRow;
    match s.event
    case Revoke(token, clientID, blind, missed) => RevocationOnlyRemoves(w.db, token, clientID, blind, missed);
    case Reap(row) => SweepOnlyRemoves(w.db, row);
    case _ =>
  }

  lemma {:induction false} StepWritesOnlyFresh(w: World, s: Step)
    requires Enabled(w, s)
    ensures OnlyFreshWritten(w, Apply(w, s))
  {
    hide ApplyExchange, ApplyRefreshGrant, TerminateSession, SaveAuthCode, CreateAuthRequest, CompleteAuthRequest,
         RevokeToken, RemoveRow, RowReapable, Orphans;
    match s.event
    case Exchange(code, tenant, offline, a, r, l) => ExchangeWritesOnlyFresh(w, s.at, code, tenant, offline, a, r, l);
    case RefreshGrant(token, tenant, proceed, scopes, a, r, l) =>
      GrantWritesOnlyFresh(w, s.at, token, tenant, proceed, scopes, a, r, l);
    case Logout(tenant, userID, clientID, kept, keptRows) =>
      LogoutOnlyRemoves(w.db, tenant, userID, clientID, kept, keptRows);
    case Authorize(_, _, _, _) => RequestStepsWriteNoTokens(w, s);
    case Complete(_, _) => RequestStepsWriteNoTokens(w, s);
    case IssueCode(_, _, _) => RequestStepsWriteNoTokens(w, s);
    case _ => RemovalStepsWriteNoTokens(w, s);
  }

  lemma {:induction false} StepMovesTimeOn(w: World, s: Step)
    requires Enabled(w, s)
    ensures w.now <= Apply(w, s).now
  {
    hide CreateAccessAndRefreshTokens, CreateAccessToken, DeleteAuthRequest, TokenRequestByRefreshToken;
  }

  lemma {:induction false} RunWritesOnlyFresh(w: World, steps: seq<Step>)
    requires Legal(w, steps)
    ensures OnlyFreshWritten(w, Exec(w, steps)) && w.now <= Exec(w, steps).now
    decreases |steps|
  {
    hide Apply, Enabled;
    if steps == [] {
    } else {
      StepWritesOnlyFresh(w, steps[0]);
      StepMovesTimeOn(w, steps[0]);
      RunWritesOnlyFresh(Apply(w, steps[0]), steps[1..]);
    }
  }

  // ---------- Codes are exchanged once ----------

  ghost predicate CodeWorksLater(w: World, code: string) {
    exists steps: seq<Step> :: Legal(w, steps) && AuthRequestByCode(Exec(w, steps).db, code).Some?
  }

  /** After an exchange that ran to its end the code works again, then or ever, exactly when
      the auth request's delete was lost and the code was not deleted either: its own delete
      was lost, or the request did not name it. */
  lemma {:induction false} CodeWorksAgainIff(w: World, at: int, code: string, tenant: string, offline: bool, a: string,
                                             r: string, l: Losses)
    requires Inv(w) && Enabled(w, Step(at, Exchange(code, tenant, offline, a, r, l)))
    requires AuthRequestByCode(w.db, code).Some? && !(offline && l.refreshPut)
    ensures CodeWorksLater(ApplyExchange(w, at, code, tenant, offline, a, r, l), code)
            <==> l.request && (l.code || w.db.authReqs[w.db.codes[code].requestID].authCode != code)
  {
    hide Inv, CreateAccessAndRefreshTokens, CreateAccessToken, Legal, Exec;
    var (w', id) := (ApplyExchange(w, at, code, tenant, offline, a, r, l), w.db.codes[code].requestID);
    var req := FromAuthRequest(w.db.authReqs[id]);
    CodesAndRequestsSeen(w, code);
    CreateWritesOnly(w.db, at, tenant, req, "", a, r, l);
    AccessWrites(w.db, at, tenant, req, a, l);
    assert code in w'.db.codes && id in w'.db.authReqs <==> l.request && (l.code || w.db.authReqs[id].authCode != code);
    NothingRun(w');
    if l.request && (l.code || w.db.authReqs[id].authCode != code) {
      assert Legal(w', []) && AuthRequestByCode(Exec(w', []).db, code).Some?;
    }
    forall steps | Legal(w', steps) && AuthRequestByCode(Exec(w', steps).db, code).Some?
      ensures code in w'.db.codes && id in w'.db.authReqs
    {
      RunWritesOnlyFresh(w', steps);
    }
  }

  lemma {:induction false} NothingRun(w: World)
    ensures Legal(w, []) && Exec(w, []) == w
  {
  }

  lemma {:induction false} CodesAndRequestsSeen(w: World, code: string)
    requires Inv(w) && AuthRequestByCode(w.db, code).Some?
    ensures code in w.seen && w.db.codes[code].requestID in w.seen && code != ""
  {
  }

  // ---------- One refresh token for a login ----------

  /** The step could not delete what would have ended the login's older refresh token, or
      the auth request it came from. */
  predicate LosesEnding(w: World, e: Event, id: string) {
    match e
    case Exchange(code, _, _, _, _, l) => AuthRequestByCode(w.db, code) == Some(id) && l.request
    case RefreshGrant(token, _, _, _, _, _, l) => token in w.issued && w.issued[token].login.requestID == id
      && l.presented
    case _ => false
  }

  lemma {:induction false} StepForks(w: World, s: Step, id: string)
    requires id in Apply(w, s).forked && id !in w.forked
    ensures LosesEnding(w, s.event, id)
  {
    hide CreateAccessAndRefreshTokens, CreateAccessToken, DeleteAuthRequest, TokenRequestByRefreshToken,
         AuthRequestByCode;
  }

  lemma {:induction false} ForkedWereLost(w: World, steps: seq<Step>, id: string)
    requires id in Exec(w, steps).forked && id !in w.forked
    ensures exists i :: 0 <= i < |steps| && LosesEnding(Exec(w, steps[..i]), steps[i].event, id)
    decreases |steps|
  {
    hide Apply, LosesEnding;
    if steps == [] {
      assert false;
    } else if id in Apply(w, steps[0]).forked {
      StepForks(w, steps[0], id);
      assert Exec(w, steps[..0]) == w;
    } else {
      var (w', rest) := (Apply(w, steps[0]), steps[1..]);
      ForkedWereLost(w', rest, id);
      var i :| 0 <= i < |rest| && LosesEnding(Exec(w', rest[..i]), rest[i].event, id);
      ExecPrefixNext(w, steps, i + 1);
      assert LosesEnding(Exec(w, steps[..i + 1]), steps[i + 1].event, id);
    }
  }

  /** Two stored refresh tokens never descend from the same login, unless a step on the way
      lost a delete of that login's own. */
  lemma {:induction false} OneRefreshTokenPerLogin(start: int, steps: seq<Step>, a: string, b: string)
    requires Legal(Initial(start), steps)
    requires var w := Exec(Initial(start), steps);
             && a in w.db.refresh && b in w.db.refresh && a in w.issued && b in w.issued
             && w.issued[a].login.requestID == w.issued[b].login.requestID
    ensures || a == b
            || exists i :: && 0 <= i < |steps|
                           && LosesEnding(Exec(Initial(start), steps[..i]), steps[i].event,
                                          Exec(Initial(start), steps).issued[a].login.requestID)
  {
    hide Apply, Enabled, Exec, Legal, LosesEnding;
    RunFromStartKeepsInv(start, steps);
    var w := Exec(Initial(start), steps);
    if w.issued[a].login.requestID in w.forked { ForkedWereLost(Initial(start), steps, w.issued[a].login.requestID); }
  }

  /** A new refresh token is accepted at once, if its application is active. */
  lemma {:induction false} NewTokenAccepted(db: Db, at: int, req: TokenRequest, client: Option<ClientInfo>, r: string)
    requires r in db.refresh && db.refresh[r] == NewRefreshToken(client, at, req)
             && ClientActive(db, req.GetClientID(), false)
    ensures TokenRequestByRefreshToken(db, at, r, NO_LOSSES).1.Some?
  {
  }

  /** After a granted rotation the new token is accepted; the presented one beside it, exactly
      when its delete was lost. */
  lemma {:induction false} RotationLeavesTwoIff(w: World, at: int, token: string, tenant: string, scopes: seq<string>,
                                                a: string, r: string, l: Losses)
    requires Inv(w) && Enabled(w, Step(at, RefreshGrant(token, tenant, true, scopes, a, r, l))) && !l.refreshPut
    requires TokenRequestByRefreshToken(w.db, at, token, l).1.Some?
    ensures var w' := ApplyRefreshGrant(w, at, token, tenant, true, scopes, a, r, l);
            && TokenRequestByRefreshToken(w'.db, at, r, NO_LOSSES).1.Some?
            && (TokenRequestByRefreshToken(w'.db, at, token, NO_LOSSES).1.Some? <==> l.presented)
  {
    hide Inv, CreateAccessAndRefreshTokens, NewRefreshToken, NewAccessToken;
    LookupIsForLogin(w, at, token, scopes, l);
    var req := TokenRequestByRefreshToken(w.db, at, token, l).1.value.(scopes := scopes);
    CreateWritesOnly(w.db, at, tenant, req, token, a, r, l);
    NewTokenAccepted(ApplyRefreshGrant(w, at, token, tenant, true, scopes, a, r, l).db, at, req,
                     ClientOf(w.db, req.GetClientID(), l.refreshClient), r);
  }

  /** Two lookups before either issue break the lineage in two: run interleaved, one
      token yields two live refresh tokens. */
  lemma {:induction false} InterleavedRotationsFork(db: Db, at: int, token: string, tenant: string, a: string,
                                                    r: string, l: Losses, a': string, r': string, l': Losses)
    requires TokenRequestByRefreshToken(db, at, token, l).1.Some? && !l.refreshPut && !l'.refreshPut
    requires r != r' && token !in {"", r, r'}
    ensures var req := TokenRequestByRefreshToken(db, at, token, l).1.value;
            var first := CreateAccessAndRefreshTokens(db, at, tenant, req, token, a, r, l);
            var second := CreateAccessAndRefreshTokens(first, at, tenant, req, token, a', r', l');
            TokenRequestByRefreshToken(second, at, r, NO_LOSSES).1.Some?
              && TokenRequestByRefreshToken(second, at, r', NO_LOSSES).1.Some?
  {
    hide CreateAccessAndRefreshTokens, NewRefreshToken, NewAccessToken, ClientOf;
    var req := TokenRequestByRefreshToken(db, at, token, l).1.value;
    var first := CreateAccessAndRefreshTokens(db, at, tenant, req, token, a, r, l);
    var second := CreateAccessAndRefreshTokens(first, at, tenant, req, token, a', r', l');
    CreateWritesOnly(db, at, tenant, req, token, a, r, l);
    CreateWritesOnly(first, at, tenant, req, token, a', r', l');
    NewTokenAccepted(second, at, req, ClientOf(db, req.GetClientID(), l.refreshClient), r);
    NewTokenAccepted(second, at, req, ClientOf(first, req.GetClientID(), l'.refreshClient), r');
  }

  // ---------- Refused for ever ----------

  /** In some continuation the token is accepted. */
  ghost predicate AcceptedLater(w: World, token: string) {
    exists steps: seq<Step>, later: int ::
      Legal(w, steps) && Exec(w, steps).now <= later
        && TokenRequestByRefreshToken(Exec(w, steps).db, later, token, NO_LOSSES).1.Some?
  }

  /** A refresh token seen before is accepted in some continuation exactly when its record is
      there and not expired: only the application's status can change in its favour. */
  lemma {:induction false} AcceptedLaterIff(w: World, token: string)
    requires token in w.seen
    ensures AcceptedLater(w, token) <==> token in w.db.refresh && w.now <= w.db.refresh[token].expiresAt
  {
    hide Apply, Exec, Legal;
    if token in w.db.refresh && !w.db.refresh[token].Expired(w.now) {
      var enable := Step(w.now, SetClient(w.db.refresh[token].clientID, Some(ClientInfo(true, 0, 0))));
      Enabling(w, enable, token);
    }
    forall steps, later: int
      | Legal(w, steps) && Exec(w, steps).now <= later
        && TokenRequestByRefreshToken(Exec(w, steps).db, later, token, NO_LOSSES).1.Some?
      ensures token in w.db.refresh && !w.db.refresh[token].Expired(w.now)
    {
      RunWritesOnlyFresh(w, steps);
    }
  }

  lemma {:induction false} Enabling(w: World, enable: Step, token: string)
    requires token in w.db.refresh && !w.db.refresh[token].Expired(w.now)
    requires enable == Step(w.now, SetClient(w.db.refresh[token].clientID, Some(ClientInfo(true, 0, 0))))
    ensures AcceptedLater(w, token)
  {
    hide TokenRequestByRefreshToken;
    var w' := Apply(w, enable);
    assert [enable][0] == enable && [enable][1..] == [];
    NothingRun(w');
    assert Legal(w, [enable]) && Exec(w, [enable]) == w';
    ActiveIsAccepted(w'.db, w.now, token);
  }

  lemma {:induction false} ActiveIsAccepted(db: Db, now: int, token: string)
    requires token in db.refresh && !db.refresh[token].Expired(now)
             && ClientActive(db, db.refresh[token].clientID, false)
    ensures TokenRequestByRefreshToken(db, now, token, NO_LOSSES).1.Some?
  {
  }

  /** A refresh token presented (unless the grant stops half way for other reasons) is
      accepted again, at any later time and under any later client configuration, exactly
      when it was unexpired and the delete that the presentation should have brought was
      lost or, for a rotation, not reached. */
  lemma {:induction false} PresentedAgainIff(w: World, at: int, token: string, tenant: string, proceed: bool,
                                             scopes: seq<string>, a: string, r: string, l: Losses)
    requires Inv(w) && Enabled(w, Step(at, RefreshGrant(token, tenant, proceed, scopes, a, r, l)))
    requires TokenRequestByRefreshToken(w.db, at, token, l).1.Some? ==> proceed
    ensures AcceptedLater(ApplyRefreshGrant(w, at, token, tenant, proceed, scopes, a, r, l), token)
            <==> && token in w.db.refresh && at <= w.db.refresh[token].expiresAt
                 && var client := w.db.refresh[token].clientID;
                    (if !l.client && client in w.db.clients && w.db.clients[client].active
                     then l.refreshPut || l.presented else l.drop)
  {
    hide CreateAccessAndRefreshTokens, Inv, AcceptedLater;
    var w' := ApplyRefreshGrant(w, at, token, tenant, proceed, scopes, a, r, l);
    var (db, found) := TokenRequestByRefreshToken(w.db, at, token, l);
    if found.Some? {
      LookupIsForLogin(w, at, token, scopes, l);
      CreateWritesOnly(db, at, tenant, found.value.(scopes := scopes), token, a, r, l);
    }
    assert token in w'.seen && w'.now == at;
    AcceptedLaterIff(w', token);
  }

  /** A refresh token presented while its application is gone or inactive yields no token, and
      unless its delete was lost its record is gone in every continuation, so also after the
      application is enabled again. */
  lemma {:induction false} InactiveIsFinal(w: World, at: int, token: string, tenant: string, proceed: bool,
                                           scopes: seq<string>, a: string, r: string, l: Losses, after: seq<Step>)
    requires Inv(w) && Enabled(w, Step(at, RefreshGrant(token, tenant, proceed, scopes, a, r, l)))
    requires token in w.db.refresh
    requires w.db.refresh[token].clientID in w.db.clients ==> !w.db.clients[w.db.refresh[token].clientID].active
    requires Legal(ApplyRefreshGrant(w, at, token, tenant, proceed, scopes, a, r, l), after)
    ensures var w' := ApplyRefreshGrant(w, at, token, tenant, proceed, scopes, a, r, l);
            && w'.issued == w.issued && w'.db.access == w.db.access
            && w'.db.refresh == (if l.drop then w.db.refresh else w.db.refresh - {token})
            && (!l.drop ==> token !in Exec(w', after).db.refresh)
  {
    hide Inv, CreateAccessAndRefreshTokens, Legal, Exec;
    RunWritesOnlyFresh(ApplyRefreshGrant(w, at, token, tenant, proceed, scopes, a, r, l), after);
  }

  /** One failed lookup of the application, however brief, ends a valid refresh token of an
      active application for good. */
  lemma {:induction false} FailedClientLookupIsFinal(w: World, at: int, token: string, tenant: string, proceed: bool,
                                                     scopes: seq<string>, a: string, r: string, l: Losses)
    requires Inv(w) && Enabled(w, Step(at, RefreshGrant(token, tenant, proceed, scopes, a, r, l)))
    requires token in w.db.refresh && TokenRequestByRefreshToken(w.db, at, token, NO_LOSSES).1.Some? && l.client
    ensures AcceptedLater(ApplyRefreshGrant(w, at, token, tenant, proceed, scopes, a, r, l), token) <==> l.drop
  {
    hide Inv, AcceptedLater, CreateAccessAndRefreshTokens, ApplyRefreshGrant;
    assert TokenRequestByRefreshToken(w.db, at, token, l).1.None?;
    PresentedAgainIff(w, at, token, tenant, proceed, scopes, a, r, l);
  }

  // ---------- Revocation ----------

  ghost predicate Stored(w: World, t: string) { t in w.db.access || t in w.db.refresh }

  /** A revocation takes the record of a stored token away for ever exactly when the token is
      the calling client's (or nobody's) and its record could be read and deleted; and it
      touches no other token. */
  lemma {:induction false} RevokedForEverIff(w: World, at: int, token: string, clientID: string, blind: bool,
                                             missed: bool)
    requires Inv(w) && at >= w.now && Stored(w, token)
    ensures var w' := Apply(w, Step(at, Revoke(token, clientID, blind, missed)));
            var owner := if token in w.db.access then w.db.access[token].clientID else w.db.refresh[token].clientID;
            && ((forall after :: Legal(w', after) ==> !Stored(Exec(w', after), token))
                <==> && (clientID == "" || owner == "" || owner == clientID)
                     && !missed && !(blind && token in w.db.access))
            && (forall t :: t != token ==> (Stored(w', t) <==> Stored(w, t)))
  {
    hide Inv, Legal, Exec;
    var w' := Apply(w, Step(at, Revoke(token, clientID, blind, missed)));
    StoredIsSeen(w, token);
    NothingRun(w');
    if Stored(w', token) {
      assert Legal(w', []) && Stored(Exec(w', []), token);
    }
    forall after | Legal(w', after) && Stored(Exec(w', after), token) ensures Stored(w', token) {
      RunWritesOnlyFresh(w', after);
    }
  }

  lemma {:induction false} StoredIsSeen(w: World, t: string)
    requires Inv(w) && Stored(w, t)
    ensures t in w.seen && (t in w.db.access ==> t !in w.db.refresh)
  {
    RecordsMatch(w, t);
  }

  // ---------- Logout ----------

  /** Neither userinfo nor a refresh grant accepts it any more. */
  predicate Dead(w: World, t: string) {
    && t in w.seen
    && (t in w.db.access ==> w.db.access[t].expiresAt <= w.now)
    && (t in w.db.refresh ==> w.db.refresh[t].expiresAt < w.now)
  }

  predicate IssuedFor(w: World, t: string, tenant: string, userID: string, clientID: string) {
    t in w.issued && w.issued[t].tenant == tenant && w.issued[t].login.claims.sub == userID
      && w.issued[t].login.clientID == clientID
  }

  lemma {:induction false} LogoutSweepsIndexed(db: Db, issued: map<string, Issue>, tenant: string, userID: string,
                                               clientID: string, kept: set<string>, keptRows: set<string>, t: string,
                                               ttl: int)
    requires t in issued && HasIndexRow(db.index, issued[t], t, ttl) && userID != "" && clientID != "" && t !in kept
    requires issued[t].tenant == tenant && issued[t].login.claims.sub == userID && issued[t].login.clientID == clientID
    ensures issued[t].kind.Access? ==> t !in TerminateSession(db, tenant, userID, clientID, kept, keptRows).access
    ensures issued[t].kind.Refresh? ==> t !in TerminateSession(db, tenant, userID, clientID, kept, keptRows).refresh
  {
    var k := KeyOf(issued[t], t);
    assert k in db.index && k.ref == t;
  }

  lemma {:induction false} LogoutSparesUnswept(db: Db, issued: map<string, Issue>, tenant: string, userID: string,
                                               clientID: string, kept: set<string>, keptRows: set<string>, t: string)
    requires IndexSound(db.index, issued) && t in issued && (t in kept || KeyOf(issued[t], t) !in db.index)
    ensures t in db.access ==> t in TerminateSession(db, tenant, userID, clientID, kept, keptRows).access
    ensures t in db.refresh ==> t in TerminateSession(db, tenant, userID, clientID, kept, keptRows).refresh
  {
    if t !in kept {
      forall k | k in db.index ensures k.ref != t { assert k == KeyOf(issued[k.ref], k.ref); }
    }
  }

  lemma {:induction false} LiveTokensIndexed(w: World, t: string)
    requires Inv(w) && t in w.issued && Indexable(w.issued[t])
    ensures t in w.seen && IndexSound(w.db.index, w.issued)
    ensures t in w.unindexed ==> KeyOf(w.issued[t], t) !in w.db.index
    ensures t in w.db.access ==> && w.issued[t].kind.Access?
                                 && (w.db.access[t].Expired(w.now) || t in w.unindexed
                                     || HasIndexRow(w.db.index, w.issued[t], t, w.db.access[t].ttl))
    ensures t in w.db.refresh ==> && w.issued[t].kind.Refresh?
                                  && (w.db.refresh[t].Expired(w.now) || t in w.unindexed
                                      || HasIndexRow(w.db.index, w.issued[t], t, w.db.refresh[t].ttl))
  {
  }

  /** A logout leaves a token of its session alive exactly when the token was alive and either
      its index row was missing or its own delete failed. */
  lemma {:induction false} LogoutMissesIff(w: World, at: int, tenant: string, userID: string, clientID: string,
                                           kept: set<string>, keptRows: set<string>, t: string)
    requires Inv(w) && at >= w.now && userID != "" && clientID != "" && IssuedFor(w, t, tenant, userID, clientID)
    ensures Dead(Apply(w, Step(at, Logout(tenant, userID, clientID, kept, keptRows))), t)
            <==> Dead(w.(now := at), t) || !(t in w.unindexed || t in kept)
  {
    hide TerminateSession, Inv, HasIndexRow, Orphans, IndexSound;
    LogoutOnlyRemoves(w.db, tenant, userID, clientID, kept, keptRows);
    LiveTokensIndexed(w, t);
    if t in w.unindexed || t in kept {
      LogoutSparesUnswept(w.db, w.issued, tenant, userID, clientID, kept, keptRows, t);
    } else {
      if t in w.db.access && !w.db.access[t].Expired(w.now) {
        LogoutSweepsIndexed(w.db, w.issued, tenant, userID, clientID, kept, keptRows, t, w.db.access[t].ttl);
      }
      if t in w.db.refresh && !w.db.refresh[t].Expired(w.now) {
        LogoutSweepsIndexed(w.db, w.issued, tenant, userID, clientID, kept, keptRows, t, w.db.refresh[t].ttl);
      }
    }
  }

  /** A token issued for another tenant, user or client keeps its record. */
  lemma {:induction false} LogoutSparesOthers(w: World, at: int, tenant: string, userID: string, clientID: string,
                                              kept: set<string>, keptRows: set<string>, t: string)
    requires Inv(w) && at >= w.now && t in w.issued && !IssuedFor(w, t, tenant, userID, clientID)
    ensures var w' := Apply(w, Step(at, Logout(tenant, userID, clientID, kept, keptRows)));
            && (t in w.db.access <==> t in w'.db.access) && (t in w.db.access ==> w'.db.access[t] == w.db.access[t])
            && (t in w.db.refresh <==> t in w'.db.refresh)
            && (t in w.db.refresh ==> w'.db.refresh[t] == w.db.refresh[t])
  {
    assert t !in SweptRefs(w.db, tenant, userID, clientID, Access)
           && t !in SweptRefs(w.db, tenant, userID, clientID, Refresh);
  }

  lemma {:induction false} DeadStaysDead(w: World, steps: seq<Step>, t: string)
    requires Legal(w, steps) && Dead(w, t)
    ensures Dead(Exec(w, steps), t)
  {
    RunWritesOnlyFresh(w, steps);
  }

  /** The step lost the index row of a token it left alive. */
  predicate LosesIndexRow(e: Event, t: string) {
    match e
    case Exchange(_, _, _, a, r, l) => (t == a && l.accessIndex) || (t == r && l.refreshIndex)
    case RefreshGrant(token, _, _, _, a, r, l) =>
      (t == a && l.accessIndex) || (t == r && l.refreshIndex) || (t == token && l.presented && !l.presentedIndex)
    case Logout(_, _, _, kept, keptRows) => t in kept && t !in keptRows
    case _ => false
  }

  lemma {:induction false} StepLosesIndexRow(w: World, s: Step, t: string)
    requires t in Apply(w, s).unindexed && t !in w.unindexed
    ensures LosesIndexRow(s.event, t)
  {
    hide CreateAccessAndRefreshTokens, CreateAccessToken, DeleteAuthRequest, TokenRequestByRefreshToken,
         AuthRequestByCode, TerminateSession, OfSession;
  }

  lemma {:induction false} UnindexedWereLost(w: World, steps: seq<Step>, t: string)
    requires t in Exec(w, steps).unindexed && t !in w.unindexed
    ensures exists i :: 0 <= i < |steps| && LosesIndexRow(steps[i].event, t)
    decreases |steps|
  {
    hide Apply, LosesIndexRow;
    if steps == [] {
      assert false;
    } else if t in Apply(w, steps[0]).unindexed {
      StepLosesIndexRow(w, steps[0], t);
    } else {
      UnindexedWereLost(Apply(w, steps[0]), steps[1..], t);
      var i :| 0 <= i < |steps[1..]| && LosesIndexRow(steps[1..][i].event, t);
      assert LosesIndexRow(steps[i + 1].event, t);
    }
  }

  /** In every run, once a user has logged out of a client under a tenant's issuer, no
      token issued before for that tenant, user and client is ever accepted again, unless
      an earlier step lost its index row or this logout could not delete it. */
  lemma {:induction false} LogoutIsFinal(start: int, before: seq<Step>, at: int, tenant: string, userID: string,
                                         clientID: string, kept: set<string>, keptRows: set<string>, after: seq<Step>,
                                         t: string)
    requires Legal(Initial(start), before) && userID != "" && clientID != ""
    requires var w := Exec(Initial(start), before);
             && at >= w.now && IssuedFor(w, t, tenant, userID, clientID)
             && Legal(Apply(w, Step(at, Logout(tenant, userID, clientID, kept, keptRows))), after)
    ensures || Dead(Exec(Apply(Exec(Initial(start), before),
                               Step(at, Logout(tenant, userID, clientID, kept, keptRows))), after), t)
            || t in kept || exists i :: 0 <= i < |before| && LosesIndexRow(before[i].event, t)
  {
    hide Inv, Apply, Enabled, Exec, Legal, Dead, LosesIndexRow;
    var w := Exec(Initial(start), before);
    RunFromStartKeepsInv(start, before);
    LogoutMissesIff(w, at, tenant, userID, clientID, kept, keptRows, t);
    if t in w.unindexed {
      UnindexedWereLost(Initial(start), before, t);
    } else if t !in kept {
      DeadStaysDead(Apply(w, Step(at, Logout(tenant, userID, clientID, kept, keptRows))), after, t);
    }
  }
}
