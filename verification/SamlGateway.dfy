/** SAML sessions, single logout and the two kinds of marker they rest on: one-time-use
    marks for request IDs and revocation marks for session indexes
    (internal/saml/slo.go, session_provider.go, durations.go, internal/store/replay_store.go,
    session_store.go). Each HTTP handler runs as one step with one clock reading. */
module SamlGateway {
  import opened Wrappers
  import opened Clock
  import RedirectQuery
  import Table

  // ---------- Durations ----------

  const SLO_CLOCK_SKEW := 3 * MINUTE
  const SLO_MAX_REQUEST_AGE := 5 * MINUTE
  const SLO_REPLAY_TTL := SLO_MAX_REQUEST_AGE + SLO_CLOCK_SKEW
  const AUTHN_REPLAY_TTL := 5 * MINUTE
  const REVOKED_SESSION_TTL := 9 * HOUR

  const SESSION_DURATION_MIN_SEC := 300
  const SESSION_DURATION_MAX_SEC := 86400
  const DEFAULT_SESSION_DURATION := 8 * HOUR

  function ClampSeconds(sec: int, lo: int, hi: int): int {
    var raised := if sec < lo then lo else sec;
    (if raised > hi then hi else raised) * SECOND
  }

  /** The lifetime of a session at a service provider; 0 stands for "not configured". */
  function SessionDuration(configuredSec: int): int {
    if configuredSec == 0 then DEFAULT_SESSION_DURATION
    else ClampSeconds(configuredSec, SESSION_DURATION_MIN_SEC, SESSION_DURATION_MAX_SEC)
  }

  // ---------- State ----------

  /** A session at the gateway and what it was minted for. */
  datatype Envelope = Envelope(index: string, createdAt: int, expiresAt: int, tenant: string, sp: string)

  datatype ParticipantKey = ParticipantKey(index: string, sp: string)

  /** Rows of the session table: seen request IDs and revoked session indexes with the Unix
      second they expire, and session participants with their expiry. */
  datatype State = State(seen: map<string, int>, revoked: map<string, int>, participants: map<ParticipantKey, int>)

  /** Whether the store answers the calls a request makes. */
  datatype Faults = Faults(replayDown: bool, revokeDown: bool, lookupDown: bool)

  // ---------- Logout ----------

  datatype LogoutRequest = LogoutRequest(id: string, issuer: string, issueInstant: Option<int>,
                                         notOnOrAfter: Option<int>, destination: string, sessionIndex: string)

  datatype SPConfig = SPConfig(cert: RedirectQuery.Certificate, allowSHA1: bool, sloURL: string, acsURL: string)

  /** What lies outside: message decoding, the registered service providers, base64, and
      the signatures their keys have made. */
  datatype Outside = Outside(base: string, decode: string -> Option<LogoutRequest>,
                             lookup: (string, string) -> Option<SPConfig>, base64: string -> Option<string>,
                             valid: RedirectQuery.SignedBy -> bool)

  datatype Refusal = MissingTenant | MalformedQuery | MissingRequest | UndecodableRequest | MissingIssuer
    | UnknownIssuer
                   | Stale | WrongDestination | SignatureFailed | Replayed | ReplayUnavailable

  datatype Status = Success | PartialLogout

  datatype LogoutResult = Refused(reason: Refusal) | LoggedOut(inResponseTo: string, destination: string,
                                                               status: Status, relayState: string)

  predicate FreshRequest(req: LogoutRequest, now: int) {
    && req.issueInstant.Some?
    && req.issueInstant.value <= now + SLO_CLOCK_SKEW
    && now - req.issueInstant.value <= SLO_MAX_REQUEST_AGE + SLO_CLOCK_SKEW
    && (req.notOnOrAfter.Some? ==> now < req.notOnOrAfter.value + SLO_CLOCK_SKEW)
  }

  predicate DestinationMatches(destination: string, base: string, tenant: string) {
    destination == base + "/t/" + tenant + "/saml/slo"
  }

  /** The service providers other than `issuer` still taking part in the session. */
  ghost function OtherParticipants(st: State, now: int, index: string, issuer: string): set<string> {
    set k | k in st.participants && k.index == index && k.sp != issuer && now <= st.participants[k] :: k.sp
  }

  /** The query carries this decoded request. */
  ghost predicate Carries(out: Outside, tenant: string, query: string, p: RedirectQuery.Params, req: LogoutRequest) {
    tenant != "" && RedirectQuery.Extract(query) == Ok(p) && p.samlRequest != ""
      && out.decode(p.samlRequest) == Some(req)
  }

  /** And its issuer is a service provider of the tenant. */
  ghost predicate Known(out: Outside, tenant: string, query: string, p: RedirectQuery.Params, req: LogoutRequest,
                        cfg: SPConfig)
  {
    Carries(out, tenant, query, p, req) && req.issuer != "" && out.lookup(tenant, req.issuer) == Some(cfg)
  }

  predicate RightDestination(out: Outside, tenant: string, req: LogoutRequest) {
    req.destination != "" ==> DestinationMatches(req.destination, out.base, tenant)
  }

  /** Everything a logout request must satisfy before anything is written. */
  ghost predicate Authentic(out: Outside, now: int, tenant: string, query: string, p: RedirectQuery.Params,
                            req: LogoutRequest, cfg: SPConfig)
  {
    && Known(out, tenant, query, p, req, cfg) && FreshRequest(req, now) && RightDestination(out, tenant, req)
    && RedirectQuery.VerifyRedirectSignature(p, cfg.cert, cfg.allowSHA1, out.base64, out.valid).None?
  }

  /** Spelled out: the message comes from a registered provider of the tenant, is at most eight
      minutes old and at most three ahead, is addressed to this tenant's own endpoint if to any,
      and its signature verifies. */
  lemma {:induction false} AuthenticIff(out: Outside, now: int, tenant: string, query: string,
                                        p: RedirectQuery.Params, req: LogoutRequest, cfg: SPConfig)
    ensures Authentic(out, now, tenant, query, p, req, cfg)
            <==> && tenant != "" && RedirectQuery.Extract(query) == Ok(p) && p.samlRequest != ""
                 && out.decode(p.samlRequest) == Some(req) && req.issuer != ""
                 && out.lookup(tenant, req.issuer) == Some(cfg)
                 && req.issueInstant.Some?
                 && req.issueInstant.value - 180 * SECOND <= now <= req.issueInstant.value + 480 * SECOND
                 && (req.notOnOrAfter.Some? ==> now < req.notOnOrAfter.value + 180 * SECOND)
                 && (req.destination == "" || req.destination == out.base + "/t/" + tenant + "/saml/slo")
                 && RedirectQuery.VerifyRedirectSignature(p, cfg.cert, cfg.allowSHA1, out.base64, out.valid) == None
  {
    hide RedirectQuery.Extract, RedirectQuery.VerifyRedirectSignature;
  }

  lemma {:induction false} BetweenUnique(head: string, a: string, b: string, tail: string)
    requires head + a + tail == head + b + tail
    ensures a == b
  {
    assert |a| == |b|;
    assert (head + a + tail)[|head|..|head| + |a|] == a && (head + b + tail)[|head|..|head| + |b|] == b;
  }

  /** A request addressed to another tenant's endpoint is nobody's here. */
  lemma {:induction false} OtherTenantsRequest(out: Outside, now: int, tenant: string, other: string, query: string,
                                               p: RedirectQuery.Params, req: LogoutRequest, cfg: SPConfig)
    requires other != tenant && req.destination == out.base + "/t/" + other + "/saml/slo"
    ensures !Authentic(out, now, tenant, query, p, req, cfg)
  {
    hide RedirectQuery.Extract, RedirectQuery.VerifyRedirectSignature, FreshRequest;
    if req.destination == out.base + "/t/" + tenant + "/saml/slo" {
      BetweenUnique(out.base + "/t/", tenant, other, "/saml/slo");
    }
  }

  /** The stated reason is true, and every check before it passed. */
  ghost predicate Justified(out: Outside, now: int, tenant: string, query: string, st: State, faults: Faults,
                            reason: Refusal)
  {
    match reason
    case MissingTenant => tenant == ""
    case MalformedQuery => tenant != "" && RedirectQuery.Extract(query).Err?
    case MissingRequest => tenant != "" && RedirectQuery.Extract(query).Ok?
      && RedirectQuery.Extract(query).value.samlRequest == ""
    case UndecodableRequest =>
      && tenant != "" && RedirectQuery.Extract(query).Ok? && RedirectQuery.Extract(query).value.samlRequest != ""
      && out.decode(RedirectQuery.Extract(query).value.samlRequest).None?
    case MissingIssuer => exists p, req :: Carries(out, tenant, query, p, req) && req.issuer == ""
    case UnknownIssuer => exists p, req ::
      && Carries(out, tenant, query, p, req) && req.issuer != ""
      && out.lookup(tenant, req.issuer).None?
    case Stale => exists p, req, cfg :: Known(out, tenant, query, p, req, cfg) && !FreshRequest(req, now)
    case WrongDestination =>
      exists p, req, cfg :: Known(out, tenant, query, p, req, cfg) && FreshRequest(req, now)
        && !RightDestination(out, tenant, req)
    case SignatureFailed =>
      exists p, req, cfg :: Known(out, tenant, query, p, req, cfg) && FreshRequest(req, now)
        && RightDestination(out, tenant, req)
                            && !Authentic(out, now, tenant, query, p, req, cfg)
    case Replayed => exists p, req, cfg ::
      && Authentic(out, now, tenant, query, p, req, cfg) && !faults.replayDown
      && req.id != "" && req.id in st.seen
    case ReplayUnavailable => exists p, req, cfg ::
      && Authentic(out, now, tenant, query, p, req, cfg) && req.id != ""
      && faults.replayDown
  }

  /** What is left of the store when an authentic request has been honoured. */
  function AfterLogout(st: State, now: int, req: LogoutRequest, faults: Faults): State {
    st.(seen := if req.id != "" then st.seen[req.id := Unix(now + SLO_REPLAY_TTL)] else st.seen,
        revoked := if req.sessionIndex != "" && !faults.revokeDown
                   then st.revoked[req.sessionIndex := Unix(now + REVOKED_SESSION_TTL)] else st.revoked)
  }

  /** Is the request ID free to be claimed? */
  predicate Unclaimed(st: State, id: string, faults: Faults) {
    id != "" ==> !faults.replayDown && id !in st.seen
  }

  ghost function LogoutStatus(st: State, now: int, req: LogoutRequest, faults: Faults): Status {
    if req.sessionIndex != "" && (faults.lookupDown || OtherParticipants(st, now, req.sessionIndex, req.issuer) != {})
    then PartialLogout else Success
  }

  lemma {:induction false} SameParticipants(a: State, b: State, now: int, index: string, issuer: string)
    requires a.participants == b.participants
    ensures OtherParticipants(a, now, index, issuer) == OtherParticipants(b, now, index, issuer)
  {
  }

  lemma {:induction false} NobodyElse(st: State, now: int, index: string, issuer: string)
    ensures OtherParticipants(st, now, index, issuer) == {}
            <==> forall k :: k in st.participants && k.index == index ==> k.sp == issuer || st.participants[k] < now
  {
    if k :| k in st.participants && k.index == index && !(k.sp == issuer || st.participants[k] < now) {
      assert k.sp in OtherParticipants(st, now, index, issuer);
    }
  }

  lemma {:induction false} OthersListed(st: State, now: int, index: string, issuer: string, items: seq<ParticipantKey>)
    requires forall k :: k in items <==> k in st.participants && k.index == index
    ensures OtherParticipants(st, now, index, issuer) != {}
            <==> exists j :: 0 <= j < |items| && items[j].sp != issuer && now <= st.participants[items[j]]
  {
    forall j | 0 <= j < |items| && items[j].sp != issuer && now <= st.participants[items[j]]
      ensures items[j].sp in OtherParticipants(st, now, index, issuer) {}
    if sp :| sp in OtherParticipants(st, now, index, issuer) {
      var k :| k in st.participants && k.index == index && k.sp != issuer && now <= st.participants[k];
      assert k in items;
    }
  }

  /** A query is authentic as at most one request. */
  lemma {:induction false} AuthenticOnce(out: Outside, now: int, tenant: string, query: string,
                                         p: RedirectQuery.Params, req: LogoutRequest, cfg: SPConfig)
    requires Authentic(out, now, tenant, query, p, req, cfg)
    ensures forall p', req', cfg' ::
              Authentic(out, now, tenant, query, p', req', cfg') ==> p' == p && req' == req && cfg' == cfg
  {
    hide RedirectQuery.Extract, RedirectQuery.VerifyRedirectSignature, FreshRequest, RightDestination;
  }

  /** The checks of HandleSLO up to the signature, in their order. */
  method Authenticate(out: Outside, now: int, tenant: string, query: string, ghost st: State, ghost faults: Faults)
    returns (r: Result<(RedirectQuery.Params, LogoutRequest, SPConfig), Refusal>)
    ensures r.Ok? ==> Authentic(out, now, tenant, query, r.value.0, r.value.1, r.value.2)
    ensures r.Err?
            ==> Justified(out, now, tenant, query, st, faults, r.error) && r.error !in {Replayed, ReplayUnavailable}
    ensures r.Err? ==> forall p, req, cfg :: !Authentic(out, now, tenant, query, p, req, cfg)
    // The first check that fails names the refusal.
    ensures r.Err? && (tenant == "" || RedirectQuery.Extract(query).Err?) ==>
              r.error == if tenant == "" then MissingTenant else MalformedQuery
    ensures r.Err? && tenant != "" && RedirectQuery.Extract(query).Ok? ==>
              var p := RedirectQuery.Extract(query).value;
              var found := out.decode(p.samlRequest);
              if p.samlRequest == "" then r.error == MissingRequest
              else if found.None? then r.error == UndecodableRequest
              else
                var req := found.value;
                if req.issuer == "" then r.error == MissingIssuer
                else if out.lookup(tenant, req.issuer).None? then r.error == UnknownIssuer
                else if !(&& req.issueInstant.Some?
                          && req.issueInstant.value - 180 * SECOND <= now <= req.issueInstant.value + 480 * SECOND
                          && (req.notOnOrAfter.Some? ==> now < req.notOnOrAfter.value + 180 * SECOND))
                then r.error == Stale
                else if req.destination != "" && req.destination != out.base + "/t/" + tenant + "/saml/slo"
                then r.error == WrongDestination
                else r.error == SignatureFailed
  {
    hide RedirectQuery.Extract, RedirectQuery.VerifyRedirectSignature;
    if tenant == "" { return Err(MissingTenant); }
    var params := RedirectQuery.ExtractRedirectParams(query);
    if params.Err? { return Err(MalformedQuery); }
    var p := params.value;
    if p.samlRequest == "" { return Err(MissingRequest); }
    var decoded := out.decode(p.samlRequest);
    if decoded.None? { return Err(UndecodableRequest); }
    var req := decoded.value;
    assert Carries(out, tenant, query, p, req);
    if req.issuer == "" { return Err(MissingIssuer); }
    var found := out.lookup(tenant, req.issuer);
    if found.None? { return Err(UnknownIssuer); }
    var cfg := found.value;
    assert Known(out, tenant, query, p, req, cfg);
    if !FreshRequest(req, now) { return Err(Stale); }
    if req.destination != "" && !DestinationMatches(req.destination, out.base, tenant) { return Err(WrongDestination); }
    var failure := RedirectQuery.VerifyRedirectSignature(p, cfg.cert, cfg.allowSHA1, out.base64, out.valid);
    if failure.Some? { return Err(SignatureFailed); }
    return Ok((p, req, cfg));
  }

  class Gateway {
    var seen: map<string, int>
    var revoked: map<string, int>
    var participants: map<ParticipantKey, int>

    constructor ()
      ensures Rows() == State(map[], map[], map[])
    {
      seen, revoked, participants := map[], map[], map[];
    }

    function Rows(): State
      reads this
    {
      State(seen, revoked, participants)
    }

    /** ReplayStore.MarkSeen: one conditional write that both detects and records. */
    method MarkSeen(now: int, id: string, ttl: int, down: bool) returns (e: Option<Refusal>)
      modifies this`seen
      ensures e == if down then Some(ReplayUnavailable) else if id in old(seen) then Some(Replayed) else None
      ensures seen == if e.None? then old(seen)[id := Unix(now + ttl)] else old(seen)
    {
      if down { return Some(ReplayUnavailable); }
      if id in seen { return Some(Replayed); }
      seen := seen[id := Unix(now + ttl)];
      return None;
    }

    /** SessionStore.AddParticipant: records, or refreshes, a provider's share in a session. */
    method AddParticipant(index: string, sp: string, expiresAt: int)
      modifies this`participants
      ensures participants == old(participants)[ParticipantKey(index, sp) := expiresAt]
    {
      participants := participants[ParticipantKey(index, sp) := expiresAt];
    }

    /** From now on the session reads as revoked at exactly the instants of the next nine hours,
        and every other session as before. */
    method RevokeSession(now: int, index: string, down: bool)
      modifies this`revoked
      ensures revoked == if index == "" || down then old(revoked)
              else old(revoked)[index := Unix(now + REVOKED_SESSION_TTL)]
      ensures forall i, t :: CheckRevoked(Rows(), t, i, false)
                             == if i == index && index != "" && !down then Some(Unix(t) <= Unix(now) + 32400)
                                else CheckRevoked(old(Rows()), t, i, false)
    {
      if index == "" || down { return; }
      revoked := revoked[index := Unix(now + REVOKED_SESSION_TTL)];
    }

    /** None when the store did not answer. */
    method IsSessionRevoked(now: int, index: string, down: bool) returns (r: Option<bool>)
      ensures r == CheckRevoked(Rows(), now, index, down)
    {
      if index == "" { return Some(false); }
      if down { return None; }
      if index !in revoked { return Some(false); }
      return Some(Unix(now) <= revoked[index]);
    }

    /** Counts the live participants of a session that are not `issuer`. */
    method CountOthers(now: int, index: string, issuer: string) returns (n: nat)
      ensures n > 0 <==> OtherParticipants(Rows(), now, index, issuer) != {}
    {
      var items := Table.Enumerate(set k | k in participants && k.index == index);
      n := 0;
      assert forall k :: k in items ==> k in participants && k.index == index;
      for i := 0 to |items|
        invariant forall k :: k in items ==> k in participants && k.index == index
        invariant n > 0 <==> exists j :: 0 <= j < i && items[j].sp != issuer && now <= participants[items[j]]
      {
        if now <= participants[items[i]] && items[i].sp != issuer { n := n + 1; }
      }
      OthersListed(Rows(), now, index, issuer, items);
    }

    /** The part of HandleSLO after authentication: the ID is claimed, unless it is empty, before
        the session is revoked. The answer is Success exactly when no other provider is known to
        take part in the session any more. */
    method Honour(now: int, req: LogoutRequest, faults: Faults) returns (r: Result<Status, Refusal>)
      modifies this
      ensures r.Ok? <==> req.id == "" || (!faults.replayDown && req.id !in old(seen))
      ensures r.Err? ==> && Rows() == old(Rows())
                         && r.error == if faults.replayDown then ReplayUnavailable else Replayed
      ensures r.Ok? ==>
                && seen == (if req.id == "" then old(seen) else old(seen)[req.id := Unix(now) + 480])
                && revoked == (if req.sessionIndex == "" || faults.revokeDown then old(revoked)
                               else old(revoked)[req.sessionIndex := Unix(now) + 32400])
                && participants == old(participants)
                && (r.value == Success <==>
                      || req.sessionIndex == ""
                      || (!faults.lookupDown && forall k :: k in participants && k.index == req.sessionIndex
                                                            ==> k.sp == req.issuer || participants[k] < now))
      ensures r.Ok? ==> && Rows() == AfterLogout(old(Rows()), now, req, faults)
                        && r.value == LogoutStatus(old(Rows()), now, req, faults)
    {
      hide OtherParticipants;
      if req.id != "" {
        var replay := MarkSeen(now, req.id, SLO_REPLAY_TTL, faults.replayDown);
        if replay.Some? { return Err(replay.value); }
      }
      RevokeSession(now, req.sessionIndex, faults.revokeDown);
      var status := Success;
      if req.sessionIndex != "" {
        if faults.lookupDown {
          status := PartialLogout;
        } else {
          var others := CountOthers(now, req.sessionIndex, req.issuer);
          if others > 0 { status := PartialLogout; }
        }
      }
      SameParticipants(Rows(), old(Rows()), now, req.sessionIndex, req.issuer);
      NobodyElse(Rows(), now, req.sessionIndex, req.issuer);
      return Ok(status);
    }

    /** HandleSLO: nothing is written before the request has been authenticated. */
    method HandleSLO(out: Outside, now: int, tenant: string, query: string, faults: Faults) returns (r: LogoutResult)
      modifies this
      ensures r.LoggedOut?
              <==> exists p, req, cfg ::
                     && Authentic(out, now, tenant, query, p, req, cfg)
                     && (req.id == "" || (!faults.replayDown && req.id !in old(seen)))
      // What an honoured request leaves behind, and the answer it gets.
      ensures r.LoggedOut? ==> exists p, req, cfg ::
                && Authentic(out, now, tenant, query, p, req, cfg)
                && Rows() == AfterLogout(old(Rows()), now, req, faults)
                && r == LoggedOut(req.id, if cfg.sloURL == "" then cfg.acsURL else cfg.sloURL,
                                  LogoutStatus(old(Rows()), now, req, faults), p.relayState)
                && seen == (if req.id == "" then old(seen) else old(seen)[req.id := Unix(now) + 480])
                && revoked == (if req.sessionIndex == "" || faults.revokeDown then old(revoked)
                               else old(revoked)[req.sessionIndex := Unix(now) + 32400])
                && participants == old(participants)
                && (r.status == Success <==>
                      || req.sessionIndex == ""
                      || (!faults.lookupDown && forall k :: k in participants && k.index == req.sessionIndex
                                                            ==> k.sp == req.issuer || participants[k] < now))
      ensures r.Refused? ==> Rows() == old(Rows()) && Justified(out, now, tenant, query, old(Rows()), faults, r.reason)
    {
      hide Authentic, OtherParticipants, AfterLogout, LogoutStatus;
      var authenticated := Authenticate(out, now, tenant, query, Rows(), faults);
      if authenticated.Err? { return Refused(authenticated.error); }
      var (p, req, cfg) := authenticated.value;
      AuthenticOnce(out, now, tenant, query, p, req, cfg);
      var honoured := Honour(now, req, faults);
      if honoured.Err? { return Refused(honoured.error); }
      r := LoggedOut(req.id, if cfg.sloURL == "" then cfg.acsURL else cfg.sloURL, honoured.value, p.relayState);
    }

    /** The part of GetSession without a session of the browser's own: a bearer token, then the
        application's login page, then a login redirect. Only a token that fails to verify, and
        the login page, come before the ID of the request is claimed. */
    method NewLogin(now: int, req: SSORequest, faults: Faults) returns (r: SSOResult)
      modifies this`seen
      ensures (Rows(), r) == Sessions(old(Rows()), now, req.(handOff := None, cookie := None), faults)
      ensures req.targetSP.Some? ==>
                && (req.bearer.Unresolvable? ==> r == Denied(500) && seen == old(seen))
                && (req.bearer.Unsupported? || req.bearer.BadSource? ==> r == Denied(400) && seen == old(seen))
                && (req.bearer.Unverified? ==> r == Denied(401) && seen == old(seen))
                && (req.bearer.NoToken? && !req.loginPage.NoPage? ==>
                      seen == old(seen) && r == if req.loginPage.Available? then CustomLogin else Denied(500))
      ensures req.targetSP.None? || req.bearer.NoSubject? || req.bearer.GoodToken?
              || (req.bearer.NoToken? && req.loginPage.NoPage?) ==>
                if req.authnID != "" && faults.replayDown then r == Denied(503) && seen == old(seen)
                else if req.authnID != "" && req.authnID in old(seen) then r == Denied(403) && seen == old(seen)
                else && seen == (if req.authnID == "" then old(seen) else old(seen)[req.authnID := Unix(now) + 300])
                     && (req.targetSP.None? || req.bearer.NoSubject? ==> r == Denied(401))
                     && (req.targetSP.Some? && req.bearer.NoToken? ==>
                           r == if req.resolvable then HostedLogin else Denied(500))
                     && (req.targetSP.Some? && req.bearer.GoodToken? ==>
                           var sec := req.bearer.configuredSec;
                           var life := if sec == 0 then 28800 else if sec < 300 then 300
                                       else if sec > 86400 then 86400 else sec;
                           r == Granted(Envelope(req.freshIndex, now, now + life * SECOND, req.tenant,
                                                 req.targetSP.value), Bearer))
      ensures !(r.Granted? && r.path != Bearer)
    {
      if !req.bearer.NoToken? && req.targetSP.Some? {
        if req.bearer.Unresolvable? { return Denied(500); }
        if req.bearer.Unsupported? || req.bearer.BadSource? { return Denied(400); }
        if req.bearer.Unverified? { return Denied(401); }
        if req.authnID != "" {
          var replay := MarkSeen(now, req.authnID, AUTHN_REPLAY_TTL, faults.replayDown);
          if replay.Some? { return Denied(if replay.value == Replayed then 403 else 503); }
        }
        if req.bearer.NoSubject? { return Denied(401); }
        return Granted(NewSession(now, req.freshIndex, req.bearer.configuredSec, req.tenant, req.targetSP.value),
                       Bearer);
      }
      if req.targetSP.Some? && !req.loginPage.NoPage? {
        return if req.loginPage.Unavailable? then Denied(500) else CustomLogin;
      }
      if req.authnID != "" {
        var replay := MarkSeen(now, req.authnID, AUTHN_REPLAY_TTL, faults.replayDown);
        if replay.Some? { return Denied(if replay.value == Replayed then 403 else 503); }
      }
      if req.targetSP.None? { return Denied(401); }
      if !req.resolvable { return Denied(500); }
      return HostedLogin;
    }

    /** GetSession: the internal hand-off first, then the cookie, then a bearer token, then
        a login redirect. */
    method GetSession(now: int, req: SSORequest, faults: Faults) returns (r: SSOResult)
      modifies this`seen
      ensures (Rows(), r) == Sessions(old(Rows()), now, req, faults)
      // A hand-over decides on its own: it must be of this tenant, and of the provider asked for.
      ensures req.handOff.Some? ==>
                && seen == old(seen)
                && var env := req.handOff.value;
                   r == if env.tenant == req.tenant && (env.sp == "" || req.targetSP.GetOr("") in {"", env.sp})
                        then Granted(env, HandOff) else Denied(403)
      // Then an unexpired cookie of this tenant and provider, if the store can be asked and says it is not revoked.
      ensures r.Granted? && r.path == Cookie <==>
                && req.handOff.None? && req.cookie.Some?
                && var env := req.cookie.value;
                && now <= env.expiresAt && env.tenant == req.tenant
                && (env.sp == "" || req.targetSP.GetOr("") in {"", env.sp})
                && (env.index == ""
                    || (!faults.revokeDown && !(env.index in revoked && Unix(now) <= revoked[env.index])))
      ensures r.Granted? && r.path == Cookie ==> r.session == req.cookie.value && seen == old(seen)
      // Then a bearer token or a login page; a replayed request gets neither a session nor a redirect.
      ensures req.handOff.None? && !(r.Granted? && r.path == Cookie) && req.authnID != ""
              && (req.targetSP.None? || req.bearer.NoSubject? || req.bearer.GoodToken?
                  || (req.bearer.NoToken? && req.loginPage.NoPage?)) ==>
                && (faults.replayDown ==> r == Denied(503) && seen == old(seen))
                && (!faults.replayDown && req.authnID in old(seen) ==> r == Denied(403) && seen == old(seen))
      ensures (r.Granted? && r.path == Bearer) || r.HostedLogin? ==>
                || (req.authnID == "" && seen == old(seen))
                || (req.authnID != "" && !faults.replayDown && req.authnID !in old(seen)
                    && seen == old(seen)[req.authnID := Unix(now) + 300])
      ensures r.Granted? && r.path == Bearer ==>
                && req.handOff.None? && req.targetSP.Some? && req.bearer.GoodToken?
                && var sec := req.bearer.configuredSec;
                   var life := if sec == 0 then 28800 else if sec < 300 then 300
                               else if sec > 86400 then 86400 else sec;
                   r.session == Envelope(req.freshIndex, now, now + life * SECOND, req.tenant, req.targetSP.value)
    {
      if req.handOff.Some? {
        if MintedBindingMatches(req, req.handOff.value) { return Granted(req.handOff.value, HandOff); }
        return Denied(403);
      }
      if req.cookie.Some? && now <= req.cookie.value.expiresAt {
        if BindingMatches(req, req.cookie.value) {
          var revokedNow := IsSessionRevoked(now, req.cookie.value.index, faults.revokeDown);
          if revokedNow == Some(false) { return Granted(req.cookie.value, Cookie); }
        }
      }
      r := NewLogin(now, req, faults);
    }
  }

  // ---------- Sessions ----------

  function NewSession(now: int, index: string, configuredSec: int, tenant: string, sp: string): Envelope {
    Envelope(index, now, now + SessionDuration(configuredSec), tenant, sp)
  }

  /** A request for a session: the tenant on the path, the provider it is for once its
      metadata is known, a session handed over by an internal step, the authentic cookie
      the browser sent, the outcome of verifying a bearer token, the application's custom
      login page, and whether its hosted login can be resolved. */
  datatype SSORequest = SSORequest(tenant: string, targetSP: Option<string>, handOff: Option<Envelope>,
                                   cookie: Option<Envelope>, bearer: BearerToken, loginPage: LoginPage,
                                   authnID: string, resolvable: bool, freshIndex: string)

  /** No token; the provider's identity source not found, without a pool, or misconfigured; a
      token that does not verify, or names no subject; or a good one, with the session
      lifetime configured for the provider. */
  datatype BearerToken = NoToken | Unresolvable | Unsupported | BadSource | Unverified | NoSubject
    | GoodToken(configuredSec: int)

  /** The status of a token refused before the request ID is claimed. */
  function RefusedStatus(b: BearerToken): Option<int> {
    match b
    case Unresolvable => Some(500)
    case Unsupported => Some(400)
    case BadSource => Some(400)
    case Unverified => Some(401)
    case _ => None
  }

  /** Unavailable: its URL is not on the allowlist, or the pending login cannot be stored. */
  datatype LoginPage = NoPage | Unavailable | Available

  datatype Path = HandOff | Cookie | Bearer

  datatype SSOResult = Granted(session: Envelope, path: Path) | Denied(status: int) | CustomLogin | HostedLogin

  predicate BindingMatches(req: SSORequest, env: Envelope) {
    env.tenant == req.tenant
    && !(env.sp != "" && req.targetSP.GetOr("") != "" && env.sp != req.targetSP.value)
  }

  predicate MintedBindingMatches(req: SSORequest, env: Envelope) {
    env.tenant == req.tenant
    && var target := if req.targetSP.GetOr("") != "" then req.targetSP.value else env.sp;
       !(env.sp != "" && target != "" && env.sp != target)
  }

  function CheckRevoked(st: State, now: int, index: string, down: bool): Option<bool> {
    if index == "" then Some(false)
    else if down then None
    else Some(index in st.revoked && Unix(now) <= st.revoked[index])
  }

  function Claimed(st: State, now: int, id: string, faults: Faults): (State, Option<int>) {
    if id == "" then (st, None)
    else if faults.replayDown then (st, Some(503))
    else if id in st.seen then (st, Some(403))
    else (st.(seen := st.seen[id := Unix(now + AUTHN_REPLAY_TTL)]), None)
  }

  predicate CookieUsable(st: State, now: int, req: SSORequest, faults: Faults) {
    && req.cookie.Some? && now <= req.cookie.value.expiresAt && BindingMatches(req, req.cookie.value)
    && CheckRevoked(st, now, req.cookie.value.index, faults.revokeDown) == Some(false)
  }

  function Sessions(st: State, now: int, req: SSORequest, faults: Faults): (State, SSOResult) {
    if req.handOff.Some? then
      (st, if MintedBindingMatches(req, req.handOff.value) then Granted(req.handOff.value, HandOff) else Denied(403))
    else if CookieUsable(st, now, req, faults) then (st, Granted(req.cookie.value, Cookie))
    else if RefusedStatus(req.bearer).Some? && req.targetSP.Some? then (st, Denied(RefusedStatus(req.bearer).value))
    else if req.bearer.NoToken? && req.targetSP.Some? && !req.loginPage.NoPage? then
      (st, if req.loginPage.Available? then CustomLogin else Denied(500))
    else
      var (claimed, refused) := Claimed(st, now, req.authnID, faults);
      if refused.Some? then (claimed, Denied(refused.value))
      else if req.targetSP.None? || req.bearer.NoSubject? then (claimed, Denied(401))
      else if req.bearer.NoToken? then (claimed, if req.resolvable then HostedLogin else Denied(500))
      else (claimed,
            Granted(NewSession(now, req.freshIndex, req.bearer.configuredSec, req.tenant, req.targetSP.value), Bearer))
  }
}
