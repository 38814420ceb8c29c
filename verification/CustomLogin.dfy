/** Custom-login flows: the pending row written when a browser is sent to an application's
    own login page, the signed cookie that binds the flow to that browser, and the two
    endpoints that consume it (internal/store/pending_login_store.go,
    internal/saml/session_provider.go, internal/saml/idp.go, internal/oidc/login.go). */
module CustomLogin {
  import opened Wrappers
  import opened Clock

  datatype Protocol = SAML | OIDC

  /** The row of one flow; `target` is the service provider or the auth request. */
  datatype PendingLogin = PendingLogin(protocol: Protocol, tenant: string, target: string, expiresAt: int)

  /** An authentic binding cookie. The two protocols use different cookie names and keys. */
  datatype Binding = Binding(protocol: Protocol, flowID: string, createdAt: int)

  type Rows = map<string, PendingLogin>

  const FLOW_LIFETIME := 600 * SECOND
  const COOKIE_MAX_AGE := 600

  /** What becomes of a token: it is good, or the identity source is unknown, has no pool or
      is misconfigured, or the token does not verify, or no session (or auth request) can be
      completed from its claims. */
  datatype TokenFate = Good | SourceUnknown | SourceWithoutPool | SourceInvalid | NotVerified | NotCompleted

  /** What a completion request brings: the path tenant, the flow it names, the cookie sent,
      the token's fate (None when no token was sent), and whether the store refuses the
      delete. */
  datatype Completion = Completion(protocol: Protocol, tenant: string, flowID: string, cookie: Option<Binding>,
                                   token: Option<TokenFate>, deleteFails: bool)

  datatype Outcome = BadRequest | NotBound | InvalidFlow | TenantMismatch | TokenRefused(fate: TokenFate)
    | LoggedIn(login: PendingLogin)

  predicate Bound(c: Completion, now: int) {
    && c.cookie.Some? && c.cookie.value.protocol == c.protocol
    && c.cookie.value.flowID != "" && c.cookie.value.flowID == c.flowID
    && Unix(now) - c.cookie.value.createdAt <= COOKIE_MAX_AGE
  }

  predicate Present(rows: Rows, flowID: string, now: int) {
    flowID in rows && Unix(now) <= rows[flowID].expiresAt
  }

  class LoginFlows {
    var rows: Rows

    constructor ()
      ensures rows == map[]
    {
      rows := map[];
    }

    /** Refuses an empty flow ID. */
    method Create(now: int, flowID: string, protocol: Protocol, tenant: string, target: string)
      returns (cookie: Option<Binding>)
      modifies this
      ensures flowID == "" ==> cookie.None? && rows == old(rows)
      ensures flowID != "" ==> cookie == Some(Binding(protocol, flowID, Unix(now)))
                               && rows == old(rows)[flowID := PendingLogin(protocol, tenant, target, Unix(now) + 600)]
    {
      if flowID == "" { return None; }
      rows := rows[flowID := PendingLogin(protocol, tenant, target, Unix(now + FLOW_LIFETIME))];
      return Some(Binding(protocol, flowID, Unix(now)));
    }

    method Get(now: int, flowID: string) returns (r: Option<PendingLogin>)
      ensures r.Some? <==> flowID in rows && Unix(now) <= rows[flowID].expiresAt
      ensures r.Some? ==> r.value == rows[flowID]
    {
      if flowID !in rows { return None; }
      if Unix(now) > rows[flowID].expiresAt { return None; }
      return Some(rows[flowID]);
    }

    method Delete(flowID: string, fails: bool)
      modifies this
      ensures rows == if fails then old(rows) else old(rows) - {flowID}
    {
      if !fails { rows := rows - {flowID}; }
    }

    /** The SAML endpoint: the row is consumed before the token is verified and before the
        flow's tenant is compared with the path. */
    method CompleteSAML(now: int, c: Completion) returns (r: Outcome)
      requires c.protocol.SAML?
      modifies this
      ensures r.LoggedIn? <==>
                && c.token == Some(Good) && c.tenant != "" && c.flowID != ""
                && c.flowID in old(rows) && Unix(now) <= old(rows)[c.flowID].expiresAt
                && old(rows)[c.flowID].protocol == SAML && old(rows)[c.flowID].tenant == c.tenant
                && c.cookie.Some? && c.cookie.value.protocol == SAML && c.cookie.value.flowID == c.flowID
                && Unix(now) - c.cookie.value.createdAt <= 600
      ensures r.LoggedIn? ==> r.login == old(rows)[c.flowID]
      // Which refusal each failing check gets.
      ensures r.BadRequest? <==> c.tenant == "" || c.token.None? || c.flowID == ""
      ensures r.NotBound? <==> && c.tenant != "" && c.token.Some? && c.flowID != ""
                               && !(&& c.cookie.Some? && c.cookie.value.protocol == SAML
                                    && c.cookie.value.flowID == c.flowID
                                    && Unix(now) - c.cookie.value.createdAt <= 600)
      ensures r.InvalidFlow? ==> !(&& c.flowID in old(rows) && Unix(now) <= old(rows)[c.flowID].expiresAt
                                   && old(rows)[c.flowID].protocol == SAML)
      ensures !r.BadRequest? && !r.NotBound? && !r.InvalidFlow? ==>
                && c.flowID in old(rows) && Unix(now) <= old(rows)[c.flowID].expiresAt
                && old(rows)[c.flowID].protocol == SAML
      ensures !r.BadRequest? && !r.NotBound? && !r.InvalidFlow? ==>
                && (c.token.value != Good ==> r == TokenRefused(c.token.value))
                && (c.token.value == Good && old(rows)[c.flowID].tenant != c.tenant ==> r == TenantMismatch)
      ensures rows == if r.BadRequest? || r.NotBound? || r.InvalidFlow? || c.deleteFails then old(rows)
                      else old(rows) - {c.flowID}
      ensures (rows, r) == Complete(old(rows), now, c)
    {
      if c.tenant == "" || c.token.None? || c.flowID == "" { return BadRequest; }
      if !Bound(c, now) { return NotBound; }
      var pl := Get(now, c.flowID);
      if pl.None? || pl.value.protocol != SAML { return InvalidFlow; }
      Delete(c.flowID, c.deleteFails);
      if !c.token.value.Good? { return TokenRefused(c.token.value); }
      if pl.value.tenant != c.tenant { return TenantMismatch; }
      return LoggedIn(pl.value);
    }

    /** The OIDC endpoint: the tenant is compared first, and only then the row consumed. */
    method CompleteOIDC(now: int, c: Completion) returns (r: Outcome)
      requires c.protocol.OIDC?
      modifies this
      ensures r.LoggedIn? <==>
                && c.token == Some(Good) && c.tenant != "" && c.flowID != ""
                && c.flowID in old(rows) && Unix(now) <= old(rows)[c.flowID].expiresAt
                && old(rows)[c.flowID].protocol == OIDC && old(rows)[c.flowID].tenant == c.tenant
                && c.cookie.Some? && c.cookie.value.protocol == OIDC && c.cookie.value.flowID == c.flowID
                && Unix(now) - c.cookie.value.createdAt <= 600
      ensures r.LoggedIn? ==> r.login == old(rows)[c.flowID]
      // Which refusal each failing check gets.
      ensures r.BadRequest? <==> c.tenant == "" || c.token.None? || c.flowID == ""
      ensures r.NotBound? <==> && c.tenant != "" && c.token.Some? && c.flowID != ""
                               && !(&& c.cookie.Some? && c.cookie.value.protocol == OIDC
                                    && c.cookie.value.flowID == c.flowID
                                    && Unix(now) - c.cookie.value.createdAt <= 600)
      ensures r.InvalidFlow? ==> !(&& c.flowID in old(rows) && Unix(now) <= old(rows)[c.flowID].expiresAt
                                   && old(rows)[c.flowID].protocol == OIDC)
      ensures !r.BadRequest? && !r.NotBound? && !r.InvalidFlow? ==>
                && c.flowID in old(rows) && Unix(now) <= old(rows)[c.flowID].expiresAt
                && old(rows)[c.flowID].protocol == OIDC
      ensures !r.BadRequest? && !r.NotBound? && !r.InvalidFlow? ==>
                && (old(rows)[c.flowID].tenant != c.tenant ==> r == TenantMismatch)
                && (old(rows)[c.flowID].tenant == c.tenant && c.token.value != Good
                    ==> r == TokenRefused(c.token.value))
      ensures rows == if r.LoggedIn? || r.TokenRefused?
              then (if c.deleteFails then old(rows) else old(rows) - {c.flowID})
                      else old(rows)
      ensures (rows, r) == Complete(old(rows), now, c)
    {
      if c.tenant == "" || c.token.None? || c.flowID == "" { return BadRequest; }
      if !Bound(c, now) { return NotBound; }
      var pl := Get(now, c.flowID);
      if pl.None? || pl.value.protocol != OIDC { return InvalidFlow; }
      if pl.value.tenant != c.tenant { return TenantMismatch; }
      Delete(c.flowID, c.deleteFails);
      if !c.token.value.Good? { return TokenRefused(c.token.value); }
      return LoggedIn(pl.value);
    }
  }

  /** What an attempt does to the rows, and says. */
  function Complete(rows: Rows, now: int, c: Completion): (Rows, Outcome) {
    if c.tenant == "" || c.token.None? || c.flowID == "" then (rows, BadRequest)
    else if !Bound(c, now) then (rows, NotBound)
    else if !Present(rows, c.flowID, now) || rows[c.flowID].protocol != c.protocol then (rows, InvalidFlow)
    else
      var pl := rows[c.flowID];
      var left := if Consumes(rows, now, c) then rows - {c.flowID} else rows;
      (left, if c.protocol.OIDC? && pl.tenant != c.tenant then TenantMismatch
             else if !c.token.value.Good? then TokenRefused(c.token.value)
             else if pl.tenant != c.tenant then TenantMismatch
             else LoggedIn(pl))
  }

  /** Exactly which attempts use a flow up. */
  predicate Consumes(rows: Rows, now: int, c: Completion) {
    && c.tenant != "" && c.token.Some? && Bound(c, now) && Present(rows, c.flowID, now)
    && rows[c.flowID].protocol == c.protocol
    && (c.protocol.OIDC? ==> rows[c.flowID].tenant == c.tenant) && !c.deleteFails
  }

  // ---------- Runs ----------

  datatype Begun = Begun(at: int, protocol: Protocol, tenant: string, target: string)

  /** The rows, the clock, every binding cookie signed and every flow begun. */
  datatype World = World(rows: Rows, now: int, cookies: set<Binding>, begun: map<string, Begun>)

  datatype Event =
    | Begin(flowID: string, protocol: Protocol, tenant: string, target: string)
    | Attempt(completion: Completion)
    | Sweep(swept: string)

  datatype Step = Step(at: int, event: Event)

  /** Flow IDs are fresh and cookies cannot be forged. */
  predicate Enabled(w: World, s: Step) {
    s.at >= w.now &&
    match s.event
    case Begin(flowID, _, _, _) => flowID != "" && flowID !in w.begun
    case Attempt(c) => c.cookie.Some? ==> c.cookie.value in w.cookies
    case Sweep(flowID) => flowID in w.rows && Reapable(w.rows[flowID].expiresAt, s.at)
  }

  function Apply(w: World, s: Step): World {
    match s.event
    case Begin(flowID, protocol, tenant, target) =>
      World(w.rows[flowID := PendingLogin(protocol, tenant, target, Unix(s.at) + 600)], s.at,
            w.cookies + {Binding(protocol, flowID, Unix(s.at))},
            w.begun[flowID := Begun(s.at, protocol, tenant, target)])
    case Attempt(c) => w.(now := s.at, rows := Complete(w.rows, s.at, c).0)
    case Sweep(flowID) => w.(now := s.at, rows := w.rows - {flowID})
  }

  predicate Legal(w: World, steps: seq<Step>)
    decreases |steps|
  {
    steps == [] || (Enabled(w, steps[0]) && Legal(Apply(w, steps[0]), steps[1..]))
  }

  function Exec(w: World, steps: seq<Step>): World
    decreases |steps|
  {
    if steps == [] then w else Exec(Apply(w, steps[0]), steps[1..])
  }

  function Initial(start: int): World { World(map[], start, {}, map[]) }

  predicate Succeeds(w: World, s: Step, flowID: string) {
    s.event.Attempt? && s.event.completion.flowID == flowID && Complete(w.rows, s.at, s.event.completion).1.LoggedIn?
  }

  /** Rows and cookies are those of the flows begun. */
  ghost predicate Inv(w: World) {
    && (forall f :: f in w.rows ==>
          (f in w.begun
           && w.rows[f]
              == PendingLogin(w.begun[f].protocol, w.begun[f].tenant, w.begun[f].target, Unix(w.begun[f].at) + 600)))
    && (forall b :: b in w.cookies ==>
          b.flowID in w.begun && b == Binding(w.begun[b.flowID].protocol, b.flowID, Unix(w.begun[b.flowID].at)))
  }

  lemma {:induction false} StepKeepsInv(w: World, s: Step)
    requires Inv(w) && Enabled(w, s)
    ensures Inv(Apply(w, s))
  {
  }

  ghost predicate BegunIn(steps: seq<Step>, flowID: string, b: Begun) {
    exists i :: 0 <= i < |steps| && steps[i] == Step(b.at, Begin(flowID, b.protocol, b.tenant, b.target))
  }

  lemma {:induction false} RunKeepsInv(w: World, steps: seq<Step>, flowID: string)
    requires Inv(w) && Legal(w, steps)
    ensures Inv(Exec(w, steps))
    ensures flowID in Exec(w, steps).begun ==>
              (flowID in w.begun && w.begun[flowID] == Exec(w, steps).begun[flowID])
                || BegunIn(steps, flowID, Exec(w, steps).begun[flowID])
    decreases |steps|
  {
    hide Inv, Complete;
    if steps == [] {
    } else {
      StepKeepsInv(w, steps[0]);
      RunKeepsInv(Apply(w, steps[0]), steps[1..], flowID);
      assert forall i :: 0 <= i < |steps[1..]| ==> steps[1..][i] == steps[i + 1];
      if flowID in Exec(w, steps).begun && flowID !in w.begun && flowID in Apply(w, steps[0]).begun
        && Apply(w, steps[0]).begun[flowID] == Exec(w, steps).begun[flowID] {
        var b := Exec(w, steps).begun[flowID];
        assert steps[0] == Step(b.at, Begin(flowID, b.protocol, b.tenant, b.target));
      }
    }
  }

  /** In every run, a login through a flow comes with a good token and is for the protocol,
      tenant and target the flow was begun for, within six hundred seconds of that, and with
      the very cookie handed out then. */
  lemma {:induction false} LoginsBelongToTheirFlow(start: int, steps: seq<Step>, s: Step, flowID: string)
    requires Legal(Initial(start), steps) && Enabled(Exec(Initial(start), steps), s)
             && Succeeds(Exec(Initial(start), steps), s, flowID)
    ensures s.event.completion.token == Some(Good)
    ensures exists b :: && BegunIn(steps, flowID, b)
                        && s.event.completion.protocol == b.protocol && s.event.completion.tenant == b.tenant
                        && Complete(Exec(Initial(start), steps).rows, s.at, s.event.completion).1.login.target
                           == b.target
                        && s.event.completion.cookie == Some(Binding(b.protocol, flowID, Unix(b.at)))
                        && Unix(s.at) <= Unix(b.at) + 600
  {
    hide Apply, Legal, Exec;
    RunKeepsInv(Initial(start), steps, flowID);
    var w := Exec(Initial(start), steps);
    assert Present(w.rows, flowID, s.at);
    var b := w.begun[flowID];
    assert BegunIn(steps, flowID, b);
  }

  /** An attempt refused before or at the binding check leaves every row as it was. */
  lemma {:induction false} UnboundAttemptTouchesNothing(rows: Rows, now: int, c: Completion)
    requires !Bound(c, now)
    ensures Complete(rows, now, c).0 == rows && Complete(rows, now, c).1 in {BadRequest, NotBound}
  {
  }

  // ---------- Single use ----------

  lemma {:induction false} GoneStaysGone(w: World, steps: seq<Step>, flowID: string)
    requires Legal(w, steps) && flowID in w.begun && flowID !in w.rows
    ensures flowID !in Exec(w, steps).rows
    decreases |steps|
  {
    if steps == [] {
    } else {
      GoneStaysGone(Apply(w, steps[0]), steps[1..], flowID);
    }
  }

  /** The same flow logs somebody in a second time. */
  ghost predicate UsedAgain(w: World, s: Step, flowID: string) {
    exists steps, again: Step ::
      Legal(Apply(w, s), steps) && Enabled(Exec(Apply(w, s), steps), again)
        && Succeeds(Exec(Apply(w, s), steps), again, flowID)
  }

  /** A flow that has logged somebody in can do so again if and only if the store refused
      to delete its row: the result of that delete is ignored. */
  lemma {:induction false} UsedAgainIffDeleteFailed(w: World, s: Step, flowID: string)
    requires Inv(w) && Enabled(w, s) && Succeeds(w, s, flowID)
    ensures UsedAgain(w, s, flowID) <==> s.event.completion.deleteFails
  {
    var w1 := Apply(w, s);
    if s.event.completion.deleteFails {
      assert Exec(w1, []) == w1 && Legal(w1, []);
      assert Enabled(w1, s) && Succeeds(w1, s, flowID);
    } else {
      forall steps, again: Step | Legal(w1, steps) && Enabled(Exec(w1, steps), again)
        ensures !Succeeds(Exec(w1, steps), again, flowID) {
        GoneStaysGone(w1, steps, flowID);
      }
    }
  }

  /** An attempt for the wrong tenant, otherwise in order: the SAML endpoint uses the flow
      up, the OIDC endpoint leaves it for the right one. Neither logs anybody in. */
  lemma {:induction false} WrongTenantConsumesSAMLOnly(rows: Rows, now: int, c: Completion)
    requires c.tenant != "" && c.token.Some? && Bound(c, now) && !c.deleteFails
    requires Present(rows, c.flowID, now) && rows[c.flowID].protocol == c.protocol && rows[c.flowID].tenant != c.tenant
    ensures !Complete(rows, now, c).1.LoggedIn?
    ensures c.flowID in Complete(rows, now, c).0 <==> c.protocol.OIDC?
  {
  }
}
