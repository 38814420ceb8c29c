/** What holds of every run of the SAML gateway: sessions are only handed out where they
    belong and while they live, revocation lasts exactly as long as its marker, and a
    logout request is honoured again exactly when it outlives its replay mark. */
module SamlRuns {
  import opened Wrappers
  import opened Clock
  import opened SamlGateway
  import RedirectQuery

  datatype Row = SeenRow(id: string) | RevokedRow(index: string) | ParticipantRow(key: ParticipantKey)

  datatype Event =
    | Logout(tenant: string, query: string, faults: Faults)
    | SSO(request: SSORequest, ssoFaults: Faults)
    | Mint(index: string, configuredSec: int, tenant: string, sp: string)
    | Join(joined: ParticipantKey, expiresAt: int)
    | Sweep(row: Row)

  datatype Step = Step(at: int, event: Event)

  /** The store, the clock, and every session cookie ever signed. */
  datatype World = World(st: State, now: int, minted: set<Envelope>)

  const PARTICIPANT_GRACE := 1 * HOUR

  predicate Sweepable(st: State, row: Row, now: int) {
    match row
    case SeenRow(id) => id in st.seen && Reapable(st.seen[id], now)
    case RevokedRow(i) => i in st.revoked && Reapable(st.revoked[i], now)
    case ParticipantRow(k) => k in st.participants && Reapable(Unix(st.participants[k] + PARTICIPANT_GRACE), now)
  }

  function Swept(st: State, row: Row): State {
    match row
    case SeenRow(id) => st.(seen := st.seen - {id})
    case RevokedRow(i) => st.(revoked := st.revoked - {i})
    case ParticipantRow(k) => st.(participants := st.participants - {k})
  }

  /** Cookies cannot be forged, hand-overs are of sessions minted within the same handler,
      providers have a non-empty entity ID, and the sweep takes only rows past their TTL. */
  predicate Enabled(w: World, s: Step) {
    s.at >= w.now &&
    match s.event
    case Mint(_, _, _, sp) => sp != ""
    case SSO(req, _) =>
      && (req.cookie.Some? ==> req.cookie.value in w.minted)
      && (req.handOff.Some? ==> req.handOff.value in w.minted && req.handOff.value.createdAt == s.at)
      && req.targetSP != Some("")
    case Sweep(row) => Sweepable(w.st, row, s.at)
    case _ => true
  }

  /** At a time, for a tenant and a query, the request that passes every check but
      freshness; registrations of service providers may change as time passes. */
  type Verdicts = (int, string, string) -> Option<LogoutRequest>

  /** The verdicts of HandleSLO: every check of the request but the clock's. */
  ghost function Verified(out: Outside, tenant: string, query: string): Option<LogoutRequest> {
    match RedirectQuery.Extract(query)
    case Err(_) => None
    case Ok(p) =>
      match out.decode(p.samlRequest)
      case None => None
      case Some(req) =>
        match out.lookup(tenant, req.issuer)
        case None => None
        case Some(cfg) =>
          if Known(out, tenant, query, p, req, cfg) && RightDestination(out, tenant, req)
             && RedirectQuery.VerifyRedirectSignature(p, cfg.cert, cfg.allowSHA1, out.base64, out.valid).None?
          then Some(req) else None
  }

  /** The request a logout query brings at some time, if it is authentic. */
  function Read(verdicts: Verdicts, now: int, tenant: string, query: string): Option<LogoutRequest> {
    var req := verdicts(now, tenant, query);
    if req.Some? && FreshRequest(req.value, now) then req else None
  }

  /** The runs below hold for any verdicts; under the handler's own, the request a run reads
      is the one of which HandleSLO's contract speaks. */
  lemma {:induction false} ReadIsAuthentic(out: Outside, verdicts: Verdicts, now: int, tenant: string, query: string,
                                           req: LogoutRequest)
    requires verdicts(now, tenant, query) == Verified(out, tenant, query)
    ensures Read(verdicts, now, tenant, query) == Some(req)
            <==> exists p, cfg :: Authentic(out, now, tenant, query, p, req, cfg)
  {
    hide RedirectQuery.Extract, RedirectQuery.VerifyRedirectSignature, FreshRequest, DestinationMatches;
    if Read(verdicts, now, tenant, query) == Some(req) {
      var p := RedirectQuery.Extract(query).value;
      assert Authentic(out, now, tenant, query, p, req, out.lookup(tenant, req.issuer).value);
    }
  }

  /** The logout request a step honours, if any. */
  ghost function Honoured(verdicts: Verdicts, w: World, s: Step): Option<LogoutRequest> {
    if !s.event.Logout? then None
    else match Read(verdicts, s.at, s.event.tenant, s.event.query)
      case None => None
      case Some(req) => if Unclaimed(w.st, req.id, s.event.faults) then Some(req) else None
  }

  ghost function Apply(verdicts: Verdicts, w: World, s: Step): World {
    match s.event
    case Logout(_, _, faults) =>
      w.(now := s.at,
         st := if Honoured(verdicts, w, s).Some? then AfterLogout(w.st, s.at, Honoured(verdicts, w, s).value, faults)
           else w.st)
    case SSO(req, faults) =>
      var (st, r) := Sessions(w.st, s.at, req, faults);
      w.(now := s.at, st := st, minted := if r.Granted? then w.minted + {r.session} else w.minted)
    case Mint(index, sec, tenant, sp) =>
      w.(now := s.at, minted := w.minted + {NewSession(s.at, index, sec, tenant, sp)})
    case Join(k, expiresAt) => w.(now := s.at, st := w.st.(participants := w.st.participants[k := expiresAt]))
    case Sweep(row) => w.(now := s.at, st := Swept(w.st, row))
  }

  ghost predicate Legal(verdicts: Verdicts, w: World, steps: seq<Step>)
    decreases |steps|
  {
    steps == [] || (Enabled(w, steps[0]) && Legal(verdicts, Apply(verdicts, w, steps[0]), steps[1..]))
  }

  ghost function Exec(verdicts: Verdicts, w: World, steps: seq<Step>): World
    decreases |steps|
  {
    if steps == [] then w else Exec(verdicts, Apply(verdicts, w, steps[0]), steps[1..])
  }

  function Initial(start: int): World { World(State(map[], map[], map[]), start, {}) }

  // ---------- Where sessions come from ----------

  /** The cookie was signed by some step of the run, for this tenant and provider, with a
      lifetime the provider's configuration allows. */
  ghost predicate MintedBy(s: Step, env: Envelope) {
    (s.event.Mint? && env == NewSession(s.at, s.event.index, s.event.configuredSec, s.event.tenant, s.event.sp))
    || (s.event.SSO? && s.event.request.bearer.GoodToken? && s.event.request.targetSP.Some?
        && env == NewSession(s.at, s.event.request.freshIndex, s.event.request.bearer.configuredSec,
                             s.event.request.tenant, s.event.request.targetSP.value))
  }

  ghost predicate MintedIn(steps: seq<Step>, env: Envelope) {
    exists i :: 0 <= i < |steps| && MintedBy(steps[i], env)
  }

  lemma {:induction false} NewCookieIsMinted(verdicts: Verdicts, w: World, s: Step, env: Envelope)
    requires Enabled(w, s) && env in Apply(verdicts, w, s).minted && env !in w.minted
    ensures MintedBy(s, env) && env.createdAt == s.at && env.sp != ""
  {
    hide Honoured, SessionDuration, AfterLogout, CheckRevoked, BindingMatches, MintedBindingMatches, Swept;
  }

  lemma {:induction false} StepKeepsCookies(verdicts: Verdicts, w: World, s: Step)
    requires Enabled(w, s)
    ensures w.minted <= Apply(verdicts, w, s).minted && w.now <= Apply(verdicts, w, s).now == s.at
  {
    hide Honoured, Sessions, AfterLogout, Swept;
  }

  ghost predicate CookiesOk(w: World) {
    forall env :: env in w.minted ==> env.createdAt <= w.now && env.sp != ""
  }

  lemma {:induction false} CookiesComeFromMinting(verdicts: Verdicts, w: World, steps: seq<Step>, env: Envelope)
    requires Legal(verdicts, w, steps) && CookiesOk(w) && env in Exec(verdicts, w, steps).minted
    ensures env in w.minted || MintedIn(steps, env)
    ensures CookiesOk(Exec(verdicts, w, steps)) && w.now <= Exec(verdicts, w, steps).now
    decreases |steps|
  {
    hide Enabled, Apply, MintedBy;
    if steps == [] {
    } else {
      var w' := Apply(verdicts, w, steps[0]);
      StepKeepsCookies(verdicts, w, steps[0]);
      forall e | e in w'.minted && e !in w.minted
        ensures MintedBy(steps[0], e) && e.createdAt == steps[0].at && e.sp != "" {
        NewCookieIsMinted(verdicts, w, steps[0], e);
      }
      CookiesComeFromMinting(verdicts, w', steps[1..], env);
      assert forall i :: 0 <= i < |steps[1..]| ==> steps[1..][i] == steps[i + 1];
    }
  }

  /** In every run, a session handed out on a tenant's path is unexpired and was minted for
      that tenant, and for the requested service provider whenever it is known. */
  lemma {:induction false} SessionsAreBound(verdicts: Verdicts, start: int, steps: seq<Step>, at: int, req: SSORequest,
                                            faults: Faults)
    requires Legal(verdicts, Initial(start), steps)
             && Enabled(Exec(verdicts, Initial(start), steps), Step(at, SSO(req, faults)))
    requires Sessions(Exec(verdicts, Initial(start), steps).st, at, req, faults).1.Granted?
    ensures var env := Sessions(Exec(verdicts, Initial(start), steps).st, at, req, faults).1.session;
            && env.tenant == req.tenant && at <= env.expiresAt
            && (req.targetSP.Some? ==> env.sp == req.targetSP.value)
            && MintedIn(steps + [Step(at, SSO(req, faults))], env)
  {
    hide Apply, Legal, Exec, CheckRevoked;
    var w := Exec(verdicts, Initial(start), steps);
    var s := Step(at, SSO(req, faults));
    var env := Sessions(w.st, at, req, faults).1.session;
    assert forall i :: 0 <= i < |steps| ==> (steps + [s])[i] == steps[i];
    assert (steps + [s])[|steps|] == s;
    DurationBounds(req.bearer);
    if env in w.minted {
      CookiesComeFromMinting(verdicts, Initial(start), steps, env);
      assert env in Initial(start).minted || MintedIn(steps, env);
      MintedInLonger(steps, s, env);
      if req.handOff.Some? { MintedLastsAtLeastFiveMinutes(steps, env); }
    } else {
      assert MintedBy(s, env);
    }
  }

  lemma {:induction false} MintedInLonger(steps: seq<Step>, s: Step, env: Envelope)
    requires MintedIn(steps, env)
    ensures MintedIn(steps + [s], env)
  {
    hide MintedBy;
    var i :| 0 <= i < |steps| && MintedBy(steps[i], env);
    assert (steps + [s])[i] == steps[i];
  }

  lemma {:induction false} DurationBounds(bearer: BearerToken)
    ensures bearer.GoodToken? ==> 300 * SECOND <= SessionDuration(bearer.configuredSec) <= 86400 * SECOND
  {
  }

  lemma {:induction false} MintedLastsAtLeastFiveMinutes(steps: seq<Step>, env: Envelope)
    requires MintedIn(steps, env)
    ensures 300 * SECOND <= env.expiresAt - env.createdAt <= 86400 * SECOND
  {
  }

  // ---------- Replay of logout requests ----------

  /** The mark set for `id` still stands, or the second it ran to is over. */
  predicate MarkStands(w: World, id: string, until: int) {
    (id in w.st.seen && w.st.seen[id] == until) || Unix(w.now) > until
  }

  lemma {:induction false} UnixMonotone(a: int, b: int)
    requires a <= b
    ensures Unix(a) <= Unix(b)
  {
  }

  lemma {:induction false} UnixStrict(a: int, b: int)
    requires Unix(a) < Unix(b)
    ensures a < b
  {
  }

  lemma {:induction false} SSOTouchesMarksOnly(st: State, now: int, req: SSORequest, faults: Faults)
    ensures var st' := Sessions(st, now, req, faults).0;
            && st'.revoked == st.revoked && st'.participants == st.participants
            && forall id :: id in st.seen ==> id in st'.seen && st'.seen[id] == st.seen[id]
  {
    hide CheckRevoked, BindingMatches, MintedBindingMatches, NewSession;
  }

  lemma {:induction false} StepKeepsMark(verdicts: Verdicts, w: World, s: Step, id: string, until: int)
    requires Enabled(w, s) && MarkStands(w, id, until)
    ensures MarkStands(Apply(verdicts, w, s), id, until)
  {
    hide Sessions, Read, NewSession;
    UnixMonotone(w.now, s.at);
    if s.event.SSO? { SSOTouchesMarksOnly(w.st, s.at, s.event.request, s.event.ssoFaults); }
  }

  lemma {:induction false} RunKeepsMark(verdicts: Verdicts, w: World, steps: seq<Step>, id: string, until: int)
    requires Legal(verdicts, w, steps) && MarkStands(w, id, until)
    ensures MarkStands(Exec(verdicts, w, steps), id, until) && w.now <= Exec(verdicts, w, steps).now
    decreases |steps|
  {
    hide Enabled, Apply, MarkStands;
    if steps == [] {
    } else {
      StepKeepsMark(verdicts, w, steps[0], id, until);
      StepKeepsCookies(verdicts, w, steps[0]);
      RunKeepsMark(verdicts, Apply(verdicts, w, steps[0]), steps[1..], id, until);
    }
  }

  lemma {:induction false} HonouredIsFresh(verdicts: Verdicts, w: World, s: Step)
    requires Honoured(verdicts, w, s).Some?
    ensures s.event.Logout? && FreshRequest(Honoured(verdicts, w, s).value, s.at)
            && Unclaimed(w.st, Honoured(verdicts, w, s).value.id, s.event.faults)
  {
    hide FreshRequest;
  }

  lemma {:induction false} HonouringMarks(verdicts: Verdicts, w: World, s: Step)
    requires Enabled(w, s) && Honoured(verdicts, w, s).Some? && Honoured(verdicts, w, s).value.id != ""
    ensures MarkStands(Apply(verdicts, w, s), Honoured(verdicts, w, s).value.id, Unix(s.at) + 480)
  {
    hide Read;
  }

  /** An ID honoured at one time is honoured again only after its mark has run out, and
      only for a request issued in a strictly later second than the first was honoured;
      unless it is empty, since requests without an ID are never marked. */
  lemma {:induction false} HonouredAgainMeansIssuedLater(verdicts: Verdicts, w: World, s: Step, steps: seq<Step>,
                                                         again: Step)
    requires Enabled(w, s) && Honoured(verdicts, w, s).Some?
    requires Legal(verdicts, Apply(verdicts, w, s), steps)
             && Enabled(Exec(verdicts, Apply(verdicts, w, s), steps), again)
    requires Honoured(verdicts, Exec(verdicts, Apply(verdicts, w, s), steps), again).Some?
    requires Honoured(verdicts, Exec(verdicts, Apply(verdicts, w, s), steps), again).value.id
             == Honoured(verdicts, w, s).value.id
    ensures var later := Honoured(verdicts, Exec(verdicts, Apply(verdicts, w, s), steps), again).value;
            later.id != "" ==>
              Unix(again.at) > Unix(s.at) + 480 && later.issueInstant.Some?
                && Unix(later.issueInstant.value) > Unix(s.at)
  {
    hide Honoured, Apply, Exec, Legal;
    var id := Honoured(verdicts, w, s).value.id;
    if id != "" {
      var w1 := Apply(verdicts, w, s);
      var w2 := Exec(verdicts, w1, steps);
      HonouringMarks(verdicts, w, s);
      RunKeepsMark(verdicts, w1, steps, id, Unix(s.at) + 480);
      HonouredIsFresh(verdicts, w2, again);
      UnixMonotone(w2.now, again.at);
      var issued := Honoured(verdicts, w2, again).value.issueInstant.value;
      UnixMonotone(again.at - SLO_REPLAY_TTL, issued);
    }
  }

  /** A logout request first honoured at or after its issue instant is honoured at most
      once in the whole run, under any sweep, if it has an ID. */
  lemma {:induction false} LogoutHonouredOnce(verdicts: Verdicts, w: World, s: Step, steps: seq<Step>, again: Step)
    requires Enabled(w, s) && Honoured(verdicts, w, s).Some?
    requires Honoured(verdicts, w, s).value.issueInstant.Some?
             && Honoured(verdicts, w, s).value.issueInstant.value <= s.at
    requires Legal(verdicts, Apply(verdicts, w, s), steps)
             && Enabled(Exec(verdicts, Apply(verdicts, w, s), steps), again)
    ensures Honoured(verdicts, Exec(verdicts, Apply(verdicts, w, s), steps), again) == Honoured(verdicts, w, s)
            ==> Honoured(verdicts, w, s).value.id == ""
  {
    hide Honoured, Apply, Exec, Legal, Enabled;
    UnixMonotone(Honoured(verdicts, w, s).value.issueInstant.value, s.at);
    if Honoured(verdicts, Exec(verdicts, Apply(verdicts, w, s), steps), again) == Honoured(verdicts, w, s) {
      HonouredAgainMeansIssuedLater(verdicts, w, s, steps, again);
    }
  }

  /** The last instant at which a request is still fresh. */
  function LastFresh(req: LogoutRequest): int
    requires req.issueInstant.Some?
  {
    var byAge := req.issueInstant.value + SLO_MAX_REQUEST_AGE + SLO_CLOCK_SKEW;
    if req.notOnOrAfter.Some? && req.notOnOrAfter.value + SLO_CLOCK_SKEW - 1 < byAge
    then req.notOnOrAfter.value + SLO_CLOCK_SKEW - 1 else byAge
  }

  /** From some instant at which it is fresh, a request stays fresh up to LastFresh. */
  lemma {:induction false} FreshUntil(req: LogoutRequest, t0: int, t: int)
    requires FreshRequest(req, t0) && t0 <= t
    ensures FreshRequest(req, t) <==> t <= LastFresh(req)
  {
  }

  /** The provider's registration stays as it is. */
  ghost predicate Steady(verdicts: Verdicts, tenant: string, query: string) {
    forall t, u :: verdicts(t, tenant, query) == verdicts(u, tenant, query)
  }

  lemma {:induction false} ReadLater(verdicts: Verdicts, t0: int, t: int, tenant: string, query: string)
    requires Steady(verdicts, tenant, query) && Read(verdicts, t0, tenant, query).Some?
             && t0 <= t <= LastFresh(Read(verdicts, t0, tenant, query).value)
    ensures Read(verdicts, t, tenant, query) == Read(verdicts, t0, tenant, query)
  {
    hide LastFresh, FreshRequest;
    FreshUntil(Read(verdicts, t0, tenant, query).value, t0, t);
  }

  /** Some legal continuation honours the same query again. */
  ghost predicate CanRepeat(verdicts: Verdicts, w: World, s: Step)
    requires s.event.Logout?
  {
    exists steps, again: Step ::
      && Legal(verdicts, Apply(verdicts, w, s), steps) && Enabled(Exec(verdicts, Apply(verdicts, w, s), steps), again)
      && again.event.Logout? && again.event.tenant == s.event.tenant && again.event.query == s.event.query
      && Honoured(verdicts, Exec(verdicts, Apply(verdicts, w, s), steps), again) == Honoured(verdicts, w, s)
  }

  lemma {:induction false} RepeatNeedsLongLife(verdicts: Verdicts, w: World, s: Step)
    requires Enabled(w, s) && Honoured(verdicts, w, s).Some? && Honoured(verdicts, w, s).value.id != ""
             && CanRepeat(verdicts, w, s)
    ensures Honoured(verdicts, w, s).value.issueInstant.Some?
            && Unix(LastFresh(Honoured(verdicts, w, s).value)) > Unix(s.at) + 480
  {
    hide Honoured, Apply, Exec, Legal, Enabled, LastFresh;
    var steps, again :| Legal(verdicts, Apply(verdicts, w, s), steps)
      && Enabled(Exec(verdicts, Apply(verdicts, w, s), steps), again)
      && again.event.Logout?
      && Honoured(verdicts, Exec(verdicts, Apply(verdicts, w, s), steps), again) == Honoured(verdicts, w, s);
    HonouredAgainMeansIssuedLater(verdicts, w, s, steps, again);
    HonouredIsFresh(verdicts, w, s);
    HonouredIsFresh(verdicts, Exec(verdicts, Apply(verdicts, w, s), steps), again);
    RunMovesOn(verdicts, w, s, steps, again);
    FreshUntil(Honoured(verdicts, w, s).value, s.at, again.at);
    UnixMonotone(again.at, LastFresh(Honoured(verdicts, w, s).value));
  }

  lemma {:induction false} RunMovesOn(verdicts: Verdicts, w: World, s: Step, steps: seq<Step>, again: Step)
    requires Enabled(w, s) && Legal(verdicts, Apply(verdicts, w, s), steps)
             && Enabled(Exec(verdicts, Apply(verdicts, w, s), steps), again)
    ensures s.at <= again.at
  {
    hide Apply, Exec, Legal;
    StepKeepsCookies(verdicts, w, s);
    RunKeepsTime(verdicts, Apply(verdicts, w, s), steps);
  }

  lemma {:induction false} RunKeepsTime(verdicts: Verdicts, w: World, steps: seq<Step>)
    requires Legal(verdicts, w, steps)
    ensures w.now <= Exec(verdicts, w, steps).now
    decreases |steps|
  {
    hide Enabled, Apply;
    if steps == [] {
    } else {
      StepKeepsCookies(verdicts, w, steps[0]);
      RunKeepsTime(verdicts, Apply(verdicts, w, steps[0]), steps[1..]);
    }
  }

  /** A request without an ID is honoured again at once, whenever it was issued. */
  lemma {:induction false} EmptyIDRepeats(verdicts: Verdicts, w: World, s: Step)
    requires s.event.Logout? && Enabled(w, s) && Honoured(verdicts, w, s).Some?
             && Honoured(verdicts, w, s).value.id == ""
    ensures CanRepeat(verdicts, w, s)
  {
    hide Read;
    var w1 := Apply(verdicts, w, s);
    assert Legal(verdicts, w1, []) && Exec(verdicts, w1, []) == w1;
    assert Enabled(w1, s) && Honoured(verdicts, w1, s) == Honoured(verdicts, w, s);
  }

  lemma {:induction false} LongLifeRepeats(verdicts: Verdicts, w: World, s: Step)
    requires s.event.Logout? && Steady(verdicts, s.event.tenant, s.event.query)
    requires Enabled(w, s) && Honoured(verdicts, w, s).Some? && Honoured(verdicts, w, s).value.id != ""
    requires Honoured(verdicts, w, s).value.issueInstant.Some?
             && Unix(LastFresh(Honoured(verdicts, w, s).value)) > Unix(s.at) + 480
    ensures CanRepeat(verdicts, w, s)
  {
    hide Read, LastFresh;
    var req := Honoured(verdicts, w, s).value;
    var w1 := Apply(verdicts, w, s);
    var sweep := Step(LastFresh(req), Sweep(SeenRow(req.id)));
    var again := Step(LastFresh(req), Logout(s.event.tenant, s.event.query, s.event.faults));
    assert w1.st.seen[req.id] == Unix(s.at) + 480;
    UnixStrict(s.at, LastFresh(req));
    assert Enabled(w1, sweep);
    var w2 := Apply(verdicts, w1, sweep);
    OneStep(verdicts, w1, sweep);
    ReadLater(verdicts, s.at, LastFresh(req), s.event.tenant, s.event.query);
    assert Honoured(verdicts, w2, again) == Some(req);
    assert Enabled(w2, again);
    assert CanRepeat(verdicts, w, s) by { assert Exec(verdicts, w1, [sweep]) == w2; }
  }

  lemma {:induction false} OneStep(verdicts: Verdicts, w: World, s: Step)
    requires Enabled(w, s)
    ensures Legal(verdicts, w, [s]) && Exec(verdicts, w, [s]) == Apply(verdicts, w, s)
  {
    hide Enabled, Apply;
    assert [s][1..] == [];
  }

  /** Exactly when a signed logout request can be honoured twice: it has no ID, or its
      freshness reaches beyond the second its eight-minute mark ends. The latter takes an
      issue instant after the time it was first honoured, within the clock skew the check
      allows. */
  lemma {:induction false} LogoutRepeatableIff(verdicts: Verdicts, w: World, s: Step)
    requires s.event.Logout? && Steady(verdicts, s.event.tenant, s.event.query)
    requires Enabled(w, s) && Honoured(verdicts, w, s).Some?
    ensures Honoured(verdicts, w, s).value.issueInstant.Some?
    ensures CanRepeat(verdicts, w, s)
            <==> || Honoured(verdicts, w, s).value.id == ""
                 || Unix(LastFresh(Honoured(verdicts, w, s).value)) > Unix(s.at) + 480
  {
    hide Honoured, LastFresh, Enabled, CanRepeat, Steady;
    HonouredIsFresh(verdicts, w, s);
    if Honoured(verdicts, w, s).value.id == "" {
      EmptyIDRepeats(verdicts, w, s);
    } else {
      if CanRepeat(verdicts, w, s) { RepeatNeedsLongLife(verdicts, w, s); }
      if Unix(LastFresh(Honoured(verdicts, w, s).value)) > Unix(s.at) + 480 { LongLifeRepeats(verdicts, w, s); }
    }
  }

  // ---------- Replay of AuthnRequests ----------

  /** The step answers the AuthnRequest `id` with a bearer session or a redirect to the login. */
  predicate AuthnUsed(w: World, s: Step, id: string) {
    && s.event.SSO? && s.event.request.authnID == id && id != ""
    && var r := Sessions(w.st, s.at, s.event.request, s.event.ssoFaults).1;
       (r.Granted? && r.path == Bearer) || r.HostedLogin?
  }

  lemma {:induction false} UsingMarks(verdicts: Verdicts, w: World, s: Step, id: string)
    requires Enabled(w, s) && AuthnUsed(w, s, id)
    ensures id !in w.st.seen && !s.event.ssoFaults.replayDown && s.event.request.handOff.None?
    ensures Apply(verdicts, w, s).st == w.st.(seen := w.st.seen[id := Unix(s.at) + 300])
    ensures MarkStands(Apply(verdicts, w, s), id, Unix(s.at) + 300)
  {
    hide CheckRevoked, BindingMatches, MintedBindingMatches, NewSession, Honoured;
  }

  /** The same AuthnRequest is used again, at time `t`. */
  ghost predicate AuthnUsedAgain(verdicts: Verdicts, w: World, s: Step, id: string, t: int) {
    exists steps, again: Step ::
      && Legal(verdicts, Apply(verdicts, w, s), steps) && Enabled(Exec(verdicts, Apply(verdicts, w, s), steps), again)
      && again.at == t && AuthnUsed(Exec(verdicts, Apply(verdicts, w, s), steps), again, id)
  }

  /** The step once more, without the cookie, which may have become usable meanwhile. */
  function Resent(s: Step, t: int): Step
    requires s.event.SSO?
  {
    Step(t, SSO(s.event.request.(cookie := None), s.event.ssoFaults))
  }

  lemma {:induction false} ResentIsUsed(w: World, s: Step, w2: World, id: string, t: int)
    requires Enabled(w, s) && AuthnUsed(w, s, id) && w2.now <= t && id !in w2.st.seen
    ensures Enabled(w2, Resent(s, t)) && AuthnUsed(w2, Resent(s, t), id)
  {
    hide CheckRevoked, BindingMatches, MintedBindingMatches, NewSession;
  }

  lemma {:induction false} LapsedIsUsedAgain(verdicts: Verdicts, w: World, s: Step, id: string, t: int)
    requires Enabled(w, s) && AuthnUsed(w, s, id) && s.at <= t && Unix(t) > Unix(s.at) + 300
    ensures AuthnUsedAgain(verdicts, w, s, id, t)
  {
    hide AuthnUsed, Sessions, Honoured;
    var w1 := Apply(verdicts, w, s);
    UsingMarks(verdicts, w, s, id);
    StepKeepsCookies(verdicts, w, s);
    var sweep := Step(t, Sweep(SeenRow(id)));
    assert Enabled(w1, sweep);
    OneStep(verdicts, w1, sweep);
    ResentIsUsed(w, s, Apply(verdicts, w1, sweep), id, t);
    assert AuthnUsed(Exec(verdicts, w1, [sweep]), Resent(s, t), id);
  }

  /** Over every run, an AuthnRequest that has brought a session or a redirect brings another at
      a time `t` in some continuation exactly when the five minutes of its mark are over. */
  lemma {:induction false} AuthnUsedAgainIff(verdicts: Verdicts, w: World, s: Step, id: string, t: int)
    requires Enabled(w, s) && AuthnUsed(w, s, id) && s.at <= t
    ensures AuthnUsedAgain(verdicts, w, s, id, t) <==> Unix(t) > Unix(s.at) + 300
  {
    hide Apply, Exec, Legal, AuthnUsed;
    var w1 := Apply(verdicts, w, s);
    UsingMarks(verdicts, w, s, id);
    if AuthnUsedAgain(verdicts, w, s, id, t) {
      var steps, again: Step :| && Legal(verdicts, w1, steps) && Enabled(Exec(verdicts, w1, steps), again)
                                && again.at == t && AuthnUsed(Exec(verdicts, w1, steps), again, id);
      RunKeepsMark(verdicts, w1, steps, id, Unix(s.at) + 300);
      UsingMarks(verdicts, Exec(verdicts, w1, steps), again, id);
      UnixMonotone(Exec(verdicts, w1, steps).now, t);
    }
    if Unix(t) > Unix(s.at) + 300 { LapsedIsUsedAgain(verdicts, w, s, id, t); }
  }

  // ---------- Revocation ----------

  /** The session's revocation marker runs at least to `until`, or that second is over. */
  predicate RevocationStands(w: World, index: string, until: int) {
    && until <= Unix(w.now) + 32400
    && ((index in w.st.revoked && w.st.revoked[index] >= until) || Unix(w.now) > until)
  }

  lemma {:induction false} StepKeepsRevocation(verdicts: Verdicts, w: World, s: Step, index: string, until: int)
    requires Enabled(w, s) && RevocationStands(w, index, until)
    ensures RevocationStands(Apply(verdicts, w, s), index, until)
  {
    hide Sessions, Read, NewSession;
    UnixMonotone(w.now, s.at);
    if s.event.SSO? { SSOTouchesMarksOnly(w.st, s.at, s.event.request, s.event.ssoFaults); }
  }

  lemma {:induction false} RunKeepsRevocation(verdicts: Verdicts, w: World, steps: seq<Step>, index: string, until: int)
    requires Legal(verdicts, w, steps) && RevocationStands(w, index, until)
    ensures RevocationStands(Exec(verdicts, w, steps), index, until)
    decreases |steps|
  {
    hide Enabled, Apply, RevocationStands;
    if steps == [] {
    } else {
      StepKeepsRevocation(verdicts, w, steps[0], index, until);
      RunKeepsRevocation(verdicts, Apply(verdicts, w, steps[0]), steps[1..], index, until);
    }
  }

  /** The step honours a logout that names this session. */
  ghost predicate NamesSession(verdicts: Verdicts, w: World, s: Step, index: string) {
    Honoured(verdicts, w, s).Some? && Honoured(verdicts, w, s).value.sessionIndex == index && index != ""
  }

  /** The second up to which the session is marked revoked once the logout is done: nine
      hours from now if the marker was written, else what an earlier marker says, if any. */
  function CoveredUntil(w: World, s: Step, index: string): Option<int>
    requires s.event.Logout?
  {
    if !s.event.faults.revokeDown then Some(Unix(s.at) + 32400)
    else if index in w.st.revoked then Some(w.st.revoked[index])
    else None
  }

  /** Markers were written by now, for nine hours. */
  ghost predicate MarkersRecent(w: World) {
    forall i :: i in w.st.revoked ==> w.st.revoked[i] <= Unix(w.now) + 32400
  }

  lemma {:induction false} StepKeepsMarkersRecent(verdicts: Verdicts, w: World, s: Step)
    requires Enabled(w, s) && MarkersRecent(w)
    ensures MarkersRecent(Apply(verdicts, w, s))
  {
    hide Sessions, Read, NewSession;
    UnixMonotone(w.now, s.at);
    if s.event.SSO? { SSOTouchesMarksOnly(w.st, s.at, s.event.request, s.event.ssoFaults); }
  }

  lemma {:induction false} RunKeepsMarkersRecent(verdicts: Verdicts, w: World, steps: seq<Step>)
    requires Legal(verdicts, w, steps) && MarkersRecent(w)
    ensures MarkersRecent(Exec(verdicts, w, steps))
    decreases |steps|
  {
    hide Enabled, Apply, MarkersRecent;
    if steps == [] {
    } else {
      StepKeepsMarkersRecent(verdicts, w, steps[0]);
      RunKeepsMarkersRecent(verdicts, Apply(verdicts, w, steps[0]), steps[1..]);
    }
  }

  lemma {:induction false} LogoutCovers(verdicts: Verdicts, w: World, s: Step, index: string)
    requires Enabled(w, s) && NamesSession(verdicts, w, s, index) && MarkersRecent(w) && s.event.Logout?
    ensures var revoked := Apply(verdicts, w, s).st.revoked;
            match CoveredUntil(w, s, index)
            case None => index !in revoked
            case Some(until) =>
              && index in revoked && revoked[index] == until
              && RevocationStands(Apply(verdicts, w, s), index, until)
  {
    hide Read;
    UnixMonotone(w.now, s.at);
  }

  /** A cookie of a revoked session is accepted at some later step. */
  ghost predicate ComesBack(verdicts: Verdicts, w: World, s: Step, env: Envelope) {
    exists steps, back: Step ::
      && Legal(verdicts, Apply(verdicts, w, s), steps) && Enabled(Exec(verdicts, Apply(verdicts, w, s), steps), back)
      && back.event.SSO?
      && Sessions(Exec(verdicts, Apply(verdicts, w, s), steps).st, back.at, back.event.request, back.event.ssoFaults).1
         == Granted(env, Cookie)
  }

  lemma {:induction false} AcceptedCookieIsUnrevoked(st: State, now: int, req: SSORequest, faults: Faults,
                                                     env: Envelope)
    requires Sessions(st, now, req, faults).1 == Granted(env, Cookie)
    ensures now <= env.expiresAt
            && (env.index != "" ==> !(env.index in st.revoked && Unix(now) <= st.revoked[env.index]))
  {
  }

  /** The session lives on past the logout and past what covers it. */
  predicate OutlivesCover(w: World, s: Step, env: Envelope)
    requires s.event.Logout?
  {
    s.at <= env.expiresAt
      && (CoveredUntil(w, s, env.index).None? || Unix(env.expiresAt) > CoveredUntil(w, s, env.index).value)
  }

  lemma {:induction false} ComingBackNeedsLongLife(verdicts: Verdicts, w: World, s: Step, env: Envelope)
    requires s.event.Logout? && Enabled(w, s) && MarkersRecent(w)
    requires NamesSession(verdicts, w, s, env.index) && ComesBack(verdicts, w, s, env)
    ensures OutlivesCover(w, s, env)
  {
    hide Apply, Exec, Legal, Sessions, Honoured, Enabled;
    var w1 := Apply(verdicts, w, s);
    var steps, back :| Legal(verdicts, w1, steps) && Enabled(Exec(verdicts, w1, steps), back) && back.event.SSO?
      && Sessions(Exec(verdicts, w1, steps).st, back.at, back.event.request, back.event.ssoFaults).1
         == Granted(env, Cookie);
    LogoutCovers(verdicts, w, s, env.index);
    AcceptedCookieIsUnrevoked(Exec(verdicts, w1, steps).st, back.at, back.event.request, back.event.ssoFaults, env);
    RunMovesOn(verdicts, w, s, steps, back);
    StepsMoveOn(Exec(verdicts, w1, steps), back);
    if CoveredUntil(w, s, env.index).Some? {
      RunKeepsRevocation(verdicts, w1, steps, env.index, CoveredUntil(w, s, env.index).value);
    }
    UnixMonotone(Exec(verdicts, w1, steps).now, back.at);
    UnixMonotone(back.at, env.expiresAt);
  }

  lemma {:induction false} StepsMoveOn(w: World, s: Step)
    requires Enabled(w, s)
    ensures w.now <= s.at
  {
  }

  lemma {:induction false} LongLifeComesBack(verdicts: Verdicts, w: World, s: Step, env: Envelope)
    requires s.event.Logout? && Enabled(w, s) && MarkersRecent(w)
    requires NamesSession(verdicts, w, s, env.index) && env in w.minted && OutlivesCover(w, s, env)
    ensures ComesBack(verdicts, w, s, env)
  {
    hide Honoured;
    var w1 := Apply(verdicts, w, s);
    LogoutCovers(verdicts, w, s, env.index);
    var req := SSORequest(env.tenant, None, None, Some(env), NoToken, NoPage, "", false, "");
    var back := Step(env.expiresAt, SSO(req, Faults(false, false, false)));
    assert Exec(verdicts, w1, []) == w1;
    assert Enabled(w1, back);
    assert Sessions(w1.st, env.expiresAt, req, Faults(false, false, false)).1 == Granted(env, Cookie);
  }

  /** After any honoured logout that names its session, a cookie is accepted again in some
      continuation of the run if and only if the session outlives its cover: the nine hours
      of the marker, or, if the marker could not be written, those of an earlier one. */
  lemma {:induction false} RevokedComesBackIff(verdicts: Verdicts, w: World, s: Step, env: Envelope)
    requires s.event.Logout? && Enabled(w, s) && MarkersRecent(w)
    requires NamesSession(verdicts, w, s, env.index) && env in w.minted
    ensures ComesBack(verdicts, w, s, env) <==> OutlivesCover(w, s, env)
    ensures !s.event.faults.revokeDown ==> (OutlivesCover(w, s, env) <==> Unix(env.expiresAt) > Unix(s.at) + 32400)
  {
    hide ComesBack, NamesSession, Enabled, MarkersRecent;
    if ComesBack(verdicts, w, s, env) { ComingBackNeedsLongLife(verdicts, w, s, env); }
    if OutlivesCover(w, s, env) { LongLifeComesBack(verdicts, w, s, env); }
    if env.expiresAt < s.at { UnixMonotone(env.expiresAt, s.at); }
  }

  /** A logout is answered with Success although its marker could not be written; a session
      not marked before then comes back for the rest of its life. */
  lemma {:induction false} SuccessWithoutMarker(verdicts: Verdicts, w: World, s: Step, env: Envelope)
    requires s.event.Logout? && Enabled(w, s) && MarkersRecent(w)
    requires NamesSession(verdicts, w, s, env.index) && env in w.minted && s.at <= env.expiresAt
    requires s.event.faults.revokeDown && !s.event.faults.lookupDown && env.index !in w.st.revoked
    requires OtherParticipants(w.st, s.at, env.index, Honoured(verdicts, w, s).value.issuer) == {}
    ensures LogoutStatus(w.st, s.at, Honoured(verdicts, w, s).value, s.event.faults) == Success
    ensures ComesBack(verdicts, w, s, env)
  {
    hide Honoured, ComesBack, OtherParticipants;
    RevokedComesBackIff(verdicts, w, s, env);
  }

  /** A session created then cannot outlive a marker written at its revocation. */
  predicate MarkerOutlives(configuredSec: int, createdAt: int, revokedAt: int) {
    Unix(createdAt + SessionDuration(configuredSec)) <= Unix(revokedAt) + 32400
  }

  /** The configured durations under which every revocation is final: up to nine hours, or
      the eight-hour default. The management API admits up to twenty-four. */
  lemma {:induction false} RevocationFinalIff(configuredSec: int)
    ensures (forall createdAt: int, revokedAt: int ::
               createdAt <= revokedAt ==> MarkerOutlives(configuredSec, createdAt, revokedAt))
            <==> configuredSec <= 32400
  {
    var d := SessionDuration(configuredSec);
    if configuredSec <= 32400 {
      assert d <= 32400 * SECOND;
      forall createdAt: int, revokedAt: int | createdAt <= revokedAt
        ensures MarkerOutlives(configuredSec, createdAt, revokedAt) {
        UnixMonotone(createdAt + d, revokedAt + 32400 * SECOND);
        assert Unix(revokedAt + 32400 * SECOND) == Unix(revokedAt) + 32400;
      }
    } else {
      UnixMonotone(32401 * SECOND, d);
      assert !MarkerOutlives(configuredSec, 0, 0);
    }
  }

  /** At a provider configured within nine hours, a session of the run is accepted from its
      cookie after a logout that names it exactly when the marker could not be written and no
      earlier one covers what is left of the session. */
  lemma {:induction false} ShortSessionsComeBackIff(verdicts: Verdicts, start: int, before: seq<Step>, s: Step,
                                                    env: Envelope, sec: int)
    requires Legal(verdicts, Initial(start), before) && Enabled(Exec(verdicts, Initial(start), before), s)
             && s.event.Logout?
    requires NamesSession(verdicts, Exec(verdicts, Initial(start), before), s, env.index)
    requires env in Exec(verdicts, Initial(start), before).minted
    requires sec <= 32400 && env.expiresAt == env.createdAt + SessionDuration(sec)
    ensures var w := Exec(verdicts, Initial(start), before);
            ComesBack(verdicts, w, s, env) <==> s.event.faults.revokeDown && OutlivesCover(w, s, env)
  {
    hide Legal, Exec, NamesSession, ComesBack, SessionDuration;
    var w := Exec(verdicts, Initial(start), before);
    CookiesComeFromMinting(verdicts, Initial(start), before, env);
    RunKeepsMarkersRecent(verdicts, Initial(start), before);
    assert env.createdAt <= s.at;
    RevocationFinalIff(sec);
    assert MarkerOutlives(sec, env.createdAt, s.at);
    RevokedComesBackIff(verdicts, w, s, env);
  }

  // ---------- Participants ----------

  /** Sweeping rows never changes whom a logout still has to reach. */
  lemma {:induction false} SweepKeepsParticipants(st: State, row: Row, now: int, later: int, index: string,
                                                  issuer: string)
    requires Sweepable(st, row, now) && now <= later
    ensures OtherParticipants(Swept(st, row), later, index, issuer) == OtherParticipants(st, later, index, issuer)
  {
    match row
    case ParticipantRow(k) =>
      assert now > st.participants[k];
      assert forall j :: j in st.participants && later <= st.participants[j] ==> j != k;
    case _ =>
  }
}
