/** The limiter as the engines use it: who is counted, and how many requests one counter admits over
    a run (policy.go, plugin.go, helpers.go). */
module Admission {
  import opened Text
  import opened Headers
  import opened Authz
  import opened Tokens
  import opened Gateway
  import opened Mediation
  import Keys
  import RateLimit
  import Snapshot

  // ---- who is counted ----

  lemma {:induction false} FirstPartTrimmed(list: string)
    ensures Trimmed(FirstPart(list))
    decreases |list|
  {
    var i := IndexOf(list, ',');
    TrimSpaceMeaning(list[..i]);
    if TrimSpace(list[..i]) == "" && i < |list| {
      FirstPartTrimmed(list[i + 1..]);
    }
  }

  /** Whatever headers arrive, the gateway counts an unauthenticated request as a nameable caller, and
      an accepted one as a user of a positive int64. */
  lemma CountedCallersAreNameable(cfg: Config, w: World, app: string, r: RequestView, claims: TokenClaims)
    ensures Trimmed(r.remoteHost) ==> Keys.Nameable(AnonymousOf(cfg, r)) && !AnonymousOf(cfg, r).User?
    ensures Presents(cfg, w, app, Get(r.headers, cfg.jwtHeader), claims) ==> Keys.Nameable(Keys.User(claims.userID))
  {
    FirstPartTrimmed(Get(r.headers, "X-Forwarded-For"));
    TrimSpaceMeaning(Get(r.headers, "X-Real-Ip"));
    var auth := Get(r.headers, cfg.jwtHeader);
    if Presents(cfg, w, app, auth, claims) {
      AuthenticateIff(cfg, w, app, auth, claims);
      var realm := ChosenRealm(w, app, TokenIssuer(auth, w.decode)).value;
      AcceptedClaims(auth, w.decode, realm, cfg.userIdClaim, cfg.adminRoles);
    }
  }

  /** A request that is counted as `c` when it carries no token. */
  function RequestOf(cfg: Config, c: Keys.Caller): RequestView {
    var headers: HeaderMap :=
      match c
      case Device(id) => map[cfg.deviceHeader := [id]]
      case Session(id) => map[cfg.sessionHeader := [id]]
      case Ip(id) => map["X-Real-Ip" := [id]]
      case _ => map[];
    RequestView("GET", "/", "", "", map[], headers)
  }

  /** Conversely every nameable caller occurs: a device, session or address in some request, and a
      user id in some token. */
  lemma NameableCallersOccur(cfg: Config, c: Keys.Caller)
    requires Keys.Nameable(c)
    requires cfg.deviceHeader != cfg.sessionHeader
    requires {cfg.deviceHeader, cfg.sessionHeader} !! {"X-Real-Ip", "X-Forwarded-For"}
    ensures !c.User? ==> AnonymousOf(cfg, RequestOf(cfg, c)) == c
    ensures c.User? && cfg.userIdClaim != "" ==>
              UserIdOf(Token({}, map[cfg.userIdClaim := c.id], false, map[], []), cfg.userIdClaim) == c.id
  {
    TrimSpaceMeaning("");
    if c.Ip? {
      TrimSpaceMeaning(c.id);
    }
  }

  // ---- what the limiter is asked ----

  /** The counter a request is billed to, and the plan and endpoint that set its limit. */
  datatype Bill = Bill(key: string, plan: string, ep: Snapshot.Endpoint)

  /** The policy engine bills nobody for a rejected credential, nor a caller with universal
      authority. */
  function PolicyBill(cfg: Config, w: World, r: RequestView, target: string, ep: Snapshot.Endpoint): Option<Bill> {
    match Authenticate(cfg, w, target, Get(r.headers, cfg.jwtHeader))
    case Rejected => None
    case Anonymous => Some(Bill(Keys.RateLimitKey(target, AnonymousOf(cfg, r)), cfg.defaultPlan, ep))
    case Accepted(claims) =>
      if IsWildcard(PrincipalOf(w, claims).statements, claims.appID, target) then None
      else Some(Bill(Keys.RateLimitKey(target, Keys.User(claims.userID)), w.planOf(target, claims.userID), ep))
  }

  /** The legacy engine bills every accepted caller, admins included. */
  function LegacyBill(cfg: Config, w: World, r: RequestView, app: string, ep: Snapshot.Endpoint): Option<Bill> {
    match LegacyAuthenticate(cfg, w, app, Get(r.headers, cfg.jwtHeader))
    case Rejected => None
    case Anonymous => Some(Bill(Keys.RateLimitKey(app, AnonymousOf(cfg, r)), cfg.defaultPlan, ep))
    case Accepted(claims) =>
      Some(Bill(Keys.RateLimitKey(app, Keys.User(claims.userID)), w.planOf(app, claims.userID), ep))
  }

  /** Who is billed on a matched endpoint: an accepted caller as itself, unless the policy engine finds it
      to have universal authority; somebody without a credential by device, session or address; nobody
      else. */
  lemma WhoIsBilled(
      cfg: Config, w: World, snap: Snapshot.SnapshotDto, r: RequestView, app: string, ep: Snapshot.Endpoint)
    requires Snapshot.InForce(w.snapshot, snap)
    ensures var auth := Get(r.headers, cfg.jwtHeader);
            var mine := (id: string) => Some(Bill(Keys.RateLimitKey(app, Keys.User(id)), w.planOf(app, id), ep));
            var theirs := Some(Bill(Keys.RateLimitKey(app, AnonymousOf(cfg, r)), cfg.defaultPlan, ep));
            && (auth == "" || cfg.disableAuth ==>
                  PolicyBill(cfg, w, r, app, ep) == theirs && LegacyBill(cfg, w, r, app, ep) == theirs)
            && (forall claims | Presents(cfg, w, app, auth, claims) ::
                  PolicyBill(cfg, w, r, app, ep) == if Universal(snap, claims, app) then None else mine(claims.userID))
            && (forall claims | PresentsAtHome(cfg, w, app, auth, claims) ::
                  LegacyBill(cfg, w, r, app, ep) == mine(claims.userID))
  {
    var auth := Get(r.headers, cfg.jwtHeader);
    forall claims | Presents(cfg, w, app, auth, claims)
      ensures Authenticate(cfg, w, app, auth) == Accepted(claims)
      ensures IsWildcard(PrincipalOf(w, claims).statements, claims.appID, app) <==> Universal(snap, claims, app)
    {
      AuthenticateIff(cfg, w, app, auth, claims);
      WildcardMeansUniversal(w, snap, claims, app);
    }
    forall claims | PresentsAtHome(cfg, w, app, auth, claims)
      ensures LegacyAuthenticate(cfg, w, app, auth) == Accepted(claims)
    {
      LegacyAuthenticateIff(cfg, w, app, auth, claims);
    }
    LegacyAnonymousIff(cfg, w, app, auth);
    hide Presents;
    hide PresentsAtHome;
    hide Authenticate;
    hide LegacyAuthenticate;
    hide Universal;
    hide IsWildcard;
    AnonymousIff(cfg, w, app, auth);
  }

  lemma AnonymousIff(cfg: Config, w: World, app: string, auth: string)
    ensures Authenticate(cfg, w, app, auth) == Anonymous <==> auth == "" || cfg.disableAuth
  {
  }

  /** Whom a request is billed to; nobody if no endpoint meets it. */
  function Billed(cfg: Config, w: World, policyMode: bool, r: RequestView): Option<Bill> {
    var app, r2 := StampedApp(cfg, w, policyMode, r), Entered(cfg, w, r);
    match EndpointFor(w, app, r2)
    case None => None
    case Some(ep) =>
      if policyMode then PolicyBill(cfg, w, ForTarget(cfg, r2, app), app, ep) else LegacyBill(cfg, w, r2, app, ep)
  }

  lemma PolicyBilledPasses(cfg: Config, w: World, r: RequestView, target: string, ep: Snapshot.Endpoint)
    requires PolicyBill(cfg, w, r, target, ep).Some? && PolicyMatched(cfg, w, r, target, ep).Forwarded?
    ensures var b := PolicyBill(cfg, w, r, target, ep).value; RateStage(cfg, w, b.ep, b.key, b.plan).Pass?
  {
    hide Authenticate;
    hide IsWildcard;
    hide RateStage;
  }

  lemma LegacyBilledPasses(cfg: Config, w: World, r: RequestView, app: string, ep: Snapshot.Endpoint)
    requires LegacyBill(cfg, w, r, app, ep).Some? && EndpointFor(w, app, r) == Some(ep)
    requires LegacyOutcome(cfg, w, r, app).Forwarded?
    ensures var b := LegacyBill(cfg, w, r, app, ep).value; RateStage(cfg, w, b.ep, b.key, b.plan).Pass?
  {
    hide LegacyAuthenticate;
    hide EndpointFor;
    hide RateStage;
  }

  /** A billed request is forwarded only past the limiter, by either engine. */
  lemma BilledPassesLimiter(cfg: Config, w: World, policyMode: bool, r: RequestView)
    requires Billed(cfg, w, policyMode, r).Some? && Serve(cfg, w, policyMode, r).Forwarded?
    ensures var b := Billed(cfg, w, policyMode, r).value; RateStage(cfg, w, b.ep, b.key, b.plan).Pass?
  {
    hide PassesPrelude;
    hide Serve;
    hide EndpointFor;
    hide PolicyMatched;
    hide LegacyOutcome;
    hide PolicyBill;
    hide LegacyBill;
    hide RateStage;
    ServeEnters(cfg, w, policyMode, r);
    var app, r2 := StampedApp(cfg, w, policyMode, r), Entered(cfg, w, r);
    var ep := EndpointFor(w, app, r2).value;
    if policyMode {
      PolicyBilledPasses(cfg, w, ForTarget(cfg, r2, app), app, ep);
    } else {
      LegacyBilledPasses(cfg, w, r2, app, ep);
    }
  }

  /** The endpoint publishes this many requests in this many seconds for the plan, or publishes nothing
      for it and these are the configured defaults. */
  predicate Publishes(cfg: Config, ep: Snapshot.Endpoint, plan: string, requests: int, seconds: int) {
    if plan in ep.dto.rateLimits
    then ep.dto.rateLimits[plan].requests == requests && ep.dto.rateLimits[plan].durationSeconds == seconds
    else cfg.defaultLimit == requests && cfg.defaultWindow == seconds
  }

  /** The limiter's stage by published limit: no limiter or no limit lets a request pass, and so does
      an error; a verdict lets it pass, with what is left, or stops it with nothing left. */
  lemma StageMeaning(
      cfg: Config, w: World, ep: Snapshot.Endpoint, key: string, plan: string, requests: int, seconds: int)
    requires Publishes(cfg, ep, plan, requests, seconds)
    ensures var stage := RateStage(cfg, w, ep, key, plan);
            if cfg.disableRateLimit || w.limiter.None? || requests <= 0 then stage == Pass(None)
            else match w.limiter.value(key, ep.dto.uid, requests, seconds)
                 case CheckError => stage == Pass(None)
                 case Checked(allowed, remaining, limit, resetAt) =>
                   stage == (if allowed then Pass(Some(RateInfo(limit, remaining, resetAt)))
                             else Exceeded(RateInfo(limit, 0, resetAt)))
  {
  }

  lemma PolicyBilledAnswer(cfg: Config, w: World, r: RequestView, target: string, ep: Snapshot.Endpoint)
    requires PolicyBill(cfg, w, r, target, ep).Some?
    ensures var b, o := PolicyBill(cfg, w, r, target, ep).value, PolicyMatched(cfg, w, r, target, ep);
            && b.ep == ep
            && (o.Denied? || (match RateStage(cfg, w, ep, b.key, b.plan)
                              case Pass(rate) => o.Forwarded? && o.rate == rate
                              case Exceeded(over) => o == RateLimited(over)))
  {
    hide Authenticate;
    hide IsWildcard;
    hide RateStage;
    hide Granted;
    hide ExtractOwner;
    hide HasLegacyApiKey;
  }

  lemma LegacyBilledAnswer(cfg: Config, w: World, r: RequestView, app: string, ep: Snapshot.Endpoint)
    requires LegacyBill(cfg, w, r, app, ep).Some? && EndpointFor(w, app, r) == Some(ep)
    ensures var b, o := LegacyBill(cfg, w, r, app, ep).value, LegacyOutcome(cfg, w, r, app);
            && b.ep == ep
            && (o.Denied? || (match RateStage(cfg, w, ep, b.key, b.plan)
                              case Pass(rate) => o.Forwarded? && o.rate == rate
                              case Exceeded(over) => o == RateLimited(over)))
  {
    hide LegacyAuthenticate;
    hide EndpointFor;
    hide RateStage;
    hide ExtractOwner;
    hide HasLegacyApiKey;
    hide Has;
  }

  /** The answer to a billed request that the prelude lets through and no gate refuses is the limiter
      stage's, under the bill's key and plan, by either engine: a verdict that allows it, an error or no
      limit forwards it, with the rate-limit headers of the verdict, and nothing else is 429. */
  lemma BilledAnswer(cfg: Config, w: World, policyMode: bool, r: RequestView)
    requires PassesPrelude(cfg, w, r) && Billed(cfg, w, policyMode, r).Some?
    ensures var b, o := Billed(cfg, w, policyMode, r).value, Serve(cfg, w, policyMode, r);
            o.Denied? || (match RateStage(cfg, w, b.ep, b.key, b.plan)
                          case Pass(rate) => o.Forwarded? && o.rate == rate
                          case Exceeded(over) => o == RateLimited(over))
  {
    hide PassesPrelude;
    hide Serve;
    hide EndpointFor;
    hide PolicyMatched;
    hide LegacyOutcome;
    hide PolicyBill;
    hide LegacyBill;
    hide RateStage;
    ServeEnters(cfg, w, policyMode, r);
    var app, r2 := StampedApp(cfg, w, policyMode, r), Entered(cfg, w, r);
    var ep := EndpointFor(w, app, r2).value;
    if policyMode {
      PolicyBilledAnswer(cfg, w, ForTarget(cfg, r2, app), app, ep);
    } else {
      LegacyBilledAnswer(cfg, w, r2, app, ep);
    }
  }

  /** What the limiter reports of a finished call. */
  function Report(l: RateLimit.Limiter, call: RateLimit.Call): RateLimit.CheckResult
    requires call.Finished?
  {
    if call.verdict.Errored? then RateLimit.CheckError else l.Judge(call.verdict.count, call.window)
  }

  /** One request, with the world as it met it. */
  datatype Visit = Visit(w: World, policyMode: bool, r: RequestView)

  /** The request is billed to the counters of `l`, and call `c` of the run is its check. */
  predicate CheckedBy(cfg: Config, v: Visit, l: RateLimit.Limiter, s: RateLimit.State, c: nat) {
    && c in s.calls && s.calls[c].Finished?
    && !cfg.disableRateLimit && v.w.limiter.Some?
    && v.w.limiter.value(l.key, l.endpoint, l.limit, l.windowSeconds) == Report(l, s.calls[c])
    && Billed(cfg, v.w, v.policyMode, v.r).Some?
    && var b := Billed(cfg, v.w, v.policyMode, v.r).value;
       && b.key == l.key && b.ep.dto.uid == l.endpoint
       && Publishes(cfg, b.ep, b.plan, l.limit, l.windowSeconds)
  }

  /** The visits that fell into window `window` and were forwarded. */
  function Admitted(cfg: Config, visits: map<nat, Visit>, s: RateLimit.State, window: nat): set<nat> {
    set c | c in visits && c in s.calls && s.calls[c].window == window
            && Serve(cfg, visits[c].w, visits[c].policyMode, visits[c].r).Forwarded?
  }

  /** The checks of a window that ended in an error. */
  function Failed(s: RateLimit.State, window: nat): set<nat> {
    set c | c in s.calls && s.calls[c].window == window && s.calls[c].Finished? && s.calls[c].verdict.Errored?
  }

  /** A checked request that the prelude lets through and no gate refuses is forwarded if and only if
      its check failed or is among the first `limit`, and answered 429 otherwise. */
  lemma AdmittedIff(
      cfg: Config, v: Visit, l: RateLimit.Limiter, s: RateLimit.State, c: nat)
    requires l.limit >= 1 && CheckedBy(cfg, v, l, s, c) && PassesPrelude(cfg, v.w, v.r)
    ensures var o := Serve(cfg, v.w, v.policyMode, v.r);
            !o.Denied? ==>
              && (o.Forwarded? <==> s.calls[c].verdict.Errored? || s.calls[c].verdict.count <= l.limit)
              && (o.RateLimited? <==> s.calls[c].verdict.Judged? && s.calls[c].verdict.count > l.limit)
  {
    hide Serve;
    hide Billed;
    hide PassesPrelude;
    var b := Billed(cfg, v.w, v.policyMode, v.r).value;
    StageMeaning(cfg, v.w, b.ep, b.key, b.plan, l.limit, l.windowSeconds);
    BilledAnswer(cfg, v.w, v.policyMode, v.r);
  }

  lemma AdmittedOnlyByVerdict(
      cfg: Config, v: Visit, l: RateLimit.Limiter, s: RateLimit.State, c: nat)
    requires l.limit >= 1 && CheckedBy(cfg, v, l, s, c) && Serve(cfg, v.w, v.policyMode, v.r).Forwarded?
    ensures s.calls[c].verdict.Errored? || RateLimit.MayPass(l, s.calls[c])
  {
    hide Serve;
    hide Billed;
    BilledPassesLimiter(cfg, v.w, v.policyMode, v.r);
  }

  /** Over any run of checks by any number of gateways, the requests that one application, caller,
      endpoint and window admits, through either engine, number at most the limit and the checks that
      failed open. */
  lemma AdmissionBound(
      cfg: Config, l: RateLimit.Limiter, s0: RateLimit.State, events: seq<RateLimit.Event>,
      visits: map<nat, Visit>, window: nat)
    requires l.windowSeconds >= 1 && l.limit >= 1
    requires RateLimit.Initial(l, s0) && RateLimit.IsRun(l, s0, events)
    requires forall c | c in visits :: CheckedBy(cfg, visits[c], l, RateLimit.After(l, s0, events), c)
    ensures var s := RateLimit.After(l, s0, events);
            |Admitted(cfg, visits, s, window)| <= l.limit + |Failed(s, window)|
  {
    hide Serve;
    hide CheckedBy;
    var s := RateLimit.After(l, s0, events);
    RateLimit.WindowBound(l, s0, events, window);
    var admitted, allowed := Admitted(cfg, visits, s, window), RateLimit.Allowed(l, s, window);
    var failed := Failed(s, window);
    forall c | c in admitted ensures c in allowed + failed {
      assert CheckedBy(cfg, visits[c], l, s, c);
      FinishedCall(cfg, visits[c], l, s, c);
      AdmittedOnlyByVerdict(cfg, visits[c], l, s, c);
    }
    RateLimit.SubsetSize(admitted, allowed + failed);
  }

  lemma FinishedCall(cfg: Config, v: Visit, l: RateLimit.Limiter, s: RateLimit.State, c: nat)
    requires CheckedBy(cfg, v, l, s, c)
    ensures c in s.calls && s.calls[c].Finished?
  {
  }
}
