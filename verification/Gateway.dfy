/** The request path of the middleware: strip, resolve, authorize, stamp, limit, forward
    (plugin.go and policy.go). */
module Gateway {
  import opened Text
  import opened Headers
  import opened Authz
  import opened Tokens
  import opened Snapshot
  import Keys
  import Permissions
  import RateLimit
  import Registry

  const REQUEST_ID := "X-Request-Id"
  const API_KEY := "X-Api-Key"
  const API_KEY_UID := "X-Api-Key-Uid"
  const IAM_ME_PATH := "/api/_iam/me"

  datatype ResolutionMode = Enforce | Permissive | Disabled

  /** Configuration; header names are in canonical form. */
  datatype Config = Config(
    resolution: ResolutionMode,
    trustForwardedHost: bool,
    disableAuth: bool,
    disableRateLimit: bool,
    corsEnabled: bool,
    jwtHeader: string,
    sessionHeader: string,
    deviceHeader: string,
    appIdHeader: string,
    userIdHeader: string,
    userPlanHeader: string,
    isAdminHeader: string,
    userRolesHeader: string,
    userUidHeader: string,
    userEmailHeader: string,  // "" leaves the header alone
    userIdClaim: string,
    adminRoles: seq<string>,
    adminAccessLevel: string,
    adminPermission: string,
    defaultPlan: string,
    defaultLimit: int,
    defaultWindow: int)

  /** What the gateway consults while serving one request. */
  datatype World = World(
    registry: Option<Registry.Tables>,
    normalize: string -> string,
    snapshot: SnapshotView,
    rx: Regexp,
    realms: map<string, Realm>,
    operatorRealm: Option<Realm>,
    decode: string -> Token,
    planOf: (string, string) -> string,
    limiter: Option<(string, string, int, int) -> RateLimit.CheckResult>,
    freshRequestId: string)

  /** The rate-limit headers of a response. */
  datatype RateInfo = RateInfo(limit: int, remaining: int, resetAt: int)

  datatype Outcome =
    | Forwarded(headers: HeaderMap, rate: Option<RateInfo>)
    | Denied(status: int, code: string)
    | RateLimited(over: RateInfo)
    | Preflight
    | Introspected(claims: TokenClaims, resolved: Resolved, active: set<string>)

  // ---- pieces shared by both engines ----

  /** A retired key, in its own header or as the bearer value. */
  predicate HasLegacyApiKey(cfg: Config, h: HeaderMap) {
    || HasPrefix(TrimSpace(Get(h, API_KEY)), "fc_")
    || HasPrefix(TrimSpace(TrimPrefix(Get(h, cfg.jwtHeader), "Bearer ")), "fc_")
  }

  function RealmFor(w: World, app: string): Option<Realm> {
    if app != "" && app in w.realms then Some(w.realms[app]) else None
  }

  function ParseAuth(cfg: Config, w: World, realm: Realm, auth: string): Parsed {
    ParseFor(auth, w.decode, realm, cfg.userIdClaim, cfg.adminRoles)
  }

  /** The owner id a request addresses: a named group of the path match or a query parameter. */
  function ExtractOwner(w: World, ep: Endpoint, r: RequestView): string {
    var i := IndexOf(ep.dto.ownerParam, ':');
    if i + 1 >= |ep.dto.ownerParam| then ""
    else
      var kind, name := ep.dto.ownerParam[..i], ep.dto.ownerParam[i + 1..];
      if kind == "path" then
        match w.rx.capture(ep.dto.pathRegex, name, r.path)
        case Some(v) => TrimSpace(v)
        case None => ""
      else if kind == "query" && name in r.query then TrimSpace(r.query[name])
      else ""
  }

  predicate OwnerMatches(owner: string, userID: string, userUID: string) {
    owner != "" && (owner == userID || (userUID != "" && owner == userUID))
  }

  function ResolveRateLimit(cfg: Config, ep: Endpoint, plan: string): (int, int) {
    if plan in ep.dto.rateLimits
    then (ep.dto.rateLimits[plan].requests, ep.dto.rateLimits[plan].durationSeconds)
    else (cfg.defaultLimit, cfg.defaultWindow)
  }

  datatype RateDecision = Pass(rate: Option<RateInfo>) | Exceeded(over: RateInfo)

  /** The limiter's say; its errors let the request pass. */
  function RateStage(cfg: Config, w: World, ep: Endpoint, key: string, plan: string): RateDecision {
    var (limit, window) := ResolveRateLimit(cfg, ep, plan);
    if cfg.disableRateLimit || w.limiter.None? || limit <= 0 then Pass(None)
    else
      match w.limiter.value(key, ep.dto.uid, limit, window)
      case CheckError => Pass(None)
      case Checked(allowed, remaining, lim, resetAt) =>
        if allowed then Pass(Some(RateInfo(lim, remaining, resetAt))) else Exceeded(RateInfo(lim, 0, resetAt))
  }

  /** Who an unauthenticated request is counted as. */
  function AnonymousOf(cfg: Config, r: RequestView): Keys.Caller {
    Keys.AnonymousCaller(Get(r.headers, cfg.deviceHeader), Get(r.headers, cfg.sessionHeader), ClientIp(r))
  }

  /** Session and device headers of an unauthenticated request keep their first value. */
  function KeepAnonymous(cfg: Config, h: HeaderMap): HeaderMap {
    var session, device := Get(h, cfg.sessionHeader), Get(h, cfg.deviceHeader);
    var h1 := if session != "" then Set(h, cfg.sessionHeader, session) else h;
    if device != "" then Set(h1, cfg.deviceHeader, device) else h1
  }

  function SetIf(c: bool, h: HeaderMap, name: string, value: string): HeaderMap {
    if c then Set(h, name, value) else h
  }

  // ---- the policy engine ----

  /** The realm that validates a token on `app`: the application's if the token names its issuer,
      else the operators' if it names theirs. */
  function ChosenRealm(w: World, app: string, iss: string): Option<Realm> {
    var own := RealmFor(w, app);
    if own.Some? && own.value.issuer == iss then own
    else if w.operatorRealm.Some? && w.operatorRealm.value.issuer == iss then w.operatorRealm
    else None
  }

  function Authenticate(cfg: Config, w: World, app: string, auth: string): Parsed {
    if auth == "" || cfg.disableAuth then Anonymous
    else
      match ChosenRealm(w, app, TokenIssuer(auth, w.decode))
      case None => Rejected
      case Some(realm) => ParseAuth(cfg, w, realm, auth)
  }

  function PrincipalOf(w: World, claims: TokenClaims): Resolved {
    ResolveIn(claims.qualifiedRoles, w.snapshot.policies)
  }

  function StampPolicy(
      cfg: Config, h: HeaderMap, claims: TokenClaims, bound: seq<string>, wildcard: bool, plan: string): HeaderMap
  {
    var h1 := Set(h, cfg.userIdHeader, claims.userID);
    var h2 := Set(h1, cfg.userPlanHeader, plan);
    var h3 := Set(h2, cfg.userUidHeader, claims.subject);
    var h4 := SetIf(cfg.userEmailHeader != "" && claims.email != "", h3, cfg.userEmailHeader, claims.email);
    var h5 := SetIf(bound != [], h4, cfg.userRolesHeader, Join(bound, ","));
    var h6 := SetIf(wildcard, h5, cfg.isAdminHeader, "true");
    Del(h6, cfg.sessionHeader)
  }

  function Target(w: World, hostApp: string, requested: string): string {
    if requested != "" && w.registry.Some? then requested else hostApp
  }

  predicate UnknownTarget(w: World, requested: string) {
    requested != "" && w.registry.Some? && requested !in w.registry.value.active
  }

  function EndpointFor(w: World, app: string, r: RequestView): Option<Endpoint> {
    ThreeTier(w.rx, w.snapshot.compiled, app, r.httpMethod, r.path)
  }

  function PolicyOutcome(cfg: Config, w: World, r: RequestView, hostApp: string, requested: string): Outcome {
    if UnknownTarget(w, requested) then Denied(403, "unknown_app")
    else
      var target := Target(w, hostApp, requested);
      var r1 := r.(headers := SetIf(target != "", r.headers, cfg.appIdHeader, target));
      match EndpointFor(w, target, r)
      case None =>
        if target != hostApp && EndpointFor(w, hostApp, r).Some? then Denied(403, "forbidden")
        else Forwarded(r1.headers, None)
      case Some(ep) => PolicyMatched(cfg, w, r1, target, ep)
  }

  function PolicyMatched(cfg: Config, w: World, r: RequestView, target: string, ep: Endpoint): Outcome {
    if !cfg.disableAuth && HasLegacyApiKey(cfg, r.headers) then Denied(401, "unauthorized")
    else
      match Authenticate(cfg, w, target, Get(r.headers, cfg.jwtHeader))
      case Rejected => Denied(401, "unauthorized")
      case Anonymous =>
        if ep.dto.requiredPermission != "" || ep.dto.ownerParam != "" then Denied(401, "unauthorized")
        else Limit(cfg, w, KeepAnonymous(cfg, r.headers), ep,
                   Keys.RateLimitKey(target, AnonymousOf(cfg, r)), cfg.defaultPlan)
      case Accepted(claims) => PolicyAuthenticated(cfg, w, r, target, ep, claims)
  }

  function PolicyAuthenticated(
      cfg: Config, w: World, r: RequestView, target: string, ep: Endpoint, claims: TokenClaims): Outcome
  {
    var p := PrincipalOf(w, claims);
    if !Granted(p.statements, claims.appID, ep.dto.requiredPermission, target) then Denied(403, "forbidden")
    else
      var wildcard := IsWildcard(p.statements, claims.appID, target);
      var plan := w.planOf(target, claims.userID);
      var h := StampPolicy(cfg, r.headers, claims, p.boundRoles, wildcard, plan);
      if ep.dto.ownerParam != "" && !wildcard
         && !OwnerMatches(ExtractOwner(w, ep, r), claims.userID, claims.subject)
      then Denied(403, "forbidden")
      else if wildcard then Forwarded(h, None)
      else Limit(cfg, w, h, ep, Keys.RateLimitKey(target, Keys.User(claims.userID)), plan)
  }

  function Limit(cfg: Config, w: World, h: HeaderMap, ep: Endpoint, key: string, plan: string): Outcome {
    match RateStage(cfg, w, ep, key, plan)
    case Pass(rate) => Forwarded(h, rate)
    case Exceeded(over) => RateLimited(over)
  }

  // ---- the legacy engine ----

  function LegacyAuthenticate(cfg: Config, w: World, app: string, auth: string): Parsed {
    if cfg.disableAuth then Anonymous
    else
      match RealmFor(w, app)
      case Some(realm) =>
        var p := ParseAuth(cfg, w, realm, auth);
        if p.Accepted? && p.claims.appID != "" && app != "" && p.claims.appID != app then Rejected else p
      case None => if auth != "" then Rejected else Anonymous
  }

  /** The permission the legacy engine asks for: the admin access level implies one. */
  function LegacyPermission(cfg: Config, ep: Endpoint): string {
    if ep.dto.requiredPermission == "" && ep.dto.accessLevel == cfg.adminAccessLevel
    then cfg.adminPermission else ep.dto.requiredPermission
  }

  /** `UserAuthz.Has`. */
  predicate Has(permissions: seq<string>, permission: string) {
    exists p <- permissions :: p == "*" || p == permission
  }

  /** The permissions a token's roles carry in the legacy engine. */
  function TokenPermissions(claims: TokenClaims): seq<string> {
    if claims.isAdmin then ["*"] else []
  }

  function StampLegacy(cfg: Config, h: HeaderMap, claims: TokenClaims, plan: string): HeaderMap {
    var h1 := Set(h, cfg.userIdHeader, claims.userID);
    var h2 := Set(h1, cfg.userPlanHeader, plan);
    var h3 := SetIf(claims.isAdmin, h2, cfg.isAdminHeader, "true");
    var h4 := SetIf(claims.roles != [], h3, cfg.userRolesHeader, Join(claims.roles, ","));
    var h5 := Set(h4, cfg.userUidHeader, claims.subject);
    var h6 := SetIf(cfg.userEmailHeader != "" && claims.email != "", h5, cfg.userEmailHeader, claims.email);
    Del(h6, cfg.sessionHeader)
  }

  function LegacyOutcome(cfg: Config, w: World, r: RequestView, app: string): Outcome {
    match EndpointFor(w, app, r)
    case None => Forwarded(r.headers, None)
    case Some(ep) =>
      if !cfg.disableAuth && HasLegacyApiKey(cfg, r.headers) then Denied(401, "unauthorized")
      else
        match LegacyAuthenticate(cfg, w, app, Get(r.headers, cfg.jwtHeader))
        case Rejected => Denied(401, "unauthorized")
        case Anonymous =>
          if LegacyPermission(cfg, ep) != "" || ep.dto.ownerParam != "" then Denied(401, "unauthorized")
          else Limit(cfg, w, KeepAnonymous(cfg, r.headers), ep,
                     Keys.RateLimitKey(app, AnonymousOf(cfg, r)), cfg.defaultPlan)
        case Accepted(claims) => LegacyAuthenticated(cfg, w, r, app, ep, claims)
  }

  function LegacyAuthenticated(
      cfg: Config, w: World, r: RequestView, app: string, ep: Endpoint, claims: TokenClaims): Outcome
  {
    if LegacyPermission(cfg, ep) != "" && !Has(TokenPermissions(claims), LegacyPermission(cfg, ep))
    then Denied(403, "forbidden")
    else
      var plan := w.planOf(app, claims.userID);
      var h := StampLegacy(cfg, r.headers, claims, plan);
      if ep.dto.ownerParam != "" && Get(h, cfg.isAdminHeader) != "true"
         && !OwnerMatches(ExtractOwner(w, ep, r), claims.userID, claims.subject)
      then Denied(403, "forbidden")
      else Limit(cfg, w, h, ep, Keys.RateLimitKey(app, Keys.User(claims.userID)), plan)
  }

  // ---- introspection and the shared prelude ----

  function ActiveFor(w: World, hostApp: string): set<string> {
    var active := if w.registry.Some? then w.registry.value.active else {};
    if active == {} && hostApp != "" then {hostApp} else active
  }

  function IamMeOutcome(cfg: Config, w: World, r: RequestView, hostApp: string): Outcome {
    if r.httpMethod != "GET" then Denied(405, "method_not_allowed")
    else
      match Authenticate(cfg, w, hostApp, Get(r.headers, cfg.jwtHeader))
      case Accepted(claims) => Introspected(claims, PrincipalOf(w, claims), ActiveFor(w, hostApp))
      case _ => Denied(401, "unauthorized")
  }

  function WithRequestId(w: World, h: HeaderMap): HeaderMap {
    SetIf(TrimSpace(Get(h, REQUEST_ID)) == "", h, REQUEST_ID, w.freshRequestId)
  }

  /** The names only the gateway may set. */
  function OwnedNames(cfg: Config): set<string> {
    {cfg.appIdHeader, cfg.userIdHeader, cfg.userPlanHeader, cfg.isAdminHeader, cfg.userRolesHeader,
     API_KEY_UID, cfg.userUidHeader}
    + (if cfg.userEmailHeader != "" then {cfg.userEmailHeader} else {})
  }

  function Stripped(cfg: Config, h: HeaderMap): HeaderMap {
    var h1 := Del(Del(Del(h, cfg.appIdHeader), cfg.userIdHeader), cfg.userPlanHeader);
    var h2 := Del(Del(Del(Del(h1, cfg.isAdminHeader), cfg.userRolesHeader), API_KEY_UID), cfg.userUidHeader);
    if cfg.userEmailHeader != "" then Del(h2, cfg.userEmailHeader) else h2
  }

  /** Stripping removes exactly the owned names. */
  lemma StrippedMeaning(cfg: Config, h: HeaderMap)
    ensures Stripped(cfg, h) == h - OwnedNames(cfg)
  {
    assert Stripped(cfg, h).Keys == h.Keys - OwnedNames(cfg);
  }

  function ResolutionHost(cfg: Config, r: RequestView): string {
    var forwarded := Get(r.headers, "X-Forwarded-Host");
    if cfg.trustForwardedHost && forwarded != ""
    then TrimSpace(forwarded[..IndexOf(forwarded, ',')]) else r.host
  }

  /** The application of the request's host; None when resolution is off. */
  function HostApp(cfg: Config, w: World, r: RequestView): Option<Option<string>> {
    if cfg.resolution.Disabled? || w.registry.None? then None
    else Some(Registry.ResolveName(w.registry.value, w.normalize(ResolutionHost(cfg, r))))
  }

  /** The application a client asks for, read before the strip. */
  function Requested(cfg: Config, w: World, r: RequestView): string {
    TrimSpace(Get(WithRequestId(w, r.headers), cfg.appIdHeader))
  }

  function WithoutOwned(cfg: Config, w: World, r: RequestView): RequestView {
    r.(headers := Stripped(cfg, WithRequestId(w, r.headers)))
  }

  /** One request through the middleware; `policyMode` selects the engine. */
  function Serve(cfg: Config, w: World, policyMode: bool, r: RequestView): Outcome {
    if cfg.corsEnabled && r.httpMethod == "OPTIONS" then Preflight
    else ServeStripped(cfg, w, policyMode, WithoutOwned(cfg, w, r), Requested(cfg, w, r))
  }

  function ServeStripped(cfg: Config, w: World, policyMode: bool, r: RequestView, requested: string): Outcome {
    match HostApp(cfg, w, r)
    case None => Dispatch(cfg, w, policyMode, r, "", requested)
    case Some(Some(app)) =>
      Dispatch(cfg, w, policyMode, r.(headers := Set(r.headers, cfg.appIdHeader, app)), app, requested)
    case Some(None) =>
      if cfg.resolution.Enforce? then
        if !w.registry.value.loaded then Denied(503, "registry_unavailable") else Denied(403, "unknown_app")
      else Dispatch(cfg, w, policyMode, r, "", requested)
  }

  function Dispatch(
      cfg: Config, w: World, policyMode: bool, r: RequestView, app: string, requested: string): Outcome
  {
    if cfg.resolution.Enforce? && !w.snapshot.loaded then Denied(503, "snapshot_unavailable")
    else if r.path == IAM_ME_PATH then IamMeOutcome(cfg, w, r, app)
    else if policyMode then PolicyOutcome(cfg, w, r, app, requested)
    else LegacyOutcome(cfg, w, r, app)
  }

  // ---- the middleware ----

  /** Rewriting a header with its own first value changes no first value. */
  lemma KeepAnonymousKeepsValues(cfg: Config, h: HeaderMap, name: string)
    ensures Get(KeepAnonymous(cfg, h), name) == Get(h, name)
  {
  }

  class GatewayPlugin {
    const cfg: Config
    const w: World
    const policyMode: bool

    constructor (cfg: Config, w: World, policyMode: bool)
      ensures this.cfg == cfg && this.w == w && this.policyMode == policyMode
    {
      this.cfg, this.w, this.policyMode := cfg, w, policyMode;
    }

    method ServeHTTP(req: Request) returns (out: Outcome)
      modifies req`headers
      ensures out == Serve(cfg, w, policyMode, old(req.View()))
      ensures out.Forwarded? ==> out.headers == req.headers
    {
      var rid := TrimSpace(req.HeaderValue(REQUEST_ID));
      if rid == "" {
        req.SetHeader(REQUEST_ID, w.freshRequestId);
      }
      if cfg.corsEnabled && req.httpMethod == "OPTIONS" {
        return Preflight;
      }
      var requestedApp := TrimSpace(req.HeaderValue(cfg.appIdHeader));
      StripOwned(req);
      var appID, refused := ResolveApp(req);
      if refused.Some? {
        return refused.value;
      }
      out := ServeResolved(req, appID, requestedApp);
    }

    method ServeResolved(req: Request, appID: string, requestedApp: string) returns (out: Outcome)
      modifies req`headers
      ensures out == Dispatch(cfg, w, policyMode, old(req.View()), appID, requestedApp)
      ensures out.Forwarded? ==> out.headers == req.headers
    {
      if cfg.resolution.Enforce? && !w.snapshot.loaded {
        return Denied(503, "snapshot_unavailable");
      }
      if req.path == IAM_ME_PATH {
        var permissions;
        out, permissions := ServeIamMe(req, appID);
      } else if policyMode {
        out := ServePolicy(req, appID, requestedApp);
      } else {
        out := ServeLegacy(req, appID);
      }
    }

    /** The application of the request's host, stamped when known; in enforce mode an unknown
        host is refused. */
    method ResolveApp(req: Request) returns (appID: string, refused: Option<Outcome>)
      modifies req`headers
      ensures match HostApp(cfg, w, old(req.View()))
              case None => refused == None && appID == "" && req.headers == old(req.headers)
              case Some(Some(app)) =>
                refused == None && appID == app && req.headers == Set(old(req.headers), cfg.appIdHeader, app)
              case Some(None) =>
                && appID == "" && req.headers == old(req.headers)
                && refused == (if !cfg.resolution.Enforce? then None
                               else if !w.registry.value.loaded then Some(Denied(503, "registry_unavailable"))
                               else Some(Denied(403, "unknown_app")))
    {
      appID, refused := "", None;
      if !cfg.resolution.Disabled? && w.registry.Some? {
        var host := ResolutionHost(cfg, req.View());
        var known := Registry.ResolveName(w.registry.value, w.normalize(host));
        if known.Some? {
          appID := known.value;
          req.SetHeader(cfg.appIdHeader, appID);
        } else if cfg.resolution.Enforce? {
          if !w.registry.value.loaded {
            return "", Some(Denied(503, "registry_unavailable"));
          }
          return "", Some(Denied(403, "unknown_app"));
        }
      }
    }

    method StripOwned(req: Request)
      modifies req`headers
      ensures req.headers == Stripped(cfg, old(req.headers))
    {
      req.DelHeader(cfg.appIdHeader);
      req.DelHeader(cfg.userIdHeader);
      req.DelHeader(cfg.userPlanHeader);
      req.DelHeader(cfg.isAdminHeader);
      req.DelHeader(cfg.userRolesHeader);
      req.DelHeader(API_KEY_UID);
      req.DelHeader(cfg.userUidHeader);
      if cfg.userEmailHeader != "" {
        req.DelHeader(cfg.userEmailHeader);
      }
    }

    method PrincipalFor(claims: TokenClaims) returns (p: Principal)
      ensures fresh(p) && p.View() == PrincipalOf(w, claims) && p.homeApp == claims.appID
    {
      p := new Principal(claims.subject, claims.userID, claims.appID, claims.email, claims.qualifiedRoles);
      p.ResolveStatements(w.snapshot.policies);
    }

    method ServePolicy(req: Request, hostApp: string, requestedApp: string) returns (out: Outcome)
      modifies req`headers
      ensures out == PolicyOutcome(cfg, w, old(req.View()), hostApp, requestedApp)
      ensures out.Forwarded? ==> out.headers == req.headers
    {
      var target := hostApp;
      if requestedApp != "" && w.registry.Some? {
        if requestedApp !in w.registry.value.active {
          return Denied(403, "unknown_app");
        }
        target := requestedApp;
      }
      if target != "" {
        req.SetHeader(cfg.appIdHeader, target);
      }
      var ep := EndpointFor(w, target, req.View());
      if ep.None? {
        if target != hostApp && EndpointFor(w, hostApp, req.View()).Some? {
          return Denied(403, "forbidden");
        }
        return Forwarded(req.headers, None);
      }
      if !cfg.disableAuth && HasLegacyApiKey(cfg, req.headers) {
        return Denied(401, "unauthorized");
      }
      var parsed := Authenticate(cfg, w, target, req.HeaderValue(cfg.jwtHeader));
      if parsed.Rejected? {
        return Denied(401, "unauthorized");
      }
      if parsed.Anonymous? {
        out := PolicyAnonymous(req, target, ep.value);
      } else {
        out := PolicyPrincipal(req, target, ep.value, parsed.claims);
      }
    }

    /** The policy path from the permission check on, without a token. */
    method PolicyAnonymous(req: Request, target: string, ep: Endpoint) returns (out: Outcome)
      modifies req`headers
      ensures out ==
              if ep.dto.requiredPermission != "" || ep.dto.ownerParam != "" then Denied(401, "unauthorized")
              else Limit(cfg, w, KeepAnonymous(cfg, old(req.headers)), ep,
                         Keys.RateLimitKey(target, AnonymousOf(cfg, old(req.View()))), cfg.defaultPlan)
      ensures out.Forwarded? ==> out.headers == req.headers
    {
      if ep.dto.requiredPermission != "" {
        return Denied(401, "unauthorized");
      }
      var rateLimitKey := StampAnonymous(req, target);
      if ep.dto.ownerParam != "" {
        return Denied(401, "unauthorized");
      }
      out := ApplyRateLimit(req, ep, rateLimitKey, cfg.defaultPlan);
    }

    /** The policy path from the permission check on, with a validated token. */
    method PolicyPrincipal(req: Request, target: string, ep: Endpoint, claims: TokenClaims) returns (out: Outcome)
      modifies req`headers
      ensures out == PolicyAuthenticated(cfg, w, old(req.View()), target, ep, claims)
      ensures out.Forwarded? ==> out.headers == req.headers
    {
      var pr := PrincipalFor(claims);
      var perm := ep.dto.requiredPermission;
      if perm != "" && !Granted(pr.statements, pr.homeApp, perm, target) {
        return Denied(403, "forbidden");
      }
      var wildcard := IsWildcard(pr.statements, pr.homeApp, target);
      var rateLimitKey := Keys.RateLimitKey(target, Keys.User(claims.userID));
      var planName := w.planOf(target, claims.userID);
      StampPolicyHeaders(req, claims, pr.boundRoles, wildcard, planName);
      if ep.dto.ownerParam != "" {
        var owner := ExtractOwner(w, ep, req.View());
        if !wildcard && !OwnerMatches(owner, claims.userID, claims.subject) {
          return Denied(403, "forbidden");
        }
      }
      if wildcard {
        return Forwarded(req.headers, None);
      }
      out := ApplyRateLimit(req, ep, rateLimitKey, planName);
    }

    method StampPolicyHeaders(req: Request, claims: TokenClaims, bound: seq<string>, wildcard: bool, planName: string)
      modifies req`headers
      ensures req.headers == StampPolicy(cfg, old(req.headers), claims, bound, wildcard, planName)
    {
      req.SetHeader(cfg.userIdHeader, claims.userID);
      req.SetHeader(cfg.userPlanHeader, planName);
      req.SetHeader(cfg.userUidHeader, claims.subject);
      if cfg.userEmailHeader != "" && claims.email != "" {
        req.SetHeader(cfg.userEmailHeader, claims.email);
      }
      if |bound| > 0 {
        req.SetHeader(cfg.userRolesHeader, Join(bound, ","));
      }
      if wildcard {
        req.SetHeader(cfg.isAdminHeader, "true");
      }
      req.DelHeader(cfg.sessionHeader);
    }

    /** Forward the first session and device values and name the anonymous caller's counter. */
    method StampAnonymous(req: Request, target: string) returns (rateLimitKey: string)
      modifies req`headers
      ensures req.headers == KeepAnonymous(cfg, old(req.headers))
      ensures rateLimitKey == Keys.RateLimitKey(target, AnonymousOf(cfg, old(req.View())))
    {
      ghost var before := req.headers;
      var sessionID := req.HeaderValue(cfg.sessionHeader);
      var deviceID := req.HeaderValue(cfg.deviceHeader);
      if sessionID != "" {
        req.SetHeader(cfg.sessionHeader, sessionID);
      }
      if deviceID != "" {
        req.SetHeader(cfg.deviceHeader, deviceID);
      }
      KeepAnonymousKeepsValues(cfg, before, "X-Forwarded-For");
      KeepAnonymousKeepsValues(cfg, before, "X-Real-Ip");
      rateLimitKey := "app:" + target + "|" + Keys.AnonymousRateLimitKey(deviceID, sessionID, ClientIp(req.View()));
    }

    /** The limiter's verdict on a request that is otherwise ready to be forwarded. */
    method ApplyRateLimit(req: Request, ep: Endpoint, rateLimitKey: string, planName: string) returns (out: Outcome)
      ensures out == Limit(cfg, w, req.headers, ep, rateLimitKey, planName)
    {
      if cfg.disableRateLimit || w.limiter.None? {
        return Forwarded(req.headers, None);
      }
      var (limit, window) := ResolveRateLimit(cfg, ep, planName);
      if limit <= 0 {
        return Forwarded(req.headers, None);
      }
      var result := w.limiter.value(rateLimitKey, ep.dto.uid, limit, window);
      if result.CheckError? {
        return Forwarded(req.headers, None);
      }
      if !result.allowed {
        return RateLimited(RateInfo(result.limit, 0, result.resetAt));
      }
      out := Forwarded(req.headers, Some(RateInfo(result.limit, result.remaining, result.resetAt)));
    }

    method ServeLegacy(req: Request, appID: string) returns (out: Outcome)
      modifies req`headers
      ensures out == LegacyOutcome(cfg, w, old(req.View()), appID)
      ensures out.Forwarded? ==> out.headers == req.headers
    {
      var ep := EndpointFor(w, appID, req.View());
      if ep.None? {
        return Forwarded(req.headers, None);
      }
      if !cfg.disableAuth && HasLegacyApiKey(cfg, req.headers) {
        return Denied(401, "unauthorized");
      }
      var parsed := LegacyAuthenticate(cfg, w, appID, req.HeaderValue(cfg.jwtHeader));
      if parsed.Rejected? {
        return Denied(401, "unauthorized");
      }
      var requiredPermission := ep.value.dto.requiredPermission;
      if requiredPermission == "" && ep.value.dto.accessLevel == cfg.adminAccessLevel {
        requiredPermission := cfg.adminPermission;
      }
      if parsed.Anonymous? {
        if requiredPermission != "" {
          return Denied(401, "unauthorized");
        }
        var rateLimitKey := StampAnonymous(req, appID);
        if ep.value.dto.ownerParam != "" {
          return Denied(401, "unauthorized");
        }
        out := ApplyRateLimit(req, ep.value, rateLimitKey, cfg.defaultPlan);
      } else {
        if requiredPermission != "" && !Has(TokenPermissions(parsed.claims), requiredPermission) {
          return Denied(403, "forbidden");
        }
        out := LegacyPrincipal(req, appID, ep.value, parsed.claims);
      }
    }

    /** The legacy path from the stamping on, with a validated token that may pass. */
    method LegacyPrincipal(req: Request, appID: string, ep: Endpoint, claims: TokenClaims) returns (out: Outcome)
      requires LegacyPermission(cfg, ep) != "" ==> Has(TokenPermissions(claims), LegacyPermission(cfg, ep))
      modifies req`headers
      ensures out == LegacyAuthenticated(cfg, w, old(req.View()), appID, ep, claims)
      ensures out.Forwarded? ==> out.headers == req.headers
    {
      var rateLimitKey := Keys.RateLimitKey(appID, Keys.User(claims.userID));
      var planName := w.planOf(appID, claims.userID);
      StampLegacyHeaders(req, claims, planName);
      if ep.dto.ownerParam != "" {
        var owner := ExtractOwner(w, ep, req.View());
        if req.HeaderValue(cfg.isAdminHeader) != "true" && !OwnerMatches(owner, claims.userID, claims.subject) {
          return Denied(403, "forbidden");
        }
      }
      out := ApplyRateLimit(req, ep, rateLimitKey, planName);
    }

    method StampLegacyHeaders(req: Request, claims: TokenClaims, planName: string)
      modifies req`headers
      ensures req.headers == StampLegacy(cfg, old(req.headers), claims, planName)
    {
      req.SetHeader(cfg.userIdHeader, claims.userID);
      req.SetHeader(cfg.userPlanHeader, planName);
      StampAuthzHeaders(req, claims);
      req.SetHeader(cfg.userUidHeader, claims.subject);
      if cfg.userEmailHeader != "" && claims.email != "" {
        req.SetHeader(cfg.userEmailHeader, claims.email);
      }
      req.DelHeader(cfg.sessionHeader);
    }

    method StampAuthzHeaders(req: Request, claims: TokenClaims)
      modifies req`headers
      ensures req.headers ==
              SetIf(claims.roles != [], SetIf(claims.isAdmin, old(req.headers), cfg.isAdminHeader, "true"),
                    cfg.userRolesHeader, Join(claims.roles, ","))
    {
      if claims.isAdmin {
        req.SetHeader(cfg.isAdminHeader, "true");
      }
      if |claims.roles| > 0 {
        req.SetHeader(cfg.userRolesHeader, Join(claims.roles, ","));
      }
    }

    /** GET /api/_iam/me: who the caller is and what it may do, application by application. */
    method ServeIamMe(req: Request, hostApp: string)
      returns (out: Outcome, permissions: map<string, seq<string>>)
      ensures out == IamMeOutcome(cfg, w, req.View(), hostApp)
      ensures out.Introspected? ==>
                Permissions.IsListing(permissions, out.resolved.statements, out.claims.appID, out.active)
    {
      permissions := map[];
      if req.httpMethod != "GET" {
        out := Denied(405, "method_not_allowed");
        return;
      }
      var parsed := Authenticate(cfg, w, hostApp, req.HeaderValue(cfg.jwtHeader));
      if !parsed.Accepted? {
        out := Denied(401, "unauthorized");
        return;
      }
      var pr := PrincipalFor(parsed.claims);
      var active: seq<string> := [];
      if w.registry.Some? {
        active := Permissions.ListOf(w.registry.value.active);
        active := Permissions.SortStrings(active);
      }
      Permissions.EmptyElements(active);
      if active == [] && hostApp != "" {
        active := [hostApp];
      }
      assert Permissions.Elements(active) == ActiveFor(w, hostApp);
      permissions := Permissions.PermissionsByApp(pr.statements, pr.homeApp, active);
      out := Introspected(parsed.claims, pr.View(), ActiveFor(w, hostApp));
    }
  }
}
