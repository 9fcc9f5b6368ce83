/** Moving from the legacy engine to the policy engine takes nothing away from anybody whose
    admin roles are bound, and what the shadow log says about it (plugin.go, policy.go). */
module Cutover {
  import opened Text
  import opened Headers
  import opened Authz
  import opened Tokens
  import opened Snapshot
  import opened Gateway
  import opened Mediation
  import Keys

  /** A role name is bound to a policy that holds "*" on `app`, for principals at home there. */
  predicate HoldsStar(w: World, role: string, app: string) {
    && w.snapshot.policies.Some?
    && var idx := w.snapshot.policies.value;
       && role in idx.rolePolicy
       && IsWildcard(StatementsOf(idx, idx.rolePolicy[role]), app, app)
  }

  /** Every admin role the token carries is bound, under each name it goes by, to a policy that
      holds "*" on `app`. */
  predicate AdminRolesBound(cfg: Config, w: World, t: Token, app: string) {
    forall role <- cfg.adminRoles ::
      && (role in ClientRoles(t) ==> HoldsStar(w, t.Claim("azp") + ":" + role, app))
      && (role in RealmRoles(t) ==> HoldsStar(w, role, app))
  }

  lemma AdminIsWildcard(cfg: Config, w: World, t: Token, app: string)
    requires AdminRolesBound(cfg, w, t, app)
    requires t.Claim("app_id") == app
    requires ClaimsOf(t, cfg.userIdClaim, cfg.adminRoles).isAdmin
    ensures var claims := ClaimsOf(t, cfg.userIdClaim, cfg.adminRoles);
            IsWildcard(PrincipalOf(w, claims).statements, claims.appID, app)
  {
    var claims := ClaimsOf(t, cfg.userIdClaim, cfg.adminRoles);
    var role :| role in claims.roles && role in cfg.adminRoles;
    RolesCorrespond(t);
    var q := if role in ClientRoles(t) then t.Claim("azp") + ":" + role else role;
    assert q in claims.qualifiedRoles && HoldsStar(w, q, app);
    ResolvedMembers(claims.qualifiedRoles, w.snapshot.policies.value);
  }

  /** What the legacy engine accepts as a caller, the policy engine accepts as the same caller. */
  lemma SameCaller(cfg: Config, w: World, app: string, auth: string)
    requires !LegacyAuthenticate(cfg, w, app, auth).Rejected?
    ensures Authenticate(cfg, w, app, auth) == LegacyAuthenticate(cfg, w, app, auth)
    ensures Authenticate(cfg, w, app, auth).Accepted? ==>
              var t := w.decode(TrimPrefix(auth, "Bearer "));
              && t.Claim("app_id") == app
              && Authenticate(cfg, w, app, auth).claims == ClaimsOf(t, cfg.userIdClaim, cfg.adminRoles)
  {
  }

  lemma StampsAgree(
      cfg: Config, h0: HeaderMap, claims: TokenClaims, bound: seq<string>, wildcard: bool, plan: string, n: string)
    requires NamesDistinct(cfg)
    requires n != cfg.userRolesHeader && n != cfg.isAdminHeader
    ensures Same(StampLegacy(cfg, h0, claims, plan), StampPolicy(cfg, h0, claims, bound, wildcard, plan), n)
  {
  }

  /** The policy answer serves the legacy one's caller at least as well: it forwards too, with the
      same headers but for the roles, and with the admin flag wherever legacy stamped it. */
  predicate AtLeast(cfg: Config, policy: Outcome, legacy: Outcome) {
    legacy.Forwarded? ==>
      && policy.Forwarded?
      && (Carries(legacy.headers, cfg.isAdminHeader, Some("true")) ==>
            Carries(policy.headers, cfg.isAdminHeader, Some("true")))
  }

  ghost predicate SameBesideRoles(cfg: Config, policy: Outcome, legacy: Outcome) {
    legacy.Forwarded? && policy.Forwarded? ==>
      forall n | n != cfg.userRolesHeader && n != cfg.isAdminHeader :: Same(policy.headers, legacy.headers, n)
  }

  lemma AuthenticatedCutover(
      cfg: Config, w: World, r: RequestView, app: string, ep: Endpoint, t: Token)
    requires NamesDistinct(cfg) && cfg.isAdminHeader !in r.headers
    requires AdminRolesBound(cfg, w, t, app) && t.Claim("app_id") == app
    ensures var claims := ClaimsOf(t, cfg.userIdClaim, cfg.adminRoles);
            var legacy := LegacyAuthenticated(cfg, w, r, app, ep, claims);
            var policy := PolicyAuthenticated(cfg, w, r, app, ep, claims);
            AtLeast(cfg, policy, legacy) && SameBesideRoles(cfg, policy, legacy)
  {
    var claims := ClaimsOf(t, cfg.userIdClaim, cfg.adminRoles);
    var p := PrincipalOf(w, claims);
    var wildcard := IsWildcard(p.statements, claims.appID, app);
    var plan := w.planOf(app, claims.userID);
    if claims.isAdmin {
      AdminIsWildcard(cfg, w, t, app);
      WildcardIsUniversal(p.statements, claims.appID, app);
    }
    LegacyAdminStamp(cfg, r.headers, claims, plan);
    AdminFlagOf(cfg, r.headers, claims, p.boundRoles, wildcard, plan);
    forall n | n != cfg.userRolesHeader && n != cfg.isAdminHeader
      ensures Same(StampPolicy(cfg, r.headers, claims, p.boundRoles, wildcard, plan),
                   StampLegacy(cfg, r.headers, claims, plan), n)
    {
      StampsAgree(cfg, r.headers, claims, p.boundRoles, wildcard, plan, n);
    }
  }

  lemma AdminFlagOf(
      cfg: Config, h0: HeaderMap, claims: TokenClaims, bound: seq<string>, wildcard: bool, plan: string)
    requires NamesDistinct(cfg) && cfg.isAdminHeader !in h0
    ensures Carries(StampPolicy(cfg, h0, claims, bound, wildcard, plan), cfg.isAdminHeader, When(wildcard, "true"))
  {
  }

  /** One engine for the other, on a request that asks for no other application. */
  lemma EngineCutover(cfg: Config, w: World, r: RequestView, app: string)
    requires NamesDistinct(cfg) && cfg.isAdminHeader !in r.headers
    requires app != "" ==> Carries(r.headers, cfg.appIdHeader, Some(app))
    requires AdminRolesBound(cfg, w, w.decode(TrimPrefix(Get(r.headers, cfg.jwtHeader), "Bearer ")), app)
    ensures var legacy, policy := LegacyOutcome(cfg, w, r, app), PolicyOutcome(cfg, w, r, app, "");
            AtLeast(cfg, policy, legacy) && SameBesideRoles(cfg, policy, legacy)
  {
    var auth := Get(r.headers, cfg.jwtHeader);
    assert SetIf(app != "", r.headers, cfg.appIdHeader, app) == r.headers;
    var ep := EndpointFor(w, app, r);
    var parsed := LegacyAuthenticate(cfg, w, app, auth);
    if ep.Some? && !parsed.Rejected? {
      SameCaller(cfg, w, app, auth);
      if parsed.Accepted? {
        AuthenticatedCutover(cfg, w, r, app, ep.value, w.decode(TrimPrefix(auth, "Bearer ")));
      }
    }
  }

  /** Cutover. Take any configuration whose names are distinct and any request that names no
      application. If the admin roles of the token it carries are bound to "*" on the host's
      application, then switching the engine from legacy to policy still forwards it, with every
      header but roles and admin flag as before, and with the admin flag if it had it. The limiter
      may be on: the two engines count a caller under one key. */
  lemma CutoverTakesNothingAway(cfg: Config, w: World, r: RequestView)
    requires NamesDistinct(cfg)
    requires Requested(cfg, w, r) == ""
    requires AdminRolesBound(
               cfg, w, w.decode(TrimPrefix(Get(Entered(cfg, w, r).headers, cfg.jwtHeader), "Bearer ")),
               EnteredApp(cfg, w, r))
    ensures var legacy, policy := Serve(cfg, w, false, r), Serve(cfg, w, true, r);
            AtLeast(cfg, policy, legacy) && SameBesideRoles(cfg, policy, legacy)
  {
    EnteredIsClean(cfg, w, r);
    EngineCutover(cfg, w, Entered(cfg, w, r), EnteredApp(cfg, w, r));
    ServeEnters(cfg, w, false, r);
    ServeEnters(cfg, w, true, r);
  }

  // ---- the shadow log ----

  /** The verdict the legacy engine logs for the policy engine: it asks for the permission that
      the admin access level implies, and for nothing else. */
  predicate ShadowAllows(cfg: Config, w: World, ep: Endpoint, claims: TokenClaims, target: string) {
    Granted(PrincipalOf(w, claims).statements, claims.appID, LegacyPermission(cfg, ep), target)
  }

  /** The endpoint names no permission, its admin access level implies one, and the caller lacks it:
      the log refuses what the policy engine does not ask for. */
  predicate ImpliedMissing(cfg: Config, w: World, ep: Endpoint, claims: TokenClaims, target: string) {
    && ep.dto.requiredPermission == "" && ep.dto.accessLevel == cfg.adminAccessLevel
    && !Granted(PrincipalOf(w, claims).statements, claims.appID, cfg.adminPermission, target)
  }

  /** The resource is somebody else's and the caller is no wildcard: the policy engine's owner gate
      refuses what the log does not look at. */
  predicate OwnerRefuses(
      w: World, r: RequestView, ep: Endpoint, claims: TokenClaims, target: string)
  {
    && ep.dto.ownerParam != ""
    && !IsWildcard(PrincipalOf(w, claims).statements, claims.appID, target)
    && !OwnerMatches(ExtractOwner(w, ep, r), claims.userID, claims.subject)
  }

  /** The log is written for callers that the policy engine accepts too. */
  lemma LoggedCallersPresent(cfg: Config, w: World, app: string, auth: string, claims: TokenClaims)
    requires LegacyAuthenticate(cfg, w, app, auth) == Accepted(claims)
    ensures Presents(cfg, w, app, auth, claims)
  {
    SameCaller(cfg, w, app, auth);
    AuthenticateIff(cfg, w, app, auth, claims);
  }

  /** For a caller with an accepted token the log is the policy engine's verdict exactly if the
      engine refuses the endpoint's own permission, or the two ways of differing cancel: the owner
      gate refuses and the implied permission is missing, or neither. */
  lemma ShadowAgreesIff(
      cfg: Config, w: World, r: RequestView, ep: Endpoint, claims: TokenClaims, target: string)
    requires Presents(cfg, w, target, Get(r.headers, cfg.jwtHeader), claims) && !HasLegacyApiKey(cfg, r.headers)
    ensures var refused := PolicyMatched(cfg, w, r, target, ep) == Denied(403, "forbidden");
            (ShadowAllows(cfg, w, ep, claims, target) <==> !refused) <==>
              || !Granted(PrincipalOf(w, claims).statements, claims.appID, ep.dto.requiredPermission, target)
              || (OwnerRefuses(w, r, ep, claims, target) <==> ImpliedMissing(cfg, w, ep, claims, target))
  {
    AuthenticateIff(cfg, w, target, Get(r.headers, cfg.jwtHeader), claims);
  }

  /** The log promises too much exactly for a caller whom the owner gate refuses although the
      permission the log asks for is granted, and too little exactly for one who lacks only the
      implied permission. */
  lemma ShadowErrsIff(
      cfg: Config, w: World, r: RequestView, ep: Endpoint, claims: TokenClaims, target: string)
    requires Presents(cfg, w, target, Get(r.headers, cfg.jwtHeader), claims) && !HasLegacyApiKey(cfg, r.headers)
    ensures var refused := PolicyMatched(cfg, w, r, target, ep) == Denied(403, "forbidden");
            && (ShadowAllows(cfg, w, ep, claims, target) && refused <==>
                  ShadowAllows(cfg, w, ep, claims, target) && OwnerRefuses(w, r, ep, claims, target))
            && (!ShadowAllows(cfg, w, ep, claims, target) && !refused <==>
                  ImpliedMissing(cfg, w, ep, claims, target) && !OwnerRefuses(w, r, ep, claims, target))
  {
    AuthenticateIff(cfg, w, target, Get(r.headers, cfg.jwtHeader), claims);
    WildcardIsUniversal(PrincipalOf(w, claims).statements, claims.appID, target);
  }

  /** A caller whose token is accepted and who lacks only the implied permission: the log says deny,
      and the policy engine forwards the caller exactly while it is within the limit. */
  lemma ShadowDeniesWhatPolicyForwards(
      cfg: Config, w: World, r: RequestView, ep: Endpoint, claims: TokenClaims, target: string)
    requires Presents(cfg, w, target, Get(r.headers, cfg.jwtHeader), claims) && !HasLegacyApiKey(cfg, r.headers)
    requires ep.dto.requiredPermission == "" && ep.dto.ownerParam == ""
    requires ep.dto.accessLevel == cfg.adminAccessLevel
    requires !Granted(PrincipalOf(w, claims).statements, claims.appID, cfg.adminPermission, target)
    ensures !ShadowAllows(cfg, w, ep, claims, target)
    ensures var key := Keys.RateLimitKey(target, Keys.User(claims.userID));
            PolicyMatched(cfg, w, r, target, ep).Forwarded? <==>
            WithinLimit(cfg, w, ep, key, w.planOf(target, claims.userID))
  {
    AuthenticateIff(cfg, w, target, Get(r.headers, cfg.jwtHeader), claims);
    WildcardIsUniversal(PrincipalOf(w, claims).statements, claims.appID, target);
  }
}
