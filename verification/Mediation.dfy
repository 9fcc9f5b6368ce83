/** Who reaches a backend through the policy engine, and what the backend is told about the
    caller, in terms of the published snapshot and the token (policy.go, plugin.go). */
module Mediation {
  import opened Text
  import opened Headers
  import opened Authz
  import opened Tokens
  import opened Snapshot
  import opened Gateway
  import Keys
  import Permissions
  import Registry
  import UserId

  // ---- authentication ----

  /** The application's realm, or the operators' if the application's does not have the token's
      issuer, accepts the token presented, and these are its claims. */
  ghost predicate Presents(cfg: Config, w: World, app: string, auth: string, claims: TokenClaims) {
    && auth != "" && !cfg.disableAuth && HasPrefix(auth, "Bearer ")
    && var t := w.decode(TrimPrefix(auth, "Bearer "));
       && claims == ClaimsOf(t, cfg.userIdClaim, cfg.adminRoles)
       && exists realm ::
            && RealmAccepts(realm, t)
            && ((app != "" && app in w.realms && w.realms[app] == realm)
                || (w.operatorRealm == Some(realm)
                    && (app != "" && app in w.realms ==> w.realms[app].issuer != realm.issuer)))
  }

  lemma AuthenticateIff(cfg: Config, w: World, app: string, auth: string, claims: TokenClaims)
    ensures Authenticate(cfg, w, app, auth) == Accepted(claims) <==> Presents(cfg, w, app, auth, claims)
    ensures Authenticate(cfg, w, app, auth) == Anonymous <==> auth == "" || cfg.disableAuth
  {
    var t := w.decode(TrimPrefix(auth, "Bearer "));
    var chosen := ChosenRealm(w, app, TokenIssuer(auth, w.decode));
    if Authenticate(cfg, w, app, auth) == Accepted(claims) {
      assert RealmAccepts(chosen.value, t);
    }
  }

  // ---- the gates ----

  /** What the snapshot grants to the roles a token carries. */
  predicate SnapshotAllows(snap: SnapshotDto, claims: TokenClaims, perm: string, app: string) {
    perm == ""
    || SnapshotGrants(snap.policies, snap.bindings, (set q <- claims.qualifiedRoles), claims.appID, perm, app)
  }

  /** What is allowed, read off the published lists; and without a statement for "*" or for the
      application itself, nothing is, to callers of any other application. */
  lemma SnapshotAllowsMeaning(snap: SnapshotDto, claims: TokenClaims, perm: string, app: string)
    ensures SnapshotAllows(snap, claims, perm, app) <==>
            perm == "" || PublishedGrants(snap.policies, snap.bindings, (set q <- claims.qualifiedRoles),
                                          claims.appID, perm, app)
    ensures perm != "" && app != claims.appID
            && (forall p <- snap.policies :: forall s <- p.statements :: "*" !in s.apps && app !in s.apps) ==>
              !SnapshotAllows(snap, claims, perm, app)
  {
    if perm != "" {
      PublishedGrantsIff(snap.policies, snap.bindings, (set q <- claims.qualifiedRoles), claims.appID, perm, app);
    }
  }

  /** Universal authority on an application: every permission there is. */
  ghost predicate Universal(snap: SnapshotDto, claims: TokenClaims, app: string) {
    forall perm :: SnapshotAllows(snap, claims, perm, app)
  }

  lemma EngineReadsSnapshot(w: World, snap: SnapshotDto, claims: TokenClaims, perm: string, app: string)
    requires InForce(w.snapshot, snap)
    ensures Granted(PrincipalOf(w, claims).statements, claims.appID, perm, app) <==>
            SnapshotAllows(snap, claims, perm, app)
  {
    if perm != "" && w.snapshot == Compiled(snap) {
      EnforcementMeansSnapshot(snap.policies, snap.bindings, claims.qualifiedRoles, claims.appID, perm, app);
    }
  }

  /** The engine's wildcard test is universal authority under the snapshot. */
  lemma WildcardMeansUniversal(w: World, snap: SnapshotDto, claims: TokenClaims, app: string)
    requires InForce(w.snapshot, snap)
    ensures IsWildcard(PrincipalOf(w, claims).statements, claims.appID, app) <==> Universal(snap, claims, app)
  {
    var mine := PrincipalOf(w, claims).statements;
    WildcardIsUniversal(mine, claims.appID, app);
    forall perm ensures Granted(mine, claims.appID, perm, app) <==> SnapshotAllows(snap, claims, perm, app) {
      EngineReadsSnapshot(w, snap, claims, perm, app);
    }
  }

  predicate WithinLimit(cfg: Config, w: World, ep: Endpoint, key: string, plan: string) {
    RateStage(cfg, w, ep, key, plan).Pass?
  }

  /** A caller without a token may pass: nothing is required of it and the limiter agrees. */
  predicate AnonymousMayPass(cfg: Config, w: World, r: RequestView, target: string, ep: Endpoint) {
    && (Get(r.headers, cfg.jwtHeader) == "" || cfg.disableAuth)
    && ep.dto.requiredPermission == "" && ep.dto.ownerParam == ""
    && WithinLimit(cfg, w, ep, Keys.RateLimitKey(target, AnonymousOf(cfg, r)), cfg.defaultPlan)
  }

  /** A caller with a token may pass: the snapshot grants the permission, and it either has
      universal authority on the target, or owns the resource and is within the limit. */
  ghost predicate BearerMayPass(
      cfg: Config, w: World, snap: SnapshotDto, r: RequestView, target: string, ep: Endpoint, claims: TokenClaims)
  {
    && Presents(cfg, w, target, Get(r.headers, cfg.jwtHeader), claims)
    && SnapshotAllows(snap, claims, ep.dto.requiredPermission, target)
    && (Universal(snap, claims, target)
        || ((ep.dto.ownerParam == "" || OwnerMatches(ExtractOwner(w, ep, r), claims.userID, claims.subject))
            && WithinLimit(cfg, w, ep, Keys.RateLimitKey(target, Keys.User(claims.userID)),
                           w.planOf(target, claims.userID))))
  }

  /** The request with its authorized application stamped. */
  function ForTarget(cfg: Config, r: RequestView, target: string): RequestView {
    r.(headers := SetIf(target != "", r.headers, cfg.appIdHeader, target))
  }

  lemma BearerForwardsIff(
      cfg: Config, w: World, snap: SnapshotDto, r: RequestView, target: string, ep: Endpoint, claims: TokenClaims)
    requires InForce(w.snapshot, snap)
    requires Presents(cfg, w, target, Get(r.headers, cfg.jwtHeader), claims)
    ensures PolicyAuthenticated(cfg, w, r, target, ep, claims).Forwarded? <==>
            BearerMayPass(cfg, w, snap, r, target, ep, claims)
  {
    EngineReadsSnapshot(w, snap, claims, ep.dto.requiredPermission, target);
    WildcardMeansUniversal(w, snap, claims, target);
  }

  lemma MatchedForwardsIff(cfg: Config, w: World, snap: SnapshotDto, r: RequestView, target: string, ep: Endpoint)
    requires InForce(w.snapshot, snap)
    ensures PolicyMatched(cfg, w, r, target, ep).Forwarded? <==>
            && (cfg.disableAuth || !HasLegacyApiKey(cfg, r.headers))
            && (AnonymousMayPass(cfg, w, r, target, ep)
                || exists claims :: BearerMayPass(cfg, w, snap, r, target, ep, claims))
  {
    var auth := Get(r.headers, cfg.jwtHeader);
    var parsed := Authenticate(cfg, w, target, auth);
    forall claims ensures BearerMayPass(cfg, w, snap, r, target, ep, claims) <==>
                          parsed == Accepted(claims) && PolicyAuthenticated(cfg, w, r, target, ep, claims).Forwarded?
    {
      AuthenticateIff(cfg, w, target, auth, claims);
      if parsed == Accepted(claims) {
        BearerForwardsIff(cfg, w, snap, r, target, ep, claims);
      }
    }
  }

  /** Complete mediation. The policy engine forwards a request exactly when its target application
      is the host's or a registered active one, and either no endpoint of the target nor of the
      host matches, or the endpoint that matches lets this caller pass. */
  lemma PolicyForwardsIff(
      cfg: Config, w: World, snap: SnapshotDto, r: RequestView, hostApp: string, requested: string)
    requires InForce(w.snapshot, snap)
    ensures var target := Target(w, hostApp, requested);
            var r1 := ForTarget(cfg, r, target);
            PolicyOutcome(cfg, w, r, hostApp, requested).Forwarded? <==>
              && !UnknownTarget(w, requested)
              && match EndpointFor(w, target, r)
                 case None => EndpointFor(w, hostApp, r).None?
                 case Some(ep) =>
                   && (cfg.disableAuth || !HasLegacyApiKey(cfg, r1.headers))
                   && (AnonymousMayPass(cfg, w, r1, target, ep)
                       || exists claims :: BearerMayPass(cfg, w, snap, r1, target, ep, claims))
  {
    var target := Target(w, hostApp, requested);
    if EndpointFor(w, target, r).Some? {
      MatchedForwardsIff(cfg, w, snap, ForTarget(cfg, r, target), target, EndpointFor(w, target, r).value);
    }
  }

  /** A caller whose token is accepted is refused: the snapshot does not grant the permission, or
      the resource is somebody else's and the caller has no universal authority. */
  ghost predicate Refused(
      cfg: Config, w: World, snap: SnapshotDto, r: RequestView, target: string, ep: Endpoint, claims: TokenClaims)
  {
    || !SnapshotAllows(snap, claims, ep.dto.requiredPermission, target)
    || (ep.dto.ownerParam != "" && !Universal(snap, claims, target)
        && !OwnerMatches(ExtractOwner(w, ep, r), claims.userID, claims.subject))
  }

  /** Such a caller is not refused but over its limit, and has no universal authority. */
  ghost predicate OverLimit(
      cfg: Config, w: World, snap: SnapshotDto, r: RequestView, target: string, ep: Endpoint, claims: TokenClaims)
  {
    && !Refused(cfg, w, snap, r, target, ep, claims) && !Universal(snap, claims, target)
    && !WithinLimit(cfg, w, ep, Keys.RateLimitKey(target, Keys.User(claims.userID)), w.planOf(target, claims.userID))
  }

  lemma BearerVerdict(
      cfg: Config, w: World, snap: SnapshotDto, r: RequestView, target: string, ep: Endpoint, claims: TokenClaims)
    requires InForce(w.snapshot, snap)
    ensures var o := PolicyAuthenticated(cfg, w, r, target, ep, claims);
            && (o == Denied(403, "forbidden") <==> Refused(cfg, w, snap, r, target, ep, claims))
            && (o.RateLimited? <==> OverLimit(cfg, w, snap, r, target, ep, claims))
            && (o.Forwarded? || o.RateLimited? || o == Denied(403, "forbidden"))
  {
    EngineReadsSnapshot(w, snap, claims, ep.dto.requiredPermission, target);
    WildcardMeansUniversal(w, snap, claims, target);
  }

  lemma AcceptedIff(cfg: Config, w: World, target: string, auth: string)
    ensures forall claims :: Presents(cfg, w, target, auth, claims) <==>
                             Authenticate(cfg, w, target, auth) == Accepted(claims)
  {
    forall claims ensures Presents(cfg, w, target, auth, claims) <==>
                          Authenticate(cfg, w, target, auth) == Accepted(claims)
    {
      AuthenticateIff(cfg, w, target, auth, claims);
    }
  }

  /** A credential that no realm of the target accepts. */
  ghost predicate Unacceptable(cfg: Config, w: World, target: string, auth: string) {
    auth != "" && !cfg.disableAuth && !exists claims :: Presents(cfg, w, target, auth, claims)
  }

  /** Every way a matched request is turned away before the limiter: 401 exactly for a retired key,
      for an unacceptable credential, or for none where one is needed; 403 exactly for an accepted
      caller who is refused. */
  lemma MatchedVerdictIff(cfg: Config, w: World, snap: SnapshotDto, r: RequestView, target: string, ep: Endpoint)
    requires InForce(w.snapshot, snap)
    ensures var o := PolicyMatched(cfg, w, r, target, ep);
            var auth := Get(r.headers, cfg.jwtHeader);
            var retired := !cfg.disableAuth && HasLegacyApiKey(cfg, r.headers);
            var guarded := ep.dto.requiredPermission != "" || ep.dto.ownerParam != "";
            && (o == Denied(401, "unauthorized") <==>
                  || retired || Unacceptable(cfg, w, target, auth)
                  || ((auth == "" || cfg.disableAuth) && guarded))
            && (o == Denied(403, "forbidden") <==>
                  !retired && exists claims :: Presents(cfg, w, target, auth, claims)
                                               && Refused(cfg, w, snap, r, target, ep, claims))
            && (o.Forwarded? || o.RateLimited? || o in {Denied(401, "unauthorized"), Denied(403, "forbidden")})
  {
    hide PolicyAuthenticated;
    hide Presents;
    hide Refused;
    var auth := Get(r.headers, cfg.jwtHeader);
    AcceptedIff(cfg, w, target, auth);
    var parsed := Authenticate(cfg, w, target, auth);
    if parsed.Accepted? {
      BearerVerdict(cfg, w, snap, r, target, ep, parsed.claims);
    }
  }

  /** 429 exactly for a caller over the limit: an anonymous one where no credential is needed, or an
      accepted one who is not refused and has no universal authority. */
  lemma MatchedOverLimitIff(cfg: Config, w: World, snap: SnapshotDto, r: RequestView, target: string, ep: Endpoint)
    requires InForce(w.snapshot, snap)
    ensures var auth := Get(r.headers, cfg.jwtHeader);
            var key := Keys.RateLimitKey(target, AnonymousOf(cfg, r));
            PolicyMatched(cfg, w, r, target, ep).RateLimited? <==>
              && (cfg.disableAuth || !HasLegacyApiKey(cfg, r.headers))
              && (((auth == "" || cfg.disableAuth) && ep.dto.requiredPermission == "" && ep.dto.ownerParam == ""
                   && !WithinLimit(cfg, w, ep, key, cfg.defaultPlan))
                  || exists claims :: Presents(cfg, w, target, auth, claims)
                                      && OverLimit(cfg, w, snap, r, target, ep, claims))
  {
    hide PolicyAuthenticated;
    hide Presents;
    hide OverLimit;
    var auth := Get(r.headers, cfg.jwtHeader);
    AcceptedIff(cfg, w, target, auth);
    var parsed := Authenticate(cfg, w, target, auth);
    if parsed.Accepted? {
      BearerVerdict(cfg, w, snap, r, target, ep, parsed.claims);
    }
  }

  // ---- what the backend is told ----

  /** The stamped and managed header names are pairwise distinct. */
  predicate NamesDistinct(cfg: Config) {
    && cfg.appIdHeader !in {cfg.userIdHeader, cfg.userPlanHeader, cfg.isAdminHeader, cfg.userRolesHeader,
                            cfg.userUidHeader, cfg.userEmailHeader, cfg.sessionHeader, cfg.deviceHeader, REQUEST_ID}
    && cfg.userIdHeader !in {cfg.userPlanHeader, cfg.isAdminHeader, cfg.userRolesHeader, cfg.userUidHeader,
                             cfg.userEmailHeader, cfg.sessionHeader, cfg.deviceHeader, REQUEST_ID}
    && cfg.userPlanHeader !in {cfg.isAdminHeader, cfg.userRolesHeader, cfg.userUidHeader, cfg.userEmailHeader,
                               cfg.sessionHeader, cfg.deviceHeader, REQUEST_ID}
    && cfg.isAdminHeader !in {cfg.userRolesHeader, cfg.userUidHeader, cfg.userEmailHeader, cfg.sessionHeader,
                              cfg.deviceHeader, REQUEST_ID}
    && cfg.userRolesHeader !in {cfg.userUidHeader, cfg.userEmailHeader, cfg.sessionHeader, cfg.deviceHeader, REQUEST_ID}
    && cfg.userUidHeader !in {cfg.userEmailHeader, cfg.sessionHeader, cfg.deviceHeader, REQUEST_ID}
    && cfg.userEmailHeader !in {cfg.sessionHeader, cfg.deviceHeader, REQUEST_ID}
    && API_KEY_UID !in {cfg.appIdHeader, cfg.userIdHeader, cfg.userPlanHeader, cfg.isAdminHeader,
                        cfg.userRolesHeader, cfg.userUidHeader, cfg.userEmailHeader, cfg.sessionHeader,
                        cfg.deviceHeader, REQUEST_ID}
  }

  /** `name` carries exactly `value`, or nothing. */
  predicate Carries(h: HeaderMap, name: string, value: Option<string>) {
    match value
    case Some(v) => name in h && h[name] == [v]
    case None => name !in h
  }

  function When(c: bool, value: string): Option<string> {
    if c then Some(value) else None
  }

  /** No gateway-owned name but the application id is present. */
  predicate CleanButForApp(cfg: Config, h: HeaderMap) {
    forall n <- OwnedNames(cfg) :: n != cfg.appIdHeader ==> n !in h
  }

  /** The two maps agree on `n`. */
  predicate Same(g: HeaderMap, h: HeaderMap, n: string) {
    (n in g <==> n in h) && (n in g ==> g[n] == h[n])
  }

  lemma StampPolicyEffect(
      cfg: Config, h0: HeaderMap, claims: TokenClaims, bound: seq<string>, wildcard: bool, plan: string)
    requires NamesDistinct(cfg) && CleanButForApp(cfg, h0)
    ensures var h := StampPolicy(cfg, h0, claims, bound, wildcard, plan);
            && Carries(h, cfg.userIdHeader, Some(claims.userID))
            && Carries(h, cfg.userPlanHeader, Some(plan))
            && Carries(h, cfg.userUidHeader, Some(claims.subject))
            && Carries(h, cfg.userRolesHeader, When(bound != [], Join(bound, ",")))
            && Carries(h, cfg.isAdminHeader, When(wildcard, "true"))
            && Carries(h, cfg.sessionHeader, None)
            && (cfg.userEmailHeader != "" ==> Carries(h, cfg.userEmailHeader, When(claims.email != "", claims.email)))
  {
    assert cfg.userRolesHeader !in h0 && cfg.isAdminHeader !in h0;
    assert cfg.userEmailHeader != "" ==> cfg.userEmailHeader !in h0;
  }

  lemma StampPolicyFrame(
      cfg: Config, h0: HeaderMap, claims: TokenClaims, bound: seq<string>, wildcard: bool, plan: string, n: string)
    requires NamesDistinct(cfg)
    requires n != cfg.sessionHeader && (n == cfg.appIdHeader || n !in OwnedNames(cfg))
    ensures Same(StampPolicy(cfg, h0, claims, bound, wildcard, plan), h0, n)
  {
  }

  /** Identity headers are exactly what the token and the snapshot say: the admin flag is stamped
      for universal authority and for nothing less, and every other name is left alone. */
  lemma AuthenticatedHeaders(
      cfg: Config, w: World, snap: SnapshotDto, r: RequestView, target: string, ep: Endpoint, claims: TokenClaims)
    requires InForce(w.snapshot, snap) && NamesDistinct(cfg) && CleanButForApp(cfg, r.headers)
    requires PolicyAuthenticated(cfg, w, r, target, ep, claims).Forwarded?
    ensures var h := PolicyAuthenticated(cfg, w, r, target, ep, claims).headers;
            var bound := PrincipalOf(w, claims).boundRoles;
            && Carries(h, cfg.userIdHeader, Some(claims.userID))
            && Carries(h, cfg.userPlanHeader, Some(w.planOf(target, claims.userID)))
            && Carries(h, cfg.userUidHeader, Some(claims.subject))
            && Carries(h, cfg.userRolesHeader, When(bound != [], Join(bound, ",")))
            && Carries(h, cfg.sessionHeader, None)
            && (cfg.userEmailHeader != "" ==> Carries(h, cfg.userEmailHeader, When(claims.email != "", claims.email)))
            && (if Universal(snap, claims, target) then Carries(h, cfg.isAdminHeader, Some("true"))
                else Carries(h, cfg.isAdminHeader, None))
            && forall n | n != cfg.sessionHeader && (n == cfg.appIdHeader || n !in OwnedNames(cfg)) ::
                 Same(h, r.headers, n)
  {
    WildcardMeansUniversal(w, snap, claims, target);
    var p := PrincipalOf(w, claims);
    var wildcard := IsWildcard(p.statements, claims.appID, target);
    var plan := w.planOf(target, claims.userID);
    StampPolicyEffect(cfg, r.headers, claims, p.boundRoles, wildcard, plan);
    forall n | n != cfg.sessionHeader && (n == cfg.appIdHeader || n !in OwnedNames(cfg))
      ensures Same(StampPolicy(cfg, r.headers, claims, p.boundRoles, wildcard, plan), r.headers, n)
    {
      StampPolicyFrame(cfg, r.headers, claims, p.boundRoles, wildcard, plan, n);
    }
  }

  /** Without a token nothing is stamped: every name but the session and device copies is left
      alone, so no identity header reaches the backend. */
  lemma AnonymousHeaders(cfg: Config, h: HeaderMap)
    requires NamesDistinct(cfg) && CleanButForApp(cfg, h)
    ensures CleanButForApp(cfg, KeepAnonymous(cfg, h))
    ensures forall n | n != cfg.sessionHeader && n != cfg.deviceHeader :: Same(KeepAnonymous(cfg, h), h, n)
    ensures forall n | n in {cfg.sessionHeader, cfg.deviceHeader} ::
              if n in h && h[n] != [] && h[n][0] != "" then Carries(KeepAnonymous(cfg, h), n, Some(h[n][0]))
              else Same(KeepAnonymous(cfg, h), h, n)
  {
  }

  // ---- end to end ----

  /** The host's application, "" when resolution is off or the host is unknown. */
  function EnteredApp(cfg: Config, w: World, r: RequestView): string {
    match HostApp(cfg, w, WithoutOwned(cfg, w, r))
    case Some(Some(app)) => app
    case _ => ""
  }

  /** The request as the engines see it: stripped, with its host's application stamped. */
  function Entered(cfg: Config, w: World, r: RequestView): RequestView {
    var stripped := WithoutOwned(cfg, w, r);
    match HostApp(cfg, w, stripped)
    case Some(Some(app)) => stripped.(headers := Set(stripped.headers, cfg.appIdHeader, app))
    case _ => stripped
  }

  /** The prelude leaves no owned name but the application it resolved itself. */
  lemma EnteredIsClean(cfg: Config, w: World, r: RequestView)
    ensures var h, app := Entered(cfg, w, r).headers, EnteredApp(cfg, w, r);
            CleanButForApp(cfg, h) && (app != "" ==> Carries(h, cfg.appIdHeader, Some(app)))
  {
    StrippedMeaning(cfg, WithRequestId(w, r.headers));
  }

  /** A request is forwarded only by an engine, on what the prelude left of it, and whether the
      prelude lets it through does not depend on the engine. */
  lemma ServeEnters(cfg: Config, w: World, policyMode: bool, r: RequestView)
    ensures var r2, app := Entered(cfg, w, r), EnteredApp(cfg, w, r);
            var engine := if policyMode then PolicyOutcome(cfg, w, r2, app, Requested(cfg, w, r))
                          else LegacyOutcome(cfg, w, r2, app);
            if PassesPrelude(cfg, w, r) then Serve(cfg, w, policyMode, r) == engine
            else !Serve(cfg, w, policyMode, r).Forwarded?
  {
  }

  predicate PassesPrelude(cfg: Config, w: World, r: RequestView) {
    && !(cfg.corsEnabled && r.httpMethod == "OPTIONS")
    && (cfg.resolution.Enforce? ==> w.snapshot.loaded && HostApp(cfg, w, WithoutOwned(cfg, w, r)) != Some(None))
    && r.path != IAM_ME_PATH
  }

  /** In enforce mode nothing is forwarded for a host that does not belong to an active
      application, nor before a snapshot has loaded. */
  lemma EnforceForwardsOnlyActiveHosts(cfg: Config, w: World, policyMode: bool, r: RequestView)
    requires cfg.resolution.Enforce? && w.registry.Some? && Registry.AnswersAreActive(w.registry.value)
    requires Serve(cfg, w, policyMode, r).Forwarded?
    ensures w.snapshot.loaded && EnteredApp(cfg, w, r) in w.registry.value.active
  {
    ServeEnters(cfg, w, policyMode, r);
    var name := w.normalize(ResolutionHost(cfg, WithoutOwned(cfg, w, r)));
    Registry.FirstWildcardMembers(w.registry.value.wildcards, name);
  }

  /** The application a request is served for, and the credential it is judged by. */
  function ServedTarget(cfg: Config, w: World, r: RequestView): string {
    Target(w, EnteredApp(cfg, w, r), Requested(cfg, w, r))
  }

  function Credential(cfg: Config, w: World, r: RequestView): string {
    Get(ForTarget(cfg, Entered(cfg, w, r), ServedTarget(cfg, w, r)).headers, cfg.jwtHeader)
  }

  /** The identity headers of a caller with these claims: who it is, the plan, the roles that name
      it, and the admin flag exactly if it is an admin. No session survives beside an identity. */
  predicate CarriesIdentity(
      cfg: Config, h: HeaderMap, claims: TokenClaims, plan: string, roles: seq<string>, admin: bool)
  {
    && Carries(h, cfg.userIdHeader, Some(claims.userID)) && UserId.IsPositiveInt(claims.userID)
    && Carries(h, cfg.userPlanHeader, Some(plan))
    && Carries(h, cfg.userUidHeader, Some(claims.subject))
    && Carries(h, cfg.userRolesHeader, When(roles != [], Join(roles, ",")))
    && Carries(h, cfg.isAdminHeader, When(admin, "true"))
    && (cfg.userEmailHeader != "" ==> Carries(h, cfg.userEmailHeader, When(claims.email != "", claims.email)))
    && API_KEY_UID !in h
    && Carries(h, cfg.sessionHeader, None)
  }

  /** The header contract of an answer. If an endpoint matched and a realm of the target accepted the
      token, the owned headers are that caller's: bound roles, and the admin flag exactly for universal
      authority on the target. Otherwise there is none but the application id. */
  ghost predicate IdentityIsEarned(
      cfg: Config, w: World, snap: SnapshotDto, h: HeaderMap, matched: bool, target: string, auth: string)
  {
    && (CleanButForApp(cfg, h) || (matched && exists claims :: Presents(cfg, w, target, auth, claims)))
    && forall claims | matched && Presents(cfg, w, target, auth, claims) ::
         CarriesIdentity(cfg, h, claims, w.planOf(target, claims.userID), PrincipalOf(w, claims).boundRoles,
                         Universal(snap, claims, target))
  }

  lemma MatchedIdentity(cfg: Config, w: World, snap: SnapshotDto, r: RequestView, target: string, ep: Endpoint)
    requires InForce(w.snapshot, snap) && NamesDistinct(cfg) && CleanButForApp(cfg, r.headers)
    requires PolicyMatched(cfg, w, r, target, ep).Forwarded?
    ensures var h := PolicyMatched(cfg, w, r, target, ep).headers;
            && IdentityIsEarned(cfg, w, snap, h, true, target, Get(r.headers, cfg.jwtHeader))
            && Same(h, r.headers, cfg.appIdHeader)
  {
    hide Presents;
    hide CarriesIdentity;
    hide PolicyAuthenticated;
    hide Universal;
    var auth := Get(r.headers, cfg.jwtHeader);
    AcceptedIff(cfg, w, target, auth);
    var parsed := Authenticate(cfg, w, target, auth);
    if parsed.Accepted? {
      AcceptedIdentity(cfg, w, snap, r, target, ep, parsed.claims);
    } else {
      AnonymousHeaders(cfg, r.headers);
    }
  }

  lemma AcceptedIdentity(
      cfg: Config, w: World, snap: SnapshotDto, r: RequestView, target: string, ep: Endpoint, claims: TokenClaims)
    requires InForce(w.snapshot, snap) && NamesDistinct(cfg) && CleanButForApp(cfg, r.headers)
    requires Authenticate(cfg, w, target, Get(r.headers, cfg.jwtHeader)) == Accepted(claims)
    ensures var o := PolicyAuthenticated(cfg, w, r, target, ep, claims);
            o.Forwarded? ==>
              && Same(o.headers, r.headers, cfg.appIdHeader)
              && CarriesIdentity(cfg, o.headers, claims, w.planOf(target, claims.userID),
                                 PrincipalOf(w, claims).boundRoles, Universal(snap, claims, target))
  {
    hide CarriesIdentity;
    hide StampPolicy;
    hide Universal;
    var auth := Get(r.headers, cfg.jwtHeader);
    var realm := ChosenRealm(w, target, TokenIssuer(auth, w.decode)).value;
    AcceptedClaims(auth, w.decode, realm, cfg.userIdClaim, cfg.adminRoles);
    WildcardMeansUniversal(w, snap, claims, target);
    var p := PrincipalOf(w, claims);
    var admin := IsWildcard(p.statements, claims.appID, target);
    if PolicyAuthenticated(cfg, w, r, target, ep, claims).Forwarded? {
      var plan := w.planOf(target, claims.userID);
      StampedIdentity(cfg, r.headers, claims, p.boundRoles, admin, plan);
      StampPolicyFrame(cfg, r.headers, claims, p.boundRoles, admin, plan, cfg.appIdHeader);
    }
  }

  lemma StampedIdentity(
      cfg: Config, h0: HeaderMap, claims: TokenClaims, bound: seq<string>, wildcard: bool, plan: string)
    requires NamesDistinct(cfg) && CleanButForApp(cfg, h0) && UserId.IsPositiveInt(claims.userID)
    ensures CarriesIdentity(cfg, StampPolicy(cfg, h0, claims, bound, wildcard, plan), claims, plan, bound, wildcard)
  {
    hide UserId.IsPositiveInt;
    StampPolicyEffect(cfg, h0, claims, bound, wildcard, plan);
    ApiKeyUidStaysOff(cfg, h0, claims, bound, wildcard, plan);
  }

  lemma ApiKeyUidStaysOff(
      cfg: Config, h0: HeaderMap, claims: TokenClaims, bound: seq<string>, wildcard: bool, plan: string)
    requires NamesDistinct(cfg) && CleanButForApp(cfg, h0)
    ensures API_KEY_UID !in StampPolicy(cfg, h0, claims, bound, wildcard, plan)
  {
    assert API_KEY_UID !in h0;
  }

  /** The header contract, end to end in policy mode: whatever a client sent, the forwarded
      identity is earned, and the application is the authorized one. */
  lemma ForwardedIdentityIsEarned(cfg: Config, w: World, snap: SnapshotDto, r: RequestView)
    requires InForce(w.snapshot, snap) && NamesDistinct(cfg)
    ensures Serve(cfg, w, true, r).Forwarded? ==>
            var h, target := Serve(cfg, w, true, r).headers, ServedTarget(cfg, w, r);
            var matched := EndpointFor(w, target, Entered(cfg, w, r)).Some?;
            && IdentityIsEarned(cfg, w, snap, h, matched, target, Credential(cfg, w, r))
            && (target != "" ==> Carries(h, cfg.appIdHeader, Some(target)))
            && (target != EnteredApp(cfg, w, r) ==> target in w.registry.value.active)
  {
    ServeEnters(cfg, w, true, r);
    if Serve(cfg, w, true, r).Forwarded? {
      EnteredIsClean(cfg, w, r);
      PolicyIdentity(cfg, w, snap, Entered(cfg, w, r), EnteredApp(cfg, w, r), Requested(cfg, w, r));
    }
  }

  lemma PolicyIdentity(
      cfg: Config, w: World, snap: SnapshotDto, r: RequestView, hostApp: string, requested: string)
    requires InForce(w.snapshot, snap) && NamesDistinct(cfg) && CleanButForApp(cfg, r.headers)
    requires PolicyOutcome(cfg, w, r, hostApp, requested).Forwarded?
    ensures var h, target := PolicyOutcome(cfg, w, r, hostApp, requested).headers, Target(w, hostApp, requested);
            var auth := Get(ForTarget(cfg, r, target).headers, cfg.jwtHeader);
            && IdentityIsEarned(cfg, w, snap, h, EndpointFor(w, target, r).Some?, target, auth)
            && (target != "" ==> Carries(h, cfg.appIdHeader, Some(target)))
            && (target != hostApp ==> target in w.registry.value.active)
  {
    var target := Target(w, hostApp, requested);
    var r1 := ForTarget(cfg, r, target);
    var ep := EndpointFor(w, target, r);
    if ep.Some? {
      MatchedIdentity(cfg, w, snap, r1, target, ep.value);
    }
  }

  /** No endpoint meets a request: neither of its target nor, in policy mode, of its host. */
  predicate Unmatched(cfg: Config, w: World, policyMode: bool, r: RequestView) {
    var r2 := Entered(cfg, w, r);
    && EndpointFor(w, EnteredApp(cfg, w, r), r2).None?
    && (policyMode ==> EndpointFor(w, ServedTarget(cfg, w, r), r2).None?)
  }

  /** The application stamped on a forwarded request. */
  function StampedApp(cfg: Config, w: World, policyMode: bool, r: RequestView): string {
    if policyMode then ServedTarget(cfg, w, r) else EnteredApp(cfg, w, r)
  }

  /** The host of a request belongs to an application; its id may be "". */
  predicate HostKnown(cfg: Config, w: World, r: RequestView) {
    var app := HostApp(cfg, w, WithoutOwned(cfg, w, r));
    app.Some? && app.value.Some?
  }

  lemma EnteredHeaders(cfg: Config, w: World, r: RequestView)
    ensures var stripped := WithoutOwned(cfg, w, r).headers;
            && cfg.appIdHeader !in stripped
            && Entered(cfg, w, r).headers
               == if HostKnown(cfg, w, r) then Set(stripped, cfg.appIdHeader, EnteredApp(cfg, w, r)) else stripped
  {
    StrippedMeaning(cfg, WithRequestId(w, r.headers));
  }

  /** An unmatched request is forwarded with the stripped headers and the application id stamped on
      them, or with the stripped headers alone if and only if its host is unknown and it is served
      for no application. */
  lemma UnmatchedHeaders(cfg: Config, w: World, policyMode: bool, r: RequestView)
    requires PassesPrelude(cfg, w, r) && Unmatched(cfg, w, policyMode, r)
    requires policyMode ==> !UnknownTarget(w, Requested(cfg, w, r))
    ensures var stripped, app := WithoutOwned(cfg, w, r).headers, StampedApp(cfg, w, policyMode, r);
            var o := Serve(cfg, w, policyMode, r);
            && (o == Forwarded(stripped, None) <==> app == "" && !HostKnown(cfg, w, r))
            && (o == Forwarded(Set(stripped, cfg.appIdHeader, app), None) <==> app != "" || HostKnown(cfg, w, r))
  {
    hide WithoutOwned;
    hide HostApp;
    hide PassesPrelude;
    hide Serve;
    hide EndpointFor;
    hide PolicyMatched;
    hide LegacyAuthenticate;
    ServeEnters(cfg, w, policyMode, r);
    EnteredHeaders(cfg, w, r);
    var stripped, app := WithoutOwned(cfg, w, r).headers, StampedApp(cfg, w, policyMode, r);
    assert Set(stripped, cfg.appIdHeader, app) != stripped;
    assert Set(Set(stripped, cfg.appIdHeader, EnteredApp(cfg, w, r)), cfg.appIdHeader, app)
           == Set(stripped, cfg.appIdHeader, app);
  }

  /** The owned headers of `h` are at most the application id, with the value `app`. */
  predicate OwnsOnly(cfg: Config, h: HeaderMap, app: Option<string>) {
    && (forall n <- OwnedNames(cfg) :: n in h ==> n == cfg.appIdHeader)
    && Carries(h, cfg.appIdHeader, app)
  }

  lemma StampedUntouchedIff(cfg: Config, w: World, h: HeaderMap, app: Option<string>)
    requires TrimSpace(w.freshRequestId) != ""
    ensures var stripped := Stripped(cfg, WithRequestId(w, h));
            (match app case Some(a) => Set(stripped, cfg.appIdHeader, a) case None => stripped) == h <==>
            && OwnsOnly(cfg, h, app)
            && (TrimSpace(Get(h, REQUEST_ID)) != "" || REQUEST_ID in OwnedNames(cfg))
  {
    StrippedMeaning(cfg, WithRequestId(w, h));
    var g := match app
      case Some(a) => Set(WithRequestId(w, h) - OwnedNames(cfg), cfg.appIdHeader, a)
      case None => WithRequestId(w, h) - OwnedNames(cfg);
    assert cfg.appIdHeader in OwnedNames(cfg);
    if OwnsOnly(cfg, h, app) && (TrimSpace(Get(h, REQUEST_ID)) != "" || REQUEST_ID in OwnedNames(cfg)) {
      assert forall n :: n in g <==> n in h;
      assert g.Keys == h.Keys;
      assert g == h;
    }
    if g == h {
      assert forall n <- OwnedNames(cfg) :: n in h ==> n == cfg.appIdHeader;
    }
  }

  /** An unmatched request reaches the backend with exactly the headers it came with if and only if it
      brought a request id and no owned header except an application id equal to the one stamped;
      where nothing is stamped it must bring none. (A request id is not added where a configured name
      makes it owned.) */
  lemma UntouchedIff(cfg: Config, w: World, policyMode: bool, r: RequestView)
    requires PassesPrelude(cfg, w, r) && Unmatched(cfg, w, policyMode, r)
    requires policyMode ==> !UnknownTarget(w, Requested(cfg, w, r))
    requires TrimSpace(w.freshRequestId) != ""
    ensures var app := StampedApp(cfg, w, policyMode, r);
            Serve(cfg, w, policyMode, r) == Forwarded(r.headers, None) <==>
              && OwnsOnly(cfg, r.headers, When(app != "" || HostKnown(cfg, w, r), app))
              && (TrimSpace(Get(r.headers, REQUEST_ID)) != "" || REQUEST_ID in OwnedNames(cfg))
  {
    hide Serve;
    hide HostKnown;
    hide StampedApp;
    hide PassesPrelude;
    hide Unmatched;
    hide Stripped;
    hide OwnsOnly;
    var app := StampedApp(cfg, w, policyMode, r);
    UnmatchedHeaders(cfg, w, policyMode, r);
    StampedUntouchedIff(cfg, w, r.headers, When(app != "" || HostKnown(cfg, w, r), app));
  }

  // ---- the legacy engine ----

  /** The host application's own realm accepts the token, and the token was minted for it. */
  predicate PresentsAtHome(cfg: Config, w: World, app: string, auth: string, claims: TokenClaims) {
    && auth != "" && !cfg.disableAuth && HasPrefix(auth, "Bearer ")
    && app != "" && app in w.realms
    && var t := w.decode(TrimPrefix(auth, "Bearer "));
       RealmAccepts(w.realms[app], t) && claims == ClaimsOf(t, cfg.userIdClaim, cfg.adminRoles) && claims.appID == app
  }

  predicate LegacyBearerMayPass(
      cfg: Config, w: World, r: RequestView, app: string, ep: Endpoint, claims: TokenClaims)
  {
    && PresentsAtHome(cfg, w, app, Get(r.headers, cfg.jwtHeader), claims)
    && (LegacyPermission(cfg, ep) == "" || HoldsAdminRole(claims.roles, cfg.adminRoles))
    && (ep.dto.ownerParam == "" || HoldsAdminRole(claims.roles, cfg.adminRoles)
        || OwnerMatches(ExtractOwner(w, ep, r), claims.userID, claims.subject))
    && WithinLimit(cfg, w, ep, Keys.RateLimitKey(app, Keys.User(claims.userID)), w.planOf(app, claims.userID))
  }

  predicate LegacyAnonymousMayPass(cfg: Config, w: World, r: RequestView, app: string, ep: Endpoint) {
    && (Get(r.headers, cfg.jwtHeader) == "" || cfg.disableAuth)
    && LegacyPermission(cfg, ep) == "" && ep.dto.ownerParam == ""
    && WithinLimit(cfg, w, ep, Keys.RateLimitKey(app, AnonymousOf(cfg, r)), cfg.defaultPlan)
  }

  lemma LegacyAdminStamp(cfg: Config, h0: HeaderMap, claims: TokenClaims, plan: string)
    requires NamesDistinct(cfg) && cfg.isAdminHeader !in h0
    ensures Carries(StampLegacy(cfg, h0, claims, plan), cfg.isAdminHeader, When(claims.isAdmin, "true"))
  {
  }

  /** Mediation by the legacy engine: tokens count only at the application they were minted for,
      and only an admin role opens a permission or another user's resource. */
  lemma LegacyForwardsIff(cfg: Config, w: World, r: RequestView, app: string)
    requires NamesDistinct(cfg) && cfg.isAdminHeader !in r.headers
    ensures LegacyOutcome(cfg, w, r, app).Forwarded? <==>
            match EndpointFor(w, app, r)
            case None => true
            case Some(ep) =>
              && (cfg.disableAuth || !HasLegacyApiKey(cfg, r.headers))
              && (LegacyAnonymousMayPass(cfg, w, r, app, ep)
                  || exists claims :: LegacyBearerMayPass(cfg, w, r, app, ep, claims))
  {
    if EndpointFor(w, app, r).Some? {
      var ep := EndpointFor(w, app, r).value;
      var auth := Get(r.headers, cfg.jwtHeader);
      forall claims ensures LegacyBearerMayPass(cfg, w, r, app, ep, claims) <==>
                            LegacyAuthenticate(cfg, w, app, auth) == Accepted(claims)
                            && LegacyAuthenticated(cfg, w, r, app, ep, claims).Forwarded?
      {
        LegacyAuthenticateIff(cfg, w, app, auth, claims);
        LegacyAuthenticatedIff(cfg, w, r, app, ep, claims);
      }
      LegacyAnonymousIff(cfg, w, app, auth);
    }
  }

  /** What the legacy engine refuses an accepted caller: a permission, or another user's resource, unless
      it holds an admin role. */
  predicate LegacyRefused(cfg: Config, w: World, r: RequestView, ep: Endpoint, claims: TokenClaims) {
    && !HoldsAdminRole(claims.roles, cfg.adminRoles)
    && (LegacyPermission(cfg, ep) != ""
        || (ep.dto.ownerParam != "" && !OwnerMatches(ExtractOwner(w, ep, r), claims.userID, claims.subject)))
  }

  lemma LegacyBearerVerdict(cfg: Config, w: World, r: RequestView, app: string, ep: Endpoint, claims: TokenClaims)
    requires NamesDistinct(cfg) && cfg.isAdminHeader !in r.headers
    requires claims.isAdmin <==> HoldsAdminRole(claims.roles, cfg.adminRoles)
    ensures var o, refused := LegacyAuthenticated(cfg, w, r, app, ep, claims), LegacyRefused(cfg, w, r, ep, claims);
            var within := WithinLimit(cfg, w, ep, Keys.RateLimitKey(app, Keys.User(claims.userID)),
                                      w.planOf(app, claims.userID));
            && (o == Denied(403, "forbidden") <==> refused)
            && (o.RateLimited? <==> !refused && !within)
            && (o.Forwarded? || o.RateLimited? || o == Denied(403, "forbidden"))
  {
    hide RateStage;
    hide ExtractOwner;
    LegacyAdminStamp(cfg, r.headers, claims, w.planOf(app, claims.userID));
    assert TokenPermissions(claims) == if claims.isAdmin then ["*"] else [];
    assert claims.isAdmin ==> "*" in TokenPermissions(claims);
  }

  /** The legacy engine's refusals on a matched endpoint: 401 exactly for a retired key, for a credential
      that was not accepted, or for none where one is needed; 403 exactly for an accepted caller that is
      refused; 429 exactly for anybody else over the limit. */
  lemma LegacyVerdictIff(cfg: Config, w: World, r: RequestView, app: string, ep: Endpoint)
    requires NamesDistinct(cfg) && cfg.isAdminHeader !in r.headers && EndpointFor(w, app, r) == Some(ep)
    ensures var o, auth := LegacyOutcome(cfg, w, r, app), Get(r.headers, cfg.jwtHeader);
            var retired, none := !cfg.disableAuth && HasLegacyApiKey(cfg, r.headers), auth == "" || cfg.disableAuth;
            var guarded := LegacyPermission(cfg, ep) != "" || ep.dto.ownerParam != "";
            && (o == Denied(401, "unauthorized") <==>
                  || retired || (none && guarded)
                  || (!none && !exists claims :: PresentsAtHome(cfg, w, app, auth, claims)))
            && (o == Denied(403, "forbidden") <==>
                  !retired && exists claims :: PresentsAtHome(cfg, w, app, auth, claims)
                                               && LegacyRefused(cfg, w, r, ep, claims))
            && (o.RateLimited? <==>
                  && !retired
                  && ((none && !guarded
                       && !WithinLimit(cfg, w, ep, Keys.RateLimitKey(app, AnonymousOf(cfg, r)), cfg.defaultPlan))
                      || exists claims :: PresentsAtHome(cfg, w, app, auth, claims)
                                          && !LegacyRefused(cfg, w, r, ep, claims)
                                          && !WithinLimit(cfg, w, ep, Keys.RateLimitKey(app, Keys.User(claims.userID)),
                                                          w.planOf(app, claims.userID))))
            && (o.Forwarded? || o.RateLimited? || o in {Denied(401, "unauthorized"), Denied(403, "forbidden")})
  {
    var auth := Get(r.headers, cfg.jwtHeader);
    forall claims ensures PresentsAtHome(cfg, w, app, auth, claims) <==>
                          LegacyAuthenticate(cfg, w, app, auth) == Accepted(claims)
    {
      LegacyAuthenticateIff(cfg, w, app, auth, claims);
    }
    LegacyAnonymousIff(cfg, w, app, auth);
    var parsed := LegacyAuthenticate(cfg, w, app, auth);
    if parsed.Accepted? {
      LegacyBearerVerdict(cfg, w, r, app, ep, parsed.claims);
    }
    hide PresentsAtHome;
    hide LegacyAuthenticate;
    hide LegacyAuthenticated;
    hide LegacyRefused;
    hide HasLegacyApiKey;
    hide LegacyPermission;
    hide AnonymousOf;
    hide EndpointFor;
  }

  lemma LegacyAuthenticateIff(cfg: Config, w: World, app: string, auth: string, claims: TokenClaims)
    ensures LegacyAuthenticate(cfg, w, app, auth) == Accepted(claims) <==> PresentsAtHome(cfg, w, app, auth, claims)
  {
  }

  lemma LegacyAnonymousIff(cfg: Config, w: World, app: string, auth: string)
    ensures LegacyAuthenticate(cfg, w, app, auth) == Anonymous <==> auth == "" || cfg.disableAuth
  {
  }

  lemma LegacyAuthenticatedIff(
      cfg: Config, w: World, r: RequestView, app: string, ep: Endpoint, claims: TokenClaims)
    requires NamesDistinct(cfg) && cfg.isAdminHeader !in r.headers
    ensures LegacyAuthenticated(cfg, w, r, app, ep, claims).Forwarded? <==>
            && (LegacyPermission(cfg, ep) == "" || claims.isAdmin)
            && (ep.dto.ownerParam == "" || claims.isAdmin
                || OwnerMatches(ExtractOwner(w, ep, r), claims.userID, claims.subject))
            && WithinLimit(cfg, w, ep, Keys.RateLimitKey(app, Keys.User(claims.userID)), w.planOf(app, claims.userID))
  {
    LegacyAdminStamp(cfg, r.headers, claims, w.planOf(app, claims.userID));
    assert TokenPermissions(claims) == if claims.isAdmin then ["*"] else [];
    assert claims.isAdmin ==> "*" in TokenPermissions(claims);
  }

  /** The two engines stamp one map for one identity: only the order of the stamps differs. */
  lemma StampingsCoincide(cfg: Config, h0: HeaderMap, claims: TokenClaims, plan: string)
    requires NamesDistinct(cfg)
    ensures StampLegacy(cfg, h0, claims, plan) == StampPolicy(cfg, h0, claims, claims.roles, claims.isAdmin, plan)
  {
    hide Join;
    var g := StampLegacy(cfg, h0, claims, plan);
    var h := StampPolicy(cfg, h0, claims, claims.roles, claims.isAdmin, plan);
    assert g.Keys == h.Keys;
    forall n | n in g ensures g[n] == h[n] {
    }
  }

  lemma StampLegacyEffect(cfg: Config, h0: HeaderMap, claims: TokenClaims, plan: string)
    requires NamesDistinct(cfg) && CleanButForApp(cfg, h0) && UserId.IsPositiveInt(claims.userID)
    ensures CarriesIdentity(cfg, StampLegacy(cfg, h0, claims, plan), claims, plan, claims.roles, claims.isAdmin)
    ensures Same(StampLegacy(cfg, h0, claims, plan), h0, cfg.appIdHeader)
  {
    hide StampLegacy;
    hide StampPolicy;
    hide CarriesIdentity;
    StampingsCoincide(cfg, h0, claims, plan);
    StampedIdentity(cfg, h0, claims, claims.roles, claims.isAdmin, plan);
    StampPolicyFrame(cfg, h0, claims, claims.roles, claims.isAdmin, plan, cfg.appIdHeader);
  }

  /** The header contract of the legacy engine: if an endpoint matched and the token was minted for the
      host's application and accepted by its realm, the owned headers are that caller's, with the
      token's roles and the admin flag exactly for an admin role. Otherwise there is none but the
      application id. */
  ghost predicate IdentityIsEarnedAtHome(
      cfg: Config, w: World, h: HeaderMap, matched: bool, app: string, auth: string)
  {
    && (CleanButForApp(cfg, h) || (matched && exists claims :: PresentsAtHome(cfg, w, app, auth, claims)))
    && forall claims | matched && PresentsAtHome(cfg, w, app, auth, claims) ::
         CarriesIdentity(cfg, h, claims, w.planOf(app, claims.userID), claims.roles,
                         HoldsAdminRole(claims.roles, cfg.adminRoles))
  }

  lemma LegacyAcceptedIdentity(
      cfg: Config, w: World, r: RequestView, app: string, ep: Endpoint, claims: TokenClaims)
    requires NamesDistinct(cfg) && CleanButForApp(cfg, r.headers)
    requires LegacyAuthenticate(cfg, w, app, Get(r.headers, cfg.jwtHeader)) == Accepted(claims)
    ensures var o := LegacyAuthenticated(cfg, w, r, app, ep, claims);
            o.Forwarded? ==>
              && Same(o.headers, r.headers, cfg.appIdHeader)
              && CarriesIdentity(cfg, o.headers, claims, w.planOf(app, claims.userID), claims.roles,
                                 HoldsAdminRole(claims.roles, cfg.adminRoles))
  {
    hide CarriesIdentity;
    hide StampLegacy;
    var auth := Get(r.headers, cfg.jwtHeader);
    AcceptedClaims(auth, w.decode, w.realms[app], cfg.userIdClaim, cfg.adminRoles);
    StampLegacyEffect(cfg, r.headers, claims, w.planOf(app, claims.userID));
  }

  lemma LegacyIdentity(cfg: Config, w: World, r: RequestView, app: string)
    requires NamesDistinct(cfg) && CleanButForApp(cfg, r.headers)
    ensures var o := LegacyOutcome(cfg, w, r, app);
            o.Forwarded? ==>
              && IdentityIsEarnedAtHome(cfg, w, o.headers, EndpointFor(w, app, r).Some?, app,
                                        Get(r.headers, cfg.jwtHeader))
              && Same(o.headers, r.headers, cfg.appIdHeader)
  {
    hide CarriesIdentity;
    hide PresentsAtHome;
    hide LegacyAuthenticated;
    hide EndpointFor;
    var auth := Get(r.headers, cfg.jwtHeader);
    forall claims ensures PresentsAtHome(cfg, w, app, auth, claims) <==>
                          LegacyAuthenticate(cfg, w, app, auth) == Accepted(claims)
    {
      LegacyAuthenticateIff(cfg, w, app, auth, claims);
    }
    var parsed := LegacyAuthenticate(cfg, w, app, auth);
    if EndpointFor(w, app, r).Some? && parsed.Accepted? {
      LegacyAcceptedIdentity(cfg, w, r, app, EndpointFor(w, app, r).value, parsed.claims);
    } else {
      AnonymousHeaders(cfg, r.headers);
    }
  }

  /** The header contract, end to end in legacy mode: whatever a client sent, the forwarded identity is
      earned at the host's application, and the application is the host's. */
  lemma LegacyForwardedIdentityIsEarned(cfg: Config, w: World, r: RequestView)
    requires NamesDistinct(cfg)
    ensures var o, r2, app := Serve(cfg, w, false, r), Entered(cfg, w, r), EnteredApp(cfg, w, r);
            o.Forwarded? ==>
              && IdentityIsEarnedAtHome(cfg, w, o.headers, EndpointFor(w, app, r2).Some?, app,
                                        Get(r2.headers, cfg.jwtHeader))
              && (app != "" ==> Carries(o.headers, cfg.appIdHeader, Some(app)))
  {
    hide IdentityIsEarnedAtHome;
    hide LegacyOutcome;
    hide PassesPrelude;
    hide Serve;
    ServeEnters(cfg, w, false, r);
    EnteredIsClean(cfg, w, r);
    LegacyIdentity(cfg, w, Entered(cfg, w, r), EnteredApp(cfg, w, r));
  }

  // ---- introspection ----

  /** Introspection answers exactly the GET requests whose token a realm of the host's application
      accepts, and speaks of that token. */
  lemma IntrospectsIff(cfg: Config, w: World, r: RequestView, hostApp: string, claims: TokenClaims)
    ensures var o := IamMeOutcome(cfg, w, r, hostApp);
            (o.Introspected? && o.claims == claims) <==>
            r.httpMethod == "GET" && Presents(cfg, w, hostApp, Get(r.headers, cfg.jwtHeader), claims)
  {
    AuthenticateIff(cfg, w, hostApp, Get(r.headers, cfg.jwtHeader), claims);
  }

  /** What /api/_iam/me lists is what the policy engine enforces: on an active application, the
      snapshot allows a permission exactly when a listed pattern matches it, and the admin flag
      would be stamped exactly when "*" is listed. */
  lemma IntrospectionIsEnforcement(
      cfg: Config, w: World, snap: SnapshotDto, r: RequestView, hostApp: string,
      permissions: map<string, seq<string>>, perm: string, app: string)
    requires InForce(w.snapshot, snap) && IamMeOutcome(cfg, w, r, hostApp).Introspected?
    requires var o := IamMeOutcome(cfg, w, r, hostApp);
             Permissions.IsListing(permissions, o.resolved.statements, o.claims.appID, o.active)
             && app in o.active && perm != ""
    ensures var claims := IamMeOutcome(cfg, w, r, hostApp).claims;
            && (SnapshotAllows(snap, claims, perm, app) <==>
                  app in permissions && exists a <- permissions[app] :: MatchAction(a, perm))
            && (Universal(snap, claims, app) <==> app in permissions && "*" in permissions[app])
  {
    var o := IamMeOutcome(cfg, w, r, hostApp);
    Permissions.IntrospectionAgrees(permissions, o.resolved.statements, o.claims.appID, o.active, perm, app);
    Permissions.ListedStarIsWildcard(permissions, o.resolved.statements, o.claims.appID, o.active, app);
    EngineReadsSnapshot(w, snap, o.claims, perm, app);
    WildcardMeansUniversal(w, snap, o.claims, app);
  }
}
