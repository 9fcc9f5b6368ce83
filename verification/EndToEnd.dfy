/** What clients and backends see of one request through the whole middleware, in terms of the request,
    the published tables and the token alone (plugin.go, policy.go, identity.go). */
module EndToEnd {
  import opened Text
  import opened Headers
  import opened Authz
  import opened Tokens
  import opened Gateway
  import opened Mediation
  import Registry
  import Snapshot

  /** The host header that decides, with a forwarded host taken up to its first comma if it is
      trusted. */
  lemma ResolutionHostMeaning(cfg: Config, r: RequestView, first: string, rest: string)
    requires ',' !in first
    requires "X-Forwarded-Host" in r.headers && r.headers["X-Forwarded-Host"] != []
    ensures var given := r.headers["X-Forwarded-Host"][0];
            && (cfg.trustForwardedHost && first != "" && given == first ==> ResolutionHost(cfg, r) == TrimSpace(first))
            && (cfg.trustForwardedHost && given == first + "," + rest ==> ResolutionHost(cfg, r) == TrimSpace(first))
            && (!cfg.trustForwardedHost || given == "" ==> ResolutionHost(cfg, r) == r.host)
  {
    NoCut(first, ',');
    FirstCut(first, ',', rest);
    assert (first + "," + rest)[..|first|] == first;
    assert first + [','] + rest == first + "," + rest;
    assert first[..|first|] == first;
  }

  lemma NoForwardedHost(cfg: Config, r: RequestView)
    requires "X-Forwarded-Host" !in r.headers
    ensures ResolutionHost(cfg, r) == r.host
  {
  }

  // ---- before the engines ----

  /** The host is looked up, and the registry knows no application for it. */
  predicate HostUnknown(cfg: Config, w: World, r: RequestView) {
    && !cfg.resolution.Disabled? && w.registry.Some?
    && Registry.ResolveName(w.registry.value, w.normalize(ResolutionHost(cfg, WithoutOwned(cfg, w, r)))) == None
  }

  /** A preflight is answered alone. Otherwise enforce mode refuses an unknown host, with 503 as long as
      no registry was loaded and with 403 from then on, and any host with 503 as long as no snapshot
      was; whatever is left, at the introspection path, is answered by introspection in either mode. */
  lemma BeforeTheEngines(cfg: Config, w: World, policyMode: bool, r: RequestView)
    ensures var o, enforce := Serve(cfg, w, policyMode, r), cfg.resolution == Enforce;
            if cfg.corsEnabled && r.httpMethod == "OPTIONS" then o == Preflight
            else if enforce && HostUnknown(cfg, w, r) then
              o == if w.registry.value.loaded then Denied(403, "unknown_app") else Denied(503, "registry_unavailable")
            else if enforce && !w.snapshot.loaded then o == Denied(503, "snapshot_unavailable")
            else r.path == "/api/_iam/me" ==> o == IamMeOutcome(cfg, w, Entered(cfg, w, r), EnteredApp(cfg, w, r))
  {
    hide IamMeOutcome;
    hide PolicyOutcome;
    hide LegacyOutcome;
    hide Stripped;
    hide ResolutionHost;
    hide Registry.ResolveName;
  }

  /** Introspection answers GET alone, 401 for want of an accepted token, and otherwise with the token's
      claims, what its roles are bound to, and the active applications: the host's where none is known. */
  lemma IntrospectionAnswer(cfg: Config, w: World, policyMode: bool, r: RequestView)
    requires r.path == "/api/_iam/me" && !(cfg.corsEnabled && r.httpMethod == "OPTIONS")
    requires cfg.resolution == Enforce ==> !HostUnknown(cfg, w, r) && w.snapshot.loaded
    ensures var o, host := Serve(cfg, w, policyMode, r), EnteredApp(cfg, w, r);
            var auth := Get(Entered(cfg, w, r).headers, cfg.jwtHeader);
            && (r.httpMethod != "GET" ==> o == Denied(405, "method_not_allowed"))
            && (r.httpMethod == "GET" && (forall claims :: !Presents(cfg, w, host, auth, claims)) ==>
                  o == Denied(401, "unauthorized"))
            && forall claims | r.httpMethod == "GET" && Presents(cfg, w, host, auth, claims) ::
                 && o.Introspected? && o.claims == claims
                 && o.resolved == ResolveIn(claims.qualifiedRoles, w.snapshot.policies)
                 && (forall app :: app in o.active <==>
                       if w.registry.Some? && w.registry.value.active != {} then app in w.registry.value.active
                       else app == host && host != "")
  {
    hide WithoutOwned;
    hide HostApp;
    hide Presents;
    hide Serve;
    hide Authenticate;
    BeforeTheEngines(cfg, w, policyMode, r);
    Mediation.AcceptedIff(cfg, w, EnteredApp(cfg, w, r), Get(Entered(cfg, w, r).headers, cfg.jwtHeader));
    EnteredKeeps(cfg, w, r);
  }

  lemma EnteredKeeps(cfg: Config, w: World, r: RequestView)
    ensures var r2 := Entered(cfg, w, r);
            && r2.httpMethod == r.httpMethod && r2.path == r.path && r2.host == r.host
            && r2.remoteHost == r.remoteHost && r2.query == r.query
  {
  }

  // ---- the requested application ----

  /** An application a client asks for by header is the one it is served for if it is active, and is
      refused if it is not; without a registry, and in legacy mode, it is not looked at. */
  lemma RequestedApp(cfg: Config, w: World, r: RequestView, value: string, app: string)
    requires app == TrimSpace(value) != "" && cfg.appIdHeader != REQUEST_ID && PassesPrelude(cfg, w, r)
    requires cfg.appIdHeader in r.headers && r.headers[cfg.appIdHeader] == [value]
    ensures w.registry.Some? && app !in w.registry.value.active ==>
              Serve(cfg, w, true, r) == Denied(403, "unknown_app")
    ensures w.registry.Some? ==> ServedTarget(cfg, w, r) == app
    ensures w.registry.None? ==> ServedTarget(cfg, w, r) == EnteredApp(cfg, w, r)
  {
    hide Entered;
    hide EnteredApp;
    hide PassesPrelude;
    hide Serve;
    hide EndpointFor;
    ServeEnters(cfg, w, true, r);
  }

  /** Without that header a request is served for its host's application. */
  lemma NothingRequested(cfg: Config, w: World, r: RequestView)
    requires cfg.appIdHeader !in r.headers && cfg.appIdHeader != REQUEST_ID
    ensures ServedTarget(cfg, w, r) == EnteredApp(cfg, w, r)
  {
    hide EnteredApp;
    TrimSpaceMeaning("");
  }

  /** An endpoint that the host's application publishes is not reached by way of another application
      that does not. */
  lemma NotExposed(cfg: Config, w: World, r: RequestView)
    requires PassesPrelude(cfg, w, r)
    requires w.registry.Some? ==> Requested(cfg, w, r) in {""} + w.registry.value.active
    requires var r2, target, host := Entered(cfg, w, r), ServedTarget(cfg, w, r), EnteredApp(cfg, w, r);
             EndpointFor(w, target, r2).None? && EndpointFor(w, host, r2).Some?
    ensures Serve(cfg, w, true, r) == Denied(403, "forbidden")
  {
    hide Entered;
    hide EnteredApp;
    hide Requested;
    hide PassesPrelude;
    hide Serve;
    hide EndpointFor;
    ServeEnters(cfg, w, true, r);
  }

  // ---- credentials ----

  /** A retired key, in its own header or as the bearer value; and no value without "fc_" in it is one. */
  lemma RetiredKeyMeaning(cfg: Config, h: HeaderMap, key: string)
    requires "fc_" <= TrimSpace(key) && !("Bearer " <= key)
    ensures "X-Api-Key" in h && h["X-Api-Key"] == [key] ==> HasLegacyApiKey(cfg, h)
    ensures cfg.jwtHeader in h && h[cfg.jwtHeader] == ["Bearer " + key] ==> HasLegacyApiKey(cfg, h)
    ensures cfg.jwtHeader in h && h[cfg.jwtHeader] == [key] ==> HasLegacyApiKey(cfg, h)
  {
    assert ("Bearer " + key)[|"Bearer "|..] == key;
  }

  lemma NoRetiredKey(cfg: Config, h: HeaderMap)
    requires forall n | n in h && n in {"X-Api-Key", cfg.jwtHeader} && h[n] != [] :: Lacks(h[n][0])
    ensures !HasLegacyApiKey(cfg, h)
  {
    LacksAfterTrim(Get(h, API_KEY));
    var v := Get(h, cfg.jwtHeader);
    assert Lacks(v);
    if HasPrefix(v, "Bearer ") {
      var rest := v[7..];
      assert forall i | 0 <= i < |rest| :: rest[i] == v[i + 7];
    }
    LacksAfterTrim(TrimPrefix(v, "Bearer "));
  }

  /** "fc_" is nowhere in the text. */
  predicate Lacks(s: string) {
    forall i :: 0 <= i < |s| - 2 ==> !(s[i] == 'f' && s[i + 1] == 'c' && s[i + 2] == '_')
  }

  lemma LacksAfterTrim(s: string)
    requires Lacks(s)
    ensures !HasPrefix(TrimSpace(s), "fc_")
  {
    var before, after := TrimSpaceTakesBlanks(s);
    if HasPrefix(TrimSpace(s), "fc_") {
      KeyInside(before, TrimSpace(s), after);
    }
  }

  lemma KeyInside(before: string, t: string, after: string)
    requires HasPrefix(t, "fc_")
    ensures !Lacks(before + t + after)
  {
    var s := before + t + after;
    assert s[|before|] == t[0] && s[|before| + 1] == t[1] && s[|before| + 2] == t[2];
  }

  /** An identity reaches a backend through the policy engine only by a token that a key of the target
      application's realm, or of the operators', verified, and that this realm issued. */
  lemma IdentityIsVerified(cfg: Config, w: World, snap: Snapshot.SnapshotDto, r: RequestView)
    requires Snapshot.InForce(w.snapshot, snap) && NamesDistinct(cfg)
    requires var o := Serve(cfg, w, true, r); o.Forwarded? && cfg.userIdHeader in o.headers
    ensures var auth, target := Credential(cfg, w, r), ServedTarget(cfg, w, r);
            && !cfg.disableAuth && "Bearer " <= auth
            && var t := w.decode(auth[7..]);
               exists realm ::
                 && ((target != "" && target in w.realms && w.realms[target] == realm)
                     || w.operatorRealm == Some(realm))
                 && realm.jwksUrl in t.validKeys
                 && (if "iss" in t.claims then t.claims["iss"] else "") == realm.issuer
  {
    ForwardedIdentityIsEarned(cfg, w, snap, r);
    hide Serve;
    hide Credential;
    hide ServedTarget;
    hide CarriesIdentity;
    var o := Serve(cfg, w, true, r);
    assert !CleanButForApp(cfg, o.headers);
    var auth, target := Credential(cfg, w, r), ServedTarget(cfg, w, r);
    var claims :| Presents(cfg, w, target, auth, claims);
  }

  /** In legacy mode only by a key of the host application's own realm, in a token minted for it. */
  lemma IdentityIsVerifiedAtHome(cfg: Config, w: World, r: RequestView)
    requires NamesDistinct(cfg)
    requires var o := Serve(cfg, w, false, r); o.Forwarded? && cfg.userIdHeader in o.headers
    ensures var auth, app := Get(Entered(cfg, w, r).headers, cfg.jwtHeader), EnteredApp(cfg, w, r);
            && !cfg.disableAuth && "Bearer " <= auth && app != "" && app in w.realms
            && var t, realm := w.decode(auth[7..]), w.realms[app];
               && realm.jwksUrl in t.validKeys
               && (if "iss" in t.claims then t.claims["iss"] else "") == realm.issuer
               && "app_id" in t.claims && t.claims["app_id"] == app
  {
    LegacyForwardedIdentityIsEarned(cfg, w, r);
    hide Serve;
    hide Entered;
    hide EnteredApp;
    hide CarriesIdentity;
    var o := Serve(cfg, w, false, r);
    assert !CleanButForApp(cfg, o.headers);
    var claims :| PresentsAtHome(cfg, w, EnteredApp(cfg, w, r), Get(Entered(cfg, w, r).headers, cfg.jwtHeader), claims);
  }

  /** Where no user id is forwarded, nothing else that speaks of a caller is, whatever the client sent. */
  lemma NothingClaimedArrives(cfg: Config, w: World, snap: Snapshot.SnapshotDto, policyMode: bool, r: RequestView)
    requires NamesDistinct(cfg) && (policyMode ==> Snapshot.InForce(w.snapshot, snap))
    requires var o := Serve(cfg, w, policyMode, r); o.Forwarded? && cfg.userIdHeader !in o.headers
    ensures var h := Serve(cfg, w, policyMode, r).headers;
            && cfg.userPlanHeader !in h && cfg.userUidHeader !in h && cfg.userRolesHeader !in h
            && cfg.isAdminHeader !in h && "X-Api-Key-Uid" !in h
            && (cfg.userEmailHeader != "" ==> cfg.userEmailHeader !in h)
  {
    if policyMode {
      ForwardedIdentityIsEarned(cfg, w, snap, r);
    } else {
      LegacyForwardedIdentityIsEarned(cfg, w, r);
    }
    hide Serve;
    hide Entered;
    hide EnteredApp;
    hide Credential;
    hide ServedTarget;
    hide EndpointFor;
    hide Presents;
    hide PresentsAtHome;
    hide Universal;
    assert CleanButForApp(cfg, Serve(cfg, w, policyMode, r).headers);
  }

  /** The credential is the one the client sent, unless its header is one that the gateway sets. */
  lemma CredentialIsSent(cfg: Config, w: World, r: RequestView)
    requires cfg.jwtHeader !in OwnedNames(cfg) + {REQUEST_ID}
    ensures var sent := if cfg.jwtHeader in r.headers && r.headers[cfg.jwtHeader] != []
                        then r.headers[cfg.jwtHeader][0] else "";
            Credential(cfg, w, r) == sent && Get(Entered(cfg, w, r).headers, cfg.jwtHeader) == sent
  {
    StrippedMeaning(cfg, WithRequestId(w, r.headers));
    hide Stripped;
    hide HostApp;
    hide ServedTarget;
  }

  // ---- owners ----

  /** Whose resource a request addresses: what the named group of the path captured, or the query
      parameter of that name, without its blanks, and nobody's if there is none. */
  lemma OwnerMeaning(w: World, ep: Snapshot.Endpoint, r: RequestView, name: string)
    requires name != ""
    ensures ep.dto.ownerParam == "path:" + name ==>
              ExtractOwner(w, ep, r) == (match w.rx.capture(ep.dto.pathRegex, name, r.path)
                                         case Some(v) => TrimSpace(v)
                                         case None => "")
    ensures ep.dto.ownerParam == "query:" + name ==>
              ExtractOwner(w, ep, r) == if name in r.query then TrimSpace(r.query[name]) else ""
  {
    CutKind("path", name);
    CutKind("query", name);
    assert "path" + ":" == "path:" && "query" + ":" == "query:";
  }

  lemma CutKind(kind: string, name: string)
    requires ':' !in kind
    ensures var p := kind + ":" + name;
            IndexOf(p, ':') == |kind| && p[..|kind|] == kind && p[|kind| + 1..] == name
  {
    FirstCut(kind, ':', name);
    assert kind + [':'] + name == kind + ":" + name;
  }

  /** Any other owner parameter names nobody. */
  lemma OtherOwner(w: World, ep: Snapshot.Endpoint, r: RequestView)
    requires !("path:" < ep.dto.ownerParam) && !("query:" < ep.dto.ownerParam)
    ensures ExtractOwner(w, ep, r) == ""
  {
    var p := ep.dto.ownerParam;
    var i := IndexOf(p, ':');
    if i < |p| {
      assert p == p[..i] + ":" + p[i + 1..];
      assert p[..i] == "path" ==> p[..5] == "path:";
      assert p[..i] == "query" ==> p[..6] == "query:";
    }
  }

  /** A resource with a named owner is its own: the owner is the caller's user id or its subject. */
  lemma OwnerMatchesMeaning(owner: string, userID: string, userUID: string)
    ensures OwnerMatches(owner, userID, userUID) <==> owner != "" && owner in {userID, userUID}
  {
  }

  lemma HasMeaning(permissions: seq<string>, permission: string)
    ensures Has(permissions, permission) <==> "*" in permissions || permission in permissions
  {
  }

  // ---- what else arrives ----

  /** Every forwarded request has an id: the one it brought, if that is not blank, and else the one made
      for it. */
  lemma RequestIdArrives(cfg: Config, w: World, policyMode: bool, r: RequestView)
    requires "X-Request-Id" !in OwnedNames(cfg) + {cfg.sessionHeader, cfg.deviceHeader}
    ensures var o := Serve(cfg, w, policyMode, r);
            o.Forwarded? ==>
              && "X-Request-Id" in o.headers
              && if "X-Request-Id" in r.headers && r.headers["X-Request-Id"] != []
                    && TrimSpace(r.headers["X-Request-Id"][0]) != ""
                 then o.headers["X-Request-Id"] == r.headers["X-Request-Id"]
                 else o.headers["X-Request-Id"] == [w.freshRequestId]
  {
    TrimSpaceMeaning("");
    hide Serve;
    hide TrimSpace;
    EngineInputFrame(cfg, w, policyMode, r, "X-Request-Id");
  }

  /** Every other header arrives as it was sent. */
  lemma OtherHeadersArrive(cfg: Config, w: World, policyMode: bool, r: RequestView, name: string)
    requires name !in OwnedNames(cfg) + {cfg.sessionHeader, cfg.deviceHeader, REQUEST_ID}
    ensures var o := Serve(cfg, w, policyMode, r); o.Forwarded? ==> Same(o.headers, r.headers, name)
  {
    hide Serve;
    EngineInputFrame(cfg, w, policyMode, r, name);
  }

  /** No engine touches a name that is neither owned nor the session's or the device's. */
  lemma EngineInputFrame(cfg: Config, w: World, policyMode: bool, r: RequestView, name: string)
    requires name !in OwnedNames(cfg) + {cfg.sessionHeader, cfg.deviceHeader}
    ensures var o := Serve(cfg, w, policyMode, r);
            o.Forwarded? ==> Same(o.headers, WithRequestId(w, r.headers), name)
  {
    StrippedMeaning(cfg, WithRequestId(w, r.headers));
    hide Stripped;
    hide WithRequestId;
    hide Serve;
    hide HostApp;
    hide EndpointFor;
    hide PassesPrelude;
    hide PolicyOutcome;
    hide LegacyOutcome;
    ServeEnters(cfg, w, policyMode, r);
    assert Same(Entered(cfg, w, r).headers, WithRequestId(w, r.headers), name);
    if policyMode {
      PolicyFrame(cfg, w, Entered(cfg, w, r), EnteredApp(cfg, w, r), Requested(cfg, w, r), name);
    } else {
      LegacyFrame(cfg, w, Entered(cfg, w, r), EnteredApp(cfg, w, r), name);
    }
  }

  lemma PolicyFrame(cfg: Config, w: World, r: RequestView, hostApp: string, requested: string, name: string)
    requires name !in OwnedNames(cfg) + {cfg.sessionHeader, cfg.deviceHeader}
    ensures var o := PolicyOutcome(cfg, w, r, hostApp, requested); o.Forwarded? ==> Same(o.headers, r.headers, name)
  {
    hide EndpointFor;
    hide HasLegacyApiKey;
    hide Authenticate;
    hide RateStage;
    hide ExtractOwner;
    hide StampPolicy;
    hide KeepAnonymous;
    hide Granted;
    hide IsWildcard;
    var target := Target(w, hostApp, requested);
    var r1 := ForTarget(cfg, r, target);
    assert Same(r1.headers, r.headers, name);
    KeepsName(cfg, r1.headers, name);
    var parsed := Authenticate(cfg, w, target, Get(r1.headers, cfg.jwtHeader));
    if parsed.Accepted? {
      var p := PrincipalOf(w, parsed.claims);
      StampsFrame(cfg, r1.headers, parsed.claims, p.boundRoles, IsWildcard(p.statements, parsed.claims.appID, target),
                  w.planOf(target, parsed.claims.userID), name);
    }
  }

  lemma LegacyFrame(cfg: Config, w: World, r: RequestView, app: string, name: string)
    requires name !in OwnedNames(cfg) + {cfg.sessionHeader, cfg.deviceHeader}
    ensures var o := LegacyOutcome(cfg, w, r, app); o.Forwarded? ==> Same(o.headers, r.headers, name)
  {
    hide EndpointFor;
    hide HasLegacyApiKey;
    hide LegacyAuthenticate;
    hide RateStage;
    hide ExtractOwner;
    hide StampLegacy;
    hide KeepAnonymous;
    hide Has;
    KeepsName(cfg, r.headers, name);
    var parsed := LegacyAuthenticate(cfg, w, app, Get(r.headers, cfg.jwtHeader));
    if parsed.Accepted? {
      LegacyStampsFrame(cfg, r.headers, parsed.claims, w.planOf(app, parsed.claims.userID), name);
    }
  }

  lemma KeepsName(cfg: Config, h: HeaderMap, name: string)
    requires name !in {cfg.sessionHeader, cfg.deviceHeader}
    ensures Same(KeepAnonymous(cfg, h), h, name)
  {
  }

  lemma StampsFrame(
      cfg: Config, h: HeaderMap, claims: TokenClaims, bound: seq<string>, wildcard: bool, plan: string, name: string)
    requires name !in OwnedNames(cfg) + {cfg.sessionHeader, cfg.deviceHeader}
    ensures Same(StampPolicy(cfg, h, claims, bound, wildcard, plan), h, name)
  {
    hide Join;
  }

  lemma LegacyStampsFrame(cfg: Config, h: HeaderMap, claims: TokenClaims, plan: string, name: string)
    requires name !in OwnedNames(cfg) + {cfg.sessionHeader, cfg.deviceHeader}
    ensures Same(StampLegacy(cfg, h, claims, plan), h, name)
  {
    hide Join;
  }
}
