/** A request that the shadow log allows and the policy engine refuses (policy.go). */
module CutoverExample {
  import opened Text
  import opened Headers
  import opened Authz
  import opened Tokens
  import opened Snapshot
  import opened Gateway
  import opened Mediation
  import opened Cutover
  import Keys
  import Registry
  import UserId

  /** A configuration in enforce mode with distinct header names and one admin role. */
  predicate Usual(cfg: Config) {
    && cfg.resolution.Enforce? && !cfg.trustForwardedHost && !cfg.disableAuth && !cfg.corsEnabled
    && cfg.userIdClaim == "luid" && cfg.adminRoles == ["admin"] && cfg.adminAccessLevel == "admin"
    && NamesDistinct(cfg)
    && OwnedNames(cfg) !! {cfg.jwtHeader, API_KEY, REQUEST_ID} && cfg.jwtHeader !in {API_KEY, REQUEST_ID}
  }

  const DEFAULTS := Config(
    Enforce, false, false, false, false, "Authorization", "X-Session-Id", "X-Device-Id", "X-App-Id", "X-User-Id",
    "X-User-Plan", "X-Is-Admin", "X-User-Roles", "X-User-Uid", "", "luid", ["admin"], "admin", "platform.admin",
    "free", 30, 60)

  lemma DefaultsAreUsual()
    ensures Usual(DEFAULTS)
  {
  }

  /** The token of a legacy admin. */
  function AdminToken(sub: string): Token {
    Token({"jwks"}, map["iss" := "issuer", "sub" := sub, "app_id" := "a", "luid" := "1"], false, map[],
          [JsonString("admin")])
  }

  function AdminClaims(sub: string): TokenClaims {
    TokenClaims("1", "issuer", "a", true, ["admin"], ["admin"], sub, "")
  }

  const FILE := Endpoint(EndpointDto("uid", "GET", "/files", "public", "", "query:owner", map[]), "a")

  /** One host, one realm, one endpoint with an owner, no policy yet and no limiter. */
  function BeforeCutover(sub: string): World {
    World(
      Some(Registry.Tables(map["host" := "a"], [], {"a"}, "v", true)), (h: string) => h,
      SnapshotView([FILE], Some(PolicyIndex(map[], map[])), "v", true),
      Regexp((re: string, path: string) => path == re, (re: string, name: string, path: string) => None),
      map["a" := Realm("issuer", "jwks")], None, (t: string) => AdminToken(sub),
      (app: string, user: string) => "free", None, "id")
  }

  /** A request for the file of `owner`. */
  function FileRequest(cfg: Config, owner: string): RequestView {
    RequestView("GET", "/files", "host", "10.0.0.1", map["owner" := owner], map[cfg.jwtHeader := ["Bearer t"]])
  }

  /** The request as both engines see it. */
  function FileEntered(cfg: Config, owner: string): RequestView {
    FileRequest(cfg, owner).(headers := map[
      cfg.jwtHeader := ["Bearer t"], REQUEST_ID := ["id"], cfg.appIdHeader := ["a"]])
  }

  lemma OneDistinct(role: string)
    requires role != ""
    ensures Distinct([role]) == [role]
  {
    assert [role][..0] == [];
  }

  lemma OneString(role: string)
    requires role != ""
    ensures Strings([JsonString(role)]) == [role]
  {
    assert [JsonString(role)][..0] == [];
  }

  lemma OneRealmRole(t: Token, role: string)
    requires role != "" && t.realmRoles == [JsonString(role)] && t.Claim("azp") == ""
    ensures Distinct(ClientRoles(t) + RealmRoles(t)) == [role]
    ensures QualifiedNames("", ClientRoles(t), RealmRoles(t)) == [role]
  {
    hide Distinct;
    OneString(role);
    OneDistinct(role);
    assert ClientRoles(t) == [];
    assert [] + [role] == [role];
  }

  lemma AdminIsAccepted(cfg: Config, sub: string)
    requires Usual(cfg) && sub != ""
    ensures LegacyAuthenticate(cfg, BeforeCutover(sub), "a", "Bearer t") == Accepted(AdminClaims(sub))
  {
    hide Distinct;
    hide Strings;
    var t := AdminToken(sub);
    OneRealmRole(t, "admin");
    Keys.FirstUser();
    assert "Bearer " <= "Bearer t";
    assert "admin" in ["admin"];
    assert ClaimsOf(t, "luid", ["admin"]) == AdminClaims(sub);
  }

  /** The request with its id, before anything else is stamped. */
  function WithId(cfg: Config): HeaderMap {
    map[cfg.jwtHeader := ["Bearer t"], REQUEST_ID := ["id"]]
  }

  lemma NothingIsStripped(cfg: Config, sub: string, owner: string)
    requires Usual(cfg)
    ensures var w, r := BeforeCutover(sub), FileRequest(cfg, owner);
            && WithoutOwned(cfg, w, r).headers == WithId(cfg)
            && Requested(cfg, w, r) == ""
  {
    hide Stripped;
    var h := FileRequest(cfg, owner).headers;
    assert Get(h, REQUEST_ID) == "";
    TrimSpaceMeaning("");
    assert WithRequestId(BeforeCutover(sub), h) == WithId(cfg);
    StrippedMeaning(cfg, WithId(cfg));
    assert WithId(cfg) - OwnedNames(cfg) == WithId(cfg);
    assert cfg.appIdHeader in OwnedNames(cfg);
  }

  lemma HostIsKnown(cfg: Config, sub: string, owner: string)
    requires Usual(cfg)
    ensures var w, r := BeforeCutover(sub), FileRequest(cfg, owner);
            HostApp(cfg, w, WithoutOwned(cfg, w, r)) == Some(Some("a"))
  {
    hide Stripped;
    hide WithRequestId;
  }

  lemma RequestEnters(cfg: Config, sub: string, owner: string)
    requires Usual(cfg)
    ensures var w, r := BeforeCutover(sub), FileRequest(cfg, owner);
            && PassesPrelude(cfg, w, r) && Requested(cfg, w, r) == ""
            && EnteredApp(cfg, w, r) == "a" && Entered(cfg, w, r) == FileEntered(cfg, owner)
  {
    hide Requested;
    hide HostApp;
    hide Stripped;
    hide WithRequestId;
    NothingIsStripped(cfg, sub, owner);
    HostIsKnown(cfg, sub, owner);
    assert Set(WithId(cfg), cfg.appIdHeader, "a") == FileEntered(cfg, owner).headers;
  }

  lemma NoRetiredKey(cfg: Config, owner: string)
    requires Usual(cfg)
    ensures !HasLegacyApiKey(cfg, FileEntered(cfg, owner).headers)
  {
    assert cfg.appIdHeader in OwnedNames(cfg);
    assert "Bearer t"[7..] == "t";
    TrimSpaceMeaning("t");
    TrimSpaceMeaning("");
  }

  lemma FileIsMet(cfg: Config, sub: string, owner: string)
    requires Trimmed(owner)
    ensures EndpointFor(BeforeCutover(sub), "a", FileEntered(cfg, owner)) == Some(FILE)
    ensures ExtractOwner(BeforeCutover(sub), FILE, FileEntered(cfg, owner)) == owner
  {
    var w := BeforeCutover(sub);
    ResolvedAppMeetsOwnOrShared(w.rx, w.snapshot.compiled, "a", "GET", "/files");
    assert FILE in w.snapshot.compiled && Hits(w.rx, FILE, "GET", "/files");
    assert "query:owner"[5] == ':';
    assert "query:owner"[..5] == "query" && "query:owner"[6..] == "owner";
    TrimSpaceMeaning(owner);
  }

  lemma LegacyForwards(cfg: Config, sub: string, owner: string)
    requires Usual(cfg) && sub != "" && Trimmed(owner)
    ensures LegacyOutcome(cfg, BeforeCutover(sub), FileEntered(cfg, owner), "a").Forwarded?
  {
    hide LegacyAuthenticate;
    hide LegacyAuthenticated;
    hide EndpointFor;
    hide ExtractOwner;
    hide HasLegacyApiKey;
    var w, r := BeforeCutover(sub), FileEntered(cfg, owner);
    AdminIsAccepted(cfg, sub);
    NoRetiredKey(cfg, owner);
    FileIsMet(cfg, sub, owner);
    assert cfg.isAdminHeader in OwnedNames(cfg);
    assert Get(r.headers, cfg.jwtHeader) == "Bearer t";
    LegacyAuthenticatedIff(cfg, w, r, "a", FILE, AdminClaims(sub));
  }

  lemma NoRoleIsBound(sub: string)
    ensures PrincipalOf(BeforeCutover(sub), AdminClaims(sub)).statements == []
  {
    ResolvedMembers(["admin"], PolicyIndex(map[], map[]));
  }

  lemma OwnerGateRefuses(cfg: Config, sub: string, owner: string)
    requires Usual(cfg) && Trimmed(owner) && owner != "1" && owner != sub
    ensures var w, r, claims := BeforeCutover(sub), FileEntered(cfg, owner), AdminClaims(sub);
            && ShadowAllows(cfg, w, FILE, claims, "a")
            && OwnerRefuses(w, r, FILE, claims, "a")
  {
    hide ExtractOwner;
    hide PrincipalOf;
    FileIsMet(cfg, sub, owner);
    NoRoleIsBound(sub);
  }

  lemma MatchedRefuses(cfg: Config, sub: string, owner: string)
    requires Usual(cfg) && sub != "" && Trimmed(owner) && owner != "1" && owner != sub
    ensures PolicyMatched(cfg, BeforeCutover(sub), FileEntered(cfg, owner), "a", FILE) == Denied(403, "forbidden")
  {
    hide PolicyMatched;
    hide HasLegacyApiKey;
    hide Presents;
    hide LegacyAuthenticate;
    hide ShadowAllows;
    hide OwnerRefuses;
    var w, r := BeforeCutover(sub), FileEntered(cfg, owner);
    AdminIsAccepted(cfg, sub);
    NoRetiredKey(cfg, owner);
    assert Get(r.headers, cfg.jwtHeader) == "Bearer t";
    LoggedCallersPresent(cfg, w, "a", "Bearer t", AdminClaims(sub));
    OwnerGateRefuses(cfg, sub, owner);
    ShadowErrsIff(cfg, w, r, FILE, AdminClaims(sub), "a");
  }

  lemma PolicyRefuses(cfg: Config, sub: string, owner: string)
    requires Usual(cfg) && sub != "" && Trimmed(owner) && owner != "1" && owner != sub
    ensures PolicyOutcome(cfg, BeforeCutover(sub), FileEntered(cfg, owner), "a", "") == Denied(403, "forbidden")
  {
    hide PolicyMatched;
    hide EndpointFor;
    FileIsMet(cfg, sub, owner);
    MatchedRefuses(cfg, sub, owner);
    var r := FileEntered(cfg, owner);
    assert Set(r.headers, cfg.appIdHeader, "a") == r.headers;
  }

  /** A legacy admin whose role is bound to nothing yet asks for another user's file. The legacy engine
      forwards the request and logs that the policy engine allows it; the policy engine refuses it. */
  lemma AdminIsRefusedAfterAnAllowingLog(cfg: Config, sub: string, owner: string)
    requires Usual(cfg) && sub != "" && Trimmed(owner) && owner != "1" && owner != sub
    ensures var w, r := BeforeCutover(sub), FileRequest(cfg, owner);
            && Serve(cfg, w, false, r).Forwarded?
            && ShadowAllows(cfg, w, FILE, AdminClaims(sub), "a")
            && Serve(cfg, w, true, r) == Denied(403, "forbidden")
  {
    hide LegacyOutcome;
    hide PolicyOutcome;
    hide Serve;
    hide PassesPrelude;
    hide Entered;
    hide EnteredApp;
    var w, r := BeforeCutover(sub), FileRequest(cfg, owner);
    RequestEnters(cfg, sub, owner);
    ServeEnters(cfg, w, false, r);
    ServeEnters(cfg, w, true, r);
    LegacyForwards(cfg, sub, owner);
    PolicyRefuses(cfg, sub, owner);
    OwnerGateRefuses(cfg, sub, owner);
  }
}
