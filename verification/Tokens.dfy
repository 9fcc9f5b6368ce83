/** Claims of a Keycloak access token after its signature is checked: identity and roles
    (jwt.go, and `qualifyRoles` and `tokenIssuer` of authz.go). */
module Tokens {
  import opened Text
  import opened UserId
  import Decimal

  datatype JsonItem = JsonString(s: string) | JsonOther

  /** A decoded bearer token. `validKeys` are the JWKS URLs under whose keys the RS256 signature
      and the time claims check out; `claims` holds the string-valued claims. */
  datatype Token = Token(
    validKeys: set<string>,
    claims: map<string, string>,
    emailVerified: bool,
    resourceAccess: map<string, seq<JsonItem>>,  // role arrays by client id
    realmRoles: seq<JsonItem>)
  {
    /** "" when the claim is missing or not a string. */
    function Claim(name: string): string {
      if name in claims then claims[name] else ""
    }
  }

  datatype Realm = Realm(issuer: string, jwksUrl: string)

  datatype TokenClaims = TokenClaims(
    userID: string, issuer: string, appID: string, isAdmin: bool,
    roles: seq<string>, qualifiedRoles: seq<string>, subject: string, email: string)

  datatype Parsed = Anonymous | Rejected | Accepted(claims: TokenClaims)

  // ---- role lists ----

  /** The non-empty strings of a JSON array. */
  function Strings(items: seq<JsonItem>): seq<string> {
    if items == [] then []
    else
      var before, last := Strings(items[..|items| - 1]), items[|items| - 1];
      if last.JsonString? && last.s != "" then before + [last.s] else before
  }

  /** First occurrences, without "". */
  function Distinct(list: seq<string>): seq<string> {
    if list == [] then []
    else
      var before, last := Distinct(list[..|list| - 1]), list[|list| - 1];
      if last == "" || last in before then before else before + [last]
  }

  lemma {:induction false} DistinctMembers(list: seq<string>)
    ensures forall x :: x in Distinct(list) <==> x != "" && x in list
    ensures forall i, j :: 0 <= i < j < |Distinct(list)| ==> Distinct(list)[i] != Distinct(list)[j]
  {
    if list != [] {
      var before := list[..|list| - 1];
      DistinctMembers(before);
      assert list == before + [list[|list| - 1]];
    }
  }

  lemma {:induction false} StringsMembers(items: seq<JsonItem>)
    ensures forall s :: s in Strings(items) <==> s != "" && JsonString(s) in items
  {
    if items != [] {
      var before := items[..|items| - 1];
      StringsMembers(before);
      assert items == before + [items[|items| - 1]];
    }
  }

  lemma StringsAppend(items: seq<JsonItem>, item: JsonItem)
    ensures Strings(items + [item]) ==
            Strings(items) + (if item.JsonString? && item.s != "" then [item.s] else [])
  {
    assert (items + [item])[..|items|] == items;
  }

  /** The role array of the authorized party. */
  function ClientItems(t: Token): seq<JsonItem> {
    var azp := t.Claim("azp");
    if azp != "" && azp in t.resourceAccess then t.resourceAccess[azp] else []
  }

  function ClientRoles(t: Token): seq<string> {
    Strings(ClientItems(t))
  }

  function RealmRoles(t: Token): seq<string> {
    Strings(t.realmRoles)
  }

  method Collect(items: seq<JsonItem>) returns (out: seq<string>)
    ensures out == Strings(items)
  {
    out := [];
    for i := 0 to |items|
      invariant out == Strings(items[..i])
    {
      assert items[..i + 1] == items[..i] + [items[i]];
      StringsAppend(items[..i], items[i]);
      if items[i].JsonString? && items[i].s != "" {
        out := out + [items[i].s];
      }
    }
    assert items[..|items|] == items;
  }

  /** The authorized party's client roles and the realm roles, apart. */
  method KeycloakRoleSets(t: Token) returns (clientRoles: seq<string>, realmRoles: seq<string>)
    ensures clientRoles == ClientRoles(t) && realmRoles == RealmRoles(t)
  {
    clientRoles := [];
    var azp := t.Claim("azp");
    if azp != "" && azp in t.resourceAccess {
      clientRoles := Collect(t.resourceAccess[azp]);
    }
    realmRoles := Collect(t.realmRoles);
  }

  method AddDistinct(out: seq<string>, ghost names: seq<string>, r: string) returns (longer: seq<string>)
    requires out == Distinct(names)
    ensures longer == Distinct(names + [r])
  {
    assert (names + [r])[..|names|] == names;
    longer := if r != "" && r !in out then out + [r] else out;
  }

  /** One item more: the role list it stands for grows at the end. */
  lemma RolesGrow(before: seq<string>, items: seq<JsonItem>, item: JsonItem)
    ensures before + Strings(items + [item]) ==
            if item.JsonString? && item.s != "" then before + Strings(items) + [item.s] else before + Strings(items)
  {
    StringsAppend(items, item);
  }

  method AppendRoles(roles: seq<string>, ghost before: seq<string>, items: seq<JsonItem>)
    returns (out: seq<string>)
    requires roles == Distinct(before)
    ensures out == Distinct(before + Strings(items))
  {
    out := roles;
    ghost var names := before;
    for i := 0 to |items|
      invariant names == before + Strings(items[..i])
      invariant out == Distinct(names)
    {
      RolesGrow(before, items[..i], items[i]);
      assert items[..i + 1] == items[..i] + [items[i]];
      if items[i].JsonString? && items[i].s != "" {
        out := AddDistinct(out, names, items[i].s);
        names := names + [items[i].s];
      }
    }
    assert items[..|items|] == items;
  }

  /** Both role lists together, client roles first, without repetition. */
  method KeycloakRoles(t: Token) returns (roles: seq<string>)
    ensures roles == Distinct(ClientRoles(t) + RealmRoles(t))
  {
    roles := [];
    var azp := t.Claim("azp");
    if azp != "" && azp in t.resourceAccess {
      roles := AppendRoles(roles, [], t.resourceAccess[azp]);
      assert [] + ClientRoles(t) == ClientRoles(t);
    }
    roles := AppendRoles(roles, ClientRoles(t), t.realmRoles);
  }

  /** The names bindings use: client roles as "<azp>:<role>", realm roles bare. */
  function Prefixed(azp: string, roles: seq<string>): (out: seq<string>)
    ensures |out| == |roles| && forall i :: 0 <= i < |roles| ==> out[i] == azp + ":" + roles[i]
  {
    seq(|roles|, i requires 0 <= i < |roles| => azp + ":" + roles[i])
  }

  function QualifiedNames(azp: string, clientRoles: seq<string>, realmRoles: seq<string>): seq<string> {
    Distinct((if azp != "" then Prefixed(azp, clientRoles) else []) + realmRoles)
  }

  method QualifyRoles(azp: string, clientRoles: seq<string>, realmRoles: seq<string>) returns (out: seq<string>)
    ensures out == QualifiedNames(azp, clientRoles, realmRoles)
  {
    out := [];
    ghost var names: seq<string> := [];
    if azp != "" {
      for i := 0 to |clientRoles|
        invariant names == Prefixed(azp, clientRoles)[..i] && out == Distinct(names)
      {
        out := AddDistinct(out, names, azp + ":" + clientRoles[i]);
        names := names + [azp + ":" + clientRoles[i]];
      }
      assert names == Prefixed(azp, clientRoles);
    }
    ghost var head := names;
    for i := 0 to |realmRoles|
      invariant names == head + realmRoles[..i] && out == Distinct(names)
    {
      out := AddDistinct(out, names, realmRoles[i]);
      names := names + [realmRoles[i]];
    }
    assert realmRoles[..|realmRoles|] == realmRoles;
  }

  /** A longer list only adds names at the end: a name keeps the place where it first occurs. */
  lemma {:induction false} DistinctGrows(few: seq<string>, more: seq<string>)
    ensures Distinct(few) <= Distinct(few + more)
  {
    if more == [] {
      assert few + more == few;
    } else {
      var n := |more| - 1;
      assert (few + more)[..|few + more| - 1] == few + more[..n];
      DistinctGrows(few, more[..n]);
    }
  }

  /** Which roles a token carries: the non-empty strings of the role array under its authorized party,
      none without one, and the non-empty strings of the realm's array. */
  lemma RoleMeaning(t: Token, role: string)
    ensures var azp := if "azp" in t.claims then t.claims["azp"] else "";
            && (role in ClientRoles(t) <==>
                  role != "" && azp != "" && azp in t.resourceAccess && JsonString(role) in t.resourceAccess[azp])
            && (role in RealmRoles(t) <==> role != "" && JsonString(role) in t.realmRoles)
  {
    StringsMembers(ClientItems(t));
    StringsMembers(t.realmRoles);
  }

  /** The two views of a token's roles correspond: the role list holds exactly the client and the
      realm roles, and the qualified list holds exactly the names they go by in bindings. */
  lemma RolesCorrespond(t: Token)
    ensures var azp := t.Claim("azp");
            var qualified := QualifiedNames(azp, ClientRoles(t), RealmRoles(t));
            && (forall r :: r in Distinct(ClientRoles(t) + RealmRoles(t)) <==>
                  r in ClientRoles(t) || r in RealmRoles(t))
            && (forall q :: q in qualified <==> q in RealmRoles(t) || exists r <- ClientRoles(t) :: q == azp + ":" + r)
  {
    var azp, client, realm := t.Claim("azp"), ClientRoles(t), RealmRoles(t);
    var prefixed := if azp != "" then Prefixed(azp, client) else [];
    DistinctMembers(client + realm);
    DistinctMembers(prefixed + realm);
    StringsMembers(ClientItems(t));
    StringsMembers(t.realmRoles);
    forall r | r in client ensures azp + ":" + r in prefixed {
      var i :| 0 <= i < |client| && client[i] == r;
      assert prefixed[i] == azp + ":" + r;
    }
  }

  // ---- the claim checks ----

  function UserIdOf(t: Token, userIDClaim: string): string {
    var sub := t.Claim("sub");
    var claimed := if userIDClaim != "" && t.Claim(userIDClaim) != "" then t.Claim(userIDClaim) else sub;
    NumericUserID(claimed, sub)
  }

  predicate HoldsAdminRole(roles: seq<string>, adminRoles: seq<string>) {
    exists r <- roles :: r in adminRoles
  }

  method HasAdminRole(roles: seq<string>, adminRoles: seq<string>) returns (isAdmin: bool)
    ensures isAdmin == HoldsAdminRole(roles, adminRoles)
  {
    isAdmin := false;
    for i := 0 to |roles|
      invariant isAdmin <==> exists k :: 0 <= k < i && roles[k] in adminRoles
    {
      for j := 0 to |adminRoles|
        invariant isAdmin <==> (exists k :: 0 <= k < i && roles[k] in adminRoles) || roles[i] in adminRoles[..j]
      {
        if roles[i] == adminRoles[j] {
          isAdmin := true;
        }
      }
      assert adminRoles[..|adminRoles|] == adminRoles;
    }
  }

  function ClaimsOf(t: Token, userIDClaim: string, adminRoles: seq<string>): TokenClaims {
    var roles := Distinct(ClientRoles(t) + RealmRoles(t));
    TokenClaims(
      UserIdOf(t, userIDClaim),
      t.Claim("iss"),
      t.Claim("app_id"),
      HoldsAdminRole(roles, adminRoles),
      roles,
      QualifiedNames(t.Claim("azp"), ClientRoles(t), RealmRoles(t)),
      t.Claim("sub"),
      if t.emailVerified then t.Claim("email") else "")
  }

  /** A realm accepts a token that its keys verify, that it issued, and that names a subject and
      an application. */
  predicate RealmAccepts(realm: Realm, t: Token) {
    && realm.jwksUrl in t.validKeys
    && t.Claim("iss") == realm.issuer
    && t.Claim("sub") != ""
    && t.Claim("app_id") != ""
  }

  function ParseFor(
      auth: string, decode: string -> Token, realm: Realm, userIDClaim: string, adminRoles: seq<string>): Parsed
  {
    if auth == "" then Anonymous
    else if !HasPrefix(auth, "Bearer ") then Rejected
    else
      var t := decode(TrimPrefix(auth, "Bearer "));
      if RealmAccepts(realm, t) then Accepted(ClaimsOf(t, userIDClaim, adminRoles)) else Rejected
  }

  method ParseKeycloakJWT(
      auth: string, decode: string -> Token, realm: Realm, userIDClaim: string, adminRoles: seq<string>)
    returns (p: Parsed)
    ensures p == ParseFor(auth, decode, realm, userIDClaim, adminRoles)
  {
    if auth == "" {
      return Anonymous;
    }
    var tokenStr := TrimPrefix(auth, "Bearer ");
    if tokenStr == auth {
      return Rejected;
    }
    var t := decode(tokenStr);
    if realm.jwksUrl !in t.validKeys {
      return Rejected;
    }
    var iss := t.Claim("iss");
    if iss != realm.issuer {
      return Rejected;
    }
    var sub := t.Claim("sub");
    if sub == "" {
      return Rejected;
    }
    var tokenAppID := t.Claim("app_id");
    if tokenAppID == "" {
      return Rejected;
    }
    var userID := sub;
    if userIDClaim != "" {
      var v := t.Claim(userIDClaim);
      if v != "" {
        userID := v;
      }
    }
    userID := NumericUserID(userID, sub);
    var roles := KeycloakRoles(t);
    var clientRoles, realmRoles := KeycloakRoleSets(t);
    var isAdmin := HasAdminRole(roles, adminRoles);
    var qualified := QualifyRoles(t.Claim("azp"), clientRoles, realmRoles);
    var email := "";
    if t.emailVerified {
      email := t.Claim("email");
    }
    p := Accepted(TokenClaims(userID, iss, tokenAppID, isAdmin, roles, qualified, sub, email));
  }

  /** The unverified `iss`, read only to choose the realm that validates the token; it is taken
      to be the claim that the validated token carries. */
  function TokenIssuer(auth: string, decode: string -> Token): string {
    decode(TrimPrefix(auth, "Bearer ")).Claim("iss")
  }

  /** Accepted claims always carry a positive int64 id, a subject and an application, and the
      issuer that was asked for; and a key of the realm verified the token. */
  lemma AcceptedClaims(
      auth: string, decode: string -> Token, realm: Realm, userIDClaim: string, adminRoles: seq<string>)
    ensures var p := ParseFor(auth, decode, realm, userIDClaim, adminRoles);
            p.Accepted? ==>
              && IsPositiveInt(p.claims.userID)
              && p.claims.issuer == realm.issuer == TokenIssuer(auth, decode)
              && p.claims.subject != "" && p.claims.appID != ""
              && RealmAccepts(realm, decode(TrimPrefix(auth, "Bearer ")))
              && realm.jwksUrl in decode(TrimPrefix(auth, "Bearer ")).validKeys
  {
    var t := decode(TrimPrefix(auth, "Bearer "));
    var sub := t.Claim("sub");
    NumericUserIDIsPositive(
      if userIDClaim != "" && t.Claim(userIDClaim) != "" then t.Claim(userIDClaim) else sub, sub, sub);
  }

  /** Which credentials are accepted, exactly: a bearer token that a key of the realm verifies, that
      the realm issued, and that names a subject and an application. Only an empty one is anonymous. */
  lemma AcceptedIff(
      token: string, decode: string -> Token, realm: Realm, userIDClaim: string, adminRoles: seq<string>)
    ensures var t := decode(token);
            ParseFor("Bearer " + token, decode, realm, userIDClaim, adminRoles).Accepted? <==>
              && realm.jwksUrl in t.validKeys
              && (if "iss" in t.claims then t.claims["iss"] else "") == realm.issuer
              && "sub" in t.claims && t.claims["sub"] != ""
              && "app_id" in t.claims && t.claims["app_id"] != ""
    ensures ParseFor("", decode, realm, userIDClaim, adminRoles) == Anonymous
    ensures token != "" && !("Bearer " <= token) ==>
              ParseFor(token, decode, realm, userIDClaim, adminRoles) == Rejected
  {
    assert TrimPrefix("Bearer " + token, "Bearer ") == token;
  }

  /** Accepted claims, one by one, from the token's own. The id is the configured claim's value if that
      is a positive int64, the subject's if no such claim is there, and derived from the subject
      otherwise; the e-mail counts only if it is verified; the admin flag is an admin role held. */
  lemma ClaimsMeaning(t: Token, userIDClaim: string, adminRoles: seq<string>)
    ensures var value := (name: string) => if name in t.claims then t.claims[name] else "";
            var c := ClaimsOf(t, userIDClaim, adminRoles);
            var named := if userIDClaim != "" && value(userIDClaim) != "" then value(userIDClaim) else value("sub");
            && c.subject == value("sub") && c.appID == value("app_id") && c.issuer == value("iss")
            && (IsPositiveInt(named) ==> c.userID == named)
            && (!IsPositiveInt(named) ==> c.userID == Decimal.Print(DerivedId(value("sub"))))
            && c.email == (if t.emailVerified then value("email") else "")
            && (forall r :: r in c.roles <==> r in ClientRoles(t) || r in RealmRoles(t))
            && (c.isAdmin <==> exists r <- adminRoles :: r in ClientRoles(t) || r in RealmRoles(t))
            && (forall q :: q in c.qualifiedRoles <==>
                  q in RealmRoles(t) || exists r <- ClientRoles(t) :: q == value("azp") + ":" + r)
  {
    RolesCorrespond(t);
  }
}
