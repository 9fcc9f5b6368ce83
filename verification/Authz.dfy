/** Access-policy evaluation: roles resolve through bindings to policies, and policies are lists
    of allow statements (authz.go). */
module Authz {
  import opened Text

  const PERM_AUTHENTICATED := "authenticated"
  const APP_WILDCARD := "*"
  const APP_HOME := "@home"

  datatype Statement = Statement(actions: seq<string>, apps: seq<string>)

  datatype Policy = Policy(name: string, statements: seq<Statement>)

  datatype Binding = Binding(role: string, policy: string)

  datatype PolicyIndex = PolicyIndex(policies: map<string, seq<Statement>>, rolePolicy: map<string, string>)

  // ---- matching ----

  predicate MatchAction(pattern: string, perm: string) {
    if pattern == "*" || pattern == perm then true
    else if perm == PERM_AUTHENTICATED then false
    else HasSuffix(pattern, ".*") && HasPrefix(perm, pattern[..|pattern| - 1])
  }

  predicate MatchApp(entry: string, target: string, home: string) {
    if entry == APP_WILDCARD then true
    else if entry == APP_HOME then home != "" && target == home
    else entry == target
  }

  predicate CoversApp(s: Statement, target: string, home: string) {
    exists e <- s.apps :: MatchApp(e, target, home)
  }

  /** Some statement grants `perm` on `app` to a principal at home in `home`. */
  predicate Granted(statements: seq<Statement>, home: string, perm: string, app: string) {
    perm == ""
    || exists s <- statements :: CoversApp(s, app, home) && exists a <- s.actions :: MatchAction(a, perm)
  }

  /** Some statement covering `app` holds the literal "*". */
  predicate IsWildcard(statements: seq<Statement>, home: string, app: string) {
    exists s <- statements :: CoversApp(s, app, home) && "*" in s.actions
  }

  // ---- what a statement grants, and where ----

  /** The statement lists "*", or the application by its id, or "@home" and the application is the
      principal's own. */
  predicate ReachesApp(s: Statement, home: string, app: string) {
    || "*" in s.apps
    || (app != "@home" && app in s.apps)
    || ("@home" in s.apps && app == home && home != "")
  }

  /** The statement lists "*", or the permission itself, or, for any permission but "authenticated",
      its part up to some dot with a star. */
  predicate NamesAction(s: Statement, perm: string) {
    || "*" in s.actions
    || perm in s.actions
    || (perm != "authenticated" && exists k :: 0 <= k < |perm| && perm[k] == '.' && perm[..k + 1] + "*" in s.actions)
  }

  /** A pattern that ends in ".*" matches what continues its part up to the dot. */
  lemma PrefixMatches(head: string, perm: string)
    requires perm != "authenticated" && head != "" && head[|head| - 1] == '.'
    ensures MatchAction(head + "*", perm) <==> head <= perm || head + "*" == perm
  {
    var a := head + "*";
    assert a[..|a| - 1] == head;
    assert a[|a| - 2..] == ['.'] + ['*'];
    assert a != "*";
  }

  lemma MatchesByPrefix(a: string, perm: string) returns (k: nat)
    requires MatchAction(a, perm) && a != "*" && a != perm
    ensures perm != "authenticated" && k < |perm| && perm[k] == '.' && a == perm[..k + 1] + "*"
  {
    k := |a| - 2;
    assert a[k] == ".*"[0] && a[k + 1] == ".*"[1];
    var head := a[..|a| - 1];
    assert perm[..k + 1] == head && perm[k] == head[k];
    assert a == head + [a[k + 1]];
  }

  lemma ActionMeaning(s: Statement, perm: string)
    ensures (exists a <- s.actions :: MatchAction(a, perm)) <==> NamesAction(s, perm)
  {
    assert MatchAction("*", perm) && MatchAction(perm, perm);
    hide MatchAction;
    if a :| a in s.actions && MatchAction(a, perm) {
      if a != "*" && a != perm {
        var k := MatchesByPrefix(a, perm);
      }
    }
    if k :| perm != "authenticated" && 0 <= k < |perm| && perm[k] == '.' && perm[..k + 1] + "*" in s.actions {
      PrefixMatches(perm[..k + 1], perm);
    }
  }

  lemma CoverMeaning(s: Statement, home: string, app: string)
    ensures CoversApp(s, app, home) <==> ReachesApp(s, home, app)
  {
    assert MatchApp("*", app, home);
    if app != "@home" && app in s.apps {
      assert MatchApp(app, app, home);
    }
    if "@home" in s.apps && app == home && home != "" {
      assert MatchApp("@home", app, home);
    }
  }

  /** What is granted, exactly: nothing is asked, or some statement reaches the application and names
      the permission. */
  lemma GrantMeaning(statements: seq<Statement>, home: string, perm: string, app: string)
    ensures Granted(statements, home, perm, app) <==>
            perm == "" || exists s <- statements :: ReachesApp(s, home, app) && NamesAction(s, perm)
  {
    forall s | s in statements
      ensures CoversApp(s, app, home) <==> ReachesApp(s, home, app)
      ensures (exists a <- s.actions :: MatchAction(a, perm)) <==> NamesAction(s, perm)
    {
      CoverMeaning(s, home, app);
      ActionMeaning(s, perm);
    }
  }

  /** Statements for "@home" let nobody into another application. */
  lemma HomeStaysHome(statements: seq<Statement>, home: string, perm: string, app: string)
    requires perm != "" && app != home
    requires forall s <- statements :: "*" !in s.apps && app !in s.apps
    ensures !Granted(statements, home, perm, app)
  {
    GrantMeaning(statements, home, perm, app);
  }

  // ---- wildcard means everything ----

  function MaxLength(names: seq<string>): (n: nat)
    ensures forall a <- names :: |a| <= n
  {
    if names == [] then 0
    else
      var n := MaxLength(names[1..]);
      assert names == [names[0]] + names[1..];
      if |names[0]| > n then |names[0]| else n
  }

  function LongestAction(statements: seq<Statement>): (n: nat)
    ensures forall s <- statements :: forall a <- s.actions :: |a| <= n
  {
    if statements == [] then 0
    else
      var here, there := MaxLength(statements[0].actions), LongestAction(statements[1..]);
      assert statements == [statements[0]] + statements[1..];
      if here > there then here else there
  }

  /** A permission that no pattern of length at most `n` but "*" matches. */
  function FreshPermission(n: nat): (perm: string)
    ensures |perm| == n + 1 && forall i :: 0 <= i < |perm| ==> perm[i] == 'x'
  {
    seq(n + 1, i => 'x')
  }

  lemma FreshPermissionEscapes(pattern: string, n: nat)
    requires |pattern| <= n
    ensures MatchAction(pattern, FreshPermission(n)) <==> pattern == "*"
  {
    var perm := FreshPermission(n);
    assert perm[0] != PERM_AUTHENTICATED[0];
    if HasSuffix(pattern, ".*") {
      var k := |pattern| - 2;
      assert pattern[k] == ".*"[0];
      assert pattern[..|pattern| - 1][k] == '.';
      assert perm[k] == 'x';
    }
  }

  /** The wildcard test holds exactly for the principals that are granted every permission there
      is, so a derived admin flag is universal authority on the application. */
  lemma WildcardIsUniversal(statements: seq<Statement>, home: string, app: string)
    ensures IsWildcard(statements, home, app) <==> forall perm :: Granted(statements, home, perm, app)
  {
    if forall perm :: Granted(statements, home, perm, app) {
      var n := LongestAction(statements);
      var perm := FreshPermission(n);
      assert Granted(statements, home, perm, app);
      var s :| s in statements && CoversApp(s, app, home) && exists a <- s.actions :: MatchAction(a, perm);
      var a :| a in s.actions && MatchAction(a, perm);
      FreshPermissionEscapes(a, n);
    }
    if IsWildcard(statements, home, app) {
      var s :| s in statements && CoversApp(s, app, home) && "*" in s.actions;
      forall perm ensures Granted(statements, home, perm, app) {
        assert MatchAction("*", perm);
      }
    }
  }

  /** "authenticated" is granted only by "*" or by its own name, never by a resource prefix. */
  lemma PrefixNeverGrantsAuthenticated(statements: seq<Statement>, home: string, app: string)
    ensures Granted(statements, home, PERM_AUTHENTICATED, app) <==>
            exists s <- statements :: CoversApp(s, app, home) && ("*" in s.actions || PERM_AUTHENTICATED in s.actions)
  {
    if s :| s in statements && CoversApp(s, app, home) && ("*" in s.actions || PERM_AUTHENTICATED in s.actions) {
      assert MatchAction("*", PERM_AUTHENTICATED) && MatchAction(PERM_AUTHENTICATED, PERM_AUTHENTICATED);
    }
  }

  // ---- compiling policies and bindings ----

  /** Policies by name; of two with one name the later stands. */
  function PoliciesByName(policies: seq<Policy>): map<string, seq<Statement>> {
    if policies == [] then map[]
    else
      var last := policies[|policies| - 1];
      PoliciesByName(policies[..|policies| - 1])[last.name := last.statements]
  }

  /** Roles to policy names; dangling bindings are skipped and of two live ones the later stands. */
  function PolicyByRole(bindings: seq<Binding>, names: set<string>): map<string, string> {
    if bindings == [] then map[]
    else
      var last, before := bindings[|bindings| - 1], PolicyByRole(bindings[..|bindings| - 1], names);
      if last.policy in names then before[last.role := last.policy] else before
  }

  function IndexOfSnapshot(policies: seq<Policy>, bindings: seq<Binding>): PolicyIndex {
    var byName := PoliciesByName(policies);
    PolicyIndex(byName, PolicyByRole(bindings, byName.Keys))
  }

  method NewPolicyIndex(policies: seq<Policy>, bindings: seq<Binding>) returns (idx: PolicyIndex)
    ensures idx == IndexOfSnapshot(policies, bindings)
  {
    var byName: map<string, seq<Statement>> := map[];
    for i := 0 to |policies|
      invariant byName == PoliciesByName(policies[..i])
    {
      assert policies[..i + 1][..i] == policies[..i];
      byName := byName[policies[i].name := policies[i].statements];
    }
    assert policies[..|policies|] == policies;
    var byRole: map<string, string> := map[];
    for i := 0 to |bindings|
      invariant byRole == PolicyByRole(bindings[..i], byName.Keys)
    {
      assert bindings[..i + 1][..i] == bindings[..i];
      if bindings[i].policy in byName {
        byRole := byRole[bindings[i].role := bindings[i].policy];
      }
    }
    assert bindings[..|bindings|] == bindings;
    idx := PolicyIndex(byName, byRole);
  }

  /** Binding `i` names an existing policy and no later binding of its role does. */
  predicate LastLive(bindings: seq<Binding>, names: set<string>, i: nat)
    requires i < |bindings|
  {
    && bindings[i].policy in names
    && forall j :: i < j < |bindings| && bindings[j].policy in names ==> bindings[j].role != bindings[i].role
  }

  lemma {:induction false} RoleKeepsLastLive(bindings: seq<Binding>, names: set<string>, role: string, name: string)
    ensures (role in PolicyByRole(bindings, names) && PolicyByRole(bindings, names)[role] == name)
            <==> exists i :: 0 <= i < |bindings| && bindings[i] == Binding(role, name) && LastLive(bindings, names, i)
  {
    if bindings != [] {
      var n := |bindings| - 1;
      var before := bindings[..n];
      RoleKeepsLastLive(before, names, role, name);
      assert forall i | 0 <= i < n :: before[i] == bindings[i];
      assert forall i | 0 <= i < n && LastLive(bindings, names, i) :: LastLive(before, names, i);
      if bindings[n].policy !in names || bindings[n].role != role {
        forall i | 0 <= i < n && bindings[i].role == role && LastLive(before, names, i)
          ensures LastLive(bindings, names, i)
        {
        }
      }
      if bindings[n].policy in names {
        assert LastLive(bindings, names, n);
      }
    }
  }

  // ---- resolving a principal ----

  datatype Resolved = Resolved(statements: seq<Statement>, boundRoles: seq<string>, policies: seq<string>)

  function StatementsOf(idx: PolicyIndex, name: string): seq<Statement> {
    if name in idx.policies then idx.policies[name] else []
  }

  function Resolve(roles: seq<string>, idx: PolicyIndex): Resolved {
    if roles == [] then Resolved([], [], [])
    else
      var before, role := Resolve(roles[..|roles| - 1], idx), roles[|roles| - 1];
      if role !in idx.rolePolicy then before
      else
        var name := idx.rolePolicy[role];
        if name in before.policies then before.(boundRoles := before.boundRoles + [role])
        else Resolved(before.statements + StatementsOf(idx, name), before.boundRoles + [role], before.policies + [name])
  }

  /** No snapshot has been loaded yet: nothing is bound. */
  function ResolveIn(roles: seq<string>, idx: Option<PolicyIndex>): Resolved {
    if idx.None? then Resolved([], [], []) else Resolve(roles, idx.value)
  }

  /** The authenticated caller as the evaluator sees it. */
  class Principal {
    const subject: string
    const userID: string
    const homeApp: string
    const email: string
    const roles: seq<string>
    var statements: seq<Statement>
    var boundRoles: seq<string>
    var policies: seq<string>

    constructor (subject: string, userID: string, homeApp: string, email: string, roles: seq<string>)
      ensures this.subject == subject && this.userID == userID && this.homeApp == homeApp
      ensures this.email == email && this.roles == roles
      ensures View() == Resolved([], [], [])
    {
      this.subject, this.userID, this.homeApp, this.email, this.roles := subject, userID, homeApp, email, roles;
      statements, boundRoles, policies := [], [], [];
    }

    function View(): Resolved
      reads this
    {
      Resolved(statements, boundRoles, policies)
    }

    method ResolveStatements(idx: Option<PolicyIndex>)
      modifies this
      ensures View() == ResolveIn(roles, idx)
    {
      statements, boundRoles, policies := [], [], [];
      if idx.None? {
        return;
      }
      for i := 0 to |roles|
        invariant View() == Resolve(roles[..i], idx.value)
      {
        var r := roles[i];
        assert roles[..i + 1][..i] == roles[..i];
        if r in idx.value.rolePolicy {
          var name := idx.value.rolePolicy[r];
          boundRoles := boundRoles + [r];
          if name !in policies {
            policies := policies + [name];
            statements := statements + StatementsOf(idx.value, name);
          }
        }
      }
      assert roles[..|roles|] == roles;
    }
  }

  /** A statement is the principal's exactly when one of its roles is bound to a policy that
      lists it: neither order nor repetition of roles matters. */
  lemma {:induction false} ResolvedMembers(roles: seq<string>, idx: PolicyIndex)
    ensures var r := Resolve(roles, idx);
            && (forall s :: s in r.statements <==>
                  exists role <- roles :: role in idx.rolePolicy && s in StatementsOf(idx, idx.rolePolicy[role]))
            && (forall role :: role in r.boundRoles <==> role in roles && role in idx.rolePolicy)
            && (forall name :: name in r.policies <==>
                  exists role <- roles :: role in idx.rolePolicy && idx.rolePolicy[role] == name)
  {
    if roles != [] {
      var before, role := roles[..|roles| - 1], roles[|roles| - 1];
      ResolvedMembers(before, idx);
      assert roles == before + [role];
      var r := Resolve(before, idx);
      if role in idx.rolePolicy && idx.rolePolicy[role] in r.policies {
        var other :| other in before && other in idx.rolePolicy && idx.rolePolicy[other] == idx.rolePolicy[role];
      }
    }
  }

  /** The bound roles are the principal's own in their order, those that are not bound left out. */
  lemma {:induction false} BoundRolesInOrder(few: seq<string>, more: seq<string>, idx: PolicyIndex)
    ensures Resolve(few + more, idx).boundRoles == Resolve(few, idx).boundRoles + Resolve(more, idx).boundRoles
    ensures (forall r <- few :: r in idx.rolePolicy) ==> Resolve(few, idx).boundRoles == few
    decreases |few| + |more|
  {
    if more == [] {
      assert few + more == few;
      if few != [] {
        var n := |few| - 1;
        BoundRolesInOrder(few[..n], [], idx);
        assert few == few[..n] + [few[n]];
      }
    } else {
      var n := |more| - 1;
      assert (few + more)[..|few + more| - 1] == few + more[..n];
      BoundRolesInOrder(few, more[..n], idx);
    }
  }

  /** What the snapshot says a set of roles may do: some role's last live binding names a policy
      with a covering statement that matches. */
  predicate SnapshotGrants(
      policies: seq<Policy>, bindings: seq<Binding>, roles: set<string>, home: string, perm: string, app: string)
  {
    var byName := PoliciesByName(policies);
    exists i :: 0 <= i < |bindings| && LastLive(bindings, byName.Keys, i) && bindings[i].role in roles
      && exists s <- byName[bindings[i].policy] ::
           CoversApp(s, app, home) && exists a <- s.actions :: MatchAction(a, perm)
  }

  /** A policy that several roles are bound to is taken once, and the statements are those of the
      policies taken, one policy after another. */
  lemma {:induction false} EachPolicyOnce(roles: seq<string>, idx: PolicyIndex)
    ensures var r := Resolve(roles, idx);
            && (forall i, j :: 0 <= i < j < |r.policies| ==> r.policies[i] != r.policies[j])
            && r.statements == AllStatements(idx, r.policies)
  {
    if roles != [] {
      var before := roles[..|roles| - 1];
      EachPolicyOnce(before, idx);
      var names, r := Resolve(before, idx).policies, Resolve(roles, idx);
      if r.policies != names {
        assert r.policies[..|names|] == names;
      }
    }
  }

  /** The statements of all these policies. */
  function AllStatements(idx: PolicyIndex, names: seq<string>): seq<Statement> {
    if names == [] then []
    else AllStatements(idx, names[..|names| - 1]) + StatementsOf(idx, names[|names| - 1])
  }

  /** Binding `i` names policy `j`, no later binding of its role names one that is published, and no
      later policy has that name. */
  predicate LastOfBoth(policies: seq<Policy>, bindings: seq<Binding>, i: nat, j: nat)
    requires i < |bindings| && j < |policies|
  {
    && bindings[i].policy == policies[j].name
    && (forall k, m :: i < k < |bindings| && bindings[k].role == bindings[i].role && 0 <= m < |policies| ==>
          policies[m].name != bindings[k].policy)
    && forall k :: j < k < |policies| ==> policies[k].name != policies[j].name
  }

  /** What the published lists alone say a set of roles may do: of the policy that counts for one of
      them, a statement reaches the application and names the permission. */
  predicate PublishedGrants(
      policies: seq<Policy>, bindings: seq<Binding>, roles: set<string>, home: string, perm: string, app: string)
  {
    exists i, j :: 0 <= i < |bindings| && 0 <= j < |policies| && LastOfBoth(policies, bindings, i, j)
                   && bindings[i].role in roles
                   && exists s <- policies[j].statements :: ReachesApp(s, home, app) && NamesAction(s, perm)
  }

  lemma {:induction false} PublishedNames(policies: seq<Policy>, name: string)
    ensures name in PoliciesByName(policies) <==> exists j :: 0 <= j < |policies| && policies[j].name == name
  {
    if policies != [] {
      PublishedNames(policies[..|policies| - 1], name);
    }
  }

  lemma LastOfBothIff(policies: seq<Policy>, bindings: seq<Binding>, i: nat, j: nat)
    requires i < |bindings| && j < |policies|
    ensures LastOfBoth(policies, bindings, i, j) <==>
            && LastLive(bindings, PoliciesByName(policies).Keys, i)
            && PoliciesByName(policies)[bindings[i].policy] == policies[j].statements
            && LastOfName(policies, j) && policies[j].name == bindings[i].policy
  {
    var byName := PoliciesByName(policies);
    hide PoliciesByName;
    NameKeepsLastPolicy(policies, policies[j].name, policies[j].statements);
    assert policies[j] == Policy(policies[j].name, policies[j].statements);
    forall k | i <= k < |bindings|
      ensures bindings[k].policy in byName <==>
              exists m :: 0 <= m < |policies| && policies[m].name == bindings[k].policy
    {
      PublishedNames(policies, bindings[k].policy);
    }
  }

  lemma PublishedGrantsIff(
      policies: seq<Policy>, bindings: seq<Binding>, roles: set<string>, home: string, perm: string, app: string)
    requires perm != ""
    ensures SnapshotGrants(policies, bindings, roles, home, perm, app) <==>
            PublishedGrants(policies, bindings, roles, home, perm, app)
  {
    var byName := PoliciesByName(policies);
    hide PoliciesByName;
    hide LastOfBoth;
    hide CoversApp;
    hide MatchAction;
    hide ReachesApp;
    hide NamesAction;
    if SnapshotGrants(policies, bindings, roles, home, perm, app) {
      var i :| 0 <= i < |bindings| && LastLive(bindings, byName.Keys, i) && bindings[i].role in roles
        && Granted(byName[bindings[i].policy], home, perm, app);
      var name := bindings[i].policy;
      NameKeepsLastPolicy(policies, name, byName[name]);
      var j :| 0 <= j < |policies| && policies[j] == Policy(name, byName[name]) && LastOfName(policies, j);
      LastOfBothIff(policies, bindings, i, j);
      GrantMeaning(policies[j].statements, home, perm, app);
    }
    if PublishedGrants(policies, bindings, roles, home, perm, app) {
      var i, j :| 0 <= i < |bindings| && 0 <= j < |policies| && LastOfBoth(policies, bindings, i, j)
        && bindings[i].role in roles
        && exists s <- policies[j].statements :: ReachesApp(s, home, app) && NamesAction(s, perm);
      LastOfBothIff(policies, bindings, i, j);
      GrantMeaning(policies[j].statements, home, perm, app);
      assert Granted(byName[bindings[i].policy], home, perm, app);
    }
  }

  /** Enforcement grants what the snapshot grants to the set of the principal's roles. */
  lemma EnforcementMeansSnapshot(
      policies: seq<Policy>, bindings: seq<Binding>, roles: seq<string>, home: string, perm: string, app: string)
    requires perm != ""
    ensures Granted(Resolve(roles, IndexOfSnapshot(policies, bindings)).statements, home, perm, app)
            <==> SnapshotGrants(policies, bindings, (set r <- roles), home, perm, app)
  {
    var idx := IndexOfSnapshot(policies, bindings);
    var names := idx.policies.Keys;
    ResolvedMembers(roles, idx);
    var mine := Resolve(roles, idx).statements;
    if Granted(mine, home, perm, app) {
      var s :| s in mine && CoversApp(s, app, home) && exists a <- s.actions :: MatchAction(a, perm);
      var role :| role in roles && role in idx.rolePolicy && s in StatementsOf(idx, idx.rolePolicy[role]);
      RoleKeepsLastLive(bindings, names, role, idx.rolePolicy[role]);
      var i :| 0 <= i < |bindings| && bindings[i] == Binding(role, idx.rolePolicy[role])
        && LastLive(bindings, names, i);
      assert s in idx.policies[bindings[i].policy];
    }
    if SnapshotGrants(policies, bindings, (set r <- roles), home, perm, app) {
      var i :| 0 <= i < |bindings| && LastLive(bindings, names, i) && bindings[i].role in roles
        && exists s <- idx.policies[bindings[i].policy] ::
             CoversApp(s, app, home) && exists a <- s.actions :: MatchAction(a, perm);
      var s :| s in idx.policies[bindings[i].policy] && CoversApp(s, app, home)
        && exists a <- s.actions :: MatchAction(a, perm);
      RoleKeepsLastLive(bindings, names, bindings[i].role, bindings[i].policy);
      assert s in StatementsOf(idx, idx.rolePolicy[bindings[i].role]);
    }
  }

  /** More roles never lose a grant, and only the set of roles counts. */
  lemma GrantsAreMonotoneInRoles(
      idx: PolicyIndex, few: seq<string>, many: seq<string>, home: string, perm: string, app: string)
    requires forall r <- few :: r in many
    requires Granted(Resolve(few, idx).statements, home, perm, app)
    ensures Granted(Resolve(many, idx).statements, home, perm, app)
  {
    ResolvedMembers(few, idx);
    ResolvedMembers(many, idx);
  }

  // ---- the last policy of a name stands ----

  /** Policy `i` is the last of its name. */
  predicate LastOfName(policies: seq<Policy>, i: nat)
    requires i < |policies|
  {
    forall j :: i < j < |policies| ==> policies[j].name != policies[i].name
  }

  /** Of published policies with one name only the last is kept. */
  lemma {:induction false} NameKeepsLastPolicy(policies: seq<Policy>, name: string, statements: seq<Statement>)
    ensures (name in PoliciesByName(policies) && PoliciesByName(policies)[name] == statements) <==>
            exists i :: 0 <= i < |policies| && policies[i] == Policy(name, statements) && LastOfName(policies, i)
  {
    if policies != [] {
      var n := |policies| - 1;
      var before := policies[..n];
      NameKeepsLastPolicy(before, name, statements);
      assert forall i | 0 <= i < n :: before[i] == policies[i];
      assert LastOfName(policies, n);
      if policies[n].name != name {
        forall i | 0 <= i < n && policies[i].name == name
          ensures LastOfName(policies, i) <==> LastOfName(before, i)
        {
          assert LastOfName(before, i) ==> forall j :: i < j < n ==> before[j].name != name;
        }
      }
    }
  }

  // ---- the last binding stands, not the union ----

  predicate Bound(bindings: seq<Binding>, names: set<string>, roles: set<string>, name: string) {
    exists i :: 0 <= i < |bindings| && bindings[i].role in roles && bindings[i].policy == name && name in names
  }

  predicate LastBound(bindings: seq<Binding>, names: set<string>, roles: set<string>, name: string) {
    exists i :: 0 <= i < |bindings| && bindings[i].role in roles && bindings[i].policy == name
      && LastLive(bindings, names, i)
  }

  /** What the roles may do when every live binding of a role counts. */
  ghost predicate UnionGrants(
      contents: map<string, seq<Statement>>, bindings: seq<Binding>, roles: set<string>,
      home: string, perm: string, app: string)
  {
    exists name :: name in contents && Bound(bindings, contents.Keys, roles, name)
                   && Granted(contents[name], home, perm, app)
  }

  /** The same, read off the published lists. */
  ghost predicate ListGrants(
      policies: seq<Policy>, bindings: seq<Binding>, roles: set<string>, home: string, perm: string, app: string)
  {
    exists i :: 0 <= i < |policies| && BoundPolicy(bindings, roles, policies[i].name)
                && Granted(policies[i].statements, home, perm, app)
  }

  predicate BoundPolicy(bindings: seq<Binding>, roles: set<string>, name: string) {
    exists i :: 0 <= i < |bindings| && bindings[i].role in roles && bindings[i].policy == name
  }

  /** With distinct policy names the union over the lists is the union over the names; of two policies
      of one name the earlier is lost to both readings (`NameKeepsLastPolicy`). */
  lemma UnionOverLists(
      policies: seq<Policy>, bindings: seq<Binding>, roles: set<string>, home: string, perm: string, app: string)
    requires forall i :: 0 <= i < |policies| ==> LastOfName(policies, i)
    ensures ListGrants(policies, bindings, roles, home, perm, app) <==>
            UnionGrants(PoliciesByName(policies), bindings, roles, home, perm, app)
  {
    var byName := PoliciesByName(policies);
    if ListGrants(policies, bindings, roles, home, perm, app) {
      var i :| 0 <= i < |policies| && BoundPolicy(bindings, roles, policies[i].name)
        && Granted(policies[i].statements, home, perm, app);
      NameKeepsLastPolicy(policies, policies[i].name, policies[i].statements);
      assert Bound(bindings, byName.Keys, roles, policies[i].name);
    }
    if UnionGrants(byName, bindings, roles, home, perm, app) {
      var name :| name in byName && Bound(bindings, byName.Keys, roles, name) && Granted(byName[name], home, perm, app);
      NameKeepsLastPolicy(policies, name, byName[name]);
      var i :| 0 <= i < |policies| && policies[i] == Policy(name, byName[name]);
      assert BoundPolicy(bindings, roles, policies[i].name);
    }
  }

  /** What they may do when only a role's last live binding counts. */
  ghost predicate LastGrants(
      contents: map<string, seq<Statement>>, bindings: seq<Binding>, roles: set<string>,
      home: string, perm: string, app: string)
  {
    exists name :: name in contents && LastBound(bindings, contents.Keys, roles, name)
                   && Granted(contents[name], home, perm, app)
  }

  /** The second reading is the one that is enforced. */
  lemma EnforcementReadsLast(
      policies: seq<Policy>, bindings: seq<Binding>, roles: set<string>, home: string, perm: string, app: string)
    requires perm != ""
    ensures SnapshotGrants(policies, bindings, roles, home, perm, app)
            <==> LastGrants(PoliciesByName(policies), bindings, roles, home, perm, app)
  {
  }

  /** Whatever the policies contain, the two readings grant the same. */
  ghost predicate ReadingsAgree(bindings: seq<Binding>, names: set<string>, roles: set<string>) {
    forall contents: map<string, seq<Statement>>, home, perm, app | contents.Keys == names && perm != "" ::
      UnionGrants(contents, bindings, roles, home, perm, app)
      <==> LastGrants(contents, bindings, roles, home, perm, app)
  }

  /** The file's comment promises the union over every policy bound to a role; the index keeps one
      policy per role, and one per name, so names are taken to be distinct here. The two agree for all
      policy contents exactly when each policy bound to the principal's roles is some role's last live
      binding. */
  lemma ReadingsAgreeIff(bindings: seq<Binding>, names: set<string>, roles: set<string>)
    ensures ReadingsAgree(bindings, names, roles) <==>
            forall name :: Bound(bindings, names, roles, name) ==> LastBound(bindings, names, roles, name)
  {
    if name :| Bound(bindings, names, roles, name) && !LastBound(bindings, names, roles, name) {
      var all := [Statement(["*"], ["*"])];
      var contents := map n | n in names :: if n == name then all else [];
      assert contents.Keys == names;
      assert MatchApp("*", "a", "") && CoversApp(all[0], "a", "") && MatchAction("*", "p");
      assert Granted(contents[name], "", "p", "a");
      assert UnionGrants(contents, bindings, roles, "", "p", "a");
      assert !LastGrants(contents, bindings, roles, "", "p", "a");
    }
  }

  /** One role bound to two policies keeps only the second: what the first grants is refused, though
      the union of both would grant it. */
  lemma TwoLiveBindingsKeepOne()
    ensures var policies := [Policy("p", [Statement(["doc.read"], ["*"])]), Policy("q", [])];
            var bindings := [Binding("r", "p"), Binding("r", "q")];
            && !Granted(Resolve(["r"], IndexOfSnapshot(policies, bindings)).statements, "", "doc.read", "a")
            && UnionGrants(PoliciesByName(policies), bindings, {"r"}, "", "doc.read", "a")
  {
    var policies := [Policy("p", [Statement(["doc.read"], ["*"])]), Policy("q", [])];
    var bindings := [Binding("r", "p"), Binding("r", "q")];
    var idx := IndexOfSnapshot(policies, bindings);
    assert policies[..1] == [policies[0]] && bindings[..1] == [bindings[0]];
    assert PoliciesByName(policies[..1]) == map["p" := policies[0].statements];
    assert PoliciesByName(policies[..1])["q" := []] == idx.policies;
    assert PolicyByRole(bindings[..1], idx.policies.Keys)["r" := "q"] == idx.rolePolicy;
    ResolvedMembers(["r"], idx);
    assert bindings[0].role in {"r"} && bindings[0].policy == "p";
    var st := policies[0].statements[0];
    assert MatchApp(st.apps[0], "a", "") && MatchAction(st.actions[0], "doc.read");
    assert CoversApp(st, "a", "") && st in idx.policies["p"];
  }
}
