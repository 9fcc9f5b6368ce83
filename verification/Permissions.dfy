/** Introspection: the action patterns a principal holds per application, and their agreement
    with enforcement (authz.go, policy.go). */
module Permissions {
  import opened Authz

  // ---- byte order on strings ----

  predicate Less(a: string, b: string) {
    b != "" && (a == "" || a[0] < b[0] || (a[0] == b[0] && Less(a[1..], b[1..])))
  }

  lemma {:induction false} LessIsStrict(a: string)
    ensures !Less(a, a)
  {
    if a != "" {
      LessIsStrict(a[1..]);
    }
  }

  lemma {:induction false} LessTransitive(a: string, b: string, c: string)
    requires Less(a, b) && Less(b, c)
    ensures Less(a, c)
  {
    if a != "" && a[0] == b[0] == c[0] {
      LessTransitive(a[1..], b[1..], c[1..]);
    }
  }

  lemma {:induction false} LessTotal(a: string, b: string)
    ensures a == b || Less(a, b) || Less(b, a)
  {
    if a != "" && b != "" && a[0] == b[0] {
      LessTotal(a[1..], b[1..]);
      assert a == [a[0]] + a[1..] && b == [b[0]] + b[1..];
    }
  }

  /** One string is a proper prefix of the other, or smaller where they first differ. */
  lemma {:induction false} LessMeaning(a: string, b: string)
    ensures Less(a, b) <==>
            a < b || exists k :: 0 <= k < |a| && k < |b| && a[..k] == b[..k] && a[k] < b[k]
  {
    if a != "" && b != "" {
      LessMeaning(a[1..], b[1..]);
      assert a == [a[0]] + a[1..] && b == [b[0]] + b[1..];
      if k :| a[0] == b[0] && 0 <= k < |a| - 1 && k < |b| - 1 && a[1..][..k] == b[1..][..k] && a[1..][k] < b[1..][k] {
        assert a[..k + 1] == [a[0]] + a[1..][..k] && b[..k + 1] == [b[0]] + b[1..][..k];
        assert a[k + 1] < b[k + 1];
      }
      if a[0] < b[0] {
        assert a[..0] == b[..0];
      }
      if k :| 0 <= k < |a| && k < |b| && a[..k] == b[..k] && a[k] < b[k] {
        if k > 0 {
          assert a[0] == a[..k][0] == b[..k][0] == b[0];
          assert a[1..][..k - 1] == a[..k][1..] && b[1..][..k - 1] == b[..k][1..];
          assert a[1..][k - 1] < b[1..][k - 1];
        }
      }
    }
  }

  predicate StrictlySorted(list: seq<string>) {
    forall i, j :: 0 <= i < j < |list| ==> Less(list[i], list[j])
  }

  function Elements(list: seq<string>): set<string> {
    set a | a in list
  }

  /** A set of strings has one strictly sorted listing. */
  lemma {:induction false} SortedListingUnique(xs: seq<string>, ys: seq<string>)
    requires StrictlySorted(xs) && StrictlySorted(ys)
    requires Elements(xs) == Elements(ys)
    ensures xs == ys
    decreases |xs|
  {
    EmptyElements(xs);
    EmptyElements(ys);
    if xs != [] {
      assert xs[0] in Elements(ys) && (ys != [] ==> ys[0] in Elements(xs));
      var i :| 0 <= i < |ys| && ys[i] == xs[0];
      var j :| 0 <= j < |xs| && xs[j] == ys[0];
      if i > 0 && j > 0 {
        LessTransitive(ys[0], xs[0], ys[0]);
      }
      LessIsStrict(ys[0]);
      assert xs[0] == ys[0];
      TailElements(xs);
      TailElements(ys);
      SortedListingUnique(xs[1..], ys[1..]);
    }
  }

  lemma EmptyElements(xs: seq<string>)
    ensures Elements(xs) == {} <==> xs == []
  {
    if xs != [] {
      assert xs[0] in Elements(xs);
    }
  }

  lemma TailElements(xs: seq<string>)
    requires xs != [] && StrictlySorted(xs)
    ensures Elements(xs[1..]) == Elements(xs) - {xs[0]}
  {
    LessIsStrict(xs[0]);
    assert xs == [xs[0]] + xs[1..];
    forall a | a in Elements(xs[1..]) ensures a != xs[0] {
      var i :| 0 <= i < |xs| - 1 && xs[1..][i] == a;
      assert Less(xs[0], xs[i + 1]);
    }
  }

  /** sort.Strings on a list without repetitions. */
  method SortStrings(list: seq<string>) returns (sorted: seq<string>)
    requires forall i, j :: 0 <= i < j < |list| ==> list[i] != list[j]
    ensures StrictlySorted(sorted) && Elements(sorted) == Elements(list)
  {
    sorted := [];
    for n := 0 to |list|
      invariant StrictlySorted(sorted) && Elements(sorted) == Elements(list[..n])
    {
      var a := list[n];
      assert list[..n + 1] == list[..n] + [a];
      assert a !in list[..n];
      var k := 0;
      while k < |sorted| && Less(sorted[k], a)
        invariant k <= |sorted|
        invariant forall i :: 0 <= i < k ==> Less(sorted[i], a)
      {
        k := k + 1;
      }
      InsertKeepsSorted(sorted, a, k);
      sorted := sorted[..k] + [a] + sorted[k..];
    }
    assert list[..|list|] == list;
  }

  lemma InsertKeepsSorted(sorted: seq<string>, a: string, k: nat)
    requires StrictlySorted(sorted) && a !in Elements(sorted) && k <= |sorted|
    requires forall i :: 0 <= i < k ==> Less(sorted[i], a)
    requires k < |sorted| ==> !Less(sorted[k], a)
    ensures var longer := sorted[..k] + [a] + sorted[k..];
            StrictlySorted(longer) && Elements(longer) == Elements(sorted) + {a}
  {
    forall i | k <= i < |sorted| ensures Less(a, sorted[i]) {
      LessTotal(a, sorted[k]);
      assert sorted[k] in Elements(sorted);
      if k < i {
        LessTransitive(a, sorted[k], sorted[i]);
      }
    }
    assert sorted == sorted[..k] + sorted[k..];
  }

  // ---- permissions by application ----

  /** Every action pattern that some statement covering `app` lists. */
  function PatternsOn(statements: seq<Statement>, home: string, app: string): (patterns: set<string>)
    ensures forall a :: a in patterns <==> exists s <- statements :: CoversApp(s, app, home) && a in s.actions
  {
    if statements == [] then {}
    else
      var last, before := statements[|statements| - 1], statements[..|statements| - 1];
      assert statements == before + [last];
      PatternsOn(before, home, app) + (if CoversApp(last, app, home) then Elements(last.actions) else {})
  }

  /** `out` lists, sorted and without repetition, exactly the patterns held on each active
      application, and leaves out applications where none is. */
  ghost predicate IsListing(
      out: map<string, seq<string>>, statements: seq<Statement>, home: string, activeApps: set<string>)
  {
    && (forall app :: app in out <==> app in activeApps && PatternsOn(statements, home, app) != {})
    && (forall app | app in out ::
          StrictlySorted(out[app]) && Elements(out[app]) == PatternsOn(statements, home, app))
  }

  method PermissionsByApp(statements: seq<Statement>, home: string, activeApps: seq<string>)
    returns (out: map<string, seq<string>>)
    ensures IsListing(out, statements, home, Elements(activeApps))
  {
    out := map[];
    for i := 0 to |activeApps|
      invariant IsListing(out, statements, home, Elements(activeApps[..i]))
    {
      var app := activeApps[i];
      assert activeApps[..i + 1] == activeApps[..i] + [app];
      var seen := CollectPatterns(statements, home, app);
      if seen != {} {
        var list := ListOf(seen);
        list := SortStrings(list);
        out := out[app := list];
      }
    }
    assert activeApps[..|activeApps|] == activeApps;
  }

  method CollectPatterns(statements: seq<Statement>, home: string, app: string) returns (seen: set<string>)
    ensures seen == PatternsOn(statements, home, app)
  {
    seen := {};
    for i := 0 to |statements|
      invariant seen == PatternsOn(statements[..i], home, app)
    {
      var s := statements[i];
      assert statements[..i + 1][..i] == statements[..i];
      if CoversApp(s, app, home) {
        ghost var before := seen;
        for j := 0 to |s.actions|
          invariant seen == before + Elements(s.actions[..j])
        {
          assert s.actions[..j + 1] == s.actions[..j] + [s.actions[j]];
          seen := seen + {s.actions[j]};
        }
        assert s.actions[..|s.actions|] == s.actions;
      }
    }
    assert statements[..|statements|] == statements;
  }

  /** Ranging over a Go map: every key once, in no particular order. */
  method ListOf(names: set<string>) returns (list: seq<string>)
    ensures Elements(list) == names
    ensures forall i, j :: 0 <= i < j < |list| ==> list[i] != list[j]
  {
    list := [];
    var rest := names;
    while rest != {}
      invariant rest <= names && Elements(list) == names - rest
      invariant forall i, j :: 0 <= i < j < |list| ==> list[i] != list[j]
      decreases rest
    {
      var a :| a in rest;
      assert a !in Elements(list);
      assert forall i | 0 <= i < |list| :: list[i] in Elements(list);
      assert Elements(list + [a]) == Elements(list) + {a};
      list := list + [a];
      rest := rest - {a};
    }
  }

  /** The listing is a function of the statements and the set of active applications: the order
      in which Go ranges over its maps cannot show. */
  lemma ListingUnique(
      x: map<string, seq<string>>, y: map<string, seq<string>>,
      statements: seq<Statement>, home: string, activeApps: set<string>)
    requires IsListing(x, statements, home, activeApps) && IsListing(y, statements, home, activeApps)
    ensures x == y
  {
    assert x.Keys == y.Keys;
    forall app | app in x ensures x[app] == y[app] {
      SortedListingUnique(x[app], y[app]);
    }
  }

  /** Introspection agrees with enforcement: on an active application a permission is granted
      exactly when one of the listed patterns matches it. */
  lemma IntrospectionAgrees(
      out: map<string, seq<string>>, statements: seq<Statement>, home: string, activeApps: set<string>,
      perm: string, app: string)
    requires IsListing(out, statements, home, activeApps)
    requires perm != "" && app in activeApps
    ensures Granted(statements, home, perm, app) <==>
            app in out && exists a <- out[app] :: MatchAction(a, perm)
  {
    if Granted(statements, home, perm, app) {
      var s :| s in statements && CoversApp(s, app, home) && exists a <- s.actions :: MatchAction(a, perm);
      var a :| a in s.actions && MatchAction(a, perm);
      assert a in PatternsOn(statements, home, app);
      assert a in Elements(out[app]);
    }
    if app in out && exists a <- out[app] :: MatchAction(a, perm) {
      var a :| a in out[app] && MatchAction(a, perm);
      assert a in Elements(out[app]);
    }
  }

  /** A listed "*" is exactly what stamps the admin header. */
  lemma ListedStarIsWildcard(
      out: map<string, seq<string>>, statements: seq<Statement>, home: string, activeApps: set<string>, app: string)
    requires IsListing(out, statements, home, activeApps) && app in activeApps
    ensures IsWildcard(statements, home, app) <==> app in out && "*" in out[app]
  {
    if IsWildcard(statements, home, app) {
      assert "*" in PatternsOn(statements, home, app);
      assert "*" in Elements(out[app]);
    }
    if app in out && "*" in out[app] {
      assert "*" in Elements(out[app]);
    }
  }
}
