/** The host registry: which application a request host belongs to (registry.go). */
module Registry {
  import opened Text

  datatype HostEntry = HostEntry(appId: string, status: string)

  datatype AppEntry = AppEntry(appId: string, status: string)

  datatype RegistryDto = RegistryDto(version: string, hosts: map<string, HostEntry>, apps: seq<AppEntry>)

  datatype Wildcard = Wildcard(suffix: string, appId: string)

  /** What lookups read. */
  datatype Tables = Tables(
    byHost: map<string, string>, wildcards: seq<Wildcard>, active: set<string>, version: string, loaded: bool)

  const COLD := Tables(map[], [], {}, "", false)

  /** strings.EqualFold(status, "active"); no letter of the word has a fold outside ASCII. */
  predicate IsActiveStatus(status: string) {
    |status| == 6 && forall i :: 0 <= i < 6 ==>
      status[i] == "active"[i] || status[i] == "ACTIVE"[i]
  }

  /** A letter's small form. */
  function Lower(c: char): char {
    if 'A' <= c <= 'Z' then (c as int + 32) as char else c
  }

  /** The status reads "active", whatever the case of its letters. */
  predicate SaysActive(status: string) {
    |status| == 6 && forall i :: 0 <= i < 6 ==> Lower(status[i]) == "active"[i]
  }

  lemma ActiveStatusMeaning(status: string)
    ensures IsActiveStatus(status) <==> SaysActive(status)
    ensures IsActiveStatus("Active") && !IsActiveStatus("suspended") && !IsActiveStatus("")
  {
  }

  predicate IsWildcardName(name: string) {
    HasPrefix(name, "*.")
  }

  // ---- building the tables in one iteration order ----

  /** One host of the snapshot, in the loop over the host map. */
  function AddHost(t: Tables, name: string, entry: HostEntry): Tables {
    if !IsActiveStatus(entry.status) then t
    else if IsWildcardName(name) then t.(wildcards := t.wildcards + [Wildcard(name[1..], entry.appId)])
    else t.(byHost := t.byHost[name := entry.appId])
  }

  /** The host tables after visiting `order`, with hosts brought to canonical form by `norm`. */
  function Visit(norm: string -> string, hosts: map<string, HostEntry>, order: seq<string>): Tables {
    if order == [] then COLD
    else
      var before, host := Visit(norm, hosts, order[..|order| - 1]), order[|order| - 1];
      if host in hosts then AddHost(before, norm(host), hosts[host]) else before
  }

  /** Every key of the map, once each. */
  ghost predicate IsOrder(hosts: map<string, HostEntry>, order: seq<string>) {
    && (forall h :: h in hosts <==> h in order)
    && (forall i, j :: 0 <= i < j < |order| ==> order[i] != order[j])
  }

  function ActiveApps(t: Tables, apps: seq<AppEntry>): set<string> {
    (set a | a in apps && IsActiveStatus(a.status) && a.appId != "" :: a.appId)
    + (set h | h in t.byHost :: t.byHost[h])
    + (set w | w in t.wildcards :: w.appId)
  }

  /** The tables one refresh installs if the host map is visited in `order`. */
  function Built(norm: string -> string, snap: RegistryDto, order: seq<string>): Tables {
    var t := Visit(norm, snap.hosts, order);
    t.(active := ActiveApps(t, snap.apps), version := snap.version, loaded := true)
  }

  // ---- lookups ----

  /** The first wildcard whose suffix ends the name. */
  function FirstWildcard(wildcards: seq<Wildcard>, name: string): Option<string> {
    if wildcards == [] then None
    else if HasSuffix(name, wildcards[0].suffix) then Some(wildcards[0].appId)
    else FirstWildcard(wildcards[1..], name)
  }

  function ResolveName(t: Tables, name: string): Option<string> {
    if name in t.byHost then Some(t.byHost[name]) else FirstWildcard(t.wildcards, name)
  }

  /** Every application a lookup can answer is active. */
  ghost predicate AnswersAreActive(t: Tables) {
    && (forall h | h in t.byHost :: t.byHost[h] in t.active)
    && (forall w <- t.wildcards :: w.appId in t.active)
  }

  class AppRegistryCache {
    const normalize: string -> string
    var byHost: map<string, string>
    var wildcards: seq<Wildcard>
    var active: set<string>
    var version: string
    var loaded: bool

    function View(): Tables
      reads this
    {
      Tables(byHost, wildcards, active, version, loaded)
    }

    ghost predicate Valid()
      reads this
    {
      AnswersAreActive(View())
    }

    constructor (normalize: string -> string)
      ensures Valid() && View() == COLD && this.normalize == normalize
    {
      this.normalize := normalize;
      byHost, wildcards, active, version, loaded := map[], [], {}, "", false;
    }

    /** One poll: None stands for any failure to fetch or parse, and keeps the last good tables.
        The host map is visited in some order of its keys. */
    method Refresh(fetched: Option<RegistryDto>) returns (ghost order: seq<string>)
      requires Valid()
      modifies this
      ensures Valid()
      ensures fetched.None? ==> View() == old(View())
      ensures fetched.Some? ==>
                IsOrder(fetched.value.hosts, order) && View() == Built(normalize, fetched.value, order)
    {
      order := [];
      if fetched.None? {
        return;
      }
      var snap := fetched.value;
      var hosts: map<string, string> := map[];
      var suffixes: seq<Wildcard> := [];
      var rest := snap.hosts.Keys;
      while rest != {}
        invariant rest <= snap.hosts.Keys
        invariant forall h :: h in order <==> h in snap.hosts && h !in rest
        invariant forall i, j :: 0 <= i < j < |order| ==> order[i] != order[j]
        invariant Visit(normalize, snap.hosts, order) == COLD.(byHost := hosts, wildcards := suffixes)
        decreases rest
      {
        var host :| host in rest;
        ghost var visited := order;
        order := order + [host];
        assert order[..|visited|] == visited;
        rest := rest - {host};
        var entry := snap.hosts[host];
        if IsActiveStatus(entry.status) {
          var nh := normalize(host);
          if IsWildcardName(nh) {
            suffixes := suffixes + [Wildcard(nh[1..], entry.appId)];
          } else {
            hosts := hosts[nh := entry.appId];
          }
        }
      }
      var ids := CollectActive(hosts, suffixes, snap.apps);
      byHost, wildcards, active := hosts, suffixes, ids;
      version, loaded := snap.version, true;
    }

    method ResolveHost(host: string) returns (app: Option<string>)
      requires Valid()
      ensures app == ResolveName(View(), normalize(host))
      ensures app.Some? ==> app.value in active
    {
      var nh := normalize(host);
      if nh in byHost {
        return Some(byHost[nh]);
      }
      for i := 0 to |wildcards|
        invariant FirstWildcard(wildcards, nh) == FirstWildcard(wildcards[i..], nh)
      {
        if HasSuffix(nh, wildcards[i].suffix) {
          return Some(wildcards[i].appId);
        }
        assert wildcards[i..][1..] == wildcards[i + 1..];
      }
      app := None;
    }
  }

  method CollectActive(hosts: map<string, string>, suffixes: seq<Wildcard>, apps: seq<AppEntry>)
    returns (ids: set<string>)
    ensures ids == ActiveApps(COLD.(byHost := hosts, wildcards := suffixes), apps)
  {
    ids := {};
    for i := 0 to |apps|
      invariant ids == set a | a in apps[..i] && IsActiveStatus(a.status) && a.appId != "" :: a.appId
    {
      assert apps[..i + 1] == apps[..i] + [apps[i]];
      if IsActiveStatus(apps[i].status) && apps[i].appId != "" {
        ids := ids + {apps[i].appId};
      }
    }
    assert apps[..|apps|] == apps;
    ids := ids + (set h | h in hosts :: hosts[h]);
    for i := 0 to |suffixes|
      invariant ids == (set a | a in apps && IsActiveStatus(a.status) && a.appId != "" :: a.appId)
                       + (set h | h in hosts :: hosts[h])
                       + (set w | w in suffixes[..i] :: w.appId)
    {
      assert suffixes[..i + 1] == suffixes[..i] + [suffixes[i]];
      ids := ids + {suffixes[i].appId};
    }
    assert suffixes[..|suffixes|] == suffixes;
  }

  // ---- answers do not depend on the iteration order ----

  predicate Exact(norm: string -> string, hosts: map<string, HostEntry>, h: string) {
    h in hosts && IsActiveStatus(hosts[h].status) && !IsWildcardName(norm(h))
  }

  predicate Wild(norm: string -> string, hosts: map<string, HostEntry>, h: string) {
    h in hosts && IsActiveStatus(hosts[h].status) && IsWildcardName(norm(h))
  }

  /** Active hosts that can answer for one name agree on the application: exact hosts with one
      canonical form, and wildcards of which one's suffix ends the other's. */
  ghost predicate Unambiguous(norm: string -> string, hosts: map<string, HostEntry>) {
    && (forall g, h | Exact(norm, hosts, g) && Exact(norm, hosts, h) && norm(g) == norm(h) ::
          hosts[g].appId == hosts[h].appId)
    && (forall g, h | Wild(norm, hosts, g) && Wild(norm, hosts, h) && HasSuffix(norm(g)[1..], norm(h)[1..]) ::
          hosts[g].appId == hosts[h].appId)
  }

  ghost predicate OrderIndependent(norm: string -> string, snap: RegistryDto) {
    forall o1, o2, name | IsOrder(snap.hosts, o1) && IsOrder(snap.hosts, o2) ::
      ResolveName(Built(norm, snap, o1), name) == ResolveName(Built(norm, snap, o2), name)
  }

  predicate ExactFor(norm: string -> string, hosts: map<string, HostEntry>, h: string, name: string, app: string) {
    Exact(norm, hosts, h) && norm(h) == name && hosts[h].appId == app
  }

  predicate WildFor(norm: string -> string, hosts: map<string, HostEntry>, h: string, w: Wildcard) {
    Wild(norm, hosts, h) && w == Wildcard(norm(h)[1..], hosts[h].appId)
  }

  /** An exact entry comes from a visited host, and every visited exact host has one. */
  lemma {:induction false} VisitExact(
      norm: string -> string, hosts: map<string, HostEntry>, order: seq<string>, name: string)
    ensures var t := Visit(norm, hosts, order);
            && (name in t.byHost ==> exists h <- order :: ExactFor(norm, hosts, h, name, t.byHost[name]))
            && forall h <- order :: Exact(norm, hosts, h) && norm(h) == name ==> name in t.byHost
  {
    if order != [] {
      var before, host := order[..|order| - 1], order[|order| - 1];
      VisitExact(norm, hosts, before, name);
      assert order == before + [host];
      var t := Visit(norm, hosts, order);
      if name in t.byHost {
        if Exact(norm, hosts, host) && norm(host) == name {
          assert ExactFor(norm, hosts, host, name, t.byHost[name]);
        } else {
          assert t.byHost[name] == Visit(norm, hosts, before).byHost[name];
          var h :| h in before && ExactFor(norm, hosts, h, name, t.byHost[name]);
          assert h in order;
        }
      }
    }
  }

  /** The wildcard list holds exactly the visited wildcard hosts. */
  lemma {:induction false} VisitWild(
      norm: string -> string, hosts: map<string, HostEntry>, order: seq<string>, w: Wildcard)
    ensures w in Visit(norm, hosts, order).wildcards <==> exists h <- order :: WildFor(norm, hosts, h, w)
  {
    if order != [] {
      var before, host := order[..|order| - 1], order[|order| - 1];
      VisitWild(norm, hosts, before, w);
      assert order == before + [host];
      assert WildFor(norm, hosts, host, w) ==> w in Visit(norm, hosts, order).wildcards;
      if w in Visit(norm, hosts, order).wildcards && !WildFor(norm, hosts, host, w) {
        assert w in Visit(norm, hosts, before).wildcards;
      }
    }
  }

  /** The first wildcard that matches is one that matches. */
  lemma {:induction false} FirstWildcardMembers(wildcards: seq<Wildcard>, name: string)
    ensures var r := FirstWildcard(wildcards, name);
            && (r.None? <==> forall w <- wildcards :: !HasSuffix(name, w.suffix))
            && (r.Some? ==> exists w <- wildcards :: HasSuffix(name, w.suffix) && w.appId == r.value)
  {
    if wildcards != [] {
      FirstWildcardMembers(wildcards[1..], name);
      assert wildcards == [wildcards[0]] + wildcards[1..];
    }
  }

  /** Of two suffixes of one name, one ends the other. */
  lemma SuffixesNest(name: string, a: string, b: string)
    requires HasSuffix(name, a) && HasSuffix(name, b) && |b| <= |a|
    ensures HasSuffix(a, b)
  {
    assert a[|a| - |b|..] == name[|name| - |b|..];
  }

  /** An exact entry always beats a wildcard, and every answer comes from an active host. */
  lemma AnswerComesFromActiveHost(norm: string -> string, snap: RegistryDto, order: seq<string>, name: string)
    requires IsOrder(snap.hosts, order)
    ensures var r := ResolveName(Built(norm, snap, order), name);
            if exists h :: Exact(norm, snap.hosts, h) && norm(h) == name
            then r.Some? && exists h :: ExactFor(norm, snap.hosts, h, name, r.value)
            else
              && (r.Some? ==> exists h :: Wild(norm, snap.hosts, h) && HasSuffix(name, norm(h)[1..])
                                          && snap.hosts[h].appId == r.value)
              && (r.None? <==> forall h | Wild(norm, snap.hosts, h) :: !HasSuffix(name, norm(h)[1..]))
  {
    var t := Visit(norm, snap.hosts, order);
    VisitExact(norm, snap.hosts, order, name);
    if h :| Exact(norm, snap.hosts, h) && norm(h) == name {
      assert h in order;
    } else {
      assert name !in t.byHost;
      FirstWildcardMembers(t.wildcards, name);
      var r := FirstWildcard(t.wildcards, name);
      if r.Some? {
        var w :| w in t.wildcards && HasSuffix(name, w.suffix) && w.appId == r.value;
        VisitWild(norm, snap.hosts, order, w);
      }
      forall h | Wild(norm, snap.hosts, h) && r.None? ensures !HasSuffix(name, norm(h)[1..]) {
        var w := Wildcard(norm(h)[1..], snap.hosts[h].appId);
        assert h in order && WildFor(norm, snap.hosts, h, w);
        VisitWild(norm, snap.hosts, order, w);
      }
    }
  }

  /** Host `h` of the snapshot is active and is `name` in canonical form. */
  predicate Answers(norm: string -> string, hosts: map<string, HostEntry>, h: string, name: string) {
    h in hosts && SaysActive(hosts[h].status) && norm(h) == name && !("*." <= name)
  }

  /** Host `h` of the snapshot is active and reads "*." and then something, and `name` ends in a dot and
      that. */
  predicate Covers(norm: string -> string, hosts: map<string, HostEntry>, h: string, name: string) {
    && h in hosts && SaysActive(hosts[h].status) && "*." <= norm(h)
    && |name| >= |norm(h)| - 1 && name[|name| - (|norm(h)| - 1)..] == "." + norm(h)[2..]
  }

  lemma PublishedTerms(norm: string -> string, hosts: map<string, HostEntry>, name: string)
    ensures forall h :: Answers(norm, hosts, h, name) <==> Exact(norm, hosts, h) && norm(h) == name
    ensures forall h :: Covers(norm, hosts, h, name) <==> Wild(norm, hosts, h) && HasSuffix(name, norm(h)[1..])
  {
    forall h
      ensures Answers(norm, hosts, h, name) <==> Exact(norm, hosts, h) && norm(h) == name
      ensures Covers(norm, hosts, h, name) <==> Wild(norm, hosts, h) && HasSuffix(name, norm(h)[1..])
    {
      if h in hosts {
        ActiveStatusMeaning(hosts[h].status);
        hide IsActiveStatus, SaysActive;
        if "*." <= norm(h) {
          assert norm(h)[1..] == "." + norm(h)[2..];
        }
      }
    }
  }

  /** Who answers for a name, in the published terms: an active host that is that name if there is one,
      else an active wildcard that covers it, else nobody; a host of any other status counts for
      nothing. */
  lemma ResolvedMeaning(norm: string -> string, snap: RegistryDto, order: seq<string>, name: string)
    requires IsOrder(snap.hosts, order)
    ensures var r := ResolveName(Built(norm, snap, order), name);
            if exists h :: Answers(norm, snap.hosts, h, name)
            then r.Some? && exists h :: Answers(norm, snap.hosts, h, name) && snap.hosts[h].appId == r.value
            else
              && (r.Some? ==> exists h :: Covers(norm, snap.hosts, h, name) && snap.hosts[h].appId == r.value)
              && (r.None? <==> forall h :: !Covers(norm, snap.hosts, h, name))
  {
    AnswerComesFromActiveHost(norm, snap, order, name);
    var r := ResolveName(Built(norm, snap, order), name);
    hide Built, ResolveName, IsOrder;
    PublishedTerms(norm, snap.hosts, name);
    hide Exact, Wild, Answers, Covers;
    if h :| Exact(norm, snap.hosts, h) && norm(h) == name {
      var g :| ExactFor(norm, snap.hosts, g, name, r.value);
      assert Answers(norm, snap.hosts, g, name);
    }
  }

  /** With unambiguous hosts the iteration order cannot show in an answer. */
  lemma UnambiguousIsOrderIndependent(
      norm: string -> string, snap: RegistryDto, o1: seq<string>, o2: seq<string>, name: string)
    requires Unambiguous(norm, snap.hosts)
    requires IsOrder(snap.hosts, o1) && IsOrder(snap.hosts, o2)
    ensures ResolveName(Built(norm, snap, o1), name) == ResolveName(Built(norm, snap, o2), name)
  {
    AnswerComesFromActiveHost(norm, snap, o1, name);
    AnswerComesFromActiveHost(norm, snap, o2, name);
    var r1, r2 := ResolveName(Built(norm, snap, o1), name), ResolveName(Built(norm, snap, o2), name);
    if r1.Some? && r2.Some? && !exists h :: Exact(norm, snap.hosts, h) && norm(h) == name {
      var g :| Wild(norm, snap.hosts, g) && HasSuffix(name, norm(g)[1..]) && snap.hosts[g].appId == r1.value;
      var h :| Wild(norm, snap.hosts, h) && HasSuffix(name, norm(h)[1..]) && snap.hosts[h].appId == r2.value;
      if |norm(h)| <= |norm(g)| {
        SuffixesNest(name, norm(g)[1..], norm(h)[1..]);
      } else {
        SuffixesNest(name, norm(h)[1..], norm(g)[1..]);
      }
    }
  }

  /** An order that visits `h` last, and one that visits it first. */
  lemma OrderEndingIn(hosts: map<string, HostEntry>, h: string) returns (last: seq<string>, first: seq<string>)
    requires h in hosts
    ensures IsOrder(hosts, last) && last != [] && last[|last| - 1] == h
    ensures IsOrder(hosts, first) && first != [] && first[0] == h
  {
    var rest := SomeOrder(hosts.Keys - {h});
    last, first := rest + [h], [h] + rest;
  }

  lemma SomeOrder(names: set<string>) returns (order: seq<string>)
    ensures forall h :: h in names <==> h in order
    ensures forall i, j :: 0 <= i < j < |order| ==> order[i] != order[j]
  {
    if names == {} {
      order := [];
    } else {
      var h :| h in names;
      var rest := SomeOrder(names - {h});
      order := rest + [h];
    }
  }

  lemma ExactVisitedLast(norm: string -> string, snap: RegistryDto, order: seq<string>, h: string)
    requires order != [] && order[|order| - 1] == h && Exact(norm, snap.hosts, h)
    ensures ResolveName(Built(norm, snap, order), norm(h)) == Some(snap.hosts[h].appId)
  {
  }

  lemma {:induction false} WildcardsExtend(norm: string -> string, hosts: map<string, HostEntry>, order: seq<string>)
    requires order != [] && Wild(norm, hosts, order[0])
    ensures var ws := Visit(norm, hosts, order).wildcards;
            ws != [] && WildFor(norm, hosts, order[0], ws[0])
  {
    if |order| > 1 {
      WildcardsExtend(norm, hosts, order[..|order| - 1]);
    } else {
      assert order[..0] == [];
    }
  }

  lemma WildVisitedFirst(norm: string -> string, snap: RegistryDto, order: seq<string>, h: string, name: string)
    requires order != [] && order[0] == h && Wild(norm, snap.hosts, h)
    requires IsWildcardName(name) && HasSuffix(name, norm(h)[1..])
    ensures ResolveName(Built(norm, snap, order), name) == Some(snap.hosts[h].appId)
  {
    WildcardsExtend(norm, snap.hosts, order);
    VisitExact(norm, snap.hosts, order, name);
  }

  /** The answers of a snapshot are independent of Go's map iteration order exactly when its
      active hosts are unambiguous. */
  lemma OrderIndependentIff(norm: string -> string, snap: RegistryDto)
    ensures OrderIndependent(norm, snap) <==> Unambiguous(norm, snap.hosts)
  {
    if Unambiguous(norm, snap.hosts) {
      forall o1, o2, name | IsOrder(snap.hosts, o1) && IsOrder(snap.hosts, o2)
        ensures ResolveName(Built(norm, snap, o1), name) == ResolveName(Built(norm, snap, o2), name)
      {
        UnambiguousIsOrderIndependent(norm, snap, o1, o2, name);
      }
    }
    if OrderIndependent(norm, snap) {
      forall g, h | Exact(norm, snap.hosts, g) && Exact(norm, snap.hosts, h) && norm(g) == norm(h)
        ensures snap.hosts[g].appId == snap.hosts[h].appId
      {
        var o1, _ := OrderEndingIn(snap.hosts, g);
        var o2, _ := OrderEndingIn(snap.hosts, h);
        ExactVisitedLast(norm, snap, o1, g);
        ExactVisitedLast(norm, snap, o2, h);
      }
      forall g, h | Wild(norm, snap.hosts, g) && Wild(norm, snap.hosts, h) && HasSuffix(norm(g)[1..], norm(h)[1..])
        ensures snap.hosts[g].appId == snap.hosts[h].appId
      {
        var _, o1 := OrderEndingIn(snap.hosts, g);
        var _, o2 := OrderEndingIn(snap.hosts, h);
        SuffixOfTail(norm(g), norm(h)[1..]);
        SuffixOfTail(norm(g), norm(g)[1..]);
        WildVisitedFirst(norm, snap, o1, g, norm(g));
        WildVisitedFirst(norm, snap, o2, h, norm(g));
      }
    }
  }

  lemma SuffixOfTail(name: string, suffix: string)
    requires name != "" && HasSuffix(name[1..], suffix)
    ensures HasSuffix(name, suffix)
  {
    assert name[|name| - |suffix|..] == name[1..][|name| - 1 - |suffix|..];
  }

  // ---- the active set ----

  /** An active host, exact or wildcard, of application `app`. */
  predicate NamesActive(hosts: map<string, HostEntry>, h: string, app: string) {
    h in hosts && SaysActive(hosts[h].status) && hosts[h].appId == app
  }

  predicate ListedActive(apps: seq<AppEntry>, app: string) {
    app != "" && exists a <- apps :: a.appId == app && SaysActive(a.status)
  }

  /** Whatever the order, an active application is listed as active or named by an active host; and
      with unambiguous hosts every such application is active. */
  lemma ActiveMembers(norm: string -> string, snap: RegistryDto, order: seq<string>, app: string)
    requires IsOrder(snap.hosts, order)
    ensures app in Built(norm, snap, order).active ==>
              ListedActive(snap.apps, app) || exists h :: NamesActive(snap.hosts, h, app)
    ensures Unambiguous(norm, snap.hosts) ==>
              (ListedActive(snap.apps, app) || exists h :: NamesActive(snap.hosts, h, app)) ==>
                app in Built(norm, snap, order).active
  {
    forall a | a in snap.apps ensures IsActiveStatus(a.status) <==> SaysActive(a.status) {
      ActiveStatusMeaning(a.status);
    }
    hide IsActiveStatus;
    hide SaysActive;
    if app in Built(norm, snap, order).active && !ListedActive(snap.apps, app) {
      NamedByHost(norm, snap, order, app);
    }
    if Unambiguous(norm, snap.hosts) {
      if h :| NamesActive(snap.hosts, h, app) {
        ActiveStatusMeaning(snap.hosts[h].status);
        HostIsCounted(norm, snap, order, h);
      }
    }
  }

  lemma NamedByHost(norm: string -> string, snap: RegistryDto, order: seq<string>, app: string)
    requires IsOrder(snap.hosts, order)
    requires app in Built(norm, snap, order).active
    requires forall a <- snap.apps :: !(IsActiveStatus(a.status) && a.appId != "" && a.appId == app)
    ensures exists h :: NamesActive(snap.hosts, h, app)
  {
    var t := Visit(norm, snap.hosts, order);
    assert app in ActiveApps(t, snap.apps);
    if n :| n in t.byHost && t.byHost[n] == app {
      VisitExact(norm, snap.hosts, order, n);
      var h :| h in order && ExactFor(norm, snap.hosts, h, n, app);
      ActiveStatusMeaning(snap.hosts[h].status);
      assert NamesActive(snap.hosts, h, app);
    } else {
      var w :| w in t.wildcards && w.appId == app;
      VisitWild(norm, snap.hosts, order, w);
      var h :| h in order && WildFor(norm, snap.hosts, h, w);
      ActiveStatusMeaning(snap.hosts[h].status);
      assert NamesActive(snap.hosts, h, app);
    }
  }

  lemma HostIsCounted(norm: string -> string, snap: RegistryDto, order: seq<string>, h: string)
    requires IsOrder(snap.hosts, order) && Unambiguous(norm, snap.hosts)
    requires h in snap.hosts && IsActiveStatus(snap.hosts[h].status)
    ensures snap.hosts[h].appId in Built(norm, snap, order).active
  {
    var t := Visit(norm, snap.hosts, order);
    var name := norm(h);
    if IsWildcardName(name) {
      var w := Wildcard(name[1..], snap.hosts[h].appId);
      VisitWild(norm, snap.hosts, order, w);
      assert h in order && WildFor(norm, snap.hosts, h, w);
      assert w in t.wildcards;
    } else {
      VisitExact(norm, snap.hosts, order, name);
      assert h in order && Exact(norm, snap.hosts, h);
      var g :| g in order && ExactFor(norm, snap.hosts, g, name, t.byHost[name]);
      assert t.byHost[name] == snap.hosts[h].appId;
    }
  }

  /** With unambiguous hosts the active set, which decides what a client may ask for, is the same in
      every iteration order. */
  lemma ActiveIsOrderIndependent(norm: string -> string, snap: RegistryDto, o1: seq<string>, o2: seq<string>)
    requires Unambiguous(norm, snap.hosts)
    requires IsOrder(snap.hosts, o1) && IsOrder(snap.hosts, o2)
    ensures Built(norm, snap, o1).active == Built(norm, snap, o2).active
  {
    forall app ensures app in Built(norm, snap, o1).active <==> app in Built(norm, snap, o2).active {
      ActiveMembers(norm, snap, o1, app);
      ActiveMembers(norm, snap, o2, app);
    }
  }

  // ---- runs of polls ----

  function LastGood(fetches: seq<Option<RegistryDto>>): Option<RegistryDto> {
    if fetches == [] then None
    else if fetches[|fetches| - 1].Some? then fetches[|fetches| - 1]
    else LastGood(fetches[..|fetches| - 1])
  }

  /** The last good fetch is a good one with nothing but failures after it. */
  lemma {:induction false} LastGoodMeaning(fetches: seq<Option<RegistryDto>>, snap: RegistryDto)
    ensures LastGood(fetches) == Some(snap) <==>
            exists i :: 0 <= i < |fetches| && fetches[i] == Some(snap)
                        && forall j :: i < j < |fetches| ==> fetches[j] == None
  {
    if fetches != [] {
      LastGoodMeaning(fetches[..|fetches| - 1], snap);
    }
  }

  /** After any run of successful and failed polls the tables are those of the last good snapshot,
      visited in some order; what they resolve is active; and they are cold only if nothing was
      ever fetched. */
  method RunPolls(normalize: string -> string, fetches: seq<Option<RegistryDto>>)
    returns (cache: AppRegistryCache, ghost order: seq<string>)
    ensures cache.Valid() && cache.normalize == normalize
    ensures LastGood(fetches).None? ==> cache.View() == COLD
    ensures LastGood(fetches).Some? ==>
              var snap := LastGood(fetches).value;
              IsOrder(snap.hosts, order) && cache.View() == Built(normalize, snap, order)
  {
    cache := new AppRegistryCache(normalize);
    order := [];
    for i := 0 to |fetches|
      invariant fresh(cache) && cache.Valid() && cache.normalize == normalize
      invariant LastGood(fetches[..i]).None? ==> cache.View() == COLD
      invariant LastGood(fetches[..i]).Some? ==>
                  var snap := LastGood(fetches[..i]).value;
                  IsOrder(snap.hosts, order) && cache.View() == Built(normalize, snap, order)
    {
      assert fetches[..i + 1][..i] == fetches[..i];
      ghost var o := cache.Refresh(fetches[i]);
      if fetches[i].Some? {
        order := o;
      }
    }
    assert fetches[..|fetches|] == fetches;
  }
}
