/** The endpoint snapshot: how it is compiled and which endpoint a request meets (snapshot.go). */
module Snapshot {
  import opened Text
  import opened Authz

  datatype RateLimitValue = RateLimitValue(requests: int, durationSeconds: int)

  /** An endpoint as published by the registry. */
  datatype EndpointDto = EndpointDto(
    uid: string,
    httpMethod: string,
    pathRegex: string,
    accessLevel: string,
    requiredPermission: string,
    ownerParam: string,
    rateLimits: map<string, RateLimitValue>)

  datatype ServiceDto = ServiceDto(endpoints: seq<EndpointDto>)

  datatype AppDto = AppDto(appId: string, services: seq<ServiceDto>)

  datatype SnapshotDto = SnapshotDto(
    version: string, apps: seq<AppDto>, policies: seq<Policy>, bindings: seq<Binding>)

  /** An endpoint with the application it belongs to; "" and "*" mean shared. */
  datatype Endpoint = Endpoint(dto: EndpointDto, appId: string)

  /** Regular expressions are a parameter: whether a path matches, and what a named group of the
      match captured. */
  datatype Regexp = Regexp(
    matches: (string, string) -> bool,
    capture: (string, string, string) -> Option<string>)

  /** What the request path reads of the cache. */
  datatype SnapshotView = SnapshotView(
    compiled: seq<Endpoint>, policies: Option<PolicyIndex>, version: string, loaded: bool)

  // ---- compiling ----

  function CompileService(app: string, service: ServiceDto): (eps: seq<Endpoint>)
    ensures |eps| == |service.endpoints|
    ensures forall i :: 0 <= i < |eps| ==> eps[i] == Endpoint(service.endpoints[i], app)
  {
    seq(|service.endpoints|, i requires 0 <= i < |service.endpoints| => Endpoint(service.endpoints[i], app))
  }

  function CompileServices(app: string, services: seq<ServiceDto>): seq<Endpoint> {
    if services == [] then []
    else CompileServices(app, services[..|services| - 1]) + CompileService(app, services[|services| - 1])
  }

  function CompileApps(apps: seq<AppDto>): seq<Endpoint> {
    if apps == [] then []
    else
      var last := apps[|apps| - 1];
      CompileApps(apps[..|apps| - 1]) + CompileServices(last.appId, last.services)
  }

  /** An endpoint is compiled exactly when some service of its application publishes it. */
  lemma {:induction false} CompiledMembers(apps: seq<AppDto>, ep: Endpoint)
    ensures ep in CompileApps(apps) <==>
            exists a <- apps :: a.appId == ep.appId && exists s <- a.services :: ep.dto in s.endpoints
  {
    if apps != [] {
      var before, last := apps[..|apps| - 1], apps[|apps| - 1];
      assert apps == before + [last];
      CompiledMembers(before, ep);
      ServiceMembers(last.appId, last.services, ep);
    }
  }

  lemma {:induction false} ServiceMembers(app: string, services: seq<ServiceDto>, ep: Endpoint)
    ensures ep in CompileServices(app, services) <==>
            ep.appId == app && exists s <- services :: ep.dto in s.endpoints
  {
    if services != [] {
      var before, last := services[..|services| - 1], services[|services| - 1];
      assert services == before + [last];
      ServiceMembers(app, before, ep);
      var eps := CompileService(app, last);
      if ep.appId == app && ep.dto in last.endpoints {
        var i :| 0 <= i < |last.endpoints| && last.endpoints[i] == ep.dto;
        assert eps[i] == ep;
      }
    }
  }

  method CompileSnapshot(apps: seq<AppDto>) returns (eps: seq<Endpoint>)
    ensures eps == CompileApps(apps)
  {
    eps := [];
    for i := 0 to |apps|
      invariant eps == CompileApps(apps[..i])
    {
      assert apps[..i + 1][..i] == apps[..i];
      eps := AppendApp(eps, apps[i]);
    }
    assert apps[..|apps|] == apps;
  }

  method AppendApp(start: seq<Endpoint>, app: AppDto) returns (eps: seq<Endpoint>)
    ensures eps == start + CompileServices(app.appId, app.services)
  {
    eps := start;
    for j := 0 to |app.services|
      invariant eps == start + CompileServices(app.appId, app.services[..j])
    {
      CompileServicesAppend(app.appId, app.services[..j], app.services[j]);
      assert app.services[..j + 1] == app.services[..j] + [app.services[j]];
      eps := AppendService(eps, app.appId, app.services[j]);
    }
    assert app.services[..|app.services|] == app.services;
  }

  lemma CompileServicesAppend(app: string, services: seq<ServiceDto>, service: ServiceDto)
    ensures CompileServices(app, services + [service]) == CompileServices(app, services) + CompileService(app, service)
  {
    assert (services + [service])[..|services|] == services;
  }

  method AppendService(start: seq<Endpoint>, app: string, service: ServiceDto) returns (eps: seq<Endpoint>)
    ensures eps == start + CompileService(app, service)
  {
    eps := start;
    for k := 0 to |service.endpoints|
      invariant eps == start + CompileService(app, service)[..k]
    {
      eps := eps + [Endpoint(service.endpoints[k], app)];
    }
    assert CompileService(app, service)[..|service.endpoints|] == CompileService(app, service);
  }

  // ---- matching ----

  predicate Hits(rx: Regexp, ep: Endpoint, httpMethod: string, path: string) {
    ep.dto.httpMethod == httpMethod && rx.matches(ep.dto.pathRegex, path)
  }

  predicate Shared(ep: Endpoint) {
    ep.appId == "" || ep.appId == "*"
  }

  /** The first endpoint at or after `from` that satisfies `wanted`. */
  function First(eps: seq<Endpoint>, wanted: Endpoint -> bool): (r: Option<Endpoint>)
    ensures r.None? <==> forall i :: 0 <= i < |eps| ==> !wanted(eps[i])
    ensures r.Some? ==> exists i :: 0 <= i < |eps| && eps[i] == r.value && wanted(eps[i])
                                    && forall j :: 0 <= j < i ==> !wanted(eps[j])
  {
    if eps == [] then None
    else
      var n := |eps| - 1;
      var r := First(eps[..n], wanted);
      if r.Some? then r
      else if wanted(eps[n]) then Some(eps[n]) else None
  }

  /** The three-tier rule: the application's own endpoint, else a shared one, else, for an
      unresolved application only, anybody's; the first in list order within a tier. */
  function ThreeTier(rx: Regexp, eps: seq<Endpoint>, app: string, httpMethod: string, path: string): Option<Endpoint> {
    var own := First(eps, ep => Hits(rx, ep, httpMethod, path) && app != "" && ep.appId == app);
    var shared := First(eps, ep => Hits(rx, ep, httpMethod, path) && Shared(ep));
    var any := First(eps, ep => Hits(rx, ep, httpMethod, path));
    if own.Some? then own
    else if shared.Some? then shared
    else if app == "" then any else None
  }

  lemma {:induction false} FirstAppend(eps: seq<Endpoint>, ep: Endpoint, wanted: Endpoint -> bool)
    ensures First(eps + [ep], wanted) ==
            if First(eps, wanted).Some? then First(eps, wanted) else if wanted(ep) then Some(ep) else None
  {
    assert (eps + [ep])[..|eps|] == eps;
  }

  /** The tiers in terms of the list alone. A resolved application meets an endpoint of the method
      whose pattern matches the path, its own or one of "" or "*"; its own whenever one matches; and
      none exactly when neither an own nor a shared endpoint matches. */
  lemma ResolvedAppMeetsOwnOrShared(rx: Regexp, eps: seq<Endpoint>, app: string, httpMethod: string, path: string)
    requires app != ""
    ensures var r := ThreeTier(rx, eps, app, httpMethod, path);
            && (r.Some? ==> r.value in eps && r.value.dto.httpMethod == httpMethod
                            && rx.matches(r.value.dto.pathRegex, path)
                            && r.value.appId in {app, "", "*"})
            && (r.None? <==> forall ep <- eps :: ep.dto.httpMethod == httpMethod && rx.matches(ep.dto.pathRegex, path)
                                                 ==> ep.appId !in {app, "", "*"})
            && ((exists ep <- eps :: ep.dto.httpMethod == httpMethod && rx.matches(ep.dto.pathRegex, path)
                                     && ep.appId == app) ==>
                  r.Some? && r.value.appId == app)
  {
    if ep :| ep in eps && ep.dto.httpMethod == httpMethod && rx.matches(ep.dto.pathRegex, path) && ep.appId == app {
      assert Hits(rx, ep, httpMethod, path);
    }
    forall ep | ep in eps
      ensures Hits(rx, ep, httpMethod, path) <==> ep.dto.httpMethod == httpMethod && rx.matches(ep.dto.pathRegex, path)
    {
    }
  }

  /** An unresolved request meets an endpoint whenever any application has one that matches, and a
      shared one before others. */
  lemma UnresolvedMeetsAny(rx: Regexp, eps: seq<Endpoint>, httpMethod: string, path: string)
    ensures var r := ThreeTier(rx, eps, "", httpMethod, path);
            && (r.Some? ==> r.value in eps && r.value.dto.httpMethod == httpMethod
                            && rx.matches(r.value.dto.pathRegex, path))
            && (r.None? <==> forall ep <- eps ::
                  !(ep.dto.httpMethod == httpMethod && rx.matches(ep.dto.pathRegex, path)))
            && ((exists ep <- eps :: ep.dto.httpMethod == httpMethod && rx.matches(ep.dto.pathRegex, path)
                                     && ep.appId in {"", "*"}) ==>
                  r.Some? && r.value.appId in {"", "*"})
  {
    forall ep | ep in eps
      ensures Hits(rx, ep, httpMethod, path) <==> ep.dto.httpMethod == httpMethod && rx.matches(ep.dto.pathRegex, path)
    {
    }
  }

  /** Within a tier the endpoint published first wins: nothing before it in the list is of its tier. */
  lemma FirstOfTierWins(rx: Regexp, eps: seq<Endpoint>, app: string, httpMethod: string, path: string)
    requires app != ""
    ensures var r := ThreeTier(rx, eps, app, httpMethod, path);
            r.Some? ==>
              exists i :: 0 <= i < |eps| && eps[i] == r.value
                          && forall j :: 0 <= j < i && eps[j].dto.httpMethod == httpMethod
                                         && rx.matches(eps[j].dto.pathRegex, path) ==>
                               eps[j].appId != app && (r.value.appId == app || eps[j].appId !in {"", "*"})
  {
    var own := First(eps, ep => Hits(rx, ep, httpMethod, path) && app != "" && ep.appId == app);
    var shared := First(eps, ep => Hits(rx, ep, httpMethod, path) && Shared(ep));
    forall ep | ep in eps
      ensures Hits(rx, ep, httpMethod, path) <==> ep.dto.httpMethod == httpMethod && rx.matches(ep.dto.pathRegex, path)
      ensures Shared(ep) <==> ep.appId in {"", "*"}
    {
    }
    if own.Some? {
      var i :| 0 <= i < |eps| && eps[i] == own.value
        && forall j :: 0 <= j < i ==> !(Hits(rx, eps[j], httpMethod, path) && app != "" && eps[j].appId == app);
    } else if shared.Some? {
      var i :| 0 <= i < |eps| && eps[i] == shared.value
        && forall j :: 0 <= j < i ==> !(Hits(rx, eps[j], httpMethod, path) && Shared(eps[j]));
    }
  }

  /** Without an application the first shared endpoint wins, and the first of all if none is shared. */
  lemma FirstWinsUnresolved(rx: Regexp, eps: seq<Endpoint>, httpMethod: string, path: string)
    ensures var r := ThreeTier(rx, eps, "", httpMethod, path);
            r.Some? ==>
              exists i :: 0 <= i < |eps| && eps[i] == r.value
                          && forall j :: 0 <= j < i && eps[j].dto.httpMethod == httpMethod
                                         && rx.matches(eps[j].dto.pathRegex, path) ==>
                               r.value.appId in {"", "*"} && eps[j].appId !in {"", "*"}
  {
    var shared := First(eps, ep => Hits(rx, ep, httpMethod, path) && Shared(ep));
    var any := First(eps, ep => Hits(rx, ep, httpMethod, path));
    hide First;
    if shared.Some? {
      var i :| 0 <= i < |eps| && eps[i] == shared.value
        && forall j :: 0 <= j < i ==> !(Hits(rx, eps[j], httpMethod, path) && Shared(eps[j]));
    } else if any.Some? {
      var i :| 0 <= i < |eps| && eps[i] == any.value
        && forall j :: 0 <= j < i ==> !Hits(rx, eps[j], httpMethod, path);
    }
  }

  lemma CompileAppsAppend(apps: seq<AppDto>, app: AppDto)
    ensures CompileApps(apps + [app]) == CompileApps(apps) + CompileServices(app.appId, app.services)
  {
    assert (apps + [app])[..|apps|] == apps;
  }

  /** Applications are compiled in the order in which they are published, and so are the services of
      one. */
  lemma {:induction false} CompiledInOrder(first: seq<AppDto>, second: seq<AppDto>)
    ensures CompileApps(first + second) == CompileApps(first) + CompileApps(second)
  {
    if second == [] {
      assert first + second == first;
    } else {
      hide CompileApps;
      hide CompileServices;
      var before, last := second[..|second| - 1], second[|second| - 1];
      assert second == before + [last];
      assert first + second == (first + before) + [last];
      CompiledInOrder(first, before);
      CompileAppsAppend(first + before, last);
      CompileAppsAppend(before, last);
    }
  }

  lemma {:induction false} ServicesInOrder(app: string, first: seq<ServiceDto>, second: seq<ServiceDto>)
    ensures CompileServices(app, first + second) == CompileServices(app, first) + CompileServices(app, second)
  {
    if second == [] {
      assert first + second == first;
    } else {
      hide CompileServices;
      hide CompileService;
      var before, last := second[..|second| - 1], second[|second| - 1];
      assert second == before + [last];
      assert first + second == (first + before) + [last];
      ServicesInOrder(app, first, before);
      CompileServicesAppend(app, first + before, last);
      CompileServicesAppend(app, before, last);
    }
  }

  // ---- the cache ----

  function Compiled(snap: SnapshotDto): SnapshotView {
    SnapshotView(CompileApps(snap.apps), Some(IndexOfSnapshot(snap.policies, snap.bindings)), snap.version, true)
  }

  const COLD_VIEW := SnapshotView([], None, "", false)

  const NOTHING := SnapshotDto("", [], [], [])

  /** The cache serves `snap`; before the first load it serves as if nothing were published. */
  predicate InForce(v: SnapshotView, snap: SnapshotDto) {
    v == Compiled(snap) || (v == COLD_VIEW && snap == NOTHING)
  }

  class SnapshotCache {
    const rx: Regexp
    var compiled: seq<Endpoint>
    var policies: Option<PolicyIndex>
    var version: string
    var loaded: bool

    constructor (rx: Regexp)
      ensures this.rx == rx && View() == COLD_VIEW
    {
      this.rx := rx;
      compiled, policies, version, loaded := [], None, "", false;
    }

    function View(): SnapshotView
      reads this
    {
      SnapshotView(compiled, policies, version, loaded)
    }

    /** One poll: None stands for any failure to fetch or parse. */
    method Refresh(fetched: Option<SnapshotDto>)
      modifies this
      ensures View() == if fetched.Some? then Compiled(fetched.value) else old(View())
    {
      if fetched.None? {
        return;
      }
      var snap := fetched.value;
      var eps := CompileSnapshot(snap.apps);
      var idx := NewPolicyIndex(snap.policies, snap.bindings);
      compiled, policies, version := eps, Some(idx), snap.version;
      loaded := true;
    }

    method MatchEndpoint(app: string, httpMethod: string, path: string) returns (r: Option<Endpoint>)
      ensures r == ThreeTier(rx, compiled, app, httpMethod, path)
    {
      var sharedMatch, anyMatch: Option<Endpoint> := None, None;
      ghost var own := ep => Hits(rx, ep, httpMethod, path) && app != "" && ep.appId == app;
      ghost var shared := ep => Hits(rx, ep, httpMethod, path) && Shared(ep);
      ghost var any := ep => Hits(rx, ep, httpMethod, path);
      for i := 0 to |compiled|
        invariant First(compiled[..i], own) == None
        invariant sharedMatch == First(compiled[..i], shared)
        invariant anyMatch == First(compiled[..i], any)
      {
        var ep := compiled[i];
        assert compiled[..i + 1] == compiled[..i] + [ep];
        FirstAppend(compiled[..i], ep, own);
        FirstAppend(compiled[..i], ep, shared);
        FirstAppend(compiled[..i], ep, any);
        if ep.dto.httpMethod == httpMethod && rx.matches(ep.dto.pathRegex, path) {
          if app != "" && ep.appId == app {
            FirstIsFound(compiled, i, own);
            return Some(ep);
          }
          if Shared(ep) && sharedMatch.None? {
            sharedMatch := Some(ep);
          }
          if anyMatch.None? {
            anyMatch := Some(ep);
          }
        }
      }
      assert compiled[..|compiled|] == compiled;
      if sharedMatch.Some? {
        return sharedMatch;
      }
      r := if app == "" then anyMatch else None;
    }
  }

  /** The first hit of a prefix is the first hit of the list. */
  lemma {:induction false} FirstIsFound(eps: seq<Endpoint>, i: nat, wanted: Endpoint -> bool)
    requires i < |eps| && wanted(eps[i])
    requires First(eps[..i], wanted) == None
    ensures First(eps, wanted) == Some(eps[i])
  {
    assert forall j | 0 <= j < i :: eps[..i][j] == eps[j];
  }

  function LastGood(fetches: seq<Option<SnapshotDto>>): Option<SnapshotDto> {
    if fetches == [] then None
    else if fetches[|fetches| - 1].Some? then fetches[|fetches| - 1]
    else LastGood(fetches[..|fetches| - 1])
  }

  /** The last good fetch is a good one with nothing but failures after it. */
  lemma {:induction false} LastGoodMeaning(fetches: seq<Option<SnapshotDto>>, snap: SnapshotDto)
    ensures LastGood(fetches) == Some(snap) <==>
            exists i :: 0 <= i < |fetches| && fetches[i] == Some(snap)
                        && forall j :: i < j < |fetches| ==> fetches[j] == None
  {
    if fetches != [] {
      LastGoodMeaning(fetches[..|fetches| - 1], snap);
    }
  }

  /** After any run of polls the cache serves the last good snapshot whole: a failure changes
      nothing, and once loaded it stays loaded. */
  method RunPolls(rx: Regexp, fetches: seq<Option<SnapshotDto>>) returns (cache: SnapshotCache)
    ensures cache.View() == if LastGood(fetches).Some? then Compiled(LastGood(fetches).value) else COLD_VIEW
    ensures InForce(cache.View(), if LastGood(fetches).Some? then LastGood(fetches).value else NOTHING)
    ensures cache.loaded <==> exists f <- fetches :: f.Some?
  {
    cache := new SnapshotCache(rx);
    for i := 0 to |fetches|
      invariant fresh(cache)
      invariant var good := LastGood(fetches[..i]);
                cache.View() == if good.Some? then Compiled(good.value) else COLD_VIEW
      invariant cache.loaded <==> exists f <- fetches[..i] :: f.Some?
    {
      assert fetches[..i + 1][..i] == fetches[..i];
      assert fetches[..i + 1] == fetches[..i] + [fetches[i]];
      cache.Refresh(fetches[i]);
    }
    assert fetches[..|fetches|] == fetches;
  }

  /** With the last good snapshot in the cache, a resolved application meets only endpoints that
      snapshot publishes under that application or under a shared one. */
  lemma MatchedEndpointIsPublished(
      rx: Regexp, snap: SnapshotDto, app: string, httpMethod: string, path: string)
    requires app != ""
    ensures var r := ThreeTier(rx, Compiled(snap).compiled, app, httpMethod, path);
            r.Some? ==>
              && r.value.dto.httpMethod == httpMethod && rx.matches(r.value.dto.pathRegex, path)
              && exists a <- snap.apps ::
                   (a.appId == app || a.appId == "" || a.appId == "*")
                   && exists s <- a.services :: r.value.dto in s.endpoints
  {
    var r := ThreeTier(rx, Compiled(snap).compiled, app, httpMethod, path);
    ResolvedAppMeetsOwnOrShared(rx, Compiled(snap).compiled, app, httpMethod, path);
    if r.Some? {
      CompiledMembers(snap.apps, r.value);
    }
  }
}
