/** The strings that name rate-limit counters and cached plans, and why two identities never
    share one (ratelimit.go, policy.go, plugin.go, helpers.go, identity.go). */
module Keys {
  import opened Text
  import opened Decimal
  import UserId

  const NUL := 0 as char

  /** Who a request is counted as. */
  datatype Caller =
    | User(id: string)
    | Device(id: string)
    | Session(id: string)
    | Ip(id: string)
    | Unknown

  function AnonymousCaller(deviceID: string, sessionID: string, ip: string): Caller {
    if deviceID != "" then Device(deviceID)
    else if sessionID != "" then Session(sessionID)
    else if ip != "" then Ip(ip)
    else Unknown
  }

  /** The callers the gateway can name: users by a positive int64, devices and sessions by any
      header value, addresses by a trimmed one. */
  predicate Nameable(c: Caller) {
    match c
    case User(id) => UserId.IsPositiveInt(id)
    case Device(id) => id != ""
    case Session(id) => id != ""
    case Ip(id) => id != "" && Trimmed(id)
    case Unknown => true
  }

  function Tag(c: Caller): string {
    match c
    case User(_) => "user"
    case Device(_) => "device"
    case Session(_) => "session"
    case Ip(_) => "ip"
    case Unknown => "anon"
  }

  function Name(c: Caller): string {
    match c
    case User(id) => id
    case Device(id) => id
    case Session(id) => id
    case Ip(id) => id
    case Unknown => "unknown"
  }

  function AnonymousRateLimitKey(deviceID: string, sessionID: string, ip: string): (key: string)
    ensures var c := AnonymousCaller(deviceID, sessionID, ip); key == Tag(c) + ":" + Name(c)
  {
    if deviceID != "" then "device:" + deviceID
    else if sessionID != "" then "session:" + sessionID
    else if ip != "" then "ip:" + ip
    else "anon:unknown"
  }

  /** The key handed to the limiter. */
  function RateLimitKey(app: string, c: Caller): string {
    "app:" + app + "|" + (Tag(c) + ":" + Name(c))
  }

  /** The counter's name in Redis. */
  function RedisKey(prefix: string, key: string, endpoint: string, windowStart: int): string {
    prefix + key + ":" + endpoint + ":" + Print(windowStart)
  }

  /** A counter's name in full, for each kind of caller. */
  lemma CounterNames(app: string, c: Caller)
    ensures RateLimitKey(app, c) ==
            "app:" + app + "|" + match c
                                 case User(id) => "user:" + id
                                 case Device(id) => "device:" + id
                                 case Session(id) => "session:" + id
                                 case Ip(id) => "ip:" + id
                                 case Unknown => "anon:unknown"
  {
    assert c.Unknown? ==> Tag(c) + ":" + Name(c) == "anon:unknown";
  }

  /** A counter's name ends in its window's start, in decimal. */
  lemma StoredNames()
    ensures RedisKey("rl:", "k", "ep", 60) == "rl:k:ep:60"
    ensures PlanCacheKey("a", "7") == "a" + [0 as char] + "7"
  {
    assert Print(60) == "60";
  }

  /** A device counts before a session, a session before an address. */
  lemma CallerPrecedence(deviceID: string, sessionID: string, ip: string)
    ensures deviceID != "" ==> AnonymousCaller(deviceID, sessionID, ip) == Device(deviceID)
    ensures deviceID == "" && sessionID != "" ==> AnonymousCaller(deviceID, sessionID, ip) == Session(sessionID)
    ensures deviceID == "" && sessionID == "" && ip != "" ==> AnonymousCaller(deviceID, sessionID, ip) == Ip(ip)
    ensures AnonymousCaller("", "", "") == Unknown
  {
  }

  lemma RateLimitKeyInjective(app1: string, c1: Caller, app2: string, c2: Caller)
    requires '|' !in app1 && '|' !in app2
    requires RateLimitKey(app1, c1) == RateLimitKey(app2, c2)
    ensures app1 == app2 && c1 == c2
  {
    var id1, id2 := Tag(c1) + ":" + Name(c1), Tag(c2) + ":" + Name(c2);
    assert RateLimitKey(app1, c1) == ("app:" + app1) + ['|'] + id1;
    assert RateLimitKey(app2, c2) == ("app:" + app2) + ['|'] + id2;
    FirstCutUnique("app:" + app1, id1, "app:" + app2, id2, '|');
    assert ("app:" + app1)[4..] == app1 && ("app:" + app2)[4..] == app2;
    FirstCutUnique(Tag(c1), Name(c1), Tag(c2), Name(c2), ':');
  }

  /** One limiter's counter names separate limiter keys, endpoints and windows. */
  lemma RedisKeyInjective(prefix: string, k1: string, e1: string, w1: int, k2: string, e2: string, w2: int)
    requires ':' !in e1 && ':' !in e2
    requires RedisKey(prefix, k1, e1, w1) == RedisKey(prefix, k2, e2, w2)
    ensures k1 == k2 && e1 == e2 && w1 == w2
  {
    PrintAlphabet(w1, ':');
    PrintAlphabet(w2, ':');
    LastCutUnique(prefix + k1 + ":" + e1, Print(w1), prefix + k2 + ":" + e2, Print(w2), ':');
    PrintInjective(w1, w2);
    LastCutUnique(prefix + k1, e1, prefix + k2, e2, ':');
    assert (prefix + k1)[|prefix|..] == k1 && (prefix + k2)[|prefix|..] == k2;
  }

  /** A counter belongs to one application, one caller, one endpoint and one window. */
  lemma CountersAreIsolated(
      prefix: string,
      app1: string, c1: Caller, e1: string, w1: int,
      app2: string, c2: Caller, e2: string, w2: int)
    requires '|' !in app1 && '|' !in app2
    requires ':' !in e1 && ':' !in e2
    ensures RedisKey(prefix, RateLimitKey(app1, c1), e1, w1) == RedisKey(prefix, RateLimitKey(app2, c2), e2, w2)
            <==> app1 == app2 && c1 == c2 && e1 == e2 && w1 == w2
  {
    var k1, k2 := RateLimitKey(app1, c1), RateLimitKey(app2, c2);
    if RedisKey(prefix, k1, e1, w1) == RedisKey(prefix, k2, e2, w2) {
      RedisKeyInjective(prefix, k1, e1, w1, k2, e2, w2);
      RateLimitKeyInjective(app1, c1, app2, c2);
    }
  }

  // ---- what the separators leave open, exactly ----

  /** Application id `b` reads like a device, a session or an address of application `a`. User ids
      hold no bar and addresses do not start with a blank, so nothing else can be mistaken. */
  predicate Mimics(a: string, b: string) {
    || a + "|" + "device:" <= b
    || a + "|" + "session:" <= b
    || (a + "|" + "ip:" <= b && !HasBlankAt(b, |a| + 4))
  }

  predicate HasBlankAt(s: string, i: nat) {
    i < |s| && IsSpace(s[i])
  }

  /** Some caller of `a` and some caller of `b` are counted under one limiter key. */
  ghost predicate CanShare(a: string, b: string) {
    exists c, d :: Nameable(c) && Nameable(d) && RateLimitKey(a, c) == RateLimitKey(b, d)
  }

  lemma FirstUser()
    ensures Nameable(User("1"))
  {
    UserId.PositiveIntMeaning("1");
    assert ValueOf("1"[..0]) == 0;
  }

  /** A caller of the mimicked application with the key of user 1 of the other. */
  lemma MimicsCanShare(a: string, b: string)
    requires Mimics(a, b)
    ensures CanShare(a, b)
  {
    var kind := if a + "|" + "device:" <= b then "device:" else if a + "|" + "session:" <= b then "session:" else "ip:";
    var head := a + "|" + kind;
    var rest := b[|head|..];
    assert b == head + rest;
    var id := rest + "|" + "user:1";
    var c := if kind == "device:" then Device(id) else if kind == "session:" then Session(id) else Ip(id);
    assert id[|id| - 1] == '1' && id[0] == if rest == "" then '|' else rest[0];
    assert rest != "" ==> rest[0] == b[|head|];
    FirstUser();
    assert RateLimitKey(a, c) == RateLimitKey(b, User("1")) by {
      assert "app:" + a + "|" + (kind + id) == "app:" + (a + "|" + kind + rest) + "|" + "user:1";
      assert Tag(c) + ":" + Name(c) == kind + id;
      assert Tag(User("1")) + ":" + Name(User("1")) == "user:1";
    }
  }

  lemma LongerAppContinues(a: string, mine: string, b: string, yours: string) returns (rest: string)
    requires a + "|" + mine == b + "|" + yours && |a| < |b|
    ensures b == a + "|" + rest && mine == rest + "|" + yours
  {
    var s := a + "|" + mine;
    rest := b[|a| + 1..];
    assert s[..|b|] == b && s[|b|..] == "|" + yours;
    assert b[..|a| + 1] == s[..|a| + 1] == a + "|";
    assert mine == s[|a| + 1..] == rest + ("|" + yours);
  }

  lemma KindComesFirst(tag: string, name: string, rest: string, yours: string)
    requires '|' !in tag && tag + ":" + name == rest + "|" + yours
    ensures tag + ":" <= rest && '|' in name
  {
    var s := tag + ":" + name;
    var k := |rest|;
    assert s[k] == '|' && s[..k] == rest;
    assert forall i | 0 <= i <= |tag| :: s[i] == (tag + ":")[i];
    assert k > |tag|;
    assert name[k - |tag| - 1] == '|';
    assert s[..|tag| + 1] == tag + ":";
    assert rest[..|tag| + 1] == s[..|tag| + 1];
  }

  lemma SameAfterTag(a: string, c: Caller, b: string, d: Caller)
    requires RateLimitKey(a, c) == RateLimitKey(b, d)
    ensures a + "|" + (Tag(c) + ":" + Name(c)) == b + "|" + (Tag(d) + ":" + Name(d))
  {
    assert RateLimitKey(a, c)[4..] == a + "|" + (Tag(c) + ":" + Name(c));
    assert RateLimitKey(b, d)[4..] == b + "|" + (Tag(d) + ":" + Name(d));
  }

  lemma ContinuesByKind(a: string, c: Caller, rest: string, yours: string)
    requires Nameable(c) && Tag(c) + ":" <= rest && '|' in Name(c)
    requires Tag(c) + ":" + Name(c) == rest + "|" + yours
    ensures Mimics(a, a + "|" + rest)
  {
    PrefixExtends(a + "|", Tag(c) + ":", rest);
    assert c.Device? || c.Session? || c.Ip?;
    if c.Ip? && |rest| > 3 {
      assert (rest + "|" + yours)[3] == rest[3] == (a + "|" + rest)[|a| + 4];
      assert (Tag(c) + ":" + Name(c))[3] == Name(c)[0];
    }
  }

  lemma SharedIsMimic(a: string, c: Caller, b: string, d: Caller)
    requires Nameable(c) && RateLimitKey(a, c) == RateLimitKey(b, d) && |a| < |b|
    ensures Mimics(a, b)
  {
    var mine, yours := Tag(c) + ":" + Name(c), Tag(d) + ":" + Name(d);
    SameAfterTag(a, c, b, d);
    var rest := LongerAppContinues(a, mine, b, yours);
    KindComesFirst(Tag(c), Name(c), rest, yours);
    ContinuesByKind(a, c, rest, yours);
  }

  lemma PrefixExtends(head: string, p: string, s: string)
    requires p <= s
    ensures head + p <= head + s
  {
  }

  /** One application's callers never share a counter. */
  lemma OneAppIsIsolated(app: string, c: Caller, d: Caller)
    requires RateLimitKey(app, c) == RateLimitKey(app, d)
    ensures c == d
  {
    var head := "app:" + app + "|";
    assert RateLimitKey(app, c)[|head|..] == Tag(c) + ":" + Name(c);
    assert RateLimitKey(app, d)[|head|..] == Tag(d) + ":" + Name(d);
    FirstCutUnique(Tag(c), Name(c), Tag(d), Name(d), ':');
  }

  lemma SharedApps(a: string, c: Caller, b: string, d: Caller)
    requires Nameable(c) && Nameable(d) && RateLimitKey(a, c) == RateLimitKey(b, d)
    ensures a == b || Mimics(a, b) || Mimics(b, a)
  {
    if |a| < |b| {
      SharedIsMimic(a, c, b, d);
    } else if |b| < |a| {
      SharedIsMimic(b, d, a, c);
    } else {
      assert RateLimitKey(a, c)[4..][..|a|] == a && RateLimitKey(b, d)[4..][..|b|] == b;
    }
  }

  /** Callers of two applications can share a counter if and only if one application id continues
      the other with a bar and a device, session or address. */
  lemma AppsShareIff(a: string, b: string)
    requires a != b
    ensures CanShare(a, b) <==> Mimics(a, b) || Mimics(b, a)
  {
    if CanShare(a, b) {
      var c, d :| Nameable(c) && Nameable(d) && RateLimitKey(a, c) == RateLimitKey(b, d);
      SharedApps(a, c, b, d);
    }
    if Mimics(a, b) {
      MimicsCanShare(a, b);
    } else if Mimics(b, a) {
      MimicsCanShare(b, a);
      var c, d :| Nameable(c) && Nameable(d) && RateLimitKey(b, c) == RateLimitKey(a, d);
      assert RateLimitKey(a, d) == RateLimitKey(b, c);
    }
  }

  /** A caller of application `a` at endpoint `e1` and one of `b` at `e2` meet one counter. */
  ghost predicate EndpointsCanShare(prefix: string, a: string, e1: string, w1: int, b: string, e2: string, w2: int) {
    exists c, d :: Nameable(c) && Nameable(d)
                   && RedisKey(prefix, RateLimitKey(a, c), e1, w1) == RedisKey(prefix, RateLimitKey(b, d), e2, w2)
  }

  /** One application's callers can meet one counter at two endpoints if and only if the window is
      the same and the id of one endpoint ends in a colon and the id of the other. Without that no
      two applications' callers can either. */
  lemma EndpointsShareIff(prefix: string, a: string, e1: string, w1: int, b: string, e2: string, w2: int)
    requires e1 != e2
    ensures EndpointsCanShare(prefix, a, e1, w1, a, e2, w2) <==>
            w1 == w2 && (HasSuffix(e1, ":" + e2) || HasSuffix(e2, ":" + e1))
    ensures EndpointsCanShare(prefix, a, e1, w1, b, e2, w2) ==> EndpointsCanShare(prefix, a, e1, w1, a, e2, w2)
  {
    if EndpointsCanShare(prefix, a, e1, w1, b, e2, w2) {
      SharedEndpoints(prefix, a, e1, w1, b, e2, w2);
    }
    if EndpointsCanShare(prefix, a, e1, w1, a, e2, w2) {
      SharedEndpoints(prefix, a, e1, w1, a, e2, w2);
    }
    if w1 == w2 && HasSuffix(e1, ":" + e2) {
      var _, _ := ColonShares(prefix, a, e1, e2, w1);
    } else if w1 == w2 && HasSuffix(e2, ":" + e1) {
      var c, d := ColonShares(prefix, a, e2, e1, w1);
      assert RedisKey(prefix, RateLimitKey(a, d), e1, w1) == RedisKey(prefix, RateLimitKey(a, c), e2, w2);
    }
  }

  lemma SharedEndpoints(prefix: string, a: string, e1: string, w1: int, b: string, e2: string, w2: int)
    requires e1 != e2
    ensures EndpointsCanShare(prefix, a, e1, w1, b, e2, w2) ==>
              w1 == w2 && (HasSuffix(e1, ":" + e2) || HasSuffix(e2, ":" + e1))
  {
    if c, d :| RedisKey(prefix, RateLimitKey(a, c), e1, w1) == RedisKey(prefix, RateLimitKey(b, d), e2, w2) {
      var k1, k2 := prefix + RateLimitKey(a, c), prefix + RateLimitKey(b, d);
      PrintAlphabet(w1, ':');
      PrintAlphabet(w2, ':');
      LastCutUnique(k1 + ":" + e1, Print(w1), k2 + ":" + e2, Print(w2), ':');
      PrintInjective(w1, w2);
      if |e1| < |e2| {
        LongerEndsInShorter(k2, e2, k1, e1);
      } else {
        LongerEndsInShorter(k1, e1, k2, e2);
      }
    }
  }

  lemma LongerEndsInShorter(k1: string, e1: string, k2: string, e2: string)
    requires k1 + ":" + e1 == k2 + ":" + e2 && |e2| <= |e1| && e1 != e2
    ensures HasSuffix(e1, ":" + e2)
  {
    var s := k1 + ":" + e1;
    assert s[|s| - |e1|..] == e1 && s[|s| - |e2|..] == e2;
    assert |e2| < |e1|;
    assert s[|s| - |e2| - 1..] == ":" + e2;
    assert e1[|e1| - |e2| - 1..] == s[|s| - |e2| - 1..];
  }

  lemma MoveColon(prefix: string, k: string, head: string, e: string, w: int)
    ensures RedisKey(prefix, k, head + (":" + e), w) == RedisKey(prefix, k + (":" + head), e, w)
  {
    assert prefix + k + ":" + (head + (":" + e)) == prefix + (k + (":" + head)) + ":" + e;
  }

  lemma DeviceExtends(app: string, id: string, more: string)
    ensures RateLimitKey(app, Device(id + more)) == RateLimitKey(app, Device(id)) + more
  {
    assert "device" + ":" + (id + more) == "device" + ":" + id + more;
  }

  lemma ColonShares(prefix: string, app: string, e1: string, e2: string, w: int) returns (c: Caller, d: Caller)
    requires HasSuffix(e1, ":" + e2)
    ensures Nameable(c) && Nameable(d)
    ensures RedisKey(prefix, RateLimitKey(app, c), e1, w) == RedisKey(prefix, RateLimitKey(app, d), e2, w)
  {
    var head := e1[..|e1| - |e2| - 1];
    assert e1 == head + (":" + e2);
    c, d := Device("x"), Device("x" + (":" + head));
    DeviceExtends(app, "x", ":" + head);
    MoveColon(prefix, RateLimitKey(app, c), head, e2, w);
  }

  /** A device of one application under the counter of a device of another. */
  lemma BarInAppIdBreaksIsolation()
    ensures RateLimitKey("a|device:1", Device("2")) == RateLimitKey("a", Device("1|device:2"))
    ensures Nameable(Device("2")) && Nameable(Device("1|device:2"))
  {
  }

  function PlanCacheKey(app: string, user: string): string {
    app + [NUL] + user
  }

  /** User ids are decimal, so a cached plan belongs to one application and one user, whatever
      bytes application ids hold. */
  lemma PlanCacheKeyInjective(app1: string, user1: string, app2: string, user2: string)
    requires AllDigits(user1) && AllDigits(user2)
    requires PlanCacheKey(app1, user1) == PlanCacheKey(app2, user2)
    ensures app1 == app2 && user1 == user2
  {
    LastCutUnique(app1, user1, app2, user2, NUL);
  }
}
