/** The fixed-window limiter that many gateways run against one Redis (ratelimit.go). Times are
    nanoseconds since Go's zero time, which is where `Truncate` anchors windows. */
module RateLimit {
  import opened Text
  import opened Decimal
  import Keys

  const SECOND := 1_000_000_000
  const UNIX_EPOCH := 62135596800  // seconds from the zero time to the Unix epoch

  /** time.Truncate: windows of zero or negative length leave the time alone. */
  function WindowStart(now: nat, windowSeconds: int): nat {
    if windowSeconds <= 0 then now else now - now % (windowSeconds * SECOND)
  }

  function Unix(t: nat): int {
    t / SECOND - UNIX_EPOCH
  }

  /** The window and one second, but at least a second. */
  function TtlSeconds(windowSeconds: int): int {
    if windowSeconds + 1 < 1 then 1 else windowSeconds + 1
  }

  /** The first instant of 1970 is second 0: the zero time lies 719162 days before it. */
  lemma UnixMeaning(t: nat)
    ensures Unix(719162 * 86400 * 1_000_000_000) == 0
    ensures Unix(t + 1_000_000_000) == Unix(t) + 1
  {
  }

  /** A counter outlives its window by a second, and lives for a second at least; a window that is
      not positive starts whenever it is asked for. */
  lemma TtlMeaning(now: nat, windowSeconds: int)
    ensures windowSeconds >= 0 ==> TtlSeconds(windowSeconds) == windowSeconds + 1
    ensures windowSeconds < 0 ==> TtlSeconds(windowSeconds) == 1
    ensures windowSeconds <= 0 ==> WindowStart(now, windowSeconds) == now
  {
  }

  // ---- Redis ----

  datatype Counter = Counter(value: int, expireAt: Option<nat>)

  type Store = map<string, Counter>

  predicate Live(store: Store, key: string, now: nat) {
    && key in store
    && (store[key].expireAt.Some? ==> now < store[key].expireAt.value)
  }

  function CountAfterIncr(store: Store, key: string, now: nat): int {
    if Live(store, key, now) then store[key].value + 1 else 1
  }

  function AfterIncr(store: Store, key: string, now: nat): Store {
    store[key := Counter(
      CountAfterIncr(store, key, now),
      if Live(store, key, now) then store[key].expireAt else None)]
  }

  function AfterExpire(store: Store, key: string, ttlSeconds: int, now: nat): Store
    requires ttlSeconds >= 0
  {
    if Live(store, key, now)
    then store[key := store[key].(expireAt := Some(now + ttlSeconds * SECOND))] else store
  }

  /** What happens to a command: it never reaches Redis, or it does and its reply is heard or not. */
  datatype Fate = Lost | Landed(heard: bool)

  /** The shared Redis server. */
  class Server {
    var store: Store
    var now: nat

    constructor (now: nat)
      ensures store == map[] && this.now == now
    {
      store, this.now := map[], now;
    }

    method Incr(key: string, fate: Fate) returns (count: Option<int>)
      modifies this`store
      ensures store == if fate.Landed? then AfterIncr(old(store), key, now) else old(store)
      ensures count == if fate == Landed(true) then Some(CountAfterIncr(old(store), key, now)) else None
    {
      if fate.Lost? {
        return None;
      }
      var n, expiry := 1, None;
      if Live(store, key, now) {
        n, expiry := store[key].value + 1, store[key].expireAt;
      }
      store := store[key := Counter(n, expiry)];
      count := if fate.heard then Some(n) else None;
    }

    method Expire(key: string, ttlSeconds: int, fate: Fate) returns (ok: bool)
      requires ttlSeconds >= 0
      modifies this`store
      ensures store == if fate.Landed? then AfterExpire(old(store), key, ttlSeconds, now) else old(store)
      ensures ok == (fate == Landed(true))
    {
      if fate.Landed? && Live(store, key, now) {
        store := store[key := Counter(store[key].value, Some(now + ttlSeconds * SECOND))];
      }
      ok := fate == Landed(true);
    }
  }

  // ---- one check ----

  datatype CheckResult =
    | CheckError
    | Checked(allowed: bool, remaining: int, limit: int, resetAt: int)

  /** One limit on one key: everything a counter's name and size depend on except the time. */
  datatype Limiter = Limiter(prefix: string, key: string, endpoint: string, limit: int, windowSeconds: int) {
    /** The window's length in nanoseconds. */
    function Size(): int {
      windowSeconds * SECOND
    }

    function CounterKey(window: nat): string {
      Keys.RedisKey(prefix, key, endpoint, Unix(window))
    }

    /** The verdict on the `count`-th request of a window. */
    function Judge(count: int, window: nat): CheckResult {
      Checked(count <= limit, if limit - count < 0 then 0 else limit - count, limit, window + Size())
    }
  }

  // ---- any number of checks, interleaved ----

  datatype Verdict = Errored | Judged(count: int)

  /** Where one call of Check stands; `at` is the instant its clock was read. */
  datatype Call =
    | Sampled(at: nat, window: nat)
    | Counted(at: nat, window: nat)           // its INCR returned 1, EXPIRE is next
    | Finished(at: nat, window: nat, verdict: Verdict)

  /** An INCR that reached Redis and the count it produced. */
  datatype Landing = Landing(call: nat, window: nat, count: int)

  datatype State = State(now: nat, store: Store, calls: map<nat, Call>, log: seq<Landing>)

  datatype Event =
    | Tick(now: nat)
    | Sample(call: nat)
    | Incr(call: nat, fate: Fate)
    | Expire(call: nat, fate: Fate)
    | Others(store: Store)

  /** The instant up to which the extra TTL second lets a window's INCRs arrive. */
  function SlackEnd(l: Limiter, window: nat): int {
    window + l.Size() + SECOND
  }

  predicate IsWindow(l: Limiter, window: nat)
    requires l.windowSeconds >= 1
  {
    window % l.Size() == 0
  }

  /** Two stores that agree on every counter of `l`. */
  ghost predicate SameCounters(l: Limiter, s: Store, t: Store)
    requires l.windowSeconds >= 1
  {
    forall w: nat | IsWindow(l, w) ::
      var k := l.CounterKey(w);
      (k in s <==> k in t) && (k in s ==> s[k] == t[k])
  }

  /** What may happen next. Two assumptions: an INCR that reaches Redis does so before the slack of
      its window ends, and Redis keeps the limiter's counters. Module Restarts does without both. */
  ghost predicate Enabled(l: Limiter, s: State, e: Event)
    requires l.windowSeconds >= 1
  {
    match e
    case Tick(now) => s.now <= now
    case Sample(c) => c !in s.calls
    case Incr(c, fate) =>
      && c in s.calls && s.calls[c].Sampled?
      && (fate.Landed? ==> s.now < SlackEnd(l, s.calls[c].window))
    case Expire(c, _) => c in s.calls && s.calls[c].Counted?
    case Others(store) => SameCounters(l, s.store, store)
  }

  function Step(l: Limiter, s: State, e: Event): State {
    match e
    case Tick(now) => s.(now := now)
    case Sample(c) => s.(calls := s.calls[c := Sampled(s.now, WindowStart(s.now, l.windowSeconds))])
    case Incr(c, fate) =>
      if c !in s.calls then s
      else
        var at, w := s.calls[c].at, s.calls[c].window;
        if fate.Lost? then s.(calls := s.calls[c := Finished(at, w, Errored)])
        else
          var n := CountAfterIncr(s.store, l.CounterKey(w), s.now);
          s.(store := AfterIncr(s.store, l.CounterKey(w), s.now),
             log := s.log + [Landing(c, w, n)],
             calls := s.calls[c := if !fate.heard then Finished(at, w, Errored)
                                   else if n == 1 then Counted(at, w)
                                   else Finished(at, w, Judged(n))])
    case Expire(c, fate) =>
      if c !in s.calls then s
      else
        var at, w := s.calls[c].at, s.calls[c].window;
        s.(store := if fate.Lost? then s.store
                    else AfterExpire(s.store, l.CounterKey(w), TtlSeconds(l.windowSeconds), s.now),
           calls := s.calls[c := Finished(at, w, if fate == Landed(true) then Judged(1) else Errored)])
    case Others(store) => s.(store := store)
  }

  /** The three steps of one call, back to back. */
  function RunCheck(l: Limiter, s: State, c: nat, incr: Fate, expire: Fate): State {
    var s1 := Step(l, Step(l, s, Sample(c)), Incr(c, incr));
    if c in s1.calls && s1.calls[c].Counted? then Step(l, s1, Expire(c, expire)) else s1
  }

  /** One check alone: it errs if the reply to its INCR is not heard, or if its INCR started the count
      and the reply to the EXPIRE is not; otherwise it judges by the count that its INCR drew. */
  lemma CheckMeaning(l: Limiter, s: State, c: nat, incr: Fate, expire: Fate)
    requires c !in s.calls
    ensures var w := WindowStart(s.now, l.windowSeconds);
            var key := l.CounterKey(w);
            var count := if key in s.store && (s.store[key].expireAt == None || s.now < s.store[key].expireAt.value)
                         then s.store[key].value + 1 else 1;
            var after := RunCheck(l, s, c, incr, expire);
            && after.calls == s.calls[c := Finished(s.now, w,
                 if incr != Landed(true) || (count == 1 && expire != Landed(true)) then Errored else Judged(count))]
            && (incr == Lost ==> after.store == s.store)
            && (incr != Lost ==>
                  && key in after.store && after.store[key].value == count
                  && (incr == Landed(true) && count == 1 && expire != Lost ==>
                        after.store[key].expireAt == Some(s.now + TtlSeconds(l.windowSeconds) * 1_000_000_000))
                  && forall k | k != key :: (k in after.store <==> k in s.store)
                                            && (k in s.store ==> after.store[k] == s.store[k]))
  {
  }

  ghost predicate IsRun(l: Limiter, s: State, events: seq<Event>)
    requires l.windowSeconds >= 1
    decreases |events|
  {
    events != [] ==> Enabled(l, s, events[0]) && IsRun(l, Step(l, s, events[0]), events[1..])
  }

  function After(l: Limiter, s: State, events: seq<Event>): State
    decreases |events|
  {
    if events == [] then s else After(l, Step(l, s, events[0]), events[1..])
  }

  /** No call has started and Redis holds none of this limiter's counters. */
  ghost predicate Initial(l: Limiter, s: State)
    requires l.windowSeconds >= 1
  {
    && s.calls == map[] && s.log == []
    && forall w: nat | IsWindow(l, w) :: l.CounterKey(w) !in s.store
  }

  // ---- what every step keeps ----

  /** How many INCRs have landed in a window. */
  function Landings(log: seq<Landing>, w: nat): nat {
    if log == [] then 0
    else Landings(log[..|log| - 1], w) + (if log[|log| - 1].window == w then 1 else 0)
  }

  /** Every landing got the next count of its window, and no call lands twice. */
  predicate LogOk(log: seq<Landing>) {
    log != [] ==>
      var before, last := log[..|log| - 1], log[|log| - 1];
      && LogOk(before)
      && last.count == Landings(before, last.window) + 1
      && forall i :: 0 <= i < |before| ==> before[i].call != last.call
  }

  /** A window's counter is in the store once an INCR has landed. Until the slack ends it holds
      exactly the number of landings, and its expiry, if set, is not before the slack ends. */
  ghost predicate CounterOk(l: Limiter, s: State, w: nat) {
    var k, n := l.CounterKey(w), Landings(s.log, w);
    if n == 0 then k !in s.store
    else
      && k in s.store && s.store[k].value >= 1
      && (s.now < SlackEnd(l, w) ==>
            && s.store[k].value == n
            && (s.store[k].expireAt.Some? ==> s.store[k].expireAt.value >= SlackEnd(l, w)))
  }

  ghost predicate CallOk(l: Limiter, s: State, c: nat)
    requires l.windowSeconds >= 1 && c in s.calls
  {
    var call := s.calls[c];
    && call.window == WindowStart(call.at, l.windowSeconds)
    && call.at <= s.now
    && (call.Sampled? ==> forall i :: 0 <= i < |s.log| ==> s.log[i].call != c)
    && (call.Counted? ==> Landing(c, call.window, 1) in s.log)
    && (call.Finished? && call.verdict.Judged? ==> Landing(c, call.window, call.verdict.count) in s.log)
  }

  /** A landing's call knows its window and is past its INCR. */
  predicate LandingOk(s: State, x: Landing) {
    x.call in s.calls && !s.calls[x.call].Sampled? && s.calls[x.call].window == x.window
  }

  ghost predicate Inv(l: Limiter, s: State)
    requires l.windowSeconds >= 1
  {
    && LogOk(s.log)
    && (forall i :: 0 <= i < |s.log| ==> LandingOk(s, s.log[i]))
    && (forall c | c in s.calls :: CallOk(l, s, c))
    && (forall w: nat | IsWindow(l, w) :: CounterOk(l, s, w))
  }

  lemma WindowFacts(l: Limiter, t: nat)
    requires l.windowSeconds >= 1
    ensures var w := WindowStart(t, l.windowSeconds);
            IsWindow(l, w) && w <= t < w + l.Size()
  {
    var size := l.Size();
    var q := t / size;
    assert t == q * size + t % size;
    assert t - t % size == q * size;
    ModOfMultiple(q, size);
  }

  lemma ModOfMultiple(q: nat, size: int)
    requires size > 0
    ensures q * size % size == 0
  {
    var d := q * size / size;
    assert q * size == d * size + q * size % size;
    if d < q {
      MulMonotone(d + 1, q, size);
    } else if d > q {
      MulMonotone(q + 1, d, size);
    }
  }

  lemma MulMonotone(x: int, y: int, size: int)
    requires x <= y && size >= 0
    ensures x * size <= y * size
  {
  }

  /** Windows are whole seconds, so different windows have different counters. */
  lemma CounterKeyInjective(l: Limiter, v: nat, w: nat)
    requires l.windowSeconds >= 1 && IsWindow(l, v) && IsWindow(l, w)
    requires l.CounterKey(v) == l.CounterKey(w)
    ensures v == w
  {
    WholeSeconds(l, v);
    WholeSeconds(l, w);
    PrintAlphabet(Unix(v), ':');
    PrintAlphabet(Unix(w), ':');
    var head := l.prefix + l.key + ":" + l.endpoint;
    LastCutUnique(head, Print(Unix(v)), head, Print(Unix(w)), ':');
    PrintInjective(Unix(v), Unix(w));
  }

  lemma WholeSeconds(l: Limiter, w: nat)
    requires l.windowSeconds >= 1 && IsWindow(l, w)
    ensures w % SECOND == 0
  {
    var q := w / l.Size();
    assert w == q * (l.windowSeconds * SECOND);
    assert w == (q * l.windowSeconds) * SECOND;
  }

  lemma LandingsAppend(log: seq<Landing>, x: Landing, w: nat)
    ensures Landings(log + [x], w) == Landings(log, w) + (if x.window == w then 1 else 0)
  {
    assert (log + [x])[..|log|] == log;
  }

  lemma LandingKeepsCounters(l: Limiter, s: State, c: nat, heard: bool)
    requires l.windowSeconds >= 1 && Inv(l, s) && Enabled(l, s, Incr(c, Landed(heard)))
    requires IsWindow(l, s.calls[c].window)
    ensures var t := Step(l, s, Incr(c, Landed(heard)));
            && LogOk(t.log)
            && forall v: nat | IsWindow(l, v) :: CounterOk(l, t, v)
  {
    var t := Step(l, s, Incr(c, Landed(heard)));
    var w := s.calls[c].window;
    var k := l.CounterKey(w);
    assert CounterOk(l, s, w);
    assert CallOk(l, s, c);
    var x := Landing(c, w, CountAfterIncr(s.store, k, s.now));
    assert t.log[..|s.log|] == s.log;
    forall v: nat | IsWindow(l, v) ensures CounterOk(l, t, v) {
      assert CounterOk(l, s, v);
      LandingsAppend(s.log, x, v);
      if v != w && l.CounterKey(v) == k {
        CounterKeyInjective(l, v, w);
      }
    }
  }

  lemma IncrKeepsCalls(l: Limiter, s: State, c: nat, fate: Fate)
    requires l.windowSeconds >= 1 && Inv(l, s) && Enabled(l, s, Incr(c, fate))
    ensures var t := Step(l, s, Incr(c, fate));
            && (forall i :: 0 <= i < |t.log| ==> LandingOk(t, t.log[i]))
            && forall d | d in t.calls :: CallOk(l, t, d)
  {
    var t := Step(l, s, Incr(c, fate));
    assert CallOk(l, s, c);
    assert fate.Landed? ==> t.log[|s.log|].call == c;
    forall i | 0 <= i < |t.log| ensures LandingOk(t, t.log[i]) {
      if i < |s.log| {
        assert t.log[i] == s.log[i];
        assert LandingOk(s, s.log[i]);
      }
    }
    forall d | d in t.calls ensures CallOk(l, t, d) {
      if d != c {
        assert CallOk(l, s, d);
        assert forall x | x in s.log :: x in t.log;
      } else if fate.Landed? {
        assert t.log[|s.log|] in t.log;
      }
    }
  }

  lemma IncrKeepsInv(l: Limiter, s: State, c: nat, fate: Fate)
    requires l.windowSeconds >= 1 && Inv(l, s) && Enabled(l, s, Incr(c, fate))
    ensures Inv(l, Step(l, s, Incr(c, fate)))
  {
    var t := Step(l, s, Incr(c, fate));
    assert CallOk(l, s, c);
    WindowFacts(l, s.calls[c].at);
    IncrKeepsCalls(l, s, c, fate);
    if fate.Landed? {
      LandingKeepsCounters(l, s, c, fate.heard);
    } else {
      forall v: nat | IsWindow(l, v) ensures CounterOk(l, t, v) {
        assert CounterOk(l, s, v);
      }
    }
  }

  lemma ExpireKeepsInv(l: Limiter, s: State, c: nat, fate: Fate)
    requires l.windowSeconds >= 1 && Inv(l, s)
    ensures Enabled(l, s, Expire(c, fate)) ==> Inv(l, Step(l, s, Expire(c, fate)))
  {
    if Enabled(l, s, Expire(c, fate)) {
      var t := Step(l, s, Expire(c, fate));
      var w := s.calls[c].window;
      assert CallOk(l, s, c);
      WindowFacts(l, s.calls[c].at);
      forall v: nat | IsWindow(l, v) ensures CounterOk(l, t, v) {
        assert CounterOk(l, s, v);
        if v != w && l.CounterKey(v) == l.CounterKey(w) {
          CounterKeyInjective(l, v, w);
        }
      }
      forall d | d in t.calls ensures CallOk(l, t, d) {
        assert CallOk(l, s, d);
      }
    }
  }

  lemma StepKeepsInv(l: Limiter, s: State, e: Event)
    requires l.windowSeconds >= 1 && Inv(l, s) && Enabled(l, s, e)
    ensures Inv(l, Step(l, s, e))
  {
    var t := Step(l, s, e);
    match e
    case Incr(c, fate) => IncrKeepsInv(l, s, c, fate);
    case Expire(c, fate) => ExpireKeepsInv(l, s, c, fate);
    case _ =>
      forall w: nat | IsWindow(l, w) ensures CounterOk(l, t, w) {
        assert CounterOk(l, s, w);
      }
      forall d | d in t.calls ensures CallOk(l, t, d) {
        if d in s.calls {
          assert CallOk(l, s, d);
        }
      }
  }

  lemma {:induction false} RunKeepsInv(l: Limiter, s: State, events: seq<Event>)
    requires l.windowSeconds >= 1 && Inv(l, s) && IsRun(l, s, events)
    ensures Inv(l, After(l, s, events))
    decreases |events|
  {
    if events != [] {
      StepKeepsInv(l, s, events[0]);
      RunKeepsInv(l, Step(l, s, events[0]), events[1..]);
    }
  }

  // ---- the bound ----

  /** The calls that were told they may pass in window `w`. */
  function Allowed(l: Limiter, s: State, w: nat): set<nat> {
    set c | c in s.calls && MayPass(l, s.calls[c]) && s.calls[c].window == w
  }

  /** The call's answer lets its request pass. */
  predicate MayPass(l: Limiter, call: Call) {
    call.Finished? && call.verdict.Judged? && l.Judge(call.verdict.count, call.window).allowed
  }

  /** The calls whose INCR drew one of the first `limit` counts of window `w`. */
  function Charged(log: seq<Landing>, w: nat, limit: int): set<nat> {
    if log == [] then {}
    else
      var last := log[|log| - 1];
      Charged(log[..|log| - 1], w, limit)
      + (if last.window == w && last.count <= limit then {last.call} else {})
  }

  lemma {:induction false} ChargedMembers(log: seq<Landing>, w: nat, limit: int, c: nat)
    ensures c in Charged(log, w, limit) <==>
            exists i :: 0 <= i < |log| && log[i].call == c && log[i].window == w && log[i].count <= limit
  {
    if log != [] {
      var before := log[..|log| - 1];
      ChargedMembers(before, w, limit, c);
      assert forall i | 0 <= i < |before| :: before[i] == log[i];
    }
  }

  /** Of n landings exactly the first `limit` are charged. */
  lemma {:induction false} ChargedCount(log: seq<Landing>, w: nat, limit: nat)
    requires LogOk(log)
    ensures |Charged(log, w, limit)| == if Landings(log, w) <= limit then Landings(log, w) else limit
  {
    if log != [] {
      var before, last := log[..|log| - 1], log[|log| - 1];
      ChargedCount(before, w, limit);
      ChargedMembers(before, w, limit, last.call);
    }
  }

  lemma AllowedAreCharged(l: Limiter, s: State, w: nat)
    requires l.windowSeconds >= 1 && Inv(l, s)
    ensures Allowed(l, s, w) <= Charged(s.log, w, l.limit)
  {
    forall c | c in Allowed(l, s, w) ensures c in Charged(s.log, w, l.limit) {
      assert CallOk(l, s, c);
      ChargedMembers(s.log, w, l.limit, c);
    }
  }

  /** In every interleaving a window's allowed calls number at most the limit, and they are the
      first `limit` landings of that window except those whose call ended in an error or has not
      ended: min(n, limit) in all. */
  lemma WindowBound(l: Limiter, s0: State, events: seq<Event>, w: nat)
    requires l.windowSeconds >= 1 && l.limit >= 1
    requires Initial(l, s0) && IsRun(l, s0, events)
    ensures var s := After(l, s0, events);
            var n := Landings(s.log, w);
            var unheard := Charged(s.log, w, l.limit) - Allowed(l, s, w);
            && |Allowed(l, s, w)| <= l.limit
            && |Allowed(l, s, w)| + |unheard| == (if n <= l.limit then n else l.limit)
            && forall c | c in unheard ::
                 c in s.calls && s.calls[c].window == w
                 && (s.calls[c].Counted? || (s.calls[c].Finished? && s.calls[c].verdict.Errored?))
  {
    RunKeepsInv(l, s0, events);
    var s := After(l, s0, events);
    ChargedCount(s.log, w, l.limit);
    AllowedAreCharged(l, s, w);
    var charged, allowed := Charged(s.log, w, l.limit), Allowed(l, s, w);
    assert |charged - allowed| == |charged| - |allowed|;
    forall c | c in charged - allowed
      ensures c in s.calls && s.calls[c].window == w
              && (s.calls[c].Counted? || (s.calls[c].Finished? && s.calls[c].verdict.Errored?))
    {
      ChargedMembers(s.log, w, l.limit, c);
      var i :| 0 <= i < |s.log| && s.log[i].call == c && s.log[i].window == w && s.log[i].count <= l.limit;
      assert CallOk(l, s, c);
      assert LandingOk(s, s.log[i]);
      if s.calls[c].Finished? && s.calls[c].verdict.Judged? {
        var j :| 0 <= j < |s.log| && s.log[j] == Landing(c, w, s.calls[c].verdict.count);
        OneLandingPerCall(s.log, i, j);
      }
    }
  }

  lemma {:induction false} OneLandingPerCall(log: seq<Landing>, i: nat, j: nat)
    requires LogOk(log) && i < |log| && j < |log| && log[i].call == log[j].call
    ensures i == j
  {
    var before := log[..|log| - 1];
    assert forall k | 0 <= k < |before| :: before[k] == log[k];
    if i < |before| && j < |before| {
      OneLandingPerCall(before, i, j);
    }
  }

  /** When every call that landed in `w` heard its replies, exactly min(n, limit) pass. */
  lemma ExactWhenHeard(l: Limiter, s0: State, events: seq<Event>, w: nat)
    requires l.windowSeconds >= 1 && l.limit >= 1
    requires Initial(l, s0) && IsRun(l, s0, events)
    requires var s := After(l, s0, events);
             forall x <- s.log :: x.window == w && x.call in s.calls ==>
               s.calls[x.call].Finished? && s.calls[x.call].verdict.Judged?
    ensures var s := After(l, s0, events);
            var n := Landings(s.log, w);
            |Allowed(l, s, w)| == if n <= l.limit then n else l.limit
  {
    var s := After(l, s0, events);
    WindowBound(l, s0, events, w);
    var unheard := Charged(s.log, w, l.limit) - Allowed(l, s, w);
    forall c | c in unheard ensures false {
      ChargedMembers(s.log, w, l.limit, c);
    }
  }

  /** The calls that read their clock in [from, until] and were told they may pass. */
  function AllowedBetween(l: Limiter, s: State, from: nat, until: nat): set<nat> {
    set c | c in s.calls && MayPass(l, s.calls[c]) && from <= s.calls[c].at <= until
  }

  lemma NextWindow(l: Limiter, w: nat)
    requires l.windowSeconds >= 1 && IsWindow(l, w)
    ensures IsWindow(l, w + l.Size())
  {
    var size := l.Size();
    var q := w / size;
    assert w == q * size;
    ModOfMultiple(q + 1, size);
    assert (q + 1) * size == w + size;
  }

  /** Different windows do not overlap. */
  lemma WindowsApart(l: Limiter, v: nat, w: nat)
    requires l.windowSeconds >= 1 && IsWindow(l, v) && IsWindow(l, w) && v < w
    ensures v + l.Size() <= w
  {
    var size := l.Size();
    var p, q := v / size, w / size;
    assert v == p * size && w == q * size;
    if q <= p {
      MulMonotone(q, p, size);
    } else {
      MulMonotone(p + 1, q, size);
      assert (p + 1) * size == v + size;
    }
  }

  /** A stretch of time one window long meets two windows. */
  lemma TwoWindows(l: Limiter, a: nat, t: nat)
    requires l.windowSeconds >= 1 && a <= t <= a + l.Size()
    ensures var w := WindowStart(a, l.windowSeconds);
            WindowStart(t, l.windowSeconds) in {w, w + l.Size()}
  {
    var v, w := WindowStart(a, l.windowSeconds), WindowStart(t, l.windowSeconds);
    WindowFacts(l, a);
    WindowFacts(l, t);
    NextWindow(l, v);
    if w < v {
      WindowsApart(l, w, v);
    } else if v < w {
      WindowsApart(l, v, w);
      if w != v + l.Size() {
        WindowsApart(l, v + l.Size(), w);
      }
    }
  }

  /** Any closed interval of one window's length sees at most twice the limit pass. */
  lemma BurstBound(l: Limiter, s0: State, events: seq<Event>, from: nat)
    requires l.windowSeconds >= 1 && l.limit >= 1
    requires Initial(l, s0) && IsRun(l, s0, events)
    ensures |AllowedBetween(l, After(l, s0, events), from, from + l.Size())| <= 2 * l.limit
  {
    var s := After(l, s0, events);
    var w1 := WindowStart(from, l.windowSeconds);
    var w2 := w1 + l.Size();
    RunKeepsInv(l, s0, events);
    WindowBound(l, s0, events, w1);
    WindowBound(l, s0, events, w2);
    var both := Allowed(l, s, w1) + Allowed(l, s, w2);
    var burst := AllowedBetween(l, s, from, from + l.Size());
    forall c | c in burst ensures c in both {
      assert CallOk(l, s, c);
      TwoWindows(l, from, s.calls[c].at);
    }
    SubsetSize(burst, both);
  }

  lemma {:induction false} SubsetSize(a: set<nat>, b: set<nat>)
    requires a <= b
    ensures |a| <= |b|
  {
    assert b == a + (b - a);
  }

  // ---- what the verdicts of one window tell their callers ----

  lemma {:induction false} CountAtMost(log: seq<Landing>, i: nat)
    requires LogOk(log) && i < |log|
    ensures 1 <= log[i].count <= Landings(log, log[i].window)
  {
    var before := log[..|log| - 1];
    if i < |before| {
      assert before[i] == log[i];
      CountAtMost(before, i);
    }
  }

  lemma {:induction false} CountsIncrease(log: seq<Landing>, i: nat, j: nat)
    requires LogOk(log) && i < j < |log| && log[i].window == log[j].window
    ensures log[i].count < log[j].count
  {
    var before := log[..|log| - 1];
    assert before[i] == log[i];
    if j < |before| {
      assert before[j] == log[j];
      CountsIncrease(before, i, j);
    } else {
      CountAtMost(before, i);
    }
  }

  /** A landing's count is its position among the landings of its window. */
  lemma {:induction false} CountIsPosition(log: seq<Landing>, i: nat)
    requires LogOk(log) && i < |log|
    ensures log[i].count == Landings(log[..i + 1], log[i].window)
  {
    var n := |log| - 1;
    if i == n {
      assert log[..i + 1] == log;
    } else {
      CountIsPosition(log[..n], i);
      assert log[..n][..i + 1] == log[..i + 1];
    }
  }

  /** The k-th request of a window is answered that it may pass if k is within the limit, with
      limit - k left, and that it may not and none are left otherwise; with the limit and the end of
      the window beside it. */
  lemma KthAnswer(l: Limiter, s0: State, events: seq<Event>, i: nat)
    requires l.windowSeconds >= 1 && l.limit >= 1
    requires Initial(l, s0) && IsRun(l, s0, events)
    requires var s := After(l, s0, events);
             && i < |s.log| && s.log[i].call in s.calls
             && s.calls[s.log[i].call].Finished? && s.calls[s.log[i].call].verdict.Judged?
    ensures var s := After(l, s0, events);
            var call, w := s.calls[s.log[i].call], s.log[i].window;
            var k := Landings(s.log[..i + 1], w);
            && call.window == w
            && l.Judge(call.verdict.count, call.window)
               == Checked(k <= l.limit, if k <= l.limit then l.limit - k else 0, l.limit,
                          w + l.windowSeconds * 1_000_000_000)
  {
    RunKeepsInv(l, s0, events);
    var s := After(l, s0, events);
    var c := s.log[i].call;
    assert LandingOk(s, s.log[i]);
    assert CallOk(l, s, c);
    var j :| 0 <= j < |s.log| && s.log[j] == Landing(c, s.calls[c].window, s.calls[c].verdict.count);
    OneLandingPerCall(s.log, i, j);
    CountIsPosition(s.log, i);
  }

  /** Two verdicts of one window name the same reset time, ahead of both clocks by at most a
      window, and if both allow they leave different numbers of requests, so each value from
      limit - 1 down to 0 is told to at most one caller. */
  lemma VerdictsOfOneWindow(l: Limiter, s0: State, events: seq<Event>, c: nat, d: nat)
    requires l.windowSeconds >= 1 && l.limit >= 1
    requires Initial(l, s0) && IsRun(l, s0, events)
    requires var s := After(l, s0, events);
             && c in s.calls && d in s.calls && c != d && s.calls[c].window == s.calls[d].window
             && s.calls[c].Finished? && s.calls[c].verdict.Judged?
             && s.calls[d].Finished? && s.calls[d].verdict.Judged?
    ensures var s := After(l, s0, events);
            var x := l.Judge(s.calls[c].verdict.count, s.calls[c].window);
            var y := l.Judge(s.calls[d].verdict.count, s.calls[d].window);
            && s.calls[c].at < x.resetAt == y.resetAt <= s.calls[c].at + l.Size()
            && (if x.allowed then 0 <= x.remaining < l.limit else x.remaining == 0)
            && (x.allowed && y.allowed ==> x.remaining != y.remaining)
  {
    RunKeepsInv(l, s0, events);
    var s := After(l, s0, events);
    assert CallOk(l, s, c) && CallOk(l, s, d);
    WindowFacts(l, s.calls[c].at);
    var i :| 0 <= i < |s.log| && s.log[i] == Landing(c, s.calls[c].window, s.calls[c].verdict.count);
    var j :| 0 <= j < |s.log| && s.log[j] == Landing(d, s.calls[d].window, s.calls[d].verdict.count);
    CountAtMost(s.log, i);
    if i < j {
      CountsIncrease(s.log, i, j);
    } else {
      CountsIncrease(s.log, j, i);
    }
  }

  // ---- the bound is attained ----

  /** Every call has heard its verdict and read its clock in [from, until]; ids below `next` are used. */
  ghost predicate AllHeard(s: State, next: nat, from: nat, until: nat) {
    forall c | c in s.calls ::
      c < next && s.calls[c].Finished? && s.calls[c].verdict.Judged? && from <= s.calls[c].at <= until
  }

  /** `events` is a run from `s` to `t`, both of them reachable. */
  ghost predicate Reaches(l: Limiter, s: State, events: seq<Event>, t: State)
    requires l.windowSeconds >= 1
  {
    Inv(l, s) && IsRun(l, s, events) && After(l, s, events) == t && Inv(l, t)
  }

  lemma OneStep(l: Limiter, s: State, e: Event)
    requires l.windowSeconds >= 1 && Inv(l, s) && Enabled(l, s, e)
    ensures Reaches(l, s, [e], Step(l, s, e))
  {
    StepKeepsInv(l, s, e);
  }

  lemma {:induction false} RunsCompose(l: Limiter, s: State, first: seq<Event>, t: State, second: seq<Event>, u: State)
    requires l.windowSeconds >= 1 && Reaches(l, s, first, t) && Reaches(l, t, second, u)
    ensures Reaches(l, s, first + second, u)
    decreases |first|
  {
    if first == [] {
      assert first + second == second;
    } else {
      assert (first + second)[1..] == first[1..] + second;
      StepKeepsInv(l, s, first[0]);
      RunsCompose(l, Step(l, s, first[0]), first[1..], t, second, u);
    }
  }

  /** `t` is `s` with `n` further landings in window `w` and in no other. */
  ghost predicate MoreLandings(s: State, t: State, w: nat, n: nat) {
    t.now == s.now && forall v :: Landings(t.log, v) == Landings(s.log, v) + if v == w then n else 0
  }

  lemma SampleStep(l: Limiter, s: State, c: nat)
    requires l.windowSeconds >= 1 && Inv(l, s) && c !in s.calls
    ensures var t := Step(l, s, Sample(c));
            Reaches(l, s, [Sample(c)], t) && Enabled(l, t, Incr(c, Landed(true)))
  {
    WindowFacts(l, s.now);
    OneStep(l, s, Sample(c));
  }

  lemma HeardIncr(l: Limiter, s: State, c: nat)
    requires l.windowSeconds >= 1 && c in s.calls
    ensures Enabled(l, s, Incr(c, Landed(true))) ==>
              var at, w := s.calls[c].at, s.calls[c].window;
              var t := Step(l, s, Incr(c, Landed(true)));
              && MoreLandings(s, t, w, 1)
              && c in t.calls && t.calls == s.calls[c := t.calls[c]]
              && (t.calls[c] == Counted(at, w)
                  || (t.calls[c].Finished? && t.calls[c].verdict.Judged? && t.calls[c].at == at))
  {
    if Enabled(l, s, Incr(c, Landed(true))) {
      var t := Step(l, s, Incr(c, Landed(true)));
      var x := t.log[|s.log|];
      forall v ensures Landings(t.log, v) == Landings(s.log, v) + if v == x.window then 1 else 0 {
        LandingsAppend(s.log, x, v);
      }
    }
  }

  /** `t` is `s` after a fresh call's clock was read and its INCR landed and was heard. */
  ghost predicate CountedOnce(l: Limiter, s: State, t: State, c: nat) {
    var w := WindowStart(s.now, l.windowSeconds);
    && MoreLandings(s, t, w, 1)
    && c in t.calls && t.calls == s.calls[c := t.calls[c]]
    && (t.calls[c] == Counted(s.now, w)
        || (t.calls[c].Finished? && t.calls[c].verdict.Judged? && t.calls[c].at == s.now))
  }

  lemma SampleAndCount(l: Limiter, s: State, c: nat)
    requires l.windowSeconds >= 1 && Inv(l, s) && c !in s.calls
    ensures CountedOnce(l, s, Step(l, Step(l, s, Sample(c)), Incr(c, Landed(true))), c)
  {
    SampleStep(l, s, c);
    HeardIncr(l, Step(l, s, Sample(c)), c);
  }

  lemma CountedSteps(l: Limiter, s: State, c: nat)
    requires l.windowSeconds >= 1 && Inv(l, s) && c !in s.calls
    ensures var t := Step(l, Step(l, s, Sample(c)), Incr(c, Landed(true)));
            Reaches(l, s, [Sample(c)] + [Incr(c, Landed(true))], t) && CountedOnce(l, s, t, c)
  {
    var sampled := Step(l, s, Sample(c));
    var t := Step(l, sampled, Incr(c, Landed(true)));
    SampleStep(l, s, c);
    OneStep(l, sampled, Incr(c, Landed(true)));
    RunsCompose(l, s, [Sample(c)], sampled, [Incr(c, Landed(true))], t);
    SampleAndCount(l, s, c);
  }

  lemma CountedCall(l: Limiter, s: State, c: nat) returns (t: State)
    requires l.windowSeconds >= 1 && Inv(l, s) && c !in s.calls
    ensures Reaches(l, s, [Sample(c)] + [Incr(c, Landed(true))], t) && CountedOnce(l, s, t, c)
  {
    CountedSteps(l, s, c);
    t := Step(l, Step(l, s, Sample(c)), Incr(c, Landed(true)));
  }

  /** One more call, all of whose replies are heard, lands in the current window. */
  lemma OneMoreCall(l: Limiter, s: State, c: nat, from: nat, until: nat) returns (events: seq<Event>, t: State)
    requires l.windowSeconds >= 1 && Inv(l, s) && AllHeard(s, c, from, until) && from <= s.now <= until
    ensures Reaches(l, s, events, t) && AllHeard(t, c + 1, from, until)
    ensures MoreLandings(s, t, WindowStart(s.now, l.windowSeconds), 1)
  {
    events := [Sample(c)] + [Incr(c, Landed(true))];
    t := CountedCall(l, s, c);
    if t.calls[c].Counted? {
      var counted, expire := t, Expire(c, Landed(true));
      t := Step(l, counted, expire);
      OneStep(l, counted, expire);
      RunsCompose(l, s, events, counted, [expire], t);
      events := events + [expire];
    }
  }

  lemma {:induction false} MoreCalls(l: Limiter, s: State, c: nat, n: nat, from: nat, until: nat)
    returns (events: seq<Event>, t: State)
    requires l.windowSeconds >= 1 && Inv(l, s) && AllHeard(s, c, from, until) && from <= s.now <= until
    ensures Reaches(l, s, events, t) && AllHeard(t, c + n, from, until)
    ensures MoreLandings(s, t, WindowStart(s.now, l.windowSeconds), n)
    decreases n
  {
    events, t := [], s;
    if n > 0 {
      var one, mid := OneMoreCall(l, s, c, from, until);
      var rest;
      rest, t := MoreCalls(l, mid, c + 1, n - 1, from, until);
      RunsCompose(l, s, one, mid, rest, t);
      events := one + rest;
    }
  }

  lemma CallsAt(l: Limiter, s: State, now: nat, c: nat, n: nat, from: nat, until: nat)
    returns (events: seq<Event>, t: State)
    requires l.windowSeconds >= 1 && Inv(l, s) && AllHeard(s, c, from, until)
    requires s.now <= now && from <= now <= until
    ensures Reaches(l, s, events, t) && AllHeard(t, c + n, from, until)
    ensures MoreLandings(s.(now := now), t, WindowStart(now, l.windowSeconds), n)
  {
    OneStep(l, s, Tick(now));
    events, t := MoreCalls(l, s.(now := now), c, n, from, until);
    RunsCompose(l, s, [Tick(now)], s.(now := now), events, t);
    events := [Tick(now)] + events;
  }

  lemma TwoBatches(s0: State, mid: State, t: State, first: nat, second: nat, n: nat)
    requires s0.log == [] && first != second
    requires MoreLandings(s0.(now := mid.now), mid, first, n) && MoreLandings(mid.(now := t.now), t, second, n)
    ensures Landings(t.log, first) == n && Landings(t.log, second) == n
  {
    assert Landings(mid.log, first) == n && Landings(mid.log, second) == 0;
  }

  lemma EdgeFacts(l: Limiter, edge: nat)
    requires l.windowSeconds >= 1 && IsWindow(l, edge) && edge > 0
    ensures WindowStart(edge, l.windowSeconds) == edge && WindowStart(edge - 1, l.windowSeconds) < edge
  {
    WindowFacts(l, edge - 1);
  }

  lemma InitialInv(l: Limiter, s0: State)
    requires l.windowSeconds >= 1 && Initial(l, s0)
    ensures Inv(l, s0)
  {
  }

  /** `limit` calls in the last nanosecond of a window and `limit` in the first of the next. */
  lemma EdgeRun(l: Limiter, s0: State, edge: nat) returns (events: seq<Event>, t: State)
    requires l.windowSeconds >= 1 && l.limit >= 1 && Initial(l, s0)
    requires IsWindow(l, edge) && s0.now < edge
    ensures Reaches(l, s0, events, t) && AllHeard(t, 2 * l.limit, edge - 1, edge)
    ensures var before := WindowStart(edge - 1, l.windowSeconds);
            before < edge && Landings(t.log, before) == l.limit && Landings(t.log, edge) == l.limit
  {
    EdgeFacts(l, edge);
    InitialInv(l, s0);
    var early, mid := CallsAt(l, s0, edge - 1, 0, l.limit, edge - 1, edge);
    var late;
    late, t := CallsAt(l, mid, edge, l.limit, l.limit, edge - 1, edge);
    TwoBatches(s0, mid, t, WindowStart(edge - 1, l.windowSeconds), edge, l.limit);
    RunsCompose(l, s0, early, mid, late, t);
    events := early + late;
  }

  /** Exactly twice the limit passes in the window's length that starts at `from`. */
  ghost predicate DoubleBurst(l: Limiter, s: State, from: nat) {
    && l.windowSeconds >= 1
    && |AllowedBetween(l, s, from, from + l.Size())| == 2 * l.limit
  }

  /** Twice the limit cannot be improved: for every limiter some run lets exactly 2 * limit calls
      pass within one window's length. */
  lemma BurstAttained(l: Limiter, s0: State)
    requires l.windowSeconds >= 1 && l.limit >= 1 && Initial(l, s0)
    ensures exists events, from :: IsRun(l, s0, events) && DoubleBurst(l, After(l, s0, events), from)
  {
    WindowFacts(l, s0.now);
    var w := WindowStart(s0.now, l.windowSeconds);
    var edge := w + l.Size();
    NextWindow(l, w);
    var events, t := EdgeRun(l, s0, edge);
    EdgeBurst(l, s0, events, edge);
    assert DoubleBurst(l, After(l, s0, events), edge - 1);
  }

  lemma EdgeBurst(l: Limiter, s0: State, events: seq<Event>, edge: nat)
    requires l.windowSeconds >= 1 && l.limit >= 1 && Initial(l, s0) && IsRun(l, s0, events) && edge >= 1
    requires var s := After(l, s0, events);
             var before := WindowStart(edge - 1, l.windowSeconds);
             && AllHeard(s, 2 * l.limit, edge - 1, edge) && before < edge
             && Landings(s.log, before) == l.limit && Landings(s.log, edge) == l.limit
    ensures |AllowedBetween(l, After(l, s0, events), edge - 1, edge - 1 + l.Size())| == 2 * l.limit
  {
    var s := After(l, s0, events);
    var before := WindowStart(edge - 1, l.windowSeconds);
    ExactWhenHeard(l, s0, events, before);
    ExactWhenHeard(l, s0, events, edge);
    var early, late := Allowed(l, s, before), Allowed(l, s, edge);
    assert early !! late;
    SubsetSize(early + late, AllowedBetween(l, s, edge - 1, edge - 1 + l.Size()));
    BurstBound(l, s0, events, edge - 1);
  }

  // ---- when a counter has an expiry ----

  predicate HasExpiry(l: Limiter, s: State, w: nat) {
    l.CounterKey(w) in s.store && s.store[l.CounterKey(w)].expireAt.Some?
  }

  /** `e` is an EXPIRE of a call of window `w` that reaches Redis, its reply heard or not. */
  predicate LandsExpire(s: State, e: Event, w: nat) {
    e.Expire? && e.fate.Landed? && e.call in s.calls && s.calls[e.call].window == w
  }

  predicate SomeExpireLands(l: Limiter, s: State, events: seq<Event>, w: nat)
    decreases |events|
  {
    events != [] && (LandsExpire(s, events[0], w) || SomeExpireLands(l, Step(l, s, events[0]), events[1..], w))
  }

  lemma ExpireStep(l: Limiter, s: State, c: nat, fate: Fate, w: nat)
    requires l.windowSeconds >= 1 && Inv(l, s) && IsWindow(l, w)
    ensures Enabled(l, s, Expire(c, fate)) ==>
              (HasExpiry(l, Step(l, s, Expire(c, fate)), w) <==>
               HasExpiry(l, s, w) || LandsExpire(s, Expire(c, fate), w))
  {
    if Enabled(l, s, Expire(c, fate)) {
      var v := s.calls[c].window;
      assert CallOk(l, s, c);
      WindowFacts(l, s.calls[c].at);
      var i :| 0 <= i < |s.log| && s.log[i] == Landing(c, v, 1);
      CountAtMost(s.log, i);
      assert CounterOk(l, s, v);
      if v != w && l.CounterKey(v) == l.CounterKey(w) {
        CounterKeyInjective(l, v, w);
      }
    }
  }

  lemma IncrKeepsExpiry(l: Limiter, s: State, c: nat, fate: Fate, w: nat)
    requires l.windowSeconds >= 1 && Inv(l, s) && IsWindow(l, w)
    ensures Enabled(l, s, Incr(c, fate)) ==>
              (HasExpiry(l, Step(l, s, Incr(c, fate)), w) <==> HasExpiry(l, s, w))
  {
    if Enabled(l, s, Incr(c, fate)) {
      var v := s.calls[c].window;
      assert CallOk(l, s, c);
      WindowFacts(l, s.calls[c].at);
      assert CounterOk(l, s, v);
      if v != w && l.CounterKey(v) == l.CounterKey(w) {
        CounterKeyInjective(l, v, w);
      }
    }
  }

  /** A counter has an expiry if and only if some EXPIRE of its window reached Redis: nothing else
      sets one and nothing takes it away, in any interleaving and at any time. */
  lemma {:induction false} ExpiryIff(l: Limiter, s: State, events: seq<Event>, w: nat)
    requires l.windowSeconds >= 1 && Inv(l, s) && IsRun(l, s, events) && IsWindow(l, w)
    ensures HasExpiry(l, After(l, s, events), w) <==> HasExpiry(l, s, w) || SomeExpireLands(l, s, events, w)
    decreases |events|
  {
    if events != [] {
      var e := events[0];
      if e.Incr? {
        IncrKeepsExpiry(l, s, e.call, e.fate, w);
      } else if e.Expire? {
        ExpireStep(l, s, e.call, e.fate, w);
      }
      StepKeepsInv(l, s, e);
      ExpiryIff(l, Step(l, s, e), events[1..], w);
    }
  }

  /** Window `w` has a counter without expiry and no call that would set one. */
  ghost predicate NeverExpires(l: Limiter, s: State, w: nat) {
    && l.CounterKey(w) in s.store && !HasExpiry(l, s, w)
    && forall c | c in s.calls :: s.calls[c].Counted? ==> s.calls[c].window != w
  }

  lemma NoExpireComes(l: Limiter, s: State, e: Event, w: nat)
    requires l.windowSeconds >= 1 && Inv(l, s) && Enabled(l, s, e) && IsWindow(l, w) && NeverExpires(l, s, w)
    ensures NeverExpires(l, Step(l, s, e), w)
  {
    if e.Incr? {
      IncrKeepsExpiry(l, s, e.call, e.fate, w);
      assert CallOk(l, s, e.call);
      WindowFacts(l, s.calls[e.call].at);
      assert CounterOk(l, s, w);
      assert CounterOk(l, s, s.calls[e.call].window);
      if l.CounterKey(s.calls[e.call].window) == l.CounterKey(w) {
        CounterKeyInjective(l, s.calls[e.call].window, w);
      }
    } else if e.Expire? {
      ExpireStep(l, s, e.call, e.fate, w);
    }
  }

  /** Only the call that drew count 1 sends an EXPIRE: once that has failed to reach Redis, no
      later call repairs it and the counter stays for good. */
  lemma {:induction false} LostExpireIsNeverRepaired(l: Limiter, s: State, events: seq<Event>, w: nat)
    requires l.windowSeconds >= 1 && IsWindow(l, w)
    requires Inv(l, s) && NeverExpires(l, s, w) && IsRun(l, s, events)
    ensures NeverExpires(l, After(l, s, events), w)
    decreases |events|
  {
    if events != [] {
      NoExpireComes(l, s, events[0], w);
      StepKeepsInv(l, s, events[0]);
      LostExpireIsNeverRepaired(l, Step(l, s, events[0]), events[1..], w);
    }
  }

  /** Some continuation gives the counter of `w` an expiry. */
  ghost predicate CanGetExpiry(l: Limiter, s: State, w: nat)
    requires l.windowSeconds >= 1
  {
    exists events :: IsRun(l, s, events) && HasExpiry(l, After(l, s, events), w)
  }

  /** A counter in the store can still get an expiry if and only if it has one or some call of its
      window is about to send its EXPIRE. */
  lemma RepairableIff(l: Limiter, s: State, w: nat)
    requires l.windowSeconds >= 1 && IsWindow(l, w) && Inv(l, s) && l.CounterKey(w) in s.store
    ensures CanGetExpiry(l, s, w) <==> !NeverExpires(l, s, w)
  {
    if NeverExpires(l, s, w) {
      forall events | IsRun(l, s, events) ensures !HasExpiry(l, After(l, s, events), w) {
        LostExpireIsNeverRepaired(l, s, events, w);
      }
    } else {
      Repaired(l, s, w);
    }
  }

  lemma Repaired(l: Limiter, s: State, w: nat)
    requires l.windowSeconds >= 1 && IsWindow(l, w) && Inv(l, s) && l.CounterKey(w) in s.store
    requires !NeverExpires(l, s, w)
    ensures CanGetExpiry(l, s, w)
  {
    var events: seq<Event> := [];
    if !HasExpiry(l, s, w) {
      var c :| c in s.calls && s.calls[c].Counted? && s.calls[c].window == w;
      events := [Expire(c, Landed(true))];
      OneStep(l, s, events[0]);
      ExpireStep(l, s, c, Landed(true), w);
    }
    assert IsRun(l, s, events) && HasExpiry(l, After(l, s, events), w);
  }

  /** The first call of a window draws count 1 and owes the counter its expiry. */
  lemma FirstIsCounted(l: Limiter, s0: State)
    requires l.windowSeconds >= 1 && Initial(l, s0)
    ensures var w := WindowStart(s0.now, l.windowSeconds);
            var counted := Step(l, Step(l, s0, Sample(0)), Incr(0, Landed(true)));
            && IsWindow(l, w) && counted.calls == map[0 := Counted(s0.now, w)]
            && l.CounterKey(w) in counted.store && !HasExpiry(l, counted, w)
  {
    WindowFacts(l, s0.now);
  }

  /** From any start: the first call, whose INCR is heard and whose EXPIRE meets `fate`. */
  lemma FirstCall(l: Limiter, s0: State, fate: Fate) returns (events: seq<Event>, counted: State)
    requires l.windowSeconds >= 1 && Initial(l, s0)
    ensures var w := WindowStart(s0.now, l.windowSeconds);
            && IsWindow(l, w) && Reaches(l, s0, events, Step(l, counted, Expire(0, fate)))
            && Inv(l, counted) && Enabled(l, counted, Expire(0, fate))
            && counted.calls == map[0 := Counted(s0.now, w)]
            && l.CounterKey(w) in counted.store && !HasExpiry(l, counted, w)
  {
    InitialInv(l, s0);
    FirstIsCounted(l, s0);
    CountedSteps(l, s0, 0);
    counted := Step(l, Step(l, s0, Sample(0)), Incr(0, Landed(true)));
    OneStep(l, counted, Expire(0, fate));
    events := [Sample(0)] + [Incr(0, Landed(true))];
    RunsCompose(l, s0, events, counted, [Expire(0, fate)], Step(l, counted, Expire(0, fate)));
    events := events + [Expire(0, fate)];
  }

  /** From every start an EXPIRE that is lost leaves a counter that never expires. One that lands
      unheard ends the call in the same error, with the expiry set: the caller cannot tell. */
  lemma LostAndUnheardLookAlike(l: Limiter, s0: State) returns (lost: seq<Event>, unheard: seq<Event>)
    requires l.windowSeconds >= 1 && Initial(l, s0)
    ensures var w := WindowStart(s0.now, l.windowSeconds);
            && IsWindow(l, w) && IsRun(l, s0, lost) && IsRun(l, s0, unheard)
            && After(l, s0, lost).calls == After(l, s0, unheard).calls == map[0 := Finished(s0.now, w, Errored)]
            && NeverExpires(l, After(l, s0, lost), w) && HasExpiry(l, After(l, s0, unheard), w)
  {
    var w := WindowStart(s0.now, l.windowSeconds);
    var s, t;
    lost, s := FirstCall(l, s0, Lost);
    ExpireStep(l, s, 0, Lost, w);
    unheard, t := FirstCall(l, s0, Landed(false));
    ExpireStep(l, t, 0, Landed(false), w);
  }

  /** The assumption on late INCRs is exactly what the TTL covers: after a first INCR and its
      EXPIRE, a later INCR starts again from 1 if and only if it comes a full TTL after the
      EXPIRE. */
  lemma LateIncrRestartsCount(store: Store, key: string, windowSeconds: int, t: nat, later: nat)
    requires windowSeconds >= 1 && !Live(store, key, t) && t <= later
    ensures var counted := AfterExpire(AfterIncr(store, key, t), key, TtlSeconds(windowSeconds), t);
            CountAfterIncr(counted, key, later) == 1 <==> t + (windowSeconds + 1) * SECOND <= later
  {
  }
}
