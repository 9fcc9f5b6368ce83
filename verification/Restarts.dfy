/** The limiter without its two assumptions on Redis: counters may be lost, and INCRs may come later
    than the extra TTL second covers (ratelimit.go). */
module Restarts {
  import opened Text
  import opened RateLimit

  /** Redis may lose counters of `l`, and nobody else writes them. */
  ghost predicate Loses(l: Limiter, s: Store, t: Store)
    requires l.windowSeconds >= 1
  {
    forall w: nat | IsWindow(l, w) ::
      var k := l.CounterKey(w);
      k in t ==> k in s && t[k] == s[k]
  }

  /** Any INCR may land at any time, and any counter may be lost at any time. */
  ghost predicate Possible(l: Limiter, s: State, e: Event)
    requires l.windowSeconds >= 1
  {
    match e
    case Tick(now) => s.now <= now
    case Sample(c) => c !in s.calls
    case Incr(c, _) => c in s.calls && s.calls[c].Sampled?
    case Expire(c, _) => c in s.calls && s.calls[c].Counted?
    case Others(store) => Loses(l, s.store, store)
  }

  ghost predicate IsPossible(l: Limiter, s: State, events: seq<Event>)
    requires l.windowSeconds >= 1
    decreases |events|
  {
    events != [] ==> Possible(l, s, events[0]) && IsPossible(l, Step(l, s, events[0]), events[1..])
  }

  // ---- what every step still keeps ----

  /** The count of the last INCR that landed in a window, 0 if none has. */
  function LastCount(log: seq<Landing>, w: nat): int {
    if log == [] then 0
    else if log[|log| - 1].window == w then log[|log| - 1].count
    else LastCount(log[..|log| - 1], w)
  }

  /** How often the count of a window has started from 1. */
  function Starts(log: seq<Landing>, w: nat): nat {
    if log == [] then 0
    else
      var last := log[|log| - 1];
      Starts(log[..|log| - 1], w) + (if last.window == w && last.count == 1 then 1 else 0)
  }

  /** Every landing counts on from the last of its window or starts again, and no call lands twice. */
  predicate CountsOn(log: seq<Landing>) {
    log != [] ==>
      var before, last := log[..|log| - 1], log[|log| - 1];
      && CountsOn(before)
      && (last.count == 1 || (last.count == LastCount(before, last.window) + 1 && last.count > 1))
      && forall i :: 0 <= i < |before| ==> before[i].call != last.call
  }

  /** A counter that is in the store holds the last count drawn from it. */
  ghost predicate HoldsLast(l: Limiter, s: State, w: nat) {
    var k := l.CounterKey(w);
    k in s.store ==> s.store[k].value == LastCount(s.log, w) && LastCount(s.log, w) >= 1
  }

  ghost predicate LooseInv(l: Limiter, s: State)
    requires l.windowSeconds >= 1
  {
    && CountsOn(s.log)
    && (forall i :: 0 <= i < |s.log| ==> LandingOk(s, s.log[i]))
    && (forall c | c in s.calls :: CallOk(l, s, c))
    && (forall w: nat | IsWindow(l, w) :: HoldsLast(l, s, w))
  }

  lemma LandingKeepsLast(l: Limiter, s: State, c: nat, heard: bool)
    requires l.windowSeconds >= 1 && LooseInv(l, s) && c in s.calls && s.calls[c].Sampled?
    requires IsWindow(l, s.calls[c].window)
    ensures var t := Step(l, s, Incr(c, Landed(heard)));
            && CountsOn(t.log)
            && forall v: nat | IsWindow(l, v) :: HoldsLast(l, t, v)
  {
    var t := Step(l, s, Incr(c, Landed(heard)));
    var w := s.calls[c].window;
    assert HoldsLast(l, s, w);
    assert CallOk(l, s, c);
    assert t.log[..|s.log|] == s.log;
    forall v: nat | IsWindow(l, v) ensures HoldsLast(l, t, v) {
      assert HoldsLast(l, s, v);
      if v != w && l.CounterKey(v) == l.CounterKey(w) {
        CounterKeyInjective(l, v, w);
      }
    }
  }

  lemma IncrKeepsCallsOk(l: Limiter, s: State, c: nat, fate: Fate)
    requires l.windowSeconds >= 1 && LooseInv(l, s) && c in s.calls && s.calls[c].Sampled?
    ensures var t := Step(l, s, Incr(c, fate));
            && (forall i :: 0 <= i < |t.log| ==> LandingOk(t, t.log[i]))
            && forall d | d in t.calls :: CallOk(l, t, d)
  {
    var t := Step(l, s, Incr(c, fate));
    assert CallOk(l, s, c);
    assert fate.Landed? ==> t.log[|s.log|].call == c;
    forall i | 0 <= i < |t.log| ensures LandingOk(t, t.log[i]) {
      if i < |s.log| {
        assert t.log[i] == s.log[i];
        assert LandingOk(s, s.log[i]);
      }
    }
    forall d | d in t.calls ensures CallOk(l, t, d) {
      if d != c {
        assert CallOk(l, s, d);
        assert forall x | x in s.log :: x in t.log;
      } else if fate.Landed? {
        assert t.log[|s.log|] in t.log;
      }
    }
  }

  lemma PossibleKeepsInv(l: Limiter, s: State, e: Event)
    requires l.windowSeconds >= 1 && LooseInv(l, s) && Possible(l, s, e)
    ensures LooseInv(l, Step(l, s, e))
  {
    var t := Step(l, s, e);
    if e.Incr? {
      var c := e.call;
      assert CallOk(l, s, c);
      WindowFacts(l, s.calls[c].at);
      IncrKeepsCallsOk(l, s, c, e.fate);
      if e.fate.Landed? {
        LandingKeepsLast(l, s, c, e.fate.heard);
      } else {
        forall v: nat | IsWindow(l, v) ensures HoldsLast(l, t, v) {
          assert HoldsLast(l, s, v);
        }
      }
    } else {
      forall v: nat | IsWindow(l, v) ensures HoldsLast(l, t, v) {
        assert HoldsLast(l, s, v);
      }
      forall d | d in t.calls ensures CallOk(l, t, d) {
        if d in s.calls {
          assert CallOk(l, s, d);
        }
      }
    }
  }

  lemma {:induction false} PossibleRunKeepsInv(l: Limiter, s: State, events: seq<Event>)
    requires l.windowSeconds >= 1 && LooseInv(l, s) && IsPossible(l, s, events)
    ensures LooseInv(l, After(l, s, events))
    decreases |events|
  {
    if events != [] {
      PossibleKeepsInv(l, s, events[0]);
      PossibleRunKeepsInv(l, Step(l, s, events[0]), events[1..]);
    }
  }

  // ---- the bound ----

  function Min(a: int, b: int): int {
    if a <= b then a else b
  }

  lemma OneMoreTime(limit: nat, n: nat)
    ensures limit * (n + 1) == limit * n + limit
  {
  }

  lemma OneMoreMember(calls: set<nat>, c: nat)
    ensures |calls| <= |calls + {c}| <= |calls| + 1
  {
    if c in calls {
      assert calls + {c} == calls;
    }
  }

  /** What `n` starts may charge when the latest has counted to `last`. */
  function Budget(limit: nat, n: nat, last: int): int {
    if n == 0 then 0 else limit * (n - 1) + Min(last, limit)
  }

  lemma BudgetGrows(limit: nat, n: nat, last: int)
    requires limit >= 1 && (n == 0 <==> last == 0) && last >= 0
    ensures Budget(limit, n + 1, 1) >= Budget(limit, n, last) + 1
    ensures last + 1 <= limit && n > 0 ==> Budget(limit, n, last + 1) == Budget(limit, n, last) + 1
    ensures n > 0 ==> Budget(limit, n, last + 1) >= Budget(limit, n, last)
  {
    if n > 0 {
      OneMoreTime(limit, n - 1);
    }
  }

  /** Each start of the count charges at most `limit` calls, the latest only as many as it counted. */
  lemma {:induction false} ChargedPerStart(log: seq<Landing>, w: nat, limit: nat)
    requires CountsOn(log) && limit >= 1
    ensures Starts(log, w) == 0 <==> LastCount(log, w) == 0
    ensures LastCount(log, w) >= 0
    ensures |Charged(log, w, limit)| <= Budget(limit, Starts(log, w), LastCount(log, w))
  {
    hide Budget;
    if log != [] {
      var before, last := log[..|log| - 1], log[|log| - 1];
      ChargedPerStart(before, w, limit);
      OneMoreMember(Charged(before, w, limit), last.call);
      BudgetGrows(limit, Starts(before, w), LastCount(before, w));
    } else {
      NoBudget(limit);
    }
  }

  lemma NoBudget(limit: nat)
    ensures Budget(limit, 0, 0) == 0
  {
  }

  lemma BudgetBound(limit: nat, n: nat, last: int)
    ensures Budget(limit, n, last) <= limit * n
  {
    if n > 0 {
      OneMoreTime(limit, n - 1);
      assert limit * (n - 1 + 1) == limit * n;
    }
  }

  lemma AllowedWereCharged(l: Limiter, s: State, w: nat)
    requires l.windowSeconds >= 1 && LooseInv(l, s)
    ensures |Allowed(l, s, w)| <= |Charged(s.log, w, l.limit)|
  {
    var allowed, charged := Allowed(l, s, w), Charged(s.log, w, l.limit);
    forall c | c in allowed ensures c in charged {
      assert CallOk(l, s, c);
      ChargedMembers(s.log, w, l.limit, c);
    }
    SubsetSize(allowed, charged);
  }

  /** However late INCRs land and whatever counters Redis loses, a window lets at most `limit` calls
      pass for each time its count started from 1. */
  lemma RestartBound(l: Limiter, s0: State, events: seq<Event>, w: nat)
    requires l.windowSeconds >= 1 && l.limit >= 1
    requires Initial(l, s0) && IsPossible(l, s0, events)
    ensures var s := After(l, s0, events);
            |Allowed(l, s, w)| <= l.limit * Starts(s.log, w)
  {
    PossibleRunKeepsInv(l, s0, events);
    var s := After(l, s0, events);
    AllowedWereCharged(l, s, w);
    ChargedPerStart(s.log, w, l.limit);
    BudgetBound(l.limit, Starts(s.log, w), LastCount(s.log, w));
  }

  // ---- a lost counter is enough to exceed the limit ----

  lemma {:induction false} RunIsPossible(l: Limiter, s: State, first: seq<Event>, t: State, second: seq<Event>)
    requires l.windowSeconds >= 1 && IsRun(l, s, first) && After(l, s, first) == t && IsPossible(l, t, second)
    ensures IsPossible(l, s, first + second) && After(l, s, first + second) == After(l, t, second)
    decreases |first|
  {
    if first == [] {
      assert first + second == second;
    } else {
      assert (first + second)[1..] == first[1..] + second;
      RunIsPossible(l, Step(l, s, first[0]), first[1..], t, second);
    }
  }

  /** The counter of the current window is lost and one more call comes. */
  function LossAndCall(l: Limiter, s: State, c: nat): seq<Event> {
    var w := WindowStart(s.now, l.windowSeconds);
    [Others(s.store - {l.CounterKey(w)}), Sample(c), Incr(c, Landed(true)), Expire(c, Landed(true))]
  }

  lemma CallAfterLoss(l: Limiter, s: State, c: nat)
    requires l.windowSeconds >= 1 && l.limit >= 1 && c !in s.calls
    ensures var events := LossAndCall(l, s, c);
            var w := WindowStart(s.now, l.windowSeconds);
            && IsPossible(l, s, events)
            && After(l, s, events).calls == s.calls[c := Finished(s.now, w, Judged(1))]
  {
    var events := LossAndCall(l, s, c);
    var s1 := Step(l, s, events[0]);
    var s2 := Step(l, s1, events[1]);
    var s3 := Step(l, s2, events[2]);
    var s4 := Step(l, s3, events[3]);
    assert s3.calls[c] == Counted(s.now, WindowStart(s.now, l.windowSeconds));
    assert events[3..] == [events[3]] && events[2..] == [events[2]] + events[3..];
    assert events[1..] == [events[1]] + events[2..] && events == [events[0]] + events[1..];
    OneAhead(l, s3, events[3], []);
    OneAhead(l, s2, events[2], events[3..]);
    OneAhead(l, s1, events[1], events[2..]);
    OneAhead(l, s, events[0], events[1..]);
    assert s4.calls == s.calls[c := Finished(s.now, WindowStart(s.now, l.windowSeconds), Judged(1))];
  }

  lemma OneAhead(l: Limiter, s: State, e: Event, events: seq<Event>)
    requires l.windowSeconds >= 1 && Possible(l, s, e) && IsPossible(l, Step(l, s, e), events)
    ensures IsPossible(l, s, [e] + events)
    ensures After(l, s, [e] + events) == After(l, Step(l, s, e), events)
  {
    assert ([e] + events)[1..] == events;
  }

  /** For every limiter and every start some run with one lost counter lets limit + 1 calls pass in one
      window. */
  lemma LossExceedsLimit(l: Limiter, s0: State) returns (events: seq<Event>)
    requires l.windowSeconds >= 1 && l.limit >= 1 && Initial(l, s0)
    ensures IsPossible(l, s0, events)
    ensures |Allowed(l, After(l, s0, events), WindowStart(s0.now, l.windowSeconds))| == l.limit + 1
  {
    var w := WindowStart(s0.now, l.windowSeconds);
    InitialInv(l, s0);
    var full, s := MoreCalls(l, s0, 0, l.limit, s0.now, s0.now);
    ExactWhenHeard(l, s0, full, w);
    var loss := LossAndCall(l, s, l.limit);
    CallAfterLoss(l, s, l.limit);
    RunIsPossible(l, s0, full, s, loss);
    events := full + loss;
    var t := After(l, s, loss);
    assert Allowed(l, t, w) == Allowed(l, s, w) + {l.limit as nat};
    assert l.limit !in Allowed(l, s, w);
  }
}
