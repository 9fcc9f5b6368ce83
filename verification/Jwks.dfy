/** The JWK Set cache (section 5 of RFC 7517): last-good keys, refreshed by a background loop and
    by requests that meet an unknown key id (jwks.go). */
module Jwks {
  import opened Text
  import opened Rsa

  /** A JWKS response or a discovery document that points to one. */
  datatype Document = Document(keys: seq<Jwk>, jwksUri: string)

  /** The fetches of one refresh; None is any failure to fetch or parse. */
  datatype Fetch = Fetch(first: Option<Document>, followed: Option<Document>)

  type KeyMap = map<string, PublicKey>

  /** The document whose keys count: a discovery document is followed once. */
  function FinalDocument(f: Fetch): Option<Document> {
    if f.first.Some? && f.first.value.keys == [] && f.first.value.jwksUri != "" then f.followed
    else f.first
  }

  predicate Usable(k: Jwk) {
    && k.kid != "" && k.kty == "RSA"
    && (k.use == "" || k.use == "sig")
    && (k.alg == "" || k.alg == "RS256")
    && KeyOf(k).Some?
  }

  /** What a key contributes: its id and value if it is usable. */
  function Entry(k: Jwk): Option<(string, PublicKey)> {
    if Usable(k) then Some((k.kid, KeyOf(k).value)) else None
  }

  function Entries(keys: seq<Jwk>): (es: seq<Option<(string, PublicKey)>>)
    ensures |es| == |keys| && forall i :: 0 <= i < |keys| ==> es[i] == Entry(keys[i])
  {
    seq(|keys|, i requires 0 <= i < |keys| => Entry(keys[i]))
  }

  /** A map filled in order: of two entries with one key the later stands. */
  function LastWins(entries: seq<Option<(string, PublicKey)>>): KeyMap {
    if entries == [] then map[]
    else
      var before, last := LastWins(entries[..|entries| - 1]), entries[|entries| - 1];
      if last.Some? then before[last.value.0 := last.value.1] else before
  }

  /** Usable keys by id. */
  function UsableKeys(keys: seq<Jwk>): KeyMap {
    LastWins(Entries(keys))
  }

  predicate IsLastEntry(entries: seq<Option<(string, PublicKey)>>, kid: string, i: nat) {
    && i < |entries| && entries[i].Some? && entries[i].value.0 == kid
    && forall j :: i < j < |entries| ==> entries[j].Some? ==> entries[j].value.0 != kid
  }

  /** A key is served exactly if it is the last entry of its id that is an RSA key for signatures or
      for anything, for RS256 or any algorithm, and well-formed. */
  lemma UsableKeysMeaning(keys: seq<Jwk>, kid: string, pub: PublicKey)
    ensures (kid in UsableKeys(keys) && UsableKeys(keys)[kid] == pub) <==>
            exists i: nat :: i < |keys| && ServesKey(keys[i], kid) && KeyOf(keys[i]) == Some(pub)
                             && forall j :: i < j < |keys| ==> !ServesKey(keys[j], kid)
  {
    LastWinsMeaning(Entries(keys), kid, pub);
    forall k | k in keys ensures ServesKey(k, kid) <==> Entry(k).Some? && Entry(k).value.0 == kid {
    }
    if i: nat :| IsLastEntry(Entries(keys), kid, i) && Entries(keys)[i].value.1 == pub {
      assert ServesKey(keys[i], kid);
    }
    if i: nat :| i < |keys| && ServesKey(keys[i], kid) && KeyOf(keys[i]) == Some(pub)
                 && forall j :: i < j < |keys| ==> !ServesKey(keys[j], kid) {
      assert IsLastEntry(Entries(keys), kid, i);
    }
  }

  predicate ServesKey(k: Jwk, kid: string) {
    && k.kid == kid && kid != "" && k.kty == "RSA" && k.use in {"", "sig"} && k.alg in {"", "RS256"}
    && KeyOf(k).Some?
  }

  lemma {:induction false} LastWinsMeaning(entries: seq<Option<(string, PublicKey)>>, kid: string, pub: PublicKey)
    ensures (kid in LastWins(entries) && LastWins(entries)[kid] == pub) <==>
            exists i: nat :: IsLastEntry(entries, kid, i) && entries[i].value.1 == pub
  {
    if entries != [] {
      var n := |entries| - 1;
      var before, last := entries[..n], entries[n];
      LastWinsMeaning(before, kid, pub);
      assert forall i | 0 <= i < n :: before[i] == entries[i];
      if last.Some? && last.value.0 == kid {
        assert IsLastEntry(entries, kid, n);
      } else {
        forall i: nat ensures IsLastEntry(entries, kid, i) <==> IsLastEntry(before, kid, i) {
        }
      }
    }
  }

  lemma EntriesAppend(keys: seq<Jwk>, k: Jwk)
    ensures UsableKeys(keys + [k]) ==
            if Usable(k) then UsableKeys(keys)[k.kid := KeyOf(k).value] else UsableKeys(keys)
  {
    assert Entries(keys + [k])[..|keys|] == Entries(keys);
  }

  method CollectKeys(keys: seq<Jwk>) returns (parsed: KeyMap)
    ensures parsed == UsableKeys(keys)
  {
    parsed := map[];
    for i := 0 to |keys|
      invariant parsed == UsableKeys(keys[..i])
    {
      var k := keys[i];
      EntriesAppend(keys[..i], k);
      assert keys[..i + 1] == keys[..i] + [k];
      if k.kid == "" || k.kty != "RSA" {
        continue;
      }
      if k.use != "" && k.use != "sig" {
        continue;
      }
      if k.alg != "" && k.alg != "RS256" {
        continue;
      }
      var pub := ParseRSAJWK(k);
      if pub.None? {
        continue;
      }
      parsed := parsed[k.kid := pub.value];
    }
    assert keys[..|keys|] == keys;
  }

  /** The keys a refresh installs: nothing unless a whole document with a usable key arrived. */
  function Installed(f: Fetch): Option<KeyMap> {
    match FinalDocument(f)
    case None => None
    case Some(doc) => if UsableKeys(doc.keys) == map[] then None else Some(UsableKeys(doc.keys))
  }

  /** What a refresh installs, exactly: the usable keys of the document fetched first or, if that holds
      no keys but names another, of the one it names, which is followed once; and nothing if a fetch
      that is needed fails or no key is usable. */
  lemma InstalledMeaning(f: Fetch)
    ensures f.first.None? ==> Installed(f) == None
    ensures f.first.Some? ==>
              var discovery := f.first.value.keys == [] && f.first.value.jwksUri != "";
              && (discovery && f.followed.None? ==> Installed(f) == None)
              && (!discovery || f.followed.Some? ==>
                    var keys := if discovery then f.followed.value.keys else f.first.value.keys;
                    Installed(f) == if UsableKeys(keys) == map[] then None else Some(UsableKeys(keys)))
  {
  }

  /** A fetch attempt: when it was stamped, whether a lookup asked for it, and how many attempts had
      been stamped when whoever asked for it last looked. */
  datatype Attempt = Attempt(at: int, onDemand: bool, seen: nat)

  /** Requests never fetch sooner than the cooldown after the attempt before. */
  predicate CooldownKept(attempts: seq<Attempt>, cooldown: int) {
    forall i :: 0 < i < |attempts| && attempts[i].onDemand ==>
      attempts[i - 1].at + cooldown <= attempts[i].at
  }

  /** The cooldown has passed since the last of the first `seen` attempts; none is Go's zero time. */
  predicate CooldownOver(attempts: seq<Attempt>, seen: nat, cooldown: int, now: int)
    requires seen <= |attempts|
  {
    seen == 0 || now - attempts[seen - 1].at >= cooldown
  }

  // ---- any number of refreshes and lookups, interleaved ----

  /** The cache, the clock, and what is under way: lookups that missed, with the number of attempts
      stamped when they read lastAttempt; those among them that then found the cooldown over; and
      refreshes whose fetches are out. */
  datatype State = State(
    now: int, keys: KeyMap, attempts: seq<Attempt>, missed: map<nat, nat>, cleared: map<nat, nat>, fetching: set<nat>)

  datatype Event =
    | Tick(now: int)
    | Miss(id: nat, kid: string)       // a lookup reads keys and lastAttempt under the read lock
    | Clear(id: nat)                   // it reads the clock and compares
    | Begin(id: nat, onDemand: bool)   // a refresh stamps its attempt
    | Finish(id: nat, fetch: Fetch)    // its fetches are in

  predicate Enabled(s: State, cooldown: int, e: Event) {
    match e
    case Tick(now) => s.now <= now
    case Miss(id, kid) => kid !in s.keys
    case Clear(id) =>
      id in s.missed && s.missed[id] <= |s.attempts| && CooldownOver(s.attempts, s.missed[id], cooldown, s.now)
    case Begin(id, onDemand) => id !in s.fetching && (onDemand ==> id in s.cleared)
    case Finish(id, _) => id in s.fetching
  }

  function Step(s: State, e: Event): State {
    match e
    case Tick(now) => s.(now := now)
    case Miss(id, _) => s.(missed := s.missed[id := |s.attempts|], cleared := s.cleared - {id})
    case Clear(id) => if id in s.missed then s.(cleared := s.cleared[id := s.missed[id]]) else s
    case Begin(id, onDemand) =>
      var seen := if onDemand && id in s.cleared then s.cleared[id] else |s.attempts|;
      s.(attempts := s.attempts + [Attempt(s.now, onDemand, seen)],
         missed := if onDemand then s.missed - {id} else s.missed,
         cleared := if onDemand then s.cleared - {id} else s.cleared,
         fetching := s.fetching + {id})
    case Finish(id, f) =>
      s.(keys := if Installed(f).Some? then Installed(f).value else s.keys,
         fetching := s.fetching - {id})
  }

  const START := State(0, map[], [], map[], map[], {})

  function After(events: seq<Event>): State {
    if events == [] then START else Step(After(events[..|events| - 1]), events[|events| - 1])
  }

  predicate IsRun(events: seq<Event>, cooldown: int) {
    events != [] ==>
      IsRun(events[..|events| - 1], cooldown)
      && Enabled(After(events[..|events| - 1]), cooldown, events[|events| - 1])
  }

  // ---- the keys ----

  /** The last fetch of a run that installed keys. */
  function LastInstalled(events: seq<Event>): Option<Fetch> {
    if events == [] then None
    else
      var last := events[|events| - 1];
      if last.Finish? && Installed(last.fetch).Some? then Some(last.fetch)
      else LastInstalled(events[..|events| - 1])
  }

  /** However refreshes overlap, the keys are those of one fully parsed document, the last that
      had any, and never a mixture. */
  lemma {:induction false} KeysAreInstalled(events: seq<Event>, cooldown: int)
    requires IsRun(events, cooldown)
    ensures var s, last := After(events), LastInstalled(events);
            && (last.None? ==> s.keys == map[])
            && (last.Some? ==>
                  && FinalDocument(last.value).Some?
                  && s.keys == UsableKeys(FinalDocument(last.value).value.keys)
                  && s.keys != map[])
  {
    if events != [] {
      KeysAreInstalled(events[..|events| - 1], cooldown);
    }
  }

  /** In every run what is served for an id is the last usable key of that id in the last document
      that had any usable key, and nothing is served that this document does not hold. */
  lemma KeysAreOneDocument(events: seq<Event>, cooldown: int, kid: string, pub: PublicKey)
    requires IsRun(events, cooldown)
    ensures var s, last := After(events), LastInstalled(events);
            && (last.None? ==> s.keys == map[])
            && (last.Some? ==>
                  && FinalDocument(last.value).Some? && s.keys != map[]
                  && var keys := FinalDocument(last.value).value.keys;
                     (kid in s.keys && s.keys[kid] == pub) <==>
                     exists i: nat :: i < |keys| && ServesKey(keys[i], kid) && KeyOf(keys[i]) == Some(pub)
                                      && forall j :: i < j < |keys| ==> !ServesKey(keys[j], kid))
  {
    KeysAreInstalled(events, cooldown);
    if LastInstalled(events).Some? {
      UsableKeysMeaning(FinalDocument(LastInstalled(events).value).value.keys, kid, pub);
    }
  }

  /** Once keys are served, some always are. */
  lemma {:induction false} KeysNeverEmptied(events: seq<Event>, more: seq<Event>, cooldown: int)
    requires IsRun(events + more, cooldown) && After(events).keys != map[]
    ensures After(events + more).keys != map[]
  {
    if more == [] {
      assert events + more == events;
    } else {
      var n := |more| - 1;
      assert (events + more)[..|events + more| - 1] == events + more[..n];
      KeysNeverEmptied(events, more[..n], cooldown);
    }
  }

  // ---- the cooldown ----

  /** The clock never runs back, and whoever asks for a fetch saw the cooldown over. */
  ghost predicate Inv(s: State, cooldown: int) {
    && (forall i, j :: 0 <= i < j < |s.attempts| ==> s.attempts[i].at <= s.attempts[j].at)
    && (forall i :: 0 <= i < |s.attempts| ==> s.attempts[i].at <= s.now)
    && (forall i :: 0 <= i < |s.attempts| ==> SawCooldownOver(s.attempts, i, cooldown))
    && (forall id | id in s.missed :: s.missed[id] <= |s.attempts|)
    && (forall id | id in s.cleared ::
          s.cleared[id] <= |s.attempts| && CooldownOver(s.attempts, s.cleared[id], cooldown, s.now))
  }

  /** Attempt `i` knew no later attempt, and on demand it lies a cooldown after the last it knew. */
  predicate SawCooldownOver(attempts: seq<Attempt>, i: nat, cooldown: int)
    requires i < |attempts|
  {
    && attempts[i].seen <= i
    && (attempts[i].onDemand ==> CooldownOver(attempts, attempts[i].seen, cooldown, attempts[i].at))
  }

  lemma BeginKeepsInv(s: State, cooldown: int, id: nat, onDemand: bool)
    requires Inv(s, cooldown) && Enabled(s, cooldown, Begin(id, onDemand))
    ensures Inv(Step(s, Begin(id, onDemand)), cooldown)
  {
    var t := Step(s, Begin(id, onDemand));
    var n := |s.attempts|;
    assert forall i | 0 <= i < n :: t.attempts[i] == s.attempts[i];
    assert t.attempts[n].seen <= n;
    forall i | 0 <= i < |t.attempts| ensures SawCooldownOver(t.attempts, i, cooldown) {
      assert i < n ==> SawCooldownOver(s.attempts, i, cooldown);
    }
  }

  lemma StepKeepsInv(s: State, cooldown: int, e: Event)
    requires Inv(s, cooldown) && Enabled(s, cooldown, e)
    ensures Inv(Step(s, e), cooldown)
  {
    if e.Begin? {
      BeginKeepsInv(s, cooldown, e.id, e.onDemand);
    }
  }

  lemma {:induction false} RunKeepsInv(events: seq<Event>, cooldown: int)
    requires IsRun(events, cooldown)
    ensures Inv(After(events), cooldown)
  {
    if events != [] {
      var n := |events| - 1;
      RunKeepsInv(events[..n], cooldown);
      StepKeepsInv(After(events[..n]), cooldown, events[n]);
    }
  }

  /** A lookup that missed may go on to fetch exactly from a cooldown after the last attempt it saw. */
  lemma ClearIff(s: State, cooldown: int, id: nat)
    requires Inv(s, cooldown) && id in s.missed
    ensures Enabled(s, cooldown, Clear(id)) <==>
            s.missed[id] == 0 || s.attempts[s.missed[id] - 1].at + cooldown <= s.now
  {
  }

  /** A lookup fetches at most once: it would have to miss again and find the cooldown over again. */
  lemma OneFetchPerLookup(s: State, cooldown: int, id: nat, f: Fetch)
    requires Enabled(s, cooldown, Begin(id, true))
    ensures var fetched := Step(Step(s, Begin(id, true)), Finish(id, f));
            !Enabled(fetched, cooldown, Begin(id, true)) && !Enabled(fetched, cooldown, Clear(id))
  {
  }

  /** Attempt `i` came less than a cooldown after the attempt before it. */
  predicate TooSoon(attempts: seq<Attempt>, i: nat, cooldown: int)
    requires i < |attempts|
  {
    i > 0 && attempts[i].at - attempts[i - 1].at < cooldown
  }

  /** Some attempt was stamped after the lookup behind attempt `i` had read lastAttempt, less than
      a cooldown before that lookup stamped its own. */
  predicate Overtaken(attempts: seq<Attempt>, i: nat, cooldown: int)
    requires i < |attempts|
  {
    exists j :: attempts[i].seen <= j < i && attempts[i].at - attempts[j].at < cooldown
  }

  /** In every run each lookup keeps the cooldown from the last attempt it saw, and it comes too
      soon after the attempt before it if and only if some refresh, on demand or from the background
      loop, overtook it between its read and its stamp. */
  lemma CooldownIff(events: seq<Event>, cooldown: int, i: nat)
    requires IsRun(events, cooldown)
    requires i < |After(events).attempts| && After(events).attempts[i].onDemand
    ensures var attempts := After(events).attempts;
            && attempts[i].seen <= i && CooldownOver(attempts, attempts[i].seen, cooldown, attempts[i].at)
            && (TooSoon(attempts, i, cooldown) <==> Overtaken(attempts, i, cooldown))
  {
    RunKeepsInv(events, cooldown);
    var attempts := After(events).attempts;
    assert SawCooldownOver(attempts, i, cooldown);
    if j :| attempts[i].seen <= j < i && attempts[i].at - attempts[j].at < cooldown {
      assert attempts[j].at <= attempts[i - 1].at;
    }
  }

  /** A run keeps the cooldown if and only if no lookup in it is overtaken. */
  lemma CooldownKeptIff(events: seq<Event>, cooldown: int)
    requires IsRun(events, cooldown)
    ensures var attempts := After(events).attempts;
            CooldownKept(attempts, cooldown) <==>
            forall i :: 0 <= i < |attempts| && attempts[i].onDemand ==> !Overtaken(attempts, i, cooldown)
  {
    var attempts := After(events).attempts;
    forall i | 0 <= i < |attempts| && attempts[i].onDemand
      ensures TooSoon(attempts, i, cooldown) <==> Overtaken(attempts, i, cooldown)
    {
      CooldownIff(events, cooldown, i);
    }
    if CooldownKept(attempts, cooldown) {
      forall i | 0 <= i < |attempts| && attempts[i].onDemand ensures !Overtaken(attempts, i, cooldown) {
        assert !TooSoon(attempts, i, cooldown);
      }
    } else {
      var i :| 0 < i < |attempts| && attempts[i].onDemand && attempts[i - 1].at + cooldown > attempts[i].at;
      assert TooSoon(attempts, i, cooldown);
    }
  }

  lemma RunExtends(events: seq<Event>, e: Event, cooldown: int)
    requires IsRun(events, cooldown) && Enabled(After(events), cooldown, e)
    ensures IsRun(events + [e], cooldown) && After(events + [e]) == Step(After(events), e)
  {
    assert (events + [e])[..|events|] == events;
  }

  /** Two overlapping lookups: the second fetches at the instant of the first. */
  lemma OverlappingLookupsBreakCooldown(cooldown: int) returns (events: seq<Event>)
    requires cooldown > 0
    ensures IsRun(events, cooldown) && !CooldownKept(After(events).attempts, cooldown)
  {
    RunExtends([], Miss(0, "a"), cooldown);
    events := [] + [Miss(0, "a")];
    RunExtends(events, Miss(1, "b"), cooldown);
    events := events + [Miss(1, "b")];
    RunExtends(events, Clear(0), cooldown);
    events := events + [Clear(0)];
    RunExtends(events, Clear(1), cooldown);
    events := events + [Clear(1)];
    RunExtends(events, Begin(0, true), cooldown);
    events := events + [Begin(0, true)];
    RunExtends(events, Begin(1, true), cooldown);
    events := events + [Begin(1, true)];
    var attempts := After(events).attempts;
    assert attempts == [Attempt(0, true, 0), Attempt(0, true, 0)];
    assert attempts[1].onDemand && attempts[0].at + cooldown > attempts[1].at;
  }

  /** One lookup and the background loop: the loop's refresh is stamped in between. */
  lemma BackgroundBreaksCooldown(cooldown: int) returns (events: seq<Event>)
    requires cooldown > 0
    ensures IsRun(events, cooldown) && !CooldownKept(After(events).attempts, cooldown)
  {
    RunExtends([], Miss(0, "a"), cooldown);
    events := [] + [Miss(0, "a")];
    RunExtends(events, Clear(0), cooldown);
    events := events + [Clear(0)];
    RunExtends(events, Begin(1, false), cooldown);
    events := events + [Begin(1, false)];
    RunExtends(events, Begin(0, true), cooldown);
    events := events + [Begin(0, true)];
    var attempts := After(events).attempts;
    assert attempts == [Attempt(0, false, 0), Attempt(0, true, 0)];
    assert attempts[1].onDemand && attempts[0].at + cooldown > attempts[1].at;
  }

  /** The steps of one lookup with nothing in between: it misses, compares at `decided` and stamps
      at `start`. */
  function Lookup(s: State, kid: string, cooldown: int, decided: int, start: int, f: Fetch): State {
    if !Enabled(s, cooldown, Miss(0, kid)) then s
    else
      var read := Step(Step(s, Miss(0, kid)), Tick(decided));
      if !Enabled(read, cooldown, Clear(0)) then read
      else Step(Step(Step(Step(read, Clear(0)), Tick(start)), Begin(0, true)), Finish(0, f))
  }

  // ---- the cache object ----

  class JwksCache {
    const cooldown: int
    var keys: KeyMap
    var attempts: seq<Attempt>  // lastAttempt is the last of these

    constructor (cooldown: int)
      ensures keys == map[] && attempts == [] && this.cooldown == cooldown
    {
      this.cooldown, keys, attempts := cooldown, map[], [];
    }

    /** The cache as the machine sees it while nothing is under way. */
    function Idle(now: int): State
      reads this
    {
      State(now, keys, attempts, map[], map[], {})
    }

    /** The first locked step of a refresh: the machine's `Begin`. */
    method StampAttempt(now: int, onDemand: bool, seen: nat)
      modifies this`attempts
      ensures attempts == old(attempts) + [Attempt(now, onDemand, seen)]
    {
      attempts := attempts + [Attempt(now, onDemand, seen)];
    }

    /** The rest of a refresh once its fetches are in, the machine's `Finish`: swap the whole key
        map or leave it. */
    method FinishRefresh(f: Fetch) returns (ok: bool)
      modifies this`keys
      ensures ok <==> Installed(f).Some?
      ensures keys == if ok then Installed(f).value else old(keys)
    {
      var doc := f.first;
      if doc.None? {
        return false;
      }
      if doc.value.keys == [] && doc.value.jwksUri != "" {
        doc := f.followed;
        if doc.None? {
          return false;
        }
      }
      var parsed := CollectKeys(doc.value.keys);
      if |parsed| == 0 {
        return false;
      }
      keys := parsed;
      ok := true;
    }

    method Refresh(now: int, onDemand: bool, seen: nat, f: Fetch)
      modifies this
      ensures attempts == old(attempts) + [Attempt(now, onDemand, seen)]
      ensures keys == if Installed(f).Some? then Installed(f).value else old(keys)
    {
      StampAttempt(now, onDemand, seen);
      var _ := FinishRefresh(f);
    }

    /** One lookup with nothing in between is the machine run through its steps; what others may do
        in between is the subject of `CooldownIff`. */
    method KeyForKid(kid: string, now: int, decided: int, start: int, f: Fetch) returns (key: Option<PublicKey>)
      requires now <= decided <= start
      modifies this
      ensures var t := Lookup(old(Idle(now)), kid, cooldown, decided, start, f);
              keys == t.keys && attempts == t.attempts
      ensures key == if kid in keys then Some(keys[kid]) else None
      // a known id is answered from the cache
      ensures kid in old(keys) ==> keys == old(keys) && attempts == old(attempts)
      // an unknown one is fetched once the cooldown is over, and answered from what was installed
      ensures kid !in old(keys)
              && (old(attempts) == [] || old(attempts)[|old(attempts)| - 1].at + cooldown <= decided) ==>
                && attempts == old(attempts) + [Attempt(start, true, |old(attempts)|)]
                && key == if Installed(f).Some? && kid in Installed(f).value then Some(Installed(f).value[kid])
                          else None
      // and is unknown until then
      ensures kid !in old(keys)
              && old(attempts) != [] && old(attempts)[|old(attempts)| - 1].at + cooldown > decided ==>
                attempts == old(attempts) && keys == old(keys) && key == None
      ensures old(CooldownKept(attempts, cooldown)) ==> CooldownKept(attempts, cooldown)
    {
      if kid in keys {
        return Some(keys[kid]);
      }
      var seen := |attempts|;
      if CooldownOver(attempts, seen, cooldown, decided) {
        Refresh(start, true, seen, f);
        if kid in keys {
          return Some(keys[kid]);
        }
      }
      key := None;
    }
  }
}
