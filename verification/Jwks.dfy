/** The JWKS cache as a step machine. Each step is one lock section of a call to `key` (or the fetch
    between two sections, or the clock), so a run is any interleaving of any number of callers. */
module Jwks {
  import opened Domain
  import opened RsaKey
  import opened KeySet

  /** `extract` turns a fetched document into a key map; KeySet.Extract over RsaKey.RsaPublicKey in the gateway. */
  datatype Settings = Settings(ttl: int, minRefresh: int, extract: seq<Jwk> -> Result<KeyMap>)

  /** All that the machine needs of extraction: it never yields an empty map. */
  ghost predicate NeverEmpty(cfg: Settings) {
    forall doc | cfg.extract(doc).Ok? :: cfg.extract(doc).value != map[]
  }

  /** History: what was installed, when, and from which fetched document. */
  datatype Install = Install(time: int, doc: seq<Jwk>, keys: KeyMap)

  /** A call after its first read: the key it saw, how many installs had happened by then, and when it was. */
  datatype Call = Call(kid: string, cached: Option<PublicKey>, seen: nat, at: int)

  datatype Thread =
    | Idle
    | Entered(kid: string)                                     // before the first read
    | Refreshing(call: Call)                                   // before the rate-limit check
    | Fetching(call: Call)                                     // past the check, request in flight
    | Storing(call: Call, doc: seq<Jwk>, keys: KeyMap)         // keys extracted, before the write lock
    | Rereading(call: Call)                                    // refresh returned nil, before the second read
    | Returned(call: Call, upto: nat, result: Result<PublicKey>)   // `upto` installs had happened

  datatype State = State(
    now: int, keys: KeyMap, fetchedAt: Option<int>, threads: seq<Thread>, installs: seq<Install>)

  datatype Event =
    | Tick(d: nat)
    | Enter(t: nat, kid: string)
    | FirstRead(t: nat)
    | RateCheck(t: nat)
    | FetchFails(t: nat, error: Error)
    | FetchYields(t: nat, doc: seq<Jwk>)
    | Store(t: nat)
    | SecondRead(t: nat)

  function Actor(e: Event): Option<nat> {
    match e
    case Tick(_) => None
    case Enter(t, _) => Some(t)
    case FirstRead(t) => Some(t)
    case RateCheck(t) => Some(t)
    case FetchFails(t, _) => Some(t)
    case FetchYields(t, _) => Some(t)
    case Store(t) => Some(t)
    case SecondRead(t) => Some(t)
  }

  function Init(callers: nat, start: int): State {
    State(start, map[], None, seq(callers, _ => Idle), [])
  }

  /** time.Since(fetchedAt) < d; the zero time is longer ago than any duration. */
  predicate FetchedWithin(s: State, d: int) {
    s.fetchedAt.Some? && s.now - s.fetchedAt.value < d
  }

  predicate TooSoon(cfg: Settings, s: State) {
    |s.keys| > 0 && FetchedWithin(s, cfg.minRefresh)
  }

  function Lookup(keys: KeyMap, kid: string): Option<PublicKey> {
    if kid in keys then Some(keys[kid]) else None
  }

  /** How a call ends when its refresh returned an error: with the key it saw, if it saw one. */
  function AfterFailure(c: Call, upto: nat, e: Error): Thread {
    Returned(c, upto, if c.cached.Some? then Ok(c.cached.value) else Err(e))
  }

  predicate Enabled(cfg: Settings, s: State, e: Event) {
    e.Tick? ||
    (e.t < |s.threads| &&
     var th := s.threads[e.t];
     match e
     case Tick(_) => true
     case Enter(_, _) => th.Idle? || th.Returned?
     case FirstRead(_) => th.Entered?
     case RateCheck(_) => th.Refreshing?
     case FetchFails(_, _) => th.Fetching?
     case FetchYields(_, _) => th.Fetching?
     case Store(_) => th.Storing?
     case SecondRead(_) => th.Rereading?)
  }

  function Next(cfg: Settings, s: State, e: Event): State
    requires Enabled(cfg, s, e)
  {
    match e
    case Tick(d) => s.(now := s.now + d)
    case Enter(t, kid) => s.(threads := s.threads[t := Entered(kid)])
    case FirstRead(t) =>
      var kid := s.threads[t].kid;
      var c := Call(kid, Lookup(s.keys, kid), |s.installs|, s.now);
      s.(threads := s.threads[t :=
        if c.cached.Some? && FetchedWithin(s, cfg.ttl) then Returned(c, c.seen, Ok(c.cached.value)) else Refreshing(c)])
    case RateCheck(t) =>
      var c := s.threads[t].call;
      s.(threads := s.threads[t := if TooSoon(cfg, s) then Rereading(c) else Fetching(c)])
    case FetchFails(t, error) =>
      s.(threads := s.threads[t := AfterFailure(s.threads[t].call, |s.installs|, error)])
    case FetchYields(t, doc) =>
      var c, keys := s.threads[t].call, cfg.extract(doc);
      s.(threads := s.threads[t :=
        if keys.Ok? then Storing(c, doc, keys.value) else AfterFailure(c, |s.installs|, keys.error)])
    case Store(t) =>
      var th := s.threads[t];
      s.(keys := th.keys, fetchedAt := Some(s.now), threads := s.threads[t := Rereading(th.call)],
         installs := s.installs + [Install(s.now, th.doc, th.keys)])
    case SecondRead(t) =>
      var c := s.threads[t].call;
      var key := Lookup(s.keys, c.kid);
      s.(threads := s.threads[t := Returned(c, |s.installs|, if key.Some? then Ok(key.value) else Err(Other))])
  }

  /** The state after a run of events from the start, or None if some event was not possible. */
  ghost function Run(cfg: Settings, callers: nat, start: int, events: seq<Event>): Option<State> {
    if events == [] then Some(Init(callers, start))
    else
      var n := |events| - 1;
      var before := Run(cfg, callers, start, events[..n]);
      if before.Some? && Enabled(cfg, before.value, events[n]) then Some(Next(cfg, before.value, events[n])) else None
  }

  // ---- What every reachable state keeps ----

  /** The cache is empty before the first install and exactly the last install's key map after it. */
  ghost predicate CacheIsLastInstall(s: State) {
    if s.installs == [] then s.keys == map[] && s.fetchedAt == None
    else
      var last := s.installs[|s.installs| - 1];
      s.keys == last.keys && s.fetchedAt == Some(last.time)
  }

  ghost predicate InstallsAreDocuments(cfg: Settings, s: State) {
    forall i | 0 <= i < |s.installs| ::
      cfg.extract(s.installs[i].doc) == Ok(s.installs[i].keys)
  }

  ghost predicate TimesAreOrdered(s: State) {
    && (forall i | 0 <= i < |s.installs| :: s.installs[i].time <= s.now)
    && (forall i, j | 0 <= i < j < |s.installs| :: s.installs[i].time <= s.installs[j].time)
  }

  /** The key map in force after the first n installs. */
  function KeysAfter(installs: seq<Install>, n: nat): KeyMap
    requires n <= |installs|
  {
    if n == 0 then map[] else installs[n - 1].keys
  }

  ghost predicate CallIsSound(s: State, c: Call) {
    c.seen <= |s.installs| && c.cached == Lookup(KeysAfter(s.installs, c.seen), c.kid)
  }

  /** A returned key was in force at one of the call's two reads. An error for a kid that was cached at the
      first read means that an install after that read had dropped the kid. */
  ghost predicate ReturnIsSound(s: State, c: Call, upto: nat, result: Result<PublicKey>) {
    && c.seen <= upto <= |s.installs|
    && (result.Ok? ==> c.cached == Some(result.value) || Lookup(KeysAfter(s.installs, upto), c.kid) == Some(result.value))
    && (result.Err? && c.cached.Some? ==> upto > c.seen && c.kid !in s.installs[upto - 1].keys)
  }

  ghost predicate ThreadIsSound(cfg: Settings, s: State, th: Thread) {
    match th
    case Idle => true
    case Entered(_) => true
    case Refreshing(c) => CallIsSound(s, c)
    case Fetching(c) => CallIsSound(s, c)
    case Storing(c, doc, keys) => CallIsSound(s, c) && cfg.extract(doc) == Ok(keys)
    case Rereading(c) => CallIsSound(s, c)
    case Returned(c, upto, result) => CallIsSound(s, c) && ReturnIsSound(s, c, upto, result)
  }

  ghost predicate Sound(cfg: Settings, s: State) {
    && CacheIsLastInstall(s)
    && InstallsAreDocuments(cfg, s)
    && TimesAreOrdered(s)
    && forall t | 0 <= t < |s.threads| :: ThreadIsSound(cfg, s, s.threads[t])
  }

  lemma StoreKeepsThreads(cfg: Settings, s: State, s': State, th: Thread)
    requires ThreadIsSound(cfg, s, th) && s.installs <= s'.installs
    ensures ThreadIsSound(cfg, s', th)
  {
  }

  /** Only storing changes the cache: a failed refresh, a read or a rate-limit check leaves it alone. */
  lemma OnlyStoreChangesCache(cfg: Settings, s: State, e: Event)
    requires Enabled(cfg, s, e) && !e.Store?
    ensures var s' := Next(cfg, s, e);
            s'.keys == s.keys && s'.fetchedAt == s.fetchedAt && s'.installs == s.installs && s'.now >= s.now
  {
  }

  /** A step changes no thread but its own. */
  lemma OthersStay(cfg: Settings, s: State, e: Event, t: nat)
    requires Enabled(cfg, s, e) && t < |s.threads| && (e.Tick? || e.t != t)
    ensures var s' := Next(cfg, s, e); |s'.threads| == |s.threads| && s'.threads[t] == s.threads[t]
  {
  }

  lemma StoreKeepsCacheSound(cfg: Settings, s: State, t: nat)
    requires Sound(cfg, s) && Enabled(cfg, s, Store(t))
    ensures var s' := Next(cfg, s, Store(t));
            CacheIsLastInstall(s') && InstallsAreDocuments(cfg, s') && TimesAreOrdered(s') && s.installs <= s'.installs
  {
    assert ThreadIsSound(cfg, s, s.threads[t]);
  }

  lemma ActorIsSound(cfg: Settings, s: State, e: Event)
    requires Sound(cfg, s) && Enabled(cfg, s, e) && !e.Tick?
    ensures ThreadIsSound(cfg, Next(cfg, s, e), Next(cfg, s, e).threads[e.t])
  {
    assert ThreadIsSound(cfg, s, s.threads[e.t]);
    assert KeysAfter(s.installs, |s.installs|) == s.keys;
  }

  lemma StepKeepsSound(cfg: Settings, s: State, e: Event)
    requires Sound(cfg, s) && Enabled(cfg, s, e)
    ensures Sound(cfg, Next(cfg, s, e)) && |Next(cfg, s, e).threads| == |s.threads|
  {
    var s' := Next(cfg, s, e);
    if e.Store? {
      StoreKeepsCacheSound(cfg, s, e.t);
    } else {
      OnlyStoreChangesCache(cfg, s, e);
    }
    forall t | 0 <= t < |s'.threads| ensures ThreadIsSound(cfg, s', s'.threads[t]) {
      if e.Tick? || e.t != t {
        OthersStay(cfg, s, e, t);
        StoreKeepsThreads(cfg, s, s', s.threads[t]);
      } else {
        ActorIsSound(cfg, s, e);
      }
    }
  }

  /** Every state of every run, for any number of callers and any interleaving. */
  lemma {:induction false} ReachableIsSound(cfg: Settings, callers: nat, start: int, events: seq<Event>)
    requires Run(cfg, callers, start, events).Some?
    ensures Sound(cfg, Run(cfg, callers, start, events).value)
    ensures |Run(cfg, callers, start, events).value.threads| == callers
  {
    if events != [] {
      var n := |events| - 1;
      ReachableIsSound(cfg, callers, start, events[..n]);
      StepKeepsSound(cfg, Run(cfg, callers, start, events[..n]).value, events[n]);
    }
  }
}
