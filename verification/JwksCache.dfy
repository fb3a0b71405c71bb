/** The cache object itself: the calls that the step machine interleaves, in their own program order. */
module JwksCache {
  import opened Domain
  import opened RsaKey
  import opened KeySet
  import opened Jwks
  import JwksTheorems

  /** What is wrong with an answer of the endpoint: the request failed, or the document yields no keys. */
  function Trouble(cfg: Settings, answer: Result<seq<Jwk>>): Option<Error> {
    if answer.Err? then Some(answer.error)
    else if cfg.extract(answer.value).Err? then Some(cfg.extract(answer.value).error)
    else None
  }

  class JwksCache {
    const cfg: Settings
    var keys: KeyMap
    var fetchedAt: Option<int>

    // The clock, the other callers, and the history of installs.
    var now: int
    var threads: seq<Thread>
    var installs: seq<Install>
    ghost const start: int
    ghost const callers: nat
    ghost var trace: seq<Event>
    /** What the endpoint answered to the calls made on this object. */
    ghost var answers: seq<Result<seq<Jwk>>>

    function View(): State
      reads this
    {
      State(now, keys, fetchedAt, threads, installs)
    }

    /** The object is in the state that its trace of steps leads to. */
    ghost predicate Valid()
      reads this
    {
      Run(cfg, callers, start, trace) == Some(View())
    }

    constructor (cfg: Settings, callers: nat, start: int)
      ensures Valid() && this.cfg == cfg && keys == map[] && |threads| == callers
    {
      this.cfg := cfg;
      keys, fetchedAt := map[], None;
      now, threads, installs := start, seq(callers, _ => Idle), [];
      this.start, this.callers, trace, answers := start, callers, [], [];
    }

    /** The call's first read found its kid in a key map younger than the time to live. */
    ghost predicate FreshHit(c: Call)
      reads this
    {
      c.cached.Some? && 0 < c.seen <= |installs| && c.at < installs[c.seen - 1].time + cfg.ttl
    }

    /** The call has returned what the keys in force at its second read say about its kid. */
    ghost predicate ReturnsInForce(t: nat)
      reads this
      requires t < |threads|
    {
      var th := threads[t];
      && th.Returned? && th.call.seen <= th.upto <= |installs|
      && (th.result.Ok? <==> th.call.kid in KeysAfter(installs, th.upto))
      && (th.result.Ok? ==> th.result.value == KeysAfter(installs, th.upto)[th.call.kid])
    }

    /** Some install before the second read was less than minRefresh old at the given time, or came after it. */
    ghost predicate HeldBack(upto: nat, since: int)
      reads this
    {
      exists i | 0 <= i < upto <= |installs| :: since < installs[i].time + cfg.minRefresh
    }

    /** The document was installed after the first `from` installs and before the second read. */
    ghost predicate InstalledBetween(from: nat, upto: nat, doc: seq<Jwk>)
      reads this
    {
      exists i | from <= i < upto <= |installs| :: installs[i].doc == doc
    }

    /** How the rest of a call went that was not answered from the cache: the endpoint was not asked because
        the last install was recent; or it was, and its answer was no good, so that a key seen before is
        served and else the failure is reported; or its document was installed. */
    ghost predicate EndsAfterRefresh(t: nat, earlier: seq<Result<seq<Jwk>>>, from: nat, since: int)
      reads this
      requires t < |threads|
    {
      var th := threads[t];
      && th.Returned? && earlier <= answers && |answers| <= |earlier| + 1
      && if answers == earlier then HeldBack(th.upto, since) && ReturnsInForce(t)
         else
           var answer := answers[|earlier|];
           match Trouble(cfg, answer)
           case Some(e) => th.result == if th.call.cached.Some? then Ok(th.call.cached.value) else Err(e)
           case None => ReturnsInForce(t) && InstalledBetween(from, th.upto, answer.value)
    }

    /** The endpoint was asked, and this was wrong with its answer. */
    ghost predicate FailsFor(earlier: seq<Result<seq<Jwk>>>, e: Error)
      reads this
    {
      |answers| == |earlier| + 1 && Trouble(cfg, answers[|earlier|]) == Some(e)
    }

    /** The keys in force after `upto` installs did not have the kid. */
    ghost predicate MissedAt(upto: nat, kid: string)
      reads this
    {
      upto <= |installs| && kid !in KeysAfter(installs, upto)
    }

    ghost predicate Stepped(before: State, earlier: seq<Event>, e: Event)
      reads this
    {
      Valid() && Enabled(cfg, before, e) && View() == Next(cfg, before, e) && trace == earlier + [e]
    }

    /** Any step of any thread. */
    method Step(e: Event)
      requires Valid() && Enabled(cfg, View(), e)
      modifies this
      ensures answers == old(answers) && Stepped(old(View()), old(trace), e)
    {
      JwksTheorems.RunOneMore(cfg, callers, start, trace, e);
      var next := Next(cfg, View(), e);
      now, keys, fetchedAt, threads, installs := next.now, next.keys, next.fetchedAt, next.threads, next.installs;
      trace := trace + [e];
      assert View() == next;
    }

    /** While thread t is outside a lock section, everybody else may act and time may pass. */
    method Others(t: nat)
      requires Valid() && t < |threads|
      modifies this
      ensures Valid() && old(trace) <= trace && old(installs) <= installs
      ensures t < |threads| && threads[t] == old(threads[t])
      ensures answers == old(answers) && now >= old(now)
    {
      var n: nat := *;
      while n > 0
        invariant Valid() && old(trace) <= trace && old(installs) <= installs
        invariant t < |threads| && threads[t] == old(threads[t])
        invariant answers == old(answers) && now >= old(now)
      {
        var e: Event := *;
        if Enabled(cfg, View(), e) && Actor(e) != Some(t) {
          Step(e);
        }
        n := n - 1;
      }
    }

    /** A call of key comes in. */
    method Begin(kid: string, t: nat)
      requires Valid() && t < |threads| && (threads[t].Idle? || threads[t].Returned?)
      modifies this
      ensures answers == old(answers) && Valid() && trace == old(trace) + [Enter(t, kid)]
      ensures installs == old(installs) && now == old(now) && t < |threads| && threads[t] == Entered(kid)
    {
      Step(Enter(t, kid));
    }

    /** The first lock section of key. */
    method ReadCached(kid: string, t: nat) returns (cached: Option<PublicKey>, isFresh: bool)
      requires Valid() && t < |threads| && threads[t] == Entered(kid)
      modifies this
      ensures answers == old(answers) && Valid() && trace == old(trace) + [FirstRead(t)]
      ensures installs == old(installs) && now == old(now)
      ensures t < |threads| && var c := Call(kid, cached, |installs|, now);
              threads[t] == if cached.Some? && isFresh then Returned(c, c.seen, Ok(cached.value)) else Refreshing(c)
      ensures cached == Lookup(KeysAfter(installs, |installs|), kid)
      ensures isFresh <==> installs != [] && now < installs[|installs| - 1].time + cfg.ttl
    {
      LastInstallIsInForce();
      cached := if kid in keys then Some(keys[kid]) else None;
      isFresh := fetchedAt.Some? && now - fetchedAt.value < cfg.ttl;
      Step(FirstRead(t));
    }

    /** The lock section of the rate-limit check. */
    method CheckTooSoon(t: nat) returns (tooSoon: bool)
      requires Valid() && t < |threads| && threads[t].Refreshing?
      modifies this
      ensures answers == old(answers) && Stepped(old(View()), old(trace), RateCheck(t))
      ensures tooSoon == TooSoon(cfg, old(View()))
    {
      tooSoon := |keys| > 0 && fetchedAt.Some? && now - fetchedAt.value < cfg.minRefresh;
      Step(RateCheck(t));
    }

    /** The write lock section: install the keys with the current time. */
    method InstallKeys(t: nat, newKeys: KeyMap)
      requires Valid() && t < |threads| && threads[t].Storing? && threads[t].keys == newKeys
      modifies this
      ensures answers == old(answers) && Stepped(old(View()), old(trace), Store(t))
      ensures keys == newKeys && fetchedAt == Some(old(now))
      ensures installs == old(installs) + [Install(old(now), old(threads[t]).doc, newKeys)]
    {
      JwksTheorems.RunOneMore(cfg, callers, start, trace, Store(t));
      var th := threads[t];
      keys := newKeys;
      fetchedAt := Some(now);
      threads := threads[t := Rereading(th.call)];
      installs := installs + [Install(now, th.doc, newKeys)];
      trace := trace + [Store(t)];
    }

    /** The second lock section of key. */
    method ReadAgain(kid: string, t: nat) returns (key: Option<PublicKey>)
      requires Valid() && t < |threads| && threads[t].Rereading? && threads[t].call.kid == kid
      modifies this
      ensures answers == old(answers) && Stepped(old(View()), old(trace), SecondRead(t))
      ensures key == Lookup(old(keys), kid)
      ensures threads[t].call == old(threads[t].call) && threads[t].upto == |installs| && installs == old(installs)
    {
      key := if kid in keys then Some(keys[kid]) else None;
      Step(SecondRead(t));
    }

    /** The request for the key set: anything can come back. */
    method Fetch() returns (r: Result<seq<Jwk>>)
      modifies this`answers
      ensures answers == old(answers) + [r]
    {
      r := *;
      answers := answers + [r];
    }

    /** refresh asks the endpoint exactly when the last install is not recent enough. It returns nil when it
        did not ask, or after installing the keys of the document it got; else it returns what was wrong. */
    method Refresh(t: nat) returns (err: Option<Error>)
      requires Valid() && t < |threads| && threads[t].Refreshing?
      modifies this
      ensures Valid() && old(trace) <= trace && old(installs) <= installs && t < |threads|
      ensures var c := old(threads[t]).call;
              if err.None? then threads[t] == Rereading(c)
              else threads[t] == AfterFailure(c, |installs|, err.value)
      ensures if TooSoon(cfg, old(View())) then
                err.None? && answers == old(answers) && keys == old(keys) && fetchedAt == old(fetchedAt)
              else
                && |answers| == |old(answers)| + 1 && old(answers) <= answers
                && err == Trouble(cfg, answers[|answers| - 1])
                && (err.None? ==> keys == cfg.extract(answers[|answers| - 1].value).value && fetchedAt == Some(now))
                && (err.None? ==> InstalledBetween(|old(installs)|, |installs|, answers[|answers| - 1].value))
      ensures now >= old(now)
      ensures TooSoon(cfg, old(View())) ==> HeldBack(|installs|, old(now))
    {
      if TooSoon(cfg, View()) {
        RecentInstall();
      }
      var tooSoon := CheckTooSoon(t);
      if tooSoon {
        return None;
      }
      err := FetchAndInstall(t);
    }

    /** refresh past its check: fetch, extract, install. */
    method FetchAndInstall(t: nat) returns (err: Option<Error>)
      requires Valid() && t < |threads| && threads[t].Fetching?
      modifies this
      ensures Valid() && old(trace) <= trace && old(installs) <= installs && t < |threads|
      ensures var c := old(threads[t]).call;
              if err.None? then threads[t] == Rereading(c)
              else threads[t] == AfterFailure(c, |installs|, err.value)
      ensures |answers| == |old(answers)| + 1 && old(answers) <= answers
      ensures err == Trouble(cfg, answers[|answers| - 1])
      ensures err.None? ==> keys == cfg.extract(answers[|answers| - 1].value).value && fetchedAt == Some(now)
      ensures err.None? ==> InstalledBetween(|old(installs)|, |installs|, answers[|answers| - 1].value)
      ensures now >= old(now)
    {
      Others(t);
      var doc := Fetch();
      if doc.Err? {
        Step(FetchFails(t, doc.error));
        return Some(doc.error);
      }
      var extracted := cfg.extract(doc.value);
      Step(FetchYields(t, doc.value));
      if extracted.Err? {
        return Some(extracted.error);
      }
      Others(t);
      InstallKeys(t, extracted.value);
      assert installs[|installs| - 1].doc == doc.value;
      err := None;
    }

    lemma RecentInstall()
      requires Valid() && TooSoon(cfg, View())
      ensures HeldBack(|installs|, now)
    {
      ReachableIsSound(cfg, callers, start, trace);
      assert now < installs[|installs| - 1].time + cfg.minRefresh;
    }

    /** key returns the RSA key for a kid. What it returns was installed under that kid. If it fails although
        the kid was cached at its first read, a later install dropped the kid; so while nothing is installed,
        a cached kid is always served, whatever the endpoint does. */
    method Key(kid: string, t: nat) returns (r: Result<PublicKey>)
      requires Valid() && t < |threads| && (threads[t].Idle? || threads[t].Returned?)
      modifies this
      ensures Valid() && old(trace) <= trace && old(installs) <= installs
      ensures t < |threads| && threads[t].Returned? && threads[t].result == r && threads[t].call.kid == kid
      ensures |old(installs)| <= threads[t].call.seen
      ensures r.Ok? ==> exists i | 0 <= i < |installs| :: Lookup(installs[i].keys, kid) == Some(r.value)
      ensures r.Err? && threads[t].call.cached.Some? ==>
                exists i | threads[t].call.seen <= i < |installs| :: kid !in installs[i].keys
      ensures kid in old(keys) && installs == old(installs) ==> r == Ok(old(keys)[kid])
      ensures old(answers) <= answers && |answers| <= |old(answers)| + 1
      ensures r.Err? ==> FailsFor(old(answers), r.error) || MissedAt(threads[t].upto, kid)
      ensures threads[t].call.seen <= |installs| && threads[t].call.at >= old(now)
      ensures threads[t].call.cached == Lookup(KeysAfter(installs, threads[t].call.seen), kid)
      ensures if FreshHit(threads[t].call) then answers == old(answers) && r == Ok(threads[t].call.cached.value)
              else EndsAfterRefresh(t, old(answers), threads[t].call.seen, threads[t].call.at)
    {
      LastInstallIsInForce();
      var cached, isFresh := FirstSection(kid, t);
      if cached.Some? && isFresh {
        r := Ok(cached.value);
      } else {
        r := KeyAfterRefresh(kid, cached, t);
      }
      KeyFacts(t);
    }

    /** key up to the end of its first lock section. */
    method FirstSection(kid: string, t: nat) returns (cached: Option<PublicKey>, isFresh: bool)
      requires Valid() && t < |threads| && (threads[t].Idle? || threads[t].Returned?)
      modifies this
      ensures Valid() && old(trace) <= trace && old(installs) <= installs && answers == old(answers) && now >= old(now)
      ensures t < |threads| && var c := Call(kid, cached, |installs|, now);
              && (isFresh <==> installs != [] && now < installs[|installs| - 1].time + cfg.ttl)
              && cached == Lookup(KeysAfter(installs, |installs|), kid)
              && threads[t] == if cached.Some? && isFresh then Returned(c, c.seen, Ok(cached.value)) else Refreshing(c)
    {
      Begin(kid, t);
      Others(t);
      cached, isFresh := ReadCached(kid, t);
    }

    /** The rest of key: the kid is unknown or the set is stale. */
    method KeyAfterRefresh(kid: string, cached: Option<PublicKey>, t: nat) returns (r: Result<PublicKey>)
      requires Valid() && t < |threads|
      requires threads[t].Refreshing? && threads[t].call.kid == kid && threads[t].call.cached == cached
      requires threads[t].call.seen <= |installs|
      modifies this
      ensures Valid() && old(trace) <= trace && old(installs) <= installs
      ensures t < |threads| && threads[t].Returned? && threads[t].result == r && threads[t].call == old(threads[t].call)
      ensures EndsAfterRefresh(t, old(answers), |old(installs)|, old(now))
      ensures old(answers) <= answers && |answers| <= |old(answers)| + 1
      ensures r.Err? ==> FailsFor(old(answers), r.error) || MissedAt(threads[t].upto, kid)
    {
      Others(t);
      var err := Refresh(t);
      if err.Some? {
        return if cached.Some? then Ok(cached.value) else Err(err.value);
      }
      Others(t);
      LastInstallIsInForce();
      var key := ReadAgain(kid, t);
      r := if key.Some? then Ok(key.value) else Err(Other);
    }

    lemma LastInstallIsInForce()
      requires Valid()
      ensures KeysAfter(installs, |installs|) == keys
      ensures fetchedAt == if installs == [] then None else Some(installs[|installs| - 1].time)
    {
      ReachableIsSound(cfg, callers, start, trace);
    }

    lemma KeyFacts(t: nat)
      requires Valid() && t < |threads| && threads[t].Returned?
      ensures var c, r := threads[t].call, threads[t].result;
              && (r.Ok? ==> exists i | 0 <= i < |installs| :: Lookup(installs[i].keys, c.kid) == Some(r.value))
              && (r.Err? && c.cached.Some? ==> exists i | c.seen <= i < |installs| :: c.kid !in installs[i].keys)
              && (c.seen >= |installs| && c.kid in keys ==> r == Ok(keys[c.kid]))
              && KeysAfter(installs, |installs|) == keys
    {
      ReachableIsSound(cfg, callers, start, trace);
      JwksTheorems.ReturnedKeyWasInstalled(cfg, callers, start, trace, t);
      JwksTheorems.CachedKidFailsOnlyIfDropped(cfg, callers, start, trace, t);
      assert ThreadIsSound(cfg, View(), threads[t]);
      LastInstallIsInForce();
    }
  }

  // ---- The gateway's own settings ----

  function GatewaySettings(ttl: int, minRefresh: int): Settings {
    Settings(ttl, minRefresh, doc => Extract(RsaPublicKey, doc))
  }

  lemma GatewayNeverInstallsEmpty(ttl: int, minRefresh: int)
    ensures NeverEmpty(GatewaySettings(ttl, minRefresh))
  {
    var cfg := GatewaySettings(ttl, minRefresh);
    forall doc | cfg.extract(doc).Ok? ensures cfg.extract(doc).value != map[] {
      ExtractIsExact(RsaPublicKey, doc);
    }
  }

  /** In every run of the gateway's cache it is empty, before any install, or holds for each key id the key of
      the last usable entry with that id in one fetched document; no other map does. */
  lemma GatewayCacheIsOneDocument(ttl: int, minRefresh: int, callers: nat, start: int, events: seq<Event>)
    requires Run(GatewaySettings(ttl, minRefresh), callers, start, events).Some?
    ensures var s := Run(GatewaySettings(ttl, minRefresh), callers, start, events).value;
            if s.installs == [] then s.keys == map[]
            else exists doc :: JwksTheorems.Fetched(events, doc) && Installable(RsaPublicKey, doc) &&
                               forall m :: IsKeyMapOf(RsaPublicKey, m, doc) <==> m == s.keys
  {
    var cfg := GatewaySettings(ttl, minRefresh);
    var s := Run(cfg, callers, start, events).value;
    GatewayNeverInstallsEmpty(ttl, minRefresh);
    JwksTheorems.Provenance(cfg, callers, start, events);
    if s.installs != [] {
      var doc :| JwksTheorems.Fetched(events, doc) && cfg.extract(doc) == Ok(s.keys);
      ExtractIsExact(RsaPublicKey, doc);
      forall m | IsKeyMapOf(RsaPublicKey, m, doc) ensures m == s.keys {
        KeyMapIsUnique(RsaPublicKey, m, s.keys, doc);
      }
    }
  }

  /** A key that a call of the gateway returns is the one its kid's last usable entry stands for, in a
      document that was fetched during the run. */
  lemma GatewayReturnsFetchedKeys(ttl: int, minRefresh: int, callers: nat, start: int, events: seq<Event>, t: nat)
    requires Run(GatewaySettings(ttl, minRefresh), callers, start, events).Some? && t < callers
    ensures var s := Run(GatewaySettings(ttl, minRefresh), callers, start, events).value;
            t < |s.threads| &&
            (s.threads[t].Returned? && s.threads[t].result.Ok? ==>
               exists doc: seq<Jwk>, i: int :: JwksTheorems.Fetched(events, doc) && LastFor(doc, s.threads[t].call.kid, i) &&
                                RsaPublicKey(doc[i]) == s.threads[t].result &&
                                doc[i].kty == "RSA" && (doc[i].use == "" || doc[i].use == "sig"))
  {
    var cfg := GatewaySettings(ttl, minRefresh);
    var s := Run(cfg, callers, start, events).value;
    ReachableIsSound(cfg, callers, start, events);
    JwksTheorems.ReturnedKeyWasInstalled(cfg, callers, start, events, t);
    if s.threads[t].Returned? && s.threads[t].result.Ok? {
      var kid := s.threads[t].call.kid;
      var n :| 0 <= n < |s.installs| && Lookup(s.installs[n].keys, kid) == Some(s.threads[t].result.value) &&
               JwksTheorems.Fetched(events, s.installs[n].doc);
      var doc := s.installs[n].doc;
      assert cfg.extract(doc) == Ok(s.installs[n].keys);
      ExtractIsExact(RsaPublicKey, doc);
      var i :| LastFor(doc, kid, i) && RsaPublicKey(doc[i]) == Ok(s.installs[n].keys[kid]);
    }
  }

  /** The gateway's installs keep to the rate limit. */
  lemma GatewayInstallsAreRateLimited(ttl: int, minRefresh: int, callers: nat, start: int, events: seq<Event>, w: int)
    requires Run(GatewaySettings(ttl, minRefresh), callers, start, events).Some?
    ensures JwksTheorems.InstallsIn(Run(GatewaySettings(ttl, minRefresh), callers, start, events).value.installs,
                                    w, minRefresh) <= callers
  {
    GatewayNeverInstallsEmpty(ttl, minRefresh);
    JwksTheorems.InstallsAreRateLimited(GatewaySettings(ttl, minRefresh), callers, start, events, w);
  }

  /** A key map installed from a document serves, under each kid, exactly the modulus and exponent that the
      last signature entry of that kid publishes. */
  lemma InstalledKeyIsThePublishedOne(doc: seq<Jwk>, keys: KeyMap, i: int, kid: string, n: nat, e: nat)
    requires Extract(RsaPublicKey, doc) == Ok(keys) && 0 <= i < |doc| && doc[i].kid == kid
    requires doc[i].kty == "RSA" && (doc[i].use == "" || doc[i].use == "sig")
    requires forall j | i < j < |doc| && doc[j].kid == kid ::
               doc[j].kty != "RSA" || (doc[j].use != "" && doc[j].use != "sig")
    requires n > 0 && 0 < e < TWO63 && Publishes(doc[i], n, e)
    ensures kid in keys && keys[kid] == PublicKey(n, e)
  {
    ExtractIsExact(RsaPublicKey, doc);
    PublishedKeyIsRecovered(doc[i], n, e);
    assert LastFor(doc, kid, i);
    var j :| LastFor(doc, kid, j) && RsaPublicKey(doc[j]) == Ok(keys[kid]);
    assert i == j;
  }
}
