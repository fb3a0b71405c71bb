/** What holds of the JWKS cache over every run of the step machine. */
module JwksTheorems {
  import opened Domain
  import opened RsaKey
  import opened Jwks

  lemma RunOneMore(cfg: Settings, callers: nat, start: int, events: seq<Event>, e: Event)
    requires Run(cfg, callers, start, events).Some? && Enabled(cfg, Run(cfg, callers, start, events).value, e)
    ensures Run(cfg, callers, start, events + [e]) == Some(Next(cfg, Run(cfg, callers, start, events).value, e))
  {
    assert (events + [e])[..|events|] == events;
  }

  // ---- Provenance ----

  /** The document was fetched during the run. */
  ghost predicate Fetched(events: seq<Event>, doc: seq<Jwk>) {
    exists i | 0 <= i < |events| :: events[i].FetchYields? && events[i].doc == doc
  }

  ghost predicate DocumentsWereFetched(events: seq<Event>, s: State) {
    && (forall i | 0 <= i < |s.installs| :: Fetched(events, s.installs[i].doc))
    && (forall t | 0 <= t < |s.threads| && s.threads[t].Storing? :: Fetched(events, s.threads[t].doc))
  }

  lemma {:induction false} InstalledWasFetched(cfg: Settings, callers: nat, start: int, events: seq<Event>)
    requires Run(cfg, callers, start, events).Some?
    ensures DocumentsWereFetched(events, Run(cfg, callers, start, events).value)
  {
    if events != [] {
      var n := |events| - 1;
      InstalledWasFetched(cfg, callers, start, events[..n]);
      var s, s' := Run(cfg, callers, start, events[..n]).value, Run(cfg, callers, start, events).value;
      forall doc | Fetched(events[..n], doc) ensures Fetched(events, doc) {
        var i :| 0 <= i < n && events[..n][i].FetchYields? && events[..n][i].doc == doc;
        assert events[i].FetchYields?;
      }
      forall t | 0 <= t < |s'.threads| && s'.threads[t].Storing? ensures Fetched(events, s'.threads[t].doc) {
        if events[n].FetchYields? && events[n].t == t {
          assert events[n].doc == s'.threads[t].doc;
        } else {
          assert s.threads[t] == s'.threads[t];
        }
      }
      if events[n].Store? {
        assert s.threads[events[n].t].Storing?;
      }
    }
  }

  /** In every reachable state the cache is empty, before any install, or exactly the key map extracted
      from one document that was fetched during the run: never a mix, and never emptied again. */
  lemma Provenance(cfg: Settings, callers: nat, start: int, events: seq<Event>)
    requires NeverEmpty(cfg) && Run(cfg, callers, start, events).Some?
    ensures var s := Run(cfg, callers, start, events).value;
            if s.installs == [] then s.keys == map[] && s.fetchedAt == None
            else s.keys != map[] && exists doc :: Fetched(events, doc) && cfg.extract(doc) == Ok(s.keys)
  {
    ReachableIsSound(cfg, callers, start, events);
    InstalledWasFetched(cfg, callers, start, events);
    var s := Run(cfg, callers, start, events).value;
    if s.installs != [] {
      var last := s.installs[|s.installs| - 1];
      assert Fetched(events, last.doc) && cfg.extract(last.doc) == Ok(s.keys);
    }
  }

  /** Along a run, installs are never undone and fetchedAt never goes back. */
  lemma {:induction false} CacheMovesForward(cfg: Settings, callers: nat, start: int, events: seq<Event>, n: nat)
    requires Run(cfg, callers, start, events).Some? && n <= |events|
    ensures Run(cfg, callers, start, events[..n]).Some?
    ensures var a, b := Run(cfg, callers, start, events[..n]).value, Run(cfg, callers, start, events).value;
            && a.installs <= b.installs && a.now <= b.now
            && (a.fetchedAt.Some? ==> b.fetchedAt.Some? && a.fetchedAt.value <= b.fetchedAt.value)
    decreases |events|
  {
    if n < |events| {
      var m := |events| - 1;
      assert events[..m][..n] == events[..n];
      CacheMovesForward(cfg, callers, start, events[..m], n);
      ReachableIsSound(cfg, callers, start, events[..m]);
    } else {
      assert events[..n] == events;
    }
  }

  /** Every key that a call returns was bound to the requested kid by an installed document. */
  lemma ReturnedKeyWasInstalled(cfg: Settings, callers: nat, start: int, events: seq<Event>, t: nat)
    requires Run(cfg, callers, start, events).Some?
    ensures var s := Run(cfg, callers, start, events).value;
            |s.threads| == callers &&
            (t < callers && s.threads[t].Returned? && s.threads[t].result.Ok? ==>
               exists i | 0 <= i < |s.installs| ::
                 Lookup(s.installs[i].keys, s.threads[t].call.kid) == Some(s.threads[t].result.value) &&
                 Fetched(events, s.installs[i].doc))
  {
    ReachableIsSound(cfg, callers, start, events);
    InstalledWasFetched(cfg, callers, start, events);
    var s := Run(cfg, callers, start, events).value;
    if t < callers && s.threads[t].Returned? && s.threads[t].result.Ok? {
      var th := s.threads[t];
      assert ThreadIsSound(cfg, s, th);
      var n := if th.call.cached == Some(th.result.value) then th.call.seen else th.upto;
      assert n > 0 && KeysAfter(s.installs, n) == s.installs[n - 1].keys;
      assert Fetched(events, s.installs[n - 1].doc);
    }
  }

  /** Availability: a call that saw its kid in the cache fails only because an install that happened between
      its two reads dropped the kid. A failed fetch alone never turns a cached kid into an error. */
  lemma CachedKidFailsOnlyIfDropped(cfg: Settings, callers: nat, start: int, events: seq<Event>, t: nat)
    requires Run(cfg, callers, start, events).Some?
    ensures var s := Run(cfg, callers, start, events).value;
            |s.threads| == callers &&
            (t < callers && s.threads[t].Returned? && s.threads[t].result.Err? && s.threads[t].call.cached.Some? ==>
               exists i | s.threads[t].call.seen <= i < s.threads[t].upto <= |s.installs| ::
                 s.threads[t].call.kid !in s.installs[i].keys)
  {
    ReachableIsSound(cfg, callers, start, events);
    var s := Run(cfg, callers, start, events).value;
    if t < callers && s.threads[t].Returned? && s.threads[t].result.Err? && s.threads[t].call.cached.Some? {
      assert ThreadIsSound(cfg, s, s.threads[t]);
    }
  }

  /** A call is answered from the cache alone exactly when the last install has its kid and is younger than
      the time to live; in every other case it goes on to refresh. */
  lemma CacheHitsAreFresh(cfg: Settings, callers: nat, start: int, events: seq<Event>, t: nat)
    requires Run(cfg, callers, start, events).Some?
    requires Enabled(cfg, Run(cfg, callers, start, events).value, FirstRead(t))
    ensures var s := Run(cfg, callers, start, events).value;
            var th, kid := Next(cfg, s, FirstRead(t)).threads[t], s.threads[t].kid;
            && (th.Returned? || th.Refreshing?)
            && (th.Returned? <==> s.installs != [] && var last := s.installs[|s.installs| - 1];
                                  kid in last.keys && s.now < last.time + cfg.ttl)
            && (th.Returned? ==> th.result == Ok(s.installs[|s.installs| - 1].keys[kid]))
  {
    ReachableIsSound(cfg, callers, start, events);
  }

  /** How a call can end, in terms of the installs so far: with a fresh cached key at its first read; when its
      fetch failed or its document was no good, with the key it had seen, or else with that failure; or with
      what the keys in force at its second read say. */
  lemma HowCallsEnd(cfg: Settings, callers: nat, start: int, events: seq<Event>, e: Event)
    requires Run(cfg, callers, start, events).Some? && Enabled(cfg, Run(cfg, callers, start, events).value, e)
    requires !e.Tick? && Next(cfg, Run(cfg, callers, start, events).value, e).threads[e.t].Returned?
    ensures var s := Run(cfg, callers, start, events).value;
            var th, inForce := Next(cfg, s, e).threads[e.t], KeysAfter(s.installs, |s.installs|);
            var c, seen := th.call, th.call.cached;
            && th.upto == |s.installs|
            && match e
               case FirstRead(_) =>
                 && s.installs != [] && s.now < s.installs[|s.installs| - 1].time + cfg.ttl
                 && c.kid in inForce && th.result == Ok(inForce[c.kid])
               case FetchFails(_, error) =>
                 if seen.Some? then th.result == Ok(seen.value) else th.result == Err(error)
               case FetchYields(_, doc) =>
                 cfg.extract(doc).Err? &&
                 if seen.Some? then th.result == Ok(seen.value) else th.result == Err(cfg.extract(doc).error)
               case SecondRead(_) =>
                 && (th.result.Ok? <==> c.kid in inForce)
                 && (th.result.Ok? ==> th.result.value == inForce[c.kid])
               case _ => false
  {
    ReachableIsSound(cfg, callers, start, events);
    var s := Run(cfg, callers, start, events).value;
    assert KeysAfter(s.installs, |s.installs|) == s.keys;
  }

  /** A key that is no longer in force when the call returns it was kept because a fetch or an extraction failed. */
  lemma StaleKeyOnlyAfterFailure(cfg: Settings, callers: nat, start: int, events: seq<Event>, e: Event)
    requires Run(cfg, callers, start, events).Some? && Enabled(cfg, Run(cfg, callers, start, events).value, e)
    requires !e.Tick? && Next(cfg, Run(cfg, callers, start, events).value, e).threads[e.t].Returned?
    ensures var s := Run(cfg, callers, start, events).value;
            var th := Next(cfg, s, e).threads[e.t];
            th.result.Ok? && (th.call.kid !in s.keys || s.keys[th.call.kid] != th.result.value) ==>
              e.FetchFails? || (e.FetchYields? && cfg.extract(e.doc).Err?)
  {
    HowCallsEnd(cfg, callers, start, events, e);
    ReachableIsSound(cfg, callers, start, events);
  }

  // ---- Rate limit ----

  /** How many installs fall in the window [w, w + length). */
  function InstallsIn(installs: seq<Install>, w: int, length: int): nat {
    if installs == [] then 0
    else
      var n := |installs| - 1;
      InstallsIn(installs[..n], w, length) + (if w <= installs[n].time < w + length then 1 else 0)
  }

  predicate PastCheck(th: Thread) { th.Fetching? || th.Storing? }

  /** How many callers are past the rate-limit check and may still install. */
  function InFlight(threads: seq<Thread>): nat {
    if threads == [] then 0
    else
      var n := |threads| - 1;
      InFlight(threads[..n]) + (if PastCheck(threads[n]) then 1 else 0)
  }

  lemma {:induction false} InFlightBound(threads: seq<Thread>)
    ensures InFlight(threads) <= |threads|
  {
    if threads != [] {
      InFlightBound(threads[..|threads| - 1]);
    }
  }

  lemma {:induction false} InFlightUpdate(threads: seq<Thread>, t: nat, th: Thread)
    requires t < |threads|
    ensures InFlight(threads[t := th]) ==
            InFlight(threads) - (if PastCheck(threads[t]) then 1 else 0) + (if PastCheck(th) then 1 else 0)
  {
    var n := |threads| - 1;
    if t < n {
      assert threads[t := th][..n] == threads[..n][t := th];
      InFlightUpdate(threads[..n], t, th);
    } else {
      assert threads[t := th][..n] == threads[..n];
    }
  }

  lemma {:induction false} SomeInstallIn(installs: seq<Install>, w: int, length: int) returns (i: nat)
    requires InstallsIn(installs, w, length) > 0
    ensures i < |installs| && w <= installs[i].time < w + length
  {
    var n := |installs| - 1;
    if w <= installs[n].time < w + length {
      i := n;
    } else {
      i := SomeInstallIn(installs[..n], w, length);
    }
  }

  ghost predicate WindowIsBounded(cfg: Settings, s: State, w: int) {
    var count := InstallsIn(s.installs, w, cfg.minRefresh);
    && count <= |s.threads|
    && (count >= 1 && s.now < w + cfg.minRefresh ==> count + InFlight(s.threads) <= |s.threads|)
  }

  /** Once an install happened in a window, nobody passes the rate-limit check before the window ends. */
  lemma NobodyPassesTheCheck(cfg: Settings, s: State, w: int)
    requires NeverEmpty(cfg) && Sound(cfg, s)
    requires InstallsIn(s.installs, w, cfg.minRefresh) >= 1 && s.now < w + cfg.minRefresh
    ensures TooSoon(cfg, s)
  {
    var i := SomeInstallIn(s.installs, w, cfg.minRefresh);
    var last := s.installs[|s.installs| - 1];
    assert s.installs[i].time <= last.time;
    assert cfg.extract(last.doc) == Ok(s.keys);
  }

  lemma OneMoreInstall(installs: seq<Install>, last: Install, w: int, length: int)
    ensures InstallsIn(installs + [last], w, length) ==
            InstallsIn(installs, w, length) + (if w <= last.time < w + length then 1 else 0)
  {
    assert (installs + [last])[..|installs|] == installs;
  }

  lemma StoreKeepsWindow(cfg: Settings, s: State, t: nat, w: int)
    requires Sound(cfg, s) && WindowIsBounded(cfg, s, w) && Enabled(cfg, s, Store(t))
    ensures WindowIsBounded(cfg, Next(cfg, s, Store(t)), w)
  {
    var s' := Next(cfg, s, Store(t));
    InFlightBound(s.threads);
    InFlightUpdate(s.threads, t, s'.threads[t]);
    OneMoreInstall(s.installs, s'.installs[|s.installs|], w, cfg.minRefresh);
    if InstallsIn(s.installs, w, cfg.minRefresh) >= 1 {
      var i := SomeInstallIn(s.installs, w, cfg.minRefresh);
    }
  }

  lemma StepKeepsWindow(cfg: Settings, s: State, e: Event, w: int)
    requires NeverEmpty(cfg) && Sound(cfg, s) && WindowIsBounded(cfg, s, w) && Enabled(cfg, s, e)
    ensures WindowIsBounded(cfg, Next(cfg, s, e), w)
  {
    if e.Store? {
      StoreKeepsWindow(cfg, s, e.t, w);
    } else {
      OnlyStoreChangesCache(cfg, s, e);
      if !e.Tick? {
        InFlightUpdate(s.threads, e.t, Next(cfg, s, e).threads[e.t]);
      }
      if e.RateCheck? && InstallsIn(s.installs, w, cfg.minRefresh) >= 1 && s.now < w + cfg.minRefresh {
        NobodyPassesTheCheck(cfg, s, w);
      }
    }
  }

  /** In every run, any window of length minRefresh contains at most as many installs as there are callers. */
  lemma {:induction false} InstallsAreRateLimited(cfg: Settings, callers: nat, start: int, events: seq<Event>, w: int)
    requires NeverEmpty(cfg) && Run(cfg, callers, start, events).Some?
    ensures WindowIsBounded(cfg, Run(cfg, callers, start, events).value, w)
    ensures InstallsIn(Run(cfg, callers, start, events).value.installs, w, cfg.minRefresh) <= callers
  {
    ReachableIsSound(cfg, callers, start, events);
    if events != [] {
      var n := |events| - 1;
      InstallsAreRateLimited(cfg, callers, start, events[..n], w);
      ReachableIsSound(cfg, callers, start, events[..n]);
      StepKeepsWindow(cfg, Run(cfg, callers, start, events[..n]).value, events[n], w);
    }
  }

  // ---- The bound is reached ----

  ghost function RaceCall(kid: string, start: int): Call { Call(kid, None, 0, start) }

  /** The first n callers are past the check, the others have not started, and nothing was installed. */
  ghost predicate Gathered(s: State, callers: nat, start: int, kid: string, n: nat) {
    && n <= callers == |s.threads|
    && s.now == start && s.keys == map[] && s.fetchedAt == None && s.installs == []
    && (forall t | 0 <= t < n :: s.threads[t] == Fetching(RaceCall(kid, start)))
    && (forall t | n <= t < callers :: s.threads[t] == Idle)
  }

  lemma {:induction false} Gather(cfg: Settings, callers: nat, start: int, kid: string, n: nat) returns (events: seq<Event>)
    requires n <= callers
    ensures Run(cfg, callers, start, events).Some?
    ensures Gathered(Run(cfg, callers, start, events).value, callers, start, kid, n)
  {
    if n == 0 {
      events := [];
    } else {
      var t := n - 1;
      var before := Gather(cfg, callers, start, kid, t);
      RunOneMore(cfg, callers, start, before, Enter(t, kid));
      RunOneMore(cfg, callers, start, before + [Enter(t, kid)], FirstRead(t));
      RunOneMore(cfg, callers, start, before + [Enter(t, kid)] + [FirstRead(t)], RateCheck(t));
      events := before + [Enter(t, kid)] + [FirstRead(t)] + [RateCheck(t)];
    }
  }

  /** The first n callers have installed, all at the start time; the others are still fetching. */
  ghost predicate Burst(s: State, callers: nat, start: int, kid: string, n: nat) {
    && n <= callers == |s.threads| && |s.installs| == n && s.now == start
    && (forall i | 0 <= i < n :: s.installs[i].time == start)
    && (forall t | n <= t < callers :: s.threads[t] == Fetching(RaceCall(kid, start)))
  }

  lemma {:induction false} InstallAll(cfg: Settings, callers: nat, start: int, kid: string, doc: seq<Jwk>, n: nat)
    returns (events: seq<Event>)
    requires n <= callers && cfg.extract(doc).Ok?
    ensures Run(cfg, callers, start, events).Some?
    ensures Burst(Run(cfg, callers, start, events).value, callers, start, kid, n)
  {
    if n == 0 {
      events := Gather(cfg, callers, start, kid, callers);
    } else {
      var t := n - 1;
      var before := InstallAll(cfg, callers, start, kid, doc, t);
      RunOneMore(cfg, callers, start, before, FetchYields(t, doc));
      RunOneMore(cfg, callers, start, before + [FetchYields(t, doc)], Store(t));
      events := before + [FetchYields(t, doc)] + [Store(t)];
    }
  }

  lemma {:induction false} CountAll(installs: seq<Install>, w: int, length: int)
    requires forall i | 0 <= i < |installs| :: w <= installs[i].time < w + length
    ensures InstallsIn(installs, w, length) == |installs|
  {
    if installs != [] {
      CountAll(installs[..|installs| - 1], w, length);
    }
  }

  /** The bound cannot be lowered: callers that race past the check on a cold cache all install at once. */
  lemma BoundIsReached(cfg: Settings, callers: nat, start: int, doc: seq<Jwk>) returns (events: seq<Event>)
    requires cfg.minRefresh > 0 && cfg.extract(doc).Ok?
    ensures Run(cfg, callers, start, events).Some?
    ensures InstallsIn(Run(cfg, callers, start, events).value.installs, start, cfg.minRefresh) == callers
  {
    events := InstallAll(cfg, callers, start, "", doc, callers);
    CountAll(Run(cfg, callers, start, events).value.installs, start, cfg.minRefresh);
  }

  // ---- What minRefresh does not limit ----

  function FetchesMade(events: seq<Event>): nat {
    if events == [] then 0
    else
      var n := |events| - 1;
      FetchesMade(events[..n]) + (if events[n].FetchFails? || events[n].FetchYields? then 1 else 0)
  }

  /** The check counts successes only: it holds a caller back if and only if something was installed less than
      minRefresh ago. */
  lemma CheckLooksAtInstallsOnly(cfg: Settings, s: State)
    requires NeverEmpty(cfg) && Sound(cfg, s)
    ensures TooSoon(cfg, s) <==> exists i | 0 <= i < |s.installs| :: s.now - s.installs[i].time < cfg.minRefresh
  {
    if s.installs != [] {
      var last := s.installs[|s.installs| - 1];
      assert cfg.extract(last.doc) == Ok(s.keys);
      assert TooSoon(cfg, s) <==> s.now - last.time < cfg.minRefresh;
    }
  }

  /** minRefresh is described as a floor between refreshes that avoids hammering the endpoint. It is one only
      after a success: a failed refresh leaves fetchedAt alone, so a single caller can send any number of
      requests without time passing. CheckLooksAtInstallsOnly says exactly when it holds a caller back. */
  lemma {:induction false} FailuresAreNotRateLimited(cfg: Settings, start: int, kid: string, e: Error, n: nat)
    returns (events: seq<Event>)
    ensures Run(cfg, 1, start, events).Some? && FetchesMade(events) == n
    ensures var s := Run(cfg, 1, start, events).value;
            && s.now == start && s.keys == map[] && s.fetchedAt == None
            && |s.threads| == 1 && (s.threads[0].Idle? || s.threads[0].Returned?)
  {
    if n == 0 {
      events := [];
    } else {
      var before := FailuresAreNotRateLimited(cfg, start, kid, e, n - 1);
      RunOneMore(cfg, 1, start, before, Enter(0, kid));
      RunOneMore(cfg, 1, start, before + [Enter(0, kid)], FirstRead(0));
      RunOneMore(cfg, 1, start, before + [Enter(0, kid)] + [FirstRead(0)], RateCheck(0));
      RunOneMore(cfg, 1, start, before + [Enter(0, kid)] + [FirstRead(0)] + [RateCheck(0)], FetchFails(0, e));
      events := before + [Enter(0, kid)] + [FirstRead(0)] + [RateCheck(0)] + [FetchFails(0, e)];
      OneMoreFetch(before, Enter(0, kid));
      OneMoreFetch(before + [Enter(0, kid)], FirstRead(0));
      OneMoreFetch(before + [Enter(0, kid)] + [FirstRead(0)], RateCheck(0));
      OneMoreFetch(before + [Enter(0, kid)] + [FirstRead(0)] + [RateCheck(0)], FetchFails(0, e));
    }
  }

  lemma OneMoreFetch(events: seq<Event>, e: Event)
    ensures FetchesMade(events + [e]) == FetchesMade(events) + (if e.FetchFails? || e.FetchYields? then 1 else 0)
  {
    assert (events + [e])[..|events|] == events;
  }
}
