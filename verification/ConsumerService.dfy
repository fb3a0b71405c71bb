/** The consume use case: validate the query, clamp its limits, scan, and filter what was scanned. */
module ConsumerService {
  import opened Domain
  import opened BrokerLog
  import opened Client

  /** None, or an empty header map, means no criterion. */
  datatype MessageFilter = MessageFilter(
    key: Option<Bytes>, headers: map<Bytes, Bytes>, since: Option<int>, until: Option<int>)

  datatype ConsumeQuery = ConsumeQuery(
    topic: string, partition: int, offset: int, fromTime: Option<int>, limit: int, timeout: int, filter: MessageFilter)

  datatype ConsumeResult = ConsumeResult(messages: seq<ConsumedMessage>, scanned: nat)

  datatype ConsumerConfig = ConsumerConfig(defaultLimit: int, maxLimit: int, defaultWait: int, maxWait: int)

  predicate IsZero(f: MessageFilter) {
    f.key.None? && |f.headers| == 0 && f.since.None? && f.until.None?
  }

  /** string(m.Key): a nil key reads as the empty string. */
  function KeyText(key: Option<Bytes>): Bytes {
    if key.Some? then key.value else []
  }

  ghost predicate Carries(headers: seq<Header>, key: Bytes, value: Bytes) {
    exists i | 0 <= i < |headers| :: headers[i] == Header(key, value)
  }

  /** What a filter means: every criterion holds. */
  ghost predicate Satisfies(f: MessageFilter, m: ConsumedMessage) {
    && (f.key.Some? ==> KeyText(m.key) == f.key.value)
    && (f.since.Some? ==> f.since.value <= m.timestamp)
    && (f.until.Some? ==> m.timestamp <= f.until.value)
    && (forall k | k in f.headers :: Carries(m.headers, k, f.headers[k]))
  }

  method HasHeader(headers: seq<Header>, key: Bytes, value: Bytes) returns (found: bool)
    ensures found <==> Carries(headers, key, value)
  {
    for i := 0 to |headers|
      invariant forall j | 0 <= j < i :: headers[j] != Header(key, value)
    {
      if headers[i].key == key && headers[i].value == value {
        return true;
      }
    }
    return false;
  }

  /** Matches walks the required headers in an unspecified order and stops at the first miss. */
  method Matches(f: MessageFilter, m: ConsumedMessage) returns (matches: bool)
    ensures matches <==> Satisfies(f, m)
  {
    if f.key.Some? && KeyText(m.key) != f.key.value {
      return false;
    }
    if f.since.Some? && m.timestamp < f.since.value {
      return false;
    }
    if f.until.Some? && m.timestamp > f.until.value {
      return false;
    }
    var remaining := f.headers.Keys;
    while remaining != {}
      invariant remaining <= f.headers.Keys
      invariant forall k | k in f.headers.Keys - remaining :: Carries(m.headers, k, f.headers[k])
    {
      ghost var _ := HasMember(remaining);
      var k :| k in remaining;
      remaining := remaining - {k};
      var carried := HasHeader(m.headers, k, f.headers[k]);
      if !carried {
        return false;
      }
    }
    return true;
  }

  /** The scanned messages that satisfy the filter, in scan order. */
  ghost function Selected(f: MessageFilter, scanned: seq<ConsumedMessage>): seq<ConsumedMessage> {
    if scanned == [] then []
    else
      var n := |scanned| - 1;
      Selected(f, scanned[..n]) + (if Satisfies(f, scanned[n]) then [scanned[n]] else [])
  }

  lemma {:induction false} ZeroFilterSelectsAll(f: MessageFilter, scanned: seq<ConsumedMessage>)
    requires IsZero(f)
    ensures Selected(f, scanned) == scanned
  {
    if scanned != [] {
      var n := |scanned| - 1;
      ZeroFilterSelectsAll(f, scanned[..n]);
      assert scanned == scanned[..n] + [scanned[n]];
    }
  }

  /** The positions of the selected messages. */
  ghost function Positions(f: MessageFilter, scanned: seq<ConsumedMessage>): seq<nat> {
    if scanned == [] then []
    else
      var n := |scanned| - 1;
      Positions(f, scanned[..n]) + (if Satisfies(f, scanned[n]) then [n] else [])
  }

  /** These are the messages at these positions; the positions increase and are exactly the satisfying ones. */
  ghost predicate Selects(f: MessageFilter, scanned: seq<ConsumedMessage>, at: seq<nat>, out: seq<ConsumedMessage>) {
    && |at| == |out| <= |scanned|
    && (forall j | 0 <= j < |at| :: at[j] < |scanned| && out[j] == scanned[at[j]])
    && (forall j, k | 0 <= j < k < |at| :: at[j] < at[k])
    && (forall i | 0 <= i < |scanned| :: i in at <==> Satisfies(f, scanned[i]))
  }

  /** The selection keeps scan order and holds message i exactly when it satisfies the filter. */
  lemma {:induction false} SelectionIsExact(f: MessageFilter, scanned: seq<ConsumedMessage>)
    ensures Selects(f, scanned, Positions(f, scanned), Selected(f, scanned))
  {
    if scanned != [] {
      var n := |scanned| - 1;
      SelectionIsExact(f, scanned[..n]);
      SelectsOneMore(f, scanned, Positions(f, scanned[..n]), Selected(f, scanned[..n]));
    }
  }

  lemma SelectsOneMore(f: MessageFilter, scanned: seq<ConsumedMessage>, at: seq<nat>, out: seq<ConsumedMessage>)
    requires scanned != [] && Selects(f, scanned[..|scanned| - 1], at, out)
    ensures var n := |scanned| - 1;
            Selects(f, scanned, at + (if Satisfies(f, scanned[n]) then [n] else []),
                    out + (if Satisfies(f, scanned[n]) then [scanned[n]] else []))
  {
    var n := |scanned| - 1;
    var front := scanned[..n];
    var at' := at + (if Satisfies(f, scanned[n]) then [n] else []);
    forall i | 0 <= i < |scanned| ensures i in at' <==> Satisfies(f, scanned[i]) {
      if i < n {
        assert front[i] == scanned[i];
        assert i in at' <==> i in at;
      }
    }
  }

  /** A message is in the result exactly when it was scanned and meets every criterion: the key's bytes, a time
      from `since` to `until`, both included, and each header with its value. */
  lemma ResultMeetsEveryCriterion(f: MessageFilter, scanned: seq<ConsumedMessage>, m: ConsumedMessage)
    ensures m in Selected(f, scanned) <==>
            && m in scanned
            && (f.key.None? || m.key == f.key || (m.key.None? && f.key == Some([])))
            && (f.since.None? || m.timestamp >= f.since.value)
            && (f.until.None? || m.timestamp <= f.until.value)
            && (forall name | name in f.headers :: Header(name, f.headers[name]) in m.headers)
  {
    SelectionIsExact(f, scanned);
    var at, out := Positions(f, scanned), Selected(f, scanned);
    if m in out {
      var j :| 0 <= j < |out| && out[j] == m;
      assert at[j] in at && scanned[at[j]] == m;
    }
    if m in scanned && Satisfies(f, m) {
      var i :| 0 <= i < |scanned| && scanned[i] == m;
      assert i in at;
      var j :| 0 <= j < |at| && at[j] == i;
      assert out[j] == m;
    }
    assert forall name | name in f.headers ::
      Carries(m.headers, name, f.headers[name]) <==> Header(name, f.headers[name]) in m.headers;
  }

  /** The refused windows are those that no time can satisfy. */
  lemma RefusedWindowsAreEmpty(f: MessageFilter)
    ensures Backwards(f) <==> forall t :: !InWindow(f, t)
  {
    if !Backwards(f) {
      assert InWindow(f, if f.since.Some? then f.since.value else if f.until.Some? then f.until.value else 0);
    }
  }

  predicate InWindow(f: MessageFilter, t: int) {
    (f.since.Some? ==> f.since.value <= t) && (f.until.Some? ==> t <= f.until.value)
  }

  /** Filtering page by page and filtering the whole scan give the same messages. */
  lemma {:induction false} FilterByPages(f: MessageFilter, a: seq<ConsumedMessage>, b: seq<ConsumedMessage>)
    ensures Selected(f, a + b) == Selected(f, a) + Selected(f, b)
  {
    if b == [] {
      assert a + b == a;
    } else {
      var n := |b| - 1;
      assert (a + b)[..|a + b| - 1] == a + b[..n];
      FilterByPages(f, a, b[..n]);
    }
  }

  // ---- Limits ----

  /** clamp, and clampDuration on durations: the default replaces a non-positive value, then the maximum caps it. */
  function Clamp(v: int, def: int, max: int): int {
    var v' := if v <= 0 then def else v;
    if v' > max then max else v'
  }

  /** The bounds of a validated configuration. */
  predicate ValidLimits(cfg: ConsumerConfig) {
    1 <= cfg.defaultLimit <= cfg.maxLimit && cfg.defaultWait <= cfg.maxWait
  }

  /** The documented range [1, max] holds for every requested value if and only if the default and the
      maximum are themselves positive. */
  lemma ClampRange(def: int, max: int)
    ensures (forall v :: 1 <= Clamp(v, def, max) <= max) <==> 1 <= def && 1 <= max
  {
    assert Clamp(0, def, max) == if def > max then max else def;
  }

  /** Under validated limits the forwarded limit is in [1, max] for every request. The forwarded wait has no
      such guarantee: it is positive for every request if and only if the configured default wait is. */
  lemma ForwardedLimits(cfg: ConsumerConfig, v: int)
    requires ValidLimits(cfg)
    ensures 1 <= Clamp(v, cfg.defaultLimit, cfg.maxLimit) <= cfg.maxLimit
    ensures 1 <= v <= cfg.maxLimit ==> Clamp(v, cfg.defaultLimit, cfg.maxLimit) == v
    ensures v > cfg.maxLimit ==> Clamp(v, cfg.defaultLimit, cfg.maxLimit) == cfg.maxLimit
    ensures v <= 0 ==> Clamp(v, cfg.defaultLimit, cfg.maxLimit) == cfg.defaultLimit
    ensures 1 <= v <= cfg.maxWait ==> Clamp(v, cfg.defaultWait, cfg.maxWait) == v
    ensures v > 0 && v > cfg.maxWait ==> Clamp(v, cfg.defaultWait, cfg.maxWait) == cfg.maxWait
    ensures v <= 0 ==> Clamp(v, cfg.defaultWait, cfg.maxWait) == cfg.defaultWait
    ensures (forall w :: Clamp(w, cfg.defaultWait, cfg.maxWait) > 0) <==> cfg.defaultWait > 0
  {
    assert Clamp(0, cfg.defaultWait, cfg.maxWait) == cfg.defaultWait;
  }

  class ConsumerService {
    const reader: Client
    const cfg: ConsumerConfig

    constructor (reader: Client, cfg: ConsumerConfig)
      ensures this.reader == reader && this.cfg == cfg
    {
      this.reader, this.cfg := reader, cfg;
    }

    /** Consume returns the messages of the scanned window that satisfy the filter. A query that fails
        validation never reaches the broker. */
    method Consume(q: ConsumeQuery)
      returns (r: Result<ConsumeResult>, ghost scanned: seq<ConsumedMessage>, ghost seen: Logs,
               ghost asked: seq<Answer>)
      requires ValidLimits(cfg)
      modifies reader.broker
      ensures Grows(old(reader.broker.logs), seen) && Grows(seen, reader.broker.logs)
      ensures q.topic == "" ==> r == Err(Known(EmptyTopic))
      ensures q.topic != "" && (q.partition < 0 || Backwards(q.filter)) ==> r == Err(Wrapped(Known(InvalidQuery)))
      ensures reader.broker.answers == old(reader.broker.answers) + asked
      ensures if q.topic == "" || q.partition < 0 || Backwards(q.filter)
              then r.Err? && asked == [] && reader.broker.logs == old(reader.broker.logs)
              else (r.Err? ==> r.error.Wrapped?) &&
                   ReadExplains(asked, RequestFor(q, cfg), if r.Ok? then Ok(scanned) else Err(r.error.inner))
      ensures r.Ok? ==>
                && r.value.messages == Selected(q.filter, scanned) && r.value.scanned == |scanned|
                && |r.value.messages| <= |scanned| <= Clamp(q.limit, cfg.defaultLimit, cfg.maxLimit)
      // a scan that nothing cuts short reads the requested number of records, or the default, or the maximum
      ensures r.Ok? && (forall k | 0 <= k < |asked| :: Succeeded(asked[k])) ==>
                |scanned| == |asked| - 1 ==
                if q.limit <= 0 then cfg.defaultLimit else if q.limit <= cfg.maxLimit then q.limit else cfg.maxLimit
      ensures |asked| <= 1 + cfg.maxLimit
      ensures r.Ok? && scanned != [] ==>
                var req := RequestFor(q, cfg);
                q.partition in seen &&
                ReadFrom(reader.broker.logs[q.partition], q.partition, StartFor(seen[q.partition], req), scanned)
    {
      scanned, seen, asked := [], reader.broker.logs, [];
      if q.topic == "" {
        return Err(Known(EmptyTopic)), scanned, seen, asked;
      }
      if q.partition < 0 {
        return Err(Wrapped(Known(InvalidQuery))), scanned, seen, asked;
      }
      if q.filter.since.Some? && q.filter.until.Some? && q.filter.until.value < q.filter.since.value {
        return Err(Wrapped(Known(InvalidQuery))), scanned, seen, asked;
      }
      ForwardedLimits(cfg, q.limit);
      var read;
      read, seen, asked := reader.Read(Context(true), RequestFor(q, cfg));
      if read.Err? {
        return Err(Wrapped(read.error)), scanned, seen, asked;
      }
      scanned := read.value;
      var messages := read.value;
      if IsZero(q.filter) {
        ZeroFilterSelectsAll(q.filter, scanned);
      } else {
        messages := Select(q.filter, read.value);
      }
      SelectionIsExact(q.filter, scanned);
      r := Ok(ConsumeResult(messages, |read.value|));
    }

    method Select(f: MessageFilter, scanned: seq<ConsumedMessage>) returns (messages: seq<ConsumedMessage>)
      ensures messages == Selected(f, scanned)
    {
      messages := [];
      for i := 0 to |scanned|
        invariant messages == Selected(f, scanned[..i])
      {
        assert scanned[..i + 1][..i] == scanned[..i];
        var matches := Matches(f, scanned[i]);
        if matches {
          messages := messages + [scanned[i]];
        }
      }
      assert scanned[..|scanned|] == scanned;
    }
  }

  predicate Backwards(f: MessageFilter) {
    f.since.Some? && f.until.Some? && f.until.value < f.since.value
  }

  function RequestFor(q: ConsumeQuery, cfg: ConsumerConfig): ReadRequest {
    ReadRequest(q.topic, q.partition, q.offset, q.fromTime, Clamp(q.limit, cfg.defaultLimit, cfg.maxLimit))
  }
}
