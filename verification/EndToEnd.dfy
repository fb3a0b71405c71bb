/** Publishing and consuming through the whole gateway, over one broker that others keep using. */
module EndToEnd {
  import opened Domain
  import opened Errors
  import opened BrokerLog
  import opened SyncProducer
  import opened PublisherService
  import opened Client
  import opened ConsumerService
  import opened Headers
  import opened Payload
  import ReadTheorems

  /** The filter that asks for the published key and all published headers. */
  function FilterFor(req: MessageRequest): MessageFilter {
    MessageFilter(Some(req.key), req.headers, None, None)
  }

  lemma OwnFilterAccepts(lib: Library, req: MessageRequest, m: Message, c: ConsumedMessage)
    requires Represents(lib, m, req) && c.key == m.key && c.headers == m.headers
    ensures Satisfies(FilterFor(req), c)
  {
  }

  lemma SelectionKeepsTheFirst(f: MessageFilter, scanned: seq<ConsumedMessage>)
    requires scanned != [] && Satisfies(f, scanned[0])
    ensures Selected(f, scanned) != [] && Selected(f, scanned)[0] == scanned[0]
  {
    assert scanned == [scanned[0]] + scanned[1..];
    FilterByPages(f, [scanned[0]], scanned[1..]);
    assert Selected(f, [scanned[0]]) == [scanned[0]] by {
      assert Selected(f, []) == [];
    }
  }

  /** What the scan of one partition from a published coordinate must show first. */
  lemma PublishedComesFirst(lib: Library, req: MessageRequest, m: Message, published: Logs, seen: Logs, final: Logs,
                            call: nat, route: seq<int>, bases: map<int, int>, results: seq<PublishResult>,
                            rr: ReadRequest, scanned: seq<ConsumedMessage>)
    requires Lawful(lib) && Represents(lib, m, req) && m.value != []
    requires Published(published, call, [m], route, bases, results)
    requires Grows(published, seen) && Grows(seen, final)
    requires rr.partition == results[0].partition && rr.offset == results[0].offset && rr.fromTime.None?
    requires scanned != [] && rr.partition in seen
    requires ReadFrom(final[rr.partition], rr.partition, StartFor(seen[rr.partition], rr), scanned)
    requires final[rr.partition].low <= results[0].offset
    ensures var selected := Selected(FilterFor(req), scanned);
            selected != [] && ShowsRequest(lib, Show(lib, selected[0]), req, results[0])
  {
    ReadTheorems.ReadYourWrites(published, seen, final, call, [m], route, bases, results, 0, rr, scanned);
    OwnFilterAccepts(lib, req, m, scanned[0]);
    SelectionKeepsTheFirst(FilterFor(req), scanned);
    ShownAsPublished(lib, req, m, scanned[0]);
  }

  /** The shown message is the published request, at the reported coordinate. */
  ghost predicate ShowsRequest(lib: Library, s: ShownMessage, req: MessageRequest, at: PublishResult) {
    && s.partition == at.partition && s.offset == at.offset
    && s.headers == req.headers
    && (lib.utf8Valid(req.key) ==> s.key == req.key)
    && DecodePublishValue(lib, s.value, s.valueEncoding) == DecodePublishValue(lib, req.value, req.valueEncoding)
  }

  predicate Publishable(lib: Library, topic: string, req: MessageRequest) {
    var value := DecodePublishValue(lib, req.value, req.valueEncoding);
    topic != "" && value.Ok? && value.value != []
  }

  /** Nothing went wrong but that the context may have ended while waiting for a record, and the topic is
      known to the broker. */
  ghost predicate Smooth(asked: seq<Answer>, topic: string) {
    forall k | 0 <= k < |asked| ::
      && (Succeeded(asked[k]) || WaitEnded(asked[k]))
      && (asked[k].Listed? ==> ListsTopic(asked[k].topics, topic))
  }

  ghost predicate WaitEnded(a: Answer) {
    a.Fetched? && a.failure.Some? && ContextEnded(a.failure.value)
  }

  ghost predicate AllSucceeded(asked: seq<Answer>) {
    forall k | 0 <= k < |asked| :: Succeeded(asked[k])
  }

  ghost predicate SomeFetched(asked: seq<Answer>) {
    exists k | 0 <= k < |asked| :: asked[k] == Fetched(None)
  }

  ghost predicate ListsTopic(topics: Result<seq<TopicInfo>>, topic: string) {
    topics.Ok? && exists k: nat :: FirstNamed(topics.value, topic, k) &&
                                   topics.value[k].error.None? && topics.value[k].partitions != []
  }

  /** A publish never fetches, and without failures it succeeds. */
  lemma PublishSucceeds(asked: seq<Answer>, topic: string, acks: Acks, ids: seq<int>, route: seq<int>,
                        bases: map<int, int>, r: Result<seq<PublishResult>>)
    requires Explains(asked, topic, acks, ids, route, bases, r)
    ensures !SomeFetched(asked)
    ensures Smooth(asked, topic) ==> r.Ok?
  {
    forall k | 0 < k < |asked| ensures asked[k].Sent? {
      assert asked[k] == asked[1..][k - 1];
    }
    if Smooth(asked, topic) {
      assert ListsTopic(asked[0].topics, topic);
      if |asked| > 1 {
        var sent := asked[1..];
        var failed :| WalkEnds(sent, PartsOf(route), failed) && if failed.None? then r.Ok? else r == Err(Translate(failed.value));
        assert sent[|sent| - 1] == asked[|asked| - 1];
      }
    }
  }

  /** A consume that at most the context cuts short succeeds; it has scanned something as soon as one fetch
      brought a record, and as many records as its limit when the context did not end. */
  lemma ConsumeSucceeds(asked: seq<Answer>, topic: string, rr: ReadRequest, r: Result<seq<ConsumedMessage>>)
    requires ReadExplains(asked, rr, r) && Smooth(asked, topic)
    ensures r.Ok? && (|r.value| > 0 <==> SomeFetched(asked))
    ensures AllSucceeded(asked) ==> |r.value| == rr.limit
  {
    if r.Ok? && |r.value| > 0 {
      assert asked[1] == Fetched(None);
    }
  }

  lemma SmoothSplits(first: seq<Answer>, rest: seq<Answer>, topic: string)
    ensures Smooth(first + rest, topic) <==> Smooth(first, topic) && Smooth(rest, topic)
    ensures AllSucceeded(first + rest) <==> AllSucceeded(first) && AllSucceeded(rest)
    ensures SomeFetched(first + rest) <==> SomeFetched(first) || SomeFetched(rest)
  {
    var all := first + rest;
    assert forall k | 0 <= k < |first| :: all[k] == first[k];
    assert forall k | 0 <= k < |rest| :: all[|first| + k] == rest[k];
  }

  /** One client publishes a message in sync mode and then consumes from the coordinate in its receipt,
      asking for its own key and headers. Other clients and retention act before, between and after. If
      nothing fails, except that the context may end while the scan waits for more records, the client gets a
      receipt, and it scans a record exactly when some fetch brought one. As soon as a record was scanned and
      retention has not reached the receipt, the first message shown is the one published: same key, headers
      and value bytes, at the same coordinate. */
  method PublishThenConsume(lib: Library, publisher: PublisherService, consumer: ConsumerService,
                            topic: string, req: MessageRequest, limit: int, timeout: int, call: nat)
    returns (receipt: Option<PublishResult>, shown: Option<seq<ShownMessage>>, scanned: nat, ghost asked: seq<Answer>)
    requires publisher.producer.broker == consumer.reader.broker
    requires Lawful(lib) && IsBalancer(publisher.producer.hash) && ValidLimits(consumer.cfg)
    requires Unused(publisher.producer.broker.logs, call)
    modifies publisher.producer.broker
    ensures publisher.producer.broker.answers == old(publisher.producer.broker.answers) + asked
    ensures shown.Some? ==> receipt.Some? && scanned <= Clamp(limit, consumer.cfg.defaultLimit, consumer.cfg.maxLimit)
    ensures shown.Some? && scanned > 0 && publisher.producer.acks != AcksNone ==>
              var logs, at := publisher.producer.broker.logs, receipt.value;
              at.partition in logs &&
              (logs[at.partition].low <= at.offset ==>
                 shown.value != [] && ShowsRequest(lib, shown.value[0], req, at))
    ensures Publishable(lib, topic, req) && Smooth(asked, topic) ==>
              receipt.Some? &&
              (receipt.value.partition >= 0 ==>
                 shown.Some? && (scanned > 0 <==> SomeFetched(asked)) && (AllSucceeded(asked) ==> scanned > 0))
  {
    shown, scanned := None, 0;
    ghost var m, route, bases, rest;
    receipt, m, route, bases, asked := PublishOne(lib, publisher, topic, req, call);
    if receipt.None? {
      return;
    }
    ghost var published := publisher.producer.broker.logs;
    publisher.producer.broker.Advance();
    label Between:
    ghost var window, seen;
    shown, scanned, window, seen, rest := ConsumeAt(lib, consumer, topic, req, receipt.value, limit, timeout);
    AnswersAdded(old(publisher.producer.broker.answers), asked, rest);
    SmoothSplits(asked, rest, topic);
    asked := asked + rest;

    ghost var final := publisher.producer.broker.logs;
    GrowsIsTransitive(published, old@Between(publisher.producer.broker.logs), seen);
    GrowsIsTransitive(published, seen, final);
    var at := receipt.value;
    if shown.Some? && scanned > 0 && publisher.producer.acks != AcksNone && final[at.partition].low <= at.offset {
      PublishedComesFirst(lib, req, m, published, seen, final, call, route, bases, [at],
                          ReceiptRequest(consumer.cfg, topic, req, at, limit, timeout), window);
    }
  }

  /** The publishing half: a receipt for a message that stands for the request. */
  method PublishOne(lib: Library, publisher: PublisherService, topic: string, req: MessageRequest, call: nat)
    returns (receipt: Option<PublishResult>, ghost m: Message, ghost route: seq<int>, ghost bases: map<int, int>,
             ghost asked: seq<Answer>)
    requires IsBalancer(publisher.producer.hash) && Unused(publisher.producer.broker.logs, call)
    modifies publisher.producer.broker
    ensures Grows(old(publisher.producer.broker.logs), publisher.producer.broker.logs)
    ensures publisher.producer.broker.answers == old(publisher.producer.broker.answers) + asked
    ensures receipt.Some? ==> Represents(lib, m, req) && m.value != []
    ensures receipt.Some? && publisher.producer.acks != AcksNone ==>
              Published(publisher.producer.broker.logs, call, [m], route, bases, [receipt.value])
    ensures !SomeFetched(asked) && (Publishable(lib, topic, req) && Smooth(asked, topic) ==> receipt.Some?)
  {
    receipt, m, route, bases, asked := None, Message(None, [], []), [], map[], [];
    var decoded := ToMessage(lib, req);
    if decoded.Err? {
      return;
    }
    m := decoded.value;
    receipt, route, bases, asked := PublishMessage(publisher, topic, decoded.value, call);
  }

  method PublishMessage(publisher: PublisherService, topic: string, m: Message, call: nat)
    returns (receipt: Option<PublishResult>, ghost route: seq<int>, ghost bases: map<int, int>, ghost asked: seq<Answer>)
    requires IsBalancer(publisher.producer.hash) && Unused(publisher.producer.broker.logs, call)
    modifies publisher.producer.broker
    ensures Grows(old(publisher.producer.broker.logs), publisher.producer.broker.logs)
    ensures publisher.producer.broker.answers == old(publisher.producer.broker.answers) + asked
    ensures receipt.Some? ==> ValidBatch(topic, [m]) && m.value != []
    ensures receipt.Some? && publisher.producer.acks != AcksNone ==>
              Published(publisher.producer.broker.logs, call, [m], route, bases, [receipt.value])
    ensures !SomeFetched(asked) && (ValidBatch(topic, [m]) && Smooth(asked, topic) ==> receipt.Some?)
  {
    receipt := None;
    ghost var ids;
    var r: Result<seq<PublishResult>>;
    var msgs := [m];
    r, ids, route, bases, asked := publisher.PublishBatch(topic, msgs, call);
    if ValidBatch(topic, msgs) {
      PublishSucceeds(asked, topic, publisher.producer.acks, ids, route, bases, if r.Ok? then r else Err(r.error.inner));
    }
    if r.Err? || |r.value| == 0 {
      return;
    }
    receipt := Some(r.value[0]);
    OnlyReceipt(r.value);
  }

  lemma OnlyReceipt(results: seq<PublishResult>)
    requires |results| > 0
    ensures |results| == 1 ==> results == [results[0]]
  {
  }

  /** The consume query of the client, as it reaches the reader. */
  function ReceiptQuery(topic: string, req: MessageRequest, at: PublishResult, limit: int, timeout: int): ConsumeQuery {
    ConsumeQuery(topic, at.partition, at.offset, None, limit, timeout, FilterFor(req))
  }

  function ReceiptRequest(cfg: ConsumerConfig, topic: string, req: MessageRequest, at: PublishResult, limit: int,
                          timeout: int): ReadRequest {
    RequestFor(ReceiptQuery(topic, req, at, limit, timeout), cfg)
  }

  /** The consuming half: the matching messages of a window of the log, as they are shown. */
  method ConsumeAt(lib: Library, consumer: ConsumerService, topic: string, req: MessageRequest, at: PublishResult,
                   limit: int, timeout: int)
    returns (shown: Option<seq<ShownMessage>>, scanned: nat, ghost window: seq<ConsumedMessage>, ghost seen: Logs,
             ghost asked: seq<Answer>)
    requires ValidLimits(consumer.cfg)
    modifies consumer.reader.broker
    ensures Grows(old(consumer.reader.broker.logs), seen) && Grows(seen, consumer.reader.broker.logs)
    ensures consumer.reader.broker.answers == old(consumer.reader.broker.answers) + asked
    ensures shown.Some? ==> scanned == |window| <= Clamp(limit, consumer.cfg.defaultLimit, consumer.cfg.maxLimit)
    ensures shown.Some? ==> ShowsAll(lib, shown.value, Selected(FilterFor(req), window))
    ensures shown.Some? && scanned > 0 ==>
              var rr := ReceiptRequest(consumer.cfg, topic, req, at, limit, timeout);
              at.partition in seen &&
              ReadFrom(consumer.reader.broker.logs[at.partition], at.partition, StartFor(seen[at.partition], rr), window)
    ensures topic != "" && at.partition >= 0 && Smooth(asked, topic) ==>
              shown.Some? && (scanned > 0 <==> SomeFetched(asked)) && (AllSucceeded(asked) ==> scanned > 0)
  {
    shown, scanned := None, 0;
    var q := ReceiptQuery(topic, req, at, limit, timeout);
    var c: Result<ConsumeResult>;
    c, window, seen, asked := consumer.Consume(q);
    if topic != "" && at.partition >= 0 && Smooth(asked, topic) {
      ForwardedLimits(consumer.cfg, limit);
      ConsumeSucceeds(asked, topic, RequestFor(q, consumer.cfg), if c.Ok? then Ok(window) else Err(c.error.inner));
    }
    if c.Err? {
      return;
    }
    scanned := c.value.scanned;
    var out := ToConsumedMessages(lib, c.value.messages);
    shown := Some(out[..]);
  }

  ghost predicate ShowsAll(lib: Library, shown: seq<ShownMessage>, msgs: seq<ConsumedMessage>) {
    |shown| == |msgs| && forall i | 0 <= i < |msgs| :: shown[i] == Show(lib, msgs[i])
  }
}
