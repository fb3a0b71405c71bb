/** What a reader can rely on, derived from the contract of Client.Read. */
module ReadTheorems {
  import opened Domain
  import opened BrokerLog
  import opened Errors
  import opened Client
  import opened ConsumerService
  import SyncProducer
  import SyncTheorems

  /** Offsets strictly increase over the whole result. */
  lemma {:induction false} OffsetsIncrease(log: PartitionLog, partition: int, start: nat, out: seq<ConsumedMessage>, j: nat, k: nat)
    requires ReadFrom(log, partition, start, out) && j < k < |out|
    ensures start <= out[j].offset < out[k].offset
    decreases k
  {
    FirstIsNotBeforeStart(log, partition, start, out, j);
    if j < k - 1 {
      OffsetsIncrease(log, partition, start, out, j, k - 1);
    }
    assert Follows(log.low, out[k - 1].offset + 1, out[k].offset);
  }

  lemma {:induction false} FirstIsNotBeforeStart(log: PartitionLog, partition: int, start: nat, out: seq<ConsumedMessage>, j: nat)
    requires ReadFrom(log, partition, start, out) && j < |out|
    ensures start <= out[j].offset
  {
    if j > 0 {
      FirstIsNotBeforeStart(log, partition, start, out, j - 1);
      assert Follows(log.low, out[j - 1].offset + 1, out[j].offset);
    }
  }

  /** A read shows each record as it is stored, field by field. */
  lemma ReadShowsStoredRecords(log: PartitionLog, partition: int, start: nat, out: seq<ConsumedMessage>, k: nat)
    requires ReadFrom(log, partition, start, out) && k < |out|
    ensures var m := out[k];
            && m.partition == partition && 0 <= m.offset < |log.entries|
            && var e := log.entries[m.offset];
            m.timestamp == e.time && m.key == e.record.key && m.value == e.record.value && m.headers == e.record.headers
  {
    assert IsFromLog(log.entries, partition, out[k]);
  }

  /** What a consume with a time filter returns was stored with a time in [since, until]. */
  lemma ResultIsInTheTimeWindow(f: MessageFilter, log: PartitionLog, partition: int, start: nat,
                                scanned: seq<ConsumedMessage>, m: ConsumedMessage)
    requires ReadFrom(log, partition, start, scanned) && m in Selected(f, scanned)
    ensures 0 <= m.offset < |log.entries|
    ensures var stored := log.entries[m.offset].time;
            (f.since.Some? ==> f.since.value <= stored) && (f.until.Some? ==> stored <= f.until.value)
  {
    ResultMeetsEveryCriterion(f, scanned, m);
    var k :| 0 <= k < |scanned| && scanned[k] == m;
    ReadShowsStoredRecords(log, partition, start, scanned, k);
  }

  /** The error of a read that failed: the failure of its last request. A read that ended with its context is
      no failure. */
  lemma FailedRead(asked: seq<Answer>, req: ReadRequest, r: Result<seq<ConsumedMessage>>)
    requires ReadExplains(asked, req, r)
    ensures r.Err? ==>
              match asked[|asked| - 1]
              case Fetched(Some(f)) =>
                && !OnAPath(f, Known(DeadlineExceeded)) && !OnAPath(f, Known(Canceled))
                && r.error == if Contains(f, UNKNOWN_TOPIC) then Known(TopicNotFound) else Wrapped(f)
              case Sought(Some(f)) =>
                |asked| == 1 &&
                r.error == if req.fromTime.Some? && Contains(f, UNKNOWN_TOPIC) then Known(TopicNotFound) else Wrapped(f)
              case _ => false
    ensures r.Ok? && |r.value| < req.limit ==>
              match asked[|asked| - 1]
              case Fetched(Some(f)) => OnAPath(f, Known(DeadlineExceeded)) || OnAPath(f, Known(Canceled))
              case _ => false
  {
    var last := asked[|asked| - 1];
    if !Succeeded(last) {
      IsIffOnAPath(last.failure.value, Known(DeadlineExceeded));
      IsIffOnAPath(last.failure.value, Known(Canceled));
    }
  }

  /** Unless retention passed the start, a read returns exactly the next records of the log, without a gap. */
  lemma ReadIsAWindow(log: PartitionLog, partition: int, start: nat, out: seq<ConsumedMessage>)
    requires ReadFrom(log, partition, start, out) && log.low <= start
    ensures start + |out| <= |log.entries| || out == []
    ensures out != [] ==> out == Window(log.entries, partition, start, |out|)
  {
    forall k | 0 <= k < |out| ensures out[k].offset == start + k && IsFromLog(log.entries, partition, out[k]) {
      OffsetIsStartPlus(log, partition, start, out, k);
    }
    assert out != [] ==> out[|out| - 1].offset == start + |out| - 1;
  }

  lemma {:induction false} OffsetIsStartPlus(log: PartitionLog, partition: int, start: nat, out: seq<ConsumedMessage>, k: nat)
    requires ReadFrom(log, partition, start, out) && log.low <= start && k < |out|
    ensures out[k].offset == start + k
  {
    if k > 0 {
      OffsetIsStartPlus(log, partition, start, out, k - 1);
      assert Follows(log.low, out[k - 1].offset + 1, out[k].offset);
    }
  }

  // ---- Paging ----

  /** One page: the partition's log when the read returned, where it started, and what it returned. */
  datatype Page = Page(log: PartitionLog, start: nat, out: seq<ConsumedMessage>)

  function NextStart(page: Page): int {
    if page.out == [] then page.start else page.out[|page.out| - 1].offset + 1
  }

  predicate LogGrows(a: PartitionLog, b: PartitionLog) {
    a.entries <= b.entries && a.low <= b.low
  }

  /** A client that starts every page after the last offset of the page before, while the log keeps growing. */
  ghost predicate Paging(partition: int, pages: seq<Page>) {
    && (forall i | 0 <= i < |pages| :: ReadFrom(pages[i].log, partition, pages[i].start, pages[i].out))
    && (forall i | 0 < i < |pages| :: LogGrows(pages[i - 1].log, pages[i].log) && pages[i].start == NextStart(pages[i - 1]))
  }

  function AllMessages(pages: seq<Page>): seq<ConsumedMessage> {
    if pages == [] then [] else AllMessages(pages[..|pages| - 1]) + pages[|pages| - 1].out
  }

  /** Paging, with any page sizes, is one long read: nothing is lost, repeated or reordered. */
  lemma {:induction false} PagesAreOneRead(partition: int, pages: seq<Page>)
    requires Paging(partition, pages) && pages != []
    ensures var last := pages[|pages| - 1];
            && ReadFrom(last.log, partition, pages[0].start, AllMessages(pages))
            && NextStart(last) == NextStart(Page(last.log, pages[0].start, AllMessages(pages)))
  {
    var n := |pages| - 1;
    var last := pages[n];
    if n == 0 {
      assert AllMessages(pages) == [] + last.out == last.out by { assert AllMessages(pages[..0]) == []; }
    } else {
      var front := pages[..n];
      PagesAreOneRead(partition, front);
      ReadsJoin(front[n - 1].log, last.log, partition, pages[0].start, AllMessages(front), last.start, last.out);
    }
  }

  lemma ReadsJoin(a: PartitionLog, b: PartitionLog, partition: int, start: nat, first: seq<ConsumedMessage>,
                  next: nat, second: seq<ConsumedMessage>)
    requires ReadFrom(a, partition, start, first) && LogGrows(a, b) && ReadFrom(b, partition, next, second)
    requires next == NextStart(Page(a, start, first))
    ensures ReadFrom(b, partition, start, first + second)
    ensures NextStart(Page(b, start, first + second)) == NextStart(Page(b, next, second))
  {
    ReadStays(a, b, partition, start, first);
    ReadsConcat(b, partition, start, first, next, second);
  }

  lemma ReadsConcat(b: PartitionLog, partition: int, start: nat, first: seq<ConsumedMessage>,
                    next: nat, second: seq<ConsumedMessage>)
    requires ReadFrom(b, partition, start, first) && ReadFrom(b, partition, next, second)
    requires next == NextStart(Page(b, start, first))
    ensures ReadFrom(b, partition, start, first + second)
  {
    var out := first + second;
    forall k | 0 <= k < |out| ensures IsFromLog(b.entries, partition, out[k]) {
      assert out[k] == if k < |first| then first[k] else second[k - |first|];
    }
    forall k | 0 < k < |out| ensures Follows(b.low, out[k - 1].offset + 1, out[k].offset) {
      JoinFollows(b, partition, start, first, next, second, k);
    }
  }

  lemma JoinFollows(log: PartitionLog, partition: int, start: nat, first: seq<ConsumedMessage>,
                    next: nat, second: seq<ConsumedMessage>, k: nat)
    requires ReadFrom(log, partition, start, first) && ReadFrom(log, partition, next, second)
    requires next == NextStart(Page(log, start, first)) && 0 < k < |first + second|
    ensures Follows(log.low, (first + second)[k - 1].offset + 1, (first + second)[k].offset)
  {
    if k < |first| {
      assert Follows(log.low, first[k - 1].offset + 1, first[k].offset);
    } else if k > |first| {
      assert Follows(log.low, second[k - |first| - 1].offset + 1, second[k - |first|].offset);
    }
  }

  /** So with no retention loss the pages concatenate to exactly the log from the first start on. */
  lemma PagesCoverTheLog(partition: int, pages: seq<Page>)
    requires Paging(partition, pages) && pages != []
    requires pages[|pages| - 1].log.low <= pages[0].start
    ensures var all, log := AllMessages(pages), pages[|pages| - 1].log;
            all != [] ==> pages[0].start + |all| <= |log.entries| &&
                          all == Window(log.entries, partition, pages[0].start, |all|)
  {
    PagesAreOneRead(partition, pages);
    ReadIsAWindow(pages[|pages| - 1].log, partition, pages[0].start, AllMessages(pages));
  }

  /** A consume response tells how many records were scanned, not the last scanned offset. Continuing after
      that many records is right if and only if the page has no gap, that is, unless retention passed it. */
  lemma ContinueAfterScanned(partition: int, page: Page)
    requires ReadFrom(page.log, partition, page.start, page.out)
    ensures NextStart(page) == page.start + |page.out| <==>
            forall k | 0 <= k < |page.out| :: page.out[k].offset == page.start + k
    ensures page.log.low <= page.start ==> NextStart(page) == page.start + |page.out|
  {
    var out, n := page.out, |page.out|;
    if out != [] && out[n - 1].offset == page.start + n - 1 {
      forall k | 0 <= k < n ensures out[k].offset == page.start + k {
        OffsetsAreSpaced(page.log, partition, page.start, out, 0, k);
        OffsetsAreSpaced(page.log, partition, page.start, out, k, n - 1);
      }
    }
    if out != [] && page.log.low <= page.start {
      OffsetIsStartPlus(page.log, partition, page.start, out, n - 1);
    }
  }

  lemma {:induction false} OffsetsAreSpaced(log: PartitionLog, partition: int, start: nat, out: seq<ConsumedMessage>, j: nat, k: nat)
    requires ReadFrom(log, partition, start, out) && j <= k < |out|
    ensures start <= out[0].offset && out[k].offset >= out[j].offset + k - j
    decreases k
  {
    if j < k {
      OffsetsAreSpaced(log, partition, start, out, j, k - 1);
      assert Follows(log.low, out[k - 1].offset + 1, out[k].offset);
    }
  }

  // ---- A client that pages ----

  function LogOf(logs: Logs, p: int): PartitionLog {
    if p in logs then logs[p] else RawLog([], 0)
  }

  /** A read at an absolute offset reads from that offset on: what retention removed is skipped, whether it
      was removed before the start was resolved or after. */
  lemma ReadsFromTheRequest(seen: PartitionLog, final: PartitionLog, req: ReadRequest, out: seq<ConsumedMessage>)
    requires req.fromTime.None? && req.offset >= 0 && seen.low <= final.low
    requires ReadFrom(final, req.partition, StartFor(seen, req), out)
    ensures ReadFrom(final, req.partition, req.offset, out)
  {
  }

  /** Pages from `offset` on, after which the client asks for `next`. */
  ghost predicate PagedTo(partition: int, offset: nat, pages: seq<Page>, next: int) {
    && Paging(partition, pages) && next >= 0
    && if pages == [] then next == offset
       else pages[0].start == offset && next == NextStart(pages[|pages| - 1])
  }

  lemma OneMorePage(partition: int, offset: nat, pages: seq<Page>, next: int, page: Page)
    requires PagedTo(partition, offset, pages, next)
    requires ReadFrom(page.log, partition, page.start, page.out) && page.start == next
    requires pages != [] ==> LogGrows(pages[|pages| - 1].log, page.log)
    ensures PagedTo(partition, offset, pages + [page], NextStart(page))
  {
    var more := pages + [page];
    forall i | 0 <= i < |more| ensures ReadFrom(more[i].log, partition, more[i].start, more[i].out) {
      assert i < |pages| ==> more[i] == pages[i];
    }
    forall i | 0 < i < |more| ensures LogGrows(more[i - 1].log, more[i].log) && more[i].start == NextStart(more[i - 1]) {
      assert more[i - 1] == pages[i - 1];
      assert i < |pages| ==> more[i] == pages[i];
    }
    if page.out != [] {
      assert IsFromLog(page.log.entries, partition, page.out[|page.out| - 1]);
    }
  }

  /** The pages of a client that has just read the last of them. */
  ghost predicate PagesRead(partition: int, offset: nat, sizes: seq<nat>, pages: seq<Page>, next: int,
                            all: seq<ConsumedMessage>, log: PartitionLog)
  {
    && PagedTo(partition, offset, pages, next) && |pages| <= |sizes| && all == AllMessages(pages)
    && (forall k | 0 <= k < |pages| :: |pages[k].out| <= sizes[k])
    && (pages != [] ==> LogGrows(pages[|pages| - 1].log, log))
  }

  lemma OneMorePageRead(partition: int, offset: nat, sizes: seq<nat>, pages: seq<Page>, next: int,
                        all: seq<ConsumedMessage>, log: PartitionLog, page: Page)
    requires PagesRead(partition, offset, sizes, pages, next, all, log) && LogGrows(log, page.log)
    requires |pages| < |sizes| && |page.out| <= sizes[|pages|] && page.start == next
    requires ReadFrom(page.log, partition, page.start, page.out)
    ensures PagesRead(partition, offset, sizes, pages + [page], NextStart(page), all + page.out, page.log)
  {
    OneMorePage(partition, offset, pages, next, page);
    MessagesOfOneMorePage(pages, page);
  }

  lemma MessagesOfOneMorePage(pages: seq<Page>, page: Page)
    ensures AllMessages(pages + [page]) == AllMessages(pages) + page.out
  {
    assert (pages + [page])[..|pages|] == pages;
  }

  lemma ReadStays(a: PartitionLog, b: PartitionLog, partition: int, start: nat, out: seq<ConsumedMessage>)
    requires ReadFrom(a, partition, start, out) && LogGrows(a, b)
    ensures ReadFrom(b, partition, start, out)
  {
    forall k | 0 <= k < |out| ensures IsFromLog(b.entries, partition, out[k]) {
      assert IsFromLog(a.entries, partition, out[k]);
    }
    forall k | 0 < k < |out| ensures Follows(b.low, out[k - 1].offset + 1, out[k].offset) {
      assert Follows(a.low, out[k - 1].offset + 1, out[k].offset);
    }
  }

  /** One page: the client's read at an absolute offset. */
  method ReadPage(client: Client, ctx: Context, req: ReadRequest) returns (r: Result<seq<ConsumedMessage>>)
    requires req.fromTime.None? && req.offset >= 0 && req.limit >= 0
    modifies client.broker
    ensures var log := LogOf(client.broker.logs, req.partition);
            && LogGrows(LogOf(old(client.broker.logs), req.partition), log)
            && (r.Ok? ==> |r.value| <= req.limit && ReadFrom(log, req.partition, req.offset, r.value))
  {
    ghost var seen, asked;
    r, seen, asked := client.Read(ctx, req);
    GrowsIsTransitive(old(client.broker.logs), seen, client.broker.logs);
    if r.Ok? && r.value != [] {
      ReadsFromTheRequest(seen[req.partition], client.broker.logs[req.partition], req, r.value);
    }
  }

  /** A client reads page after page, each after the last offset of the one before, with any page sizes, while
      others write and retention removes. Its pages are one long read of the log; and if retention never
      passed the first offset, they are exactly the log from there on. */
  method ReadPages(client: Client, ctx: Context, topic: string, partition: int, offset: nat, sizes: seq<nat>)
    returns (r: Result<seq<ConsumedMessage>>, ghost pages: seq<Page>)
    modifies client.broker
    ensures Paging(partition, pages) && (pages != [] ==> pages[0].start == offset)
    ensures r.Ok? ==> |pages| == |sizes| && r.value == AllMessages(pages)
    ensures r.Ok? ==> forall i | 0 <= i < |sizes| :: |pages[i].out| <= sizes[i]
    ensures r.Ok? ==> ReadFrom(LogOf(client.broker.logs, partition), partition, offset, r.value)
    ensures r.Ok? && r.value != [] && LogOf(client.broker.logs, partition).low <= offset ==>
              var entries := LogOf(client.broker.logs, partition).entries;
              offset + |r.value| <= |entries| && r.value == Window(entries, partition, offset, |r.value|)
  {
    var all: seq<ConsumedMessage>, next: int := [], offset;
    pages := [];
    for i := 0 to |sizes|
      invariant |pages| == i && PagesRead(partition, offset, sizes, pages, next, all, LogOf(client.broker.logs, partition))
    {
      ghost var before := client.broker.logs;
      var page := ReadPage(client, ctx, ReadRequest(topic, partition, next, None, sizes[i]));
      if page.Err? {
        return Err(page.error), pages;
      }
      ghost var read := Page(LogOf(client.broker.logs, partition), next, page.value);
      OneMorePageRead(partition, offset, sizes, pages, next, all, LogOf(before, partition), read);
      pages := pages + [read];
      all := all + page.value;
      if |page.value| > 0 {
        next := page.value[|page.value| - 1].offset + 1;
      }
      assert next == NextStart(read);
    }
    r := Ok(all);
    PagedIsOneRead(partition, offset, sizes, pages, next, all, LogOf(client.broker.logs, partition));
  }

  lemma PagedIsOneRead(partition: int, offset: nat, sizes: seq<nat>, pages: seq<Page>, next: int,
                       all: seq<ConsumedMessage>, log: PartitionLog)
    requires PagesRead(partition, offset, sizes, pages, next, all, log)
    ensures ReadFrom(log, partition, offset, all)
    ensures all != [] && log.low <= offset ==>
              offset + |all| <= |log.entries| && all == Window(log.entries, partition, offset, |all|)
  {
    if pages != [] {
      PagesAreOneRead(partition, pages);
      ReadStays(pages[|pages| - 1].log, log, partition, offset, AllMessages(pages));
      if log.low <= offset {
        ReadIsAWindow(log, partition, offset, AllMessages(pages));
      }
    }
  }

  // ---- Where a read starts ----

  /** A read from the earliest offset returns the first retained records of the log. */
  lemma EarliestReadsFromTheStart(seen: PartitionLog, final: PartitionLog, req: ReadRequest, out: seq<ConsumedMessage>)
    requires req.fromTime.None? && req.offset == -2
    requires ReadFrom(final, req.partition, StartFor(seen, req), out) && final.low == seen.low && out != []
    ensures seen.low + |out| <= |final.entries| && out == Window(final.entries, req.partition, seen.low, |out|)
  {
    ReadIsAWindow(final, req.partition, seen.low, out);
  }

  /** A read from the latest offset returns nothing that was in the log already. */
  lemma LatestReadsOnlyNewRecords(seen: PartitionLog, final: PartitionLog, req: ReadRequest, out: seq<ConsumedMessage>, k: nat)
    requires req.fromTime.None? && req.offset == -1
    requires ReadFrom(final, req.partition, StartFor(seen, req), out) && k < |out|
    ensures out[k].offset >= |seen.entries|
  {
    FirstIsNotBeforeStart(final, req.partition, StartFor(seen, req), out, k);
  }

  /** Time-based replay: when the log has a record o of the requested time or later, the first message read
      is of that time or later too, and is not after o; every retained record before it is older. */
  lemma ReplayMissesNothing(seen: PartitionLog, final: PartitionLog, req: ReadRequest, out: seq<ConsumedMessage>, o: nat)
    requires req.fromTime.Some? && LogGrows(seen, final)
    requires seen.low <= o < |seen.entries| && seen.entries[o].time >= req.fromTime.value
    requires ReadFrom(final, req.partition, StartFor(seen, req), out) && out != []
    requires final.low <= StartFor(seen, req)
    ensures seen.low <= out[0].offset <= o && out[0].timestamp >= req.fromTime.value
    ensures forall k | seen.low <= k < out[0].offset :: seen.entries[k].time < req.fromTime.value
  {
    assert IsFromLog(final.entries, req.partition, out[0]);
    assert final.entries[out[0].offset] == seen.entries[out[0].offset];
  }

  /** The same for a consume query. */
  lemma ReplayQuery(q: ConsumeQuery, cfg: ConsumerConfig, seen: PartitionLog, final: PartitionLog,
                    scanned: seq<ConsumedMessage>, o: nat)
    requires q.fromTime.Some? && LogGrows(seen, final)
    requires seen.low <= o < |seen.entries| && seen.entries[o].time >= q.fromTime.value
    requires ReadFrom(final, q.partition, StartFor(seen, RequestFor(q, cfg)), scanned) && scanned != []
    requires final.low <= StartFor(seen, RequestFor(q, cfg))
    ensures seen.low <= scanned[0].offset <= o && scanned[0].timestamp >= q.fromTime.value
  {
    ReplayMissesNothing(seen, final, RequestFor(q, cfg), scanned, o);
  }

  // ---- Read-your-writes ----

  /** A read at a coordinate that the sync producer reported starts with the very message published there,
      however much other clients wrote in between, as long as retention has not passed the coordinate. */
  lemma ReadYourWrites(published: Logs, seen: Logs, final: Logs, call: nat, msgs: seq<Message>, route: seq<int>,
                       bases: map<int, int>, results: seq<PublishResult>, i: nat,
                       req: ReadRequest, out: seq<ConsumedMessage>)
    requires SyncProducer.Published(published, call, msgs, route, bases, results) && i < |msgs|
    requires Grows(published, seen) && Grows(seen, final)
    requires req.partition == results[i].partition && req.offset == results[i].offset && req.fromTime.None?
    requires out != [] && req.partition in seen
    requires ReadFrom(final[req.partition], req.partition, StartFor(seen[req.partition], req), out)
    requires final[req.partition].low <= results[i].offset
    ensures out[0].partition == results[i].partition && out[0].offset == results[i].offset
    ensures out[0].key == msgs[i].key && out[0].value == msgs[i].value && out[0].headers == msgs[i].headers
  {
    GrowsIsTransitive(published, seen, final);
    SyncTheorems.ExactPlacement(published, final, call, msgs, route, bases, results, i);
    FirstIsAtTheRequest(seen[req.partition], final[req.partition], req, out);
  }

  /** A read at an absolute offset that retention has not passed starts with the record there. */
  lemma FirstIsAtTheRequest(seen: PartitionLog, final: PartitionLog, req: ReadRequest, out: seq<ConsumedMessage>)
    requires req.fromTime.None? && 0 <= req.offset && seen.low <= final.low <= req.offset && out != []
    requires ReadFrom(final, req.partition, StartFor(seen, req), out)
    ensures req.offset < |final.entries|
    ensures out[0] == ToConsumedMessage(req.partition, req.offset, final.entries[req.offset])
  {
    assert IsFromLog(final.entries, req.partition, out[0]);
  }
}
