/** Reading a partition: positioning a reader and the bounded read loop. */
module Client {
  import opened Domain
  import opened Errors
  import opened BrokerLog

  datatype ReadRequest = ReadRequest(topic: string, partition: int, offset: int, fromTime: Option<int>, limit: int)

  /** Where a reader stands: at an offset, or at a sentinel it resolves when it first reads. */
  datatype Position = AtOffset(n: int) | AtFirst | AtLast

  function ResolveOffset(offset: int): Position {
    if offset == OFFSET_EARLIEST then AtFirst
    else if offset == OFFSET_LATEST then AtLast
    else AtOffset(offset)
  }

  /** The next offset a reader at this position reads from this log; offsets lost to retention are skipped. */
  function NextOffset(log: PartitionLog, at: Position): nat {
    match at
    case AtFirst => log.low
    case AtLast => |log.entries|
    case AtOffset(n) => if n < log.low then log.low else n
  }

  /** The first record at or after time t from offset o on, or the end of the log. */
  function FirstAtOrAfter(entries: seq<Entry>, o: nat, t: int): (r: nat)
    requires o <= |entries|
    ensures o <= r <= |entries|
    ensures forall k | o <= k < r :: entries[k].time < t
    ensures r < |entries| ==> entries[r].time >= t
    decreases |entries| - o
  {
    if o == |entries| || entries[o].time >= t then o else FirstAtOrAfter(entries, o + 1, t)
  }

  /** Where a request starts, given the log at the moment its position is resolved. */
  function StartFor(log: PartitionLog, req: ReadRequest): nat {
    if req.fromTime.Some? then FirstAtOrAfter(log.entries, log.low, req.fromTime.value)
    else NextOffset(log, ResolveOffset(req.offset))
  }

  function ToConsumedMessage(partition: int, offset: nat, e: Entry): ConsumedMessage {
    ConsumedMessage(partition, offset, e.record.key, e.record.value, e.record.headers, e.time)
  }

  /** The `n` messages of the log from `start`. */
  function Window(entries: seq<Entry>, partition: int, start: nat, n: nat): seq<ConsumedMessage>
    requires start + n <= |entries|
  {
    seq(n, k requires 0 <= k < n => ToConsumedMessage(partition, start + k, entries[start + k]))
  }

  ghost predicate IsFromLog(entries: seq<Entry>, partition: int, m: ConsumedMessage) {
    0 <= m.offset < |entries| && m == ToConsumedMessage(partition, m.offset, entries[m.offset])
  }

  /** From one offset to the next: the very next one, unless retention has since passed it. */
  ghost predicate Follows(low: nat, expected: int, next: int) {
    expected <= next && (next == expected || next <= low)
  }

  /** The messages are records of the log, read one after the other from `start`. */
  ghost predicate ReadFrom(log: PartitionLog, partition: int, start: nat, out: seq<ConsumedMessage>) {
    && (forall k | 0 <= k < |out| :: IsFromLog(log.entries, partition, out[k]))
    && (out != [] ==> Follows(log.low, start, out[0].offset))
    && (forall k | 0 < k < |out| :: Follows(log.low, out[k - 1].offset + 1, out[k].offset))
  }

  ghost predicate ContextEnded(e: Error) {
    Is(e, Known(DeadlineExceeded)) || Is(e, Known(Canceled))
  }

  datatype Outcome = Delivered(offset: nat, entry: Entry) | Failed(error: Error)

  /** The client library's partition reader. */
  class PartitionReader {
    const broker: Broker
    const partition: int
    var position: Position

    constructor (broker: Broker, partition: int)
      ensures this.broker == broker && this.partition == partition
    {
      this.broker, this.partition, position := broker, partition, AtFirst;
    }

    method SetOffset(p: Position) returns (err: Option<Error>)
      modifies this, broker`answers
      ensures err.None? ==> position == p
      ensures broker.answers == old(broker.answers) + [Sought(err)]
    {
      err := *;
      broker.answers := broker.answers + [Sought(err)];
      if err.None? {
        position := p;
      }
    }

    /** Resolves the time against the log right away. */
    method SetOffsetAt(t: int) returns (err: Option<Error>, ghost seen: Logs)
      modifies this, broker
      ensures Grows(old(broker.logs), seen) && Grows(seen, broker.logs)
      ensures err.None? ==>
                partition in seen && position == AtOffset(FirstAtOrAfter(seen[partition].entries, seen[partition].low, t))
      ensures broker.answers == old(broker.answers) + [Sought(err)]
    {
      broker.Advance();
      seen := broker.logs;
      err := *;
      if partition !in broker.logs && err.None? {
        err := Some(Wrapped(UNKNOWN_TOPIC));
      }
      if err.None? {
        var log := broker.logs[partition];
        position := AtOffset(FirstAtOrAfter(log.entries, log.low, t));
      }
      broker.answers := broker.answers + [Sought(err)];
      broker.Advance();
    }

    /** Delivers the next record, or fails; without a deadline it waits for a record to arrive. */
    method ReadMessage(ctx: Context) returns (r: Outcome, ghost seen: Logs)
      modifies this, broker
      ensures Grows(old(broker.logs), seen) && Grows(seen, broker.logs)
      ensures r.Delivered? ==>
                && partition in seen && r.offset == NextOffset(seen[partition], old(position))
                && r.offset < |broker.logs[partition].entries| && r.entry == broker.logs[partition].entries[r.offset]
                && position == AtOffset(r.offset + 1)
      ensures r.Failed? && ContextEnded(r.error) ==> ctx.mayEnd
      ensures broker.answers == old(broker.answers) + [Fetched(if r.Failed? then Some(r.error) else None)]
    {
      r, seen := NextMessage(ctx);
      broker.answers := broker.answers + [Fetched(if r.Failed? then Some(r.error) else None)];
    }

    method NextMessage(ctx: Context) returns (r: Outcome, ghost seen: Logs)
      modifies this, broker`logs
      ensures Grows(old(broker.logs), seen) && Grows(seen, broker.logs)
      ensures r.Delivered? ==>
                && partition in seen && r.offset == NextOffset(seen[partition], old(position))
                && r.offset < |broker.logs[partition].entries| && r.entry == broker.logs[partition].entries[r.offset]
                && position == AtOffset(r.offset + 1)
      ensures r.Failed? && ContextEnded(r.error) ==> ctx.mayEnd
    {
      broker.Advance();
      seen := broker.logs;
      var ended: bool, broken: bool := *, *;
      if ctx.mayEnd && ended {
        var deadline: bool := *;
        return Failed(Wrapped(Known(if deadline then DeadlineExceeded else Canceled))), seen;
      }
      if partition !in broker.logs {
        return Failed(Wrapped(UNKNOWN_TOPIC)), seen;
      }
      var e: Error := *;
      if broken && !Is(e, Known(DeadlineExceeded)) && !Is(e, Known(Canceled)) {
        return Failed(e), seen;
      }
      var next := NextOffset(broker.logs[partition], position);
      broker.AwaitRecord(partition, next);
      position := AtOffset(next + 1);
      r := Delivered(next, broker.logs[partition].entries[next]);
    }
  }

  ghost predicate Succeeded(a: Answer) {
    match a
    case Listed(topics) => topics.Ok?
    case Sent(_, _, reply) => Accepted(reply)
    case Wrote(_, failure) => failure.None?
    case Sought(failure) => failure.None?
    case Fetched(failure) => failure.None?
  }

  /** What a read asked and was told accounts for its result: it sought once and then read until the limit
      was reached, the context ended, or a read failed. */
  ghost predicate ReadExplains(asked: seq<Answer>, req: ReadRequest, r: Result<seq<ConsumedMessage>>) {
    && asked != [] && asked[0].Sought?
    && (forall k | 0 < k < |asked| :: asked[k].Fetched?)
    && (forall k | 0 <= k < |asked| - 1 :: Succeeded(asked[k]))
    && |asked| <= 1 + req.limit
    && var last := asked[|asked| - 1];
       if Succeeded(last) then r.Ok? && |r.value| == req.limit == |asked| - 1
       else if last.Sought? then r == Err(if req.fromTime.Some? then Translate(last.failure.value) else Wrapped(last.failure.value))
       else if ContextEnded(last.failure.value) then r.Ok? && |r.value| == |asked| - 2
       else r == Err(Translate(last.failure.value))
  }

  class Client {
    const broker: Broker

    constructor (broker: Broker)
      ensures this.broker == broker
    {
      this.broker := broker;
    }

    /** Read scans up to `limit` messages. `seen` is the state of the logs at the moment the start was
        resolved. A result shorter than the limit means the context ended. */
    method Read(ctx: Context, req: ReadRequest)
      returns (r: Result<seq<ConsumedMessage>>, ghost seen: Logs, ghost asked: seq<Answer>)
      requires req.limit >= 0
      modifies broker
      ensures Grows(old(broker.logs), seen) && Grows(seen, broker.logs)
      ensures broker.answers == old(broker.answers) + asked && ReadExplains(asked, req, r)
      ensures r.Ok? && |r.value| < req.limit ==> ctx.mayEnd
      ensures r.Ok? && r.value != [] ==>
                req.partition in seen &&
                ReadFrom(broker.logs[req.partition], req.partition, StartFor(seen[req.partition], req), r.value)
    {
      var reader := new PartitionReader(broker, req.partition);
      var failed;
      failed, seen, asked := Seek(reader, req);
      if failed.Some? {
        return Err(failed.value), seen, asked;
      }
      var out: seq<ConsumedMessage> := [];
      while |out| < req.limit
        invariant broker.answers == old(broker.answers) + asked && |out| <= req.limit
        invariant Reading(asked, |out|)
        invariant Grows(old(broker.logs), seen) && Grows(seen, broker.logs)
        invariant ReadSoFar(broker.logs, seen, req, reader.position, out)
        decreases req.limit - |out|
      {
        var m;
        ghost var answer;
        m, seen, answer := ReadOnce(reader, ctx, req, out, old(broker.logs), seen);
        AnswersAdded(old(broker.answers), asked, [answer]);
        OneMoreAnswer(asked, req, out, answer);
        asked := asked + [answer];
        if m.Failed? {
          if Is(m.error, Known(DeadlineExceeded)) || Is(m.error, Known(Canceled)) {
            return Ok(out), seen, asked;
          }
          var unknown := ContainsKafkaError(Some(m.error), UNKNOWN_TOPIC);
          return Err(if unknown then Known(TopicNotFound) else Wrapped(m.error)), seen, asked;
        }
        out := out + [ToConsumedMessage(req.partition, m.offset, m.entry)];
      }
      r := Ok(out);
    }

    /** One round of the read loop. The first read resolves an offset sentinel. */
    method ReadOnce(reader: PartitionReader, ctx: Context, req: ReadRequest, out: seq<ConsumedMessage>,
                    ghost start: Logs, ghost seen: Logs)
      returns (m: Outcome, ghost seen': Logs, ghost answer: Answer)
      requires reader.broker == broker && reader.partition == req.partition
      requires Grows(start, seen) && Grows(seen, broker.logs)
      requires ReadSoFar(broker.logs, seen, req, reader.position, out)
      modifies reader, broker
      ensures Grows(start, seen') && Grows(seen', broker.logs)
      ensures if m.Failed? then ReadSoFar(broker.logs, seen', req, old(reader.position), out)
              else ReadSoFar(broker.logs, seen', req, reader.position,
                             out + [ToConsumedMessage(req.partition, m.offset, m.entry)])
      ensures answer == Fetched(if m.Failed? then Some(m.error) else None)
      ensures broker.answers == old(broker.answers) + [answer]
      ensures m.Failed? && ContextEnded(m.error) ==> ctx.mayEnd
    {
      ghost var now;
      m, now := reader.ReadMessage(ctx);
      answer := Fetched(if m.Failed? then Some(m.error) else None);
      GrowsIsTransitive(seen, old(broker.logs), now);
      GrowsIsTransitive(seen, now, broker.logs);
      GrowsIsTransitive(start, seen, now);
      seen' := seen;
      if m.Failed? {
        ReadSoFarStays(old(broker.logs), broker.logs, seen, req, old(reader.position), out);
      } else {
        if out == [] && req.fromTime.None? {
          seen' := now;
        }
        ReadOneMore(old(broker.logs), now, broker.logs, seen', req, old(reader.position), out, m.offset);
      }
    }

    /** A timestamp takes priority over an offset. */
    method Seek(reader: PartitionReader, req: ReadRequest) returns (failed: Option<Error>, ghost seen: Logs, ghost asked: seq<Answer>)
      requires reader.broker == broker && reader.partition == req.partition
      modifies reader, broker
      ensures Grows(old(broker.logs), seen) && Grows(seen, broker.logs)
      ensures failed.None? ==> Positioned(seen, req, reader.position)
      ensures broker.answers == old(broker.answers) + asked && |asked| == 1 && asked[0].Sought?
      ensures var failure := asked[0].failure;
              failed == if failure.None? then None
                        else Some(if req.fromTime.Some? then Translate(failure.value) else Wrapped(failure.value))
    {
      seen := broker.logs;
      if req.fromTime.Some? {
        var err;
        err, seen := reader.SetOffsetAt(req.fromTime.value);
        if err.Some? {
          var unknown := ContainsKafkaError(err, UNKNOWN_TOPIC);
          return Some(if unknown then Known(TopicNotFound) else Wrapped(err.value)), seen, [Sought(err)];
        }
        return None, seen, [Sought(err)];
      }
      var err := reader.SetOffset(ResolveOffset(req.offset));
      asked := [Sought(err)];
      failed := if err.Some? then Some(Wrapped(err.value)) else None;
    }
  }

  /** The answers of a read that has got `n` messages so far. */
  ghost predicate Reading(asked: seq<Answer>, n: nat) {
    && |asked| == n + 1 && asked[0].Sought?
    && (forall k | 0 < k < |asked| :: asked[k].Fetched?)
    && (forall k | 0 <= k < |asked| :: Succeeded(asked[k]))
  }

  lemma OneMoreAnswer(asked: seq<Answer>, req: ReadRequest, out: seq<ConsumedMessage>, answer: Answer)
    requires Reading(asked, |out|) && |out| < req.limit && answer.Fetched?
    ensures var more := asked + [answer];
            if answer.failure.None? then Reading(more, |out| + 1)
            else ReadExplains(more, req, if ContextEnded(answer.failure.value) then Ok(out) else Err(Translate(answer.failure.value)))
  {
  }

  /** A reader that has been positioned for a request and has not read yet. */
  ghost predicate Positioned(seen: Logs, req: ReadRequest, at: Position) {
    if req.fromTime.Some? then req.partition in seen && at == AtOffset(StartFor(seen[req.partition], req))
    else at == ResolveOffset(req.offset)
  }

  /** A reader in the middle of a read. */
  ghost predicate ReadSoFar(logs: Logs, seen: Logs, req: ReadRequest, at: Position, out: seq<ConsumedMessage>) {
    if out == [] then Positioned(seen, req, at)
    else
      && req.partition in seen && req.partition in logs && at == AtOffset(out[|out| - 1].offset + 1)
      && ReadFrom(logs[req.partition], req.partition, StartFor(seen[req.partition], req), out)
  }

  lemma ReadSoFarStays(before: Logs, after: Logs, seen: Logs, req: ReadRequest, at: Position, out: seq<ConsumedMessage>)
    requires Grows(before, after) && ReadSoFar(before, seen, req, at, out)
    ensures ReadSoFar(after, seen, req, at, out)
  {
    if out != [] {
      var p := req.partition;
      forall k | 0 <= k < |out| ensures IsFromLog(after[p].entries, p, out[k]) {
        assert IsFromLog(before[p].entries, p, out[k]);
      }
      forall k | 0 < k < |out| ensures Follows(after[p].low, out[k - 1].offset + 1, out[k].offset) {
        assert Follows(before[p].low, out[k - 1].offset + 1, out[k].offset);
      }
    }
  }

  lemma ReadOneMore(before: Logs, now: Logs, after: Logs, seen: Logs, req: ReadRequest, at: Position,
                    out: seq<ConsumedMessage>, offset: nat)
    requires Grows(before, now) && Grows(now, after) && Grows(seen, after)
    requires req.partition in now && offset == NextOffset(now[req.partition], at)
    requires offset < |after[req.partition].entries|
    requires if out == [] && req.fromTime.None? then seen == now && at == ResolveOffset(req.offset)
             else ReadSoFar(before, seen, req, at, out)
    ensures req.partition in after && offset < |after[req.partition].entries| &&
            ReadSoFar(after, seen, req, AtOffset(offset + 1),
                      out + [ToConsumedMessage(req.partition, offset, after[req.partition].entries[offset])])
  {
    if out != [] {
      GrowsIsTransitive(before, now, after);
      ReadSoFarStays(before, after, seen, req, at, out);
    }
  }
}
