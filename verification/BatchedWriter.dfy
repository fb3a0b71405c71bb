/** The producer behind the "batched" mode: one write of the whole batch, repeated a few times while
    an auto-created topic is not yet known to the brokers. */
module BatchedWriter {
  import opened Domain
  import opened Errors
  import opened BrokerLog
  import SyncProducer

  const AUTO_CREATE_MAX_ATTEMPTS := 5

  /** parseRequiredAcks, on a setting already in lower case. */
  function ParseRequiredAcks(s: string): Option<Acks> {
    if s == "all" || s == "-1" || s == "" then Some(AcksAll)
    else if s == "one" || s == "1" then Some(AcksOne)
    else if s == "none" || s == "0" then Some(AcksNone)
    else None
  }

  /** Which settings mean which acknowledgements, and that all others are refused. */
  lemma AcksSettings(s: string)
    ensures ParseRequiredAcks(s).None? <==> s !in {"all", "-1", "", "one", "1", "none", "0"}
    ensures ParseRequiredAcks(s) == Some(AcksAll) <==> s in {"all", "-1", ""}
    ensures ParseRequiredAcks(s) == Some(AcksNone) <==> s in {"none", "0"}
  {
  }

  ghost predicate RecordsOf(records: seq<Record>, msgs: seq<Message>) {
    |records| == |msgs| && forall i | 0 <= i < |msgs| :: records[i] == SyncProducer.RecordOf(msgs[i])
  }

  /** Each attempt writes the whole batch; all attempts but a successful last one failed. */
  ghost function Tries(records: seq<Record>, failures: seq<Error>, attempts: nat): seq<Answer> {
    seq(attempts, k requires 0 <= k < attempts => Wrote(records, if k < |failures| then Some(failures[k]) else None))
  }

  /** How many attempts wrote the message of a slot. */
  function WritesOf(writes: seq<seq<bool>>, slot: nat): (n: nat)
    ensures n <= |writes|
  {
    if writes == [] then 0
    else
      var last := |writes| - 1;
      WritesOf(writes[..last], slot) + (if WroteSlot(writes, last, slot) then 1 else 0)
  }

  predicate WroteSlot(writes: seq<seq<bool>>, k: int, slot: nat)
    requires 0 <= k < |writes|
  {
    slot < |writes[k]| && writes[k][slot]
  }

  /** The logs hold each message of a batch of n exactly as often as attempts wrote it, and nothing else of the call. */
  ghost predicate Delivered(logs: Logs, call: nat, n: nat, writes: seq<seq<bool>>) {
    && (forall k | 0 <= k < |writes| :: |writes[k]| == n)
    && forall slot: nat :: Total(logs, Origin(call, slot)) == WritesOf(writes, slot)
  }

  ghost predicate LastWroteAll(writes: seq<seq<bool>>) {
    writes != [] && var last := writes[|writes| - 1]; forall i | 0 <= i < |last| :: last[i]
  }

  /** No message of the batch has more copies than there were attempts, and the call wrote nothing else. */
  ghost predicate AtMost(logs: Logs, call: nat, n: nat, attempts: nat) {
    forall slot: nat :: Total(logs, Origin(call, slot)) <= if slot < n then attempts else 0
  }

  ghost predicate AtLeastOnce(logs: Logs, call: nat, n: nat) {
    forall i | 0 <= i < n :: Total(logs, Origin(call, i)) >= 1
  }

  /** What a call has in the logs after some attempts. */
  ghost predicate Written(start: Logs, logs: Logs, call: nat, records: seq<Record>, attempts: nat, writes: seq<seq<bool>>) {
    && Grows(start, logs) && OwnRecordsAre(logs, call, records)
    && |writes| == attempts && Delivered(logs, call, |records|, writes) && AtMost(logs, call, |records|, attempts)
  }

  /** Why the loop gave up, and with which error: the context ended in a backoff, the topic stayed unknown,
      or the last attempt failed in another way. */
  ghost predicate GivesUp(allowAutoCreate: bool, err: Error, failures: seq<Error>, attempts: nat, waits: nat, canceled: bool) {
    0 < attempts <= |failures| &&
    var unknown := Contains(failures[attempts - 1], UNKNOWN_TOPIC);
    if canceled then
      allowAutoCreate && unknown && waits == attempts - 1 && err in {Known(DeadlineExceeded), Known(Canceled)}
    else if unknown then
      err == Known(TopicNotFound) && if allowAutoCreate then attempts == waits == 5 else waits == 0
    else
      err == Wrapped(failures[attempts - 1]) && waits == attempts - 1
  }

  class BatchedWriter {
    const broker: Broker
    const acks: Acks
    const allowAutoCreate: bool

    constructor (broker: Broker, acks: Acks, allowAutoCreate: bool)
      ensures this.broker == broker && this.acks == acks && this.allowAutoCreate == allowAutoCreate
    {
      this.broker, this.acks, this.allowAutoCreate := broker, acks, allowAutoCreate;
    }

    /** Produce writes the batch; a nil result is success. `failures` lists the errors of the failed
        attempts in order, `waits` counts the completed backoffs, and `writes` says for each attempt which
        messages it appended. */
    method Produce(ctx: Context, msgs: seq<Message>, call: nat)
      returns (err: Option<Error>, ghost records: seq<Record>, ghost attempts: nat, ghost waits: nat,
               ghost failures: seq<Error>, ghost canceled: bool, ghost writes: seq<seq<bool>>)
      requires Unused(broker.logs, call)
      modifies broker
      ensures RecordsOf(records, msgs) && OwnRecordsAre(broker.logs, call, records)
      ensures Grows(old(broker.logs), broker.logs)
      ensures broker.answers == old(broker.answers) + Tries(records, failures, attempts)
      // how many attempts, and why each retry happened
      ensures if msgs == [] then attempts == 0 && err.None? else 1 <= attempts <= 5
      ensures !allowAutoCreate ==> attempts <= 1
      ensures |failures| == if err.None? && attempts > 0 then attempts - 1 else attempts
      ensures forall k | 0 <= k < attempts - 1 :: Contains(failures[k], UNKNOWN_TOPIC)
      ensures waits <= attempts
      // delivery
      ensures |writes| == attempts && Delivered(broker.logs, call, |msgs|, writes)
      ensures AtMost(broker.logs, call, |msgs|, attempts)
      ensures !allowAutoCreate ==> AtMost(broker.logs, call, |msgs|, 1)
      ensures err.None? && acks != AcksNone && attempts > 0 ==> LastWroteAll(writes)
      ensures err.None? && acks != AcksNone ==> AtLeastOnce(broker.logs, call, |msgs|)
      // the reported error
      ensures err.None? && attempts > 0 ==> waits == attempts - 1
      ensures canceled ==> ctx.mayEnd
      ensures err.Some? ==> GivesUp(allowAutoCreate, err.value, failures, attempts, waits, canceled)
    {
      records, attempts, waits, failures, canceled, writes, err := [], 0, 0, [], false, [], None;
      var km := Records(msgs);
      records := km;
      NothingWrittenSoFar(broker.logs, call, km);
      if |msgs| == 0 {
        return;
      }
      var last := Other;
      for attempt := 1 to AUTO_CREATE_MAX_ATTEMPTS + 1
        invariant attempts == waits == |failures| == attempt - 1
        invariant attempt > 1 ==> allowAutoCreate && last == failures[attempt - 2]
        invariant forall k | 0 <= k < attempts :: Contains(failures[k], UNKNOWN_TOPIC)
        invariant broker.answers == old(broker.answers) + Tries(records, failures, attempts)
        invariant Written(old(broker.logs), broker.logs, call, records, attempts, writes)
      {
        var failed;
        failed, writes := WriteOnce(km, call, old(broker.logs), attempts, writes);
        OneMoreTry(old(broker.answers), records, failures, attempts, failed);
        attempts := attempts + 1;
        if failed.None? {
          return;
        }
        last := failed.value;
        failures := failures + [last];
        var unknown := ContainsKafkaError(failed, UNKNOWN_TOPIC);
        if !allowAutoCreate || !unknown {
          break;
        }
        var done: bool := *;
        if ctx.mayEnd && done {
          var deadline: bool := *;
          canceled, err := true, Some(Known(if deadline then DeadlineExceeded else Canceled));
          return;
        }
        waits := waits + 1;
      }
      var unknown := ContainsKafkaError(Some(last), UNKNOWN_TOPIC);
      err := Some(if unknown then Known(TopicNotFound) else Wrapped(last));
    }

    /** One attempt: the whole batch is handed to the library. */
    method WriteOnce(km: seq<Record>, call: nat, ghost start: Logs, ghost attempts: nat, ghost writes: seq<seq<bool>>)
      returns (failed: Option<Error>, ghost writes': seq<seq<bool>>)
      requires Written(start, broker.logs, call, km, attempts, writes)
      modifies broker
      ensures Written(start, broker.logs, call, km, attempts + 1, writes')
      ensures failed.None? && acks != AcksNone ==> LastWroteAll(writes') && AtLeastOnce(broker.logs, call, |km|)
      ensures broker.answers == old(broker.answers) + [Wrote(km, failed)]
    {
      ghost var written;
      failed, written := broker.WriteMessages(km, acks, call);
      GrowsIsTransitive(start, old(broker.logs), broker.logs);
      OneMoreWrite(old(broker.logs), broker.logs, call, |km|, writes, written);
      writes' := writes + [written];
      CopiesAreWrites(broker.logs, call, |km|, writes');
    }

    method Records(msgs: seq<Message>) returns (records: seq<Record>)
      ensures RecordsOf(records, msgs)
    {
      records := [];
      for i := 0 to |msgs|
        invariant |records| == i && forall k | 0 <= k < i :: records[k] == SyncProducer.RecordOf(msgs[k])
      {
        records := records + [Record(msgs[i].key, msgs[i].value, msgs[i].headers)];
      }
    }
  }

  lemma OneMoreTry(before: seq<Answer>, records: seq<Record>, failures: seq<Error>, attempts: nat, failed: Option<Error>)
    requires |failures| == attempts
    ensures before + Tries(records, failures, attempts) + [Wrote(records, failed)] ==
            before + Tries(records, if failed.Some? then failures + [failed.value] else failures, attempts + 1)
  {
  }

  lemma NothingWrittenSoFar(logs: Logs, call: nat, records: seq<Record>)
    requires Unused(logs, call)
    ensures Written(logs, logs, call, records, 0, [])
  {
    forall p, o | p in logs && 0 <= o < |logs[p].entries| ensures IsOwnRecord(logs[p].entries[o], call, records) {
      OwnMembers(logs[p].entries, call, logs[p].entries[o].origin.slot);
    }
    NothingDelivered(logs, call, |records|);
  }

  lemma NothingDelivered(logs: Logs, call: nat, n: nat)
    requires Unused(logs, call)
    ensures Delivered(logs, call, n, []) && AtMost(logs, call, n, 0)
  {
    forall slot: nat ensures Total(logs, Origin(call, slot)) == 0 {
      UnusedHasNoCopies(logs, call, slot);
    }
  }

  lemma OneMoreWrite(before: Logs, after: Logs, call: nat, n: nat, writes: seq<seq<bool>>, written: seq<bool>)
    requires Delivered(before, call, n, writes) && Attempt(before, after, call, written) && |written| == n
    ensures Delivered(after, call, n, writes + [written])
  {
    var more := writes + [written];
    forall slot: nat ensures Total(after, Origin(call, slot)) == WritesOf(more, slot) {
      assert more[..|writes|] == writes;
    }
  }

  lemma {:induction false} NoSlotBeyond(writes: seq<seq<bool>>, n: nat, slot: nat)
    requires (forall k | 0 <= k < |writes| :: |writes[k]| == n) && slot >= n
    ensures WritesOf(writes, slot) == 0
  {
    if writes != [] {
      NoSlotBeyond(writes[..|writes| - 1], n, slot);
    }
  }

  lemma CopiesAreWrites(logs: Logs, call: nat, n: nat, writes: seq<seq<bool>>)
    requires Delivered(logs, call, n, writes)
    ensures AtMost(logs, call, n, |writes|)
    ensures LastWroteAll(writes) ==> AtLeastOnce(logs, call, n)
  {
    forall slot: nat ensures Total(logs, Origin(call, slot)) <= if slot < n then |writes| else 0 {
      if slot >= n {
        NoSlotBeyond(writes, n, slot);
      }
    }
    if LastWroteAll(writes) {
      forall i | 0 <= i < n ensures Total(logs, Origin(call, i)) >= 1 {
        assert WroteSlot(writes, |writes| - 1, i);
      }
    }
  }

  /** Exactly once, and when: after a last attempt that wrote the message, it has one copy if and only if no
      earlier attempt had written it. */
  lemma ExactlyOnceIffNotWrittenBefore(logs: Logs, call: nat, n: nat, writes: seq<seq<bool>>, slot: nat)
    requires Delivered(logs, call, n, writes) && writes != [] && WroteSlot(writes, |writes| - 1, slot)
    ensures Total(logs, Origin(call, slot)) == 1 <==> forall k | 0 <= k < |writes| - 1 :: !WroteSlot(writes, k, slot)
  {
    var front := writes[..|writes| - 1];
    NeverWritten(front, slot);
    assert forall k | 0 <= k < |front| :: WroteSlot(front, k, slot) <==> WroteSlot(writes, k, slot);
  }

  lemma {:induction false} NeverWritten(writes: seq<seq<bool>>, slot: nat)
    ensures WritesOf(writes, slot) == 0 <==> forall k | 0 <= k < |writes| :: !WroteSlot(writes, k, slot)
  {
    if writes != [] {
      var last := |writes| - 1;
      NeverWritten(writes[..last], slot);
      forall k | 0 <= k < last ensures WroteSlot(writes, k, slot) <==> WroteSlot(writes[..last], k, slot) {
      }
    }
  }

  /** At least once, and not exactly once: a first attempt that writes message 0 only and reports the other
      as sent to an unknown topic is retried, and a second one that writes both leaves two copies of message 0. */
  lemma RetryCanDuplicate(call: nat, records: seq<Record>)
    returns (a: Logs, b: Logs, c: Logs, failure: Error, first: seq<bool>, second: seq<bool>)
    requires |records| == 2
    ensures Unused(a, call) && Attempt(a, b, call, first) && Attempt(b, c, call, second)
    ensures |first| == |second| == 2 && first[0] && !first[1] && second[0] && second[1]
    ensures failure == Batch([None, Some(UNKNOWN_TOPIC)]) && Contains(failure, UNKNOWN_TOPIC)
    ensures Total(c, Origin(call, 0)) == 2 && Total(c, Origin(call, 1)) == 1
  {
    a, first, second := map[], [true, false], [true, true];
    failure := UnknownSlot();
    var e0, e1 := Entry(records[0], 0, Origin(call, 0)), Entry(records[1], 0, Origin(call, 1));
    b := FirstOnly(a, call, e0, first);
    c := Both(b, call, e0, e1, second);
    TwoAttempts(a, b, c, call, first, second);
  }

  lemma TwoAttempts(a: Logs, b: Logs, c: Logs, call: nat, first: seq<bool>, second: seq<bool>)
    requires Unused(a, call) && Attempt(a, b, call, first) && Attempt(b, c, call, second)
    requires |first| == |second| == 2 && first[0] && !first[1] && second[0] && second[1]
    ensures Total(c, Origin(call, 0)) == 2 && Total(c, Origin(call, 1)) == 1
  {
    UnusedHasNoCopies(a, call, 0);
    UnusedHasNoCopies(a, call, 1);
  }

  lemma UnknownSlot() returns (failure: Error)
    ensures failure == Batch([None, Some(UNKNOWN_TOPIC)]) && Contains(failure, UNKNOWN_TOPIC)
  {
    failure := Batch([None, Some(UNKNOWN_TOPIC)]);
    assert failure.elements[1] == Some(UNKNOWN_TOPIC) && Is(UNKNOWN_TOPIC, UNKNOWN_TOPIC);
  }

  lemma FirstOnly(a: Logs, call: nat, e0: Entry, written: seq<bool>) returns (b: Logs)
    requires e0.origin == Origin(call, 0) && |written| == 2 && written[0] && !written[1]
    ensures Attempt(a, b, call, written)
  {
    OneByOne(written);
    NothingWrittenYet(a, call, written[..0]);
    b := WriteNext(a, a, call, written[..0], written[..1], e0);
    SkippedMessage(a, b, call, written[..1]);
  }

  lemma Both(a: Logs, call: nat, e0: Entry, e1: Entry, written: seq<bool>) returns (b: Logs)
    requires e0.origin == Origin(call, 0) && e1.origin == Origin(call, 1) && |written| == 2 && written[0] && written[1]
    ensures Attempt(a, b, call, written)
  {
    OneByOne(written);
    NothingWrittenYet(a, call, written[..0]);
    var first := WriteNext(a, a, call, written[..0], written[..1], e0);
    b := WriteNext(a, first, call, written[..1], written, e1);
  }

  lemma OneByOne(written: seq<bool>)
    requires |written| == 2
    ensures written == written[..1] + [written[1]] && written[..1] == written[..0] + [written[0]]
  {
  }

  lemma NothingWrittenYet(a: Logs, call: nat, written: seq<bool>)
    requires |written| == 0
    ensures Attempt(a, a, call, written)
  {
  }

  lemma WriteNext(a: Logs, b: Logs, call: nat, written: seq<bool>, longer: seq<bool>, e: Entry) returns (c: Logs)
    requires Attempt(a, b, call, written) && e.origin == Origin(call, |written|) && longer == written + [true]
    ensures Attempt(a, c, call, longer)
  {
    AttemptOneMore(a, b, call, written, 0, e);
    c := Appended(b, 0, [e]);
  }
}
