/** The publish use case: validate the whole batch before anything is sent, then produce it. */
module PublisherService {
  import opened Domain
  import opened BrokerLog
  import opened SyncProducer
  import opened BatchedWriter
  import opened Errors

  predicate FirstEmptyValue(msgs: seq<Message>, i: nat) {
    i < |msgs| && msgs[i].value == [] && forall k | 0 <= k < i :: msgs[k].value != []
  }

  ghost predicate ValidBatch(topic: string, msgs: seq<Message>) {
    topic != "" && msgs != [] && forall i | 0 <= i < |msgs| :: msgs[i].value != []
  }

  /** The validation that both producers' batches go through. */
  method Validate(topic: string, msgs: seq<Message>) returns (fault: Option<Error>)
    ensures fault.None? <==> ValidBatch(topic, msgs)
    ensures topic == "" ==> fault == Some(Known(EmptyTopic))
    ensures topic != "" && msgs == [] ==> fault == Some(Known(NoMessages))
    ensures topic != "" && msgs != [] && fault.Some? ==>
              fault == Some(Wrapped(Known(EmptyValue))) && exists i :: FirstEmptyValue(msgs, i)
  {
    if topic == "" {
      return Some(Known(EmptyTopic));
    }
    if |msgs| == 0 {
      return Some(Known(NoMessages));
    }
    for i := 0 to |msgs|
      invariant forall k | 0 <= k < i :: msgs[k].value != []
    {
      if |msgs[i].value| == 0 {
        assert FirstEmptyValue(msgs, i);
        return Some(Wrapped(Known(EmptyValue)));
      }
    }
    fault := None;
  }

  /** The service over the sync producer. */
  class PublisherService {
    const producer: SyncProducer

    constructor (producer: SyncProducer)
      ensures this.producer == producer
    {
      this.producer := producer;
    }

    /** PublishBatch sends nothing unless every message is valid; a valid batch has the producer's outcome,
        with context added to an error. */
    method PublishBatch(topic: string, msgs: seq<Message>, call: nat)
      returns (r: Result<seq<PublishResult>>, ghost ids: seq<int>, ghost route: seq<int>, ghost bases: map<int, int>,
               ghost asked: seq<Answer>)
      requires IsBalancer(producer.hash) && Unused(producer.broker.logs, call)
      modifies producer.broker
      ensures Grows(old(producer.broker.logs), producer.broker.logs)
      ensures topic == "" ==> r == Err(Known(EmptyTopic))
      ensures topic != "" && msgs == [] ==> r == Err(Known(NoMessages))
      ensures topic != "" && (exists i :: FirstEmptyValue(msgs, i)) ==> r == Err(Wrapped(Known(EmptyValue)))
      ensures producer.broker.answers == old(producer.broker.answers) + asked
      ensures !ValidBatch(topic, msgs) ==>
                r.Err? && asked == [] && producer.broker.logs == old(producer.broker.logs)
      ensures ValidBatch(topic, msgs) ==>
                && WholeGroups(producer.broker.logs, call, msgs, route, bases)
                && (r.Err? ==> r.error.Wrapped?)
                && Explains(asked, topic, producer.acks, ids, route, bases, if r.Ok? then r else Err(r.error.inner))
      ensures r.Ok? ==> Routes(producer.hash, ids, msgs, route)
      ensures r.Ok? && producer.acks != AcksNone ==>
                Published(producer.broker.logs, call, msgs, route, bases, r.value)
      ensures r.Ok? && producer.acks == AcksNone ==> ReportsPlaces(r.value, route)
    {
      ids, route, bases, asked := [], [], map[], [];
      var fault := Validate(topic, msgs);
      if fault.Some? {
        return Err(fault.value), ids, route, bases, asked;
      }
      r, ids, route, bases, asked := producer.Produce(topic, msgs, call);
      if r.Err? {
        r := Err(Wrapped(r.error));
      }
    }
  }

  /** The service over the batched producer, which reports no coordinates. */
  class BatchedPublisherService {
    const producer: BatchedWriter

    constructor (producer: BatchedWriter)
      ensures this.producer == producer
    {
      this.producer := producer;
    }

    /** A success means at least one copy of each message (unless acks are off), and no message has more
        copies than there were attempts, on any outcome. */
    method PublishBatch(ctx: Context, topic: string, msgs: seq<Message>, call: nat)
      returns (r: Result<seq<PublishResult>>, ghost records: seq<Record>, ghost attempts: nat, ghost waits: nat,
               ghost failures: seq<Error>, ghost canceled: bool)
      requires Unused(producer.broker.logs, call)
      modifies producer.broker
      ensures Grows(old(producer.broker.logs), producer.broker.logs)
      ensures topic == "" ==> r == Err(Known(EmptyTopic))
      ensures topic != "" && msgs == [] ==> r == Err(Known(NoMessages))
      ensures topic != "" && (exists i :: FirstEmptyValue(msgs, i)) ==> r == Err(Wrapped(Known(EmptyValue)))
      ensures !ValidBatch(topic, msgs) ==> r.Err? && attempts == 0 && producer.broker.logs == old(producer.broker.logs)
      ensures producer.broker.answers == old(producer.broker.answers) + Tries(records, failures, attempts)
      ensures ValidBatch(topic, msgs) ==>
                && RecordsOf(records, msgs)
                && 1 <= attempts <= (if producer.allowAutoCreate then AUTO_CREATE_MAX_ATTEMPTS else 1)
                && |failures| == (if r.Ok? then attempts - 1 else attempts)
                && (forall k | 0 <= k < attempts - 1 :: Contains(failures[k], UNKNOWN_TOPIC))
                && (r.Err? ==> r.error.Wrapped? &&
                               GivesUp(producer.allowAutoCreate, r.error.inner, failures, attempts, waits, canceled))
                && (canceled ==> ctx.mayEnd)
      ensures OwnRecordsAre(producer.broker.logs, call, records) && AtMost(producer.broker.logs, call, |msgs|, attempts)
      ensures r.Ok? ==> r.value == [] && (producer.acks != AcksNone ==> AtLeastOnce(producer.broker.logs, call, |msgs|))
    {
      var fault := Validate(topic, msgs);
      if fault.Some? {
        NothingWrittenSoFar(producer.broker.logs, call, []);
        NothingDelivered(producer.broker.logs, call, |msgs|);
        return Err(fault.value), [], 0, 0, [], false;
      }
      var err;
      ghost var writes;
      err, records, attempts, waits, failures, canceled, writes := producer.Produce(ctx, msgs, call);
      r := if err.Some? then Err(Wrapped(err.value)) else Ok([]);
    }
  }
}
