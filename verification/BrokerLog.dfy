/** The Kafka broker as the gateway sees it: one append-only log per partition of a topic, which other
    clients extend at any moment, requests that may fail before or after taking effect, and retention
    that moves the start of a log forward. */
module BrokerLog {
  import opened Domain
  import Sums

  datatype Record = Record(key: Option<Bytes>, value: Bytes, headers: seq<Header>)

  /** Which produce call wrote an entry, and from which input slot. Nothing the broker or the gateway
      does depends on it; it lets contracts tell a call's own records from everybody else's. */
  datatype Origin = Origin(call: nat, slot: nat)

  datatype Entry = Entry(record: Record, time: int, origin: Origin)

  /** The offset of an entry is its index. Entries below `low` have been removed by retention. */
  datatype RawLog = RawLog(entries: seq<Entry>, low: nat)
  type PartitionLog = l: RawLog | l.low <= |l.entries| witness RawLog([], 0)

  type Logs = map<int, PartitionLog>

  datatype Acks = AcksAll | AcksOne | AcksNone

  function EntriesOf(logs: Logs, part: int): seq<Entry> {
    if part in logs then logs[part].entries else []
  }

  /** The slots that a call has written to a log, in log order. */
  function Own(log: seq<Entry>, call: nat): seq<nat> {
    if log == [] then []
    else
      var e := log[|log| - 1];
      Own(log[..|log| - 1], call) + (if e.origin.call == call then [e.origin.slot] else [])
  }

  /** Logs only grow, and retention only moves forward. */
  predicate Grows(a: Logs, b: Logs) {
    forall p | p in a :: p in b && a[p].entries <= b[p].entries && a[p].low <= b[p].low
  }

  /** What others may do to the logs: anything that grows them without adding records of `call`. */
  predicate Interference(a: Logs, b: Logs, call: nat) {
    && Grows(a, b)
    && forall p | p in b :: Own(b[p].entries, call) == Own(EntriesOf(a, p), call)
  }

  /** No call with this label has written anything yet. */
  ghost predicate Unused(logs: Logs, call: nat) {
    forall p | p in logs :: Own(logs[p].entries, call) == []
  }

  /** The records sit at consecutive offsets from `base`, written by `call` from these slots. */
  ghost predicate Block(log: seq<Entry>, base: int, records: seq<Record>, call: nat, slots: seq<nat>) {
    && |records| == |slots|
    && 0 <= base && base + |slots| <= |log|
    && forall j | 0 <= j < |slots| ::
         log[base + j].record == records[j] && log[base + j].origin == Origin(call, slots[j])
  }

  function EntriesFor(records: seq<Record>, time: int, call: nat, slots: seq<nat>): (es: seq<Entry>)
    requires |records| == |slots|
    ensures |es| == |records|
  {
    seq(|records|, j requires 0 <= j < |records| => Entry(records[j], time, Origin(call, slots[j])))
  }

  // ---- Facts about a call's own slots ----

  lemma {:induction false} OwnConcat(a: seq<Entry>, b: seq<Entry>, call: nat)
    ensures Own(a + b, call) == Own(a, call) + Own(b, call)
  {
    if b == [] {
      assert a + b == a;
    } else {
      var front := b[..|b| - 1];
      assert (a + b)[..|a + b| - 1] == a + front;
      OwnConcat(a, front, call);
    }
  }

  lemma {:induction false} OwnOfBlock(records: seq<Record>, time: int, call: nat, slots: seq<nat>)
    requires |records| == |slots|
    ensures Own(EntriesFor(records, time, call, slots), call) == slots
  {
    if slots != [] {
      var n := |slots| - 1;
      var es := EntriesFor(records, time, call, slots);
      assert es[..n] == EntriesFor(records[..n], time, call, slots[..n]);
      OwnOfBlock(records[..n], time, call, slots[..n]);
      assert slots == slots[..n] + [slots[n]];
    }
  }

  /** The slots in Own are exactly those of the entries that carry the call's label. */
  lemma {:induction false} OwnMembers(log: seq<Entry>, call: nat, slot: nat)
    ensures slot in Own(log, call) <==> exists o | 0 <= o < |log| :: log[o].origin == Origin(call, slot)
  {
    if log != [] {
      var n := |log| - 1;
      OwnMembers(log[..n], call, slot);
      assert forall o | 0 <= o < n :: log[..n][o] == log[o];
      if o :| 0 <= o < |log| && log[o].origin == Origin(call, slot) {
        assert o == n || log[..n][o].origin == Origin(call, slot);
      }
    }
  }

  lemma GrowsIsTransitive(a: Logs, b: Logs, c: Logs)
    requires Grows(a, b) && Grows(b, c)
    ensures Grows(a, c)
  {
  }

  lemma BlockStays(a: Logs, b: Logs, p: int, base: int, records: seq<Record>, call: nat, slots: seq<nat>)
    requires Grows(a, b) && p in a && Block(a[p].entries, base, records, call, slots)
    ensures Block(EntriesOf(b, p), base, records, call, slots)
  {
  }

  // ---- How often one input slot is in the logs ----

  function Copies(log: seq<Entry>, o: Origin): nat {
    multiset(Own(log, o.call))[o.slot]
  }

  function CountPerPartition(logs: Logs, count: seq<Entry> -> nat): map<int, nat> {
    map p | p in logs :: count(logs[p].entries)
  }

  function CopiesPerPartition(logs: Logs, o: Origin): map<int, nat> {
    CountPerPartition(logs, log => Copies(log, o))
  }

  /** How many entries with this origin the logs hold, over all partitions. */
  ghost function Total(logs: Logs, o: Origin): nat {
    Sums.Sum(CopiesPerPartition(logs, o))
  }

  /** When only one partition can hold the slot, the total is that partition's count. */
  lemma TotalInOnePartition(logs: Logs, o: Origin, p: int)
    requires forall q | q in logs && q != p :: Copies(logs[q].entries, o) == 0
    ensures Total(logs, o) == Copies(EntriesOf(logs, p), o)
  {
    Sums.SumOfOne(CopiesPerPartition(logs, o), p);
  }

  lemma InterferenceKeepsTotal(a: Logs, b: Logs, call: nat, slot: nat)
    requires Interference(a, b, call)
    ensures Total(a, Origin(call, slot)) == Total(b, Origin(call, slot))
  {
    var o := Origin(call, slot);
    assert forall p | p in a :: p in b;
    Sums.SumIgnoresZeros(CopiesPerPartition(a, o), CopiesPerPartition(b, o));
  }

  /** Writing entries to one partition adds their copies and nothing else. */
  lemma AppendAddsCopies(a: Logs, p: int, added: seq<Entry>, o: Origin)
    ensures Total(Appended(a, p, added), o) == Total(a, o) + Copies(added, o)
  {
    CopiesConcat(EntriesOf(a, p), added, o);
    var copies := CopiesPerPartition(a, o);
    var more := Copies(EntriesOf(a, p) + added, o);
    CountAfterAppend(a, p, added, log => Copies(log, o));
    Sums.SumOfUpdate(copies, p, more);
  }

  lemma CountAfterAppend(a: Logs, p: int, added: seq<Entry>, count: seq<Entry> -> nat)
    ensures CountPerPartition(Appended(a, p, added), count) ==
            CountPerPartition(a, count)[p := count(EntriesOf(a, p) + added)]
  {
    var b := Appended(a, p, added);
    assert b[p].entries == EntriesOf(a, p) + added;
    forall q | q in b && q != p ensures q in a && b[q] == a[q] {
    }
  }

  lemma CopiesConcat(a: seq<Entry>, b: seq<Entry>, o: Origin)
    ensures Copies(a + b, o) == Copies(a, o) + Copies(b, o)
  {
    OwnConcat(a, b, o.call);
  }

  function Appended(logs: Logs, p: int, added: seq<Entry>): Logs {
    logs[p := RawLog(EntriesOf(logs, p) + added, if p in logs then logs[p].low else 0)]
  }

  lemma BlockAppended(a: Logs, part: int, records: seq<Record>, time: int, call: nat, slots: seq<nat>)
    requires part in a && |records| == |slots|
    ensures var b := Appended(a, part, EntriesFor(records, time, call, slots));
            && Grows(a, b) && b.Keys == a.Keys
            && Block(b[part].entries, |a[part].entries|, records, call, slots)
            && forall p | p in b ::
                 Own(b[p].entries, call) == Own(a[p].entries, call) + (if p == part then slots else [])
  {
    BlockIsInPlace(a, part, records, time, call, slots);
    forall p | p in a
      ensures Own(Appended(a, part, EntriesFor(records, time, call, slots))[p].entries, call) ==
              Own(a[p].entries, call) + (if p == part then slots else [])
    {
      OwnAfterBlock(a, part, records, time, call, slots, p);
    }
  }

  lemma BlockIsInPlace(a: Logs, part: int, records: seq<Record>, time: int, call: nat, slots: seq<nat>)
    requires part in a && |records| == |slots|
    ensures var b := Appended(a, part, EntriesFor(records, time, call, slots));
            && Grows(a, b) && b.Keys == a.Keys
            && Block(b[part].entries, |a[part].entries|, records, call, slots)
  {
  }

  lemma OwnAfterBlock(a: Logs, part: int, records: seq<Record>, time: int, call: nat, slots: seq<nat>, p: int)
    requires part in a && p in a && |records| == |slots|
    ensures Own(Appended(a, part, EntriesFor(records, time, call, slots))[p].entries, call) ==
            Own(a[p].entries, call) + (if p == part then slots else [])
  {
    OwnOfBlock(records, time, call, slots);
    OwnConcat(a[part].entries, EntriesFor(records, time, call, slots), call);
  }

  /** Before and after a request others act; in between, the request adds `slots` to its partition. */
  lemma RequestSteps(a: Logs, b: Logs, c: Logs, d: Logs, call: nat, part: int, slots: seq<nat>)
    requires Interference(a, b, call) && Grows(b, c) && b.Keys == c.Keys && Interference(c, d, call)
    requires forall p | p in c ::
               Own(c[p].entries, call) == Own(b[p].entries, call) + (if p == part then slots else [])
    requires part in c || slots == []
    ensures Grows(a, d)
    ensures forall p | p in d ::
              Own(d[p].entries, call) == Own(EntriesOf(a, p), call) + (if p == part then slots else [])
  {
    forall p | p in d
      ensures Own(d[p].entries, call) == Own(EntriesOf(a, p), call) + (if p == part then slots else [])
    {
      if p !in c {
        assert p !in a;
      }
    }
  }

  /** Every record of this call is the one in its input slot. */
  ghost predicate OwnRecordsAre(logs: Logs, call: nat, records: seq<Record>) {
    forall p, o | p in logs && 0 <= o < |logs[p].entries| ::
      IsOwnRecord(logs[p].entries[o], call, records)
  }

  predicate IsOwnRecord(e: Entry, call: nat, records: seq<Record>) {
    e.origin.call == call ==> e.origin.slot < |records| && e.record == records[e.origin.slot]
  }

  /** One write attempt for a batch: message i is appended once if written[i] and not at all otherwise. */
  ghost predicate Attempt(a: Logs, b: Logs, call: nat, written: seq<bool>) {
    && Grows(a, b)
    && forall slot: nat :: Total(b, Origin(call, slot)) ==
         Total(a, Origin(call, slot)) + (if slot < |written| && written[slot] then 1 else 0)
  }

  lemma InterferenceKeepsOwnRecords(a: Logs, b: Logs, call: nat, records: seq<Record>)
    requires Interference(a, b, call) && OwnRecordsAre(a, call, records)
    ensures OwnRecordsAre(b, call, records)
  {
    forall p, o | p in b && 0 <= o < |b[p].entries|
      ensures IsOwnRecord(b[p].entries[o], call, records)
    {
      var before := EntriesOf(a, p);
      if o < |before| {
        assert b[p].entries[o] == a[p].entries[o];
      } else {
        NoOwnEntryAdded(before, b[p].entries, call, o);
      }
    }
  }

  lemma NoOwnEntryAdded(before: seq<Entry>, after: seq<Entry>, call: nat, o: nat)
    requires before <= after && Own(before, call) == Own(after, call) && |before| <= o < |after|
    ensures after[o].origin.call != call
  {
    var added := after[|before|..];
    assert after == before + added;
    OwnConcat(before, added, call);
    OwnMembers(added, call, after[o].origin.slot);
    assert added[o - |before|] == after[o];
  }

  lemma AppendKeepsOwnRecords(a: Logs, call: nat, records: seq<Record>, p: int, e: Entry)
    requires OwnRecordsAre(a, call, records) && IsOwnRecord(e, call, records)
    ensures OwnRecordsAre(Appended(a, p, [e]), call, records)
  {
    var b := Appended(a, p, [e]);
    forall q, o | q in b && 0 <= o < |b[q].entries| ensures IsOwnRecord(b[q].entries[o], call, records) {
      if q != p {
        assert b[q] == a[q];
      } else if o < |EntriesOf(a, p)| {
        assert b[q].entries[o] == a[q].entries[o];
      }
    }
  }

  lemma AttemptExtended(a: Logs, b: Logs, c: Logs, call: nat, written: seq<bool>)
    requires Attempt(a, b, call, written) && Interference(b, c, call)
    ensures Attempt(a, c, call, written)
  {
    GrowsIsTransitive(a, b, c);
    forall slot: nat ensures Total(c, Origin(call, slot)) == Total(b, Origin(call, slot)) {
      InterferenceKeepsTotal(b, c, call, slot);
    }
  }

  lemma AttemptOneMore(a: Logs, b: Logs, call: nat, written: seq<bool>, p: int, e: Entry)
    requires Attempt(a, b, call, written) && e.origin == Origin(call, |written|)
    ensures Attempt(a, Appended(b, p, [e]), call, written + [true])
  {
    var c := Appended(b, p, [e]);
    GrowsIsTransitive(a, b, c);
    forall slot: nat ensures Total(c, Origin(call, slot)) ==
        Total(a, Origin(call, slot)) + (if slot < |written + [true]| && (written + [true])[slot] then 1 else 0)
    {
      AppendAddsCopies(b, p, [e], Origin(call, slot));
      CopiesOfOne(e, call, slot);
    }
  }

  lemma CopiesOfOne(e: Entry, call: nat, slot: nat)
    requires e.origin.call == call
    ensures Copies([e], Origin(call, slot)) == if slot == e.origin.slot then 1 else 0
  {
    assert Own([], call) == [];
    assert Own([e], call) == [e.origin.slot];
  }

  lemma UnusedHasNoCopies(logs: Logs, call: nat, slot: nat)
    requires Unused(logs, call)
    ensures Total(logs, Origin(call, slot)) == 0
  {
    TotalInOnePartition(logs, Origin(call, slot), 0);
  }

  /** The answer to a produce request: none at all, or a base offset with an error that may be nil. */
  datatype Reply = NoReply(failure: Error) | Reply(baseOffset: int, error: Option<Error>)

  predicate Accepted(r: Reply) { r.Reply? && r.error.None? }

  datatype PartitionInfo = PartitionInfo(id: int, leader: int, replicas: seq<int>, isr: seq<int>)
  datatype TopicInfo = TopicInfo(name: string, error: Option<Error>, partitions: seq<PartitionInfo>)

  /** What the gateway was told, request by request. */
  datatype Answer =
    | Listed(topics: Result<seq<TopicInfo>>)
    | Sent(part: int, slots: seq<nat>, reply: Reply)
    | Wrote(records: seq<Record>, failure: Option<Error>)
    | Sought(failure: Option<Error>)
    | Fetched(failure: Option<Error>)

  lemma AnswersAdded(before: seq<Answer>, first: seq<Answer>, rest: seq<Answer>)
    ensures before + first + rest == before + (first + rest)
  {
  }

  class Broker {
    var logs: Logs
    /** The answers so far. Nothing depends on it; contracts use it to say why a call failed. */
    ghost var answers: seq<Answer>

    /** A metadata answer; it may be stale, partial or wrong. */
    method Metadata() returns (resp: Result<seq<TopicInfo>>)
      modifies this`answers
      ensures answers == old(answers) + [Listed(resp)]
    {
      resp := *;
      answers := answers + [Listed(resp)];
    }

    /** Other clients and retention act, as much as they like. */
    method Interfere(call: nat)
      modifies this`logs
      ensures Interference(old(logs), logs, call)
    {
      var next: Logs := *;
      if Interference(logs, next, call) {
        logs := next;
      }
    }

    /** Time passes while nobody we track is writing. */
    method Advance()
      modifies this`logs
      ensures Grows(old(logs), logs)
    {
      var next: Logs := *;
      if Grows(logs, next) {
        logs := next;
      }
    }

    /** A reader without a deadline blocks until other clients have written past its offset. */
    method AwaitRecord(part: int, offset: nat)
      requires part in logs
      modifies this`logs
      ensures Grows(old(logs), logs) && part in logs && offset < |logs[part].entries|
      ensures logs[part].low == old(logs)[part].low
    {
      while |logs[part].entries| <= offset
        invariant part in logs && Grows(old(logs), logs) && logs[part].low == old(logs)[part].low
        decreases offset - |logs[part].entries|
      {
        var e: Entry := *;
        ghost var before := logs;
        logs := Appended(logs, part, [e]);
        GrowsIsTransitive(old(logs), before, logs);
      }
    }

    /** The broker appends one batch at the end of a partition it has. */
    method Append(part: int, records: seq<Record>, call: nat, slots: seq<nat>)
      requires part in logs && |records| == |slots|
      modifies this`logs
      ensures Grows(old(logs), logs) && logs.Keys == old(logs).Keys
      ensures Block(logs[part].entries, |old(logs)[part].entries|, records, call, slots)
      ensures forall p | p in logs :: Own(logs[p].entries, call) ==
                Own(old(logs)[p].entries, call) + (if p == part then slots else [])
    {
      var time: int := *;
      var added := EntriesFor(records, time, call, slots);
      BlockAppended(logs, part, records, time, call, slots);
      logs := Appended(logs, part, added);
    }

    /** One produce request for one partition. Whatever the answer, the records were either all
        appended as one block or not at all; an accepted request with acks all or one reports where
        the block starts. Without acks the client makes up offset zero and learns nothing. */
    method Produce(part: int, records: seq<Record>, acks: Acks, call: nat, slots: seq<nat>)
      returns (reply: Reply, ghost appended: bool, ghost base: int)
      requires |records| == |slots|
      modifies this
      ensures Grows(old(logs), logs)
      ensures forall p | p in logs :: Own(logs[p].entries, call) ==
                Own(EntriesOf(old(logs), p), call) + (if appended && p == part then slots else [])
      ensures appended ==> part in logs && Block(logs[part].entries, base, records, call, slots)
      ensures Accepted(reply) && acks != AcksNone ==> appended && reply.baseOffset == base
      ensures Accepted(reply) && acks == AcksNone ==> reply.baseOffset == 0
      ensures answers == old(answers) + [Sent(part, slots, reply)]
    {
      reply, appended, base := HandleProduce(part, records, acks, call, slots);
      answers := answers + [Sent(part, slots, reply)];
    }

    /** What the broker does with a produce request, and what comes back. */
    method HandleProduce(part: int, records: seq<Record>, acks: Acks, call: nat, slots: seq<nat>)
      returns (reply: Reply, ghost appended: bool, ghost base: int)
      requires |records| == |slots|
      modifies this`logs
      ensures Grows(old(logs), logs)
      ensures forall p | p in logs :: Own(logs[p].entries, call) ==
                Own(EntriesOf(old(logs), p), call) + (if appended && p == part then slots else [])
      ensures appended ==> part in logs && Block(logs[part].entries, base, records, call, slots)
      ensures Accepted(reply) && acks != AcksNone ==> appended && reply.baseOffset == base
      ensures Accepted(reply) && acks == AcksNone ==> reply.baseOffset == 0
    {
      var error: Error := *;
      var reached: bool, written: bool, answered: bool, refused: bool := *, *, *, *;
      Interfere(call);
      var effective := part in logs && reached && written;
      var first := if effective then |logs[part].entries| else 0;
      appended, base := effective, first;
      label Before:
      if effective {
        Append(part, records, call, slots);
      }
      label Written:
      Interfere(call);
      RequestSteps(old(logs), old@Before(logs), old@Written(logs), logs, call, part, if effective then slots else []);
      if effective {
        BlockStays(old@Written(logs), logs, part, base, records, call, slots);
      }
      if acks == AcksNone {
        reply := if reached then Reply(0, None) else NoReply(error);
      } else if !answered {
        reply := NoReply(error);
      } else if effective && !refused {
        reply := Reply(first, None);
      } else {
        reply := Reply(0, Some(error));
      }
    }

    /** The high-level writer's WriteMessages: each message goes to some partition, existing or created by
        this write, at most once; without an error every message was written (unless acks are off). */
    method WriteMessages(records: seq<Record>, acks: Acks, call: nat) returns (err: Option<Error>, ghost written: seq<bool>)
      requires OwnRecordsAre(logs, call, records)
      modifies this
      ensures |written| == |records| && Attempt(old(logs), logs, call, written)
      ensures OwnRecordsAre(logs, call, records)
      ensures err.None? && acks != AcksNone ==> forall i | 0 <= i < |records| :: written[i]
      ensures answers == old(answers) + [Wrote(records, err)]
    {
      written := [];
      var all := true;
      for i := 0 to |records|
        invariant |written| == i && Attempt(old(logs), logs, call, written) && answers == old(answers)
        invariant OwnRecordsAre(logs, call, records)
        invariant all ==> forall k | 0 <= k < i :: written[k]
      {
        var reached := WriteOne(records, i, call, old(logs), written);
        written := written + [reached];
        all := all && reached;
      }
      InterfereDuring(call, records, old(logs), written);
      var failure: Error := *;
      var told: bool := *;
      err := if (all || acks == AcksNone) && told then None else Some(failure);
      answers := answers + [Wrote(records, err)];
    }

    /** Message i of a batch: it reaches a partition or it does not. */
    method WriteOne(records: seq<Record>, i: nat, call: nat, ghost start: Logs, ghost written: seq<bool>)
      returns (reached: bool)
      requires i == |written| < |records|
      requires Attempt(start, logs, call, written) && OwnRecordsAre(logs, call, records)
      modifies this`logs
      ensures Attempt(start, logs, call, written + [reached]) && OwnRecordsAre(logs, call, records)
    {
      InterfereDuring(call, records, start, written);
      reached := *;
      if reached {
        var part: int, time: int := *, *;
        var e := Entry(records[i], time, Origin(call, i));
        AttemptOneMore(start, logs, call, written, part, e);
        AppendKeepsOwnRecords(logs, call, records, part, e);
        logs := Appended(logs, part, [e]);
      } else {
        SkippedMessage(start, logs, call, written);
      }
    }

    method InterfereDuring(call: nat, ghost records: seq<Record>, ghost start: Logs, ghost written: seq<bool>)
      requires Attempt(start, logs, call, written) && OwnRecordsAre(logs, call, records)
      modifies this`logs
      ensures Attempt(start, logs, call, written) && OwnRecordsAre(logs, call, records)
    {
      Interfere(call);
      AttemptExtended(start, old(logs), logs, call, written);
      InterferenceKeepsOwnRecords(old(logs), logs, call, records);
    }
  }

  lemma SkippedMessage(a: Logs, b: Logs, call: nat, written: seq<bool>)
    requires Attempt(a, b, call, written)
    ensures Attempt(a, b, call, written + [false])
  {
    forall slot: nat ensures (slot < |written + [false]| && (written + [false])[slot]) ==
                             (slot < |written| && written[slot])
    {
    }
  }
}
