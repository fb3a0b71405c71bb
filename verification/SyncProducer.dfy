/** The producer behind the "sync" mode: it groups a batch by partition, sends one request per group
    in whatever order the group map is walked, and scatters the offsets back into input order. */
module SyncProducer {
  import opened Domain
  import opened Errors
  import opened BrokerLog
  import opened Routing

  datatype IndexedRecord = IndexedRecord(index: nat, record: Record)

  function RecordOf(m: Message): Record {
    Record(m.key, m.value, m.headers)
  }

  function Indices(items: seq<IndexedRecord>): seq<nat> {
    seq(|items|, j requires 0 <= j < |items| => items[j].index)
  }

  ghost predicate InRange(slots: seq<nat>, n: nat) {
    forall j | 0 <= j < |slots| :: slots[j] < n
  }

  ghost function Items(msgs: seq<Message>, slots: seq<nat>): seq<IndexedRecord>
    requires InRange(slots, |msgs|)
  {
    seq(|slots|, j requires 0 <= j < |slots| => IndexedRecord(slots[j], RecordOf(msgs[slots[j]])))
  }

  /** The balancer's contract: it picks a listed partition, and for a key it is a function of the key. */
  ghost predicate IsBalancer(hash: (Bytes, seq<int>) -> int) {
    forall key, ids: seq<int> | ids != [] :: hash(key, ids) in ids
  }

  ghost predicate RoutesTo(hash: (Bytes, seq<int>) -> int, ids: seq<int>, m: Message, p: int) {
    p in ids && (m.key.Some? ==> p == hash(m.key.value, ids))
  }

  ghost predicate Routes(hash: (Bytes, seq<int>) -> int, ids: seq<int>, msgs: seq<Message>, route: seq<int>) {
    && |route| == |msgs|
    && forall i | 0 <= i < |msgs| :: RoutesTo(hash, ids, msgs[i], route[i])
  }

  /** The groups built for the first |route| messages. */
  ghost predicate GroupsMatch(groups: map<int, seq<IndexedRecord>>, msgs: seq<Message>, route: seq<int>) {
    && (forall p :: p in groups <==> p in route)
    && (forall p | p in groups :: InRange(Routed(route, p), |msgs|) && groups[p] == Items(msgs, Routed(route, p)))
  }

  lemma AddToGroup(groups: map<int, seq<IndexedRecord>>, msgs: seq<Message>, route: seq<int>, part: int)
    requires |route| < |msgs| && GroupsMatch(groups, msgs, route)
    ensures var i := |route|;
            var item := IndexedRecord(i, RecordOf(msgs[i]));
            GroupsMatch(groups[part := (if part in groups then groups[part] else []) + [item]], msgs, route + [part])
  {
    var i := |route|;
    var item := IndexedRecord(i, RecordOf(msgs[i]));
    var longer := route + [part];
    var groups' := groups[part := (if part in groups then groups[part] else []) + [item]];
    forall p ensures p in groups' <==> p in longer {
    }
    forall p | p in groups' ensures InRange(Routed(longer, p), |msgs|) && groups'[p] == Items(msgs, Routed(longer, p)) {
      if p == part {
        AddedToItsGroup(groups, msgs, route, part);
      } else {
        OneMoreMessage(route, part, p);
      }
    }
  }

  lemma AddedToItsGroup(groups: map<int, seq<IndexedRecord>>, msgs: seq<Message>, route: seq<int>, part: int)
    requires |route| < |msgs| && GroupsMatch(groups, msgs, route)
    ensures InRange(Routed(route + [part], part), |msgs|)
    ensures (if part in groups then groups[part] else []) + [IndexedRecord(|route|, RecordOf(msgs[|route|]))] ==
            Items(msgs, Routed(route + [part], part))
  {
    OneMoreMessage(route, part, part);
    if part in groups {
      ItemAppended(msgs, Routed(route, part), |route|);
    } else {
      NothingRouted(route, part);
    }
  }

  /** Messages of the batch in input order, each with its own index. */
  ghost predicate IsGroup(items: seq<IndexedRecord>, msgs: seq<Message>) {
    && (forall j | 0 <= j < |items| :: items[j].index < |msgs| && items[j].record == RecordOf(msgs[items[j].index]))
    && (forall j, k | 0 <= j < k < |items| :: items[j].index < items[k].index)
  }

  lemma GroupFacts(groups: map<int, seq<IndexedRecord>>, msgs: seq<Message>, route: seq<int>, p: int)
    requires |route| == |msgs| && GroupsMatch(groups, msgs, route) && p in groups
    ensures groups[p] != [] && IsGroup(groups[p], msgs)
  {
    GroupIsExact(route, p);
    var i :| 0 <= i < |route| && route[i] == p;
    assert i in Routed(route, p);
  }

  ghost predicate InSomeGroup(groups: map<int, seq<IndexedRecord>>, item: IndexedRecord) {
    exists p | p in groups :: item in groups[p]
  }

  ghost predicate AllGrouped(groups: map<int, seq<IndexedRecord>>, msgs: seq<Message>) {
    forall i | 0 <= i < |msgs| :: InSomeGroup(groups, IndexedRecord(i, RecordOf(msgs[i])))
  }

  lemma EveryMessageIsGrouped(groups: map<int, seq<IndexedRecord>>, msgs: seq<Message>, route: seq<int>)
    requires |route| == |msgs| && GroupsMatch(groups, msgs, route)
    ensures AllGrouped(groups, msgs)
  {
    forall i | 0 <= i < |msgs| ensures InSomeGroup(groups, IndexedRecord(i, RecordOf(msgs[i]))) {
      var p := route[i];
      GroupIsExact(route, p);
      var j :| 0 <= j < |Routed(route, p)| && Routed(route, p)[j] == i;
      assert p in groups && groups[p][j] == IndexedRecord(i, RecordOf(msgs[i]));
    }
  }

  lemma ItemAppended(msgs: seq<Message>, slots: seq<nat>, i: nat)
    requires InRange(slots, |msgs|) && i < |msgs|
    ensures Items(msgs, slots + [i]) == Items(msgs, slots) + [IndexedRecord(i, RecordOf(msgs[i]))]
  {
  }

  /** What a call has in the logs: for each partition in `bases` the whole group of that partition, as
      one block from that offset; for any other partition nothing. */
  ghost predicate WholeGroups(logs: Logs, call: nat, msgs: seq<Message>, route: seq<int>, bases: map<int, int>) {
    |route| == |msgs| && OwnsOnlyGroups(logs, call, route, bases) && HoldsBlocks(logs, call, msgs, route, bases)
  }

  ghost predicate OwnsOnlyGroups(logs: Logs, call: nat, route: seq<int>, bases: map<int, int>) {
    forall p | p in logs :: Own(logs[p].entries, call) == if p in bases then Routed(route, p) else []
  }

  ghost predicate HoldsBlocks(logs: Logs, call: nat, msgs: seq<Message>, route: seq<int>, bases: map<int, int>) {
    forall p | p in bases :: p in logs && GroupBlock(logs[p].entries, call, msgs, route, p, bases[p])
  }

  ghost predicate GroupBlock(log: seq<Entry>, call: nat, msgs: seq<Message>, route: seq<int>, p: int, base: int) {
    var slots := Routed(route, p);
    && 0 <= base && base + |slots| <= |log|
    && forall j | 0 <= j < |slots| :: HoldsMessage(log[base + j], call, msgs, slots[j])
  }

  /** The entry is message `slot` of the batch, written by this call. */
  ghost predicate HoldsMessage(e: Entry, call: nat, msgs: seq<Message>, slot: nat) {
    slot < |msgs| && e.record == RecordOf(msgs[slot]) && e.origin == Origin(call, slot)
  }

  /** Message i's result: its partition, and the base offset of its group plus its place in the group. */
  ghost predicate Reports(result: PublishResult, route: seq<int>, i: nat, bases: map<int, int>)
    requires i < |route|
  {
    route[i] in bases && result == PublishResult(route[i], bases[route[i]] + Rank(route, i))
  }

  /** A batch that was published with offsets. */
  ghost predicate Published(logs: Logs, call: nat, msgs: seq<Message>, route: seq<int>, bases: map<int, int>,
                            results: seq<PublishResult>)
  {
    && WholeGroups(logs, call, msgs, route, bases)
    && |results| == |msgs|
    && forall i | 0 <= i < |msgs| :: Reports(results[i], route, i, bases)
  }

  /** The results of a batch that was sent without acknowledgements: places inside the groups. */
  ghost predicate ReportsPlaces(results: seq<PublishResult>, route: seq<int>) {
    |results| == |route| && forall i | 0 <= i < |route| :: results[i] == PublishResult(route[i], Rank(route, i))
  }

  predicate FirstNamed(topics: seq<TopicInfo>, name: string, k: nat) {
    k < |topics| && topics[k].name == name && forall j | 0 <= j < k :: topics[j].name != name
  }

  ghost predicate Missing(t: TopicInfo) {
    (t.error.Some? && Contains(t.error.value, UNKNOWN_TOPIC)) || t.partitions == []
  }

  /** The partition ids that a metadata answer gives for a topic: those of the first entry with its name,
      unless that entry says the topic is unknown, lists no partitions, or carries another error. */
  ghost predicate PartitionsFrom(resp: Result<seq<TopicInfo>>, topic: string, r: Result<seq<int>>) {
    if resp.Err? then r == Err(Wrapped(resp.error))
    else if forall k | 0 <= k < |resp.value| :: resp.value[k].name != topic then r == Err(Known(TopicNotFound))
    else exists k: nat :: FirstNamed(resp.value, topic, k) && PartitionsOf(resp.value[k], r)
  }

  ghost predicate PartitionsOf(t: TopicInfo, r: Result<seq<int>>) {
    if Missing(t) then r == Err(Known(TopicNotFound))
    else if t.error.Some? then r == Err(Wrapped(t.error.value))
    else
      && r.Ok? && r.value != [] && |r.value| == |t.partitions|
      && forall i | 0 <= i < |r.value| :: r.value[i] == t.partitions[i].id
  }

  // ---- The requests of one call ----

  function ReplyError(r: Reply): Option<Error> {
    if r.NoReply? then Some(r.failure) else r.error
  }

  ghost function PartsOf(route: seq<int>): set<int> {
    set p | p in route
  }

  ghost function PartsAsked(sent: seq<Answer>): set<int> {
    set k | 0 <= k < |sent| && sent[k].Sent? :: sent[k].part
  }

  /** At most one request for each partition, with that partition's whole group. */
  ghost predicate OnePerGroup(sent: seq<Answer>, route: seq<int>) {
    && (forall k | 0 <= k < |sent| :: sent[k].Sent? && sent[k].slots == Routed(route, sent[k].part))
    && (forall j, k | 0 <= j < k < |sent| :: sent[j].part != sent[k].part)
  }

  ghost predicate AllAccepted(sent: seq<Answer>) {
    forall k | 0 <= k < |sent| :: sent[k].Sent? && Accepted(sent[k].reply)
  }

  /** The groups that are in the logs: every one whose request was accepted, and none that was not sent. */
  ghost predicate WrittenGroups(sent: seq<Answer>, acks: Acks, bases: map<int, int>) {
    && bases.Keys <= PartsAsked(sent)
    && (acks != AcksNone ==>
          forall k | 0 <= k < |sent| && sent[k].Sent? && Accepted(sent[k].reply) ::
            sent[k].part in bases && sent[k].reply.baseOffset == bases[sent[k].part])
  }

  /** A walk that was accepted so far, by these partitions. */
  ghost predicate Walked(sent: seq<Answer>, route: seq<int>, acks: Acks, bases: map<int, int>, parts: set<int>) {
    && OnePerGroup(sent, route) && WrittenGroups(sent, acks, bases)
    && AllAccepted(sent) && PartsAsked(sent) == parts
  }

  /** A walk over the groups ends after all of them, or at the first request that is not accepted. */
  ghost predicate WalkEnds(sent: seq<Answer>, parts: set<int>, failed: Option<Error>) {
    if failed.None? then AllAccepted(sent) && PartsAsked(sent) == parts
    else
      && sent != [] && AllAccepted(sent[..|sent| - 1]) && PartsAsked(sent) <= parts
      && sent[|sent| - 1].Sent? && failed == ReplyError(sent[|sent| - 1].reply)
  }

  /** What a call asked and was told accounts for its result. */
  ghost predicate Explains(asked: seq<Answer>, topic: string, acks: Acks, ids: seq<int>, route: seq<int>,
                           bases: map<int, int>, r: Result<seq<PublishResult>>)
  {
    && asked != [] && asked[0].Listed?
    && if |asked| == 1 then r.Err? && PartitionsFrom(asked[0].topics, topic, Err(r.error)) && bases == map[]
       else
         && PartitionsFrom(asked[0].topics, topic, Ok(ids))
         && OnePerGroup(asked[1..], route) && WrittenGroups(asked[1..], acks, bases)
         && exists failed :: WalkEnds(asked[1..], PartsOf(route), failed) &&
              if failed.None? then r.Ok? else r == Err(Translate(failed.value))
  }

  class SyncProducer {
    const broker: Broker
    const acks: Acks
    const hash: (Bytes, seq<int>) -> int

    constructor (broker: Broker, acks: Acks, hash: (Bytes, seq<int>) -> int)
      ensures this.broker == broker && this.acks == acks && this.hash == hash
    {
      this.broker, this.acks, this.hash := broker, acks, hash;
    }

    method Balance(m: Message, ids: seq<int>) returns (p: int)
      requires IsBalancer(hash) && ids != []
      ensures RoutesTo(hash, ids, m, p)
    {
      if m.key.Some? {
        p := hash(m.key.value, ids);
      } else {
        var k: nat := *;
        p := ids[k % |ids|];
      }
    }

    method Partitions(resp: Result<seq<TopicInfo>>, topic: string) returns (r: Result<seq<int>>)
      ensures PartitionsFrom(resp, topic, r)
    {
      if resp.Err? {
        return Err(Wrapped(resp.error));
      }
      for k := 0 to |resp.value|
        invariant forall j | 0 <= j < k :: resp.value[j].name != topic
      {
        var t := resp.value[k];
        if t.name != topic {
          continue;
        }
        assert FirstNamed(resp.value, topic, k);
        var unknown := ContainsKafkaError(t.error, UNKNOWN_TOPIC);
        if unknown || |t.partitions| == 0 {
          return Err(Known(TopicNotFound));
        }
        if t.error.Some? {
          return Err(Wrapped(t.error.value));
        }
        var ids := [];
        for i := 0 to |t.partitions|
          invariant |ids| == i && forall j | 0 <= j < i :: ids[j] == t.partitions[j].id
        {
          ids := ids + [t.partitions[i].id];
        }
        return Ok(ids);
      }
      return Err(Known(TopicNotFound));
    }

    method TranslateError(err: Error) returns (r: Error)
      ensures r == Translate(err)
    {
      var unknown := ContainsKafkaError(Some(err), UNKNOWN_TOPIC);
      r := if unknown then Known(TopicNotFound) else Wrapped(err);
    }

    /** The first loop of Produce: route every message and append it to its partition's group. */
    method Group(msgs: seq<Message>, ids: seq<int>)
      returns (groups: map<int, seq<IndexedRecord>>, ghost route: seq<int>)
      requires IsBalancer(hash) && ids != []
      ensures Routes(hash, ids, msgs, route)
      ensures GroupsMatch(groups, msgs, route)
      ensures forall p | p in groups :: p in ids && groups[p] != [] && IsGroup(groups[p], msgs)
      ensures AllGrouped(groups, msgs)
    {
      groups, route := map[], [];
      for i := 0 to |msgs|
        invariant |route| == i
        invariant forall k | 0 <= k < i :: RoutesTo(hash, ids, msgs[k], route[k])
        invariant GroupsMatch(groups, msgs, route)
      {
        var part := Balance(msgs[i], ids);
        AddToGroup(groups, msgs, route, part);
        route := route + [part];
        groups := groups[part := (if part in groups then groups[part] else []) + [IndexedRecord(i, RecordOf(msgs[i]))]];
      }
      forall p | p in groups ensures p in ids && groups[p] != [] && IsGroup(groups[p], msgs) {
        GroupFacts(groups, msgs, route, p);
        var i :| 0 <= i < |route| && route[i] == p;
        assert RoutesTo(hash, ids, msgs[i], p);
      }
      EveryMessageIsGrouped(groups, msgs, route);
    }

    /** The inner loop of Produce that writes one group's offsets into the result slots. */
    method Scatter(results: array<PublishResult>, items: seq<IndexedRecord>, part: int, base: int)
      requires forall j | 0 <= j < |items| :: items[j].index < results.Length
      requires forall j, k | 0 <= j < k < |items| :: items[j].index < items[k].index
      modifies results
      ensures forall j | 0 <= j < |items| :: results[items[j].index] == PublishResult(part, base + j)
      ensures forall i | 0 <= i < results.Length && (forall j | 0 <= j < |items| :: items[j].index != i) ::
                results[i] == old(results[i])
    {
      for j := 0 to |items|
        invariant forall k | 0 <= k < j :: results[items[k].index] == PublishResult(part, base + k)
        invariant forall i | 0 <= i < results.Length && (forall k | 0 <= k < j :: items[k].index != i) ::
                    results[i] == old(results[i])
      {
        results[items[j].index] := PublishResult(part, base + j);
      }
    }

    method StripIndices(items: seq<IndexedRecord>) returns (records: seq<Record>)
      ensures |records| == |items| && forall j | 0 <= j < |items| :: records[j] == items[j].record
    {
      records := [];
      for j := 0 to |items|
        invariant |records| == j && forall k | 0 <= k < j :: records[k] == items[k].record
      {
        records := records + [items[j].record];
      }
    }

    /** The request for one group. */
    method SendGroup(part: int, items: seq<IndexedRecord>, call: nat, ghost msgs: seq<Message>, ghost route: seq<int>)
      returns (reply: Reply, ghost appended: bool, ghost base: int)
      requires InRange(Routed(route, part), |msgs|) && items == Items(msgs, Routed(route, part))
      modifies broker
      ensures Grows(old(broker.logs), broker.logs)
      ensures forall p | p in broker.logs :: Own(broker.logs[p].entries, call) ==
                Own(EntriesOf(old(broker.logs), p), call) + (if appended && p == part then Routed(route, part) else [])
      ensures appended ==> part in broker.logs && GroupBlock(broker.logs[part].entries, call, msgs, route, part, base)
      ensures Accepted(reply) && acks != AcksNone ==> appended && reply.baseOffset == base
      ensures Accepted(reply) && acks == AcksNone ==> reply.baseOffset == 0
      ensures broker.answers == old(broker.answers) + [Sent(part, Routed(route, part), reply)]
    {
      var records := StripIndices(items);
      assert Indices(items) == Routed(route, part);
      reply, appended, base := broker.Produce(part, records, acks, call, Indices(items));
      if appended {
        forall j | 0 <= j < |items| ensures HoldsMessage(broker.logs[part].entries[base + j], call, msgs, Routed(route, part)[j]) {
          assert records[j] == items[j].record;
        }
      }
    }

    /** The offsets of one group, in terms of the routes. */
    method ScatterGroup(results: array<PublishResult>, items: seq<IndexedRecord>, part: int, base: int,
                        ghost msgs: seq<Message>, ghost route: seq<int>)
      requires results.Length == |msgs| == |route|
      requires InRange(Routed(route, part), |msgs|) && items == Items(msgs, Routed(route, part))
      modifies results
      ensures ScatteredGroup(old(results[..]), results[..], route, part, base)
    {
      GroupIsExact(route, part);
      Scatter(results, items, part, base);
      forall i | 0 <= i < |msgs|
        ensures results[i] == if route[i] == part then PublishResult(part, base + Rank(route, i)) else old(results[i])
      {
        if route[i] == part {
          RankLocates(route, i);
          assert items[Rank(route, i)].index == i;
        }
      }
    }

    /** One round of the loop over the group map: send the group, then scatter its offsets. */
    method PublishGroup(part: int, items: seq<IndexedRecord>, results: array<PublishResult>, call: nat,
                        ghost msgs: seq<Message>, ghost route: seq<int>, ghost remaining: set<int>, ghost bases: map<int, int>)
      returns (failed: Option<Error>, ghost bases': map<int, int>, ghost reply: Reply)
      requires results.Length == |msgs|
      requires InRange(Routed(route, part), |msgs|) && items == Items(msgs, Routed(route, part))
      requires WholeGroups(broker.logs, call, msgs, route, bases) && part !in bases
      requires Filled(results[..], route, remaining + {part}, acks, bases)
      modifies broker, results
      ensures Grows(old(broker.logs), broker.logs)
      ensures WholeGroups(broker.logs, call, msgs, route, bases')
      ensures bases' == bases || (bases'.Keys == bases.Keys + {part} && forall p | p in bases :: bases'[p] == bases[p])
      ensures failed == ReplyError(reply)
      ensures failed.None? && acks != AcksNone ==> part in bases' && reply.baseOffset == bases'[part]
      ensures broker.answers == old(broker.answers) + [Sent(part, Routed(route, part), reply)]
      ensures failed.None? ==> Filled(results[..], route, remaining, acks, bases')
    {
      ghost var appended, base;
      var answer: Reply;
      answer, appended, base := SendGroup(part, items, call, msgs, route);
      GroupSent(old(broker.logs), broker.logs, call, msgs, route, bases, part, appended, base);
      bases' := if appended then bases[part := base] else bases;
      reply := answer;
      failed := ReplyError(answer);
      if failed.None? {
        ScatterGroup(results, items, part, answer.baseOffset, msgs, route);
        FilledOneMore(old(results[..]), results[..], route, remaining, acks, bases, part, appended, base, answer.baseOffset);
      }
    }

    /** The loop over the group map. Go's map order is unspecified: any waiting partition may be next. */
    method SendGroups(groups: map<int, seq<IndexedRecord>>, results: array<PublishResult>, call: nat,
                      ghost msgs: seq<Message>, ghost route: seq<int>)
      returns (failed: Option<Error>, ghost bases: map<int, int>, ghost sent: seq<Answer>)
      requires results.Length == |msgs| == |route| && GroupsMatch(groups, msgs, route)
      requires Unused(broker.logs, call)
      modifies broker, results
      ensures Grows(old(broker.logs), broker.logs)
      ensures WholeGroups(broker.logs, call, msgs, route, bases)
      ensures failed.None? ==> Filled(results[..], route, {}, acks, bases)
      ensures broker.answers == old(broker.answers) + sent && OnePerGroup(sent, route)
      ensures WrittenGroups(sent, acks, bases) && WalkEnds(sent, groups.Keys, failed)
    {
      bases, sent := map[], [];
      var remaining := groups.Keys;
      while remaining != {}
        invariant remaining <= groups.Keys
        invariant Grows(old(broker.logs), broker.logs)
        invariant WholeGroups(broker.logs, call, msgs, route, bases)
        invariant broker.answers == old(broker.answers) + sent
        invariant Walked(sent, route, acks, bases, groups.Keys - remaining)
        invariant Filled(results[..], route, remaining, acks, bases)
      {
        ghost var _ := HasMember(remaining);
        var part :| part in remaining;
        var rest := remaining - {part};
        assert rest + {part} == remaining;
        label Sending:
        ghost var reply;
        ghost var before, asked := bases, sent;
        failed, bases, reply := PublishGroup(part, groups[part], results, call, msgs, route, rest, bases);
        AnswersAdded(old(broker.answers), asked, [Sent(part, Routed(route, part), reply)]);
        sent := asked + [Sent(part, Routed(route, part), reply)];
        OneMoreRequest(asked, route, acks, before, bases, groups.Keys, remaining, part, reply);
        GrowsIsTransitive(old(broker.logs), old@Sending(broker.logs), broker.logs);
        if failed.Some? {
          return;
        }
        remaining := rest;
      }
      failed := None;
    }

    /** Produce writes the batch and returns each record's coordinate in input order. On any outcome the
        logs hold whole partition groups of this call and nothing else of it. It asks for the partitions
        once, then sends one request a group until one is not accepted. */
    method Produce(topic: string, msgs: seq<Message>, call: nat)
      returns (r: Result<seq<PublishResult>>, ghost ids: seq<int>, ghost route: seq<int>, ghost bases: map<int, int>,
               ghost asked: seq<Answer>)
      requires IsBalancer(hash) && Unused(broker.logs, call)
      modifies broker
      ensures Grows(old(broker.logs), broker.logs)
      ensures WholeGroups(broker.logs, call, msgs, route, bases)
      ensures |asked| > 1 ==> Routes(hash, ids, msgs, route)
      ensures r.Ok? && acks != AcksNone ==> Published(broker.logs, call, msgs, route, bases, r.value)
      ensures r.Ok? && acks == AcksNone ==> ReportsPlaces(r.value, route)
      ensures broker.answers == old(broker.answers) + asked
      ensures if msgs == [] then r == Ok([]) && asked == [] && bases == map[]
              else Explains(asked, topic, acks, ids, route, bases, r)
    {
      ids, route, bases, asked := [], seq(|msgs|, _ => 0), map[], [];
      if |msgs| == 0 {
        NothingWritten(broker.logs, call, msgs, route);
        return Ok([]), ids, route, bases, asked;
      }
      var resp := broker.Metadata();
      asked := [Listed(resp)];
      var found := Partitions(resp, topic);
      if found.Err? {
        NothingWritten(broker.logs, call, msgs, route);
        ListingExplains(resp, topic, acks, ids, route, found.error);
        return Err(found.error), ids, route, bases, asked;
      }
      ids := found.value;
      ghost var sent, failed;
      r, route, bases, sent, failed := ProduceTo(found.value, msgs, call);
      AnswersAdded(old(broker.answers), asked, sent);
      asked := asked + sent;
      WalkExplains(resp, topic, acks, ids, route, bases, sent, failed, r);
    }

    /** Produce once the partitions are known: group, send, translate the error of a request. */
    method ProduceTo(ids: seq<int>, msgs: seq<Message>, call: nat)
      returns (r: Result<seq<PublishResult>>, ghost route: seq<int>, ghost bases: map<int, int>, ghost sent: seq<Answer>,
               ghost failed: Option<Error>)
      requires IsBalancer(hash) && ids != [] && msgs != [] && Unused(broker.logs, call)
      modifies broker
      ensures Grows(old(broker.logs), broker.logs)
      ensures WholeGroups(broker.logs, call, msgs, route, bases) && Routes(hash, ids, msgs, route)
      ensures r.Ok? && acks != AcksNone ==> Published(broker.logs, call, msgs, route, bases, r.value)
      ensures r.Ok? && acks == AcksNone ==> ReportsPlaces(r.value, route)
      ensures broker.answers == old(broker.answers) + sent && OnePerGroup(sent, route)
      ensures WrittenGroups(sent, acks, bases) && WalkEnds(sent, PartsOf(route), failed)
      ensures if failed.None? then r.Ok? else r == Err(Translate(failed.value))
    {
      var groups;
      groups, route := Group(msgs, ids);
      GroupKeys(groups, msgs, route);

      var results := new PublishResult[|msgs|](_ => PublishResult(0, 0));
      var stopped;
      stopped, bases, sent := SendGroups(groups, results, call, msgs, route);
      failed := stopped;
      if stopped.Some? {
        var translated := TranslateError(stopped.value);
        return Err(translated), route, bases, sent, failed;
      }
      r := Ok(results[..]);
      if acks != AcksNone {
        AllWritten(sent, acks, bases, groups.Keys);
      }
      FilledUp(broker.logs, call, msgs, results[..], route, acks, bases);
    }
  }

  ghost function ReportedBase(acks: Acks, bases: map<int, int>, p: int): int {
    if acks != AcksNone && p in bases then bases[p] else 0
  }

  /** The result slots after one group was scattered. */
  ghost predicate ScatteredGroup(before: seq<PublishResult>, after: seq<PublishResult>, route: seq<int>, part: int, base: int) {
    && |before| == |after| == |route|
    && forall i | 0 <= i < |route| ::
         after[i] == if route[i] == part then PublishResult(part, base + Rank(route, i)) else before[i]
  }

  /** Every slot of a partition that is no longer waiting holds its coordinate. */
  ghost predicate Filled(results: seq<PublishResult>, route: seq<int>, remaining: set<int>, acks: Acks, bases: map<int, int>) {
    && |results| == |route|
    && forall i | 0 <= i < |route| && route[i] !in remaining ::
         results[i] == PublishResult(route[i], ReportedBase(acks, bases, route[i]) + Rank(route, i))
  }

  /** When no group is waiting, the slots are the call's results. */
  lemma FilledUp(logs: Logs, call: nat, msgs: seq<Message>, results: seq<PublishResult>, route: seq<int>, acks: Acks,
                 bases: map<int, int>)
    requires Filled(results, route, {}, acks, bases) && WholeGroups(logs, call, msgs, route, bases)
    requires acks != AcksNone ==> bases.Keys == PartsOf(route)
    ensures if acks == AcksNone then ReportsPlaces(results, route)
            else Published(logs, call, msgs, route, bases, results)
  {
    if acks != AcksNone {
      forall i | 0 <= i < |msgs| ensures Reports(results[i], route, i, bases) {
        assert route[i] in PartsOf(route);
      }
    }
  }

  lemma FilledOneMore(before: seq<PublishResult>, after: seq<PublishResult>, route: seq<int>, remaining: set<int>,
                      acks: Acks, bases: map<int, int>, part: int, appended: bool, base: int, reported: int)
    requires Filled(before, route, remaining + {part}, acks, bases)
    requires ScatteredGroup(before, after, route, part, reported)
    requires reported == if acks == AcksNone then 0 else base
    requires acks != AcksNone ==> appended
    ensures Filled(after, route, remaining, acks, if appended then bases[part := base] else bases)
  {
  }

  lemma OneMorePart(sent: seq<Answer>, last: Answer)
    requires last.Sent?
    ensures PartsAsked(sent + [last]) == PartsAsked(sent) + {last.part}
  {
    var longer := sent + [last];
    forall p ensures p in PartsAsked(longer) <==> p in PartsAsked(sent) + {last.part} {
      if p in PartsAsked(sent) {
        var k :| 0 <= k < |sent| && sent[k].Sent? && sent[k].part == p;
        assert longer[k] == sent[k];
      }
      assert longer[|sent|] == last;
    }
  }

  /** One more request, for a partition that was not asked before. */
  lemma OneMoreRequest(sent: seq<Answer>, route: seq<int>, acks: Acks, bases: map<int, int>, bases': map<int, int>,
                       parts: set<int>, remaining: set<int>, part: int, reply: Reply)
    requires Walked(sent, route, acks, bases, parts - remaining) && part in remaining && remaining <= parts
    requires bases' == bases || (bases'.Keys == bases.Keys + {part} && forall p | p in bases :: bases'[p] == bases[p])
    requires Accepted(reply) && acks != AcksNone ==> part in bases' && reply.baseOffset == bases'[part]
    ensures var longer := sent + [Sent(part, Routed(route, part), reply)];
            && OnePerGroup(longer, route) && WrittenGroups(longer, acks, bases')
            && if Accepted(reply) then Walked(longer, route, acks, bases', parts - (remaining - {part}))
               else WalkEnds(longer, parts, ReplyError(reply))
  {
    var last := Sent(part, Routed(route, part), reply);
    OneMorePart(sent, last);
    OneMoreIsOnce(sent, route, last);
    OneMoreIsWritten(sent, acks, bases, bases', last);
    assert (sent + [last])[..|sent|] == sent;
    assert parts - remaining + {part} == parts - (remaining - {part});
  }

  lemma OneMoreIsOnce(sent: seq<Answer>, route: seq<int>, last: Answer)
    requires OnePerGroup(sent, route) && last.Sent? && last.slots == Routed(route, last.part)
    requires last.part !in PartsAsked(sent)
    ensures OnePerGroup(sent + [last], route)
  {
    forall j | 0 <= j < |sent| ensures sent[j].part != last.part {
      assert sent[j].part in PartsAsked(sent);
    }
  }

  lemma OneMoreIsWritten(sent: seq<Answer>, acks: Acks, bases: map<int, int>, bases': map<int, int>, last: Answer)
    requires WrittenGroups(sent, acks, bases) && last.Sent?
    requires bases' == bases || (bases'.Keys == bases.Keys + {last.part} && forall p | p in bases :: bases'[p] == bases[p])
    requires Accepted(last.reply) && acks != AcksNone ==> last.part in bases' && last.reply.baseOffset == bases'[last.part]
    ensures WrittenGroups(sent + [last], acks, bases')
  {
    OneMorePart(sent, last);
  }

  lemma GroupKeys(groups: map<int, seq<IndexedRecord>>, msgs: seq<Message>, route: seq<int>)
    requires GroupsMatch(groups, msgs, route)
    ensures groups.Keys == PartsOf(route)
    ensures route != [] ==> groups.Keys != {}
  {
    forall p ensures p in groups.Keys <==> p in PartsOf(route) {
    }
    if route != [] {
      assert route[0] in groups.Keys;
    }
  }

  lemma AllWritten(sent: seq<Answer>, acks: Acks, bases: map<int, int>, parts: set<int>)
    requires WrittenGroups(sent, acks, bases) && WalkEnds(sent, parts, None) && acks != AcksNone
    ensures bases.Keys == parts
  {
    forall p | p in parts ensures p in bases {
      var k :| 0 <= k < |sent| && sent[k].Sent? && sent[k].part == p;
    }
  }

  lemma NothingWritten(logs: Logs, call: nat, msgs: seq<Message>, route: seq<int>)
    requires Unused(logs, call) && |route| == |msgs|
    ensures WholeGroups(logs, call, msgs, route, map[])
    ensures msgs == [] ==> Published(logs, call, msgs, route, map[], []) && ReportsPlaces([], route)
  {
  }

  lemma ListingExplains(resp: Result<seq<TopicInfo>>, topic: string, acks: Acks, ids: seq<int>, route: seq<int>, error: Error)
    requires PartitionsFrom(resp, topic, Err(error))
    ensures Explains([Listed(resp)], topic, acks, ids, route, map[], Err(error))
  {
  }

  lemma WalkExplains(resp: Result<seq<TopicInfo>>, topic: string, acks: Acks, ids: seq<int>, route: seq<int>,
                     bases: map<int, int>, sent: seq<Answer>, failed: Option<Error>, r: Result<seq<PublishResult>>)
    requires PartitionsFrom(resp, topic, Ok(ids)) && route != []
    requires OnePerGroup(sent, route) && WrittenGroups(sent, acks, bases) && WalkEnds(sent, PartsOf(route), failed)
    requires if failed.None? then r.Ok? else r == Err(Translate(failed.value))
    ensures Explains([Listed(resp)] + sent, topic, acks, ids, route, bases, r)
  {
    var asked := [Listed(resp)] + sent;
    assert asked[1..] == sent;
    assert route[0] in PartsOf(route);
  }

  /** One request turns "whole groups for `bases`" into "whole groups for `bases` and this partition",
      or leaves it as it was. */
  lemma GroupSent(before: Logs, after: Logs, call: nat, msgs: seq<Message>, route: seq<int>, bases: map<int, int>,
                  part: int, appended: bool, base: int)
    requires WholeGroups(before, call, msgs, route, bases) && Grows(before, after) && part !in bases
    requires forall p | p in after :: Own(after[p].entries, call) ==
               Own(EntriesOf(before, p), call) + (if appended && p == part then Routed(route, part) else [])
    requires appended ==> part in after && GroupBlock(after[part].entries, call, msgs, route, part, base)
    ensures WholeGroups(after, call, msgs, route, if appended then bases[part := base] else bases)
  {
    BlocksStay(before, after, call, msgs, route, bases);
    OwnsOneMore(before, after, call, route, bases, part, appended, base);
  }

  lemma BlocksStay(before: Logs, after: Logs, call: nat, msgs: seq<Message>, route: seq<int>, bases: map<int, int>)
    requires Grows(before, after) && HoldsBlocks(before, call, msgs, route, bases)
    ensures HoldsBlocks(after, call, msgs, route, bases)
  {
    forall p | p in bases ensures p in after && GroupBlock(after[p].entries, call, msgs, route, p, bases[p]) {
      assert before[p].entries <= after[p].entries;
    }
  }

  lemma OwnsOneMore(before: Logs, after: Logs, call: nat, route: seq<int>, bases: map<int, int>,
                    part: int, appended: bool, base: int)
    requires Grows(before, after) && part !in bases
    requires OwnsOnlyGroups(before, call, route, bases) && forall p | p in bases :: p in before
    requires forall p | p in after :: Own(after[p].entries, call) ==
               Own(EntriesOf(before, p), call) + (if appended && p == part then Routed(route, part) else [])
    ensures OwnsOnlyGroups(after, call, route, if appended then bases[part := base] else bases)
  {
    forall p | p in after
      ensures Own(after[p].entries, call) ==
              if p in bases || (appended && p == part) then Routed(route, p) else []
    {
      assert p !in before ==> Own(EntriesOf(before, p), call) == [];
    }
  }
}
