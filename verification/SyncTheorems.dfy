/** What a caller of the sync producer can rely on, derived from its contract alone. */
module SyncTheorems {
  import opened Domain
  import opened Errors
  import opened BrokerLog
  import opened Routing
  import opened SyncProducer

  /** The logs hold message i of the batch at this coordinate. */
  ghost predicate HoldsAt(logs: Logs, at: PublishResult, call: nat, msgs: seq<Message>, i: nat) {
    && at.partition in logs
    && 0 <= at.offset < |logs[at.partition].entries|
    && HoldsMessage(logs[at.partition].entries[at.offset], call, msgs, i)
  }

  /** Every reported coordinate holds that message's record, now and after any later growth of the logs. */
  lemma ExactPlacement(logs: Logs, later: Logs, call: nat, msgs: seq<Message>, route: seq<int>, bases: map<int, int>,
                       results: seq<PublishResult>, i: nat)
    requires Published(logs, call, msgs, route, bases, results) && Grows(logs, later) && i < |msgs|
    ensures HoldsAt(later, results[i], call, msgs, i)
  {
    assert Reports(results[i], route, i, bases);
    StoredInItsBlock(logs, call, msgs, route, bases, i);
    assert logs[route[i]].entries <= later[route[i]].entries;
  }

  /** A message of a written group sits at the group's base plus its place in the group. */
  lemma StoredInItsBlock(logs: Logs, call: nat, msgs: seq<Message>, route: seq<int>, bases: map<int, int>, i: nat)
    requires |route| == |msgs| && HoldsBlocks(logs, call, msgs, route, bases) && i < |msgs| && route[i] in bases
    ensures HoldsAt(logs, PublishResult(route[i], bases[route[i]] + Rank(route, i)), call, msgs, i)
  {
    var p, at := route[i], PublishResult(route[i], bases[route[i]] + Rank(route, i));
    assert p in logs && GroupBlock(logs[p].entries, call, msgs, route, p, bases[p]);
    StoredInItsPlace(logs, call, msgs, route, bases[p], i, at);
  }

  lemma StoredInItsPlace(logs: Logs, call: nat, msgs: seq<Message>, route: seq<int>, base: int, i: nat, at: PublishResult)
    requires i < |route| && route[i] in logs && GroupBlock(logs[route[i]].entries, call, msgs, route, route[i], base)
    requires at == PublishResult(route[i], base + Rank(route, i))
    ensures HoldsAt(logs, at, call, msgs, i)
  {
    RankLocates(route, i);
    BlockHoldsSlot(logs[route[i]].entries, call, msgs, route, route[i], base, Rank(route, i), i);
  }

  lemma BlockHoldsSlot(log: seq<Entry>, call: nat, msgs: seq<Message>, route: seq<int>, p: int, base: int, j: nat, i: nat)
    requires GroupBlock(log, call, msgs, route, p, base) && j < |Routed(route, p)| && Routed(route, p)[j] == i
    ensures 0 <= base + j < |log| && HoldsMessage(log[base + j], call, msgs, i)
  {
  }

  /** The call wrote nothing else: any record of the call sits at the coordinate reported for its slot. */
  lemma NothingElsewhere(logs: Logs, call: nat, msgs: seq<Message>, route: seq<int>, bases: map<int, int>,
                         results: seq<PublishResult>, p: int, o: nat, slot: nat)
    requires Published(logs, call, msgs, route, bases, results)
    requires p in logs && o < |logs[p].entries| && logs[p].entries[o].origin == Origin(call, slot)
    ensures slot < |msgs| && results[slot] == PublishResult(p, o)
  {
    SlotIsRouted(logs[p].entries, call, route, p, o, slot);
    assert Reports(results[slot], route, slot, bases);
    ExactPlacement(logs, logs, call, msgs, route, bases, results, slot);
    GroupIsExact(route, p);
    OnlyOnePosition(logs[p].entries, call, slot, results[slot].offset, o);
  }

  lemma SlotIsRouted(log: seq<Entry>, call: nat, route: seq<int>, p: int, o: nat, slot: nat)
    requires o < |log| && log[o].origin == Origin(call, slot)
    requires Own(log, call) == [] || Own(log, call) == Routed(route, p)
    ensures slot < |route| && route[slot] == p && Own(log, call) == Routed(route, p)
  {
    OwnMembers(log, call, slot);
    GroupIsExact(route, p);
    assert slot in Own(log, call);
  }

  /** Message i is in the logs once if its group was written and not at all otherwise, on every outcome. */
  lemma OneCopyOrNone(logs: Logs, call: nat, msgs: seq<Message>, route: seq<int>, bases: map<int, int>, i: nat)
    requires WholeGroups(logs, call, msgs, route, bases) && i < |msgs|
    ensures Total(logs, Origin(call, i)) == if route[i] in bases then 1 else 0
  {
    var o := Origin(call, i);
    forall q | q in logs && q != route[i] ensures Copies(logs[q].entries, o) == 0 {
      GroupIsExact(route, q);
      assert i !in Routed(route, q);
    }
    TotalInOnePartition(logs, o, route[i]);
    if route[i] in bases {
      GroupIsExact(route, route[i]);
      IncreasingHasOneCopy(Routed(route, route[i]), i);
    }
  }

  /** Conservation: a published batch has every message in the logs exactly once and no record outside the batch. */
  lemma Conservation(logs: Logs, call: nat, msgs: seq<Message>, route: seq<int>, bases: map<int, int>,
                     results: seq<PublishResult>, slot: nat)
    requires Published(logs, call, msgs, route, bases, results)
    ensures Total(logs, Origin(call, slot)) == if slot < |msgs| then 1 else 0
  {
    if slot < |msgs| {
      assert Reports(results[slot], route, slot, bases);
      OneCopyOrNone(logs, call, msgs, route, bases, slot);
    } else {
      forall q | q in logs ensures Copies(logs[q].entries, Origin(call, slot)) == 0 {
        GroupIsExact(route, q);
        assert slot !in Routed(route, q);
      }
      TotalInOnePartition(logs, Origin(call, slot), 0);
    }
  }

  /** Partial failure never splits a group: messages of one partition are all in the logs or all absent. */
  lemma GroupsAreAtomic(logs: Logs, call: nat, msgs: seq<Message>, route: seq<int>, bases: map<int, int>, i: nat, j: nat)
    requires WholeGroups(logs, call, msgs, route, bases) && i < |msgs| && j < |msgs| && route[i] == route[j]
    ensures Total(logs, Origin(call, i)) == Total(logs, Origin(call, j)) <= 1
  {
    OneCopyOrNone(logs, call, msgs, route, bases, i);
    OneCopyOrNone(logs, call, msgs, route, bases, j);
  }

  /** A batch that failed after its partitions were known: it stopped at the first request that was not
      accepted, with that request's error; the groups accepted before are in the logs, the refused one may
      be, and no other is. */
  lemma FailedBatch(asked: seq<Answer>, topic: string, acks: Acks, ids: seq<int>, route: seq<int>, bases: map<int, int>,
                    error: Error)
    requires Explains(asked, topic, acks, ids, route, bases, Err(error)) && |asked| > 1
    ensures var done, last := PartsAsked(asked[1..|asked| - 1]), asked[|asked| - 1];
            && last.Sent? && last.part in route && last.part !in done
            && (match last.reply
                case NoReply(f) => error == if Contains(f, UNKNOWN_TOPIC) then Known(TopicNotFound) else Wrapped(f)
                case Reply(_, None) => false
                case Reply(_, Some(f)) => error == if Contains(f, UNKNOWN_TOPIC) then Known(TopicNotFound) else Wrapped(f))
            && (acks != AcksNone ==> bases.Keys == done || bases.Keys == done + {last.part})
  {
    var done, last := asked[1..|asked| - 1], asked[|asked| - 1];
    var failed :| WalkEnds(asked[1..], PartsOf(route), failed) && failed.Some? && error == Translate(failed.value);
    assert asked[1..] == done + [last] && asked[1..][..|asked| - 2] == done;
    StoppedWalk(done, last, acks, route, bases, failed);
  }

  lemma StoppedWalk(done: seq<Answer>, last: Answer, acks: Acks, route: seq<int>, bases: map<int, int>, failed: Option<Error>)
    requires OnePerGroup(done + [last], route) && WrittenGroups(done + [last], acks, bases)
    requires WalkEnds(done + [last], PartsOf(route), failed) && failed.Some? && AllAccepted(done)
    ensures last.Sent? && last.part in route && last.part !in PartsAsked(done) && failed == ReplyError(last.reply)
    ensures acks != AcksNone ==> bases.Keys == PartsAsked(done) || bases.Keys == PartsAsked(done) + {last.part}
  {
    OneMorePart(done, last);
    if acks != AcksNone {
      AcceptedIsWritten(done, last, acks, bases);
    }
    assert last.part in PartsOf(route);
    forall p | p in PartsAsked(done) ensures p != last.part {
      var k :| 0 <= k < |done| && done[k].Sent? && done[k].part == p;
      assert (done + [last])[k].part != (done + [last])[|done|].part;
    }
  }

  lemma AcceptedIsWritten(done: seq<Answer>, last: Answer, acks: Acks, bases: map<int, int>)
    requires WrittenGroups(done + [last], acks, bases) && acks != AcksNone && AllAccepted(done)
    ensures PartsAsked(done) <= bases.Keys
  {
    forall p | p in PartsAsked(done) ensures p in bases {
      var k :| 0 <= k < |done| && done[k].Sent? && done[k].part == p;
      assert (done + [last])[k] == done[k];
    }
  }

  /** So a client sees 404 for a failure f that carries the unknown-topic error, and otherwise the status of f. */
  lemma FailedBatchStatus(asked: seq<Answer>, topic: string, acks: Acks, ids: seq<int>, route: seq<int>,
                          bases: map<int, int>, error: Error, f: Error)
    requires Explains(asked, topic, acks, ids, route, bases, Err(error)) && |asked| > 1
    requires var last := asked[|asked| - 1];
             last.Sent? && match last.reply
                           case NoReply(failure) => f == failure
                           case Reply(_, e) => e == Some(f)
    ensures Classify(Wrapped(error)) == if Contains(f, UNKNOWN_TOPIC) then NotFound404 else Classify(f)
  {
    FailedBatch(asked, topic, acks, ids, route, bases, error);
    StatusOfSentinel(Wrapped(Known(TopicNotFound)), TopicNotFound);
    ClassifySeesThroughContext(f, []);
    ClassifySeesThroughContext(error, []);
  }

  /** What a failed batch left behind although its result is an error without any coordinate: each message of a
      group accepted before the failure is stored, at a coordinate that nobody is told; each message of the
      refused group is stored at most once; and no other message is. */
  lemma StoredWithoutReceipt(asked: seq<Answer>, topic: string, acks: Acks, ids: seq<int>, route: seq<int>, bases: map<int, int>,
                             error: Error, logs: Logs, call: nat, msgs: seq<Message>, i: nat)
    requires Explains(asked, topic, acks, ids, route, bases, Err(error)) && |asked| > 1 && acks != AcksNone
    requires WholeGroups(logs, call, msgs, route, bases) && i < |msgs|
    ensures var last := asked[|asked| - 1];
            last.Sent? && LeftBehind(logs, call, msgs, route, bases, PartsAsked(asked[1..|asked| - 1]), last.part, i)
  {
    FailedBatch(asked, topic, acks, ids, route, bases, error);
    MessageLeftBehind(logs, call, msgs, route, bases, PartsAsked(asked[1..|asked| - 1]), asked[|asked| - 1].part, i);
  }

  ghost predicate LeftBehind(logs: Logs, call: nat, msgs: seq<Message>, route: seq<int>, bases: map<int, int>,
                             done: set<int>, refused: int, i: nat)
    requires i < |route|
  {
    var copies := Total(logs, Origin(call, i));
    && refused !in done
    && (route[i] in done ==>
          && copies == 1 && route[i] in bases
          && HoldsAt(logs, PublishResult(route[i], bases[route[i]] + Rank(route, i)), call, msgs, i))
    && (route[i] == refused ==> copies <= 1)
    && (route[i] !in done && route[i] != refused ==> copies == 0)
  }

  lemma MessageLeftBehind(logs: Logs, call: nat, msgs: seq<Message>, route: seq<int>, bases: map<int, int>,
                          done: set<int>, refused: int, i: nat)
    requires WholeGroups(logs, call, msgs, route, bases) && i < |msgs| && refused !in done
    requires bases.Keys == done || bases.Keys == done + {refused}
    ensures LeftBehind(logs, call, msgs, route, bases, done, refused, i)
  {
    OneCopyOrNone(logs, call, msgs, route, bases, i);
    if route[i] in bases {
      StoredInItsBlock(logs, call, msgs, route, bases, i);
    }
  }

  /** Inside a partition, offsets follow input order and are spaced by the number of messages routed there between. */
  lemma OffsetGap(logs: Logs, call: nat, msgs: seq<Message>, route: seq<int>, bases: map<int, int>,
                  results: seq<PublishResult>, i: nat, j: nat)
    requires Published(logs, call, msgs, route, bases, results)
    requires i < j < |msgs| && results[i].partition == results[j].partition
    ensures results[j].offset - results[i].offset == |Routed(route[i..j], results[i].partition)| > 0
  {
    assert Reports(results[i], route, i, bases) && Reports(results[j], route, j, bases);
    RankDifference(route, i, j);
    GroupIsExact(route[i..j], route[i]);
    assert route[i..j][0] == route[i];
    assert 0 in Routed(route[i..j], route[i]);
  }

  /** Messages with one key keep their order: same partition, increasing offsets. */
  lemma SameKeyOrder(hash: (Bytes, seq<int>) -> int, ids: seq<int>, logs: Logs, call: nat, msgs: seq<Message>,
                     route: seq<int>, bases: map<int, int>, results: seq<PublishResult>, i: nat, j: nat)
    requires Published(logs, call, msgs, route, bases, results) && Routes(hash, ids, msgs, route)
    requires i < j < |msgs| && msgs[i].key.Some? && msgs[i].key == msgs[j].key
    ensures results[i].partition == results[j].partition && results[i].offset < results[j].offset
  {
    assert Reports(results[i], route, i, bases) && Reports(results[j], route, j, bases);
    assert RoutesTo(hash, ids, msgs[i], route[i]) && RoutesTo(hash, ids, msgs[j], route[j]);
    OffsetGap(logs, call, msgs, route, bases, results, i, j);
  }

  /** A coordinate is a receipt: no two messages share one, neither inside a batch nor between two
      batches published concurrently (each against its own view of the growing logs). */
  lemma CoordinatesAreDistinct(a: Logs, b: Logs, later: Logs, callA: nat, callB: nat,
                               msgsA: seq<Message>, msgsB: seq<Message>, routeA: seq<int>, routeB: seq<int>,
                               basesA: map<int, int>, basesB: map<int, int>,
                               resultsA: seq<PublishResult>, resultsB: seq<PublishResult>, i: nat, j: nat)
    requires Published(a, callA, msgsA, routeA, basesA, resultsA) && Grows(a, later) && i < |msgsA|
    requires Published(b, callB, msgsB, routeB, basesB, resultsB) && Grows(b, later) && j < |msgsB|
    requires callA != callB || i != j
    ensures resultsA[i] != resultsB[j]
  {
    ExactPlacement(a, later, callA, msgsA, routeA, basesA, resultsA, i);
    ExactPlacement(b, later, callB, msgsB, routeB, basesB, resultsB, j);
  }

  // ---- Counting helpers ----

  lemma {:induction false} IncreasingHasOneCopy(slots: seq<nat>, x: nat)
    requires forall j, k | 0 <= j < k < |slots| :: slots[j] < slots[k]
    ensures multiset(slots)[x] == if x in slots then 1 else 0
  {
    if slots != [] {
      var n := |slots| - 1;
      IncreasingHasOneCopy(slots[..n], x);
      assert slots == slots[..n] + [slots[n]];
    }
  }

  lemma OnlyOnePosition(log: seq<Entry>, call: nat, slot: nat, i: nat, j: nat)
    requires i < |log| && j < |log| && log[i].origin == log[j].origin == Origin(call, slot)
    requires forall k, l | 0 <= k < l < |Own(log, call)| :: Own(log, call)[k] < Own(log, call)[l]
    ensures i == j
  {
    IncreasingHasOneCopy(Own(log, call), slot);
    if i < j {
      TwoEntriesTwoCopies(log, Origin(call, slot), i, j);
    } else if j < i {
      TwoEntriesTwoCopies(log, Origin(call, slot), j, i);
    }
  }

  lemma TwoEntriesTwoCopies(log: seq<Entry>, o: Origin, i: nat, j: nat)
    requires i < j < |log| && log[i].origin == o && log[j].origin == o
    ensures Copies(log, o) >= 2
  {
    assert log == log[..j] + log[j..];
    CopiesConcat(log[..j], log[j..], o);
    OwnMembers(log[..j], o.call, o.slot);
    assert log[..j][i].origin == o;
    OwnMembers(log[j..], o.call, o.slot);
    assert log[j..][0].origin == o;
  }
}
