/** The error tree: errors.Is and errors.As over wrapped errors, the search through a
    batch aggregate, and the classification of an error as an HTTP status. */
module Errors {
  import opened Domain

  /** errors.Is for a target that is compared by value: the error itself or anything it
      unwraps to. A batch aggregate has no Unwrap method, so the walk ends there. */
  predicate Is(e: Error, target: Error) {
    e == target ||
    match e
    case Wrapped(inner) => Is(inner, target)
    case Joined(inners) => exists i | 0 <= i < |inners| :: Is(inners[i], target)
    case _ => false
  }

  /** errors.As for the aggregate type: the first aggregate in depth-first order. */
  function FirstBatch(e: Error): Option<seq<Option<Error>>>
    decreases e, 1
  {
    match e
    case Batch(elements) => Some(elements)
    case Wrapped(inner) => FirstBatch(inner)
    case Joined(inners) => FirstBatchIn(inners)
    case _ => None
  }

  function FirstBatchIn(es: seq<Error>): Option<seq<Option<Error>>>
    decreases es, 0
  {
    if es == [] then None
    else
      var first := FirstBatch(es[0]);
      if first.Some? then first else FirstBatchIn(es[1..])
  }

  ghost predicate HoldsElement(elements: seq<Option<Error>>, target: Error) {
    exists k | 0 <= k < |elements| :: elements[k].Some? && Is(elements[k].value, target)
  }

  /** What ContainsKafkaError decides: the target is in the tree, or inside the first aggregate of the tree. */
  ghost predicate Contains(e: Error, target: Error) {
    Is(e, target) || (FirstBatch(e).Some? && HoldsElement(FirstBatch(e).value, target))
  }

  /** How the Kafka adapters report a failed request. */
  ghost function Translate(e: Error): Error {
    if Contains(e, UNKNOWN_TOPIC) then Known(TopicNotFound) else Wrapped(e)
  }

  method ContainsKafkaError(err: Option<Error>, target: Error) returns (found: bool)
    ensures found <==> err.Some? && Contains(err.value, target)
  {
    if err.None? {
      return false;
    }
    if Is(err.value, target) {
      return true;
    }
    var batch := FirstBatch(err.value);
    if batch.Some? {
      for k := 0 to |batch.value|
        invariant forall j | 0 <= j < k :: batch.value[j].Some? ==> !Is(batch.value[j].value, target)
      {
        if batch.value[k].Some? && Is(batch.value[k].value, target) {
          return true;
        }
      }
    }
    return false;
  }

  // ---- An independent reading of the walk: positions in the tree ----

  /** The error found by unwrapping along a path; each number picks one of the wrapped errors. */
  ghost function At(e: Error, path: seq<nat>): Option<Error>
    decreases |path|
  {
    if path == [] then Some(e)
    else
      match e
      case Wrapped(inner) => if path[0] == 0 then At(inner, path[1..]) else None
      case Joined(inners) => if path[0] < |inners| then At(inners[path[0]], path[1..]) else None
      case _ => None
  }

  /** The target sits somewhere in the tree. */
  ghost predicate OnAPath(e: Error, target: Error) {
    exists path :: At(e, path) == Some(target)
  }

  lemma IsIffOnAPath(e: Error, target: Error)
    ensures Is(e, target) <==> OnAPath(e, target)
  {
    if Is(e, target) {
      var path := PathTo(e, target);
    }
    if path :| At(e, path) == Some(target) {
      PathGivesIs(e, target, path);
    }
  }

  lemma {:induction false} PathTo(e: Error, target: Error) returns (path: seq<nat>)
    requires Is(e, target)
    ensures At(e, path) == Some(target)
  {
    if e == target {
      path := [];
    } else if e.Wrapped? {
      var rest := PathTo(e.inner, target);
      path := [0] + rest;
    } else {
      var i: nat :| i < |e.inners| && Is(e.inners[i], target);
      var rest := PathTo(e.inners[i], target);
      path := [i] + rest;
    }
  }

  lemma {:induction false} PathGivesIs(e: Error, target: Error, path: seq<nat>)
    requires At(e, path) == Some(target)
    ensures Is(e, target)
    decreases |path|
  {
    if path != [] {
      match e
      case Wrapped(inner) => PathGivesIs(inner, target, path[1..]);
      case Joined(inners) => PathGivesIs(inners[path[0]], target, path[1..]);
    }
  }

  /** Position p comes before position q in a depth-first walk of the tree. */
  ghost predicate Before(p: seq<nat>, q: seq<nat>)
    decreases |p|
  {
    p != [] && q != [] && (p[0] < q[0] || (p[0] == q[0] && Before(p[1..], q[1..])))
  }

  ghost predicate BatchAt(e: Error, path: seq<nat>) {
    At(e, path).Some? && At(e, path).value.Batch?
  }

  /** The path leads to an aggregate, and it comes before every other path that leads to one. */
  ghost predicate FirstBatchPath(e: Error, path: seq<nat>) {
    BatchAt(e, path) && forall q | BatchAt(e, q) && q != path :: Before(path, q)
  }

  /** FirstBatch finds an aggregate exactly when some path leads to one, and it finds the one whose path
      comes before all others. */
  lemma FirstBatchIffReachable(e: Error)
    ensures FirstBatch(e).Some? <==> exists path :: BatchAt(e, path)
    ensures FirstBatch(e).Some? ==>
              exists path :: FirstBatchPath(e, path) && At(e, path) == Some(Batch(FirstBatch(e).value))
  {
    if FirstBatch(e).Some? {
      var path := PathToFirstBatch(e);
      assert BatchAt(e, path);
    }
    if path :| BatchAt(e, path) {
      PathGivesBatch(e, path);
    }
  }

  lemma {:induction false} PathToFirstBatch(e: Error) returns (path: seq<nat>)
    requires FirstBatch(e).Some?
    ensures At(e, path) == Some(Batch(FirstBatch(e).value)) && FirstBatchPath(e, path)
  {
    match e
    case Batch(_) => path := [];
    case Wrapped(inner) =>
      var rest := PathToFirstBatch(inner);
      path := [0] + rest;
      forall q | BatchAt(e, q) && q != path ensures Before(path, q) {
        assert BatchAt(inner, q[1..]) && q == [q[0]] + q[1..];
      }
    case Joined(inners) =>
      var i := FirstHolder(inners);
      var rest := PathToFirstBatch(inners[i]);
      path := [i] + rest;
      forall q | BatchAt(e, q) && q != path ensures Before(path, q) {
        assert BatchAt(inners[q[0]], q[1..]) && q == [q[0]] + q[1..];
        PathGivesBatch(inners[q[0]], q[1..]);
      }
  }

  /** The first error of a list that has an aggregate is where FirstBatchIn finds its aggregate. */
  lemma {:induction false} FirstHolder(es: seq<Error>) returns (i: nat)
    requires FirstBatchIn(es).Some?
    ensures i < |es| && FirstBatch(es[i]).Some? && FirstBatchIn(es) == FirstBatch(es[i])
    ensures forall j | 0 <= j < i :: FirstBatch(es[j]).None?
  {
    if FirstBatch(es[0]).Some? {
      i := 0;
    } else {
      var k := FirstHolder(es[1..]);
      i := k + 1;
      forall j | 0 <= j < i ensures FirstBatch(es[j]).None? {
        assert j == 0 || es[j] == es[1..][j - 1];
      }
    }
  }

  lemma {:induction false} PathGivesBatch(e: Error, path: seq<nat>)
    requires BatchAt(e, path)
    ensures FirstBatch(e).Some?
    decreases |path|
  {
    if path != [] {
      match e
      case Wrapped(inner) => PathGivesBatch(inner, path[1..]);
      case Joined(inners) =>
        PathGivesBatch(inners[path[0]], path[1..]);
        SomeMemberHasBatch(inners, path[0]);
    }
  }

  lemma {:induction false} SomeMemberHasBatch(es: seq<Error>, i: nat)
    requires i < |es| && FirstBatch(es[i]).Some?
    ensures FirstBatchIn(es).Some?
  {
    if i > 0 && FirstBatch(es[0]).None? {
      SomeMemberHasBatch(es[1..], i - 1);
    }
  }

  // ---- HTTP status ----

  datatype Status = InvalidRequest400 | NotFound404 | GatewayTimeout504 | ClientClosed499 | BadGateway502

  function Classify(e: Error): Status {
    if Is(e, Known(EmptyTopic)) || Is(e, Known(EmptyValue)) || Is(e, Known(NoMessages)) || Is(e, Known(BadRequest)) then
      InvalidRequest400
    else if Is(e, Known(TopicNotFound)) then NotFound404
    else if Is(e, Known(DeadlineExceeded)) then GatewayTimeout504
    else if Is(e, Known(Canceled)) then ClientClosed499
    else BadGateway502
  }

  /** The sentinels that mean a client fault to Classify. */
  const CLIENT_FAULTS: set<Sentinel> := {EmptyTopic, EmptyValue, NoMessages, BadRequest}

  /** The status in terms of positions in the tree: 400 for a client fault anywhere, else 404 for an unknown
      topic, else 504 for a deadline, else 499 for a cancellation, and 502 for everything else. */
  lemma StatusByPath(e: Error)
    ensures var fault := OnAPath(e, Known(EmptyTopic)) || OnAPath(e, Known(EmptyValue)) ||
                         OnAPath(e, Known(NoMessages)) || OnAPath(e, Known(BadRequest));
            && (Classify(e) == InvalidRequest400 <==> fault)
            && (Classify(e) == NotFound404 <==> !fault && OnAPath(e, Known(TopicNotFound)))
            && (Classify(e) == GatewayTimeout504 <==>
                  !fault && !OnAPath(e, Known(TopicNotFound)) && OnAPath(e, Known(DeadlineExceeded)))
            && (Classify(e) == ClientClosed499 <==>
                  !fault && !OnAPath(e, Known(TopicNotFound)) && !OnAPath(e, Known(DeadlineExceeded)) &&
                  OnAPath(e, Known(Canceled)))
  {
    forall s ensures Is(e, Known(s)) <==> OnAPath(e, Known(s)) {
      IsIffOnAPath(e, Known(s));
    }
  }

  /** An error of the broker that carries no sentinel is answered with 502. */
  lemma UpstreamErrorsAre502(e: Error)
    requires forall s :: !OnAPath(e, Known(s))
    ensures Classify(e) == BadGateway502
  {
    StatusByPath(e);
  }

  /** Which status wins when an error joins several. */
  function Priority(s: Status): nat {
    match s
    case InvalidRequest400 => 4
    case NotFound404 => 3
    case GatewayTimeout504 => 2
    case ClientClosed499 => 1
    case BadGateway502 => 0
  }

  /** Adding context with %w never changes the status, and a join has the highest-priority status of its parts. */
  lemma ClassifySeesThroughContext(e: Error, es: seq<Error>)
    ensures Classify(Wrapped(e)) == Classify(e)
    ensures forall i | 0 <= i < |es| :: Priority(Classify(es[i])) <= Priority(Classify(Joined(es)))
    ensures Classify(Joined(es)) == BadGateway502 || exists i | 0 <= i < |es| :: Classify(es[i]) == Classify(Joined(es))
  {
    forall i | 0 <= i < |es| ensures Priority(Classify(es[i])) <= Priority(Classify(Joined(es))) {
      PartIsNotHigher(es, i);
    }
    SomePartIsAsHigh(es);
  }

  lemma PartIsNotHigher(es: seq<Error>, i: nat)
    requires i < |es|
    ensures Priority(Classify(es[i])) <= Priority(Classify(Joined(es)))
  {
    assert forall s :: Is(es[i], Known(s)) ==> Is(Joined(es), Known(s));
  }

  lemma SomePartIsAsHigh(es: seq<Error>)
    ensures Classify(Joined(es)) == BadGateway502 || exists i | 0 <= i < |es| :: Classify(es[i]) == Classify(Joined(es))
  {
    forall s ensures Is(Joined(es), Known(s)) <==> exists i | 0 <= i < |es| :: Is(es[i], Known(s)) {
      JoinedIs(es, s);
    }
  }

  /** The error below any amount of added context. */
  function Root(e: Error): Error {
    if e.Wrapped? then Root(e.inner) else e
  }

  lemma {:induction false} ContextKeepsStatus(e: Error)
    ensures Classify(e) == Classify(Root(e))
  {
    if e.Wrapped? {
      ContextKeepsStatus(e.inner);
      ClassifySeesThroughContext(e.inner, []);
    }
  }

  /** The status of each sentinel, under any amount of context. */
  lemma StatusOfSentinel(e: Error, s: Sentinel)
    requires Root(e) == Known(s)
    ensures Classify(e) == match s
                           case EmptyTopic => InvalidRequest400
                           case NoMessages => InvalidRequest400
                           case EmptyValue => InvalidRequest400
                           case BadRequest => InvalidRequest400
                           case TopicNotFound => NotFound404
                           case DeadlineExceeded => GatewayTimeout504
                           case Canceled => ClientClosed499
                           case InvalidQuery => BadGateway502
  {
    ContextKeepsStatus(e);
    assert forall other :: Is(Known(s), Known(other)) <==> other == s;
  }

  lemma JoinedIs(es: seq<Error>, s: Sentinel)
    ensures Is(Joined(es), Known(s)) <==> exists i | 0 <= i < |es| :: Is(es[i], Known(s))
  {
  }

  /** ErrInvalidQuery is documented as a 400, yet an invalid-query error is answered with 400
      exactly when some other client-fault sentinel is in its tree; a plain one gets 502. */
  lemma InvalidQueryIs400OnlyWithAnotherFault(e: Error)
    requires Is(e, Known(InvalidQuery))
    ensures Classify(e) == InvalidRequest400 <==>
            exists s :: s in CLIENT_FAULTS && OnAPath(e, Known(s))
    ensures Classify(Wrapped(Known(InvalidQuery))) == BadGateway502
  {
    IsIffOnAPath(e, Known(EmptyTopic));
    IsIffOnAPath(e, Known(EmptyValue));
    IsIffOnAPath(e, Known(NoMessages));
    IsIffOnAPath(e, Known(BadRequest));
  }
}
