/** When the search through a batch aggregate finds every protocol error that an error carries. */
module Aggregates {
  import opened Domain
  import opened Errors

  /** The target anywhere in the tree, elements of aggregates included, at any depth. */
  predicate Inside(e: Error, target: Error) {
    e == target ||
    match e
    case Wrapped(inner) => Inside(inner, target)
    case Joined(inners) => exists i | 0 <= i < |inners| :: Inside(inners[i], target)
    case Batch(elements) => exists k | 0 <= k < |elements| && elements[k].Some? :: Inside(elements[k].value, target)
    case _ => false
  }

  /** The tree holds one aggregate or none; an aggregate among the elements of another counts too. */
  predicate AtMostOneAggregate(e: Error) {
    match e
    case Wrapped(inner) => AtMostOneAggregate(inner)
    case Joined(inners) =>
      && (forall i | 0 <= i < |inners| :: AtMostOneAggregate(inners[i]))
      && (forall i, j | 0 <= i < j < |inners| :: FirstBatch(inners[i]).None? || FirstBatch(inners[j]).None?)
    case Batch(elements) => forall k | 0 <= k < |elements| && elements[k].Some? :: FirstBatch(elements[k].value).None?
    case _ => true
  }

  lemma {:induction false} NothingHidden(e: Error, target: Error)
    requires FirstBatch(e).None?
    ensures Inside(e, target) <==> Is(e, target)
  {
    match e
    case Wrapped(inner) => NothingHidden(inner, target);
    case Joined(inners) =>
      forall i | 0 <= i < |inners| ensures Inside(inners[i], target) <==> Is(inners[i], target) {
        if FirstBatch(inners[i]).Some? {
          SomeMemberHasBatch(inners, i);
        }
        NothingHidden(inners[i], target);
      }
    case _ =>
  }

  lemma {:induction false} OneAggregateIsSearched(e: Error, target: Error)
    requires AtMostOneAggregate(e) && target.Protocol?
    ensures Contains(e, target) <==> Inside(e, target)
  {
    match e
    case Wrapped(inner) => OneAggregateIsSearched(inner, target);
    case Joined(inners) =>
      if FirstBatch(e).None? {
        NothingHidden(e, target);
      } else {
        var m := FirstHolder(inners);
        OneAggregateIsSearched(inners[m], target);
        forall i | 0 <= i < |inners| && i != m ensures Inside(inners[i], target) <==> Is(inners[i], target) {
          NothingHidden(inners[i], target);
        }
      }
    case Batch(elements) =>
      forall k | 0 <= k < |elements| && elements[k].Some?
        ensures Inside(elements[k].value, target) <==> Is(elements[k].value, target)
      {
        NothingHidden(elements[k].value, target);
      }
    case _ =>
  }

  /** The search never reports a target that is not there. */
  lemma SearchIsSound(e: Error, target: Error)
    requires Contains(e, target)
    ensures Inside(e, target)
  {
    if Is(e, target) {
      FoundIsInside(e, target);
    } else {
      HeldIsInside(e, target);
    }
  }

  lemma {:induction false} FoundIsInside(e: Error, target: Error)
    requires Is(e, target)
    ensures Inside(e, target)
  {
    if e != target {
      match e
      case Wrapped(inner) => FoundIsInside(inner, target);
      case Joined(inners) =>
        var i :| 0 <= i < |inners| && Is(inners[i], target);
        FoundIsInside(inners[i], target);
    }
  }

  lemma {:induction false} HeldIsInside(e: Error, target: Error)
    requires FirstBatch(e).Some? && HoldsElement(FirstBatch(e).value, target)
    ensures Inside(e, target)
  {
    match e
    case Wrapped(inner) => HeldIsInside(inner, target);
    case Joined(inners) =>
      var m := FirstHolder(inners);
      HeldIsInside(inners[m], target);
    case Batch(elements) =>
      var k :| 0 <= k < |elements| && elements[k].Some? && Is(elements[k].value, target);
      FoundIsInside(elements[k].value, target);
  }

  // ---- Trees of one shape ----

  predicate IsLeaf(e: Error) { !e.Wrapped? && !e.Joined? && !e.Batch? }

  /** A slot of an aggregate for one message: nil, or an error with nothing in it. */
  predicate IsSlot(o: Option<Error>) { o.None? || IsLeaf(o.value) }

  /** `f` is `e` with other errors at the leaves and in the slots of its aggregates, which may have more slots. */
  ghost predicate Fills(e: Error, f: Error) {
    match e
    case Wrapped(inner) => f.Wrapped? && Fills(inner, f.inner)
    case Joined(inners) =>
      f.Joined? && |f.inners| == |inners| && forall i | 0 <= i < |inners| :: Fills(inners[i], f.inners[i])
    case Batch(elements) =>
      && f.Batch? && |elements| <= |f.elements|
      && (forall k | 0 <= k < |elements| ::
            if IsSlot(elements[k]) then IsSlot(f.elements[k])
            else f.elements[k].Some? && Fills(elements[k].value, f.elements[k].value))
      && (forall k | |elements| <= k < |f.elements| :: IsSlot(f.elements[k]))
    case _ => IsLeaf(f)
  }

  lemma {:induction false} FillingKeepsAggregates(e: Error, f: Error)
    requires Fills(e, f)
    ensures FirstBatch(e).Some? <==> FirstBatch(f).Some?
  {
    match e
    case Wrapped(inner) => FillingKeepsAggregates(inner, f.inner);
    case Joined(inners) =>
      forall i | 0 <= i < |inners| ensures FirstBatch(inners[i]).Some? <==> FirstBatch(f.inners[i]).Some? {
        FillingKeepsAggregates(inners[i], f.inners[i]);
      }
      HoldersAgree(inners, f.inners);
    case _ =>
  }

  lemma HoldersAgree(a: seq<Error>, b: seq<Error>)
    requires |a| == |b| && forall i | 0 <= i < |a| :: FirstBatch(a[i]).Some? <==> FirstBatch(b[i]).Some?
    ensures FirstBatchIn(a).Some? <==> FirstBatchIn(b).Some?
  {
    if FirstBatchIn(a).Some? {
      var i := FirstHolder(a);
      SomeMemberHasBatch(b, i);
    }
    if FirstBatchIn(b).Some? {
      var i := FirstHolder(b);
      SomeMemberHasBatch(a, i);
    }
  }

  lemma {:induction false} FillingKeepsAtMostOne(e: Error, f: Error)
    requires Fills(e, f) && AtMostOneAggregate(e)
    ensures AtMostOneAggregate(f)
  {
    match e
    case Wrapped(inner) => FillingKeepsAtMostOne(inner, f.inner);
    case Joined(inners) =>
      forall i | 0 <= i < |inners|
        ensures AtMostOneAggregate(f.inners[i]) && (FirstBatch(inners[i]).Some? <==> FirstBatch(f.inners[i]).Some?)
      {
        FillingKeepsAtMostOne(inners[i], f.inners[i]);
        FillingKeepsAggregates(inners[i], f.inners[i]);
      }
    case Batch(elements) =>
      forall k | 0 <= k < |f.elements| && f.elements[k].Some? ensures FirstBatch(f.elements[k].value).None? {
        if k < |elements| && !IsSlot(elements[k]) {
          FillingKeepsAggregates(elements[k].value, f.elements[k].value);
        }
      }
    case _ =>
  }

  // ---- A filling that hides the target ----

  function LoadedElements(e: Error, target: Error): (loaded: seq<Option<Error>>)
    requires e.Batch?
    ensures |loaded| == |e.elements|
    decreases e, 0
  {
    seq(|e.elements|, k requires 0 <= k < |e.elements| =>
      if e.elements[k].Some? then Some(Loaded(e.elements[k].value, target)) else None)
  }

  /** The target in one more slot of every aggregate, and nowhere else. */
  function Loaded(e: Error, target: Error): Error
    decreases e, 1
  {
    match e
    case Wrapped(inner) => Wrapped(Loaded(inner, target))
    case Joined(inners) => Joined(seq(|inners|, i requires 0 <= i < |inners| => Loaded(inners[i], target)))
    case Batch(_) => Batch(LoadedElements(e, target) + [Some(target)])
    case _ => Other
  }

  /** The target in one more slot of every aggregate but the first. */
  function Hiding(e: Error, target: Error): Error {
    match e
    case Wrapped(inner) => Wrapped(Hiding(inner, target))
    case Joined(inners) =>
      Joined(seq(|inners|, i requires 0 <= i < |inners| =>
        if forall j | 0 <= j < i :: FirstBatch(inners[j]).None? then Hiding(inners[i], target)
        else Loaded(inners[i], target)))
    case Batch(_) => Batch(LoadedElements(e, target))
    case _ => Other
  }

  lemma {:induction false} LoadedFacts(e: Error, target: Error)
    requires target.Protocol?
    ensures Fills(e, Loaded(e, target)) && !Is(Loaded(e, target), target)
    ensures FirstBatch(e).Some? ==> Inside(Loaded(e, target), target)
  {
    var f := Loaded(e, target);
    match e
    case Wrapped(inner) => LoadedFacts(inner, target);
    case Joined(inners) =>
      forall i | 0 <= i < |inners|
        ensures Fills(inners[i], f.inners[i]) && !Is(f.inners[i], target)
        ensures FirstBatch(inners[i]).Some? ==> Inside(f.inners[i], target)
      {
        LoadedFacts(inners[i], target);
      }
      if FirstBatch(e).Some? {
        var m := FirstHolder(inners);
        assert Inside(f.inners[m], target);
      }
    case Batch(elements) =>
      forall k | 0 <= k < |elements| && elements[k].Some?
        ensures Fills(elements[k].value, Loaded(elements[k].value, target))
      {
        LoadedFacts(elements[k].value, target);
      }
      assert f.elements[|elements|] == Some(target);
    case _ =>
  }

  lemma LoadedElementsFacts(e: Error, target: Error)
    requires target.Protocol? && e.Batch?
    ensures var els := LoadedElements(e, target);
            forall k | 0 <= k < |els| ::
              && (els[k].Some? ==> !Is(els[k].value, target))
              && (if IsSlot(e.elements[k]) then IsSlot(els[k]) else els[k].Some? && Fills(e.elements[k].value, els[k].value))
  {
    forall k | 0 <= k < |e.elements| && e.elements[k].Some?
      ensures Fills(e.elements[k].value, Loaded(e.elements[k].value, target)) && !Is(Loaded(e.elements[k].value, target), target)
    {
      LoadedFacts(e.elements[k].value, target);
    }
  }

  lemma {:induction false} HidingFills(e: Error, target: Error)
    requires target.Protocol?
    ensures Fills(e, Hiding(e, target)) && !Is(Hiding(e, target), target)
  {
    var f := Hiding(e, target);
    match e
    case Wrapped(inner) => HidingFills(inner, target);
    case Joined(inners) =>
      forall i | 0 <= i < |inners| ensures Fills(inners[i], f.inners[i]) && !Is(f.inners[i], target) {
        HidingFills(inners[i], target);
        LoadedFacts(inners[i], target);
      }
    case Batch(elements) => LoadedElementsFacts(e, target);
    case _ =>
  }

  lemma {:induction false} HidingIsMissed(e: Error, target: Error)
    requires target.Protocol?
    ensures !Contains(Hiding(e, target), target)
  {
    var f := Hiding(e, target);
    HidingFills(e, target);
    match e
    case Wrapped(inner) => HidingIsMissed(inner, target);
    case Joined(inners) =>
      if FirstBatch(f).Some? {
        var m := FirstHolder(f.inners);
        forall j | 0 <= j < m ensures FirstBatch(inners[j]).None? {
          FillingKeepsAggregates(inners[j], f.inners[j]);
        }
        HidingIsMissed(inners[m], target);
      }
    case Batch(elements) => LoadedElementsFacts(e, target);
    case _ =>
  }

  lemma {:induction false} HidingIsInside(e: Error, target: Error)
    requires target.Protocol? && !AtMostOneAggregate(e)
    ensures Inside(Hiding(e, target), target) && FirstBatch(e).Some?
    decreases e, 1
  {
    match e
    case Wrapped(inner) =>
      HidingIsInside(inner, target);
      assert Hiding(e, target) == Wrapped(Hiding(inner, target));
    case Joined(inners) => HidingInJoin(inners, target);
    case Batch(elements) => HidingInBatch(elements, target);
  }

  lemma HidingInBatch(elements: seq<Option<Error>>, target: Error)
    requires target.Protocol? && !AtMostOneAggregate(Batch(elements))
    ensures Inside(Hiding(Batch(elements), target), target)
  {
    var k :| 0 <= k < |elements| && elements[k].Some? && FirstBatch(elements[k].value).Some?;
    LoadedFacts(elements[k].value, target);
    assert LoadedElements(Batch(elements), target)[k] == Some(Loaded(elements[k].value, target));
  }

  lemma {:induction false} HidingInJoin(inners: seq<Error>, target: Error)
    requires target.Protocol? && !AtMostOneAggregate(Joined(inners))
    ensures Inside(Hiding(Joined(inners), target), target) && FirstBatch(Joined(inners)).Some?
    decreases Joined(inners), 0
  {
    var i: nat;
    if k: nat :| k < |inners| && !AtMostOneAggregate(inners[k]) {
      HidingIsInside(inners[k], target);
      LoadedFacts(inners[k], target);
      i := k;
    } else {
      var j, k :| 0 <= j < k < |inners| && FirstBatch(inners[j]).Some? && FirstBatch(inners[k]).Some?;
      LoadedFacts(inners[k], target);
      i := k;
    }
    SomeMemberHasBatch(inners, i);
    assert Inside(Hiding(Joined(inners), target).inners[i], target);
  }

  // ---- The exact condition ----

  /** The search finds the target wherever it is, for all the errors that a tree's leaves and slots can hold,
      if and only if the tree holds at most one aggregate: a second one, or one among the elements of the
      first, has a slot where the target goes unseen. */
  lemma SearchIsCompleteIffOneAggregate(e: Error, target: Error)
    requires target.Protocol?
    ensures (forall f | Fills(e, f) :: Contains(f, target) <==> Inside(f, target)) <==> AtMostOneAggregate(e)
  {
    if AtMostOneAggregate(e) {
      forall f | Fills(e, f) ensures Contains(f, target) <==> Inside(f, target) {
        FillingKeepsAtMostOne(e, f);
        OneAggregateIsSearched(f, target);
      }
    } else {
      HidingFills(e, target);
      HidingIsMissed(e, target);
      HidingIsInside(e, target);
    }
  }

  /** Two inputs where it is missed: in a second aggregate, and in one among the elements of the first. */
  lemma HiddenTargets()
    ensures var e := Joined([Batch([None]), Batch([Some(UNKNOWN_TOPIC)])]);
            Inside(e, UNKNOWN_TOPIC) && !Contains(e, UNKNOWN_TOPIC)
    ensures var e := Batch([Some(Batch([Some(UNKNOWN_TOPIC)]))]);
            Inside(e, UNKNOWN_TOPIC) && !Contains(e, UNKNOWN_TOPIC)
  {
    var second := Batch([Some(UNKNOWN_TOPIC)]);
    assert second.elements[0] == Some(UNKNOWN_TOPIC) && Inside(second, UNKNOWN_TOPIC);
    var joined := Joined([Batch([None]), second]);
    assert joined.inners[1] == second && Inside(joined, UNKNOWN_TOPIC);
    assert FirstBatch(joined.inners[0]) == Some([None]);
    assert FirstBatch(joined) == FirstBatchIn(joined.inners) == Some([None]);
    assert !Is(joined.inners[0], UNKNOWN_TOPIC) && !Is(joined.inners[1], UNKNOWN_TOPIC);
    var nested := Batch([Some(second)]);
    assert nested.elements[0] == Some(second) && Inside(nested, UNKNOWN_TOPIC);
  }
}
