/** How a batch is split over partitions: `route[i]` is the partition of message i. */
module Routing {

  /** The input indices routed to partition p, in input order. */
  function Routed(route: seq<int>, p: int): seq<nat> {
    if route == [] then []
    else
      var n := |route| - 1;
      Routed(route[..n], p) + (if route[n] == p then [n] else [])
  }

  /** The position of message i inside its partition's group. */
  function Rank(route: seq<int>, i: nat): nat
    requires i < |route|
  {
    |Routed(route[..i], route[i])|
  }

  /** A group holds exactly the indices routed to its partition, in strictly increasing order. */
  lemma {:induction false} GroupIsExact(route: seq<int>, p: int)
    ensures forall i: nat :: i in Routed(route, p) <==> i < |route| && route[i] == p
    ensures forall j | 0 <= j < |Routed(route, p)| :: Routed(route, p)[j] < |route| && route[Routed(route, p)[j]] == p
    ensures forall j, k | 0 <= j < k < |Routed(route, p)| :: Routed(route, p)[j] < Routed(route, p)[k]
  {
    if route != [] {
      var n := |route| - 1;
      GroupIsExact(route[..n], p);
      forall i: nat ensures i in Routed(route, p) <==> i < |route| && route[i] == p {
        assert i in Routed(route, p) <==> i in Routed(route[..n], p) || (i == n && route[n] == p);
      }
    }
  }

  lemma NothingRouted(route: seq<int>, p: int)
    requires p !in route
    ensures Routed(route, p) == []
  {
    GroupIsExact(route, p);
    assert forall i: nat :: i !in Routed(route, p);
  }

  lemma OneMoreMessage(route: seq<int>, part: int, p: int)
    ensures Routed(route + [part], p) == Routed(route, p) + (if part == p then [|route|] else [])
  {
    assert (route + [part])[..|route|] == route;
  }

  /** Groups of a longer batch extend those of a shorter one. */
  lemma {:induction false} GroupOfPrefix(route: seq<int>, p: int, n: nat)
    requires n <= |route|
    ensures Routed(route[..n], p) <= Routed(route, p)
    decreases |route|
  {
    if n < |route| {
      var m := |route| - 1;
      assert route[..m][..n] == route[..n];
      GroupOfPrefix(route[..m], p, n);
    } else {
      assert route[..n] == route;
    }
  }

  lemma RankLocates(route: seq<int>, i: nat)
    requires i < |route|
    ensures var group := Routed(route, route[i]);
            Rank(route, i) < |group| && group[Rank(route, i)] == i
  {
    var next := route[..i + 1];
    assert next[..i] == route[..i];
    GroupOfPrefix(route, route[i], i + 1);
  }

  /** Between two messages of one partition the ranks differ by the number of messages routed there
      from the first up to but excluding the second. */
  lemma RankDifference(route: seq<int>, i: nat, j: nat)
    requires i <= j < |route| && route[i] == route[j]
    ensures Rank(route, j) - Rank(route, i) == |Routed(route[i..j], route[j])|
  {
    assert route[..j] == route[..i] + route[i..j];
    GroupSizeOfConcat(route[..i], route[i..j], route[j]);
  }

  lemma {:induction false} GroupSizeOfConcat(a: seq<int>, b: seq<int>, p: int)
    ensures |Routed(a + b, p)| == |Routed(a, p)| + |Routed(b, p)|
  {
    if b == [] {
      assert a + b == a;
    } else {
      var m := |b| - 1;
      assert (a + b)[..|a + b| - 1] == a + b[..m];
      GroupSizeOfConcat(a, b[..m], p);
    }
  }
}
