/** Topic metadata: watermarks per partition, and the partition list sorted by id. */
module TopicMetadata {
  import opened Domain
  import opened BrokerLog

  datatype PartitionMetadata = PartitionMetadata(
    id: int, leader: int, replicas: seq<int>, isr: seq<int>, low: int, high: int)

  datatype TopicMetadata = TopicMetadata(name: string, replicationFactor: nat, partitions: seq<PartitionMetadata>)

  /** One answer to the offsets request. */
  datatype PartitionOffsets = PartitionOffsets(partition: int, first: int, last: int, error: Option<Error>)

  /** The last answer about partition p. */
  ghost predicate LastAnswer(answers: seq<PartitionOffsets>, p: int, i: int) {
    0 <= i < |answers| && answers[i].partition == p && forall j | i < j < |answers| :: answers[j].partition != p
  }

  ghost predicate AreWatermarks(low: map<int, int>, high: map<int, int>, answers: seq<PartitionOffsets>) {
    && low.Keys == high.Keys
    && (forall i | 0 <= i < |answers| :: answers[i].partition in low)
    && (forall p | p in low :: exists i :: LastAnswer(answers, p, i) && low[p] == answers[i].first && high[p] == answers[i].last)
  }

  ghost predicate FirstFailed(answers: seq<PartitionOffsets>, i: int) {
    0 <= i < |answers| && answers[i].error.Some? && forall k | 0 <= k < i :: answers[k].error.None?
  }

  method Watermarks(answers: seq<PartitionOffsets>) returns (r: Result<(map<int, int>, map<int, int>)>)
    ensures r.Ok? <==> forall i | 0 <= i < |answers| :: answers[i].error.None?
    ensures r.Ok? ==> AreWatermarks(r.value.0, r.value.1, answers)
    ensures r.Err? ==> exists i :: FirstFailed(answers, i) && r.error == Wrapped(answers[i].error.value)
  {
    var low: map<int, int>, high: map<int, int> := map[], map[];
    for i := 0 to |answers|
      invariant forall k | 0 <= k < i :: answers[k].error.None?
      invariant AreWatermarks(low, high, answers[..i])
    {
      var a := answers[i];
      if a.error.Some? {
        assert FirstFailed(answers, i);
        return Err(Wrapped(a.error.value));
      }
      OneMoreAnswer(low, high, answers[..i], a);
      assert answers[..i + 1] == answers[..i] + [a];
      low, high := low[a.partition := a.first], high[a.partition := a.last];
    }
    assert answers[..|answers|] == answers;
    r := Ok((low, high));
  }

  lemma OneMoreAnswer(low: map<int, int>, high: map<int, int>, answers: seq<PartitionOffsets>, a: PartitionOffsets)
    requires AreWatermarks(low, high, answers)
    ensures AreWatermarks(low[a.partition := a.first], high[a.partition := a.last], answers + [a])
  {
    var more := answers + [a];
    var low', high' := low[a.partition := a.first], high[a.partition := a.last];
    forall p | p in low'
      ensures exists i :: LastAnswer(more, p, i) && low'[p] == more[i].first && high'[p] == more[i].last
    {
      if p == a.partition {
        assert LastAnswer(more, p, |answers|);
      } else {
        var i :| LastAnswer(answers, p, i) && low[p] == answers[i].first && high[p] == answers[i].last;
        assert LastAnswer(more, p, i);
      }
    }
  }

  /** A partition with its own reported watermarks, or zeros when none were reported. */
  function Describe(p: PartitionInfo, low: map<int, int>, high: map<int, int>): PartitionMetadata {
    PartitionMetadata(p.id, p.leader, p.replicas, p.isr,
                      if p.id in low then low[p.id] else 0, if p.id in high then high[p.id] else 0)
  }

  function DescribeAll(ps: seq<PartitionInfo>, low: map<int, int>, high: map<int, int>): seq<PartitionMetadata> {
    seq(|ps|, i requires 0 <= i < |ps| => Describe(ps[i], low, high))
  }

  /** Every described partition is listed with its own leader, replicas and in-sync replicas, and with the low
      and high watermark of the last answer about it, or zeros when no answer was about it. */
  lemma PartitionIsDescribed(t: TopicInfo, answers: seq<PartitionOffsets>, low: map<int, int>, high: map<int, int>,
                             listed: seq<PartitionMetadata>, i: nat)
    requires AreWatermarks(low, high, answers) && i < |t.partitions|
    requires multiset(listed) == multiset(DescribeAll(t.partitions, low, high))
    ensures exists m :: m in listed && DescribesPartition(m, t.partitions[i], answers)
  {
    var p := t.partitions[i];
    var m := DescribeAll(t.partitions, low, high)[i];
    assert m in multiset(listed);
    if j :| LastAnswer(answers, p.id, j) {
      var k :| LastAnswer(answers, p.id, k) && low[p.id] == answers[k].first && high[p.id] == answers[k].last;
      assert j == k;
    }
    assert p.id in low ==> exists j :: LastAnswer(answers, p.id, j);
    assert DescribesPartition(m, p, answers);
  }

  ghost predicate DescribesPartition(m: PartitionMetadata, p: PartitionInfo, answers: seq<PartitionOffsets>) {
    && m.id == p.id && m.leader == p.leader && m.replicas == p.replicas && m.isr == p.isr
    && (forall j | LastAnswer(answers, p.id, j) :: m.low == answers[j].first && m.high == answers[j].last)
    && ((forall j | 0 <= j < |answers| :: answers[j].partition != p.id) ==> m.low == 0 && m.high == 0)
  }

  ghost predicate SortedById(ps: seq<PartitionMetadata>) {
    forall i, j | 0 <= i < j < |ps| :: ps[i].id <= ps[j].id
  }

  /** sort.Slice by id: some sorted rearrangement (this one inserts elements one by one). */
  method SortById(ps: seq<PartitionMetadata>) returns (sorted: seq<PartitionMetadata>)
    ensures SortedById(sorted) && multiset(sorted) == multiset(ps)
  {
    sorted := [];
    for i := 0 to |ps|
      invariant SortedById(sorted) && multiset(sorted) == multiset(ps[..i])
    {
      assert ps[..i + 1] == ps[..i] + [ps[i]];
      sorted := Insert(sorted, ps[i]);
    }
    assert ps[..|ps|] == ps;
  }

  method Insert(sorted: seq<PartitionMetadata>, p: PartitionMetadata) returns (r: seq<PartitionMetadata>)
    requires SortedById(sorted)
    ensures SortedById(r) && multiset(r) == multiset(sorted) + multiset{p}
  {
    var k := 0;
    while k < |sorted| && sorted[k].id <= p.id
      invariant k <= |sorted| && forall j | 0 <= j < k :: sorted[j].id <= p.id
    {
      k := k + 1;
    }
    r := sorted[..k] + [p] + sorted[k..];
    InsertedAt(sorted, k, p);
  }

  lemma InsertedAt(ps: seq<PartitionMetadata>, k: nat, p: PartitionMetadata)
    requires k <= |ps|
    ensures multiset(ps[..k] + [p] + ps[k..]) == multiset(ps) + multiset{p}
  {
    assert ps == ps[..k] + ps[k..];
  }

  method BuildTopicMetadata(t: TopicInfo, low: map<int, int>, high: map<int, int>) returns (md: TopicMetadata)
    ensures md.name == t.name
    ensures SortedById(md.partitions) && multiset(md.partitions) == multiset(DescribeAll(t.partitions, low, high))
    ensures forall i | 0 <= i < |t.partitions| :: |t.partitions[i].replicas| <= md.replicationFactor
    ensures md.replicationFactor == 0 ||
            exists i | 0 <= i < |t.partitions| :: |t.partitions[i].replicas| == md.replicationFactor
  {
    var parts: seq<PartitionMetadata> := [];
    var replication := 0;
    for i := 0 to |t.partitions|
      invariant |parts| == i && forall k | 0 <= k < i :: parts[k] == Describe(t.partitions[k], low, high)
      invariant forall k | 0 <= k < i :: |t.partitions[k].replicas| <= replication
      invariant replication == 0 || exists k | 0 <= k < i :: |t.partitions[k].replicas| == replication
    {
      var p := t.partitions[i];
      if |p.replicas| > replication {
        replication := |p.replicas|;
      }
      parts := parts + [Describe(p, low, high)];
    }
    assert parts == DescribeAll(t.partitions, low, high);
    var sorted := SortById(parts);
    md := TopicMetadata(t.name, replication, sorted);
  }

  ghost predicate DistinctIds(ps: seq<PartitionMetadata>) {
    forall i, j | 0 <= i < j < |ps| :: ps[i].id != ps[j].id
  }

  /** With distinct partition ids the order is fully determined, whatever sorting algorithm is used. */
  lemma {:induction false} SortedListIsUnique(a: seq<PartitionMetadata>, b: seq<PartitionMetadata>)
    requires SortedById(a) && SortedById(b) && DistinctIds(b) && multiset(a) == multiset(b)
    ensures a == b
  {
    assert |a| == |multiset(a)| == |multiset(b)| == |b|;
    if a != [] {
      SameFirst(a, b);
      DropFirst(a);
      DropFirst(b);
      TailsKeepOrder(a);
      TailsKeepOrder(b);
      SortedListIsUnique(a[1..], b[1..]);
      SameHeadAndTail(a, b);
    }
  }

  lemma TailsKeepOrder(s: seq<PartitionMetadata>)
    requires s != []
    ensures SortedById(s) ==> SortedById(s[1..])
    ensures DistinctIds(s) ==> DistinctIds(s[1..])
  {
  }

  lemma SameHeadAndTail(a: seq<PartitionMetadata>, b: seq<PartitionMetadata>)
    requires a != [] && b != [] && a[0] == b[0] && a[1..] == b[1..]
    ensures a == b
  {
    assert a == [a[0]] + a[1..] && b == [b[0]] + b[1..];
  }

  lemma SameFirst(a: seq<PartitionMetadata>, b: seq<PartitionMetadata>)
    requires SortedById(a) && SortedById(b) && DistinctIds(b) && multiset(a) == multiset(b) && a != [] && b != []
    ensures a[0] == b[0]
  {
    assert a[0] in multiset(b) && b[0] in multiset(a);
    var i :| 0 <= i < |b| && b[i] == a[0];
    var j :| 0 <= j < |a| && a[j] == b[0];
    assert a[0].id <= a[j].id && b[0].id <= b[i].id;
  }

  lemma DropFirst(s: seq<PartitionMetadata>)
    requires s != []
    ensures multiset(s[1..]) == multiset(s) - multiset{s[0]}
  {
    assert s == [s[0]] + s[1..];
  }
}
