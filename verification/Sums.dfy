/** Sums over the values of a finite map, independent of any visiting order. */
module Sums {
  import opened Domain

  ghost function Sum(m: map<int, nat>): nat {
    if m.Keys == {} then 0
    else
      IntSetHasMember(m.Keys);
      var p :| p in m.Keys;
      m[p] + Sum(m - {p})
  }

  lemma {:induction false} SumSplit(m: map<int, nat>, p: int)
    requires p in m
    ensures Sum(m) == m[p] + Sum(m - {p})
    decreases |m|
  {
    var q :| q in m.Keys && Sum(m) == m[q] + Sum(m - {q});
    if p != q {
      SumSplit(m - {q}, p);
      SumSplit(m - {p}, q);
      assert m - {q} - {p} == m - {p} - {q};
    }
  }

  /** Keys with value zero may be left out. */
  lemma {:induction false} SumIgnoresZeros(a: map<int, nat>, b: map<int, nat>)
    requires a.Keys <= b.Keys
    requires forall p | p in b :: b[p] == if p in a then a[p] else 0
    ensures Sum(a) == Sum(b)
    decreases |b|
  {
    if b.Keys == {} {
      assert a == b;
    } else {
      var p := HasMember(b.Keys);
      SumSplit(b, p);
      SumIgnoresZeros(a - {p}, b - {p});
      SumWithout(a, p);
    }
  }

  lemma SumWithout(m: map<int, nat>, p: int)
    ensures Sum(m) == (if p in m then m[p] else 0) + Sum(m - {p})
  {
    if p in m {
      SumSplit(m, p);
    } else {
      assert m - {p} == m;
    }
  }

  lemma SumOfOne(m: map<int, nat>, p: int)
    requires forall q | q in m && q != p :: m[q] == 0
    ensures Sum(m) == if p in m then m[p] else 0
  {
    SumIgnoresZeros(map[], m - {p});
    SumWithout(m, p);
  }

  lemma SumOfUpdate(m: map<int, nat>, p: int, v: nat)
    ensures Sum(m[p := v]) == Sum(m) - (if p in m then m[p] else 0) + v
  {
    var m' := m[p := v];
    SumSplit(m', p);
    assert m' - {p} == m - {p};
    SumWithout(m, p);
  }
}
