/** Header maps and header lists: publishing lists a map in any order, consuming folds a list into a map. */
module Headers {
  import opened Domain
  import opened ConsumerService

  const COLON: Byte := ':' as int

  ghost predicate DistinctNames(hs: seq<Header>) {
    forall i, j | 0 <= i < j < |hs| :: hs[i].key != hs[j].key
  }

  /** The list has one header for each entry of the map and nothing else. */
  ghost predicate Lists(hs: seq<Header>, m: map<Bytes, Bytes>) {
    && DistinctNames(hs)
    && (forall i | 0 <= i < |hs| :: hs[i].key in m && m[hs[i].key] == hs[i].value)
    && (forall k | k in m :: Carries(hs, k, m[k]))
  }

  /** The map a list is shown as: for a repeated name the last value counts. */
  function HeaderMap(hs: seq<Header>): map<Bytes, Bytes> {
    if hs == [] then map[]
    else
      var n := |hs| - 1;
      HeaderMap(hs[..n])[hs[n].key := hs[n].value]
  }

  /** The header loop of toMessage; Go walks the map in an unspecified order. */
  method ListHeaders(m: map<Bytes, Bytes>) returns (hs: seq<Header>)
    ensures Lists(hs, m)
  {
    hs := [];
    var remaining := m.Keys;
    while remaining != {}
      invariant remaining <= m.Keys && DistinctNames(hs)
      invariant forall i | 0 <= i < |hs| :: hs[i].key in m.Keys - remaining && m[hs[i].key] == hs[i].value
      invariant forall k | k in m.Keys - remaining :: Carries(hs, k, m[k])
    {
      ghost var _ := HasMember(remaining);
      var k :| k in remaining;
      ghost var before := hs;
      hs := hs + [Header(k, m[k])];
      remaining := remaining - {k};
      forall k' | k' in m.Keys - remaining ensures Carries(hs, k', m[k']) {
        if k' == k {
          assert hs[|before|] == Header(k, m[k]);
        } else {
          var i :| 0 <= i < |before| && before[i] == Header(k', m[k']);
          assert hs[i] == Header(k', m[k']);
        }
      }
    }
  }

  /** The header loop of toConsumedMessages. */
  method ShowHeaders(hs: seq<Header>) returns (m: map<Bytes, Bytes>)
    ensures m == HeaderMap(hs)
  {
    m := map[];
    for i := 0 to |hs|
      invariant m == HeaderMap(hs[..i])
    {
      assert hs[..i + 1][..i] == hs[..i];
      m := m[hs[i].key := hs[i].value];
    }
    assert hs[..|hs|] == hs;
  }

  lemma {:induction false} NameIsShown(hs: seq<Header>, i: nat)
    requires i < |hs|
    ensures hs[i].key in HeaderMap(hs)
  {
    var n := |hs| - 1;
    if i < n {
      assert hs[..n][i] == hs[i];
      NameIsShown(hs[..n], i);
    }
  }

  /** An entry of the shown map is the last header of its name. */
  lemma {:induction false} ShownIsTheLast(hs: seq<Header>, k: Bytes) returns (i: nat)
    requires k in HeaderMap(hs)
    ensures i < |hs| && hs[i] == Header(k, HeaderMap(hs)[k])
    ensures forall j | i < j < |hs| :: hs[j].key != k
  {
    var n := |hs| - 1;
    if hs[n].key == k {
      i := n;
    } else {
      i := ShownIsTheLast(hs[..n], k);
      forall j | i < j < |hs| ensures hs[j].key != k {
        assert j == n || hs[..n][j] == hs[j];
      }
    }
  }

  /** Publishing a header map and consuming it shows the same map, whatever order the map was walked in. */
  lemma HeaderRoundTrip(hs: seq<Header>, m: map<Bytes, Bytes>)
    requires Lists(hs, m)
    ensures HeaderMap(hs) == m
  {
    forall k | k in m ensures k in HeaderMap(hs) {
      var i :| 0 <= i < |hs| && hs[i] == Header(k, m[k]);
      NameIsShown(hs, i);
    }
    forall k | k in HeaderMap(hs) ensures k in m && HeaderMap(hs)[k] == m[k] {
      var i := ShownIsTheLast(hs, k);
    }
  }

  /** A record without repeated names loses nothing by being shown as a map. */
  lemma DistinctNamesAreShownInFull(hs: seq<Header>)
    requires DistinctNames(hs)
    ensures Lists(hs, HeaderMap(hs))
  {
    forall i | 0 <= i < |hs| ensures hs[i].key in HeaderMap(hs) && HeaderMap(hs)[hs[i].key] == hs[i].value {
      ConsistentIsShown(hs, i);
    }
    forall k | k in HeaderMap(hs) ensures Carries(hs, k, HeaderMap(hs)[k]) {
      var i := ShownIsTheLast(hs, k);
    }
  }

  /** No name is bound to two values. */
  ghost predicate Consistent(hs: seq<Header>) {
    forall i, j | 0 <= i < j < |hs| && hs[i].key == hs[j].key :: hs[i].value == hs[j].value
  }

  lemma ConsistentIsShown(hs: seq<Header>, i: nat)
    requires Consistent(hs) && i < |hs|
    ensures hs[i].key in HeaderMap(hs) && HeaderMap(hs)[hs[i].key] == hs[i].value
  {
    NameIsShown(hs, i);
    var j := ShownIsTheLast(hs, hs[i].key);
  }

  /** The header filter looks at the list, the caller sees the map: they agree on every name and value
      if and only if the record binds no name to two values. */
  lemma FilterAgreesWithDisplay(hs: seq<Header>)
    ensures (forall k, v :: Carries(hs, k, v) <==> k in HeaderMap(hs) && HeaderMap(hs)[k] == v) <==> Consistent(hs)
  {
    if Consistent(hs) {
      forall k, v ensures Carries(hs, k, v) <==> k in HeaderMap(hs) && HeaderMap(hs)[k] == v {
        if k in HeaderMap(hs) {
          var i := ShownIsTheLast(hs, k);
        }
        if i :| 0 <= i < |hs| && hs[i] == Header(k, v) {
          ConsistentIsShown(hs, i);
        }
      }
    } else {
      var i, j :| 0 <= i < j < |hs| && hs[i].key == hs[j].key && hs[i].value != hs[j].value;
      assert Carries(hs, hs[i].key, hs[i].value) && Carries(hs, hs[i].key, hs[j].value);
    }
  }

  // ---- The header=name:value query parameters ----

  /** strings.Cut at the first colon; no colon, or nothing before it, is refused. */
  function ParsePair(hv: Bytes): Option<Header> {
    var at := FirstColon(hv, 0);
    if at == |hv| || at == 0 then None else Some(Header(hv[..at], hv[at + 1..]))
  }

  function FirstColon(s: Bytes, i: nat): (r: nat)
    requires i <= |s|
    ensures i <= r <= |s|
    ensures forall k | i <= k < r :: s[k] != COLON
    ensures r < |s| ==> s[r] == COLON
    decreases |s| - i
  {
    if i == |s| || s[i] == COLON then i else FirstColon(s, i + 1)
  }

  /** A name without a colon and any value come back out of the parameter that joins them. */
  lemma PairRoundTrip(name: Bytes, value: Bytes)
    requires name != [] && COLON !in name
    ensures ParsePair(name + [COLON] + value) == Some(Header(name, value))
  {
    var hv := name + [COLON] + value;
    assert hv[|name|] == COLON;
    assert forall k | 0 <= k < |name| :: hv[k] == name[k] && name[k] in name;
    assert hv[..|name|] == name && hv[|name| + 1..] == value;
  }

  /** A parameter is refused exactly when it has no colon or nothing before it; else it is the name, the first
      colon and the value. */
  lemma PairIsExact(hv: Bytes)
    ensures ParsePair(hv).None? <==> (forall k | 0 <= k < |hv| :: hv[k] != ':' as int) || hv[0] == ':' as int
    ensures ParsePair(hv).Some? ==>
              var h := ParsePair(hv).value;
              hv == h.key + [':' as int] + h.value && forall k | 0 <= k < |h.key| :: h.key[k] != ':' as int
  {
  }

  ghost predicate AllParse(raw: seq<Bytes>) {
    forall i | 0 <= i < |raw| :: ParsePair(raw[i]).Some?
  }

  ghost function Pairs(raw: seq<Bytes>): seq<Header>
    requires AllParse(raw)
  {
    seq(|raw|, i requires 0 <= i < |raw| => ParsePair(raw[i]).value)
  }

  method HeaderFilters(raw: seq<Bytes>) returns (r: Result<map<Bytes, Bytes>>)
    ensures r == if AllParse(raw) then Ok(HeaderMap(Pairs(raw))) else Err(Wrapped(Known(BadRequest)))
  {
    var out := map[];
    for i := 0 to |raw|
      invariant AllParse(raw[..i]) && out == HeaderMap(Pairs(raw[..i]))
    {
      var pair := ParsePair(raw[i]);
      if pair.None? {
        return Err(Wrapped(Known(BadRequest)));
      }
      assert raw[..i + 1] == raw[..i] + [raw[i]];
      assert Pairs(raw[..i + 1])[..i] == Pairs(raw[..i]);
      out := out[pair.value.key := pair.value.value];
    }
    assert raw[..|raw|] == raw;
    r := Ok(out);
  }

  ghost predicate CarriesEach(hs: seq<Header>, wanted: seq<Header>) {
    forall i | 0 <= i < |wanted| :: Carries(hs, wanted[i].key, wanted[i].value)
  }

  ghost predicate CarriesMap(hs: seq<Header>, wanted: map<Bytes, Bytes>) {
    forall k | k in wanted :: Carries(hs, k, wanted[k])
  }

  /** The query documents that a message must carry all given headers. The parsed map asks for exactly that
      if and only if no name is given with two different values; otherwise only the last value is asked for. */
  lemma FilterAsksForEveryPair(wanted: seq<Header>)
    ensures (forall hs :: CarriesMap(hs, HeaderMap(wanted)) <==> CarriesEach(hs, wanted)) <==> Consistent(wanted)
  {
    if Consistent(wanted) {
      forall hs ensures CarriesMap(hs, HeaderMap(wanted)) <==> CarriesEach(hs, wanted) {
        ConsistentFilter(hs, wanted);
      }
    } else {
      var hs := LastValuesOnly(wanted);
    }
  }

  lemma ConsistentFilter(hs: seq<Header>, wanted: seq<Header>)
    requires Consistent(wanted)
    ensures CarriesMap(hs, HeaderMap(wanted)) <==> CarriesEach(hs, wanted)
  {
    forall i | 0 <= i < |wanted|
      ensures wanted[i].key in HeaderMap(wanted) && HeaderMap(wanted)[wanted[i].key] == wanted[i].value
    {
      ConsistentIsShown(wanted, i);
    }
    forall k | k in HeaderMap(wanted) && CarriesEach(hs, wanted) ensures Carries(hs, k, HeaderMap(wanted)[k]) {
      var i := ShownIsTheLast(wanted, k);
    }
  }

  /** The message that satisfies the parsed map but not all the pairs. */
  lemma LastValuesOnly(wanted: seq<Header>) returns (hs: seq<Header>)
    requires !Consistent(wanted)
    ensures CarriesMap(hs, HeaderMap(wanted)) && !CarriesEach(hs, wanted)
  {
    var m := HeaderMap(wanted);
    forall n | 0 <= n < |wanted| ensures wanted[n].key in m {
      NameIsShown(wanted, n);
    }
    hs := seq(|wanted|, n requires 0 <= n < |wanted| => Header(wanted[n].key, m[wanted[n].key]));
    forall k | k in m ensures Carries(hs, k, m[k]) {
      var n := ShownIsTheLast(wanted, k);
      assert hs[n] == Header(k, m[k]);
    }
    var i, j :| 0 <= i < j < |wanted| && wanted[i].key == wanted[j].key && wanted[i].value != wanted[j].value;
    var missing := if m[wanted[i].key] == wanted[i].value then j else i;
    assert !Carries(hs, wanted[missing].key, wanted[missing].value);
  }
}
