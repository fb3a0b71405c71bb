/** Turning one fetched JWK set (RFC 7517 section 5) into the key map that the cache installs. */
module KeySet {
  import opened Domain
  import opened RsaKey

  type KeyMap = map<string, PublicKey>

  /** How one entry becomes a key: RsaKey.RsaPublicKey in the gateway. Nothing here depends on which. */
  type Parser = Jwk -> Result<PublicKey>

  /** The entries a document contributes: RSA signature keys. */
  ghost predicate UsableAt(doc: seq<Jwk>, i: int) {
    0 <= i < |doc| && IsRSASignatureKey(doc[i])
  }

  /** Every usable entry parses; one that does not spoils the whole document. */
  ghost predicate AllParse(parse: Parser, doc: seq<Jwk>) {
    forall i | UsableAt(doc, i) :: parse(doc[i]).Ok?
  }

  /** For a repeated key id the last usable entry counts. */
  ghost predicate LastFor(doc: seq<Jwk>, kid: string, i: int) {
    UsableAt(doc, i) && doc[i].kid == kid && forall j | i < j && UsableAt(doc, j) :: doc[j].kid != kid
  }

  /** The map holds, for each key id of a usable entry, the key of its last usable entry, and nothing else. */
  ghost predicate IsKeyMapOf(parse: Parser, keys: KeyMap, doc: seq<Jwk>) {
    && (forall kid | kid in keys :: exists i :: LastFor(doc, kid, i) && parse(doc[i]) == Ok(keys[kid]))
    && (forall i | UsableAt(doc, i) :: doc[i].kid in keys)
  }

  /** A document is installable when all its usable entries parse and there is at least one. */
  ghost predicate Installable(parse: Parser, doc: seq<Jwk>) {
    AllParse(parse, doc) && exists i :: UsableAt(doc, i)
  }

  /** Entry by entry: unusable entries are passed over, the first one that does not parse is an error. */
  function Collect(parse: Parser, doc: seq<Jwk>): Result<KeyMap> {
    if doc == [] then Ok(map[])
    else
      var n := |doc| - 1;
      var front := Collect(parse, doc[..n]);
      if front.Err? || !IsRSASignatureKey(doc[n]) then front
      else
        var pub := parse(doc[n]);
        if pub.Err? then Err(Wrapped(pub.error)) else Ok(front.value[doc[n].kid := pub.value])
  }

  function Extract(parse: Parser, doc: seq<Jwk>): Result<KeyMap> {
    var keys := Collect(parse, doc);
    if keys.Ok? && |keys.value| == 0 then Err(Other) else keys
  }

  /** The extraction loop of refresh. */
  method BuildKeys(parse: Parser, doc: seq<Jwk>) returns (r: Result<KeyMap>)
    ensures r == Extract(parse, doc)
  {
    var keys: KeyMap := map[];
    for i := 0 to |doc|
      invariant Collect(parse, doc[..i]) == Ok(keys)
    {
      assert doc[..i + 1][..i] == doc[..i];
      if !IsRSASignatureKey(doc[i]) {
        continue;
      }
      var pub := parse(doc[i]);
      if pub.Err? {
        ErrorStays(parse, doc, i + 1);
        return Err(Wrapped(pub.error));
      }
      keys := keys[doc[i].kid := pub.value];
    }
    assert doc[..|doc|] == doc;
    if |keys| == 0 {
      return Err(Other);
    }
    r := Ok(keys);
  }

  lemma {:induction false} ErrorStays(parse: Parser, doc: seq<Jwk>, n: nat)
    requires n <= |doc| && Collect(parse, doc[..n]).Err?
    ensures Collect(parse, doc) == Collect(parse, doc[..n])
    decreases |doc|
  {
    if n < |doc| {
      var m := |doc| - 1;
      assert doc[..m][..n] == doc[..n];
      ErrorStays(parse, doc[..m], n);
    } else {
      assert doc[..n] == doc;
    }
  }

  /** What extraction amounts to: a document is installable when all its usable entries parse and there is
      one, and its key map holds the last usable entry of each key id. */
  lemma ExtractIsExact(parse: Parser, doc: seq<Jwk>)
    ensures Extract(parse, doc).Ok? <==> Installable(parse, doc)
    ensures Extract(parse, doc).Ok? ==> IsKeyMapOf(parse, Extract(parse, doc).value, doc) && Extract(parse, doc).value != map[]
  {
    CollectIsExact(parse, doc);
    var keys := Collect(parse, doc);
    if keys.Ok? && |keys.value| != 0 {
      NonEmptyHasUsable(parse, keys.value, doc);
    } else if keys.Ok? {
      assert keys.value == map[];
    }
  }

  /** The first usable entry that does not parse. */
  ghost predicate FirstBad(parse: Parser, doc: seq<Jwk>, i: int) {
    UsableAt(doc, i) && parse(doc[i]).Err? && forall j | 0 <= j < i && UsableAt(doc, j) :: parse(doc[j]).Ok?
  }

  /** A document that cannot be installed is refused with the error of its first bad entry, if it has one. */
  lemma {:induction false} RefusedForItsFirstBadEntry(parse: Parser, doc: seq<Jwk>)
    ensures Collect(parse, doc).Err? ==>
              exists i :: FirstBad(parse, doc, i) && Extract(parse, doc) == Err(Wrapped(parse(doc[i]).error))
  {
    if doc != [] && Collect(parse, doc).Err? {
      var n := |doc| - 1;
      var front := doc[..n];
      if Collect(parse, front).Err? {
        RefusedForItsFirstBadEntry(parse, front);
        var i :| FirstBad(parse, front, i) && Extract(parse, front) == Err(Wrapped(parse(front[i]).error));
        assert FirstBad(parse, doc, i);
      } else {
        CollectIsExact(parse, front);
        forall j | 0 <= j < n && UsableAt(doc, j) ensures parse(doc[j]).Ok? {
          assert UsableAt(front, j) && front[j] == doc[j];
        }
        assert FirstBad(parse, doc, n);
      }
    }
  }

  lemma {:induction false} CollectIsExact(parse: Parser, doc: seq<Jwk>)
    ensures Collect(parse, doc).Ok? <==> AllParse(parse, doc)
    ensures Collect(parse, doc).Ok? ==> IsKeyMapOf(parse, Collect(parse, doc).value, doc)
  {
    if doc != [] {
      var n := |doc| - 1;
      var front, k := doc[..n], doc[n];
      CollectIsExact(parse, front);
      assert doc == front + [k];
      if Collect(parse, front).Err? {
        var i :| UsableAt(front, i) && parse(front[i]).Err?;
        assert UsableAt(doc, i) && doc[i] == front[i];
      } else if !IsRSASignatureKey(k) {
        EntrySkipped(parse, Collect(parse, front).value, front, k);
      } else if parse(k).Ok? {
        EntryAdded(parse, Collect(parse, front).value, front, k);
      } else {
        assert UsableAt(doc, n);
      }
    }
  }

  lemma EntrySkipped(parse: Parser, keys: KeyMap, doc: seq<Jwk>, k: Jwk)
    requires AllParse(parse, doc) && IsKeyMapOf(parse, keys, doc) && !IsRSASignatureKey(k)
    ensures AllParse(parse, doc + [k]) && IsKeyMapOf(parse, keys, doc + [k])
  {
    var more := doc + [k];
    forall i: int ensures UsableAt(more, i) <==> UsableAt(doc, i) {
    }
    forall kid | kid in keys ensures exists i :: LastFor(more, kid, i) && parse(more[i]) == Ok(keys[kid]) {
      var i :| LastFor(doc, kid, i) && parse(doc[i]) == Ok(keys[kid]);
      assert LastFor(more, kid, i);
    }
  }

  lemma EntryAdded(parse: Parser, keys: KeyMap, doc: seq<Jwk>, k: Jwk)
    requires AllParse(parse, doc) && IsKeyMapOf(parse, keys, doc) && IsRSASignatureKey(k) && parse(k).Ok?
    ensures AllParse(parse, doc + [k]) && IsKeyMapOf(parse, keys[k.kid := parse(k).value], doc + [k])
  {
    var more, keys' := doc + [k], keys[k.kid := parse(k).value];
    forall i: int ensures UsableAt(more, i) <==> UsableAt(doc, i) || i == |doc| {
    }
    forall kid | kid in keys' ensures exists i :: LastFor(more, kid, i) && parse(more[i]) == Ok(keys'[kid]) {
      if kid == k.kid {
        assert LastFor(more, kid, |doc|);
      } else {
        var i :| LastFor(doc, kid, i) && parse(doc[i]) == Ok(keys[kid]);
        assert LastFor(more, kid, i);
      }
    }
  }

  lemma NonEmptyHasUsable(parse: Parser, keys: KeyMap, doc: seq<Jwk>)
    requires IsKeyMapOf(parse, keys, doc) && |keys| != 0
    ensures exists i :: UsableAt(doc, i)
  {
    assert keys.Keys != {};
    var kid := HasMember(keys.Keys);
    var i :| LastFor(doc, kid, i) && parse(doc[i]) == Ok(keys[kid]);
  }

  /** A document determines its key map. */
  lemma KeyMapIsUnique(parse: Parser, a: KeyMap, b: KeyMap, doc: seq<Jwk>)
    requires IsKeyMapOf(parse, a, doc) && IsKeyMapOf(parse, b, doc)
    ensures a == b
  {
    forall kid | kid in a ensures kid in b && a[kid] == b[kid] {
      var i :| LastFor(doc, kid, i) && parse(doc[i]) == Ok(a[kid]);
      assert doc[i].kid in b;
      var j :| LastFor(doc, kid, j) && parse(doc[j]) == Ok(b[kid]);
      assert i == j;
    }
    forall kid | kid in b ensures kid in a {
      var i :| LastFor(doc, kid, i) && parse(doc[i]) == Ok(b[kid]);
      assert doc[i].kid in a;
    }
  }
}
