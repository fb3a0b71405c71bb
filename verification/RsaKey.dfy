/** RSA public keys from JWK entries (RFC 7518 section 6.3.1; Base64urlUInt of section 2). */
module RsaKey {
  import opened Domain
  import opened Base64

  /** One entry of a JWK set (RFC 7517 section 4). */
  datatype Jwk = Jwk(kty: string, kid: string, use: string, n: Bytes, e: Bytes)

  datatype PublicKey = PublicKey(n: nat, e: int)

  const TWO63 := 0x8000_0000_0000_0000
  const TWO64 := 0x1_0000_0000_0000_0000

  predicate IsRSASignatureKey(k: Jwk) {
    k.kty == "RSA" && (k.use == "" || k.use == "sig")
  }

  /** big.Int.SetBytes: the unsigned big-endian value of the bytes. */
  function FromBigEndian(b: Bytes): nat {
    if b == [] then 0 else FromBigEndian(b[..|b| - 1]) * 256 + b[|b| - 1]
  }

  /** big.Int.Bytes: the shortest big-endian form. */
  function ToBigEndian(n: nat): Bytes {
    if n == 0 then [] else ToBigEndian(n / 256) + [n % 256]
  }

  /** big.Int.Int64: the low 64 bits as a two's complement number. */
  function Int64(n: nat): int {
    var low := n % TWO64;
    if low < TWO63 then low else low - TWO64
  }

  function RsaPublicKey(k: Jwk): Result<PublicKey> {
    FromFields(Decode(RawURL, k.n), Decode(RawURL, k.e))
  }

  function FromFields(nBytes: Option<Bytes>, eBytes: Option<Bytes>): Result<PublicKey> {
    if nBytes.None? || eBytes.None? then Err(Wrapped(Other))
    else if |nBytes.value| == 0 || |eBytes.value| == 0 then Err(Other)
    else Ok(PublicKey(FromBigEndian(nBytes.value), Int64(FromBigEndian(eBytes.value))))
  }

  lemma {:induction false} BigEndianRoundTrip(n: nat)
    ensures FromBigEndian(ToBigEndian(n)) == n
    ensures n > 0 ==> ToBigEndian(n) != [] && ToBigEndian(n)[0] != 0
  {
    if n > 0 {
      BigEndianRoundTrip(n / 256);
      var b := ToBigEndian(n);
      assert b[..|b| - 1] == ToBigEndian(n / 256);
    }
  }

  function Pow256(n: nat): nat {
    if n == 0 then 1 else 256 * Pow256(n - 1)
  }

  /** The bytes in front weigh 256 for each byte behind them, and a single byte is its own value. */
  lemma {:induction false} BytesArePositional(a: Bytes, b: Bytes)
    ensures FromBigEndian(a + b) == FromBigEndian(a) * Pow256(|b|) + FromBigEndian(b)
    ensures |b| == 1 ==> FromBigEndian(b) == b[0]
    decreases |b|
  {
    if b == [] {
      assert a + b == a;
    } else {
      var front := b[..|b| - 1];
      BytesArePositional(a, front);
      assert (a + b)[..|a + b| - 1] == a + front;
      ShiftByOneByte(FromBigEndian(a), Pow256(|front|), FromBigEndian(front), b[|b| - 1]);
    }
  }

  lemma ShiftByOneByte(a: nat, weight: nat, b: nat, last: nat)
    ensures (a * weight + b) * 256 + last == a * (256 * weight) + (b * 256 + last)
  {
  }

  /** The exponent's integer is the two's complement reading of the low 64 bits. */
  lemma Int64IsTwosComplement(n: nat)
    ensures -0x8000_0000_0000_0000 <= Int64(n) < 0x8000_0000_0000_0000
    ensures (n - Int64(n)) % 0x1_0000_0000_0000_0000 == 0
  {
  }

  function Zeros(n: nat): Bytes {
    seq(n, _ => 0)
  }

  lemma {:induction false} LeadingZerosDoNotCount(zeros: nat, b: Bytes)
    ensures FromBigEndian(Zeros(zeros) + b) == FromBigEndian(b)
  {
    var s := Zeros(zeros) + b;
    if b != [] {
      assert s[..|s| - 1] == Zeros(zeros) + b[..|b| - 1];
      LeadingZerosDoNotCount(zeros, b[..|b| - 1]);
    } else if zeros > 0 {
      assert s[..|s| - 1] == Zeros(zeros - 1) + [];
      LeadingZerosDoNotCount(zeros - 1, []);
    }
  }

  lemma PublishedNumberIsRecovered(n: nat, zeros: nat)
    requires n > 0
    ensures var b := Decode(RawURL, Encode(RawURL, Zeros(zeros) + ToBigEndian(n)));
            b.Some? && |b.value| > 0 && FromBigEndian(b.value) == n
  {
    DecodeEncode(RawURL, Zeros(zeros) + ToBigEndian(n));
    BigEndianRoundTrip(n);
    LeadingZerosDoNotCount(zeros, ToBigEndian(n));
  }

  lemma Int64IsExactBelowTwo63(n: nat)
    ensures Int64(n) == n <==> n < TWO63
  {
  }

  /** A key is built exactly when both fields decode to at least one byte; the modulus is then exact,
      and the exponent is exact if and only if its value fits in 63 bits. */
  lemma KeyFieldsAreExact(k: Jwk, nBytes: Option<Bytes>, eBytes: Option<Bytes>)
    requires nBytes == Decode(RawURL, k.n) && eBytes == Decode(RawURL, k.e)
    ensures RsaPublicKey(k).Ok? <==> nBytes.Some? && nBytes.value != [] && eBytes.Some? && eBytes.value != []
    ensures RsaPublicKey(k).Ok? ==>
              && RsaPublicKey(k).value.n == FromBigEndian(nBytes.value)
              && (RsaPublicKey(k).value.e == FromBigEndian(eBytes.value) <==> FromBigEndian(eBytes.value) < TWO63)
  {
    if RsaPublicKey(k).Ok? {
      Int64IsExactBelowTwo63(FromBigEndian(eBytes.value));
    }
  }

  /** The entry publishes modulus n and exponent e, each possibly with zero bytes in front. */
  ghost predicate Publishes(k: Jwk, n: nat, e: nat) {
    exists nZeros: nat, eZeros: nat :: IsForm(k.n, n, nZeros) && IsForm(k.e, e, eZeros)
  }

  ghost predicate IsForm(field: Bytes, n: nat, zeros: nat) {
    field == Encode(RawURL, Zeros(zeros) + ToBigEndian(n))
  }

  /** A published modulus and exponent are recovered exactly. */
  lemma PublishedKeyIsRecovered(k: Jwk, n: nat, e: nat)
    requires n > 0 && 0 < e < TWO63 && Publishes(k, n, e)
    ensures RsaPublicKey(k) == Ok(PublicKey(n, e))
  {
    var nZeros, eZeros :| IsForm(k.n, n, nZeros) && IsForm(k.e, e, eZeros);
    PublishedNumberIsRecovered(n, nZeros);
    PublishedNumberIsRecovered(e, eZeros);
    KeyFieldsAreExact(k, Decode(RawURL, k.n), Decode(RawURL, k.e));
  }
}
