/** Base64 with byte arithmetic: the padded standard alphabet (RFC 4648 section 4) and the
    unpadded URL alphabet (RFC 4648 section 5), decoded the lenient way Go's decoder does:
    line breaks are skipped and unused trailing bits are ignored. */
module Base64 {
  import opened Domain

  datatype Variant = Standard | RawURL

  const PAD: Byte := '=' as int
  const LF: Byte := 10
  const CR: Byte := 13

  type Sextet = d: int | 0 <= d < 64

  function Symbol(v: Variant, d: Sextet): Byte {
    if d < 26 then 'A' as int + d
    else if d < 52 then 'a' as int + d - 26
    else if d < 62 then '0' as int + d - 52
    else if d == 62 then (if v.Standard? then '+' as int else '-' as int)
    else if v.Standard? then '/' as int else '_' as int
  }

  function Digit(v: Variant, c: Byte): Option<Sextet> {
    if 'A' as int <= c <= 'Z' as int then Some(c - 'A' as int)
    else if 'a' as int <= c <= 'z' as int then Some(c - 'a' as int + 26)
    else if '0' as int <= c <= '9' as int then Some(c - '0' as int + 52)
    else if c == Symbol(v, 62) then Some(62)
    else if c == Symbol(v, 63) then Some(63)
    else None
  }

  /** What follows a last group that stands for one byte, and for two bytes. */
  function PadOne(v: Variant): Bytes { if v.Standard? then [PAD, PAD] else [] }
  function PadTwo(v: Variant): Bytes { if v.Standard? then [PAD] else [] }

  // The four sextets of a three-byte group, and the bytes back from the sextets.

  function Sextet0(b0: Byte): Sextet { b0 / 4 }
  function Sextet1(b0: Byte, b1: Byte): Sextet { b0 % 4 * 16 + b1 / 16 }
  function Sextet2(b1: Byte, b2: Byte): Sextet { b1 % 16 * 4 + b2 / 64 }
  function Sextet3(b2: Byte): Sextet { b2 % 64 }

  function Byte0(d0: Sextet, d1: Sextet): Byte { d0 * 4 + d1 / 16 }
  function Byte1(d1: Sextet, d2: Sextet): Byte { d1 % 16 * 16 + d2 / 4 }
  function Byte2(d2: Sextet, d3: Sextet): Byte { d2 % 4 * 64 + d3 }

  function Encode(v: Variant, b: Bytes): Bytes {
    if |b| == 0 then []
    else if |b| == 1 then
      [Symbol(v, Sextet0(b[0])), Symbol(v, Sextet1(b[0], 0))] + PadOne(v)
    else if |b| == 2 then
      [Symbol(v, Sextet0(b[0])), Symbol(v, Sextet1(b[0], b[1])), Symbol(v, Sextet2(b[1], 0))] + PadTwo(v)
    else
      EncodeGroup(v, b[0], b[1], b[2]) + Encode(v, b[3..])
  }

  function EncodeGroup(v: Variant, b0: Byte, b1: Byte, b2: Byte): Bytes {
    [Symbol(v, Sextet0(b0)), Symbol(v, Sextet1(b0, b1)), Symbol(v, Sextet2(b1, b2)), Symbol(v, Sextet3(b2))]
  }

  function WithoutLineBreaks(s: Bytes): Bytes {
    if s == [] then []
    else if s[0] == LF || s[0] == CR then WithoutLineBreaks(s[1..])
    else [s[0]] + WithoutLineBreaks(s[1..])
  }

  function Decode(v: Variant, s: Bytes): Option<Bytes> {
    DecodeClean(v, WithoutLineBreaks(s))
  }

  predicate FullGroup(v: Variant, s: Bytes) {
    |s| >= 4 && Digit(v, s[0]).Some? && Digit(v, s[1]).Some? && Digit(v, s[2]).Some? && Digit(v, s[3]).Some?
  }

  function DecodeClean(v: Variant, s: Bytes): Option<Bytes> {
    if s == [] then Some([])
    else if FullGroup(v, s) then
      var d0, d1, d2, d3 := Digit(v, s[0]).value, Digit(v, s[1]).value, Digit(v, s[2]).value, Digit(v, s[3]).value;
      var rest := DecodeClean(v, s[4..]);
      if rest.None? then None
      else Some([Byte0(d0, d1), Byte1(d1, d2), Byte2(d2, d3)] + rest.value)
    else DecodeLast(v, s)
  }

  /** The last group, when it is not four digits: two or three digits and exactly the padding the variant asks for. */
  function DecodeLast(v: Variant, s: Bytes): Option<Bytes> {
    if |s| < 2 || Digit(v, s[0]).None? || Digit(v, s[1]).None? then None
    else
      var d0, d1 := Digit(v, s[0]).value, Digit(v, s[1]).value;
      if s[2..] == PadOne(v) then Some([Byte0(d0, d1)])
      else if |s| < 3 || Digit(v, s[2]).None? then None
      else
        var d2 := Digit(v, s[2]).value;
        if s[3..] == PadTwo(v) then Some([Byte0(d0, d1), Byte1(d1, d2)])
        else None
  }

  // ---- Decoding undoes encoding ----

  lemma DigitOfSymbol(v: Variant, d: Sextet)
    ensures Digit(v, Symbol(v, d)) == Some(d)
    ensures Symbol(v, d) !in {PAD, LF, CR}
  {
  }

  lemma BytesOfSextets(b0: Byte, b1: Byte, b2: Byte)
    ensures Byte0(Sextet0(b0), Sextet1(b0, b1)) == b0
    ensures Byte1(Sextet1(b0, b1), Sextet2(b1, b2)) == b1
    ensures Byte2(Sextet2(b1, b2), Sextet3(b2)) == b2
  {
  }

  ghost predicate NoLineBreaks(s: Bytes) {
    forall i | 0 <= i < |s| :: s[i] != LF && s[i] != CR
  }

  lemma {:induction false} CleanTextStays(s: Bytes)
    requires NoLineBreaks(s)
    ensures WithoutLineBreaks(s) == s
  {
    if s != [] {
      CleanTextStays(s[1..]);
    }
  }

  predicate InAlphabet(v: Variant, c: Byte) {
    Digit(v, c).Some? || c == PAD
  }

  /** Every encoded byte is a symbol of the alphabet or padding. */
  lemma {:induction false} EncodedAlphabet(v: Variant, b: Bytes)
    ensures forall i | 0 <= i < |Encode(v, b)| :: InAlphabet(v, Encode(v, b)[i])
  {
    if |b| > 2 {
      EncodedGroup(v, b[0], b[1], b[2]);
      EncodedAlphabet(v, b[3..]);
    } else if |b| > 0 {
      DigitOfSymbol(v, Sextet0(b[0]));
      DigitOfSymbol(v, Sextet1(b[0], if |b| == 1 then 0 else b[1]));
      if |b| == 2 {
        DigitOfSymbol(v, Sextet2(b[1], 0));
      }
    }
  }

  lemma EncodedGroup(v: Variant, b0: Byte, b1: Byte, b2: Byte)
    ensures var g := EncodeGroup(v, b0, b1, b2);
            && Digit(v, g[0]) == Some(Sextet0(b0)) && Digit(v, g[1]) == Some(Sextet1(b0, b1))
            && Digit(v, g[2]) == Some(Sextet2(b1, b2)) && Digit(v, g[3]) == Some(Sextet3(b2))
  {
    DigitOfSymbol(v, Sextet0(b0));
    DigitOfSymbol(v, Sextet1(b0, b1));
    DigitOfSymbol(v, Sextet2(b1, b2));
    DigitOfSymbol(v, Sextet3(b2));
  }

  lemma DecodeGroup(v: Variant, b0: Byte, b1: Byte, b2: Byte, rest: Bytes)
    requires DecodeClean(v, rest).Some?
    ensures DecodeClean(v, EncodeGroup(v, b0, b1, b2) + rest) == Some([b0, b1, b2] + DecodeClean(v, rest).value)
  {
    EncodedGroup(v, b0, b1, b2);
    BytesOfSextets(b0, b1, b2);
    var s := EncodeGroup(v, b0, b1, b2) + rest;
    assert s[4..] == rest;
    assert FullGroup(v, s);
  }

  lemma DecodeOneByte(v: Variant, b0: Byte)
    ensures DecodeClean(v, Encode(v, [b0])) == Some([b0])
  {
    BytesOfSextets(b0, 0, 0);
    LastGroupOfOne(v, Sextet0(b0), Sextet1(b0, 0));
  }

  lemma LastGroupOfOne(v: Variant, d0: Sextet, d1: Sextet)
    ensures DecodeClean(v, [Symbol(v, d0), Symbol(v, d1)] + PadOne(v)) == Some([Byte0(d0, d1)])
  {
    var s := [Symbol(v, d0), Symbol(v, d1)] + PadOne(v);
    DigitOfSymbol(v, d0);
    DigitOfSymbol(v, d1);
    assert s[2..] == PadOne(v);
    assert DecodeLast(v, s) == Some([Byte0(d0, d1)]);
    assert !FullGroup(v, s);
  }

  lemma DecodeTwoBytes(v: Variant, b0: Byte, b1: Byte)
    ensures DecodeClean(v, Encode(v, [b0, b1])) == Some([b0, b1])
  {
    var s := Encode(v, [b0, b1]);
    assert s[3..] == PadTwo(v);
    DigitOfSymbol(v, Sextet0(b0));
    DigitOfSymbol(v, Sextet1(b0, b1));
    DigitOfSymbol(v, Sextet2(b1, 0));
    BytesOfSextets(b0, b1, 0);
    assert Digit(v, PAD).None?;
    assert !FullGroup(v, s);
    assert s[2..][0] == s[2] != PAD;
  }

  lemma {:induction false} DecodeEncodeClean(v: Variant, b: Bytes)
    ensures DecodeClean(v, Encode(v, b)) == Some(b)
  {
    if |b| == 0 {
    } else if |b| == 1 {
      assert b == [b[0]];
      DecodeOneByte(v, b[0]);
    } else if |b| == 2 {
      assert b == [b[0], b[1]];
      DecodeTwoBytes(v, b[0], b[1]);
    } else {
      DecodeEncodeClean(v, b[3..]);
      DecodeGroup(v, b[0], b[1], b[2], Encode(v, b[3..]));
      assert b == [b[0], b[1], b[2]] + b[3..];
    }
  }

  /** The round trip, for both variants and every byte string. */
  lemma DecodeEncode(v: Variant, b: Bytes)
    ensures Decode(v, Encode(v, b)) == Some(b)
  {
    EncodedAlphabet(v, b);
    AlphabetIsClean(v, Encode(v, b));
    DecodeEncodeClean(v, b);
  }

  lemma AlphabetIsClean(v: Variant, s: Bytes)
    requires forall i | 0 <= i < |s| :: InAlphabet(v, s[i])
    ensures Decode(v, s) == DecodeClean(v, s)
  {
    CleanTextStays(s);
  }

  /** Encoding lengthens every non-empty text, so no text is its own encoding. */
  lemma {:induction false} EncodingIsLonger(v: Variant, b: Bytes)
    ensures b != [] ==> |Encode(v, b)| > |b|
  {
    if |b| > 2 {
      EncodingIsLonger(v, b[3..]);
    }
  }

  // ---- The encoding is the one of RFC 4648 ----

  /** The alphabets (tables 1 and 2): upper case, lower case and digits in order, then two symbols that differ. */
  lemma SymbolsOfTheAlphabets(v: Variant, d: Sextet)
    ensures d !in {25, 51, 61, 62, 63} ==> Symbol(v, d + 1) == Symbol(v, d) + 1
    ensures Symbol(v, 0) == 'A' as int && Symbol(v, 26) == 'a' as int && Symbol(v, 52) == '0' as int
    ensures Symbol(Standard, 62) == '+' as int && Symbol(Standard, 63) == '/' as int
    ensures Symbol(RawURL, 62) == '-' as int && Symbol(RawURL, 63) == '_' as int
  {
  }

  lemma DigitIsInverse(v: Variant, c: Byte, d: Sextet)
    ensures Digit(v, c) == Some(d) <==> Symbol(v, d) == c
  {
  }

  /** Three bytes, read as one number, are four digits to the base 64. */
  lemma GroupIsOneNumber(v: Variant, b0: Byte, b1: Byte, b2: Byte)
    ensures var g := EncodeGroup(v, b0, b1, b2);
            && |g| == 4 && (forall k | 0 <= k < 4 :: Digit(v, g[k]).Some?)
            && Digit(v, g[0]).value * 0x40000 + Digit(v, g[1]).value * 0x1000 + Digit(v, g[2]).value * 0x40 + Digit(v, g[3]).value
               == b0 * 0x10000 + b1 * 0x100 + b2
  {
    EncodedGroup(v, b0, b1, b2);
  }

  /** Groups of three bytes are encoded one by one. */
  lemma {:induction false} EncodingIsByGroups(v: Variant, a: Bytes, b: Bytes)
    requires |a| % 3 == 0
    ensures Encode(v, a + b) == Encode(v, a) + Encode(v, b)
    decreases |a|
  {
    if a == [] {
      assert a + b == b;
    } else {
      var rest := a[3..];
      EncodingIsByGroups(v, rest, b);
      GroupBetween(v, a, rest, b);
      Regroup(EncodeGroup(v, a[0], a[1], a[2]), Encode(v, rest), Encode(v, b));
    }
  }

  lemma GroupBetween(v: Variant, a: Bytes, rest: Bytes, b: Bytes)
    requires |a| >= 3 && a[3..] == rest
    ensures Encode(v, a) == EncodeGroup(v, a[0], a[1], a[2]) + Encode(v, rest)
    ensures Encode(v, a + b) == EncodeGroup(v, a[0], a[1], a[2]) + Encode(v, rest + b)
  {
    assert (a + b)[3..] == rest + b;
    GroupInFront(v, a, rest);
    GroupInFront(v, a + b, rest + b);
  }

  lemma Regroup(x: Bytes, y: Bytes, z: Bytes)
    ensures x + (y + z) == x + y + z
  {
  }

  lemma GroupInFront(v: Variant, s: Bytes, rest: Bytes)
    requires |s| >= 3 && s[3..] == rest
    ensures Encode(v, s) == EncodeGroup(v, s[0], s[1], s[2]) + Encode(v, rest)
  {
  }

  /** One or two bytes at the end are filled up with zeros, and the symbols that hold no bit of them are padding
      in the standard variant and left out in the other. */
  lemma LastGroup(v: Variant, b0: Byte, b1: Byte, b2: Byte)
    ensures Encode(v, [b0, b1, b2]) == EncodeGroup(v, b0, b1, b2)
    ensures Encode(v, [b0, b1]) == EncodeGroup(v, b0, b1, 0)[..3] + (if v.Standard? then ['=' as int] else [])
    ensures Encode(v, [b0]) == EncodeGroup(v, b0, 0, 0)[..2] + (if v.Standard? then ['=' as int, '=' as int] else [])
  {
    assert [b0, b1, b2][3..] == [];
    assert Encode(v, []) == [];
  }

  /** Made of the alphabet, and of padding to full groups exactly in the standard variant. */
  ghost predicate WellFormed(v: Variant, s: Bytes) {
    && (forall i | 0 <= i < |s| :: Digit(v, s[i]).Some? || (v.Standard? && s[i] == '=' as int))
    && if v.Standard? then |s| % 4 == 0 else |s| % 4 != 1
  }

  lemma {:induction false} CleanTextIsWellFormed(v: Variant, s: Bytes)
    requires DecodeClean(v, s).Some?
    ensures WellFormed(v, s)
  {
    if s != [] {
      if FullGroup(v, s) {
        CleanTextIsWellFormed(v, s[4..]);
        OneMoreGroup(v, s);
      } else {
        LastGroupIsWellFormed(v, s);
      }
    }
  }

  lemma OneMoreGroup(v: Variant, s: Bytes)
    requires FullGroup(v, s) && WellFormed(v, s[4..])
    ensures WellFormed(v, s)
  {
    forall i | 0 <= i < |s| ensures Digit(v, s[i]).Some? || (v.Standard? && s[i] == '=' as int) {
      assert i >= 4 ==> s[i] == s[4..][i - 4];
    }
  }

  lemma LastGroupIsWellFormed(v: Variant, s: Bytes)
    requires DecodeLast(v, s).Some?
    ensures WellFormed(v, s)
  {
    var digits, pads := if s[2..] == PadOne(v) then 2 else 3, if s[2..] == PadOne(v) then PadOne(v) else PadTwo(v);
    assert s[digits..] == pads && |s| == digits + |pads|;
    forall i | digits <= i < |s| ensures v.Standard? && s[i] == '=' as int {
      assert s[i] == pads[i - digits];
    }
  }

  /** The decoder passes over line breaks, and takes no other byte outside the alphabet and the padding. */
  lemma DecodedTextIsWellFormed(v: Variant, s: Bytes, a: Bytes, b: Bytes, c: Byte)
    ensures Decode(v, s).Some? ==>
              WellFormed(v, WithoutLineBreaks(s)) &&
              forall i | 0 <= i < |s| ::
                Digit(v, s[i]).Some? || (v.Standard? && s[i] == '=' as int) || s[i] in {10, 13}
    ensures c in {10, 13} ==> Decode(v, a + [c] + b) == Decode(v, a + b)
  {
    if Decode(v, s).Some? {
      CleanTextIsWellFormed(v, WithoutLineBreaks(s));
      forall i | 0 <= i < |s| && s[i] !in {10, 13} ensures s[i] in WithoutLineBreaks(s) {
        KeptByte(s, i);
      }
    }
    if c in {10, 13} {
      WithoutLineBreaksConcat(a + [c], b);
      WithoutLineBreaksConcat(a, [c]);
      WithoutLineBreaksConcat(a, b);
      assert WithoutLineBreaks([c]) == [];
      assert WithoutLineBreaks(a) + [] == WithoutLineBreaks(a);
    }
  }

  lemma {:induction false} KeptByte(s: Bytes, i: nat)
    requires i < |s| && s[i] !in {10, 13}
    ensures s[i] in WithoutLineBreaks(s)
  {
    if i > 0 {
      KeptByte(s[1..], i - 1);
    }
  }

  lemma {:induction false} WithoutLineBreaksConcat(a: Bytes, b: Bytes)
    ensures WithoutLineBreaks(a + b) == WithoutLineBreaks(a) + WithoutLineBreaks(b)
  {
    if a == [] {
      assert a + b == b;
    } else {
      assert (a + b)[1..] == a[1..] + b;
      WithoutLineBreaksConcat(a[1..], b);
    }
  }
}
