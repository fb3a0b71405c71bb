/** The wire forms of keys, values and messages: what consume shows and what publish accepts. */
module Payload {
  import opened Domain
  import opened Errors
  import opened Base64
  import opened Headers
  import opened ConsumerService

  const QUOTE: Byte := '"' as int
  const BACKSLASH: Byte := '\\' as int
  const NULL: Bytes := ['n' as int, 'u' as int, 'l' as int, 'l' as int]

  /** The parts of the JSON and UTF-8 libraries that the code calls. */
  datatype Library = Library(
    jsonValid: Bytes -> bool, unmarshalString: Bytes -> Option<Bytes>, utf8Valid: Bytes -> bool)

  /** Bytes that stand for themselves inside a JSON string literal, in the encoder's output too. */
  predicate Plain(s: Bytes) {
    forall i | 0 <= i < |s| :: 32 <= s[i] < 127 && s[i] !in {QUOTE, BACKSLASH, '<' as int, '>' as int, '&' as int}
  }

  function Quote(s: Bytes): Bytes { [QUOTE] + s + [QUOTE] }

  /** RFC 8259: null is a JSON value (section 3), and an unescaped string literal is one too and stands for its
      content (section 7). ASCII text is UTF-8 (RFC 3629 section 3). */
  ghost predicate Lawful(lib: Library) {
    && lib.jsonValid(NULL)
    && forall s | Plain(s) ::
         lib.unmarshalString(Quote(s)) == Some(s) && lib.jsonValid(Quote(s)) && lib.utf8Valid(s)
  }

  function EncodeValue(lib: Library, b: Bytes): (Bytes, string) {
    if |b| == 0 then (NULL, "json")
    else if lib.jsonValid(b) then (b, "json")
    else (Quote(Encode(Standard, b)), "base64")
  }

  function EncodeKey(lib: Library, key: Option<Bytes>): (Bytes, string) {
    var b := KeyText(key);
    if |b| == 0 then ([], "")
    else if lib.utf8Valid(b) then (b, "utf8")
    else (Encode(Standard, b), "base64")
  }

  function DecodePublishValue(lib: Library, raw: Bytes, encoding: string): Result<Bytes> {
    var tag := ToLower(encoding);
    if tag == "" || tag == "json" then Ok(raw)
    else if tag == "string" then
      var s := lib.unmarshalString(raw);
      if s.None? then Err(Wrapped(Known(BadRequest))) else Ok(s.value)
    else if tag == "base64" then
      var s := lib.unmarshalString(raw);
      if s.None? then Err(Wrapped(Known(BadRequest)))
      else
        var decoded := Decode(Standard, s.value);
        if decoded.None? then Err(Joined([Known(BadRequest), Other])) else Ok(decoded.value)
    else Err(Wrapped(Known(BadRequest)))
  }

  lemma EncodedTextIsPlain(b: Bytes)
    ensures Plain(Encode(Standard, b))
  {
    EncodedAlphabet(Standard, b);
    forall i | 0 <= i < |Encode(Standard, b)|
      ensures var c := Encode(Standard, b)[i];
              32 <= c < 127 && c !in {QUOTE, BACKSLASH, '<' as int, '>' as int, '&' as int}
    {
      assert InAlphabet(Standard, Encode(Standard, b)[i]);
    }
  }

  lemma TagsAreLowerCase()
    ensures ToLower("json") == "json" && ToLower("base64") == "base64"
  {
  }

  /** Publishing what consume shows stores the same bytes, for every stored value but the empty one;
      that one is shown as null and would come back as the four bytes of null. */
  lemma ValueRoundTrip(lib: Library, b: Bytes)
    requires Lawful(lib)
    ensures var (shown, tag) := EncodeValue(lib, b);
            && (DecodePublishValue(lib, shown, tag) == Ok(b) <==> b != [])
            && (b == [] ==> DecodePublishValue(lib, shown, tag) == Ok(NULL))
  {
    TagsAreLowerCase();
    EncodedTextIsPlain(b);
    DecodeEncode(Standard, b);
  }

  /** So two stored values are shown alike only when they are equal, or one is empty and the other is null. */
  lemma ShownValuesAreDistinct(lib: Library, a: Bytes, b: Bytes)
    requires Lawful(lib)
    ensures EncodeValue(lib, a) == EncodeValue(lib, b) <==> a == b || {a, b} == {[], NULL}
  {
    ValueRoundTrip(lib, a);
    ValueRoundTrip(lib, b);
    assert EncodeValue(lib, []) == (NULL, "json") == EncodeValue(lib, NULL);
    if EncodeValue(lib, a) == EncodeValue(lib, b) && a != b {
      assert a == [] || b == [];
    }
  }

  /** What is shown is always valid JSON. A value that is JSON itself is shown as it is and tagged so, and no
      other non-empty value is; those are shown as a string with their base64 form, tagged base64. */
  lemma ShownValueIsJson(lib: Library, b: Bytes)
    requires Lawful(lib)
    ensures var (shown, tag) := EncodeValue(lib, b);
            && lib.jsonValid(shown) && tag in {"json", "base64"}
            && (tag == "json" <==> b == [] || lib.jsonValid(b))
            && (tag == "json" && b != [] ==> shown == b)
            && (tag == "base64" ==> exists text :: lib.unmarshalString(shown) == Some(text) && Decode(Standard, text) == Some(b))
            && (b == [] ==> shown == ['n' as int, 'u' as int, 'l' as int, 'l' as int])
  {
    EncodedTextIsPlain(b);
    DecodeEncode(Standard, b);
    assert lib.unmarshalString(Quote(Encode(Standard, b))) == Some(Encode(Standard, b));
  }

  /** What a client can publish. Raw JSON is stored as it is, without a tag or with the tag json; with the tag
      string, the content of a string literal is; with the tag base64, the bytes that the literal encodes. The
      case of the tag does not matter, and any other tag is refused. */
  lemma WhatPublishStores(lib: Library, raw: Bytes, text: Bytes, bytes: Bytes, tag: string)
    requires Lawful(lib) && Plain(text)
    ensures ToLower(tag) in {"", "json"} ==> DecodePublishValue(lib, raw, tag) == Ok(raw)
    ensures ToLower(tag) == "string" ==> DecodePublishValue(lib, Quote(text), tag) == Ok(text)
    ensures ToLower(tag) == "base64" ==> DecodePublishValue(lib, Quote(Encode(Standard, bytes)), tag) == Ok(bytes)
    ensures ToLower(tag) in {"string", "base64"} && lib.unmarshalString(raw).None? ==> DecodePublishValue(lib, raw, tag).Err?
    ensures ToLower(tag) !in {"", "json", "string", "base64"} ==> DecodePublishValue(lib, raw, tag).Err?
  {
    EncodedTextIsPlain(bytes);
    DecodeEncode(Standard, bytes);
  }

  /** How a client reads a shown key by its tag. */
  function ReadShownKey(shown: Bytes, tag: string): Option<Bytes> {
    if tag == "" then Some([])
    else if tag == "utf8" then Some(shown)
    else if tag == "base64" then Decode(Standard, shown)
    else None
  }

  /** The tag tells how to get the key's bytes back, and UTF-8 keys are shown as they are. */
  lemma ShownKeyIsReadable(lib: Library, key: Option<Bytes>)
    ensures var (shown, tag) := EncodeKey(lib, key);
            && ReadShownKey(shown, tag) == Some(KeyText(key))
            && (lib.utf8Valid(KeyText(key)) ==> shown == KeyText(key))
  {
    DecodeEncode(Standard, KeyText(key));
  }

  /** What is shown of a key is always UTF-8 text: the key itself exactly when it is, else its base64 form. */
  lemma ShownKeyIsText(lib: Library, key: Option<Bytes>)
    requires Lawful(lib)
    ensures var (shown, tag) := EncodeKey(lib, key);
            && lib.utf8Valid(shown)
            && (tag == "" <==> key.None? || key.value == [])
            && (tag == "utf8" <==> key.Some? && key.value != [] && lib.utf8Valid(key.value))
            && (tag == "base64" <==> key.Some? && key.value != [] && !lib.utf8Valid(key.value))
  {
    EncodedTextIsPlain(KeyText(key));
    assert Plain([]);
  }

  // ---- Messages ----

  datatype MessageRequest = MessageRequest(key: Bytes, value: Bytes, valueEncoding: string, headers: map<Bytes, Bytes>)

  datatype ShownMessage = ShownMessage(
    partition: int, offset: int, key: Bytes, keyEncoding: string, value: Bytes, valueEncoding: string,
    headers: map<Bytes, Bytes>, timestamp: int)

  /** The message a request stands for, up to the order in which its headers are listed. */
  ghost predicate Represents(lib: Library, m: Message, req: MessageRequest) {
    && DecodePublishValue(lib, req.value, req.valueEncoding) == Ok(m.value)
    && m.key == (if req.key == [] then None else Some(req.key))
    && Lists(m.headers, req.headers)
  }

  method ToMessage(lib: Library, req: MessageRequest) returns (r: Result<Message>)
    ensures r.Ok? ==> Represents(lib, r.value, req)
    ensures r.Err? ==> DecodePublishValue(lib, req.value, req.valueEncoding) == Err(r.error)
  {
    var value := DecodePublishValue(lib, req.value, req.valueEncoding);
    if value.Err? {
      return Err(value.error);
    }
    var headers := ListHeaders(req.headers);
    r := Ok(Message(if req.key == [] then None else Some(req.key), value.value, headers));
  }

  /** A refused message is always the client's fault. */
  lemma DecodeErrorsAreClientFaults(lib: Library, raw: Bytes, encoding: string)
    requires DecodePublishValue(lib, raw, encoding).Err?
    ensures Classify(DecodePublishValue(lib, raw, encoding).error) == InvalidRequest400
    ensures Classify(Wrapped(DecodePublishValue(lib, raw, encoding).error)) == InvalidRequest400
  {
    var e := DecodePublishValue(lib, raw, encoding).error;
    assert Is(Known(BadRequest), Known(BadRequest));
    if e.Joined? {
      assert e.inners[0] == Known(BadRequest);
    }
    assert Is(e, Known(BadRequest));
  }

  predicate AllDecode(lib: Library, reqs: seq<MessageRequest>) {
    forall i | 0 <= i < |reqs| :: DecodePublishValue(lib, reqs[i].value, reqs[i].valueEncoding).Ok?
  }

  /** The conversion loop of the batch handler: all messages in order, or the error of the first bad one. */
  method ToMessages(lib: Library, reqs: seq<MessageRequest>, maxBatchSize: int) returns (r: Result<seq<Message>>)
    ensures r.Ok? <==> |reqs| <= maxBatchSize && AllDecode(lib, reqs)
    ensures r.Ok? ==> |r.value| == |reqs| && forall i | 0 <= i < |reqs| :: Represents(lib, r.value[i], reqs[i])
    ensures r.Err? ==> Classify(r.error) == InvalidRequest400
  {
    if |reqs| > maxBatchSize {
      assert Is(Known(BadRequest), Known(BadRequest));
      return Err(Wrapped(Known(BadRequest)));
    }
    var msgs := [];
    for i := 0 to |reqs|
      invariant |msgs| == i && forall k | 0 <= k < i :: Represents(lib, msgs[k], reqs[k])
    {
      var m := ToMessage(lib, reqs[i]);
      if m.Err? {
        DecodeErrorsAreClientFaults(lib, reqs[i].value, reqs[i].valueEncoding);
        return Err(Wrapped(m.error));
      }
      msgs := msgs + [m.value];
    }
    r := Ok(msgs);
  }

  /** How a consumed message is shown. */
  function Show(lib: Library, m: ConsumedMessage): ShownMessage {
    var (key, keyEncoding) := EncodeKey(lib, m.key);
    var (value, valueEncoding) := EncodeValue(lib, m.value);
    ShownMessage(m.partition, m.offset, key, keyEncoding, value, valueEncoding, HeaderMap(m.headers), m.timestamp)
  }

  method ToConsumedMessages(lib: Library, msgs: seq<ConsumedMessage>) returns (out: array<ShownMessage>)
    ensures fresh(out) && out.Length == |msgs|
    ensures forall i | 0 <= i < |msgs| :: out[i] == Show(lib, msgs[i])
  {
    var blank := ShownMessage(0, 0, [], "", [], "", map[], 0);
    out := new ShownMessage[|msgs|](_ => blank);
    for i := 0 to |msgs|
      invariant forall k | 0 <= k < i :: out[k] == Show(lib, msgs[k])
    {
      var m := msgs[i];
      var (key, keyEncoding) := EncodeKey(lib, m.key);
      var (value, valueEncoding) := EncodeValue(lib, m.value);
      var headers := ShowHeaders(m.headers);
      out[i] := ShownMessage(m.partition, m.offset, key, keyEncoding, value, valueEncoding, headers, m.timestamp);
    }
  }

  /** Field by field: coordinates and time as read, key and value in a form their tags tell how to undo, and the
      header map without loss when no name repeats. */
  lemma ShownFields(lib: Library, m: ConsumedMessage)
    requires Lawful(lib)
    ensures var s := Show(lib, m);
            && s.partition == m.partition && s.offset == m.offset && s.timestamp == m.timestamp
            && ReadShownKey(s.key, s.keyEncoding) == Some(KeyText(m.key)) && lib.utf8Valid(s.key)
            && lib.jsonValid(s.value) && (m.value != [] ==> DecodePublishValue(lib, s.value, s.valueEncoding) == Ok(m.value))
            && (DistinctNames(m.headers) ==> Lists(m.headers, s.headers))
  {
    ShownKeyIsReadable(lib, m.key);
    ShownKeyIsText(lib, m.key);
    ShownValueIsJson(lib, m.value);
    ValueRoundTrip(lib, m.value);
    if DistinctNames(m.headers) {
      DistinctNamesAreShownInFull(m.headers);
    }
  }

  /** The request a client builds from a shown message in order to publish it again. */
  function Republished(s: ShownMessage): MessageRequest {
    MessageRequest(s.key, s.value, s.valueEncoding, s.headers)
  }

  /** Publishing a shown message again: the shown headers come back exactly, the value comes back unless it
      was empty, and the key comes back if and only if it was nil or a non-empty UTF-8 text. */
  lemma RepublishRoundTrip(lib: Library, m: ConsumedMessage, again: Message)
    requires Lawful(lib) && Represents(lib, again, Republished(Show(lib, m)))
    ensures again.value == m.value <==> m.value != []
    ensures again.key == m.key <==> m.key.None? || (m.key.value != [] && lib.utf8Valid(m.key.value))
    ensures HeaderMap(again.headers) == HeaderMap(m.headers)
  {
    ValueRoundTrip(lib, m.value);
    HeaderRoundTrip(again.headers, HeaderMap(m.headers));
    EncodingIsLonger(Standard, KeyText(m.key));
  }

  /** A request published and then consumed is shown with its own key and headers; its value decodes to the
      bytes that were published. */
  lemma ShownAsPublished(lib: Library, req: MessageRequest, m: Message, c: ConsumedMessage)
    requires Lawful(lib) && Represents(lib, m, req) && m.value != []
    requires c.key == m.key && c.value == m.value && c.headers == m.headers
    ensures var s := Show(lib, c);
            && s.partition == c.partition && s.offset == c.offset && s.timestamp == c.timestamp
            && s.headers == req.headers
            && DecodePublishValue(lib, s.value, s.valueEncoding) == Ok(m.value)
            && (lib.utf8Valid(req.key) ==> s.key == req.key)
  {
    ValueRoundTrip(lib, c.value);
    HeaderRoundTrip(m.headers, req.headers);
  }
}
