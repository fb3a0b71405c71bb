/** Values that every component shares: byte strings, messages, results and errors. */
module Domain {

  datatype Option<+T> = None | Some(value: T)

  datatype Result<+T> = Ok(value: T) | Err(error: Error)

  type Byte = n: int | 0 <= n < 256

  /** A Go []byte, and also a Go string: both are plain byte sequences, and the
      conversions between them copy the bytes unchanged. */
  type Bytes = seq<Byte>

  datatype Header = Header(key: Bytes, value: Bytes)

  /** A message as the use-case layer sees it. A nil key is None; an empty key is Some([]). */
  datatype Message = Message(key: Option<Bytes>, value: Bytes, headers: seq<Header>)

  datatype PublishResult = PublishResult(partition: int, offset: int)

  datatype ConsumedMessage = ConsumedMessage(
    partition: int, offset: int, key: Option<Bytes>, value: Bytes, headers: seq<Header>, timestamp: int)

  /** Whether a deadline or cancellation may cut the call short. */
  datatype Context = Context(mayEnd: bool)

  /** Errors that the code compares by identity. */
  datatype Sentinel =
    | EmptyTopic | NoMessages | EmptyValue | TopicNotFound | InvalidQuery | BadRequest
    | DeadlineExceeded | Canceled

  /** An error value with the structure that errors.Is and errors.As walk. */
  datatype Error =
    | Other                                   // an error with nothing to unwrap
    | Known(sentinel: Sentinel)
    | Protocol(code: int)                     // a Kafka protocol error
    | Wrapped(inner: Error)                   // fmt.Errorf with one %w
    | Joined(inners: seq<Error>)              // errors.Join, or fmt.Errorf with several %w
    | Batch(elements: seq<Option<Error>>)     // kafka.WriteErrors: one slot a message, nil when it was written

  const UNKNOWN_TOPIC := Protocol(3)

  const OFFSET_EARLIEST := -2
  const OFFSET_LATEST := -1

  /** strings.ToLower, as far as comparisons with ASCII words can tell: the two non-ASCII runes whose
      lower case is an ASCII letter are included, and every other non-ASCII rune stays non-ASCII. */
  function ToLower(s: string): string {
    seq(|s|, i requires 0 <= i < |s| => LowerRune(s[i]))
  }

  function LowerRune(c: char): char {
    if 'A' <= c <= 'Z' then (c as int + 32) as char
    else if c == '\U{0130}' then 'i'
    else if c == '\U{212A}' then 'k'
    else c
  }

  /** A string lowers to a lower-case ASCII word when it spells it in either case, or with one of the two
      non-ASCII runes: dotted capital I for i, the Kelvin sign for k. */
  lemma LowersTo(s: string, word: string)
    requires forall i | 0 <= i < |word| :: 'a' <= word[i] <= 'z'
    ensures ToLower(s) == word <==>
            |s| == |word| && forall i | 0 <= i < |s| ::
              s[i] == word[i] || s[i] as int == word[i] as int - 32 ||
              (word[i] == 'i' && s[i] == '\U{0130}') || (word[i] == 'k' && s[i] == '\U{212A}')
  {
    if |s| == |word| {
      forall i | 0 <= i < |s|
        ensures LowerRune(s[i]) == word[i] <==>
                s[i] == word[i] || s[i] as int == word[i] as int - 32 ||
                (word[i] == 'i' && s[i] == '\U{0130}') || (word[i] == 'k' && s[i] == '\U{212A}')
      {
      }
    }
  }

  // ---- Picking a member of a non-empty set ----

  lemma HasMember<T>(s: set<T>) returns (x: T)
    requires s != {}
    ensures x in s
  {
    x :| x in s;
  }

  lemma IntSetHasMember(s: set<int>)
    requires s != {}
    ensures exists x :: x in s
  {
    var x := HasMember(s);
  }
}
