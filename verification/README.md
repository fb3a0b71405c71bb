# Verified model of the Kafka REST gateway

This project models the parts of the gateway that hold state, loops and ordering, and proves what its
clients can rely on. Everything runs over one abstract Kafka broker: an append-only log per partition,
which other clients extend, and whose start retention moves forward, between any two steps of the gateway.

| file | what it models |
|---|---|
| `Domain.dfy`, `Errors.dfy`, `Aggregates.dfy` | byte strings, messages, the error tree with `errors.Is`, `errors.As` and the HTTP classification, and what the search through a batch aggregate finds |
| `BrokerLog.dfy`, `Sums.dfy` | the broker: logs, interference by others, produce and write requests that may fail before or after taking effect |
| `Routing.dfy`, `SyncProducer.dfy`, `SyncTheorems.dfy` | the sync producer and what its receipts mean |
| `BatchedWriter.dfy` | the batched producer and its retry loop for auto-created topics |
| `Client.dfy`, `ReadTheorems.dfy` | positioning and the bounded read loop, paging, read-your-writes |
| `ConsumerService.dfy`, `PublisherService.dfy`, `Config.dfy` | the two use cases and the limits they run under |
| `Base64.dfy`, `Payload.dfy`, `Headers.dfy` | the wire forms of values, keys, headers and messages |
| `RsaKey.dfy`, `KeySet.dfy`, `Jwks.dfy`, `JwksTheorems.dfy`, `JwksCache.dfy` | RSA keys from a JWK set, and the concurrent key cache |
| `TopicMetadata.dfy` | watermarks and the sorted partition list |
| `EndToEnd.dfy` | publish, then consume at the receipt, through all layers |

## How the model works

Go strings and byte slices are both sequences of bytes. A walk over a Go map takes an arbitrary remaining
key each time. Choices of the environment (other clients, failures, the clock, answers of the endpoint) are
arbitrary values, so every contract holds for all of them. Each log entry carries an origin, the produce
call and input slot it came from. Nothing in the broker or the gateway depends on it; it lets a contract
tell a call's own records from everybody else's, even when their contents are equal. For the same purpose the
broker and the JWKS endpoint keep a history of their answers, so that a contract can say which answer a
call's error comes from, and that there is an error only if some answer was one.

The broker contract is an assumption about the server and the client library: a produce request for one
partition appends its records as one block or not at all, whatever the answer; the base offset is reported
when acknowledgements are on, and is a made-up zero when they are off; a partition reader delivers the next
record at or after its position, skipping what retention removed, and without a deadline it waits until there
is one. One call of the high-level writer appends each message at most once, and all of them when it reports no
error (and acknowledgements are on); a retry inside the library that writes a message twice is not modelled, so
the bound of one copy per attempt is relative to this. The balancer is any function that picks a listed partition, depending on the key alone when there is
one. The JSON library is assumed to accept `null` and escape-free string literals, and to read such a literal
as its content (RFC 8259 sections 3 and 7); ASCII text is UTF-8.

The JWKS cache is modelled twice. `Jwks.dfy` is a step machine with one step for each lock section, fetch
outcome and clock tick; the theorems quantify over every sequence of steps of any number of callers.
`JwksCache.dfy` has the object with its fields and its methods in program order; each section is proved to be
one step of that machine, with arbitrary steps of others in between. The machine takes the extraction of keys
from a document as a function; the gateway's is `KeySet.Extract` over `RsaKey.RsaPublicKey`.

## Where the code is narrower than its description

- `minRefresh` is described as a floor between refreshes (`internal/middleware/jwks.go:25`). It only counts
  successful ones: `JwksTheorems.FailuresAreNotRateLimited` gives runs with any number of requests and no
  time passing, and `JwksTheorems.CheckLooksAtInstallsOnly` says exactly when the check holds a caller back.
- The consume handler says a message must carry all given headers (`internal/api/consume.go:60`). For a name
  given twice only the last value is asked for: `Headers.FilterAsksForEveryPair` gives the exact condition.
- `ErrInvalidQuery` is described as a 400 (`internal/service/errors.go:11-12`) but is classified as 502:
  `Errors.InvalidQueryIs400OnlyWithAnotherFault`.
- `clamp` is described as bounding to [1, max] (`internal/service/consumer.go:176`):
  `ConsumerService.ClampRange` and `ConsumerService.ForwardedLimits` say when that holds. It does for limits
  under every accepted configuration, and does not for waits, where a zero default is accepted
  (`Config.ZeroWaitIsAccepted`).
- Sync mode is described as enabling partial-failure reporting
  (`docs/adr/0001-publish-acknowledgement-modes.md:44`, `docs/adr/0001-publish-acknowledgement-modes.md:60-61`). On any
  failure the code returns the error alone, without the coordinates of the groups it has stored:
  `SyncTheorems.StoredWithoutReceipt`.
- An empty stored value is shown as `null` and does not round-trip: `Payload.ValueRoundTrip`.
- `containsKafkaError` is described as inspecting the elements of a batch aggregate. It inspects the direct
  elements of the first one. `Aggregates.SearchIsCompleteIffOneAggregate`: that finds every protocol error a
  tree can carry exactly when the tree holds at most one aggregate, as one batched write returns; in a second or
  nested one there is a slot where the error goes unseen (`Aggregates.HiddenTargets`).
- The header filter and the shown header map disagree on records that bind a name to two values:
  `Headers.FilterAgreesWithDisplay`.

## Model

| member | source | states |
|---|---|---|
| `SyncProducer.SyncProducer.Produce` | internal/kafka/syncproducer.go:64-118 | one metadata request, then one request a group with exactly that group's messages until one is not accepted; it succeeds exactly when all are accepted, else returns that failure translated; on any outcome the logs hold the accepted groups whole, at most the refused one besides, and nothing else of the call; on success each result is the group's base offset plus the message's place in the group |
| `SyncProducer.SyncProducer.SendGroups` | internal/kafka/syncproducer.go:88-115 | for every order of walking the group map: all groups sent, accepted and written and all result slots filled, or a stop at the first request not accepted with only whole groups written |
| `SyncProducer.SyncProducer.Group` | internal/kafka/syncproducer.go:74-86 | every message is in exactly its own listed partition's group; groups are non-empty and in input order |
| `SyncProducer.SyncProducer.Scatter` | internal/kafka/syncproducer.go:109-114 | exactly the group's slots are written, with consecutive offsets |
| `SyncProducer.SyncProducer.Partitions` | internal/kafka/syncproducer.go:122-144 | the ids of the first entry named like the topic, or the error that entry calls for, for every metadata answer |
| `SyncTheorems.ExactPlacement` | internal/kafka/syncproducer.go:74-117 | each reported coordinate holds that message's record, then and after any later growth of the logs |
| `SyncTheorems.NothingElsewhere` | internal/kafka/syncproducer.go:74-117 | every record of the call in any log sits at the coordinate reported for its slot |
| `SyncTheorems.Conservation` | internal/kafka/syncproducer.go:74-117 | a published batch is in the logs exactly once, message by message |
| `SyncTheorems.OneCopyOrNone` | internal/kafka/syncproducer.go:88-106 | on any outcome a message is in the logs once or not at all, according to whether its group was written |
| `SyncTheorems.GroupsAreAtomic` | internal/kafka/syncproducer.go:88-106 | a partial failure never splits the messages of one partition |
| `SyncTheorems.FailedBatch` | internal/kafka/syncproducer.go:88-106 | after a failed request the groups in the logs are those accepted before it and possibly its own; the error is the not-found sentinel when the library's or the broker's error carries unknown-topic, else that error with context |
| `SyncTheorems.FailedBatchStatus` | internal/kafka/syncproducer.go:101-106 | the client of a failed batch sees 404 for an unknown topic and otherwise the status of what the library or the broker reported |
| `SyncTheorems.StoredWithoutReceipt` | internal/kafka/syncproducer.go:100-106 | after a failed request every message of an accepted group is stored once, at a coordinate that is not reported; messages of the refused group are stored at most once and all others not at all |
| `SyncTheorems.OffsetGap` | internal/kafka/syncproducer.go:108-113 | offsets in one partition differ by the number of batch messages routed there in between |
| `SyncTheorems.SameKeyOrder` | internal/kafka/syncproducer.go:75-78 | messages with one key get one partition and increasing offsets |
| `SyncTheorems.CoordinatesAreDistinct` | internal/kafka/syncproducer.go:108-115 | no two messages share a coordinate, within a batch or across concurrent batches |
| `Routing.GroupIsExact` | internal/kafka/syncproducer.go:74-86 | a group holds exactly the indices routed to its partition, increasing |
| `BatchedWriter.BatchedWriter.Produce` | internal/kafka/writer.go:76-112 | 1 to 5 attempts, 1 without auto-creation, each with the whole batch; a retry only after an unknown-topic error; each message is in the logs exactly as often as attempts wrote it, so at most once an attempt (and at most once in all without auto-creation), and at least once on success; which error is reported and after how many waits, the context's own error only if the context may end |
| `BatchedWriter.ExactlyOnceIffNotWrittenBefore` | internal/kafka/writer.go:91-105 | a message that the last attempt wrote has one copy exactly when no earlier, failed attempt had written it |
| `BatchedWriter.RetryCanDuplicate` | internal/kafka/writer.go:91-105 | a first attempt that writes one message and reports the other as sent to an unknown topic passes the retry condition, and a second attempt then leaves two copies |
| `Errors.ContainsKafkaError` | internal/kafka/writer.go:117-130 | true exactly when the target is in the error tree or in the first batch aggregate of the tree |
| `Errors.IsIffOnAPath` | internal/kafka/writer.go:118 | the walk finds a target exactly when some path of unwrapping leads to it |
| `Errors.FirstBatchIffReachable` | internal/kafka/writer.go:121-122 | an aggregate is found exactly when some path leads to one, and it is the one whose path comes first in depth-first order |
| `Aggregates.SearchIsCompleteIffOneAggregate` | internal/kafka/writer.go:114-130 | for every error tree: whatever protocol errors its leaves and slots hold, the search finds the target wherever it is, if and only if the tree holds at most one aggregate, nested ones counted |
| `Aggregates.SearchIsSound` | internal/kafka/writer.go:117-130 | the search never reports a target that is not in the tree |
| `Aggregates.HiddenTargets` | internal/kafka/writer.go:121-128 | two inputs where an unknown-topic error is missed: in a second aggregate, and in one nested in the first |
| `Errors.ClassifySeesThroughContext` | internal/api/errors.go:40-58 | added context keeps the status; a join has the highest-priority status of its parts |
| `Errors.StatusOfSentinel` | internal/api/errors.go:40-58 | the status of each sentinel, under any amount of context |
| `Errors.StatusByPath` | internal/api/errors.go:40-58 | each status, by which sentinels lie on some path of the error; 502 when none does |
| `Errors.UpstreamErrorsAre502` | internal/api/errors.go:54-56 | an error with no sentinel anywhere is answered with 502 |
| `Errors.InvalidQueryIs400OnlyWithAnotherFault` | internal/api/errors.go:42-56 | an invalid-query error is a 400 exactly when another client fault is in its tree, else not |
| `Client.Client.Read` | internal/kafka/client.go:66-97 | the records of the log one after the other from the resolved start; one seek, then reads until the limit, the end of the context or a failed read, which is the only source of an error; never more reads than the limit |
| `Client.Client.Seek` | internal/kafka/client.go:101-115 | a timestamp takes priority over an offset or sentinel |
| `Client.FirstAtOrAfter` | internal/kafka/client.go:61-64 | the first record at or after the time, or the end of the log |
| `ReadTheorems.OffsetsIncrease` | internal/kafka/client.go:82-96 | offsets strictly increase from the start on |
| `ReadTheorems.ReadIsAWindow` | internal/kafka/client.go:82-96 | unless retention passed the start, the result is the next records without a gap |
| `ReadTheorems.ReadShowsStoredRecords` | internal/kafka/client.go:247-263 | partition, offset, key, value, headers and time of every message read are those of the stored record |
| `ReadTheorems.ResultIsInTheTimeWindow` | internal/service/consumer.go:47-52 | what a consume returns was stored with a time from since to until, both included |
| `ReadTheorems.FailedRead` | internal/kafka/client.go:84-93 | a read fails only with its last request, as not-found when its error carries unknown-topic and else with context; it stops early without an error only for a deadline or cancellation somewhere in the error |
| `ReadTheorems.ReadPages` | internal/kafka/client.go:66-97 | a loop of reads, each after the last offset of the one before, with any sizes: the pages are one long read of the log, and exactly the log from the first offset on when retention never passed it |
| `ReadTheorems.ReadsFromTheRequest` | internal/kafka/client.go:101-115 | a read at an absolute offset is a read from that offset, also when retention had already passed it |
| `ReadTheorems.ContinueAfterScanned` | internal/service/consumer.go:92-97 | continuing at offset plus scanned is right exactly when the page has no gap, so always unless retention passed its start |
| `ReadTheorems.PagesAreOneRead` | internal/kafka/client.go:66-97 | pages started after the last offset of the page before, over a growing log, are one long read |
| `ReadTheorems.PagesCoverTheLog` | internal/kafka/client.go:66-97 | with no retention loss the pages concatenate to exactly the log from the first start on |
| `ReadTheorems.EarliestReadsFromTheStart` | internal/kafka/client.go:203-212 | a read from the earliest offset returns the first retained records |
| `ReadTheorems.LatestReadsOnlyNewRecords` | internal/kafka/client.go:203-212 | a read from the latest offset returns nothing that was already in the log |
| `ReadTheorems.ReplayMissesNothing` | internal/kafka/client.go:101-115 | time-based replay starts at a record of that time or later and skips only older ones |
| `ReadTheorems.ReplayQuery` | internal/service/consumer.go:140-152 | the same for a consume query |
| `ReadTheorems.ReadYourWrites` | docs/adr/0001-publish-acknowledgement-modes.md:41 | a read at a reported coordinate starts with the message published there |
| `EndToEnd.PublishThenConsume` | docs/adr/0001-publish-acknowledgement-modes.md:41 | through all layers, with interference throughout: when nothing fails but that the context may end during the scan, the client gets a receipt, and consuming at it with the message's own key and header filter scans a record exactly when some fetch brought one; then the first message shown is the published one, unless retention removed it |
| `EndToEnd.PublishedComesFirst` | internal/api/consume.go:138-164 | the step from the scanned window to the shown message for the above |
| `PublisherService.PublisherService.PublishBatch` | internal/service/publisher.go:57-80 | an invalid batch sends nothing and gets its own error; a valid one has the producer's requests, records and outcome |
| `PublisherService.BatchedPublisherService.PublishBatch` | internal/service/publisher.go:57-80 | the same validation before the batched producer: an invalid batch sends nothing and gets its own error, a valid one has the retry loop's copies and error with context added, and a success has no coordinates |
| `PublisherService.Validate` | internal/service/publisher.go:58-68 | a batch is refused exactly when the topic is empty, there are no messages, or some value is empty, and with the error of the first of these |
| `ConsumerService.ConsumerService.Consume` | internal/service/consumer.go:129-174 | the matching messages of the scanned window in order, and how many were scanned; an error exactly when the query is invalid or the read failed; invalid queries never reach the broker; a scan that nothing cuts short reads exactly the requested number of records, or the default, or the maximum |
| `ConsumerService.Matches` | internal/service/consumer.go:43-59 | the early-exit check in any header order equals the conjunction of all criteria |
| `ConsumerService.HasHeader` | internal/service/consumer.go:61-68 | true exactly when the list has that name with that value |
| `ConsumerService.SelectionIsExact` | internal/service/consumer.go:157-165 | the result is the satisfying messages at strictly increasing positions, no more and no fewer |
| `ConsumerService.ResultMeetsEveryCriterion` | internal/service/consumer.go:43-68 | a message is in the result exactly when it was scanned, has the key's bytes, a time in the closed window, and every header with its value |
| `ConsumerService.RefusedWindowsAreEmpty` | internal/service/consumer.go:136-138 | a time window is refused exactly when no time lies in it |
| `ConsumerService.FilterByPages` | internal/service/consumer.go:157-165 | filtering concatenated windows equals concatenating the filtered windows |
| `ConsumerService.ClampRange` | internal/service/consumer.go:176-185 | the range [1, max] holds for every request exactly when default and maximum are positive |
| `ConsumerService.ForwardedLimits` | internal/service/consumer.go:140-141 | under validated limits every request forwards a limit in [1, max]: the requested one, the maximum for more, the default for none; the same three cases for waits, which are always positive exactly when the default wait is |
| `Config.Validate` | internal/config/config.go:169-199 | the faults found by the seven checks of brokers, acks, batch size, produce mode, limits and waits are reported, all of them and no other; the security checks of the section are not modelled |
| `Config.AcceptedConfigurationWorks` | internal/config/config.go:177-198 | an accepted acks setting is parsed to its own meaning, and accepted limits clamp every request into range |
| `Config.AcceptedSettings` | internal/config/config.go:177-200 | exactly which values of the checked settings are accepted |
| `BatchedWriter.AcksSettings` | internal/kafka/writer.go:148-159 | which settings mean which acknowledgements, and that all others are refused |
| `Domain.LowersTo` | internal/config/config.go:180 | a setting matches a lower-case word exactly when it spells it in either case (or with one of two non-ASCII runes) |
| `Config.ZeroWaitIsAccepted` | internal/config/config.go:197-200 | a zero default wait passes validation and is forwarded as zero |
| `Base64.DecodeEncode` | internal/api/params.go:125 | base64 decoding undoes encoding for every byte string, padded and unpadded |
| `Base64.SymbolsOfTheAlphabets` | internal/api/params.go:125 | the two alphabets of RFC 4648, tables 1 and 2 |
| `Base64.DigitIsInverse` | internal/middleware/jwks.go:169-176 | a byte is read as a digit exactly when it is that digit's symbol |
| `Base64.GroupIsOneNumber` | internal/api/params.go:125 | three bytes, read as one number, are the four digits of their group to the base 64 |
| `Base64.EncodingIsByGroups` | internal/api/params.go:125 | groups of three bytes are encoded one by one |
| `Base64.LastGroup` | internal/api/params.go:125 | a short last group is filled up with zeros and padded exactly in the standard variant |
| `Base64.DecodedTextIsWellFormed` | internal/middleware/jwks.go:169-176 | only alphabet, padding of the standard variant and line breaks decode, in full groups; line breaks do not matter |
| `Payload.ValueRoundTrip` | internal/api/params.go:118-127 | publishing a shown value stores the same bytes exactly when the value is not empty |
| `Payload.ShownValueIsJson` | internal/api/params.go:118-127 | what is shown is always valid JSON: a JSON value as it is, tagged json, and any other non-empty value as a base64 string, tagged base64 |
| `Payload.WhatPublishStores` | internal/api/publish.go:78-101 | raw JSON, string content or decoded base64 is stored according to the tag in any case, and any other tag is refused |
| `Payload.ShownValuesAreDistinct` | internal/api/params.go:118-127 | two values are shown alike only when equal, or when one is empty and the other is null |
| `Payload.ToMessage` | internal/api/publish.go:57-74 | the message has the decoded value, no key for an empty one, and the headers in some order |
| `Payload.ToMessages` | internal/api/publish.go:169-183 | all messages in order, or a client fault when the batch is too large or any value does not decode |
| `Payload.DecodeErrorsAreClientFaults` | internal/api/publish.go:78-101 | every decoding error is answered with 400 |
| `Payload.ToConsumedMessages` | internal/api/consume.go:138-164 | every message is shown in its place |
| `Payload.ShownFields` | internal/api/consume.go:138-164 | field by field: coordinates and time as read, key and value in forms that their tags undo, headers in full when no name repeats |
| `Payload.RepublishRoundTrip` | internal/api/publish.go:57-101 | publishing a shown message again restores headers always, the value unless empty, the key exactly when nil or non-empty UTF-8 |
| `Payload.ShownKeyIsReadable` | internal/api/params.go:131-139 | the tag tells how to get the key's bytes back; UTF-8 keys are shown as they are |
| `Payload.ShownKeyIsText` | internal/api/params.go:131-139 | the shown key is always UTF-8 text, and the tag is utf8 exactly for a non-empty UTF-8 key, base64 exactly for another non-empty one |
| `Headers.ListHeaders` | internal/api/publish.go:67-72 | for any map order the list has one header for each entry and no other |
| `Headers.HeaderRoundTrip` | internal/api/consume.go:144-150 | folding a listed map gives the map back |
| `Headers.DistinctNamesAreShownInFull` | internal/api/consume.go:144-150 | a record with distinct names is shown without loss |
| `Headers.FilterAgreesWithDisplay` | internal/service/consumer.go:53-67 | filter and shown map agree exactly when no name is bound to two values |
| `Headers.HeaderFilters` | internal/api/params.go:99-113 | the map of the given pairs, or a client fault when any is malformed |
| `Headers.FilterAsksForEveryPair` | internal/api/params.go:104-112 | the parsed map asks for every given pair exactly when no name is given with two values |
| `Headers.PairRoundTrip` | internal/api/params.go:106 | a name without a colon and any value are recovered from the parameter |
| `Headers.PairIsExact` | internal/api/params.go:106-109 | a parameter is refused exactly when it has no colon or nothing before it, and else splits at the first colon |
| `RsaKey.BigEndianRoundTrip` | internal/middleware/jwks.go:181-182 | the big-endian form of a number reads back as the number |
| `RsaKey.BytesArePositional` | internal/middleware/jwks.go:181 | the bytes in front weigh 256 for each byte behind them |
| `RsaKey.Int64IsTwosComplement` | internal/middleware/jwks.go:182 | the exponent is the two's complement reading of the low 64 bits |
| `RsaKey.KeyFieldsAreExact` | internal/middleware/jwks.go:168-184 | a key is built exactly when both fields decode to some bytes; the exponent is exact exactly when it fits 63 bits |
| `RsaKey.PublishedKeyIsRecovered` | internal/middleware/jwks.go:168-184 | published modulus and exponent are recovered exactly, with any leading zero bytes |
| `KeySet.BuildKeys` | internal/middleware/jwks.go:129-142 | the loop computes the extraction function, first error first |
| `KeySet.ExtractIsExact` | internal/middleware/jwks.go:129-142 | extraction succeeds exactly when all usable entries parse and there is one; the map holds the last usable entry of each kid |
| `KeySet.RefusedForItsFirstBadEntry` | internal/middleware/jwks.go:134-137 | a document with a bad usable entry is refused with the error of the first one |
| `Jwks.ReachableIsSound` | internal/middleware/jwks.go:72-149 | in every reachable state the cache is the last install, times are ordered, and every call's captured and returned keys were in force when it read them |
| `Jwks.OnlyStoreChangesCache` | internal/middleware/jwks.go:99-149 | a failed refresh, a read or a check leaves keys and fetchedAt alone |
| `JwksTheorems.Provenance` | internal/middleware/jwks.go:129-148 | the cache is empty before any install and afterwards exactly the key map of one document fetched in the run |
| `JwksTheorems.CacheMovesForward` | internal/middleware/jwks.go:144-147 | along a run installs are never undone and fetchedAt never goes back |
| `JwksTheorems.ReturnedKeyWasInstalled` | internal/middleware/jwks.go:72-97 | a returned key was bound to the requested kid by an installed, fetched document |
| `JwksTheorems.CachedKidFailsOnlyIfDropped` | internal/middleware/jwks.go:73-96 | a call that saw its kid cached fails only if an install between its two reads dropped the kid |
| `JwksTheorems.HowCallsEnd` | internal/middleware/jwks.go:72-97 | a call ends with a fresh cached key, or after a failed fetch or extraction with the key it had seen or else the failure, or with what the keys in force at its second read say |
| `JwksTheorems.StaleKeyOnlyAfterFailure` | internal/middleware/jwks.go:82-87 | a key that is no longer in force is returned only after a failed fetch or extraction |
| `JwksTheorems.CacheHitsAreFresh` | internal/middleware/jwks.go:73-80 | a call is answered without a refresh exactly when the last install has its kid and is younger than the time to live |
| `JwksTheorems.InstallsAreRateLimited` | internal/middleware/jwks.go:99-149 | any window of length minRefresh has at most as many installs as there are callers |
| `JwksTheorems.BoundIsReached` | internal/middleware/jwks.go:99-149 | for any number of callers some run reaches that bound |
| `JwksTheorems.CheckLooksAtInstallsOnly` | internal/middleware/jwks.go:100-105 | the check holds a caller back exactly when an install is less than minRefresh ago |
| `JwksTheorems.FailuresAreNotRateLimited` | internal/middleware/jwks.go:99-127 | any number of failing fetches fit in no time |
| `JwksCache.JwksCache.Key` | internal/middleware/jwks.go:72-97 | the object's call is a run of the machine; a fresh cached key is returned without asking; else the endpoint is asked unless an install is recent, a bad answer yields the key seen before or the failure, and after an install, its own included, the call returns exactly what the keys in force at its second read say; with no install during the call a cached kid is served |
| `JwksCache.JwksCache.Refresh` | internal/middleware/jwks.go:99-149 | the endpoint is asked exactly when the last install is not recent enough; nil then means the keys of its answer are installed with the current time, and an error is what was wrong with the answer |
| `JwksCache.GatewayCacheIsOneDocument` | internal/middleware/jwks.go:129-148 | in every run with the gateway's own extraction the cache is empty before any install, and afterwards the one map that a fetched document stands for |
| `JwksCache.GatewayReturnsFetchedKeys` | internal/middleware/jwks.go:72-97 | in every such run a returned key is the RSA key of the last usable entry of its kid in a fetched document, of type RSA and for signatures or any use |
| `JwksCache.GatewayInstallsAreRateLimited` | internal/middleware/jwks.go:99-149 | in every such run a window of length minRefresh has at most as many installs as there are callers |
| `JwksCache.InstalledKeyIsThePublishedOne` | internal/middleware/jwks.go:129-147 | the installed map serves the modulus and exponent published in the last RSA entry for signatures with the kid |
| `TopicMetadata.Watermarks` | internal/kafka/client.go:191-200 | the last answer of each partition, or the first error |
| `TopicMetadata.BuildTopicMetadata` | internal/kafka/client.go:214-237 | a sorted rearrangement of the described partitions, and the largest replica count |
| `TopicMetadata.PartitionIsDescribed` | internal/kafka/client.go:221-228 | every partition is listed with its own leader, replicas and in-sync replicas, and the watermarks of the last answer about it, or zeros |
| `TopicMetadata.SortedListIsUnique` | internal/kafka/client.go:230 | with distinct ids the sorted list does not depend on the sorting algorithm |

## Left out

- HTTP routing, response writing, logging, metrics, health, graceful shutdown and OpenAPI: delegation without ordering or state.
- JWT parsing and signature checking: the model ends at the key lookup.
- TLS and SASL set-up, and the environment parsing of configuration: only the checks of brokers, acks, batch size, produce mode and the consume limits and waits are modelled.
- The JSON grammar and UTF-8 validity: two predicates and a string decoder that callers supply; escapes inside string literals and the compaction of embedded JSON by the response encoder are not modelled.
- Parsing of integers, durations and timestamps, including `offsetParam`: times and durations are integers, offsets arrive parsed.
- `toOffsets`, which copies the reported coordinates into the response field by field.
- Error message texts: only the tree that the code inspects is kept.
- Nil and empty message values are one value; the producers are the only code that could tell them apart.
- Deletion of topics, log compaction and transactions: a partition's log only grows and loses a prefix.
- The length of the consume wait: the context of a consume call may end at any moment.
- `Config.Validate`: the checks of the server, log, security and auth settings are not modelled, because no other part of the model depends on them.
- `SyncProducer.SyncProducer.Produce`: with acks off nothing is claimed about where or whether records are stored, because the broker reports nothing; the results are then the places inside the groups.
