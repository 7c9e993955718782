# Verification of the Thrift stack and the Sentinel controllers

This Dafny project models two parts of the repository and proves what they promise.

- **The Thrift stack** (`infra/rpc`): the compact and the binary protocol with depth-limited skipping, the THeader transport
  that detects and answers five dialects, the framed transport, the JSON protocol, the connection pool and the agent that
  borrows from it.
- **The Sentinel controllers** (`infra/rate/sentinel`): circuit breakers and the slot chain that rolls their probes back, the
  hotspot token bucket, both throttlers, entry accounting with isolation, the warm-up curve, statistic reuse and the reload of
  flow rules.

Code that updates an object is a class here, with each method proved against a specification function; the properties are
proved about those functions. Concurrency is a machine whose steps are the atomic operations of the code, run by any schedule of
any number of threads. `dafny verify dfyconfig.toml` checks everything.

| files | model |
|---|---|
| `WireTypes`, `Varint`, `WireFormat`, `WireTheorems`, `WireBytes` | values, byte layouts of the two dialects, round trips, the bytes themselves |
| `CompactProtocol`, `BinaryProtocol`, `Protocol`, `Skipping` | the protocol objects, whole values through either, skipping |
| `HeaderFormat`, `HeaderTransport`, `FramedTransport` | frames, dialects, headers, transforms |
| `JsonText`, `JsonFormat`, `JsonTheorems`, `JsonRoundTrip`, `JsonBytes`, `JsonFindings`, `JsonProtocol` | JSON strings and numbers, the two context stacks, round trips, the characters themselves |
| `Pool`, `PoolAgent`, `SharedClient` | the pool in every interleaving; its operations line by line, and `Do`; the one client variable |
| `CircuitBreaking`, `BreakerSlots`, `EntryRuns`, `BreakerRace` | breakers, entries and their exit, runs over pooled contexts, interleavings |
| `Hotspot`, `HotspotRace`, `Throttling`, `ThrottlingRace`, `ParamThrottlingRace` | token bucket and pass times, one request after another and in every interleaving |
| `Statistics`, `WarmUp`, `StatReuse` | accounting and isolation, warm-up, statistic reuse |
| `FlowRules`, `FlowRuleManager` | the plan of a reload, and the slices and controllers it works on |
| `Wrappers` | results and errors |

## What the proofs found

Where a property does not hold of the code, the project holds the exact condition or a run that shows the failure.

- Isolation adds the batch to the concurrency in 32 bits, the concurrency counter wraps at 2^31, and empty batches are accepted. With
  batches from 1 up the threshold holds in every run exactly when it is below 2^31 and threshold plus largest batch is below 2^32; an
  empty batch always breaks it (`Statistics.EmptyBatchPasses`). The exact condition for any smallest and largest batch is
  `Statistics.Isolates` (`Statistics.IsolationExactlyWhen`).
- A THeader frame shorter than two bytes can be classified by bytes that an earlier frame left in the pooled buffer; it never is
  exactly when the frame has two bytes or one that begins no mark (`HeaderFormat.LeftoverMatters`). A frame cut short stays in the
  buffer, and the next frame is judged by its own bytes exactly when nothing was left (`HeaderFormat.CutFrameMatters`).
- Message types are truncated by the headers. They survive exactly when they fit: three bits in the compact format
  (`CompactProtocol.MessageRoundTrip`), eight in the others (`BinaryProtocol.MessageKeptExactlyWhen`,
  `JsonRoundTrip.MessageRoundTrip`). A strict binary type that spills into the version bits makes the header unreadable.
- A trip of a breaker swaps the state before it stores the retry time. In between another thread sees the old retry time and is
  admitted at once (`BreakerRace.AdmittedAtTheTrip`); keeping readers out of that gap is not enough
  (`BreakerRace.SwitchedOnStaleTime`). With nobody tripping between another thread's reading of the retry time and its swap either,
  the bound holds in every schedule (`BreakerRace.NoSwitchBeforeRetry`); without conditions on the schedule, exactly with one thread
  or no timeout (`BreakerRace.InTimeExactlyWhen`).
- The probe number of a breaker counts successes to close. It does not limit how many requests a half-open breaker admits
  (`CircuitBreaking.HalfOpenAdmitsAny`). The handler of a blocked probe does not reset the probe counter, so the counter is about
  successes since the last trip or closing.
- An entry's context goes back to the pool at its first exit, and a second exit still stores its error there. A completion is judged
  by its own error exactly when no entry that had the context before was ended again with an error since the context was last reset
  (`EntryRuns.JudgedExactlyWhen`). The late error may come while the next entry has the context (`EntryRuns.MarkedInUse`) or before
  any entry gets it (`EntryRuns.MarkedInPool`).
- The hotspot refill stores tokens before time, so two concurrent requests can both refill from one old time
  (`HotspotRace.RefilledTwice`), even when every refill stores its time at once (`HotspotRace.RefilledFromStaleTime`). With refills
  that keep out of each other the bound holds in every schedule (`HotspotRace.AdmittedBoundInRace`); without conditions on the schedule,
  exactly with one thread or when no request is let in (`HotspotRace.WithinExactlyWhen`). The range of the stored tokens holds in
  every interleaving.
- The flow throttler spaces requests by their intervals in every schedule exactly when there is but one thread or the threshold lets
  nobody in (`ThrottlingRace.SpacedExactlyWhen`). It fails in three ways. While a rejected request has yet to take back the interval it
  added, another may swap the pass time (`ThrottlingRace.SpacingLost`) or add to it (`ThrottlingRace.SpacingLostToAddition`); and a
  request that loses its swap may queue behind a time long past and pass at once (`ThrottlingRace.TwiceAtThree`). Without all three
  the requests are spaced in every schedule (`ThrottlingRace.SerialisedMomentsSpaced`). A rejected request leaves the stored pass time
  as the others made it exactly when none of them swaps it in between (`ThrottlingRace.RejectionIsTracelessExactlyWhen`). The waiting
  bound and the rate hold in every interleaving.
- The hotspot throttler swaps the pass time before it stores the one it was given, and a request in between passes too soon. Requests
  are spaced in every schedule exactly when there is but one thread, or nobody ever waits, or nobody is let in
  (`ParamThrottlingRace.SpacedExactlyWhen`).
- A warm-up rule too short or too weak for a token above the warning line has an infinite slope, its rate is no number, and the reject
  checker lets everything pass; the exact bound is twice the period times the threshold against one plus the cold factor
  (`WarmUp.LimitsWhenFullExactlyWhen`).
- Warm-up tokens are filled up below the warning line, and above it under low load, but not on it: a resource whose tokens stand exactly
  at the line keeps its full rate however long it is left alone (`WarmUp.NeverColdAtTheLine`).
- A warm-up rule without a cold factor gets the default written into the very rule object. The same configuration read afresh then
  differs from the bound rule, and its controller is rebuilt on every reload (`FlowRules.FreshReloadKeepsAll`).
- In `Do`, the error of the second call never reaches the deferred block, so a connection whose retried call failed goes back to
  the idle list (`PoolAgent.BrokenIsKept`). The connection last handed out is closed exactly when it is dead at the end, whatever the
  error (`PoolAgent.BrokenIsClosedExactlyWhen`).
- The agent's dial function keeps its client in one variable that all connections share, so a call goes through the connection dialled
  last, which another thread may have (`SharedClient.BothThroughOne`). Every call goes through the connection handed out for it, in every
  interleaving, exactly when there is one thread or at most one connection (`SharedClient.CallsOwnExactlyWhen`). What the pool promises
  about its connections is about those it hands out.
- A JSON string that the library cannot decode is an error exactly when it holds an escaped quote
  (`JsonFindings.UndecodableReportedExactlyWhen`); without one it is an empty string with a nil error (`JsonFindings.ErrorLost`).
- JSON sizes are checked as 32 bits and used as 64. A size that passed the check is in bounds exactly when it is within 32 bits
  (`JsonFindings.SizeReadInRangeExactlyWhen`); 2^32 is one that is not (`JsonFindings.OversizePasses`).
- The writer's transforms are undone in the reversed order for every list of the two known transforms, one of which does nothing
  (`HeaderFormat.TransformsUndone`); a third one would need a second look at that order.

## Model

| member | source | states |
|---|---|---|
| `WireTheorems.RoundTrip` | infra/rpc/thrift/compact_protocol.go:180-365 | for every well-typed nested value, in either dialect, reading what was written followed by any bytes gives the value and exactly those bytes; an empty map keeps its types in the binary dialect only |
| `WireTheorems.CanonIdentity` | infra/rpc/thrift/compact_protocol.go:254-258 | the value read is the value written unless it holds an empty map, the one shape whose types the compact dialect does not send |
| `WireTheorems.FieldHeaderRoundTrip` | infra/rpc/thrift/compact_protocol.go:211-245 | field ids in any order survive delta coding, and a boolean folded into its header comes back with it |
| `WireTheorems.ListHeaderRoundTrip` | infra/rpc/thrift/compact_protocol.go:513-537 | list and set headers, short and long form, give back element type and size |
| `WireTheorems.MapHeaderRoundTrip` | infra/rpc/thrift/compact_protocol.go:483-505 | map headers give back the types and size of a nonempty map |
| `WireTheorems.ScalarRoundTrip` | infra/rpc/thrift/compact_protocol.go:302-365 | every scalar is read back, negative and extreme integers included |
| `Varint.ZigZagInverse` | infra/rpc/thrift/compact_protocol.go:734-742 | zigzag is a bijection between signed and unsigned numbers of 32 and of 64 bits, in both directions |
| `Varint.VarintRoundTrip` | infra/rpc/thrift/compact_protocol.go:692-728 | a varint of any size is read back with what follows it untouched |
| `Varint.VarintFits` | infra/rpc/thrift/compact_protocol.go:692-728 | a varint takes at most 5 bytes for 32 bits and 10 for 64, so the writers' buffers suffice |
| `Varint.BigEndianRoundTrip` | infra/rpc/thrift/binary_protocol.go:220-239 | fixed-width big-endian integers are read back |
| `Varint.LittleEndianRoundTrip` | infra/rpc/thrift/compact_protocol.go:806-809 | fixed-width little-endian integers are read back |
| `WireBytes.FieldHeaderOnTheWire` | infra/rpc/thrift/compact_protocol.go:211-245 | for every type the very bytes of a compact field header: the code of the table at lines 62-78, or a boolean's own code, with the step of the id in the high half or the id in a varint behind |
| `WireBytes.ListHeaderOnTheWire` | infra/rpc/thrift/compact_protocol.go:678-687 | the very bytes of a compact list or set header: the element's code with the size in the high half up to 14, in a varint behind beyond |
| `WireBytes.MapHeaderOnTheWire` | infra/rpc/thrift/compact_protocol.go:254-264 | the very bytes of a compact map header: zero when empty, or else the size and both codes in one byte |
| `WireBytes.FieldHeaderRead` | infra/rpc/thrift/compact_protocol.go:820-850 | on reading, each of the thirteen codes gives its type and its boolean value, zero ends the struct, 0x0E and 0x0F fail |
| `WireBytes.ListHeaderRead` | infra/rpc/thrift/compact_protocol.go:513-537 | the same for the element of a short list header |
| `WireBytes.MapTypesRead` | infra/rpc/thrift/compact_protocol.go:483-505 | each half of a map's type byte gives its type, or no type when it is no code |
| `WireBytes.VarintMeans` | infra/rpc/thrift/compact_protocol.go:692-728 | byte i of a varint holds bits 7i to 7i+6 of the number, all bytes but the last have the top bit, and none is superfluous |
| `WireBytes.ZigZagMeans` | infra/rpc/thrift/compact_protocol.go:734-742 | the lowest bit is the sign, the others the number or its complement |
| `WireBytes.LittleEndianMeans` | infra/rpc/thrift/compact_protocol.go:326-332 | byte i is the i-th lowest of the number |
| `WireBytes.BigEndianMeans` | infra/rpc/thrift/binary_protocol.go:220-239 | byte i of n is the (n-i)-th lowest of the number |
| `WireBytes.BinaryHeadersOnTheWire` | infra/rpc/thrift/binary_protocol.go:147-206 | the very bytes of a binary field, list and map header |
| `WireBytes.StructExample` | infra/rpc/thrift/compact_protocol.go:211-245 | field 1 with the 32-bit number 5 is 15 0a 00 in the compact and 08 00 01 00 00 00 05 00 in the binary dialect |
| `WireBytes.CompactScalarExamples` | infra/rpc/thrift/compact_protocol.go:302-365 | the bytes of a scalar of every compact type but a UUID |
| `WireBytes.BinaryScalarExamples` | infra/rpc/thrift/binary_protocol.go:208-270 | the same in the binary dialect |
| `WireBytes.CompactMessageExample` | infra/rpc/thrift/compact_protocol.go:157-172 | a call named ping with sequence id 7 starts 82 21 07 04 |
| `WireBytes.BinaryMessageExample` | infra/rpc/thrift/binary_protocol.go:108-133 | and 80 01 00 01 in the strict binary form; both binary forms in full |
| `WireBytes.CompactVersions` | infra/rpc/thrift/compact_protocol.go:370-412 | the version is refused exactly when the first byte is not 0x82 or the low five bits of the second are not 1 |
| `WireBytes.BinaryVersions` | infra/rpc/thrift/binary_protocol.go:272-310 | the version is refused exactly when a first word with the top bit set is not 0x8001 and a type, or one without it is read strictly |
| `WireBytes.BooleansRead` | infra/rpc/thrift/compact_protocol.go:554-561 | a byte read as a boolean is true exactly when it is 1 |
| `WireBytes.SizesRefused` | infra/rpc/thrift/configuration.go:305-318 | a size is refused exactly when it is negative or beyond the maximum |
| `WireBytes.FrameOnTheWire` | infra/rpc/thrift/header_transport.go:655-680 | a frame is its size in four bytes, the most significant first, and its content |
| `WireBytes.LongestFrame` | infra/rpc/thrift/header_transport.go:361-366 | a frame is too long exactly when it exceeds 0x3fffffff or the configured size |
| `WireBytes.FailedFrame` | infra/rpc/thrift/header_transport.go:361-368 | a frame refused for its size is still in the input, one cut short is in the frame buffer |
| `WireBytes.MetaOnTheWire` | infra/rpc/thrift/header_transport.go:581-692 | 0fff, the flags, the sequence id and the words of the header section, byte by byte |
| `WireBytes.SectionExample` | infra/rpc/thrift/header_transport.go:590-640 | protocol 2, one zlib transform and one pair, padded to whole words |
| `WireBytes.TransformsAre` | infra/rpc/thrift/header_transport.go:154-225 | transform 0 does nothing, 1 is zlib in both directions, and every other id is refused |
| `CompactProtocol.MessageRoundTrip` | infra/rpc/thrift/compact_protocol.go:157-172 | a compact message header is read back with the low three bits of its type, so as it was if and only if the type is one of the eight the format has room for |
| `CompactProtocol.TCompactProtocol.WriteVarint` | infra/rpc/thrift/compact_protocol.go:692-728 | the shifting loop writes exactly the varint of the number |
| `CompactProtocol.TCompactProtocol.WriteMessageBegin` | infra/rpc/thrift/compact_protocol.go:157-172 | writes the message header and leaves the field state alone |
| `CompactProtocol.TCompactProtocol.WriteStructBegin` | infra/rpc/thrift/compact_protocol.go:180-184 | stacks the last field id and starts from zero |
| `CompactProtocol.TCompactProtocol.WriteStructEnd` | infra/rpc/thrift/compact_protocol.go:189-196 | restores the enclosing last field id, or fails on an empty stack |
| `CompactProtocol.TCompactProtocol.WriteFieldBegin` | infra/rpc/thrift/compact_protocol.go:198-208 | a boolean field waits for its value, any other header is written relative to the last id |
| `CompactProtocol.TCompactProtocol.WriteFieldBeginInternal` | infra/rpc/thrift/compact_protocol.go:211-245 | writes the short or the long header form and records the id |
| `CompactProtocol.TCompactProtocol.WriteMapBegin` | infra/rpc/thrift/compact_protocol.go:254-264 | a single zero byte for an empty map, otherwise size and both types |
| `CompactProtocol.TCompactProtocol.WriteCollectionBegin` | infra/rpc/thrift/compact_protocol.go:678-687 | the size in the type byte up to 14, in a varint beyond |
| `CompactProtocol.TCompactProtocol.WriteBool` | infra/rpc/thrift/compact_protocol.go:285-299 | folds the value into the pending header or writes it as a byte |
| `CompactProtocol.TCompactProtocol.WriteScalar` | infra/rpc/thrift/compact_protocol.go:302-365 | every other scalar is appended in its encoding |
| `CompactProtocol.TCompactProtocol.ReadVarint64` | infra/rpc/thrift/compact_protocol.go:765-781 | the accumulating loop yields the varint at the head of the transport, truncated to 64 bits |
| `CompactProtocol.TCompactProtocol.ReadMessageBegin` | infra/rpc/thrift/compact_protocol.go:370-412 | checks protocol id and version and gives the header or the same error as the format |
| `CompactProtocol.TCompactProtocol.ReadStructEnd` | infra/rpc/thrift/compact_protocol.go:426-434 | pops the field stack, or fails when it is empty |
| `CompactProtocol.TCompactProtocol.ReadFieldBegin` | infra/rpc/thrift/compact_protocol.go:437-475 | delta or long ids, unknown types, and a boolean remembered until it is read |
| `CompactProtocol.TCompactProtocol.ReadMapBegin` | infra/rpc/thrift/compact_protocol.go:483-505 | size checks and types, with error cases |
| `CompactProtocol.TCompactProtocol.ReadListBegin` | infra/rpc/thrift/compact_protocol.go:513-537 | short and long sizes, size checks and element type |
| `CompactProtocol.TCompactProtocol.ReadBool` | infra/rpc/thrift/compact_protocol.go:554-561 | uses up the remembered boolean or reads a byte |
| `CompactProtocol.TCompactProtocol.ReadScalar` | infra/rpc/thrift/compact_protocol.go:564-657 | all other scalars, negative and too large lengths refused |
| `BinaryProtocol.MessageRoundTrip` | infra/rpc/thrift/binary_protocol.go:108-133 | for any message type: the strict form is read back with eight bits of the type, or refused when the type spills into the version bits; the old form is read back by a lenient reader and refused by a strict one |
| `BinaryProtocol.MessageKeptExactlyWhen` | infra/rpc/thrift/binary_protocol.go:272-310 | the header comes back as it was if and only if its form is accepted and its type fits it |
| `BinaryProtocol.TBinaryProtocol.WriteMessageBegin` | infra/rpc/thrift/binary_protocol.go:108-133 | writes the strict or the old header form |
| `BinaryProtocol.TBinaryProtocol.ReadMessageBegin` | infra/rpc/thrift/binary_protocol.go:272-310 | tells the forms apart by the sign of the first word, with every error case |
| `BinaryProtocol.TBinaryProtocol.WriteScalar` | infra/rpc/thrift/binary_protocol.go:208-270 | appends the fixed-width encoding |
| `BinaryProtocol.TBinaryProtocol.ReadFieldBegin` | infra/rpc/thrift/binary_protocol.go:324-334 | type and id, or stop |
| `BinaryProtocol.TBinaryProtocol.ReadMapBegin` | infra/rpc/thrift/binary_protocol.go:340-364 | both types and a checked size |
| `BinaryProtocol.TBinaryProtocol.ReadListBegin` | infra/rpc/thrift/binary_protocol.go:370-389 | type and a checked size |
| `BinaryProtocol.TBinaryProtocol.ReadScalar` | infra/rpc/thrift/binary_protocol.go:419-503 | fixed-width scalars and length-checked strings |
| `Skipping.SkipAgreesWithDecode` | infra/rpc/thrift/protocol.go:94-188 | on every input, well formed or not: skipping stops where reading stops if the value is shallow enough, reports the depth limit if it is too deep, and fails when reading fails |
| `Skipping.SkipEncoded` | infra/rpc/thrift/protocol.go:94-188 | of an encoded value and any suffix, exactly the suffix is left if and only if the nesting is within the limit, otherwise the error is the depth limit |
| `Protocol.Skip` | infra/rpc/thrift/protocol.go:94-188 | skips one value, restores field stack and last field id, and terminates on every input |
| `Protocol.SkipStruct` | infra/rpc/thrift/protocol.go:127-148 | skips fields to the stop field and restores the reader |
| `Protocol.SkipDefaultDepth` | infra/rpc/thrift/protocol.go:89-91 | skips with the default recursion depth |
| `Protocol.WriteThenRead` | infra/rpc/thrift/compact_protocol.go:418-648 | on a drained transport: value back, transport drained again, and field stack, last id and both boolean flags as before |
| `HeaderFormat.TransformsUndone` | infra/rpc/thrift/header_transport.go:154-225 | the reversed reader stack undoes the writer stack for every list of the two transforms |
| `HeaderFormat.ReadersOpen` | infra/rpc/thrift/header_transport.go:154-171 | no decompressing reader is refused on what the writers made |
| `HeaderFormat.HeaderRoundTrip` | infra/rpc/thrift/header_transport.go:416-517 | sequence id, low 16 flag bits, protocol id, transform list and the whole header map come back in any iteration order, and the rest is the payload; or parsing fails as stacking the readers on that payload does |
| `HeaderFormat.PaddingIsNoInfo` | infra/rpc/thrift/header_transport.go:473-500 | zero padding is never taken for an info block |
| `HeaderFormat.MarksByFirstBytes` | infra/rpc/thrift/header_transport.go:323-403 | the three marks a receiver looks for differ in the first byte |
| `HeaderFormat.MessagesStartWithTheirMark` | infra/rpc/thrift/header_transport.go:323-403 | compact messages with any body start with their mark, and strict binary ones if and only if the type leaves the version bits alone |
| `HeaderFormat.DialectsToldApart` | infra/rpc/thrift/header_transport.go:323-403 | unframed and framed binary and compact messages and header frames are each classified as themselves, whatever the pooled buffer held |
| `HeaderFormat.LeftoverMatters` | infra/rpc/thrift/header_transport.go:361-403 | the classification of a frame never depends on what the pooled buffer held before exactly when the frame has two bytes, or one that begins no mark |
| `HeaderFormat.CutFrameMatters` | infra/rpc/thrift/header_transport.go:356-403 | every next frame is judged by its own bytes if and only if nothing was left in the buffer of a frame cut short |
| `HeaderFormat.RepliesInKind` | infra/rpc/thrift/header_transport.go:581-692 | in each of the five dialects what a transport puts on the wire is classified by the peer as that dialect |
| `HeaderTransport.THeaderTransport.AddTransform` | infra/rpc/thrift/header_transport.go:729-738 | supported transforms are appended, others refused |
| `HeaderTransport.THeaderTransport.Protocol` | infra/rpc/thrift/header_transport.go:741-750 | binary after either binary dialect, compact after either compact one, otherwise what the header says |
| `HeaderTransport.THeaderTransport.ReadFrame` | infra/rpc/thrift/header_transport.go:323-403 | classifies what arrives, behind whatever a failed frame left in the buffer, with every error case, and reads headers when there are some |
| `HeaderTransport.THeaderTransport.NextFrame` | infra/rpc/thrift/header_transport.go:323-368 | takes the next frame out of the connection, or recognises an unframed message |
| `HeaderTransport.THeaderTransport.OpenFrame` | infra/rpc/thrift/header_transport.go:369-403 | judges a frame by its first bytes |
| `HeaderTransport.THeaderTransport.ParseHeaders` | infra/rpc/thrift/header_transport.go:416-517 | the state after parsing is what the layout says, with every error case, refused decompressing readers included |
| `HeaderTransport.THeaderTransport.StackReaders` | infra/rpc/thrift/header_transport.go:471-480 | the readers are stacked from the last transform to the first, each on what those before it yield |
| `HeaderTransport.THeaderTransport.Flush` | infra/rpc/thrift/header_transport.go:581-692 | writes a header frame, a plain frame or the bare payload, and empties the buffer |
| `HeaderTransport.SendAndReceive` | infra/rpc/thrift/header_transport.go:581-692 | between any two frames of an exchange: what one end flushes in the header dialect the other reads, with ids, flags, headers, transforms, protocol and payload |
| `HeaderTransport.ReplyAndReceive` | infra/rpc/thrift/header_transport.go:581-692 | the same in the other four dialects |
| `HeaderTransport.ReceiveFirst` | infra/rpc/thrift/header_transport.go:323-403 | a fresh server classifies the first message of any of the five dialects and names its protocol, or fails as parsing its headers does |
| `HeaderTransport.AnswerInKind` | infra/rpc/thrift/header_transport.go:323-692 | a whole exchange in any of the five dialects: the server reads, names the protocol, replies, and the client finds the dialect, the protocol and the sequence id of its request |
| `FramedTransport.TFramedTransport.Read` | infra/rpc/thrift/framed_transport.go:131-164 | reads as the specification function does, through any number of empty frames, and terminates |
| `FramedTransport.TFramedTransport.ReadFrame` | infra/rpc/thrift/framed_transport.go:216-232 | copies the next frame, or fails at the end of input or over the size limit |
| `FramedTransport.TFramedTransport.Flush` | infra/rpc/thrift/framed_transport.go:198-214 | sends the size and the buffer, empty frames included |
| `FramedTransport.Perform` | infra/rpc/thrift/framed_transport.go:182-214 | any run of writes and flushes sends the stream of its payloads |
| `FramedTransport.ReadWithinFrame` | infra/rpc/thrift/framed_transport.go:131-164 | one call gives a nonempty piece of the first nonempty frame and nothing beyond it, and fails only when all is read |
| `FramedTransport.ReadingYieldsThePayloads` | infra/rpc/thrift/framed_transport.go:131-164 | for any nonzero chunk sizes, what is read followed by what is ahead is the concatenated payloads, and no chunk crosses a frame boundary |
| `FramedTransport.EverythingArrives` | infra/rpc/thrift/framed_transport.go:131-164 | enough calls deliver all payloads |
| `JsonText.BodyEndsAtClosingQuote` | infra/rpc/thrift/simple_json_protocol.go:953-975 | counting backslashes backwards from each quote ends the string at exactly the quote a forward escape automaton finds, on every input, and leaves the rest |
| `JsonText.CountIsParity` | infra/rpc/thrift/simple_json_protocol.go:926-931 | an odd count of trailing backslashes is the automaton being in its escaped state |
| `JsonText.StringBodyRoundTrip` | infra/rpc/thrift/simple_json_protocol.go:920-951 | a quoted valid string is read back whatever follows it |
| `JsonText.IntRoundTrip` | infra/rpc/thrift/simple_json_protocol.go:725-742 | every 64-bit integer survives its decimal text |
| `JsonText.ScanQuoted` | infra/rpc/thrift/simple_json_protocol.go:1188-1300 | a quoted number ends at its delimiter, which stays unread |
| `JsonTheorems.WriterEmits` | infra/rpc/thrift/simple_json_protocol.go:623-661 | the writer emits the text of a value with the right separator and moves its context on |
| `JsonRoundTrip.ReadBack` | infra/rpc/thrift/json_protocol.go:263-349 | what was written in a context is read back in it: separators and brackets consumed exactly, rest left, context moved on |
| `JsonRoundTrip.WriteThenRead` | infra/rpc/thrift/json_protocol.go:94-161 | starting from equal stacks, writing and reading any nested value without doubles gives the value back and equal stacks |
| `JsonRoundTrip.MessageRoundTrip` | infra/rpc/thrift/json_protocol.go:59-81 | a whole message followed by anything is read back, with its type cut to eight bits and so as it was if and only if the type fits them; both stacks end at top level |
| `JsonProtocol.TJSONProtocol.OutputPreValue` | infra/rpc/thrift/simple_json_protocol.go:623-639 | a comma, a colon or nothing, as the context says |
| `JsonProtocol.TJSONProtocol.OutputPostValue` | infra/rpc/thrift/simple_json_protocol.go:641-661 | the context moves on |
| `JsonProtocol.TJSONProtocol.OutputI64` | infra/rpc/thrift/simple_json_protocol.go:725-742 | a decimal number, quoted in key position |
| `JsonProtocol.TJSONProtocol.OutputString` | infra/rpc/thrift/simple_json_protocol.go:744-752 | a quoted string |
| `JsonProtocol.TJSONProtocol.OutputBegin` | infra/rpc/thrift/simple_json_protocol.go:759-793 | an opening bracket and a new context |
| `JsonProtocol.TJSONProtocol.OutputEnd` | infra/rpc/thrift/simple_json_protocol.go:770-807 | a closing bracket, and the outer context moves on |
| `JsonProtocol.TJSONProtocol.WriteFieldBegin` | infra/rpc/thrift/json_protocol.go:94-109 | id, brace and type name |
| `JsonProtocol.TJSONProtocol.WriteElemListBegin` | infra/rpc/thrift/json_protocol.go:458-473 | bracket, type name and size |
| `JsonProtocol.TJSONProtocol.WriteMapBegin` | infra/rpc/thrift/json_protocol.go:117-139 | bracket, both type names, size and brace |
| `JsonProtocol.TJSONProtocol.WriteMessageBegin` | infra/rpc/thrift/json_protocol.go:59-77 | resets both stacks and writes the header of a message |
| `JsonProtocol.TJSONProtocol.ParsePreValue` | infra/rpc/thrift/simple_json_protocol.go:822-880 | consumes the separator the context calls for, or fails |
| `JsonProtocol.TJSONProtocol.ParsePostValue` | infra/rpc/thrift/simple_json_protocol.go:882-902 | skips white space, and the context moves on |
| `JsonProtocol.TJSONProtocol.EndsString` | infra/rpc/thrift/simple_json_protocol.go:925-932 | the backward counting loop |
| `JsonProtocol.TJSONProtocol.ParseQuotedStringBody` | infra/rpc/thrift/simple_json_protocol.go:953-975 | recursion over lines yields the body up to the closing quote |
| `JsonProtocol.TJSONProtocol.ParseStringBody` | infra/rpc/thrift/simple_json_protocol.go:920-951 | the decoded string, including the case that loses an error |
| `JsonProtocol.TJSONProtocol.ReadNumeric` | infra/rpc/thrift/simple_json_protocol.go:1188-1305 | the scanning loop with each of its error cases |
| `JsonProtocol.TJSONProtocol.ParseI64` | infra/rpc/thrift/simple_json_protocol.go:995-1015 | null or a number, then the context moves on |
| `JsonProtocol.TJSONProtocol.ReadString` | infra/rpc/thrift/json_protocol.go:381-409 | null or a string, anything else is invalid |
| `JsonProtocol.TJSONProtocol.ParseBegin` | infra/rpc/thrift/simple_json_protocol.go:1039-1104 | an opening bracket pushes a context, a null is left in place |
| `JsonProtocol.TJSONProtocol.ParseObjectEnd` | infra/rpc/thrift/simple_json_protocol.go:1059-1083 | only white space before the brace, in an object context |
| `JsonProtocol.TJSONProtocol.ParseListEnd` | infra/rpc/thrift/simple_json_protocol.go:1127-1156 | only white space before the bracket, and nothing after it at top level |
| `JsonProtocol.TJSONProtocol.ReadElemListBegin` | infra/rpc/thrift/json_protocol.go:475-501 | element type and size, checked as 32 bits |
| `JsonProtocol.TJSONProtocol.ReadMapBegin` | infra/rpc/thrift/json_protocol.go:287-325 | both types, size and the opening brace |
| `JsonProtocol.TJSONProtocol.ReadFieldBegin` | infra/rpc/thrift/json_protocol.go:263-281 | stop before a closing bracket, else id and type |
| `JsonProtocol.TJSONProtocol.ReadMessageBegin` | infra/rpc/thrift/json_protocol.go:221-247 | resets both stacks, checks the version and reads the header |
| `JsonBytes.TypeNames` | infra/rpc/thrift/json_protocol.go:503-533 | the name of each of the twelve types, and none for the rest |
| `JsonBytes.TypesNamed` | infra/rpc/thrift/json_protocol.go:535-566 | and the type of each name |
| `JsonBytes.NumberEndsAt` | infra/rpc/thrift/simple_json_protocol.go:1188-1300 | a number is ended exactly by white space, a zero byte, a closing bracket, a comma or a colon |
| `JsonBytes.ScansNumeralsExactly` | infra/rpc/thrift/simple_json_protocol.go:1188-1300 | where no name begins, a number is read exactly when its characters, quotes left out, are a numeral: one point at most and before any exponent, one exponent mark, a sign only first or right after that mark; anything else is invalid |
| `JsonBytes.NamesRead` | infra/rpc/thrift/simple_json_protocol.go:1236-1290 | the three names of numbers that are none |
| `JsonBytes.IntegersRead` | infra/rpc/thrift/numeric.go:100-116 | a decimal numeral stands for the nearest 64-bit number |
| `JsonBytes.OtherTextsAreZero` | infra/rpc/thrift/numeric.go:100-116 | and any other text for zero |
| `JsonBytes.EscapesWith` | infra/rpc/thrift/simple_json_protocol.go:920-932 | a quote ends a string unless a backslash stands before it |
| `JsonBytes.NullRead` | infra/rpc/thrift/simple_json_protocol.go:995-1015 | a null is taken where it stands, and read as the integer zero |
| `JsonBytes.SpaceIs` | infra/rpc/thrift/simple_json_protocol.go:904-918 | white space is blank, tab, line feed and carriage return |
| `JsonBytes.SeparatorsDemanded` | infra/rpc/thrift/simple_json_protocol.go:822-880 | in a list a comma or its end must follow, between keys a comma or their end, before a value a colon |
| `JsonBytes.CloseDemanded` | infra/rpc/thrift/simple_json_protocol.go:1059-1083 | a closing bracket is taken exactly when only white space comes before it and the innermost context is its own |
| `JsonBytes.IntegersCut` | infra/rpc/thrift/json_protocol.go:351-380 | integers are cut to their width, and a boolean is true unless its 32 bits are zero |
| `JsonBytes.StructExample` | infra/rpc/thrift/json_protocol.go:94-109 | the whole text of a struct of two fields: keys, separators, type names and braces |
| `JsonBytes.ListExample` | infra/rpc/thrift/json_protocol.go:458-473 | the whole text of a list of two strings |
| `JsonBytes.MapExample` | infra/rpc/thrift/json_protocol.go:117-139 | the whole text of a map of two entries, its keys quoted |
| `JsonBytes.MessageExample` | infra/rpc/thrift/json_protocol.go:59-77 | the whole text of a message header |
| `JsonFindings.UndecodableReportedExactlyWhen` | infra/rpc/thrift/simple_json_protocol.go:933-951 | a body that closes but does not decode is an error if and only if it holds an escaped quote, and otherwise an empty string without error |
| `JsonFindings.ErrorLost` | infra/rpc/thrift/simple_json_protocol.go:933-951 | a lawful codec and a body read as an empty string without error |
| `JsonFindings.SizeReadInRangeExactlyWhen` | infra/rpc/thrift/json_protocol.go:475-501 | of the container sizes that pass the check, those between zero and the maximum are exactly those within 32 bits |
| `JsonFindings.OversizePasses` | infra/rpc/thrift/json_protocol.go:475-501 | a size of 2^32 passes the check, whatever the maximum |
| `Pool.EveryInterleaving` | infra/rpc/thrift_pool.go:132-266 | in every interleaving the counter equals idle plus accounted units and stays within 0 and the maximum, the over-limit branch is dead, the idle list is newest-first, and no connection is handed out twice or handed out or idle after closing |
| `Pool.StepConserves` | infra/rpc/thrift_pool.go:132-266 | every step of every thread keeps the counter exact |
| `Pool.StepBounds` | infra/rpc/thrift_pool.go:141-169 | whoever counts up has seen room under the lock |
| `Pool.StepExcludes` | infra/rpc/thrift_pool.go:137-266 | at most one thread is inside the lock |
| `Pool.StepKeepsNewestFirst` | infra/rpc/thrift_pool.go:207-212 | the stamp read under the lock keeps the idle list sorted |
| `Pool.StepKeepsExclusive` | infra/rpc/thrift_pool.go:132-266 | a connection is idle once or held by one thread, and is then open |
| `Pool.EvictionIsExact` | infra/rpc/thrift_pool.go:244-266 | in every interleaving: eviction is done exactly when every idle connection was stamped less than the idle timeout ago; until then it takes the one at the back, which was not |
| `Pool.NothingLeaks` | infra/rpc/thrift_pool.go:132-266 | with no operation under way the counter is the number of idle connections |
| `Pool.AloneIsARun` | infra/rpc/thrift_pool.go:132-266 | what one thread does alone is a schedule of the concurrent machine |
| `Pool.AloneConserves` | infra/rpc/thrift_pool.go:132-266 | a thread takes from counter and list only what it still holds |
| `PoolAgent.ThriftPool.Get` | infra/rpc/thrift_pool.go:132-187 | waits, dials or takes the front connection, with the state after each outcome |
| `PoolAgent.ThriftPool.Put` | infra/rpc/thrift_pool.go:189-216 | to the front of the list, or closed and counted down |
| `PoolAgent.ThriftPool.Reconnect` | infra/rpc/thrift_pool.go:218-235 | closes, dials and checks, giving the unit back on failure |
| `PoolAgent.ThriftPool.CloseConn` | infra/rpc/thrift_pool.go:237-242 | closes and counts down |
| `PoolAgent.ThriftPool.CheckTimeout` | infra/rpc/thrift_pool.go:244-266 | an old idle connection is still there exactly when its stamp plus the idle timeout is after the clock; the others are closed and counted down |
| `PoolAgent.HandBack` | infra/rpc/thrift_agent.go:61-75 | the deferred hand-back, by the error the outer variable holds |
| `PoolAgent.Do` | infra/rpc/thrift_agent.go:56-100 | the outcome, with the connection lent for the last call and the one it went through, and the whole state of the pool afterwards are those of the specification, and the thread is outside the pool with nothing in hand |
| `PoolAgent.DoBalances` | infra/rpc/thrift_agent.go:56-100 | on every path the unit taken is given back exactly once; where each connection handed out ends, which error is returned, and that the last call goes through the connection dialled last |
| `PoolAgent.LeasedExactlyWhen` | infra/rpc/thrift_pool.go:132-187 | in the pool's own numbers: Get is refused exactly with nobody idle and the counter at its maximum, and gives a connection exactly when the front one is alive or a new one is dialled alive |
| `PoolAgent.ClosedExactlyWhen` | infra/rpc/thrift_pool.go:189-216 | a connection handed back is closed exactly when its call broke it, it is dead or the counter exceeds the maximum, and is otherwise at the front with the time of its return |
| `PoolAgent.RetriesExactlyWhen` | infra/rpc/thrift_agent.go:76-100 | the call is made again exactly when the first failed on the network or in the transport and a new connection is had |
| `PoolAgent.BrokenIsClosedExactlyWhen` | infra/rpc/thrift_agent.go:61-96 | the connection last handed out is closed if and only if it is dead at the end, so the rule that it is closed when the call made with it broke or it is dead fails exactly when a retried call breaks and the connection still looks alive |
| `PoolAgent.DoCallsOwnExactlyWhen` | infra/rpc/thrift_agent.go:26-46 | without others, the last call goes through the connection handed out for it if and only if it is a retry, or no idle connection but the newest was taken |
| `SharedClient.CallsOwnExactlyWhen` | infra/rpc/thrift_agent.go:26-46 | in every interleaving every call goes through the connection handed out for it if and only if there is one thread or at most one connection |
| `SharedClient.BothThroughOne` | infra/rpc/thrift_agent.go:26-46 | a schedule after which two threads with a connection each call through the same one |
| `PoolAgent.BrokenIsKept` | infra/rpc/thrift_agent.go:61-96 | a world in which both calls fail on the network and the second connection is at the front of the idle list |
| `CircuitBreaking.NothingAdmittedBeforeRetry` | infra/rate/sentinel/core/circuitbreaker/circuit_breaker.go:154-185 | after a trip at time t nothing is admitted before t plus the retry timeout, in any sequential run with a monotone clock |
| `CircuitBreaking.ClosesExactlyWhen` | infra/rate/sentinel/core/circuitbreaker/circuit_breaker.go:326-338 | a breaker closes if and only if a success brings those since the last trip or closing to the probe number, at least one |
| `CircuitBreaking.MeaningHolds` | infra/rate/sentinel/core/circuitbreaker/circuit_breaker.go:154-245 | after any run the probe counter is the successes since the last reset, is zero in Closed, and the window holds no more than was recorded since the last closing |
| `CircuitBreaking.BadCountMeans` | infra/rate/sentinel/core/circuitbreaker/circuit_breaker.go:494-519 | after any run the window's total is the completions recorded in its buckets, and its bad count those with an error, or with the slow-request strategy those slower than allowed, counted from the events |
| `CircuitBreaking.TripsExactlyWhen` | infra/rate/sentinel/core/circuitbreaker/circuit_breaker.go:340-362 | after any run a closed breaker trips if and only if a recorded completion leaves at least the minimum number in the window and, counted from the events, the errors reach the integer threshold, or their share reaches the threshold but for the tolerance of 1e-8 |
| `CircuitBreaking.HalfOpenDecides` | infra/rate/sentinel/core/circuitbreaker/circuit_breaker.go:326-338 | which completions open a half-open breaker again and which close it, for each strategy, in terms of the event |
| `CircuitBreaking.AdmitsExactlyWhen` | infra/rate/sentinel/core/circuitbreaker/circuit_breaker.go:290-303 | a request gets in exactly when the breaker is closed, open with its retry time come, or half-open with a probe number |
| `CircuitBreaking.ProbedExactlyFrom` | infra/rate/sentinel/core/circuitbreaker/circuit_breaker.go:172-183 | a breaker that has just tripped lets a probe through exactly from the retry timeout on |
| `CircuitBreaking.TripNeedsRequests` | infra/rate/sentinel/core/circuitbreaker/circuit_breaker.go:340-362 | a trip out of Closed needs the minimum number of completions since the last closing |
| `CircuitBreaking.HalfOpenAdmitsAny` | infra/rate/sentinel/core/circuitbreaker/circuit_breaker.go:290-303 | with a positive probe number a half-open breaker admits any number of requests |
| `CircuitBreaking.RecordCountsOne` | infra/rate/sentinel/core/circuitbreaker/circuit_breaker.go:305-323 | recording counts one request, sliding only forgets |
| `BreakerSlots.CircuitBreaker.Cas` | infra/rate/sentinel/core/circuitbreaker/circuit_breaker.go:89-91 | swaps exactly when the state is the expected one |
| `BreakerSlots.CircuitBreaker.FromOpenToHalfOpen` | infra/rate/sentinel/core/circuitbreaker/circuit_breaker.go:187-214 | the transition, and a handler in the entry if this call made it |
| `BreakerSlots.CircuitBreaker.TryPass` | infra/rate/sentinel/core/circuitbreaker/circuit_breaker.go:290-303 | the decision, the new state and the handler |
| `BreakerSlots.CircuitBreaker.ExitHandler` | infra/rate/sentinel/core/circuitbreaker/circuit_breaker.go:200-207 | rolls a blocked probe back |
| `BreakerSlots.CircuitBreaker.FromHalfOpenToOpen` | infra/rate/sentinel/core/circuitbreaker/circuit_breaker.go:218-231 | only out of HalfOpen: probe counter reset and a new retry time, and otherwise false and nothing changed |
| `BreakerSlots.CircuitBreaker.FromClosedToOpen` | infra/rate/sentinel/core/circuitbreaker/circuit_breaker.go:172-183 | only out of Closed: a new retry time, and otherwise false and nothing changed |
| `BreakerSlots.CircuitBreaker.FromHalfOpenToClosed` | infra/rate/sentinel/core/circuitbreaker/circuit_breaker.go:234-245 | only out of HalfOpen: probe counter reset, and otherwise false and nothing changed |
| `BreakerSlots.CircuitBreaker.ResetMetric` | infra/rate/sentinel/core/circuitbreaker/circuit_breaker.go:365-369 | the loop empties every bucket |
| `BreakerSlots.CircuitBreaker.OnRequestComplete` | infra/rate/sentinel/core/circuitbreaker/circuit_breaker.go:305-363 | records, sums and moves the state for all three strategies |
| `BreakerSlots.SentinelEntry.Exit` | infra/rate/sentinel/core/base/entry.go:77-109 | once: a blocked entry rolls its probes back, a passed one completes at every breaker, and the context is reset and pooled; a repeated exit only stores its error in that context |
| `BreakerSlots.SlotChain.GetPooledContext` | infra/rate/sentinel/core/base/slot_chain.go:114-118 | a pooled context comes as it is, or else a new one |
| `BreakerSlots.LateExitFailsAnother` | infra/rate/sentinel/core/base/entry.go:77-109 | a late second exit with an error makes a later entry that was given the context, and ends well, count as failed at every breaker |
| `EntryRuns.JudgedExactlyWhen` | infra/rate/sentinel/core/base/entry.go:77-109 | over any run of entries and exits, repeated ones included: a completion is recorded as failed if and only if its own exit failed, or an entry that had its context before was ended again with an error after the context was last reset |
| `EntryRuns.JudgedByOwnError` | infra/rate/sentinel/core/base/entry.go:77-109 | without repeated exits that carry an error every completion is judged by its own |
| `EntryRuns.MarkedExactlyWhen` | infra/rate/sentinel/core/base/context.go:102-121 | in any run a context holds an error if and only if there was a late one since it was last reset |
| `EntryRuns.NotResetWhileHeld` | infra/rate/sentinel/core/base/slot_chain.go:113-125 | while an entry is live only its own exit resets its context |
| `EntryRuns.MarkedInUse` | infra/rate/sentinel/core/base/entry.go:77-109 | a run in which the late error comes while the next entry has the context |
| `EntryRuns.MarkedInPool` | infra/rate/sentinel/core/base/entry.go:77-109 | a run in which it comes while nobody has it |
| `EntryRuns.EnterOne` | infra/rate/sentinel/api/api.go:149-183 | the entry, context and pool objects follow the run when an entry comes in |
| `EntryRuns.ExitOne` | infra/rate/sentinel/core/base/entry.go:77-109 | they follow it when an entry is ended, and every breaker records the completion with the verdict of the run |
| `BreakerSlots.SentinelEntry.OnCompleted` | infra/rate/sentinel/core/circuitbreaker/stat_slot.go:48-55 | every breaker of the resource records the completion |
| `BreakerSlots.CheckPass` | infra/rate/sentinel/core/circuitbreaker/slot.go:53-62 | passes exactly when every breaker does, and what was touched up to the first refusal |
| `BreakerSlots.ChainEntry` | infra/rate/sentinel/core/base/slot_chain.go:162-219 | blocked exactly when some check blocks |
| `BreakerSlots.Enter` | infra/rate/sentinel/api/api.go:149-183 | a blocked entry leaves every breaker as it was, whichever slot or breaker blocked it; a passed one has moved exactly those whose time had come |
| `BreakerSlots.RolledBack` | infra/rate/sentinel/core/circuitbreaker/circuit_breaker.go:187-214 | the handler undoes exactly what the probe did |
| `BreakerRace.OneRequestPerSwitch` | infra/rate/sentinel/core/circuitbreaker/circuit_breaker.go:187-214 | with probe number 0, in every interleaving each switch to half-open admits one request |
| `BreakerRace.NoSwitchBeforeRetry` | infra/rate/sentinel/core/circuitbreaker/circuit_breaker.go:154-185 | no switch to half-open before the last trip plus the retry timeout, in every schedule where nobody reads the retry time while it is still to be stored and nobody trips between another thread's reading it and acting on it |
| `BreakerRace.InTimeExactlyWhen` | infra/rate/sentinel/core/circuitbreaker/circuit_breaker.go:154-185 | for every rule: in every schedule every switch to half-open comes no earlier than the last trip plus the retry timeout if and only if there is but one thread, or no timeout |
| `BreakerRace.SwitchedOnStaleTime` | infra/rate/sentinel/core/circuitbreaker/circuit_breaker.go:290-303 | the second half of that condition is needed: a schedule that keeps readers out while the time is stored and switches at the moment of a trip |
| `BreakerRace.AdmittedAtTheTrip` | infra/rate/sentinel/core/circuitbreaker/circuit_breaker.go:172-174 | the first half is needed: a schedule that admits a request at the moment of the trip |
| `BreakerRace.AloneIsTryPass` | infra/rate/sentinel/core/circuitbreaker/circuit_breaker.go:290-303 | the steps of an entering thread on its own are the sequential decision |
| `BreakerRace.AloneIsComplete` | infra/rate/sentinel/core/circuitbreaker/circuit_breaker.go:305-363 | the steps of a completing thread on its own are the sequential completion |
| `Hotspot.RejectTrafficShapingController.PerformChecking` | infra/rate/sentinel/core/hotspot/traffic_shaping.go:228-321 | one check of one argument, leaving the others alone |
| `Hotspot.CheckExactlyWhen` | infra/rate/sentinel/core/hotspot/traffic_shaping.go:246-320 | in the rule's own numbers: when a batch passes and what the bucket then holds, on the first access, within a duration of the last refill, and after it |
| `Hotspot.TokenBound` | infra/rate/sentinel/core/hotspot/traffic_shaping.go:246-320 | over any sequential run tokens stay in range, and admitted plus left tokens are at most the capacity plus what was earned up to the last refill |
| `Hotspot.AdmittedBound` | infra/rate/sentinel/core/hotspot/traffic_shaping.go:246-320 | in whole tokens, over any sequential run: admitted is at most the capacity plus rate times elapsed |
| `HotspotRace.TokensInRange` | infra/rate/sentinel/core/hotspot/traffic_shaping.go:246-320 | in every interleaving stored tokens stay between zero and the capacity |
| `HotspotRace.AdmittedBoundInRace` | infra/rate/sentinel/core/hotspot/traffic_shaping.go:246-320 | the admitted bound in every schedule where no thread starts a refill while another refills or fills for the first time |
| `HotspotRace.WithinExactlyWhen` | infra/rate/sentinel/core/hotspot/traffic_shaping.go:246-320 | for all valid limits: the admitted bound holds in every schedule if and only if there is but one thread, or no request is let in |
| `HotspotRace.RefilledTwice` | infra/rate/sentinel/core/hotspot/traffic_shaping.go:297-298 | without that, a schedule that refills twice from one old time |
| `HotspotRace.RefilledFromStaleTime` | infra/rate/sentinel/core/hotspot/traffic_shaping.go:270-299 | storing the time right after each refill is not enough: a schedule that does so and still refills for a time found too early |
| `HotspotRace.AloneIsCheck` | infra/rate/sentinel/core/hotspot/traffic_shaping.go:246-320 | the steps of a thread on its own are the sequential check |
| `ThrottlingRace.AdmittedWaitAtMost` | infra/rate/sentinel/core/flow/tc_throttling.go:82-108 | in every schedule of the atomic steps, whoever is admitted waits at most the queueing time |
| `ThrottlingRace.RateInEveryInterleaving` | infra/rate/sentinel/core/flow/tc_throttling.go:75-108 | in every schedule, over any stretch that begins with no undoing outstanding, the admitted batches fit the threshold times the pass time gone by |
| `ThrottlingRace.AdmittedByTheClock` | infra/rate/sentinel/core/flow/tc_throttling.go:75-108 | in every schedule the admitted batches fit the threshold times the time gone by and the queueing time |
| `ThrottlingRace.SpacedExactlyWhen` | infra/rate/sentinel/core/flow/tc_throttling.go:75-108 | for every valid limiter: in every schedule each request passes at least its interval after all admitted before it if and only if there is but one thread, or the threshold is below one and lets nobody in |
| `ThrottlingRace.SerialisedTimesSpaced` | infra/rate/sentinel/core/flow/tc_throttling.go:75-108 | the stored pass times are spaced in every schedule in which nobody is admitted while another thread has yet to take back what it added |
| `ThrottlingRace.SerialisedMomentsSpaced` | infra/rate/sentinel/core/flow/tc_throttling.go:75-108 | and so are the requests themselves if no admitting addition falls short of the time its request came in |
| `ThrottlingRace.RejectionIsTracelessExactlyWhen` | infra/rate/sentinel/core/flow/tc_throttling.go:97-101 | a rejected request leaves the stored pass time as the others made it if and only if no other thread swaps it between the addition and its undoing |
| `ThrottlingRace.SpacingLost` | infra/rate/sentinel/core/flow/tc_throttling.go:97-101 | a schedule in which a swap in that gap pulls the pass time back, so that the next request passes an interval too early |
| `ThrottlingRace.SpacingLostToAddition` | infra/rate/sentinel/core/flow/tc_throttling.go:97-101 | a schedule without such a swap in which an addition in that gap does the same |
| `ThrottlingRace.TwiceAtThree` | infra/rate/sentinel/core/flow/tc_throttling.go:88-108 | for every valid limiter that lets a request in, a schedule of two threads that admits two requests at one moment though the stored pass times are spaced |
| `ThrottlingRace.AloneIsCheck` | infra/rate/sentinel/core/flow/tc_throttling.go:58-109 | the steps of a thread on its own are the sequential check |
| `ThrottlingRace.ThrottlingChecker.DoCheck` | infra/rate/sentinel/core/flow/tc_throttling.go:58-109 | line by line the thread of the machine, whatever the others do to the pass time before each of its five operations; left alone, the sequential check |
| `Throttling.PassTimesSpaced` | infra/rate/sentinel/core/flow/tc_throttling.go:75-108 | over any sequential run, pass times of admitted requests are at least the interval apart |
| `Throttling.CheckExactlyWhen` | infra/rate/sentinel/core/flow/tc_throttling.go:75-108 | in the limiter's own numbers: a batch passes at once exactly when the threshold covers it in the time since the last pass time, waits for the least time that does, and is blocked exactly when the longest wait does not |
| `Throttling.RateBound` | infra/rate/sentinel/core/flow/tc_throttling.go:75-108 | over any sequential run the admitted batches fit the threshold times the elapsed pass time |
| `Throttling.ThrottlingTrafficShapingController.PerformChecking` | infra/rate/sentinel/core/hotspot/traffic_shaping.go:323-380 | one check of one argument, leaving the others alone |
| `Throttling.CheckParamExactlyWhen` | infra/rate/sentinel/core/hotspot/traffic_shaping.go:351-379 | without naming the interval: a batch passes at once exactly when batch * duration < tokens * (now - last + 1); the exact wait and the exact block condition in the same terms |
| `Throttling.FirstParamPasses` | infra/rate/sentinel/core/hotspot/traffic_shaping.go:341-362 | the first access of an argument passes at once, and without tokens nothing does |
| `Throttling.ParamRate` | infra/rate/sentinel/core/hotspot/traffic_shaping.go:351-379 | the rate from both sides: over any sequential run the batches admitted fit the tokens of the pass time gone by but for what the division drops, and while requests queue no more pass time is given out than they need |
| `Throttling.ParamSpacing` | infra/rate/sentinel/core/hotspot/traffic_shaping.go:351-379 | over any sequential run, pass times per argument are spaced by the intervals |
| `Throttling.ParamWaits` | infra/rate/sentinel/core/hotspot/traffic_shaping.go:351-379 | an admitted request waits less than the maximum, a blocked one changes nothing |
| `ParamThrottlingRace.AdmittedWaitLess` | infra/rate/sentinel/core/hotspot/traffic_shaping.go:345-379 | in every schedule of the atomic operations, whoever is admitted waits less than the maximum |
| `ParamThrottlingRace.SpacedExactlyWhen` | infra/rate/sentinel/core/hotspot/traffic_shaping.go:345-379 | in every schedule each request of an argument passes at least its interval after all admitted before it if and only if there is but one thread, or nobody ever waits, or nobody is let in |
| `ParamThrottlingRace.SerialisedSpaced` | infra/rate/sentinel/core/hotspot/traffic_shaping.go:363-369 | it does in every schedule in which nobody swaps the pass time while another thread has yet to store its own |
| `ParamThrottlingRace.PassedTooSoon` | infra/rate/sentinel/core/hotspot/traffic_shaping.go:363-369 | for all limits under which somebody waits, a schedule of two threads that passes a request too soon |
| `ParamThrottlingRace.AloneIsCheck` | infra/rate/sentinel/core/hotspot/traffic_shaping.go:345-379 | the steps of a thread on its own are the sequential check |
| `Statistics.BaseStatNode.RecordPass` | infra/rate/sentinel/core/stat/stat_slot.go:76-82 | counts the entry in |
| `Statistics.BaseStatNode.RecordComplete` | infra/rate/sentinel/core/stat/stat_slot.go:91-101 | counts the entry out, with its error |
| `Statistics.CheckPass` | infra/rate/sentinel/core/isolation/slot.go:55-74 | the loop over the rules, with the 32-bit sum |
| `Statistics.Entry.Enter` | infra/rate/sentinel/core/stat/stat_slot.go:49-65 | checks, then accounts at both nodes |
| `Statistics.Entry.Exit` | infra/rate/sentinel/core/base/entry.go:91-108 | completes once however often it is called |
| `Statistics.AccountsBalance` | infra/rate/sentinel/core/stat/base_node.go:91-101 | in every run concurrency is the entries in flight, wrapped to 32 bits, and passes minus completions their batches, at a resource and at the inbound node |
| `Statistics.TotalsMean` | infra/rate/sentinel/core/stat/stat_slot.go:49-101 | in every run the passed, blocked, completed, failed and response-time totals of a resource and of the inbound node are those counted from the events |
| `Statistics.IsolationExactlyWhen` | infra/rate/sentinel/core/isolation/slot.go:55-74 | for batches from a smallest to a largest: a threshold holds in every run if and only if no batch is empty, and the number in flight that refuses the smallest one is below 2^31 and does not overflow 32 bits with the largest |
| `Statistics.IsolationHolds` | infra/rate/sentinel/core/isolation/slot.go:55-74 | and then no more than that number are in flight |
| `Statistics.EmptyBatchPasses` | infra/rate/sentinel/api/api.go:81-88 | an entry with an empty batch passes a threshold of 1 that is full |
| `WarmUp.CurveIsValid` | infra/rate/sentinel/core/flow/tc_warm_up.go:43-68 | for every rule: the constructor arithmetic makes the slope meet the cold rate at the maximum, or leaves no token above the warning line and an infinite slope, or is beyond what the conversions define |
| `WarmUp.LimitsWhenFullExactlyWhen` | infra/rate/sentinel/core/flow/tc_warm_up.go:53-84 | for every rule whose arithmetic is defined: with its tokens full it rejects anything if and only if twice the period times the threshold reaches one plus the cold factor; otherwise the rate is no number and all passes |
| `WarmUp.CurveMeans` | infra/rate/sentinel/core/flow/tc_warm_up.go:43-68 | the warning line and the maximum in the rule's own numbers, a cold factor of 0 or 1 standing for 3 |
| `WarmUp.RateMeans` | infra/rate/sentinel/core/flow/tc_warm_up.go:70-86 | above the line the time a request takes grows in proportion to the tokens above it |
| `WarmUp.CoolDownExactly` | infra/rate/sentinel/core/flow/tc_warm_up.go:108-127 | below the warning line the tokens become the whole part of stored + passed * threshold / 1000, cut at the maximum; at the line they stay; above it they grow so exactly when passQps is below the whole quotient of threshold by cold factor |
| `WarmUp.IdleIsColdExactlyWhen` | infra/rate/sentinel/core/flow/tc_warm_up.go:108-127 | a resource left idle below the line has all its tokens back exactly when the time suffices for them, and is then allowed the cold rate |
| `WarmUp.NeverColdAtTheLine` | infra/rate/sentinel/core/flow/tc_warm_up.go:114-126 | with its tokens exactly at the line a resource keeps them and its full rate, however long it is left alone |
| `WarmUp.RateInRange` | infra/rate/sentinel/core/flow/tc_warm_up.go:70-86 | the rate lies between the threshold and its cold fraction and meets both ends |
| `WarmUp.RejectsExactlyWhen` | infra/rate/sentinel/core/flow/tc_default.go:57-68 | with the rate of a warm-up rule a batch is turned away exactly when it exceeds the threshold with what passed, up to the warning line, and when the cold multiple of the two does with all tokens stored |
| `WarmUp.RateFalls` | infra/rate/sentinel/core/flow/tc_warm_up.go:70-86 | more stored tokens never allow a higher rate |
| `WarmUp.CoolDownInRange` | infra/rate/sentinel/core/flow/tc_warm_up.go:108-127 | cooling down only adds, up to the maximum |
| `WarmUp.WarmUpTrafficShapingCalculator.SyncToken` | infra/rate/sentinel/core/flow/tc_warm_up.go:88-106 | when and from what the stored tokens are filled up, in the numbers of the curve; they stay in range |
| `WarmUp.WarmUpTrafficShapingCalculator.CalculateAllowedTokens` | infra/rate/sentinel/core/flow/tc_warm_up.go:70-86 | the rate of the stored tokens, within its range |
| `StatReuse.ReuseExactlyWhen` | infra/rate/sentinel/core/flow/rule_manager.go:404-466 | for every interval, 0 and the default included: the default statistic for those two; otherwise no illegal parameters, and the global array is reused if and only if bucket length divides interval and interval divides total; with the number of buckets in every case |
| `FlowRules.EachOldUsedOnce` | infra/rate/sentinel/core/flow/rule_manager.go:542-588 | an old controller is kept or gives its statistic at most once, never both |
| `FlowRules.PlanIsJustified` | infra/rate/sentinel/core/flow/rule_manager.go:515-539 | it is kept only for an equal rule and gives its statistic only where that may be reused |
| `FlowRules.DecidesExactlyWhen` | infra/rate/sentinel/core/flow/rule_manager.go:515-588 | field by field: the first controller left whose rule is the same but for the tolerance of the threshold is kept; or else the first one left with the same resource, relation, related resource and interval, both rules counting, gives its statistic; or else it is new |
| `FlowRules.InvalidExactlyWhen` | infra/rate/sentinel/core/flow/rule_manager.go:591-651 | a rule is refused exactly for one of the reasons listed |
| `FlowRules.OnePerRule` | infra/rate/sentinel/core/flow/rule_manager.go:542-588 | one controller per buildable rule, in order |
| `FlowRules.ReloadKeepsAll` | infra/rate/sentinel/core/flow/rule_manager.go:542-588 | reloading the bound rules plans to keep every controller in place |
| `FlowRules.FreshReloadKeepsAll` | infra/rate/sentinel/core/flow/tc_warm_up.go:43-47 | reloading the same configuration afresh keeps all controllers if and only if no warm-up rule leaves the cold factor to the default |
| `FlowRuleManager.RemoveAt` | infra/rate/sentinel/core/flow/rule_manager.go:557-557 | the in-place removal shifts the tail down |
| `FlowRuleManager.CalculateReuseIndexFor` | infra/rate/sentinel/core/flow/rule_manager.go:515-539 | the first equal rule, or else the first reusable one |
| `FlowRuleManager.BuildResource` | infra/rate/sentinel/core/flow/rule_manager.go:542-588 | the controllers built realise the plan |
| `FlowRules.SupportedIsBuildable` | infra/rate/sentinel/core/flow/rule_manager.go:404-466 | a controller can be made for a rule if and only if its strategy and behaviour are among those with a generator, each listed |
| `FlowRuleManager.OneControllerPerRule` | infra/rate/sentinel/core/flow/rule_manager.go:542-588 | supported rules get one controller each, bound to an equal rule, or to the rule itself with its cold factor filled in |
| `FlowRuleManager.NoneUsedTwice` | infra/rate/sentinel/core/flow/rule_manager.go:542-588 | no old controller serves two new ones |
| `FlowRuleManager.ReloadIsIdentity` | infra/rate/sentinel/core/flow/rule_manager.go:542-588 | reloading the bound rules in order returns the very same controllers |
| `FlowRuleManager.Manager.OnResourceRuleUpdate` | infra/rate/sentinel/core/flow/rule_manager.go:256-294 | the resource is rebuilt from its own controllers, the others stay, and published slices are not mutated |
| `FlowRuleManager.Manager.OnRuleUpdate` | infra/rate/sentinel/core/flow/rule_manager.go:177-231 | every resource is rebuilt, dropped ones disappear, and published slices are not mutated |

## Left out

- Sockets, TLS, HTTP, deadlines and timeouts of the underlying transport: a connection is the bytes not yet read and the bytes
  written.
- What a failed read of a protocol leaves of the transport: the error is stated, not how far the input was consumed.
- Compression: functions known only to be inverse to each other, and to accept their own output. The bytes that a decompressing
  reader has taken in while it was opened still count as the rest of the frame.
- `THeaderTransport.Read` and `Close`, which move bytes through the transform readers.
- HeaderTransport.THeaderTransport.ReadFrame: a frame shorter than four bytes is judged with spare capacity of the pooled buffer, taken
  to be at least four bytes.
- FramedTransport.TFramedTransport.Flush: needs a write since the last flush; without one the code dereferences a nil buffer.
- Go shifts and masks are written as arithmetic modulo powers of two, and `|=` of disjoint bit groups as addition.
- Field types outside the type map, which the compact writer encodes as stop.
- Generated code: reading and writing of whole values by their wire types stands for it, as methods on the compact and binary
  objects and as functions over the JSON ones.
- JSON: doubles, base64 binaries, `TSimpleJSONProtocol`'s own value methods, and `Skip` over JSON. Quoting, unquoting and the text of
  a UUID are parameters known to be inverse on valid text; the quoted form of a decimal number is written out.
- Pool `Release` and `Recover`, which set the counter while connections are lent out; a double hand-back of one connection; and panics.
- PoolAgent.Do: dialling is taken to yield no client together with an error, as the agent's own dial function does.
- Circuit breaker listeners, metrics and logging; panics recovered in the slot chain. The sliding window is a list of counters whose
  sliding is an input; floating-point numbers are reals, counters unbounded.
- The order of slots in the chain and the sorting that keeps it: any order of checks is covered.
- Of a pooled context only the block result and the error are modelled; the pool may hand out any context or a new one. Runs of entries
  are sequential.
- Hotspot: cache eviction, concurrency rules and argument extraction; a 64-bit overflow of elapsed time times token count.
- Throttling.RateBound: for a fixed threshold, one request after another; `ThrottlingRace.RateInEveryInterleaving` and
  `ThrottlingRace.AdmittedByTheClock` are its forms for every schedule.
- Statistics: sliding windows are totals.
- WarmUp: rounding and `Nextafter`; what the machine makes of a conversion the language leaves open, as with the cold factor 2^32 - 1,
  for which the program divides by zero.
- Flow rules: resource nodes, user-registered generators beyond whether one exists and succeeds, and traffic checking itself.
- Breaker rule reload, system rules, outlier detection, the web framework and the libraries around Redis, SQL, queues and HTTP.
