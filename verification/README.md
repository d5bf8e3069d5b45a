# EdgeLLM: a verified model of the portable core

EdgeLLM runs LLM clients and an MCP server on microcontrollers. This project models the part of
it that does not touch hardware, in Dafny, and proves what that part is for:

- **HTTP transport.** `HttpClient` over a connection that delivers bytes in arbitrary pieces, with
  pipelined keep-alive and replay of stale requests; the chunked decoder; the server-sent-event
  parser; the request serializer. (`Connection`, `HttpTypes`, `HttpHead`, `RequestBuilder`,
  `RequestReading`, `HttpExchange`, `HeadReading`, `HttpClient`, `ChunkedDecoder`, `ChunkedEncoding`,
  `ChunkedGrammar`, `ChunkedResponses`, `SseParser`, `SseWriter`, `SseBlocks`)
- **EdgeStore.** A bounded RAM map with expiring entries on a wrapping 32-bit clock and a
  write-through backend indexed by a manifest. (`EdgeStoreSpec`, `EdgeStore`, `EdgeStoreRuns`,
  `EdgeStoreChanges`)
- **EEPROM store.** A binary codec and a store that survives a reboot. (`EepromCodec`, `EepromStore`,
  `EepromRuns`)
- **Schema writer and validator.** One field tree, compiled to JSON Schema and interpreted
  directly. (`Json`, `SchemaUtil`, `SchemaMeaning`)
- **LLM client.** Retries with backoff, structured generation, the agent loop, the usage meter, and
  the grouping of tool results for Anthropic. (`Backoff`, `UsageMeter`, `Transcript`, `LlmOutside`,
  `LlmRetry`, `LlmClient`, `AnthropicGrouping`, `AgentTranscripts`)
- **Logger.** Redaction of registered secrets. (`Logger`)

`Core`, `Text` and `KeyOrder` hold what these share: results, searching in strings, and the
iteration order of `std::map`.

Each modelled class of the library is a Dafny class with the same fields. Its methods are proved to
compute a function of the old state or, where the network or the model has a say, a relation on it.
What the library promises is then proved about those functions and relations, over all inputs and all
runs. Parties the library talks to are classes whose methods may
do anything within their contract: the network (`Connections.Connection`), the provider, the tools
and the HTTP layer under the LLM client (`LlmOutside`). Their ghost logs say what was asked and
answered. `size_t`, `uint32_t` and `long` have 32 bits, as on the target boards; bytes are characters
below 256.

`dafny verify dfyconfig.toml` checks everything.

## Where the code differs from what it says

The model follows the code. These are the places where the code and its own description, or what a
caller would take for granted, part, with the lemmas that say exactly when and give inputs:

- `src/core/Logger.h:60` promises that every occurrence of a registered secret is replaced. A
  replacement can complete a new occurrence if the secret begins or ends with a star or holds three
  stars in a row. For a logger that holds one secret these are exactly the exceptions
  (`LoggerModel.RedactionCompleteExactlyWhenStarSafe`, `LoggerModel.UnsafeSecretLeaks`); with several,
  a secret is gone if it is star-safe or holds one that is (`LoggerModel.RedactionCovers`).
- `src/hal/EepromCodec.h:26-27` says that a failed decoding clears the output. It leaves the entries
  read before the defect (`EepromCodec.FailureLeavesNothingExactly`, `EepromCodec.DefectLeavesEntry`).
- `src/hal/EepromSecretStore.cpp:76` says that an empty store always fits. It does so from seven bytes
  on (`EepromStoreModel.EmptyFitsExactly`); below, nothing is ever written and nothing ever loaded
  (`EepromStoreModel.TinyNeverStores`).
- `src/llm/LLMClient.h:40-41` says that waits double up to the ceiling. That holds for every first wait
  exactly if the ceiling is at most 2^31 ms (`Backoff.BackoffExactly`, `Backoff.ClosedFormExactly`,
  `Backoff.DoublingWraps`).
- `src/llm/LLMClient.h:46` says that a numeric Retry-After is honoured. Its milliseconds are right exactly
  up to 4,294,967 seconds (`Backoff.RetryAfterExactly`, `Backoff.RetryAfterWraps`). The wait is, up to
  there and beyond it exactly if what is left after wrapping still reaches the ceiling, or if the value
  is ignored and the backoff is at the ceiling without jitter (`Backoff.HonouredExactly`).
- `src/transport/HttpClient.h:46-48` promises a second attempt for a request written on a reused socket.
  The socket is looked at twice; a request is repeated exactly if the first look found it open and the
  attempt ended stale and unanswered, so also one that was written on a new connection, made because
  the second look found the socket gone (`HttpClientModel.HttpClient.Send`,
  `HttpClientModel.FreshAttemptReplays`).
- The validator is not the emitted JSON Schema in three cases: an explicit null for an optional
  field passes, a whole number that is stored as a real or does not fit a `long` fails, and a string is
  looked up in an enumeration up to its first NUL only. `SchemaMeaning.ValidatorMeansSchema` holds for
  every tree and every object, with exactly these conditions; the inputs are `SchemaMeaning.NullPasses`,
  `SchemaMeaning.WholeRealRefused`, `SchemaMeaning.HiddenTailPasses` and `SchemaMeaning.EnumeratedNulRefused`.
- `src/llm/providers/AnthropicProvider.cpp:144` wants all results in one user message. Two turns of
  results stand side by side exactly if two results are kept apart by system messages alone
  (`AnthropicGrouping.ResultsShareATurn`, `AnthropicGrouping.SystemMessageSplits`); the agent loop never
  puts one there.
- The Content-Length that is added to a request is not the one its reader finds if a header of the
  caller reads back as another one, say with a space behind its name
  (`RequestBuilder.AutoLengthIsBodyLength`, `RequestBuilder.SpacedNameMisleads`).
- A head is taken however it is cut exactly if its blank line starts three bytes before the limit of
  8192 or sooner, and for some cut exactly if it ends within one buffer of the limit
  (`HeadReading.EveryCutTakes`, `HeadReading.SomeCutTakes`, `HeadReading.OneHeadTwoCuts`).
- Only behind a Content-Length body are bytes kept that were read ahead (`HttpClientModel.HttpClient.Send`,
  `HttpClientModel.SurplusIsLost`), and a failed request leaves its connection in the middle of a
  response, where the next request may find what looks like its own (`HttpClientModel.SendAfterFailure`,
  `HttpClientModel.BodyHoldsResponse`).
- An expired entry that nothing sweeps becomes visible again 2^31 ms after its deadline
  (`EdgeStoreRuns.UnsweptComesBack`), and one set with a TTL of more than 2^31 ms is expired at once
  (`EdgeStoreRuns.FreshTtlExactly`).
- A chunk size of 2^32 or more is read modulo 2^32 (`ChunkedEncoding.SizeExactBelowLimit`,
  `ChunkedEncoding.SizeWraps`).

## Model

| member | source | states |
|---|---|---|
| LoggerModel.Logger.RegisterSecret | src/core/Logger.cpp:26-32 | short values and duplicates leave the list alone, anything else goes to its end |
| LoggerModel.Logger.Redact | src/core/Logger.cpp:34-45 | the text with every secret scrubbed, in registration order |
| LoggerModel.Logger.ReplaceInPlace | src/core/Logger.cpp:38-42 | the find-and-replace loop over the changing string ends, and is a left-to-right scrub of the original |
| LoggerModel.ScrubRemoves | src/core/Logger.cpp:37-42 | scrubbing a star-safe secret leaves no occurrence of it |
| LoggerModel.ScrubCreatesNothing | src/core/Logger.cpp:37-42 | scrubbing one secret never creates an occurrence of another star-safe string |
| LoggerModel.RedactionComplete | src/core/Logger.cpp:34-45 | for every text and every set of overlapping secrets, no star-safe secret is left |
| LoggerModel.StarFreeIsStarSafe | src/core/Logger.cpp:6 | in particular every secret without a star is covered |
| LoggerModel.RedactionCovers | src/core/Logger.cpp:34-45 | a string that holds a star-safe registered secret is gone too, be it star-safe or not |
| LoggerModel.RedactionShrinks | src/core/Logger.cpp:34-45 | redaction never lengthens a text and does not touch one without secrets |
| LoggerModel.UnsafeSecretLeaks | src/core/Logger.cpp:34-45 | every secret that is not star-safe survives the redaction of some text, by a logger that holds only it |
| LoggerModel.RedactionCompleteExactlyWhenStarSafe | src/core/Logger.cpp:34-45 | a logger that holds only one secret masks it out of all texts if and only if it is star-safe |
| ChunkedDecoderModel.ChunkedDecoder.Reset | src/transport/ChunkedDecoder.cpp:15-21 | the decoder is as new |
| ChunkedDecoderModel.ChunkedDecoder.Feed | src/transport/ChunkedDecoder.cpp:23-121 | output, registers, flag and error are those of the byte-at-a-time machine, bulk copy and early return included |
| ChunkedDecoderModel.ChunkedDecoder.ConsumeByte | src/transport/ChunkedDecoder.cpp:26-117 | one byte in any state but Data is one step of the machine, and an error changes no register |
| ChunkedDecoderModel.ChunkedDecoder.FinishSizeLine | src/transport/ChunkedDecoder.cpp:38-46 | a zero size leads to the trailer, any other to data; the size registers are cleared |
| ChunkedDecoderModel.BulkCopy | src/transport/ChunkedDecoder.cpp:70-79 | copying a block at once equals as many single-byte steps |
| ChunkedDecoderModel.FragmentationIndependence | src/transport/ChunkedDecoder.cpp:23-121 | any split of a stream into calls gives the same output, state and first error |
| ChunkedDecoderModel.DoneAbsorbs | src/transport/ChunkedDecoder.cpp:113-115 | after the end nothing more is produced and no error occurs |
| ChunkedDecoderModel.OutputBounded | src/transport/ChunkedDecoder.cpp:70-78 | never more bytes out than in |
| ChunkedEncoding.SizeExactBelowLimit | src/transport/ChunkedDecoder.cpp:27-31 | a hex size is read exactly if and only if it is below 2^32 |
| ChunkedEncoding.SizeWraps | src/transport/ChunkedDecoder.cpp:27-46 | the size 100000000 is read as zero and taken for the last chunk |
| ChunkedEncoding.BeforeTheLastByte | src/transport/ChunkedDecoder.cpp:26-111 | one byte before its end, an encoding has yielded the whole payload and the decoder still waits |
| ChunkedEncoding.RoundTrip | src/transport/ChunkedDecoder.cpp:26-111 | section 4.1 of RFC 7230: any encoding, with any hex spelling, extensions, trailers and tail, decodes to its payload, and no proper prefix ends the message |
| ChunkedGrammar.HexValueExactly | src/transport/ChunkedDecoder.cpp:7-12 | a hex digit is worth its place in 0123456789abcdef or its capital form, and no other character is one |
| ChunkedGrammar.SizeLineExactly | src/transport/ChunkedDecoder.cpp:26-66 | at a chunk boundary a line is taken if and only if it is hex digits, at least one, with CRs anywhere, before its end or its semicolon; its size is what the digits spell modulo 2^32 |
| ChunkedGrammar.DecoderMeansGrammar | src/transport/ChunkedDecoder.cpp:23-121 | for every byte stream the machine fails exactly on those that no continuation could make a body, is done exactly on those that begin with a complete one, and has then put out its payload, as a reading line by line says |
| ChunkedResponses.ChunkedExchange | src/transport/HttpClient.cpp:128-149 | whoever read a chunked response off a stream, in any spelling and with anything behind it, has exactly its payload and has read all of it |
| ChunkedResponses.SendForChunks | src/transport/HttpClient.cpp:128-149 | on a calm connection a request answered in chunks succeeds and returns exactly the payload, for any fragmentation, any spelling of the chunks and anything behind them |
| SseParserModel.SseParser.Reset | src/transport/SseParser.cpp:5-11 | the parser is as new |
| SseParserModel.SseParser.Feed | src/transport/SseParser.cpp:13-25 | the events are those of the byte-at-a-time machine |
| SseParserModel.SseParser.ConsumeByte | src/transport/SseParser.cpp:15-23 | one byte is one step of the machine |
| SseParserModel.SseParser.HandleLine | src/transport/SseParser.cpp:27-59 | a line sets exactly the field it names; comments and unknown fields set none |
| SseParserModel.SseParser.HandleBlank | src/transport/SseParser.cpp:61-81 | a blank line emits one event if there was data, none otherwise, and keeps the id |
| SseParserModel.FragmentationIndependence | src/transport/SseParser.cpp:13-25 | the events do not depend on how the stream is cut |
| SseWriter.RecordRecovered | src/transport/SseParser.cpp:27-81 | a written event, with its data over any number of lines, is read back as that one event |
| SseWriter.RoundTrip | src/transport/SseParser.cpp:13-81 | section 9.2.6 of the WHATWG HTML Standard: a written stream gives exactly its events, in order, with ids carried over |
| SseWriter.FragmentedRoundTrip | src/transport/SseParser.cpp:13-81 | the same however the stream is cut into pieces |
| SseBlocks.BlockRead | src/transport/SseParser.cpp:27-81 | section 9.2.6 of the WHATWG HTML Standard for any lines before a blank one, with or without colon and space, comments and unknown fields included: one event exactly if there are data, of the last type given or message, the data values joined by newlines, the last id without a NUL carried on |
| SseBlocks.StreamRead | src/transport/SseParser.cpp:13-81 | a stream of such blocks gives the events of its blocks, in order |
| SseBlocks.EveryStreamRead | src/transport/SseParser.cpp:13-81 | every byte stream is a stream of such blocks, some lines more and the beginning of a line, and the parser has emitted exactly the events of the blocks |
| SseBlocks.FragmentedStreamRead | src/transport/SseParser.cpp:13-81 | the same however the stream is cut into pieces |
| HttpHead.ParseHeaderBlock | src/transport/HttpClient.cpp:35-68 | status, reason and headers of a head; the headers are added to those already there |
| HttpHead.ReadStatusLine | src/transport/HttpClient.cpp:40-53 | the status line is refused exactly without a space or without three or more digits |
| HttpHead.ParseHeaderLines | src/transport/HttpClient.cpp:56-66 | the index loop over the block reads its lines up to the first empty one and skips those without a colon |
| HttpHead.BlankEndsHead | src/transport/HttpClient.cpp:101-105 | behind clean lines the first blank line is the one that ends the head, whatever follows |
| HttpHead.HeadersRecovered | src/transport/HttpClient.cpp:55-66 | the line loop reads back every written header, trimmed |
| HttpHead.TrimExactly | src/transport/HttpClient.cpp:14-21 | trimming takes away spaces and tabs on both sides and CRs on the right, and leaves none there |
| HttpHead.LineExactly | src/transport/HttpClient.cpp:63-65 | a header line is split at its first colon, and gives no header without one |
| HttpHead.LinesRead | src/transport/HttpClient.cpp:55-66 | whatever clean lines stand in a head, each gives its header, in order, and those without a colon are skipped |
| HttpTypes.NamesEqualExactly | src/transport/HttpTypes.cpp:6-15 | two names are equal if and only if they are equally long and differ in nothing but the case of ASCII letters, told by character codes |
| HttpTypes.FindHeaderExactly | src/transport/HttpTypes.cpp:34-39 | a lookup finds the value of the first header whose name is a spelling of the one looked for, and none if there is none |
| HttpTypes.ContainsIgnoreCaseExactly | src/transport/HttpClient.cpp:23-32 | a word is found in a value if and only if some part of the value is a spelling of it |
| HttpExchange.StatusLineExactly | src/transport/HttpClient.cpp:38-53 | the status is what stands between the first two spaces if that is three digits or more, the reason the trimmed rest; any other line is refused |
| HttpExchange.HeadExactly | src/transport/HttpClient.cpp:35-68 | a head of any clean lines is its status line and the headers of its lines with a colon |
| HttpExchange.LengthExactly | src/transport/HttpClient.cpp:152-155 | the length is the number that the digits of the value spell, modulo 2^32, whatever stands between them |
| HttpExchange.FramingExactly | src/transport/HttpClient.cpp:123-197 | which framing is chosen: chunks if the first Transfer-Encoding, in any spelling, holds chunked in any case, else the first Content-Length, else the close; and exactly when a connection may be used again |
| HttpExchange.AnySpelling | src/transport/HttpClient.cpp:123-197 | a single header in any spelling is enough: a length below 2^32 frames the body, chunked does, and close ends the reuse |
| RequestBuilder.StripCrlf | src/transport/HttpRequestBuilder.cpp:16-24 | no CR and no LF is left, and nothing else is lost |
| RequestBuilder.ToDecimal | src/transport/HttpRequestBuilder.cpp:26-35 | the digits of the number, and they fit the buffer |
| RequestBuilder.LengthRoundTrip | src/transport/HttpClient.cpp:152-155 | the digit loop of the client reads a written length back |
| RequestBuilder.SerializeRequest | src/transport/HttpRequestBuilder.cpp:38-86 | request line, host, headers, framing headers and body in this order, each added only if missing |
| RequestBuilder.HeadEndIsUnambiguous | src/transport/HttpRequestBuilder.cpp:38-86 | for every request, whatever its fields hold, the first blank line on the wire ends the head and exactly the body follows |
| RequestBuilder.HeadersRead | src/transport/HttpRequestBuilder.cpp:51-81 | for every request, parsing the wire head reads exactly the header lines that were written |
| RequestBuilder.HeadersRoundTrip | src/transport/HttpRequestBuilder.cpp:51-81 | without colons in the names these are the headers that were sent, trimmed; clean ones come back unchanged |
| RequestBuilder.AutoLengthIsBodyLength | src/transport/HttpRequestBuilder.cpp:67-74 | where a Content-Length is added, the one that parsing the wire head finds is the length of the body if and only if no header of the caller reads back as another one |
| RequestBuilder.CleanAutoLength | src/transport/HttpRequestBuilder.cpp:67-74 | so it is for clean headers |
| RequestBuilder.SpacedNameMisleads | src/transport/HttpRequestBuilder.cpp:67-74 | a request where it is not: a caller's header whose name ends in a space |
| RequestReading.StrippedExactly | src/transport/HttpRequestBuilder.cpp:16-24 | stripping drops exactly the CRs and LFs and keeps the order of the rest |
| RequestReading.RequestRead | src/transport/HttpRequestBuilder.cpp:38-86 | a server reading the wire gets the method, the path or the root for an empty one, the version and exactly the body, whatever the headers hold |
| RequestReading.HeadersFound | src/transport/HttpRequestBuilder.cpp:51-81 | it finds each header of the caller under its name, and where the caller gave none, in any spelling, the host, keep-alive or close as chosen, and the length of a body that is not framed otherwise |
| HttpExchange.RenderedIsWellFormed | src/transport/HttpClient.cpp:35-68 | any clean response a server writes with a right Content-Length is one the client takes, and is read as what it means |
| HttpExchange.EveryBodyCanBeSent | src/transport/HttpClient.cpp:151-181 | such responses exist for every body within the cap, every final status but 204 and 304, and every spelling of Content-Length |
| HttpExchange.ExchangeIsDetermined | src/transport/HttpClient.cpp:93-181 | reading from a stream that starts with a well-formed response takes exactly that response |
| HttpClientModel.HttpClient.WriteAll | src/transport/HttpClient.cpp:78-91 | a prefix of the bytes goes out, in order, and all of them if and only if it succeeds |
| HeadReading.EveryCutTakes | src/transport/HttpClient.cpp:100-120 | a head is found for every cut of the bytes if and only if its blank line starts at 8189 or before, or is already at hand |
| HeadReading.SomeCutTakes | src/transport/HttpClient.cpp:100-120 | a head is found for some cut if and only if it ends at most one buffer behind byte 8192, or is already at hand |
| HeadReading.OneHeadTwoCuts | src/transport/HttpClient.cpp:100-120 | one head that can be parsed, with a cut that has it found and one that has it refused |
| HttpClientModel.HttpClient.FindHead | src/transport/HttpClient.cpp:100-120 | the loop decides as the function of its reads does; bytes taken and bytes unread are the stream |
| HttpClientModel.HttpClient.ReadHeaders | src/transport/HttpClient.cpp:93-121 | a head that is found is taken exactly if it can be parsed; at most 8192 bytes and one buffer are taken in |
| HttpClientModel.HttpClient.ReadSized | src/transport/HttpClient.cpp:151-181 | the body has the announced length, and body, surplus and unread bytes together are what was there |
| HttpClientModel.HttpClient.ReadChunked | src/transport/HttpClient.cpp:128-149 | the body is the decoding of the bytes taken, within the cap; it is malformed exactly if the decoder refuses these bytes; if nothing times out or breaks and the whole body comes, it is taken |
| HttpClientModel.HttpClient.ReadUntilClose | src/transport/HttpClient.cpp:183-196 | the body is all that came before the close; too large exactly beyond the cap |
| HttpClientModel.HttpClient.ReadBody | src/transport/HttpClient.cpp:123-197 | in all three framings, chosen as `HttpExchange.FramingExactly` says, the body is what the bytes mean, never larger than the cap, and never held beyond cap and one buffer or what was there at the start; on a calm connection every body that is all there and within the cap is taken |
| HttpClientModel.HttpClient.ReadLength | src/transport/HttpClient.cpp:152-155 | the digits of the header value, read in 32 bits |
| HttpClientModel.HttpClient.Open | src/transport/HttpClient.cpp:222-231 | an open connection is used as it is; otherwise one is made to the host and port of the request, and nothing read ahead is left |
| HttpClientModel.HttpClient.SendOnce | src/transport/HttpClient.cpp:217-261 | one attempt on the open connection or a new one; a new one starts without old bytes |
| HttpClientModel.HttpClient.Settle | src/transport/HttpClient.cpp:257-258 | the socket is kept only if the response permits it |
| HttpClientModel.HttpClient.Send | src/transport/HttpClient.cpp:199-215 | section 6.3.1 of RFC 7230: a second attempt, on a new connection, if and only if the socket was found open at first and the first attempt ended without a response byte in a failed write, a close or a malformed head; what each attempt put on the wire and which host it called; a response is one exchange on one connection, framed as `HttpExchange.FramingExactly` says; a timeout only with a clock; the memory bound holds; surplus is kept only behind Content-Length bodies; on a calm connection the end is that foreseen by the next head |
| HttpClientModel.ReplayedWire | src/transport/HttpClient.cpp:206-213 | a repeated request had gone out as a whole if it ended for want of an answer, and as a proper prefix if writing failed; a close inside a body has shown bytes and is not repeated |
| HttpClientModel.FreshAttemptReplays | src/transport/HttpClient.cpp:199-222 | a repeated attempt that had not used the socket again |
| HttpClientModel.SendAll | src/transport/HttpClient.cpp:199-261 | section 6.3.2 of RFC 7230: where nothing times out or breaks, requests on a keep-alive connection all succeed and get exactly the pipelined responses, in order, for any fragmentation, and read-ahead plus unread bytes are the responses not yet returned |
| HttpClientModel.SendEach | src/transport/HttpClient.cpp:199-261 | with any clock and any connection, the requests that succeed on an unreplaced connection get exactly the pipelined responses, in order |
| HttpClientModel.SurplusIsLost | src/transport/HttpClient.cpp:240-246 | a response read ahead behind a bodiless one is lost whenever the request succeeds, and on a calm connection it does |
| HttpClientModel.RenderedWithoutBody | src/transport/HttpClient.cpp:240-242 | every interim response is bodiless, and every 204 and 304, whatever its headers say |
| HttpClientModel.NoContent | src/transport/HttpClient.cpp:240-242 | such a bodiless response |
| HttpClientModel.OversizedHead | src/transport/HttpClient.cpp:156 | the head of a response that is refused as too large, for every cap |
| HttpClientModel.SendAfterFailure | src/transport/HttpClient.cpp:237-245 | after a failure the next request reads on from there, and takes what it finds for its own response; on a calm connection this comes about after a response that is refused as too large |
| HttpClientModel.BodyHoldsResponse | src/transport/HttpClient.cpp:151-181 | a well-formed response whose body ends with another one |
| Connections.Connection.Read | src/transport/IConnection.h:29-31 | any prefix of what is inbound, nothing, or an error |
| Connections.Connection.Write | src/transport/IConnection.h:25-27 | any prefix is accepted, or an error |
| EdgeStoreModel.EdgeStore.SplitLines | src/mcp/EdgeStore.cpp:10-23 | the non-empty lines, in order |
| EdgeStoreModel.EdgeStore.SetPersistence | src/mcp/EdgeStore.cpp:26-37 | the entries the manifest names are loaded until the store is full |
| EdgeStoreModel.EdgeStore.PersistManifest | src/mcp/EdgeStore.cpp:39-49 | the manifest names the durable keys in order, and nothing else in the backend changes |
| EdgeStoreModel.EdgeStore.EvictExpired | src/mcp/EdgeStore.cpp:59-70 | exactly the entries past their 32-bit deadline go, each reported once, in key order |
| EdgeStoreModel.EdgeStore.ValidateAndStore | src/mcp/EdgeStore.cpp:72-81 | stored exactly if key, value and count are within their limits, in the words of `EdgeStoreRuns.AdmissionInWords`; otherwise the map is unchanged |
| EdgeStoreModel.EdgeStore.Set | src/mcp/EdgeStore.cpp:83-99 | the whole new state: RAM, expiry, backend, manifest and hook; `EdgeStoreChanges.SetExactly` says when it is accepted and what is seen then |
| EdgeStoreModel.EdgeStore.SetWithTtl | src/mcp/EdgeStore.cpp:101-115 | the whole new state; a persisted copy is dropped |
| EdgeStoreModel.EdgeStore.Get | src/mcp/EdgeStore.cpp:117-122 | sweeps, then finds the entry |
| EdgeStoreModel.EdgeStore.Has | src/mcp/EdgeStore.h:56-59 | whether the entry is there and not expired, without a sweep |
| EdgeStoreModel.EdgeStore.Remove | src/mcp/EdgeStore.cpp:124-137 | never fails; the whole new state; the manifest key is left alone |
| EdgeStoreModel.EdgeStore.Keys | src/mcp/EdgeStore.cpp:139-146 | the unexpired keys in order |
| EdgeStoreModel.EdgeStore.Size | src/mcp/EdgeStore.cpp:148-154 | how many entries are not expired |
| EdgeStoreSpec.JoinSplit | src/mcp/EdgeStore.cpp:10-49 | splitting a joined list of admissible keys gives the keys back |
| EdgeStoreSpec.LinesExactly | src/mcp/EdgeStore.cpp:10-23 | any text is split line by line, and empty lines count for nothing |
| KeyOrder.BelowExactly | src/mcp/EdgeStore.h:72-73 | the order of the keys is bytewise: at the first difference the smaller byte, or the end, comes first |
| KeyOrder.SortedAscends | src/mcp/EdgeStore.cpp:139-146 | keys are visited once each, in ascending order |
| EdgeStoreRuns.AdmissionInWords | src/mcp/EdgeStore.cpp:72-81 | accepted if and only if the key is not empty, within its limit, free of newlines and not the manifest, the value within its limit, and the key there already or room for one more; InvalidArgument for the key, Capacity for the rest |
| EdgeStoreChanges.SetExactly | src/mcp/EdgeStore.cpp:83-99 | in every state a set is decided by these words over the entries seen at that instant; accepted, exactly its entry is new to what is seen |
| EdgeStoreChanges.SetWithTtlExactly | src/mcp/EdgeStore.cpp:101-115 | the same with a TTL: the entry is seen exactly if the TTL is positive and at most 2^31 ms; without a clock it is refused and nothing changes |
| EdgeStoreChanges.RemoveExactly | src/mcp/EdgeStore.cpp:124-137 | a removal succeeds and takes exactly that entry out of what is seen |
| EdgeStoreChanges.HookTells | src/mcp/EdgeStore.cpp:59-137 | over every run, a listener that knew the keys at the start knows them at the end from the hook alone, and is never told of a removal of a key that was not there |
| EdgeStoreRuns.LoadsFirst | src/mcp/EdgeStore.cpp:33-36 | loading takes the first keys that fit under the cap, and never more |
| EdgeStoreRuns.QueriesAgreeWithGet | src/mcp/EdgeStore.cpp:117-154 | queries that do not sweep report what a sweeping get finds at the same instant, and a get does not change what they report |
| EdgeStoreRuns.StepKeepsWell | src/mcp/EdgeStore.cpp:83-137 | every operation keeps the limits, and keeps the backend a mirror of the durable entries with a manifest naming them |
| EdgeStoreRuns.RestartLoadsDurable | src/mcp/EdgeStore.cpp:26-37 | a fresh store on such a backend loads exactly the durable entries |
| EdgeStoreRuns.RestartRefinement | src/mcp/EdgeStore.cpp:26-137 | after any run from an empty store, the backend holds exactly the entries without a deadline and a manifest naming them, and a restart loads exactly these |
| EdgeStoreRuns.ExpiredExact | src/mcp/EdgeStore.cpp:51-57 | within half a period of the deadline the wrapping comparison tells the truth |
| EdgeStoreRuns.UnsweptComesBack | src/mcp/EdgeStore.cpp:51-57 | an entry never swept shows as expired in exactly every other half period |
| EdgeStoreRuns.FreshTtlExactly | src/mcp/EdgeStore.cpp:51-57 | an entry just set is live exactly if its TTL is positive and at most 2^31 ms |
| EdgeStoreRuns.StepRefines | src/mcp/EdgeStore.cpp:51-154 | one operation of the store is one of an ideal store with an unbounded clock |
| EdgeStoreRuns.EmptyRelated | src/mcp/EdgeStore.h:72-79 | an empty store with a clock and the ideal one start out alike, at any time |
| EdgeStoreRuns.TtlRefinement | src/mcp/EdgeStore.cpp:51-154 | over every run with TTLs of at most 2^31 ms and timely sweeps, all answers are those of the ideal store |
| EepromCodec.EncodeKv | src/hal/EepromCodec.cpp:21-48 | succeeds exactly if the field limits hold and the blob fits; the output is the blob or empty |
| EepromCodec.DecodeKv | src/hal/EepromCodec.cpp:50-75 | the entries of the blob; the cursor never leaves it; on failure, the entries before the defect |
| EepromCodec.ReadEntry | src/hal/EepromCodec.cpp:62-71 | one entry exactly if all of it is there, and the cursor stays in the data |
| EepromCodec.CodecInverse | src/hal/EepromCodec.cpp:21-75 | decoding the encoding of any store, followed by anything, gives that store |
| EepromCodec.TruncationRejected | src/hal/EepromCodec.cpp:50-75 | every proper prefix of an encoding is rejected |
| EepromCodec.FailureLeavesNothingExactly | src/hal/EepromCodec.cpp:51-73 | a failed decoding leaves nothing exactly if it failed before the first entry |
| EepromCodec.DefectLeavesEntry | src/hal/EepromCodec.cpp:61-73 | a blob that announces two entries and holds one fails and leaves that one |
| EepromCodec.ForeignRejected | src/hal/EepromCodec.cpp:52-57 | a blob that is shorter than a header, or does not begin with the magic and version 1, is no store |
| EepromCodec.OneEntryLayout | src/hal/EepromCodec.cpp:12-48 | the bytes of a store with one entry, counts and lengths low byte first |
| EepromStoreModel.EepromSecretStore.CapacityBytes | src/hal/EepromSecretStore.cpp:18-22 | never more than the hardware has |
| EepromStoreModel.EepromSecretStore.WriteBlob | src/hal/EepromSecretStore.cpp:24-31 | the front of the cells is the blob, the rest is as before |
| EepromStoreModel.EepromSecretStore.Begin | src/hal/EepromSecretStore.cpp:33-41 | loads what the cells decode to and writes nothing |
| EepromStoreModel.EepromSecretStore.Set | src/hal/EepromSecretStore.cpp:43-52 | RAM and cells change together, or neither does; accepted, both hold the old entries with the new one |
| EepromStoreModel.EepromSecretStore.Get | src/hal/EepromSecretStore.cpp:54-58 | the value, or that there is none |
| EepromStoreModel.EepromSecretStore.Remove | src/hal/EepromSecretStore.cpp:62-71 | RAM and cells change together; a missing key is no error |
| EepromStoreModel.EepromSecretStore.Clear | src/hal/EepromSecretStore.cpp:73-79 | always Ok: RAM is empty, and so is whatever is read from the cells |
| EepromStoreModel.DecodedFits | src/hal/EepromSecretStore.cpp:33-41 | whatever the cells hold, what is loaded from them can be written back into them |
| EepromStoreModel.RemoveNeverFails | src/hal/EepromSecretStore.cpp:62-71 | in every reachable state a removal succeeds |
| EepromStoreModel.RefusedExactly | src/hal/EepromSecretStore.cpp:43-79 | only a set whose result does not fit is refused for capacity, and a refusal changes neither RAM nor EEPROM |
| EepromStoreModel.ClearErases | src/hal/EepromSecretStore.cpp:73-79 | for every device and capacity, after a clear RAM is empty and the cells decode to nothing |
| EepromStoreModel.SetStores | src/hal/EepromSecretStore.cpp:43-52 | for every device and capacity, after an accepted set RAM and the decoded cells are the old entries with the new one; a refused one changes nothing |
| EepromStoreModel.RemoveStores | src/hal/EepromSecretStore.cpp:62-71 | after a removal RAM and the decoded cells are the old entries without it |
| EepromStoreModel.StepKeepsSynced | src/hal/EepromSecretStore.cpp:33-79 | every operation keeps RAM equal to what the cells decode to |
| EepromStoreModel.RebootRefinement | src/hal/EepromSecretStore.cpp:33-79 | after any run on any cells of any capacity, a reboot changes nothing, whatever stale bytes lie behind the blob |
| EepromRuns.FitsExactly | src/hal/EepromCodec.cpp:21-48 | a store fits if and only if it has at most 65535 entries, keys of at most 255 and values of at most 65535 bytes, and seven bytes and three more per entry than its keys and values are within the capacity |
| EepromRuns.MapRefinement | src/hal/EepromSecretStore.cpp:33-79 | begun on any cells, every run with reboots anywhere in it answers as a plain map that refuses what does not fit, and a begin after it loads exactly that map |
| EepromStoreModel.EmptyFitsExactly | src/hal/EepromSecretStore.cpp:73-79 | an empty store fits if and only if there are seven bytes |
| EepromStoreModel.TinyNeverStores | src/hal/EepromSecretStore.cpp:33-79 | with fewer, no run changes a cell, and the store stays empty once it has begun |
| SchemaUtil.WriteParamSchema | src/tools/SchemaUtil.cpp:9-31 | the schema of one field, written into the object given |
| SchemaUtil.WriteObjectSchema | src/tools/SchemaUtil.cpp:34-55 | the schema of an object, written into the object given |
| SchemaMeaning.ObjectKeywords | src/tools/SchemaUtil.cpp:34-55 | each keyword of an object schema, by lookup, whatever was in the object before |
| SchemaMeaning.KeywordNames | src/tools/SchemaUtil.cpp:34-55 | the same by the names of JSON Schema: type, properties, required, additionalProperties |
| SchemaMeaning.FieldKeywordNames | src/tools/SchemaUtil.cpp:9-16 | a field is written with its type, its description if it has one, and its enumeration |
| SchemaMeaning.DescriptionKept | src/tools/SchemaUtil.cpp:11 | whatever is nested in a field, its schema carries its description, or none if that is empty |
| SchemaMeaning.ObjectMeaning | src/tools/SchemaUtil.cpp:34-55 | sections 6.1.1, 6.1.2 and 6.5.3 of JSON Schema Validation 2020-12: a value satisfies the emitted schema exactly if it is an object that meets every field |
| SchemaMeaning.ParamMeaning | src/tools/SchemaUtil.cpp:9-31 | the same for the schema of one field |
| SchemaMeaning.FieldsAgree | src/tools/SchemaUtil.cpp:66-127 | through all levels of nesting, how acceptance, satisfaction and the three exceptions go together |
| SchemaMeaning.ValidatorMeansSchema | src/tools/SchemaUtil.cpp:9-127 | for every field tree and every object: an accepted object satisfies the emitted schema if and only if it has no null on an optional field and its enumerated strings read the same up to a NUL; one that satisfies it is accepted if and only if its integers are stored as 32-bit ones and its strings read the same |
| SchemaMeaning.TailsByNul | src/tools/SchemaUtil.cpp:102-113 | which strings read the same: all without a NUL, and with NUL-free enumerations those that are not enumerated up to it |
| SchemaMeaning.StrictExactly | src/tools/SchemaUtil.cpp:52-54 | the stricter form is the plain one without undeclared members, at every level |
| SchemaMeaning.StrictImpliesAccepted | src/tools/SchemaUtil.cpp:34-127 | for every tree and object, one that satisfies the stricter form is accepted exactly under the conditions above, and an accepted one satisfies it exactly if it also has no undeclared member at any level |
| SchemaMeaning.StrictCompatibleExactly | src/tools/SchemaUtil.cpp:57-63 | all fields are required, nested ones included, exactly if every emitted object schema requires all of its properties |
| SchemaMeaning.NonObjectAccepted | src/tools/SchemaUtil.cpp:130-139 | text that is empty or not an object is accepted exactly if nothing is required, though it never satisfies the schema |
| SchemaMeaning.DocumentsExactly | src/tools/SchemaUtil.cpp:130-139 | malformed text is refused, an object is accepted exactly if its fields are valid; integers are those from -2147483648 to 2147483647 |
| SchemaMeaning.NullPasses | src/tools/SchemaUtil.cpp:91-94 | an input that is accepted but does not satisfy the schema: null for an optional field |
| SchemaMeaning.WholeRealRefused | src/tools/SchemaUtil.cpp:70-73 | an input that satisfies the schema but is refused: 2.0 for an integer |
| SchemaMeaning.HiddenTailPasses | src/tools/SchemaUtil.cpp:102-113 | an input that is accepted but does not satisfy the schema: an enumerated word with a NUL and more behind it |
| SchemaMeaning.EnumeratedNulRefused | src/tools/SchemaUtil.cpp:102-113 | an input that satisfies the schema but is refused: an enumerated word with a NUL in it |
| Backoff.ParseRetryAfterMs | src/llm/LLMClient.cpp:48-56 | the digit loop with its early exit, for every string, in closed form |
| Backoff.RetryAfterExactly | src/llm/LLMClient.cpp:48-56 | the milliseconds are right if and only if there are at most 4,294,967 seconds |
| Backoff.RetryAfterWraps | src/llm/LLMClient.cpp:48-56 | one second more is read as 704 ms |
| Backoff.HonouredExactly | src/llm/LLMClient.cpp:103-126 | for which numbers of seconds the wait is min(1000 * s, max) whatever the generator state: all from 1 to 4,294,967, and which larger ones |
| Backoff.ZeroIsNoHeader | src/llm/LLMClient.cpp:109-112 | zero seconds, and what is no number, leave the wait to the backoff |
| Backoff.ClosedFormExactly | src/llm/LLMClient.cpp:114-117 | the 32-bit doubling loop is min(initial * 2^n, max) for all initial and n if and only if max is at most 2^31 |
| Backoff.DoublingWraps | src/llm/LLMClient.cpp:114-117 | above that ceiling, doubling 2^31 gives no wait at all |
| Backoff.BackoffExactly | src/llm/LLMClient.cpp:103-126 | without header and jitter the wait is min(initial * 2^attempt, max) for every policy with that max, every attempt and every state, if and only if max is at most 2^31 |
| Backoff.WaitInWords | src/llm/LLMClient.cpp:103-126 | up to that ceiling: as long as the header asks for and the ceiling allows, else the closed form, with jitter no less than half of it |
| Backoff.FirstValues | src/llm/LLMClient.cpp:121 | the first two values of the generator from zero |
| Backoff.JitterIsOnto | src/llm/LLMClient.cpp:121 | the generator reaches every 32-bit value |
| Backoff.JitterRange | src/llm/LLMClient.cpp:118-124 | the jittered waits are exactly the numbers from half the backoff to all of it |
| Backoff.WaitsExactly | src/llm/LLMClient.cpp:103-126 | which waits are possible at all, over all generator states |
| LlmClientModel.LlmClient.BackoffFor | src/llm/LLMClient.cpp:103-126 | the wait and the new generator state |
| LlmClientModel.LlmClient.Exponential | src/llm/LLMClient.cpp:114-117 | the doubling loop with its ceiling |
| LlmRetry.AttemptsExactly | src/llm/LLMClient.cpp:131-173 | without a budget stop, requests go out until the first that is not to be retried, at most one more than the retries allowed |
| LlmRetry.RetriedExactly | src/llm/LLMClient.cpp:25-44 | an attempt is retried if and only if a retry is left and it failed in connecting, resolving, the TLS handshake, reading, writing, by a close or a timeout, or was answered with 429, 500, 502, 503 or 504 |
| LlmRetry.WaitedExactly | src/llm/LLMClient.cpp:103-126 | each retry is waited for as long as the first Retry-After of the response asks, in any spelling of that name, as far as the ceiling allows; else by the closed form for its attempt |
| LlmRetry.ErrorTellsStatus | src/llm/LLMClient.cpp:176-191 | each of 400, 401, 403, 404 and 429 has an error of its own, and every other status is a provider error |
| LlmRetry.TrafficBounded | src/llm/LLMClient.cpp:128-174 | requests that are carried as built are sent at most maxRetries + 1 times each |
| LlmRetry.SentWasBuilt | src/llm/LLMClient.cpp:193-246 | in such traffic every attempt carries a request that was built |
| LlmRetry.WaitsBounded | src/llm/LLMClient.cpp:165-172 | the waits of one call sum to at most maxRetries * maxBackoffMs |
| LlmRetry.RequestsMatchRetries | src/llm/LLMClient.cpp:128-174 | a call adds equally to requests and retries, plus one request unless the budget ended it, and one error at most |
| LlmClientModel.LlmClient.SendWithRetry | src/llm/LLMClient.cpp:128-174 | which attempts are made, with which waits, what is returned and every counter; the caps of the meter stay kept |
| LlmClientModel.LlmClient.Fetch | src/llm/LLMClient.cpp:205-221 | every attempt carries the request given, by one run of the retry loop; a response is handed on exactly if the last attempt was answered with 200 to 299; every failure has its cause on record; books stay balanced |
| LlmClientModel.LlmClient.Read | src/llm/LLMClient.cpp:223-234 | tokens are counted once in metrics and meter, exactly for responses that could be read |
| LlmClientModel.LlmClient.DoGenerate | src/llm/LLMClient.cpp:193-246 | success is a validated text from a 2xx response to the request built last; all earlier readings were rejected; failure comes only after the retries are used up, or without a response; what is sent is, in order, one run of the retry loop for each request built, every attempt carrying it; schema retries and sends are bounded and counted |
| LlmClientModel.LlmClient.AskForTools | src/llm/LLMClient.cpp:324-347 | one model turn: the attempts carry the one request built; with its cause of failure, counted |
| LlmClientModel.LlmClient.CallTools | src/llm/LLMClient.cpp:354-365 | each call is dispatched once, in order; on the working list follow the turn with its text and calls and, under the id and name of each call, the content and error flag the tool returned, or the failure in words marked as an error |
| LlmClientModel.RoundTold | src/llm/Message.h:62-69 | the messages of a round say what was read and what came of every call, field by field |
| LlmClientModel.LlmClient.ToolRounds | src/llm/LLMClient.cpp:321-366 | rounds go on until the model settles, a round fails, or the cap is reached; each request is built from the transcript so far, and what is sent is, in order, a run of the retry loop for each, carrying it |
| LlmClientModel.LlmClient.RunImpl | src/llm/LLMClient.cpp:313-375 | at most (maxIterations + structuredRetries + 1) * (maxRetries + 1) attempts, first runs for the tool requests and then runs for the final ones, each attempt carrying the request built for it; all counters and the meter balanced, the caps kept; the final answer is asked for with the flattened transcript, and only after the model asked for no more tools |
| UsageMeterModel.UsageMeter.AllowRequest | src/llm/UsageMeter.h:27-31 | allowed exactly while no cap is exhausted |
| UsageMeterModel.AllowedExactly | src/llm/UsageMeter.h:23-39 | a new meter allows a sequence of requests if and only if they are no more than the request cap and the tokens before the last one were below the token cap |
| UsageMeterModel.UsageMeter.RecordTokens | src/llm/UsageMeter.h:34-37 | both sums grow, and nothing else |
| Transcript.WorkingWellFormed | src/llm/LLMClient.cpp:354-365 | the working list is the initial list and then rounds: an assistant turn with calls, then one matching result per call, in order |
| Transcript.FlattenForStructured | src/llm/LLMClient.cpp:290-303 | the flattened list |
| Transcript.FlatteningKeeps | src/llm/LLMClient.cpp:290-303 | flattening keeps length, order and every text, leaves no tool protocol, and changes a list exactly if there was some |
| AnthropicGrouping.GroupMessages | src/llm/providers/AnthropicProvider.cpp:134-189 | the nested index loops compute the grouping |
| AnthropicGrouping.GroupingKeepsEverything | src/llm/providers/AnthropicProvider.cpp:134-189 | reading the turns gives back every message but the system ones, in order |
| AnthropicGrouping.RoundsGrouped | src/llm/providers/AnthropicProvider.cpp:143-159 | whatever the initial list, each round adds two turns behind it: the calls, and one user turn with exactly their results, in order |
| AnthropicGrouping.RoundsAnsweredAtOnce | src/llm/providers/AnthropicProvider.cpp:143-159 | after any rounds, each turn with calls is followed by one user turn with exactly their results if and only if that held of the initial list |
| AnthropicGrouping.ResultsShareATurn | src/llm/providers/AnthropicProvider.cpp:143-159 | for every list, no two turns of results stand side by side if and only if no two results are kept apart by system messages alone |
| AnthropicGrouping.SystemMessageSplits | src/llm/providers/AnthropicProvider.cpp:139-142 | a system message between two results splits them |
| AgentTranscripts.EveryTranscriptWellFormed | src/llm/LLMClient.cpp:321-366 | every list the provider saw in the loop is the initial list and well-formed rounds; in its Anthropic form the turns of the rounds, each answered at once, follow those of the initial list, whatever that is |
| AgentTranscripts.TranscriptsGrow | src/llm/LLMClient.cpp:354-365 | the first list is the initial one; each later one is the one before, the turn that was read with its text and calls, and one message per call with what its tool returned or why it failed |
| AgentTranscripts.FinalTranscriptFlat | src/llm/LLMClient.cpp:374 | the final requests are the flattened transcript, message by message: a tool result becomes a user text that names the tool, a request for tools its text or a remark, and everything else is unchanged |

## Left out

- HttpClientModel.HttpClient.Send: reads and writes make no progress only finitely often, so that the loops end without a clock; with a clock any reading of it may come, so a timeout may strike at any idle turn; the status code and the header list are unbounded.
- HttpClientModel.SendAll: pairing of pipelined responses is stated for Content-Length responses with a head of at most 8192 bytes, since the code drops surplus behind others (`HttpClientModel.SurplusIsLost`) and takes longer heads for some cuts only (`HeadReading.OneHeadTwoCuts`). A failed exchange is not followed by a claim (`HttpClientModel.SendAfterFailure`).
- EdgeStoreModel.EdgeStore.Set: the backend never fails and the clock stands still during one operation; the change hook is a log, so a hook that calls back into the store is not modelled.
- EepromStoreModel.EepromSecretStore.WriteBlob: the commit of flash-emulated EEPROM and torn writes.
- SchemaUtil.WriteParamSchema: a `JsonObject` filled in place is passed in and handed back as a value; running out of memory and the JSON text itself are not modelled.
- SchemaMeaning.NonObjectAccepted: JSON parsing is one of three results given from outside.
- LlmClientModel.LlmClient.SendWithRetry: counters do not wrap; latency metrics and log lines are left out; whether a wait really sleeps is up to the delay function.
- LlmClientModel.LlmClient.DoGenerate: the schema check is any predicate on the text; chat options and extra headers do not influence control flow and are left out.
- AnthropicGrouping.GroupMessages: the JSON form of a block, in particular of call arguments and images, is kept as data.
- In-out reference parameters are passed in and returned as values: the output strings and flags of `feed`, the response of `send`, the output of `decodeKv`.
- Caps, capacity, policy and clock presence do not change during a run; the setters are left out.
- `Logger::log`: a secret such as "INFO" is still in the level tag it puts before the redacted message.
- `HttpClient::sendStream`: unused by the LLM client. `HttpRequest::setHeader`: requests are given with their headers.
- `SseParser` with no handler: events are dropped, the state is the same.
- Opening and closing the connection around `generate` and `run`.
- The other providers, the MCP server and its registries, provisioning, URL guard, TLS trust and device glue.
