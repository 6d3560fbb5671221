# genaryx connectors: a verified model

This project models the parts of the genaryx connectors where bytes, text or a
peer's behaviour must be turned into one exact meaning, and proves that they are.
Everything is Dafny 4.11; `dafny verify dfyconfig.toml` checks all of it.

| files | what they model |
|---|---|
| `SseSpec`, `SseDecoder`, `SseProperties`, `Utf8Lossy`, `SseStandard` | the server-sent-event decoder: a two-pass reading of the whole stream (lines, then blocks of fields), the incremental class, and the proofs that chunking is invisible, that the class computes the reading, that written events come back, and exactly when the events are the HTML Standard's |
| `CloudSse` | the live stream connector as a state machine: worker, network, stop signal and `poll` interleave step by step |
| `Json`, `ToolResult`, `McpSession`, `McpStdio` | the MCP client over stdin and stdout: the session against an arbitrary server, and the tool-result envelope |
| `Percent`, `UrlStandard`, `CloudRest` | the two percent-encoders, the path parser of the WHATWG URL Standard, and sign-then-send |
| `Decimal`, `Money`, `Savings`, `SavingsReport`, `Table`, `CostRows` | the text parsers for the TokenFuse command line, with the printers they undo |
| `WgConfig`, `WgTunnel` | the WireGuard configuration text under its receiver's semantics, and who owns the tunnel children |
| `Ssh` | shell quoting under the POSIX Shell Command Language |
| `Manifest` | the epoch log of the screenshot campaign |
| `Wrappers`, `Text`, `Bytes` | options and results, the string operations of Rust's standard library, bytes and UTF-8 |

How to read it: a class or a method with a loop follows the source's control
flow and is proved equal to a specification function; the lemmas are about those
functions. The UTF-8 decoder is a parameter of the event decoder, so its theorems
hold for any; `Utf8Lossy` then supplies Rust's lossy decoder. Parsing one line of
JSON is a parameter of the MCP session.

Where a property is not true of the code, the exact condition is proved:

- An amount overflows when its integer part fits an i64 and its value in millionths
  does not (`Money.MoneyIsExact`, example `Money.WholeDollarsOverflow`).
- A tool value `{"result": x}` with `x` not an object comes back as `x`
  (`ToolResult.EnvelopeRoundTrip`, example `ToolResult.LookalikeIsUnwrapped`).
- What a base URL holds after its authority can change the path that is sent: all
  mutations are sent as signed if and only if it holds no `?` or `#` and its own
  segments cancel out (`CloudRest.BasePathBreaksSigning`, examples
  `CloudRest.DotIsHarmless` and `CloudRest.SlashAndQueryHarm`).
- Two closed epochs can both cover a time unless more than ten seconds lie between
  them (`Manifest.UnambiguousIffSpaced`, example `Manifest.CloseEpochsOverlap`).
- Without a retry budget the u32 attempt counter wraps, and the wait after k
  eventless attempts is that of k modulo 2^32 (`CloudSse.ReconnectIsExact`). Exactly
  when that differs from the intended wait is `CloudSse.WrappedWait`; a run that gets
  there is `CloudSse.WrapIsReached`. A checked build would panic there.
- A cost per tool call is right if and only if the call count fits an i64 or the cost
  is smaller than 2^64 minus the count (`CostRows.RatioIsExact`, examples
  `CostRows.RatioFlipsPastI64`).
- Against sections 9.2.5 and 9.2.6 of the HTML Standard: an empty `event:` value
  yields a type that is present and empty, where the Standard falls back to the
  default type; a CR that ends the stream is held back, and with it the blank line
  it should end. For streams without a leading byte order mark, the events are the
  Standard's if and only if no event's block ends on an empty type and no held-back
  blank line closes a block with data (`SseStandard.DecoderMeetsStandard`, examples
  `SseStandard.EmptyTypeIsKept` and `SseStandard.LastCrLosesEvent`). A leading mark,
  which the Standard removes, makes the decoder ignore the first line
  (`SseStandard.BomHidesFirstLine`, example `SseStandard.BomLosesEvent`).
- An event id that is no legal header value ends the stream: no request can carry
  it, so nothing is ever connected or forwarded again
  (`CloudSse.UnsendableIdEndsStream`).

One property needs an assumption about the peer: a call returns the first line of
the whole stream with its id as long as the server uses no id before its request
(`McpSession.FirstInStream`; `McpSession.EarlyAnswerIsMissed` is a stream that does).

## Model

| member | source | states |
|---|---|---|
| SseSpec.ReadingIsUnique | crates/connectors/src/sse_decoder.rs:79-105 | however a stream is cut into LF, CRLF or CR terminated lines, with a trailing lone CR undecided, there is only one result: that of pass 1 |
| SseSpec.SplitIsReading | crates/connectors/src/sse_decoder.rs:79-105 | every stream has such a reading: nothing added, nothing lost |
| SseDecoder.FindLineEnd | crates/connectors/src/sse_decoder.rs:82-105 | the scan finds a terminator-free line and a non-empty legal terminator, and says incomplete or undecided exactly when the buffer is |
| SseDecoder.SseDecoder.Feed | crates/connectors/src/sse_decoder.rs:124-140 | one feed, drained line by line and terminating, does what splitting buffer and chunk in one pass and interpreting the lines in a second does |
| SseDecoder.SseDecoder.ProcessLine | crates/connectors/src/sse_decoder.rs:146-181 | one line changes the pending event as its classified field does |
| SseDecoder.SseDecoder.Dispatch | crates/connectors/src/sse_decoder.rs:186-202 | a blank line resets the event and emits it only when there is data, without the last newline |
| SseProperties.ClassifyForms | crates/connectors/src/sse_decoder.rs:150-162 | what follows the colon is the value, as it stands when it does not begin with a space and without that one space otherwise; a bare name has an empty value; a colon first is a comment |
| SseProperties.FieldNames | crates/connectors/src/sse_decoder.rs:163-181 | data, event and id are the fields; an id with a NUL and any other name mean nothing |
| SseProperties.ResidualBuffer | crates/connectors/src/sse_decoder.rs:46-51 | after any feed from any state the buffer holds no LF, and CR only as its last byte |
| SseProperties.FeedTwice | crates/connectors/src/sse_decoder.rs:118-140 | two feeds equal one feed of the concatenation, events and state |
| SseProperties.ChunkingDoesNotMatter | crates/connectors/src/sse_decoder.rs:118-140 | any list of chunks, from any state, yields the events and final state of their concatenation |
| SseProperties.InterpretRefinesBlocks | crates/connectors/src/sse_decoder.rs:142-202 | running the field state machine over any fields gives the events of the block-wise reading: joined data, own type, sticky id |
| SseProperties.DecoderRefinesBatch | crates/connectors/src/sse_decoder.rs:107-202 | a fresh decoder fed in any chunks emits exactly the batch reading of all bytes; buffer and last id are the batch ones |
| SseProperties.WriteThenDecode | crates/connectors/src/sse_decoder.rs:146-202 | events written as lines, with or without the space after a colon, ended by LF or CRLF, mixed at will, and chunked anywhere, decode to themselves under the sticky-id rule |
| Utf8Lossy.FirstOfUtf8 | crates/connectors/src/sse_decoder.rs:131 | a character's UTF-8 bytes decode to it, whatever follows |
| Utf8Lossy.FirstOfAny | crates/connectors/src/sse_decoder.rs:131 | of any bytes: the character they begin with, or U+FFFD for the longest part that still begins some character, at least one byte |
| Utf8Lossy.LossyUndoesUtf8 | crates/connectors/src/sse_decoder.rs:131 | lossy decoding is exact on well-formed UTF-8 |
| Utf8Lossy.WrittenEventsDecode | crates/connectors/src/sse_decoder.rs:118-202 | the round trip with the lossy decoder in place, no assumption left |
| SseStandard.FinalReadingIsUnique | crates/connectors/src/sse_decoder.rs:79-105 | the lines the Standard sees in a finished stream, where a CR at the very end has ended a line, are those of pass 1 and at most one more |
| SseStandard.DecoderMeetsStandard | crates/connectors/src/sse_decoder.rs:82-202 | without a leading byte order mark and in any chunks: the events are the Standard's but for empty types and at most one last event lost to a final CR, and exactly those if and only if no event's block has an empty last `event:` value and no event is lost |
| SseStandard.BomHidesFirstLine | crates/connectors/src/sse_decoder.rs:107-181 | with a leading byte order mark, in any chunks, the events are those of the unmarked stream with its first line ignored |
| SseStandard.LossyKeepsMark | crates/connectors/src/sse_decoder.rs:131 | the lossy decoder keeps the mark, as that needs |
| SseStandard.EmptyTypeIsKept | crates/connectors/src/sse_decoder.rs:164-202 | `event:`, a `data:` field and a blank line decode to an event with an empty type |
| SseStandard.LastCrLosesEvent | crates/connectors/src/sse_decoder.rs:82-105 | a `data:` field and two CRs decode to nothing, where the Standard has an event |
| SseStandard.BomLosesEvent | crates/connectors/src/sse_decoder.rs:150-181 | so do a byte order mark, a `data:` field and a blank line |
| SseStandard.StreamsExist | crates/connectors/src/sse_decoder.rs:131 | with the lossy decoder, `event:` and `data: x` make all three streams |
| CloudSse.BackoffIsExact | crates/connectors/src/cloud_sse.rs:107-121 | the wait is min(cap, initial * 2^min(k-1, 31)) despite saturation, never shrinks and never passes the cap |
| CloudSse.Drain | crates/connectors/src/cloud_sse.rs:191-213 | an uninterrupted poll empties the queue and returns all of it, or the error when there is nothing and the worker has ended |
| CloudSse.ChunkKeepsDelivery | crates/connectors/src/cloud_sse.rs:368-390 | reading a chunk keeps forwarded plus pending equal to the batch reading of all connections |
| CloudSse.TryRecvKeepsDelivery | crates/connectors/src/cloud_sse.rs:191-213 | one try_recv moves, returns or reports without losing a record |
| CloudSse.DeliveryHolds | crates/connectors/src/cloud_sse.rs:191-407 | the delivery invariant holds after every run |
| CloudSse.DeliveredInOrder | crates/connectors/src/cloud_sse.rs:191-407 | over all interleavings, what poll returned is a prefix of the batch-decoded data of every connection in order; delivered, in hand, queued and pending make up exactly all of it while the handle lives; Err only after the worker ended and everything was delivered |
| CloudSse.ReconnectHolds | crates/connectors/src/cloud_sse.rs:249-303 | the loop variables agree with the record of the run after every run |
| CloudSse.ReconnectIsExact | crates/connectors/src/cloud_sse.rs:249-303 | each attempt waited for the backoff of the eventless streak before it and its request carries the id of the latest forwarded event over all connections; giving up happens exactly at the budget |
| CloudSse.StopStays | crates/connectors/src/cloud_sse.rs:216-222 | stopping and dropping set the signal, and no step clears it |
| CloudSse.StopEndsWorker | crates/connectors/src/cloud_sse.rs:264-268 | between attempts a stopped worker can only end, and one that waits, connects or reads may end at once |
| CloudSse.StopIsFinal | crates/connectors/src/cloud_sse.rs:264-345 | after a stop every continuation makes no attempt but the one that a wait under way may still lead to |
| CloudSse.DropIsFinal | crates/connectors/src/cloud_sse.rs:370-384 | after a drop nothing is forwarded, queued or returned any more |
| CloudSse.OnlySendableAttempts | crates/connectors/src/cloud_sse.rs:320-350 | only an attempt whose id is a legal header value produces events |
| CloudSse.UnsendableIdEndsStream | crates/connectors/src/cloud_sse.rs:262-350 | once the latest forwarded id is none and its connection is over, every continuation makes no connection and forwards nothing, and all its attempts carry that id in vain |
| CloudSse.WaitsInAStreak | crates/connectors/src/cloud_sse.rs:262-301 | with a budget, or below 2^32 eventless attempts, the wait after k of them is min(cap, initial * 2^min(k-1, 31)), and k stays below any budget |
| CloudSse.WrappedWait | crates/connectors/src/cloud_sse.rs:107-121 | the wait for k modulo 2^32 is the intended one if and only if the counter has not wrapped, or is back at 32 or more, or there is nothing to double, or the cap is no more than the doublings left |
| CloudSse.EveryStreakIsReached | crates/connectors/src/cloud_sse.rs:249-303 | without a budget, for every k some run makes an attempt right after k eventless ones, waiting for k modulo 2^32 |
| CloudSse.WrapIsReached | crates/connectors/src/cloud_sse.rs:249-303 | some run's attempt after 2^32 eventless ones does not wait at all |
| ToolResult.UnwrapWrap | crates/connectors/src/mcp_stdio.rs:196-212 | unwrapping undoes wrapping if and only if the value is not itself an object with the one key `result` and no object under it |
| ToolResult.EnvelopeRoundTrip | crates/connectors/src/mcp_stdio.rs:135-212 | the same through structuredContent, and through text when that is absent or null |
| ToolResult.ErrorAlwaysWins | crates/connectors/src/mcp_stdio.rs:139-162 | any result is a tool error exactly when it raises isError, whatever else it carries, with its text or a fixed message |
| ToolResult.TextResult | crates/connectors/src/mcp_stdio.rs:139-194 | without structured content: the texts of all blocks joined by newlines, read as JSON, or as a string when they are none, or a protocol error when there is no text |
| ToolResult.LookalikeIsUnwrapped | crates/connectors/src/mcp_stdio.rs:203-212 | the smallest value for which the round trip fails |
| McpSession.FirstStop | crates/connectors/src/mcp_stdio.rs:380-406 | a wait ends at the first item that is neither blank, nor a notification, nor another id |
| McpSession.WaitEnds | crates/connectors/src/mcp_stdio.rs:384-406 | a timeout, a closed channel, a line that is not JSON and the answer end a wait, each with its own outcome; blank lines and other ids do not |
| McpSession.ExchangeMeans | crates/connectors/src/mcp_stdio.rs:330-357 | a failed write reads nothing; otherwise exactly up to the item that ends the wait |
| McpSession.AnswerReported | crates/connectors/src/mcp_stdio.rs:330-357 | what an answer means to its caller: an `error` as its code and message, a missing result, a listing's `tools`, a tool's value |
| McpSession.ExchangeTakesOwnAnswer | crates/connectors/src/mcp_stdio.rs:345-406 | one call consumes up to its answer, which is the first line of its stretch with its id |
| McpSession.CallsTakeOwnAnswers | crates/connectors/src/mcp_stdio.rs:330-406 | over whole sessions, with any server and any timeouts: consecutive ids, consecutive stretches, each success answers its own id |
| McpSession.LateAnswerIsDiscarded | crates/connectors/src/mcp_stdio.rs:380-406 | a late answer to an earlier call is never returned by a later one |
| McpSession.FirstInStream | crates/connectors/src/mcp_stdio.rs:380-406 | as long as the server uses no id before its request, every successful call returns the first line of the whole stream with its id |
| McpSession.SessionFirstInStream | crates/connectors/src/mcp_stdio.rs:308-406 | the same for a whole session, handshake included |
| McpSession.EarlyAnswerIsMissed | crates/connectors/src/mcp_stdio.rs:380-406 | a stream in which id 1 is used too early: its call returns a later line |
| McpSession.CallsSendAscending | crates/connectors/src/mcp_stdio.rs:330-378 | the requests of a session carry strictly increasing ids |
| McpSession.HandshakeMeans | crates/connectors/src/mcp_stdio.rs:308-328 | a handshake works exactly when both writes do and the answer comes, and returns the server's `result`, or null |
| McpSession.CallsDeliver | crates/connectors/src/mcp_stdio.rs:330-378 | the calls of a session send exactly their requests, message by message, but for failed writes |
| McpSession.WireOrder | crates/connectors/src/mcp_stdio.rs:308-378 | on the wire, word by word, `initialize` with id 0 comes first, then the initialized notification, then the requests with ids from 1; a failed handshake sends nothing more |
| McpStdio.McpStdioClient.DoHandshake | crates/connectors/src/mcp_stdio.rs:308-328 | the class's handshake is the specified one, and keeps the server's `result`, or null |
| McpStdio.McpStdioClient.Call | crates/connectors/src/mcp_stdio.rs:330-357 | a call is the specified exchange; it returns the answer's error, the tool's value, or for a listing the raw `tools` |
| McpStdio.McpStdioClient.RecvResponse | crates/connectors/src/mcp_stdio.rs:384-406 | the reading loop stops at the specified item, terminates, and consumes no more |
| Percent.DecodeEncode | crates/connectors/src/urlpath.rs:96-107 | decoding undoes encoding, for any literal set without the percent sign |
| Percent.EncodeInjective | crates/connectors/src/urlpath.rs:96-107 | different bytes encode differently |
| Percent.EncodeIsWellEncoded | crates/connectors/src/urlpath.rs:97-106 | only literal bytes and uppercase escapes of non-literal ones are emitted |
| Percent.EncodeIsIdentity | crates/connectors/src/urlpath.rs:83-88 | encoding changes nothing exactly when every byte is literal |
| Percent.PathSegment | crates/connectors/src/urlpath.rs:83-108 | empty, `.` and `..` are refused, everything else is encoded with the segment set |
| Percent.UrlEncode | crates/connectors/src/hetzner.rs:258-269 | the query encoder is the same encoding with the unreserved set |
| Percent.LiteralBytes | crates/connectors/src/urlpath.rs:73-81 | the bytes either encoder leaves alone, listed |
| Percent.BothEncodersExact | crates/connectors/src/hetzner.rs:255-269 | both encoders can be undone and emit only their own alphabet |
| UrlStandard.PlainPathSurvives | crates/connectors/src/urlpath.rs:28-40 | the URL parser is the identity on paths of plain segments |
| UrlStandard.PathAfterFront | crates/connectors/src/urlpath.rs:28-40 | behind any text without `?` and `#`, the parser puts plain segments after that text's own segments |
| UrlStandard.DotsDecode | crates/connectors/src/urlpath.rs:42-49 | every spelling of a dot segment, `%2e` in any case included, decodes to dots |
| UrlStandard.DotSpellings | crates/connectors/src/urlpath.rs:42-49 | the dot segments are one or two dots, each in any of its spellings, and nothing else |
| UrlStandard.EncodedIdIsPlain | crates/connectors/src/urlpath.rs:28-49 | what the segment encoder emits for an accepted id is such a segment and no dot segment |
| CloudRest.SignedPathIsSentPath | crates/connectors/src/cloud_rest.rs:490-496 | for every accepted id and mutation, the parsed URL's path is the signed path |
| CloudRest.SentPath | crates/connectors/src/cloud_rest.rs:500-520 | the path sent for any base text, mutation and accepted id |
| CloudRest.BasePathBreaksSigning | crates/connectors/src/cloud_rest.rs:500-520 | for every base text, all mutations are sent under the path they are signed for if and only if the text holds no `?` or `#` and its segments cancel out |
| CloudRest.PlainBaseIsSent | crates/connectors/src/cloud_rest.rs:500-520 | a base path of plain segments is sent in front of the signed path |
| CloudRest.BareOriginIsHarmless | crates/connectors/src/cloud_rest.rs:205-218 | a bare origin with any trailing slashes keeps paths whole |
| CloudRest.PathsAreDistinct | crates/connectors/src/cloud_rest.rs:530-576 | five path parts always, and equal paths only for equal mutation and id |
| CloudRest.RouteOfMutation | crates/connectors/src/cloud_rest.rs:530-576 | each mutation goes to its own route, word by word, around a segment that decodes to the id |
| CloudRest.SignatureCoversWhatIsSent | crates/connectors/src/cloud_rest.rs:482-520 | behind such a base, the signature of a mutation is over the very path and body its request delivers |
| CloudRest.CloudClient.SignedPost | crates/connectors/src/cloud_rest.rs:500-520 | without a device or a signature nothing is sent; otherwise one request with the signed path and body |
| CloudRest.CloudClient.Mutate | crates/connectors/src/cloud_rest.rs:530-576 | an id that cannot be a segment sends nothing; an accepted one sends the one signed request to its route behind the base; every request ever sent stays signed for what it delivers |
| Money.ParseUsdToMicrousd | crates/connectors/src/tokenfuse.rs:391-413 | the parser with its padding loop is the specified reading |
| Money.SixDigitsTruncate | crates/connectors/src/tokenfuse.rs:405-412 | the six digits read are the amount in millionths cut off, for any number of fraction digits |
| Money.MoneyIsExact | crates/connectors/src/tokenfuse.rs:386-413 | a well-formed amount is read as its truncated value if and only if that fits an i64; beyond, it overflows or, with a huge integer part, is refused |
| Money.WholeDollarsOverflow | crates/connectors/src/tokenfuse.rs:412 | whole dollars that fit an i64 overflow as soon as their millionths do not, from 9223372036855 on |
| Money.OnlyWrittenIsMoney | crates/connectors/src/tokenfuse.rs:389-404 | nothing but `[-]$digits[.digits]` is money |
| Money.PrintThenParse | crates/connectors/src/tokenfuse.rs:386-413 | parsing undoes six-decimal printing for every magnitude up to i64::MAX |
| Savings.ParseSavingsText | crates/connectors/src/tokenfuse.rs:423-537 | the line loop with its three flags is the specified reading of the lines |
| Savings.AcceptedHasAllSummaries | crates/connectors/src/tokenfuse.rs:430-435 | an accepted text says "no trace yet" in its header or has each of the three summary lines |
| Savings.NoTraceReport | crates/connectors/src/tokenfuse.rs:430-437 | a header that says "no trace yet" means nothing was found and nothing counted |
| Savings.TitleDecides | crates/connectors/src/tokenfuse.rs:426-448 | any other text needs the title to be read, and then something was found |
| Savings.UnrecognizedRejects | crates/connectors/src/tokenfuse.rs:509-526 | one line that is neither blank nor a summary nor a word and an amount rejects the text |
| Savings.SummaryRefused | crates/connectors/src/tokenfuse.rs:454-508 | a summary without a readable amount, or a runaway line without its parenthesis, is refused |
| SavingsReport.SummaryApplies | crates/connectors/src/tokenfuse.rs:454-508 | a printed summary line sets exactly its own fields |
| SavingsReport.ReasonApplies | crates/connectors/src/tokenfuse.rs:509-526 | a printed reason line is taken for no summary line and sets exactly its reason |
| SavingsReport.HeaderContains | crates/connectors/src/tokenfuse.rs:430-435 | the header says "no trace yet" only if the directory name does |
| SavingsReport.PrintThenRead | crates/connectors/src/tokenfuse.rs:415-537 | any printable record, reasons in any order, is read back from its report |
| Table.RowParses | crates/connectors/src/tokenfuse.rs:552-558 | a printed row parses to its cells, empty ones included |
| Table.TableRoundTrip | crates/connectors/src/tokenfuse.rs:539-560 | a printed table parses to its header and rows |
| Table.OtherDropped | crates/connectors/src/tokenfuse.rs:548-552 | whatever does not begin with a bar is no row |
| Table.BordersOnly | crates/connectors/src/tokenfuse.rs:542-547 | a table of borders only is zero rows |
| CostRows.ParseCostRows | crates/connectors/src/tokenfuse.rs:566-632 | the row loop is the specified reading of the parsed table, first error first |
| CostRows.RowRead | crates/connectors/src/tokenfuse.rs:592-631 | a row with its five cells in the named columns is read as them, unless the division panics |
| CostRows.RowRefused | crates/connectors/src/tokenfuse.rs:592-616 | the first cell that is missing or no number decides the error |
| CostRows.ColumnMissing | crates/connectors/src/tokenfuse.rs:566-591 | the first of the five columns the header lacks decides the error; no table is no rows |
| CostRows.NoRatio | crates/connectors/src/tokenfuse.rs:617-621 | there is no ratio exactly without tool calls or rows that know them |
| CostRows.ColumnOrderDoesNotMatter | crates/connectors/src/tokenfuse.rs:562-591 | printed with its distinct columns in any order, a table gives the same rows or the same error |
| CostRows.PrintedCostRowsRead | crates/connectors/src/tokenfuse.rs:548-632 | the printed table of any consistent cost rows, in columns of any width, reads as those rows |
| CostRows.RatioIsExact | crates/connectors/src/tokenfuse.rs:617-621 | the ratio is the quotient truncated toward zero if and only if the call count fits an i64 or the cost is smaller than 2^64 minus the count |
| CostRows.RatioFlipsPastI64 | crates/connectors/src/tokenfuse.rs:617-621 | two rows for which it is not: a sign that flips, and a division that panics |
| WgConfig.RenderUapi | crates/connectors/src/wg.rs:182-203 | the nested loops emit the configuration's lines and the closing blank line |
| WgConfig.PeerApplies | crates/connectors/src/wg.rs:190-200 | a new peer's lines set its endpoint, keepalive and allowed IPs exactly |
| WgConfig.PeersApply | crates/connectors/src/wg.rs:190-200 | all the peers' lines leave exactly those peers |
| WgConfig.RenderedConfigIsAuthoritative | crates/connectors/src/wg.rs:177-203 | from any prior device the rendered text yields exactly the configured key and peers, and keeps the port when none is given |
| WgTunnel.Host.BringUp | crates/connectors/src/wg.rs:284-329 | each failing stage has its error and kills the child, which may have died meanwhile; a working bring-up kills nothing and hands the child over |
| WgTunnel.ChildGuard.Drop | crates/connectors/src/wg.rs:364-381 | an armed guard kills its child once, a disarmed one does nothing |
| WgTunnel.EventKeeps | crates/connectors/src/wg.rs:259-381 | every spawn, finish, drop or exit keeps the ownership invariant; a failed finish takes its own child and no other |
| WgTunnel.BringUpFailsClosed | crates/connectors/src/wg.rs:284-329 | a failed bring-up leaves the live, guarded and owned children as they were, dead child or not |
| WgTunnel.BringUpWorks | crates/connectors/src/wg.rs:284-329 | a working bring-up leaves its child running and owned, and touches no other |
| WgTunnel.WorkingFinish | crates/connectors/src/wg.rs:320-329 | so does the last step of one, whatever came between |
| WgTunnel.KillsHaveCause | crates/connectors/src/wg.rs:351-381 | in every run, a child is killed only by its own failed bring-up or the drop of its own tunnel |
| WgTunnel.EveryRunFailsClosed | crates/connectors/src/wg.rs:259-381 | in every run, bring-ups overlapping at will, the live children are those of existing tunnels and of bring-ups under way, none is leaked, none is killed twice |
| WgTunnel.OnlyTunnelsLive | crates/connectors/src/wg.rs:259-381 | with no bring-up under way the live children are exactly those of existing tunnels that have not ended by themselves |
| Ssh.ShellSingleQuote | crates/connectors/src/ssh.rs:284-296 | the character loop computes the quoted form |
| Ssh.QuotedAdds | crates/connectors/src/ssh.rs:282-296 | in any context the shell reads the quoted form as exactly the string |
| Ssh.QuotedIsOneWord | crates/connectors/src/ssh.rs:282-296 | the quoted form is one word, the string itself |
| Ssh.CatReadsThatFile | crates/connectors/src/ssh.rs:194-197 | the read command is three words for every path |
| Ssh.TailFollowsThatFile | crates/connectors/src/ssh.rs:214-220 | the tail command is five words for every path and offset |
| Ssh.TailOffsetIsExact | crates/connectors/src/ssh.rs:199-218 | the 1-based offset is the offset plus one exactly below u64::MAX |
| Manifest.Log.CmdOpen | live-campaign/scripts/gx_manifest.py:83-103 | opening appends one open row with an id no row has, or changes nothing when an epoch is open, an id cannot be read or written, or the Cloud fails |
| Manifest.Log.CmdClose | live-campaign/scripts/gx_manifest.py:106-119 | closing fills in the last row only, or changes nothing |
| Manifest.MintedNumber | live-campaign/scripts/gx_manifest.py:91-94 | an id that can be written reads back as its number |
| Manifest.MintedIsFresh | live-campaign/scripts/gx_manifest.py:87-94 | the minted id, and any later one, differs from every id present, whoever wrote the rows |
| Manifest.OpenedNumber | live-campaign/scripts/gx_manifest.py:91-103 | an opening takes the number after the highest in use, and 1 when none is |
| Manifest.MintedForm | live-campaign/scripts/gx_manifest.py:94 | an id has two digits at least |
| Manifest.OpenedIsFresh | live-campaign/scripts/gx_manifest.py:83-103 | after any commands, deletions and rewrites by hand, an opening adds one row whose id no row has, or changes nothing |
| Manifest.RunKeeps | live-campaign/scripts/gx_manifest.py:83-119 | from any tidy log, after any commands, deletions and tidy rewrites only the last epoch can be open and ids are distinct; with a forward clock epochs follow each other |
| Manifest.EpochOf | live-campaign/scripts/gx_manifest.py:122-127 | the first row whose window covers the time |
| Manifest.WindowOf | live-campaign/scripts/gx_manifest.py:122-127 | an epoch covers five seconds on either side; an open one lasts a day |
| Manifest.UnambiguousIffSpaced | live-campaign/scripts/gx_manifest.py:122-127 | no time belongs to two closed epochs if and only if more than ten seconds separate them |
| Manifest.CloseEpochsOverlap | live-campaign/scripts/gx_manifest.py:122-127 | two epochs five seconds apart that both cover a time |
| Manifest.SpacedEpochIsFound | live-campaign/scripts/gx_manifest.py:83-127 | on a spaced log, edited by hand or not, a time in a closed epoch's window is assigned to that epoch |

## Left out

- HTTP, TLS, threads, tokio, real clocks: arrivals, stop signals, timeouts and write failures are steps or inputs chosen freely; the worker loop and `poll` of `cloud_sse.rs` are steps of a state machine, because their interleaving is the point.
- ES256 and X25519: signing is an arbitrary function of method, path and body; key clamping is not modelled.
- JSON text: parsing one line is an arbitrary function; the round trip through text assumes that it undoes printing.
- `retry:` fields: the decoder gives them no meaning, and neither does the model.
- McpStdio.McpStdioClient.Call: returns the raw `tools` array of a listing; shaping it into tool definitions is not modelled, nor is a write that fails halfway through a line, nor the end of the i64 id range.
- WgConfig.RenderedConfigIsAuthoritative: assumes what the configuration type does not enforce: distinct peer keys, none of them the interface's own (the receiver ignores such a peer), no allowed IP under two peers, no newline in a field; keys, endpoints and CIDRs are opaque strings compared as written.
- SavingsReport.PrintThenRead: amounts from zero up, and reasons that are single words, as the printer emits them.
- Manifest.Log.CmdOpen: how Python reads digits beyond ASCII is an arbitrary function, and an id that is not a string is not modelled.
- Ssh.QuotedIsOneWord: the shell model makes words from quotes, backslashes and blanks, and refuses other unquoted special characters rather than expanding them.
- CloudRest.CloudClient.Mutate: the four mutations share one method; the response is not read, and the base URL is given by what follows its authority.
- Waiting for the interface name and socket in `wg.rs`, and the files it removes: each stage of a bring-up succeeds or fails as an input says. No handshake is awaited by the code, and none is claimed.
- The other connectors, the copilot, the API crate, the web application and the seeding scripts.
