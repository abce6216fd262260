# tina-rs: verified model of the byte-stream and protocol cores

A Dafny 4.11 model of the parts of tina-rs whose correctness is about whole byte streams and whole
runs: the incremental chunked-body decoder and the three callers that resume it, the keepalive
client connection, the server connection's body paths, the bounded S3 bridge worker, the sync
codecs with the gRPC reassembler, and the fixed-capacity slab.

Each core has the same shape. Value functions say what one call or one handler turn does; a class
with the source's fields does it in place and is proved against those functions; a transition
system lets every outside completion happen in any order the runtime allows; and the theorems hold
for every input and every run. References that do not mention the code under proof (a grammar, a
whole-stream splitter, a message reading, a stack of free ids, sums over connections) stand on the
other side of the equations.

Main results:

- **Chunked decoding.** The decoder completes exactly on the wires that begin with a well-formed
  body (`ChunkedGrammar.AcceptsExactly`). It does not decode every wire the same under every split
  into reads, and two inputs show it: a bare CR inside a chunk extension and a size line of exactly
  63 bytes (`ChunkedGrammar.BareCrIsFragile`, `LongLineIsFragile`). For every wire
  `ChunkedPartition.PartitionInvarianceExactly` gives the condition, in both directions; for every
  well-formed body it is that each size line has at most 62 bytes and no CR
  (`ChunkedGrammar.BodyInPartsExactly`), which holds of every body the server writes. The draining
  client, the offset client and the pull-driven server all return the one-shot body on such wires,
  and the pull-driven reads never pass the end of the body. For every wire at all
  `ChunkedVerdicts.VerdictIsExact` says which verdict, which error and which data it leads to.
- **Keepalive client.** In every completion order no `expect` fires (below 2^64 requests), replies
  are single, streams are closed once, the request goes out whole before anything is read, the
  bytes of a reused transport are exactly the delivered responses, and a sweep closes an idle
  transport exactly when the first sweep that saw it idle is long enough ago. Every message in
  every reachable state leads to exactly one stated turn: which requests start, what is written and
  read next, and how each is answered (`KeepaliveTurns.EveryTurnIsExact`). The object itself is
  driven through any list of events and ends where the run ends.
- **Server connection.** Pipelined buffered requests are the successive messages of the inbound
  stream for every read partition and every peer-monitor timing; while nothing goes wrong the
  connection closes exactly when keepalive is off or the last request says so, and otherwise takes
  on the next message (`PipelineClosing.ClosesExactly`, `NextMessageIsTakenOn`). A streamed request keeps exactly
  the body bytes read with its head, and the next request is read in step if and only if nothing
  lay behind them and the whole body was received. Both causes are shown: a second request in the
  same read is lost (`StreamedRequests.SecondRequestIsLost`), and a body the service did not wait
  for is read as a request (`RemainderIsReadAsRequest`). The wire carries the response byte for
  byte.
- **Inbound bodies.** From the dispatch of a body to its end every pull and read has exactly the
  outcome that is due by the bytes read and the chunks answered before
  (`InboundAnswers.OutcomesAreDue`), and the callers get the body in order, its end last
  (`CallersGetTheBody`).
- **Body pressure.** From the dispatch of a body to its end, its request charge is the length of
  the inbound buffer. A read whose bytes the caps refuse leaves its caller captured until the
  response is done, and only such a read does (`InboundConnection.CallerIsLeftIffOverCap`,
  `RefusedPull`). The response charge is exactly the body bytes still missing for a buffered or
  known-length response; for a chunked one it falls short by up to a size line, and the shortfall
  is given exactly (`ResponseCharge.FrameShortfall`, `SizeLineReleasesData`), although a comment in
  the source calls the release exact. The ledger of a shard is balanced throughout a run if and
  only if every admitted charge fits a machine word (`BodyLedger.LedgerBalancesExactly`). Without
  caps it fails once the connections of a shard hold 2^64 resident bytes together
  (`BodyLedger.UncappedChargeWraps`), and not before.
- **S3 bridge.** In every interleaving of handler turns and task steps the gauges are the state,
  every request is answered once and with its own cause, timeouts are conserved and come only from
  polls past the deadline, each counter counts its own outcomes, and a closed bridge only drains. A close that falls between a request's closed check and its admission lets
  that one entry in and no other; every such split run still ends in the state of a run of whole
  turns (`BridgeClosing.SplitRunIsARun`, `CloseAddsAtMostOne`).
- **Codecs and slab.** `decode_chunk` and `push_into` refine whole-stream splitters under every
  partition; the intrusive free list refines a stack.

Where the code and its comments disagree the model follows the code.

`dafny verify dfyconfig.toml` checks the project.

## Model

| member | source | states |
|---|---|---|
| `ChunkSizeLine.ParseAccepts` | tina-http/src/chunked_decoder.rs:318-346 | every line of hex digits, blanks and an arbitrary extension behind a semicolon parses to the value of its digits, or is refused when that overflows a word |
| `ChunkSizeLine.ParseIsSound` | tina-http/src/chunked_decoder.rs:318-346 | whatever parses is such a line with that value; the extension is not checked further, so the lines are more than those of RFC 9112 section 7.1 |
| `ChunkSizeLine.DigitsAre` | tina-http/src/chunked_decoder.rs:318-346 | digits of either case with their ASCII codes and values, the two blanks, and the semicolon |
| `ChunkSizeLine.HexRoundTrip` | tina-http/src/connection.rs:1791-1797 | a size printed in lowercase hex parses back to itself, any extension behind it |
| `ChunkSizeLine.WordHexLength` | tina-http/src/connection.rs:1791-1797 | a printed machine word has at most sixteen digits, so it fits the size-line limit |
| `ChunkSizeLine.HexIsCanonical` | tina-http/src/connection.rs:1786-1797 | a printed size has lowercase digits only, and no leading zero unless it is zero |
| `ChunkSizeLine.WordIsTheLimit` | tina-http/src/chunked_decoder.rs:318-346 | a printed size is read back exactly up to 2^64-1 and refused beyond |
| `ChunkedSpec.FeedAllIsRepeatedFeed` | tina-http/src/chunked_decoder.rs:211-223 | `feed_all` is `feed` repeated until it yields no chunk, data appended in order |
| `ChunkedDecoder.ChunkedDecoder.constructor` | tina-http/src/chunked_decoder.rs:55-65 | a new decoder is the initial state of the specification |
| `ChunkedDecoder.ChunkedDecoder.SaveSizeBytes` | tina-http/src/chunked_decoder.rs:308-310 | the fixed 64-byte buffer holds the saved line followed by the new bytes |
| `ChunkedDecoder.ChunkedDecoder.ScanForCrlf` | tina-http/src/chunked_decoder.rs:254-291 | the scan finds the first CRLF of the input |
| `ChunkedDecoder.ChunkedDecoder.FeedSize` | tina-http/src/chunked_decoder.rs:225-315 | result, consumed count and saved line are those of reading the size line as a function of saved and new bytes |
| `ChunkedDecoder.ChunkedDecoder.FeedTrailers` | tina-http/src/chunked_decoder.rs:158-199 | the empty trailer section is recognised also when its CR was saved by an earlier call |
| `ChunkedDecoder.ChunkedDecoder.RunTurn` | tina-http/src/chunked_decoder.rs:82-204 | one turn of the loop leaves the specified phase, totals and saved bytes |
| `ChunkedDecoder.ChunkedDecoder.Feed` | tina-http/src/chunked_decoder.rs:78-205 | the in-place loop terminates in the specified state with the specified progress |
| `ChunkedDecoder.ChunkedDecoder.FeedAll` | tina-http/src/chunked_decoder.rs:211-223 | the accumulator grows by exactly the specified data |
| `ChunkedGrammar.AnnouncesIsParse` | tina-http/src/chunked_decoder.rs:254-346 | the size-line grammar (digits, blanks, extension, at most 63 bytes, no CRLF) and the parser with its limit agree, both ways |
| `ChunkedGrammar.BodyAccepted` | tina-http/src/chunked_decoder.rs:78-346 | every well-formed body within the cap is accepted from any decoder between chunks, wherever the wire goes on |
| `ChunkedGrammar.AcceptedBody` | tina-http/src/chunked_decoder.rs:78-346 | whatever is accepted begins with a well-formed body within the cap |
| `ChunkedGrammar.AcceptsExactly` | tina-http/src/chunked_decoder.rs:78-346 | completion holds if and only if the wire begins with a well-formed body; output and consumed length are that body's |
| `ChunkedVerdicts.EveryWireIsRead` | tina-http/src/chunked_decoder.rs:78-346 | every wire is whole chunks within the cap followed by one of eight kinds of tail |
| `ChunkedVerdicts.ReadsDecides` | tina-http/src/chunked_decoder.rs:78-346 | behind such chunks the decoder hands out their data, then what the tail has of an unfinished chunk, and gives the verdict of the tail |
| `ChunkedVerdicts.VerdictIsExact` | tina-http/src/chunked_decoder.rs:78-346 | for every wire: complete, which error, or more needed, and the data handed out, exactly as the tail behind its whole chunks says |
| `ChunkedGrammar.BodyRobust` | tina-http/src/chunked_decoder.rs:226-310 | a well-formed body is robust if and only if each size line has at most 62 bytes and no CR |
| `ChunkedGrammar.BodyInPartsExactly` | tina-http/src/chunked_decoder.rs:226-310 | a well-formed body decodes alike under every split into reads if and only if each size line has at most 62 bytes and no CR |
| `ChunkedGrammar.BareCrIsFragile` | tina-http/src/chunked_decoder.rs:226-251 | a concrete body with a bare CR in an extension decodes whole and is refused when cut behind that CR |
| `ChunkedGrammar.LongLineIsFragile` | tina-http/src/chunked_decoder.rs:301-307 | a concrete body with a 63-byte size line decodes whole and is refused when cut between its CR and LF |
| `ChunkedPartition.TurnShape` | tina-http/src/chunked_decoder.rs:82-204 | which phases emit, continue and halt, and how an empty input is answered |
| `ChunkedPartition.SplitAnywhere` | tina-http/src/chunked_decoder.rs:78-315 | on a robust wire, feeding a prefix and then the unconsumed tail with the rest equals feeding everything |
| `ChunkedPartition.NeedMoreWaits` | tina-http/src/chunked_decoder.rs:78-205 | after `NeedMore` at most one byte of a data CRLF is unconsumed, and feeding it again changes nothing |
| `ChunkedPartition.PartsAgree` | tina-http/src/chunked_decoder.rs:78-315 | on a robust wire every partition gives the data, result and consumed length of one call |
| `ChunkedPartition.FragileWire` | tina-http/src/chunked_decoder.rs:226-306 | a wire that is not robust has a cut into two reads that changes data or result |
| `ChunkedPartition.PartitionInvarianceExactly` | tina-http/src/chunked_decoder.rs:78-315 | robustness holds if and only if every partition into reads decodes the same as one call |
| `ChunkedEncoding.DecodeChunk` | tina-http/src/connection.rs:1791-1813 | a written chunk decodes to its data and leaves the decoder between chunks |
| `ChunkedEncoding.WireFormat` | tina-http/src/connection.rs:1786-1834 | a written chunk and the terminator byte by byte |
| `ChunkedEncoding.RoundTrip` | tina-http/src/connection.rs:1791-1830 | any list of non-empty chunks within the cap decodes to its concatenation, consumes exactly the encoded length whatever follows, and is robust |
| `ChunkedEncoding.RoundTripInParts` | tina-http/src/connection.rs:1791-1830 | the same under every partition of the wire into reads |
| `PullReads.SizedReadIsConsumed` | tina-http/src/chunked_decoder.rs:71-76 | a read no longer than the preferred size is consumed to its last byte when the body completes |
| `PullReads.PulledRunLeavesNothing` | tina-http/src/connection.rs:1210-1273 | on every wire, a pull-driven run that completes took exactly the bytes it decoded |
| `PullReads.PullNeverOverReads` | tina-http/src/connection.rs:1121-1173 | pull-driven reads stay within the body, stop exactly at its end, and yield the one-shot data |
| `InboundBody.StepKeepsInv` | tina-http/src/connection.rs:1121-1309 | every pull and every socket read keeps the accounting of bytes received, buffered and served |
| `InboundBody.LengthRuns` | tina-http/src/connection.rs:1010-1309 | Content-Length bodies over every run: received minus delivered is buffered, chunks are in order, non-empty and within the chunk size, a clean end means the whole body, nothing is read after it |
| `InboundBody.ChunkedRuns` | tina-http/src/connection.rs:971-1288 | chunked bodies over every run: what is served is a prefix of the decoded pulls; a clean end on a robust wire is the one-shot body with nothing read past it |
| `InboundBody.TruncationLooksWhole` | tina-http/src/connection.rs:1195-1209 | a chunked body cut off by the peer ends with the same reply as a whole one: two concrete runs that only the peer's close tells apart |
| `InboundBody.TruncationShows` | tina-http/src/connection.rs:1195-1209 | a Content-Length body cut off by the peer shows: less than the announced length was served |
| `InboundConnection.LengthBegins` | tina-http/src/connection.rs:1010-1025 | a Content-Length body as dispatched is charged for exactly its buffered early bytes and starts a run of its own |
| `InboundConnection.ChunkedBegins` | tina-http/src/connection.rs:974-1009 | a chunked body as dispatched is charged for exactly the data decoded from its early bytes and starts a run of its own |
| `InboundConnection.ChargeIsTheBuffer` | tina-http/src/connection.rs:971-1316 | from every dispatch of either framing, over every run, refusals included, the request charge is the length of the inbound buffer, and until a refusal the body goes through the run of its own events |
| `InboundConnection.CallerIsLeftIffRefused` | tina-http/src/connection.rs:1226-1231 | a read leaves its caller captured without an answer if and only if its bytes are refused |
| `InboundConnection.CallerIsLeftIffOverCap` | tina-http/src/connection.rs:1280-1285 | the same in terms of a balanced shard: if and only if the connection is metered and the new bytes pass a cap |
| `InboundConnection.RefusedIsStuck` | tina-http/src/connection.rs:694-700 | after a refusal nothing changes until the response is done, and every pull is rejected |
| `InboundConnection.RefusedPull` | tina-http/src/connection.rs:1280-1285 | a concrete body of two bytes under a cap of one: the read is refused and the next pull rejected |
| `InboundConnection.AnswerIsRecorded` | tina-http/src/connection.rs:1290-1316 | the reply a caller gets is the chunk or the end the run of the body records |
| `InboundAnswers.DispatchIsDue` | tina-http/src/connection.rs:971-1040 | a body is dispatched with the bytes that came with its head, refused exactly when the caps refuse those, malformed exactly when its framing is |
| `InboundAnswers.OutcomesAreDue` | tina-http/src/connection.rs:1121-1316 | from every dispatch, over every run: each pull and read comes to exactly what is due by the bytes read and the chunks answered: the next chunk of full size, the end, an error, a read of exactly this size, a rejection or a refusal |
| `InboundAnswers.CallersGetTheBody` | tina-http/src/connection.rs:1121-1316 | from every dispatch, over every run: the chunks answered are a prefix of the body in order, the end is told exactly when the run ended, as an error exactly when it broke, and a clean end comes with all of the body |
| `InboundConnection.InboundState.DispatchWithLength` | tina-http/src/connection.rs:1010-1025 | dispatch keeps the early bytes that belong to the body, charges them, or refuses the request |
| `InboundConnection.InboundState.DispatchWithChunks` | tina-http/src/connection.rs:974-1009 | dispatch decodes the early bytes, and refuses over the cap before it refuses malformed framing |
| `InboundConnection.InboundState.ServeChunkFromBuffer` | tina-http/src/connection.rs:1290-1316 | the served chunk leaves the buffer, counts as delivered, gives its charge back and answers the captured caller |
| `InboundConnection.InboundState.HandleRequestBodyNext` | tina-http/src/connection.rs:1121-1173 | a pull is rejected while a caller is captured, else answers from the buffer, reads the allowed number of bytes, or ends the body |
| `InboundConnection.InboundState.DecodeRaw` | tina-http/src/connection.rs:1210-1225 | the raw buffer keeps the undecoded tail and the buffer gains the decoded data |
| `InboundConnection.InboundState.HandleBodyChunkRead` | tina-http/src/connection.rs:1175-1288 | a socket read ends, fails, serves, reads on or is refused as specified for both framings |
| `InboundConnection.Drive` | tina-http/src/connection.rs:1121-1316 | the fields driven through any list of turns make every turn, end in the state of the run and give its answers |
| `InboundConnection.Serve` | tina-http/src/connection.rs:971-1316 | dispatched and then driven through any list of turns, the fields end in the state of the run and give its answers, for both framings |
| `ClientBody.ActiveCall.constructor` | tina-http/src/client.rs:453-516 | a fresh call is in a valid state with nothing read |
| `ClientBody.BodyDecodes` | tina-http/src/client.rs:488-512 | decoding the undecoded tail with the new bytes is feeding the reads with one more read |
| `ClientBody.OneShot` | tina-http/src/client.rs:488-512 | on cut-safe framing the reads decide what decoding everything at once decides |
| `ClientBody.ActiveCall.HandleBytesRead` | tina-http/src/client.rs:453-516 | after every read the decision (deliver which body, fail, read on) is the one of reading everything so far in one go, if the framing is cut-safe, and else that of the reads one by one |
| `ClientBody.ActiveCall.HandleEof` | tina-http/src/client.rs:458-471 | at the peer's close a complete body is delivered and anything else fails |
| `ClientBody.ActiveCall.FeedChunked` | tina-http/src/client.rs:488-512 | draining what the decoder took keeps head, undecoded tail and body apart and in order |
| `HttpHead.MessagesGrow` | tina-http/src/keepalive.rs:807-903 | with a prefix-stable head parser more bytes never change the messages already there |
| `HttpHead.MessagesOfConcat` | tina-http/src/keepalive.rs:807-903 | whole messages put end to end are read back one by one |
| `HttpHead.CutsOffAreMessages` | tina-http/src/connection.rs:931-947 | messages cut off the front of a stream one at a time are the first messages of the reference reading |
| `KeepaliveRuns.TurnShape` | tina-http/src/keepalive.rs:380-991 | in every reachable state a handler rests, starts, goes on or ends the request; the only `expect` that can fire is the request counter's |
| `KeepaliveRuns.StepKeepsInv` | tina-http/src/keepalive.rs:380-991 | every enabled event keeps lanes, streams, replies, the outgoing request, framing and decoding consistent |
| `KeepaliveRuns.StaleIsInert` | tina-http/src/keepalive.rs:395-518 | in every reachable state a completion of another generation leaves the connection, the answers, the bytes read and written unchanged; a stream it brings is closed at once |
| `KeepaliveRuns.EveryRunIsSafe` | tina-http/src/keepalive.rs:380-991 | every run of at most 2^64-1 events: no `expect`, at most one outstanding call on the live transport, each stream current or closed once, each request answered once or in flight |
| `KeepaliveRuns.RequestGoesOutWhole` | tina-http/src/keepalive.rs:727-772 | what was written and the outstanding write make up the encoded request, and reading starts only when all of it is out |
| `KeepaliveRuns.FramingStaysInSync` | tina-http/src/keepalive.rs:807-949 | the bytes of the live transport are its delivered responses followed by the unfinished one; those are the messages of the reference reading, each body its message without the head |
| `KeepaliveRuns.ReadsDecideLikeOneShot` | tina-http/src/keepalive.rs:807-949 | every read delivers, fails or reads on as the one-shot reading says, and the transport is given up exactly for chunked, `close`, surplus bytes or the peer's close |
| `KeepaliveTurns.AskIsExact` | tina-http/src/keepalive.rs:551-641 | a request is started, with one call and its deadline and no reply, if and only if none is in flight and it is encodable; it is busy if and only if one is in flight, refused if and only if none is and it is not; neither retires |
| `KeepaliveTurns.ConnectedIsExact` | tina-http/src/keepalive.rs:395-452 | a connect goes on with a write of the whole request, or fails it |
| `KeepaliveTurns.WroteIsExact` | tina-http/src/keepalive.rs:753-772 | a partial write goes on with exactly what is left of the request, a full one reads, none at all fails |
| `KeepaliveTurns.ReadIsExact` | tina-http/src/keepalive.rs:807-949 | a read goes on, delivers or fails as the response read so far says, also where its chunked framing depends on the cuts, and retires the transport exactly then |
| `KeepaliveTurns.EveryTurnIsExact` | tina-http/src/keepalive.rs:380-991 | in every reachable state below the counter limit every message that is not stale leads to exactly its turn |
| `KeepaliveIdle.SweepClosesIffIdleLongEnough` | tina-http/src/keepalive.rs:661-707 | over every run a sweep closes the transport if and only if the connection is idle and the first sweep since it was last in use is at least the limit ago; the clock runs only while idle |
| `KeepaliveConnection.Drive` | tina-http/src/keepalive.rs:380-522 | the object driven through any list of fewer than 2^64 events makes every turn, so no `expect` fires, and ends in the state of the run |
| `KeepaliveConnection.KeepaliveConnection.Handle` | tina-http/src/keepalive.rs:380-522 | each message leads to the turn of its handler |
| `KeepaliveConnection.KeepaliveConnection.HandleRequest` | tina-http/src/keepalive.rs:551-641 | busy and refused requests are answered at once; a started one takes the next generation, one call and one deadline |
| `KeepaliveConnection.KeepaliveConnection.HandleMaintain` | tina-http/src/keepalive.rs:661-707 | a sweep leaves the clock, the transport and the flag the run theorem about sweeps speaks of |
| `KeepaliveConnection.KeepaliveConnection.HandleConnected` | tina-http/src/keepalive.rs:395-452 | the stream is installed for the current generation and closed for any other |
| `KeepaliveConnection.KeepaliveConnection.HandleWrote` | tina-http/src/keepalive.rs:753-772 | a partial write continues with the rest, a full one turns to reading, none at all fails |
| `KeepaliveConnection.KeepaliveConnection.HandleDeadline` | tina-http/src/keepalive.rs:503-517 | only the current generation's deadline fails the request |
| `KeepaliveConnection.KeepaliveConnection.HandleRead` | tina-http/src/keepalive.rs:807-903 | head, body, end of stream and parse failures lead to the specified turn |
| `KeepaliveConnection.KeepaliveConnection.HandleBody` | tina-http/src/keepalive.rs:837-903 | the decoder resumes at its offset; a complete body is delivered, with the retirement decision |
| `KeepaliveConnection.KeepaliveConnection.DeliverSuccess` | tina-http/src/keepalive.rs:905-949 | one reply with the body; the transport is closed when it must retire |
| `KeepaliveConnection.KeepaliveConnection.FailRequest` | tina-http/src/keepalive.rs:951-991 | one failed reply, request and transport cleared, the stream closed |
| `Pipeline.HandedOut` | tina-http/src/connection.rs:1041-1092 | handing out the first message of what is held keeps every byte of the stream accounted for |
| `Pipeline.DispatchKeeps` | tina-http/src/connection.rs:1041-1092 | a dispatch cuts exactly the next message and holds the rest as read-ahead |
| `Pipeline.SpawnReplyKeeps` | tina-http/src/connection.rs:1329-1347 | the monitor's spawn reply releases the pending request, and nothing else moves |
| `Pipeline.ChildEndKeeps` | tina-http/src/connection.rs:1349-1378 | the monitor's byte goes behind the read-ahead, before or after the response |
| `Pipeline.ResponseDoneKeeps` | tina-http/src/connection.rs:1632-1665 | after the response the read-ahead becomes the next input |
| `Pipeline.StepKeepsInv` | tina-http/src/connection.rs:818-947 | every event keeps the phase and the byte accounting |
| `Pipeline.PipeliningLosesNothing` | tina-http/src/connection.rs:818-947 | over every run of buffered requests those called are the first messages of the inbound stream, all of them whenever a read is awaited; no byte is lost, duplicated or reordered; never two reads outstanding |
| `PipelineClosing.StepDecides` | tina-http/src/connection.rs:948-1092 | every fair step keeps the close decision that of the configuration and the last request's head |
| `PipelineClosing.ClosesExactly` | tina-http/src/connection.rs:1632-1665 | over every run in which nothing goes wrong an event closes the connection if and only if it completes a response and keepalive is off or the last request's head says close |
| `PipelineClosing.NextMessageIsTakenOn` | tina-http/src/connection.rs:1632-1665 | over every such run a response done with a further whole message in the stream takes that message on: at once, or through the monitor if and only if monitoring is on, no close is wanted and nothing lies behind it |
| `PipelineClosing.IdleHasNothingLeft` | tina-http/src/connection.rs:1349-1378 | over every such run an idle connection has handed out every whole message, but for one the monitor has just read, and handling the monitor's end takes that one on |
| `PipelineClosing.TroubleCloses` | tina-http/src/connection.rs:818-883 | in every reachable state an end of stream, a lost peer or giving up closes at once; a bad head, a refused charge, a failed monitor or service is answered and binds the connection to close |
| `Pipeline.ConnectionPipe.HandleRead` | tina-http/src/connection.rs:818-883 | a read parses, charges, dispatches, answers an error or reads on as specified, streaming or not |
| `Pipeline.ConnectionPipe.MaybeDispatchOrReadMore` | tina-http/src/connection.rs:931-947 | a streamed request is dispatched at its head, a buffered one when its body is all there |
| `Pipeline.ConnectionPipe.DispatchStreaming` | tina-http/src/connection.rs:971-1040 | the body bytes read with the head move to the inbound buffer, the rest is cut off, and refusals close |
| `Pipeline.ConnectionPipe.DispatchToService` | tina-http/src/connection.rs:1041-1092 | the request leaves the buffer, the rest becomes read-ahead, and the service or the monitor is called |
| `Pipeline.ConnectionPipe.HandleServiceMonitorSpawned` | tina-http/src/connection.rs:1329-1347 | the pending request goes to the service, or the connection is to close |
| `Pipeline.ConnectionPipe.HandleServicePeerMonitorEnded` | tina-http/src/connection.rs:1349-1378 | the monitor's byte is kept, or read at once when the response is already out |
| `Pipeline.ConnectionPipe.HandleFinishResponse` | tina-http/src/connection.rs:1632-1665 | close, await the monitor, read, or go on with the read-ahead |
| `Pipeline.ConnectionPipe.Handle` | tina-http/src/connection.rs:818-1378 | one event of a run, through the fields |
| `Pipeline.Drive` | tina-http/src/connection.rs:818-1378 | the object driven through any list of events ends in the state of the run |
| `StreamedRequests.DispatchKeepsTheBody` | tina-http/src/connection.rs:1010-1025 | of the bytes read with the head a streamed dispatch keeps exactly those of the body; none is lost if and only if the buffer ends with the message or before |
| `StreamedRequests.NextRequestIsInStep` | tina-http/src/connection.rs:1121-1288 | over every run of the body the next request is read from the end of this one if and only if nothing read with the head passed it and the whole body was received |
| `StreamedRequests.ChunkedIsInStep` | tina-http/src/connection.rs:766-795 | a chunked body that ended whole leaves no raw bytes for the reset to drop if and only if the bytes read with the head did not pass its end |
| `StreamedRequests.SecondRequestIsLost` | tina-http/src/connection.rs:1010-1025 | two requests in one read: buffered the second waits as read-ahead, streamed it is gone |
| `StreamedRequests.RemainderIsReadAsRequest` | tina-http/src/connection.rs:1632-1665 | a service that answers before it pulled the body: the connection is reused and the body's byte is dispatched as a request |
| `ResponseWire.FramedGrows` | tina-http/src/connection.rs:1758-1813 | a source chunk extends the framed body by its framing, truncated to the declared length |
| `ResponseWire.StepKeepsInv` | tina-http/src/connection.rs:1536-1626 | every partial write and source reply keeps accepted plus queued equal to head plus framed body |
| `ResponseWire.WireCarriesTheResponse` | tina-http/src/connection.rs:1393-1830 | the wire carries head and framed body byte for byte; without trouble the response ends whole and the connection is reused exactly when it was not to close; a chunked body decodes back |
| `ResponseWire.FirstWrite` | tina-http/src/connection.rs:1393-1489 | the first write is the head, with the body exactly when it is empty or unmetered and of at most 4096 bytes |
| `ResponseWire.ClosesWithTheWrite` | tina-http/src/connection.rs:1393-1489 | over every run a write also closes the transport exactly when it carries the whole response, on TCP, of a connection that is to close |
| `ResponseWire.ResponseWriter.Begin` | tina-http/src/connection.rs:1393-1489 | head and body are coalesced, queued or streamed as the body and the metering demand |
| `ResponseWire.ResponseWriter.Wrote` | tina-http/src/connection.rs:1536-1600 | drain, promote the buffered body, pull or finish |
| `ResponseWire.ResponseWriter.StreamReply` | tina-http/src/connection.rs:1690-1813 | a source reply is framed, ends the body, or closes the connection |
| `ResponseWire.ResponseWriter.StreamEof` | tina-http/src/connection.rs:1817-1834 | the terminator goes out, or a short known-length body forces a close |
| `ResponseWire.ResponseWriter.WroteAndClosed` | tina-http/src/connection.rs:1602-1626 | the rest of the bytes goes out first, then everything ends in a close |
| `ResponseWire.Drive` | tina-http/src/connection.rs:1393-1834 | the writer driven through any list of events ends in the state of the run |
| `ResponseCharge.ChargeKeeps` | tina-http/src/connection.rs:1536-1626 | every write and source reply keeps the charge tied to what the outstanding write carries |
| `ResponseCharge.ChargeIsWhatIsMissing` | tina-http/src/connection.rs:1555-1580 | over every run a metered buffered or known-length response owes nothing while its head goes out and then exactly the queued body bytes the wire has not accepted |
| `ResponseCharge.FrameShortfall` | tina-http/src/connection.rs:1786-1813 | over every run a chunked response owes less than the data missing by exactly the least of the bytes gone, the size line, the data and what is missing; by nothing if and only if the frame has not begun or its data is out |
| `ResponseCharge.SizeLineReleasesData` | tina-http/src/connection.rs:1555-1561 | a concrete partial write: the wire took the size line of a three-byte chunk, and nothing is owed for the three bytes still to go |
| `Atomics.RaiseMark` | tina-http/src/body_metrics.rs:42-50 | under interference and spurious misses the compare-exchange loop leaves the larger of the value it found and the mark |
| `Atomics.SubtractSaturating` | tina-http/src/body_metrics.rs:54-63 | under interference and spurious misses the loop subtracts once and stops at zero |
| `BodyLedger.ChargeIsExact` | tina-http/src/body_metrics.rs:157-262 | in a balanced shard an admitted charge that fits a word adds its weight, within both caps, and raises the marks to it |
| `BodyLedger.AdmittedExactly` | tina-http/src/body_metrics.rs:162-202 | in a balanced shard a charge is admitted if and only if neither cap below the word size is passed; a refusal counts once, on the surface whose own cap is passed or else on the shared counter, and changes nothing else |
| `BodyLedger.ChargeIsOwed` | tina-http/src/connection.rs:2641-2685 | a connection's charge fails exactly when it is metered, not empty and over a cap; otherwise a metered connection owes it |
| `BodyLedger.ReleaseIsExact` | tina-http/src/connection.rs:2652-2709 | the saturating subtraction never saturates |
| `BodyLedger.DropGivesBackExactly` | tina-http/src/connection.rs:2735-2747 | a dropped connection gives back exactly what it owed |
| `BodyLedger.BalancedIffItFits` | tina-http/src/connection.rs:2641-2747 | every charge, release and drop keeps the ledger balanced, if and only if it is not an admitted charge past the word size |
| `BodyLedger.LedgerBalances` | tina-http/src/body_metrics.rs:157-262 | over every run whose charges fit, the counters are the sums over the connections, both caps hold, the marks are the running maxima, and nothing owed means zero |
| `BodyLedger.LedgerBalancesExactly` | tina-http/src/body_metrics.rs:157-262 | a run is balanced throughout if and only if every charge it admits fits a word; a shared cap below the word size is enough |
| `BodyLedger.UncappedChargeWraps` | tina-http/src/body_metrics.rs:218-229 | without caps, two connections that hold a word of bytes and one more between them leave the counter at zero and the ledger unbalanced |
| `BodyLedger.BodyMetrics.TryChargeSurface` | tina-http/src/body_metrics.rs:162-216 | the surface's cap is checked first, then the shared one, then the charge is made |
| `BodyLedger.BodyMetrics.ChargeSurface` | tina-http/src/body_metrics.rs:218-258 | counter and both high-water marks move as specified |
| `BodyLedger.BodyMetrics.ReleaseSurface` | tina-http/src/body_metrics.rs:231-262 | the surface's counter falls by the released weight, not below zero |
| `BodyLedger.ConnectionCharges.ChargeBody` | tina-http/src/connection.rs:2641-2685 | the connection owes what was admitted and nothing more |
| `BodyLedger.ConnectionCharges.ReleaseBody` | tina-http/src/connection.rs:2652-2699 | never more than owed is released |
| `BodyLedger.ConnectionCharges.ReleaseAll` | tina-http/src/connection.rs:2735-2747 | after close or drop nothing is owed |
| `Bridge.StepKeepsInv` | tina-aws-bridge/src/worker.rs:287-462 | every handler turn and task step keeps gauges, entries, replies, timers and totals consistent |
| `Bridge.GaugesAgreeWithState` | tina-aws-bridge/src/metrics.rs:103-154 | in every interleaving each gauge is the size of its set, never negative, within the cap, and the mark is the peak |
| `Bridge.RepliesAndTimeoutsAreConserved` | tina-aws-bridge/src/worker.rs:331-434 | each request is answered once or in flight unanswered, each entry has one pending poll, timeouts are late plus retired abandoned entries, each finished task is tallied once |
| `Bridge.ClosedOnlyDrains` | tina-aws-bridge/src/worker.rs:287-303 | once closed no whole handler turn ever adds an entry, however the run goes on |
| `BridgeClosing.AdmissionKeeps` | tina-aws-bridge/src/worker.rs:305-378 | an admission past its closed check keeps gauges, entries, replies, timers and totals consistent, whatever the flag says by then |
| `BridgeClosing.Commutes` | tina-aws-bridge/src/worker.rs:287-378 | a task step or a close before an admission ends where it would end after it |
| `BridgeClosing.SplitRunIsARun` | tina-aws-bridge/src/worker.rs:287-378 | however closes and task steps fall between a check and its admission, the settled state is that of a run of whole turns |
| `BridgeClosing.CloseAddsAtMostOne` | tina-aws-bridge/src/worker.rs:106-121 | after a close at most one entry is ever added, the one whose check came before; with none under way the bridge only drains |
| `BridgeClosing.AdmittedAfterClose` | tina-aws-bridge/src/worker.rs:293-351 | the late entry is real: closed with nothing in flight, then one in flight |
| `BridgeAnswers.StepLogged` | tina-aws-bridge/src/worker.rs:287-456 | every event keeps the record of which task each answer came from |
| `BridgeAnswers.EveryAnswerHasItsCause` | tina-aws-bridge/src/worker.rs:287-456 | a request has an answer exactly when it is not in flight unanswered; the answer is its own task's result, that task's loss, its own timeout, or a refusal without a task; every request is in exactly one admission counter |
| `BridgeTurns.ClosedSince` | tina-aws-bridge/src/worker.rs:82-99 | the bridge is closed exactly from the first close on |
| `BridgeTurns.TurnsAreExact` | tina-aws-bridge/src/worker.rs:287-434 | in every reachable state a request is refused as closed, invalid or full for exactly these causes in this order, or admitted; a poll answers with the task's result or loss, with a timeout if and only if the task has not ended, a caller waits and this poll is past the deadline, and else changes nothing |
| `BridgeTurns.TimeoutsWereExpired` | tina-aws-bridge/src/worker.rs:395-425 | a request is answered with a timeout only if a poll of its own entry was past the deadline |
| `BridgeTurns.ResultsAreCounted` | tina-aws-bridge/src/worker.rs:801-822 | each terminal counter is the number of finished tasks with its own results |
| `BridgeTurns.RefusalsAreCounted` | tina-aws-bridge/src/worker.rs:292-329 | each refusal counter is the number of requests refused for its own cause |
| `BridgeWorker.Drive` | tina-aws-bridge/src/worker.rs:287-462 | the worker driven through any list of handler turns and task steps ends in the state of the run |
| `BridgeWorker.S3Worker.Handle` | tina-aws-bridge/src/worker.rs:287-462 | each turn and task step does to the worker and its counters what the step of the run does |
| `BridgeWorker.MetricsInner.NoteInFlight` | tina-aws-bridge/src/metrics.rs:109-122 | the high-water mark is the larger of the old mark and the count |
| `BridgeWorker.MetricsInner.AdmitKind` | tina-aws-bridge/src/metrics.rs:124-127 | the kind's count rises by one |
| `BridgeWorker.MetricsInner.TerminalKind` | tina-aws-bridge/src/metrics.rs:146-154 | the kind's count falls by one and disappears at zero |
| `BridgeWorker.MetricsInner.Tally` | tina-aws-bridge/src/worker.rs:801-822 | a finished task lands in exactly one terminal counter |
| `BridgeWorker.S3Worker.CheckAdmission` | tina-aws-bridge/src/worker.rs:292-329 | closed, invalid and full are checked in that order, counted and answered |
| `BridgeWorker.S3Worker.AdmitEntry` | tina-aws-bridge/src/worker.rs:331-378 | the entry, the next id and all counters of an admission |
| `BridgeWorker.S3Worker.RetireEntry` | tina-aws-bridge/src/worker.rs:381-394 | the entry leaves and the gauges it was in fall |
| `BridgeWorker.S3Worker.PollEntry` | tina-aws-bridge/src/worker.rs:381-434 | a poll retires, times out or waits, with the reply and the next poll |
| `SyncCodec.DecodeChunk` | tina-codec/src/lib.rs:283-308 | for any lawful codec the driver loop terminates, its progress assertion never fires, and it yields the specified frames and status |
| `LineCodec.LineCodecIsLawful` | tina-codec/src/line.rs:78-145 | after any history `NeedMore` on non-empty input consumes at least one byte, and the buffer stays within cap plus two |
| `LineCodec.TerminalForever` | tina-codec/src/line.rs:78-145 | after `Full` or `Malformed` no later read changes anything |
| `LineCodec.DecodeIsSplit` | tina-codec/src/line.rs:78-145 | decoding from an unfinished line is splitting that line with what follows |
| `LineCodec.LinePartitionInvariance` | tina-codec/src/lib.rs:283-308 | every partition into reads emits the frames and status of the whole-stream line splitter |
| `LineCodec.AcceptedIsTheCap` | tina-codec/src/line.rs:123-133 | a terminated line that fits memory is accepted if and only if its CR-stripped body fits the cap |
| `LineCodec.LineRoundTrip` | tina-codec/src/line.rs:108-145 | lines joined with LF or CRLF are split by the reference splitter into exactly those lines |
| `LineCodec.LineRoundTripInParts` | tina-codec/src/lib.rs:283-308 | `decode_chunk` yields exactly those lines under every partition of the wire, and the end behind them is clean |
| `LineCodec.FinishAfterParts` | tina-codec/src/line.rs:155-184 | after any reads the end of the stream is clean exactly between lines, else too long, a final frame if allowed, or malformed; a terminal status is repeated |
| `LineCodec.LineBufferIsBounded` | tina-codec/src/line.rs:89-104 | after any reads at most cap plus two bytes are buffered |
| `LineCodec.LineIsDecided` | tina-codec/src/line.rs:78-145 | for every cap: without a newline a line is over the cap exactly from cap plus two bytes on, with one exactly when its body passes the cap; a rejected NUL counts within those bytes |
| `LineCodec.UnterminatedIsDecided` | tina-codec/src/line.rs:78-145 | the same of a stream without a newline under every cut into reads |
| `LineCodec.LineFramer.FeedBytes` | tina-codec/src/line.rs:78-105 | stops after one newline, never past the cap plus two |
| `LineCodec.LineFramer.NextFrame` | tina-codec/src/line.rs:108-145 | yields the stripped line or the decision |
| `LengthCodec.BufferIsBounded` | tina-codec/src/length_delimited.rs:125-178 | after any reads the buffer is at most the larger of prefix width and cap |
| `LengthCodec.LengthCodecIsLawful` | tina-codec/src/length_delimited.rs:125-178 | the framer never stalls and keeps its bound |
| `LengthCodec.FullForever` | tina-codec/src/length_delimited.rs:125-178 | after `Full` no later read changes anything |
| `LengthCodec.DecodeIsSplit` | tina-codec/src/length_delimited.rs:125-178 | decoding from an unfinished frame is splitting that frame with what follows |
| `LengthCodec.LengthPartitionInvariance` | tina-codec/src/lib.rs:283-308 | every partition into reads emits the frames and status of the whole-stream splitter, and `finish` is clean exactly on a frame boundary |
| `LengthCodec.FinishAfterParts` | tina-codec/src/length_delimited.rs:185-203 | after any reads the end of the stream is full after an oversized frame, clean exactly between frames, and else cut off |
| `LengthCodec.LengthRoundTrip` | tina-codec/src/length_delimited.rs:228-245 | encoded bodies put end to end are split by the reference splitter into exactly those bodies |
| `LengthCodec.LengthRoundTripInParts` | tina-codec/src/lib.rs:283-308 | `decode_chunk` yields exactly those bodies under every partition of the wire, and the end behind them is clean |
| `LengthCodec.WireFormat` | tina-codec/src/length_delimited.rs:228-245 | the encoded frame byte by byte, most significant length byte first, and the largest body of each prefix |
| `LengthCodec.EncodeInto` | tina-codec/src/length_delimited.rs:228-245 | appends prefix and body, or nothing exactly when the prefix cannot hold the length |
| `LengthCodec.LengthDelimitedFramer.FeedBytes` | tina-codec/src/length_delimited.rs:125-139 | takes no more than the current prefix or body needs |
| `LengthCodec.LengthDelimitedFramer.NextFrame` | tina-codec/src/length_delimited.rs:142-178 | checks the announced length before any body byte is buffered |
| `GrpcStream.GrpcStreamDecoder.FrontAt` | tina-http/src/grpc.rs:2672-2705 | the frame at the cursor is partial, bad for the first failing check, or whole |
| `GrpcStream.GrpcStreamDecoder.PushInto` | tina-http/src/grpc_client.rs:552-594 | appends the messages of the whole-stream splitter and reports its error; what stays buffered is what the splitter leaves of everything pushed |
| `GrpcStream.GrpcStreamDecoder.Finish` | tina-http/src/grpc_client.rs:598-604 | clean if and only if everything pushed so far, taken as one stream, ends on a frame boundary |
| `GrpcStream.ErrorRepeats` | tina-http/src/grpc_client.rs:552-594 | after an error every later push repeats it and yields no message |
| `GrpcStream.SplitEnds` | tina-http/src/grpc_client.rs:552-594 | what stays buffered after success is shorter than a header plus the cap |
| `GrpcStream.GrpcPartitionInvariance` | tina-http/src/grpc_client.rs:552-594 | every partition emits the messages, first error and rest of one push |
| `GrpcStream.GrpcRoundTrip` | tina-http/src/grpc.rs:2648-2670 | messages encode exactly when each fits the limit and four bytes, and then decode to themselves, ending on a frame boundary |
| `GrpcStream.SplitWasEncoded` | tina-http/src/grpc_client.rs:552-594 | the converse: whatever a stream splits into was encoded from payloads within the limit that decode to its messages, followed by the rest |
| `GrpcStream.HeaderDecides` | tina-http/src/grpc.rs:2672-2705 | a frame is refused for its flag, then for its length, then partial, then undecodable, else whole |
| `GrpcStream.WireFormat` | tina-http/src/grpc.rs:2648-2670 | the frame header byte by byte, and the payloads that are refused |
| `Slab.LinkedUnique` | vendor-betelgeuse/slab.rs:40-102 | the links determine the chain: the free list has one reading |
| `Slab.NewRefines` | vendor-betelgeuse/slab.rs:40-50 | a new slab lists every slot once, in ascending order |
| `Slab.AcquirePops` | vendor-betelgeuse/slab.rs:74-80 | `acquire` fails exactly when no slot is free and otherwise pops the stack; its assertion never fires |
| `Slab.ReleasePushes` | vendor-betelgeuse/slab.rs:94-102 | `release` pushes, so reuse is last in, first out |
| `Slab.DropUndoesAcquire` | vendor-betelgeuse/slab.rs:184-195 | a guard dropped over a slot still free undoes its acquire |
| `Slab.SweepYieldsOccupied` | vendor-betelgeuse/slab.rs:145-166 | a sweep yields exactly the occupied slots in ascending order, whichever of them are released on the way |
| `Slab.StepRefines` | vendor-betelgeuse/slab.rs:40-195 | every operation on the array refines the operation on the stack |
| `Slab.FreeListIsExact` | vendor-betelgeuse/slab.rs:40-195 | over every run the chain is in bounds, acyclic and exactly the free slots nobody holds, and the list is empty exactly when there are none |
| `Slab.SlabArena.constructor` | vendor-betelgeuse/slab.rs:40-50 | the loop links the array as specified |
| `Slab.SlabArena.AcquireSlot` | vendor-betelgeuse/slab.rs:74-80 | the head is unlinked and the slot untouched |
| `Slab.SlabArena.ReleaseSlot` | vendor-betelgeuse/slab.rs:94-102 | the slot is linked in front |
| `Slab.SlabArena.DropEntryGuard` | vendor-betelgeuse/slab.rs:184-195 | a free slot becomes the head again, an occupied one stays |
| `Slab.SlabArena.Sweep` | vendor-betelgeuse/slab.rs:145-166 | the cursor loop yields and releases as specified |
| `Slab.SlabArena.Perform` | vendor-betelgeuse/slab.rs:40-195 | one operation of a run, with every precondition of the array operations met |
| `Slab.Drive` | vendor-betelgeuse/slab.rs:40-195 | the array driven through any list of operations ends in the state of the run, so no index or assertion fails |

## Left out

- Head parsers, protobuf and the TLS and TCP runtime: heads are an abstract parser assumed prefix-stable (a complete head stays complete and the same when bytes follow), message payloads an abstract decoder; a write reports at most what it was given and a read at most what was asked.
- Clocks, deadlines and randomness: time is a parameter (`now`, `expired`), timers are events that fire at any moment.
- Keepalive after `Stop`: a stopped isolate handles nothing more, so runs end there; TCP and TLS are one transport, and error values are reduced to their cause.
- KeepaliveRuns.EveryRunIsSafe: up to 2^64-1 events, because the request counter's overflow is the one `expect` that can fire; read buffers are assumed to stay within the address space.
- KeepaliveConnection.KeepaliveConnection.HandleBody: the chunked decoder inside the in-flight record is held as a value and advanced by the `feed_all` function, not as a nested object.
- The cancel message to a stream source when its response is cut short, and the effect of closing a transport beyond counting it.
- WebSocket sessions and upgrades, and the header deadline of the server connection; a deadline is a close like any other in the pipelining runs.
- Pipeline.PipeliningLosesNothing: speaks of runs up to the first streamed request; a streamed request is treated on its own, from its dispatch to the end of its body.
- Event-lane delivery of requests: folded into the service call, whose outcome is free.
- The `io_error`, `timeout` and `full_count` counters of the body metrics and the reports.
- ResponseCharge.ChargeIsWhatIsMissing: for a head of at least one byte, as every encoded head has.
- BodyLedger.LedgerBalancesExactly: what one connection owes on one surface is assumed to fit a word, being the length of byte vectors it holds; the sum over connections is not.
- Pipeline.ConnectionPipe.HandleRead: the branch that hands bytes to an upgraded WebSocket session is not modelled.
- Interference between threads on the body counters: the compare-exchange loops are proved under stores of other threads, while the ledger's objects run on their one shard.
- Bridge.RepliesAndTimeoutsAreConserved: below 2^64 admissions, after which ids repeat.
- Bridge.ClosedOnlyDrains: for handler turns as a whole; a close in the middle of an admission is `BridgeClosing.CloseAddsAtMostOne`.
- The other four AWS workers and their metrics: the same machine as S3.
- AWS SDK calls, error classifiers, configuration validation, budgets, delivery and the adapter: foreign calls or flat tables.
- Raw pointers and lifetimes of slab guards and iterators, and the memory ordering of atomics: guards are calls on ids, counters change one atomic step at a time.
- Connection pool, targets, transports, the rest of the vendored runtime, fuzz targets and example programs: single-branch plumbing around the cores modelled here.
