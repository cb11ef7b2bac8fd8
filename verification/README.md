# NetConduit: a verified model of its protocol machinery

NetConduit moves messages between a server and its clients over QUIC: a Rust core
(`netconduit_core`) and a Python layer (`conduit`). This project models the stateful machinery
between the wire and the application and proves what it keeps over whole runs. Run
`dafny verify dfyconfig.toml` to check it.

What the source does step by step on mutable state is a class here with the same fields, and each
of its methods is tied by its `ensures` to a specification function of the old state. The theorems
are about those functions, over every run of them. What the source leaves to libraries and the
environment is a parameter: packet encoding, codecs, digests, handlers, clocks, new identifiers.
Where a theorem needs such a parameter to be lossless, that is one of its hypotheses.

| Modules | What they model | Main results |
|---|---|---|
| `ReorderBuffer`, `DrainSpec`, `ReorderRuns`, `OrderedDelivery` | the per-stream reorder buffer and the sequence counter | the drain loop computes the only solution of an order-theoretic specification; what every run keeps, and exactly where 64 bits end that; exactly when a stream is stuck for good; end-to-end ordered delivery, and the exact window under which it holds |
| `RateLimiter`, `RateBounds` | the token-bucket limiter | sliding-window bound; a run is admitted in full exactly when every stretch of it keeps to the rates; the wait time is exact exactly for messages that fit the bucket; polls and refusals leave no trace |
| `RpcCorrelation` | pending RPCs over a network that reorders, repeats and loses | replies resolve their own call and any open call can finish; every finished wait holds the result of its own call's dispatch; outcomes are final |
| `ServerSessions`, `SessionSafety` | authentication, session resumption, gating | handlers and RPCs run exactly as the sender's own session profile permits, which an earlier check granted; every message is answered as it should be; tokens bring back the profile they were issued for |
| `Bytes`, `FrameDecoder` | length-prefixed frames arriving in chunks | chunking invariance, resynchronisation, and exactly when frames that fail to parse lose messages under some cut |
| `Compression`, `DuplexStream` | codec choice in flag bits; long-lived duplex streams | exactly when compression is transparent; duplex round trip, also for a stream cut at any byte |
| `Stun` | the STUN attribute walk (sections 15 and 15.2 of RFC 5389) | parsing undoes printing, and what is read is said bit by bit |
| `Heartbeat`, `HeartbeatRuns` | staleness detection | a target is reported exactly when its overdue ticks say so, and in bounded time |
| `MessageRouter` | prioritised handlers | the table is the one stable sort of the registrations, and routing follows it |
| `PubSub` | bounded subscriber queues | delivery is exact: only what met a full queue is missing |
| `FileTransfer` | chunked upload and download | downloads serve the stored file; exactly when an upload is its chunks; completion succeeds exactly when what was written has the declared digest |

`Sequences` holds shared helpers.

## What turned out false, and when the code does meet it

- **Two additions wrap.** Sequence numbers and `max_gap` are unsigned 64-bit and the model wraps
  their additions, as a release build does. Behind 2^64 - 1 the cursor returns to 0
  (`WrapBreaksOrder`), and where cursor and `max_gap` add up to 2^64 a single missing packet is
  skipped (`WrapSkipsNarrowGap`), with `max_gap` = 2^64 - 1 already packet 1
  (`UnlimitedToleranceSkips`). For all runs whose pushed numbers are below a bound B, and a buffer
  that holds anything: deliveries strictly increase if and only if B <= 2^64 - 1 (`OrderExactly`),
  and only gaps wider than `max_gap` are skipped if and only if B <= 2^64 - 1 and
  B - 1 + `max_gap` <= 2^64 (`ToleranceExactly`). The drain meets its specification in every run,
  wraps and resets included (`AlwaysSound`, `DrainMeetsSpec`).
- **Ordered delivery needs a window.** A full buffer refuses even the packet it waits for, and a wide
  gap is jumped. `WindowIsExact`: in-order, complete delivery holds for all traffic within a window
  if and only if the window is at most `max_buf` and at most `max_gap` + 1. `StuckForeverExactly`: a
  stream delivers nothing ever again, short of a reset, if and only if it is full, lacks the packet it
  waits for, and has nothing beyond the tolerated gap.
- **The wait time of an oversized message.** `time_until_allowed` reports a finite wait for a message
  larger than the byte bucket, which no wait ever lets through. `WaitIsExact`: the wait is exact if
  and only if the message fits.
- **A bad frame loses the messages before it in its call.** `decode_all` raises at a frame that does
  not parse and drops what it decoded earlier in the same call; what follows stays in the buffer.
  `RetryLosesNothingExactly`: decoding everything, again when it raises, yields all messages that
  parse if and only if none of them comes before a frame that does not, and it leaves the same bytes
  either way; it does so under every cut into chunks if and only if the same holds
  (`ChunkingShowsFailures`). Taking frames one at a time with `decode_one` never loses any, however the bytes are cut
  (`ChunkedFramesResynchronise`). A frame over 100 MiB empties the whole buffer (`FrameIsConsumed`).
- **A cut length prefix looks like a clean end.** `TruncatedStream` says what a duplex receiver sees
  for every cut: an end within the four length bytes is reported as a clean close.
- **Uploads that are not their chunks.** `get_download_chunk` seeks before it fails to read, and so
  moves the write position of an upload (`DisturbedUploadIsOverwritten`). Starting an upload under the
  id of one still open empties the file first and only then drops the old handle, which writes what
  it held back into the new file (`RestartMixesUploads`).
  `UploadIsConcatenationExactly`: at every moment since its start an open upload is the
  concatenation of its chunks if and only if the start found no upload holding back bytes under its
  id, and every non-empty chunk came with the write position at the end. `AlignedUploadExactly`: with
  such positions it is its chunks in the end if and only if they are at least as long as what was held
  back. Completion checks whatever was written (`CompletionIsChecked`), and a transfer reported as
  completed always has the declared digest (`CompletedHasDigest`).
- **Packets compressed for a receiver without codecs** come through compressed.
  `PacketCompressionIsTransparent` and `SafePacketFlagsExactly` say exactly when a packet comes back
  as it was.

## Reading the statements

- Sequence numbers, ids and counters of the Python side are unbounded there and here. Flag words are
  32-bit vectors; lengths are four real big-endian bytes.
- Time is a real number passed to each method; the limiter's tokens are reals.
- Every event a method handles is one step. Runs are arbitrary sequences of events, so any order of
  arrival is covered, but not a suspension in the middle of handling one event.
- Session theorems are about messages the mesh does not take. A packet for another node, and a mesh
  handshake or encrypted packet for the server, is answered before the authentication check
  (conduit/server.py:489-586) and appears as one outcome that changes nothing; any other mesh packet
  for the server is handled like a direct one.
  A method without a registry entry (`listall` among them) passes ungated, as in the source.
- New session tokens are assumed distinct and non-empty, which is what a random UUID stands for.
- How much of an upload's writes is still held back in the handle's buffer is an input of each write:
  the theorems hold whatever the buffering. A handle that is dropped writes what it held back at once.
- `on_stale` is the server's own callback, which disconnects the target and unregisters it.

## Model

| member | source | states |
|---|---|---|
| `ReorderBuffer.ConduitReorderBuffer.Push` | netconduit_core/src/core.rs:581-589 | stream 0 holds nothing; late packets are swallowed as accepted; a full queue refuses; else the packet is held; other streams are untouched |
| `ReorderBuffer.ConduitReorderBuffer.DrainReady` | netconduit_core/src/core.rs:591-611 | the loop terminates and returns the packets of the drain specification, touching one stream only |
| `ReorderBuffer.ConduitReorderBuffer.NextExpected` | netconduit_core/src/core.rs:613-615 | the stream's cursor, 0 for an unknown stream |
| `ReorderBuffer.ConduitReorderBuffer.BufferedCount` | netconduit_core/src/core.rs:617-619 | the number of packets held |
| `ReorderBuffer.ConduitReorderBuffer.ResetStream` | netconduit_core/src/core.rs:621 | the stream starts afresh, all others are as before |
| `ReorderBuffer.ConduitReorderBuffer.ResetAll` | netconduit_core/src/core.rs:622 | every stream starts afresh |
| `ReorderBuffer.ConduitSequenceCounter.Next` | netconduit_core/src/core.rs:635-640 | hands out the stream's count and advances it by one, wrapping |
| `ReorderBuffer.ConduitSequenceCounter.ResetStream` | netconduit_core/src/core.rs:646 | only this stream's count returns to 0 |
| `DrainSpec.DrainMeetsSpec` | netconduit_core/src/core.rs:591-611 | whenever nothing late is held, a drain delivers an increasing chain of packets, each at the cursor or beyond the 64-bit sum of cursor and `max_gap`, loses none, and stops with nothing deliverable and nothing late |
| `DrainSpec.DrainIsUnique` | netconduit_core/src/core.rs:591-611 | that specification has exactly one solution, the drain's result |
| `ReorderRuns.AlwaysSound` | netconduit_core/src/core.rs:581-621 | in every run, wraps and resets included, at most `max_buf` packets are held and none is late, which is all the drain specification needs |
| `ReorderRuns.PushVerdictExactly` | netconduit_core/src/core.rs:585-588 | a push is accepted and late, or accepted into a queue with room and held with its payload, or refused by a full queue and changes nothing; nothing else is possible |
| `ReorderRuns.AcceptedIsNeverLost` | netconduit_core/src/core.rs:581-611 | over any run without reset a packet not late is accepted if and only if the queue has room, and its number is held or delivered ever after |
| `ReorderRuns.TraceSafety` | netconduit_core/src/core.rs:581-611 | over any run without reset that never pushes 2^64 - 1, deliveries strictly increase and carry the payload last kept; what was kept is held or delivered |
| `ReorderRuns.SkippedGapsAreWide` | netconduit_core/src/core.rs:602-605 | with numbers clear of the wrap, whatever is skipped lies in a gap wider than the tolerance |
| `ReorderRuns.OrderExactly` | netconduit_core/src/core.rs:596-605 | deliveries strictly increase in every run of numbers below B if and only if B <= 2^64 - 1 or nothing can be held |
| `ReorderRuns.ToleranceExactly` | netconduit_core/src/core.rs:602-605 | only gaps wider than `max_gap` are skipped in every such run if and only if also B - 1 + `max_gap` <= 2^64 |
| `ReorderRuns.WrapBreaksOrder` | netconduit_core/src/core.rs:596-599 | for every configuration that holds anything, a run that delivers 2^64 - 1 and then 0 |
| `ReorderRuns.WrapSkipsNarrowGap` | netconduit_core/src/core.rs:602-605 | a run that skips a single packet where cursor and tolerance add up to 2^64 |
| `ReorderRuns.UnlimitedToleranceSkips` | netconduit_core/src/core.rs:602-605 | with `max_gap` = 2^64 - 1 packets 0 and 2 are delivered without 1 |
| `ReorderRuns.UnwedgedDelivers` | netconduit_core/src/core.rs:581-611 | unless wedged, one push and one drain at most deliver something |
| `ReorderRuns.StuckForeverExactly` | netconduit_core/src/core.rs:581-611 | no run without reset delivers anything more if and only if the stream is full, lacks its wanted packet and has no jump to make |
| `ReorderRuns.StreamsAreIndependent` | netconduit_core/src/core.rs:570-622 | each stream of a shared buffer behaves as if alone with its own events |
| `OrderedDelivery.PrefixDelivery` | netconduit_core/src/core.rs:581-611 | under a fitting window what has been delivered is at every moment a prefix of what was sent |
| `OrderedDelivery.RefusedIsDuplicate` | netconduit_core/src/core.rs:581-589 | under a fitting window a refused packet is held already, with the same payload |
| `OrderedDelivery.CompleteDelivery` | netconduit_core/src/core.rs:581-611 | once all is pushed and a drain followed, everything sent is delivered, in order |
| `OrderedDelivery.WiderThanBufferFails` | netconduit_core/src/core.rs:586 | with any window above `max_buf` some windowed traffic is not delivered |
| `OrderedDelivery.WiderThanGapFails` | netconduit_core/src/core.rs:602-605 | with any window above `max_gap` + 1 some windowed traffic is delivered out of order |
| `OrderedDelivery.WindowIsExact` | netconduit_core/src/core.rs:581-611 | for every configuration: ordered and complete delivery of all windowed traffic if and only if the window (or, if less, the longest stream clear of the wrap) is at most `max_buf` and at most `max_gap` + 1 |
| `OrderedDelivery.CountersCount` | netconduit_core/src/core.rs:635-640 | the counter of a stream is the number of messages sent on it |
| `OrderedDelivery.WireIsSent` | netconduit_core/src/core.rs:635-640 | packet n of a stream carries the n-th payload sent on it |
| `OrderedDelivery.SentIsWired` | netconduit_core/src/core.rs:635-640 | every payload sent travels under its own position as number: no gaps |
| `OrderedDelivery.EndToEnd` | netconduit_core/src/core.rs:581-640 | counter, adversarial network and buffer together: on each windowed stream of many, the drains return exactly the first payloads sent, and all of them once all has arrived and been drained |
| `RateLimiter.RateLimiter.constructor` | conduit/ratelimit/limiter.py:32-35 | both buckets start full |
| `RateLimiter.RateLimiter.RefillTokens` | conduit/ratelimit/limiter.py:37-53 | each enforced bucket earns its rate for the elapsed time, up to its cap |
| `RateLimiter.RateLimiter.TryAcquire` | conduit/ratelimit/limiter.py:55-88 | after a refill both buckets pay or neither does, and the verdict says which |
| `RateLimiter.RateLimiter.TimeUntilAllowed` | conduit/ratelimit/limiter.py:90-113 | the larger of the two waits after a refill, which is all it changes |
| `RateLimiter.RefillComposes` | conduit/ratelimit/limiter.py:37-53 | a refill split at any moment equals one refill |
| `RateLimiter.WaitIsExact` | conduit/ratelimit/limiter.py:90-113 | an acquire d later succeeds exactly for d at least the wait, if and only if the message fits the byte bucket; otherwise it never succeeds |
| `RateBounds.SlidingWindow` | conduit/ratelimit/limiter.py:37-88 | over any window of any run, admitted messages and bytes are at most rate times length plus one full bucket |
| `RateBounds.BucketsStayWithinCaps` | conduit/ratelimit/limiter.py:37-113 | over any run of acquires and polls both buckets stay between 0 and their caps |
| `RateBounds.AdmittedExactly` | conduit/ratelimit/limiter.py:55-88 | a run of attempts is admitted in full if and only if every stretch of it keeps to that bound |
| `RateBounds.PollingIsNeutral` | conduit/ratelimit/limiter.py:37-113 | dropping any refused attempts and polls changes no other outcome |
| `RpcCorrelation.Connection.NextCorrelationId` | conduit/protocol/encoder.py:69-71 | the next id is one above the last, starting at 1 |
| `RpcCorrelation.Connection.SendRpcRequest` | conduit/connection/connection.py:147-160 | the request carries a new id and a waiting future is opened for it |
| `RpcCorrelation.Connection.HandleDecodedMessage` | conduit/connection/connection.py:202-219 | a reply resolves its future if the call is open and the future not done; otherwise nothing changes and it is passed on |
| `RpcCorrelation.Connection.BeginWait` | conduit/connection/connection.py:164-166 | a waiter gets the future of an open call; any other id is an error |
| `RpcCorrelation.Connection.EndWait` | conduit/connection/connection.py:167-170 | a future that is done answers every waiter holding it; ending or cancelling a wait closes the call, and cancelling an open one cancels its future |
| `RpcCorrelation.RpcRefinesDirectCall` | conduit/connection/connection.py:147-219 | over any network every wait that finished holds the result of dispatching its call's method and parameters at one place of the server's sequential history; ids are unique, a call is open until a wait for it ended, and no wait is for a future nothing can complete |
| `RpcCorrelation.StatelessCallsAreExact` | conduit/server.py:609-653 | with stateless methods a finished call holds what calling directly returns |
| `RpcCorrelation.LateRepliesAreIgnored` | conduit/connection/connection.py:213-219 | a reply to a closed call, or one whose future is done, changes nothing |
| `RpcCorrelation.ReplyResolvesExactly` | conduit/connection/connection.py:213-219 | in every run a reply of the server resolves its future with its result and is intercepted if and only if the call is open and the future not done; otherwise it changes nothing and is passed on |
| `RpcCorrelation.CallsAreRequested` | conduit/connection/connection.py:147-160 | every call was sent as a request with its own id, method and parameters |
| `RpcCorrelation.OpenCallCanFinish` | conduit/connection/connection.py:147-219 | from any moment of any run an unanswered open call can be served and answered, and finishes with the result of dispatching it then |
| `RpcCorrelation.ResolvedWaitFinishes` | conduit/connection/connection.py:167-170 | every wait for a resolved future can finish with its result, also when another wait closed the call |
| `RpcCorrelation.WaitCanBeAbandoned` | conduit/connection/connection.py:167-170 | any wait can be cancelled, which closes the call and leaves its future done |
| `RpcCorrelation.OutcomesAreFinal` | conduit/connection/connection.py:147-219 | between any two moments of a run results persist, futures are done once, closed calls stay closed, and later ids are new |
| `ServerSessions.ConduitServer.ProcessConnect` | conduit/server.py:400-408 | a connection without a session enters the pool unless the pool is full |
| `ServerSessions.ConduitServer.ProcessDisconnect` | conduit/server.py:410-413 | the connection leaves the pool; tokens stay |
| `ServerSessions.ConduitServer.ProcessAuth` | conduit/server.py:422-487 | a recorded token resumes its profile; otherwise credentials or the password decide, failure removes the connection, success records a new token |
| `ServerSessions.ConduitServer.RouteMessage` | conduit/server.py:135-175 | the handlers whose gate, role and permission let the profile through, in order |
| `ServerSessions.ConduitServer.ProcessMessage` | conduit/server.py:415-679 | the order of checks: pool, authentication request, packets the mesh takes, session, rate limit, RPC gating (an empty role or permission is no demand), liveness, routing |
| `SessionSafety.PoolNeverOverfull` | conduit/connection/pool.py:57-62 | in every run the pool stays within its limit |
| `SessionSafety.ConnectAdmits` | conduit/connection/pool.py:57-62 | a connection is admitted, without a session, if and only if the pool is below its limit |
| `SessionSafety.UsersAreThoseAdded` | conduit/server.py:440-446 | credentials are checked against the users added, the last under each name |
| `SessionSafety.AuthenticationIsAnswered` | conduit/server.py:422-487 | a recorded token succeeds with its profile; else a proven password succeeds with a new token recorded for the profile proven; else the request fails and the client leaves; no other client is touched |
| `SessionSafety.MessageIsAnswered` | conduit/server.py:489-679 | every other message changes nothing and is answered: by the mesh, not at all without a session, or as the session's profile deserves: limited, dispatched or denied, handlers run, pong, record |
| `SessionSafety.PasswordGetsService` | conduit/server.py:400-646 | after any run that leaves room, a client that connects and proves a password has its next RPC dispatched if its profile passes the guard |
| `SessionSafety.SessionsAlwaysRecorded` | conduit/server.py:459-467 | in every run each session in the pool holds a recorded token under the profile recorded for it |
| `SessionSafety.AllTokensIssued` | conduit/server.py:432-462 | every recorded token was issued by an earlier request that proved a password, for the profile recorded |
| `SessionSafety.SessionsAreEarned` | conduit/server.py:432-477 | every session in the pool stems from a successful authentication of that same client, which has neither disconnected nor failed another since |
| `SessionSafety.OnlyAuthenticatedIsHandled` | conduit/server.py:588-591 | a handled message comes from a pooled connection whose session its own client earned in that way, and whose token and profile were issued together by an earlier check, on whichever connection |
| `SessionSafety.RunningPermits` | conduit/server.py:145-167 | the handlers run are exactly the permitted ones, in ascending order |
| `SessionSafety.GatedByGrantedProfile` | conduit/server.py:608-679 | a registered RPC is dispatched, and a handler runs, exactly when the sender's own session profile, granted with its token by an earlier check, carries the role and permission demanded and the gate does not refuse |
| `SessionSafety.FailedAuthSilences` | conduit/server.py:415-453 | after a failed check everything from that client is ignored until it connects anew |
| `SessionSafety.TokensStay` | conduit/server.py:459-462 | a recorded token keeps its profile for the rest of the run |
| `SessionSafety.TokenResumesProfile` | conduit/server.py:432-436 | an issued token presented later on any pooled connection succeeds and brings back its profile, whatever the password |
| `Bytes.BE32RoundTrip` | conduit/protocol/encoder.py:102-103 | a length survives its four big-endian bytes |
| `Bytes.BigEndian` | conduit/protocol/decoder.py:156 | the four bytes run from the most significant to the least, both ways |
| `Bytes.XorBits` | netconduit_core/src/core.rs:886-899 | a bit of the exclusive or is set if and only if the two bits differ |
| `FrameDecoder.ProtocolDecoder.Feed` | conduit/protocol/decoder.py:148-150 | the bytes are appended |
| `FrameDecoder.ProtocolDecoder.TakeOne` | conduit/protocol/decoder.py:152-168 | nothing for an incomplete frame, an emptied buffer for one over the limit, else the frame is removed and parsed |
| `FrameDecoder.ProtocolDecoder.TakeAll` | conduit/protocol/decoder.py:170-178 | all complete frames in order, or the failure, and the buffer left |
| `FrameDecoder.FramedExactly` | conduit/protocol/encoder.py:102-103 | a body below 2^32 bytes is written behind its big-endian length, a longer one not at all |
| `FrameDecoder.HeaderDecides` | conduit/protocol/decoder.py:154-164 | four bytes decide before the body arrives: over 100 MiB empties the buffer, else the decoder waits for as many bytes |
| `FrameDecoder.FrameIsConsumed` | conduit/protocol/decoder.py:152-168 | an encoded frame within the limit is consumed exactly, parsable or not; a longer one empties the buffer |
| `FrameDecoder.ChunkingInvariance` | conduit/protocol/decoder.py:148-178 | however a clean stream is cut, messages and leftover are those of one feed |
| `FrameDecoder.ChunkedFramesDecode` | conduit/protocol/decoder.py:148-178 | frames that parse and an incomplete tail, cut anywhere, yield exactly the messages and leave exactly the tail |
| `FrameDecoder.EachResynchronises` | conduit/protocol/decoder.py:152-168 | repeated `decode_one` yields exactly the messages of the frames that parse and leaves the tail |
| `FrameDecoder.ChunkedFramesResynchronise` | conduit/protocol/decoder.py:148-168 | and it does so however the bytes are cut into chunks |
| `FrameDecoder.FailureLosesCall` | conduit/protocol/decoder.py:165-178 | one unparsable frame makes the whole call raise |
| `FrameDecoder.RetryYieldsSinceFailure` | conduit/protocol/decoder.py:165-178 | `decode_all`, called again while it raises, yields what lies behind the last frame that does not parse and leaves the tail |
| `FrameDecoder.RetryLosesNothingExactly` | conduit/protocol/decoder.py:165-178 | that is every message that parses if and only if none comes before a frame that does not |
| `FrameDecoder.FrameByFrame` | conduit/protocol/decoder.py:165-178 | fed frame by frame, retried `decode_all` loses no message that parses |
| `FrameDecoder.ChunkingShowsFailures` | conduit/protocol/decoder.py:148-178 | under every cut into chunks it yields all messages that parse and leaves the tail, if and only if none comes before a frame that does not parse |
| `Compression.HarmlessFlagsExactly` | netconduit_core/src/core.rs:206-210 | extra flags leave every emitted codec as it is if and only if they avoid the two codec bits |
| `Compression.OtherFlagsAreHarmless` | netconduit_core/src/core.rs:36-44 | the five other flags, in any combination, avoid them |
| `Compression.CodecChosenExactly` | netconduit_core/src/core.rs:333-401 | which codec each size, policy and probe gets, and that its output is used only if shorter |
| `Compression.PayloadDecodesExactly` | netconduit_core/src/core.rs:297-310 | what any flags and payload decompress to |
| `Compression.CompressionIsTransparent` | netconduit_core/src/core.rs:297-401 | for every payload, policy and harmless extra flags, decompressing returns the payload and the body never grew; only Zstd can fail |
| `Compression.PrefixedRoundTrip` | netconduit_core/src/core.rs:499-544 | the codec-prefixed form decompresses to the payload |
| `Compression.PrefixedDecodesExactly` | netconduit_core/src/core.rs:527-544 | what any prefixed input decompresses to, with the error for an unknown codec |
| `Compression.PacketCodecChosenExactly` | conduit/protocol/encoder.py:44-59 | which codec each payload gets, counting the codec byte |
| `Compression.PacketDecodesExactly` | conduit/protocol/decoder.py:211-222 | what any packet decompresses to, with the precedence of its flag bits and the pass-through without codecs |
| `Compression.PacketCompressionIsTransparent` | conduit/protocol/encoder.py:44-59 | a packet whose own flags avoid the codec bits is restored if and only if the receiver has the codecs whenever the sender has, or it went out uncompressed; it never grows |
| `Compression.SafePacketFlagsExactly` | conduit/protocol/decoder.py:211-222 | a caller's flags are safe for all lossless codecs and payloads if and only if they avoid the three codec bits |
| `DuplexStream.ConduitDuplexStream.SendData` | netconduit_core/src/core.rs:943-960 | appends one length-prefixed, flagged packet, or nothing if compression fails |
| `DuplexStream.ConduitDuplexStream.RecvData` | netconduit_core/src/core.rs:964-973 | takes one packet off the stream: its data, the end, or an error |
| `DuplexStream.WrittenExactly` | netconduit_core/src/core.rs:954-956 | a packet is written behind its big-endian length, cut to 32 bits |
| `DuplexStream.OpeningCarries` | netconduit_core/src/core.rs:1217-1229 | the opening is the magic and a packet with the duplex flag, the name and no payload |
| `DuplexStream.MessagePacketCarries` | netconduit_core/src/core.rs:944-953 | a message is compressed under the automatic policy and carries the duplex flag, the name and the time |
| `DuplexStream.ReadRefusesExactly` | netconduit_core/src/core.rs:273-293 | exactly when reading sees the end, a packet or an error: length 0 or missing, over the limit, cut short, undecodable, another version |
| `DuplexStream.AcceptsExactly` | netconduit_core/src/core.rs:1428-1446 | a stream is accepted if and only if it opens with the magic and a packet with the duplex flag |
| `DuplexStream.ReceivesExactly` | netconduit_core/src/core.rs:964-973 | the end is seen only where the stream ended, data only if a packet was read and decompressed |
| `DuplexStream.PacketIsRead` | netconduit_core/src/core.rs:269-294 | reading what was written in front of anything returns the packet and leaves the rest |
| `DuplexStream.MessageIsReceived` | netconduit_core/src/core.rs:943-973 | one message sent is one message received, and nothing more is read |
| `DuplexStream.TruncatedStream` | netconduit_core/src/core.rs:269-294 | for a stream ending after any byte: exactly the whole messages arrive, and whether the end is clean or an error |
| `DuplexStream.DuplexRoundTrip` | netconduit_core/src/core.rs:1215-1236 | the opening is accepted under its channel name, all messages arrive in order, then the end |
| `Stun.ScanLoop` | netconduit_core/src/core.rs:877-905 | the loop terminates within the bytes received and computes the attribute walk |
| `Stun.ParseResponse` | netconduit_core/src/core.rs:877-905 | the mapped address is what that walk reads |
| `Stun.ScanFindsFirst` | netconduit_core/src/core.rs:878-905 | over any printed attribute list the walk returns what the first attribute that yields something yields |
| `Stun.PaddingAligns` | netconduit_core/src/core.rs:904 | the padding is the least that reaches a multiple of four |
| `Stun.ReadsExactly` | netconduit_core/src/core.rs:884-902 | which attributes yield an address, and its port and bytes bit by bit against 0x2112, the magic cookie and the transaction id |
| `Stun.AddressRoundTrip` | netconduit_core/src/core.rs:884-902 | an IPv4 or IPv6 address and port survive the XOR encoding |
| `Stun.ResponseRoundTrip` | netconduit_core/src/core.rs:877-905 | a response yields exactly the address its first usable attribute was printed from |
| `Heartbeat.HeartbeatManager.Register` | conduit/heartbeat/manager.py:62-66 | fresh record and no misses; a known target keeps its place |
| `Heartbeat.HeartbeatManager.Unregister` | conduit/heartbeat/manager.py:68-72 | every trace of the target goes |
| `Heartbeat.HeartbeatManager.RecordPong` | conduit/heartbeat/manager.py:74-78 | fresh record and no misses, registered or not |
| `Heartbeat.HeartbeatManager.Tick` | conduit/heartbeat/manager.py:119-147 | the loop over the snapshot counts misses and reports and removes stale targets in turn |
| `HeartbeatRuns.CheckAllByTarget` | conduit/heartbeat/manager.py:124-147 | a tick treats each target as if alone, whatever the callback removes meanwhile |
| `HeartbeatRuns.CountersCount` | conduit/heartbeat/manager.py:62-78 | in every run a registered target's record is when it was last heard from, and its misses are the overdue ticks since |
| `HeartbeatRuns.EnrolledExactly` | conduit/heartbeat/manager.py:62-72 | in every run the targets checked are those registered and since then neither unregistered nor due at a tick |
| `HeartbeatRuns.RecordsExactly` | conduit/heartbeat/manager.py:62-78 | in every run a record is kept exactly of those heard from since they were last dropped, with the time they were heard |
| `HeartbeatRuns.StaleExactly` | conduit/heartbeat/manager.py:134-147 | a tick reports a target, once, if and only if it is enrolled, overdue, and with this tick has `max_missed` overdue ticks, all said of the events alone |
| `HeartbeatRuns.SilenceIsCounted` | conduit/heartbeat/manager.py:134-138 | with punctual ticks silence is at most the timeout plus misses times the interval, and a miss means silence beyond the timeout |
| `HeartbeatRuns.SilenceBounded` | conduit/heartbeat/manager.py:107-147 | a target still registered has been silent at most the timeout and all misses but one, as of the last tick |
| `HeartbeatRuns.SilentTargetIsReported` | conduit/heartbeat/manager.py:107-147 | a registered target that falls silent is reported within the timeout plus `max_missed` intervals |
| `MessageRouter.MessageRouter.Register` | conduit/messages/router.py:71-100 | the type's list becomes the sort of itself with the new entry |
| `MessageRouter.MessageRouter.Unregister` | conduit/messages/router.py:102-115 | the type's handlers go, and the answer says whether there was a list |
| `MessageRouter.MessageRouter.SetDefaultHandler` | conduit/messages/router.py:117-124 | the default is replaced, the table untouched |
| `MessageRouter.MessageRouter.Route` | conduit/messages/router.py:135-198 | the loop calls the handlers and keeps the response the dispatch specification gives, whatever each call answers |
| `MessageRouter.SortIsStable` | conduit/messages/router.py:99-100 | sorting gives descending priorities and keeps the order within each priority |
| `MessageRouter.StableSortIsUnique` | conduit/messages/router.py:99-100 | no other list does |
| `MessageRouter.TableIsSorted` | conduit/messages/router.py:87-115 | after any registrations and removals each list is the stable sort of the registrations since the last removal |
| `MessageRouter.DispatchCallsPermitted` | conduit/messages/router.py:168-198 | exactly the permitted handlers are called, in order, and the response is that of the last which did not raise |
| `MessageRouter.DefaultAlone` | conduit/messages/router.py:156-166 | with no handler for the type the default is called alone, authenticated or not, or nothing is |
| `MessageRouter.RoutingFollowsRegistration` | conduit/messages/router.py:87-198 | from registrations to calls: the permitted handlers of the stable sort, or the default if and only if none is registered |
| `PubSub.BidirectionalStream.Subscribe` | conduit/streaming/stream.py:99-115 | a new subscriber gets an empty queue of its own, a known one its old queue |
| `PubSub.BidirectionalStream.Unsubscribe` | conduit/streaming/stream.py:117-122 | the subscription goes, the queue stays with its reader |
| `PubSub.BidirectionalStream.OfferToAll` | conduit/streaming/stream.py:151-157 | every subscriber's queue with room gets the message, and the count is of those |
| `PubSub.BidirectionalStream.Push` | conduit/streaming/stream.py:130-161 | nothing when closed or unheard; else the numbered message is offered to all and the count goes up |
| `PubSub.BidirectionalStream.Close` | conduit/streaming/stream.py:214-232 | the mark is offered to all, the stream stops, subscriptions go |
| `PubSub.AlwaysValid` | conduit/streaming/stream.py:99-122 | in every run each subscriber has a queue of its own |
| `PubSub.HistoryAgrees` | conduit/streaming/stream.py:99-161 | in every run subscriptions, queues created, numbering and the running flag are what the events alone say |
| `PubSub.DeliveryIsExact` | conduit/streaming/stream.py:130-161 | taken plus queued is exactly what the events say was sent while subscribed, less what met a full queue; queues stay within the buffer size |
| `PubSub.SequenceNumbersIncrease` | conduit/streaming/stream.py:143-159 | a queue's data messages carry strictly increasing numbers below the count, which is that of the pushes made open and heard |
| `PubSub.PushCountsReceivers` | conduit/streaming/stream.py:151-161 | a push returns how many queues grew, each by the message pushed |
| `FileTransfer.FileTransferHandler.Start` | conduit/transfer/file_transfer.py:473-505 | a temporary file is opened, empty but for what an upload it replaces still held back, and the number of chunks announced |
| `FileTransfer.FileTransferHandler.Write` | conduit/transfer/file_transfer.py:507-531 | the chunk is written at the write position; unknown ids and downloads are refused |
| `FileTransfer.FileTransferHandler.Complete` | conduit/transfer/file_transfer.py:533-568 | digest compared, file dropped, or moved to its name or, if that is taken, to a second one, replacing a file there; transfer closed |
| `FileTransfer.FileTransferHandler.Open` | conduit/transfer/file_transfer.py:570-592 | a stored file is opened and its number of chunks announced |
| `FileTransfer.FileTransferHandler.Read` | conduit/transfer/file_transfer.py:594-607 | the indexed chunk of a download; on an upload the position moves and the read fails |
| `FileTransfer.FileTransferHandler.Fetch` | conduit/transfer/file_transfer.py:444-460 | the client's loop obtains the whole file when it asks for as many chunks as were announced |
| `FileTransfer.ChunksReassemble` | conduit/transfer/file_transfer.py:576-607 | for every file and chunk size the indexed chunks put together are the file |
| `FileTransfer.ChunksNeeded` | conduit/transfer/file_transfer.py:484 | the number of chunks announced is the least that covers the size |
| `FileTransfer.DownloadServesFile` | conduit/transfer/file_transfer.py:570-607 | a download of a stored file announces as many chunks as it then serves, and put together they are the file; without the file nothing starts |
| `FileTransfer.DownloadGoesOn` | conduit/transfer/file_transfer.py:580-601 | a download keeps serving the file it opened, whatever happens to other transfers and to the name |
| `FileTransfer.DownloadServesRuns` | conduit/transfer/file_transfer.py:570-607 | over runs, requests for the announced chunks are answered with them in any order, however often, with other transfers in between |
| `FileTransfer.OtherAnswers` | conduit/transfer/file_transfer.py:514-602 | requests under unknown ids or of the wrong kind are refused, completing a download closes it, chunks behind the end are empty |
| `FileTransfer.ChunksAreCounted` | conduit/transfer/file_transfer.py:523-531 | each chunk is acknowledged with the number that arrived since the start |
| `FileTransfer.UploadHoldsBack` | conduit/transfer/file_transfer.py:523 | in every run what is held back is the end of what was written, as many bytes as the events say |
| `FileTransfer.ResidueExactly` | conduit/transfer/file_transfer.py:487-495 | what a start finds: the bytes held back by the upload open under its id, in place behind zeros, or nothing |
| `FileTransfer.UploadTracks` | conduit/transfer/file_transfer.py:507-531 | in every run an open upload's content, write position, chunk count and digest are what the events say, given what its start found held back |
| `FileTransfer.AppendsExactly` | conduit/transfer/file_transfer.py:523 | a write appends if and only if it is empty or the position is at the end |
| `FileTransfer.UploadIsConcatenationExactly` | conduit/transfer/file_transfer.py:473-531 | whatever other transfers do, an upload is at every moment since its start its own chunks in arrival order if and only if its start found nothing held back under its id and every non-empty chunk came with the position at the end |
| `FileTransfer.AlignedUploadExactly` | conduit/transfer/file_transfer.py:487-531 | an upload whose chunks came with the position at the end is its chunks followed by what of the held back bytes they do not cover, so its chunks if and only if they are at least as long |
| `FileTransfer.CompletionIsChecked` | conduit/transfer/file_transfer.py:533-568 | completing any upload closes it and succeeds if and only if what was written has the declared digest, and then that is stored, at the declared path unless taken; for aligned chunks that is the chunks under the same condition |
| `FileTransfer.CompletedHasDigest` | conduit/transfer/file_transfer.py:541-558 | in every run a transfer reported as completed has stored a file with the digest declared for it |
| `FileTransfer.DisturbedUploadIsOverwritten` | conduit/transfer/file_transfer.py:594-601 | a run in which a download request makes the next chunk overwrite an earlier one |
| `FileTransfer.RestartMixesUploads` | conduit/transfer/file_transfer.py:487-495 | a run in which a restarted upload keeps a byte of the one it replaced |

## Left out

- Sockets, QUIC, TLS, certificates, signatures, hole punching, discovery and storage: foreign libraries and I/O.
- The insides of protobuf, LZ4, Zstd, zlib, JSON and SHA-256: parameters, lossless by hypothesis where a theorem needs it. Compression levels and threads do not matter to the result, and the compressibility probe is any predicate.
- Floating-point rounding in the limiter and the heartbeat; a clock that goes back.
- Suspension inside the handling of one event, locks and threads.
- Mesh relaying, tunnels and peer-to-peer setup.
- The server's limiter and gate callbacks inside the session model: their verdicts are inputs of each message. The limiter itself is in `RateLimiter`.
- The server's own outgoing RPCs: a reply that reaches the server is ignored by the session model.
- A handler registered as the router's default, in the session model; `MessageRouter` has it.
- Lifecycle hooks, logging, statistics, metrics, flow-control flags, queue counters and descriptors: they would only add easy members.
- How an RPC result is wrapped and unwrapped: results are opaque.
- The router's error handler, and a call that is cancelled, which leaves `route` at once.
- Handlers and stale callbacks other than the server's own: handler effects are opaque.
- The stream's own data queue (`post`, `receive`) and its iterator.
- Transfer paths, temporary names, base64 and failing I/O: a transfer is named by its id, and the name used when the final one is taken is an input.
- `decode_single`'s second attempt at a body that starts with a length: part of the parse parameter.
- Read errors other than the stream's end on a duplex stream, and sending after the peer has gone.
- STUN request, socket and the header check the source does not make: the walk starts behind any 20 bytes, over the bytes received.
- Correlation ids beyond the packet field's 64 bits, which the encoder refuses; usernames kept beside profiles.
- `stream_ids`, `peek` and similar accessors.
- DuplexStream.DuplexRoundTrip: asks that encoded packets are non-empty and at most MAX_STREAM_SIZE, since an empty one reads as the end and a longer one as an error.
- OrderedDelivery.EndToEnd: a stream's numbers are clear of the wrap, as `ToleranceExactly` bounds them.
