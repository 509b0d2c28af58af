# A verified model of the reactor library

This project models the parts of the library where several functions, several threads or several calls have to agree:
cutting messages out of a TCP stream, the output path of a connection, the timer wheel, load balancing, the Redis lock,
the event loop's functor queue, Snowflake ids, rate limiters, connection pools, epoll registration and Base64. Each part
comes in two layers. The lower layer is a specification: datatypes and functions, or a step system over which every
interleaving is a run. The upper layer is the code in its own form, as classes and methods with loops, proved equal to
the specification. The theorems are about the specification and hold for every input, every history or every run.

`dafny verify dfyconfig.toml` checks everything.

## The parts

**Stream deframing** (`Deframe`, `RpcFraming`, `WebSocketFrame`, `WebSocketFormat`, `WebSocketServer`, `HttpParser`,
`HttpRoundTrip`, `HttpMeaning`, `HttpServer`). HTTP requests, WebSocket frames (section 5.2 of RFC 6455) and RPC frames
are cut out of a byte stream by one loop: look, decide, consume. The generic theorem says exactly when the way TCP
chunks the bytes cannot matter: the first message that leaves the loop must end everything or be the last. Three
instances follow, each with an end-to-end statement from encoder to handler under any chunking. The formats themselves
are stated apart from the codecs: header keys up to ASCII case, framing by the last Content-Length, frame headers and
masking bit by bit, and the examples of RFC 6455. What the code does not keep is stated exactly, each time with an input
that shows it:
- While every request of a stream keeps the loop going, whether the stream is answered with an error depends on its
  chunking, unless it is answered so in one delivery too, or every header block is at most 8193 bytes including its
  blank line. The limit is only checked while the blank line is missing (`HttpRejectionIff`; `ChunkingMatters` is a
  stream with one header of 9000 bytes).
- What follows a message that closes depends on the chunking: an HTTP request after one with `Connection: close` is
  handled only if it comes in a later delivery (`CloseThenGet`), a WebSocket frame after a close frame only if it comes
  in the same (`CloseThenText`).
- An RPC frame is read back exactly when its payload is not empty and not over 10 MB (`RpcFraming.FrameRoundTripIff`;
  `EmptyFrameRefused` is an input).
- The WebSocket decoder never reports an error. The sum of header size and announced length wraps around at 2^64, so a
  length near that limit passes the test for a complete frame and the payload vector throws, which the model calls a
  rejection. It happens exactly when the sum reaches 2^64 (`RejectedIffWraps`; `WrappingHeadRejected` is an input), and
  a session fails exactly when its loop reaches such a head (`SessionFailsIff`, `StreamFailsIff`).

**Connection output** (`NetBuffer`, `TcpOutput`, `TcpInvariants`, `TcpProgress`, `TcpConnection`). `send`, `sendIov`,
`sendFile`, `shutdown` and `handleWrite` run against a kernel that may take any part of what it is offered or fail. In
every run the message bytes on the wire followed by the buffer are the accepted messages in call order, write interest
is on while anything waits, the half-close happens once and last, and every file is closed exactly once. A message whose
write hits EPIPE or ECONNRESET counts as not accepted; without one, what is accepted is what was handed over in time,
from the events alone, and a kernel that takes all that waits leaves nothing behind. `sendIov` offers `writev` its first
sixteen slices only and takes their total for the whole; the exact condition under which bytes are lost is
`IovConservesIff`, and `SeventeenthSliceLost` a call that loses one. A `send` issued while a file is pending goes out
before that file, so no order is claimed between a file and later messages.

**Timer wheel** (`TimerWheel`, `TimerInvariants`, `TimerTiming`, `TimerPeriods`, `TimerCalls`, `TimerQueue`). The scan
of a bucket that re-inserts periodic timers, possibly into the bucket being scanned, is proved equal to a one-step
description, and terminates. With ticks a fixed time apart, every tick at which a timer fires is computed exactly, the
first and all later ones, and so is how often its callback has been called. The header asks callers to keep delays
within the range of the wheel; the code handles longer ones, and the theorems cover them.

**Load balancing** (`WeightedRoundRobin`, `ConsistentHash`, `HashPoints`). Smooth weighted round robin is exactly fair
over every W consecutive selections, W being the total weight. Consistent hashing moves exactly the keys of the servers
taken away; its hash keeps apart virtual nodes whose numbers have equally many digits, and two servers whose addresses
hash alike share every point.

**Coordination** (`Redlock`, `EventLoop`, `Snowflake`). The lock is a step system of clients, a network that delays and
loses, and a server with expiring keys; anyone may release any key with any token, late or twice. The functor queue is a
step system of the loop thread and any number of other threads. Snowflake ids are followed over any clock. The comment
beside `kEpoch` says 2026-01-01; the constant is 2025-01-01, and the model uses the constant. The comment on `nextId`
promises a positive id. The timestamp is cut to 42 bits with its sign, so the returned id is not negative exactly in
every other stretch of 2^41 milliseconds counted from the epoch, and positive exactly if besides reading, worker and
sequence are not all at zero (`ReturnedIdIff`). A timestamp before the epoch gives a negative id, and a clock more than
6 milliseconds before zero gives none (`EarlyClock`). Two ids, of one run or of two, are the same exactly when worker
and sequence are and the timestamps are a multiple of 2^42 milliseconds apart (`RepeatIff`; `RepeatedRun` is a run).

**Resources** (`RateLimiter`, `TokenBucket`, `ConnectionPool`, `EPollPoller`). Limits over whole histories, accounting
over every interleaving, and agreement of the poller's table, the channels' index and the kernel. The token bucket lets
the first call of a key through whatever the burst, so its bound holds exactly for a burst of at least one and a rate
that is not negative; when a call passes is stated exactly for every rate, burst and history. A pool built with minSize
above maxSize exceeds maxSize. The comment on `updateChannel` says that a channel without interest is taken out of
epoll; a channel that is not registered is added with an empty mask instead, and `DisableAllIff` says exactly when.

**Base64** (`Base64`, `Base64Examples`, sections 4 and 10 of RFC 4648). Three encoders compute one function and the
decoder inverts it, although its 32-bit accumulator drops old bits.

Clocks, kernel answers, pings, random keys, thread interleavings and what handlers do are parameters or steps. Tokens of
the lock are distinct by construction.

## Model

| member | source | states |
|---|---|---|
| `Deframe.ChunkingIrrelevantIff` | src/websocket/WebSocketServer.h:381-437 | for any parser whose messages depend only on the bytes they consume: every chunking of a stream gives the same messages, leftover and openness as one delivery if and only if the first message that does not simply continue ends everything or is the last |
| `Deframe.SteadyChunkingIrrelevant` | src/rpc/RpcServerPb.h:62-90 | with no message leaving the loop and rejections that later bytes do not heal, any deliveries end in exactly the same run, verdict included |
| `Deframe.NoChunkingRejectsIff` | src/http/HttpServer.h:187-240 | over a stream whose messages all continue, some chunking is rejected if and only if some cut of the stream is |
| `Deframe.TogetherAndApart` | src/websocket/WebSocketServer.h:381-437 | two messages delivered together and one by one: which of them are handled when the first leaves the loop or closes |
| `Deframe.LoopRejectsIff` | src/websocket/WebSocketServer.h:381-437 | the loop rejects if and only if it reaches a position where what stands there is rejected |
| `RpcFraming.ParseFrameStable` | src/rpc/RpcServerPb.h:62-90 | a frame depends on the bytes it consumes alone, consumes at least one, and a refused length stays refused |
| `RpcFraming.FrameRoundTripIff` | src/rpc/RpcServerPb.h:150-162 | a framed payload is read back, whatever follows, if and only if it has between 1 byte and 10 MB |
| `RpcFraming.EmptyFrameRefused` | src/rpc/RpcServerPb.h:150-162 | a response that serializes to nothing is framed as a length the receiver refuses |
| `RpcFraming.FrameWritten` | src/rpc/RpcServerPb.h:150-162 | on the wire: the length in four bytes, highest first, then the payload |
| `RpcFraming.FramesSplit` | src/rpc/RpcServerPb.h:62-90 | frames sent back to back come out one by one |
| `RpcFraming.RpcChunkingIrrelevant` | src/rpc/RpcServerPb.h:62-90 | any chunking of any bytes: same frames, leftover and verdict as one delivery |
| `RpcFraming.FramesArrive` | src/rpc/RpcServerPb.h:62-90 | payloads framed by the sender and cut anywhere arrive in order, nothing left over, nothing refused |
| `RpcFraming.TakeFrame` | src/rpc/RpcServerPb.h:64-88 | one turn on the buffer gives the parser's verdict; only a whole frame is consumed |
| `RpcFraming.OnMessage` | src/rpc/RpcServerPb.h:62-90 | the loop on the buffer delivers what the generic loop delivers and leaves what it leaves |
| `WebSocketFrame.MaskTwice` | src/websocket/WebSocketFrame.h:315-391 | masking twice with one key gives the payload back |
| `WebSocketFrame.LengthFieldDecodes` | src/websocket/WebSocketFrame.h:143-194 | the 7, 16 and 64 bit length fields say their own size, the mask bit and the length |
| `WebSocketFrame.HeadDecodes` | src/websocket/WebSocketFrame.h:315-391 | the encoded head, whatever follows, decodes to its fields, length and size |
| `WebSocketFrame.EncodeDecodes` | src/websocket/WebSocketFrame.h:196-266 | for every frame, key and following bytes decode gives the frame with one bit of each rsv and four of the opcode, consuming exactly the encoding |
| `WebSocketFrame.FrameRoundTripIff` | src/websocket/WebSocketFrame.h:143-266 | the frame comes back unchanged if and only if its rsv fields are one bit and its opcode four |
| `WebSocketFrame.StrictPrefixIncomplete` | src/websocket/WebSocketFrame.h:315-391 | no strict prefix of an encoding decodes to anything |
| `WebSocketFrame.DecodedStable` | src/websocket/WebSocketFrame.h:315-391 | a decoded frame depends on its own bytes alone; a refusal is not healed by later bytes, the wrapping size test included |
| `WebSocketFrame.RejectedIff` | src/websocket/WebSocketFrame.h:368-376 | for all bytes: decode throws if and only if header size plus length reaches 2^64, or a payload no vector holds is all there |
| `WebSocketFrame.RejectedIffWraps` | src/websocket/WebSocketFrame.h:368-376 | in any buffer that fits a vector decode throws if and only if header size plus length reaches 2^64, and then the frame is not all there |
| `WebSocketFrame.WrappingHeadRejected` | src/websocket/WebSocketFrame.h:368-376 | ten bytes that announce 2^64 - 1 more make it throw |
| `WebSocketFrame.Encode` | src/websocket/WebSocketFrame.h:196-266 | builds the specified encoding, masked or not |
| `WebSocketFrame.EncodeRaw` | src/websocket/WebSocketFrame.h:143-194 | builds the same bytes as encode for an unmasked frame with rsv bits 0 |
| `WebSocketFrame.Decode` | src/websocket/WebSocketFrame.h:315-391 | the byte-wise decoder gives the specified outcome |
| `WebSocketFormat.MaskedBits` | src/websocket/WebSocketFrame.h:234-262 | masking flips exactly the bits that are set in the repeated key |
| `WebSocketFormat.PayloadBits` | src/websocket/WebSocketFrame.h:370-391 | in every decoded frame the payload differs from the wire bytes exactly in the set bits of the repeated key if it is masked, and nowhere if not |
| `WebSocketFormat.FlagsAre` | src/websocket/WebSocketFrame.h:315-335 | fin, the rsv fields and mask are single bits of the first two bytes, the opcode the low four |
| `WebSocketFormat.LengthIs` | src/websocket/WebSocketFrame.h:335-368 | the length is seven bits, or the next two or eight bytes, highest first; the key is the four bytes after it |
| `WebSocketFormat.MaskedHello` | src/websocket/WebSocketFrame.h:315-391 | the masked example of RFC 6455 decodes to Hello, whatever follows |
| `WebSocketFormat.UnmaskedHello` | src/websocket/WebSocketFrame.h:196-265 | the unmasked, fragmented and ping examples of RFC 6455 are what is encoded |
| `WebSocketFormat.LongFrames` | src/websocket/WebSocketFrame.h:196-265 | 256 bytes and 64 kB are framed as in the examples of RFC 6455 |
| `WebSocketServer.WsChunkingIrrelevantIff` | src/websocket/WebSocketServer.h:381-437 | chunking is irrelevant if and only if the first frame to close the session is oversized or the last |
| `WebSocketServer.OversizedIff` | src/websocket/WebSocketServer.h:404-410 | a frame is over the limit if and only if there is one and its size, cast to a 32-bit int, exceeds it |
| `WebSocketServer.HugePassesLimit` | src/websocket/WebSocketServer.h:404-410 | so a payload of 2^31 bytes is within every limit |
| `WebSocketServer.DisposeIff` | src/websocket/WebSocketServer.h:396-436 | below 2^31 bytes: a frame over the limit ends the loop, and opcode 8, or 1 or 2 with a handler that closes, closes the session after it |
| `WebSocketServer.CloseThenText` | src/websocket/WebSocketServer.h:381-437 | a close frame and an empty text frame, whatever the limit and the handler: delivered together both are handled, delivered apart only the first |
| `WebSocketServer.FramesArrive` | src/websocket/WebSocketServer.h:381-437 | frames encoded by clients under any keys and cut anywhere arrive in order and whole, while none closes the session |
| `WebSocketServer.SessionFailsIff` | src/websocket/WebSocketServer.h:381-437 | a buffer makes the session fail if and only if some frame head that the loop reaches wraps |
| `WebSocketServer.StreamFailsIff` | src/websocket/WebSocketServer.h:381-437 | under any chunking, while no frame closes the session: it fails if and only if some frame head of the stream that the loop reaches wraps |
| `WebSocketServer.Session.Close` | src/websocket/WsSession.h:87-102 | an open session goes to closing; a closing or closed one is left alone |
| `WebSocketServer.Session.TakeFrame` | src/websocket/WebSocketServer.h:381-395 | decodes at the front of the buffer and consumes exactly a decoded frame |
| `WebSocketServer.Session.Dispatch` | src/websocket/WebSocketServer.h:396-436 | the size limit and the opcode switch: the frame is recorded, and the state and the decision to leave are those specified |
| `WebSocketServer.Session.Turn` | src/websocket/WebSocketServer.h:381-437 | one turn of the loop: the loop as a whole comes to the same run after it, and the buffer shrinks unless it stops |
| `WebSocketServer.Session.HandleWsFrames` | src/websocket/WebSocketServer.h:381-437 | frames, leftover, state and failure are those of the generic loop |
| `WebSocketServer.Session.OnMessage` | src/websocket/WebSocketServer.h:272-293 | a chunk is delivered as specified: an open session runs the loop, another only keeps the bytes |
| `HttpParser.ParseOneTight` | src/http/HttpCore.h:173-215 | a parsed request consumes at least one byte and is found in just the bytes it consumes |
| `HttpParser.ParseOneStable` | src/http/HttpCore.h:173-215 | a parsed request is not changed by bytes that follow |
| `HttpRoundTrip.RequestLineParses` | src/http/HttpRequest.h:121-153 | method, path, query and version of a written request line are read back |
| `HttpRoundTrip.FieldParses` | src/http/HttpRequest.h:162-181 | a written header line, with any number of spaces before the value, adds its value under the lower-cased key |
| `HttpRoundTrip.HeaderBlockParses` | src/http/HttpCore.h:397-422 | a written header block is read back: request line, then every field, later ones winning |
| `HttpRoundTrip.BlankLineEndsHeader` | src/http/HttpCore.h:173-215 | the first blank line of a written request is the one after its last header |
| `HttpRoundTrip.StoULDecimal` | src/http/HttpRequest.h:222-230 | a length written in decimal is read back |
| `HttpRoundTrip.WrittenParses` | src/http/HttpCore.h:173-215 | a well-formed request is parsed back whole whatever follows, consuming exactly its own bytes |
| `HttpMeaning.MethodIff` | src/http/HttpRequest.h:300-307 | each method is recognised if and only if its name is written |
| `HttpMeaning.VersionIff` | src/http/HttpRequest.h:314-318 | and so is each version |
| `HttpMeaning.LowerIs` | src/http/HttpRequest.h:175-178 | byte by byte: capitals become small letters, everything else stays |
| `HttpMeaning.LowerIff` | src/http/HttpRequest.h:175-178 | two keys are stored under one name if and only if they are equal up to the case of ASCII letters |
| `HttpMeaning.CollectedIs` | src/http/HttpRequest.h:162-181 | a key in any case has the value of the last field written under it in any case, and is absent if there is none |
| `HttpMeaning.GetHeaderIs` | src/http/HttpRequest.h:196-203 | getHeader gives that value, or nothing |
| `HttpMeaning.KeepAliveIff` | src/http/HttpRequest.h:211-216 | HTTP/1.0 stays open if and only if the last Connection is keep-alive, every other version if and only if it is not close |
| `HttpMeaning.FramingIs` | src/http/HttpCore.h:173-215 | with a last Content-Length of n, in any case, a request takes exactly the n bytes after its blank line, waits for them, is refused above 10 MB, and takes none from 2^64 on |
| `HttpMeaning.NoLengthNoBody` | src/http/HttpCore.h:173-215 | without a Content-Length it takes none |
| `HttpMeaning.StoULIs` | src/http/HttpRequest.h:222-230 | white space, a sign, digits and anything after: the number, its negative modulo 2^64 after a minus, and no number from 2^64 on |
| `HttpMeaning.JunkIgnored` | src/http/HttpRequest.h:162-164 | a header line without a colon makes no difference, wherever it stands |
| `HttpMeaning.BadLineRejected` | src/http/HttpCore.h:397-408 | a request line without two spaces or over 8192 bytes is refused, whatever follows |
| `HttpMeaning.PostRead` | src/http/HttpCore.h:173-215 | a request with Content-Length: 2, byte by byte, is parsed with its body |
| `HttpServer.HttpChunkingIrrelevantIff` | src/http/HttpServer.h:187-240 | chunking changes neither requests nor leftover if and only if only the last request leaves the loop |
| `HttpServer.LeavesLoop` | src/http/HttpServer.h:187-240 | any request that is deferred or closes, and one after it: delivered together only the first is handled, delivered apart both |
| `HttpServer.CloseThenGet` | src/http/HttpServer.h:187-240 | a request that asks to close and one after it, whatever is deferred: delivered together only the first is handled, delivered apart both |
| `HttpServer.CutInFirstIff` | src/http/HttpCore.h:173-215 | a cut within the first request is refused if and only if its header block with blank line exceeds 8193 bytes |
| `HttpServer.SomeCutRejectsIff` | src/http/HttpServer.h:187-240 | some cut of a stream accepted in one piece is refused if and only if some header block is too long |
| `HttpServer.HttpRejectionIff` | src/http/HttpServer.h:187-240 | while every request keeps the loop going, whether an error is answered is independent of the chunking if and only if one delivery is answered so too or all header blocks fit |
| `HttpServer.ChunkingMatters` | src/http/HttpServer.h:187-240 | a request with one header of 9000 bytes is handled in one piece and answered with an error under some other chunking |
| `HttpServer.RequestsArrive` | src/http/HttpServer.h:187-240 | well-formed pipelined requests, cut anywhere, are handled in order, once and whole; no error is answered if the header blocks fit |
| `HttpServer.ParseHeader` | src/http/HttpCore.h:397-422 | the line loop computes the specified request |
| `HttpServer.ParseRequest` | src/http/HttpCore.h:173-215 | the Buffer overload: the specified verdict; only a whole request is consumed |
| `HttpServer.ParseRequestString` | src/http/HttpCore.h:222-259 | the string overload: the same verdict and the same bytes consumed |
| `HttpServer.OnMessage` | src/http/HttpServer.h:187-240 | the pipeline loop handles what the generic loop handles and leaves what it leaves |
| `NetBuffer.CopyLeft` | src/net/Buffer.h:91-99 | the overlapping copy moves the bytes intact because it only moves them left |
| `NetBuffer.Buffer.constructor` | src/net/Buffer.h:125-129 | an empty buffer with its prepend area |
| `NetBuffer.Buffer.Retrieve` | src/net/Buffer.h:184-196 | drops that many bytes, or all |
| `NetBuffer.Buffer.RetrieveAsString` | src/net/Buffer.h:227-232 | returns and drops the first bytes |
| `NetBuffer.Buffer.MakeSpace` | src/net/Buffer.h:82-100 | keeps the readable bytes and leaves the asked room, by growing or by compacting |
| `NetBuffer.Buffer.EnsureWritableBytes` | src/net/Buffer.h:240-246 | keeps the readable bytes and leaves at least the asked room |
| `NetBuffer.Buffer.Append` | src/net/Buffer.h:276-281 | the contents become the old contents followed by the data |
| `NetBuffer.Buffer.ReadFd` | src/net/Buffer.cc:41-91 | what readv put into the tail and the extra buffer is appended in order |
| `TcpInvariants.RunKeeps` | src/net/TcpConnection.cc:109-518 | every invariant of the output path holds after every run, whatever the kernel answers |
| `TcpInvariants.MessagesConserved` | src/net/TcpConnection.cc:109-146 | message bytes on the wire followed by the buffer are the accepted messages in call order, and whatever waits is waited for |
| `TcpInvariants.HalfCloseOnce` | src/net/TcpConnection.cc:327-347 | the write side is shut down at most once, with every accepted byte and queued file out |
| `TcpInvariants.FilesInOrder` | src/net/TcpConnection.cc:148-218 | file bytes leave in the order of the files, after all bytes sent before them, in order, and completely unless the file was given up |
| `TcpInvariants.EveryFileClosedOnce` | src/net/TcpConnection.cc:61-65 | by the end of the connection every file handed over has been closed exactly once |
| `TcpInvariants.IovConservesIff` | src/net/TcpConnection.cc:370-457 | sendIov keeps all bytes whatever writev answers if and only if there is a backlog or the slices past the sixteenth are empty |
| `TcpInvariants.SeventeenthSliceLost` | src/net/TcpConnection.cc:370-457 | on a fresh connection seventeen slices of one byte can lose the last |
| `TcpInvariants.SendKeepsMessages` | src/net/TcpConnection.cc:460-518 | a send keeps conservation, write interest and the half-close |
| `TcpInvariants.SendFileKeepsFiles` | src/net/TcpConnection.cc:189-218 | handing over a file keeps the file invariants, on the refused path too |
| `TcpInvariants.HandleWriteKeepsMessages` | src/net/TcpConnection.cc:109-146 | a write event keeps conservation, write interest and the half-close |
| `TcpInvariants.HandleWriteKeepsFiles` | src/net/TcpConnection.cc:109-146 | a write event keeps the file invariants |
| `TcpProgress.StateIs` | src/net/TcpConnection.cc:220-347 | in every run, from the events alone: connected if and only if not yet shut down, closed or destroyed; disconnected if and only if closed, or destroyed without being shut down |
| `TcpProgress.AcceptedIs` | src/net/TcpConnection.cc:248-518 | in every run without a broken connection the accepted bytes are those of all messages handed over before shutdown, close or destruction, in order |
| `TcpProgress.MessagesArrive` | src/net/TcpConnection.cc:109-518 | and those bytes are on the wire or still in the buffer |
| `TcpProgress.InterestIff` | src/net/TcpConnection.cc:109-518 | in every run write interest is on if and only if something waits on a connection that is not disconnected |
| `TcpProgress.HalfCloseIff` | src/net/TcpConnection.cc:327-347 | a connection shut down and not closed is half-closed if and only if everything handed over is out |
| `TcpProgress.WritableEmpties` | src/net/TcpConnection.cc:109-146 | a writable event whose answers take all that waits: every message handed over is on the wire, every file closed and not given up, interest off, and a half-close asked for has happened |
| `TcpProgress.SentAtOnce` | src/net/TcpConnection.cc:460-518 | with nothing waiting, what the kernel takes of a message is on the wire at once |
| `TcpProgress.FilesArrive` | src/net/TcpConnection.cc:148-218 | in every run in which sendfile does not fail, a file handed over in time is waiting, or closed with its whole range on the wire in order |
| `TcpConnection.Connection.SendMessage` | src/net/TcpConnection.cc:248-266 | acts as the specified send |
| `TcpConnection.Connection.SendInLoop` | src/net/TcpConnection.cc:460-518 | writes directly when nothing waits, keeps the rest, asks for write events: the specified new state |
| `TcpConnection.Connection.AppendUnsent` | src/net/TcpConnection.cc:440-457 | the loop over slices appends exactly the bytes past those written |
| `TcpConnection.Connection.SendSlices` | src/net/TcpConnection.cc:370-457 | acts as the specified sendIov |
| `TcpConnection.Connection.DrainPendingFiles` | src/net/TcpConnection.cc:148-181 | the loop over files acts as the specified drain |
| `TcpConnection.Connection.SendFileRange` | src/net/TcpConnection.cc:189-218 | acts as the specified sendFile |
| `TcpConnection.Connection.ShutdownInLoop` | src/net/TcpConnection.cc:341-347 | half-closes only when nothing is being written |
| `TcpConnection.Connection.Shutdown` | src/net/TcpConnection.cc:327-339 | a connected connection becomes disconnecting and tries to half-close |
| `TcpConnection.Connection.Flush` | src/net/TcpConnection.cc:109-135 | writes a prefix of the buffer and keeps the rest |
| `TcpConnection.Connection.HandleWrite` | src/net/TcpConnection.cc:109-146 | acts as the specified write event: buffer, then files, then the waiting half-close |
| `TcpConnection.Connection.HandleClose` | src/net/TcpConnection.cc:220-229 | disconnects and drops write interest |
| `TcpConnection.Connection.ClosePendingFiles` | src/net/TcpConnection.cc:183-187 | closes every queued file and empties the queue |
| `TimerInvariants.AddKeeps` | src/timer/TimerQueue.h:119-139 | adding a timer keeps the wheel consistent |
| `TimerInvariants.CancelKeeps` | src/timer/TimerQueue.h:147-154 | cancelling keeps the wheel consistent, timers already collected included |
| `TimerInvariants.TickKeeps` | src/timer/TimerQueue.h:170-218 | a tick with re-insertions keeps the wheel consistent |
| `TimerInvariants.WheelConsistent` | src/timer/TimerQueue.h:119-218 | after every run no timer stands in the wheel twice, timers_ is exactly the uncancelled timers in it, and no one-shot ran more than once |
| `TimerInvariants.CancelFinal` | src/timer/TimerQueue.h:147-154 | a timer that cancelTimer finds never runs again in any continuation, even if a tick has just collected it |
| `TimerTiming.FirstFire` | src/timer/TimerQueue.h:119-139 | with ticks tickMs apart and two or more buckets a new timer fires at tick max(1, ceil(delay / tickMs)) + 1 and at none before, so between its delay and two ticks more, also beyond the range of the wheel |
| `TimerTiming.NextFire` | src/timer/TimerQueue.h:170-218 | a periodic timer that fired fires again ceil(interval / tickMs) ticks later and not before |
| `TimerPeriods.NthFire` | src/timer/TimerQueue.h:119-218 | a periodic timer fires at tick a + n * p + 1 after its insertion for every n and at no other tick, a being max(1, ceil(delay / tickMs)) and p ceil(interval / tickMs) |
| `TimerPeriods.NothingLeftIff` | src/timer/TimerQueue.h:170-218 | counting down first a, then p again and again, reaches zero after exactly a + n * p ticks |
| `TimerCalls.CalledIs` | src/timer/TimerQueue.h:170-218 | in every run that does not cancel it, a timer has been called or is about to be once for each tick that collected it |
| `TimerCalls.PeriodicCalls` | src/timer/TimerQueue.h:119-218 | a periodic timer with ticks on time: after t ticks that is 0 up to tick a, then 1 + (t - a - 1) / p |
| `TimerCalls.OneShotCalls` | src/timer/TimerQueue.h:119-218 | a one-shot timer: once from tick a + 1 on |
| `TimerWheel.CallAllRuns` | src/timer/TimerQueue.h:213-217 | the loop after the lock calls exactly the collected timers that are not cancelled, in order |
| `TimerCalls.RanIs` | src/timer/TimerQueue.h:170-218 | after that loop a timer has been called as often as it was collected |
| `TimerTiming.StillWaiting` | src/timer/TimerQueue.h:170-218 | until its tick nothing but its own cancellation touches a timer |
| `TimerTiming.CeilDivIs` | src/timer/TimerQueue.h:119-139 | the rounding of delays to ticks is the ceiling |
| `TimerQueue.TimerQueue.constructor` | src/timer/TimerQueue.h:95-101 | an empty wheel |
| `TimerQueue.TimerQueue.AddTimer` | src/timer/TimerQueue.h:119-139 | acts as the specified add and returns the new id |
| `TimerQueue.TimerQueue.CancelTimer` | src/timer/TimerQueue.h:147-154 | acts as the specified cancel, unknown ids included |
| `TimerQueue.TimerQueue.ScanEntry` | src/timer/TimerQueue.h:178-208 | one turn of the scan moves on in the original bucket, whatever was re-inserted |
| `TimerQueue.TimerQueue.Tick` | src/timer/TimerQueue.h:170-218 | the scan of a bucket that changes under it ends, and acts as the specified tick |
| `TimerQueue.TimerQueue.RunExpired` | src/timer/Timer.h:86-90 | runs a collected timer unless it has been cancelled since |
| `TimerQueue.TimerQueue.RunAllExpired` | src/timer/TimerQueue.h:213-217 | the loop over the collected timers calls them as specified |
| `TimerQueue.TurnRepeat` | src/timer/TimerQueue.h:186-204 | a due periodic entry is collected, restarted and moved to its next bucket, possibly the one being scanned |
| `WeightedRoundRobin.BestIsBest` | src/balancer/LoadBalancer.h:151-178 | the running maximum is the first healthy server none exceeds; none only if nobody is healthy |
| `WeightedRoundRobin.AlwaysBalanced` | src/balancer/LoadBalancer.h:151-178 | from zero, current weights always sum to zero and stay above minus the total, and somebody is returned |
| `WeightedRoundRobin.Ledger` | src/balancer/LoadBalancer.h:151-178 | after n selections a server's current weight is n times its weight less the total for each time it was returned |
| `WeightedRoundRobin.FirstRoundFair` | src/balancer/LoadBalancer.h:151-178 | the first W selections return each server exactly weight times |
| `WeightedRoundRobin.Periodic` | src/balancer/LoadBalancer.h:151-178 | the state returns to the start after W selections |
| `WeightedRoundRobin.EveryWindowFair` | src/balancer/LoadBalancer.h:151-178 | any W consecutive selections return each server exactly weight times, and the state recurs |
| `WeightedRoundRobin.Raise` | src/balancer/LoadBalancer.h:151-170 | on any list, one that names a server twice included, the loop leaves the specified weights, total and choice |
| `WeightedRoundRobin.Select` | src/balancer/LoadBalancer.h:151-178 | on any list, one that names a server twice included, returns the specified server and leaves the specified weights |
| `WeightedRoundRobin.SelectIsSelected` | src/balancer/LoadBalancer.h:151-178 | on a list without repetitions that choice and those weights are the ones the fairness theorems are about |
| `WeightedRoundRobin.LoadBalancer.AddServer` | src/balancer/LoadBalancer.h:381-384 | adds a server of its own making, so that no server is in the list twice |
| `WeightedRoundRobin.LoadBalancer.RemoveServer` | src/balancer/LoadBalancer.h:389-398 | exactly the servers with another address stay, in the same order, and none is in the list twice |
| `WeightedRoundRobin.LoadBalancer.SelectServer` | src/balancer/LoadBalancer.h:403-406 | select on the balancer's own list: the specified server and weights |
| `ConsistentHash.LowerBound` | src/balancer/LoadBalancer.h:316-324 | the first point at or after a key, none only if there is none |
| `ConsistentHash.PointIff` | src/balancer/LoadBalancer.h:316-324 | the point of a key is the least one not before it, or if there is none the least of all |
| `ConsistentHash.HashString` | src/balancer/LoadBalancer.h:336-342 | the loop computes the hash |
| `HashPoints.HashIs` | src/balancer/LoadBalancer.h:336-342 | the hash is the text read as digits to the base 33 after 5381, modulo 2^32 |
| `HashPoints.LastByteIff` | src/balancer/LoadBalancer.h:336-342 | texts that differ at most in the last byte hash alike if and only if they are equal |
| `HashPoints.SameEndIff` | src/balancer/LoadBalancer.h:336-342 | a common end neither separates hashes nor brings them together |
| `HashPoints.SharedPointIff` | src/balancer/LoadBalancer.h:299-302 | two servers share the point of a virtual node if and only if their addresses hash alike |
| `HashPoints.NodesApart` | src/balancer/LoadBalancer.h:299-302 | virtual nodes of one server whose numbers have equally many digits, up to six, never share a point |
| `HashPoints.AloneOnTheRing` | src/balancer/LoadBalancer.h:289-305 | a healthy server alone has at least 10 points from 10 nodes on and at least 90 from 100 on |
| `HashPoints.NodeWritten` | src/balancer/LoadBalancer.h:299-302 | a virtual node key and a hash written out |
| `ConsistentHash.BuildIs` | src/balancer/LoadBalancer.h:289-305 | each point of the ring belongs to the last healthy server in the list with a virtual node there, collisions included |
| `ConsistentHash.MinimalDisruption` | src/balancer/LoadBalancer.h:289-324 | after taking away any servers a key keeps its server if and only if that server stays, for all lists, keys and numbers of virtual nodes |
| `ConsistentHash.MarkedIsWithout` | src/balancer/LoadBalancer.h:289-305 | marking servers unhealthy and rebuilding gives the ring without them |
| `ConsistentHash.MarkingDisruption` | src/balancer/LoadBalancer.h:289-324 | after marking any servers unhealthy a key keeps its server if and only if that server was not marked |
| `ConsistentHash.ConsistentHashStrategy.Init` | src/balancer/LoadBalancer.h:289-305 | the nested loops build the specified ring from the healthy servers |
| `ConsistentHash.ConsistentHashStrategy.PlaceNodes` | src/balancer/LoadBalancer.h:299-303 | the loop places the virtual nodes of one server |
| `ConsistentHash.ConsistentHashStrategy.SelectWithKey` | src/balancer/LoadBalancer.h:316-324 | the owner of the next point, wrapping around; nothing if and only if the ring is empty |
| `Redlock.RunKeeps` | src/util/Redlock.h:47-99 | over every interleaving, loss, delay and expiry: holds of a key are disjoint, the store shows exactly the open ones, every request is executed at most once, and returned tokens were granted |
| `Redlock.HoldsDisjoint` | src/util/Redlock.h:47-99 | no two holding periods of one key overlap in any run |
| `Redlock.HeldIff` | src/util/Redlock.h:78-85 | the key shows a token if and only if a hold of that token is open |
| `Redlock.ReleaseIff` | src/util/Redlock.h:62-75 | a release succeeds if and only if a hold of its token is open; otherwise key and history stay as they are |
| `Redlock.AcquiredWasHeld` | src/util/Redlock.h:47-59 | a token acquire returned was granted by the server on its key |
| `Redlock.OneHolder` | src/util/Redlock.h:47-99 | at most one token holds a key at any moment |
| `Redlock.AcquireIff` | src/util/Redlock.h:47-99 | after every run, an acquire that meets no delay and no loss gets the lock if and only if its ttl is positive and nobody holds the key, and then holds it |
| `Redlock.HeldForTtl` | src/util/Redlock.h:88-99 | a grant whose key and token nobody released is held exactly while less than its ttl has passed |
| `Redlock.EndsEarlyIff` | src/util/Redlock.h:62-75 | in every run a hold ends before its ttl if and only if a delete of its own token on its own key is executed while it is open; it never outlasts its ttl |
| `Redlock.TrueReleaseWasHeld` | src/util/Redlock.h:62-75 | in every run a release answered with success was executed during the call while a hold of its token was open |
| `Redlock.StaleReleaseFails` | src/util/Redlock.h:62-75 | in every run a release during which no hold of its token is open is never answered with success |
| `Redlock.ReturnedHeldIff` | src/util/Redlock.h:47-59 | a token that acquire returned and nobody released holds its key if and only if a grant of it is within its ttl |
| `Redlock.OneWithinTtl` | src/util/Redlock.h:47-59 | of the tokens returned for one key and not released at most one is within its ttl |
| `Redlock.ReturnedTokensMayOverlap` | src/util/Redlock.h:22-26 | past the ttl two callers may both have a returned token for one key: a run |
| `Redlock.Redlock.TrySet` | src/util/Redlock.h:88-99 | a run of the step system; true if and only if the reply to this very SET is received and grants it |
| `Redlock.Redlock.Acquire` | src/util/Redlock.h:47-59 | the retry loop is a run of the step system; a returned token is fresh and granted; it fails only after an attempt, without waiting or past the deadline, and goes on only before it |
| `Redlock.Redlock.ReleaseLock` | src/util/Redlock.h:62-75 | a run of the step system; true if and only if the reply to this very delete is received and reports success, and then it was executed during the call while the token held the key |
| `EventLoop.OnceInOrder` | src/net/EventLoop.cc:391-410 | in every run what has run is a prefix of what was queued, and in poll the rest is still in the queue: once each, in order |
| `EventLoop.QueuedIs` | src/net/EventLoop.cc:293-308 | in every run what is queued is everything queueInLoop was called with, in order, from the steps alone |
| `EventLoop.CanPushIff` | src/net/EventLoop.cc:293-308 | any thread can queue at any time unless it is between a push and its write |
| `EventLoop.TurnRunsAll` | src/net/EventLoop.cc:391-410 | after every run a turn of the loop from poll to poll runs everything that was queued |
| `EventLoop.NoLostWakeupIff` | src/net/EventLoop.cc:171-219 | in a stay in loop() every poll with queued functors has a positive counter or a thread about to write, for every interleaving, if and only if loop() was entered with an empty queue or a wakeup on the way |
| `EventLoop.StepNoneLost` | src/net/EventLoop.cc:293-340 | no step of any thread loses a wakeup |
| `EventLoop.CoveredUnlessOwnPush` | src/net/EventLoop.cc:293-308 | pushes by other threads before loop() are covered |
| `EventLoop.OwnPushBeforeLoopIsUncovered` | src/net/EventLoop.cc:293-308 | a functor the loop thread queues before loop() gets no wakeup |
| `EventLoop.Loop.Wakeup` | src/net/EventLoop.cc:332-340 | the counter is positive afterwards, also when it was full |
| `EventLoop.Loop.HandleRead` | src/net/EventLoop.cc:316-324 | takes the whole count |
| `EventLoop.Loop.QueueInLoop` | src/net/EventLoop.cc:293-308 | a run of the step system; the functor is queued next; the counter is positive afterwards when a wakeup is due |
| `EventLoop.Loop.SwapOut` | src/net/EventLoop.cc:396-401 | the batch is the whole queue |
| `EventLoop.Loop.RunBatch` | src/net/EventLoop.cc:403-407 | exactly the batch runs, in order, whatever the functors queue |
| `EventLoop.Loop.DoPendingFunctors` | src/net/EventLoop.cc:391-410 | a run of the step system, after which everything queued before the call has run |
| `Snowflake.WordIsPack` | src/util/Snowflake.h:133-136 | for every reading the shifted and or-ed fields are the bits of their sum |
| `Snowflake.ExtractInverts` | src/util/Snowflake.h:140-152 | from every returned id the extract functions give back worker and sequence, and the timestamp if and only if it is within 2^41 ms of the epoch |
| `Snowflake.ReturnedIdIff` | src/util/Snowflake.h:133-136 | for every reading the returned id is not negative if and only if the reading lies in an even stretch of 2^41 ms from the epoch, and positive if and only if besides not all fields are at zero |
| `Snowflake.NextIdIff` | src/util/Snowflake.h:93-137 | the same of what a call of nextId returns, by the reading it settled on |
| `Snowflake.LayoutIs` | src/util/Snowflake.h:133-136 | milliseconds since 2025, worker and sequence at their places |
| `Snowflake.RefusedIff` | src/util/Snowflake.h:93-137 | after every run: a call is refused if and only if its first reading is more than 5 ms before the last id, otherwise it returns an id stamped with what the clock caught up to, unless a millisecond is used up |
| `Snowflake.Consecutive` | src/util/Snowflake.h:118-131 | each id of a run has the next sequence number of the same millisecond, or 0 in a later one |
| `Snowflake.MillisecondFull` | src/util/Snowflake.h:118-131 | 4096 calls in one millisecond get the sequence numbers from 0 in order |
| `Snowflake.MillisecondOver` | src/util/Snowflake.h:118-131 | the call after them spins until a later reading and starts there at 0 |
| `Snowflake.EarlyClock` | src/util/Snowflake.h:93-137 | in every run: a call that settles on a timestamp before the epoch returns a negative id, and one whose first reading is below -6 returns none |
| `Snowflake.SameIdIff` | src/util/Snowflake.h:133-136 | two packed ids are the same if and only if worker and sequence are and the readings are a multiple of 2^42 ms apart |
| `Snowflake.RunTraced` | src/util/Snowflake.h:93-137 | in every run each id is packed from a state of its own worker, and those states go strictly forward |
| `Snowflake.RepeatIff` | src/util/Snowflake.h:93-137 | two ids of any two runs under any clocks are the same if and only if workers and sequences are and the timestamps are a multiple of 2^42 ms apart |
| `Snowflake.IdsUnique` | src/util/Snowflake.h:93-137 | no id repeats while the readings stay within any 2^42 ms, rollbacks included |
| `Snowflake.RepeatedRun` | src/util/Snowflake.h:93-137 | a run that returns id 0 twice, its readings 2^42 ms apart |
| `Snowflake.NextIdAdvances` | src/util/Snowflake.h:93-137 | an id comes from a state strictly later than the one before; without an id the state stays |
| `Snowflake.IdsIncrease` | src/util/Snowflake.h:93-137 | while readings stay below 2^41 ms after the epoch, rollbacks included, a worker's ids strictly increase |
| `Snowflake.NonNegativeFromEpoch` | src/util/Snowflake.h:93-137 | and such an id is not negative if and only if its timestamp is not before the epoch |
| `Snowflake.InRangeNonNegative` | src/util/Snowflake.h:93-137 | with all readings from the epoch to 2^41 ms after it, all ids of a run are not negative |
| `Snowflake.IdsCarryWorker` | src/util/Snowflake.h:93-137 | every id of a worker carries the worker, whatever the clock |
| `Snowflake.WorkersDisjoint` | src/util/Snowflake.h:93-137 | two workers never produce the same id, whatever their clocks |
| `Snowflake.SnowflakeGenerator.SetWorker` | src/util/Snowflake.h:75-86 | accepts a worker id in range, once |
| `Snowflake.SnowflakeGenerator.SpinPast` | src/util/Snowflake.h:124-127 | the busy wait ends at the first reading past the last timestamp |
| `Snowflake.Compose` | src/util/Snowflake.h:133-136 | the shifts and ors return the packed id as a signed 64-bit number |
| `Snowflake.SnowflakeGenerator.Next` | src/util/Snowflake.h:93-137 | acts as the specified call: result and new state |
| `RateLimiter.HistoryKeeps` | src/util/RateLimiter.h:140-159 | the deque is the tail of the passed times of its key, what was dropped is out of the window, and any maxRequests + 1 passes in a row span the window |
| `RateLimiter.DequeIsWindowIff` | src/util/RateLimiter.h:140-159 | after every history a key's deque is exactly its passed times in (now - window, now] if and only if the window has a positive length or nothing ever passes |
| `RateLimiter.WindowBound` | src/util/RateLimiter.h:140-159 | no window of the configured length, wherever it lies, holds more than maxRequests passes of a key |
| `RateLimiter.AdmitsIff` | src/util/RateLimiter.h:140-159 | a call passes if and only if fewer than maxRequests calls of its key passed in (now - window, now] |
| `RateLimiter.SlidingWindowLimiter.Allow` | src/util/RateLimiter.h:140-159 | the pop loop acts as specified |
| `TokenBucket.AccountKept` | src/util/RateLimiter.h:58-88 | from any moment on, what passed and what is left are within the burst and the refill |
| `TokenBucket.BucketBound` | src/util/RateLimiter.h:58-88 | any stretch of any history lets through at most burst + rate * elapsed calls of a key |
| `TokenBucket.LimitsIff` | src/util/RateLimiter.h:58-88 | that bound holds for every history if and only if the burst is at least one and the rate is not negative |
| `TokenBucket.PassesIff` | src/util/RateLimiter.h:58-88 | for every rate, burst and history: a call passes if and only if it is the first of its key, or the burst is at least one and, counting from each earlier call of the key, one more is within the burst and the refill since |
| `TokenBucket.TokenBucketLimiter.Allow` | src/util/RateLimiter.h:58-88 | acts as specified |
| `ConnectionPool.Accounting` | src/pool/ConnectionPool.h:224-316 | at every interleaving the count is idle plus borrowed plus being created, at most maxSize if minSize is, and no connection is in two places |
| `ConnectionPool.MaxIff` | src/pool/ConnectionPool.h:171-195 | the count stays within maxSize in every run if and only if minSize does |
| `ConnectionPool.OverfullIff` | src/pool/ConnectionPool.h:266-286 | the full-pool branch of release is unreachable in every run if and only if minSize is within maxSize |
| `ConnectionPool.HandedOutOnce` | src/pool/MySQLPool.h:473-513 | acquire hands out a connection no other caller has: one from the queue that answered its ping, or a new one |
| `ConnectionPool.NothingIff` | src/pool/ConnectionPool.h:224-258 | acquire comes back empty if and only if no idle connection answers and callers account for all of maxSize |
| `ConnectionPool.StartSize` | src/pool/ConnectionPool.h:171-195 | a new pool has one idle connection for every attempt that succeeded |
| `ConnectionPool.AcquireIs` | src/pool/MySQLPool.h:473-513 | in every run acquire gives exactly the first connection of the queue that answers, drops those before it, and otherwise reserves a new one if and only if there is room |
| `ConnectionPool.ReleasedIsBack` | src/pool/ConnectionPool.h:266-286 | a good connection that is released is at the end of the queue, a bad one is gone |
| `ConnectionPool.SweptKeeps` | src/pool/ConnectionPool.h:293-316 | healthCheck keeps at least minSize connections or all there were, and drops stale ones only |
| `ConnectionPool.SweptDrops` | src/pool/MySQLPool.h:547-570 | past minSize every kept connection is fresh |
| `ConnectionPool.SweptSub` | src/pool/ConnectionPool.h:293-316 | healthCheck keeps the order |
| `ConnectionPool.ConnPool.constructor` | src/pool/ConnectionPool.h:171-195 | one connection for every attempt that succeeds |
| `ConnectionPool.ConnPool.DropDead` | src/pool/MySQLPool.h:484-494 | the ping loop drops exactly the connections before the first that answers |
| `ConnectionPool.ConnPool.BeginAcquire` | src/pool/MySQLPool.h:473-500 | acquire up to where it returns or leaves the lock: the specified result and state |
| `ConnectionPool.ConnPool.EndAcquire` | src/pool/ConnectionPool.h:243-254 | acquire after the attempt: a new connection, or the reservation is given back |
| `ConnectionPool.ConnPool.ReleaseConn` | src/pool/ConnectionPool.h:266-286 | the specified new state |
| `ConnectionPool.ConnPool.RunHealthCheck` | src/pool/ConnectionPool.h:293-316 | the loop keeps the specified connections and counts the others out |
| `EPollPoller.AlwaysConsistent` | src/net/EPollPoller.cc:96-179 | in every run the index is added exactly when the kernel holds the fd with the channel's mask, the table lists it exactly when the index is not new, and no epoll_ctl was refused |
| `EPollPoller.EventsAreWanted` | src/net/Channel.h:187-215 | the mask is what was last asked for, reading and writing apart |
| `EPollPoller.InterestIs` | src/net/Channel.cc:20-22 | reading is EPOLLIN and EPOLLPRI, writing EPOLLOUT |
| `EPollPoller.KernelWatchesWanted` | src/net/EPollPoller.cc:96-179 | whenever the kernel holds an fd it watches exactly what was last asked for |
| `EPollPoller.WantedIsWatched` | src/net/EPollPoller.cc:96-179 | in every run a registered channel that wants something is in the kernel with exactly that mask, and an unregistered one is not in the kernel |
| `EPollPoller.DisableAllIff` | src/net/EPollPoller.cc:96-153 | dropping all interest takes the fd out of the kernel if and only if it was registered; otherwise it is added with an empty mask |
| `EPollPoller.DisableTwiceRegisters` | src/net/EPollPoller.cc:96-153 | dropping all interest twice puts the fd back: a run |
| `EPollPoller.Poller.Control` | src/net/EPollPoller.cc:215-248 | one epoll_ctl call, legal or refused; nothing changes for other fds |
| `EPollPoller.Poller.UpdateChannel` | src/net/EPollPoller.cc:96-153 | the specified entry; nothing changes for other fds |
| `EPollPoller.Poller.RemoveChannel` | src/net/EPollPoller.cc:163-179 | the specified entry; nothing changes for other fds |
| `EPollPoller.Poller.Apply` | src/net/Channel.h:187-215 | a channel's method changes the mask, then the registration, as specified |
| `Base64.DigitOfLetter` | src/util/EtcdClient.h:247-254 | the decoding table inverts the alphabet |
| `Base64.RoundTrip` | src/util/EtcdClient.h:223-270 | every byte string is decoded back from its encoding |
| `Base64.FeedChunked` | src/util/EtcdClient.h:247-270 | decoding inverts encoding whatever old bits the accumulator still holds |
| `Base64.RoundTripBroken` | src/util/EtcdClient.h:258-262 | padding, line breaks and foreign characters, wherever inserted or dropped, make no difference |
| `Base64.EncodedLength` | src/util/EtcdClient.h:223-245 | whole groups of four characters, one for every three bytes or part of three |
| `Base64.EncodeEtcd` | src/util/EtcdClient.h:223-245 | computes the encoding |
| `Base64.EncodeClient` | src/websocket/WebSocketClient.h:264-282 | computes the same encoding |
| `Base64.EncodeDigest` | src/websocket/WebSocketFrame.h:407-424 | computes the same encoding for a 20-byte digest |
| `Base64.DigestLength` | src/websocket/WebSocketFrame.h:407-424 | an accept key has 28 characters |
| `Base64.Decode` | src/util/EtcdClient.h:247-270 | the loop computes the decoding |
| `Base64Examples.AlphabetIs` | src/util/EtcdClient.h:223-225 | A to Z, a to z, 0 to 9, plus and slash, and the equals sign |
| `Base64Examples.ShortVectors` | src/util/EtcdClient.h:223-245 | f, fo and foo are encoded as in section 10 of RFC 4648 |
| `Base64Examples.LongVectors` | src/util/EtcdClient.h:223-245 | and so are foob, fooba and foobar |

## Left out

- High-water and write-complete callbacks, and the cross-thread forms of send, sendIov and sendFile, which only post the
  call to the loop.
- What becomes of a response after shutdown() or a Close frame: a request handled after a closing one counts as handled.
- Query parameters, gzip request bodies, cookies, routing, middleware, static files and response writing.
- The WebSocket handshake other than its Base64; what message handlers do apart from closing the session.
- HttpClient, where responses are matched to requests: the order of requests and promises is not kept under several
  callers.
- Several channels on one fd, and an fd closed while registered.
- Timer objects are kept in a table by id rather than as shared objects; 32-bit overflow of delayMs + tickMs - 1 is not
  modelled.
- Ticks that come late or in bursts: the timing theorems are for ticks a fixed time apart, the invariants for any.
- quit() of the event loop from a running functor; leaving and re-entering loop() are steps of the model.
- Redis failover and clock drift between client and server: the lock is held as the server sees it.
- Waiting and notification in the pools, and behaviour after close; only the accounting of the locked sections is
  modelled.
- Token bucket arithmetic is over reals, without rounding; the window length in milliseconds is not cut to 32 bits.
- LoadBalancer::select never calls init on the consistent-hash strategy; the strategy is modelled on its own.
- Round robin, random and least-connections strategies, the circuit breaker, thread pools, logging, configuration and
  metrics: one-branch facts.
- TLS, zlib, SHA-1, protobuf, JSON, MySQL, hiredis and Kafka are foreign code.
