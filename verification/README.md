# A verified model of the intranet-penetration proxy

The project models the parts of the repository whose correctness is hardest to see by reading, and
proves what they are for. It has four parts.

**The proxy-connection lifecycle.** ProxyServer and ProxyClient share a control channel, and every
proxy connection is a TCP stream that carries control frames while it is idle and raw bytes while it
relays. `ProxyConnection` is one end of such a connection, `RelayConnect` the object that feeds it, and
`ServerTunnel` the server's collections as an object. `Handlers` are the event handlers of both
programs, `Session` one connection with its two streams over any number of sessions, and `Network` the
whole system with any number of connections, the two shared queues and the server's collections.
`Lifecycle` states what holds in every run, `SessionEndings` when a session ends, and
`LifecycleLimits` where the guarantees stop. TCP is taken to be
an ordered byte channel, and half-close is meant as in section 3.6.1 of RFC 9293. The runs rest on
these assumptions:

- Each event handler is one atomic step.
- A connection is taken from the pool only after its client end has been reset. The code does not
  ensure this: when both sides end at the same time, the server pools the connection first.
  `LifecycleLimits.ReuseAgreesExactly` shows that this assumption is exactly what a reuse needs, and
  `LifecycleLimits.EagerReuseLeaks` is a run that writes a control frame to the local server without it.
- Proxy connections are not closed by their TCP peer, and connecting, accepting and writing a frame succeed.
- No message is dropped for lack of room in the buffer it is sent through. `SendMsg` drops a
  `ShutdownPeerConn`, a notification or a frame exactly when `ByteQueue.Fits` is false of the buffer at
  that moment (`Framing.SendMsg`); a run in which that happens is not among those considered.
- Counters are unbounded in this part; `DrainDetection` gives their 32-bit width and the exact byte
  count up to which that makes no difference.

Even so, not every session ends. `SessionEndings.SessionEndsExactly` says when one does: a connection
with nothing left to do has both ends reset and is back in the pool, if and only if neither of two
things ever happened to it, and after either of them it never gets there. `SessionProgress` says that
a connection comes to rest once no new data and no new session reach it: every other step brings it
closer. The two things are:

- The server dropped a `ShutdownPeerConn` because it had not yet claimed or bound the connection
  (`SessionEndings.DroppedForever`).
- A second splice to a descriptor moved fewer bytes than the first one had read, so that bytes stay in
  the pipe of an end (`SessionEndings.ServerPipeForever`, `ClientPipeForever`).

`LifecycleLimits` has a run of the system for each. In the other direction, from the descriptors to the
proxy stream, bytes that a second splice left in the pipe when the descriptor ends are never sent, nor
counted (`RelayConnect.RelayAll`).

**The byte-stream layer.** `RingBuffer` is the growable ring as an object over an array and
`ByteQueue` its refinement of a queue. `Framing` is the control channel from `MakeMsg` to
`HandlerRead`, and `StreamingDecoder` the receive path of the plain server.

**Threads.** `Semaphore` and `ThreadControl` are step systems over any number of threads, because their
calls block. `ThreadPool` is spdlog's worker pool in the same style, over the ring of `OverrunQueue`.
`RotatingFileSink` is spdlog's file rotation.

**Multi-precision arithmetic.** `Positional`, `BigitLoops`, `Convolution`, `Comparison` and `BigInteger`
are fmt's `bigint`; `Rounding` and `Dragon` the fixed-digit part of `format_dragon`. Two operations do
less than their comments say, and are stated as they are:

- `compare` ranks equal numbers by exponent, so `>= 0` means greater-or-equal only with the smaller
  exponent on the left; `divmod_assign` then takes an equal number to divide 0 times.
- The borrow loop of `subtract_aligned` does not move its index, so the difference is wrong when a
  one is borrowed from a digit 0. This cannot happen when the quotient of the division fits in an `int`.

Neither reaches the digits that `format_dragon` generates when it is asked for a fixed number of them:
those are right for every value with a significand below 2^62, given the caller's estimate of its
decimal exponent. The shortest-digits mode, which also compares numbers of different exponents, is not
modelled.

The Dafny files need no other library; `dfyconfig.toml` names them all.

## Model

| member | source | states |
|---|---|---|
| Lifecycle.ModeAgreement | lib/ProxyConnect.cpp:69-155 | In every reachable state, over any number of sessions, an end that relays has only raw bytes on its incoming stream and in its pipe, an end that does not next reads a frame, and nothing was ever read in the wrong mode |
| Lifecycle.SessionsCarry | lib/ProxyConnect.cpp:78-101 | What a descriptor was given is a prefix, in order, of what the far side forwarded in this very session; it is shut for writing only when it has all of it and that side has ended |
| Lifecycle.HalfCloseExactly | Proxyserver/Tunnel.cpp:40-54 | A descriptor is half-closed if and only if the peer's count has been heard and stream and pipe are empty |
| Lifecycle.ResetsAreClean | lib/ProxyConnect.cpp:38-45 | The step that resets an end leaves its flags and counters zero and nothing of the session in its pipe or on its stream |
| Lifecycle.FinishedPoolsOnce | Proxyserver/Tunnel.cpp:21-38 | Of the four orders of the closes, the one that would never pool cannot occur; in the others a finished session has been pooled once, or the client's request to pool it is in flight while the connection is active and stopped |
| Lifecycle.PoolStepEndsSession | Proxyserver/Control.cpp:83-95 | The step that pools a connection ends a session whose two closes were both seen, and is the first to pool it |
| Lifecycle.PooledWhenDone | Proxyserver/Tunnel.cpp:40-64 | What pools a connection is the drained close of its peer after that of the public side, or the client's request after the other order, and nothing else |
| Lifecycle.StaleFreeIsIgnored | Proxyserver/Control.cpp:83-95 | Reading a FreeConnReq left from an earlier session takes it from its queue and changes nothing else in the whole system |
| Lifecycle.Ownership | Proxyserver/Tunnel.cpp:77-101 | Every connection is in exactly one of backlog, unclaimed, waiting, active and pool; the pool has no duplicates, and its members are stopped, not half-closed, with zero counters and an empty pipe |
| Lifecycle.DescriptorsConserved | Proxyserver/Tunnel.cpp:113-132 | Pending descriptors number the notifications in flight and the connections created but not claimed; the claim never pops an empty list; no descriptor is bound twice; and every descriptor accepted so far, and no other, is in exactly one place: pending, awaited by a waiting connection, or bound |
| ServerSteps.ClaimTakesLast | Proxyserver/Tunnel.cpp:11-19 | In every run, the step in which the server reads ProxyMetaSet takes the descriptor kept last, binds it to that connection, and moves the connection from unclaimed to active; nothing else of the collections changes |
| ServerSteps.AnswerBindsEchoed | Proxyserver/Tunnel.cpp:140-150 | The step in which it reads an answer binds the echoed descriptor, which is the one asked for, and makes the connection active |
| ServerSteps.AcceptServes | Proxyserver/Tunnel.cpp:113-132 | A public connection takes the connection pooled last and asks it for the new descriptor, or else is kept behind the others and announced |
| ServerSteps.PoolIsStack | Proxyserver/Tunnel.cpp:33-37 | A step leaves the pool as it is, takes its last connection, or puts one that was active at its end; only accepting takes one |
| Lifecycle.RunInv | Proxyserver/Tunnel.cpp:107-134 | The invariant of the system holds after every run |
| Network.StepNetInv | Proxyclient/Client.cpp:72-97 | Every step of the system keeps that invariant |
| Network.Projection | Proxyserver/Control.cpp:59-95 | For each connection, every step of the system is a step of that connection alone or leaves it as it was |
| Session.StepInv | lib/ProxyConnect.cpp:11-45 | Every handler of either program keeps the invariant of one connection |
| Session.RelayFlow | lib/ProxyConnect.cpp:79-95 | A splice of any size moves the boundary between delivered and travelling bytes and loses, repeats or reorders none |
| LifecycleLimits.ReuseAgreesExactly | Proxyserver/Tunnel.cpp:40-54 | After a reuse the two ends agree on the mode if and only if the client end had been reset |
| LifecycleLimits.EagerReuseLeaks | Proxyserver/Tunnel.cpp:117-123 | A run of the system from its start, without the assumption on reuse, that delivers a control frame to the local server as data |
| SessionEndings.SessionEndsExactly | lib/ProxyConnect.cpp:11-45 | In every run, a connection to which nothing more can happen has both ends reset and is pooled, once for each session, if and only if the server never dropped a count and no second splice ever fell short at either end; and exactly when the server has it back although the client end never resets |
| SessionProgress.StepWork | lib/ProxyConnect.cpp:78-155 | In any state, every handler step but new data at a descriptor and a reuse lowers a measure of the connection's work, and those raise it by a known amount |
| SessionProgress.WorkBounds | Proxyserver/public_connect.cpp:8-28 | In every run, the steps a connection makes from any point on are at most the work it had and what new data and new sessions brought |
| SessionProgress.MovesUntilIdle | Proxyclient/Client_connect.cpp:9-29 | A connection is not idle if and only if a step that brings no work is possible |
| SessionProgress.ReachesIdle | lib/ProxyConnect.cpp:78-163 | From any state it can come to rest, without reuse or new data, in no more steps than it has work |
| SessionEndings.LostExactly | Proxyserver/Control.cpp:71-77 | What the connection's record says of a dropped count agrees with the steps of the run, for every run |
| SessionEndings.HeldExactly | lib/ProxyConnect.cpp:81-94 | An end's pipe holds bytes if and only if, somewhere in the run, a second splice there moved fewer than the first |
| SessionEndings.DroppedForever | Proxyserver/Control.cpp:74-77 | In every later state of a run after a dropped count, wherever the connection then was: never pooled, nor its public descriptor shut in the session |
| SessionEndings.ServerPipeForever | lib/ProxyConnect.cpp:90-99 | Once a byte stays behind in the server's pipe, in every later state the connection is active and started, its public descriptor open, and it is not pooled again |
| SessionEndings.ClientPipeForever | lib/ProxyConnect.cpp:90-99 | The same for the client: its end stays started and its local descriptor open, in the same session |
| LifecycleLimits.Realised | Proxyserver/Tunnel.cpp:107-134 | Whatever handlers of one connection can do from its creation, a run of the system does; the converse of the projection |
| LifecycleLimits.DroppedCountHangs | Proxyclient/Client_connect.cpp:17-22 | A run with every assumption kept in which the local server ends at once, its count overtakes the first frame, both sides end, and the connection is left idle and not ended, although no splice fell short |
| LifecycleLimits.ShortSpliceHangs | lib/ProxyConnect.cpp:90-99 | A run with every assumption kept and no count dropped that is left idle and not ended after one short splice at the server's end |
| DrainDetection.DetectsExactly | lib/TransConnect.h:26-39 | With 32-bit counters, the test for a drained stream succeeds after the last event and no other, for every schedule, if and only if the session has at most 2^32 - 1 bytes, or 2^32 - 2 on a fresh connection |
| DrainDetection.DetectsWithinLimit | lib/ProxyConnect.cpp:95-99 | Positive chunks that add up to the announced count, the announcement anywhere among them: detected exactly once, from -1 or from 0, also for a session of no bytes |
| DrainDetection.WrapsTooEarly | lib/TransConnect.h:35-38 | One byte more, and a schedule is detected too early |
| ProxyConnection.ProxyConnect.ShutdownFromRemote | lib/ProxyConnect.cpp:11-24 | Shuts the descriptor in either case; resets exactly if the local side had ended |
| ProxyConnection.ProxyConnect.ShutdownFromLocal | lib/ProxyConnect.cpp:25-37 | Leaves the descriptor open; resets exactly if the remote side had ended |
| ProxyConnection.ProxyConnect.HearTotal | Proxyserver/Control.cpp:79-80 | Hearing the peer's count ends the remote side if and only if the counters meet then, and moves no byte |
| ProxyConnection.ProxyConnect.HandleReadRaw | lib/ProxyConnect.cpp:78-101 | Bytes keep their order from stream through pipe to descriptor; the closing handler is called exactly when bytes moved and the counters meet |
| RelayConnect.Relay.HandleRead | Proxyserver/public_connect.cpp:8-32 | Bytes keep their order from descriptor through pipe to stream and are counted as they leave; the first end of the descriptor announces their number, a later one nothing; the object does what the system model says |
| RelayConnect.RelayAll | Proxyclient/Client_connect.cpp:9-33 | Over a whole session the stream gets a prefix of what was read, and its length is announced; it is all that was read if and only if no second splice ever fell short |
| ServerTunnel.Tunnel.NewPublicConnHandler | Proxyserver/Tunnel.cpp:107-134 | The accept loop serves descriptors from the end of the pool while it lasts, and keeps and announces each of the rest, in order |
| ServerTunnel.Tunnel.ClaimProxyConn | Proxyserver/Tunnel.cpp:83-89 | Takes the descriptor kept last and makes the connection active; nothing else changes, and the collections move as in the system model |
| ServerTunnel.Tunnel.HandleStartProxyConnRsp | Proxyserver/Tunnel.cpp:140-150 | Moves a waiting connection to the active ones, does nothing for any other, and touches neither pool nor descriptors |
| ServerTunnel.Tunnel.FreeProxyConn | Proxyserver/Tunnel.cpp:21-38 | Moves an active connection that is not started to the end of the pool, and does nothing otherwise |
| ServerTunnel.Tunnel.PopFreeProxyConn | Proxyserver/Tunnel.cpp:91-101 | Takes the connection pooled last, if there is one |
| ServerTunnel.Tunnel.GetAndPopUndealPublicFd | Proxyserver/Tunnel.cpp:11-19 | Takes the descriptor kept last |
| RingBuffer.ChooseCapacity | lib/Buffer.cpp:16-41 | The growth loop ends; it rejects exactly requests beyond the maximum, and otherwise gives what is needed if that is beyond the double, the double or the maximum below 1024, and else the first number of quarters that covers the need, cut at the maximum |
| RingBuffer.NewCapacityFits | lib/Buffer.cpp:24-41 | The growth policy always covers the request and stays within the maximum |
| RingBuffer.Buffer.MustInsert | lib/Buffer.cpp:11-44 | Makes room without changing the unread bytes, or fails without changing anything |
| RingBuffer.Buffer.Resize | lib/Buffer.cpp:55-77 | Relocation keeps the unread bytes |
| RingBuffer.Buffer.WriteToBuffer | lib/Buffer.cpp:97-114 | Appends all bytes or none, through wrap-around and growth, and says which; exactly when there is room |
| RingBuffer.Buffer.Read | lib/Buffer.cpp:79-95 | Takes the oldest bytes, or changes nothing when there are too few |
| RingBuffer.Buffer.WriteToSocket | lib/Buffer.cpp:116-135 | What was sent and what is left are the unread bytes in order; as much was sent as the answers take, each in full but for those that reach the end of the array or of the bytes; it stops early only at an answer that refuses |
| RingBuffer.Buffer.WriteOnce | lib/Buffer.cpp:118-131 | One call sends the lesser of what the system takes and what lies before the end of the array |
| RingBuffer.Buffer.GetUnused | lib/Buffer.cpp:48-53 | The number of unread bytes, wrapped or not |
| RingBuffer.Buffer.constructor | lib/Buffer.h:7-11 | An empty buffer whose maximum is at least its capacity |
| RingBuffer.Buffer.WriteFails | lib/Buffer.cpp:122-131 | What a negative result of `write` does: from an index above 0 the byte before the window comes back in front of it, or a full buffer turns empty; from index 0 the index goes to 2^64 - 1 modulo the size |
| Ring.Appended | lib/Buffer.cpp:103-108 | Writing behind the used part of a ring, across its end or not, appends to it |
| Ring.Consumed | lib/Buffer.cpp:87-92 | Moving the read index drops that many elements from the front |
| ByteQueue.Drive | lib/Buffer.cpp:46-135 | Any sequence of operations on the object is a trace of a byte queue with its capacity, which grows exactly by the growth policy; a flush sends what the answers take and stops early only at one that refuses |
| ByteQueue.Conservation | lib/Buffer.cpp:79-135 | Over any trace, every accepted byte comes out once, in order, or is still inside, and no other byte comes out |
| Framing.DecodeEncode | lib/Message.cpp:4-14 | A frame in front of any stream decodes to its message and leaves that stream |
| Framing.EncodeOnWire | lib/CtlConnect.cpp:15-17 | The bytes of a frame: its own length with the highest byte first, the type with the lowest first, and the data |
| Framing.DecodesWire | lib/CtlConnect.cpp:25-53 | A stream is answered with a message exactly if it begins with the complete bytes of that frame, at most 1032; when it is too long, or ends, is told from its bytes as well |
| Framing.DecodePartial | lib/CtlConnect.cpp:25-53 | A frame cut short yields no message |
| Framing.DecodeFrames | lib/CtlConnect.cpp:25-53 | Whole frames followed by part of one decode to exactly the whole ones |
| Framing.SendMsg | lib/CtlConnect.cpp:13-23 | Queues the whole frame, in those bytes, if the buffer has or can get room for 8 and the data, and otherwise nothing |
| Framing.Transmit | lib/CtlConnect.cpp:13-23 | Any sequence of sends and partial writes puts the accepted frames, whole and in order, on the wire and in the buffer; each is accepted if and only if it fits the queue that the buffer then is |
| Framing.RoomForAll | lib/Buffer.cpp:11-22 | None is dropped while the capacity at the start is enough for all |
| Framing.Readn | lib/Utils.cpp:21-40 | Reads exactly the bytes asked for, or all that there are, however the system splits them and through any number of interruptions |
| Framing.HandlerRead | lib/CtlConnect.cpp:25-53 | One call answers with a message exactly if the stream begins with the complete bytes of its frame, and leaves what follows; it reads what the decoder says also of malformed streams |
| Framing.ReceiveAll | lib/CtlConnect.cpp:25-53 | Reading to the end of the stream gives the decoded messages, whatever the pieces |
| Framing.PrefixDecodes | lib/CtlConnect.cpp:13-53 | What has left the sender decodes to the first accepted messages, and to all of them once everything has left |
| Framing.EndToEnd | lib/CtlConnect.cpp:13-53 | Sender and receiver together: the messages received are the accepted ones, in order, and those accepted are exactly those that fit |
| StreamingDecoder.ParseSound | conf/ThreadBuffer.hpp:71-77 | Parsing loses no byte, yields what the headers announce, and keeps a tail too short for a frame, always below 32767 bytes |
| StreamingDecoder.ParseBytes | conf/ThreadBuffer.hpp:71-77 | The first two bytes of everything handed on, the lower one first, are its length, and what is kept is shorter than the length that it announces |
| StreamingDecoder.ParseConcat | Server/ThreadServer.hpp:190-193 | Frames sent one after another, and part of another, parse back to themselves |
| StreamingDecoder.ParseSplit | Server/ThreadServer.hpp:183-195 | Parsing one piece, and then what it left together with the next, is the same as parsing both at once |
| StreamingDecoder.DrainEndsExactly | Server/ThreadServer.hpp:190-193 | For every stream without negative lengths, the drain loop ends if and only if it never meets a header of length 0 |
| StreamingDecoder.ThreadBuffer.Read4Socket | conf/ThreadBuffer.hpp:59-69 | Appends what `recv` gave, and gives 0 only for an ended stream or a full buffer |
| StreamingDecoder.ThreadBuffer.Pop | conf/ThreadBuffer.hpp:39-47 | Removes the first bytes and keeps the rest |
| StreamingDecoder.ThreadBuffer.Empty | conf/ThreadBuffer.hpp:71-77 | True exactly when fewer than four bytes are there, or fewer than the first two, the lower one first, announce as a positive 16-bit number |
| StreamingDecoder.Drain | Server/ThreadServer.hpp:190-193 | The drain loop ends; it takes exactly the complete frames, of the length in their first two bytes, and no byte is lost |
| StreamingDecoder.Serve | Server/ThreadServer.hpp:183-195 | For every stream on which the drain loop ends and every split by `recv`, the frames delivered and the tail kept depend on the stream only and are together the stream; each frame has the length in its first two bytes; before each read the buffer holds less than 32767 of its 81920 bytes, and each read gives something |
| Semaphore.NoWakeupLost | Server/ThreadSemaphore.hpp:10-24 | In every interleaving, returned waits and wakeups on offer are together the lesser of waits and wakeups; the blocked threads are max(0, -wait) + wakeup; a wakeup on offer has an awake thread that can take it |
| Semaphore.StepInv | Server/ThreadSemaphore.hpp:10-24 | Every critical section keeps the counting invariant |
| ThreadControl.OrderedExit | Server/ThreadControl.hpp:9-44 | Without `Exit`, a `Close` that waited returns only after every thread started so far has ended |
| ThreadControl.ReturnsInOrderExactly | Server/ThreadControl.hpp:21-34 | In every history, a `Close` that waited returns after all threads ended if and only if the semaphore holds one wakeup for every `Exit` that lowered the flag; it never holds more |
| ThreadControl.OrderKeptExactly | Server/ThreadControl.hpp:21-44 | After any history, every `Close` to come returns in order, for all continuations without `Exit`, if and only if no `Exit` so far found the flag up |
| ThreadControl.ExitBreaksOrder | Server/ThreadControl.hpp:29-34 | A run with one `Exit` in which a later `Close` returns while its thread works |
| OverrunQueue.CircularQ.PushBack | include/spdlog/details/circular_q.h:49-62 | Appends, and drops the oldest item and counts it exactly if the queue was full |
| OverrunQueue.CircularQ.PopFront | include/spdlog/details/circular_q.h:99-102 | Removes the oldest item |
| OverrunQueue.CircularQ.CopyMoveable | include/spdlog/details/circular_q.h:126-138 | Moves contents and counter and leaves the other queue disabled |
| OverrunQueue.CircularQ.At | include/spdlog/details/circular_q.h:91-95 | The item at that place in the queue, wrapped or not |
| OverrunQueue.CircularQ.Size | include/spdlog/details/circular_q.h:77-87 | The number of items |
| OverrunQueue.CircularQ.Full | include/spdlog/details/circular_q.h:109-117 | True exactly when the next push overruns |
| OverrunQueue.OverrunWindow | include/spdlog/details/circular_q.h:53-60 | Writing the last free slot and skipping the head drops exactly the oldest item |
| ThreadPool.Conservation | include/spdlog/details/mpmc_blocking_q.h:32-67 | At all times every message posted was taken, overrun or is queued, counted with multiplicity |
| ThreadPool.QueueKeepsNewest | include/spdlog/details/mpmc_blocking_q.h:32-67 | In every run the queue holds the messages posted last; a post goes to its end and overruns the oldest exactly when it is full, which only a post that does not wait can find; a worker takes the oldest |
| ThreadPool.BlockingIsFifo | include/spdlog/details/mpmc_blocking_q.h:32-40 | Under the block policy nothing is dropped and messages are taken in the order posted |
| ThreadPool.ShutdownProcessesAll | include/spdlog/details/thread_pool-inl.h:45-60 | Once the joins return, the queue is empty, one terminate per worker was taken, and every earlier message was processed once or overrun |
| ThreadPool.DestructorReturns | include/spdlog/details/thread_pool-inl.h:45-60 | Once nobody but the destructor posts, a bounded number of steps is left in whatever order they come, and they run out exactly when every worker has exited |
| ThreadPool.PostingIsOver | include/spdlog/details/thread_pool-inl.h:49-52 | No log or flush message is posted after the first terminate message, so that `DestructorReturns` holds from there |
| ThreadPool.BlockingShutdown | include/spdlog/details/thread_pool-inl.h:83-133 | Under the block policy every earlier message was processed exactly once |
| ThreadPool.StepInv | include/spdlog/details/thread_pool-inl.h:95-133 | Every critical section and every message handled keeps the balance |
| RotatingFileSink.RotationKeepsSuffix | include/spdlog/sinks/rotating_file_sink-inl.h:75-139 | From an empty directory, the files from last to first hold a suffix of the messages written, all of them while the last file is unused; each is within the maximum or holds one message that does not fit |
| RotatingFileSink.RotatesOnlyWhenFull | include/spdlog/sinks/rotating_file_sink-inl.h:84-92 | Whatever is written, a closed file and the first message of the file after it do not fit in one together |
| RotatingFileSink.AllInOneFile | include/spdlog/sinks/rotating_file_sink-inl.h:79-94 | As long as all messages together fit in one file, file 0 holds all of them and there is no other |
| RotatingFileSink.Sink.Rotate | include/spdlog/sinks/rotating_file_sink-inl.h:109-139 | The descending loop of renames moves every file up by one and discards what is beyond the last, and file 0 is empty |
| RotatingFileSink.Sink.SinkIt | include/spdlog/sinks/rotating_file_sink-inl.h:75-95 | A message that fits, or finds file 0 empty, is appended to file 0 and no other file changes; for any other, every file moves up by one and file 0 holds that message |
| RotatingFileSink.SunkInv | include/spdlog/sinks/rotating_file_sink-inl.h:75-95 | Each write keeps the sizes, and the file numbers without a gap |
| RotatingFileSink.ChainRotated | include/spdlog/sinks/rotating_file_sink-inl.h:103-138 | Rotation keeps the chain of files but for its last |
| Convolution.AddExact | include/spdlog/fmt/bundled/format-inl.h:360-363 | The carry found by comparing makes the sum exact below 2^128 |
| Convolution.ShiftExact | include/spdlog/fmt/bundled/format-inl.h:364-369 | The shift over two words is exact division by the digit base |
| Convolution.ColumnsAreProduct | include/spdlog/fmt/bundled/format-inl.h:565-584 | The columns of cross products add up to the product |
| Convolution.SquareDigits | include/spdlog/fmt/bundled/format-inl.h:558-585 | Both halves of the convolution give the exact square, with the accumulator never past 128 bits |
| BigitLoops.MultiplyDigits | include/spdlog/fmt/bundled/format-inl.h:417-426 | The exact product with a 32-bit number |
| BigitLoops.MultiplyDigitsWide | include/spdlog/fmt/bundled/format-inl.h:428-443 | The exact product with a 64-bit number; and the carry before each digit is the exact product so far without the digits already written |
| BigitLoops.WideBounds | include/spdlog/fmt/bundled/format-inl.h:434-438 | No intermediate result of one turn of the loop passes 64 bits, from whatever 64-bit carry it starts |
| BigitLoops.CarryBelow | include/spdlog/fmt/bundled/format-inl.h:434-438 | The carry of the loop stays below the factor, and so is at most 2^64 - 2 |
| BigitLoops.CarryReaches | include/spdlog/fmt/bundled/format-inl.h:434-438 | The bound is tight: for the largest factor, the carry after two of the largest digits is 2^64 - 2 and nothing else |
| BigitLoops.ShiftDigits | include/spdlog/fmt/bundled/format-inl.h:482-488 | The exact product with a power of two |
| BigitLoops.SubtractBigits | include/spdlog/fmt/bundled/format-inl.h:393-397 | One digit of a subtraction in wrapping 64-bit arithmetic, with its borrow |
| BigitLoops.SubtractDigits | include/spdlog/fmt/bundled/format-inl.h:406-415 | The difference, plus exactly what the borrow loop gets wrong, for all operands |
| BigitLoops.NoBorrowError | include/spdlog/fmt/bundled/format-inl.h:413-413 | Nothing is wrong when the minuend is at most one digit longer |
| BigitLoops.BorrowSkipsDigit | include/spdlog/fmt/bundled/format-inl.h:413-413 | Operands for which the result is too large |
| BigitLoops.RemoveLeadingZeros | include/spdlog/fmt/bundled/format-inl.h:399-403 | Keeps the value and leaves a leading digit, or a single 0 |
| BigitLoops.AlignDigits | include/spdlog/fmt/bundled/format-inl.h:592-596 | Zeros below, and the value times a power of the base |
| BigitLoops.AssignDigits | include/spdlog/fmt/bundled/format-inl.h:463-470 | The digits of a 64-bit number, in normal form |
| Comparison.Compare | include/spdlog/fmt/bundled/format-inl.h:498-512 | 1 for the larger value, and between equal values for the smaller exponent; 0 only if both are equal; else -1 |
| Comparison.CompareDecidesGe | include/spdlog/fmt/bundled/format-inl.h:498-512 | With the smaller exponent on the left, non-negative if and only if greater or equal |
| Comparison.CompareMissesEqual | include/spdlog/fmt/bundled/format-inl.h:510-511 | Equal numbers that compare as less |
| Comparison.AddCompare | include/spdlog/fmt/bundled/format-inl.h:515-536 | The sign of lhs1 + lhs2 - rhs, through all early exits |
| Comparison.GapDecides | include/spdlog/fmt/bundled/format-inl.h:527-535 | A difference of the higher digits below 0 or above 1 settles the sign |
| BigInteger.Bigint.AssignNumber | include/spdlog/fmt/bundled/format-inl.h:463-471 | The object holds the number, in normal form |
| BigInteger.Bigint.Assign | include/spdlog/fmt/bundled/format-inl.h:455-461 | The object holds the other's digits and exponent |
| BigInteger.Bigint.Multiply | include/spdlog/fmt/bundled/format-inl.h:492-496 | The object holds the exact product, and a leading digit if it did before |
| BigInteger.Bigint.MultiplyWide | include/spdlog/fmt/bundled/format-inl.h:428-443 | The same for a 64-bit factor |
| BigInteger.Bigint.ShiftLeft | include/spdlog/fmt/bundled/format-inl.h:477-490 | The object holds its value times 2^shift |
| BigInteger.Bigint.Square | include/spdlog/fmt/bundled/format-inl.h:558-585 | The object holds the exact square, in normal form |
| BigInteger.Bigint.Align | include/spdlog/fmt/bundled/format-inl.h:589-598 | The value and number of digits stay, the exponent becomes the lesser |
| BigInteger.Bigint.SubtractAligned | include/spdlog/fmt/bundled/format-inl.h:406-415 | The object holds the difference, plus exactly the error of the borrow loop |
| BigInteger.Bigint.AssignPow10 | include/spdlog/fmt/bundled/format-inl.h:539-556 | The object holds 10^exp, by the bits of the exponent |
| BigInteger.Bigint.DivmodAssign | include/spdlog/fmt/bundled/format-inl.h:602-613 | Minuend = quotient * divisor + remainder for every quotient that fits an `int`; the remainder is below the divisor if and only if the operands were not equal numbers, the minuend with the larger exponent |
| BigInteger.QuotientLength | include/spdlog/fmt/bundled/format-inl.h:602-613 | A quotient that fits an `int` means a minuend at most one digit longer |
| Rounding.RoundsOnce | include/spdlog/fmt/bundled/format-inl.h:2317-2319 | There is exactly one nearest integer with ties to even |
| Rounding.RoundsIsNearest | include/spdlog/fmt/bundled/format-inl.h:2317-2319 | No other integer is nearer, and if one is as near, that chosen is even |
| Rounding.DecimalFirst | include/spdlog/fmt/bundled/format-inl.h:2312-2316 | The first digit written counts for the highest power of ten |
| Rounding.RoundsFromRemainder | include/spdlog/fmt/bundled/format-inl.h:2317-2319 | Twice the remainder against the divisor, and the parity of the last digit, find it |
| Dragon.SetUp | include/spdlog/fmt/bundled/format-inl.h:2236-2271 | Numerator over denominator is exactly the value over 10^exp10, in each of the three cases; and no equal numbers with the larger exponent above will be met |
| Dragon.NotPowerOfTen | include/spdlog/fmt/bundled/format-inl.h:2238-2248 | A 64-bit significand with a binary exponent of 32 or more is never a power of ten |
| Dragon.Generate | include/spdlog/fmt/bundled/format-inl.h:2312-2316 | The digits, all 0 to 9, and what is left are the exact quotient |
| Dragon.PropagateCarry | include/spdlog/fmt/bundled/format-inl.h:2320-2333 | A carry through any run of nines keeps the number, and an overflow leaves a 1 and zeros |
| Dragon.FixedDigits | include/spdlog/fmt/bundled/format-inl.h:2311-2337 | n digits, all 0 to 9: the exact quotient rounded half to even |
| Dragon.FormatDragon | include/spdlog/fmt/bundled/format-inl.h:2225-2337 | For every value and number of digits, also 0, digits and final exponent are the value rounded half to even at that place |

## Left out

- Sockets, epoll, accept, connect and argument parsing: channels and freely chosen pieces stand for them.
- Peer TCP close of a proxy connection (Proxyserver/Tunnel.cpp:152-159): it leaves the pool and the waiting map as they are, so the partition is for runs without it.
- More than one tunnel or client, an unknown tunnel or control id, and a failing connect: a run has one tunnel with one client.
- Frames on a proxy stream are single items in the lifecycle; how frames become bytes and back is `Framing`, for control messages. `SendMsgDirct` is taken to write its frame whole.
- Thread races inside a handler: handlers are atomic.
- The handlers of `Control`, `Client`, `Server` and the client's `Tunnel` are functions on the state of one connection, composed from the steps of the objects `ProxyConnect`, `Relay` and `Tunnel`; aliasing between those objects is not captured.
- getValidProxyID: the retry loop is the assumption that a new id is fresh.
- Int overflow of buffer capacities (`capacity_ * 2`), and `malloc` failing: capacities are unbounded.
- RingBuffer.Buffer.WriteToSocket: a negative answer, as for EAGAIN or an interrupted call, is not among those it is modelled for. The code converts -1 to the largest `size_t` and goes on; what that does to the buffer is stated for one call, in `WriteFails`, and no conservation holds across it.
- A `read` that fails other than with EINTR or EAGAIN, in `readn`.
- Framing.HandlerRead: a length field of 4 to 7 is taken as a broken frame; the code dispatches on a type it has not fully read. Which handler a message type selects is not modelled.
- StreamingDecoder.Serve: for streams whose headers announce at least one byte, which is when the drain loop ends; for negative lengths, where `pop` copies from outside the buffer, nothing is claimed. The `memcpy` in `pop` overlaps and is read as a left shift.
- `ThreadBuffer::write2socket`: it discards what a partial send leaves, so nothing is conserved.
- ThreadControl.OrderedExit: for runs without `Exit`; what an `Exit` costs is exact in `ReturnsInOrderExactly` and `OrderKeptExactly`. One `Close` at a time, because it waits with the mutex held.
- Semaphore and ThreadPool are transition systems and not objects with methods, because their calls block inside; the timeout of `dequeue_for` changes nothing and is no step.
- ThreadPool: producers do not post once the destructor has begun; exceptions of a sink are not modelled.
- RotatingFileSink.Sink.constructor: its refusal of a size of 0 and of more than 200000 files is a precondition; opening an existing log and `rotate_on_open` are left out.
- RotatingFileSink.Sink.Rotate: every rename succeeds; the retry and the exception after a failed one are left out.
- BigInteger.Bigint.AssignPow10: for exponents below 2^30, beyond which the search for the top bit overflows an `int`.
- BigInteger.Bigint.DivmodAssign: for quotients that fit its `int`. `FMT_ASSERT(capacity() <= bigits_capacity)` in the destructor is not modelled, nor is the accumulator as a 128-bit integer where the compiler has one.
- Dragon.FormatDragon: the estimate of the caller, value < 10^(exp10 + 1), is a precondition, as is a significand that still fits 64 bits when shifted; digits are numbers and not characters. The shortest-digits mode is left out.
- Dragonbox, Grisu, format strings, colour, chrono, locale, the other sinks, the registry and pattern formatting: table-driven, or thin.
- Least-connection choice, the expiry scan and the object pools: easy, or without a clear meaning.
