# A model of the game-server engine's transport, concurrency and identity core

This project models the parts of the engine on which everything else rests, and proves what they promise over
all inputs, all runs and all interleavings.

- **Framed message transport.** A message is framed with a packed 8-byte header and appended by any number of
  sender threads under a spin lock; one io thread swaps two buffers and keeps one write in flight
  (`SendPump`, `TcpSession`). The receiver reassembles frames from arbitrary chunks in a growable, compacting
  byte buffer (`BufferStream`, `TcpParser`), copies each into a recycled buffer (`BufferPool`) and queues that buffer
  (`Server`); the pools' ownership invariant is what keeps queued packets intact. `Framing` holds the reference
  decoder that both halves are proved against, `Transport` the end-to-end theorems.
- **Lock-free ring queue.** Producers and consumers as interleaved loads, stores and CAS steps with spurious failure and
  either order of the two loads of a test (`RingQueue`); the guarantees with one producer, with calls that do not
  overlap, and with many producers; the exact conditions on loads and claims for the latter, with runs that violate them
  (`RingLimits`); and the object, whose calls are compositions of the machine's steps (`RingObject`).
- **Ids and sessions.** The snowflake generator (`Snowflake`, over `Bits`), the spin lock (`SpinLock`), the accept
  loop (`TcpListener`), the session life cycle with the map that finds sessions by id (`SessionTable`), and the objects'
  methods as its steps (`SessionLink`).
- **Text and work.** The URL parser and printer (`NetUrl`) and what the parser makes of other text (`NetUrlReading`); the
  command-line parser (`CmdLine`), what a command line sets, reports and refuses (`CmdLineEffect`), and what the
  tokenizer makes of any command string (`CmdLineTokens`); the thread pool's accounting (`ThreadPool`) and loop splitting
  (`LoopPartition`).

Objects that change in place are classes whose methods are proved against functions of the old state. Protocols
between threads are state machines: `Step(s, a)` is one atomic step, total, an action that is not enabled changes
nothing; `Exec` folds it over a sequence of actions; results quantify over all action sequences, that is, over every
reachable state. Where a class and a state machine model the same code (`TcpSession` and `SendPump`, the queue object
and `RingQueue`, `ThreadPool` and its machine, the handler, listener and session objects and `SessionTable`), the
contracts equate the object's new state with a composition of the machine's steps, so the results about the machine
speak about the object. `Trips` in `Framing` plays the same part for the receive loop: it
iterates the loop body, so that whether the loop returns is a statement about the code and not about the decoder.

`dafny verify dfyconfig.toml` checks the whole project.

## What the code does differently from what one might expect

- A frame that announces length 0 makes the receive loop spin for ever; it returns in all other cases
  (`Framing.LoopReturnsExactly`).
- A new session's receive buffer of 2048 bytes is doubled only once by `append`, so a first read of 8192 bytes does not
  fit (`BufferStreams.AppendBound`; the exact condition is `AppendFitsExactly`).
- After a failed write the unsent bytes stay in `cache_buffer_`, and a flush puts them behind newer bytes unless the
  socket is closed first (`SendPump.OrderAfterFailureExactly`, `OrderLostAfterFailure`).
- A session flushes nothing when it is connected, and drops a flush that comes before. Bytes sent so early stay in
  `send_buffer_` until somebody sends again (`SendPump.NoLostWakeupExactly`, `WakeupLostBeforeConnect`).
- `connect` only asks for a closed socket. Connecting a session again while its close handler is between closing the
  socket and `on_close` leaves it open but not in the map (`SessionTable.ReconnectRace`).
- With several producers, the two loads of the enqueue counter can disagree and the -1 token itself be claimed
  (`RingLimits.FreshnessIsExact`, `TwoLoadsBreakTheToken`); and the capacity test, made before the claim, can be stale, so
  that a live slot is overwritten (`RingLimits.HarmlessnessIsExact`, `LateClaimOverwritesLive`).
- `set_size` gives *less* than was asked for above 16384: the largest power of two below the request
  (`RingQueue.SetSize`).
- `spin_lock::try_lock` returns true when the lock was already held (`SpinLocks.SpinLock.TryLock`).
- The pool's documentation (thread_pool.hpp, lines 141 and 285) says that the total is queued plus running and that
  `wait_for_tasks` waits for all of them. A push queues before it counts, so both are off by the pushes under way, and
  the counter can wrap below zero (`ThreadPools.Accounting`, `WaitMeansDoneExactly`, `WaitMissesUncountedPush`).
- `parallelize_loop` is documented (line 169) as equivalent to a loop from the first index up, which for a range given
  backwards would not run at all; the code swaps the bounds and runs it. The model follows the code.
- `--n=v` and `--n v` differ after an option that still waits for its value (`CmdLine.LongSpellingsAgreeExactly`), and
  the tokenizer loses an empty last token (`CmdLine.TokenizeUndoesQuotingExactly`).
- A URL parameter without '=' turns keys and values around behind it (`NetUrlReading.BareKeyTurnsAround`), and an empty
  key is kept only when a '&' ends its parameter (`NetUrlReading.UnterminatedRoundTripExactly`). A negative port counts
  down from 65536 (`NetUrlReading.NegativePort`).
- A message shorter than the 8-byte header is delivered, with a message id read from whatever the buffer held before
  (`Server.ServerBase.OnMessage`, `Framing.IdDeterminedExactly`).

## Model

| member | source | states |
|---|---|---|
| Bytes.WriteThenRead | engine/net/server_base.cpp:80-82 | a header word stored in four little-endian bytes is read back unchanged, for all 32-bit values |
| Bytes.ReadThenWrite | engine/net/tcp_parser.cpp:10 | any four bytes are the stored form of the word they are read as, so reading loses nothing |
| BufferStreams.AppendFitsExactly | engine/net/buffer_stream.cpp:21-34 | the copy in append stays inside the array if and only if the new bytes end within twice the capacity |
| BufferStreams.AppendBound | engine/net/buffer_stream.cpp:21-34 | a chunk no longer than the capacity always fits; 8192 bytes do not fit a new 2048-byte stream |
| BufferStreams.BufferStream.constructor | engine/net/buffer_stream.cpp:2-9 | a new stream is an empty FIFO of the given capacity |
| BufferStreams.BufferStream.Append | engine/net/buffer_stream.cpp:21-34 | the unread bytes become the old ones followed by the new ones, through at most one doubling; the read position stays |
| BufferStreams.BufferStream.MakeRoom | engine/net/buffer_stream.cpp:23-30 | growing preserves the unread bytes and doubles exactly when the tail is too short |
| BufferStreams.BufferStream.CopyIn | engine/net/buffer_stream.cpp:31 | the copy lands behind the stored bytes and changes none of them |
| BufferStreams.BufferStream.ReadableLength | engine/net/buffer_stream.cpp:46-49 | the readable length is the number of bytes appended and not yet consumed |
| BufferStreams.BufferStream.PeekU32 | engine/net/tcp_parser.cpp:10 | the word at the read address is the first word of the unread bytes |
| BufferStreams.BufferStream.OffsetRead | engine/net/buffer_stream.cpp:66-69 | consumes exactly the first n unread bytes |
| BufferStreams.BufferStream.Retrieve | engine/net/buffer_stream.cpp:71-81 | the overlapping move keeps the unread bytes as they are and brings them to the front |
| BufferPools.LeastSufficientPool | engine/net/buffer_pool.h:168-215 | the chosen class is the least listed capacity strictly greater than the size; sizes from 65536 get none |
| BufferPools.DataBuffer.CopyFrom | engine/net/buffer_pool.h:69-79 | the buffer's message becomes the source bytes, or, when they do not fit, nothing changes and 0 is returned |
| BufferPools.DataBuffer.Release | engine/net/buffer_pool.h:60-64 | both lengths are zero again |
| BufferPools.BufferPool.Alloc | engine/net/buffer_pool.h:108-131 | whichever free buffer the queue serves, or a new one, passes to exactly one live handle, with both lengths zero; no buffer is free and live, or free twice |
| BufferPools.BufferPool.ReturnToPool | engine/net/buffer_pool.h:150-157 | the buffer leaves the live ones, is blanked, and is queued once; the ownership invariant is kept |
| BufferPools.PoolManager.constructor | engine/net/buffer_pool.h:165-227 | eleven pools of the listed capacities, with no buffers yet |
| BufferPools.PoolManager.Alloc | engine/net/buffer_pool.h:168-215 | null exactly from 65536 on; otherwise a blank buffer of the chosen class, recycled or new, that was in no live handle and now is in one; the invariant that live and free buffers and their arrays are disjoint is kept over all eleven pools |
| BufferPools.PoolManager.Return | engine/net/buffer_pool.h:150-157 | the buffer goes from the live ones to the free ones of its pool, and the invariant over all pools is kept |
| Framing.EncodeThenParse | engine/net/server_base.cpp:75-83 | every sendable message survives framing, and its frame announces its own length |
| Framing.ParseThenEncode | engine/net/server_base.cpp:109-113 | every well-formed frame is the frame of the message read out of it |
| Framing.IdDeterminedExactly | engine/net/server_base.cpp:111-112 | the id that on_message reads is determined by the message if and only if the message has a whole 8-byte header; otherwise it depends on what the buffer held before |
| Framing.DecodeConserves | engine/net/tcp_parser.cpp:8-28 | delivered frames and leftover bytes together are exactly the bytes received |
| Framing.DecodeFrameLengths | engine/net/tcp_parser.cpp:10-22 | every delivered frame is non-empty, shorter than 65536, and as long as it announces |
| Framing.DecodeRest | engine/net/tcp_parser.cpp:8-29 | the leftover decodes to nothing: a call stops only where it must |
| Framing.DecodeAppend | engine/net/tcp_parser.cpp:5-30 | decoding may be interrupted anywhere and resumed from the leftover |
| Framing.ChunkingIrrelevant | engine/net/tcp_parser.cpp:5-30 | over any sequence of calls, frames, leftover and last return code depend on the concatenation of the chunks only, and equal the recursive decoder |
| Framing.StuckForever | engine/net/tcp_parser.cpp:15-19 | once the head frame is oversize, the error recurs on every later call and nothing more is delivered |
| Framing.DecodePrefix | engine/net/tcp_parser.cpp:8-29 | from any prefix of a stream of well-formed frames exactly the complete frames are delivered, without an error |
| Framing.DecodeAllFrames | engine/net/tcp_parser.cpp:8-29 | a whole stream of well-formed frames is delivered completely, leaving nothing over |
| Framing.ReturnsWithDecode | engine/net/tcp_parser.cpp:8-29 | the loop body, iterated, returns with the decoder's frames, leftover and code unless a frame of length 0 comes up |
| Framing.SpinsOnZeroLength | engine/net/tcp_parser.cpp:8-29 | with a frame of length 0 at the head the loop is still going after any number of rounds |
| Framing.LoopReturnsExactly | engine/net/tcp_parser.cpp:8-29 | the loop returns if and only if decoding does not meet a frame of announced length 0 |
| Server.ServerBase.constructor | engine/net/server_base.cpp:7-13 | no sessions and no packets at first |
| Server.ServerBase.OnConnect | engine/net/server_base.cpp:93-99 | maps the id to the session and queues one connect notice |
| Server.ServerBase.OnClose | engine/net/server_base.cpp:101-107 | removes the id and nothing else, and queues one close notice |
| Server.ServerBase.OnMessage | engine/net/server_base.cpp:109-113 | queues one packet, behind all others, that shares the buffer; its id is the word at bytes 4 to 7 of the buffer, also for a shorter message, and the message's id when the header is complete |
| Server.BuildFrame | engine/net/server_base.cpp:75-83 | a pooled buffer, in nobody else's hands, that holds exactly the frame of (msgid, data), with the header length set, so that its body is the data |
| TcpParsers.TcpParser.constructor | engine/net/tcp_parser.h:13 | a new parser has received nothing and has 2048 bytes of room |
| TcpParsers.TcpParser.RecvAndDecode | engine/net/tcp_parser.cpp:5-30 | after the call the stream holds the decoder's leftover of all bytes ever received; the handler gets exactly the new frames, in order, in buffers that are in use and have the 8-byte header set off from the body; the code is parse_error exactly when the head is oversize; the capacity grows by at most one doubling; buffers that were in use, such as those of packets queued before, keep their bytes |
| TcpParsers.TcpParser.DecodeLoop | engine/net/tcp_parser.cpp:8-29 | the loop terminates by decreasing readable length, delivers the decoder's frames and keeps its leftover, in place |
| TcpParsers.TcpParser.DecodeOne | engine/net/tcp_parser.cpp:10-27 | one trip of the loop: it returns for want of bytes, or of a buffer, exactly as the decoder stops, or delivers the head frame |
| TcpParsers.TcpParser.DeliverHead | engine/net/tcp_parser.cpp:15-27 | the head frame is delivered unless no pool holds it, and then nothing changes; without a handler its buffer goes back to the pool |
| TcpParsers.TcpParser.Deliver | engine/net/tcp_parser.cpp:20-27 | the head frame moves whole from the stream into the buffer, whose header length becomes 8, and the buffer to the handler's queue; packets delivered before keep their bytes |
| TcpParsers.TcpParser.MoveHead | engine/net/tcp_parser.cpp:20-23 | the copy never fails, the buffer's header length is 8 afterwards, and exactly the head frame leaves the stream |
| TcpParsers.RestIsShort | engine/net/tcp_parser.cpp:8-19 | what the leftover looks like for each reason to stop: an incomplete frame, an oversize head, an empty head |
| TcpParsers.RestBounded | engine/net/tcp_parser.cpp:8-29 | with announced lengths in 1..65535 less than 65536 bytes are left over after any call |
| TcpParsers.CapacityBounded | engine/net/buffer_stream.cpp:21-34 | with announced lengths in 1..65535 and reads of at most 8192 bytes that fit, the capacity is 2048 doubled at most six times, hence at most 131072 |
| TcpParsers.SmallReadsFit | engine/net/buffer_stream.cpp:21-34 | a condition to check in advance: reads of at most the initial 2048 bytes always fit |
| TcpParsers.NextRead | engine/net/tcp_parser.cpp:5-29 | in a sequence of reads that all fit and meet neither oversize nor empty heads, each read leaves the capacity that append computes and decodes without getting stuck |
| SendPump.StepKeepsLock | engine/net/tcp_session.h:159-161 | every step keeps: the lock is held by exactly the thread inside its critical section |
| SendPump.StepKeepsWrite | engine/net/tcp_session.h:213-249 | every step keeps: sending_ is set exactly while a write is outstanding, and then cache_buffer_ is its non-empty data and do_send is not running |
| SendPump.StepKeepsOrder | engine/net/tcp_session.h:156-249 | every step keeps, until a write fails: written ++ cache_buffer_ ++ send_buffer_ is all data appended |
| SendPump.StepKeepsWake | engine/net/tcp_session.h:156-249 | every step other than one that connects the socket while bytes wait unattended keeps: unsent bytes on a healthy open socket are awaited by a write, a flush, a handler or a sender |
| SendPump.Reachable | engine/net/tcp_session.h:156-249 | from the new, unconnected session on, the invariants of lock, write and order hold in every reachable state |
| SendPump.PumpOrder | engine/net/tcp_session.h:157-248 | in every run, until the first write error, bytes written, in flight and waiting are the concatenation of all appended data in append order |
| SendPump.FirstFailure | engine/net/tcp_session.h:230-247 | the step in which the first write fails still leaves a prefix of the appended data on the wire |
| SendPump.FailureCloses | engine/net/tcp_session.h:243-247 | in every run, after a failed write a close handler is posted or the socket is already closed |
| SendPump.OneWriteAtATime | engine/net/tcp_session.h:220-230 | in every run the point where do_send starts a write is only reached when none is outstanding, on an open socket, and the buffer of an outstanding write is not touched before it ends |
| SendPump.NoLostWakeupExactly | engine/net/tcp_session.h:114-122 | for every run of a session from its construction on: at every point unsent bytes on a healthy open socket are in somebody's care if and only if the socket is never connected while bytes wait that nothing under way will look at; start flushes nothing, and do_send drops a flush while the socket is closed |
| SendPump.NoLostWakeup | engine/net/tcp_session.h:159-166 | in every such run, in particular in every run whose socket is open from the start, non-empty send_buffer_ on a healthy open socket means a write in flight, a flush posted, a handler running, or a sender between append and post |
| SendPump.OpeningExactly | engine/net/tcp_session.h:181-185 | from every reachable state before the connection: connecting loses no wakeup, then or in any continuation, if and only if no bytes wait or something under way will look at them |
| SendPump.WakeupLostBeforeConnect | engine/net/tcp_session.h:215-218 | and the bad case occurs: a send whose flush runs before the session is connected leaves its bytes behind on an open, healthy socket with nothing under way |
| SendPump.QuiescentMeansSent | engine/net/tcp_session.h:213-249 | when nothing is under way on a healthy open socket that was not connected while bytes waited unattended, everything appended has been written |
| SendPump.MutualExclusion | engine/net/tcp_session.h:159-161 | in every run no two senders, and no sender and the io thread, are in their critical sections together |
| SendPump.SendOnce | engine/net/tcp_session.h:156-167 | an undisturbed send is: data appended, one flush posted, lock free again |
| SendPump.DoSendOnce | engine/net/tcp_session.h:213-230 | an undisturbed do_send is: nothing on a closed socket; otherwise a swap, and a write of the swapped data unless there is none |
| SendPump.FlushOnce | engine/net/tcp_session.h:163-166 | an undisturbed flush of an idle open session starts a write of all waiting bytes, if there are any |
| SendPump.FlushTooEarly | engine/net/tcp_session.h:215-218 | an undisturbed flush of a session that is not open takes no bytes and leaves nothing posted |
| SendPump.CompleteOnce | engine/net/tcp_session.h:230-242 | an undisturbed completion accounts the bytes as written and sends again unless nothing has arrived meanwhile |
| SendPump.StalledExactly | engine/net/tcp_session.h:215-218 | after a failed write and before another is started, the bytes on the wire stay a prefix of the data appended, in every continuation, if and only if the socket is closed |
| SendPump.OrderAfterFailureExactly | engine/net/tcp_session.h:213-248 | from every reachable state: when a write fails for the first time, after any number of its bytes, the order on the wire is safe in all continuations if and only if the socket has been closed by then, which is what the is_open guard of do_send sees |
| SendPump.OrderLostAfterFailure | engine/net/tcp_session.h:243-247 | and the bad case occurs: a reachable open state after a failed write whose bytes on the wire are no prefix of the data appended |
| TcpSessions.TcpSession.constructor | engine/net/tcp_session.h:48-57 | a new session is the pump's initial state, not yet connected, with an empty parser and an 8192-byte read buffer that is no message buffer |
| TcpSessions.TcpSession.Connected | engine/net/tcp_session.h:115-122 | connecting is the pump's step of the first connection: the socket opens and nothing else changes, so nothing is flushed |
| TcpSessions.TcpSession.Send | engine/net/tcp_session.h:156-167 | the object goes through exactly the five steps of a sender: the data joins the waiting bytes, one flush is posted |
| TcpSessions.TcpSession.DoSend | engine/net/tcp_session.h:213-230 | the object goes through exactly the io thread's steps of do_send: on an open socket the buffers are swapped and a write of the swapped bytes is started unless there are none |
| TcpSessions.TcpSession.OnFlush | engine/net/tcp_session.h:163-166 | the object goes through exactly the steps of the flush handler, which returns at once while a write is outstanding |
| TcpSessions.TcpSession.OnWritten | engine/net/tcp_session.h:230-248 | the object goes through exactly the steps of a successful completion, or of a failed one, and a close is posted exactly when it failed; what counts as written is the whole buffer, or the part before the error |
| TcpSessions.TcpSession.OnWriteFailed | engine/net/tcp_session.h:243-247 | a completion with an error ends the write, accounts the bytes before the error, posts exactly one close, and leaves both buffers as they are |
| TcpSessions.TcpSession.OnWriteDone | engine/net/tcp_session.h:232-242 | the object goes through exactly the steps of a completion without an error: the bytes are accounted, and the next write carries all that waits on an open socket |
| TcpSessions.TcpSession.Close | engine/net/tcp_session.h:77-95 | posts one close handler, as the pump's step does, and changes nothing else |
| TcpSessions.TcpSession.OnClosePosted | engine/net/tcp_session.h:81-95 | the first close handler on an open socket closes it and reports on_close once; any later one changes nothing for the data handler |
| TcpSessions.TcpSession.Start | engine/net/tcp_session.h:180-185 | the session is in the map and its connect notice queued, and one read is armed |
| TcpSessions.TcpSession.OnRead | engine/net/tcp_session.h:195-204 | a good read delivers exactly the frames it completes, posts one close exactly when the head is oversize, and arms the next read in both cases |
| TcpSessions.TcpSession.OnReadFailed | engine/net/tcp_session.h:205-209 | a failed read posts one close and arms no other |
| TcpSessions.TcpSession.OnReads | engine/net/tcp_session.h:188-211 | over any sequence of reads that fit: the handler's queue gains exactly the packets of the frames decoded from the concatenation, the leftover and the capacity are those of the reference, and no close is posted |
| Transport.SendMessage | engine/net/server_base.cpp:73-84 | sending a message appends exactly its frame to the session, through a sender's five steps, and leaves no buffer in use |
| Transport.RunCarriesFrames | engine/net/server_base.cpp:73-84 | when every send comes from server_base::send, everything ever appended is a sequence of well-formed frames |
| Transport.MessagesPrefix | engine/net/server_base.cpp:109-113 | a prefix of a frame sequence carries a prefix of its messages |
| Transport.EndToEnd | engine/net/server_base.cpp:73-84 | for every interleaving of senders, handlers and completions without a write error and every cut of the bytes that arrive, the frames decoded from them are a prefix of the frames sent, in append order, and decoding does not get stuck |
| Transport.QuiescentDelivery | engine/net/tcp_session.h:213-249 | once nothing is under way at a sender that was not connected behind a flush, and all written bytes have arrived, the frames decoded are all frames sent, with no leftover |
| Transport.ReceiveFrom | engine/net/tcp_parser.cpp:5-30 | the end-to-end guarantee on the receiving object: after any reads of at most 8192 bytes that append can take, its packet queue has gained a prefix of the (msgid, body) sequence sent, with each body as the buffer's own body accessors show it, in append order, and all of it once nothing is under way at a sender that was not connected behind a flush and everything has arrived; no close is posted and the stream stays within 131072 bytes |
| Transport.EndToEndCapacity | engine/net/tcp_parser.h:13 | reads of what a peer that sends messages only has written keep the reference capacity, which is the parser's, within 131072 bytes |
| RingQueue.SetSize | engine/utils/lockfree_queue.hpp:57-72 | for every request up to 2^30: a power of two, at least 16384; above 16384 it is below the request and at least half of it |
| RingQueue.PowersBelow | engine/utils/lockfree_queue.hpp:66-70 | the doubling loop never shifts beyond 2^30, so it does not overflow an int |
| RingQueue.SlotIsRemainder | engine/utils/lockfree_queue.hpp:96 | the masked ticket is the ticket modulo the capacity, also for ticket -1 |
| RingQueue.SlotsDistinct | engine/utils/lockfree_queue.hpp:96 | any capacity-many consecutive tickets have pairwise distinct slots |
| RingQueue.StoreSparesLive | engine/utils/lockfree_queue.hpp:96 | under the ring's invariant the store under the token leaves every value that is not yet taken in its slot |
| RingQueue.StepKeepsToken | engine/utils/lockfree_queue.hpp:84-97 | every step that is no stale load keeps, however full the ring is: tickets are 0, 1, 2, ..., one producer at most owns the token, and nobody is about to claim it; this rests on the test at :89 |
| RingQueue.StepKeeps | engine/utils/lockfree_queue.hpp:74-126 | every step that is neither a stale load nor a harmful claim keeps the ring's invariant: token, tickets, live slots, what consumers know |
| RingQueue.OneTokenOwner | engine/utils/lockfree_queue.hpp:84-97 | with any number of producers, over every run in which no producer sees -1 at :88 and not at :89: at most one producer owns the token, the counter is -1 while it does, and claimed tickets are 0, 1, 2, ..., each once; nothing is asked about occupancy |
| RingQueue.HarmlessRunsAreFifo | engine/utils/lockfree_queue.hpp:74-126 | over such runs whose claims do not hit a slot in which a different value waits: consumers take the claimed values in claim order, once each |
| RingQueue.RoomIsHarmless | engine/utils/lockfree_queue.hpp:77-96 | a claim made with room never hits a slot in use |
| RingQueue.RoomIsExact | engine/utils/lockfree_queue.hpp:77-96 | having room is the same as being harmless for two different values |
| RingQueue.RoomyRunsAreFifo | engine/utils/lockfree_queue.hpp:74-126 | with any number of producers and consumers, over runs without stale loads and without claims at full occupancy: consumers take the claimed values in claim order, once each, and never more than the capacity are waiting |
| RingQueue.ModestRunsAreFifo | engine/utils/lockfree_queue.hpp:74-126 | over runs without stale loads in which never more than the capacity of values are offered and not taken, which callers can see to, no claim happens at full occupancy, and the same holds |
| RingQueue.NoOverwriteBeforeCas | engine/utils/lockfree_queue.hpp:123-124 | over such runs, whenever a consumer's CAS can succeed, the value it read is still in the slot and is its ticket's value |
| RingQueue.SerialRunsAreRoomy | engine/utils/lockfree_queue.hpp:74-98 | when Enqueue is not entered while another call is inside, the two tests of Enqueue rule out stale loads and claims at full occupancy, whatever the consumers do |
| RingQueue.SerialProducersFifo | engine/utils/lockfree_queue.hpp:74-126 | then, in every run, the values taken are a prefix of the values offered, in order, once each, and never more than the capacity are waiting |
| RingQueue.SingleProducerFifo | engine/utils/lockfree_queue.hpp:74-126 | in particular with one producer and any number of consumers, in every run |
| RingQueue.OfferedAreCalls | engine/utils/lockfree_queue.hpp:74-99 | the values offered, of which those theorems speak, are the arguments of the calls of Enqueue in the run, in call order |
| RingLimits.FreshnessIsExact | engine/utils/lockfree_queue.hpp:88-95 | from every reachable state: a step leaves the token with at most one owner, in all continuations without stale loads, if and only if it is no stale load, that is, does not see -1 at :88 and a ticket at :89 |
| RingLimits.HarmlessnessIsExact | engine/utils/lockfree_queue.hpp:77-126 | from every reachable state: a claim keeps first in, first out in all continuations without stale loads and harmful claims if and only if no different value waits in its slot; with room that is so |
| RingLimits.TwoLoadsBreakTheToken | engine/utils/lockfree_queue.hpp:88-95 | a stale load does occur: for every capacity from 2 on, a run of two producers in which both own the token and ticket -1 is handed out |
| RingLimits.LateClaimOverwritesLive | engine/utils/lockfree_queue.hpp:77-96 | so does a harmful claim: for every power-of-two capacity from 2 on, a run in which the second of two producers that passed the capacity test overwrites the oldest untaken value |
| RingObject.Queue.constructor | engine/utils/lockfree_queue.hpp:47-55 | an empty queue with an array of its own, the machine's initial state, whose capacity is that of set_size |
| RingObject.Queue.Enqueue | engine/utils/lockfree_queue.hpp:74-99 | the object goes through exactly the machine's steps of a call, including the capacity test that fails on a full ring until a consumer has taken a value, and any number of spurious CAS failures; the value joins the end, the others stay in order |
| RingObject.Queue.Dequeue | engine/utils/lockfree_queue.hpp:101-126 | the object goes through exactly the machine's steps of a call, including the emptiness test that fails until a producer has enqueued a value; it yields the oldest value and leaves the rest in order |
| RingObject.CapacityTestEither | engine/utils/lockfree_queue.hpp:77 | whichever counter is loaded first, an undisturbed capacity test lets the call go on exactly when there is room, and starts over otherwise |
| RingObject.EmptinessTestEither | engine/utils/lockfree_queue.hpp:110 | whichever counter is loaded first, an undisturbed emptiness test lets the call go on exactly when a value waits, and starts over otherwise |
| Bits.AndMask | engine/utils/snowflake.hpp:84 | masking with 2^k - 1 is the remainder modulo 2^k, for negative numbers too |
| Bits.OrDisjoint | engine/utils/snowflake.hpp:97 | or-ing a value below 2^k into one shifted left by k is addition |
| Snowflake.Generator.constructor | engine/utils/snowflake.hpp:48-54 | a new generator has used no millisecond, and is on node (0, 0) |
| Snowflake.Generator.Init | engine/utils/snowflake.hpp:63-75 | accepted exactly for worker and datacenter ids in 0..31, each kind of refusal told apart, nothing changed on refusal |
| Snowflake.Generator.WaitNextMillis | engine/utils/snowflake.hpp:107-115 | returns the first reading beyond the given millisecond, and terminates when the clock passes it |
| Snowflake.Generator.Next | engine/utils/snowflake.hpp:77-98 | the fields move as specified in terms of the clock readings taken, and the id is composed of the new fields |
| Snowflake.MaskedIncrement | engine/utils/snowflake.hpp:84 | the masked increment counts to 4095 and wraps to 0 |
| Snowflake.ComposeIsWeightedSum | engine/utils/snowflake.hpp:97 | the shift-and-or id is the weighted sum of its four fields |
| Snowflake.FieldsRecovered | engine/utils/snowflake.hpp:36-44 | division and remainder recover timestamp, datacenter, worker and sequence from every id |
| Snowflake.LaterIsLarger | engine/utils/snowflake.hpp:97 | on one node, a later (timestamp, sequence) composes to a larger id |
| Snowflake.RunFacts | engine/utils/snowflake.hpp:77-98 | over a run the node stays, (timestamp, sequence) increases lexicographically, and within a millisecond the sequence counts the calls |
| Snowflake.IdsIncrease | engine/utils/snowflake.hpp:77-98 | over every run under a non-decreasing clock inside the 41-bit window, ids strictly increase and fit in 63 bits, through sequence wraps and waits |
| Snowflake.AtMost4096PerMillisecond | engine/utils/snowflake.hpp:82-93 | no timestamp is used for more than 4096 ids in any run |
| Snowflake.NodesNeverCollide | engine/utils/snowflake.hpp:63-98 | generators with different (datacenter, worker) never produce the same id, over any pair of runs and clocks |
| SpinLocks.SpinLock.TryLock | engine/utils/spin_lock.hpp:42-46 | sets the flag and tells whether it was already set |
| SpinLocks.SpinLock.Unlock | engine/utils/spin_lock.hpp:48-52 | clears the flag |
| SpinLocks.TryLockTimes | engine/utils/spin_lock.hpp:30-40 | succeeds exactly when one of the first times + 1 attempts finds the lock free, and stops at the first such |
| SpinLocks.MutualExclusion | engine/utils/spin_lock.hpp:18-52 | in every interleaving at most one thread is between lock and unlock, and the flag is set exactly when one is |
| SpinLocks.AcquiresExactly | engine/utils/spin_lock.hpp:18-28 | a spinning thread gets the lock at its next try exactly when no thread holds it |
| SpinLocks.UnlockLetsIn | engine/utils/spin_lock.hpp:48-52 | behind the unlock of its holder, a spinning thread gets the lock |
| TcpListeners.TcpListener.DoAccept | engine/net/tcp_listener.h:120-127 | one new session per accept, under the generator's next id: not connected, nothing sent, received, posted or armed |
| TcpListeners.TcpListener.AcceptHandler | engine/net/tcp_listener.h:129-143 | a good accept connects, announces and registers the session and arms its first read, and makes a new session under a larger id for the next accept; a failed one stops listening; without listening nothing happens |
| SessionTable.NewIdIsLargest | engine/net/tcp_listener.h:124 | the id of a new session is larger than those of all sessions before |
| SessionTable.CreateKeeps | engine/net/tcp_listener.h:120-127 | making a session keeps the invariants of ids, map and notices |
| SessionTable.SessionStepKeepsTable | engine/net/server_base.cpp:93-107 | connecting, closing and failing in any order keep the map faithful |
| SessionTable.SessionStepKeepsNotices | engine/net/server_base.cpp:93-107 | every step keeps: each notice of a session appears once, after its half of the work, and never twice |
| SessionTable.Reachable | engine/net/server_base.cpp:93-126 | the invariants hold in every reachable state, for all nodes and non-decreasing clocks |
| SessionTable.TableIsFaithful | engine/net/server_base.cpp:93-126 | in every reachable state, with sessions connected any number of times, an id leads to a session if and only if that session has this id and on_connect has put it into the map and on_close has not taken it out since |
| SessionTable.IdsAreUnique | engine/net/tcp_listener.h:120-143 | no two sessions of a server ever share an id |
| SessionTable.AtMostOneOnClose | engine/net/tcp_session.h:78-96 | however many closes are posted, each opening of a session's socket is followed by at most one on_connect and one on_close, and each of those by at most one notice |
| SessionTable.ConnectedOnce | engine/net/tcp_session.h:78-124 | a session that is connected once gets at most one on_close, and is in the map exactly from its on_connect to that |
| SessionTable.ReconnectRace | engine/net/tcp_session.h:81-104 | connect only asks for a closed socket: connecting again between a close handler's socket_.close and its on_close leaves a session that is open and announced and not in the map |
| SessionTable.CloseSparesOthers | engine/net/server_base.cpp:101-107 | closing a session leaves every other registered one findable under its id, and the closed one not |
| SessionLink.Listen | engine/net/tcp_listener.h:92-94 | on the objects, the first accept is the table's step create, and establishes what Accept needs |
| SessionLink.Accept | engine/net/tcp_listener.h:129-143 | on the objects, a good accept is exactly the table's steps open, register, announce and create; the handler's map and notices are the world's before and after, and the next accept can follow |
| SessionLink.RunClosePosted | engine/net/tcp_session.h:81-95 | on the objects, a posted close handler is exactly the table's three closing steps |
| SessionLink.Close | engine/net/tcp_session.h:77-96 | on the objects, close is the table's step that posts a close handler |
| SessionLink.Lookup | engine/net/server_base.cpp:115-126 | in every reachable state get_session finds a session under an id exactly while on_connect has put it into the map and on_close has not taken it out since, and null otherwise |
| NetUrls.Find | engine/net/neturl.h:143 | the first occurrence at or behind a position, or none if there is none |
| NetUrls.StoiOfToString | engine/net/neturl.h:164 | reading a printed number gives it back |
| NetUrls.QueryStart | engine/net/neturl.h:149-155 | the parameters begin at the first '?' behind "://", or at the end |
| NetUrls.NetUrl.FromString | engine/net/neturl.h:128-131 | a URL made from a string is what parsing that string yields, hand-written ones without a final '&' included (HandWritten); there is none exactly when stoi rejects the port and its exception escapes |
| NetUrls.NetUrl.Reset | engine/net/neturl.h:267-273 | all four fields are blank |
| NetUrls.NetUrl.ParseUrl | engine/net/neturl.h:140-201 | in-place parsing yields the outcome and fields of the parse function, on well-formed and malformed input alike |
| NetUrls.NetUrl.ParseHostInfo | engine/net/neturl.h:156-169 | host and port are split at the first ':', the port is truncated to 16 bits, a port without digits escapes as an exception |
| NetUrls.NetUrl.ParseQuery | engine/net/neturl.h:171-199 | the character loop computes the parameter map of the recursive reader, of which PiecesRead, SegmentStored and LastSegment say what it stores |
| NetUrls.NetUrl.EncodeUrl | engine/net/neturl.h:203-214 | the printing loop produces the printed form in the order in which the map is iterated |
| NetUrls.ReadAll | engine/net/neturl.h:171-199 | the reader takes the printed parameters, in any order, back into the map |
| NetUrls.CleanRoundTrip | engine/net/neturl.h:140-214 | parse(encode(u)) restores protocol, host, port 0..65535 and the whole parameter map, for every iteration order |
| NetUrls.ParamsComeOutClean | engine/net/neturl.h:171-199 | no key or value read contains '=' or '&' |
| NetUrls.ParsedIsClean | engine/net/neturl.h:140-201 | whatever parses has a protocol without "://", a host without ':' and '?', clean parameters and a 16-bit port |
| NetUrls.RoundTripExactly | engine/net/neturl.h:140-214 | parse undoes encode if and only if the protocol lacks "://", the host lacks ':' and '?', and keys and values lack '=' and '&' |
| NetUrls.ReparseIsStable | engine/net/neturl.h:140-214 | printing what was parsed and parsing it again yields the same URL |
| NetUrlReading.PiecesRead | engine/net/neturl.h:174-195 | each '=' changes sides: for any text between two '&', the pieces between the '=' go to key and value in turn |
| NetUrlReading.SegmentStored | engine/net/neturl.h:179-184 | a parameter that a '&' ends is stored, also under an empty key, and the '&' changes sides as a '=' does |
| NetUrlReading.LastSegment | engine/net/neturl.h:196-199 | the last parameter, which no '&' ends, is stored unless its key is empty |
| NetUrlReading.BareKeyTurnsAround | engine/net/neturl.h:174-199 | behind a parameter without '=', the text in front of the next '=' is the value and the text behind it the key |
| NetUrlReading.ReadAllThen | engine/net/neturl.h:171-195 | printed parameters in front of any other text are read back, and the rest is read on from there |
| NetUrlReading.UnterminatedRoundTripExactly | engine/net/neturl.h:140-214 | the printed form of any clean URL without its final '&', as URLs are commonly written, parses to the same URL if and only if the key printed last is not empty |
| NetUrlReading.QueryRead | engine/net/neturl.h:140-201 | with a clean protocol, host and port in front of the '?', any text behind it is read as parameters and leaves them as they are |
| NetUrlReading.HostAndPort | engine/net/neturl.h:156-169 | the port is all behind the first ':'; an empty one is 0 |
| NetUrlReading.PortRead | engine/net/neturl.h:164 | a port may be followed by anything that is no digit; it is taken modulo 2^16, and refused from 2^31 on |
| NetUrlReading.NegativePort | engine/net/neturl.h:164 | a port with a minus sign is accepted down to -2^31, and counts down from 2^16 |
| NetUrlReading.PortRefused | engine/net/neturl.h:164 | a port that begins with none of blank, sign and digit escapes as an exception |
| NetUrlReading.NotAUrlExactly | engine/net/neturl.h:142-148 | parsing fails exactly on text without "://", and then every field is blank |
| NetUrlReading.PrintedPlain | engine/net/neturl.h:203-214 | neither port 0 nor an empty parameter map is printed |
| NetUrlReading.HandWritten | engine/net/neturl.h:140-201 | "t://h:80?a=1" has protocol t, host h, port 80 and the parameter a = 1 |
| CmdLine.Parser.SetFlag | engine/utils/cmdline.hpp:609-618 | a flag is set without an error; otherwise exactly one error is added: undefined, or needs a value |
| CmdLine.Parser.SetValue | engine/utils/cmdline.hpp:620-629 | an option whose reader accepts the value holds it and is set, without an error; otherwise exactly one error is added: undefined, or invalid (also for a flag) |
| CmdLine.Parser.MakeLookup | engine/utils/cmdline.hpp:445-458 | the table of short names, or the error for the first short name that two options share |
| CmdLine.Parser.SetCluster | engine/utils/cmdline.hpp:491-503 | all short options of a cluster but the last are set one after another |
| CmdLine.Parser.ParseArgument | engine/utils/cmdline.hpp:461-524 | one argument is read as the argument function says, and so is whether the next one went with it |
| CmdLine.Parser.ParseArgv | engine/utils/cmdline.hpp:434-533 | options, errors and rest equal the parse function on the command line, of which SucceedsExactly, LineEffect, LastValueCounts and RestExactly say what they are; true exactly when there are no errors |
| CmdLine.Parser.CheckNeeded | engine/utils/cmdline.hpp:527-532 | one error per needed option that is not set, in iteration order |
| CmdLine.Parser.ParseString | engine/utils/cmdline.hpp:382-422 | parses the tokens of the string, of which CmdLineTokens says what they are; an open quote or a final backslash adds one error and parses nothing |
| CmdLine.ParseOne | engine/utils/cmdline.hpp:461-524 | an argument takes the next one with it if and only if there is one and it ends in an option that takes a value; option names never change, and only plain arguments reach the rest list |
| CmdLine.ParseArgsSplit | engine/utils/cmdline.hpp:460-525 | a command line may be cut at any point where no option waits for a value |
| CmdLine.UnalignedEnd | engine/utils/cmdline.hpp:474-482 | where it may not be cut, the last argument is the option that waits |
| CmdLine.LongSpellingsAgreeExactly | engine/utils/cmdline.hpp:461-488 | "--n=v" and "--n" "v" leave the same options, errors and rest for all v and all following arguments if and only if the arguments before do not end in an option that waits for its value |
| CmdLine.SpellingsDiffer | engine/utils/cmdline.hpp:474-482 | otherwise the waiting option takes "--n=x" whole, but of "--n" "x" it leaves x as a plain argument |
| CmdLine.ClustersSpread | engine/utils/cmdline.hpp:489-521 | "-abc" equals "-a" "-b" "-c" at every place where it is read as an argument and for all that follows, also with unknown letters, when only its last option may take a value |
| CmdLine.ClustersSpreadExactly | engine/utils/cmdline.hpp:489-521 | where it is read as an argument, a cluster leaves the same options, errors and rest as its letters given separately, for all following arguments, if and only if none of the letters but the last names an option that takes a value |
| CmdLine.ClusterBehindWaiting | engine/utils/cmdline.hpp:474-482 | behind an option that waits for its value a cluster goes to that option as a whole |
| CmdLine.SpreadBehindWaiting | engine/utils/cmdline.hpp:474-482 | but of the letters given separately only the first goes to it, and the others are read as arguments |
| CmdLine.WaitingTellsApart | engine/utils/cmdline.hpp:474-521 | so there the two forms of a cluster of two or more letters differ whenever the option's reader accepts the cluster and its first letter as different values, unless a letter in the middle takes a value of its own |
| CmdLine.FrontOptionDiffers | engine/utils/cmdline.hpp:492-503 | a value option at the front of a cluster reports that it needs a value, while separated it takes the next letter as one: the results never coincide |
| CmdLine.ClusterFaults | engine/utils/cmdline.hpp:489-521 | a cluster at the end of the command line adds exactly one error per letter that is undefined or needs a value |
| CmdLine.SpreadFaults | engine/utils/cmdline.hpp:489-521 | given separately, the letters add at most that many errors |
| CmdLine.BuildLookup | engine/utils/cmdline.hpp:445-458 | every short name in the table leads to an option that has it, so the error for an ambiguous short option in the argument loop is never reached |
| CmdLine.CommandLinesAgree | engine/utils/cmdline.hpp:434-533 | both equivalences for whole command lines: options, errors, rest and hence the result of parse |
| CmdLine.ScanQuotedAll | engine/utils/cmdline.hpp:387-416 | scanning quoted arguments yields them all, except an empty last one |
| CmdLine.TokenizeUndoesQuotingExactly | engine/utils/cmdline.hpp:382-422 | the tokenizer undoes quoting if and only if the last argument is not empty (or there are none) |
| CmdLineTokens.ScanText | engine/utils/cmdline.hpp:387-408 | a word of plain characters, characters behind a backslash and quotes, in any mixture, adds exactly what it stands for |
| CmdLineTokens.ScanSpaced | engine/utils/cmdline.hpp:387-416 | words separated by blanks are read as what they stand for, except an empty last one |
| CmdLineTokens.TokenizeReadsExactly | engine/utils/cmdline.hpp:382-416 | the tokens of such a string are exactly what its words stand for if and only if there are none or the last one stands for something |
| CmdLineTokens.PlainWordsExactly | engine/utils/cmdline.hpp:382-416 | words without blanks, quotes and backslashes, joined by single blanks, are the tokens if and only if there are none or the last one is not empty |
| CmdLineTokens.Malformed | engine/utils/cmdline.hpp:399-413 | a quote left open and a backslash at the end are reported, behind any words, inside quotes or not |
| CmdLineTokens.AcceptedIsWords | engine/utils/cmdline.hpp:382-422 | and no other string is accepted: every one that is consists of words separated by single blanks, so what it is read as is known |
| CmdLineEffect.OneArgument | engine/utils/cmdline.hpp:461-524 | an argument sets exactly the options it gives (by long name with or without "=", or by letters), is reported exactly when it is faulty, and unsets nothing |
| CmdLineEffect.LineEffect | engine/utils/cmdline.hpp:460-525 | after the argument loop exactly those options are set that were set before or that some argument gives, and errors were added exactly when some argument is faulty |
| CmdLineEffect.GivenIsSet | engine/utils/cmdline.hpp:460-525 | at any place where no option waits for a value, an argument that gives an option sets it, whatever follows |
| CmdLineEffect.LongNamesSet | engine/utils/cmdline.hpp:461-488 | in particular a flag by "--n", and a value option by "--n=v" and by "--n" "v" when its reader accepts v |
| CmdLineEffect.OneValue | engine/utils/cmdline.hpp:620-629 | an argument that gives an option a value leaves that value in it, and any other leaves a value option as it is |
| CmdLineEffect.ValueStays | engine/utils/cmdline.hpp:460-525 | a value option that no argument gives keeps its value, its default at first |
| CmdLineEffect.LastValueCounts | engine/utils/cmdline.hpp:460-525 | a value option holds what its reader makes of the value that the last argument to give it gives |
| CmdLineEffect.RestExactly | engine/utils/cmdline.hpp:522-524 | the rest list gains exactly the arguments that are read as such and do not begin with a dash, in order |
| CmdLineEffect.PlainIsKept | engine/utils/cmdline.hpp:522-524 | so a plain argument at a place where no option waits is in the list, behind those before it |
| CmdLineEffect.MissingExactly | engine/utils/cmdline.hpp:527-530 | "need option" is reported for exactly the needed options that are not set |
| CmdLineEffect.NoneMissing | engine/utils/cmdline.hpp:527-530 | and nothing is reported if and only if every needed option is set |
| CmdLineEffect.SucceedsExactly | engine/utils/cmdline.hpp:434-533 | parse returns true if and only if no two options share a short name, no argument is faulty, and every needed option was set before or is given by some argument |
| CmdLineEffect.LookupExactly | engine/utils/cmdline.hpp:445-458 | the table of short names leads to every option that has one, and is refused exactly when two options share one |
| CmdLineEffect.Said | engine/utils/cmdline.hpp:460-525 | the message about a faulty argument stands right behind those about the arguments before it |
| CmdLineEffect.SaidUndefined | engine/utils/cmdline.hpp:470-473 | a long option that does not exist, in either form, is reported by name |
| CmdLineEffect.SaidInvalid | engine/utils/cmdline.hpp:620-629 | a value that the reader refuses, or given to a flag, is reported with name and value |
| CmdLineEffect.SaidNeedsValue | engine/utils/cmdline.hpp:475-478 | a value option that is the last argument is reported as needing one |
| CmdLineEffect.SaidUndefinedShort | engine/utils/cmdline.hpp:505-508 | a letter that is no short name is reported |
| CmdLineEffect.SaidAtOnce | engine/utils/cmdline.hpp:438-456 | without a program name, or with options that share a short name, that is the only message |
| ThreadPools.WrapIsRemainder | unittest/t_asio/thread_pool.hpp:137 | the counter's arithmetic is modulo 2^64 |
| ThreadPools.WrapAdd | unittest/t_asio/thread_pool.hpp:137 | size_t arithmetic: an operand may be reduced modulo 2^64 before or after the addition |
| ThreadPools.StepKeepsLock | unittest/t_asio/thread_pool.hpp:337-355 | every step keeps: the mutex is held by exactly the worker inside the locked block |
| ThreadPools.StepKeepsCount | unittest/t_asio/thread_pool.hpp:211-222 | every step keeps: counted plus uncounted pushes balance queued plus running, modulo 2^64 |
| ThreadPools.Reachable | unittest/t_asio/thread_pool.hpp:211-355 | lock, count and order invariants hold in every reachable state |
| ThreadPools.StartedInPushOrder | unittest/t_asio/thread_pool.hpp:337-355 | what has started is a prefix of what was pushed, and the rest is queued: push order, at most once, none lost |
| ThreadPools.PushedAreCalls | unittest/t_asio/thread_pool.hpp:211-222 | what was pushed, of which that speaks, are the arguments of the calls of push_task in the run, in the order in which they got the mutex |
| ThreadPools.FrontIsDefined | unittest/t_asio/thread_pool.hpp:343-347 | a worker that takes from the queue finds it non-empty, although running is read twice |
| ThreadPools.Accounting | unittest/t_asio/thread_pool.hpp:211-222 | in every interleaving the total plus pushers between queueing and counting equals queued plus running, modulo 2^64 |
| ThreadPools.WaitMeansDoneExactly | unittest/t_asio/thread_pool.hpp:287-293 | in every reachable state and for every value that the separate load of paused yields, the wait predicate holds exactly when running (and, unpaused, queued) ones are as many as pushes under way; with none under way, exactly when nothing is running (or, unpaused, queued) |
| ThreadPools.WaiterHolds | unittest/t_asio/thread_pool.hpp:290-291 | while wait_for_tasks holds the mutex nothing is queued or taken, and running ones only end |
| ThreadPools.WaitReturnsDone | unittest/t_asio/thread_pool.hpp:287-293 | with tasks_total and paused loaded at different points of one critical section: when the predicate holds and no push was under way at the load of the total, nothing is running at the end of the section and, unless paused was seen, nothing is queued |
| ThreadPools.WaitMissesUncountedPush | unittest/t_asio/thread_pool.hpp:219-220 | a reachable state in which the unpaused wait is over although something is queued |
| ThreadPools.TasksRunning | unittest/t_asio/thread_pool.hpp:134-138 | get_tasks_running is the number running minus the pushes under way, modulo 2^64 |
| ThreadPools.RoundOnce | unittest/t_asio/thread_pool.hpp:339-354 | an undisturbed round of a worker starts the oldest queued one and counts it done, or, paused, changes nothing |
| ThreadPools.PauseHoldsBack | unittest/t_asio/thread_pool.hpp:344 | pausing holds an undisturbed worker back from a waiting queue, and unpausing lets it start the oldest one |
| ThreadPools.WaitComesAndGoes | unittest/t_asio/thread_pool.hpp:287-293 | between taking and giving back the mutex, wait_for_tasks keeps pushes and workers out, and it leaves the pool as it was |
| ThreadPools.StoppedWorkerEnds | unittest/t_asio/thread_pool.hpp:324-355 | once the pool is stopped, every worker that has or can get the mutex leaves its loop within four steps of its own |
| ThreadPools.ThreadPool.PushTask | unittest/t_asio/thread_pool.hpp:210-222 | the object goes through exactly the two steps of a push: what is pushed joins the end of the queue and is counted |
| ThreadPools.ThreadPool.StartWorker | unittest/t_asio/thread_pool.hpp:312-319 | the object goes through the machine's step that starts a worker, at the top of its loop |
| ThreadPools.ThreadPool.WorkerRound | unittest/t_asio/thread_pool.hpp:337-355 | the object goes through exactly the steps of a round, and what is started is the oldest in the queue, or nothing; what is started leaves the queue and the count, anything else stays |
| ThreadPools.ThreadPool.WaitTest | unittest/t_asio/thread_pool.hpp:291 | while the counter is in step, the test succeeds exactly when running (and, unpaused, queued) ones are as many as pushes under way |
| LoopPartition.ParallelizeLoop | unittest/t_asio/thread_pool.hpp:175-200 | none for an empty range; otherwise non-empty contiguous blocks from the smaller to the larger bound, as many as asked for but no more than items, equal except the last |
| LoopPartition.ChooseBlocks | unittest/t_asio/thread_pool.hpp:183-191 | block size and count with positive blocks that together do not exceed the range, also for fewer items than blocks |
| LoopPartition.SubmitBlocks | unittest/t_asio/thread_pool.hpp:192-199 | the submitted blocks partition the range, the last one reaching its end |
| LoopPartition.EveryIndexOnce | unittest/t_asio/thread_pool.hpp:175-200 | every index of the range is in exactly one block, and no other index is in any |

## Left out

Preconditions and bounds of modelled members:

- BufferStreams.BufferStream.Append: needs the bytes to end within twice the capacity (exactly when the code's single doubling suffices, see AppendFitsExactly) and the capacity it leaves to fit a 32-bit int.
- TcpParsers.TcpParser.RecvAndDecode: needs the same of each chunk, and no announced length 0, with which the loop never returns (LoopReturnsExactly).
- TcpSessions.TcpSession.OnRead: the same two conditions.
- TcpSessions.TcpSession.OnReads: the same for all its reads, and announced lengths in 1..65535.
- TcpSessions.TcpSession.Send: each method is proved for an uninterrupted execution with the lock free; interleavings are the subject of the pump's state machine.
- TcpSessions.TcpSession.OnFlush: the same.
- TcpSessions.TcpSession.OnWritten: the same.
- Transport.ReceiveFrom: speaks of sequences of reads that all fit, since append is undefined beyond; SmallReadsFit is a condition to check in advance.
- SendPump.OrderAfterFailureExactly: a session of the pump has one connection, and `written` is what went out on it; connecting again after a close is only in SessionTable.
- TcpSessions.TcpSession.Connected: a second connection opens the socket too, but is no step of the pump, for the same reason.
- SessionLink.Accept: when the generator's clock goes on is up to the caller; a failed accept stops the listener and is no step of the table.
- Server.BuildFrame: needs header and data to be shorter than 65536; beyond that alloc yields null and the code dereferences it.
- BufferPools.BufferPool.ReturnToPool: destroying a pool while handles are live is not modelled, nor is freeing all free buffers.
- BufferPools.PoolManager.Return: the deleter knows its pool; here the caller names it. When the consumer of the packet queue drops a packet is not modelled.
- RingQueue.SetSize: requests above 2^30 would overflow the shift and are excluded.
- RingObject.Queue.Enqueue: calls of the object do not overlap, except that a call that has to wait lets one other call through instead of spinning; all interleavings are the subject of the state machine.
- RingObject.Queue.Dequeue: the same.
- RingQueue.RoomyRunsAreFifo: with several producers the order guarantee is for runs without stale loads and without claims at full occupancy; FreshnessIsExact and HarmlessnessIsExact show how exact the two conditions are.
- Snowflake.Generator.Next: needs a clock that does not go back, is past the epoch and goes on; the mutex around it makes calls one after another.
- SessionTable.Reachable: needs the same clock and a node in range.
- CmdLine.ClustersSpread: speaks of places where the cluster is read as an argument; ClusterBehindWaiting, SpreadBehindWaiting and WaitingTellsApart say what happens elsewhere; when the reader does not tell the values apart, whether the results coincide depends on which flags are set already. A '-' inside a cluster, which alone would spell "--", is excluded.
- CmdLine.ClustersSpreadExactly: the same two restrictions.
- CmdLine.CommandLinesAgree: one direction; the exact conditions are in LongSpellingsAgreeExactly and ClustersSpreadExactly.
- CmdLine.Parser.ParseArgv: option objects are values in a map with one iteration order; an argument with an embedded NUL, which C strings cut short, is not modelled.
- ThreadPools.WaitMeansDoneExactly: fewer than 2^64 queued, running and being pushed.
- ThreadPools.ThreadPool.WorkerRound: a round that does not have to wait; the waiting is in the state machine.
- LoopPartition.ParallelizeLoop: index types are unbounded, so narrowing of sizes to a small index type is not modelled; the futures of the blocks are not either.

Parts that are not modelled:

- asio, sockets, the resolver and `io_context`: a context runs one handler at a time, a write ends with all bytes written or with an error after some of them; name resolution and socket options are outside.
- `send(const buffer_ptr&)`, which appends without the lock.
- The moodycamel queues: no order between different producer threads is claimed; a pool may serve free buffers in any order.
- The ring's done flags and `Clear`, what Enqueue returns under several producers, and overflow of its counters.
- The C++ memory model: atomics are sequentially consistent, as their default orders are; header words are those of a little-endian machine.
- Liveness: fairness of the spin lock, wake-ups of condition variables, and that a waiter ever returns.
- Thread pool `submit`, futures, `reset` as a whole, and exceptions out of what is executed.
- Parameter access and typed conversion in URLs, and `dump`; `copy_to` of buffers.
- Usage texts, console output, `exit`, typed access to options and the readers' number formats on the command line: a reader is any function that may refuse.
- Context pool round robin, singletons, the Redis and Mongo clients, logging, physics and rendering snippets, `tcp_string_parse`, `tinyjson`: wrappers or input and output, with nothing hard to state.
