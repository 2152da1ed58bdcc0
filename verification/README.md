# Verified model of msgbroker

A Dafny model of the parts of the msgbroker messaging library where a property of
whole runs rests on several functions agreeing, with proofs of those properties.

| file | models |
|---|---|
| `Mpsc.dfy` | the lock-free multi-producer queue, as atomic steps of any number of threads |
| `Efd.dfy`, `Wakeup.dfy`, `Writable.dfy`, `LostPollout.dfy` | the event descriptor and the unsignal-then-recheck protocol of both directions, as atomic steps |
| `Wire.dfy`, `Stream.dfy`, `OutBuf.dfy`, `Sipc.dfy` | length-prefixed framing over a socket that splits, refuses and fails as it likes |
| `WsFrame.dfy`, `WebSocket.dfy` | WebSocket frames, a reference decoder, and the resumable parser that agrees with it |
| `List.dfy`, `Walk.dfy`, `Scheduler.dfy` | the linked list, loops over it, and the rotating pipe lists with their fairness |
| `ReqRep.dfy`, `Matching.dfy` | the REQ and REP sockets, and request/reply matching over whole runs |
| `RingSpec.dfy`, `Ring.dfy` | consistent hashing and its in-place arrays |
| `MsgQueue.dfy` | the chunked inproc queue and its byte budget |
| `Trie.dfy`, `Sub.dfy` | the subscription trie and the SUB socket |
| `Pub.dfy` | the PUB socket and its priority buckets |
| `SlotTable.dfy` | socket slots, holds and closing, as interleaved steps |
| `Ownership.dfy` | reference-counted chunks, chunk references and messages |
| `Common.dfy` | what several of them share |

`dafny verify dfyconfig.toml` checks all of it.

## How it is modelled

- Concurrent code is a step relation: a state, the atomic steps of each thread, and
  runs of any length. An invariant is shown to be kept by every step and the main
  results follow for every run. Memory is sequentially consistent.
- Sequential code is a class with the fields of the C structure and ghost fields for
  its history; each method states its whole effect on them.
- What the kernel answers to writes, a pipe to sends, and malloc to requests is a list
  fixed beforehand that may be any list at all, or a parameter of the call. So results
  are for all behaviours, a refusal can be traced to its cause, and a behaviour that
  breaks a property can be named.
- What the kernel gives to reads is nondeterministic, and how often it refused is counted
  in a ghost field. Random mask keys, what poll says, the peers' readiness and the order
  of calls are parameters. The ring's hash is any function.
- A call that goes through a null pointer or a wrong address is modelled as an outcome
  of its own, and its exact condition is stated.
- Addresses of chunks and names of sockets and pipes are never reused.

## Findings

- `mb_sinproc_sync_maxmem` reads MB_RCVBUF without a lock before it sets the cap, so a
  change in between is undone. The cap is right if and only if the last store was not
  overtaken (`Writable.CapIff`), and a wake-up is lost exactly when the descriptor is not
  readable and an overtaken queue has room (`Writable.LostIff`). `LostPollout.LosesWakeup`
  is such a run. Nothing is lost when changes do not fall between a read and its store
  (`Writable.OrderlyPollout`), and the next sync that runs alone repairs it
  (`Writable.SoloSync`).
- `mb_sipc_send_fd` and `mb_sipc_recv_fd` forget the bytes moved before a hard error.
  What is on the wire, or was read, is right if and only if that never happened
  (`OutBuf.WireRightIff`, `Sipc.ReadRightIff`). Every endpoint installs an error callback
  that stops the session. A reader is then safe: it never parses on. A writer is safe if
  it does not linger (`OutBuf.BriefPrefix`). With lingering it is not: the close sends
  the frame again from the last position it counted, which `Sipc.RepeatsFrame` and
  `WebSocket.RepeatsFrame` show for every message.
- `mb_sws_send` does not test the length against INT_MAX or 2^32. `WsFrame.DataReads`
  says what a receiver makes of every length: beyond INT_MAX a message is refused or cut
  short, and one of 2^32 bytes arrives as an empty message (`WsFrame.CutShort`).
  `WsFrame.DataRoundTrip` is the exact condition for it to arrive. A frame that is longer
  than INT_MAX with its header is moved whole and still reported as an error
  (`OutBuf.NegativeCount`), so `WebSocket.Channel` is about frames that an int can count.
- `mb_global_hold_socket` reads the slot table without testing that it exists, so a call
  on a descriptor before the first `mb_socket` or after the last `mb_close` takes the
  process down. So does `mb_socket` itself when there is no table and no memory for one:
  `mb_global_create_socket` reads the free stack, which is then null or freed.
  `SlotTable.CrashIff` is the exact condition over whole runs, `SlotTable.HoldOutcome` and
  `SlotTable.SocketOutcome` that of each call, and `SlotTable.CrashBeforeFirst` and
  `SlotTable.CrashAfterLast` are such runs.
- `mb_pub_send` drains the buckets before it looks at the priority, so a call that fails
  with EINVAL may leave the gauge out of date. `Pub.GaugeAfterDrain` says exactly when,
  and `Pub.StaleGauge` is such a socket.
- A hard error inside a stream pipe runs the error callback, which removes the pipe and
  frees its list item under the loops of `mb_pub_send`, `mb_pub_try_drain_one` and the
  readiness probes, which go on from that item. `Walk.StraysIff` and `Walk.FailingItem`
  say exactly when.
- `mb_chunkref_cp` counts through a null pointer if the allocation of its source had
  failed, and `mb_chunkref_init_chunk` counts at a wrong address for a long reference
  with an offset. `Ownership.Memory.Cp` and `Ownership.Memory.InitFromChunk` give the
  exact conditions, `Ownership.DyingCopy` and `Ownership.StrayingReference` the inputs.
  `mb_send` tests for the first, and no caller in the repository passes an offset.

## Model

| member | source | states |
|---|---|---|
| `Mpsc.StartPushInv` | src/utils/queue.c:138-141 | Starting a push of a free item keeps the queue invariant: a chain from head to tail that holds the unpopped items in CAS order, every absent link owned by one push. |
| `Mpsc.CasInv` | src/utils/queue.c:143-148 | The successful tail CAS appends the item to the chain, and the link it leaves missing is owned by this push alone. |
| `Mpsc.LinkInv` | src/utils/queue.c:149-150 | The link store fills exactly the gap that this push owned. |
| `Mpsc.PopInv` | src/utils/queue.c:152-188 | Every step of pop keeps the invariant, whichever producers stand midway; what pop returns then is `Mpsc.StalledPop`. |
| `Mpsc.ParkInv` | src/utils/queue.c:176-181 | Starting to push the recycled stub back keeps it in the chain at most once. |
| `Mpsc.StepInv` | src/utils/queue.c:138-188 | Every enabled step of every thread keeps the invariant. |
| `Mpsc.RunInv` | src/utils/queue.c:110-188 | The invariant holds at the end of every run from an initialised queue. |
| `Mpsc.FirstInFirstOut` | src/utils/queue.c:138-188 | In every run the popped items are a prefix of the items in CAS order, and those of each producer are a prefix of its own calls in call order. |
| `Mpsc.MissingLinks` | src/utils/queue.c:110-188 | In every reachable state the stub is in the chain at most once and a link is missing if and only if exactly one push stands between its CAS and that link store. |
| `Mpsc.EmptyWhenQuiet` | src/utils/queue.c:131-136 | With no push midway, empty reports true if and only if every pushed item was popped. |
| `Mpsc.StalledPop` | src/utils/queue.c:152-188 | From every reachable state, with every push standing wherever it is and only pop running: pop returns the oldest item if and only if there is one and no link is missing up to and out of it, else nothing; it always has a step until it ends, and takes at most nine and two more for each spurious failure of its exchange. |
| `Mpsc.ReadyWhenQuiet` | src/utils/queue.c:152-188 | With no push midway that condition is that the queue holds an item. |
| `Mpsc.StalledPush` | src/utils/queue.c:138-150 | With all other threads standing still, a push appends its item, links it, and ends in at most four steps and two more for each spurious failure of its exchange. |
| `Mpsc.PushEnds` | src/utils/queue.c:138-150 | From every state a push that is midway, the push of the stub inside pop included, ends once it runs by itself: within four steps and two more for each exchange that fails although the tail was the one loaded. |
| `Mpsc.ReturnedIsFree` | src/utils/queue.c:165-188 | An item that pop returns is out of the chain and no thread will touch it, so the caller may free it. |
| `Wakeup.FlagStep` | src/pal/efd.c:75-104 | Every step keeps the flag backed: while it is set, the descriptor is readable or some thread is about to write to it. |
| `Wakeup.CoverStep` | src/transport/inproc/sinproc.c:147-213 | Every step keeps each non-empty pipe covered: the flag is set or some thread still owes a signal or another look. |
| `Wakeup.StepInv` | src/core/sock.c:43-60 | Both parts of the wake-up invariant are kept by every step of pushes, receives and syncs. |
| `Wakeup.RunInv` | src/pal/efd.c:75-104 | The invariant holds in every run, for any number of threads and pipes that come and go. |
| `Wakeup.NoLostWakeup` | src/core/sock.c:43-60 | No lost wake-up: once no thread is midway, a waiting message makes the receive descriptor readable. |
| `Wakeup.SoloSync` | src/core/sock.c:43-60 | After a sync that ran alone, by itself or because a pipe came or went, the queues are the ones given and the descriptor is readable if and only if a message waits. |
| `Wakeup.CallsEnd` | src/transport/inproc/sinproc.c:147-213 | A push, a receive or a sync that runs by itself always has a step to take until it ends, and takes boundedly many. |
| `Wakeup.SoloReceive` | src/transport/inproc/sinproc.c:193-213 | A receive that runs by itself takes one message if any pipe has one and nothing otherwise, and leaves the descriptor readable if and only if a message still waits. |
| `Wakeup.OwnRecheck` | src/transport/inproc/sinproc.c:193-206 | mb_sinproc_recv, run by itself up to the sync, leaves the descriptor readable if and only if its own pipe holds another message. |
| `Wakeup.SoloPush` | src/transport/inproc/sinproc.c:147-174 | A push that runs by itself adds one message to its own pipe, or none if it is refused, and leaves the descriptor readable if a message waits. |
| `Writable.QueueStep` | src/transport/inproc/msgqueue.c:36-233 | No push makes room anywhere, accepted or refused; a pop or the store of a cap makes room in its own queue only. |
| `Writable.FlagStep` | src/pal/efd.c:75-104 | Every step keeps the send flag backed by the kernel count or by a thread about to write. |
| `Writable.CoverStep` | src/transport/inproc/sinproc.c:147-213 | Every step, the store of a cap read earlier included, keeps each pipe with room under the cap in force covered: the flag is set or some thread still owes a signal or another look. |
| `Writable.RunInv` | src/core/sock.c:25-41 | Both hold in every run of pushes, pops, buffer changes and syncs, for any number of threads and pipes that come and go. |
| `Writable.NoLostPollout` | src/core/sock.c:25-41 | In every run, once no thread is midway, room in any peer queue under the cap in force makes the send descriptor readable. |
| `Writable.CapStep` | src/transport/inproc/sinproc.c:29-49 | Every step keeps this: unless the thread that changed MB_RCVBUF is still to store the cap, the cap is out of date if and only if the last cap stored was. |
| `Writable.CapIff` | src/transport/inproc/sinproc.c:29-49 | In every run, once no thread is midway, a cap is the one that MB_RCVBUF asks for if and only if the last store of it was not overtaken by a change. |
| `Writable.ReadBefore` | src/transport/inproc/sinproc.c:29-39 | A cap that is out of date when it is stored was read before a change of MB_RCVBUF that came while the thread held it. |
| `Writable.LostIff` | src/core/sock.c:25-41 | Once no thread is midway, a wake-up is lost if and only if the descriptor is not readable and a queue whose last cap was overtaken has room by its MB_RCVBUF. |
| `Writable.OrderlyPollout` | src/core/sock.c:254-275 | In every run in which no change of MB_RCVBUF comes between a thread's read of it and its store of the cap, every cap is right and no wake-up is lost. |
| `Writable.SoloSync` | src/core/sock.c:25-41 | A sync that runs alone, by itself or because a pipe came or went, leaves the send descriptor readable if and only if some peer queue has room by its MB_RCVBUF, whatever caps it found. |
| `Writable.SoloSend` | src/transport/inproc/sinproc.c:147-174 | A send that runs by itself puts its message at the end of its peer queue if and only if it fits under the cap that MB_RCVBUF asks for and there is memory, changes no other queue, and leaves the descriptor readable if and only if a peer has room then. |
| `Writable.SoloPop` | src/transport/inproc/sinproc.c:193-213 | A receive of the peer that runs by itself takes the oldest message, stores the cap that MB_RCVBUF asks for, changes no other queue, and leaves the send descriptor readable if there is room then. |
| `LostPollout.LosesWakeup` | src/transport/inproc/sinproc.c:29-49 | A run of three threads after which MB_RCVBUF is 10, the cap 1, one byte queued, and the descriptor not readable. |
| `Wire.PutGet32` | src/utils/wire.h:13-42 | Writing the number read from four bytes gives the four bytes back. |
| `Wire.Put32` | src/utils/wire.h:13-19 | The four bytes written for a 32-bit number read back as that number. |
| `Wire.HighByteFirst` | src/utils/wire.h:13-19 | The four bytes written spell the number in network byte order, the high byte first. |
| `Wire.NumberOf4` | src/utils/wire.h:38-42 | The number read is the one that the four bytes spell in network byte order. |
| `Framing.ReadInOneWay` | src/transport/ipc/sipc.c:387-475 | If the frames of one list of messages start the frames of another, the first list is a prefix of the second: a framed stream reads in one way only. |
| `Framing.DrainedIsComplete` | src/transport/ipc/sipc.c:387-475 | A stream of frames that splits into whole frames and a cut-off frame has no cut-off frame and no further message. |
| `OutBuf.SendFd` | src/transport/ipc/sipc.c:100-118 | For every sequence of kernel answers: which bytes reach the wire and what int is returned, including an error that hides bytes already moved and a count that does not fit in an int. |
| `OutBuf.WrapsAround` | src/transport/ipc/sipc.c:100-118 | A count that does not fit in an int is returned as the int that differs from it by a multiple of 2^32. |
| `OutBuf.NegativeCount` | src/transport/ws/sws.c:140-169 | A call that moves a frame of more than INT_MAX bytes whole returns a negative number. |
| `OutBuf.CleanIff` | src/transport/ipc/sipc.c:100-118 | The bytes moved but not counted total zero if and only if no call failed after moving some or moved more than an int counts. |
| `OutBuf.Outlet.FlushOnce` | src/transport/ipc/sipc.c:238-246 | One write call: wire and rest are longer than the accepted stream by exactly the bytes not counted so far. |
| `OutBuf.Outlet.Flush` | src/transport/ipc/sipc.c:224-262 | The session afterwards is the one that the reference flush gives for the same kernel answers; success means nothing is pending, and a hard error on a session with a callback leaves it closed. |
| `OutBuf.Outlet.Linger` | src/transport/ipc/sipc.c:264-294 | Lingering is the reference sequence of flushes, one for each poll that reports room in time. |
| `OutBuf.Outlet.Stop` | src/transport/ipc/sipc.c:264-316 | Stopping lingers, drops the rest and closes; whatever the kernel did, wire plus dropped rest exceeds the accepted stream by exactly the uncounted bytes. |
| `OutBuf.Outlet.ReportError` | src/transport/ipc/sipc.c:208-222 | The session is marked dead and the error callback, which stops it, has run once at most. |
| `OutBuf.Outlet.Accept` | src/transport/ipc/sipc.c:349-369 | A frame is accepted only when none is in flight, and then exactly one is. |
| `OutBuf.Outlet.Transmit` | src/transport/ipc/sipc.c:349-385 | The frame joins the accepted stream, the session becomes that of the reference flush, and the result is that of the flush, except that one which would block is a success. |
| `OutBuf.WireRightIff` | src/transport/ipc/sipc.c:100-118 | On every session, open or closed: the wire and the unwritten rest are the accepted stream if and only if no write call failed after moving bytes or moved more than an int counts. |
| `OutBuf.Live` | src/transport/ipc/sipc.c:208-385 | Any list of send, flush and stop calls on a created session, under any kernel answers, is the reference life of the session: same fields, same wire, same accepted stream. |
| `OutBuf.SendOutcome` | src/transport/ipc/sipc.c:318-385 | A send would block if and only if the session is open and an earlier frame is pending whose flush would block; it is refused for size, or for lack of memory, if and only if that holds on an open session whose flush succeeds; and in all other cases such a session takes the message and becomes that of the flush of its frame. |
| `OutBuf.FreshSend` | src/transport/ipc/sipc.c:318-385 | On an open session with nothing pending a message within the limits that malloc has room for is always taken; if the kernel takes its bytes, in pieces of any size, the whole frame is on the wire, the send succeeds and nothing stays pending. |
| `OutBuf.AllWritten` | src/transport/ipc/sipc.c:224-385 | Over a kernel that takes all the bytes, in pieces of any size, any row of sends on a new session puts their frames on the wire, in order and with nothing between, and leaves nothing pending. |
| `OutBuf.FlushAndStop` | src/transport/ipc/sipc.c:224-316 | A flush that the kernel takes puts the whole rest of the pending frame on the wire; a stop closes the session with nothing pending. |
| `OutBuf.LingerRepeats` | src/transport/ipc/sipc.c:208-316 | With a lingering close the wire goes wrong on a session as endpoints create it, for every frame: one byte is taken, the next write fails, the callback stops the session, and the linger flush sends the frame again from its first byte. |
| `OutBuf.BriefPrefix` | src/transport/ipc/sipc.c:208-316 | Without lingering, whatever the kernel answers and whatever the calls, such a session has only ever written a prefix of the frames it accepted, if an int can count each. |
| `Sipc.RecvFd` | src/transport/ipc/sipc.c:120-140 | What the call took off the link is in the buffer; what it reports is what it took unless an error ended it after it took something; and it stops short if and only if the kernel refused one read. |
| `Sipc.OversizeIff` | src/transport/ipc/sipc.c:433-440 | A header is refused if and only if its first bit is set or the number it spells exceeds MB_RCVMAXSIZE. |
| `Sipc.Inlet.FillHeader` | src/transport/ipc/sipc.c:420-431 | A header read, however short, keeps the bytes taken equal to the delivered frames, the part held and the bytes not counted. |
| `Sipc.Inlet.RecvHeader` | src/transport/ipc/sipc.c:420-450 | A complete header is refused for its size if and only if it announces more than INT_MAX or MB_RCVMAXSIZE allows; otherwise it starts a body of its length, unless malloc refuses; a header is left incomplete only if the kernel refused a read in this call. |
| `Sipc.Inlet.FillBody` | src/transport/ipc/sipc.c:452-467 | A body read, however short, keeps the bytes taken equal to the delivered frames, the part held and the bytes not counted. |
| `Sipc.Inlet.Deliver` | src/transport/ipc/sipc.c:468-475 | The message delivered is the one whose frame was read, and the parser is back at a frame boundary. |
| `Sipc.Inlet.Recv` | src/transport/ipc/sipc.c:387-475 | At most one message per call; a call that would block leaves a cut-off frame to resume, and means that poll saw nothing or the kernel refused a read in this call; every other failure has its cause too. |
| `Sipc.ReadRightIff` | src/transport/ipc/sipc.c:120-140 | On every session what was taken is the delivered frames and the part held if and only if no read call failed after taking bytes. |
| `Sipc.RepeatsFrame` | src/transport/ipc/sipc.c:208-385 | The same for the frame of any message; a message of fewer than 256 bytes then starts with what the peer reads as an empty message. |
| `Sipc.Sender.Send` | src/transport/ipc/sipc.c:318-385 | For every answer of malloc: result, session, wire and whether the message was taken are those of the reference send with its frame, whose outcomes `OutBuf.SendOutcome` lists; a message is taken whole or not at all, and one that is too long never. |
| `Sipc.FramedIff` | src/transport/ipc/sipc.c:340-366 | A message is refused for its size if and only if it exceeds the limit or the length of its frame exceeds INT_MAX; otherwise its frame is its length in network byte order and its bytes, and a receiver with the same limit does not refuse it. |
| `Sipc.Session.Recv` | src/transport/ipc/sipc.c:387-475 | A receive flushes first, and fails with the flush if that fails hard; after that a result that would block means that poll saw nothing or the kernel refused a read in this call, and any other failure is reported and has its cause; a session with a callback never parses on after a read that lost count. |
| `Sipc.Session.HasMsg` | src/transport/ipc/sipc.c:43-66 | True if and only if a message is held, or the session is live, its flush does not fail hard and poll reports input; what was accepted stays. |
| `Sipc.Session.CanSend` | src/transport/ipc/sipc.c:68-98 | True if and only if the session is live and nothing is pending, or poll reports room and the flush writes all of it. |
| `Sipc.Session.Stop` | src/transport/ipc/sipc.c:296-316 | Stopping closes the session and leaves nothing pending. |
| `Sipc.Channel` | src/transport/ipc/sipc.c:224-475 | If no write call lost count or the writer does not linger, the wire is a prefix of the accepted frames; a reader with a callback has delivered whole frames of the wire only; delivered messages are a prefix of the accepted ones, and equal once everything is flushed and read. |
| `Sipc.Exchange` | src/transport/ipc/sipc.c:318-475 | Any schedule of send, receive, poll and stop calls on both ends, under any kernel behaviour, keeps both directions such channels, with equality once drained. |
| `Decoding.DecodeAppend` | src/transport/ws/sws.c:584-913 | Decoding a stream in two parts gives the same messages, rest and error as decoding it whole, wherever it is cut. |
| `Decoding.DecodeFails` | src/transport/ws/sws.c:584-913 | A protocol error is final: later bytes do not take it back. |
| `WsFrame.MaskTwice` | src/transport/ws/sws.c:107-112 | Masking twice with the same key restores the data. |
| `WsFrame.XorAt` | src/transport/ws/sws.c:107-112 | A bit of the exclusive or of two bytes is set if and only if the two bits differ. |
| `WsFrame.MaskAt` | src/transport/ws/sws.c:107-112 | Masking, bit by bit: a bit of byte i is flipped if and only if that bit of key byte i mod 4 is set. |
| `WsFrame.HeaderRoundTrip` | src/transport/ws/sws.c:185-246 | A built header reads back as its role, opcode and key, and as its length if that fits in 32 bits; a length over INT_MAX is recognised as such. |
| `WsFrame.HeaderBytes` | src/transport/ws/sws.c:185-246 | The bytes of a built header are those of section 5.2 of RFC 6455: FIN and opcode, mask bit, the shortest length field in network byte order, the key of a client. |
| `WsFrame.BuiltReads` | src/transport/ws/sws.c:185-246 | A built frame of any length reads back as its header and as much of its unmasked payload as the low 32 bits of the length say. |
| `WsFrame.FirstStable` | src/transport/ws/sws.c:605-913 | Bytes after a decided frame do not change what the frame is. |
| `WsFrame.RefusedHeaders` | src/transport/ws/sws.c:658-775 | By the bytes of a complete header: a protocol error if and only if the mask bit does not suit the role, the first byte is not 0x82, 0x88, 0x89 or 0x8A, or it is a ping or pong over 125 bytes; a reset if and only if it is a close; a size error for a length over 31 bits; only 0x82 frames are delivered and only pings and pongs passed over. |
| `WsFrame.DataReads` | src/transport/ws/sws.c:532-913 | What the opposite role reads at the start of a data frame, for every message length: the message, a refusal, or a shorter message. |
| `WsFrame.DataRoundTrip` | src/transport/ws/sws.c:532-559 | It is the message if and only if the payload is at most INT_MAX and the body at most MB_RCVMAXSIZE. |
| `WsFrame.CutShort` | src/transport/ws/sws.c:185-246 | A message of 2^32 bytes is delivered as an empty one, and its body is then taken for frames. |
| `WsFrame.ControlRoundTrip` | src/transport/ws/sws.c:738-834 | A ping or pong of at most 125 bytes is passed over. |
| `WsFrame.RoundTrip` | src/transport/ws/sws.c:495-913 | Decoding any concatenation of built frames, with any mask keys and any interleaved pings and pongs, yields exactly the sent messages in order with nothing left over. |
| `WebSocket.MaskInPlace` | src/transport/ws/sws.c:107-112 | The bytes in range are masked in place, each as `WsFrame.MaskAt` says, and the others are untouched. |
| `WebSocket.BuildFrame` | src/transport/ws/sws.c:185-246 | The buffer built in place is the reference frame of the data. |
| `WebSocket.ReadUpTo` | src/transport/ws/sws.c:114-138 | However many reads it takes, the buffer holds the next bytes of the link from the cursor on. |
| `WebSocket.HeaderResumes` | src/transport/ws/sws.c:658-775 | A complete header alone decides how any payload that follows is read. |
| `WebSocket.LogDecodes` | src/transport/ws/sws.c:584-913 | A log of frames judged one by one agrees with the reference decoder on the whole stream. |
| `WebSocket.FailedLogDecodes` | src/transport/ws/sws.c:584-913 | A frame at which the parser stops is where the reference decoder stops, with the same error. |
| `WebSocket.Receiver.FillHeader` | src/transport/ws/sws.c:605-657 | Header reads of any size keep the cursor within the 14-byte buffer and the bytes taken accounted for; the header stays incomplete only if the kernel refused a read or gave just its first byte. |
| `WebSocket.Receiver.StartFrame` | src/transport/ws/sws.c:658-775 | A header is refused exactly as the reference decoder refuses it, otherwise the payload state is entered, unless malloc refuses. |
| `WebSocket.Receiver.FillPayload` | src/transport/ws/sws.c:777-856 | Payload reads of any size resume where the last one stopped. |
| `WebSocket.Receiver.FinishCtrl` | src/transport/ws/sws.c:798-834 | A complete control frame is consumed without delivering anything; the call fails if and only if the answer to a ping does. |
| `WebSocket.Receiver.FinishBody` | src/transport/ws/sws.c:856-913 | A complete data frame delivers its message or is refused for its inner length, as the reference decoder does. |
| `WebSocket.Receiver.Recv` | src/transport/ws/sws.c:584-913 | At most one message per call, resuming at any byte, passing over control frames and agreeing with the reference decoder; a call that would block means that the kernel refused a read in it or gave just the first byte of a header, and every other failure has its cause. |
| `WebSocket.Sender.Send` | src/transport/ws/sws.c:495-582 | For every answer of malloc: result, session, wire and whether the message was taken are those of the reference send with its data frame, whose outcomes `OutBuf.SendOutcome` lists; one over the size limit is never taken, and the accepted stream stays the encoding of the accepted items. |
| `WebSocket.RepeatsFrame` | src/transport/ws/sws.c:323-472 | The same for any data frame that an int can count. |
| `WebSocket.Channel` | src/transport/ws/sws.c:495-913 | For frames that an int can count, over a writer that did not lose count or does not linger: the delivered messages are a prefix of the sent ones, and all of them once everything is flushed and read. |
| `WebSocket.Exchange` | src/transport/ws/sws.c:444-913 | Any schedule of sends, flushes, stops and receives at the two ends, under any kernel behaviour, ends in such a state. |
| `WebSocket.NeverRefused` | src/transport/ws/sws.c:584-913 | A receiver of acceptable messages never reports a protocol or size error. |
| `List.ItemList.Append` | src/utils/list.c:48-57 | Inserting before the end appends the item and keeps the list doubly linked. |
| `List.ItemList.InsertBefore` | src/utils/list.c:58-68 | Inserting before an item puts the new one there and keeps the list doubly linked. |
| `List.ItemList.Erase` | src/utils/list.c:70-84 | Erasing joins the neighbours, keeps the order of the rest and marks the item as in no list. |
| `List.ItemList.MoveToEnd` | src/utils/lb.c:80-83 | Erasing an item and inserting it at the end is the rotation of the item sequence. |
| `Walk.Traverse` | src/protocol/pubsub/pub.c:156-170 | A loop over a linked pipe list whose visits remove pipes visits, and goes on from a removed item, exactly as the reference loop. |
| `Walk.StraysIff` | src/protocol/pubsub/pub.c:156-170 | It goes on from a removed item if and only if some visit removes the very item it visits. |
| `Walk.VisitsAll` | src/utils/fq.c:54-58 | Otherwise it visits every item that no earlier visit removed. |
| `Walk.VisitsOnce` | src/utils/fq.c:54-58 | It visits items of the list only, each at most once. |
| `Walk.FailingItem` | src/protocol/pubsub/pub.c:234-266 | A loop that goes on after an error strays if and only if some pipe fails, right after the first that does. |
| `Scheduler.Lb.Add` | src/utils/lb.c:20-41 | Adding and activating a pipe puts it at the front. |
| `Scheduler.Lb.Activate` | src/utils/lb.c:36-41 | Activation marks a pipe active, moves it to the front and keeps the order of the others. |
| `Scheduler.Lb.Rm` | src/utils/lb.c:29-34 | Removal takes out that pipe only. |
| `Scheduler.Lb.CanSend` | src/utils/lb.c:49-65 | True if and only if some pipe can send; the first that can is marked active, those before it inactive, the others are left. |
| `Scheduler.Lb.Send` | src/utils/lb.c:67-112 | The first pipe that accepts gets the message, alone, and goes to the end; every pipe before it refused in this call; a hard failure is that of the pipe it stopped at; if none accepts, every pipe refused, the order stays and nothing was sent; the active marks are exactly those of the answers. |
| `Scheduler.Fq.CanRecv` | src/utils/fq.c:49-61 | True if and only if some pipe has a waiting message. |
| `Scheduler.Fq.Recv` | src/utils/fq.c:68-118 | The first pipe with a waiting message is served and goes to the end, unless a broken empty pipe stands before it; only that one message is taken; the active marks are exactly those of the answers. |
| `Scheduler.Schedule` | src/utils/fq.c:68-118 | Any schedule of arrivals, breaking pipes and receives on the fair queue gives the results and the order of the reference schedule. |
| `Scheduler.ServedInTurn` | src/utils/fq.c:68-118 | In every such schedule a pipe at position k with a waiting message is served by one of the next k+1 receives that succeed. |
| `Scheduler.NothingLost` | src/utils/fq.c:68-118 | In every such schedule what was received from a pipe followed by what waits there is what waited at first followed by what arrived. |
| `Scheduler.EachOnce` | src/utils/lb.c:67-112 | In the rotation order, any n consecutive sends from any point use each of the n pipes exactly once. |
| `Scheduler.SendAll` | src/utils/lb.c:67-112 | Any row of sends on the load balancer: each pipe is sent exactly what the list of used pipes says, and while every pipe accepts that list is the rotation order. |
| `Scheduler.SendRound` | src/utils/lb.c:67-112 | From any state of the list, as many sends as there are pipes give each pipe exactly one message, if every pipe accepts. |
| `ReqRep.ReqSent` | src/protocol/reqrep/req.c:96-119 | The pipe read off the end of the rotated list is the pipe that took the request. |
| `ReqRep.ReqSocket.Add` | src/protocol/reqrep/req.c:28-45 | A new pipe goes to the front and is remembered if none was, if and only if malloc grants it; else nothing changes. |
| `ReqRep.ReqSocket.Rm` | src/protocol/reqrep/req.c:47-70 | Losing the remembered pipe drops the open exchange and falls back to the first pipe left; losing another pipe changes nothing else. `Matching.RemovalFreesReq` says so over whole runs. |
| `ReqRep.ReqSocket.In` | src/protocol/reqrep/req.c:72-78 | The pipe moves to the front and the exchange is untouched. |
| `ReqRep.ReqSocket.Send` | src/protocol/reqrep/req.c:96-119 | Refused if and only if a reply is due; a request goes to one pipe only, which is the one remembered; otherwise every pipe refused or one failed in this call. |
| `ReqRep.ReqSocket.Recv` | src/protocol/reqrep/req.c:121-134 | Refused if and only if no request is out; only the remembered pipe is read, and success ends the exchange. |
| `ReqRep.RepSocket.Add` | src/protocol/reqrep/rep.c:30-51 | The pipe joins both lists if malloc grants both items, else neither. |
| `ReqRep.RepSocket.Rm` | src/protocol/reqrep/rep.c:53-85 | The pipe leaves both lists and the reply route if it was that. |
| `ReqRep.RepSocket.Recv` | src/protocol/reqrep/rep.c:112-126 | Refused if and only if a reply is owed; otherwise the fair queue decides and its pipe becomes the reply route. |
| `ReqRep.RepSocket.Send` | src/protocol/reqrep/rep.c:128-138 | Refused if and only if nothing is owed; the reply goes to the request's pipe, and the route is kept only if that pipe was full. |
| `ReqRep.RepSocket.EventsIn` | src/protocol/reqrep/rep.c:97-110 | IN is reported if and only if nothing is owed and some pipe has a message. |
| `Matching.ReplyMatches` | src/protocol/reqrep/req.c:121-134 | The only reply on the remembered pipe answers the current request. |
| `Matching.ReqSendInv` | src/protocol/reqrep/req.c:96-119 | Sending a request keeps every link to at most one exchange. |
| `Matching.ReqDetachInv` | src/protocol/reqrep/req.c:47-70 | Removing a pipe at the REQ end keeps it, whatever was in flight there: a REQ that waits does so on the pipe that took its request. |
| `Matching.ReqRecvInv` | src/protocol/reqrep/req.c:121-134 | Returning a reply keeps it, and the answer logged is right. |
| `Matching.RepDetachInv` | src/protocol/reqrep/rep.c:53-85 | Removing a pipe at the REP end keeps it. |
| `Matching.RepRecvInv` | src/protocol/reqrep/rep.c:112-126 | Taking a request keeps it: the request moves from the queue to the REP. |
| `Matching.RepSendInv` | src/protocol/reqrep/rep.c:128-138 | Answering, or failing to for good, keeps it. |
| `Matching.StepInv` | src/protocol/reqrep/req.c:28-134 | Every step of every socket and pipe keeps the matching invariant. |
| `Matching.RunInv` | src/protocol/reqrep/rep.c:30-138 | The invariant holds after every run from an empty world. |
| `Matching.WaitsWhereItAsked` | src/protocol/reqrep/req.c:47-134 | Over every run a REQ that waits for a reply waits on the pipe that took its request, and there the request is in flight unless it was lost. |
| `Matching.RemovalFreesReq` | src/protocol/reqrep/req.c:47-70 | Over every run, removing the pipe that a REQ waits on ends its exchange, so that it can send at once on any pipe left; removing another leaves the exchange alone. |
| `Matching.RemovalFreesRep` | src/protocol/reqrep/rep.c:53-85 | Over every run, a REP that loses a pipe has it in neither list, routes no reply to it, keeps its other pipes and does not get it back. |
| `Matching.ActivatedFirst` | src/protocol/reqrep/req.c:72-78 | Over every run, a pipe that reports input is the next that a request is offered to; the exchange and the other pipes stay. |
| `Matching.OneExchangePerLink` | src/protocol/reqrep/req.c:47-134 | Queued requests, the request held and queued replies of a pipe total at most one, and only for the request that this REQ is waiting on there. |
| `Matching.RepliesMatch` | src/protocol/reqrep/rep.c:53-138 | Over every run each reply that a REQ returned answers the request it had outstanding, and no request is answered twice. |
| `Matching.Connects` | src/protocol/reqrep/rep.c:30-51 | In every world a new REQ and a new REP can be made and joined by a new pipe, which both then have, and nothing else changes. |
| `Matching.ExchangeCompletes` | src/protocol/reqrep/rep.c:112-138 | From every reachable state a request that goes to a free REP can be taken, answered and returned, so the matching is not empty. |
| `RingSpec.WalkWithout` | src/distributed/ring.c:161-169 | Leaving out a node and walking the ring from a key commute. |
| `RingSpec.LookupWithout` | src/distributed/ring.c:146-197 | Removing a node moves only the keys of that node. |
| `RingSpec.AddMovesToNew` | src/distributed/ring.c:100-197 | Adding a node moves a key only to the new node. |
| `RingSpec.AddThenRemove` | src/distributed/ring.c:100-172 | Adding a node and removing it restores the point array exactly. |
| `RingSpec.ReplicasWithout` | src/distributed/ring.c:146-248 | Removing a node takes it out of each replica list and leaves the others in the same order. |
| `RingSpec.PrimaryFirst` | src/distributed/ring.c:199-248 | The first replica is the answer of the lookup. |
| `RingSpec.CountPlaced` | src/distributed/ring.c:118-141 | Every node of a ring has exactly virtual_count points and no other node has any. |
| `RingSpec.PointsIn` | src/distributed/ring.c:118-141 | The points of a node are one for each i below the virtual count, at the hash of its i-th name. |
| `RingSpec.ReplicasAll` | src/distributed/ring.c:220-245 | A full revolution lists every node exactly once. |
| `Ring.Ring.constructor` | src/distributed/ring.c:32-42 | An empty ring; a virtual count that is not positive becomes 150. |
| `Ring.Ring.GrowNodes` | src/distributed/ring.c:58-70 | Growing keeps the contents; it fails if and only if malloc refuses, and then changes nothing. |
| `Ring.Ring.GrowVnodes` | src/distributed/ring.c:72-84 | Growing keeps the points; it fails if and only if malloc refuses, and then changes nothing. |
| `Ring.Ring.InsertSorted` | src/distributed/ring.c:87-98 | The point goes before the first point with a hash not smaller. |
| `Ring.Ring.Compact` | src/distributed/ring.c:161-169 | In place, exactly the points of the node go and the rest keep their order. |
| `Ring.Ring.Add` | src/distributed/ring.c:100-144 | Duplicates are refused; success adds the node and its points; it fails for memory if and only if malloc refused a request in this call, and then nodes and points are as before. |
| `Ring.PointsStand` | src/distributed/ring.c:118-141 | In every valid ring, a node has at each hash as many points as it has numbers i below the virtual count whose name hashes there, and an absent node none. |
| `Ring.Ring.Remove` | src/distributed/ring.c:146-172 | Exactly the node and its points go, and every other node keeps its place in the order and its address; an unknown node changes nothing. |
| `Ring.Ring.Locate` | src/distributed/ring.c:185-195 | The binary search finds the linear first point at or after the hash, with wraparound. |
| `Ring.Ring.LookupKey` | src/distributed/ring.c:174-197 | The node of a key by linear search with wraparound, 0 on an empty ring. |
| `Ring.Ring.LookupN` | src/distributed/ring.c:199-248 | The first min(max_count, nodes) replicas, distinct, starting with the lookup's answer. |
| `MsgQueue.Budget.SetMax` | src/transport/inproc/msgqueue.c:36-43 | A new cap keeps the accounting, and forgets a refused size that now fits. |
| `MsgQueue.Budget.CanPush` | src/transport/inproc/msgqueue.c:95-107 | True if and only if nothing is pending and one byte fits. |
| `MsgQueue.Budget.Admit` | src/transport/inproc/msgqueue.c:137-143 | Refused if and only if the charge does not fit, and then the size is remembered. |
| `MsgQueue.Budget.Take` | src/transport/inproc/msgqueue.c:171-175 | An accepted message is charged and the cap is not exceeded. |
| `MsgQueue.Budget.Return` | src/transport/inproc/msgqueue.c:204-204 | The charge of the oldest message is given back. |
| `MsgQueue.Chain.Alloc` | src/transport/inproc/msgqueue.c:109-124 | The chunk obtained, cached or new, is blank and separate from the chain; there is none if and only if none is cached and malloc refuses. |
| `MsgQueue.Chain.Push` | src/transport/inproc/msgqueue.c:146-187 | The message goes behind the others, unless a new chunk is needed and malloc refuses it, which changes no contents. |
| `MsgQueue.Chain.Release` | src/transport/inproc/msgqueue.c:207-226 | Leaving a consumed chunk keeps the contents and every slot that is not live empty; the chunk is kept for reuse if and only if none is. |
| `MsgQueue.Chain.Pop` | src/transport/inproc/msgqueue.c:193-226 | The oldest message comes out and the rest stay in order. |
| `MsgQueue.Chain.Term` | src/transport/inproc/msgqueue.c:45-73 | Every queued message is released exactly once, in order. |
| `MsgQueue.TermChain` | src/transport/inproc/msgqueue.c:56-66 | Terminating all slots of all chunks releases exactly the queued messages. |
| `MsgQueue.Queue.Push` | src/transport/inproc/msgqueue.c:126-191 | Appends if and only if the charge fits and no chunk is needed or malloc grants one, else changes no contents; remembers a refused size; tells whether the queue was empty; leaves the memory within the cap. |
| `MsgQueue.Queue.ProbeThenPush` | src/transport/inproc/msgqueue.c:85-191 | The size probe is true if and only if the push that follows is not turned away for lack of room. |
| `MsgQueue.Queue.Pop` | src/transport/inproc/msgqueue.c:193-233 | Returns the oldest message, or nothing from an empty queue. |
| `MsgQueue.Queue.SyncMax` | src/transport/inproc/sinproc.c:29-39 | The cap becomes the buffer size, or 1 MiB if that is not positive; it is never switched off, so the accounting of a capped queue stays exact. |
| `MsgQueue.MakesNoRoom` | src/transport/inproc/msgqueue.c:126-178 | No push, accepted or refused, makes room in a full queue, and setting the same cap again changes nothing. |
| `MsgQueue.PushThenPop` | src/transport/inproc/msgqueue.c:171-204 | A pop gives back exactly what the push of the same message was charged. |
| `MsgQueue.RefusedThenReady` | src/transport/inproc/msgqueue.c:85-143 | After a refusal the queue reports room exactly when a retry of the same push would be accepted. |
| `MsgQueue.Queue.IsEmpty` | src/transport/inproc/msgqueue.c:75-83 | True if and only if no message is queued. |
| `MsgQueue.BoundedLength` | src/transport/inproc/msgqueue.c:15-20 | Charging empty bodies bounds the number of queued messages by the cap. |
| `MsgQueue.ByteBudget` | src/transport/inproc/msgqueue.c:7-20 | What is charged is the bytes of the queued bodies and, under a cap, one for each empty body; a body has room if and only if there is no cap or all of that stays within it. |
| `Trie.Init` | src/utils/trie.c:24-30 | A trie with no subscription and no dead node if and only if its root could be allocated. |
| `Trie.Trie.Match` | src/utils/trie.c:122-139 | A topic matches if and only if some subscribed string is a prefix of it. |
| `Trie.Trie.Add` | src/utils/trie.c:51-80 | The string is subscribed, unless it was already; it fails for memory if and only if malloc refused a node in this call; counts stay exact, and without a failed allocation no node is dead. |
| `Trie.Trie.MakePath` | src/utils/trie.c:61-68 | The path exists afterwards, or memory ran out; no subscription or count changes. |
| `Trie.Trie.CountPath` | src/utils/trie.c:72-76 | Every node above the string counts one more. |
| `Trie.Trie.Rm` | src/utils/trie.c:115-120 | Fails and changes nothing if and only if the string is not subscribed, else removes just that string. |
| `Trie.Trie.RmRec` | src/utils/trie.c:82-113 | Removing below a node keeps the tree, the counts below, and every node that is not dead. |
| `Trie.Trie.Leave` | src/utils/trie.c:104-112 | On the way up a child is pruned if and only if no subscription is left below it, and the counts above stay exact. |
| `SlotTable.SocketInv` | src/core/global.c:128-295 | Opening a socket, failing to, or having no table to open it in, keeps slots and holds consistent; when it opens one is `SlotTable.SocketOutcome`. |
| `SlotTable.HoldInv` | src/core/global.c:1149-1165 | A hold is counted and granted only on a published socket; without a table it takes the process down, in which state nothing moves. |
| `SlotTable.ReleInv` | src/core/global.c:1167-1170 | A release is counted. |
| `SlotTable.CloseInv` | src/core/global.c:297-317 | Unpublishing returns the slot to the stack and leaves one thread in charge of the socket. |
| `SlotTable.ClosingInv` | src/core/global.c:319-335 | Flagging, dropping the permanent references, waiting and freeing keep the counts. |
| `SlotTable.TermInv` | src/core/global.c:337-339 | The table is torn down if and only if no socket is published, and the invariant is kept. |
| `SlotTable.FreshTableOk` | src/core/global.c:146-153 | In a new table the free stack lists every slot once. |
| `SlotTable.RunInv` | src/core/global.c:297-344 | The invariant holds in every state of every run. |
| `SlotTable.SlotsPartitioned` | src/core/global.c:227-344 | Published slots and the first MAX minus nsocks entries of the free stack partition the slot numbers. |
| `SlotTable.FreedAfterLastHold` | src/core/global.c:322-335 | A socket is freed once, by the thread that unpublished it, when it is flagged as stopping and no reference is left. |
| `SlotTable.StoppingIff` | src/core/global.c:317-318 | In every run a socket is flagged as stopping if and only if the close of it has gone past that step. |
| `SlotTable.NoUseAfterFree` | src/core/sock.c:675-684 | No thread that uses or closes a socket finds it freed, and a used socket has a positive count. |
| `SlotTable.NoHoldAfterUnpublish` | src/core/global.c:309-313 | Once a socket is unpublished no thread gets a new hold on it. |
| `SlotTable.NeverStuck` | src/core/global.c:1149-1165 | In every reachable state of a live process the calls are defined, a hold included. |
| `SlotTable.HoldOutcome` | src/core/global.c:1149-1165 | In every reachable state a hold gives the socket if and only if its slot is published, and takes the process down if and only if the slot number is in range and there is no table; one open socket rules that out. |
| `SlotTable.SocketOutcome` | src/core/global.c:128-295 | In every reachable state mb_socket takes the process down if and only if its domain is known, there is no table and none can be allocated; it opens one socket, in a slot that was not published, if and only if the domain is known, the socket can be made, there is a table or memory for one and fewer than the maximum are published; otherwise all stays as it was. |
| `SlotTable.CloseOutcome` | src/core/global.c:297-317 | In every reachable state mb_close takes a published slot off the table, and nothing else; on a slot that is not published it changes nothing. |
| `SlotTable.CrashIff` | src/core/global.c:128-344 | In every run the process has gone down if and only if a hold of a slot number in range, or an mb_socket without memory, met no table. |
| `SlotTable.TableWhen` | src/core/global.c:128-344 | There is a table while a socket is open, and none while none is open and no mb_close is under way. |
| `SlotTable.CrashBeforeFirst` | src/core/global.c:128-295 | Runs that end so: either call before the first socket. |
| `SlotTable.CrashAfterLast` | src/core/global.c:297-344 | Others: the only socket is opened and closed, the table is torn down, and either call follows. |
| `SlotTable.CloseWaitsForUsers` | src/core/global.c:322-326 | A closing thread can go on unless it waits, and it waits exactly as long as the socket has users. |
| `Sub.SubSocket.Wanted` | src/protocol/pubsub/sub.c:25-32 | True if and only if a subscribed string is a prefix of the message. |
| `Sub.SubSocket.Pull` | src/protocol/pubsub/sub.c:35-59 | Messages are examined once each, by the current subscriptions, up to the first that passes, which is kept. |
| `Sub.SubSocket.EventsIn` | src/protocol/pubsub/sub.c:111-121 | IN if and only if a message is kept; otherwise no pipe could give one. |
| `Sub.SubSocket.Recv` | src/protocol/pubsub/sub.c:123-134 | Delivers the kept message, so that all delivered and kept messages are exactly those that passed when examined, in order. |
| `Sub.SubSocket.PollThenRecv` | src/protocol/pubsub/sub.c:111-134 | IN is reported if and only if the next receive succeeds. |
| `Sub.SubSocket.Subscribe` | src/protocol/pubsub/sub.c:146-158 | The set of subscriptions grows by the string, or stays if and only if malloc refused in this call; nsubs stays its size. |
| `Sub.SubSocket.Unsubscribe` | src/protocol/pubsub/sub.c:159-168 | The string goes, or the call fails if and only if it was not there; nsubs stays the size of the set. |
| `Sub.SubSocket.Arrive` | src/protocol/pubsub/sub.c:35-59 | What was examined of a pipe followed by what waits there stays what arrived, so each message is examined once and in order. |
| `Sub.SubSocket.Rm` | src/protocol/pubsub/sub.c:86-96 | Removing a pipe leaves the others and the kept message alone. |
| `Pub.Priority` | src/protocol/pubsub/pub.c:69-85 | The normal level without a whole header, no level for a number outside the eight, else that number. |
| `Pub.PubSocket.TryDrainOne` | src/protocol/pubsub/pub.c:149-175 | The message is offered to every peer once, and counts as sent if and only if some peer would take it. |
| `Pub.PubSocket.Drain` | src/protocol/pubsub/pub.c:179-213 | The messages that leave followed by those that remain are the old buckets from level 7 down to 0, and no level is touched while a higher one holds a message; each peer is sent some of what leaves, in order and at most once, and each message that leaves reached some peer; the drain begins if and only if a peer says it can send, and stops exactly at the first message that every peer turns down. |
| `Pub.PubSocket.FanOut` | src/protocol/pubsub/pub.c:232-264 | Every peer is offered the message once and has it exactly if it would take it; a copy is kept at the end of its own bucket for each peer that turns it down and each grant of malloc, and none else. |
| `Pub.PubSocket.Highest` | src/protocol/pubsub/pub.c:266-273 | The highest level in use, or 0. |
| `Pub.PubSocket.Send` | src/protocol/pubsub/pub.c:215-298 | Drains first; an invalid priority then changes nothing more, and a gauge that was right stays right if and only if the drain leaves the level it shows in use; otherwise each peer is offered the message once, the call succeeds if and only if there is no peer or one took it, copies go to the end of its own bucket, and the gauge is the highest level in use. |
| `Pub.GaugeAfterDrain` | src/protocol/pubsub/pub.c:179-230 | A gauge that is not updated stays right if and only if it shows 0, no peer said it could send, or every peer turns down one of the messages at its level. |
| `Pub.StaleGauge` | src/protocol/pubsub/pub.c:215-230 | A socket where it does not: one message at level 5, one willing peer, a call with priority 8; afterwards the gauge says 5 and every bucket is empty. |
| `Ownership.Memory.Alloc` | src/memory/chunk.c:23-38 | A new chunk with one reference, or nothing changed. |
| `Ownership.Memory.AddRef` | src/memory/chunk.c:88-92 | The count grows with the references handed out. |
| `Ownership.Memory.Free` | src/memory/chunk.c:81-86 | The chunk is freed if and only if this was the last reference. |
| `Ownership.Memory.Grow` | src/memory/chunk.c:40-79 | The grown chunk starts with the old bytes, and the other holders of a shared chunk keep theirs. |
| `Ownership.Memory.InitRef` | src/memory/chunkref.c:8-18 | Small references are zeroed inline, large ones own a new chunk or nothing. |
| `Ownership.Memory.InitFromChunk` | src/memory/chunkref.c:20-30 | The reference stands for the given range of the chunk, inline or shared, unless it is long and does not start at the first byte: then the count is taken where there is none. |
| `Ownership.Memory.Term` | src/memory/chunkref.c:32-38 | The reference is emptied and its chunk freed if and only if no other pointer to it is left. |
| `Ownership.Memory.Mv` | src/memory/chunkref.c:40-52 | The bytes move and no count changes. |
| `Ownership.Memory.Cp` | src/memory/chunkref.c:54-63 | The copy stands for the same bytes and every other reference for its own; the call dies if and only if the allocation of a large source had failed. |
| `Ownership.Memory.SetBytes` | src/memory/chunkref.c:77-100 | The reference stands for the data, or nothing changed. |
| `Ownership.Memory.MvMsg` | src/memory/msg.c:60-65 | All three parts move and the source is left empty. |
| `Ownership.Memory.CpMsg` | src/memory/msg.c:67-72 | All three parts are the same in both messages; the call dies if and only if the allocation of a part had failed. |
| `Ownership.Memory.TermMsg` | src/memory/msg.c:47-58 | All three parts are released and everyone else keeps their bytes. |
| `Ownership.Memory.InitMsgFromChunk` | src/memory/msg.c:39-45 | The body is the chunk's bytes, and the caller's reference is used up. |
| `Ownership.DyingCopy` | src/memory/msg.c:7-72 | A message whose large body got no memory, and a copy of it that dies. |
| `Ownership.StrayingReference` | src/memory/chunkref.c:20-30 | A chunk, and a long reference into it from its second byte that strays. |
| `Ownership.NoLeak` | src/memory/chunk.c:81-86 | When every reference is terminated and no pointer held, no chunk is left. |

## Left out

- Acquire and release reordering in the queue and the event descriptor: the steps are sequentially consistent.
- Sockets, poll, TLS, threads, name resolution, accept and reconnect loops: input and output plumbing.
- The WebSocket handshake with SHA-1 and base64.
- Transmission of pong and close frames: a retried pong starts again from its first byte, so only data frames go through the output buffer here.
- Send readiness of REQ, REP, RESPONDENT and the other sockets whose EVENT_OUT depends on more than the pipes: `Writable.dfy` is about sockets that report OUT when some pipe can send.
- The slab and pool allocators, `mb_chunk_trim`, `mb_chunkref_resize` and shrinking reallocation.
- Delivery counts per subscriber in PUB: a deferred copy is offered to every peer again.
- Switching a byte cap on or off while messages are queued: the accounting is then no longer claimed (`steady` in `MsgQueue.Budget`), and the sum of charges is not wrapped at the width of size_t.
- Overlap of `mb_shutdown` with `mb_close`, and the termination flags of the context.
- The hash function of the ring, which may be any function here.
- 32-bit wrap-around of reference counts in chunks and trie nodes.
- Gossip, discovery, event loops, coroutines, devices, options, statistics and the raw socket types.
- The return value of `mb_list_erase`, which no caller uses.
- Aliasing of the 256 child pointers of a trie node: the child array is a map from bytes to nodes.
- The inline buffer of a chunk reference and the memory of chunks are values in maps keyed by address, so aliasing inside one chunk is not captured.
- Sipc.Channel: the wire is a prefix only if no write call lost count or the writer is an endpoint's that does not linger, see Findings.
- WebSocket.Channel: the same, and for frames that an int can count.
- Pub.PubSocket.TryDrainOne: the peers stay in the list while it is walked; what happens when a failing peer is removed meanwhile is in `Walk.dfy`.
- Pub.PubSocket.FanOut: the same.
- Scheduler.Fq.CanRecv: the same.
- Scheduler.ServedInTurn: speaks of receives that succeed, so a broken empty pipe that keeps failing a receive delays everyone behind it.
