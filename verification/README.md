# Republic agent: verified model of the multicast transfer

The Republic agent broadcasts a file from one server to many over an optical path. The sender cycles through the
`N` packets of the file. Each receiver joins at whatever packet it hears first, takes packets until the cycle is back
at that packet, and asks for what it missed over TCP. This project models both ends in Dafny and proves what the
protocol is for: a receiver that says it is finished holds the source bytes, whatever was lost and however patches,
fast packets and FAST_DONE interleave; the sender stops only after every receiver's window has been sent; and a push in
which all receivers have been heard can always be brought to its completion message.

`dafny verify dfyconfig.toml` checks everything.

## How it is organised

The receiver, bottom up:

- `Geometry` cuts a byte string into packets; the sender's division and the ceiling the receiver takes of a double
  agree.
- `ByteFile` is the received file with its cursors: writing past the end leaves a hole.
- `ReceiverSpec` states what one packet does to a receiver, on the window of sequence numbers that starts at its first
  packet. It knows no branches of the source: a packet is taken when it is further along the window.
- `Cover` turns windows and patch requests into bags of sequence numbers.
- `Placement` says where each packet lives in the rotated file, that places are disjoint and do not move, and that the
  documented read order spells the source.
- `Transfer` and `Runs` put one receiver and its outstanding packets into a transition system and prove its invariant
  and the theorems over whole runs.
- `RecverState` is the receiver as the source runs it: a class whose methods follow the source branch by branch and
  are proved to do exactly what `ReceiverSpec` says.
- `Transport` replaces the one queue of outstanding packets by the real channels (thread pipe, send queue, the
  sender's ring of ranges, patch stream) and proves that they behave as that queue.

The sender and the shared pieces:

- `Termination` interleaves the control thread and the data thread, each access to a shared counter being a step.
- `Multicast` holds what the sender keeps of one push: counters, ends and the queue. `FastDoneQueue` decides who is told
  FAST_DONE.
- `Fleet` puts the sender and all its receivers together, each over its own channels, and proves what holds in every run
  of the whole push. `Progress` proves how every such run can be continued.
- `SenderFile` holds the streaming reader, the patch pump and the request handler.
- `Drain` is the transmit ring, the test that the last packet has left, and the hand-over of the active multicast: first
  on unbounded slot counters, then on ring indices, proved to be the same.
- `Framing` is message framing over partial sends and reads. `Checksum` is the Internet checksum for IP, UDP and TCP.
  `LinkedList` is the doubly linked list with the iteration macro.

## Conventions

- A handler is one atomic step, except in `Termination` and in the hand-over of `Drain`; in `Fleet` the clock may move
  while a handler works out an end.
- Sequence numbers, offsets and counters are unbounded, under `N * P < 2^31`, `N < SEQNUM_MAX` and `P < 2^16`
  (`Geo.Valid`); the one product that wraps on purpose (`protocol/src/hero.c:155`) is computed modulo 2^32.
- A C `assert` that can fail sets `halted` and ends the run. An `assert` that cannot fail is a Dafny `assert`.
- Bytes that `malloc` returns are arbitrary: they are a parameter (`junk`) of the steps.
- The host's byte order is a parameter (`little`) of the checksum, and its rounding of a quotient to a double a
  parameter (`rounded`) of the receiver; all that is assumed of it is that whole numbers are exact and the relative
  error is at most 2^-53.

## Findings

- The assertion at `protocol/src/thread_data.c:235` can fail. When the cycle wraps while only the first packet is
  held, packet 0 is dropped but its metadata is kept; if the run then goes into a second round and wraps with packet 0
  lost, the recorded start is already set. `Runs.AssertReachable` gives the packets 2, 0, 3, 1 of a file of four, and
  `Progress.PushHalts` a whole push in which they arrive while the sender is in the second round of its stream.
  `Runs.HaltsExactly` gives the exact condition, and `Runs.InOrderNeverHalts` shows that one window delivered in order
  never meets it.
- The queue of receivers waiting for FAST_DONE is not ordered by the ends of their windows. Its entries are addresses of
  pointers to sender states (`protocol/src/hero.c:1009-1011`), and its comparator (`protocol/src/hero.c:818-820`) reads
  them as addresses of sender states, so the place of an entry says nothing about its end. The scan at
  `protocol/src/thread_send.c:98-111` stops at the first receiver whose window has not been sent and can leave behind
  one whose window has: with the ends 5 and 3 in the queue in that order and the stream at 4, the second stays
  (`FastDoneQueue.LeftBehind`). `FastDoneQueue.NobodyLeftBehind` gives the exact condition. The harm is delay only:
  FAST_DONE is made for a dead multicast alone, whose windows have all been sent, and then one scan empties the queue
  whatever its order (`FastDoneQueue.AllRipen`, `Progress.TwoScansReachAll`).
- A multicast can go further past its end than one burst. The end is worked out from one reading of the clock and
  published later (`protocol/src/hero.c:1000-1025`), and what is sent in between is not limited by it.
  `Termination.Overshoots` gives, for a file of one packet and bursts of one packet, a run that stops as many packets
  past the end as one likes; `Termination.StopsAfterEveryWindow` gives the bound that holds, one burst past the later of
  the end and its publication.
- A receiver of a one-packet file is told FAST_DONE after its completion has been counted, because the branch at
  `protocol/src/thread_send.c:310-330` counts without setting `has_all_done`. `Fleet.ToldThoughReported` gives the exact
  condition, `Fleet.OnePacketIsTold` a push of one packet in which it happens, and `Fleet.OnePacketIgnores` shows that
  the receiver takes no notice.
- The request made on FAST_DONE can name nothing. When the window is complete, packet 0 was lost around the wrap and its
  patch has not arrived, the receiver asks from behind its last packet to the end of its window
  (`protocol/src/thread_recv.c:207-210`), which is empty; the sender logs an error and queues nothing
  (`protocol/src/thread_send.c:421-424`). `Runs.FastDoneAsks` gives the exact condition and `Runs.EmptyRequest` a run.
- The offset that `getFilePosition` (`protocol/src/hero.c:1194-1205`) gives for a requested packet is not fixed from the
  request on. A receiver that has not gone round the cycle and is told FAST_DONE asks for packets before its first one
  (`protocol/src/thread_recv.c:199-210`) while `start` is still -1; the arrival of packet 0 moves their place.
  `Runs.PlaceMovesExactly` shows that this is the only move of all, `Runs.PlaceMoves` gives a run in which it happens,
  and `Runs.StoredStaysInPlace` that nothing already written moves.

## Model

| member | source | states |
|---|---|---|
| Geometry.BothEndsAgree | protocol/src/hero.c:140-145 | the sender's div/mod geometry and the receiver's ceiling of a double give the same packet count and last length, however the quotient is rounded |
| Geometry.GeometryExists | protocol/src/hero.c:866-873 | every non-empty file within the 32-bit bounds has a geometry, so the theorems are about all of them |
| ByteFile.WriteHolds | protocol/src/hero.c:1207-1222 | what is written at a cursor, past the end or not, is found there |
| ByteFile.WriteLeavesHole | protocol/src/hero.c:1207-1222 | a cursor moved past the end leaves a hole of zeros |
| ByteFile.WriteKeeps | protocol/src/thread_recv.c:160-165 | a write leaves every range it does not overlap unchanged |
| ReceiverSpec.AheadIsWindowOrder | protocol/src/thread_data.c:193-259 | the comparison the receiver can make without knowing N is the order of window positions modulo N |
| ReceiverSpec.FastWf | protocol/src/thread_data.c:148-294 | cursor, tail, start and metadata stay consistent over every fast packet in any order |
| ReceiverSpec.PatchWf | protocol/src/thread_recv.c:115-184 | and over every patch |
| ReceiverSpec.TailSlotFits | protocol/src/thread_recv.c:121-131 | each packet beyond the cut fits in the tail buffer of D-(T+1)*P bytes |
| Cover.AcceptCovers | protocol/src/thread_data.c:156-259 | an accepted packet grows the window by itself and by exactly what its patch request names after the sender's normalisation |
| Cover.FastDoneCovers | protocol/src/thread_recv.c:199-219 | the FAST_DONE request names exactly what the window lacks, also with N unknown |
| Placement.SlotsDisjoint | protocol/src/hero.c:1194-1205 | no two packets share a byte, in file or tail buffer |
| Placement.SlotStable | protocol/src/hero.c:1194-1205 | the place of a packet already stored or asked for never moves as tail and start are set |
| Placement.SlotMovesExactly | protocol/src/thread_recv.c:140-146 | a patch moves the place of a packet if and only if it is packet 0, brings the metadata to a receiver that has not wrapped, and the packet lies before the first one received |
| Placement.FileWrite | protocol/src/thread_recv.c:146-165 | storing a packet at its place keeps every other stored packet |
| Placement.Reassemble | protocol/src/hero.c:327-354 | when every packet is at its place, finishing yields a file whose documented read order is the source |
| Transfer.CursorAdvances | protocol/src/thread_data.c:169-257 | the fast cursor only moves forward and stays within the file proper |
| Transfer.Complete | protocol/src/hero.c:323-354 | the completion test succeeds exactly when all packets are stored, and the file then reads as the source |
| Transfer.FastInv | protocol/src/thread_data.c:135-331 | a fast packet keeps the whole invariant: cover, counters, contents, order of patches |
| Transfer.PatchInv | protocol/src/thread_recv.c:115-184 | a patch keeps the whole invariant |
| Transfer.FastDoneInv | protocol/src/thread_recv.c:185-220 | FAST_DONE keeps it, wherever its request lands among those still in the pipe |
| Transfer.PatchEnabled | protocol/src/thread_send.c:408-421 | when a patch arrives its place and the tail buffer exist: packet 0 always comes before any packet that needs it |
| Transfer.LossZeroFirst | protocol/src/thread_send.c:408-421 | a request around the wrap names packet 0 first |
| Transfer.PatchFits | protocol/src/thread_recv.c:146-165 | a patch never writes beyond the fast cursor nor beyond the cut |
| Runs.RunInv | protocol/src/hero.h:139-185 | every reachable state satisfies the invariant |
| Runs.Reconstruction | protocol/src/hero.h:104 | in every run, a finished file read as [start, jump), [0, start), [jump, end) is the source |
| Runs.ExactCover | protocol/src/thread_data.c:156-259 | accepted, patched and outstanding packets partition the window; after FAST_DONE they partition all packets |
| Runs.CountingIsSound | protocol/src/hero.c:323-325 | the counters reach N exactly when every packet is stored, with the fast path off and nothing outstanding |
| Runs.PatchHandlerCallable | protocol/src/thread_recv.c:115-138 | in every run the next patch meets all that its handler relies on |
| Runs.PlaceMovesExactly | protocol/src/hero.c:1194-1205 | in every run the place of a stored or requested packet moves exactly when that packet 0 arrives, for packets before the first one |
| Runs.StoredStaysInPlace | protocol/src/hero.c:1194-1205 | in every run the place of a stored packet never moves |
| Runs.PlaceMoves | protocol/src/thread_recv.c:140-146 | a concrete run in which the place of a requested packet moves |
| Runs.FinishedIsFinal | protocol/src/thread_recv.c:190-193 | nothing changes a finished receiver, so finishing happens once |
| Runs.AcceptedAdvances | protocol/src/thread_data.c:156-259 | each accepted packet is strictly further along the window |
| Runs.TakenExactly | protocol/src/thread_data.c:148-294 | a fast packet is stored if and only if it is the first or strictly further along the window modulo N, except packet 0 with its metadata already in and a packet around the wrap that leaves a gap while only the first is held; the packets skipped, and no others, are asked for; the fast path ends with the packet before the first one |
| Runs.ZeroTakenExactly | protocol/src/thread_data.c:161-191 | packet 0 is taken without a request when it is the first or follows the last packet, with a request to the end of the cycle when packets after the first have been taken, and dropped otherwise, its metadata kept in any case |
| Runs.FastDoneAsks | protocol/src/thread_recv.c:199-219 | FAST_DONE makes no request exactly when packet 0 is known and the window complete, and one that names nothing exactly when the window is complete and packet 0 is not known |
| Runs.EmptyRequest | protocol/src/thread_recv.c:207-210 | a concrete run in which the request names nothing |
| Runs.DrainFinishes | protocol/src/thread_recv.c:167-183 | after FAST_DONE, delivering what is outstanding always completes the file |
| Runs.LosslessFinishes | protocol/src/thread_data.c:156-168 | with no loss, one window from any first packet completes the file without a request |
| Runs.HaltsExactly | protocol/src/thread_data.c:233-235 | a fast packet fails the assertions exactly when it wraps past packet 0 with the metadata already in |
| Runs.AssertReachable | protocol/src/thread_data.c:233-235 | a concrete two-round run in which the assertion fails |
| Runs.InOrderNeverHalts | protocol/src/thread_data.c:233-235 | one window delivered in order with losses only never fails an assertion |
| RecverState.GetFilePositionIsPlace | protocol/src/hero.c:1194-1205 | the source's offset is the place of the packet |
| RecverState.TailLen32IsTail | protocol/src/hero.c:155-168 | the wrapping 32-bit product is the size of the lost tail, and not positive when nothing was lost |
| RecverState.CursorAgreement | protocol/src/thread_data.c:163-256 | in every branch the cursor after the placeholder stands at the place of the incoming packet |
| RecverState.StartRecomputed | protocol/src/hero.c:172-178 | the start computed from packet 0 equals the one recorded at the wrap |
| RecverState.CascadeOther | protocol/src/thread_data.c:193-259 | the branches for a packet other than 0 accept, request and skip as the window order says |
| RecverState.RecverState.UpdateBcdMetadata | protocol/src/hero.c:128-186 | the metadata is taken in once, and sets count, lengths, tail buffer, start and jump |
| RecverState.RecverState.FinishRecv | protocol/src/hero.c:327-354 | the tail buffer is appended at the end of the file, where jump is |
| RecverState.RecverState.OnFastPacket | protocol/src/thread_data.c:135-331 | the handler changes the state as the window specification says, fails exactly where it halts, and reports the exact loss |
| RecverState.RecverState.OnPatchData | protocol/src/thread_recv.c:115-184 | the handler writes the patch at its place, reports completion exactly when the counters meet, and leaves everything alone when it is the first packet |
| RecverState.RecverState.OnFastDone | protocol/src/thread_recv.c:185-220 | the fast path is off and the request covers what is missing |
| Transport.NormaliseNames | protocol/src/thread_send.c:378-424 | the ranges the sender makes of a request spell the packets it names |
| Transport.StepRefines | protocol/src/thread_recv.c:265-328 | each channel event is a step of the one-queue model or changes nothing there |
| Transport.NetRefines | protocol/src/thread_recv.c:265-328 | every run over the real channels is a run of the one-queue model |
| Transport.NetReconstruction | protocol/src/hero.h:104 | over the real channels a finished receiver holds the source |
| Transport.SenderHearsOnce | protocol/src/thread_send.c:310-344 | the flag `has_all_done` is never already set, FIRST_SEQ is handled before any request, and a FIRST_SEQ for a file of one packet comes from a finished receiver |
| Transport.NetDrained | protocol/src/thread_recv.c:169-183 | with FAST_DONE handled and the channels empty, the receiver is finished and has reported |
| Termination.FullWindowGiven | protocol/src/hero.c:995-1007 | the computed end is a whole number of windows, at least one, past the receiver's first packet, even if the clock moves between the two readings |
| Termination.EndIsTight | protocol/src/hero.c:995-1007 | the end is the first number from the reading on that is congruent to the first packet; when a new round begins between the two readings, it is less than two windows past the second |
| Termination.TightIsUnique | protocol/src/hero.c:995-1007 | with one reading these facts fix the end |
| Termination.StopsAfterEveryWindow | protocol/src/thread_data.c:384-422 | under every interleaving the multicast stops only after each window is sent, and within one burst of its end or of the moment the end was published, whichever is later; the end is that of one of the receivers, and each receiver's is no further than it must be |
| Termination.Overshoots | protocol/src/hero.c:1000-1025 | no bound by the end and the burst alone holds: for every m there is a run that stops m packets past the end with bursts of one packet |
| Termination.CanStop | protocol/src/thread_data.c:384-515 | once all receivers have been heard, every run can be continued to the stop of the multicast |
| Termination.StoppedStays | protocol/src/thread_data.c:395-397 | once stopped, nothing more is sent |
| Multicast.MulticastState.OnFirstSeq | protocol/src/thread_send.c:286-336 | the books change as `FirstHeard` says: one more heard, one-packet files complete with it, its end noted and queued |
| Multicast.MulticastState.UpdateSeqEnd | protocol/src/hero.c:995-1028 | the end of the receiver is noted, the receiver queued at whatever place the comparator leads to, the largest end kept, and published with the last receiver |
| Multicast.MulticastState.OnAllDone | protocol/src/thread_send.c:338-372 | a report already noted fails the assertion; any other is counted, and the last makes the message |
| Multicast.MulticastState.Poll | protocol/src/thread_send.c:97-131 | one scan ripens, and for a dead multicast settles and tells, as the queue says |
| Multicast.FirstHeardCounts | protocol/src/thread_send.c:310-332 | handling FIRST_SEQ keeps the counters equal to the receivers heard and done, one message for all done, and the end the largest of the ends |
| Multicast.AllDoneHeardCounts | protocol/src/thread_send.c:338-364 | so does handling ALL_DONE |
| FastDoneQueue.Fits | protocol/src/thread_send.c:104-106 | the array has a place for every receiver that ripens, because each is queued once |
| FastDoneQueue.FastDoneQueue.Insert | protocol/src/hero.c:1009-1013 | the receiver joins the queue at any place, and every receiver is in queue and array together at most once |
| FastDoneQueue.FastDoneQueue.Ripen | protocol/src/thread_send.c:98-111 | the loop leaves queue and array as `Ripened` says, within the array's bounds |
| FastDoneQueue.RipenExactly | protocol/src/thread_send.c:98-111 | the receivers that move are the front of the queue, up to the first whose window has not been sent, in its order |
| FastDoneQueue.NobodyLeftBehind | protocol/src/thread_send.c:98-111 | the scan leaves nobody behind whose window has been sent if and only if those that are due come first in the queue |
| FastDoneQueue.LeftBehind | protocol/src/hero.c:818-820 | a concrete queue in which one is left behind |
| FastDoneQueue.AllRipen | protocol/src/thread_send.c:98-111 | once all windows have been sent, one scan empties the queue in whatever order it is |
| FastDoneQueue.FastDoneQueue.Fire | protocol/src/thread_send.c:113-131 | the loop leaves array and command ring as `Fired` says |
| FastDoneQueue.FireExactly | protocol/src/thread_send.c:113-131 | exactly the receivers past the timeout are settled: stopping at the first that is not due passes over none |
| FastDoneQueue.FireTells | protocol/src/thread_send.c:119-125 | a scan tells exactly the receivers it settles whose ALL_DONE has not arrived |
| Fleet.FleetRunInv | protocol/src/hero.h:369-379 | in every run of a push the sender's books agree with every receiver, its window and its channels |
| Fleet.HandlersCallable | protocol/src/thread_send.c:286-344 | in every run FIRST_SEQ comes from a receiver neither counted nor queued, and ALL_DONE from a finished one that was heard and has not reported |
| Fleet.CompletionMeans | protocol/src/thread_send.c:310-364 | n_all_done <= n_first_seq <= n_init; the completion message is made at most once, exactly when every receiver has reported, and then every receiver's file reads as the source |
| Fleet.DrainedCompletes | protocol/src/thread_send.c:310-364 | when every receiver has reported, or has handled FAST_DONE and has nothing left in its channels, the completion message has been made |
| Fleet.EndIsLargest | protocol/src/hero.c:1016-1025 | once all are heard, the end of the multicast is the largest of their ends, each a whole window past the first packet of its receiver and no further past the readings of the clock than it must be |
| Fleet.ToldInTime | protocol/src/thread_send.c:97-125 | a receiver is told once, of a dead multicast, and not before the whole window of every receiver has been sent |
| Fleet.ToldThoughReported | protocol/src/thread_send.c:113-131 | a scan tells a receiver already counted if and only if the file has one packet, the multicast is dead and the receiver has been ripe for longer than the timeout |
| Fleet.SettledAccounted | protocol/src/thread_send.c:115-127 | in every run, whoever is settled has been told or has reported by ALL_DONE |
| Fleet.OnePacketTellsAll | protocol/src/thread_send.c:115-127 | in a push of one packet, those told are exactly those settled |
| Fleet.OnePacketIgnores | protocol/src/thread_recv.c:190-193 | each of them is finished and counted, and FAST_DONE changes nothing of it |
| Fleet.OnePacketIsTold | protocol/src/thread_send.c:310-330 | a concrete push of one packet: counted first, told afterwards, once the timeout is past and not at it |
| Progress.Drains | protocol/src/thread_recv.c:115-184 | whatever is in the channels of a receiver that has handled FAST_DONE gets through |
| Progress.TwoScansReachAll | protocol/src/thread_send.c:97-131 | once the multicast is dead, two scans further apart than the timeout leave every receiver told or reported |
| Progress.CanComplete | protocol/src/thread_send.c:97-364 | any run in which all receivers have been heard and none has failed an assertion can be continued to the completion message |
| Progress.PushHalts | protocol/src/thread_data.c:233-235 | a concrete push in whose second round the assertion fails |
| SenderFile.CreateData | protocol/src/msg.c:75-83 | a sequential read that rewinds only on an empty result yields exactly the packet asked for |
| SenderFile.Streamer.SendBurst | protocol/src/thread_data.c:454-495 | over any number of rounds and bursts, packet k of the stream is packet k mod N of the file |
| SenderFile.SendSocketState.Insert | protocol/src/hero.c:281-305 | a message without priority is refused above half the capacity, any message at capacity |
| SenderFile.SendSocketState.OnPatchReq | protocol/src/thread_send.c:374-426 | a request extends the receiver's patch stream by exactly what it names |
| SenderFile.SendSocketState.ProcessPatchTuple | protocol/src/hero.c:1044-1110 | the pump, cut short anywhere, never changes the stream, queues genuine packets only, and stays within half the capacity plus one |
| SenderFile.Serve | protocol/src/hero.c:1044-1110 | over any requests, pumps, sends and other messages, the patches that go out are exactly the packets named, in order, each with its own slice of the file; so are the other messages, each once and in order, while the queue has room |
| SenderFile.Flush | protocol/src/hero.c:1044-1110 | pumping and sending alone empty ring and queue and send the whole stream |
| Drain.DrainedIsExact | protocol/src/thread_data.c:655-657 | on unbounded counters the index test says that the last multicast slot has been sent |
| Drain.WaitIsExact | protocol/src/thread_data.c:652-667 | the wait ends at exactly the first check at which it has |
| Drain.TxRing.OnPut | protocol/src/thread_data.c:447-470 | a slot is filled exactly when the ring has room, and for the multicast only while it is active and not terminated |
| Drain.PutFills | protocol/src/thread_data.c:370-421 | with room in the ring an active multicast that has not ended gets its slot in each of the three live states |
| Drain.EndsNotes | protocol/src/thread_data.c:384-390 | the end notes the slot filled last and the tail as it is |
| Drain.CheckRenews | protocol/src/thread_data.c:663-665 | a check that comes too early lets the card go on for another lap |
| Drain.TxRing.Terminate | protocol/src/thread_data.c:502-509 | on ring indices, the last slot filled and the current tail are recorded, once |
| Drain.TxRing.DrainCheck | protocol/src/thread_data.c:652-667 | on ring indices, the check asserts an active multicast and marks it dead exactly when its last slot has been sent |
| Drain.DeadWhenSent | protocol/src/thread_data.c:657-659 | under every interleaving of data thread, service thread and card, the multicast is dead, and the path given back, only after its last packet has left |
| Drain.DeadAtFirstCheck | protocol/src/thread_data.c:652-667 | a multicast that has ended is marked dead by exactly the first check that finds its last slot sent |
| Drain.CanFinish | protocol/src/thread_data.c:384-667 | from any reachable state an active multicast can fill a slot if it has more to send, end, be marked dead by a check, and be released |
| Drain.CanGrant | protocol/src/thread_service.c:269-275 | whenever the path is free the next multicast can be granted it, and starts alive |
| Drain.AssertHolds | protocol/src/thread_service.c:115-150 | no interleaving with the service thread finds the active multicast gone or dead while the data thread waits |
| Framing.CreatedIsFramed | protocol/src/msg.c:55-61 | a created message with its padding carries its own length and type |
| Framing.CreatedParses | protocol/src/msg.c:46-61 | parsing a created message gives back its identifier, type, time and payload, with the padding behind |
| Framing.NetworkOrder | protocol/src/msg.c:18-19 | length and type are sent high byte first |
| Framing.Outgoing.SendMsg | protocol/src/hero.c:493-556 | the bytes of the stream go out in order and without gaps, exactly as many as the kernel's answers allow |
| Framing.AllTaken | protocol/src/hero.c:518-553 | a kernel that takes everything empties the queue in one call if and only if no message has padding to follow |
| Framing.OneAnswer | protocol/src/hero.c:518-523 | one answer of the kernel sends as many bytes as it says, up to the end of the message or of its padding |
| Framing.Incoming.OnRead | protocol/src/thread_recv.c:76-352 | one read delivers the whole messages held, keeps the rest, and leaves room for another read |
| Framing.Exchange | protocol/src/thread_recv.c:81-352 | however messages are posted, partially sent and read, what has come out is a prefix of what was put in, and all of it once every byte is read |
| Framing.Converse | protocol/src/thread_recv.c:81-352 | every message that comes out of a connection parses to the identifier, type, time and payload of the message put in at its place, and all come out once every byte is read |
| Framing.NeverStuck | protocol/src/thread_recv.c:77-82 | in every such exchange a further send moves bytes as long as there are any, and a further read takes as many as there are, as asked for, and as the buffer has room for |
| Framing.PrefixMessages | protocol/src/thread_recv.c:98-352 | any part of a framed stream yields exactly the messages that are whole in it |
| Framing.PrefixParseable | protocol/src/thread_recv.c:77-82 | no part of a framed stream fills the buffer without a whole message in it |
| Framing.NextReadParseable | protocol/src/thread_recv.c:77-82 | after any part of a framed stream, the next read finds a buffer it can handle |
| Checksum.Fold | protocol/src/checksum.c:19-22 | the carry fold ends, keeps the sum modulo 65535 and maps only 0 to 0 |
| Checksum.AddWords | protocol/src/checksum.c:11-18 | the loop adds every word of the padded bytes, odd length included |
| Checksum.WordSumIsWeighted | protocol/src/checksum.c:11-18 | every byte counts once, in the half of its word that its place gives it, the last byte of an odd number included |
| Checksum.PaddingIsZero | protocol/src/checksum.c:16-18 | an odd last byte counts as if a zero byte followed |
| Checksum.ByteOrderIndependent | protocol/src/checksum.c:9-26 | hosts of the two byte orders get the same sum with its bytes swapped |
| Checksum.RfcExample | protocol/src/checksum.c:9-22 | the example of section 3 of RFC 1071 |
| Checksum.ComputeIpChecksum | protocol/src/checksum.c:28-32 | only the checksum field changes, and the header's words then sum to ones |
| Checksum.ValidateIpChecksum | protocol/src/checksum.c:34-38 | 0 is returned for exactly the headers whose words sum to ones |
| Checksum.IpRoundTrip | protocol/src/checksum.c:28-38 | every header set is found valid |
| Checksum.OnlyTheChecksumValidates | protocol/src/checksum.c:34-38 | two values of the field that both validate differ only as the two zeros do |
| Checksum.ComputeTcpChecksum | protocol/src/checksum.c:40-76 | the segment, padded to whole words, with its pseudo header sums to ones on hosts of either byte order, for every length |
| Checksum.ComputeUdpChecksum | protocol/src/checksum.c:78-119 | the datagram, padded to whole words, verifies on hosts of either byte order for every length, and its checksum is never 0 |
| Checksum.PseudoLayout | protocol/src/checksum.c:84-94 | the pseudo header has the layout of RFC 768 |
| LinkedList.List.Push | protocol/src/dll.c:64-82 | the list grows at its end and stays well linked |
| LinkedList.List.Unshift | protocol/src/dll.c:90-110 | the list grows at its front and stays well linked |
| LinkedList.List.Remove | protocol/src/dll.c:120-149 | taking out any node leaves the others in order, well linked and counted |
| LinkedList.List.Shift | protocol/src/dll.c:84-116 | pop and shift both take the first element, and nothing from an empty list |
| LinkedList.List.ForEachRemove | protocol/src/dll.h:48-52 | the macro visits every original node once and in order although the body removes the current one |
| LinkedList.KeptExactly | protocol/src/dll.h:48-52 | what is left are exactly the values that were not to be removed, each as often as before |

## Left out

- Sockets, select and poll, netmap descriptors, signals, thread placement and hostname lookup: only their effect is
  kept (bytes accepted, slots sent, messages delivered).
- Packet headers other than the checksums, and the zero-copy forwarding between host and card in `process_rings`.
- Several transfers at once, more than one push of the same file, and slaves that appear twice: one receiver of one
  transfer, or all receivers of one push.
- Authenticity of packets: a packet with sequence number i carries the i-th slice of the file, and packet 0 carries the
  true size.
- Races inside one handler, such as the use of the active multicast between setting DEAD and clearing the release flag.
- Rate control: a burst is any number up to the limit, capped by what is left to send.
- Statistics, logging, timestamps other than the FAST_DONE timeout, deallocation and error exits.
- The controller protocol: a push is granted or not. A postponed push is queued again and nothing is proved of that.
- The local service messages (INT, READ, WRT, DEL) and the loop for an unknown multicast in
  `protocol/src/thread_send.c:247-250`.
- Drain.TxRing.OnSent: asks that the tail move by less than one lap between two checks; that the card and the polling
  loop keep to this is not modelled.
- Drain.TxRing.Terminate: the test before a burst also asks for the state FULLRATE, the one after a burst does not; the
  model lets the multicast end in any state but DEAD.
- Multicast.MulticastState.OnFirstSeq: a receiver that sends FIRST_SEQ twice, which `Fleet.HandlersCallable` excludes.
- SenderFile.CreateData: the 9216-byte packet buffer is a sequence, so its capacity is not modelled.
- Termination.StopsAfterEveryWindow: the clock stays below SEQNUM_MAX, the value that stands for an unset end.
- Progress.CanComplete: the end of the multicast must lie below SEQNUM_MAX, for the same reason. That the sender and the
  network do go on is not modelled: it says what can happen next, not that it will.
- Fleet.FleetRunInv: the multicast may be marked dead as soon as all is sent and heard; that the ring has drained by
  then is proved in `Drain` alone, and the interleaving inside a handler in `Termination` alone. Messages of a receiver
  that has failed an assertion are not read.
