# vt-muxer in Dafny

vt-muxer carries many logical connections over one TCP stream. A frame is an 18-byte
address, a big-endian 16-bit length and that many payload bytes; a frame without payload
opens an address the receiver does not know and closes one it knows. This project models the
multiplexer and proves, for every run, that it delivers each connection's bytes completely,
in order and to the right reader.

The outside world is an adversary. The TCP writer takes any number of the bytes offered to
it, is not ready, or fails; the TCP reader yields any chunk, nothing, the end of the stream
or an error; the writer lock is granted or not. Calls take the adversary's answers as a
script, and every theorem is for all scripts, all interleavings and all chunkings.

| file | what it is |
|---|---|
| `Protocol.dfy` | the wire format |
| `Framing.dfy` | two reference readings of a byte stream: cutting it into frames, and one byte at a time |
| `PacketBuffer.dfy` | `PacketBuffer` and the rule for appending to a packet that is being sent |
| `ReadBuffer.dfy` | `ReadBuffer` as an array with indices, and as a FIFO |
| `Connections.dfy` | the write half of one connection, one atomic action at a time: handshake, buffering, flushing, shutdown, drop |
| `Writers.dfy` | any number of connections on one lock and one wire, also several of one address |
| `Progress.dfy` | that no phase of a connection is a dead end, and the lock is never stuck with its holder |
| `WritePolls.dfy` | what one call of `poll_lock`, `handshake`, `poll_write`, `poll_flush`, `poll_shutdown` does |
| `PollLaws.dfy` | what callers and other connections may rely on when such a call is made |
| `WriteOutcomes.dfy` | when writing calls finish, wait and fail |
| `WriteInner.dfy` | `WriteInner` as an object updated in place, proved equal to `WritePolls` |
| `Demux.dfy` | the demultiplexer one byte at a time: the reference |
| `Readers.dfy` | the demultiplexer as it is, with chunks, buffers and channel; its refinement of `Demux` |
| `SharedReader.dfy` | the shared reader as an object updated in place; reads and accepts |
| `ReadOutcomes.dfy` | when polls, reads and accepts make progress, wait and fail |
| `Delivery.dfy` | why every registration gets exactly the payload between the empty frames that open and close it, for any stream |
| `Pairing.dfy` | which registration belongs to which writer, however often an address is used |
| `Network.dfy` | N writers, one wire and the reading end together |
| `Duplex.dfy` | both directions, with connections opened from either end |
| `Arrival.dfy` | that what is accepted can arrive |
| `Reopening.dfy` | runs of two ends in which an address is opened again, in time and too soon |

How the parts fit: the class methods in `WriteInner.dfy` and `SharedReader.dfy` are proved
equal to functions of their old state. Calls of the writing functions are runs of the atomic
actions (`PollLaws.WriteLeads` and its siblings, `Network.CallsAreRuns`), and calls of the
reading functions are runs of polls, reads and accepts (`SharedReaders.PollIsRun` and its
siblings, `Network.PollsAreRuns`), so what is proved of all runs holds of all calls. Polls do
what a byte-at-a-time reference does (`Readers.ExecRefines`, `SharedReaders.PollAllFeeds`).
The invariant of `Network` joins the two ends at the wire.

An address can be used by one connection after another. Connections of one address are told
apart by their *epoch*, the number of empty frames for that address that come before their
payload: at the writing end those on the wire when the writer is made, and its own opening if
it dialled; at the reading end those that had arrived when the registration was made. A
writer and a registration of the same address and epoch are the two ends of one connection.

## Where the code falls short of what one would expect

- `poll_write` waits for the lock with `ready!` (src/write.rs:222), so it can return Pending
  after it has accepted bytes. `PollLaws.PendingContract` gives the exact bound on the input
  below which Pending means that nothing was accepted, whatever the lock and the writer do,
  and shows that above it some lock and writer make the call accept bytes and say Pending.
- A write error, or dropping a connection during its shutdown (src/write.rs:358), abandons a
  frame. `Writers.AlignedExactly` says that the wire stays aligned exactly if no byte of
  that frame, or all of it, had been sent; `Writers.TornFrameHappens` is a run in which it
  does not.
- `insert` looks at the map of registrations only (src/read.rs:123-125), not at writers that
  are still alive, and an empty frame for a known address is a close (src/read.rs:255-258).
  `Network.ReopensExactly` says that an opening header registers a connection at a listening
  peer if and only if every earlier writer of the address that the peer has heard of has its
  close on the wire and no answer to the peer's own opening is due; otherwise it closes the
  old connection. `Reopenings.TooSoonHappens` is a run of two ends that gets there: the peer
  accepts a connection and shuts its side down, the opening end reads that and forgets the
  address, so that `insert` allows it again while the first writer is still alive.
- After a handshake that fails, the dropped writer sends a whole empty header
  (`Connections.FailedHandshakeStillSpeaks`, `Connections.FailedHandshakeHappens`). If the
  handshake had sent part of its own header, the frame is torn. If it had sent nothing, the
  peer is between frames and the header registers a connection if and only if somebody
  listens (`Demux.LoneHeader`); that registration stays until another empty header for the
  address comes (`Demux.PhantomStays`).

## Model

| member | source | states |
|---|---|---|
| Protocol.NetworkOrderBijective | src/integers.rs:25-35 | the two big-endian conversions are inverse to each other, both ways, on all of u16 |
| Protocol.HeaderRoundTrip | src/protocol.rs:6-27 | every header reads back as the address and length it was made of, also at the front of more bytes |
| Protocol.HeaderComplete | src/protocol.rs:6-27 | every 20 bytes are the header of what they read as |
| Framing.UnframeSound | src/protocol.rs:6-27 | every byte stream is its whole frames, re-encoded, followed by the beginning of an unfinished one: nothing lost or invented |
| Framing.UnframeRoundTrip | src/packet_buffer.rs:104-117 | any frames, encoded and followed by the beginning of one more, are cut back into exactly those frames and that beginning |
| Framing.ParserMatchesCut | src/read.rs:228-277 | following a stream byte by byte and cutting it into frames agree on every stream |
| Framing.SessionsOfFrames | src/read.rs:253-271 | the byte parser's count of empty frames and its payload per epoch are those of the frames of the stream, for every address |
| Packets.LateAppend | src/packet_buffer.rs:44-102 | an append that fits the 16-bit length leaves the bytes already sent unchanged if and only if it respects the limit of `push` |
| Packets.PacketBuffer.constructor | src/packet_buffer.rs:18-27 | a new packet has the address and no payload |
| Packets.PacketBuffer.MustFlushFor | src/packet_buffer.rs:44-53 | true exactly when the limit of `push` is zero |
| Packets.PacketBuffer.Clear | src/packet_buffer.rs:59-61 | the payload is empty afterwards |
| Packets.PacketBuffer.Push | src/packet_buffer.rs:63-102 | appends the longest prefix within the limit, returns its length, and changes no byte of the frame that was sent; the length never overflows |
| Packets.PacketBuffer.Bytes | src/packet_buffer.rs:104-113 | address, stored length bytes and filled data are the encoding of the payload |
| Packets.PacketBuffer.BytesFrom | src/packet_buffer.rs:115-117 | the unsent rest of that encoding, for every count within it |
| ReadBuffers.StepIsFifo | src/read/read_buffer.rs:96-170 | one fill or read appends at the back or hands out the front, and keeps pos <= filled <= capacity with a drained buffer reset |
| ReadBuffers.Fifo | src/read/read_buffer.rs:87-170 | over every run of fills and reads: initial contents and all filled bytes equal all bytes read followed by the contents |
| ReadBuffers.ReadBuffer.constructor | src/read/read_buffer.rs:41-61 | a new buffer is empty and has the capacity asked for |
| ReadBuffers.ReadBuffer.Bytes | src/read/read_buffer.rs:87-94 | the array between pos and filled is the contents of the queue |
| ReadBuffers.ReadBuffer.FillBuffer | src/read/read_buffer.rs:96-137 | the answer taken, cut to the limit and the free space, is appended; which answer gives which result; full exactly when nothing is free; pos <= filled <= initialized <= capacity |
| ReadBuffers.ReadBuffer.Read | src/read/read_buffer.rs:139-170 | hands out the front of the queue and resets a drained buffer, as `Take` and `Taken` say |
| Connections.OwedStep | src/write.rs:274-403 | each action of a closing or dropped connection pays off exactly the bytes it puts on the wire |
| Connections.OwedRun | src/write.rs:274-403 | the same over every run |
| Connections.CleanShutdown | src/write.rs:274-352 | for every quiet run of actions that ends closed: the rest of a begun frame or the whole buffered frame, then exactly one empty header, and the lock released; calls are such runs (`PollLaws.ShutdownLeads`) |
| Connections.DropKeepsFrames | src/write.rs:355-403 | the future of a dropped connection completes a begun frame, gives up only a frame of which nothing was sent, and sends one empty header |
| Connections.HandshakeSendsOneHeader | src/write.rs:178-184 | a handshake that ends well has sent exactly one empty header and released the lock |
| Connections.FailedHandshakeStillSpeaks | src/lib.rs:151-156 | after a handshake that fails, however much of its header was sent, the dropped writer sends exactly one whole empty header |
| Connections.FailedHandshakeHappens | src/write.rs:178-184 | a run from a new connection in which this happens |
| Writers.AlignedExactly | src/write.rs:102-172 | from an aligned state any action of any connection, and opening any address at any time, leaves the wire aligned if and only if it does not abandon a partly sent frame |
| Writers.WireIsFrames | src/write.rs:148-352 | over every run of any number of writers, also of one address, that tears no frame, the wire is whole well-formed frames followed by exactly what the lock holder has sent of its frame, and by nothing if the lock is free |
| Writers.ZeroOnlyOpensAndCloses | src/write.rs:178-403 | over every orderly run, with addresses reopened after their close: every header for an address is the data or close of the connection of the epoch that is on, or the opening of the next; a connection has opened, and has closed, exactly if the empty frames say so; no two connections share a header |
| Writers.LockDiscipline | src/poll_mutex.rs:45-79 | over every run, errors and several writers of one address included: one holder at most, a holder has no stored request and is sending a frame, and every counter stays within its frame |
| Writers.InvKept | src/write.rs:148-403 | every action that tears no frame, and opening an address whose writers have closed, keeps: alignment, the header ledger, and bytes accepted = bytes of the connection's epoch on the wire, then bytes unsent |
| Writers.TornFrameHappens | src/write.rs:208-212 | a run in which a write error leaves half a frame on the wire |
| Progress.NoDeadEnd | src/write.rs:178-403 | a connection that has something left to do can do it, by getting the lock, sending or ending its frame, and is then nearer to its end; so no phase is a dead end |
| Progress.DropCanFinish | src/write.rs:355-403 | from every resting state a dropped connection can get to its end, with its close sent; `Connections.DropKeepsFrames` says what it has sent then |
| Progress.ShutdownCanFinish | src/write.rs:274-352 | from every resting state a shutdown can get to Done |
| Progress.HandshakeCanFinish | src/write.rs:178-184 | so can a handshake |
| Progress.LockCanBeReleased | src/poll_mutex.rs:45-79 | in every state with one lock holder, the holder can go on by itself to release the lock, without accepting bytes or moving anybody else |
| WritePolls.PollLock | src/poll_mutex.rs:45-64 | the lock is held afterwards only if it was free, and then no request is stored; otherwise one is stored |
| WritePolls.PollHandshake | src/write.rs:178-184 | a poll of the handshake ends done and idle, waiting, or failed with its writer dropped, and keeps the resting invariant |
| WritePolls.Pump | src/write.rs:148-172 | terminates for every writer; the counter never leaves the frame; done exactly when the frame is gone |
| WritePolls.Flush | src/write.rs:206-217 | which state each outcome leaves; a stuck flush has something left to send |
| WritePolls.WriteTurn | src/write.rs:197-237 | whichever branch is taken, a turn appends exactly the input it consumes, and either returns or makes progress towards termination; when it may fail and what it takes at least: `WriteOutcomes.WriteFails`, `WriteOutcomes.TakesWhatFits` |
| WritePolls.PollWrite | src/write.rs:188-240 | terminates for every lock and writer and keeps the resting invariant (a flush under way has a packet and bytes left); refused during shutdown |
| WritePolls.PollFlush | src/write.rs:242-272 | success means an empty packet and a released lock; the resting invariant is kept; refused during shutdown |
| WritePolls.CloseTurn | src/write.rs:315-350 | each turn descends WaitingLock, Flushing, Writing, Done or returns, with success exactly in Done and failure exactly in Error; when it goes on: `WriteOutcomes.ShutdownFinishes` |
| WritePolls.PollShutdown | src/write.rs:274-352 | terminates; success exactly in Done, failure exactly in Error; the resting invariant is kept |
| PollLaws.WriteAppends | src/write.rs:188-240 | a call appends exactly the first `accepted` bytes of its input to the connection's stream, however it ends, and Ready is never an empty success for a nonempty input |
| PollLaws.PendingContract | src/write.rs:197-240 | Pending means nothing was accepted, for every lock and writer, if and only if the input fits the safe room of the connection |
| PollLaws.WriteLeads | src/write.rs:188-240 | every call of poll_write is a run of the connection's own actions among any other connections, one without failing and dropping if the call does not fail |
| PollLaws.FlushCallLeads | src/write.rs:242-272 | so is every call of poll_flush |
| PollLaws.ShutdownLeads | src/write.rs:274-352 | so is every call of poll_shutdown |
| PollLaws.HandshakeLeads | src/write.rs:178-184 | so is every poll of a handshake |
| PollLaws.ShutdownPays | src/write.rs:274-352 | a call of poll_shutdown that does not fail, the first or a later one, puts on the wire exactly what is then no longer owed |
| PollLaws.RepeatedShutdown | src/write.rs:274-352 | repeated calls, with anything happening to lock and wire in between: when the last is done they have together sent the rest of a begun frame or the whole buffered frame and exactly one empty header, and released the lock |
| WriteOutcomes.PumpExactly | src/write.rs:148-172 | which answers a flush used, how many bytes are gone, and that it is flushed, stuck or lost exactly as the last of them was enough, not ready, or bad |
| WriteOutcomes.LockExactly | src/poll_mutex.rs:45-64 | the lock is taken if and only if it is free and offered at the first try or, without a stored request, at the second |
| WriteOutcomes.WriteFails | src/write.rs:188-240 | a connection that is not shutting down reports an error only if the TCP writer failed or took nothing |
| WriteOutcomes.TakesWhatFits | src/write.rs:188-240 | a call takes at least what fits into the packet at once, whatever the lock and the writer do |
| WriteOutcomes.WriteFinishes | src/write.rs:188-240 | for every state and every input there are answers with which one call takes all of it |
| WriteOutcomes.FlushOutcomes | src/write.rs:242-272 | poll_flush is done if the lock is there and enough bytes are taken, fails only over a bad answer or during shutdown, and waits while another holds the lock |
| WriteOutcomes.HandshakeOutcomes | src/write.rs:178-184 | the same for a handshake |
| WriteOutcomes.ShutdownFinishes | src/write.rs:274-352 | poll_shutdown, the first call or a later one, is done if the lock is there and as many willing answers come as bytes are owed |
| WriteOutcomes.ShutdownFails | src/write.rs:306-313 | it fails only over a bad answer or after an earlier failure |
| WriteOutcomes.ShutdownWaits | src/write.rs:317-323 | and waits while another holds the lock |
| WriteInners.SharedWriter.PollWrite | src/write.rs:161-170 | the adversarial TCP writer: a prefix of the offer, or nothing |
| WriteInners.WriteInner.constructor | src/write.rs:77-90 | a new write half has an empty packet and no lock; it is idle if it was accepted and has its handshake to come if it dials |
| WriteInners.WriteInner.PollLock | src/poll_mutex.rs:45-64 | the object's new state is that of `WritePolls.PollLock` |
| WriteInners.WriteInner.SendFrom | src/write.rs:154-171 | the loop puts on the wire exactly the frame bytes from the old to the new count, as `Pump` says |
| WriteInners.WriteInner.FlushBuf | src/write.rs:148-172 | the packet is emptied exactly when its frame is gone |
| WriteInners.WriteInner.PollHandshake | src/write.rs:178-184 | result and new state are those of `WritePolls.PollHandshake` |
| WriteInners.WriteInner.PollWrite | src/write.rs:188-240 | result and new state are those of `WritePolls.PollWrite` |
| WriteInners.WriteInner.PollFlush | src/write.rs:242-272 | result and new state are those of `WritePolls.PollFlush` |
| WriteInners.WriteInner.PollShutdown | src/write.rs:274-352 | result and new state are those of `WritePolls.PollShutdown` |
| WriteInners.WriteInner.Drop | src/write.rs:355-372 | the object's new state is that of the `Drop` action: the lock, or the request for it, goes to the future that sends the close; in the middle of a shutdown the lock is released |
| Demux.FeedFrames | src/read.rs:228-277 | reading encoded frames byte by byte has exactly the effect of the frames: toggle, or deliver the whole payload |
| Demux.FeedConcat | src/read.rs:170-294 | feeding bytes in two parts is feeding them at once |
| Demux.RegistrationFollowsHistory | src/read.rs:122-154 | over every run the known addresses equal a fold over registrations and empty headers, toggling while somebody listens and only removing afterwards |
| Demux.OpeningsFollowHistory | src/read.rs:253-271 | over every run the registrations made by headers are the empty headers for unknown addresses while somebody listened, in order |
| Demux.DropDisturbsNobody | src/read.rs:177-223 | dropping a reader changes, over every continuation, nothing but that reader: same parser, same map, same bytes for all others |
| Demux.CutOffByClose | src/read.rs:143-154 | a registration is cut off by a run if and only if the run contains the closing header for its address |
| Demux.UnmappedForGood | src/read.rs:143-154 | a registration that was cut off stays so and gets no more bytes |
| Demux.LoneHeader | src/read.rs:255-271 | an empty header for an unknown address registers it if and only if somebody listens, and otherwise changes nothing |
| Demux.PhantomStays | src/read.rs:255-258 | over every continuation, that registration stays mapped if and only if no other empty header for the address comes |
| Readers.ReadRefines | src/read.rs:170-226 | any chunk read in a payload does what its bytes do one at a time; the end of the stream only stops the reader |
| Readers.NextPacketRefines | src/read.rs:228-277 | the same for any chunk of a header; the header fill never exceeds 20 |
| Readers.ExecRefines | src/read.rs:279-294 | every step of the reading side (poll, registration, drop, accept, read) does to the registrations what its byte-by-byte trace does |
| Readers.RunRefines | src/read.rs:279-302 | the same over every run |
| Readers.ChunkIndependence | src/read.rs:170-294 | two runs with the same bytes and with registrations and drops at the same places end with the same parser state, map and deliveries, however the bytes were cut |
| Readers.ReaderDropDisturbsNobody | src/read.rs:177-223 | non-interference of a dropped reader for the chunked reader, over every continuation |
| Readers.MapFollowsHistory | src/read.rs:122-154 | the map's keys follow the history, for the chunked reader |
| Readers.AcceptOrder | src/lib.rs:195-206 | while the listener lives: accepted connections, then the channel, then the one being sent are the opening headers in order, none missing or twice, and what was delivered before accept is in the buffer |
| SharedReaders.PollAll | src/read.rs:296-301 | the loop terminates, keeps the state valid and never ends in mere progress |
| SharedReaders.PollAllFeeds | src/read.rs:296-301 | a whole poll does what the bytes it used do one at a time |
| SharedReaders.ReadReports | src/read.rs:334-367 | a nonempty read reports the end of the stream exactly when the buffer is empty and the map no longer leads to it; buffered bytes come first, also after a fatal error |
| SharedReaders.EndOfStreamExact | src/read.rs:334-367 | over every run: it reports the end exactly when the closing header for that registration was processed and everything delivered to it has been read |
| SharedReaders.AcceptsOldest | src/lib.rs:195-206 | an accept hands out the oldest connection opened by a header and not accepted, exactly when the channel has one |
| SharedReaders.PollIsRun | src/read.rs:296-301 | a call of poll is a run of polls: what holds of runs holds of it |
| SharedReaders.ReadIsRun | src/read.rs:334-367 | so is a read of a connection |
| SharedReaders.AcceptIsRun | src/lib.rs:195-206 | so is an accept |
| ReadOutcomes.PayloadIsTaken | src/read.rs:170-226 | payload is taken whenever there is some and its living reader has room: as much as there is, up to the end of the frame and the free space; a full buffer waits, the end of the stream is fatal, other answers change nothing |
| ReadOutcomes.HeaderIsGathered | src/read.rs:228-277 | the same for a header; a part of one is kept and makes the poll wait |
| ReadOutcomes.SocketIsHandedOff | src/read.rs:283-291 | a new connection goes into the channel unless that is full, and nowhere without a listener |
| ReadOutcomes.DroppedHoldsNobodyUp | src/read.rs:187-193 | payload for a reader that is gone is taken and thrown away, also when its buffer was full |
| ReadOutcomes.PollFails | src/read.rs:296-301 | a poll ends in an error only over an error or the end of the TCP stream, always after a fatal one, and waits without answers |
| ReadOutcomes.PollWaits | src/read.rs:296-301 | a poll waits only for more answers, over one that was not ready, a full buffer, a full channel or a part of a header |
| ReadOutcomes.ReadHandsOut | src/read.rs:343-356 | what a read returns leaves the buffer from its front and is on record, and nothing else changes |
| ReadOutcomes.ReadWaitsOrFails | src/read.rs:358-366 | a read that finds nothing on an open connection fails only over an error of the stream, always after a fatal one, and otherwise waits for a reason |
| ReadOutcomes.AcceptWaitsOrFails | src/lib.rs:195-203 | the same for an accept that finds no connection |
| SharedReaders.SharedReader.constructor | src/read.rs:305-314 | a new shared reader knows nobody and expects a header |
| SharedReaders.SharedReader.Insert | src/read.rs:122-141 | a known address is refused and nothing changes; otherwise a new registration with an empty buffer |
| SharedReaders.SharedReader.AddConnection | src/read.rs:328-330 | succeeds exactly for unknown addresses, and then the map leads to the new registration |
| SharedReaders.SharedReader.Remove | src/read.rs:143-154 | exactly the registration of that address is cut off; every other one stays mapped and no buffer changes |
| SharedReaders.SharedReader.PollRead | src/read.rs:170-226 | new state, outcome and bytes used are those of `Readers.PollRead` |
| SharedReaders.SharedReader.PollNextPacket | src/read.rs:228-277 | new state, outcome and bytes used are those of `Readers.PollNextPacket` |
| SharedReaders.SharedReader.PollOnce | src/read.rs:279-294 | new state, outcome and bytes used are those of `Readers.PollOnce` |
| SharedReaders.SharedReader.Poll | src/read.rs:296-301 | the loop computes `PollAll` |
| SharedReaders.SharedReader.PollAccept | src/lib.rs:195-206 | result and new state are those of `AcceptFrom` |
| SharedReaders.SharedReader.ReadInto | src/read.rs:334-367 | result and new state are those of `ReadFrom` |
| Delivery.LinkBytes | src/read.rs:170-277 | for any bytes whatever: every living registration has exactly the payload of its epoch, is mapped exactly until the next empty frame for its address, and registrations of one address have ascending epochs |
| Pairings.MatchBytes | src/read.rs:253-271 | reading any part of the wire keeps the pairing of writers and registrations: an empty header that is read as an opening is one, and one that is read as a close opens nothing |
| Network.NetInvKept | src/write.rs:148-403 | every step of writers and of the reading end, opening closed addresses again included, keeps the end-to-end invariant |
| Network.CallsAreRuns | src/write.rs:187-353 | a quiet run of one writer's actions, hence a call that does not fail, is a run of the network in which nothing else moves |
| Network.PollsAreRuns | src/read.rs:296-301 | a call of poll whose TCP reader yields the wire is a run of fetches |
| Network.ReadsAreRuns | src/read.rs:334-367 | a read of a connection is a run of the network |
| Network.AcceptsAreRuns | src/lib.rs:195-206 | an accept is a run of the network |
| Network.Conservation | src/read.rs:170-302 | over every orderly run, addresses reused: bytes accepted = bytes read, then buffered, then in flight, then unsent, for every connection whose reader lives |
| Network.EndsMeet | src/read.rs:253-271 | over every orderly run a registration has exactly one writer, which dialled exactly if a header made the registration, unless it was made locally and is the one of the current epoch that waits for its answer; a writer has exactly one registration, one that dialled once its opening was read by a listening peer |
| Network.EndOfStreamIsComplete | src/read.rs:334-367 | over every orderly run, a reader that reports the end of the stream has a writer that has sent its close, and has handed out all that writer accepted except a packet given up by a drop without shutdown; all of it if the writer was shut down, dropped afterwards or not |
| Network.ReopensExactly | src/read.rs:253-271 | in every reachable state an opening header for an address registers a new connection at a listening peer if and only if every writer that has opened it has sent its close and no answer is due; otherwise the header closes the old connection |
| Duplexes.AcceptedCanBeAnswered | src/lib.rs:195-206 | in every reachable state the next connection to be accepted was opened by the peer, which has registered its address and waits for the answer |
| Duplexes.ConnectIsFresh | src/lib.rs:151-156 | in every reachable state an address that is not registered here and not in use in either direction can be opened, also again: everything sent for it before has been read |
| Duplexes.TurnKept | src/lib.rs:151-206 | every move of either end keeps both directions' invariants and what each assumes of the other |
| Duplexes.DuplexConservation | src/lib.rs:151-206 | conservation in both directions, over every run in which two ends open, accept, write, shut down, drop, read and open addresses again |
| Duplexes.DuplexComplete | src/lib.rs:151-206 | complete delivery at the end of a stream, in both directions, over every such run; after a shutdown everything, also if the connection was dropped then |
| Duplexes.DuplexEndsMeet | src/lib.rs:151-206 | writers and registrations find each other in both directions, over every such run |
| Duplexes.HalvesBelongTogether | src/lib.rs:151-206 | over every such run, for a connection made by add_connection at one end and one made by accept at the other: the first writes to the second if and only if the second writes to the first; and every accepted connection has such a partner |
| Duplexes.RunsAreTurns | src/lib.rs:151-206 | a run of one direction, such as a call is, is a run of the pair |
| Arrivals.WireCanBeTaken | src/read.rs:296-301 | from every state the rest of the wire can be taken unless a full buffer or a full channel holds it up, and no reader is lost over it |
| Arrivals.AcceptedCanArrive | src/write.rs:148-272 | from every state in which a writer writes and its reader lives there is a continuation after which the reader has got or buffered all that was accepted, unless a full buffer or channel holds up the stream |
| Reopenings.TooSoonHappens | src/read.rs:122-125 | a run of two ends after which add_connection allows an address whose first writer is still alive, and the second opening would close the first connection at the peer and open none |
| Reopenings.ReopeningHappens | src/read.rs:122-125 | a run in which an address is opened, closed and free to be opened again |

## Left out

- Wakers, task budgets, the global runtime thread and fairness across tasks: Pending means "may be called again"; proved are safety, termination of single calls, and that the next step towards the end is always possible (`Progress`, `WriteOutcomes`, `ReadOutcomes`, `Arrivals`), not that it is taken. The partial header at src/read.rs:246-249 returns Pending without a waker and is covered in that sense.
- Allocation failure, raw memory, `MaybeUninit`, panic poisoning and `replace_with` aborts: memory is arrays and sequences, state replacement is atomic.
- src/thin_addr.rs: an address is an opaque 18-byte value with equality.
- The ordering of `NetworkOrderU16`, whose `partial_cmp` compares `other` with itself (src/integers.rs:38-40): nothing in the multiplexer orders lengths.
- A TCP writer whose own flush is not immediately ready: after a drain, src/write.rs:267-271 would leave a stale count over an emptied packet.
- Cancelling a handshake while it waits or writes.
- The future of a dropped connection as a method: it is phases of `Connections`, whose atomic actions may interleave with those of all other connections between any two awaits.
- Preemption of one connection's call by another: `WritePolls` runs a call with the lock and wire to itself while the call lasts; interleaving is between the atomic actions of `Writers` and `Network`.
- `ReadBuffer` objects inside the shared reader: an entry holds the buffer's value (`View`), and the `Arc`/`Weak` pair of an entry is a registration number with a liveness flag, so aliasing is not modelled.
- Growth of `initialized` beyond `filled` by the source of a read.
- The inside of the flume channel: it is a bounded queue, a blocked send enters it at the next poll of the shared reader, and dropping the listener lets waiting readers be dropped at any time. `MuxPipe::new` is the case in which the listener leaves at once.
- Two ends opening one address at once, and opening an address whose earlier writer can still speak: `Network` and `Duplexes` cover addresses opened again after their close, by either end; what happens otherwise to the opening is `Network.ReopensExactly`.
- Network.Conservation: covers runs without torn frames, since a torn frame misaligns every later frame (`Writers.AlignedExactly`), and with addresses opened when their earlier connections have closed, since an earlier opening is read as a close (`Network.ReopensExactly`).
- Network.EndOfStreamIsComplete: the same runs.
- Writers.ZeroOnlyOpensAndCloses: the same runs.
- Read errors are not remembered: as in the source, an I/O error of the TCP reader leaves the state as it is, and the next poll tries again.
