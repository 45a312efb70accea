# Verified model of the mieru proxy protocol

mieru carries application streams between a client and a server over TCP or UDP. This project models
the parts of it that are easy to get wrong, and proves what they are for: the retransmission protocol
that makes a session reliable over UDP, the encrypted segment formats of both transports, the key
schedule, the replay cache, the metrics counter with its rolled-up history, the ring buffer, the session
life cycle, and the address and packet framings around them. `dafny verify dfyconfig.toml` checks
everything.

## The retransmission protocol

`Arq` describes two endpoints and a network that loses, duplicates and reorders packets. An event is one
operation that a lock or an atomic variable of the session makes indivisible, so the application's
writer and reader, the output loop and the input loop of each endpoint interleave freely; a packet in
flight is in a set from which it may be used any number of times or never. A run is any list of such
events, each enabled where it happens.

`ArqSafety` proves an invariant of every run, and from it what applications rely on: the bytes that come
out are a prefix of the bytes that went in, in order, none missing, none repeated; every sequence number
is held by the sender until the receiver has put it in order; no segment tree ever refuses an insertion;
a receiver at rest that has delivered what it could has room for the next packet, which in a run whose
receive queue never fills up is always so; windows and transmission counts stay in their ranges.

`ArqProgress` proves that the two sides do not wait for each other: from every reachable state, even after
the network has lost every packet, some run ends with the receiving application having read every byte
that the sending application had queued, and in that run nothing is left to chance (packets carry the
acknowledgement number and window of the moment, retransmissions are made only by passes that find no segment
at the limit, and no congestion window changes by itself). The conditions are states that can be looked up: for
no segment that the receiver misses has it, or one transmitted after it, been transmitted twenty times, and
the receiver is neither trapped (at rest without room for the packet that would wake it) nor starved (at rest
behind a full queue with both windows closed, and nothing on its way or repeatable that would wake it). A
receiver that is up to date is neither. Both states are real: `TrapRun` leads two fresh sessions into each of
them. Nothing leads out of the trap even after the application drains the queue (`TrapIsForever`). Out of
starvation leads only data that flows the other way and tells of an open window: without such data it is
forever (`StarvedIsForever`), and so it is when both directions have starved (`Relief.BothStarvedIsForever`),
but when the other direction works and has such a segment to carry, everything can arrive
(`Relief.StarvationEnds`).

`EndToEnd` puts the pieces together: a buffer of any length, far beyond what the queues hold at once, can be
written by a fresh client and is read as it was written by the application at the other end. Its runs, and
those of `TrapRun`, begin with the exchange of open request and open response (`Handshake`).

`Sessions` holds the code itself: a class whose methods are the loops of the session (write, read,
input, output) over the fields of the session. Each method is proved to be a run of the step system
(`RunFrom`, recorded event by event in the ghost field `run`), so that whatever is proved of all runs
holds of any interleaving of calls at the two ends (`ArqSafety.RunOfOneSideKeepsInv`), and each method
states besides what it does to the fields. `Writing` says which segments a write becomes, how far it gets,
that every one of them is within the limits of its format, and that a write spread over any run, with
whatever other events in between, adds exactly its buffer to the stream; `SessionWire` connects the packets of the
step system with the datagrams of `PacketCodec`: every packet arrives as it was sent.

## The segment formats

`Ciphers` models the block cipher with its two nonce modes over an arbitrary authenticated cipher, of
which it is only assumed that sealing adds a tag of 16 bytes and that opening undoes sealing under the same
key and nonce (`Correct`; a trivial instance shows that the assumption can be met). `Metadata`,
`StreamCodec`, `PacketCodec` and `Padding` are the formats; the main results are round trips: of a whole
connection with any segments, padding, clock drift and fragmentation of the writes, and of every datagram,
field by field. Beside them stand the bytes themselves (`Metadata.MarshalSpells`,
`StreamCodec.ConnectionFormat`, `PacketCodec.DatagramLayout`), what is accepted and nothing else
(`Metadata.UnmarshalExactly`, `PacketCodec.ParsedExactly`), and what becomes of input that is cut off,
forged or late. `ReplayGuard` puts the replay cache in front of both readers.

## Where code and documentation differ

The model follows the code.

- `docs/protocol.md` line 19 allows the clocks of client and server to differ by 4 minutes. Key lists
  made at two moments share a key at every moment if and only if the moments are at most 2 minutes apart
  (`KeySchedule.AgreementDistance`); with caching and the life time of an underlay, a packet finds its key
  in every case if and only if it arrives, by the two clocks, at most 30 seconds after and at most 90
  seconds before it was sent (`KeysAgree`).
- `pkg/protocol/metadata.go` lines 166-168 mean to reject metadata that announces an open payload of more
  than 1024 bytes, but look at the field before it is filled in. The limit holds of what is accepted if and
  only if that old value is above it, and then nothing is accepted (`OpenPayloadLimitNotEnforced`).
- `pkg/protocol/underlay_packet.go` line 543 skips the prefix padding without looking whether the datagram
  has that many bytes. The slice is out of range if and only if genuine metadata announces more than is
  left (`OutOfRangeExactly`), which a data segment cut off before its padding does
  (`CutOffPaddingIsOutOfRange`) and no datagram of a writer does (`WrittenIsInRange`).
- The one-minute check of the timestamp works on 32-bit numbers that wrap around, so it is exact for all
  timestamps but the first and the last (`TimestampCheckExact`).
- A roll-up pass of the counter reads the clock for every entry. If the clock advances in the middle of a
  pass, labels and times of the history can get out of order (`AdvancingClockBreaksOrder`); they stay in
  order if and only if the entries that roll up come first (`OrderKeptIffRolledComeFirst`), which a clock
  that stands still guarantees (`SteadyKeepsOrder`). The disorder harms no query: what
  `Counter.DeltaBetween` promises, including the 7 days of accurate hourly data, holds of every history.
- `Add` of the counter reads the clock before it takes the lock, so increments can be stored in the wrong
  order. How far (`skew`) widens the bounds of a query and nothing else.
- `writeChunk` can report that nothing was written although the first fragments of the chunk are queued,
  if it notices its deadline or a close between two fragments (`Writing.CutShort` says exactly when, and
  `Writing.WriterCanBeCutShort` shows a case).
- The stream reader computes the length of a sealed payload in 16 bits, which is right if and only if the
  payload has at most 65519 bytes (`SealedLengthExact`); the writers stay far below.

## Model

| member | source | states |
|---|---|---|
| ArqSafety.StepKeepsInv | pkg/protocol/session.go:698-1088 | Every event of either endpoint keeps the invariant that ties the trees, counters and history of both endpoints and the packets in flight together. |
| ArqSafety.RunKeepsInv | pkg/protocol/session.go:613-669 | Every run, that is every interleaving of writer, reader, input loop and output loop at both ends, keeps it. |
| ArqSafety.EveryRunDeliversInOrder | pkg/protocol/session.go:960-996 | In every run and both directions, the bytes read, left over and waiting are exactly the bytes of the segments the peer queued up to the receiver's position, hence a prefix of the peer's stream. |
| ArqSafety.EveryRunLosesNothing | pkg/protocol/session.go:941-958 | Every sequence number assigned is still in sendQueue, in hand or in sendBuf, or already in order at the peer; acknowledgements never run ahead of the receiver; the segment it waits for can be retransmitted. |
| ArqSafety.EveryRunBoundsBuffers | pkg/protocol/session.go:960-972 | In every reachable state sendBuf is one contiguous range with a free slot, and a receiver that is up to date has two free slots and accepts any packet on its way. |
| ArqSafety.InputNeverWaits | pkg/protocol/session.go:960-972 | In every run in which recvQueue never fills up, an input loop at rest is up to date, so its wait for room never blocks. |
| ArqSafety.HeldPacketsWereSent | pkg/protocol/session.go:960-996 | Every packet that waits in recvBuf is one that the peer sent. |
| ArqSafety.EveryRunRespectsLimits | pkg/protocol/session.go:724-736 | Congestion windows stay between 16 and 4096 and no segment is transmitted more than 20 times. |
| ArqSafety.EveryInsertSucceeds | pkg/protocol/session.go:782-813 | In every reachable state no tree refuses what an event inserts, and new segments leave the queue only while fewer are in flight than some value that the congestion window of that side has had since a segment last left its queue. |
| ArqSafety.WindowsRecorded | pkg/protocol/session.go:1224-1227 | The windows from which a segment may leave the queue are exactly the values that the congestion window had since the last one left, in every run. |
| ArqSafety.RunKeepsEndpointOk | pkg/protocol/session.go:613-669 | A run of one endpoint alone keeps that endpoint's part of the invariant. |
| ArqSafety.RunOfOneSideKeepsInv | pkg/protocol/session.go:613-669 | Whatever one endpoint does while the other stands still is a run of the system and keeps the invariant of the whole. |
| ArqProgress.EverythingCanArrive | pkg/protocol/session.go:698-1088 | From every state with the invariant in which what is missing is recoverable and the receiver is neither trapped nor starved, some run makes the application read exactly all bytes queued, by steps that the loops take without help from outside; a segment counts as recoverable only if neither it nor one transmitted after it has reached the limit at which a retransmission pass gives up, or if it is on its way or has arrived. |
| ArqProgress.NoRunEndsInDeadlock | pkg/protocol/session.go:698-1088 | The same from every reachable state after the network has lost all packets, so that nothing counts as on its way: retransmission, acknowledgement and window updates alone suffice. |
| ArqProgress.UpToDateIsFree | pkg/protocol/session.go:960-996 | A receiver that is up to date is neither trapped nor starved. |
| ArqProgress.TrapIsForever | pkg/protocol/session.go:960-996 | A receiver at rest without room in recvBuf never changes again in any run, even when the application empties recvQueue. |
| ArqProgress.StarvedIsForever | pkg/protocol/session.go:781-862 | When the network is empty and A has starved, B gets no segment more in any run of both loops, if no segment that B has to send and no packet that A holds tells of an open window. |
| Relief.StarvationEnds | pkg/protocol/session.go:937-996 | When A has starved, but the other direction is recoverable and neither trapped nor starved and has a segment to carry that tells of an open window, some run makes B's application read exactly all bytes queued, even after the network has lost all packets. |
| Relief.BothStarvedIsForever | pkg/protocol/session.go:781-862 | When both directions have starved and nothing held tells of an open window, neither side gets a segment more, whatever waits in the queues. |
| Relief.RunFromNetwork | pkg/protocol/session.go:922-996 | What a receiver has in order or holds after a run it had before, or it was on the network. |
| Handshake.Open | pkg/protocol/session.go:1002-1042 | A run of two fresh sessions puts the open request with any short payload in order at the server and the response in order at the client, and both are acknowledged. |
| Mirror.FlippedRun | pkg/protocol/session.go:698-1088 | A run stays one when the two ends exchange their places, so what is proved of one direction holds of the other. |
| TrapRun.TrapIsReachable | pkg/protocol/session.go:960-996 | A run of two fresh sessions that open, and of which one writes single bytes that the other does not read, ends in the trap: recvQueue fills up, and old packets that arrive again fill recvBuf. |
| TrapRun.StarvationIsReachable | pkg/protocol/session.go:960-996 | Such a run ends in a starvation that is forever once the network has lost what it carries. |
| ArqProgress.NothingPassesTheTrap | pkg/protocol/session.go:960-996 | After that the application gets no byte more than was in order before. |
| ArqProgress.RecoverAll | pkg/protocol/session.go:719-762 | Acknowledgements, and retransmissions by passes that find no segment at the limit, can put every transmitted segment in order without changing what is queued. |
| ArqProgress.OpenWindow | pkg/protocol/session.go:830-860 | Once everything transmitted is in order, acknowledging empties sendBuf and opens the window, if need be after a segment that is on its way or can be repeated has woken the receiver, unless the two have starved. |
| ArqProgress.LossKeepsInv | pkg/protocol/session.go:922-996 | Losing all packets breaks nothing. |
| Arq.LocalRunIsSystemRun | pkg/protocol/session.go:613-669 | A run of one endpoint is a run of the two-endpoint system with exactly the packets it emitted added to the network. |
| Sessions.Session.constructor | pkg/protocol/session.go:164-194 | A new session is the initial endpoint of the step system: everything empty, both windows at 16, in slow start. |
| Sessions.Session.Write | pkg/protocol/session.go:289-360 | A write is a run; the segments it queues are the first of those the buffer becomes (open request, then chunks, then fragments numbered down to 0), and exactly how many; what is reported is the longest part of the buffer, up to the end of a chunk, that fits in whole; what is queued is what is reported if and only if the writer was not cut short. |
| Sessions.Session.WriteChunk | pkg/protocol/session.go:505-611 | Either the whole chunk is queued and reported or nothing is reported; what is queued is what is reported if and only if the writer was not stopped between two fragments; the fragments are the pieces of the chunk numbered down to 0. |
| Sessions.Session.WriteChunks | pkg/protocol/session.go:344-352 | The same for the chunks of a buffer, each cut and numbered on its own. |
| Sessions.Session.QueueFragments | pkg/protocol/session.go:537-583 | The segments queued are the first pieces of the chunk, with descending fragment numbers and the receive window. |
| Sessions.Session.QueueOpen | pkg/protocol/session.go:307-341 | The open request takes the next sequence number and carries a short first write. |
| Sessions.Session.OpenFirst | pkg/protocol/session.go:307-341 | A client has queued its open request before anything else, once, and the bytes it carries are the ones reported. |
| Writing.PayloadsOfFragments | pkg/protocol/session.go:537-583 | Queueing the pieces of a chunk appends their concatenation to the stream. |
| Writing.FirstFragments | pkg/protocol/session.go:537-583 | Queueing the first few pieces appends a prefix of the chunk, which is all of it if and only if no piece is left and nothing if and only if none was taken. |
| Writing.ChunkWithinLimits | pkg/protocol/session.go:537-583 | For every permitted MTU the fragments of a chunk are not empty, fit, and are numbered down to 0 without wrap-around. |
| Writing.WriteWithinLimits | pkg/protocol/session.go:289-360 | Every segment that a write queues keeps the limit of its kind: 1024 bytes for an open request, the fragment size and a number below 28 otherwise. |
| Writing.PatienceSuffices | pkg/protocol/session.go:505-583 | A writer that is not stopped for as many fragments as the buffer has bytes is never cut short. |
| Writing.AcceptedIsLongest | pkg/protocol/session.go:344-352 | What a write reports is the longest part of the buffer, up to the end of a chunk of 32768 bytes, for whose segments there is room and patience. |
| Writing.TakenExactly | pkg/protocol/session.go:505-583 | A write queues all segments of what it reports, and if there is room for the next chunk too, as many of its fragments as patience is left for. |
| Writing.WriterCanBeCutShort | pkg/protocol/session.go:538-552 | A deadline between the two fragments of 2000 bytes leaves one queued and reports none. |
| Writing.RunQueues | pkg/protocol/session.go:505-611 | In every run of an endpoint, whatever its loops do, the log grows by exactly what the run's events queue. |
| Writing.RunThatWrites | pkg/protocol/session.go:505-611 | A run in which the writer gets through a whole buffer of any length, waiting for room as often as it must while everything else goes on, adds exactly the buffer to the stream. |
| Writing.RunThatWritesPart | pkg/protocol/session.go:505-611 | A run in which it is stopped on the way adds a part of the buffer from the front. |
| EndToEnd.AnyBufferGetsThrough | pkg/protocol/session.go:289-360 | For every buffer and permitted MTU, a run of two fresh sessions queues exactly the segments the buffer becomes, the server's application reads exactly the buffer, and the open response is in order at the client. |
| SessionWire.PacketArrives | pkg/protocol/underlay_packet.go:492-711 | A packet of a session whose numbers fit their fields arrives at the peer session as it was sent, through metadata, encryption, padding and parsing, with the session's number, the protocol number of its kind and direction, and every number in its own field. |
| SessionWire.WrittenSegmentTravels | pkg/protocol/session.go:553-575 | Every segment that a write queues, with the window of the moment, has its exact payload length in its metadata, fits its fields as long as sequence numbers do, and its datagram fits the MTU. |
| Sessions.Session.PopAll | pkg/protocol/session.go:238-256 | All waiting payloads move to the unread buffer in the order of their sequence numbers. |
| Sessions.Session.Read | pkg/protocol/session.go:205-286 | A read is a run; it hands out as much as the capacity permits of what is left over from the last read, or if nothing is, of everything in order; the received stream does not change; it waits if and only if no byte has arrived. |
| Sessions.Session.DropAckedSegments | pkg/protocol/session.go:944-957 | Exactly the segments below the acknowledgement leave sendBuf; in slow start the congestion window grows by one for each, and otherwise it follows the curve at the last of them. |
| Sessions.Session.InputAck | pkg/protocol/session.go:1046-1088 | An acknowledgement is a run; sendBuf loses exactly what is acknowledged, the congestion window reacts to each, the one segment asked for is counted, and the peer's window is stored. |
| Sessions.Session.DeliverInOrder | pkg/protocol/session.go:973-996 | recvQueue gains exactly the segments from the receiver's position up to the new one, recvBuf loses these and older ones only, from the front, the peer's window is the one told last, and nothing deliverable is left unless recvQueue is full. |
| Sessions.Session.InputPiggyback | pkg/protocol/session.go:937-958 | The acknowledgement and window in a data packet take effect; an open packet has none. |
| Sessions.Session.InputData | pkg/protocol/session.go:922-1044 | Receiving a segment is a run; recvBuf had room if and only if it is delivered. The acknowledgement and window that it carries take effect in either case. If delivered, exactly the segments that are then next in order move to recvQueue, from the front and as long as recvQueue has room, each of them telling the peer's window; an acknowledgement becomes due; and a server has queued one open response. |
| Sessions.Session.RetransmitPass | pkg/protocol/session.go:719-762 | Exactly the packets that are due early or timed out are sent, in ascending order and with the current acknowledgement number; their counts and nothing else change; loss and timeout are reported if and only if they occurred; the pass is healthy if and only if no segment has reached the limit, and otherwise stops at the first that has. |
| Sessions.Session.SendNew | pkg/protocol/session.go:781-828 | The packets are copies of the first queued segments by sequence number, without gaps, with the current acknowledgement number; exactly these leave sendQueue and enter sendBuf, transmitted once; every one of them was permitted by sendBuf and both windows, and one more is not. |
| Sessions.Session.CurrentSendWindow | pkg/protocol/session.go:1224-1227 | The largest number of further segments that both the congestion window and the peer permit. |
| Sessions.Session.SendAcknowledgement | pkg/protocol/session.go:830-861 | The acknowledgement carries the last sequence number, the receiver's position and the window left. |
| Sessions.Session.RunOutputOnce | pkg/protocol/session.go:698-862 | A turn of the output loop is a run that sends exactly the packets it returns: the segments that are due, each once and in ascending order; then the first queued segments, as many as sendBuf and both windows leave room for and no fewer, which move from sendQueue to sendBuf while everything else stays; then an acknowledgement if and only if one is due. Window and slow start react to a timeout before they react to a loss. If some segment has reached twenty transmissions, exactly what is due before the first such segment is sent. |
| Sessions.OpenWindowSends | pkg/protocol/session.go:781-828 | A turn that finds a queued segment, a free slot and fewer retransmissions than both windows permit sends the segment whose turn it is. |
| Sessions.MinKey | pkg/protocol/segment.go:189-245 | The smallest sequence number in a segment tree. |
| Congestion.Cubic.constructor | pkg/congestion/cubic.go:49-59 | Slow start at the smallest window. |
| Congestion.Cubic.OnAck | pkg/congestion/cubic.go:76-89 | Grows by one up to the maximum in slow start, else follows the curve, with 32-bit wrap-around, within the range. |
| Congestion.Cubic.OnLoss | pkg/congestion/cubic.go:92-103 | Leaves slow start, remembers the window, and reduces it within the range. |
| Congestion.Cubic.OnTimeout | pkg/congestion/cubic.go:106-116 | Back to slow start at the smallest window. |
| Fragmentation.PiecesPartition | pkg/protocol/session.go:518-583 | The pieces of a chunk concatenate to the chunk, there are as many as the fragment count, all but the last are full and none is empty. |
| Fragmentation.FragmentNumberFitsByte | pkg/protocol/segment.go:44-52 | For every MTU from 1280 to 1500 and every chunk there are at most 28 fragments, so the fragment number fits its byte. |
| StreamCodec.StreamRoundTrip | pkg/protocol/underlay_stream.go:326-651 | Any list of segments written on one connection, with any padding, is read back in order, each with its kind, every number and its payload, the minute of writing and the lengths of its padding, with clocks within a minute, and both ciphers end in the same state. |
| StreamCodec.SegmentRoundTrip | pkg/protocol/underlay_stream.go:326-651 | One segment written by a cipher is read back with all its fields by a cipher in lockstep, which stays in lockstep and leaves the bytes that follow. |
| StreamCodec.BodyRoundTrip | pkg/protocol/underlay_stream.go:431-556 | The same for what follows the metadata: padding, payload, padding. |
| StreamCodec.CutOffIsNotRead | pkg/protocol/underlay_stream.go:326-556 | A segment of which any number of last bytes has not arrived is not received but waited for. |
| StreamCodec.WrongTimeIsRefused | pkg/protocol/underlay_stream.go:406-429 | A genuine segment whose time is not about now is a protocol error. |
| StreamCodec.ForgedIsRefused | pkg/protocol/underlay_stream.go:377-403 | Bytes that do not open under the nonce whose turn it is are refused in the place of the metadata and in the place of the payload. |
| StreamCodec.ConnectionNonces | pkg/cipher/cipher.go:99-133 | From the very first message of a connection on, message k is sealed under the base nonce plus k, and the cipher ends at the last of them. |
| StreamCodec.ConnectionFormat | pkg/protocol/underlay_stream.go:558-651 | The bytes of a connection are its first nonce and then, for every segment, the sealed metadata, the first padding, the sealed payload if there is one and the second padding, and message k is sealed under the first nonce plus k. |
| StreamCodec.NoNonceUsedTwice | pkg/cipher/cipher.go:99-133 | No two messages of a connection share a nonce, up to as many messages as there are nonces. |
| StreamCodec.UnderlayNeverRepeatsNonce | pkg/protocol/underlay_stream.go:558-651 | The same of everything that a client or server object has ever written. |
| StreamCodec.SealedLengthExact | pkg/protocol/underlay_stream.go:505-519 | The 16-bit length computation is right if and only if the payload has at most 65519 bytes. |
| StreamCodec.FirstSegmentRoundTrip | pkg/protocol/underlay_stream.go:326-429 | A server that tries its candidates in order reads the client's first segment, if no other key opens the header and it is not a replay; from then on both are in lockstep. |
| StreamCodec.ServerRoundTrip | pkg/protocol/underlay_stream.go:326-651 | A server finds the key with the first segment and reads a whole connection as it was written. |
| StreamCodec.ServerReadsClient | pkg/protocol/underlay_stream.go:326-775 | The same of the client object: the bytes of all its writes, however they were cut, are read as exactly the segments written. |
| StreamCodec.ClientReadsServer | pkg/protocol/underlay_stream.go:326-775 | And of the server object, whose answers a client with its key reads as they were written. |
| StreamCodec.SelectFinds | pkg/protocol/underlay_stream.go:656-727 | The search through the candidates finds the key that opens the header wherever it is in the list, if no other key opens it. |
| StreamCodec.SelectIsFirst | pkg/protocol/underlay_stream.go:656-727 | A cipher is found if and only if some candidate's key opens the header, and it is the first such candidate's. |
| StreamCodec.StreamUnderlay.constructor | pkg/protocol/underlay_stream.go:70-109 | A connection on which nothing was read or written. |
| StreamCodec.StreamUnderlay.MaybeInitSend | pkg/protocol/underlay_stream.go:729-745 | The send cipher is set once, without a nonce; it fails exactly on a server that has received nothing. |
| StreamCodec.StreamUnderlay.WriteWithPossibleFragment | pkg/protocol/underlay_stream.go:749-775 | However the data is cut into writes, they concatenate to the data; it is one write, or pieces within the limits of which only the last may be shorter. |
| StreamCodec.StreamUnderlay.WriteOneSegment | pkg/protocol/underlay_stream.go:558-651 | The bytes on the connection grow by exactly the written form of the segment, the cipher advances accordingly, and they stay the written form of all segments so far. |
| StreamCodec.StreamUnderlay.ReadRest | pkg/protocol/underlay_stream.go:431-556 | Reading piece by piece from the connection computes what the reading function says, errors included. |
| StreamCodec.StreamUnderlay.ReadOneSegment | pkg/protocol/underlay_stream.go:326-429 | The same for a whole segment, including the first one on a server, where the cipher is found by search; a first segment that is a replay is never received, and is reported as one once its header has arrived. |
| ReplayGuard.ReadOneSegment | pkg/protocol/underlay_stream.go:356-387 | A connection whose first bytes were submitted to the replay cache before, within its interval and with fewer calls in between than its capacity, is refused as a replay; on a connection whose key is known the cache changes nothing. |
| ReplayGuard.ReadDatagram | pkg/protocol/underlay_packet.go:360-426 | A server drops a datagram whose header came from another address before, within the same bounds, and parses its repetition if it came from the same address only; a client parses every datagram. |
| Ciphers.BigEndianRoundTrip | pkg/protocol/metadata.go:140-179 | Writing a number big endian and reading it back gives the number. |
| Ciphers.IncreasedAddsOne | pkg/cipher/cipher.go:323-334 | Increasing the nonce byte by byte adds one to the number it stands for, modulo its size. |
| Ciphers.IncreaseNonce | pkg/cipher/cipher.go:323-334 | The loop over the array does so in place. |
| Ciphers.NonceOfValue | pkg/cipher/cipher.go:323-334 | After k messages the nonce is the first one plus k, modulo 256 to the nonce size. |
| Ciphers.NoncesDistinct | pkg/cipher/cipher.go:323-334 | No nonce repeats within 256 to the nonce size messages. |
| Ciphers.MessageKeepsLockstep | pkg/cipher/cipher.go:99-176 | Decrypting what a cipher in lockstep encrypted gives the text back and keeps the lockstep, in both nonce modes. |
| Ciphers.HintMatches | pkg/cipher/cipher.go:336-347 | The last four bytes of a nonce become the first four of the hash of the user name and its first sixteen, and such a nonce is recognised as that user's; without a user nothing changes. |
| Ciphers.BlockCipher.SetImplicitNonceMode | pkg/cipher/cipher.go:219-226 | Turning the mode off forgets the nonce. |
| Ciphers.BlockCipher.Clone | pkg/cipher/cipher.go:194-217 | A clone is a new object with the same state that shares no nonce with the original. |
| Ciphers.BlockCipher.Encrypt | pkg/cipher/cipher.go:99-133 | The new state and the result are those of the encryption function, the nonce being sent only with the first message in implicit mode. |
| Ciphers.ChosenNonceRoundTrip | pkg/cipher/cipher.go:135-192 | What is sealed under a chosen nonce is opened under it by any cipher with the key, and sealing is refused if and only if opening is. |
| Ciphers.BlockCipher.Decrypt | pkg/cipher/cipher.go:147-176 | The new state and the result are those of the decryption function, too short input included. |
| Ciphers.SendCipherFromRecv | pkg/protocol/underlay_stream.go:729-745 | The server's send cipher has the key of the client and a nonce of its own. |
| Metadata.UnmarshalUndoesMarshal | pkg/protocol/metadata.go:140-255 | All metadata of either kind is read back as written, if and only if the timestamp check passes. |
| Metadata.MarshalSpells | pkg/protocol/metadata.go:140-151 | Every field is at its place in the 32 bytes, high byte first, and the bytes without a meaning are zero. |
| Metadata.UnmarshalExactly | pkg/protocol/metadata.go:153-255 | Exactly 32 bytes with a protocol number from 2 to 9 and a timestamp of about now are accepted, as the metadata that they spell. |
| Metadata.UnmarshalWellFormed | pkg/protocol/metadata.go:153-255 | Whatever is read has the kind that its protocol number stands for. |
| Metadata.OpenPayloadLimitNotEnforced | pkg/protocol/metadata.go:153-179 | Everything accepted keeps the open payload limit if and only if the metadata read into announced more before, when nothing is accepted; new metadata accepts every length. |
| Metadata.TimestampCheckExact | pkg/mathext/numbers.go:80-83 | The check accepts exactly the neighbouring minutes, for every clock, if and only if the timestamp is not at an end of the 32-bit range. |
| Metadata.TimestampCheckAtEnds | pkg/mathext/numbers.go:80-83 | At the ends of the range, equal clocks fail the check. |
| Metadata.Mid | pkg/mathext/numbers.go:55-70 | The three swaps compute the median. |
| PacketCodec.DatagramRoundTrip | pkg/protocol/underlay_packet.go:492-711 | Every datagram is parsed to a segment with the kind, every number and the payload of the one it was made from, the minute of writing and the lengths of the padding, for any padding and clocks within a minute. |
| PacketCodec.BodyRoundTrip | pkg/protocol/underlay_packet.go:492-585 | The same for what follows the header. |
| PacketCodec.ParsedExactly | pkg/protocol/underlay_packet.go:492-585 | A datagram is parsed if and only if its metadata opens under its own nonce and is accepted, its length is exactly what the metadata announces, and the payload opens in its place; the segment is what was opened. |
| PacketCodec.DatagramLayout | pkg/protocol/underlay_packet.go:587-711 | Where nonce, sealed metadata, first padding, sealed payload and second padding are in a datagram, and its length. |
| PacketCodec.DatagramFitsMtu | pkg/protocol/padding.go:62-73 | For every permitted MTU, payload and padding within the limits, the datagram fits the MTU. |
| PacketCodec.FullFragmentFillsMtu | pkg/protocol/segment.go:44-52 | A fragment of the largest size without padding makes a datagram of exactly the MTU. |
| PacketCodec.OutOfRangeExactly | pkg/protocol/underlay_packet.go:538-544 | Parsing slices out of range if and only if genuine data metadata announces more prefix padding than is left. |
| PacketCodec.CutOffPaddingIsOutOfRange | pkg/protocol/underlay_packet.go:538-544 | Every data segment with prefix padding whose datagram ends before the padding is such a case. |
| PacketCodec.WrittenIsInRange | pkg/protocol/underlay_packet.go:587-711 | No datagram that a writer made is, whatever the reader's clock. |
| PacketCodec.WriteOneSegment | pkg/protocol/underlay_packet.go:587-711 | The bytes built are the datagram, and the stateless cipher is unchanged. |
| Padding.PaddingFits | pkg/protocol/padding.go:62-73 | Prefix and suffix padding together leave room for payload and overhead. |
| Padding.PaddingIsLargest | pkg/protocol/padding.go:62-73 | The longest padding fills the MTU exactly, unless the 255 bytes it may have do not suffice for that. |
| Padding.ToPrintable | pkg/common/ascii.go:38-64 | Bytes in the range become printable, by clearing the highest bit where that is enough and by random choice otherwise; printable ones stay, and bytes outside the range are untouched. |
| Padding.NewAsciiPadding | pkg/protocol/padding.go:104-124 | The padding has the length chosen and a run of printable bytes of the length asked for, at the place chosen, and is random elsewhere. |
| Padding.CountAfterSet | pkg/protocol/padding.go:125-170 | Setting a bit to a value adds one to its count if and only if it did not have that value. |
| Padding.NewEntropyPadding | pkg/protocol/padding.go:125-170 | The padding has a permitted length; exactly the bits picked have the rarer value, and they are at most as many as wanted. |
| UserSearch.SelectDecrypt | pkg/cipher/api.go:166-176 | The key found is the first that opens the header, to the text returned, and if none is found then none opens it. |
| UserSearch.TryUsers | pkg/protocol/underlay_packet.go:748-772 | A match is genuine and of the first user with a key that opens the header, and if none is found then no user has one. |
| UserSearch.HintedUsers | pkg/protocol/underlay_packet.go:721-727 | Exactly the users whose hint matches. |
| UserSearch.FindUser | pkg/protocol/underlay_packet.go:715-774 | Whoever is found can open the header, and is hinted if some hinted user can; without mandatory hints someone is found if and only if some user can, with mandatory hints if and only if some hinted user can. |
| UserSearch.HonestClientFound | pkg/protocol/underlay_packet.go:715-774 | The header of a registered client with a current key satisfies what the search asks for in either mode. |
| KeySchedule.AgreeIffClose | pkg/cipher/keygen.go:56-73 | Server and client share the client's key if and only if their rounded times are at most one interval apart. |
| KeySchedule.RoundedIsNearest | pkg/cipher/keygen.go:56-73 | The time of a salt is the nearest multiple of two minutes, the later one halfway. |
| KeySchedule.CloseListsAgree | pkg/cipher/keygen.go:56-73 | Lists made at most two minutes apart share the client's key. |
| KeySchedule.AgreementDistance | pkg/cipher/keygen.go:56-73 | Lists at a given distance agree at every moment if and only if the distance is at most two minutes. |
| KeySchedule.CipherCache.GetList | pkg/cipher/cache.go:39-86 | The list in the cache is given as long as it is not older than 30 seconds less the jitter, and a new one otherwise; other passwords are untouched. |
| KeySchedule.KeysAgree | pkg/protocol/underlay_packet.go:103-104 | With caching on both sides and the underlay's life time, keys agree in every case if and only if the arrival is at most 30 seconds after and at most 90 seconds before the sending. |
| Counters.Counter.constructor | pkg/metrics/counter.go:40-51 | An empty history that stands for no increments. |
| Counters.Counter.AddWithTime | pkg/metrics/counter.go:135-158 | The counter and its history stand for one more increment; the history gains one entry, and every thousandth operation leaves it rolled up; how far out of order increments are stored is tracked, and the history stays in order if they are not and no pass's clock advances. |
| Counters.Counter.DoRollUp | pkg/metrics/counter.go:180-228 | One pass keeps what the history stands for, and leaves it in order if and only if the levels it rolls entries to are in order. |
| Counters.Counter.RollUp | pkg/metrics/counter.go:162-178 | The eight passes of every thousandth operation keep what the history stands for; with a clock that stands still, no entry is left that is old enough for a coarser level, and no two neighbours of a rolled-up level have the same time. |
| Counters.PassResults | pkg/metrics/counter.go:180-228 | After a pass every entry is as old as its level demands; with a steady clock it leaves none behind that is old enough for the level passed to, a pass within a level merges all neighbours with the same time, and other levels gain no such neighbours. |
| Counters.OrderKeptIffRolledComeFirst | pkg/metrics/counter.go:193-201 | A pass to the next coarser level keeps order if and only if, among the entries of the level, those rolled up come first. |
| Counters.SteadyKeepsOrder | pkg/metrics/counter.go:193-201 | A clock that stands still during the pass keeps order. |
| Counters.AdvancingClockBreaksOrder | pkg/metrics/counter.go:193-201 | A clock that advances between two entries can break the order of labels and of times. |
| Counters.TimesAreSorted | pkg/metrics/counter.go:91-115 | A history ordered by level is ordered by time, which the binary search needs. |
| Counters.Counter.FirstAfter | pkg/metrics/counter.go:102-109 | Binary search finds a cut of any history, and the end of the entries up to the time if their times are sorted. |
| Counters.SearchIsFilter | pkg/metrics/counter.go:91-115 | Summing up to the index found is summing all entries up to the time. |
| Counters.HistoryAccuracy | pkg/metrics/counter.go:28-34 | What comes before a cut misses nothing up to its time and is less than a day ahead; within the last seven days it is less than an hour ahead, and exact at the end of an hour; increments stored out of order widen this by as much. |
| Counters.CutBounds | pkg/metrics/counter.go:91-115 | In any history, ordered or not, the entries before a cut add up to what was added up to the cut, as exactly as the one entry before the cut tells its time. |
| Counters.QueryIsAccurate | pkg/metrics/counter.go:91-115 | What the sum between two cuts tells about the plain list of increments, cuts in the wrong order included. |
| Counters.QueryIsWithinUnits | pkg/metrics/counter.go:91-115 | For any two times, the answer is what was added between them as exactly as the entries before the two cuts tell their times: exact among entries as added. |
| Counters.QueryIsFilter | pkg/metrics/counter.go:91-115 | Where the times of the history are sorted, the answer is what a filter of the whole history gives. |
| Counters.Counter.DeltaBetween | pkg/metrics/counter.go:91-115 | The answer is the sum of the entries between the two cuts, which is that of a filter of the whole history where its times are sorted, and within the units of the entries before the cuts everywhere; exact between hour ends of the last seven days; up to now never too much, and at most an hour's worth too little. |
| Counters.HourEndSeparates | pkg/metrics/counter.go:193-201 | Truncation to any unit up to an hour moves no time across the end of an hour. |
| Replay.ReplayCache.NewCache | pkg/replay/replay.go:67-83 | An empty cache that expires one interval later. |
| Replay.ReplayCache.IsDuplicate | pkg/replay/replay.go:87-124 | The new generations and the answer are those of the step function; a signature of the current generation is reported, up to an interval after that expires, if and only if a tag is empty or the tags differ; an unknown one is not, and is known from then on; a cache of capacity 0 reports and remembers nothing. |
| Replay.ReplayCache.ClearAll | pkg/replay/replay.go:134-139 | Both generations are emptied. |
| Replay.SizesWithinCapacity | pkg/replay/replay.go:87-124 | After any calls both generations are within capacity. |
| Replay.ReplayDetected | pkg/replay/replay.go:87-124 | From any state, a signature submitted again under the empty tag within the interval, with fewer calls in between than the capacity, is reported. |
| Replay.ReplayReportedExactly | pkg/replay/replay.go:87-124 | A signature submitted under one tag and again under another within the interval and the call bound is reported if and only if one of the tags is empty or they differ, given that it is submitted under no third tag meanwhile. |
| Replay.FirstSenderKeepsPacket | pkg/replay/replay.go:87-124 | While the generation lasts, a replay by another sender is reported and does not make the first sender's own repetition reported. |
| Replay.Forgotten | pkg/replay/replay.go:94-106 | A signature submitted once and not again is not reported more than three intervals later, nor more than two if the cache was not used meanwhile. |
| Replay.CallBoundIsTight | pkg/replay/replay.go:87-124 | For every capacity, with that many calls in between it can go unreported. |
| Replay.TimeBoundIsTight | pkg/replay/replay.go:87-124 | For every capacity from 2 on, one moment after the interval and with one call in between it can go unreported. |
| Replay.FreshNeverReported | pkg/replay/replay.go:87-124 | After any calls, a signature that was never submitted is not reported. |
| Replay.SameTagNeverReported | pkg/replay/replay.go:87-124 | A signature that was only ever submitted under one non-empty tag is not reported under it. |
| Replay.KnownWasSubmitted | pkg/replay/replay.go:87-124 | The cache knows only what was submitted. |
| Deques.MaskIsModulus | pkg/deque/deque.go:370-377 | Masking with a power of two less one is the modulus, for negative numbers too. |
| Deques.Deque.New | pkg/deque/deque.go:37-64 | An empty deque whose capacities are the least powers of two, from 16 on, that are no smaller than asked for. |
| Deques.Deque.Resize | pkg/deque/deque.go:404-416 | Contents are unchanged by moving to a buffer of twice the count. |
| Deques.Deque.GrowIfFull | pkg/deque/deque.go:380-392 | Doubles a full buffer, or makes the first one, without changing the contents. |
| Deques.Deque.ShrinkIfExcess | pkg/deque/deque.go:395-399 | Halves a buffer that is a quarter full and above the smallest capacity, and no other, without changing the contents. |
| Deques.Deque.PushBack | pkg/deque/deque.go:86-93 | Contents gain the element at the end. |
| Deques.Deque.PushFront | pkg/deque/deque.go:96-104 | Contents gain the element at the front. |
| Deques.Deque.PopFront | pkg/deque/deque.go:108-122 | Returns and removes the first element. |
| Deques.Deque.PopBack | pkg/deque/deque.go:126-142 | Returns and removes the last element. |
| Deques.Deque.At | pkg/deque/deque.go:174-179 | The element at a position of the contents. |
| Deques.Deque.Set | pkg/deque/deque.go:185-190 | Replaces the element at a position. |
| Deques.Deque.Clear | pkg/deque/deque.go:198-207 | Empties the deque and clears the slots that were in use. |
| Deques.Deque.Index | pkg/deque/deque.go:262-273 | The first position that satisfies a predicate, or -1 if and only if none does. |
| Deques.Deque.RIndex | pkg/deque/deque.go:277-288 | The last such position. |
| Deques.Deque.Rotate | pkg/deque/deque.go:214-257 | For every number of steps, positive or negative, contents are rotated by it modulo their length, element by element in the direction of the sign or by moving the head of a full buffer. |
| Deques.Deque.Insert | pkg/deque/deque.go:298-320 | The element is inserted at the position, from whichever end is nearer, and all others keep their order. |
| Deques.Deque.Remove | pkg/deque/deque.go:331-352 | The element at the position is returned and removed and all others keep their order. |
| Deques.Deque.SetMinCapacity | pkg/deque/deque.go:361-367 | Sets the smallest capacity without changing the contents. |
| Lifecycle.StepKeepsState | pkg/protocol/session.go:490-503 | No step of any caller moves the session state back. |
| Lifecycle.StepKeepsClose | pkg/protocol/session.go:1155-1221 | Only the caller that set the flag first runs the close body, once. |
| Lifecycle.EveryInterleavingSafe | pkg/protocol/session.go:1155-1221 | In every interleaving of any number of callers, at every point, the state has not moved back, the close body has run at most once and the gauge has dropped as often. |
| Lifecycle.EveryInterleavingSettles | pkg/protocol/session.go:490-503 | When all callers are done the state is the largest asked for, and the close body has run exactly once if any caller closed. |
| Lifecycle.CallerFinishesAlone | pkg/protocol/session.go:490-503 | Wherever a caller stands and whatever the others have done, it finishes within four steps of its own if they pause. |
| Lifecycle.AllCanFinish | pkg/protocol/session.go:490-503 | From every state some schedule finishes all callers. |
| Socks5.AddrRoundTrip | apis/model/addr.go:65-135 | An address in normal form is read back as written and the bytes that follow are left. |
| Socks5.WriteSpells | apis/model/addr.go:105-135 | The bytes written are the type, the address and the port with its high byte first, as section 5 of RFC 1928 has them, with an IPv4 address in IPv6 form as IPv4; only an address with neither an IP address of 4 or 16 bytes nor a name is refused. |
| Socks5.ReadExactly | apis/model/addr.go:65-102 | Exactly the input that begins with such bytes is read, as that address, and what follows is left. |
| Socks5.RoundTripIffNormalForm | apis/model/addr.go:65-135 | An address survives the round trip unchanged if and only if it is in normal form. |
| Socks5.Unambiguous | apis/model/addr.go:65-135 | Two addresses in normal form whose encodings start the same input are equal. |
| Socks5.MessageRoundTrip | apis/model/socks.go:40-142 | Requests and responses, which begin with 5, the code and 0, survive the round trip, and no other version is read. |
| Tunnel.FrameRoundTrip | apis/common/packet_over_stream.go:41-86 | A framed packet is unframed to itself if the buffer is large enough, and leaves the bytes that follow. |
| Tunnel.UnframeExactly | apis/common/packet_over_stream.go:41-70 | A packet is read exactly from input that begins with the marker 0x00, its length with the high byte first, the packet and the marker 0xff, if it fits the buffer. |
| Tunnel.BrokenFrames | apis/common/packet_over_stream.go:41-70 | A frame that is cut off is waited for, and one with a wrong marker is refused. |
| Tunnel.TunnelRoundTrip | apis/common/packet_over_stream.go:41-86 | Any list of packets through one tunnel comes out as that list. |
| Tunnel.PacketOverStream.Write | apis/common/packet_over_stream.go:72-86 | The stream grows by the frame, or by nothing if the packet is longer than 65535 bytes. |
| Tunnel.PacketOverStream.Read | apis/common/packet_over_stream.go:41-70 | The reads from the stream into the buffer compute the unframing function with its kind of error, and the buffer beyond the packet keeps its contents. |

## Left out

- Sockets, DNS, goroutine scheduling, deadlines as times, logging and traffic metrics: they are inputs or not part of the model.
- Closing: the close handshake of `pkg/protocol/session.go` (inputClose, the last output before closing) and everything a session does after a close or an output error, including the rest of the turn after an unhealthy retransmission pass; the life cycle module covers who runs the close body and how often.
- The stream transport's session loops (`runOutputOnceStream`, the stream branch of `inputData`), which pass segments through in order.
- User quota and the refusal of an open request because of it.
- Sequence numbers are unbounded; the wrap-around of the 32-bit field after about four thousand million segments is not modelled.
- Timeliness: no result says when something happens; `ArqProgress` says only that it can.
- ArqProgress.StarvedIsForever: only when no data tells of an open window; `Relief` has the cases in which some does and is still to be sent. Not decided are the cases in which the only such data is held by the starved side and not in order yet, or waits in a direction that is itself trapped or has reached the transmission limit.
- Round-trip times, timeouts and the CUBIC curve are floating-point inputs: which segments have timed out, the value of the curve and the reduced window are arbitrary.
- Error returns after a refused insertion into a segment tree: `ArqSafety.EveryInsertSucceeds` shows that they are not reached.
- Sessions.Session.Write: the methods of the class run one at a time, so a write that would wait for the output loop to make room stops there; writes that wait while the other loops go on are covered as runs of the step system (`Writing.RunThatWrites`, `EndToEnd.AnyBufferGetsThrough`).
- Sessions.Session.WriteChunks: the same.
- Sessions.Session.Read: a call that has to wait returns instead, with `waits` set.
- Sessions.Session.InputData: a call that has to wait for room in recvBuf returns instead, with `delivered` unset.
- Cryptography: the authenticated cipher and the hash are arbitrary functions; opening is only assumed to undo sealing, which adds a tag, and no secrecy or forgery result is stated.
- StreamCodec.FirstSegmentRoundTrip: assumes that no other candidate's key opens the header, which is a property of the cipher.
- Nonce patterns of `pkg/cipher/cipher.go` lines 259-321: the first nonce is arbitrary.
- StreamCodec.StreamUnderlay.WriteOneSegment: the underlay holds its ciphers as values; the in-place cipher object is `Ciphers.BlockCipher`.
- PacketCodec.DatagramRoundTrip: the slice bound `payloadLen+16` is a 16-bit sum in the source; the reader's buffer of 1500 bytes keeps it from wrapping around, and the model adds without wrap-around.
- Padding.NewEntropyPadding: how many bytes and bits are wanted is a floating-point computation and an input here; padding is a list of bits.
- Replay.ReplayCache.IsDuplicate: the clock is read once per call, and the 64-bit signature of the data is an input.
- Counters.Counter.AddWithTime: 64-bit overflow of the sums is not modelled, and clock readings under the lock do not go back.
- UserSearch.FindUser: the iteration over the map of users is any sequence of them.
- The deque's panics on an empty deque or a position out of range are preconditions, and the width of machine integers is not modelled.
- Multiplexing and scheduling of underlays, configuration, the command line tools and the panel.
