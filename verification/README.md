# Sponge TCP: a verified model

Sponge is a user-space TCP stack: a byte stream, a reassembler, a sender with a retransmission
timer, a receiver, a connection that joins them, and the codec that puts segments into IPv4
datagrams. This project models that code in Dafny and proves what it guarantees.

Each stateful component is modelled twice. A value (a datatype with step functions) carries the
theorems; a class with the program's own fields, loops and in-place updates is proved to take
exactly those steps. Theorems about whole runs are inductions over the steps of two complete
endpoints joined by a network that may lose, duplicate, delay and reorder every segment ever sent.

| layer | values and theorems | classes |
|---|---|---|
| sequence numbers | WrappingIntegers | |
| byte stream | ByteStreams | ByteStreams |
| reassembler | Reassembly, ReassemblyRuns, FreeIntervals | StreamReassemblers |
| sender, timer | Senders, SenderInvariants, Filling, Saturation, Timing | TcpSenders |
| receiver | Receivers, Directions | TcpReceivers |
| connection | Connections, Endpoints, Lingering, TcpStates | TcpConnections |
| two endpoints and a network | Network, Handshake, Laws, Arrivals, Outgoing, FlowControl, Copies, Cuts, Endings, Recovery, Completion, Truncation, Examples | |
| wire format | Checksums, NetParsers, TcpCodec, Ipv4Codec, TcpOverIp | Checksums, NetParsers, TcpOverIp |

The main results, over every run of two endpoints unless said otherwise:

- **Delivery.** What an endpoint delivers is a prefix of what its peer wrote; an acknowledged FIN
  means the peer has all of it; a clean shutdown means that the own stream was delivered in full and
  that the end of the peer's stream was received.
- **Lost bytes.** At most one byte of each direction is ever lost, that is, sent, not delivered and
  never sent again; exactly when is stated on the two endpoints' counters. It takes a FIN without
  payload that arrives before the byte in front of it. The receiver lacks a check against that; which
  arrivals make it know the end too early is characterised exactly, and without them no byte is lost
  and a clean shutdown means that the peer's stream was received in full too.
- **Delivery stays possible.** As long as neither endpoint has been reset and the peer has a buffer,
  some continuation in which nothing more is written delivers the whole stream and has its end
  acknowledged, if and only if the peer has not already ended the stream short; and both endpoints can
  get both streams through and shut down cleanly if and only if neither has done so. A peer that knows
  the end too early but has not ended can be mended.
- **It can also go wrong.** From exactly the states in which the peer knows the end without the last
  byte, some continuation that delivers no further such FIN ends the stream short. A sender cuts its
  stream once and for all, so the segments still in flight are enough for it. A run is given in which
  a byte is lost and the peer that never got it shuts down cleanly.
- **Progress.** A retransmission that arrives and is answered moves the sender on, unless its stream
  has ended short and it has the last acknowledgment; then it never moves on again.
- **Flow control.** The advertised edge never retreats, and a sender stays within one position of it
  unless an outdated acknowledgment arrives whose window ends further out. The program takes such a
  window: exactly after these arrivals the next write can overrun the peer, and a run that overruns a
  full receiver is given.
- **What arrives and what is sent.** Exactly what an endpoint takes of an arriving segment's text and
  acknowledgment, exactly which segments it answers, and exactly what resets it; what it sends is what
  it newly puts in flight, in order, with its receiver's newest acknowledgment and window. Whenever it
  is written to or something is newly acknowledged it goes on until its window is used up or nothing
  is left to send; a mere update of its window makes it send nothing.
- **Timing.** An endpoint sends again exactly when the timeout has passed since the timer was last
  armed; exponential backoff without overflow; a reset no earlier than 511 initial timeouts. It shuts
  down cleanly exactly when both streams are through and it need not linger, or ten timeouts have
  passed since a segment last arrived.
- **States.** Every endpoint is in one of the official states, except in exactly one situation that
  the table does not know; a run that reaches it is given.
- **Representation.** The reassembler's list, map and interval set always agree with one set of
  accepted indices, whatever the order, overlap or repetition of what is pushed.
- **Wire.** Parsing undoes serializing for exactly the headers that fit; what the parsers accept is
  characterised exactly; a segment that crosses the wire does to the peer what the segment itself does.

Where code and comments differ the model follows the code: the reassembler keeps no position of the
end of the stream (libsponge/stream_reassembler.cc:50-57); a stream accepts writes after its end
(libsponge/byte_stream.cc:25-31); the window of a stale acknowledgment is taken before its age is
looked at (libsponge/tcp_sender.cc:101-103); the parsers of segments and datagrams ignore what their
header parsers report (libsponge/tcp_helpers/tcp_segment.cc:20,
libsponge/tcp_helpers/ipv4_datagram.cc:13); the capacity of the reassembler bounds distinct bytes
only (libsponge/stream_reassembler.cc:74-86).

`dafny verify dfyconfig.toml` checks the whole project.

## Model

| member | source | states |
|---|---|---|
| `WrappingIntegers.UnwrapWraps` | libsponge/wrapping_integers.cc:31-39 | the result of unwrap always wraps back to the given number |
| `WrappingIntegers.UnwrapNearestIff` | libsponge/wrapping_integers.cc:31-39 | unwrap returns the 64-bit value nearest the checkpoint, ties going up, if and only if the upward step does not overflow 64 bits or would not be taken |
| `WrappingIntegers.UnwrapWrap` | libsponge/wrapping_integers.cc:16-39 | unwrap undoes wrap for every value less than 2^31 below and at most 2^31 above the checkpoint |
| `ByteStreams.ByteStream.Write` | libsponge/byte_stream.cc:20-31 | appends to the history as much as the capacity admits, and reports how much |
| `ByteStreams.ByteStream.PeekOutput` | libsponge/byte_stream.cc:34-51 | the loop over chunks, empty ones included, copies exactly the next bytes of the history |
| `ByteStreams.ByteStream.PopOutput` | libsponge/byte_stream.cc:54-68 | the loop over chunks drops exactly the next bytes, and the chunks stay what is written and unread |
| `ByteStreams.ByteStream.Read` | libsponge/byte_stream.cc:73-79 | copying and popping agree: what is returned is what is consumed |
| `ByteStreams.BoundedFifo` | libsponge/byte_stream.cc:20-79 | in any mix of writes and reads the bytes come out in the order they went in, no more than the capacity is held, a write takes what there is room for and a read gives what is held |
| `FreeIntervals.CarveComplements` | libsponge/stream_reassembler.cc:18-38 | cutting a range out of disjoint free intervals leaves disjoint intervals that cover exactly what is still not accepted |
| `FreeIntervals.WalkDone` | libsponge/stream_reassembler.cc:63-72 | erasing and inserting what the walk has noted is the same as cutting the range out of the whole set |
| `StreamReassemblers.StreamReassembler.RemoveSegment` | libsponge/stream_reassembler.cc:18-38 | notes one interval for replacement exactly when the range meets it, and counts the indices taken from it |
| `StreamReassemblers.StreamReassembler.WalkIntervals` | libsponge/stream_reassembler.cc:59-70 | the walk between the two bounds misses no interval that the range meets, and the count is the number of new indices |
| `StreamReassemblers.StreamReassembler.ClaimRange` | libsponge/stream_reassembler.cc:59-72 | afterwards the intervals are the complement of the accepted set with the range added, and the stored count is its size |
| `StreamReassemblers.StreamReassembler.StoreSubstring` | libsponge/stream_reassembler.cc:74-86 | list and map stay in step, the list stays sorted, and at an index already present the longer string stays |
| `StreamReassemblers.StreamReassembler.Assemble` | libsponge/stream_reassembler.cc:87-96 | moves exactly the strings that have become contiguous, keeping list, map, intervals and counters in agreement |
| `StreamReassemblers.StreamReassembler.PushSubstring` | libsponge/stream_reassembler.cc:46-98 | the whole representation keeps its invariant, and its meaning changes as the pure push says |
| `StreamReassemblers.StreamReassembler.UnassembledBytes` | libsponge/stream_reassembler.cc:100-100 | is the number of distinct accepted indices beyond the assembled prefix |
| `StreamReassemblers.StreamReassembler.ReadOutput` | libsponge/byte_stream.cc:73-79 | the application's read keeps the representation invariant |
| `Reassembly.DrainOneKeeps` | libsponge/stream_reassembler.cc:87-96 | writing a contiguous string to the output never truncates it |
| `Reassembly.PushKeeps` | libsponge/stream_reassembler.cc:46-98 | every push keeps the invariant and adds to the accepted set exactly its indices below capacity plus bytes read |
| `Reassembly.AssembledIsLeastMissing` | libsponge/stream_reassembler.cc:87-104 | assembled is the least index not accepted, unassembled counts the accepted ones beyond it, and unassembled plus buffered is at most the capacity |
| `ReassemblyRuns.PushConsistent` | libsponge/stream_reassembler.cc:46-98 | pushing an excerpt of a stream keeps output and pending strings excerpts of that stream |
| `ReassemblyRuns.RunAccepts` | libsponge/stream_reassembler.cc:46-98 | after any mix of arbitrary pushes and reads the invariant holds and accepted are exactly the indices that some push carried while they were below the limit |
| `ReassemblyRuns.RunDelivers` | libsponge/stream_reassembler.cc:46-98 | after any mix of pushes of excerpts and reads the output is a prefix of the stream |
| `ReassemblyRuns.OrderDoesNotMatter` | libsponge/stream_reassembler.cc:46-98 | two runs that push the same excerpts in any order and any number of times have the same output and the same unassembled count, and without premature pushes have ended alike |
| `ReassemblyRuns.SafeEmptyIff` | libsponge/stream_reassembler.cc:104-104 | while the end is known only together with the last byte, empty holds exactly when the whole stream is out |
| `ReassemblyRuns.PushSafeIff` | libsponge/stream_reassembler.cc:48-57 | among honest pushes exactly the empty last string taken before the byte in front of it breaks that condition |
| `ReassemblyRuns.UnsafeEndsEarly` | libsponge/stream_reassembler.cc:54-57 | from every state in which it is broken one honest push ends the output before the stream ends |
| `ReassemblyRuns.RunEndsExactly` | libsponge/stream_reassembler.cc:46-98 | in runs without such pushes the output has ended exactly when the end is known and the whole stream is out |
| `ReassemblyRuns.PrematureEndExample` | libsponge/stream_reassembler.cc:50-57 | a run that ends the output at zero of five bytes |
| `TcpSenders.RetransmissionTimer.TimeExpired` | libsponge/tcp_sender.hh:39-43 | the timer object takes the step of the pure timer |
| `TcpSenders.TCPSender.PopOutstandingSegment` | libsponge/tcp_sender.cc:26-34 | the loop drops exactly the acknowledged segments at the front |
| `TcpSenders.TCPSender.BuildSegment` | libsponge/tcp_sender.cc:56-82 | the segment built is the next flight, and the stream and the flags change accordingly |
| `TcpSenders.TCPSender.SendNext` | libsponge/tcp_sender.cc:56-92 | one round of the loop queues and records that flight and starts a stopped timer |
| `TcpSenders.TCPSender.FillWindow` | libsponge/tcp_sender.cc:38-94 | the loop terminates in the state of the pure fill_window |
| `TcpSenders.TCPSender.AckReceived` | libsponge/tcp_sender.cc:98-112 | new state and result for stale, implausible and new acknowledgments |
| `TcpSenders.TCPSender.Retransmit` | libsponge/tcp_sender.cc:119-125 | backoff and count in 32-bit arithmetic, and the oldest segment queued again unless there were too many |
| `TcpSenders.TCPSender.Tick` | libsponge/tcp_sender.cc:115-127 | timer and retransmission as the pure tick says, with the 32-bit truncation of the time |
| `TcpSenders.TCPSender.SendEmptySegment` | libsponge/tcp_sender.cc:131-136 | queues an empty segment that carries the next sequence number |
| `SenderInvariants.FillWindowKeeps` | libsponge/tcp_sender.cc:38-94 | fill_window keeps the tiling of flights, never passes ackno plus the window (at least one), stops only when the window is used up or nothing is left, and leaves no stall |
| `SenderInvariants.AckReceivedKeeps` | libsponge/tcp_sender.cc:98-112 | an acknowledgment keeps flights contiguous up to the next number, their payloads slices of the stream, the count of bytes in flight exact, and the timer armed exactly while something is in flight |
| `SenderInvariants.TickKeeps` | libsponge/tcp_sender.cc:115-127 | a tick keeps the same, and queues nothing but segments of the stream |
| `Filling.FillWindowSends` | libsponge/tcp_sender.cc:51-94 | what fill_window queues is the next part of the stream cut into non-empty segments of at most 1452 bytes end to end, all but the last full, the SYN first, the FIN once and last and only when everything is sent, with the last of the text if that goes now |
| `Saturation.AckSates` | libsponge/tcp_sender.cc:98-112 | after an acknowledgment of something new the window that came with it is used up or nothing is left to send; an acknowledgment makes a sender send exactly if it is new, its window reaches past what was sent, and a byte or the FIN is left |
| `Saturation.Saturates` | libsponge/tcp_connection.cc:91-158 | in every run, whenever an endpoint was written to, had its stream ended, took a new acknowledgment or sent anything new, its window is used up or nothing is left |
| `Saturation.OpensIff` | libsponge/tcp_connection.cc:91-158 | in every run a closed endpoint sends its SYN exactly when it is told to connect, is written to, has its stream ended or gets a SYN |
| `Saturation.Writes` | libsponge/tcp_connection.cc:128-151 | a write appends to what was written as much as the buffer has room for, and nothing else changes it |
| `Saturation.Reads` | libsponge/byte_stream.cc:54-79 | reading takes from the inbound stream as much as there is, and nothing else takes from it |
| `Saturation.BuffersBounded` | libsponge/tcp_connection.hh:13-16 | in every run of an endpoint, whatever it receives, unsent bytes are at most the sending capacity it was made with, and unread bytes at most the receiving capacity |
| `TcpReceivers.TCPReceiver.SegmentReceived` | libsponge/tcp_receiver.cc:13-42 | new state and result of the receiver object |
| `TcpReceivers.TCPReceiver.Ackno` | libsponge/tcp_receiver.cc:44-51 | the wrapped number of the first position not received, none before a SYN |
| `TcpReceivers.TCPReceiver.WindowSize` | libsponge/tcp_receiver.cc:53-56 | the window is the free capacity and never negative |
| `Directions.PositionExact` | libsponge/tcp_receiver.cc:28-29 | for every segment of the peer the guessed position and stream index are the true ones |
| `Directions.AcknoSent` | libsponge/tcp_receiver.cc:49-51 | a receiver never acknowledges what was not sent |
| `Directions.ReceiveFollows` | libsponge/tcp_receiver.cc:13-42 | receiving any segment of the peer keeps the receiver's content part of the peer's stream, and takes nothing back |
| `Directions.ReceiveTakes` | libsponge/tcp_receiver.cc:13-42 | of a segment of the peer a receiver takes exactly the bytes before the end of its buffer, and the end of the stream if it lies there too; nothing of a second SYN, before the SYN, or after the end |
| `Arrivals.VerdictIff` | libsponge/tcp_receiver.cc:13-42 | a receiver reports a segment of the peer as acceptable exactly if it is the first SYN, or lies behind the SYN and touches the window (bare segments at a zero window let through), or, after the end of the stream, carries no FIN |
| `Directions.EdgeNeverRetreats` | libsponge/tcp_receiver.cc:49-56 | the advertised right edge of a later state is not left of the earlier one |
| `Directions.AckExact` | libsponge/tcp_sender.cc:100-101 | a sender reads every acknowledgment of its peer as the number the peer meant |
| `TcpConnections.TCPConnection.SetSegment` | libsponge/tcp_connection.cc:68-79 | acknowledgment, window capped at 65535 or reset flag of an outgoing segment |
| `TcpConnections.TCPConnection.CollectOutput` | libsponge/tcp_connection.cc:21-29 | the loop moves every queued segment, in order and stamped, and empties the sender's queue |
| `TcpConnections.TCPConnection.UnclearShutdown` | libsponge/tcp_connection.cc:31-35 | marks both streams and the connection, keeping the reassembler's invariant |
| `TcpConnections.TCPConnection.TestEnd` | libsponge/tcp_connection.cc:53-66 | giving up, lingering and clean shutdown as the pure step decides them |
| `TcpConnections.TCPConnection.SegmentReceiveRoute` | libsponge/tcp_connection.cc:91-113 | each of the branches changes receiver, sender and queue as the pure route says |
| `TcpConnections.TCPConnection.SegmentReceived` | libsponge/tcp_connection.cc:115-122 | the whole new state of the connection |
| `TcpConnections.TCPConnection.Write` | libsponge/tcp_connection.cc:128-135 | the whole new state, and how many bytes were taken |
| `TcpConnections.TCPConnection.Tick` | libsponge/tcp_connection.cc:138-144 | the whole new state |
| `TcpConnections.TCPConnection.EndInputStream` | libsponge/tcp_connection.cc:146-151 | the whole new state |
| `TcpConnections.TCPConnection.Connect` | libsponge/tcp_connection.cc:153-158 | the whole new state; nothing happens unless listening |
| `Connections.RouteCases` | libsponge/tcp_connection.cc:91-113 | the only things an arriving segment can do to the sender |
| `Connections.FinishFrame` | libsponge/tcp_connection.cc:53-66 | collecting and testing for the end empties the queue, resets exactly after too many retransmissions, and leaves the rest of sender and receiver alone |
| `Network.ActFlags` | libsponge/tcp_connection.cc:53-66 | in every state: flags are never taken back, lingering ends only on a passive close, and a clean shutdown needs both streams finished and a passive close or ten timeouts of silence |
| `Network.FinAckedIff` | libsponge/tcp_sender.hh:182-186 | a sender is FIN_ACKED exactly when its FIN is out and its last position is acknowledged |
| `Network.StepKeeps` | libsponge/tcp_connection.cc:91-158 | every operation of an endpoint keeps the joint invariant of the pair, whatever the network delivers |
| `Laws.RunKeeps` | libsponge/tcp_connection.cc:91-158 | the joint invariant holds after every run |
| `Laws.RunSwap` | libsponge/tcp_connection.cc:91-158 | the endpoints are interchangeable: seen from the other side a run is a run, with the same guards, so what is said of one endpoint holds of the other |
| `Laws.PrefixDelivery` | libsponge/tcp_receiver.cc:27-41 | in every run what is delivered is a prefix of what was written, in both directions |
| `Laws.FinAckedMeansDelivered` | libsponge/tcp_sender.hh:182-186 | in every run a sender whose FIN is acknowledged has a peer that ended its stream and delivered exactly what was written |
| `Laws.AtMostOneStopsLingering` | libsponge/tcp_connection.cc:58-59 | in every run at most one endpoint has given up lingering |
| `Laws.ReceiveSafeIff` | libsponge/tcp_receiver.cc:25-41 | among segments of the peer exactly a FIN without payload taken before the byte in front of it makes the receiver know the end too early |
| `Laws.LostIff` | libsponge/tcp_sender.cc:26-112 | in every run a sent byte is neither delivered nor in flight if and only if it is the first one the peer lacks, the peer has ended, and the sender has dropped everything up to one position past it |
| `Laws.AtMostOneLost` | libsponge/tcp_sender.cc:26-112 | in every run at most one byte of a direction is lost |
| `Laws.NoByteLost` | libsponge/tcp_sender.cc:26-94 | in every run in which no FIN without payload is taken before the byte in front of it each written byte is delivered, in flight or still unsent |
| `Laws.CleanShutdown` | libsponge/tcp_connection.cc:61-65 | in every run a clean shutdown implies the end received and the own stream delivered in full, and, if no FIN without payload was taken before the byte in front of it, the peer's stream received in full |
| `Laws.NeverStalls` | libsponge/tcp_sender.cc:38-112 | in every run the timer runs exactly while something is in flight, flights tile the unacknowledged range, and a sender with anything left to send has something in flight |
| `Arrivals.AnsweredIff` | libsponge/tcp_connection.cc:91-122 | in every run an endpoint that is not reset answers an arriving segment exactly if it is a SYN while it waits for one, takes up sequence numbers, is bare and lies outside the window of a receiver that still receives, or acknowledges something new and lets it send more; and it is reset exactly by a reset after its own SYN |
| `Arrivals.TextTakenIff` | libsponge/tcp_receiver.cc:13-42 | in every run exactly which bytes, and whether the end of the stream, an endpoint takes of an arriving segment |
| `Arrivals.AckTakenIff` | libsponge/tcp_sender.cc:98-112 | in every run an arriving acknowledgment moves the acknowledged position to the number meant if that is further on, and its window is taken even if not; before the peer's SYN is heard and in resets it is not looked at |
| `Arrivals.UnsentAckAnswered` | libsponge/tcp_connection.cc:105-111 | in every state an acknowledgment of something never sent changes nothing at the sender and is answered with one empty segment |
| `Outgoing.CarriesNewest` | libsponge/tcp_connection.cc:68-79 | in every run each segment handed to the network carries, once the peer's SYN is heard, the first position its receiver lacks at that moment and the room that unread bytes leave in the buffer, at most 65535; and it is a reset exactly if the endpoint has been reset |
| `Outgoing.SendsInOrder` | libsponge/tcp_connection.cc:21-29 | in every run what an operation other than a tick hands to the network is exactly what it newly puts in flight, in order, or, if that is nothing, at most one empty segment with the next sequence number |
| `FlowControl.AdvertisedEdgeGrows` | libsponge/tcp_connection.cc:71-78 | in every run the advertised right edge never retreats |
| `FlowControl.AckWithinIff` | libsponge/tcp_sender.cc:98-112 | taking an acknowledgment keeps a sender, and the edge it knows, within one position of the advertised edge if and only if it is not outdated or its window ends there |
| `FlowControl.MayOverrunIff` | libsponge/tcp_connection.cc:128-135 | a sender with room in its stream can pass the edge by more than one position with its next write exactly when it, or the edge it knows, is not within one position |
| `FlowControl.HarmfulArrivalIff` | libsponge/tcp_sender.cc:98-112 | among the acknowledgments that can arrive at an endpoint within one position of the advertised edge, the opening one included, exactly the outdated ones without a reset whose window ends more than one position beyond the edge let the next write overrun the peer, given room in the stream |
| `FlowControl.StaysWithinWindow` | libsponge/tcp_sender.cc:38-43 | in every run without harmful acknowledgments no sender is more than one position beyond the edge its peer has advertised |
| `Timing.BackoffIsExponential` | libsponge/tcp_sender.cc:104-125 | in every run of an endpoint, whatever it receives, the timeout is the initial one doubled once per retransmission, without overflow, at most eight times while not reset |
| `Timing.RetransmitsOnTime` | libsponge/tcp_sender.hh:39-43 | in every run of an endpoint, whatever it receives, a tick sends one segment exactly if something is in flight and the milliseconds since the timer was last armed, by something coming into flight, a retransmission or a new acknowledgment, reach the initial timeout doubled once per retransmission; it has never waited longer |
| `Timing.GivesUpLate` | libsponge/tcp_connection.cc:53-57 | in every run an endpoint resets itself only in a tick and only after 511 initial timeouts without new acknowledgment since the timer was started |
| `Lingering.ClosesOnTime` | libsponge/tcp_connection.cc:53-66 | in every run of an endpoint, whatever it receives, it lingers unless its inbound stream was ever over before its own was sent in full; it shuts down cleanly exactly when both streams are through and it does not linger or ten timeouts have passed since a segment last arrived, so an arrival makes it wait anew |
| `Handshake.StepHandshaken` | libsponge/tcp_connection.cc:91-122 | every step keeps what the handshake establishes: a SYN travels alone, later segments acknowledge, nothing is acknowledged before the peer's SYN is heard |
| `TcpStates.NamesDiffer` | libsponge/tcp_helpers/tcp_state.cc:17-74 | no two official states share a summary |
| `TcpStates.OfficialStateIff` | libsponge/tcp_helpers/tcp_state.cc:17-110 | in every run an endpoint is in one of the official states if and only if it does not hold a received FIN while its own FIN waits for the window |
| `TcpStates.NameMeans` | libsponge/tcp_helpers/tcp_state.cc:17-74 | in every run an endpoint has the summary of an official name exactly when it has sent, received and had acknowledged what the state diagram means by that name |
| `TcpStates.StatesMoveForward` | libsponge/tcp_helpers/tcp_state.cc:82-110 | in every run no event takes a summary back or makes an inactive endpoint active |
| `Recovery.OldestAdvances` | libsponge/tcp_receiver.cc:27-51 | the oldest segment in flight makes a receiver with room, whose last acknowledgment has arrived and which has not ended the stream short, acknowledge more |
| `Recovery.RetransmissionAdvances` | libsponge/tcp_connection.cc:99-112 | in every run, while neither endpoint has been reset, the peer's SYN has been heard, the peer has room, the tick is not the one that gives up, and the stream has not ended short with its last acknowledgment in, a retransmission that arrives and is answered leads, in three events, to a strictly larger acknowledged position |
| `Copies.RunKept` | libsponge/tcp_sender.cc:86-91 | in every run, until an endpoint is reset, each flight has a copy among the segments sent, none of them a reset, and it has retransmitted at most eight times in a row |
| `Copies.RetransmitsOldest` | libsponge/tcp_sender.cc:115-127 | in every run, until an endpoint is reset, a tick sends one segment exactly when the timer of something in flight goes off: the one that holds the oldest unacknowledged position, or a single empty reset exactly after eight retransmissions into an open window |
| `Cuts.RunCleanCut` | libsponge/tcp_sender.cc:51-127 | in every run each segment with text ever sent lies before, behind or exactly on each segment in flight, and of that one the peer has accepted a first part |
| `Endings.StaysShort` | libsponge/tcp_receiver.cc:25-41 | once a stream has ended short at the peer it stays so in every continuation, and nothing more of it is delivered |
| `Endings.StuckForever` | libsponge/tcp_sender.cc:98-112 | once its last acknowledgment has arrived, too, the sender never moves on again |
| `Endings.LostForever` | libsponge/tcp_sender.cc:26-112 | a byte that is lost stays lost in every continuation |
| `Endings.RunLimited` | libsponge/stream_reassembler.cc:48-57 | in every run a receiver that knows the end of its stream has room up to there |
| `Completion.Mend` | libsponge/stream_reassembler.cc:46-98 | a peer that knows the end of the stream too early but has not ended it short can be given the last byte, and is safe again |
| `Completion.DeliverableIff` | libsponge/tcp_connection.cc:91-158 | in every run, while neither endpoint has been reset and the peer has a buffer, some continuation that writes nothing more delivers everything written and has the FIN acknowledged, whether or not the handshake is over, if and only if the peer has not ended the stream short |
| `Completion.ClosableIff` | libsponge/tcp_connection.cc:53-66 | in every run, while neither endpoint has been reset and both have buffers, some continuation that writes nothing more leaves both cleanly shut down with both streams delivered in full, if and only if neither has ended the other's stream short |
| `Truncation.CanEndShortIff` | libsponge/stream_reassembler.cc:46-104 | in every run, while neither endpoint has been reset, some continuation in which no FIN without payload is taken before the byte in front of it ends the stream short at the peer, if and only if the peer knows its end without having its last byte |
| `Examples.LostByte` | libsponge/tcp_receiver.cc:39-39 | a run in which a FIN overtakes a byte: the byte is neither delivered nor in flight nor unsent, and the peer shuts down cleanly without it |
| `Examples.WindowOverrun` | libsponge/tcp_sender.cc:101-103 | a run in which a stale window makes a sender run past a full receiver |
| `Examples.UnnamedState` | libsponge/tcp_helpers/tcp_state.cc:35-48 | a run that reaches the one state without a name |
| `Checksums.InternetChecksum.Add` | libsponge/util/util.cc:89-98 | the loop adds the bytes with alternating weight modulo 2^32 |
| `Checksums.InternetChecksum.Value` | libsponge/util/util.cc:100-108 | the loop folds the carries and complements |
| `Checksums.AddSplit` | libsponge/util/util.cc:89-98 | cutting the data into pieces does not change the checksum |
| `Checksums.FoldIsModular` | libsponge/util/util.cc:100-108 | folding is reduction modulo 65535, and only zero folds to zero |
| `Checksums.VerifiesIff` | libsponge/util/util.cc:89-108 | every buffer verifies exactly when the 32-bit sum of its 16-bit words is positive and divisible by 65535 |
| `Checksums.StoredChecksumVerifiesIff` | libsponge/util/util.cc:89-108 | storing the checksum of a buffer with a zero field in that field makes the buffer verify exactly when the 32-bit sum does not overflow |
| `Checksums.WordChangeUnnoticedIff` | libsponge/util/util.cc:89-108 | replacing one 16-bit word of a buffer goes unnoticed exactly when all zeros and all ones trade places and the 32-bit sum neither vanishes nor overflows |
| `NetParsers.BigEndianToBytes` | libsponge/util/parser.cc:26-60 | parsing undoes unparsing for every number that fits |
| `NetParsers.ToBytesBigEndian` | libsponge/util/parser.cc:26-60 | unparsing undoes parsing for every sequence of bytes |
| `NetParsers.NetParser.ParseInt` | libsponge/util/parser.cc:26-43 | the loop reads the big-endian number and consumes it; zero and an unchanged buffer once there is an error |
| `NetParsers.NetParser.RemovePrefix` | libsponge/util/parser.cc:45-51 | drops the bytes or records the error |
| `NetParsers.UnparseInt` | libsponge/util/parser.cc:53-60 | the loop appends the big-endian bytes |
| `TcpCodec.ParseTcpHeader` | libsponge/tcp_helpers/tcp_header.cc:17-48 | fields, parser and result after parsing a header |
| `TcpCodec.SerializeTcpHeader` | libsponge/tcp_helpers/tcp_header.cc:51-78 | the bytes of a header, none for one that is too short |
| `TcpCodec.ParseTcpSegment` | libsponge/tcp_helpers/tcp_segment.cc:12-23 | new segment and result; unchanged on a bad checksum |
| `TcpCodec.SerializeTcpSegment` | libsponge/tcp_helpers/tcp_segment.cc:30-45 | the bytes of a segment with a fresh checksum |
| `TcpCodec.ParseHeaderBack` | libsponge/tcp_helpers/tcp_header.cc:17-78 | parsing a serialized header gives it back and leaves what followed |
| `TcpCodec.SerializedVerifiesIff` | libsponge/tcp_helpers/tcp_segment.cc:30-45 | a serialized segment verifies to zero exactly when its 32-bit sum does not overflow |
| `TcpCodec.ShortIsCarryable` | libsponge/tcp_helpers/tcp_segment.cc:30-45 | it does not overflow for anything that fits in an IPv4 datagram |
| `TcpCodec.SegmentRoundTripIff` | libsponge/tcp_helpers/tcp_segment.cc:12-45 | parsing gives back a serialized segment, checksum apart, exactly when its data offset fits in four bits and its sum does not overflow |
| `TcpCodec.SegmentAcceptedIff` | libsponge/tcp_helpers/tcp_segment.cc:12-23 | exactly which buffers are accepted as segments, with which payload, and which errors there are |
| `TcpCodec.HeaderLayout` | libsponge/tcp_helpers/tcp_header.cc:51-78 | a serialized header has every field at its place in the 20 bytes of RFC 793 |
| `TcpCodec.HeaderResultIff` | libsponge/tcp_helpers/tcp_header.cc:17-48 | exactly which fault the header parser reports for which bytes |
| `TcpCodec.ShortHeaderAccepted` | libsponge/tcp_helpers/tcp_segment.cc:19-22 | a buffer whose header is refused as too short while the segment is accepted |
| `Ipv4Codec.ParseIpv4Header` | libsponge/tcp_helpers/ipv4_header.cc:23-75 | fields, parser and result after parsing a header |
| `Ipv4Codec.SerializeIpv4Header` | libsponge/tcp_helpers/ipv4_header.cc:78-110 | the bytes of a header, none for a wrong version or a short header |
| `Ipv4Codec.ParseIpv4Datagram` | libsponge/tcp_helpers/ipv4_datagram.cc:11-21 | new datagram and result |
| `Ipv4Codec.SerializeIpv4Datagram` | libsponge/tcp_helpers/ipv4_datagram.cc:23-41 | the bytes of a datagram with a fresh header checksum, none when the lengths disagree |
| `Ipv4Codec.PseudoIsWordSum` | libsponge/tcp_helpers/ipv4_header.cc:112-131 | the pseudo-header sum is the sum of the 16-bit words of addresses, zero, protocol and payload length |
| `Ipv4Codec.SerializedVerifies` | libsponge/tcp_helpers/ipv4_datagram.cc:28-35 | every serialized header verifies to zero |
| `Ipv4Codec.DatagramRoundTripIff` | libsponge/tcp_helpers/ipv4_datagram.cc:11-41 | parsing gives back a serialized datagram, checksum apart, exactly when header length and fragment offset fit their bits and there are no options or the length field is the length |
| `Ipv4Codec.HeaderAcceptedIff` | libsponge/tcp_helpers/ipv4_header.cc:23-75 | exactly which buffers the header parser accepts |
| `Ipv4Codec.HeaderResultIff` | libsponge/tcp_helpers/ipv4_header.cc:23-75 | exactly which fault the header parser reports for which bytes |
| `Ipv4Codec.HeaderLayout` | libsponge/tcp_helpers/ipv4_header.cc:78-110 | a serialized header has every field at its place in the 20 bytes of RFC 791 |
| `Ipv4Codec.DatagramAcceptedIff` | libsponge/tcp_helpers/ipv4_datagram.cc:11-21 | exactly which buffers the datagram parser accepts, and with which payload |
| `Ipv4Codec.ChecksumIgnored` | libsponge/tcp_helpers/ipv4_datagram.cc:13-20 | the header checksum has no influence on what the datagram parser reports or extracts |
| `TcpOverIp.TCPOverIPv4Adapter.UnwrapTcpInIp` | libsponge/tcp_helpers/tcp_over_ip.cc:26-71 | which segments are let through, and the addresses learnt from the first SYN |
| `TcpOverIp.TCPOverIPv4Adapter.WrapTcpInIp` | libsponge/tcp_helpers/tcp_over_ip.cc:75-90 | ports, addresses, length and payload of the datagram |
| `TcpOverIp.TCPOverIPv4Adapter.Read` | libsponge/tcp_helpers/tuntap_adapter.hh:21-27 | a buffer from the device becomes a segment or nothing |
| `TcpOverIp.TCPOverIPv4Adapter.Write` | libsponge/tcp_helpers/tuntap_adapter.hh:30-30 | the bytes handed to the device |
| `TcpOverIp.WritableIff` | libsponge/tcp_helpers/tcp_over_ip.cc:75-90 | exactly which segments can be put into a datagram |
| `TcpOverIp.DeliveredIff` | libsponge/tcp_helpers/tcp_over_ip.cc:26-90 | what one adapter writes another reads as the same segment if it is the peer and as nothing if it is not |
| `TcpOverIp.ReadIff` | libsponge/tcp_helpers/tcp_over_ip.cc:26-71 | exactly which buffers from the device become which segment: protocol byte 6, addresses and ports at their places in the buffer those of the connection, or a SYN without reset to its port while it listens; everything else is dropped and changes nothing |
| `TcpOverIp.WrittenLayout` | libsponge/tcp_helpers/tcp_over_ip.cc:75-90 | every datagram written has version 4, a header of five words, protocol byte 6, the don't-fragment bit, 128 hops to live, and the addresses at their places |
| `TcpOverIp.WireTransparent` | libsponge/tcp_connection.cc:91-122 | a connection treats a segment that crossed the wire as it treats the segment itself |
| `TcpOverIp.NetworkIsFaithful` | libsponge/tcp_helpers/tcp_over_ip.cc:26-90 | in every reachable state every segment ever sent can be written, is read by the peer and acts there as the network model says |

## Left out

- Sockets, file descriptors, the event loop, threads, TUN devices and address resolution: system calls.
- `Buffer` and `BufferList`: reference counting and sharing; they are sequences of bytes here.
- The destructor of `TCPConnection`, the debugger, and all printing functions.
- The random initial sequence number: it is a parameter, and every result holds for all of them.
- Exceptions: where a serializer throws, the model returns none.
- `TCPHeader`, `TCPSegment`, `IPv4Header` and `IPv4Datagram` are values: their parsers take the old value and return the new one, so updating them in place is not captured.
- Forged segments: in runs of two endpoints only segments that the peer sent are delivered. The results of Timing, `Network.ActFlags` and the class contracts hold for arbitrary segments.
- Streams of 2^31 - 2 bytes or more in runs of two endpoints: 32-bit numbers then become ambiguous.
- Writing after the end of a stream in runs of two endpoints: the program accepts it, its interface forbids it.
- The owner of a connection is taken to send off its outbound queue after each operation, and to go on serving a connection that is no longer active.
- `std::set`, `std::map` and `std::list` are modelled by sets, maps and sequences; list iterators by handles that stay valid while their element lives.
- The loss rates of the lossy adapter: the network of the model may lose anything.
- StreamReassemblers.StreamReassembler.PushSubstring: requires capacity, bytes read and the length of the string to add up to less than 2^64, because the 64-bit additions of the program wrap beyond that.
- TcpReceivers.TCPReceiver.SegmentReceived: has the same requirement on the 64-bit counters, because it calls push_substring, and adds lengths to positions without wrapping at 2^64.
- TcpConnections.TCPConnection.SegmentReceiveRoute: has the same requirement on the 64-bit counters, because it calls push_substring.
- TcpConnections.TCPConnection.SegmentReceived: has the same requirement on the 64-bit counters, because it calls push_substring.
- TcpSenders.TCPSender.FillWindow: counts positions without wrapping at 2^64, because a stream of that length cannot be written.
- Completion.DeliverableIff: shows a continuation, not that every fair schedule finds it, because the program itself gives up after nine losses in a row.
- Completion.ClosableIff: shows a continuation in the same sense.
