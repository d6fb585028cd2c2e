/** Runs of two endpoints that show why the laws have the hypotheses they have. */
module Examples {
  import opened Bytes
  import opened ByteStreams
  import opened Reassembly
  import opened Segments
  import opened Senders
  import opened Receivers
  import opened Directions
  import opened Connections
  import opened Network
  import opened Laws
  import opened TcpStates
  import opened WrappingIntegers

  // ---- The opening handshake ----------------------------------------------------

  const HEADER: TCPHeader := DEFAULT_HEADER

  /** The header of a segment that acknowledges number with window win. */
  function Acking(h: TCPHeader, number: u32, win: u16): TCPHeader {
    h.(ack := true, ackno := number, win := win)
  }

  const SYN: TCPSegment := TCPSegment(HEADER.(seqno := 0, syn := true), [])

  function SynAck(cap: u16): TCPSegment { TCPSegment(Acking(SYN.header, 1, cap), []) }

  /** A sender that has sent its SYN. */
  const OPENING: Sender :=
    Sender(0, 1000, NewStream(10), 1, 1, 0, 0, 1000, [Flight(0, SYN)], Timer(1000, false, false), 1, true, false, [])

  /** A sender whose SYN was acknowledged with window win. */
  function Open(win: u16): Sender {
    Sender(0, 1000, NewStream(10), 1, 0, 0, 1, 1000, [], Timer(0, false, true), win, true, false, [])
  }

  function Start(cap: nat): Connection { NewConnection(1000, cap, 10, 0) }

  function Heard(cap: nat): Receiver { NewReceiver(cap).(isn := Some(0)) }

  lemma Numbers()
    ensures forall k: u32 :: Wrap(k, 0) == k
    ensures Unwrap(1, 0, 0) == 1 && Unwrap(1, 0, 1) == 1 && Unwrap(2, 0, 1) == 2
    ensures Unwrap(3, 0, 1) == 3 && Unwrap(1, 0, 3) == 1 && Unwrap(2, 0, 2) == 2
  {
  }

  /** fill_window in a case where one segment is all that can be sent. */
  lemma SendsOne(s: Sender, room: nat)
    requires s.Valid() && room > 0 && s.Edge() == s.next + room && s.CanSend()
    requires !s.Emit(room).CanSend() || s.NextFlight(room).seg.LengthInSequenceSpace() == room
    ensures s.FillWindow() == s.Emit(room)
  {
    hide Sender.Emit, Sender.CanSend, Sender.NextFlight;
    s.EmitUsesRoom(room);
    var rest := room - s.NextFlight(room).seg.LengthInSequenceSpace();
    assert s.FillLoop(room) == s.Emit(room).FillLoop(rest);
  }

  lemma OpenSender()
    ensures Start(0).sender.FillWindow() == OPENING.(queue := [SYN])
  {
    hide Sender.FillLoop, Sender.FillWindow;
    Numbers();
    var s := NewSender(10, 1000, 0);
    assert s.NextFlight(1) == Flight(0, SYN);
    assert s.Emit(1) == OPENING.(queue := [SYN]);
    SendsOne(s, 1);
  }

  /** A connection in the given state, with out handed to the network. */
  function Conn(cap: nat, r: Receiver, s: Sender, out: seq<TCPSegment>): Connection {
    Start(cap).(receiver := r, sender := s, out := out)
  }

  /** The operation takes me to me' and sends exactly g. */
  ghost predicate Does(me: Connection, op: Op, me': Connection, g: TCPSegment) {
    && me.Valid() && me'.out == [] && Act(me, op) == me'.(out := [g])
    && (op.Write? ==> !me.sender.stream.ended && |me.sender.stream.history| + |op.data| + 2 <= TWO_31)
  }

  ghost predicate DoesQuietly(me: Connection, op: Op, me': Connection) {
    me.Valid() && me'.out == [] && Act(me, op) == me' && !op.Write?
  }

  lemma Connecting(cap: nat)
    ensures Does(Start(cap), Connect,
                 Conn(cap, NewReceiver(cap), OPENING, []), SYN)
  {
    hide Sender.FillWindow;
    OpenSender();
    var c := Start(cap).(sender := OPENING.(queue := [SYN]));
    StampOne(c, SYN);
  }

  lemma StampOne(c: Connection, g: TCPSegment)
    requires c.Valid() && c.sender.queue == [g]
    ensures c.CollectOutput() == c.(out := c.out + [c.Stamp(g)], sender := c.sender.(queue := []))
  {
    assert c.sender.queue[1..] == [];
    assert c.StampAll([g]) == [c.Stamp(g)] + c.StampAll([g][1..]);
  }

  /** Finishing an operation that queued one segment and changes nothing else. */
  lemma FinishOne(c: Connection, g: TCPSegment)
    requires c.Valid() && c.sender.queue == [g] && c.sender.consecutive <= MAX_RETX_ATTEMPTS
    requires !c.TimeWait() && (c.sender.stream.Eof() || !c.receiver.FinRecv())
    ensures c.Finish() == c.(out := c.out + [c.Stamp(g)], sender := c.sender.(queue := []))
  {
    StampOne(c, g);
  }

  lemma Answering(cap: u16)
    ensures Does(Start(cap), Deliver(SYN),
                 Conn(cap, Heard(cap), OPENING, []), SynAck(cap))
  {
    hide Sender.FillWindow;
    OpenSender();
    Numbers();
    var c := Start(cap).(receiver := Heard(cap), sender := OPENING.(queue := [SYN]));
    assert Start(cap).(lastReceived := 0).Route(SYN) == c;
    FinishOne(c, SYN);
  }

  lemma NothingToSend(s: Sender)
    requires s.Valid() && !s.CanSend()
    ensures s.FillWindow() == s
  {
  }

  const ACK: TCPSegment := TCPSegment(HEADER.(seqno := 1), [])

  function MyAck(): TCPSegment { TCPSegment(Acking(ACK.header, 1, 10), []) }

  lemma OpenedSender(win: u16)
    ensures OPENING.AckReceived(1, win) == Open(win)
  {
    hide Sender.FillWindow;
    Numbers();
    var s := OPENING.(window := win, ackno := 1);
    assert s.PopAcked() == s.(outstanding := [], inFlight := 0);
    NothingToSend(s.PopAcked());
  }

  /** The client takes the answer; its own window is 10. */
  lemma Established(cap: u16)
    ensures Does(Conn(10, NewReceiver(10), OPENING, []), Deliver(SynAck(cap)),
                 Conn(10, Heard(10), Open(cap), []), MyAck())
  {
    hide Sender.AckReceived;
    Numbers();
    OpenedSender(cap);
    var c := Conn(10, NewReceiver(10), OPENING, []);
    var c1 := Conn(10, Heard(10), Open(cap).(queue := [ACK]), []);
    assert c.Route(SynAck(cap)) == c1;
    FinishOne(c1, ACK);
  }

  // ---- Runs ---------------------------------------------------------------------

  function New(cap: nat): Net { Net(Start(10), Start(cap), {}, {}) }

  /** A legal run of New(cap) ends in these two states, with at least these segments sent. */
  ghost predicate At(cap: nat, evs: seq<Event>, me: Connection, peer: Connection,
                     sent: set<TCPSegment>, heard: set<TCPSegment>)
  {
    Legal(New(cap), evs) &&
    var n := Run(New(cap), evs);
    n.me == me && n.peer == peer && sent <= n.sent && heard <= n.heard
  }

  lemma AtStart(cap: nat)
    ensures Fresh(New(cap)) && Valid(New(cap)) && At(cap, [], Start(10), Start(cap), {}, {})
  {
  }

  lemma AtEnds(cap: nat, evs: seq<Event>, me: Connection, peer: Connection,
               sent: set<TCPSegment>, heard: set<TCPSegment>)
    requires At(cap, evs, me, peer, sent, heard)
    ensures Legal(New(cap), evs) && Run(New(cap), evs).me == me && Run(New(cap), evs).peer == peer
  {
  }

  /** One more event in which I act and send segment g. */
  lemma MyTurn(cap: nat, evs: seq<Event>, me: Connection, peer: Connection, sent: set<TCPSegment>,
               heard: set<TCPSegment>, op: Op, me': Connection, g: TCPSegment) returns (evs': seq<Event>)
    requires At(cap, evs, me, peer, sent, heard) && Does(me, op, me', g) && (op.Deliver? ==> op.seg in heard)
    ensures At(cap, evs', me', peer, sent + {g}, heard)
  {
    hide Act;
    evs' := evs + [Event(true, op)];
    assert evs'[..|evs'| - 1] == evs;
  }

  lemma PeerTurn(cap: nat, evs: seq<Event>, me: Connection, peer: Connection, sent: set<TCPSegment>,
                 heard: set<TCPSegment>, op: Op, peer': Connection, g: TCPSegment) returns (evs': seq<Event>)
    requires At(cap, evs, me, peer, sent, heard) && Does(peer, op, peer', g) && (op.Deliver? ==> op.seg in sent)
    ensures At(cap, evs', me, peer', sent, heard + {g})
  {
    hide Act;
    evs' := evs + [Event(false, op)];
    assert evs'[..|evs'| - 1] == evs;
  }

  /** One more event in which I act and send nothing. */
  lemma MyQuietTurn(cap: nat, evs: seq<Event>, me: Connection, peer: Connection, sent: set<TCPSegment>,
                    heard: set<TCPSegment>, op: Op, me': Connection) returns (evs': seq<Event>)
    requires At(cap, evs, me, peer, sent, heard) && DoesQuietly(me, op, me') && (op.Deliver? ==> op.seg in heard)
    ensures At(cap, evs', me', peer, sent, heard)
  {
    hide Act;
    evs' := evs + [Event(true, op)];
    assert evs'[..|evs'| - 1] == evs;
  }

  lemma PeerQuietTurn(cap: nat, evs: seq<Event>, me: Connection, peer: Connection, sent: set<TCPSegment>,
                      heard: set<TCPSegment>, op: Op, peer': Connection) returns (evs': seq<Event>)
    requires At(cap, evs, me, peer, sent, heard) && DoesQuietly(peer, op, peer') && (op.Deliver? ==> op.seg in sent)
    ensures At(cap, evs', me, peer', sent, heard)
  {
    hide Act;
    evs' := evs + [Event(false, op)];
    assert evs'[..|evs'| - 1] == evs;
  }

  /** The handshake with a peer whose window is cap. */
  lemma Handshake(cap: u16) returns (evs: seq<Event>)
    ensures At(cap, evs, Conn(10, Heard(10), Open(cap), []), Conn(cap, Heard(cap), OPENING, []),
               {SYN, MyAck()}, {SynAck(cap)})
  {
    hide Does, At;
    var me, peer := Start(10), Start(cap);
    var me1, me2 := Conn(10, NewReceiver(10), OPENING, []), Conn(10, Heard(10), Open(cap), []);
    var peer1 := Conn(cap, Heard(cap), OPENING, []);
    AtStart(cap);
    Connecting(10);
    evs := MyTurn(cap, [], me, peer, {}, {}, Connect, me1, SYN);
    Answering(cap);
    evs := PeerTurn(cap, evs, me1, peer, {} + {SYN}, {}, Deliver(SYN), peer1, SynAck(cap));
    Established(cap);
    evs := MyTurn(cap, evs, me1, peer1, {} + {SYN}, {} + {SynAck(cap)}, Deliver(SynAck(cap)), me2, MyAck());
    assert {} + {SYN} + {MyAck()} == {SYN, MyAck()} && {} + {SynAck(cap)} == {SynAck(cap)};
  }

  // ---- A byte is lost -----------------------------------------------------------

  function Data(d: seq<byte>): TCPSegment { TCPSegment(HEADER.(seqno := 1), d) }

  /** A sender that has sent its first bytes. */
  function Wrote(win: u16, d: seq<byte>): Sender {
    Open(win).(stream := Stream(10, d, |d|, false, false), next := 1 + |d|, inFlight := |d|,
               outstanding := [Flight(1, Data(d))], timer := Timer(1000, false, false))
  }

  lemma WritingSender(win: u16, d: seq<byte>)
    requires 0 < |d| <= win && |d| <= 10
    ensures Open(win).(stream := NewStream(10).Write(d)).FillWindow() == Wrote(win, d).(queue := [Data(d)])
  {
    hide Sender.FillLoop, Sender.FillWindow;
    Numbers();
    var s := Open(win).(stream := Stream(10, d, 0, false, false));
    assert NewStream(10).Write(d) == s.stream;
    assert s.stream.Peek(s.ChunkSize(win)) == d;
    assert s.NextFlight(win) == Flight(1, Data(d));
    assert s.Emit(win) == Wrote(win, d).(queue := [Data(d)]);
    SendsOne(s, win);
  }

  /** I write my first bytes. */
  lemma Writing(win: u16, d: seq<byte>)
    requires 0 < |d| <= win && |d| <= 10
    ensures Does(Conn(10, Heard(10), Open(win), []), Op.Write(d),
                 Conn(10, Heard(10), Wrote(win, d), []), Data(d).(header := Acking(Data(d).header, 1, 10)))
  {
    hide Sender.FillWindow;
    Numbers();
    WritingSender(win, d);
    FinishOne(Conn(10, Heard(10), Wrote(win, d).(queue := [Data(d)]), []), Data(d));
  }

  const FIN: TCPSegment := TCPSegment(HEADER.(seqno := 2, fin := true), [])

  /** A sender that has sent one byte and its FIN. */
  function Finished(): Sender {
    Wrote(10, [7]).(stream := Stream(10, [7], 1, true, false), next := 3, inFlight := 2,
                    outstanding := [Flight(1, Data([7])), Flight(2, FIN)], fin := true)
  }

  lemma InsertSecond(f: Flight, g: Flight)
    requires f.first < g.first
    ensures InsertFlight([f], g) == [f, g]
  {
    assert [f][1..] == [];
    assert InsertFlight([], g) == [g];
  }

  /** A sender that has sent one byte and ended its stream. */
  function Ending1(): Sender {
    Wrote(10, [7]).(stream := Stream(10, [7], 1, true, false))
  }

  /** With nothing left in the stream, the next segment is a bare FIN. */
  lemma BareFin(s: Sender, room: nat)
    requires s.Valid() && !s.Closed() && s.stream.BufferEmpty() && s.FinToSend() && room > 0
    ensures s.Finishes(room) && s.stream.Pop(s.ChunkSize(room)) == s.stream
    ensures s.NextFlight(room) ==
            Flight(One(s.syn) + s.stream.read,
                   TCPSegment(HEADER.(seqno := Wrap(One(s.syn) + s.stream.read, s.isn), fin := true), []))
  {
    assert s.stream.Peek(s.ChunkSize(room)) == [];
  }

  lemma FinFlight()
    ensures Ending1().NextFlight(9) == Flight(2, FIN) && Ending1().Finishes(9)
    ensures Ending1().stream.Pop(Ending1().ChunkSize(9)) == Ending1().stream
  {
    hide Sender.NextFlight, Sender.Finishes, Sender.ChunkSize, Stream.Pop;
    Numbers();
    BareFin(Ending1(), 9);
  }

  lemma FinEmitted()
    ensures Ending1().Emit(9) == Finished().(queue := [FIN])
  {
    FinFlight();
    hide Sender.NextFlight, Sender.Finishes, Sender.ChunkSize, InsertFlight, Stream.Pop;
    InsertSecond(Flight(1, Data([7])), Flight(2, FIN));
  }

  lemma FinishingSender()
    ensures var s := Wrote(10, [7]);
            s.(stream := s.stream.EndInput()).FillWindow() == Finished().(queue := [FIN])
  {
    FinEmitted();
    hide Sender.FillLoop, Sender.FillWindow, Sender.NextFlight, Sender.Emit;
    SendsOne(Ending1(), 9);
  }

  function MyFin(): TCPSegment { FIN.(header := Acking(FIN.header, 1, 10)) }

  lemma Finishing()
    ensures Does(Conn(10, Heard(10), Wrote(10, [7]), []), EndInput,
                 Conn(10, Heard(10), Finished(), []), MyFin())
  {
    hide Sender.FillWindow, Stream.EndInput, Connection.Finish;
    Numbers();
    FinishingSender();
    FinishOne(Conn(10, Heard(10), Finished().(queue := [FIN]), []), FIN);
  }

  /** A receiver that took the FIN before the byte in front of it. */
  function Fooled(): Receiver {
    Receiver(Some(0), Reassembler(Stream(10, [], 0, true, false), 0, {}, [Entry([], 1)], true))
  }

  lemma FoolingReceiver()
    ensures Heard(10).SegmentReceived(MyFin()) == (Fooled(), true)
  {
    Numbers();
    var m := NewReassembler(10).(eof := true);
    assert Range(1, 1) == {};
    assert m.Store([], 1) == m.(entries := [Entry([], 1)]);
    assert m.Store([], 1).Drain() == m.Store([], 1);
    assert m.Store([], 1).CloseIfEmpty() == Fooled().reassembler;
  }

  /** What the fooled peer answers: it claims to have received the byte. */
  function FalseAck(): TCPSegment { TCPSegment(Acking(ACK.header, 2, 10), []) }

  lemma Fooling()
    ensures Does(Conn(10, Heard(10), OPENING, []), Deliver(MyFin()),
                 Conn(10, Fooled(), Open(10), []).(linger := false), FalseAck())
  {
    hide Sender.AckReceived, Receiver.SegmentReceived;
    Numbers();
    FoolingReceiver();
    OpenedSender(10);
    var c := Conn(10, Heard(10), OPENING, []);
    var c1 := Conn(10, Fooled(), Open(10).(queue := [ACK]), []);
    assert c.Route(MyFin()) == c1;
    StampOne(c1, ACK);
  }

  /** I believe it, and forget the byte. */
  function Forgot(): Sender {
    Finished().(ackno := 2, inFlight := 1, outstanding := [Flight(2, FIN)])
  }

  lemma ForgettingSender()
    ensures Finished().AckReceived(2, 10) == Forgot()
  {
    hide Sender.FillWindow;
    Numbers();
    var s := Finished().(ackno := 2);
    assert s.outstanding[1..] == [Flight(2, FIN)];
    assert s.PopAcked() == Forgot();
    NothingToSend(s.PopAcked());
  }

  lemma QuietReceiver()
    ensures Heard(10).SegmentReceived(FalseAck()) == (Heard(10), true)
  {
    Numbers();
  }

  lemma Forgetting()
    ensures DoesQuietly(Conn(10, Heard(10), Finished(), []), Deliver(FalseAck()),
                        Conn(10, Heard(10), Forgot(), []))
  {
    hide Sender.AckReceived, Receiver.SegmentReceived;
    Numbers();
    QuietReceiver();
    ForgettingSender();
    var c := Conn(10, Heard(10), Finished(), []);
    assert c.Route(FalseAck()) == Conn(10, Heard(10), Forgot(), []);
    assert Forgot().queue == [];
  }

  /** The run up to the point where the byte is forgotten. */
  lemma LosingRun() returns (evs: seq<Event>, sent: set<TCPSegment>, heard: set<TCPSegment>)
    ensures At(10, evs, Conn(10, Heard(10), Forgot(), []), Conn(10, Fooled(), Open(10), []).(linger := false),
               sent, heard)
  {
    hide Does, DoesQuietly, At, Acking, Fooled, Forgot, Finished, Conn;
    var me, peer := Conn(10, Heard(10), Open(10), []), Conn(10, Heard(10), OPENING, []);
    sent, heard := {SYN, MyAck()}, {SynAck(10)};
    evs := Handshake(10);
    Writing(10, [7]);
    var me1, d := Conn(10, Heard(10), Wrote(10, [7]), []), Data([7]).(header := Acking(Data([7]).header, 1, 10));
    evs := MyTurn(10, evs, me, peer, sent, heard, Op.Write([7]), me1, d);
    Finishing();
    var me2 := Conn(10, Heard(10), Finished(), []);
    evs := MyTurn(10, evs, me1, peer, sent + {d}, heard, EndInput, me2, MyFin());
    sent := sent + {d} + {MyFin()};
    Fooling();
    var peer1 := Conn(10, Fooled(), Open(10), []).(linger := false);
    evs := PeerTurn(10, evs, me2, peer, sent, heard, Deliver(MyFin()), peer1, FalseAck());
    heard := heard + {FalseAck()};
    Forgetting();
    evs := MyQuietTurn(10, evs, me2, peer1, sent, heard, Deliver(FalseAck()), Conn(10, Heard(10), Forgot(), []));
  }

  /** The fooled peer ends its own stream. */
  function FooledFin(): TCPSegment { FIN1.(header := Acking(FIN1.header, 2, 10)) }

  lemma FooledEnding()
    ensures Does(Conn(10, Fooled(), Open(10), []).(linger := false), EndInput,
                 Conn(10, Fooled(), Closing(), []).(linger := false), FooledFin())
  {
    hide Sender.FillWindow, Stream.EndInput, Connection.Finish;
    Numbers();
    ClosingSender();
    FinishOne(Conn(10, Fooled(), Closing().(queue := [FIN1]), []).(linger := false), FIN1);
  }

  function LastAck(): TCPSegment { TCPSegment(Acking(ACK3.header, 2, 10), []) }

  lemma LastEndingReceiver()
    ensures Heard(10).SegmentReceived(FooledFin()) == (Ended(), true)
  {
    Numbers();
  }

  lemma ForgetsNothingMore()
    ensures Forgot().AckReceived(2, 10) == Forgot()
  {
    hide Sender.FillWindow, Sender.PopAcked;
    Numbers();
  }

  lemma LastEnding()
    ensures Does(Conn(10, Heard(10), Forgot(), []), Deliver(FooledFin()),
                 Conn(10, Ended(), Forgot(), []), LastAck())
  {
    hide Receiver.SegmentReceived, Sender.AckReceived, Connection.Finish;
    Numbers();
    LastEndingReceiver();
    ForgetsNothingMore();
    var c1 := Conn(10, Ended(), Forgot().(queue := [ACK3]), []);
    assert Conn(10, Heard(10), Forgot(), []).Route(FooledFin()) == c1;
    FinishOne(c1, ACK3);
  }

  function Closed(): Sender {
    Closing().(ackno := 2, inFlight := 0, outstanding := [], timer := Timer(0, false, true))
  }

  lemma ClosedSender()
    ensures Closing().AckReceived(2, 10) == Closed()
  {
    hide Sender.FillWindow;
    Numbers();
    var s := Closing().(ackno := 2);
    assert s.outstanding[1..] == [];
    assert s.PopAcked() == s.(outstanding := [], inFlight := 0);
    NothingToSend(s.PopAcked());
  }

  /** It is acknowledged, and the fooled peer counts the connection as cleanly shut down. */
  lemma FooledClosing()
    ensures DoesQuietly(Conn(10, Fooled(), Closing(), []).(linger := false), Deliver(LastAck()),
                        Conn(10, Fooled(), Closed(), []).(linger := false, clear := true))
  {
    hide Sender.AckReceived, Receiver.SegmentReceived;
    Numbers();
    FooledReceives();
    ClosedSender();
    var c := Conn(10, Fooled(), Closing(), []).(linger := false);
    assert c.Route(LastAck()) == Conn(10, Fooled(), Closed(), []).(linger := false);
    assert Closed().queue == [];
  }

  lemma FooledReceives()
    ensures Fooled().SegmentReceived(LastAck()) == (Fooled(), true)
  {
    Numbers();
  }

  /** Without the hypothesis about FINs a byte can be lost: it is neither delivered nor in flight
      nor waiting, nobody will send it again, and the peer that never got it has shut down cleanly. */
  lemma LostByte() returns (evs: seq<Event>)
    ensures Fresh(New(10)) && Valid(New(10)) && Legal(New(10), evs)
    ensures var n := Run(New(10), evs);
            && Written(n.me) == [7] && Delivered(n.peer) == [] && n.peer.receiver.FinRecv() && n.peer.clear
            && !InFlight(n.me.sender, 0) && n.me.sender.stream.read == 1
  {
    AtStart(10);
    hide Does, DoesQuietly, At, Legal, Run, Fresh, Acking, Fooled, Forgot, Closing, Closed;
    var sent, heard;
    evs, sent, heard := LosingRun();
    var me, me1 := Conn(10, Heard(10), Forgot(), []), Conn(10, Ended(), Forgot(), []);
    var peer, peer1 := Conn(10, Fooled(), Open(10), []).(linger := false),
                       Conn(10, Fooled(), Closing(), []).(linger := false);
    FooledEnding();
    evs := PeerTurn(10, evs, me, peer, sent, heard, EndInput, peer1, FooledFin());
    LastEnding();
    evs := MyTurn(10, evs, me, peer1, sent, heard + {FooledFin()}, Deliver(FooledFin()), me1, LastAck());
    FooledClosing();
    var peer2 := Conn(10, Fooled(), Closed(), []).(linger := false, clear := true);
    evs := PeerQuietTurn(10, evs, me1, peer1, sent + {LastAck()}, heard + {FooledFin()}, Deliver(LastAck()), peer2);
    AtEnds(10, evs, me1, peer2, sent + {LastAck()}, heard + {FooledFin()});
    ByteIsLost();
  }

  lemma ByteIsLost()
    ensures Forgot().stream.history == [7] && Forgot().stream.read == 1 && !InFlight(Forgot(), 0)
    ensures Fooled().reassembler.output.history == [] && Fooled().FinRecv()
  {
  }

  // ---- A stale window is believed -----------------------------------------------

  /** A receiver of capacity 2 that is full. */
  function Full(): Receiver {
    Receiver(Some(0), Reassembler(Stream(2, [7, 8], 0, false, false), 2, {0, 1}, [], false))
  }

  function TwoBytes(): TCPSegment { Data([7, 8]).(header := Acking(Data([7, 8]).header, 1, 10)) }

  lemma FillingReceiver()
    ensures Heard(2).SegmentReceived(TwoBytes()) == (Full(), true)
  {
    hide Reassembler.Push;
    Numbers();
    FillingReassembler();
  }

  lemma FillingReassembler()
    ensures NewReassembler(2).Push([7, 8], 0, false) == Full().reassembler
  {
    var m := NewReassembler(2);
    assert Range(0, 2) == {0, 1};
    var m1 := m.Store([7, 8], 0);
    assert m1 == m.(accepted := {0, 1}, entries := [Entry([7, 8], 0)]);
    assert m1.entries[1..] == [];
    assert m1.DrainOne() == Full().reassembler;
    assert m1.Drain() == m1.DrainOne().Drain() == Full().reassembler;
  }

  function FullAck(): TCPSegment { TCPSegment(Acking(ACK.header, 3, 0), []) }

  lemma FillingUp()
    ensures Does(Conn(2, Heard(2), OPENING, []), Deliver(TwoBytes()),
                 Conn(2, Full(), Open(10), []), FullAck())
  {
    hide Sender.AckReceived, Receiver.SegmentReceived;
    Numbers();
    FillingReceiver();
    OpenedSender(10);
    var c1 := Conn(2, Full(), Open(10).(queue := [ACK]), []);
    assert Conn(2, Heard(2), OPENING, []).Route(TwoBytes()) == c1;
    FinishOne(c1, ACK);
  }

  /** A sender whose two bytes are acknowledged, knowing a window of win. */
  function Drained(win: u16): Sender {
    Wrote(2, [7, 8]).(ackno := 3, inFlight := 0, outstanding := [], timer := Timer(0, false, true), window := win)
  }

  lemma StaleSender()
    ensures Drained(0).AckReceived(1, 2) == Drained(2)
  {
    hide Sender.FillWindow, Sender.PopAcked;
    Numbers();
  }

  lemma DrainedSender()
    ensures Wrote(2, [7, 8]).AckReceived(3, 0) == Drained(0)
  {
    hide Sender.FillWindow;
    Numbers();
    var s := Wrote(2, [7, 8]).(ackno := 3, window := 0);
    assert s.outstanding[1..] == [];
    assert s.PopAcked() == s.(outstanding := [], inFlight := 0);
    NothingToSend(s.PopAcked());
  }

  lemma AckReceivers()
    ensures Heard(10).SegmentReceived(FullAck()) == (Heard(10), true)
    ensures Heard(10).SegmentReceived(SynAck(2)) == (Heard(10), false)
  {
    Numbers();
  }

  lemma Draining()
    ensures DoesQuietly(Conn(10, Heard(10), Wrote(2, [7, 8]), []), Deliver(FullAck()),
                        Conn(10, Heard(10), Drained(0), []))
  {
    hide Sender.AckReceived, Receiver.SegmentReceived;
    AckReceivers();
    DrainedSender();
    var c := Conn(10, Heard(10), Wrote(2, [7, 8]), []);
    assert c.Route(FullAck()) == Conn(10, Heard(10), Drained(0), []);
    assert Drained(0).queue == [];
  }

  const ACK3: TCPSegment := TCPSegment(HEADER.(seqno := 3), [])

  function Ack3(): TCPSegment { TCPSegment(Acking(ACK3.header, 1, 10), []) }

  /** The peer's first segment arrives once more, and its window is taken. */
  lemma Believing()
    ensures Does(Conn(10, Heard(10), Drained(0), []), Deliver(SynAck(2)),
                 Conn(10, Heard(10), Drained(2), []), Ack3())
  {
    hide Sender.AckReceived, Receiver.SegmentReceived;
    Numbers();
    AckReceivers();
    StaleSender();
    var c1 := Conn(10, Heard(10), Drained(2).(queue := [ACK3]), []);
    assert Conn(10, Heard(10), Drained(0), []).Route(SynAck(2)) == c1;
    FinishOne(c1, ACK3);
  }

  const MORE: TCPSegment := TCPSegment(HEADER.(seqno := 3), [9, 10])

  function More(): TCPSegment { MORE.(header := Acking(MORE.header, 1, 10)) }

  function Overshot(): Sender {
    Drained(2).(stream := Stream(10, [7, 8, 9, 10], 4, false, false), next := 5, inFlight := 2,
                outstanding := [Flight(3, MORE)], timer := Timer(1000, false, false))
  }

  lemma OvershootingSender()
    ensures var s := Drained(2);
            s.(stream := s.stream.Write([9, 10])).FillWindow() == Overshot().(queue := [MORE])
  {
    hide Sender.FillLoop, Sender.FillWindow;
    Numbers();
    var s := Drained(2).(stream := Stream(10, [7, 8, 9, 10], 2, false, false));
    assert Drained(2).stream.Write([9, 10]) == s.stream;
    assert s.stream.Peek(s.ChunkSize(2)) == [9, 10];
    assert s.NextFlight(2) == Flight(3, MORE);
    assert s.Emit(2) == Overshot().(queue := [MORE]);
    SendsOne(s, 2);
  }

  lemma Overshooting()
    ensures Does(Conn(10, Heard(10), Drained(2), []), Op.Write([9, 10]),
                 Conn(10, Heard(10), Overshot(), []), More())
  {
    hide Sender.FillWindow, Stream.Write, Connection.Finish;
    Numbers();
    OvershootingSender();
    FinishOne(Conn(10, Heard(10), Overshot().(queue := [MORE]), []), MORE);
  }

  lemma OverrunRun() returns (evs: seq<Event>)
    ensures Legal(New(2), evs)
    ensures Run(New(2), evs).me == Conn(10, Heard(10), Overshot(), [])
    ensures Run(New(2), evs).peer == Conn(2, Full(), Open(10), [])
  {
    hide Does, DoesQuietly, At, Legal, Run, Acking, Conn, Full, Drained, Overshot;
    var me, peer := Conn(10, Heard(10), Open(2), []), Conn(2, Heard(2), OPENING, []);
    var sent, heard := {SYN, MyAck()}, {SynAck(2)};
    evs := Handshake(2);
    Writing(2, [7, 8]);
    var me1 := Conn(10, Heard(10), Wrote(2, [7, 8]), []);
    evs := MyTurn(2, evs, me, peer, sent, heard, Op.Write([7, 8]), me1, TwoBytes());
    FillingUp();
    var peer1 := Conn(2, Full(), Open(10), []);
    evs := PeerTurn(2, evs, me1, peer, sent + {TwoBytes()}, heard, Deliver(TwoBytes()), peer1, FullAck());
    Draining();
    var me2, me3 := Conn(10, Heard(10), Drained(0), []), Conn(10, Heard(10), Drained(2), []);
    evs := MyQuietTurn(2, evs, me1, peer1, sent + {TwoBytes()}, heard + {FullAck()}, Deliver(FullAck()), me2);
    Believing();
    evs := MyTurn(2, evs, me2, peer1, sent + {TwoBytes()}, heard + {FullAck()}, Deliver(SynAck(2)), me3, Ack3());
    Overshooting();
    var me4 := Conn(10, Heard(10), Overshot(), []);
    evs := MyTurn(2, evs, me3, peer1, sent + {TwoBytes()} + {Ack3()}, heard + {FullAck()},
                  Op.Write([9, 10]), me4, More());
    AtEnds(2, evs, me4, peer1, sent + {TwoBytes()} + {Ack3()} + {More()}, heard + {FullAck()});
  }

  /** Without the hypothesis about outdated acknowledgments a sender runs past the window: two
      bytes are sent to a receiver that has no room at all. */
  lemma WindowOverrun() returns (evs: seq<Event>)
    ensures Fresh(New(2)) && Valid(New(2)) && Legal(New(2), evs)
    ensures var n := Run(New(2), evs);
            n.peer.receiver.Advertised() == 0 && n.me.sender.next == RightEdge(n.peer.receiver) + 2
  {
    AtStart(2);
    hide Run, Legal, Fresh;
    evs := OverrunRun();
  }

  // ---- A state without a name ---------------------------------------------------

  /** A sender that has ended its stream with the window used up. */
  function Blocked(): Sender {
    Wrote(1, [7]).(stream := Stream(10, [7], 1, true, false))
  }

  lemma Blocking()
    ensures DoesQuietly(Conn(10, Heard(10), Wrote(1, [7]), []), EndInput,
                        Conn(10, Heard(10), Blocked(), []))
  {
    assert Wrote(1, [7]).(stream := Wrote(1, [7]).stream.EndInput()).FillWindow() == Blocked();
    assert Blocked().queue == [];
  }

  lemma AckReceiver(cap: u16)
    requires cap > 0
    ensures Heard(cap).SegmentReceived(MyAck()) == (Heard(cap), true)
  {
    Numbers();
  }

  /** The peer takes my first acknowledgment. */
  lemma PeerOpening(cap: u16)
    requires cap > 0
    ensures DoesQuietly(Conn(cap, Heard(cap), OPENING, []), Deliver(MyAck()),
                        Conn(cap, Heard(cap), Open(10), []))
  {
    hide Sender.AckReceived, Receiver.SegmentReceived;
    AckReceiver(cap);
    OpenedSender(10);
    assert Conn(cap, Heard(cap), OPENING, []).Route(MyAck()) == Conn(cap, Heard(cap), Open(10), []);
    assert Open(10).queue == [];
  }

  const FIN1: TCPSegment := TCPSegment(HEADER.(seqno := 1, fin := true), [])

  function Closing(): Sender {
    Open(10).(stream := Stream(10, [], 0, true, false), next := 2, inFlight := 1,
              outstanding := [Flight(1, FIN1)], timer := Timer(1000, false, false), fin := true)
  }

  lemma ClosingEmitted()
    ensures Open(10).(stream := NewStream(10).EndInput()).Emit(10) == Closing().(queue := [FIN1])
  {
    hide Sender.NextFlight, Sender.Finishes, Sender.ChunkSize, Stream.Pop;
    Numbers();
    BareFin(Open(10).(stream := NewStream(10).EndInput()), 10);
  }

  lemma ClosingSender()
    ensures Open(10).(stream := NewStream(10).EndInput()).FillWindow() == Closing().(queue := [FIN1])
  {
    ClosingEmitted();
    hide Sender.FillLoop, Sender.FillWindow, Sender.NextFlight, Sender.Emit;
    SendsOne(Open(10).(stream := NewStream(10).EndInput()), 10);
  }

  function PeerFin(): TCPSegment { FIN1.(header := Acking(FIN1.header, 1, 1)) }

  lemma PeerClosing()
    ensures Does(Conn(1, Heard(1), Open(10), []), EndInput,
                 Conn(1, Heard(1), Closing(), []), PeerFin())
  {
    hide Sender.FillWindow, Stream.EndInput, Connection.Finish;
    Numbers();
    ClosingSender();
    FinishOne(Conn(1, Heard(1), Closing().(queue := [FIN1]), []), FIN1);
  }

  function Ended(): Receiver {
    Receiver(Some(0), Reassembler(Stream(10, [], 0, true, false), 0, {}, [], true))
  }

  lemma EndingReceiver()
    ensures Heard(10).SegmentReceived(PeerFin()) == (Ended(), true)
  {
    Numbers();
  }

  const ACK2: TCPSegment := TCPSegment(HEADER.(seqno := 2), [])

  lemma Ending()
    ensures Does(Conn(10, Heard(10), Blocked(), []), Deliver(PeerFin()),
                 Conn(10, Ended(), Blocked(), []), TCPSegment(Acking(ACK2.header, 2, 10), []))
  {
    hide Receiver.SegmentReceived, Sender.FillWindow, Sender.PopAcked, Connection.Finish;
    Numbers();
    EndingReceiver();
    var c1 := Conn(10, Ended(), Blocked().(queue := [ACK2]), []);
    assert Conn(10, Heard(10), Blocked(), []).Route(PeerFin()) == c1;
    FinishOne(c1, ACK2);
  }

  lemma BlockedRun() returns (evs: seq<Event>)
    ensures Legal(New(1), evs) && Run(New(1), evs).me == Conn(10, Ended(), Blocked(), [])
  {
    hide Does, DoesQuietly, At, Legal, Run, Acking, Conn, Blocked, Ended, Closing;
    var me, peer := Conn(10, Heard(10), Open(1), []), Conn(1, Heard(1), OPENING, []);
    var sent, heard := {SYN, MyAck()}, {SynAck(1)};
    evs := Handshake(1);
    Writing(1, [7]);
    var me1, d := Conn(10, Heard(10), Wrote(1, [7]), []), Data([7]).(header := Acking(Data([7]).header, 1, 10));
    evs := MyTurn(1, evs, me, peer, sent, heard, Op.Write([7]), me1, d);
    Blocking();
    var me2 := Conn(10, Heard(10), Blocked(), []);
    evs := MyQuietTurn(1, evs, me1, peer, sent + {d}, heard, EndInput, me2);
    PeerOpening(1);
    var peer1, peer2 := Conn(1, Heard(1), Open(10), []), Conn(1, Heard(1), Closing(), []);
    evs := PeerQuietTurn(1, evs, me2, peer, sent + {d}, heard, Deliver(MyAck()), peer1);
    PeerClosing();
    evs := PeerTurn(1, evs, me2, peer1, sent + {d}, heard, EndInput, peer2, PeerFin());
    Ending();
    var me3, g := Conn(10, Ended(), Blocked(), []), TCPSegment(Acking(ACK2.header, 2, 10), []);
    evs := MyTurn(1, evs, me2, peer2, sent + {d}, heard + {PeerFin()}, Deliver(PeerFin()), me3, g);
    AtEnds(1, evs, me3, peer2, sent + {d} + {g}, heard + {PeerFin()});
  }

  /** An endpoint can get into the one state that the table of official states lacks. */
  lemma UnnamedState() returns (evs: seq<Event>)
    ensures Fresh(New(1)) && Valid(New(1)) && Legal(New(1), evs)
    ensures FinBlocked(Run(New(1), evs).me) && !HasName(Run(New(1), evs).me)
  {
    AtStart(1);
    hide Run, HasName, Legal, Fresh;
    evs := BlockedRun();
    OfficialStateIff(New(1), evs);
  }
}
