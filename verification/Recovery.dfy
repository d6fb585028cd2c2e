/** What one retransmission achieves when it is not lost: the sender always moves on. */
module Recovery {
  import opened Bytes
  import opened Segments
  import opened Senders
  import opened Receivers
  import RR = ReassemblyRuns
  import opened Directions
  import opened Connections
  import opened Endpoints
  import opened Network
  import opened Handshake
  import opened Laws
  import opened Copies
  import opened Endings
  import FC = FlowControl
  import TS = TcpStates
  import SI = SenderInvariants
  import R = Reassembly

  // ---- The receiver -------------------------------------------------------------

  /** A push that covers the first missing byte, where there is room, extends the assembled prefix. */
  lemma PushAdvances(m: R.Reassembler, data: seq<byte>, index: nat, last: bool)
    requires R.Inv(m) && index <= m.assembled < index + |data| && m.assembled < m.Limit()
    ensures m.assembled < m.Push(data, index, last).assembled
  {
    hide R.Reassembler.Push, R.Sorted, R.Span;
    var m' := m.Push(data, index, last);
    R.PushKeeps(m, data, index, last);
    R.AssembledIsLeastMissing(m');
    assert m.assembled in R.Added(m, data, index);
    assert forall i :: 0 <= i < m.assembled ==> Indexed(i) ==> i in m.accepted;
  }

  /** The last push completes a stream whose bytes are all there. */
  lemma PushCompletes(m: R.Reassembler, data: seq<byte>, index: nat, stream: seq<byte>)
    requires R.Inv(m) && RR.Consistent(m, stream) && m.assembled == |stream| == index + |data|
    requires m.assembled < m.Limit()
    ensures m.Push(data, index, true).assembled == m.assembled && m.Push(data, index, true).Empty()
  {
    hide R.Reassembler.Push, R.Sorted, R.Span;
    var m' := m.Push(data, index, true);
    R.PushKeeps(m, data, index, true);
    RR.PushEof(m, data, index, true);
    R.AssembledIsLeastMissing(m');
    assert m.accepted == Range(0, m.assembled);
    assert m'.accepted == m.accepted;
    RangeSize(0, m.assembled);
  }

  lemma RoomLeft(m: R.Reassembler)
    requires R.Inv(m) && m.output.RemainingCapacity() > 0
    ensures m.assembled < m.Limit()
  {
  }

  /** A segment that holds the position the receiver waits for makes it move on. */
  lemma AcceptAdvances(s: Sender, r: Receiver, g: TCPSegment, a: nat)
    requires Follows(s, r) && SI.Counted(s) && Short(s) && SI.SegmentAt(s, g, a)
    requires r.isn.Some? && r.SynRecv() && r.WindowSize() > 0
    requires 0 < a <= r.Ackno() < a + g.LengthInSequenceSpace()
    ensures r.Accept(g).0.Ackno() > r.Ackno()
  {
    hide R.Inv, RR.Consistent, R.Reassembler.Push;
    PositionExact(s, r, g, a);
    SegmentHonest(s, g, a);
    var m := r.reassembler;
    assert r.Ackno() == m.assembled + 1;
    RoomLeft(m);
    if m.assembled < a - 1 + |g.payload| {
      PushAdvances(m, g.payload, a - 1, g.header.fin);
    } else {
      PushCompletes(m, g.payload, a - 1, s.stream.history);
    }
  }

  /** A receiver that has ended with everything has nothing left to wait for. */
  lemma EndedHasAll(s: Sender, r: Receiver)
    requires Follows(s, r) && SI.CoreInv(s) && r.FinRecv() && !CutShort(s, r)
    ensures r.isn.Some? && r.Ackno() == |s.stream.history| + 2 >= s.next
  {
  }

  lemma SynAdvances(s: Sender, r: Receiver, g: TCPSegment)
    requires Follows(s, r) && SI.Counted(s) && Short(s) && SI.SegmentAt(s, g, 0) && r.isn.None?
    ensures r.SegmentReceived(g).0.Ackno() > r.Ackno()
  {
    hide RR.Consistent, Receiver.Accept;
    var r1 := r.(isn := Some(g.header.seqno));
    SynFollows(s, r, g, 0);
    AcceptFollows(s, r1, g, 0);
  }

  /** The oldest segment in flight, delivered to a receiver with room whose last acknowledgment
      has arrived, makes that receiver acknowledge more. */
  lemma OldestAdvances(s: Sender, r: Receiver, g: TCPSegment)
    requires Follows(s, r) && SI.CoreInv(s) && Short(s) && Opening(s)
    requires !CutShort(s, r)
    requires s.outstanding != [] && s.ackno == r.Ackno() && Resends(g, s.outstanding[0].seg)
    requires r.WindowSize() > 0
    ensures r.SegmentReceived(g).0.Ackno() > r.Ackno()
  {
    hide R.Inv, RR.Consistent, R.Reassembler.Push, Receiver.Accept;
    var f := s.outstanding[0];
    SI.TilesOrdered(s.outstanding, s.next - s.inFlight, s.next);
    assert SI.SegmentAt(s, f.seg, f.first);
    assert SI.SegmentAt(s, g, f.first);
    if r.isn.None? {
      SynAdvances(s, r, g);
    } else {
      if r.FinRecv() {
        EndedHasAll(s, r);
      }
      AcceptAdvances(s, r, g, f.first);
    }
  }

  // ---- The connections ----------------------------------------------------------

  lemma FinishFirst(c: Connection)
    requires c.Valid() && c.out == [] && c.sender.queue != []
    ensures c.Finish().out != [] && c.Finish().out[0] == c.Stamp(c.sender.queue[0])
    ensures c.Finish().receiver.Ackno() == c.receiver.Ackno()
    ensures RightEdge(c.Finish().receiver) == RightEdge(c.receiver)
  {
    hide Connection.Stamp;
  }

  /** A segment that takes up sequence numbers is answered. */
  lemma RouteReplies(c: Connection, g: TCPSegment)
    requires c.Valid() && !c.unclear && c.sender.next > 0 && !g.header.rst && g.LengthInSequenceSpace() > 0
    requires c.receiver.SegmentReceived(g).0.isn.Some?
    ensures var c' := c.Route(g);
            c'.sender.queue != [] && !c'.unclear && c'.receiver == c.receiver.SegmentReceived(g).0
  {
    hide Sender.AckReceived, Sender.FillWindow, Receiver.SegmentReceived, Sender.AcceptsAck;
  }

  lemma StampAcks(c: Connection, ps: Sender, g: TCPSegment)
    requires c.Valid() && !c.unclear && c.receiver.isn == Some(ps.isn) && SI.Unstamped(g)
    requires c.receiver.Ackno() >= 1
    ensures var g' := c.Stamp(g);
            g'.header.ack && !g'.header.rst && AckAt(ps, c.receiver, g', c.receiver.Ackno())
  {
  }

  lemma FirstUnstamped(c: Connection)
    requires QueueInv(c) && c.sender.queue != []
    ensures SI.Unstamped(c.sender.queue[0])
  {
  }

  lemma HeardIsn(s: Sender, r: Receiver)
    requires Follows(s, r) && r.isn.Some?
    ensures r.isn == Some(s.isn) && r.Ackno() >= 1
  {
  }

  /** An endpoint answers such a segment with its newest acknowledgment. */
  lemma Replies(n: Net, g: TCPSegment)
    requires Inv(n) && g in n.heard && !n.me.unclear && n.me.sender.next > 0
    requires !g.header.rst && g.LengthInSequenceSpace() > 0
    requires n.me.receiver.SegmentReceived(g).0.isn.Some?
    ensures var c' := Act(n.me, Deliver(g));
            && c'.receiver.Ackno() == n.me.receiver.SegmentReceived(g).0.Ackno()
            && c'.out != [] && c'.out[0].header.ack && !c'.out[0].header.rst
            && AckAt(n.peer.sender, c'.receiver, c'.out[0], c'.receiver.Ackno())
  {
    hide SI.Inv, SI.Genuine, SI.NoStall, SI.Grows, Follows, Later, Connection.Route, Connection.Finish,
         Connection.Stamp, Receiver.SegmentReceived, Acks, SI.Unstamped;
    var c0 := n.me.(lastReceived := n.me.now);
    var c1 := c0.Route(g);
    RouteKeeps(c0, g, n.peer.sender, n.peer.receiver);
    RouteReplies(c0, g);
    HeardIsn(n.peer.sender, c1.receiver);
    FirstUnstamped(c1);
    StampAcks(c1, n.peer.sender, c1.sender.queue[0]);
    FinishFirst(c1);
  }

  /** An endpoint that has heard its peer takes the acknowledgments it gets. */
  lemma TakesAck(n: Net, g: TCPSegment, k: nat)
    requires Inv(n) && g in n.heard && (n.me.receiver.isn.Some? || g.header.syn) && n.me.sender.next > 0
    requires !g.header.rst && g.header.ack && AckAt(n.me.sender, n.peer.receiver, g, k)
    ensures Act(n.me, Deliver(g)).sender.ackno >= k
  {
    hide SI.CoreInv, SI.Genuine, SI.NoStall, SI.Grows, Follows, Later, Connection.Finish, Acks, Sender.AckReceived;
    var c0 := n.me.(lastReceived := n.me.now);
    var s := n.me.sender;
    AckExact(s, n.peer.receiver, g, k);
    SI.AckReceivedKeeps(s, g.header.ackno, g.header.win);
    FC.RouteAcks(c0, g);
    FinishFrame(c0.Route(g));
  }

  /** However far behind the sender is, the oldest segment in flight leaves the receiver ahead of it. */
  lemma LeavesAhead(s: Sender, r: Receiver, g: TCPSegment)
    requires Follows(s, r) && SI.CoreInv(s) && Short(s) && Opening(s)
    requires s.ackno < r.Ackno() || !CutShort(s, r)
    requires s.outstanding != [] && s.ackno <= r.Ackno() && Resends(g, s.outstanding[0].seg)
    requires r.WindowSize() > 0 && SI.Genuine(s, g)
    ensures r.SegmentReceived(g).0.Ackno() > s.ackno && r.SegmentReceived(g).0.isn.Some?
  {
    hide Receiver.SegmentReceived, R.Inv, RR.Consistent, Receiver.WindowSize;
    ReceiveFollows(s, r, g);
    if s.ackno == r.Ackno() {
      OldestAdvances(s, r, g);
    }
    UnheardIsZero(s, r.SegmentReceived(g).0);
  }

  lemma UnheardIsZero(s: Sender, r: Receiver)
    requires Follows(s, r)
    ensures r.isn.None? ==> r.Ackno() == 0
  {
  }

  // ---- One round trip -----------------------------------------------------------

  /** What the passing of time does when the timer of something in flight goes off. */
  lemma TickResends(n: Net, ms: nat)
    requires Inv(n) && Due(n.me.sender, ms) && !n.me.unclear
    requires n.me.sender.consecutive <= MAX_RETX_ATTEMPTS && !LastChance(n.me.sender)
    ensures var s, c' := n.me.sender, Act(n.me, Tick(ms));
            && c'.out != [] && Resends(c'.out[0], s.outstanding[0].seg) && !c'.out[0].header.rst
            && c'.sender.outstanding == s.outstanding && c'.sender.ackno == s.ackno
            && c'.receiver.isn == n.me.receiver.isn && c'.sender.next > 0
            && c'.out[0].LengthInSequenceSpace() > 0
            && c'.sender.stream.history == s.stream.history
  {
    hide SI.Genuine, SI.NoStall, Follows;
    var s := n.me.sender;
    TickQueues(s, ms);
    SI.TilesOrdered(s.outstanding, s.next - s.inFlight, s.next);
    var c1 := n.me.(now := n.me.now + ms, sender := s.Tick(ms));
    FinishFirst(c1);
    StampResends(c1, s.outstanding[0].seg);
    StampPlain(c1, s.outstanding[0].seg);
    FinishFrame(c1);
  }

  lemma Extend(n: Net, evs: seq<Event>, ev: Event, guard: (Net, Op) -> bool)
    requires Valid(n) && Throughout(n, evs, guard) && guard(Face(Run(n, evs), ev.mine), ev.op)
    ensures Throughout(n, evs + [ev], guard) && Run(n, evs + [ev]) == Happen(Run(n, evs), ev)
  {
    var evs' := evs + [ev];
    assert evs'[..|evs'| - 1] == evs;
  }

  lemma PeerSpoke(n: Net)
    requires Inv(n) && n.me.receiver.isn.Some?
    ensures n.peer.sender.next > 0
  {
    hide SI.Tiles, SI.FlightsGenuine, SI.Genuine, SI.NoStall;
  }

  /** The peer gets the retransmission and answers with an acknowledgment that is new to me. */
  lemma PeerAnswers(n: Net, g: TCPSegment) returns (g': TCPSegment)
    requires Inv(n) && Opening(n.me.sender) && g in n.sent && !n.peer.unclear
    requires !Stuck(n)
    requires n.me.sender.outstanding != [] && Resends(g, n.me.sender.outstanding[0].seg)
    requires !g.header.rst && g.LengthInSequenceSpace() > 0
    requires n.me.receiver.isn.Some? && n.peer.receiver.WindowSize() > 0
    ensures var n' := Step(n.Swap(), Deliver(g)).Swap();
            && n'.me == n.me && g' in n'.heard && g'.header.ack && !g'.header.rst
            && AckAt(n.me.sender, n'.peer.receiver, g', n'.peer.receiver.Ackno())
            && n'.peer.receiver.Ackno() > n.me.sender.ackno
  {
    hide SI.Genuine, SI.NoStall, SI.Tiles, SI.FlightsGenuine, Follows, Receiver.SegmentReceived, Act, Resends, Opening;
    PeerSpoke(n);
    InvSwap(n);
    LeavesAhead(n.me.sender, n.peer.receiver, g);
    Replies(n.Swap(), g);
    g' := Act(n.peer, Deliver(g)).out[0];
  }

  /** The state after the timer went off. */
  lemma AfterTick(n: Net, evs: seq<Event>, ms: nat)
    requires Fresh(n) && Valid(n) && Legal(n, evs)
    ensures var evs1 := evs + [Event(true, Tick(ms))];
            && Legal(n, evs1) && Run(n, evs1) == Step(Run(n, evs), Tick(ms))
            && Inv(Run(n, evs1)) && Opening(Run(n, evs1).me.sender)
  {
    hide Inv, Run, Fresh, Throughout, Step, Opening;
    var ev := Event(true, Tick(ms));
    Extend(n, evs, ev, Enabled);
    RunKeeps(n, evs + [ev]);
    TS.RunHandshaken(n, evs + [ev]);
  }

  /** In every run, if something is in flight when its timer goes off and the endpoint does not give
      up over it, the peer has room, and neither the retransmission nor the answer to it is lost,
      then the sender moves on: three events lead to a strictly larger acknowledged position. The
      one exception is a sender whose stream has ended short at the peer, and which has the last
      acknowledgment: it never moves on again. */
  lemma RetransmissionAdvances(n: Net, evs: seq<Event>, ms: nat) returns (evs': seq<Event>)
    requires Fresh(n) && Valid(n) && Legal(n, evs) && !Stuck(Run(n, evs))
    requires var n0 := Run(n, evs);
             && Due(n0.me.sender, ms) && !LastChance(n0.me.sender) && !n0.me.unclear && !n0.peer.unclear
             && n0.me.receiver.isn.Some? && n0.peer.receiver.WindowSize() > 0
    ensures Legal(n, evs') && evs <= evs' && |evs'| == |evs| + 3
    ensures Run(n, evs').me.sender.ackno > Run(n, evs).me.sender.ackno
  {
    assert Run(n, evs).me.sender.outstanding != [];
    hide Inv, Act, Due, LastChance, Resends, Throughout, Run, AckAt, Receiver.WindowSize, Fresh, Opening;
    var n0 := Run(n, evs);
    RunKeeps(n, evs);
    RunKept(n, evs);
    TickResends(n0, ms);
    AfterTick(n, evs, ms);
    var g := Act(n0.me, Tick(ms)).out[0];
    var evs1 := evs + [Event(true, Tick(ms))];
    var n1 := Run(n, evs1);
    var g' := PeerAnswers(n1, g);
    Extend(n, evs1, Event(false, Deliver(g)), Enabled);
    var evs2 := evs1 + [Event(false, Deliver(g))];
    var n2 := Run(n, evs2);
    RunKeeps(n, evs2);
    TakesAck(n2, g', n2.peer.receiver.Ackno());
    Extend(n, evs2, Event(true, Deliver(g')), Enabled);
    evs' := evs2 + [Event(true, Deliver(g'))];
  }
}
