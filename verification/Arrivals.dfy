/** What an arriving segment does to an endpoint: what is taken of its text and of its
    acknowledgment, whether it is answered, and whether it resets. */
module Arrivals {
  import opened Bytes
  import opened Segments
  import opened Senders
  import opened Receivers
  import opened Directions
  import opened Connections
  import opened Endpoints
  import opened Network
  import opened Handshake
  import opened Laws
  import opened Copies
  import opened Saturation
  import opened Outgoing
  import opened WrappingIntegers
  import SI = SenderInvariants
  import R = Reassembly
  import RR = ReassemblyRuns
  import FC = FlowControl
  import TS = TcpStates

  /** A bare segment at position a lies outside the window of a receiver that still receives. At a
      zero window every position from the first missing one on is let through. */
  predicate Outside(r: Receiver, a: nat) {
    var t := r.reassembler.output;
    var missing, room := 1 + |t.history|, t.capacity - (|t.history| - t.read);
    !t.ended && (a < missing || (room > 0 && a >= missing + room))
  }

  /** What a receiver calls acceptable, for a segment of its peer at position a: the first SYN, and
      then whatever touches the window; after the end of the stream everything but another FIN. */
  predicate Acceptable(r: Receiver, g: TCPSegment, a: nat) {
    var t := r.reassembler.output;
    var missing, room := 1 + |t.history|, t.capacity - (|t.history| - t.read);
    if r.isn.None? then a == 0
    else if a == 0 then false
    else if t.ended then !g.header.fin
    else a + |g.payload| >= missing && (a < missing + room || (room == 0 && g.LengthInSequenceSpace() == 0))
  }

  lemma SynVerdict(s: Sender, r: Receiver, g: TCPSegment)
    requires Follows(s, r) && SI.Counted(s) && Short(s) && SI.SegmentAt(s, g, 0) && r.isn.None?
    ensures r.SegmentReceived(g).1
  {
    hide R.Inv, RR.Consistent, R.Reassembler.Push;
    SynFollows(s, r, g, 0);
    PositionExact(s, r.(isn := Some(g.header.seqno)), g, 0);
  }

  /** The receiver's verdict on a segment of its peer. */
  lemma VerdictIff(s: Sender, r: Receiver, g: TCPSegment, a: nat)
    requires Follows(s, r) && SI.Counted(s) && Short(s) && SI.SegmentAt(s, g, a)
    ensures r.SegmentReceived(g).1 <==> Acceptable(r, g, a)
  {
    hide R.Reassembler.Push, R.Sorted, R.Span, RR.Excerpt;
    if r.isn.None? && a == 0 {
      SynVerdict(s, r, g);
    } else if r.isn.Some? && a > 0 {
      PositionExact(s, r, g, a);
    }
  }

  /** The queue after the route of a segment that is no reset, on an open endpoint. */
  lemma RouteQueue(c: Connection, g: TCPSegment)
    requires c.Valid() && c.sender.next > 0 && c.sender.queue == [] && c.receiver.isn.Some? && !g.header.rst
    ensures var s1 := if g.header.ack then c.sender.AckReceived(g.header.ackno, g.header.win) else c.sender;
            c.Route(g).sender.queue != [] <==>
              || s1.queue != [] || !c.receiver.SegmentReceived(g).1
              || (g.header.ack && !c.sender.AcceptsAck(g.header.ackno)) || g.LengthInSequenceSpace() > 0
  {
    hide Sender.AckReceived, Sender.AcceptsAck, Receiver.Accept;
    StillHeard(c.receiver, g);
  }

  lemma StillHeard(r: Receiver, g: TCPSegment)
    requires r.Valid() && r.isn.Some?
    ensures r.SegmentReceived(g).0.isn == r.isn
  {
  }

  /** An acknowledgment makes a sender queue something exactly if it lets it send more. */
  lemma AckQueues(s: Sender, number: u32, win: u16)
    requires SI.Inv(s) && s.queue == []
    ensures s.Valid()
    ensures s.AckReceived(number, win).queue != [] <==> LetsSend(s, Unwrap(number, s.isn, s.ackno), win)
  {
    hide SI.CoreInv, Sender.AckReceived, Unwrap, LetsSend;
    var fs := AckLaunches(s, number, win);
    AckSates(s, number, win);
    AckGrows(s, number, win);
    SI.TilesOrdered(fs, s.next, s.AckReceived(number, win).next);
    EmptyQueue(fs);
  }

  lemma BarePlace(s: Sender, g: TCPSegment, a: nat)
    requires SI.SegmentAt(s, g, a) && g.LengthInSequenceSpace() == 0
    ensures a > 0
  {
  }

  /** An open endpoint: its own SYN is out, and it has heard the peer's. */
  lemma OpenAnswers(c: Connection, g: TCPSegment, ps: Sender, pr: Receiver, a: nat, k: nat)
    requires EndInv(c, ps, pr) && c.sender.queue == [] && c.receiver.isn.Some? && !g.header.rst
    requires SI.SegmentAt(ps, g, a) && (g.header.ack ==> AckAt(c.sender, pr, g, k))
    ensures c.Route(g).sender.queue != [] <==>
              || g.LengthInSequenceSpace() > 0 || Outside(c.receiver, a)
              || (g.header.ack && LetsSend(c.sender, k, g.header.win))
  {
    hide Connection.Route, Receiver.SegmentReceived, Sender.AckReceived, LetsSend, SI.NoStall, SI.SegmentAt,
         SI.Tiles, SI.FlightsGenuine, Follows, AckAt;
    RouteQueue(c, g);
    if g.header.ack {
      AckExact(c.sender, pr, g, k);
      AckQueues(c.sender, g.header.ackno, g.header.win);
    }
    if g.LengthInSequenceSpace() == 0 {
      VerdictIff(ps, c.receiver, g, a);
      assert a > 0 by { BarePlace(ps, g, a); }
    }
  }

  /** An endpoint before it has heard the peer's SYN. */
  lemma OpeningAnswers(c: Connection, g: TCPSegment)
    requires c.Valid() && SI.CoreInv(c.sender) && Opened(c) && c.sender.queue == [] && SynAlone(g)
    requires c.receiver.isn.None? && (c.sender.next == 0 || !g.header.rst)
    ensures c.Route(g).sender.queue != [] <==> g.header.syn
  {
    ReceiveCases(c.receiver, g);
    hide SI.FlightsGenuine, Receiver.SegmentReceived, Sender.AckReceived, Sender.AcceptsAck, Sender.FillWindow;
    if c.sender.next == 0 {
      FirstFill(c.sender);
    } else {
      UnheardIsSynSent(c.sender);
    }
  }

  /** What the endpoint is to answer: before its own SYN is out, or the peer's is heard, a SYN;
      afterwards whatever takes up sequence numbers, a bare segment outside the window, and an
      acknowledgment that lets it send more. A reset is never answered. */
  predicate Calls(c: Connection, g: TCPSegment, a: nat, k: nat) {
    if c.sender.next == 0 then g.header.syn
    else if g.header.rst then false
    else if c.receiver.isn.None? then g.header.syn
    else
      || g.LengthInSequenceSpace() > 0 || Outside(c.receiver, a)
      || (g.header.ack && LetsSend(c.sender, k, g.header.win))
  }

  lemma RouteAnswers(c: Connection, g: TCPSegment, ps: Sender, pr: Receiver, a: nat, k: nat)
    requires EndInv(c, ps, pr) && Opened(c) && c.sender.queue == [] && SynAlone(g)
    requires SI.SegmentAt(ps, g, a) && (g.header.ack ==> AckAt(c.sender, pr, g, k))
    ensures c.Route(g).sender.queue != [] <==> Calls(c, g, a, k)
    ensures c.Route(g).unclear <==> c.unclear || (g.header.rst && c.sender.next > 0)
  {
    RouteResets(c, g);
    hide Connection.Route, Outside, LetsSend, SI.NoStall, SI.SegmentAt, SI.Tiles, SI.FlightsGenuine, Follows, AckAt;
    if c.sender.next == 0 || (c.receiver.isn.None? && !g.header.rst) {
      OpeningAnswers(c, g);
    } else if !g.header.rst {
      OpenAnswers(c, g, ps, pr, a, k);
    }
  }

  lemma RouteResets(c: Connection, g: TCPSegment)
    requires c.Valid() && (c.receiver.isn.Some? ==> c.sender.next > 0)
    ensures c.Route(g).unclear <==> c.unclear || (g.header.rst && c.sender.next > 0)
    ensures g.header.rst && c.sender.next > 0 ==> c.Route(g).sender.queue == c.sender.queue
  {
    hide Sender.FillWindow, Sender.AckReceived, Sender.AcceptsAck, Receiver.SegmentReceived;
  }

  lemma FinishHandsOver(c: Connection)
    requires c.Valid() && c.out == [] && c.sender.consecutive <= MAX_RETX_ATTEMPTS
    ensures c.Finish().out != [] <==> c.sender.queue != []
    ensures c.Finish().unclear == c.unclear
  {
    FinishFrame(c);
    hide Connection.Finish, Connection.Stamp;
    FinishGoesOn(c);
  }

  lemma DeliverAnswers(n: Net, g: TCPSegment, a: nat, k: nat)
    requires Inv(n) && Handshaken(n) && Kept(n.me, n.sent) && !n.me.unclear && g in n.heard
    requires SI.SegmentAt(n.peer.sender, g, a) && (g.header.ack ==> AckAt(n.me.sender, n.peer.receiver, g, k))
    ensures Act(n.me, Deliver(g)).out != [] <==> Calls(n.me, g, a, k)
    ensures Act(n.me, Deliver(g)).unclear <==> g.header.rst && n.me.sender.next > 0
  {
    hide SI.CoreInv, SI.Genuine, SI.NoStall, SI.SegmentAt, Follows, Acks, AckAt, LingerInv, Connection.Route,
         Connection.Finish, Opening, Outside, LetsSend;
    var c0 := n.me.(lastReceived := n.me.now);
    RouteAnswers(c0, g, n.peer.sender, n.peer.receiver, a, k);
    RouteOut(c0, g);
    RouteCalm(c0, g);
    FinishHandsOver(c0.Route(g));
  }

  /** In every run, an endpoint that has not been reset answers an arriving segment, whose true
      position is a and whose acknowledgment means k, exactly if it calls for an answer; and it is
      reset exactly by a reset that comes after its own SYN. */
  lemma AnsweredIff(n: Net, evs: seq<Event>, g: TCPSegment, a: nat, k: nat)
    requires Fresh(n) && Valid(n) && Legal(n, evs) && !Run(n, evs).me.unclear && g in Run(n, evs).heard
    requires SI.SegmentAt(Run(n, evs).peer.sender, g, a)
    requires g.header.ack ==> AckAt(Run(n, evs).me.sender, Run(n, evs).peer.receiver, g, k)
    ensures var c, c' := Run(n, evs).me, Act(Run(n, evs).me, Deliver(g));
            && (c'.out != [] <==> Calls(c, g, a, k))
            && (c'.unclear <==> g.header.rst && c.sender.next > 0)
  {
    hide Run, Inv, Handshaken, Kept, Fresh, Legal, Act, Calls, SI.SegmentAt, AckAt;
    RunKeeps(n, evs);
    RunKept(n, evs);
    TS.RunHandshaken(n, evs);
    DeliverAnswers(Run(n, evs), g, a, k);
  }

  // ---- Text and acknowledgment --------------------------------------------------

  /** A segment reaches the receiver of an endpoint, unless it is a reset or the endpoint listens
      and it is no SYN. */
  predicate Reaches(c: Connection, g: TCPSegment) {
    if c.sender.next == 0 then g.header.syn else !g.header.rst
  }

  lemma RouteReaches(c: Connection, g: TCPSegment)
    requires c.Valid() && (c.receiver.isn.Some? ==> c.sender.next > 0)
    ensures SameReceived(if Reaches(c, g) then c.receiver.SegmentReceived(g).0 else c.receiver, c.Route(g).receiver)
  {
    hide Sender.FillWindow, Sender.AckReceived, Sender.AcceptsAck, Receiver.SegmentReceived;
  }

  /** The receiver of c takes of the text of g, which stands at position a. */
  predicate TakesText(c: Connection, g: TCPSegment, a: nat) {
    Reaches(c, g) && (c.receiver.isn.None? <==> a == 0) && !c.receiver.FinRecv()
  }

  lemma TookSame(r: Receiver, r1: Receiver, r2: Receiver, g: TCPSegment, first: nat)
    requires Took(r, r1, g, first) && SameReceived(r1, r2)
    ensures Took(r, r2, g, first)
  {
  }

  lemma DeliverTakes(n: Net, g: TCPSegment, a: nat)
    requires Inv(n) && g in n.heard && SI.SegmentAt(n.peer.sender, g, a)
    ensures var r, r' := n.me.receiver, Act(n.me, Deliver(g)).receiver;
            if TakesText(n.me, g, a) then Took(r, r', g, a - One(a > 0)) && r'.isn == Some(n.peer.sender.isn)
            else SameReceived(r, r')
  {
    hide SI.Tiles, SI.FlightsGenuine, SI.Genuine, SI.NoStall, SI.SegmentAt, Follows, Acks, LingerInv, Connection.Route,
         Connection.Finish, Receiver.SegmentReceived, Took;
    var c0 := n.me.(lastReceived := n.me.now);
    RouteReaches(c0, g);
    FinishFrame(c0.Route(g));
    ReceiveTakes(n.peer.sender, n.me.receiver, g, a);
    if TakesText(n.me, g, a) {
      TookSame(n.me.receiver, n.me.receiver.SegmentReceived(g).0, Act(n.me, Deliver(g)).receiver, g, a - One(a > 0));
    }
  }

  /** In every run, of an arriving segment, whose true position is a, an endpoint takes exactly the
      bytes that lie before the end of its buffer, and the end of the stream if it lies there too:
      of the first SYN, and, once that has come and while the stream has not ended, of everything
      behind it. Of resets it takes nothing, and while it listens nothing but a SYN. */
  lemma TextTakenIff(n: Net, evs: seq<Event>, g: TCPSegment, a: nat)
    requires Fresh(n) && Valid(n) && Legal(n, evs) && g in Run(n, evs).heard
    requires SI.SegmentAt(Run(n, evs).peer.sender, g, a)
    ensures var n0 := Run(n, evs);
            var r, r' := n0.me.receiver, Act(n0.me, Deliver(g)).receiver;
            if TakesText(n0.me, g, a) then Took(r, r', g, a - One(a > 0)) && r'.isn == Some(n0.peer.sender.isn)
            else SameReceived(r, r')
  {
    hide Run, Inv, Fresh, Legal, Act, TakesText, Took, SI.SegmentAt, SameReceived;
    RunKeeps(n, evs);
    DeliverTakes(Run(n, evs), g, a);
  }

  /** The acknowledgment of g is looked at: the own SYN is out, and the peer's has been heard. */
  predicate TakesAcks(c: Connection, g: TCPSegment) {
    g.header.ack && c.sender.next > 0 && !g.header.rst && (c.receiver.isn.Some? || g.header.syn)
  }

  predicate SameEdge(s: Sender, s': Sender) { s'.ackno == s.ackno && s'.window == s.window }

  /** An endpoint that has sent its SYN and not heard the peer's takes nothing but a SYN. */
  lemma UnheardRoute(c: Connection, g: TCPSegment)
    requires c.Valid() && SI.CoreInv(c.sender) && Opened(c) && SynAlone(g)
    requires c.sender.next > 0 && c.receiver.isn.None? && !g.header.syn && !g.header.rst
    ensures c.Route(g) == c
  {
    ReceiveCases(c.receiver, g);
    UnheardIsSynSent(c.sender);
    hide SI.CoreInv, Opened, Receiver.SegmentReceived, Sender.AckReceived, Sender.AcceptsAck, Sender.FillWindow;
  }

  /** A listening endpoint, and one that gets a reset, does not look at acknowledgments. */
  lemma RouteEarly(c: Connection, g: TCPSegment)
    requires c.Valid() && (c.receiver.isn.Some? ==> c.sender.next > 0) && (c.sender.next == 0 || g.header.rst)
    ensures var s, s' := c.sender, c.Route(g).sender;
            s' == s || s' == s.FillWindow() || s' == s.(stream := s.stream.SetError())
  {
    hide Receiver.SegmentReceived, Sender.FillWindow, Sender.AckReceived;
  }

  lemma RouteSkipsAcks(c: Connection, g: TCPSegment)
    requires c.Valid() && SI.CoreInv(c.sender) && Opened(c) && SynAlone(g) && !TakesAcks(c, g)
    requires c.receiver.isn.Some? ==> c.sender.next > 0
    ensures SameEdge(c.sender, c.Route(g).sender)
  {
    SI.FillWindowFrame(c.sender);
    hide SI.CoreInv, Opened, Sender.AckReceived, Sender.FillWindow, SynAlone, Connection.Route;
    if !g.header.ack {
      RouteCases(c, g);
    } else if c.sender.next == 0 || g.header.rst {
      RouteEarly(c, g);
    } else {
      UnheardRoute(c, g);
    }
  }

  lemma DeliverAcks(n: Net, g: TCPSegment, k: nat)
    requires Inv(n) && Handshaken(n) && g in n.heard
    requires g.header.ack ==> AckAt(n.me.sender, n.peer.receiver, g, k)
    ensures var s, s' := n.me.sender, Act(n.me, Deliver(g)).sender;
            if TakesAcks(n.me, g) then s'.ackno == Max(s.ackno, k) && s'.window == g.header.win
            else s'.ackno == s.ackno && s'.window == s.window
  {
    hide SI.CoreInv, SI.Genuine, SI.NoStall, Follows, Acks, AckAt, LingerInv, Connection.Route, Connection.Finish,
         Opening, Sender.AckReceived;
    var c0 := n.me.(lastReceived := n.me.now);
    FinishFrame(c0.Route(g));
    if !TakesAcks(c0, g) {
      RouteSkipsAcks(c0, g);
    } else {
      FC.RouteAcks(c0, g);
      AckExact(n.me.sender, n.peer.receiver, g, k);
      SI.AckReceivedKeeps(n.me.sender, g.header.ackno, g.header.win);
      SI.AckReceivedFrame(n.me.sender, g.header.ackno, g.header.win);
    }
  }

  /** In every run, an arriving acknowledgment, which means k, moves the acknowledged position to k if
      that is further on, and its window is taken even if it is not; unless the peer's SYN has not
      been heard yet or the segment is a reset. */
  lemma AckTakenIff(n: Net, evs: seq<Event>, g: TCPSegment, k: nat)
    requires Fresh(n) && Valid(n) && Legal(n, evs) && g in Run(n, evs).heard
    requires g.header.ack ==> AckAt(Run(n, evs).me.sender, Run(n, evs).peer.receiver, g, k)
    ensures var c, c' := Run(n, evs).me, Act(Run(n, evs).me, Deliver(g));
            if TakesAcks(c, g) then c'.sender.ackno == Max(c.sender.ackno, k) && c'.sender.window == g.header.win
            else c'.sender.ackno == c.sender.ackno && c'.sender.window == c.sender.window
  {
    hide Run, Inv, Handshaken, Fresh, Legal, Act, TakesAcks, AckAt;
    RunKeeps(n, evs);
    TS.RunHandshaken(n, evs);
    DeliverAcks(Run(n, evs), g, k);
  }

  // ---- Segments no peer would send ----------------------------------------------

  lemma UnsentAckRoute(c: Connection, g: TCPSegment)
    requires c.Valid() && c.sender.next > 0 && c.sender.queue == [] && c.receiver.isn.Some? && !g.header.rst
    requires g.header.ack && Unwrap(g.header.ackno, c.sender.isn, c.sender.ackno) > c.sender.next
    ensures c.Route(g).sender == c.sender.SendEmpty() && c.Route(g).unclear == c.unclear
  {
    hide Receiver.Accept, Unwrap, Sender.FillWindow, Sender.PopAcked;
    StillHeard(c.receiver, g);
  }

  /** Whatever arrives: an acknowledgment of something that was never sent changes nothing at the
      sender, not even its window, and is answered with one empty segment. */
  lemma UnsentAckAnswered(c: Connection, g: TCPSegment)
    requires c.Valid() && !c.unclear && c.out == [] && c.sender.queue == []
    requires c.sender.next > 0 && c.receiver.isn.Some? && c.sender.consecutive <= MAX_RETX_ATTEMPTS
    requires g.header.ack && !g.header.rst && Unwrap(g.header.ackno, c.sender.isn, c.sender.ackno) > c.sender.next
    ensures var c' := Act(c, Deliver(g));
            && c'.sender == c.sender && |c'.out| == 1 && c'.out[0].LengthInSequenceSpace() == 0
            && c'.out[0].header.seqno == Wrap(c.sender.next, c.sender.isn)
  {
    hide Connection.Route, Connection.Finish, Connection.Stamp, Unwrap;
    var c0 := c.(lastReceived := c.now);
    UnsentAckRoute(c0, g);
    RouteOut(c0, g);
    FinishGoesOn(c0.Route(g));
    FinishFrame(c0.Route(g));
    StampResends(c0.Route(g), c0.Route(g).sender.queue[0]);
  }
}
