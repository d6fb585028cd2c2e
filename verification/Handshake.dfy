/** What the opening handshake guarantees: a SYN travels alone, every later segment carries an
    acknowledgment, and a sender hears nothing before its receiver has seen the peer's SYN. */
module Handshake {
  import opened Bytes
  import opened Segments
  import opened Senders
  import opened Receivers
  import opened Directions
  import opened Connections
  import opened Endpoints
  import opened Network
  import opened WrappingIntegers
  import R = Reassembly
  import SI = SenderInvariants

  /** Before the first acknowledgment the window admits the SYN alone. */
  predicate Opening(s: Sender) {
    && (s.ackno == 0 ==> s.window == 1 && s.next <= 1)
    && (s.outstanding != [] && s.outstanding[0].first == 0 ==> s.ackno == 0)
  }

  predicate SynAlone(g: TCPSegment) {
    g.header.syn ==> g.LengthInSequenceSpace() == 1
  }

  /** Segments queued since s: a SYN stands alone, and before the first acknowledgment nothing
      else is sent. */
  predicate QueuesOpening(s: Sender, s': Sender) {
    && s.queue <= s'.queue
    && forall k :: |s.queue| <= k < |s'.queue| ==>
         SynAlone(s'.queue[k]) && (s'.ackno == 0 ==> s'.queue[k].header.syn)
  }

  /** Once the SYN is out, a new segment goes behind the others and carries no SYN. */
  lemma EmitNoSyn(s: Sender, room: nat)
    requires SI.CoreInv(s) && s.next > 0 && room > 0 && s.CanSend()
    ensures s.Emit(room).queue == s.queue + [s.NextFlight(room).seg] && !s.NextFlight(room).seg.header.syn
    ensures s.Emit(room).outstanding == s.outstanding + [s.NextFlight(room)]
    ensures s.NextFlight(room).first > 0 && s.Emit(room).next > 0
  {
    hide SI.SegmentAt, SI.Grows;
    s.EmitUsesRoom(room);
    SI.EmitCounts(s, room);
    SI.TilesAppend(s.outstanding, s.next - s.inFlight, s.next, s.NextFlight(room));
  }

  lemma {:induction false} FillLoopNoSyn(s: Sender, room: nat)
    requires SI.CoreInv(s) && s.next > 0
    ensures var s' := s.FillLoop(room);
            && s.queue <= s'.queue
            && (forall k :: |s.queue| <= k < |s'.queue| ==> !s'.queue[k].header.syn)
            && (s'.outstanding != [] && s'.outstanding[0].first == 0 ==>
                  s.outstanding != [] && s.outstanding[0] == s'.outstanding[0])
    decreases room
  {
    hide SI.CoreInv, SI.Progress, Sender.Emit, Sender.NextFlight, Sender.CanSend;
    SI.CoreValid(s);
    if room > 0 && s.CanSend() {
      s.EmitUsesRoom(room);
      EmitNoSyn(s, room);
      SI.EmitKeeps(s, room);
      FillLoopNoSyn(s.Emit(room), room - s.NextFlight(room).seg.LengthInSequenceSpace());
    }
  }

  /** The very first call of fill_window sends exactly the SYN. */
  lemma FirstFill(s: Sender)
    requires SI.CoreInv(s) && s.next == 0 && s.window == 1
    ensures var s' := s.FillWindow();
            && s' == s.Emit(1) && s'.next == 1
            && s'.queue == s.queue + [s.NextFlight(1).seg]
            && s.NextFlight(1).seg.header.syn && s.NextFlight(1).seg.LengthInSequenceSpace() == 1
  {
    hide SI.Tiles, SI.FlightsGenuine;
    s.EmitUsesRoom(1);
    SI.EmitCounts(s, 1);
    assert s.FillLoop(1) == s.Emit(1).FillLoop(0);
  }

  lemma FillOpening(s: Sender)
    requires SI.CoreInv(s) && Opening(s)
    ensures Opening(s.FillWindow()) && QueuesOpening(s, s.FillWindow())
  {
    hide Sender.FillLoop, SI.FlightsGenuine;
    SI.FillWindowFrame(s);
    SI.FillWindowKeeps(s);
    if s.next == 0 {
      FirstFill(s);
    } else if s.ackno > 0 && s.Edge() > s.next {
      FillLoopNoSyn(s, s.Edge() - s.next);
    }
  }

  lemma AckOpening(s: Sender, number: u32, win: u16)
    requires SI.Inv(s) && Opening(s) && 0 < Unwrap(number, s.isn, s.ackno) <= s.next
    ensures Opening(s.AckReceived(number, win)) && QueuesOpening(s, s.AckReceived(number, win))
    ensures s.AckReceived(number, win).ackno > 0
  {
    hide Sender.FillWindow, Sender.PopAcked, SI.NoStall, SI.Progress;
    var arrived := Unwrap(number, s.isn, s.ackno);
    if arrived > s.ackno {
      var s1 := s.(window := win, rto := s.initialTimeout, consecutive := 0, ackno := arrived);
      SI.PopAckedKeeps(s1);
      SI.TilesOrdered(s.outstanding, s.next - s.inFlight, s.next);
      SI.TilesOrdered(s1.PopAcked().outstanding, s1.PopAcked().next - s1.PopAcked().inFlight, s.next);
      FillOpening(s1.PopAcked());
      SI.FillWindowFrame(s1.PopAcked());
    }
  }

  lemma TickOpening(s: Sender, ms: nat)
    requires SI.Inv(s) && Opening(s)
    ensures Opening(s.Tick(ms)) && QueuesOpening(s, s.Tick(ms)) && s.Tick(ms).ackno == s.ackno
  {
    if s.outstanding != [] {
      SI.TilesOrdered(s.outstanding, s.next - s.inFlight, s.next);
      assert SI.SegmentAt(s, s.outstanding[0].seg, s.outstanding[0].first);
    }
  }

  // ---- One endpoint -------------------------------------------------------------

  ghost predicate Opened(c: Connection) {
    && Opening(c.sender)
    && (c.receiver.Listen() ==> c.sender.ackno == 0)
    && (c.receiver.FinRecv() ==> c.sender.ackno > 0)
    && (c.unclear <==> c.sender.stream.error)
    && (c.unclear <==> c.receiver.reassembler.output.error)
  }

  predicate QueueOpened(c: Connection) {
    forall k :: 0 <= k < |c.sender.queue| ==>
      SynAlone(c.sender.queue[k]) && (c.receiver.Listen() ==> c.sender.queue[k].header.syn)
  }

  /** A segment on the wire: a lone SYN, or one that acknowledges or resets. */
  predicate Proper(g: TCPSegment) {
    SynAlone(g) && (g.header.syn || g.header.ack || g.header.rst)
  }

  predicate OutProper(c: Connection) {
    forall k :: 0 <= k < |c.out| ==> Proper(c.out[k])
  }

  lemma CollectOpened(c: Connection)
    requires c.Valid() && Opened(c) && QueueOpened(c) && OutProper(c)
    ensures Opened(c.CollectOutput()) && OutProper(c.CollectOutput())
  {
    var c' := c.CollectOutput();
    forall k | 0 <= k < |c'.out|
      ensures Proper(c'.out[k])
    {
      if k >= |c.out| {
        assert c'.out[k] == c.Stamp(c.sender.queue[k - |c.out|]);
      }
    }
  }

  lemma GiveUpOpened(c: Connection)
    requires c.Valid() && Opened(c) && c.sender.queue == [] && OutProper(c)
    ensures Opened(c.GiveUp()) && OutProper(c.GiveUp())
  {
    if c.sender.consecutive > MAX_RETX_ATTEMPTS {
      var c1 := c.UnclearShutdown();
      var c2 := c1.(sender := c1.sender.SendEmpty());
      assert c2.StampAll(c2.sender.queue) == [c2.Stamp(c2.sender.queue[0])];
    }
  }

  /** The flags as the last phase of an operation leaves them. */
  predicate Settled(c: Connection) {
    && (!c.linger ==> c.receiver.FinRecv())
    && (c.receiver.FinRecv() && !c.sender.stream.Eof() ==> !c.linger)
    && (c.TimeWait() && !c.linger ==> c.clear)
  }

  lemma FinishOpened(c: Connection)
    requires c.Valid() && Opened(c) && QueueOpened(c) && OutProper(c) && (!c.linger ==> c.receiver.FinRecv())
    ensures Opened(c.Finish()) && OutProper(c.Finish()) && Settled(c.Finish())
  {
    hide Connection.GiveUp, Connection.Stamp, Opening, Proper;
    CollectOpened(c);
    var c1 := c.CollectOutput();
    GiveUpOpened(c1);
    assert c1.GiveUp().linger == c.linger && c1.GiveUp().clear == c.clear
           && c1.GiveUp().receiver.FinRecv() == c.receiver.FinRecv() by { GiveUpFlags(c1); }
  }

  lemma GiveUpFlags(c: Connection)
    requires c.Valid()
    ensures c.GiveUp().linger == c.linger && c.GiveUp().clear == c.clear
    ensures c.GiveUp().receiver.FinRecv() == c.receiver.FinRecv()
  {
    hide Connection.Stamp;
  }

  lemma ReceiveError(r: Receiver, g: TCPSegment)
    requires R.Inv(r.reassembler)
    ensures r.SegmentReceived(g).0.reassembler.output.error == r.reassembler.output.error
  {
    hide R.Reassembler.Push, Receiver.InWindow;
    if r.isn.Some? {
      R.PushKeeps(r.reassembler, g.payload, r.Index(g), g.header.fin);
    }
    if g.header.syn {
      var r1 := r.(isn := Some(g.header.seqno));
      R.PushKeeps(r1.reassembler, g.payload, r1.Index(g), g.header.fin);
    }
  }

  /** How the receiver takes a proper segment, apart from data on an open connection. */
  lemma ReceiveCases(r: Receiver, g: TCPSegment)
    requires r.Valid() && SynAlone(g)
    ensures g.header.syn && r.Listen() ==> r.SegmentReceived(g) == (r.(isn := Some(g.header.seqno)), true)
    ensures g.header.syn && !r.Listen() ==> r.SegmentReceived(g) == (r, false)
    ensures !g.header.syn && r.Listen() ==> r.SegmentReceived(g) == (r, false)
    ensures !r.Listen() ==> !r.SegmentReceived(g).0.Listen()
  {
    hide R.Reassembler.Push;
  }

  /** A sender that has heard nothing still has its SYN in flight. */
  lemma UnheardIsSynSent(s: Sender)
    requires SI.CoreInv(s) && s.ackno == 0 && s.next > 0
    ensures s.SynSent()
  {
  }

  lemma AckRouted(c: Connection, g: TCPSegment, pr: Receiver)
    requires SI.Inv(c.sender) && Short(c.sender) && Follows(c.sender, pr) && g.header.ack && Acks(c.sender, pr, g)
    requires Opening(c.sender)
    ensures var s' := c.sender.AckReceived(g.header.ackno, g.header.win);
            && Opening(s') && QueuesOpening(c.sender, s') && s'.ackno > 0 && s'.ackno >= c.sender.ackno
            && s'.stream.error == c.sender.stream.error
  {
    hide Sender.AckReceived, SI.Tiles, SI.FlightsGenuine, SI.NoStall;
    var k: nat :| AckAt(c.sender, pr, g, k);
    AckExact(c.sender, pr, g, k);
    AckOpening(c.sender, g.header.ackno, g.header.win);
    SI.AckReceivedKeeps(c.sender, g.header.ackno, g.header.win);
    SI.AckReceivedFrame(c.sender, g.header.ackno, g.header.win);
  }

  /** The part of the route that handles the acknowledgment, on an endpoint that has seen the
      peer's SYN. */
  lemma AckOpened(c: Connection, g: TCPSegment, reply: bool, pr: Receiver)
    requires SI.Inv(c.sender) && Short(c.sender) && Follows(c.sender, pr) && Acks(c.sender, pr, g)
    requires !c.receiver.Listen() && c.sender.queue == [] && Opening(c.sender)
    requires c.receiver.FinRecv() ==> c.sender.ackno > 0 || g.header.ack
    requires (c.unclear <==> c.sender.stream.error) && (c.unclear <==> c.receiver.reassembler.output.error)
    ensures var s := if g.header.ack then c.sender.AckReceived(g.header.ackno, g.header.win) else c.sender;
            var c' := c.(sender := if reply && s.queue == [] then s.SendEmpty() else s);
            Opened(c') && QueueOpened(c')
  {
    hide Sender.AckReceived, SI.CoreInv, Follows, Acks;
    if g.header.ack {
      AckRouted(c, g, pr);
    }
  }

  /** The route of a segment that is neither a first SYN nor a reset. */
  lemma RouteOtherOpened(c: Connection, g: TCPSegment, ps: Sender, pr: Receiver)
    requires EndInv(c, ps, pr) && c.sender.queue == [] && Opened(c) && !c.Listen() && !g.header.rst
    requires Acks(c.sender, pr, g) && Proper(g)
    ensures Opened(c.Route(g)) && QueueOpened(c.Route(g))
  {
    hide Sender.AckReceived, Sender.FillWindow, Sender.SendEmpty, Sender.AcceptsAck, Receiver.SegmentReceived,
         SI.Tiles, SI.FlightsGenuine, SI.NoStall, Acks, Opening;
    ReceiveCases(c.receiver, g);
    ReceiveError(c.receiver, g);
    var (r, ok) := c.receiver.SegmentReceived(g);
    if r.Listen() {
      UnheardIsSynSent(c.sender);
    } else {
      var reply := !ok || (g.header.ack && !c.sender.AcceptsAck(g.header.ackno)) || g.LengthInSequenceSpace() > 0;
      AckOpened(c.(receiver := r), g, reply, pr);
    }
  }

  lemma RouteOpened(c: Connection, g: TCPSegment, ps: Sender, pr: Receiver)
    requires EndInv(c, ps, pr) && c.sender.queue == [] && Opened(c)
    requires Acks(c.sender, pr, g) && Proper(g)
    ensures Opened(c.Route(g)) && QueueOpened(c.Route(g))
  {
    hide Sender.AckReceived, Sender.FillWindow, Receiver.SegmentReceived, SI.CoreInv, SI.NoStall, Follows, Acks;
    if c.Listen() {
      ReceiveCases(c.receiver, g);
      FillOpening(c.sender);
      SI.FillWindowFrame(c.sender);
    } else if !g.header.rst {
      RouteOtherOpened(c, g, ps, pr);
    }
  }

  // ---- Two endpoints ------------------------------------------------------------

  /** An endpoint between operations, and everything it has sent. */
  ghost predicate Greeted(c: Connection, sent: set<TCPSegment>) {
    && Opened(c) && Settled(c)
    && forall g :: g in sent ==> Proper(g)
  }

  ghost predicate Handshaken(n: Net) {
    Greeted(n.me, n.sent) && Greeted(n.peer, n.heard)
  }

  lemma FillFinished(c: Connection, s: Sender)
    requires c.Valid() && Opened(c) && Settled(c) && c.sender.queue == [] && c.out == []
    requires SI.CoreInv(s) && s == c.sender.(stream := s.stream) && s.stream.error == c.sender.stream.error
    ensures var c' := c.(sender := s.FillWindow()).Finish();
            Opened(c') && OutProper(c') && Settled(c')
  {
    hide Sender.FillWindow, SI.CoreInv, Connection.Finish;
    FillOpening(s);
    SI.CoreValid(s);
    SI.FillWindowFrame(s);
    FinishOpened(c.(sender := s.FillWindow()));
  }

  lemma ConnectOpened(c: Connection)
    requires c.Valid() && SI.CoreInv(c.sender) && Opened(c) && Settled(c) && c.sender.queue == [] && c.out == []
    ensures Opened(c.Connect()) && OutProper(c.Connect()) && Settled(c.Connect())
  {
    hide Sender.FillWindow, SI.CoreInv, Connection.Stamp;
    if c.Listen() {
      FillOpening(c.sender);
      SI.FillWindowFrame(c.sender);
      CollectOpened(c.(sender := c.sender.FillWindow()));
    }
  }

  lemma ActOpened(n: Net, op: Op)
    requires Inv(n) && Enabled(n, op) && Handshaken(n)
    ensures Opened(Act(n.me, op)) && OutProper(Act(n.me, op)) && Settled(Act(n.me, op))
  {
    hide SI.CoreInv, SI.Genuine, SI.NoStall, Follows, Acks, Sender.FillWindow, Sender.Tick, Connection.Route,
         Connection.Finish, Connection.Connect, Opened, Settled, Proper, OutProper;
    var c := n.me;
    match op
    case Connect =>
      ConnectOpened(c);
    case Write(data) =>
      SI.WriteKeeps(c.sender, data);
      FillFinished(c, c.sender.(stream := c.sender.stream.Write(data)));
    case EndInput =>
      SI.EndInputKeeps(c.sender);
      FillFinished(c, c.sender.(stream := c.sender.stream.EndInput()));
    case Tick(ms) =>
      TickOpened(c, ms);
    case Read(len) =>
      ReadOpened(c, len);
    case Deliver(seg) =>
      DeliverOpened(c, seg, n.peer.sender, n.peer.receiver);
  }

  lemma TickOpened(c: Connection, ms: nat)
    requires c.Valid() && SI.Inv(c.sender) && Opened(c) && Settled(c) && c.sender.queue == [] && c.out == []
    ensures Opened(c.Tick(ms)) && OutProper(c.Tick(ms)) && Settled(c.Tick(ms))
  {
    hide Sender.Tick, SI.CoreInv, Connection.Finish;
    TickOpening(c.sender, ms);
    SI.TickFrame(c.sender, ms);
    FinishOpened(c.(now := c.now + ms, sender := c.sender.Tick(ms)));
  }

  lemma ReadOpened(c: Connection, len: nat)
    requires c.Valid() && Opened(c) && Settled(c) && c.out == []
    ensures Opened(c.Read(len)) && OutProper(c.Read(len)) && Settled(c.Read(len))
  {
  }

  lemma DeliverOpened(c: Connection, g: TCPSegment, ps: Sender, pr: Receiver)
    requires EndInv(c, ps, pr) && Opened(c) && Settled(c) && c.sender.queue == [] && c.out == []
    requires SI.Genuine(ps, g) && Acks(c.sender, pr, g) && Proper(g)
    ensures Opened(c.SegmentReceived(g)) && OutProper(c.SegmentReceived(g)) && Settled(c.SegmentReceived(g))
  {
    hide SI.Inv, SI.NoStall, SI.Genuine, Follows, SI.Grows, Acks, Connection.Route, Connection.Finish;
    var c1 := c.(lastReceived := c.now);
    RouteOpened(c1, g, ps, pr);
    RouteKeeps(c1, g, ps, pr);
    RouteFlags(c1, g);
    FinishOpened(c1.Route(g));
  }

  lemma StepHandshaken(n: Net, op: Op)
    requires Inv(n) && Enabled(n, op) && Handshaken(n)
    ensures Handshaken(Step(n, op))
  {
    hide Inv, Enabled, Act;
    assert n.me.Valid() by { MeValid(n); }
    ActOpened(n, op);
  }

  lemma MeValid(n: Net)
    requires Inv(n)
    ensures n.me.Valid()
  {
  }
}
