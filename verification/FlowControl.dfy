/** Flow control: how far a sender may run ahead of what its peer has advertised
    (section 3.7 of RFC 793). */
module FlowControl {
  import opened Bytes
  import opened Segments
  import opened Senders
  import opened Receivers
  import opened Directions
  import opened Connections
  import opened Network
  import opened Handshake
  import opened Laws
  import opened WrappingIntegers
  import SI = SenderInvariants

  /** The sender has not passed the advertised right edge by more than one position (the SYN, or
      a probe of a zero window), and knows no edge that would let it. */
  predicate Within(s: Sender, r: Receiver)
    requires r.Valid()
  {
    s.Edge() <= RightEdge(r) + 1 && s.next <= RightEdge(r) + 1
  }

  /** s' is s after operations that do not process an acknowledgment. */
  predicate Unacked(s: Sender, s': Sender) {
    s'.ackno == s.ackno && s'.window == s.window && s'.next <= Max(s.next, s.Edge())
  }

  /** s' is s after processing acknowledgment number k with window win. */
  predicate AckedBy(s: Sender, s': Sender, k: nat, win: u16) {
    && s'.ackno == Max(s.ackno, k) && s'.window == win
    && s'.next <= Max(s.next, s'.Edge())
  }

  lemma FillUnacked(s: Sender, s1: Sender)
    requires SI.CoreInv(s1) && s1.ackno == s.ackno && s1.window == s.window && s1.next == s.next
    ensures Unacked(s, s1.FillWindow())
  {
    hide SI.CoreInv, SI.NoStall, SI.Progress, Sender.FillWindow;
    SI.FillWindowKeeps(s1);
    assert s1.Valid() by { SI.CoreValid(s1); }
    SI.FillWindowFrame(s1);
  }

  lemma AckAckedBy(s: Sender, r: Receiver, g: TCPSegment, k: nat)
    requires SI.Inv(s) && Short(s) && Follows(s, r) && AckAt(s, r, g, k)
    ensures AckedBy(s, s.AckReceived(g.header.ackno, g.header.win), k, g.header.win)
  {
    hide SI.Tiles, Follows, Sender.FillWindow, Sender.PopAcked, SI.Progress;
    AckExact(s, r, g, k);
    if k > s.ackno {
      var s1 := s.(window := g.header.win, rto := s.initialTimeout, consecutive := 0, ackno := k);
      SI.PopAckedKeeps(s1);
      FillUnacked(s1.PopAcked(), s1.PopAcked());
    }
  }

  /** How an operation moves the sender: like no acknowledgment, or like one the peer has given. */
  ghost predicate Moved(s: Sender, s': Sender, r: Receiver, op: Op)
    requires r.Valid()
  {
    || Unacked(s, s')
    || (op.Deliver? && op.seg.header.ack
        && exists k: nat :: AckAt(s, r, op.seg, k) && AckedBy(s, s', k, op.seg.header.win))
  }

  lemma ThenUnacked(s: Sender, s1: Sender, s2: Sender, r: Receiver, op: Op)
    requires r.Valid() && Moved(s, s1, r, op) && Unacked(s1, s2)
    ensures Moved(s, s2, r, op)
  {
    if !Unacked(s, s1) {
      var k: nat :| AckAt(s, r, op.seg, k) && AckedBy(s, s1, k, op.seg.header.win);
      assert AckedBy(s, s2, k, op.seg.header.win);
    }
  }

  lemma RouteMoved(c: Connection, g: TCPSegment, r: Receiver)
    requires c.Valid() && SI.Inv(c.sender) && Short(c.sender)
    requires r.Valid() && Follows(c.sender, r) && Acks(c.sender, r, g)
    ensures Moved(c.sender, c.Route(g).sender, r, Deliver(g))
  {
    hide SI.CoreInv, Follows, Sender.FillWindow, Sender.AckReceived, Connection.Route;
    RouteCases(c, g);
    FillUnacked(c.sender, c.sender);
    if g.header.ack {
      var k: nat :| AckAt(c.sender, r, g, k);
      AckAckedBy(c.sender, r, g, k);
    }
  }

  lemma ActMoved(n: Net, op: Op)
    requires Inv(n) && Enabled(n, op)
    ensures Moved(n.me.sender, Act(n.me, op).sender, n.peer.receiver, op)
  {
    hide SI.CoreInv, SI.Genuine, SI.NoStall, Follows, Acks, Sender.FillWindow, Connection.Route, Connection.Finish;
    var c, r := n.me, n.peer.receiver;
    match op
    case Connect =>
      FillUnacked(c.sender, c.sender);
    case Write(data) =>
      var s := c.sender.(stream := c.sender.stream.Write(data));
      SI.WriteKeeps(c.sender, data);
      FillUnacked(c.sender, s);
      FinishFrame(c.(sender := s.FillWindow()));
    case EndInput =>
      var s := c.sender.(stream := c.sender.stream.EndInput());
      SI.EndInputKeeps(c.sender);
      FillUnacked(c.sender, s);
      FinishFrame(c.(sender := s.FillWindow()));
    case Tick(ms) =>
      FinishFrame(c.(now := c.now + ms, sender := c.sender.Tick(ms)));
    case Read(len) =>
    case Deliver(seg) =>
      var c1 := c.(lastReceived := c.now);
      RouteMoved(c1, seg, r);
      FinishFrame(c1.Route(seg));
      ThenUnacked(c.sender, c1.Route(seg).sender, Act(c, op).sender, r, op);
  }

  /** An acknowledgment numbered k is not outdated, or its window, which the sender counts from
      its own ackno, ends at most one position beyond the edge the peer has advertised. */
  predicate InEdge(s: Sender, r: Receiver, k: nat, win: u16)
    requires r.Valid()
  {
    s.ackno <= k || s.ackno + win <= RightEdge(r) + 1
  }

  lemma AckedWithinIff(s: Sender, s': Sender, r: Receiver, g: TCPSegment, k: nat)
    requires SI.CoreInv(s) && r.Valid() && s.ackno <= r.Ackno() && Within(s, r)
    requires AckAt(s, r, g, k) && AckedBy(s, s', k, g.header.win)
    ensures Within(s', r) <==> InEdge(s, r, k, g.header.win)
  {
    hide SI.Tiles, SI.FlightsGenuine, Receiver.Advertised;
  }

  /** Taking a genuine acknowledgment keeps a sender within the window in exactly this case: it
      is not older than the newest one taken, or its window is small enough to do no harm. The
      window of an outdated acknowledgment is taken before its age is looked at. */
  lemma AckWithinIff(s: Sender, r: Receiver, g: TCPSegment)
    requires SI.Inv(s) && Short(s) && r.Valid() && Follows(s, r) && s.ackno <= r.Ackno() && Within(s, r)
    requires g.header.ack && Acks(s, r, g)
    ensures Within(s.AckReceived(g.header.ackno, g.header.win), r)
            <==> InEdge(s, r, Unwrap(g.header.ackno, s.isn, s.ackno), g.header.win)
  {
    SI.CoreValid(s);
    hide SI.CoreInv, Follows, Sender.AckReceived, Within, InEdge, RightEdge, AckedBy, Unwrap;
    var k: nat :| AckAt(s, r, g, k);
    AckExact(s, r, g, k);
    AckAckedBy(s, r, g, k);
    AckedWithinIff(s, s.AckReceived(g.header.ackno, g.header.win), r, g, k);
  }

  /** The acknowledgment delivered, if any, does no harm. */
  predicate Harmless(n: Net, op: Op) {
    op.Deliver? && op.seg.header.ack && n.peer.receiver.Valid() ==>
      InEdge(n.me.sender, n.peer.receiver, Unwrap(op.seg.header.ackno, n.me.sender.isn, n.me.sender.ackno),
             op.seg.header.win)
  }

  lemma MovedWithin(s: Sender, s': Sender, r: Receiver, op: Op)
    requires SI.CoreInv(s) && Short(s) && r.Valid() && Follows(s, r) && s.ackno <= r.Ackno() && Within(s, r)
    requires Moved(s, s', r, op)
    requires op.Deliver? && op.seg.header.ack ==>
               InEdge(s, r, Unwrap(op.seg.header.ackno, s.isn, s.ackno), op.seg.header.win)
    ensures Within(s', r)
  {
    hide SI.CoreInv, Follows, RightEdge;
    if !Unacked(s, s') {
      var k: nat :| AckAt(s, r, op.seg, k) && AckedBy(s, s', k, op.seg.header.win);
      AckExact(s, r, op.seg, k);
      AckedWithinIff(s, s', r, op.seg, k);
    }
  }

  predicate BothWithin(n: Net)
    requires Valid(n)
  {
    Within(n.me.sender, n.peer.receiver) && Within(n.peer.sender, n.me.receiver)
  }

  lemma StepWithin(n: Net, op: Op)
    requires Inv(n) && Valid(n) && Enabled(n, op) && Harmless(n, op) && BothWithin(n)
    ensures Valid(Step(n, op)) && BothWithin(Step(n, op))
  {
    hide SI.CoreInv, SI.Genuine, SI.NoStall, Act, Follows, SI.Grows, RightEdge, Moved;
    ActMoved(n, op);
    ActSound(n, op);
    MovedWithin(n.me.sender, Act(n.me, op).sender, n.peer.receiver, op);
    EdgeNeverRetreats(n.peer.sender, n.me.receiver, n.peer.sender, Act(n.me, op).receiver);
  }

  /** In every run that delivers no outdated acknowledgment with too large a window, no sender ever
      sends more than one position beyond the right edge its peer has advertised. */
  lemma {:induction false} StaysWithinWindow(n: Net, evs: seq<Event>)
    requires Fresh(n) && Valid(n) && Legal(n, evs) && Throughout(n, evs, Harmless)
    ensures BothWithin(Run(n, evs))
  {
    hide Inv, Enabled, Step, Harmless;
    if evs != [] {
      StaysWithinWindow(n, evs[..|evs| - 1]);
      RunKeeps(n, evs[..|evs| - 1]);
      var n0, ev := Run(n, evs[..|evs| - 1]), evs[|evs| - 1];
      InvSwap(n0);
      StepWithin(Face(n0, ev.mine), ev.op);
    }
  }

  /** In every run, whatever is delivered, the right edge an endpoint advertises never retreats. */
  lemma AdvertisedEdgeGrows(n: Net, evs: seq<Event>, ev: Event)
    requires Fresh(n) && Valid(n) && Legal(n, evs) && Enabled(Face(Run(n, evs), ev.mine), ev.op)
    ensures RightEdge(Run(n, evs).me.receiver) <= RightEdge(Happen(Run(n, evs), ev).me.receiver)
    ensures RightEdge(Run(n, evs).peer.receiver) <= RightEdge(Happen(Run(n, evs), ev).peer.receiver)
  {
    hide SI.CoreInv, SI.Genuine, SI.NoStall, Enabled, Step, Follows, Run, RightEdge;
    RunKeeps(n, evs);
    var n0 := Face(Run(n, evs), ev.mine);
    InvSwap(Run(n, evs));
    StepKeeps(n0, ev.op);
    EdgeNeverRetreats(n0.peer.sender, n0.me.receiver, n0.peer.sender, Step(n0, ev.op).me.receiver);
  }

  // ---- Why the edge must not be passed ------------------------------------------

  predicate Overrun(s: Sender, r: Receiver)
    requires r.Valid()
  {
    s.next > RightEdge(r) + 1
  }

  /** The application can make this endpoint pass the edge with its next write. */
  ghost predicate MayOverrun(n: Net)
    requires Valid(n)
  {
    exists data :: Enabled(n, Op.Write(data)) && Overrun(Act(n.me, Op.Write(data)).sender, n.peer.receiver)
  }

  /** How many more bytes it takes to use up the window. */
  function Missing(s: Sender): nat {
    Max(0, s.Edge() - s.next - s.stream.Buffered())
  }

  /** The stream is open and has room for that many. */
  predicate Ample(n: Net) {
    var s := n.me.sender;
    && !s.stream.ended && Missing(s) <= s.stream.RemainingCapacity()
    && |s.stream.history| + Missing(s) + 2 <= TWO_31
  }

  /** Filling the window of an open connection gets to its edge when there are bytes enough. */
  lemma FillReachesEdge(s: Sender, data: seq<byte>)
    requires SI.Inv(s) && s.next > 0 && !s.stream.ended && |data| == Missing(s) <= s.stream.RemainingCapacity()
    ensures s.(stream := s.stream.Write(data)).FillWindow().next >= s.Edge()
    ensures s.(stream := s.stream.Write(data)).FillWindow().next >= s.next
  {
    hide SI.Tiles, SI.FlightsGenuine, Sender.FillWindow;
    var s1 := s.(stream := s.stream.Write(data));
    SI.WriteKeeps(s, data);
    SI.FillWindowKeeps(s1);
    SI.FillWindowFrame(s1);
  }

  lemma WithinStays(n: Net, data: seq<byte>)
    requires Inv(n) && Valid(n) && Enabled(n, Op.Write(data)) && Within(n.me.sender, n.peer.receiver)
    ensures !Overrun(Act(n.me, Op.Write(data)).sender, n.peer.receiver)
  {
    hide Inv, Enabled, Act, RightEdge;
    ActMoved(n, Op.Write(data));
  }

  lemma WriteOverruns(c: Connection, r: Receiver, data: seq<byte>)
    requires c.Valid() && SI.Inv(c.sender) && r.Valid() && !Within(c.sender, r)
    requires c.sender.next > 0 && !c.sender.stream.ended
    requires |data| == Missing(c.sender) <= c.sender.stream.RemainingCapacity()
    ensures Overrun(Act(c, Op.Write(data)).sender, r)
  {
    hide SI.Inv, Sender.FillWindow, Connection.Finish, RightEdge, Missing;
    FillReachesEdge(c.sender, data);
    FinishFrame(c.(sender := c.sender.(stream := c.sender.stream.Write(data)).FillWindow()));
  }

  /** An endpoint with room in its stream may overrun its peer exactly when it is not within. */
  lemma MayOverrunIff(n: Net)
    requires Inv(n) && Valid(n)
    ensures MayOverrun(n) ==> !Within(n.me.sender, n.peer.receiver)
    ensures !Within(n.me.sender, n.peer.receiver) && Ample(n) && n.me.sender.next > 0 ==> MayOverrun(n)
  {
    var s, r := n.me.sender, n.peer.receiver;
    assert SI.Inv(s);
    hide Inv, SI.Inv, Act, Within, Overrun;
    if MayOverrun(n) {
      var data :| Enabled(n, Op.Write(data)) && Overrun(Act(n.me, Op.Write(data)).sender, r);
      if Within(s, r) {
        WithinStays(n, data);
      }
    }
    if !Within(s, r) && Ample(n) && s.next > 0 {
      var data := seq(Missing(s), i => 0 as byte);
      WriteOverruns(n.me, r, data);
      assert Enabled(n, Op.Write(data));
    }
  }

  /** A receiver knows its peer's numbers from the SYN on. */
  lemma ReceiveHears(r: Receiver, g: TCPSegment)
    requires r.Valid() && (r.isn.Some? || g.header.syn)
    ensures r.SegmentReceived(g).0.isn.Some?
  {
    hide Receiver.InWindow;
  }

  /** What an arriving acknowledgment does to an endpoint that has heard its peer or does so now. */
  lemma RouteAcks(c: Connection, g: TCPSegment)
    requires c.Valid() && (c.receiver.isn.Some? || g.header.syn) && c.sender.next > 0
    requires !g.header.rst && g.header.ack
    ensures c.Route(g).sender == c.sender.AckReceived(g.header.ackno, g.header.win).(queue := c.Route(g).sender.queue)
  {
    hide Sender.AckReceived, Sender.FillWindow, Sender.AcceptsAck, Receiver.SegmentReceived;
    ReceiveHears(c.receiver, g);
  }

  /** A reset leaves window and acknowledged position alone. */
  lemma ResetUnacked(c: Connection, g: TCPSegment)
    requires c.Valid() && SI.CoreInv(c.sender) && g.header.rst
    ensures Unacked(c.sender, Act(c, Deliver(g)).sender)
  {
    hide SI.CoreInv, Sender.FillWindow, Receiver.SegmentReceived, Connection.Finish;
    FillUnacked(c.sender, c.sender);
    FinishFrame(c.(lastReceived := c.now).Route(g));
  }

  /** The arriving acknowledgment is part of a reset, which is all that counts of it, is not
      outdated, or has a window that ends at most one position beyond the advertised edge. */
  predicate HarmlessArrival(n: Net, g: TCPSegment)
    requires Valid(n)
  {
    var s := n.me.sender;
    g.header.rst || InEdge(s, n.peer.receiver, Unwrap(g.header.ackno, s.isn, s.ackno), g.header.win)
  }

  lemma HarmlessKeeps(n: Net, g: TCPSegment)
    requires Inv(n) && Valid(n) && Within(n.me.sender, n.peer.receiver) && g in n.heard
    requires g.header.ack && HarmlessArrival(n, g)
    ensures Within(Act(n.me, Deliver(g)).sender, n.peer.receiver)
  {
    hide SI.CoreInv, SI.Genuine, SI.NoStall, Follows, Act, Moved, RightEdge, InEdge;
    if g.header.rst {
      ResetUnacked(n.me, g);
    } else {
      ActMoved(n, Deliver(g));
      MovedWithin(n.me.sender, Act(n.me, Deliver(g)).sender, n.peer.receiver, Deliver(g));
    }
  }

  /** An endpoint that has had something acknowledged has heard its peer. */
  lemma AckedHasHeard(n: Net)
    requires Inv(n) && Handshaken(n) && n.me.sender.ackno > 0
    ensures n.me.receiver.isn.Some? && n.me.sender.next > 0
  {
    hide SI.Tiles, SI.FlightsGenuine, SI.Genuine, SI.NoStall, Follows;
  }

  /** Among the acknowledgments that can arrive at an endpoint within the window, exactly the
      outdated ones whose window ends more than one position beyond the advertised edge are
      harmful: after them the next write can overrun the peer, after all others it cannot. */
  lemma HarmfulArrivalIff(n: Net, g: TCPSegment)
    requires Inv(n) && Valid(n) && Handshaken(n) && Within(n.me.sender, n.peer.receiver)
    requires g in n.heard && g.header.ack
    ensures var n' := Step(n, Deliver(g));
            && Valid(n')
            && (MayOverrun(n') ==> !HarmlessArrival(n, g))
            && (!HarmlessArrival(n, g) && Ample(n') ==> MayOverrun(n'))
  {
    StepKeeps(n, Deliver(g));
    if HarmlessArrival(n, g) {
      HarmlessKeeps(n, g);
    } else {
      AckedHasHeard(n);
      ArrivalWithinIff(n, g);
    }
    hide Inv, Handshaken, Act, Within, InEdge, MayOverrun, Ample;
    MayOverrunIff(Step(n, Deliver(g)));
  }

  lemma ArrivalWithinIff(n: Net, g: TCPSegment)
    requires Inv(n) && Valid(n) && Within(n.me.sender, n.peer.receiver)
    requires g in n.heard && g.header.ack && !g.header.rst && n.me.receiver.isn.Some? && n.me.sender.next > 0
    ensures var s, s' := n.me.sender, Act(n.me, Deliver(g)).sender;
            && (Within(s', n.peer.receiver)
                <==> InEdge(s, n.peer.receiver, Unwrap(g.header.ackno, s.isn, s.ackno), g.header.win))
            && s'.next > 0
  {
    hide SI.CoreInv, SI.Genuine, SI.NoStall, Follows, Sender.AckReceived, Connection.Route, Connection.Finish,
         InEdge, Acks;
    var c0 := n.me.(lastReceived := n.me.now);
    AckWithinIff(n.me.sender, n.peer.receiver, g);
    RouteAcks(c0, g);
    FinishFrame(c0.Route(g));
    SI.AckReceivedKeeps(n.me.sender, g.header.ackno, g.header.win);
  }
}
