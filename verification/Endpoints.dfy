/** What every operation of one endpoint keeps, given a peer that behaves. */
module Endpoints {
  import opened Segments
  import opened Senders
  import opened Receivers
  import opened Directions
  import opened Connections
  import SI = SenderInvariants

  /** An endpoint c facing a peer whose sender is ps and whose receiver is pr. */
  ghost predicate EndInv(c: Connection, ps: Sender, pr: Receiver) {
    && c.Valid()
    && SI.Inv(c.sender) && SI.NoStall(c.sender) && Short(c.sender)
    && SI.CoreInv(ps) && Short(ps)
    && Follows(ps, c.receiver)
    && Follows(c.sender, pr)
    && c.sender.ackno <= pr.Ackno()
    && (c.receiver.isn.Some? ==> c.sender.next > 0)
  }

  /** The segments waiting to be collected are genuine and unstamped. */
  ghost predicate QueueInv(c: Connection) {
    forall k :: 0 <= k < |c.sender.queue| ==>
      SI.Genuine(c.sender, c.sender.queue[k]) && SI.Unstamped(c.sender.queue[k])
  }

  /** The segments handed to the network are genuine, and so are their acknowledgments. */
  ghost predicate OutInv(c: Connection, ps: Sender) {
    && c.receiver.Valid()
    && forall k :: 0 <= k < |c.out| ==> SI.Genuine(c.sender, c.out[k]) && Acks(ps, c.receiver, c.out[k])
  }

  /** c' is a later state of c. */
  ghost predicate Evolves(c: Connection, c': Connection) {
    && SI.Grows(c.sender, c'.sender)
    && Later(c.receiver, c'.receiver)
  }

  // ---- Collecting and finishing -------------------------------------------------

  lemma StampKeeps(c: Connection, ps: Sender, g: TCPSegment)
    requires c.Valid() && Follows(ps, c.receiver)
    requires SI.Genuine(c.sender, g) && SI.Unstamped(g)
    ensures SI.Genuine(c.sender, c.Stamp(g)) && Acks(ps, c.receiver, c.Stamp(g))
  {
    var a: nat :| SI.SegmentAt(c.sender, g, a);
    assert SI.SegmentAt(c.sender, c.Stamp(g), a);
    if c.Stamp(g).header.ack {
      assert AckAt(ps, c.receiver, c.Stamp(g), c.receiver.Ackno());
    }
  }

  /** The peer's receiver keeps following a sender that only moves on. */
  lemma EndStep(c: Connection, c': Connection, ps: Sender, pr: Receiver)
    requires EndInv(c, ps, pr) && c'.Valid()
    requires SI.Inv(c'.sender) && SI.NoStall(c'.sender) && Short(c'.sender)
    requires SI.Grows(c.sender, c'.sender) && c'.sender.ackno <= pr.Ackno()
    requires Follows(ps, c'.receiver) && (c'.receiver.isn.Some? ==> c'.sender.next > 0)
    ensures EndInv(c', ps, pr)
  {
    hide Follows, SI.Tiles, SI.SegmentAt;
    FollowsGrows(c.sender, c'.sender, pr);
  }

  /** Emptying the queue or marking an error leaves everything else as it was. */
  lemma SenderSame(s: Sender, s': Sender)
    requires SI.CoreInv(s)
    requires s' == s.(queue := s'.queue, stream := s.stream.(error := s'.stream.error))
    requires s.stream.error ==> s'.stream.error
    ensures SI.CoreInv(s') && SI.Grows(s, s')
    ensures (SI.NoStall(s) <==> SI.NoStall(s')) && (SI.Armed(s) <==> SI.Armed(s'))
  {
    forall k | 0 <= k < |s'.outstanding|
      ensures SI.SegmentAt(s', s'.outstanding[k].seg, s'.outstanding[k].first)
    {
      SI.SegmentStays(s, s', s.outstanding[k].seg, s.outstanding[k].first);
    }
  }

  lemma CollectedOut(c: Connection, ps: Sender, k: nat)
    requires c.Valid() && SI.CoreInv(c.sender) && Follows(ps, c.receiver) && QueueInv(c) && OutInv(c, ps)
    requires k < |c.CollectOutput().out|
    ensures SI.Genuine(c.CollectOutput().sender, c.CollectOutput().out[k])
    ensures Acks(ps, c.receiver, c.CollectOutput().out[k])
  {
    hide Follows, SI.Genuine, Acks, SI.CoreInv, SI.Grows, SI.NoStall, Connection.Stamp;
    if k >= |c.out| {
      StampKeeps(c, ps, c.sender.queue[k - |c.out|]);
    }
    SenderSame(c.sender, c.CollectOutput().sender);
    SI.GenuineStays(c.sender, c.CollectOutput().sender, c.CollectOutput().out[k]);
  }

  lemma CollectKeeps(c: Connection, ps: Sender, pr: Receiver)
    requires EndInv(c, ps, pr) && QueueInv(c) && OutInv(c, ps)
    ensures EndInv(c.CollectOutput(), ps, pr) && OutInv(c.CollectOutput(), ps)
    ensures Evolves(c, c.CollectOutput())
  {
    hide SI.Genuine, SI.CoreInv, SI.NoStall, SI.Grows, Connection.Stamp;
    var c' := c.CollectOutput();
    SenderSame(c.sender, c'.sender);
    assert Follows(ps, c.receiver);
    forall k | 0 <= k < |c'.out|
      ensures SI.Genuine(c'.sender, c'.out[k]) && Acks(ps, c'.receiver, c'.out[k])
    {
      CollectedOut(c, ps, k);
    }
    EndStep(c, c', ps, pr);
  }

  lemma ErrorFollows(s: Sender, r: Receiver)
    requires Follows(s, r)
    ensures var r' := r.(reassembler := r.reassembler.(output := r.reassembler.output.SetError()));
            Follows(s, r') && Later(r, r')
  {
  }

  lemma UnclearKeeps(c: Connection, ps: Sender, pr: Receiver)
    requires EndInv(c, ps, pr)
    ensures EndInv(c.UnclearShutdown(), ps, pr) && Evolves(c, c.UnclearShutdown())
  {
    hide SI.CoreInv, SI.NoStall, SI.Grows, Follows, Later;
    var c' := c.UnclearShutdown();
    SenderSame(c.sender, c'.sender);
    ErrorFollows(ps, c.receiver);
    EndStep(c, c', ps, pr);
  }

  lemma EvolvesChain(c: Connection, c1: Connection, c2: Connection)
    requires Evolves(c, c1) && Evolves(c1, c2)
    ensures Evolves(c, c2)
  {
  }

  /** Segments already handed over stay genuine while the endpoint moves on. */
  lemma OutStays(c: Connection, c': Connection, ps: Sender, pr: Receiver)
    requires EndInv(c, ps, pr) && EndInv(c', ps, pr) && Evolves(c, c') && OutInv(c, ps) && c'.out == c.out
    ensures OutInv(c', ps)
  {
    hide SI.Genuine, SI.CoreInv, SI.NoStall, Follows, Acks, SI.Grows, Later;
    forall k | 0 <= k < |c'.out|
      ensures SI.Genuine(c'.sender, c'.out[k]) && Acks(ps, c'.receiver, c'.out[k])
    {
      SI.GenuineStays(c.sender, c'.sender, c.out[k]);
      AcksStay(ps, ps, c.receiver, c'.receiver, c.out[k]);
    }
  }

  lemma SendEmptyKeeps(c: Connection, ps: Sender, pr: Receiver)
    requires EndInv(c, ps, pr) && OutInv(c, ps) && c.sender.next > 0 && c.sender.queue == []
    ensures EndInv(c.SendEmpty(), ps, pr) && OutInv(c.SendEmpty(), ps) && Evolves(c, c.SendEmpty())
  {
    hide SI.CoreInv, SI.Genuine, SI.NoStall, SI.Grows, Follows, Acks;
    var c1 := c.(sender := c.sender.SendEmpty());
    SI.SendEmptyKeeps(c.sender);
    assert SI.NoStall(c1.sender) by { SenderSame(c.sender, c1.sender); }
    EndStep(c, c1, ps, pr);
    assert Later(c.receiver, c1.receiver);
    OutStays(c, c1, ps, pr);
    CollectKeeps(c1, ps, pr);
    EvolvesChain(c, c1, c1.CollectOutput());
  }

  lemma GiveUpKeeps(c: Connection, ps: Sender, pr: Receiver)
    requires EndInv(c, ps, pr) && OutInv(c, ps) && c.sender.queue == []
    ensures EndInv(c.GiveUp(), ps, pr) && OutInv(c.GiveUp(), ps) && Evolves(c, c.GiveUp())
    ensures c.GiveUp().sender.queue == []
  {
    if c.sender.consecutive > MAX_RETX_ATTEMPTS {
      var c1 := c.UnclearShutdown();
      UnclearKeeps(c, ps, pr);
      OutStays(c, c1, ps, pr);
      SendEmptyKeeps(c1, ps, pr);
      EvolvesChain(c, c1, c1.SendEmpty());
    }
  }

  /** Collecting the output and testing for the end keeps the endpoint sound. */
  lemma FinishKeeps(c: Connection, ps: Sender, pr: Receiver)
    requires EndInv(c, ps, pr) && QueueInv(c) && OutInv(c, ps)
    ensures EndInv(c.Finish(), ps, pr) && OutInv(c.Finish(), ps) && Evolves(c, c.Finish())
    ensures c.Finish().sender.queue == []
  {
    hide SI.CoreInv, SI.Genuine, SI.NoStall, SI.Grows, Follows, Later, Acks, Connection.GiveUp, Connection.Stamp;
    var c1 := c.CollectOutput();
    CollectKeeps(c, ps, pr);
    GiveUpKeeps(c1, ps, pr);
    EvolvesChain(c, c1, c1.GiveUp());
  }

  // ---- The operations -----------------------------------------------------------

  /** The sender moved on to s', the receiver did not change. */
  lemma SenderStep(c: Connection, s': Sender, ps: Sender, pr: Receiver)
    requires EndInv(c, ps, pr) && c.sender.queue == []
    requires SI.Inv(s') && SI.NoStall(s') && Short(s') && SI.Progress(c.sender, s') && s'.ackno <= pr.Ackno()
    ensures EndInv(c.(sender := s'), ps, pr) && QueueInv(c.(sender := s')) && Evolves(c, c.(sender := s'))
  {
    hide SI.FlightsGenuine, SI.Tiles, SI.NoStall, Follows, SI.Genuine;
    EndStep(c, c.(sender := s'), ps, pr);
  }

  /** fill_window after a write or end of input: s is the sender with its stream updated. */
  lemma FillStep(c: Connection, s: Sender, ps: Sender, pr: Receiver)
    requires EndInv(c, ps, pr) && c.sender.queue == [] && s.queue == []
    requires SI.Inv(s) && SI.Grows(c.sender, s) && s.ackno == c.sender.ackno && Short(s)
    ensures var c' := c.(sender := s.FillWindow());
            EndInv(c', ps, pr) && QueueInv(c') && Evolves(c, c') && c'.sender.next > 0
  {
    hide SI.FlightsGenuine, SI.Tiles, Follows, SI.Genuine, Sender.FillWindow;
    SI.FillWindowKeeps(s);
    SI.FillWindowFrame(s);
    SI.Chain(c.sender, s, s.FillWindow());
    SenderStep(c, s.FillWindow(), ps, pr);
  }

  /** The receiver took segment g, the sender did not change. */
  lemma ReceiveStep(c: Connection, g: TCPSegment, ps: Sender, pr: Receiver)
    requires EndInv(c, ps, pr) && SI.Genuine(ps, g) && c.sender.next > 0
    ensures var c' := c.(receiver := c.receiver.SegmentReceived(g).0);
            EndInv(c', ps, pr) && Evolves(c, c')
  {
    hide SI.FlightsGenuine, SI.Tiles, Follows, SI.Genuine, Receiver.SegmentReceived, SI.NoStall;
    ReceiveFollows(ps, c.receiver, g);
  }

  lemma AckStep(c: Connection, g: TCPSegment, ps: Sender, pr: Receiver)
    requires EndInv(c, ps, pr) && c.sender.queue == []
    requires g.header.ack && Acks(c.sender, pr, g)
    ensures var c' := c.(sender := c.sender.AckReceived(g.header.ackno, g.header.win));
            EndInv(c', ps, pr) && QueueInv(c') && Evolves(c, c')
  {
    hide SI.FlightsGenuine, SI.Tiles, Follows, SI.Genuine, Sender.AckReceived, Acks;
    AckWithinReceived(c.sender, pr, g);
    SI.AckReceivedKeeps(c.sender, g.header.ackno, g.header.win);
    SI.AckReceivedFrame(c.sender, g.header.ackno, g.header.win);
    SenderStep(c, c.sender.AckReceived(g.header.ackno, g.header.win), ps, pr);
  }

  lemma ReplyStep(c: Connection, ps: Sender, pr: Receiver)
    requires EndInv(c, ps, pr) && c.sender.queue == [] && c.sender.next > 0
    ensures var c' := c.(sender := c.sender.SendEmpty());
            EndInv(c', ps, pr) && QueueInv(c') && Evolves(c, c')
  {
    hide SI.FlightsGenuine, SI.Tiles, Follows, SI.Genuine;
    SI.SendEmptyKeeps(c.sender);
    SenderStep(c, c.sender.SendEmpty(), ps, pr);
  }

  lemma RouteListen(c: Connection, g: TCPSegment, ps: Sender, pr: Receiver)
    requires EndInv(c, ps, pr) && c.sender.queue == [] && SI.Genuine(ps, g)
    ensures var c' := c.(receiver := c.receiver.SegmentReceived(g).0, sender := c.sender.FillWindow());
            EndInv(c', ps, pr) && QueueInv(c') && Evolves(c, c')
  {
    hide SI.Inv, SI.Genuine, SI.NoStall, Follows, SI.Grows, Later, Sender.FillWindow, Receiver.SegmentReceived;
    assert SI.Grows(c.sender, c.sender) by { GrowsRefl(c.sender); }
    FillStep(c, c.sender, ps, pr);
    var c1 := c.(sender := c.sender.FillWindow());
    ReceiveStep(c1, g, ps, pr);
    EvolvesChain(c, c1, c1.(receiver := c1.receiver.SegmentReceived(g).0));
  }

  lemma GrowsRefl(s: Sender)
    ensures SI.Grows(s, s)
  {
  }

  /** The rest of the route of a segment, once the receiver has seen it. */
  lemma RouteAck(c: Connection, g: TCPSegment, reply: bool, ps: Sender, pr: Receiver)
    requires EndInv(c, ps, pr) && c.sender.queue == [] && c.sender.next > 0 && Acks(c.sender, pr, g)
    ensures var s := if g.header.ack then c.sender.AckReceived(g.header.ackno, g.header.win) else c.sender;
            var c' := c.(sender := if reply && s.queue == [] then s.SendEmpty() else s);
            EndInv(c', ps, pr) && QueueInv(c') && Evolves(c, c')
  {
    hide SI.Inv, SI.Genuine, SI.NoStall, Follows, Acks, Later, Sender.AckReceived;
    var c1 := c;
    if g.header.ack {
      AckStep(c, g, ps, pr);
      c1 := c.(sender := c.sender.AckReceived(g.header.ackno, g.header.win));
    } else {
      EvolvesRefl(c, ps, pr);
    }
    if reply && c1.sender.queue == [] {
      ReplyStep(c1, ps, pr);
      EvolvesChain(c, c1, c1.(sender := c1.sender.SendEmpty()));
    }
  }

  lemma EvolvesRefl(c: Connection, ps: Sender, pr: Receiver)
    requires EndInv(c, ps, pr)
    ensures Evolves(c, c)
  {
  }

  lemma RouteOther(c: Connection, g: TCPSegment, ps: Sender, pr: Receiver)
    requires EndInv(c, ps, pr) && c.sender.queue == [] && !c.Listen() && !g.header.rst
    requires SI.Genuine(ps, g) && Acks(c.sender, pr, g)
    ensures EndInv(c.Route(g), ps, pr) && QueueInv(c.Route(g)) && Evolves(c, c.Route(g))
  {
    hide SI.Inv, SI.Genuine, SI.NoStall, Follows, Acks, SI.Grows, Later, Sender.AckReceived, Receiver.SegmentReceived,
         Sender.SendEmpty, Sender.AcceptsAck;
    ReceiveStep(c, g, ps, pr);
    var (r, ok) := c.receiver.SegmentReceived(g);
    var c1 := c.(receiver := r);
    if !(c1.SynSent() && !ok) {
      var reply := !ok || (g.header.ack && !c.sender.AcceptsAck(g.header.ackno)) || g.LengthInSequenceSpace() > 0;
      RouteAck(c1, g, reply, ps, pr);
      EvolvesChain(c, c1, c.Route(g));
    }
  }

  /** Routing an incoming segment keeps the endpoint sound. */
  lemma RouteKeeps(c: Connection, g: TCPSegment, ps: Sender, pr: Receiver)
    requires EndInv(c, ps, pr) && c.sender.queue == []
    requires SI.Genuine(ps, g) && Acks(c.sender, pr, g)
    ensures EndInv(c.Route(g), ps, pr) && QueueInv(c.Route(g)) && Evolves(c, c.Route(g))
    ensures c.Route(g).out == c.out
  {
    hide SI.Inv, SI.Genuine, SI.NoStall, Follows, Acks, SI.Grows, Later, Sender.AckReceived, Sender.FillWindow,
         Receiver.SegmentReceived;
    EvolvesRefl(c, ps, pr);
    if c.Listen() {
      RouteListen(c, g, ps, pr);
    } else if g.header.rst {
      UnclearKeeps(c, ps, pr);
    } else {
      RouteOther(c, g, ps, pr);
    }
  }

  lemma ReadStep(c: Connection, len: nat, ps: Sender, pr: Receiver)
    requires EndInv(c, ps, pr)
    ensures EndInv(c.Read(len), ps, pr) && Evolves(c, c.Read(len))
  {
    hide SI.Inv, SI.NoStall, Follows;
    ReadFollows(ps, c.receiver, len);
  }
}
