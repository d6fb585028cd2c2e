/** What an operation of an endpoint hands to the network: which segments, in which order, with
    which acknowledgment and window, and when there are any at all. */
module Outgoing {
  import opened Bytes
  import opened Segments
  import opened Senders
  import opened Receivers
  import opened Directions
  import opened Connections
  import opened Endpoints
  import opened Network
  import opened Laws
  import opened Filling
  import opened Copies
  import opened WrappingIntegers
  import SI = SenderInvariants

  // ---- Acknowledgment and window ------------------------------------------------

  /** g carries what the receiver of c has to say: the first position it lacks, and how much room
      its stream has now that the application has read what it has. */
  predicate Stamped(c: Connection, g: TCPSegment) {
    var r, t := c.receiver, c.receiver.reassembler.output;
    && (g.header.rst <==> c.unclear)
    && (g.header.ack <==> r.isn.Some? && !c.unclear)
    && (g.header.ack ==>
          && g.header.ackno == WrappingIntegers.Wrap(1 + |t.history| + One(t.ended), r.isn.value)
          && g.header.win == Min(65535, t.capacity - (|t.history| - t.read)))
  }

  lemma StampStamps(c: Connection, ps: Sender, g: TCPSegment)
    requires c.Valid() && Follows(ps, c.receiver) && SI.Unstamped(g)
    ensures Stamped(c, c.Stamp(g))
  {
  }

  /** Marking the streams as failed does not matter to a stamp. */
  lemma SameStamped(c: Connection, c': Connection, g: TCPSegment)
    requires Stamped(c, g) && c'.unclear == c.unclear
    requires c'.receiver == c.receiver.(reassembler := c.receiver.reassembler.(output :=
                              c.receiver.reassembler.output.(error := c'.receiver.reassembler.output.error)))
    ensures Stamped(c', g)
  {
  }

  lemma CollectStamps(c: Connection, ps: Sender)
    requires c.Valid() && Follows(ps, c.receiver) && c.out == []
    requires forall k :: 0 <= k < |c.sender.queue| ==> SI.Unstamped(c.sender.queue[k])
    ensures forall g :: g in c.CollectOutput().out ==> Stamped(c, g)
  {
    hide Connection.Stamp, Follows, Stamped;
    forall g | g in c.CollectOutput().out
      ensures Stamped(c, g)
    {
      var k :| 0 <= k < |c.CollectOutput().out| && c.CollectOutput().out[k] == g;
      StampStamps(c, ps, c.sender.queue[k]);
    }
  }

  /** An endpoint that goes on hands over exactly what was collected. */
  lemma FinishGoesOn(c: Connection)
    requires c.Valid() && c.out == [] && c.sender.consecutive <= MAX_RETX_ATTEMPTS
    ensures c.Finish().out == c.CollectOutput().out && c.Finish().sender == c.sender.(queue := [])
  {
    hide Connection.Stamp;
  }

  /** One that gives up sends a reset, and nothing else unless it was reset already. */
  lemma FinishResets(c: Connection, g: TCPSegment)
    requires c.Valid() && c.out == [] && c.sender.consecutive > MAX_RETX_ATTEMPTS
    requires forall k :: 0 <= k < |c.sender.queue| ==> SI.Unstamped(c.sender.queue[k])
    requires c.unclear || c.sender.queue == []
    requires g in c.Finish().out
    ensures g.header.rst && !g.header.ack
  {
    var c1 := c.CollectOutput();
    var c2 := c1.UnclearShutdown();
    var queue := c2.sender.SendEmpty().queue;
    assert queue[1..] == [];
    if g in c1.out {
      var k :| 0 <= k < |c1.out| && c1.out[k] == g;
      assert g == c.Stamp(c.sender.queue[k]);
    }
  }

  lemma FinishStamps(c: Connection, ps: Sender)
    requires c.Valid() && Follows(ps, c.receiver) && c.out == []
    requires forall k :: 0 <= k < |c.sender.queue| ==> SI.Unstamped(c.sender.queue[k])
    requires c.sender.consecutive > MAX_RETX_ATTEMPTS ==> c.unclear || c.sender.queue == []
    ensures forall g :: g in c.Finish().out ==> Stamped(c.Finish(), g)
  {
    FinishFrame(c);
    hide Connection.Finish, Connection.Stamp, Follows, Stamped, Connection.CollectOutput;
    forall g | g in c.Finish().out
      ensures Stamped(c.Finish(), g)
    {
      if c.sender.consecutive <= MAX_RETX_ATTEMPTS {
        CollectStamps(c, ps);
        FinishGoesOn(c);
        SameStamped(c, c.Finish(), g);
      } else {
        FinishResets(c, g);
        ResetStamped(c.Finish(), g);
      }
    }
  }

  lemma ResetStamped(c: Connection, g: TCPSegment)
    requires c.unclear && g.header.rst && !g.header.ack
    ensures Stamped(c, g)
  {
  }

  lemma QueueUnstamped(c: Connection)
    requires QueueInv(c)
    ensures forall k :: 0 <= k < |c.sender.queue| ==> SI.Unstamped(c.sender.queue[k])
  {
  }

  /** The state before the last phase of an operation is in order. */
  lemma SoundStamps(c: Connection, ps: Sender, pr: Receiver)
    requires EndInv(c, ps, pr) && QueueInv(c) && c.out == []
    requires c.sender.consecutive > MAX_RETX_ATTEMPTS ==> c.unclear || c.sender.queue == []
    ensures forall g :: g in c.Finish().out ==> Stamped(c.Finish(), g)
  {
    hide SI.Inv, SI.NoStall, SI.Genuine, Follows, Connection.Finish, Stamped, SI.Unstamped;
    QueueUnstamped(c);
    FinishStamps(c, ps);
  }

  /** An arriving segment makes nobody give up. */
  lemma RouteCalm(c: Connection, g: TCPSegment)
    requires c.Valid()
    ensures c.Route(g).sender.consecutive <= c.sender.consecutive
  {
    hide Sender.FillWindow, Sender.AckReceived, Connection.Route;
    RouteCases(c, g);
    SI.FillWindowFrame(c.sender);
    SI.AckReceivedFrame(c.sender, g.header.ackno, g.header.win);
  }

  lemma FillStamps(c: Connection, s: Sender, ps: Sender, pr: Receiver)
    requires EndInv(c, ps, pr) && c.sender.queue == [] && c.out == [] && s.queue == []
    requires SI.Inv(s) && SI.Grows(c.sender, s) && s.ackno == c.sender.ackno && Short(s)
    requires s.consecutive <= MAX_RETX_ATTEMPTS || c.unclear
    ensures var c' := c.(sender := s.FillWindow()).Finish();
            forall g :: g in c'.out ==> Stamped(c', g)
  {
    hide SI.CoreInv, SI.Grows, SI.NoStall, SI.Genuine, Follows, Sender.FillWindow, Connection.Finish, Stamped;
    SI.CoreValid(s);
    SI.FillWindowFrame(s);
    FillStep(c, s, ps, pr);
    SoundStamps(c.(sender := s.FillWindow()), ps, pr);
  }

  lemma ConnectStamps(c: Connection, ps: Sender, pr: Receiver)
    requires EndInv(c, ps, pr) && c.sender.queue == [] && c.out == []
    ensures forall g :: g in c.Connect().out ==> Stamped(c.Connect(), g)
  {
    hide SI.CoreInv, SI.Grows, SI.NoStall, SI.Genuine, Follows, Sender.FillWindow, Stamped, SI.Unstamped;
    if c.Listen() {
      GrowsRefl(c.sender);
      FillStep(c, c.sender, ps, pr);
      var c1 := c.(sender := c.sender.FillWindow());
      QueueUnstamped(c1);
      CollectStamps(c1, ps);
      forall g | g in c.Connect().out
        ensures Stamped(c.Connect(), g)
      {
        SameStamped(c1, c.Connect(), g);
      }
    }
  }

  lemma TickStamps(c: Connection, ms: nat, ps: Sender, pr: Receiver)
    requires EndInv(c, ps, pr) && c.sender.queue == [] && c.out == []
    requires c.sender.consecutive <= MAX_RETX_ATTEMPTS || c.unclear
    ensures forall g :: g in c.Tick(ms).out ==> Stamped(c.Tick(ms), g)
  {
    hide SI.CoreInv, SI.NoStall, SI.Genuine, Follows, SI.Grows, Sender.Tick, Connection.Finish, Stamped;
    SI.TickKeeps(c.sender, ms);
    SI.TickFrame(c.sender, ms);
    var c0 := c.(now := c.now + ms);
    SenderStep(c0, c.sender.Tick(ms), ps, pr);
    if c.sender.consecutive <= MAX_RETX_ATTEMPTS {
      TickQueues(c.sender, ms);
    }
    SoundStamps(c0.(sender := c.sender.Tick(ms)), ps, pr);
  }

  lemma DeliverStamps(c: Connection, g: TCPSegment, ps: Sender, pr: Receiver)
    requires EndInv(c, ps, pr) && c.sender.queue == [] && c.out == []
    requires SI.Genuine(ps, g) && Acks(c.sender, pr, g)
    requires c.sender.consecutive <= MAX_RETX_ATTEMPTS || c.unclear
    ensures forall g' :: g' in c.SegmentReceived(g).out ==> Stamped(c.SegmentReceived(g), g')
  {
    hide SI.Inv, SI.NoStall, SI.Genuine, Follows, SI.Grows, Later, Acks, Connection.Route, Connection.Finish, Stamped;
    var c0 := c.(lastReceived := c.now);
    RouteKeeps(c0, g, ps, pr);
    RouteCalm(c0, g);
    RouteFlags(c0, g);
    SoundStamps(c0.Route(g), ps, pr);
  }

  lemma ActStamps(n: Net, op: Op)
    requires Inv(n) && Enabled(n, op) && Kept(n.me, n.sent)
    ensures forall g :: g in Act(n.me, op).out ==> Stamped(Act(n.me, op), g)
  {
    hide SI.CoreInv, SI.Genuine, SI.NoStall, SI.Grows, Follows, Acks, LingerInv, Sender.FillWindow, Sender.Tick,
         Connection.SegmentReceived, Connection.Connect, Connection.Tick, Connection.Finish, Stamped;
    var c, ps, pr := n.me, n.peer.sender, n.peer.receiver;
    match op
    case Connect => ConnectStamps(c, ps, pr);
    case Write(data) =>
      SI.WriteKeeps(c.sender, data);
      FillStamps(c, c.sender.(stream := c.sender.stream.Write(data)), ps, pr);
    case EndInput =>
      SI.EndInputKeeps(c.sender);
      FillStamps(c, c.sender.(stream := c.sender.stream.EndInput()), ps, pr);
    case Tick(ms) => TickStamps(c, ms, ps, pr);
    case Read(len) =>
    case Deliver(seg) => DeliverStamps(c, seg, ps, pr);
  }

  /** In every run, every segment an operation hands to the network carries the receiver's state of
      that moment, if the peer's SYN has been heard: the first position it lacks, and the room that
      what was received and not read leaves in its buffer, up to 65535. It is a reset exactly if
      the endpoint has been reset. */
  lemma CarriesNewest(n: Net, evs: seq<Event>, op: Op)
    requires Fresh(n) && Valid(n) && Legal(n, evs) && Enabled(Run(n, evs), op)
    ensures var c := Act(Run(n, evs).me, op);
            forall g :: g in c.out ==> Stamped(c, g)
  {
    hide Run, Inv, Kept, Fresh, Legal, Enabled, Act, Stamped;
    RunKeeps(n, evs);
    RunKept(n, evs);
    ActStamps(Run(n, evs), op);
  }

  // ---- Which segments, in which order -------------------------------------------

  /** An empty segment that carries the next sequence number. */
  function Bare(s: Sender): TCPSegment {
    TCPSegment(DEFAULT_HEADER.(seqno := WrappingIntegers.Wrap(s.next, s.isn)), [])
  }

  /** On the way from s to s' exactly the flights fs were put in flight, behind all others. */
  ghost predicate Launches(s: Sender, s': Sender, fs: seq<Flight>) {
    && |fs| <= |s'.outstanding| && s'.outstanding[|s'.outstanding| - |fs|..] == fs
    && SI.Tiles(fs, s.next, s'.next)
    && s'.isn == s.isn
  }

  lemma FillLaunches(s: Sender) returns (fs: seq<Flight>)
    requires SI.CoreInv(s)
    ensures s.Valid() && Launches(s, s.FillWindow(), fs) && s.FillWindow().queue == s.queue + SegmentsOf(fs)
  {
    SI.CoreValid(s);
    hide SI.CoreInv, Sender.FillWindow, SI.Tiles, SI.NoStall, SI.Genuine;
    fs := FillWindowSends(s);
    SI.FillWindowKeeps(s);
  }

  lemma AckLaunches(s: Sender, number: u32, win: u16) returns (fs: seq<Flight>)
    requires SI.Inv(s)
    ensures s.Valid() && Launches(s, s.AckReceived(number, win), fs)
    ensures s.AckReceived(number, win).queue == s.queue + SegmentsOf(fs)
  {
    SI.CoreValid(s);
    hide Sender.FillWindow, Sender.PopAcked, SI.CoreInv, SI.LooseInv, SI.Progress, SI.Grows;
    var arrived := Unwrap(number, s.isn, s.ackno);
    if s.ackno < arrived <= s.next {
      var s1 := s.(window := win, rto := s.initialTimeout, consecutive := 0, ackno := arrived);
      SI.AckMoves(s, s1);
      SI.PopAckedGrows(s, s1);
      SI.PopAckedFrame(s1);
      fs := FillLaunches(s1.PopAcked());
    } else {
      fs := [];
    }
  }

  /** The queue holds the new flights in order, or, if there are none, at most one empty segment. */
  ghost predicate Queued(s: Sender, s': Sender, fs: seq<Flight>) {
    Launches(s, s', fs) && (s'.queue == SegmentsOf(fs) || (fs == [] && s'.queue == [Bare(s')]))
  }

  lemma SameQueued(s: Sender, s1: Sender, s2: Sender, fs: seq<Flight>)
    requires Queued(s, s1, fs) && s2 == s1.(stream := s2.stream)
    ensures Queued(s, s2, fs)
  {
  }

  lemma RouteQueues(c: Connection, g: TCPSegment) returns (fs: seq<Flight>)
    requires c.Valid() && SI.Inv(c.sender) && c.sender.queue == []
    ensures Queued(c.sender, c.Route(g).sender, fs)
  {
    hide Sender.FillWindow, Sender.AckReceived, Connection.Route, SI.CoreInv, SI.Tiles, Launches;
    var s, s' := c.sender, c.Route(g).sender;
    RouteCases(c, g);
    var nothing := NoLaunch(s);
    if s' == s.FillWindow() {
      fs := FillLaunches(s);
    } else if s' == s || s' == s.(stream := s.stream.SetError()) {
      fs := nothing;
      SameQueued(s, s, s', fs);
    } else {
      RouteReplyOnlyIfQuiet(c, g);
      fs := [];
      if g.header.ack {
        fs := AckLaunches(s, g.header.ackno, g.header.win);
        EmptyQueue(fs);
        BareQueued(s, s.AckReceived(g.header.ackno, g.header.win), fs);
      } else {
        BareQueued(s, s, nothing);
      }
    }
  }

  lemma NoLaunch(s: Sender) returns (fs: seq<Flight>)
    requires s.queue == []
    ensures fs == [] && Queued(s, s, fs)
  {
    fs := [];
    assert s.outstanding[|s.outstanding|..] == [];
  }

  lemma EmptyQueue(fs: seq<Flight>)
    ensures |SegmentsOf(fs)| == |fs|
  {
  }

  lemma BareQueued(s: Sender, s1: Sender, fs: seq<Flight>)
    requires Launches(s, s1, fs) && s1.queue == SegmentsOf(fs)
    ensures Queued(s, s1, fs)
    ensures fs == [] ==> Queued(s, s1.SendEmpty(), fs)
  {
  }

  /** An empty segment is added only to an empty queue. */
  lemma RouteReplyOnlyIfQuiet(c: Connection, g: TCPSegment)
    requires c.Valid()
    ensures var s, s' := c.sender, c.Route(g).sender;
            var s1 := if g.header.ack then s.AckReceived(g.header.ackno, g.header.win) else s;
            || s' == s || s' == s.FillWindow() || s' == s.(stream := s.stream.SetError())
            || s' == s1 || (s1.queue == [] && s' == s1.SendEmpty())
  {
    hide Sender.FillWindow, Sender.AckReceived, Sender.AcceptsAck, Sender.SendEmpty, Receiver.SegmentReceived;
  }

  /** The segments out are what was newly put in flight, in order; or, if that is nothing, at most
      one segment, which is empty and carries the next sequence number. */
  ghost predicate SentNew(s: Sender, s': Sender, out: seq<TCPSegment>) {
    if s'.next > s.next then
      && 0 < |out| <= |s'.outstanding|
      && s'.outstanding[|s'.outstanding| - |out|].first == s.next
      && forall k :: 0 <= k < |out| ==> Resends(out[k], s'.outstanding[|s'.outstanding| - |out| + k].seg)
    else
      |out| <= 1 && forall g :: g in out ==>
        g.header.seqno == WrappingIntegers.Wrap(s.next, s.isn) && g.LengthInSequenceSpace() == 0
  }

  lemma {:induction false} SegmentAtIndex(fs: seq<Flight>, k: nat)
    requires k < |fs|
    ensures |SegmentsOf(fs)| == |fs| && SegmentsOf(fs)[k] == fs[k].seg
  {
    if |fs| > 1 {
      SegmentAtIndex(fs[1..], if k > 0 then k - 1 else 0);
    }
  }

  lemma CollectedNew(s: Sender, c: Connection, fs: seq<Flight>)
    requires c.Valid() && c.out == [] && Queued(s, c.sender, fs)
    ensures SentNew(s, c.sender, c.CollectOutput().out)
  {
    hide Connection.Stamp, Resends;
    SI.TilesOrdered(fs, s.next, c.sender.next);
    EmptyQueue(fs);
    var out := c.CollectOutput().out;
    forall k | 0 <= k < |out|
      ensures Resends(out[k], c.sender.queue[k])
      ensures k < |fs| ==> c.sender.queue[k] == fs[k].seg
    {
      StampResends(c, c.sender.queue[k]);
      if k < |fs| {
        SegmentAtIndex(fs, k);
      }
    }
    if c.sender.next == s.next {
      forall g | g in out
        ensures g.header.seqno == WrappingIntegers.Wrap(s.next, s.isn) && g.LengthInSequenceSpace() == 0
      {
        BareStamped(c, Bare(c.sender));
      }
    }
  }

  lemma BareStamped(c: Connection, g: TCPSegment)
    requires c.Valid()
    ensures c.Stamp(g).header.seqno == g.header.seqno
    ensures c.Stamp(g).LengthInSequenceSpace() == g.LengthInSequenceSpace()
  {
  }

  lemma FinishedNew(s: Sender, c: Connection, fs: seq<Flight>)
    requires c.Valid() && c.out == [] && Queued(s, c.sender, fs) && c.sender.consecutive <= MAX_RETX_ATTEMPTS
    ensures SentNew(s, c.Finish().sender, c.Finish().out)
  {
    hide Connection.Finish, Connection.CollectOutput, Queued;
    CollectedNew(s, c, fs);
    FinishGoesOn(c);
    FinishFrame(c);
  }

  lemma FillSendsNew(c: Connection, s: Sender)
    requires c.Valid() && SI.Inv(s) && s == c.sender.(stream := s.stream) && s.queue == [] && c.out == []
    requires s.consecutive <= MAX_RETX_ATTEMPTS
    ensures s.Valid()
    ensures var c' := c.(sender := s.FillWindow()).Finish();
            SentNew(c.sender, c'.sender, c'.out)
  {
    SI.CoreValid(s);
    hide SI.CoreInv, Sender.FillWindow, Connection.Finish, SentNew;
    var fs := FillLaunches(s);
    SI.FillWindowFrame(s);
    FinishedNew(c.sender, c.(sender := s.FillWindow()), fs);
  }

  lemma ConnectSendsNew(c: Connection)
    requires c.Valid() && SI.Inv(c.sender) && c.sender.queue == [] && c.out == []
    ensures SentNew(c.sender, c.Connect().sender, c.Connect().out)
  {
    hide SI.CoreInv, Sender.FillWindow, Connection.Stamp;
    if c.Listen() {
      var fs := FillLaunches(c.sender);
      CollectedNew(c.sender, c.(sender := c.sender.FillWindow()), fs);
    }
  }

  lemma DeliverSendsNew(c: Connection, g: TCPSegment)
    requires c.Valid() && SI.Inv(c.sender) && c.sender.queue == [] && c.out == []
    requires c.sender.consecutive <= MAX_RETX_ATTEMPTS
    ensures SentNew(c.sender, c.SegmentReceived(g).sender, c.SegmentReceived(g).out)
  {
    hide SI.CoreInv, Connection.Route, Connection.Finish, SentNew;
    var c0 := c.(lastReceived := c.now);
    var fs := RouteQueues(c0, g);
    RouteCalm(c0, g);
    RouteOut(c0, g);
    FinishedNew(c.sender, c0.Route(g), fs);
  }

  lemma ActSendsNew(n: Net, op: Op)
    requires Inv(n) && Enabled(n, op) && Kept(n.me, n.sent) && !n.me.unclear && !op.Tick?
    ensures SentNew(n.me.sender, Act(n.me, op).sender, Act(n.me, op).out)
  {
    var c := n.me;
    assert c.Valid() && SI.Inv(c.sender) && c.sender.queue == [] && c.out == [];
    assert c.sender.consecutive <= MAX_RETX_ATTEMPTS;
    hide Inv, Kept, SI.CoreInv, Sender.FillWindow, Connection.SegmentReceived, Connection.Connect, Connection.Finish;
    match op
    case Connect => ConnectSendsNew(c);
    case Write(data) =>
      SI.WriteKeeps(c.sender, data);
      FillSendsNew(c, c.sender.(stream := c.sender.stream.Write(data)));
    case EndInput =>
      SI.EndInputKeeps(c.sender);
      FillSendsNew(c, c.sender.(stream := c.sender.stream.EndInput()));
    case Read(len) =>
    case Deliver(g) => DeliverSendsNew(c, g);
  }

  /** In every run, what an operation of an endpoint that has not been reset hands to the network,
      ticks aside, is exactly what it newly puts in flight, in order; or, if that is nothing, at
      most one empty segment that carries the next sequence number. */
  lemma SendsInOrder(n: Net, evs: seq<Event>, op: Op)
    requires Fresh(n) && Valid(n) && Legal(n, evs) && Enabled(Run(n, evs), op)
    requires !Run(n, evs).me.unclear && !op.Tick?
    ensures var c, c' := Run(n, evs).me, Act(Run(n, evs).me, op);
            SentNew(c.sender, c'.sender, c'.out)
  {
    hide Run, Inv, Kept, Fresh, Legal, Enabled, Act, SentNew;
    RunKeeps(n, evs);
    RunKept(n, evs);
    ActSendsNew(Run(n, evs), op);
  }
}
