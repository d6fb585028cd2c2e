/** The laws of the connection, stated over every run of two endpoints and a bad network. */
module Laws {
  import opened Bytes
  import opened Segments
  import opened Senders
  import opened Receivers
  import R = Reassembly
  import opened ReassemblyRuns
  import opened Directions
  import opened Connections
  import opened Network
  import SI = SenderInvariants

  /** One of the two endpoints acts. */
  datatype Event = Event(mine: bool, op: Op)

  predicate Valid(n: Net) { n.me.Valid() && n.peer.Valid() }

  function Face(n: Net, mine: bool): (n': Net)
    requires Valid(n)
    ensures Valid(n')
  {
    if mine then n else n.Swap()
  }

  function Happen(n: Net, ev: Event): (n': Net)
    requires Valid(n)
    ensures Valid(n')
  {
    Face(Step(Face(n, ev.mine), ev.op), ev.mine)
  }

  function Run(n: Net, evs: seq<Event>): (n': Net)
    requires Valid(n)
    ensures Valid(n')
  {
    if evs == [] then n else Happen(Run(n, evs[..|evs| - 1]), evs[|evs| - 1])
  }

  /** Every event of the run meets the guard in the state in which it happens. */
  ghost predicate Throughout(n: Net, evs: seq<Event>, guard: (Net, Op) -> bool)
    requires Valid(n)
  {
    evs == [] || (
      var prior, ev := evs[..|evs| - 1], evs[|evs| - 1];
      Throughout(n, prior, guard) && guard(Face(Run(n, prior), ev.mine), ev.op))
  }

  ghost predicate Legal(n: Net, evs: seq<Event>)
    requires Valid(n)
  {
    Throughout(n, evs, Enabled)
  }

  /** Two new endpoints with any timeouts, capacities and initial sequence numbers. */
  ghost predicate Fresh(n: Net) {
    && n.sent == {} && n.heard == {}
    && NewEndpoint(n.me) && NewEndpoint(n.peer)
  }

  ghost predicate NewEndpoint(c: Connection) {
    c == NewConnection(c.timeout, c.receiver.reassembler.output.capacity, c.sender.stream.capacity, c.sender.isn)
  }

  lemma FreshHalf(n: Net)
    requires Fresh(n)
    ensures Half(n)
  {
  }

  lemma FreshInv(n: Net)
    requires Fresh(n)
    ensures Valid(n) && Inv(n)
  {
    hide Half;
    FreshHalf(n);
    FreshHalf(n.Swap());
  }

  lemma InvSwap(n: Net)
    requires Inv(n)
    ensures Inv(n.Swap())
  {
    hide Half;
    assert n.Swap().Swap() == n;
  }

  /** The invariant of the pair holds after every legal run, however the network behaves. */
  lemma {:induction false} RunKeeps(n: Net, evs: seq<Event>)
    requires Fresh(n) && Valid(n) && Legal(n, evs)
    ensures Inv(Run(n, evs))
  {
    hide Inv, Enabled, Step, Fresh;
    if evs == [] {
      FreshInv(n);
    } else {
      RunKeeps(n, evs[..|evs| - 1]);
      var n0, ev := Run(n, evs[..|evs| - 1]), evs[|evs| - 1];
      InvSwap(n0);
      StepKeeps(Face(n0, ev.mine), ev.op);
      InvSwap(Step(Face(n0, ev.mine), ev.op));
    }
  }

  // ---- The other side -----------------------------------------------------------

  function Flip(evs: seq<Event>): (r: seq<Event>)
    ensures |r| == |evs|
  {
    seq(|evs|, k requires 0 <= k < |evs| => Event(!evs[k].mine, evs[k].op))
  }

  /** The two endpoints are interchangeable: seen from the other side, a run is a run, and it is
      legal, or careful, or guarded in any other way, exactly when it was. So everything said of
      one endpoint over every run holds of the other. */
  lemma {:induction false} RunSwap(n: Net, evs: seq<Event>, guard: (Net, Op) -> bool)
    requires Valid(n)
    ensures Valid(n.Swap()) && Run(n.Swap(), Flip(evs)) == Run(n, evs).Swap()
    ensures Throughout(n.Swap(), Flip(evs), guard) <==> Throughout(n, evs, guard)
    ensures Fresh(n) ==> Fresh(n.Swap())
  {
    hide Step, NewEndpoint;
    if evs != [] {
      var prior := evs[..|evs| - 1];
      RunSwap(n, prior, guard);
      assert Flip(evs)[..|evs| - 1] == Flip(prior);
    }
  }

  // ---- Delivery -----------------------------------------------------------------

  /** Everything the application of c has written so far. */
  function Written(c: Connection): seq<byte> { c.sender.stream.history }

  /** Everything c has put into its inbound stream so far. */
  function Delivered(c: Connection): seq<byte> { c.receiver.reassembler.output.history }

  lemma InvPrefix(n: Net)
    requires Inv(n)
    ensures Delivered(n.peer) <= Written(n.me) && Delivered(n.me) <= Written(n.peer)
  {
  }

  /** In every run, what an endpoint has delivered is a prefix of what its peer has written. */
  lemma PrefixDelivery(n: Net, evs: seq<Event>)
    requires Fresh(n) && Valid(n) && Legal(n, evs)
    ensures Delivered(Run(n, evs).peer) <= Written(Run(n, evs).me)
    ensures Delivered(Run(n, evs).me) <= Written(Run(n, evs).peer)
  {
    hide Inv, Run;
    RunKeeps(n, evs);
    InvPrefix(Run(n, evs));
  }

  lemma InvFinAcked(n: Net)
    requires Inv(n) && n.me.sender.FinAcked()
    ensures n.peer.receiver.FinRecv() && Delivered(n.peer) == Written(n.me)
  {
    FinAckedIff(n.me.sender);
    AcknoSent(n.me.sender, n.peer.receiver);
  }

  /** In every run, a sender whose FIN is acknowledged has a peer that ended its inbound stream
      and delivered exactly what was written. */
  lemma FinAckedMeansDelivered(n: Net, evs: seq<Event>)
    requires Fresh(n) && Valid(n) && Legal(n, evs) && Run(n, evs).me.sender.FinAcked()
    ensures Run(n, evs).peer.receiver.FinRecv()
    ensures Delivered(Run(n, evs).peer) == Written(Run(n, evs).me)
  {
    hide Inv, Run;
    RunKeeps(n, evs);
    InvFinAcked(Run(n, evs));
  }

  /** In every run, at most one endpoint has given up lingering. */
  lemma AtMostOneStopsLingering(n: Net, evs: seq<Event>)
    requires Fresh(n) && Valid(n) && Legal(n, evs)
    ensures Run(n, evs).me.linger || Run(n, evs).peer.linger
  {
    hide Half, Run;
    RunKeeps(n, evs);
  }

  // ---- No byte is lost ----------------------------------------------------------

  /** A FIN without payload taken before the byte in front of it: the guard the receiver lacks. */
  predicate PrematureFin(r: Receiver, g: TCPSegment) {
    r.SynRecv() && !g.header.syn && Premature(r.reassembler, g.payload, r.Index(g), g.header.fin)
  }

  /** Both receivers know the end of the stream only together with its last byte. */
  predicate Safe(n: Net) {
    && EofSafe(n.peer.receiver.reassembler, |Written(n.me)|)
    && EofSafe(n.me.receiver.reassembler, |Written(n.peer)|)
  }

  lemma PrematureInWindow(s: Sender, r: Receiver, g: TCPSegment)
    requires Follows(s, r) && r.SynRecv() && r.Index(g) == r.Position(g) - 1
    requires Premature(r.reassembler, g.payload, r.Index(g), g.header.fin)
    ensures r.InWindow(g)
  {
  }

  lemma AcceptSafe(s: Sender, r: Receiver, g: TCPSegment, a: nat)
    requires Follows(s, r) && SI.Counted(s) && Short(s) && SI.SegmentAt(s, g, a)
    requires r.isn.Some? && (a > 0 || r.Ackno() < TWO_31)
    requires EofSafe(r.reassembler, |s.stream.history|)
    ensures EofSafe(r.Accept(g).0.reassembler, |s.stream.history|)
            <==> !(r.SynRecv() && Premature(r.reassembler, g.payload, a - One(a > 0), g.header.fin))
  {
    hide R.Inv, Consistent, R.Reassembler.Push, Receiver.InWindow;
    PositionExact(s, r, g, a);
    SegmentHonest(s, g, a);
    if r.SynRecv() {
      if r.InWindow(g) {
        PushSafeIff(r.reassembler, g.payload, r.Index(g), g.header.fin, s.stream.history);
      } else if Premature(r.reassembler, g.payload, r.Index(g), g.header.fin) {
        PrematureInWindow(s, r, g);
      }
    }
  }

  /** Receiving a segment of the sender loses safety exactly when it is a premature FIN. */
  lemma ReceiveSafeIff(s: Sender, r: Receiver, g: TCPSegment)
    requires Follows(s, r) && SI.Counted(s) && Short(s) && SI.Genuine(s, g)
    requires EofSafe(r.reassembler, |s.stream.history|)
    ensures EofSafe(r.SegmentReceived(g).0.reassembler, |s.stream.history|) <==> !PrematureFin(r, g)
  {
    hide R.Inv, Consistent, R.Reassembler.Push, Receiver.InWindow;
    var a: nat :| SI.SegmentAt(s, g, a);
    if g.header.syn && r.Listen() {
      SynFollows(s, r, g, a);
      AcceptSafe(s, r.(isn := Some(g.header.seqno)), g, a);
    } else if !g.header.syn && !r.Listen() {
      PositionExact(s, r, g, a);
      AcceptSafe(s, r, g, a);
    }
  }

  /** The receiver apart from the reader's side and the error mark of its stream. */
  predicate SameReceived(r: Receiver, r': Receiver) {
    && r'.isn == r.isn && r'.reassembler.accepted == r.reassembler.accepted
    && r'.reassembler.eof == r.reassembler.eof && r'.reassembler.assembled == r.reassembler.assembled
  }

  lemma RouteReceived(c: Connection, g: TCPSegment)
    requires c.Valid()
    ensures SameReceived(c.receiver, c.Route(g).receiver)
            || SameReceived(c.receiver.SegmentReceived(g).0, c.Route(g).receiver)
  {
    hide Sender.FillWindow, Sender.AckReceived, Receiver.SegmentReceived;
  }

  /** Only an arriving segment changes what a connection has received. */
  lemma ReceivedBy(c: Connection, op: Op)
    requires c.Valid()
    ensures SameReceived(c.receiver, Act(c, op).receiver)
            || (op.Deliver? && SameReceived(c.receiver.SegmentReceived(op.seg).0, Act(c, op).receiver))
  {
    hide Sender.FillWindow, Connection.Route, Sender.Tick, Receiver.SegmentReceived, Connection.Finish;
    match op
    case Connect =>
    case Write(data) =>
      FinishFrame(c.(sender := c.sender.(stream := c.sender.stream.Write(data)).FillWindow()));
    case EndInput =>
      FinishFrame(c.(sender := c.sender.(stream := c.sender.stream.EndInput()).FillWindow()));
    case Tick(ms) =>
      FinishFrame(c.(now := c.now + ms, sender := c.sender.Tick(ms)));
    case Read(len) =>
    case Deliver(seg) =>
      RouteReceived(c.(lastReceived := c.now), seg);
      FinishFrame(c.(lastReceived := c.now).Route(seg));
  }

  /** A step is careful when it does not deliver a premature FIN. */
  predicate Careful(n: Net, op: Op) {
    op.Deliver? ==> !PrematureFin(n.me.receiver, op.seg)
  }

  /** The stream of a sender whose end is known does not change any more. */
  lemma KnownEndStays(s: Sender, s': Sender, r: Receiver)
    requires Follows(s, r) && SI.Grows(s, s') && EofSafe(r.reassembler, |s.stream.history|)
    ensures EofSafe(r.reassembler, |s'.stream.history|)
  {
  }

  /** What I do does not make my peer's receiver unsafe. */
  lemma StepPeerSafe(n: Net, op: Op)
    requires Inv(n) && Enabled(n, op) && EofSafe(n.peer.receiver.reassembler, |Written(n.me)|)
    ensures EofSafe(Step(n, op).peer.receiver.reassembler, |Written(Step(n, op).me)|)
  {
    hide Act, SI.Tiles, SI.FlightsGenuine, SI.Genuine, SI.NoStall;
    ActSound(n, op);
    KnownEndStays(n.me.sender, Act(n.me, op).sender, n.peer.receiver);
  }

  /** My own receiver becomes unsafe only by a premature FIN. */
  lemma StepMineSafe(n: Net, op: Op)
    requires Inv(n) && Enabled(n, op) && Careful(n, op) && EofSafe(n.me.receiver.reassembler, |Written(n.peer)|)
    ensures EofSafe(Step(n, op).me.receiver.reassembler, |Written(n.peer)|)
  {
    hide Act, PrematureFin, SI.Tiles, SI.FlightsGenuine, SI.Genuine, SI.NoStall, Receiver.SegmentReceived;
    ReceivedBy(n.me, op);
    if op.Deliver? {
      ReceiveSafeIff(n.peer.sender, n.me.receiver, op.seg);
    }
  }

  lemma StepSafe(n: Net, op: Op)
    requires Inv(n) && Enabled(n, op) && Safe(n) && Careful(n, op)
    ensures Safe(Step(n, op))
  {
    hide Inv, Act, Enabled, Careful, EofSafe;
    StepPeerSafe(n, op);
    StepMineSafe(n, op);
  }

  /** In a run without premature FINs both directions stay safe. */
  lemma {:induction false} RunSafe(n: Net, evs: seq<Event>)
    requires Fresh(n) && Valid(n) && Legal(n, evs) && Throughout(n, evs, Careful)
    ensures Safe(Run(n, evs))
  {
    hide Inv, Enabled, Step, Careful;
    if evs != [] {
      RunSafe(n, evs[..|evs| - 1]);
      RunKeeps(n, evs[..|evs| - 1]);
      var n0, ev := Run(n, evs[..|evs| - 1]), evs[|evs| - 1];
      InvSwap(n0);
      StepSafe(Face(n0, ev.mine), ev.op);
    }
  }

  /** Byte i of the stream rides in a segment that is in flight. */
  ghost predicate InFlight(s: Sender, i: nat) {
    i < |s.stream.history| && exists k :: 0 <= k < |s.outstanding| && CarriesByte(s, s.outstanding[k], i)
  }

  predicate CarriesByte(s: Sender, f: Flight, i: nat)
    requires i < |s.stream.history|
  {
    var index := f.first - One(f.first > 0);
    index <= i < index + |f.seg.payload| && f.seg.payload[i - index] == s.stream.history[i]
  }

  lemma {:induction false} TileAt(fs: seq<Flight>, lo: int, hi: nat, x: nat) returns (k: nat)
    requires SI.Tiles(fs, lo, hi) && lo <= x < hi
    ensures k < |fs| && fs[k].first <= x < fs[k].End()
  {
    if x < fs[0].End() {
      k := 0;
    } else {
      k := TileAt(fs[1..], fs[0].End(), hi, x);
      k := k + 1;
    }
  }

  /** The segments in flight carry every sent byte at or beyond the acknowledged position. */
  lemma UnackedInFlight(s: Sender, i: nat)
    requires SI.CoreInv(s) && i < s.stream.read && s.next - s.inFlight <= i + 1
    ensures InFlight(s, i)
  {
    var k := TileAt(s.outstanding, s.next - s.inFlight, s.next, i + 1);
    var f := s.outstanding[k];
    assert SI.SegmentAt(s, f.seg, f.first);
    assert CarriesByte(s, f, i);
  }

  /** Byte i was sent, and is neither delivered nor in flight: nobody will send it again. */
  ghost predicate Lost(n: Net, i: nat) {
    |Delivered(n.peer)| <= i < n.me.sender.stream.read && !InFlight(n.me.sender, i)
  }

  /** No flight reaches back before the first unacknowledged position. */
  lemma NotInFlight(s: Sender, i: nat)
    requires SI.CoreInv(s) && i + 2 <= s.next - s.inFlight
    ensures !InFlight(s, i)
  {
    SI.TilesOrdered(s.outstanding, s.next - s.inFlight, s.next);
  }

  /** The only byte that can be lost is the first one that an ended receiver lacks, and it is lost
      exactly when the sender has taken the acknowledgment of the end for one of the byte. */
  lemma InvLostIff(n: Net, i: nat)
    requires Inv(n)
    ensures Lost(n, i) <==>
            && i == |Delivered(n.peer)| < n.me.sender.stream.read && n.peer.receiver.FinRecv()
            && n.me.sender.next - n.me.sender.inFlight == i + 2
  {
    hide InFlight, SI.Tiles, SI.FlightsGenuine, SI.Genuine, SI.NoStall;
    var s := n.me.sender;
    if |Delivered(n.peer)| <= i < s.stream.read {
      if s.next - s.inFlight <= i + 1 {
        UnackedInFlight(s, i);
      } else {
        NotInFlight(s, i);
      }
    }
  }

  /** In every run, whatever is delivered, a byte is lost exactly in that situation. */
  lemma LostIff(n: Net, evs: seq<Event>, i: nat)
    requires Fresh(n) && Valid(n) && Legal(n, evs)
    ensures var n' := Run(n, evs);
            Lost(n', i) <==>
              && i == |Delivered(n'.peer)| < n'.me.sender.stream.read && n'.peer.receiver.FinRecv()
              && n'.me.sender.next - n'.me.sender.inFlight == i + 2
  {
    hide Inv, Run, Lost;
    RunKeeps(n, evs);
    InvLostIff(Run(n, evs), i);
  }

  /** In every run at most one byte of a direction is ever lost. */
  lemma AtMostOneLost(n: Net, evs: seq<Event>, i: nat, j: nat)
    requires Fresh(n) && Valid(n) && Legal(n, evs)
    requires Lost(Run(n, evs), i) && Lost(Run(n, evs), j)
    ensures i == j
  {
    hide Run, Lost;
    LostIff(n, evs, i);
    LostIff(n, evs, j);
  }

  /** The receiver has ended without having everything the sender was given. */
  predicate CutShort(s: Sender, r: Receiver) {
    r.FinRecv() && r.reassembler.output.history != s.stream.history
  }

  /** My stream has ended at the peer before its end. */
  predicate EndedShort(n: Net) {
    CutShort(n.me.sender, n.peer.receiver)
  }

  /** A safe receiver that has ended has everything. */
  lemma SafeEnd(n: Net)
    requires Inv(n) && EofSafe(n.peer.receiver.reassembler, |Written(n.me)|) && n.peer.receiver.FinRecv()
    ensures Delivered(n.peer) == Written(n.me)
  {
    hide SI.Tiles, SI.FlightsGenuine, SI.Genuine, SI.NoStall;
    SafeEmptyIff(n.peer.receiver.reassembler, Written(n.me));
  }

  /** In every run without premature FINs, each byte written is delivered, in flight, or still
      waiting in the sender's stream. */
  lemma NoByteLost(n: Net, evs: seq<Event>, i: nat)
    requires Fresh(n) && Valid(n) && Legal(n, evs) && Throughout(n, evs, Careful)
    requires i < |Written(Run(n, evs).me)|
    ensures var n' := Run(n, evs);
            || i < |Delivered(n'.peer)|
            || InFlight(n'.me.sender, i)
            || i >= n'.me.sender.stream.read
  {
    hide Inv, Run, InFlight, EofSafe;
    RunKeeps(n, evs);
    RunSafe(n, evs);
    LostIff(n, evs, i);
    if Run(n, evs).peer.receiver.FinRecv() {
      SafeEnd(Run(n, evs));
    }
  }

  // ---- Shutdown -----------------------------------------------------------------

  lemma InvClear(n: Net)
    requires Inv(n) && n.me.clear
    ensures n.me.TimeWait() && n.peer.receiver.FinRecv() && Delivered(n.peer) == Written(n.me)
    ensures Safe(n) ==> Delivered(n.me) == Written(n.peer)
  {
    hide SI.Tiles, SI.FlightsGenuine, SI.Genuine;
    InvFinAcked(n);
    if Safe(n) {
      SafeEmptyIff(n.me.receiver.reassembler, Written(n.peer));
    }
  }

  /** In every run, an endpoint that shut down cleanly has received the end of its inbound stream
      and has had its own stream delivered in full; without premature FINs it has received the
      peer's stream in full too. */
  lemma CleanShutdown(n: Net, evs: seq<Event>)
    requires Fresh(n) && Valid(n) && Legal(n, evs) && Run(n, evs).me.clear
    ensures var n' := Run(n, evs);
            && n'.me.receiver.FinRecv() && n'.me.sender.FinAcked()
            && n'.peer.receiver.FinRecv() && Delivered(n'.peer) == Written(n'.me)
            && (Throughout(n, evs, Careful) ==> Delivered(n'.me) == Written(n'.peer))
  {
    hide Inv, Run, Safe;
    RunKeeps(n, evs);
    InvClear(Run(n, evs));
    if Throughout(n, evs, Careful) {
      RunSafe(n, evs);
    }
  }

  // ---- Liveness of the sender ---------------------------------------------------

  /** In every run, the timer runs exactly while something is in flight, the segments in flight
      tile the unacknowledged range, and a sender with something left to send has something in
      flight, so a lost segment is always retransmitted sooner or later. */
  lemma NeverStalls(n: Net, evs: seq<Event>)
    requires Fresh(n) && Valid(n) && Legal(n, evs)
    ensures var s := Run(n, evs).me.sender;
            && (s.timer.stopped <==> s.outstanding == [])
            && SI.Tiles(s.outstanding, s.next - s.inFlight, s.next)
            && s.next - s.inFlight <= s.ackno <= s.next
            && s.next == One(s.syn) + s.stream.read + One(s.fin)
            && SI.NoStall(s)
  {
    hide Run, SI.Tiles, SI.FlightsGenuine, SI.Genuine, SI.NoStall, Follows;
    RunKeeps(n, evs);
  }

  /** The timer goes off within ms milliseconds (of which the timer sees 32 bits). */
  predicate Due(s: Sender, ms: nat) {
    s.outstanding != [] && (s.timer.expired || ms % TWO_32 >= s.timer.remaining)
  }

  /** g is segment f again; only what the receiver contributes may differ. */
  predicate Resends(g: TCPSegment, f: TCPSegment) {
    && g.header.seqno == f.header.seqno && g.payload == f.payload
    && g.header.syn == f.header.syn && g.header.fin == f.header.fin && g.header.doff == f.header.doff
  }

  /** The next expiry of the timer is one too many; a closed window does not count. */
  predicate LastChance(s: Sender) {
    s.consecutive == MAX_RETX_ATTEMPTS && s.window > 0
  }

  lemma TickQueues(s: Sender, ms: nat)
    requires SI.Inv(s) && s.consecutive <= MAX_RETX_ATTEMPTS
    ensures s.Tick(ms).queue == s.queue + (if Due(s, ms) && !LastChance(s) then [s.outstanding[0].seg] else [])
    ensures s.Tick(ms).consecutive > MAX_RETX_ATTEMPTS <==> Due(s, ms) && LastChance(s)
  {
    hide SI.CoreInv;
  }

  lemma FinishSends(c: Connection)
    requires c.Valid() && c.out == [] && |c.sender.queue| <= 1 && c.sender.consecutive <= MAX_RETX_ATTEMPTS
    ensures |c.Finish().out| == |c.sender.queue|
    ensures c.sender.queue != [] ==> c.Finish().out[0] == c.Stamp(c.sender.queue[0])
  {
    hide Connection.Stamp;
  }

  /** Giving up means sending one empty reset. */
  lemma FinishGivesUp(c: Connection)
    requires c.Valid() && c.out == [] && c.sender.queue == [] && c.sender.consecutive > MAX_RETX_ATTEMPTS
    ensures var out := c.Finish().out;
            |out| == 1 && out[0].header.rst && out[0].LengthInSequenceSpace() == 0
  {
    var c1 := c.CollectOutput().UnclearShutdown();
    var queue := c1.sender.SendEmpty().queue;
    assert queue[1..] == [];
  }

  lemma StampResends(c: Connection, g: TCPSegment)
    requires c.Valid()
    ensures Resends(c.Stamp(g), g)
  {
  }

  lemma StampPlain(c: Connection, g: TCPSegment)
    requires c.Valid() && !c.unclear && SI.Unstamped(g)
    ensures !c.Stamp(g).header.rst
  {
  }

  /** How an endpoint in order answers the passing of time. */
  lemma TickSends(n: Net, ms: nat)
    requires Inv(n) && !n.me.unclear && n.me.sender.consecutive <= MAX_RETX_ATTEMPTS
    ensures var s, c := n.me.sender, Act(n.me, Tick(ms));
            && |c.out| == One(Due(s, ms))
            && (c.unclear <==> Due(s, ms) && LastChance(s))
            && (Due(s, ms) && !c.unclear ==>
                  && Resends(c.out[0], s.outstanding[0].seg) && !c.out[0].header.rst
                  && s.outstanding[0].first <= s.ackno < s.outstanding[0].End())
            && (c.unclear ==> c.out[0].header.rst && c.out[0].LengthInSequenceSpace() == 0)
  {
    hide SI.Genuine, SI.NoStall, Follows, Sender.Tick, Connection.Finish, Connection.Stamp, Resends, LastChance;
    var s := n.me.sender;
    var c1 := n.me.(now := n.me.now + ms, sender := s.Tick(ms));
    TickQueues(s, ms);
    FinishFrame(c1);
    if c1.sender.consecutive > MAX_RETX_ATTEMPTS {
      FinishGivesUp(c1);
    } else {
      FinishSends(c1);
      if Due(s, ms) {
        StampResends(c1, s.outstanding[0].seg);
        StampPlain(c1, s.outstanding[0].seg);
      }
    }
  }
}
