/** Two connections joined by a network that may lose, duplicate, delay and reorder segments,
    and the laws that hold in every run of such a pair. */
module Network {
  import opened Bytes
  import opened Segments
  import opened Senders
  import opened Receivers
  import opened Directions
  import opened Connections
  import opened Endpoints
  import SI = SenderInvariants

  /** Two endpoints and every segment each of them has ever sent. A segment may be delivered any
      number of times, in any order, or never. */
  datatype Net = Net(me: Connection, peer: Connection, sent: set<TCPSegment>, heard: set<TCPSegment>) {
    function Swap(): Net { Net(peer, me, heard, sent) }
  }

  datatype Op =
    | Connect
    | Write(data: seq<byte>)
    | EndInput
    | Tick(ms: nat)
    | Read(len: nat)
    | Deliver(seg: TCPSegment)

  function Act(c: Connection, op: Op): (c': Connection)
    requires c.Valid()
    ensures c'.Valid()
  {
    match op
    case Connect => c.Connect()
    case Write(data) => c.Write(data)
    case EndInput => c.EndInput()
    case Tick(ms) => c.Tick(ms)
    case Read(len) => c.Read(len)
    case Deliver(seg) => c.SegmentReceived(seg)
  }

  /** The writer does not write after ending its stream and keeps it below 2^31 - 2 bytes;
      the network invents nothing. */
  predicate Enabled(n: Net, op: Op) {
    match op
    case Write(data) => !n.me.sender.stream.ended && |n.me.sender.stream.history| + |data| + 2 <= TWO_31
    case Deliver(seg) => seg in n.heard
    case _ => true
  }

  /** One endpoint acts, and its owner sends off everything it put out. */
  function Step(n: Net, op: Op): (n': Net)
    requires n.me.Valid()
    ensures n'.me.Valid() && n'.peer == n.peer
  {
    var c := Act(n.me, op);
    n.(me := c.(out := []), sent := n.sent + (set g | g in c.out))
  }

  // ---- The invariant ------------------------------------------------------------

  /** What holds of everything this endpoint ever sent. */
  ghost predicate WireInv(c: Connection, sent: set<TCPSegment>, ps: Sender)
    requires c.receiver.Valid()
  {
    forall g :: g in sent ==> SI.Genuine(c.sender, g) && Acks(ps, c.receiver, g)
  }

  /** Once an endpoint stops lingering, its peer had already finished its own stream. */
  predicate LingerInv(n: Net) {
    && (!n.me.linger ==> n.peer.sender.stream.Eof())
    && (!n.peer.linger ==> n.me.sender.stream.Eof())
    && (n.me.linger || n.peer.linger)
  }

  ghost predicate Half(n: Net) {
    && EndInv(n.me, n.peer.sender, n.peer.receiver)
    && n.me.sender.queue == [] && n.me.out == []
    && WireInv(n.me, n.sent, n.peer.sender)
    && (n.me.clear ==> n.me.TimeWait())
  }

  ghost predicate Inv(n: Net) {
    Half(n) && Half(n.Swap()) && LingerInv(n)
  }

  // ---- One step -----------------------------------------------------------------

  /** What one operation of an endpoint guarantees. */
  ghost predicate Sound(c: Connection, c': Connection, ps: Sender, pr: Receiver) {
    && EndInv(c', ps, pr) && OutInv(c', ps) && Evolves(c, c') && c'.sender.queue == []
  }

  lemma FinishSound(c: Connection, c1: Connection, ps: Sender, pr: Receiver)
    requires EndInv(c1, ps, pr) && QueueInv(c1) && Evolves(c, c1) && c1.out == []
    ensures Sound(c, c1.Finish(), ps, pr)
  {
    hide SI.Inv, SI.NoStall, SI.Genuine, Follows, SI.Grows, Later, Connection.Finish;
    FinishKeeps(c1, ps, pr);
    EvolvesChain(c, c1, c1.Finish());
  }

  lemma ConnectSound(c: Connection, ps: Sender, pr: Receiver)
    requires EndInv(c, ps, pr) && c.sender.queue == [] && c.out == []
    ensures Sound(c, c.Connect(), ps, pr)
  {
    hide SI.Inv, SI.NoStall, SI.Genuine, Follows, SI.Grows, Later, Sender.FillWindow, Connection.Stamp;
    EvolvesRefl(c, ps, pr);
    if c.Listen() {
      GrowsRefl(c.sender);
      FillStep(c, c.sender, ps, pr);
      var c1 := c.(sender := c.sender.FillWindow());
      CollectKeeps(c1, ps, pr);
      EvolvesChain(c, c1, c1.CollectOutput());
    }
  }

  lemma WriteSound(c: Connection, data: seq<byte>, ps: Sender, pr: Receiver)
    requires EndInv(c, ps, pr) && c.sender.queue == [] && c.out == []
    requires !c.sender.stream.ended && |c.sender.stream.history| + |data| + 2 <= TWO_31
    ensures Sound(c, c.Write(data), ps, pr)
  {
    hide SI.Inv, SI.NoStall, SI.Genuine, Follows, SI.Grows, Later, Sender.FillWindow, Connection.Finish;
    var s := c.sender.(stream := c.sender.stream.Write(data));
    SI.WriteKeeps(c.sender, data);
    FillStep(c, s, ps, pr);
    FinishSound(c, c.(sender := s.FillWindow()), ps, pr);
  }

  lemma EndInputSound(c: Connection, ps: Sender, pr: Receiver)
    requires EndInv(c, ps, pr) && c.sender.queue == [] && c.out == []
    ensures Sound(c, c.EndInput(), ps, pr)
  {
    hide SI.Inv, SI.NoStall, SI.Genuine, Follows, SI.Grows, Later, Sender.FillWindow, Connection.Finish;
    var s := c.sender.(stream := c.sender.stream.EndInput());
    SI.EndInputKeeps(c.sender);
    FillStep(c, s, ps, pr);
    FinishSound(c, c.(sender := s.FillWindow()), ps, pr);
  }

  lemma TickSound(c: Connection, ms: nat, ps: Sender, pr: Receiver)
    requires EndInv(c, ps, pr) && c.sender.queue == [] && c.out == []
    ensures Sound(c, c.Tick(ms), ps, pr)
  {
    hide SI.Inv, SI.NoStall, SI.Genuine, Follows, SI.Grows, Later, Sender.Tick, Connection.Finish;
    SI.TickKeeps(c.sender, ms);
    SI.TickFrame(c.sender, ms);
    var c0 := c.(now := c.now + ms);
    SenderStep(c0, c.sender.Tick(ms), ps, pr);
    FinishSound(c, c0.(sender := c.sender.Tick(ms)), ps, pr);
  }

  lemma DeliverSound(c: Connection, g: TCPSegment, ps: Sender, pr: Receiver)
    requires EndInv(c, ps, pr) && c.sender.queue == [] && c.out == []
    requires SI.Genuine(ps, g) && Acks(c.sender, pr, g)
    ensures Sound(c, c.SegmentReceived(g), ps, pr)
  {
    hide SI.Inv, SI.NoStall, SI.Genuine, Follows, SI.Grows, Later, Acks, Connection.Route, Connection.Finish;
    var c0 := c.(lastReceived := c.now);
    RouteKeeps(c0, g, ps, pr);
    FinishSound(c, c0.Route(g), ps, pr);
  }

  lemma ReadSound(c: Connection, len: nat, ps: Sender, pr: Receiver)
    requires EndInv(c, ps, pr) && c.sender.queue == [] && c.out == []
    ensures Sound(c, c.Read(len), ps, pr)
  {
    hide SI.Inv, SI.NoStall, SI.Genuine, Follows;
    ReadStep(c, len, ps, pr);
  }

  lemma ActSound(n: Net, op: Op)
    requires Inv(n) && Enabled(n, op)
    ensures Sound(n.me, Act(n.me, op), n.peer.sender, n.peer.receiver)
  {
    hide EndInv, Sound, SI.Genuine, Acks, LingerInv;
    var c, ps, pr := n.me, n.peer.sender, n.peer.receiver;
    match op
    case Connect => ConnectSound(c, ps, pr);
    case Write(data) => WriteSound(c, data, ps, pr);
    case EndInput => EndInputSound(c, ps, pr);
    case Tick(ms) => TickSound(c, ms, ps, pr);
    case Read(len) => ReadSound(c, len, ps, pr);
    case Deliver(seg) => DeliverSound(c, seg, ps, pr);
  }

  /** The flags of a connection, which only its last phase changes. */
  ghost predicate Flags(c: Connection, c': Connection) {
    && (c.unclear ==> c'.unclear) && (c.clear ==> c'.clear) && (!c.linger ==> !c'.linger)
    && c'.timeout == c.timeout
    // Lingering is given up only on a passive close.
    && (c.linger && !c'.linger ==> !c'.sender.stream.Eof() && c'.receiver.FinRecv())
    // A clean shutdown needs both streams finished, and a passive close or a long silence.
    && (!c.clear && c'.clear ==> c'.TimeWait() && (!c'.linger || c'.Silence() >= 10 * c'.timeout))
  }

  lemma FinishFlags(c: Connection)
    requires c.Valid()
    ensures Flags(c, c.Finish())
  {
    hide Connection.Stamp;
  }

  lemma RouteFlags(c: Connection, g: TCPSegment)
    requires c.Valid()
    ensures var c' := c.Route(g);
            && (c.unclear ==> c'.unclear) && c'.clear == c.clear && c'.linger == c.linger && c'.timeout == c.timeout
            && c'.now == c.now && c'.lastReceived == c.lastReceived
  {
    hide Sender.FillWindow, Sender.AckReceived, Receiver.SegmentReceived;
  }

  /** Every operation, in every state, treats the flags so. */
  lemma ActFlags(c: Connection, op: Op)
    requires c.Valid()
    ensures Flags(c, Act(c, op))
  {
    hide Sender.FillWindow, Connection.Finish, Connection.Route, Sender.Tick;
    match op
    case Connect =>
    case Write(data) =>
      FinishFlags(c.(sender := c.sender.(stream := c.sender.stream.Write(data)).FillWindow()));
    case EndInput =>
      FinishFlags(c.(sender := c.sender.(stream := c.sender.stream.EndInput()).FillWindow()));
    case Tick(ms) =>
      FinishFlags(c.(now := c.now + ms, sender := c.sender.Tick(ms)));
    case Read(len) =>
    case Deliver(seg) =>
      RouteFlags(c.(lastReceived := c.now), seg);
      FinishFlags(c.(lastReceived := c.now).Route(seg));
  }

  lemma FinAckedIff(s: Sender)
    requires SI.CoreInv(s)
    ensures s.FinAcked() <==> s.fin && s.ackno == s.next
  {
    SI.TilesOrdered(s.outstanding, s.next - s.inFlight, s.next);
  }

  lemma TimeWaitStays(c: Connection, c': Connection)
    requires SI.CoreInv(c.sender) && SI.CoreInv(c'.sender) && Evolves(c, c') && c.TimeWait()
    ensures c'.TimeWait()
  {
    FinAckedIff(c.sender);
    FinAckedIff(c'.sender);
  }

  /** A receiver that saw the end of a stream: the sender had finished it. */
  lemma FinRecvMeansEof(s: Sender, r: Receiver)
    requires SI.Counted(s) && Follows(s, r) && r.FinRecv()
    ensures s.fin && s.stream.Eof()
  {
  }

  lemma LingerStep(n: Net, n': Net)
    requires Inv(n) && Evolves(n.me, n'.me) && Flags(n.me, n'.me) && n'.peer == n.peer
    requires Follows(n.peer.sender, n'.me.receiver)
    ensures LingerInv(n')
  {
    if n.me.linger && !n'.me.linger {
      FinRecvMeansEof(n.peer.sender, n'.me.receiver);
    }
  }

  lemma WireStep(n: Net, c': Connection)
    requires Inv(n) && Sound(n.me, c', n.peer.sender, n.peer.receiver)
    ensures WireInv(c', n.sent + (set g | g in c'.out), n.peer.sender)
  {
    hide SI.Inv, SI.NoStall, SI.Genuine, Follows, Acks, SI.Grows, Later;
    forall g | g in n.sent + (set g | g in c'.out)
      ensures SI.Genuine(c'.sender, g) && Acks(n.peer.sender, c'.receiver, g)
    {
      if g in n.sent {
        SI.GenuineStays(n.me.sender, c'.sender, g);
        AcksStay(n.peer.sender, n.peer.sender, n.me.receiver, c'.receiver, g);
      }
    }
  }

  lemma PeerWire(n: Net, s': Sender)
    requires Inv(n) && s'.isn == n.me.sender.isn
    ensures WireInv(n.peer, n.heard, s')
  {
    forall g | g in n.heard
      ensures Acks(s', n.peer.receiver, g)
    {
      if g.header.ack {
        var k: nat :| AckAt(n.me.sender, n.peer.receiver, g, k);
        assert AckAt(s', n.peer.receiver, g, k);
      }
    }
  }

  lemma PeerEnd(n: Net, c': Connection)
    requires Inv(n) && Sound(n.me, c', n.peer.sender, n.peer.receiver)
    ensures EndInv(n.peer, c'.sender, c'.receiver)
  {
    hide SI.CoreInv, SI.NoStall, SI.Genuine, Follows, Acks, SI.Grows;
  }

  /** Every enabled step of an endpoint keeps the invariant of the pair. */
  lemma StepKeeps(n: Net, op: Op)
    requires Inv(n) && Enabled(n, op)
    ensures Inv(Step(n, op))
    ensures Evolves(n.me, Step(n, op).me) && Flags(n.me, Step(n, op).me)
  {
    hide SI.CoreInv, SI.NoStall, SI.Genuine, Follows, Acks, Later, Act, LingerInv;
    var c' := Act(n.me, op);
    var n' := Step(n, op);
    ActSound(n, op);
    ActFlags(n.me, op);
    WireStep(n, c');
    PeerWire(n, c'.sender);
    PeerEnd(n, c');
    LingerStep(n, n');
    if n.me.clear {
      TimeWaitStays(n.me, c');
    }
  }
}
