/** When everything written can still be delivered in full, and when both endpoints can still shut
    down cleanly. */
module Completion {
  import opened Bytes
  import opened Segments
  import opened Senders
  import opened Receivers
  import opened Directions
  import opened Connections
  import opened Endpoints
  import opened Network
  import opened Handshake
  import opened Laws
  import opened Copies
  import opened Endings
  import opened Recovery
  import opened WrappingIntegers
  import SI = SenderInvariants
  import R = Reassembly
  import RR = ReassemblyRuns
  import FC = FlowControl
  import TS = TcpStates

  /** The two endpoints are in order and neither has been reset. */
  ghost predicate Able(n: Net) {
    Inv(n) && Handshaken(n) && BothLimited(n) && BothKept(n) && !n.me.unclear && !n.peer.unclear
  }

  /** The receiver of my stream knows its end only together with its last byte. */
  predicate PeerSafe(n: Net) {
    RR.EofSafe(n.peer.receiver.reassembler, |Written(n.me)|)
  }

  /** The peer has a buffer to receive into. */
  predicate Room(n: Net) {
    n.peer.receiver.reassembler.output.capacity > 0
  }

  lemma AbleSwap(n: Net)
    requires Able(n)
    ensures Valid(n) && Able(n.Swap())
  {
    hide Greeted, Kept, Limited;
    InvSwap(n);
    BothValid(n);
  }

  lemma BothValid(n: Net)
    requires Inv(n)
    ensures Valid(n)
  {
  }

  // ---- Steps that keep it so ----------------------------------------------------

  /** An operation that adds no text, carries no reset, and lets no time pass while something is
      in flight. */
  predicate Gentle(c: Connection, op: Op) {
    && !op.Write? && (op.Deliver? ==> !op.seg.header.rst)
    && (op.Tick? ==> c.sender.outstanding == [])
  }

  lemma ArrivalFrame(s: Sender, number: u32, win: u16)
    requires s.Valid() && s.consecutive <= MAX_RETX_ATTEMPTS
    ensures s.FillWindow().consecutive <= MAX_RETX_ATTEMPTS
    ensures s.AckReceived(number, win).consecutive <= MAX_RETX_ATTEMPTS
    ensures s.FillWindow().stream == s.stream.(read := s.FillWindow().stream.read)
    ensures s.AckReceived(number, win).stream == s.stream.(read := s.AckReceived(number, win).stream.read)
  {
    hide Sender.FillWindow, Sender.AckReceived;
    SI.FillWindowFrame(s);
    SI.AckReceivedFrame(s, number, win);
  }

  /** What a gentle operation leaves alone. */
  ghost predicate SameText(c: Connection, c': Connection) {
    && c'.sender.stream.history == c.sender.stream.history
    && (c.sender.stream.ended ==> c'.sender.stream.ended)
    && c'.timeout == c.timeout
  }

  lemma DeliverFrame(c: Connection, g: TCPSegment)
    requires c.Valid() && !c.unclear && !g.header.rst && c.sender.consecutive <= MAX_RETX_ATTEMPTS
    ensures !Act(c, Deliver(g)).unclear && SameText(c, Act(c, Deliver(g)))
  {
    hide Sender.FillWindow, Sender.AckReceived, Connection.Route, Connection.Finish;
    var c0 := c.(lastReceived := c.now);
    ArrivalFrame(c.sender, g.header.ackno, g.header.win);
    RouteCases(c0, g);
    RouteFlags(c0, g);
    FinishFrame(c0.Route(g));
  }

  /** A gentle operation does not make an endpoint give up, and leaves what was written. */
  lemma GentleFrame(c: Connection, op: Op)
    requires c.Valid() && !c.unclear && c.sender.consecutive <= MAX_RETX_ATTEMPTS && Gentle(c, op)
    ensures !Act(c, op).unclear && SameText(c, Act(c, op))
  {
    hide Sender.FillWindow, Connection.SegmentReceived, Connection.Finish;
    match op
    case Connect =>
      SI.FillWindowFrame(c.sender);
    case EndInput =>
      var s := c.sender.(stream := c.sender.stream.EndInput());
      SI.FillWindowFrame(s);
      FinishFrame(c.(sender := s.FillWindow()));
    case Tick(ms) =>
      FinishFrame(c.(now := c.now + ms, sender := c.sender.Tick(ms)));
    case Read(len) =>
    case Deliver(g) =>
      DeliverFrame(c, g);
  }

  lemma StepAble(n: Net, op: Op)
    requires Able(n) && Enabled(n, op) && Careful(n, op) && Gentle(n.me, op)
    ensures Able(Step(n, op)) && Evolves(n.me, Step(n, op).me) && SameText(n.me, Step(n, op).me)
    ensures PeerSafe(n) ==> PeerSafe(Step(n, op))
    ensures PeerSafe(n.Swap()) ==> PeerSafe(Step(n, op).Swap())
  {
    assert n.me.Valid() && n.me.sender.consecutive <= MAX_RETX_ATTEMPTS;
    hide Inv, Handshaken, BothLimited, Kept, Enabled, Careful, Act, Evolves, RR.EofSafe;
    StepKeeps(n, op);
    StepHandshaken(n, op);
    StepLimited(n, op);
    StepKept(n, op);
    if PeerSafe(n) {
      StepPeerSafe(n, op);
    }
    if PeerSafe(n.Swap()) {
      StepMineSafe(n, op);
    }
    GentleFrame(n.me, op);
  }

  /** What a run of gentle and careful events leaves: the endpoints only move on, nothing is
      written, and a receiver that is safe stays so. */
  ghost predicate Onward(n: Net, n': Net) {
    && (PeerSafe(n) ==> PeerSafe(n')) && (PeerSafe(n.Swap()) ==> PeerSafe(n'.Swap()))
    && Evolves(n.me, n'.me) && Evolves(n.peer, n'.peer)
    && SameText(n.me, n'.me) && SameText(n.peer, n'.peer)
  }

  lemma OnwardThen(n: Net, n1: Net, n2: Net)
    requires Onward(n, n1) && Onward(n1, n2)
    ensures Onward(n, n2)
  {
    hide Evolves;
    EvolvesChain(n.me, n1.me, n2.me);
    EvolvesChain(n.peer, n1.peer, n2.peer);
  }

  lemma Stays(n: Net)
    requires Inv(n)
    ensures Onward(n, n)
  {
    hide Evolves;
    EvolvesRefl(n.me, n.peer.sender, n.peer.receiver);
    EvolvesRefl(n.peer, n.me.sender, n.me.receiver);
  }

  /** One gentle event. */
  lemma HappenAble(n: Net, ev: Event)
    requires Able(n) && Valid(n) && Gentle(Face(n, ev.mine).me, ev.op)
    requires Enabled(Face(n, ev.mine), ev.op) && Careful(Face(n, ev.mine), ev.op)
    ensures Able(Happen(n, ev)) && Onward(n, Happen(n, ev))
    ensures ev.mine ==> Happen(n, ev).peer == n.peer
    ensures !ev.mine ==> Happen(n, ev).me == n.me
  {
    Stays(n);
    hide Able, Enabled, Careful, Evolves, Act, RR.EofSafe;
    AbleSwap(n);
    StepAble(Face(n, ev.mine), ev.op);
    AbleSwap(Step(Face(n, ev.mine), ev.op));
  }

  // ---- Runs ---------------------------------------------------------------------

  lemma {:induction false} RunAppend(n: Net, a: seq<Event>, b: seq<Event>, guard: (Net, Op) -> bool)
    requires Valid(n) && Throughout(n, a, guard) && Throughout(Run(n, a), b, guard)
    ensures Throughout(n, a + b, guard) && Run(n, a + b) == Run(Run(n, a), b)
    decreases |b|
  {
    hide Happen, Face, Valid;
    if b == [] {
      assert a + b == a;
    } else {
      var b0 := b[..|b| - 1];
      RunAppend(n, a, b0, guard);
      assert (a + b)[..|a + b| - 1] == a + b0;
    }
  }

  lemma RunOne(n: Net, ev: Event, guard: (Net, Op) -> bool)
    requires Valid(n) && guard(Face(n, ev.mine), ev.op)
    ensures Throughout(n, [ev], guard) && Run(n, [ev]) == Happen(n, ev)
  {
    hide Happen;
    Extend(n, [], ev, guard);
    assert [] + [ev] == [ev];
  }

  /** Events evs lead from n to n', which is in order too, and nothing is written on the way. */
  ghost predicate Leads(n: Net, evs: seq<Event>, n': Net) {
    Valid(n) && Legal(n, evs) && Run(n, evs) == n' && Able(n') && Onward(n, n')
  }

  lemma LeadsNowhere(n: Net)
    requires Able(n)
    ensures Leads(n, [], n)
  {
    BothValid(n);
    Stays(n);
  }

  lemma LeadsOne(n: Net, ev: Event)
    requires Able(n) && Valid(n) && Gentle(Face(n, ev.mine).me, ev.op)
    requires Enabled(Face(n, ev.mine), ev.op) && Careful(Face(n, ev.mine), ev.op)
    ensures Leads(n, [ev], Happen(n, ev))
    ensures ev.mine ==> Happen(n, ev).peer == n.peer
    ensures !ev.mine ==> Happen(n, ev).me == n.me
  {
    hide Able, Enabled, Careful, Happen, Onward, Throughout, Run;
    HappenAble(n, ev);
    RunOne(n, ev, Enabled);
  }

  lemma LeadsThen(n: Net, a: seq<Event>, n1: Net, b: seq<Event>, n2: Net)
    requires Leads(n, a, n1) && Leads(n1, b, n2)
    ensures Leads(n, a + b, n2)
  {
    hide Able, Onward, Throughout, Run;
    RunAppend(n, a, b, Enabled);
    OnwardThen(n, n1, n2);
  }

  // ---- Facts about an able pair -------------------------------------------------

  /** A copy of a flight, as the network can deliver it. */
  lemma CopyOf(n: Net) returns (g: TCPSegment)
    requires Able(n) && n.me.sender.outstanding != []
    ensures g in n.sent && !g.header.rst && Resends(g, n.me.sender.outstanding[0].seg)
    ensures g.LengthInSequenceSpace() > 0
  {
    hide Inv, Handshaken, BothLimited, Resends;
    var f := n.me.sender.outstanding[0];
    assert Copied(f.seg, n.sent);
    g :| g in n.sent && Resends(g, f.seg);
    OldestLength(n, g);
  }

  lemma OldestLength(n: Net, g: TCPSegment)
    requires Inv(n) && n.me.sender.outstanding != [] && Resends(g, n.me.sender.outstanding[0].seg)
    ensures g.LengthInSequenceSpace() > 0
  {
    hide SI.FlightsGenuine, SI.Genuine, SI.NoStall, Follows;
  }

  /** The oldest segment in flight is never a premature FIN. */
  lemma OldestNotPremature(s: Sender, r: Receiver, g: TCPSegment)
    requires Follows(s, r) && SI.CoreInv(s) && Short(s) && s.ackno <= r.Ackno()
    requires s.outstanding != [] && Resends(g, s.outstanding[0].seg)
    ensures !PrematureFin(r, g)
  {
    hide RR.Consistent, R.Sorted, R.Span;
    var f := s.outstanding[0];
    assert f.first <= s.ackno;
    assert SI.SegmentAt(s, f.seg, f.first);
    if r.SynRecv() && !g.header.syn {
      assert SI.SegmentAt(s, g, f.first);
      PositionExact(s, r, g, f.first);
    }
  }

  lemma OldestCareful(n: Net, g: TCPSegment)
    requires Inv(n) && n.me.sender.outstanding != [] && Resends(g, n.me.sender.outstanding[0].seg)
    ensures Careful(n.Swap(), Deliver(g))
  {
    hide SI.CoreInv, SI.Genuine, SI.NoStall, Follows, PrematureFin, Resends;
    OldestNotPremature(n.me.sender, n.peer.receiver, g);
  }

  /** A sender none of whose positions is acknowledged still has its SYN in flight. */
  lemma UnackedSyn(s: Sender)
    requires SI.CoreInv(s) && s.next > 0 && s.ackno == 0
    ensures s.outstanding != [] && s.outstanding[0].seg.header.syn && s.outstanding[0].first == 0
  {
    assert s.outstanding != [];
    assert SI.SegmentAt(s, s.outstanding[0].seg, s.outstanding[0].first);
  }

  /** As long as my peer has not heard me, it has acknowledged nothing. */
  lemma UnheardUnacked(n: Net)
    requires Inv(n)
    ensures n.peer.receiver.isn.None? ==> n.me.sender.ackno == 0
    ensures n.me.receiver.isn.Some? ==> n.me.sender.next > 0 && n.peer.sender.next > 0
  {
    hide SI.Tiles, SI.FlightsGenuine, SI.Genuine, SI.NoStall;
    UnheardIsZero(n.me.sender, n.peer.receiver);
  }

  // ---- The peer reads -----------------------------------------------------------

  lemma PeerReads(n: Net) returns (ev: Event)
    requires Able(n) && Valid(n) && Room(n)
    ensures Leads(n, [ev], Happen(n, ev)) && Happen(n, ev).me == n.me
    ensures Happen(n, ev).peer.receiver.WindowSize() > 0
  {
    hide Able, Leads;
    ev := Event(false, Op.Read(|Delivered(n.peer)|));
    LeadsOne(n, ev);
  }

  // ---- The peer answers ---------------------------------------------------------

  /** The acknowledgment in g tells the sender nothing new. */
  predicate OldNews(s: Sender, g: TCPSegment) {
    g.header.ack ==> Unwrap(g.header.ackno, s.isn, s.ackno) <= s.ackno
  }

  /** A segment whose acknowledgment is old news is answered with an empty segment alone. */
  lemma EmptyReply(c: Connection, g: TCPSegment)
    requires c.Valid() && !c.unclear && c.sender.next > 0 && c.sender.queue == [] && OldNews(c.sender, g)
    requires !g.header.rst && g.LengthInSequenceSpace() > 0
    requires c.receiver.isn.Some?
    ensures |c.Route(g).sender.queue| == 1 && !c.Route(g).sender.queue[0].header.fin
  {
    hide Receiver.InWindow, Unwrap;
  }

  /** Taking a segment once makes its acknowledgment old news. */
  lemma OnceIsOld(n: Net, g: TCPSegment)
    requires Inv(n) && g in n.heard && !g.header.rst && n.me.sender.next > 0
    requires n.me.receiver.isn.Some? || g.header.syn
    ensures var s' := Act(n.me, Deliver(g)).sender;
            OldNews(s', g) && s'.next > 0
  {
    StepKeeps(n, Deliver(g));
    hide SI.CoreInv, SI.Genuine, SI.NoStall, Follows, Later, Act, LingerInv;
    if g.header.ack {
      var k: nat :| AckAt(n.me.sender, n.peer.receiver, g, k);
      TakesAck(n, g, k);
      var n' := Step(n, Deliver(g));
      assert AckAt(n'.me.sender, n'.peer.receiver, g, k);
      AckExact(n'.me.sender, n'.peer.receiver, g, k);
    }
  }

  /** A copy of my oldest flight that can be delivered to a peer with room. */
  ghost predicate Ready(n: Net, g: TCPSegment) {
    && Able(n) && Valid(n) && !EndedShort(n) && n.me.receiver.isn.Some? && n.peer.receiver.WindowSize() > 0
    && n.me.sender.outstanding != [] && Resends(g, n.me.sender.outstanding[0].seg)
    && g in n.sent && !g.header.rst && g.LengthInSequenceSpace() > 0
  }

  lemma PeerGetsAhead(n: Net, g: TCPSegment)
    requires Ready(n, g)
    ensures var peer := Act(n.peer, Deliver(g));
            && peer.receiver.isn.Some? && n.me.sender.ackno < peer.receiver.Ackno()
            && OldNews(peer.sender, g) && peer.sender.next > 0
  {
    assert SI.Genuine(n.me.sender, g) && Opening(n.me.sender);
    UnheardUnacked(n);
    InvSwap(n);
    hide SI.CoreInv, SI.Genuine, SI.NoStall, Act, Receiver.SegmentReceived, Resends, Opening, OldNews, Handshaken,
         BothKept, BothLimited, LingerInv, AckAt, Follows, Receiver.WindowSize;
    LeavesAhead(n.me.sender, n.peer.receiver, g);
    Replies(n.Swap(), g);
    SynIfUnheard(n, g);
    DeliverHears(n.peer, g);
    OnceIsOld(n.Swap(), g);
  }

  /** A peer that has not heard me yet gets my SYN. */
  lemma SynIfUnheard(n: Net, g: TCPSegment)
    requires Inv(n) && n.me.receiver.isn.Some?
    requires n.me.sender.outstanding != [] && Resends(g, n.me.sender.outstanding[0].seg)
    ensures n.peer.receiver.isn.Some? || g.header.syn
  {
    hide SI.Tiles, SI.FlightsGenuine, SI.Genuine, SI.NoStall, Follows;
    UnheardUnacked(n);
    if n.peer.receiver.isn.None? {
      UnackedSyn(n.me.sender);
    }
  }

  lemma DeliverHears(c: Connection, g: TCPSegment)
    requires c.Valid() && c.sender.next > 0 && !g.header.rst && (c.receiver.isn.Some? || g.header.syn)
    ensures Act(c, Deliver(g)).receiver.isn.Some?
  {
    hide Connection.Finish, Connection.Route;
    var c0 := c.(lastReceived := c.now);
    RouteHears(c0, g);
    FinishFrame(c0.Route(g));
  }

  lemma RouteHears(c: Connection, g: TCPSegment)
    requires c.Valid() && c.sender.next > 0 && !g.header.rst && (c.receiver.isn.Some? || g.header.syn)
    ensures c.Route(g).receiver.isn.Some?
  {
    hide Sender.AckReceived, Sender.FillWindow, Sender.AcceptsAck, Receiver.SegmentReceived;
    FC.ReceiveHears(c.receiver, g);
  }

  /** The answer to a segment whose acknowledgment is old news carries no FIN. */
  lemma PlainReply(c: Connection, g: TCPSegment)
    requires c.Valid() && !c.unclear && c.sender.next > 0 && c.sender.queue == [] && c.out == []
    requires OldNews(c.sender, g) && !g.header.rst && g.LengthInSequenceSpace() > 0 && c.receiver.isn.Some?
    ensures var out := Act(c, Deliver(g)).out;
            out != [] && !out[0].header.fin
  {
    hide Connection.Route, Connection.Finish, OldNews;
    var c0 := c.(lastReceived := c.now);
    assert OldNews(c0.sender, g);
    EmptyReply(c0, g);
    RouteOut(c0, g);
    FinishFirst(c0.Route(g));
    StampResends(c0.Route(g), c0.Route(g).sender.queue[0]);
  }

  /** The state in which the peer has taken g once. */
  ghost predicate Taken(n: Net, g: TCPSegment) {
    && Able(n) && Valid(n) && n.me.receiver.isn.Some?
    && g in n.sent && !g.header.rst && g.LengthInSequenceSpace() > 0
    && n.peer.receiver.isn.Some? && n.me.sender.ackno < n.peer.receiver.Ackno()
    && OldNews(n.peer.sender, g) && n.peer.sender.next > 0
    && n.me.sender.outstanding != [] && Resends(g, n.me.sender.outstanding[0].seg)
  }

  lemma TakenOnce(n: Net, g: TCPSegment)
    requires Ready(n, g)
    ensures var ev := Event(false, Deliver(g));
            Leads(n, [ev], Happen(n, ev)) && Happen(n, ev).me == n.me && Taken(Happen(n, ev), g)
  {
    PeerGetsAhead(n, g);
    OldestCareful(n, g);
    hide Able, Careful, Act, Resends, OldNews, Receiver.WindowSize, Onward, Legal, Run;
    LeadsOne(n, Event(false, Deliver(g)));
  }

  /** Taking it again, the peer answers with nothing but its newest acknowledgment. */
  lemma AnswerTo(n: Net, g: TCPSegment) returns (g': TCPSegment)
    requires Taken(n, g)
    ensures var peer := Act(n.peer, Deliver(g));
            && g' in peer.out && g'.header.ack && !g'.header.rst && !g'.header.fin
            && AckAt(n.me.sender, peer.receiver, g', peer.receiver.Ackno())
            && n.me.sender.ackno < peer.receiver.Ackno()
  {
    assert n.peer.sender.queue == [] && n.peer.out == [];
    InvSwap(n);
    StepKeeps(n.Swap(), Deliver(g));
    hide Inv, Handshaken, BothKept, Act, Receiver.SegmentReceived, Resends, OldNews, AckAt, SI.Grows;
    FC.ReceiveHears(n.peer.receiver, g);
    Replies(n.Swap(), g);
    PlainReply(n.peer, g);
    g' := Act(n.peer, Deliver(g)).out[0];
  }

  /** The peer's answer has arrived. */
  lemma TakenTwice(n: Net, g: TCPSegment) returns (evs: seq<Event>)
    requires Taken(n, g)
    ensures Leads(n, evs, Run(n, evs)) && n.me.sender.ackno < Run(n, evs).me.sender.ackno
    ensures Run(n, evs).me.receiver.isn.Some?
  {
    var g' := AnswerTo(n, g);
    OldestCareful(n, g);
    var e1, e2 := Event(false, Deliver(g)), Event(true, Deliver(g'));
    hide Able, Careful, Act, Resends, OldNews, AckAt, Onward, Legal, Run;
    LeadsOne(n, e1);
    var n1 := Happen(n, e1);
    AckArrives(n1, g');
    LeadsOne(n1, e2);
    evs := [e1] + [e2];
    LeadsThen(n, [e1], n1, [e2], Happen(n1, e2));
  }

  /** An acknowledgment of the peer's newest position makes me move on. */
  lemma AckArrives(n: Net, g: TCPSegment)
    requires Able(n) && Valid(n) && n.me.receiver.isn.Some? && g in n.heard
    requires g.header.ack && !g.header.rst && !g.header.fin
    requires AckAt(n.me.sender, n.peer.receiver, g, n.peer.receiver.Ackno())
    ensures Careful(n, Deliver(g))
    ensures var c := Happen(n, Event(true, Deliver(g))).me;
            c.sender.ackno >= n.peer.receiver.Ackno() && c.receiver.isn.Some?
  {
    UnheardUnacked(n);
    hide Inv, Handshaken, BothLimited, BothKept, Act, AckAt;
    TakesAck(n, g, n.peer.receiver.Ackno());
    DeliverHears(n.me, g);
  }

  lemma SafeIsNotShort(n: Net)
    requires Able(n) && PeerSafe(n)
    ensures !EndedShort(n)
  {
    hide Inv, Handshaken, BothLimited, BothKept, RR.EofSafe;
    if n.peer.receiver.FinRecv() {
      SafeEnd(n);
    }
  }

  /** One round: the peer reads, gets the oldest segment in flight twice, and answers. */
  lemma Round(n: Net) returns (evs: seq<Event>)
    requires Able(n) && Room(n) && PeerSafe(n) && n.me.receiver.isn.Some? && n.me.sender.outstanding != []
    ensures Valid(n) && Leads(n, evs, Run(n, evs)) && n.me.sender.ackno < Run(n, evs).me.sender.ackno
    ensures Run(n, evs).me.receiver.isn.Some?
  {
    AbleSwap(n);
    var e1 := PeerReads(n);
    var n1 := Happen(n, e1);
    assert Able(n1) && PeerSafe(n1);
    SafeIsNotShort(n1);
    hide Able, CutShort, Happen, Receiver.WindowSize, Resends, OldNews, Legal, Run, Onward, Connection.Valid;
    var g := CopyOf(n1);
    TakenOnce(n1, g);
    var e2 := Event(false, Deliver(g));
    var n2 := Happen(n1, e2);
    var b := TakenTwice(n2, g);
    LeadsThen(n, [e1], n1, [e2], n2);
    LeadsThen(n, [e1] + [e2], n2, b, Run(n2, b));
    evs := [e1] + [e2] + b;
  }

  // ---- The opening --------------------------------------------------------------

  /** The network still has a copy of a SYN that is not acknowledged. */
  lemma SynCopy(n: Net) returns (g: TCPSegment)
    requires Able(n) && n.me.sender.next > 0 && n.peer.receiver.isn.None?
    ensures g in n.sent && !g.header.rst && g.header.syn
    ensures n.me.sender.outstanding != [] && Resends(g, n.me.sender.outstanding[0].seg)
  {
    UnheardUnacked(n);
    assert SI.CoreInv(n.me.sender);
    hide Inv, Handshaken, BothLimited, Kept, SI.CoreInv;
    UnackedSyn(n.me.sender);
    g := CopyOf(n);
  }

  lemma ListenOpens(c: Connection, g: TCPSegment)
    requires c.Valid() && SI.CoreInv(c.sender) && c.Listen() && g.header.syn
    ensures Act(c, Deliver(g)).sender.next > 0
  {
    hide SI.CoreInv, Sender.FillWindow, Connection.Finish, Receiver.SegmentReceived;
    SI.FillOpens(c.sender);
    FinishFrame(c.(lastReceived := c.now).Route(g));
  }

  /** My SYN makes a listening peer send its own. */
  lemma PeerOpens(n: Net) returns (evs: seq<Event>)
    requires Able(n) && n.me.sender.next > 0 && n.me.receiver.isn.None?
    ensures Leads(n, evs, Run(n, evs)) && Run(n, evs).me == n.me && Run(n, evs).peer.sender.next > 0
  {
    AbleSwap(n);
    if n.peer.sender.next > 0 {
      LeadsNowhere(n);
      evs := [];
    } else {
      UnheardUnacked(n.Swap());
      assert SI.CoreInv(n.peer.sender);
      var g := SynCopy(n);
      OldestCareful(n, g);
      hide Able, Careful, Act, Onward, Legal, Run, SI.CoreInv, Resends;
      evs := [Event(false, Deliver(g))];
      LeadsOne(n, evs[0]);
      ListenOpens(n.peer, g);
    }
  }

  /** I hear the peer's SYN. */
  lemma IHear(n: Net) returns (evs: seq<Event>)
    requires Able(n) && n.me.sender.next > 0 && n.peer.sender.next > 0
    ensures Leads(n, evs, Run(n, evs)) && Run(n, evs).me.receiver.isn.Some?
  {
    AbleSwap(n);
    hide Able, Act, Onward, Legal, Run, Resends;
    if n.me.receiver.isn.Some? {
      LeadsNowhere(n);
      assert Leads(n, [], n) ==> Run(n, []) == n;
      evs := [];
    } else {
      var g := SynCopy(n.Swap());
      evs := [Event(true, Deliver(g))];
      LeadsOne(n, evs[0]);
      DeliverHears(n.me, g);
    }
  }

  lemma Meet(n: Net) returns (evs: seq<Event>)
    requires Able(n) && n.me.sender.next > 0
    ensures Leads(n, evs, Run(n, evs)) && Run(n, evs).me.receiver.isn.Some?
  {
    if n.me.receiver.isn.Some? {
      LeadsNowhere(n);
      evs := [];
    } else {
      hide Able, Onward, Legal, Run;
      var a := PeerOpens(n);
      var b := IHear(Run(n, a));
      LeadsThen(n, a, Run(n, a), b, Run(Run(n, a), b));
      evs := a + b;
    }
  }

  // ---- One direction ------------------------------------------------------------

  /** A sender with a finished stream that is not done has something in flight. */
  lemma NotDone(n: Net)
    requires Able(n) && n.me.sender.stream.ended && !n.me.sender.FinAcked()
    ensures n.me.sender.outstanding != [] && n.me.sender.ackno < |Written(n.me)| + 2
  {
    hide Handshaken, BothLimited, SI.FlightsGenuine, SI.Genuine, Follows;
    FinAckedIff(n.me.sender);
  }

  lemma RoomStays(n: Net, n': Net)
    requires Onward(n, n') && Room(n)
    ensures Room(n')
  {
  }

  /** Round by round the whole stream and its end get through. */
  lemma {:induction false} Complete(n: Net) returns (evs: seq<Event>)
    requires Able(n) && Room(n) && PeerSafe(n) && n.me.receiver.isn.Some? && n.me.sender.stream.ended
    ensures Leads(n, evs, Run(n, evs)) && Run(n, evs).me.sender.FinAcked()
    decreases |Written(n.me)| + 2 - n.me.sender.ackno
  {
    AbleSwap(n);
    if n.me.sender.FinAcked() {
      LeadsNowhere(n);
      evs := [];
    } else {
      NotDone(n);
      hide Able, Legal, Run, Evolves, Sender.FinAcked, PeerSafe;
      var a := Round(n);
      var n1 := Run(n, a);
      RoomStays(n, n1);
      var b := Complete(n1);
      LeadsThen(n, a, n1, b, Run(n1, b));
      evs := a + b;
    }
  }

  /** Ending my stream opens the connection if it is not open yet. */
  lemma IEnd(n: Net) returns (evs: seq<Event>)
    requires Able(n)
    ensures Leads(n, evs, Run(n, evs))
    ensures Run(n, evs).me.sender.stream.ended && Run(n, evs).me.sender.next > 0
  {
    AbleSwap(n);
    evs := [Event(true, EndInput)];
    LeadsOne(n, evs[0]);
    EndsStream(n.me);
    EndedIsOpen(Run(n, evs));
  }

  lemma EndsStream(c: Connection)
    requires c.Valid()
    ensures Act(c, EndInput).sender.stream.ended
  {
    hide Sender.FillWindow, Connection.Finish;
    var s := c.sender.(stream := c.sender.stream.EndInput());
    SI.FillWindowFrame(s);
    FinishFrame(c.(sender := s.FillWindow()));
  }

  lemma EndedIsOpen(n: Net)
    requires Able(n) && n.me.sender.stream.ended
    ensures n.me.sender.next > 0
  {
    hide Inv, Handshaken, BothLimited;
  }

  // ---- Mending an early end -----------------------------------------------------

  /** A receiver that has everything is safe. */
  lemma AllIsSafe(n: Net)
    requires Inv(n) && n.peer.receiver.FinRecv() && !EndedShort(n)
    ensures PeerSafe(n)
  {
    hide SI.Tiles, SI.FlightsGenuine, SI.Genuine, SI.NoStall;
    var m := n.peer.receiver.reassembler;
    if |Written(n.me)| > 0 {
      assert Indexed(m.assembled - 1);
    }
  }

  lemma LastFlight(n: Net) returns (k: nat)
    requires Able(n) && !PeerSafe(n) && !n.peer.receiver.FinRecv()
    ensures var s := n.me.sender;
            && k < |s.outstanding| && 0 < s.outstanding[k].first <= |Written(n.me)| < s.outstanding[k].End()
            && s.next == |Written(n.me)| + 2
            && n.peer.receiver.isn.Some? && n.peer.sender.next > 0
  {
    assert Opening(n.me.sender);
    hide Handshaken, BothLimited, BothKept, SI.FlightsGenuine, SI.Genuine, SI.NoStall;
    k := LastByteInFlight(n.me.sender, n.peer.receiver);
    SI.TilesOrdered(n.me.sender.outstanding, n.me.sender.next - n.me.sender.inFlight, n.me.sender.next);
  }

  lemma DeliverReceives(c: Connection, g: TCPSegment)
    requires c.Valid() && c.sender.next > 0 && !g.header.rst
    ensures SameReceived(c.receiver.SegmentReceived(g).0, Act(c, Deliver(g)).receiver)
  {
    hide Connection.Finish, Connection.Route, Receiver.SegmentReceived;
    var c0 := c.(lastReceived := c.now);
    RouteReceives(c0, g);
    FinishFrame(c0.Route(g));
  }

  lemma RouteReceives(c: Connection, g: TCPSegment)
    requires c.Valid() && c.sender.next > 0 && !g.header.rst
    ensures c.Route(g).receiver == c.receiver.SegmentReceived(g).0
  {
    hide Sender.AckReceived, Sender.FillWindow, Sender.AcceptsAck, Receiver.SegmentReceived;
  }

  /** Flight k holds the last byte, and g is a copy of it. */
  lemma MendsPeer(n: Net, k: nat, g: TCPSegment)
    requires Able(n) && !PeerSafe(n) && !n.peer.receiver.FinRecv()
    requires var s := n.me.sender;
             && k < |s.outstanding| && 0 < s.outstanding[k].first <= |Written(n.me)| < s.outstanding[k].End()
             && s.next == |Written(n.me)| + 2 && Resends(g, s.outstanding[k].seg)
    ensures g.payload != []
    ensures RR.EofSafe(n.peer.receiver.SegmentReceived(g).0.reassembler, |Written(n.me)|)
  {
    var s, f := n.me.sender, n.me.sender.outstanding[k];
    assert SI.SegmentAt(s, f.seg, f.first);
    assert SI.SegmentAt(s, g, f.first);
    hide Handshaken, BothKept, SI.SegmentAt, SI.Tiles, SI.FlightsGenuine, SI.Genuine, SI.NoStall, Follows, RR.EofSafe,
         Receiver.SegmentReceived;
    LastByteMends(s, n.peer.receiver, g, f.first);
  }

  /** A peer that knows the end too early, but has not ended, is mended by the last byte. */
  lemma Mend(n: Net) returns (evs: seq<Event>)
    requires Able(n) && !EndedShort(n)
    ensures Leads(n, evs, Run(n, evs)) && PeerSafe(Run(n, evs)) && Run(n, evs).me == n.me
  {
    AbleSwap(n);
    if PeerSafe(n) {
      LeadsNowhere(n);
      evs := [];
    } else {
      if n.peer.receiver.FinRecv() {
        AllIsSafe(n);
      }
      var k := LastFlight(n);
      assert Copied(n.me.sender.outstanding[k].seg, n.sent);
      var g :| g in n.sent && Resends(g, n.me.sender.outstanding[k].seg);
      assert !g.header.rst;
      MendsPeer(n, k, g);
      hide Able, Act, Legal, Run, Resends, Receiver.SegmentReceived;
      evs := [Event(false, Deliver(g))];
      LeadsOne(n, evs[0]);
      DeliverReceives(n.peer, g);
    }
  }

  /** Mend the peer, end my stream, meet, and get everything through. */
  lemma OneWay(n: Net) returns (evs: seq<Event>)
    requires Able(n) && Room(n) && !EndedShort(n)
    ensures Leads(n, evs, Run(n, evs)) && Run(n, evs).me.sender.FinAcked()
  {
    hide Able, Legal, Run, Evolves, Sender.FinAcked, PeerSafe, CutShort;
    var a := Mend(n);
    var n1 := Run(n, a);
    var b := IEnd(n1);
    var n2 := Run(n1, b);
    LeadsThen(n, a, n1, b, n2);
    var c := Meet(n2);
    var n3 := Run(n2, c);
    LeadsThen(n, a + b, n2, c, n3);
    RoomStays(n, n3);
    var d := Complete(n3);
    LeadsThen(n, a + b + c, n3, d, Run(n3, d));
    evs := a + b + c + d;
  }

  // ---- Both directions ----------------------------------------------------------

  lemma LeadsFlip(n: Net, evs: seq<Event>, n': Net)
    requires Leads(n.Swap(), evs, n')
    ensures Leads(n, Flip(evs), n'.Swap())
  {
    hide Able, Throughout, Run, Onward, Enabled;
    assert n.Swap().Swap() == n;
    RunSwap(n.Swap(), evs, Enabled);
    AbleSwap(n');
    OnwardSwap(n.Swap(), n');
  }

  lemma FinAckedStays(n: Net, n': Net)
    requires Able(n) && Able(n') && Onward(n, n') && n.me.sender.FinAcked()
    ensures n'.me.sender.FinAcked()
  {
    hide Handshaken, BothLimited, BothKept, SI.Tiles, SI.FlightsGenuine, SI.Genuine, Follows, Later;
    FinAckedIff(n.me.sender);
    FinAckedIff(n'.me.sender);
  }

  lemma StillNotShort(n: Net, n': Net)
    requires n'.peer == n.peer && SameText(n.me, n'.me) && !EndedShort(n)
    ensures !EndedShort(n')
  {
  }

  lemma ShortStays(n: Net, n': Net)
    requires Able(n) && Able(n') && Onward(n, n') && PeerSafe(n.Swap())
    ensures !EndedShort(n'.Swap())
  {
    hide Able, Evolves, CutShort, PeerSafe;
    AbleSwap(n');
    SafeIsNotShort(n'.Swap());
  }

  /** Both streams get through. */
  lemma BothWays(n: Net) returns (evs: seq<Event>)
    requires Able(n) && Room(n) && Room(n.Swap()) && !EndedShort(n) && !EndedShort(n.Swap())
    ensures Leads(n, evs, Run(n, evs))
    ensures Run(n, evs).me.sender.FinAcked() && Run(n, evs).peer.sender.FinAcked()
  {
    hide Able, Legal, Run, Evolves, Sender.FinAcked, PeerSafe, CutShort;
    AbleSwap(n);
    var m := Mend(n.Swap());
    var n0 := Run(n.Swap(), m).Swap();
    LeadsFlip(n, m, n0.Swap());
    StillNotShort(n, n0);
    RoomStays(n, n0);
    var a := OneWay(n0);
    var n1 := Run(n0, a);
    LeadsThen(n, Flip(m), n0, a, n1);
    AbleSwap(n1);
    OnwardSwap(n, n1);
    ShortStays(n0, n1);
    RoomStays(n.Swap(), n1.Swap());
    var b := OneWay(n1.Swap());
    var n2 := Run(n1.Swap(), b).Swap();
    LeadsFlip(n1, b, n2.Swap());
    FinAckedStays(n1, n2);
    LeadsThen(n, Flip(m) + a, n1, Flip(b), n2);
    evs := Flip(m) + a + Flip(b);
  }

  lemma OnwardSwap(n: Net, n': Net)
    requires Onward(n, n')
    ensures Onward(n.Swap(), n'.Swap())
  {
  }

  // ---- Shutting down ------------------------------------------------------------

  /** Ten timeouts after both streams are finished an endpoint shuts down. */
  lemma SilenceClears(c: Connection)
    requires c.Valid() && c.TimeWait() && c.sender.outstanding == [] && c.lastReceived <= c.now
    requires c.sender.consecutive <= MAX_RETX_ATTEMPTS
    ensures Act(c, Tick(10 * c.timeout)).clear
  {
    hide Connection.Stamp;
  }

  lemma DoneIsSilent(n: Net)
    requires Able(n) && n.me.sender.FinAcked()
    ensures n.me.sender.outstanding == [] && n.peer.receiver.FinRecv() && Delivered(n.peer) == Written(n.me)
    ensures n.me.lastReceived <= n.me.now && n.me.sender.consecutive <= MAX_RETX_ATTEMPTS
  {
    hide Handshaken, BothLimited, SI.FlightsGenuine, SI.Genuine, Follows;
    InvFinAcked(n);
    SI.TilesOrdered(n.me.sender.outstanding, n.me.sender.next, n.me.sender.next);
  }

  /** When both streams are through, I can shut down. */
  lemma IClose(n: Net) returns (evs: seq<Event>)
    requires Able(n) && n.me.sender.FinAcked() && n.peer.sender.FinAcked()
    ensures Leads(n, evs, Run(n, evs)) && Run(n, evs).me.clear && Run(n, evs).peer == n.peer
  {
    AbleSwap(n);
    DoneIsSilent(n);
    DoneIsSilent(n.Swap());
    hide Able, Act, Legal, Run, Onward;
    evs := [Event(true, Tick(10 * n.me.timeout))];
    LeadsOne(n, evs[0]);
    SilenceClears(n.me);
  }

  lemma BothDone(n: Net, n': Net)
    requires Able(n) && Able(n') && Onward(n, n') && n.me.sender.FinAcked() && n.peer.sender.FinAcked()
    ensures n'.me.sender.FinAcked() && n'.peer.sender.FinAcked()
  {
    hide Able, Evolves, Sender.FinAcked;
    FinAckedStays(n, n');
    AbleSwap(n);
    AbleSwap(n');
    OnwardSwap(n, n');
    FinAckedStays(n.Swap(), n'.Swap());
  }

  /** Then the peer can, too. */
  lemma BothClose(n: Net) returns (evs: seq<Event>)
    requires Able(n) && n.me.sender.FinAcked() && n.peer.sender.FinAcked()
    ensures Leads(n, evs, Run(n, evs)) && Run(n, evs).me.clear && Run(n, evs).peer.clear
    ensures Run(n, evs).me.sender.FinAcked() && Run(n, evs).peer.sender.FinAcked()
  {
    hide Able, Legal, Run, Onward, Sender.FinAcked;
    var a := IClose(n);
    var n1 := Run(n, a);
    BothDone(n, n1);
    AbleSwap(n1);
    var b := IClose(n1.Swap());
    var n2 := Run(n1.Swap(), b).Swap();
    LeadsFlip(n1, b, n2.Swap());
    LeadsThen(n, a, n1, Flip(b), n2);
    BothDone(n1, n2);
    evs := a + Flip(b);
  }

  // ---- From every reachable state -----------------------------------------------

  lemma RunAble(n: Net, evs: seq<Event>)
    requires Fresh(n) && Valid(n) && Legal(n, evs)
    requires !Run(n, evs).me.unclear && !Run(n, evs).peer.unclear
    ensures Able(Run(n, evs))
  {
    hide Inv, Handshaken, BothLimited, BothKept, Run, Fresh, Throughout;
    RunKeeps(n, evs);
    RunLimited(n, evs);
    RunKept(n, evs);
    TS.RunHandshaken(n, evs);
  }

  /** On the way from n to n' nothing was written to my stream, all of it was delivered, and its
      end was acknowledged. */
  predicate GotThrough(n: Net, n': Net) {
    && n'.me.sender.FinAcked() && n'.peer.receiver.FinRecv()
    && Written(n'.me) == Written(n.me) == Delivered(n'.peer)
  }

  /** Some continuation gets everything written to my stream through. */
  ghost predicate Deliverable(n: Net)
    requires Valid(n)
  {
    exists more :: Legal(n, more) && GotThrough(n, Run(n, more))
  }

  /** Some continuation gets both streams through and leaves both endpoints shut down cleanly. */
  ghost predicate Closable(n: Net)
    requires Valid(n)
  {
    exists more :: Legal(n, more) && ClosedBy(n, Run(n, more))
  }

  predicate ClosedBy(n: Net, n': Net) {
    && n'.me.clear && n'.peer.clear && !n'.me.unclear && !n'.peer.unclear
    && GotThrough(n, n') && GotThrough(n.Swap(), n'.Swap())
  }

  lemma DoneGotThrough(n: Net, n': Net)
    requires Able(n') && Onward(n, n') && n'.me.sender.FinAcked()
    ensures GotThrough(n, n')
  {
    hide Able, Evolves;
    DoneIsSilent(n');
  }

  lemma NotShortDelivers(n: Net)
    requires Able(n) && Room(n) && !EndedShort(n)
    ensures Valid(n) && Deliverable(n)
  {
    AbleSwap(n);
    hide Able, Onward, Legal, Run, Room, CutShort, GotThrough, Sender.FinAcked, Connection.Valid;
    var more := OneWay(n);
    DoneGotThrough(n, Run(n, more));
  }

  lemma ShortCannot(n: Net)
    requires Inv(n) && Valid(n) && Deliverable(n)
    ensures !EndedShort(n)
  {
    hide Inv, Legal, Run, Sender.FinAcked;
    var more :| Legal(n, more) && GotThrough(n, Run(n, more));
    if EndedShort(n) {
      StaysShort(n, more);
    }
  }

  /** In every run, as long as neither endpoint has been reset and the peer has any buffer at all,
      everything written so far can still be delivered, and its end acknowledged, by some
      continuation in which nothing more is written, if and only if the peer has not already ended
      my stream before its end. */
  lemma DeliverableIff(n: Net, evs: seq<Event>)
    requires Fresh(n) && Valid(n) && Legal(n, evs)
    requires !Run(n, evs).me.unclear && !Run(n, evs).peer.unclear && Room(Run(n, evs))
    ensures Deliverable(Run(n, evs)) <==> !EndedShort(Run(n, evs))
  {
    RunAble(n, evs);
    hide Run, Fresh, Legal, Room, CutShort, Deliverable, Inv, Handshaken, BothLimited, BothKept;
    var n0 := Run(n, evs);
    if EndedShort(n0) {
      if Deliverable(n0) {
        ShortCannot(n0);
      }
    } else {
      NotShortDelivers(n0);
    }
  }

  lemma AllTheWay(n: Net) returns (evs: seq<Event>)
    requires Able(n) && Room(n) && Room(n.Swap()) && !EndedShort(n) && !EndedShort(n.Swap())
    ensures Leads(n, evs, Run(n, evs)) && Run(n, evs).me.clear && Run(n, evs).peer.clear
    ensures Run(n, evs).me.sender.FinAcked() && Run(n, evs).peer.sender.FinAcked()
  {
    BothValid(n);
    hide Able, Onward, Legal, Run, Room, CutShort, Sender.FinAcked, Valid;
    var a := BothWays(n);
    var n1 := Run(n, a);
    var b := BothClose(n1);
    LeadsThen(n, a, n1, b, Run(n1, b));
    evs := a + b;
  }

  lemma DoneIsClosed(n: Net, n': Net)
    requires Able(n') && Onward(n, n') && n'.me.clear && n'.peer.clear
    requires n'.me.sender.FinAcked() && n'.peer.sender.FinAcked()
    ensures ClosedBy(n, n')
  {
    AbleSwap(n');
    hide Onward, Inv, Handshaken, BothLimited, BothKept, GotThrough, Sender.FinAcked;
    DoneGotThrough(n, n');
    OnwardSwap(n, n');
    DoneGotThrough(n.Swap(), n'.Swap());
  }

  lemma NotShortCloses(n: Net)
    requires Able(n) && Room(n) && Room(n.Swap()) && !EndedShort(n) && !EndedShort(n.Swap())
    ensures Valid(n) && Closable(n)
  {
    BothValid(n);
    hide Able, Onward, Legal, Run, Room, CutShort, ClosedBy, Sender.FinAcked, Valid;
    var more := AllTheWay(n);
    DoneIsClosed(n, Run(n, more));
  }

  lemma ClosableDelivers(n: Net)
    requires Valid(n) && Closable(n)
    ensures Deliverable(n) && Valid(n.Swap()) && Deliverable(n.Swap())
  {
    hide Run, Throughout, GotThrough, Enabled;
    var more :| Legal(n, more) && ClosedBy(n, Run(n, more));
    RunSwap(n, more, Enabled);
    assert GotThrough(n.Swap(), Run(n.Swap(), Flip(more)));
  }

  /** In every run, as long as neither endpoint has been reset and both have buffers, both streams
      can still be delivered in full and both endpoints shut down cleanly, by some continuation in
      which nothing more is written, if and only if neither has ended the other's stream before its
      end. */
  lemma ClosableIff(n: Net, evs: seq<Event>)
    requires Fresh(n) && Valid(n) && Legal(n, evs)
    requires !Run(n, evs).me.unclear && !Run(n, evs).peer.unclear
    requires Room(Run(n, evs)) && Room(Run(n, evs).Swap())
    ensures Closable(Run(n, evs)) <==> !EndedShort(Run(n, evs)) && !EndedShort(Run(n, evs).Swap())
  {
    RunAble(n, evs);
    hide Run, Fresh, Legal, Room, CutShort, Closable, Deliverable, Inv, Handshaken, BothLimited, BothKept;
    var n0 := Run(n, evs);
    if Closable(n0) {
      ClosableDelivers(n0);
      ShortCannot(n0);
      InvSwap(n0);
      ShortCannot(n0.Swap());
    } else if !EndedShort(n0) && !EndedShort(n0.Swap()) {
      NotShortCloses(n0);
    }
  }
}
