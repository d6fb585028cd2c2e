/** A sender cuts its stream into segments once and for all: whatever it sends again is cut as
    before. So of every segment in flight the receiver has accepted a first part, or nothing. */
module Cuts {
  import opened Bytes
  import opened Segments
  import opened Senders
  import opened Receivers
  import opened Directions
  import opened Connections
  import opened Network
  import opened Laws
  import opened Copies
  import opened WrappingIntegers
  import SI = SenderInvariants
  import R = Reassembly
  import RR = ReassemblyRuns

  // ---- What an operation sends --------------------------------------------------

  ghost predicate Repeats(g: TCPSegment, fs: seq<Flight>) {
    g.payload == [] || exists f :: f in fs && Resends(g, f.seg)
  }

  /** Every flight of c' is one of c or lies beyond what c had sent, and whatever was handed to the
      network is empty or in flight. */
  ghost predicate Summary(c: Connection, c': Connection) {
    && (forall f :: f in c'.sender.outstanding ==> f in c.sender.outstanding || f.first >= c.sender.next)
    && (forall g :: g in c'.out ==> Repeats(g, c'.sender.outstanding))
  }

  /** Everything a finished operation hands over is a stamped segment of the queue, or empty. */
  lemma FinishHands(c: Connection, g: TCPSegment)
    requires c.Valid() && c.out == [] && g in c.Finish().out
    ensures g.payload == [] || exists k :: 0 <= k < |c.sender.queue| && g == c.Stamp(c.sender.queue[k])
  {
    hide Connection.Stamp;
    var c1 := c.CollectOutput();
    if g in c1.out {
      var k :| 0 <= k < |c1.out| && c1.out[k] == g;
    } else {
      var c2 := c1.UnclearShutdown();
      var queue := c2.sender.SendEmpty().queue;
      assert queue[1..] == [];
      StampResends(c2.(sender := c2.sender.SendEmpty()), queue[0]);
    }
  }

  lemma StampRepeats(c: Connection, g: TCPSegment, fs: seq<Flight>)
    requires c.Valid() && Carried(g, fs)
    ensures Repeats(c.Stamp(g), fs)
  {
    hide Connection.Stamp;
    StampResends(c, g);
    if g.payload != [] {
      var f :| f in fs && f.seg == g;
    }
  }

  lemma EmptyRepeats(g: TCPSegment, fs: seq<Flight>)
    requires g.payload == []
    ensures Repeats(g, fs)
  {
  }

  lemma FinishSummary(c: Connection, c1: Connection)
    requires c1.Valid() && c.sender.queue == [] && c1.out == [] && Accounts(c.sender, c1.sender)
    ensures Summary(c, c1.Finish())
  {
    hide Connection.Stamp, Connection.Finish, Carried, Repeats;
    FinishFrame(c1);
    forall g | g in c1.Finish().out
      ensures Repeats(g, c1.sender.outstanding)
    {
      FinishHands(c1, g);
      if g.payload != [] {
        var k :| 0 <= k < |c1.sender.queue| && g == c1.Stamp(c1.sender.queue[k]);
        StampRepeats(c1, c1.sender.queue[k], c1.sender.outstanding);
      } else {
        EmptyRepeats(g, c1.sender.outstanding);
      }
    }
  }

  lemma FillSummary(c: Connection, s: Sender)
    requires c.Valid() && c.sender.queue == [] && c.out == []
    requires SI.CoreInv(s) && s == c.sender.(stream := s.stream)
    ensures Summary(c, c.(sender := s.FillWindow()).Finish())
  {
    SI.CoreValid(s);
    hide SI.CoreInv, Sender.FillWindow, Connection.Finish;
    FillAccounts(s);
    FinishSummary(c, c.(sender := s.FillWindow()));
  }

  lemma ConnectSummary(c: Connection)
    requires c.Valid() && SI.CoreInv(c.sender) && c.sender.queue == [] && c.out == []
    ensures Summary(c, c.Connect())
  {
    hide SI.CoreInv, Sender.FillWindow, Connection.Stamp, Carried, Repeats;
    if c.Listen() {
      FillAccounts(c.sender);
      var c1 := c.(sender := c.sender.FillWindow());
      forall g | g in c1.CollectOutput().out
        ensures Repeats(g, c1.sender.outstanding)
      {
        var k :| 0 <= k < |c1.CollectOutput().out| && c1.CollectOutput().out[k] == g;
        StampRepeats(c1, c1.sender.queue[k], c1.sender.outstanding);
      }
    }
  }

  lemma TickSummary(c: Connection, ms: nat)
    requires c.Valid() && SI.Inv(c.sender) && c.sender.queue == [] && c.out == []
    ensures Summary(c, c.Tick(ms))
  {
    hide SI.CoreInv, Accounts, Connection.Finish, Sender.Tick;
    TickAccounts(c.sender, ms);
    FinishSummary(c, c.(now := c.now + ms, sender := c.sender.Tick(ms)));
  }

  lemma DeliverSummary(c: Connection, g: TCPSegment)
    requires c.Valid() && SI.Inv(c.sender) && c.sender.queue == [] && c.out == []
    ensures Summary(c, c.SegmentReceived(g))
  {
    hide SI.CoreInv, Accounts, Connection.Route, Connection.Finish;
    var c0 := c.(lastReceived := c.now);
    RouteAccounts(c0, g);
    RouteFrame(c0, g);
    FinishSummary(c, c0.Route(g));
  }

  lemma ActSummary(n: Net, op: Op)
    requires Inv(n) && Enabled(n, op)
    ensures Summary(n.me, Act(n.me, op))
  {
    var c := n.me;
    assert c.Valid() && SI.Inv(c.sender) && c.sender.queue == [] && c.out == [];
    hide Inv, SI.CoreInv, Sender.FillWindow, Connection.SegmentReceived, Connection.Finish, Connection.Connect,
         Connection.Tick, Repeats;
    match op
    case Connect => ConnectSummary(c);
    case Write(data) =>
      SI.WriteKeeps(c.sender, data);
      FillSummary(c, c.sender.(stream := c.sender.stream.Write(data)));
    case EndInput =>
      SI.EndInputKeeps(c.sender);
      FillSummary(c, c.sender.(stream := c.sender.stream.EndInput()));
    case Tick(ms) => TickSummary(c, ms);
    case Read(len) =>
    case Deliver(g) => DeliverSummary(c, g);
  }

  // ---- Cut once and for all -----------------------------------------------------

  /** A segment has one place. */
  lemma SamePlace(s: Sender, g: TCPSegment, a: nat, b: nat)
    requires SI.Counted(s) && Short(s) && SI.SegmentAt(s, g, a) && SI.SegmentAt(s, g, b)
    ensures a == b
  {
    hide RR.Excerpt;
    NextBound(s);
    UnwrapWrap(a, s.isn, 0);
    UnwrapWrap(b, s.isn, 0);
  }

  /** A segment at position a lies before flight f, behind it, or is the same piece of text. */
  predicate Apart(a: nat, g: TCPSegment, f: Flight) {
    || a + g.LengthInSequenceSpace() <= f.first
    || f.End() <= a
    || (a == f.first && g.payload == f.seg.payload)
  }

  ghost predicate Uncut(s: Sender, sent: set<TCPSegment>) {
    forall g, f, a: nat | g in sent && f in s.outstanding && SI.SegmentAt(s, g, a) && g.payload != [] ::
      Apart(a, g, f)
  }

  lemma {:induction false} TilesApart(fs: seq<Flight>, lo: int, hi: nat, i: nat, j: nat)
    requires SI.Tiles(fs, lo, hi) && i < j < |fs|
    ensures fs[i].End() <= fs[j].first
  {
    if i == 0 {
      SI.TilesOrdered(fs[1..], fs[0].End(), hi);
      assert fs[j] == fs[1..][j - 1];
    } else {
      TilesApart(fs[1..], fs[0].End(), hi, i - 1, j - 1);
    }
  }

  lemma FlightsApart(s: Sender, f: Flight, h: Flight)
    requires SI.CoreInv(s) && f in s.outstanding && h in s.outstanding
    ensures f == h || h.End() <= f.first || f.End() <= h.first
  {
    var i :| 0 <= i < |s.outstanding| && s.outstanding[i] == f;
    var j :| 0 <= j < |s.outstanding| && s.outstanding[j] == h;
    if i < j {
      TilesApart(s.outstanding, s.next - s.inFlight, s.next, i, j);
    } else if j < i {
      TilesApart(s.outstanding, s.next - s.inFlight, s.next, j, i);
    }
  }

  lemma OldApart(s: Sender, s': Sender, sent: set<TCPSegment>, g: TCPSegment, f: Flight, a: nat)
    requires SI.Counted(s') && Short(s') && SI.Grows(s, s') && SI.Genuine(s, g) && Uncut(s, sent) && g in sent
    requires f in s.outstanding || f.first >= s.next
    requires SI.SegmentAt(s', g, a) && g.payload != []
    ensures Apart(a, g, f)
  {
    var b: nat :| SI.SegmentAt(s, g, b);
    SI.SegmentStays(s, s', g, b);
    SamePlace(s', g, a, b);
  }

  lemma NewApart(s: Sender, g: TCPSegment, f: Flight, a: nat)
    requires SI.CoreInv(s) && Short(s) && Repeats(g, s.outstanding) && f in s.outstanding
    requires SI.SegmentAt(s, g, a) && g.payload != []
    ensures Apart(a, g, f)
  {
    var h :| h in s.outstanding && Resends(g, h.seg);
    assert SI.SegmentAt(s, h.seg, h.first);
    assert SI.SegmentAt(s, g, h.first);
    SamePlace(s, g, a, h.first);
    FlightsApart(s, f, h);
  }

  lemma StepUncut(n: Net, op: Op)
    requires Inv(n) && Enabled(n, op) && Uncut(n.me.sender, n.sent)
    ensures Uncut(Step(n, op).me.sender, Step(n, op).sent)
  {
    ActSummary(n, op);
    ActSound(n, op);
    hide SI.Tiles, SI.FlightsGenuine, SI.SegmentAt, SI.NoStall, SI.Grows, Act, Follows, Later, Repeats, Apart,
         LingerInv, Acks, Enabled;
    var s, c', n' := n.me.sender, Act(n.me, op), Step(n, op);
    forall g, f, a: nat | g in n'.sent && f in c'.sender.outstanding && SI.SegmentAt(c'.sender, g, a) && g.payload != []
      ensures Apart(a, g, f)
    {
      if g in n.sent {
        OldApart(s, c'.sender, n.sent, g, f, a);
      } else {
        NewApart(c'.sender, g, f, a);
      }
    }
  }

  // ---- What the receiver has of a flight ----------------------------------------

  /** Of the indices from lo up to hi the set holds a first part. */
  ghost predicate Gapless(a: set<nat>, lo: nat, hi: nat) {
    forall i: nat, j: nat :: lo <= i < j < hi && j in a ==> i in a
  }

  lemma PushGapless(m: R.Reassembler, data: seq<byte>, index: nat, last: bool, lo: nat, hi: nat)
    requires R.Inv(m) && Gapless(m.accepted, lo, hi)
    requires data == [] || index + |data| <= lo || hi <= index || (index == lo && index + |data| == hi)
    ensures Gapless(m.Push(data, index, last).accepted, lo, hi)
  {
    hide R.Inv, R.Reassembler.Push, R.SameReader;
    R.PushKeeps(m, data, index, last);
  }

  /** The stream index of the first byte of a flight. */
  function Start(f: Flight): nat { f.first - One(f.first > 0) }

  ghost predicate Prefixed(f: Flight, r: Receiver) {
    Gapless(r.reassembler.accepted, Start(f), Start(f) + |f.seg.payload|)
  }

  /** Pieces that lie apart hold different bytes. */
  lemma ApartBytes(s: Sender, g: TCPSegment, a: nat, f: Flight)
    requires SI.SegmentAt(s, g, a) && SI.SegmentAt(s, f.seg, f.first) && (g.payload != [] ==> Apart(a, g, f))
    ensures var index, lo, hi := a - One(a > 0), Start(f), Start(f) + |f.seg.payload|;
            g.payload == [] || index + |g.payload| <= lo || hi <= index || (index == lo && index + |g.payload| == hi)
  {
  }

  /** Of a segment of the sender the receiver takes nothing, or pushes its text where it belongs. */
  lemma ReceivePushes(s: Sender, r: Receiver, g: TCPSegment, a: nat)
    requires Follows(s, r) && SI.Counted(s) && Short(s) && SI.SegmentAt(s, g, a)
    ensures var m := r.SegmentReceived(g).0.reassembler;
            m == r.reassembler || m == r.reassembler.Push(g.payload, a - One(a > 0), g.header.fin)
  {
    hide R.Reassembler.Push, RR.Consistent, R.Inv, Receiver.InWindow, Receiver.Index, Receiver.Position;
    if g.header.syn && r.Listen() {
      SynFollows(s, r, g, a);
      PositionExact(s, r.(isn := Some(g.header.seqno)), g, a);
    } else if !g.header.syn && !r.Listen() {
      PositionExact(s, r, g, a);
    }
  }

  lemma ReceivePrefixed(s: Sender, r: Receiver, g: TCPSegment, a: nat, f: Flight)
    requires Follows(s, r) && SI.Counted(s) && Short(s) && SI.SegmentAt(s, g, a) && SI.SegmentAt(s, f.seg, f.first)
    requires (g.payload != [] ==> Apart(a, g, f)) && Prefixed(f, r)
    ensures Prefixed(f, r.SegmentReceived(g).0)
  {
    hide R.Reassembler.Push, RR.Consistent, SI.SegmentAt, SI.Counted, Receiver.SegmentReceived, Apart, Gapless,
         R.Sorted, R.Span;
    ReceivePushes(s, r, g, a);
    ApartBytes(s, g, a, f);
    PushGapless(r.reassembler, g.payload, a - One(a > 0), g.header.fin, Start(f), Start(f) + |f.seg.payload|);
  }

  ghost predicate AllPrefixed(s: Sender, r: Receiver) {
    forall f :: f in s.outstanding ==> Prefixed(f, r)
  }

  /** Nothing of a new flight has been accepted. */
  lemma NewPrefixed(s: Sender, r: Receiver, f: Flight)
    requires Follows(s, r) && SI.Counted(s) && f.first >= s.next
    ensures Prefixed(f, r)
  {
    hide R.Inv, RR.Consistent;
  }

  lemma SenderPrefixed(n: Net, op: Op)
    requires Inv(n) && Enabled(n, op) && AllPrefixed(n.me.sender, n.peer.receiver)
    ensures AllPrefixed(Step(n, op).me.sender, n.peer.receiver)
  {
    ActSummary(n, op);
    assert Follows(n.me.sender, n.peer.receiver) && SI.Counted(n.me.sender);
    hide Inv, Enabled, Act, Follows, SI.Counted, Repeats, Prefixed;
    forall f | f in Step(n, op).me.sender.outstanding
      ensures Prefixed(f, n.peer.receiver)
    {
      if f !in n.me.sender.outstanding {
        NewPrefixed(n.me.sender, n.peer.receiver, f);
      }
    }
  }

  lemma ReceiverPrefixed(n: Net, op: Op)
    requires Inv(n) && Enabled(n, op) && Uncut(n.peer.sender, n.heard) && AllPrefixed(n.peer.sender, n.me.receiver)
    ensures AllPrefixed(n.peer.sender, Step(n, op).me.receiver)
  {
    hide Act, SI.Tiles, SI.SegmentAt, SI.NoStall, Receiver.SegmentReceived, Follows, LingerInv, Gapless, Apart, Acks;
    ReceivedBy(n.me, op);
    var s, r := n.peer.sender, n.me.receiver;
    forall f | f in s.outstanding
      ensures Prefixed(f, Step(n, op).me.receiver)
    {
      assert SI.SegmentAt(s, f.seg, f.first);
      if op.Deliver? {
        var a: nat :| SI.SegmentAt(s, op.seg, a);
        ReceivePrefixed(s, r, op.seg, a, f);
      }
    }
  }

  // ---- In every run -------------------------------------------------------------

  /** My stream is cut once and for all, and the peer has a first part of each piece in flight. */
  ghost predicate CleanCut(n: Net) {
    Uncut(n.me.sender, n.sent) && AllPrefixed(n.me.sender, n.peer.receiver)
  }

  lemma StepCleanCut(n: Net, op: Op)
    requires Inv(n) && Enabled(n, op) && CleanCut(n) && CleanCut(n.Swap())
    ensures CleanCut(Step(n, op)) && CleanCut(Step(n, op).Swap())
  {
    hide Inv, Act, Enabled, Uncut, AllPrefixed;
    StepUncut(n, op);
    SenderPrefixed(n, op);
    ReceiverPrefixed(n, op);
  }

  /** One event, of either endpoint. */
  lemma HappenCleanCut(n: Net, ev: Event)
    requires Inv(n) && Valid(n) && Enabled(Face(n, ev.mine), ev.op) && CleanCut(n) && CleanCut(n.Swap())
    ensures CleanCut(Happen(n, ev)) && CleanCut(Happen(n, ev).Swap())
  {
    hide Inv, Enabled, Step, CleanCut;
    InvSwap(n);
    assert n.Swap().Swap() == n;
    StepCleanCut(Face(n, ev.mine), ev.op);
    assert Step(Face(n, ev.mine), ev.op).Swap().Swap() == Step(Face(n, ev.mine), ev.op);
  }

  /** In every run, every segment an endpoint has sent lies before, behind, or exactly on each piece
      it has in flight, and the other endpoint has accepted a first part of that piece. */
  lemma {:induction false} RunCleanCut(n: Net, evs: seq<Event>)
    requires Fresh(n) && Valid(n) && Legal(n, evs)
    ensures CleanCut(Run(n, evs)) && CleanCut(Run(n, evs).Swap())
  {
    hide Inv, Enabled, Happen, CleanCut;
    if evs == [] {
      FreshCleanCut(n);
      FreshCleanCut(n.Swap());
    } else {
      RunCleanCut(n, evs[..|evs| - 1]);
      RunKeeps(n, evs[..|evs| - 1]);
      HappenCleanCut(Run(n, evs[..|evs| - 1]), evs[|evs| - 1]);
    }
  }

  lemma FreshCleanCut(n: Net)
    requires Fresh(n)
    ensures CleanCut(n)
  {
  }
}
