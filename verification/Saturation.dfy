/** A sender does not hold back: whenever it may send it goes on until the window is used up or
    nothing is left to send. */
module Saturation {
  import opened Bytes
  import opened Segments
  import opened Senders
  import opened Receivers
  import opened Directions
  import opened Connections
  import opened Network
  import opened Laws
  import opened WrappingIntegers
  import L = Lingering
  import SI = SenderInvariants
  import R = Reassembly

  /** The SYN, a byte or the end of the stream has not been sent yet. */
  predicate Unsent(s: Sender) {
    s.next < 1 + |s.stream.history| + One(s.stream.ended)
  }

  /** The window, at least one position wide, is used up, or nothing is left to send. */
  predicate Sated(s: Sender) {
    s.ackno + Max(1, s.window) <= s.next || !Unsent(s)
  }

  /** The sender's states say exactly whether something is left. */
  lemma CanSendIff(s: Sender)
    requires SI.CoreInv(s)
    ensures s.CanSend() <==> Unsent(s)
    ensures s.next <= 1 + |s.stream.history| + One(s.stream.ended)
  {
    hide SI.Tiles, SI.FlightsGenuine;
  }

  lemma FillSates(s: Sender)
    requires SI.CoreInv(s)
    ensures s.Valid() && Sated(s.FillWindow())
    ensures s.FillWindow().next > s.next <==> s.next < s.ackno + Max(1, s.window) && Unsent(s)
  {
    SI.CoreValid(s);
    hide SI.CoreInv, Sender.FillWindow, Sender.CanSend, SI.Grows, SI.NoStall;
    SI.FillWindowKeeps(s);
    SI.FillWindowFrame(s);
    CanSendIff(s);
    CanSendIff(s.FillWindow());
    FillGrows(s);
  }

  lemma FillGrows(s: Sender)
    requires SI.CoreInv(s)
    ensures s.Valid() && s.next <= s.FillWindow().next
  {
    hide Sender.FillWindow;
    SI.FillWindowKeeps(s);
  }

  /** An acknowledgment is new to s and lets it send more. */
  predicate LetsSend(s: Sender, k: nat, win: u16) {
    s.ackno < k <= s.next < k + Max(1, win) && Unsent(s)
  }

  /** After an acknowledgment of something new the sender has used up the window that came with it,
      or has nothing left to send; and it sends exactly when the new window has room for what is
      left. Any other acknowledgment makes it send nothing. */
  lemma AckSates(s: Sender, number: u32, win: u16)
    requires SI.Inv(s)
    ensures var k, s' := Unwrap(number, s.isn, s.ackno), s.AckReceived(number, win);
            && s.Valid()
            && (s'.ackno > s.ackno <==> s.ackno < k <= s.next)
            && (s'.ackno > s.ackno ==> s'.ackno == k && s'.window == win && Sated(s'))
            && (s'.next > s.next <==> LetsSend(s, k, win))
  {
    SI.CoreValid(s);
    hide Sender.FillWindow, Sender.PopAcked, SI.CoreInv, SI.LooseInv, SI.Progress, SI.Grows;
    SI.AckReceivedKeeps(s, number, win);
    var arrived := Unwrap(number, s.isn, s.ackno);
    if s.ackno < arrived <= s.next {
      var s1 := s.(window := win, rto := s.initialTimeout, consecutive := 0, ackno := arrived);
      SI.AckMoves(s, s1);
      SI.PopAckedGrows(s, s1);
      SI.PopAckedFrame(s1);
      FillSates(s1.PopAcked());
      SI.FillWindowFrame(s1.PopAcked());
    }
  }

  // ---- The endpoint -------------------------------------------------------------

  lemma SameSated(s: Sender, s': Sender)
    requires s' == s.(queue := s'.queue, stream := s.stream.(error := s'.stream.error))
    ensures Sated(s') <==> Sated(s)
  {
  }

  /** The window is filled, and the operation finished. */
  lemma FillFinishSates(c: Connection, s: Sender)
    requires c.Valid() && SI.CoreInv(s)
    ensures s.Valid() && Sated(c.(sender := s.FillWindow()).Finish().sender)
  {
    hide Sender.FillWindow, Connection.Finish, SI.CoreInv, Sated;
    FillSates(s);
    var c1 := c.(sender := s.FillWindow());
    FinishFrame(c1);
    SameSated(c1.sender, c1.Finish().sender);
  }

  /** Nothing was sent or newly acknowledged. */
  predicate Idle(s: Sender, s': Sender) {
    s'.next == s.next && s'.ackno == s.ackno
  }

  lemma RouteSates(c: Connection, g: TCPSegment)
    requires c.Valid() && SI.Inv(c.sender)
    ensures Sated(c.Route(g).sender) || Idle(c.sender, c.Route(g).sender)
  {
    hide Sender.FillWindow, Sender.AckReceived, Connection.Route, SI.CoreInv, Sated;
    RouteCases(c, g);
    FillSates(c.sender);
    AckSates(c.sender, g.header.ackno, g.header.win);
    AckGrows(c.sender, g.header.ackno, g.header.win);
    SameSated(c.sender.AckReceived(g.header.ackno, g.header.win),
              c.sender.AckReceived(g.header.ackno, g.header.win).SendEmpty());
  }

  lemma AckGrows(s: Sender, number: u32, win: u16)
    requires SI.Inv(s)
    ensures var s' := s.AckReceived(number, win);
            s.ackno <= s'.ackno && s.next <= s'.next && (s'.ackno == s.ackno ==> s'.next == s.next)
  {
    SI.CoreValid(s);
    hide Sender.AckReceived, SI.CoreInv;
    SI.AckReceivedKeeps(s, number, win);
    SI.AckReceivedFrame(s, number, win);
  }

  lemma DeliverSates(c: Connection, g: TCPSegment)
    requires c.Valid() && SI.Inv(c.sender)
    ensures Sated(c.SegmentReceived(g).sender) || Idle(c.sender, c.SegmentReceived(g).sender)
  {
    hide Connection.Route, Connection.Finish, SI.CoreInv, Sated;
    var c0 := c.(lastReceived := c.now);
    RouteSates(c0, g);
    FinishFrame(c0.Route(g));
    SameSated(c0.Route(g).sender, c0.Route(g).Finish().sender);
  }

  lemma ConnectSates(c: Connection)
    requires c.Valid() && SI.Inv(c.sender)
    ensures Sated(c.Connect().sender) || Idle(c.sender, c.Connect().sender)
  {
    hide Sender.FillWindow, SI.CoreInv, Sated;
    FillSates(c.sender);
    SameSated(c.sender.FillWindow(), c.sender.FillWindow().(queue := []));
  }

  lemma TickIdles(c: Connection, ms: nat)
    requires c.Valid()
    ensures Idle(c.sender, c.Tick(ms).sender)
  {
    hide Connection.Finish;
    FinishFrame(c.(now := c.now + ms, sender := c.sender.Tick(ms)));
  }

  lemma ActSates(n: Net, op: Op)
    requires Inv(n) && Enabled(n, op)
    ensures var s' := Act(n.me, op).sender;
            Sated(s') || (Idle(n.me.sender, s') && !op.Write? && !op.EndInput?)
  {
    var c := n.me;
    assert c.Valid() && SI.Inv(c.sender);
    hide Inv, SI.CoreInv, Sender.FillWindow, Connection.Finish, Connection.Tick, Connection.Connect,
         Connection.SegmentReceived, Sated;
    match op
    case Connect =>
      ConnectSates(c);
    case Write(data) =>
      SI.WriteKeeps(c.sender, data);
      FillFinishSates(c, c.sender.(stream := c.sender.stream.Write(data)));
    case EndInput =>
      SI.EndInputKeeps(c.sender);
      FillFinishSates(c, c.sender.(stream := c.sender.stream.EndInput()));
    case Tick(ms) =>
      TickIdles(c, ms);
    case Read(len) =>
    case Deliver(g) =>
      DeliverSates(c, g);
  }

  /** In every run, whenever an endpoint has been written to, has had its stream ended, has taken a
      new acknowledgment or has sent anything new, its window is used up or nothing is left. */
  lemma Saturates(n: Net, evs: seq<Event>, op: Op)
    requires Fresh(n) && Valid(n) && Legal(n, evs) && Enabled(Run(n, evs), op)
    ensures var s, s' := Run(n, evs).me.sender, Act(Run(n, evs).me, op).sender;
            op.Write? || op.EndInput? || s'.ackno > s.ackno || s'.next > s.next ==>
              s'.next >= s'.ackno + Max(1, s'.window) || s'.next == 1 + |s'.stream.history| + One(s'.stream.ended)
  {
    hide Run, Inv, Act, Fresh, Legal, Enabled;
    RunKeeps(n, evs);
    var n0 := Run(n, evs);
    ActSates(n0, op);
    ActCounted(n0, op);
  }

  lemma ActCounted(n: Net, op: Op)
    requires Inv(n) && Enabled(n, op)
    ensures var s' := Act(n.me, op).sender;
            s'.next <= 1 + |s'.stream.history| + One(s'.stream.ended)
  {
    ActSound(n, op);
    hide SI.CoreInv, SI.Genuine, SI.NoStall, SI.Grows, Act, LingerInv, Follows, Enabled;
    CanSendIff(Act(n.me, op).sender);
  }

  lemma SatedIsOpen(s: Sender)
    requires Sated(s)
    ensures s.next > 0
  {
  }

  lemma RouteOpensIff(c: Connection, g: TCPSegment)
    requires c.Valid() && SI.Inv(c.sender) && c.sender.next == 0 && c.receiver.isn.None?
    ensures c.Route(g).sender.next > 0 <==> g.header.syn
  {
    hide Sender.FillWindow, SI.CoreInv, Receiver.SegmentReceived;
    SI.FillOpens(c.sender);
  }

  lemma ClosedOpensIff(n: Net, op: Op)
    requires Inv(n) && Enabled(n, op) && n.me.sender.next == 0
    ensures Act(n.me, op).sender.next > 0 <==>
              op.Connect? || op.Write? || op.EndInput? || (op.Deliver? && op.seg.header.syn)
  {
    var c := n.me;
    assert c.Valid() && SI.Inv(c.sender) && c.receiver.isn.None?;
    ActSates(n, op);
    hide Inv, SI.CoreInv, Sender.FillWindow, Connection.Route, Connection.Finish, Sender.Tick, Connection.Write,
         Connection.EndInput, Sated;
    match op
    case Connect =>
      SI.FillOpens(c.sender);
    case Write(data) =>
      SatedIsOpen(Act(c, op).sender);
    case EndInput =>
      SatedIsOpen(Act(c, op).sender);
    case Tick(ms) =>
      TickIdles(c, ms);
    case Read(len) =>
    case Deliver(g) =>
      RouteOpensIff(c.(lastReceived := c.now), g);
      FinishFrame(c.(lastReceived := c.now).Route(g));
  }

  /** In every run, an endpoint opens, that is, sends its SYN, exactly when it is told to connect, is
      written to, has its stream ended, or gets a SYN. */
  lemma OpensIff(n: Net, evs: seq<Event>, op: Op)
    requires Fresh(n) && Valid(n) && Legal(n, evs) && Enabled(Run(n, evs), op) && Run(n, evs).me.sender.next == 0
    ensures Act(Run(n, evs).me, op).sender.next > 0 <==>
              op.Connect? || op.Write? || op.EndInput? || (op.Deliver? && op.seg.header.syn)
  {
    hide Run, Inv, Act, Fresh, Legal, Enabled;
    RunKeeps(n, evs);
    ClosedOpensIff(Run(n, evs), op);
  }

  // ---- The applications ---------------------------------------------------------

  /** What the application writes is appended as far as the buffer has room, and nothing else
      changes what was written. */
  lemma Writes(c: Connection, op: Op)
    requires c.Valid()
    ensures var t, t' := c.sender.stream, Act(c, op).sender.stream;
            t'.history == t.history
                          + if op.Write? then op.data[..Min(|op.data|, t.capacity - (|t.history| - t.read))] else []
    ensures Act(c, op).sender.stream.ended == (c.sender.stream.ended || op.EndInput?)
    ensures Act(c, op).sender.stream.capacity == c.sender.stream.capacity
  {
    hide Sender.FillWindow, Connection.Route, Connection.Finish, Sender.Tick;
    match op
    case Connect =>
      SI.FillWindowFrame(c.sender);
    case Write(data) =>
      var s := c.sender.(stream := c.sender.stream.Write(data));
      SI.FillWindowFrame(s);
      FinishFrame(c.(sender := s.FillWindow()));
    case EndInput =>
      var s := c.sender.(stream := c.sender.stream.EndInput());
      SI.FillWindowFrame(s);
      FinishFrame(c.(sender := s.FillWindow()));
    case Tick(ms) =>
      SI.TickFrame(c.sender, ms);
      FinishFrame(c.(now := c.now + ms, sender := c.sender.Tick(ms)));
    case Read(len) =>
    case Deliver(g) =>
      RouteText(c.(lastReceived := c.now), g);
      FinishFrame(c.(lastReceived := c.now).Route(g));
  }

  /** What the application reads is taken from the inbound stream as far as there is anything, and
      nothing else takes from it. */
  lemma Reads(c: Connection, op: Op)
    requires c.Valid()
    ensures var t, t' := c.receiver.reassembler.output, Act(c, op).receiver.reassembler.output;
            && t'.read == t.read + (if op.Read? then Min(op.len, |t.history| - t.read) else 0)
            && t'.capacity == t.capacity
  {
    hide Sender.FillWindow, Connection.Route, Connection.Finish, Sender.Tick;
    match op
    case Connect =>
    case Write(data) =>
      FinishFrame(c.(sender := c.sender.(stream := c.sender.stream.Write(data)).FillWindow()));
    case EndInput =>
      FinishFrame(c.(sender := c.sender.(stream := c.sender.stream.EndInput()).FillWindow()));
    case Tick(ms) =>
      FinishFrame(c.(now := c.now + ms, sender := c.sender.Tick(ms)));
    case Read(len) =>
    case Deliver(g) =>
      RouteReader(c.(lastReceived := c.now), g);
      FinishFrame(c.(lastReceived := c.now).Route(g));
  }

  /** Assembling writes to the output and reads nothing from it. */
  lemma {:induction false} DrainReader(m: R.Reassembler)
    requires m.Valid()
    ensures m.Drain().output.read == m.output.read && m.Drain().output.capacity == m.output.capacity
    decreases |m.entries|
  {
    if m.entries != [] && m.entries[0].index <= m.assembled {
      DrainReader(m.DrainOne());
    }
  }

  lemma PushReader(m: R.Reassembler, data: seq<byte>, index: nat, last: bool)
    requires m.Valid()
    ensures m.Push(data, index, last).output.read == m.output.read
    ensures m.Push(data, index, last).output.capacity == m.output.capacity
  {
    hide R.Reassembler.Drain, R.InsertEntry;
    if index < m.Limit() {
      var m1 := m.(eof := m.eof || (last && index + |data| <= m.Limit()));
      DrainReader(m1.Store(m.Clip(data, index), index));
    }
  }

  lemma ReceiveReader(r: Receiver, g: TCPSegment)
    requires r.Valid()
    ensures var t, t' := r.reassembler.output, r.SegmentReceived(g).0.reassembler.output;
            t'.read == t.read && t'.capacity == t.capacity
  {
    hide R.Reassembler.Push, Receiver.InWindow;
    if r.isn.Some? {
      PushReader(r.reassembler, g.payload, r.Index(g), g.header.fin);
    }
    if g.header.syn {
      PushReader(r.reassembler, g.payload, r.(isn := Some(g.header.seqno)).Index(g), g.header.fin);
    }
  }

  lemma RouteReader(c: Connection, g: TCPSegment)
    requires c.Valid()
    ensures var t, t' := c.receiver.reassembler.output, c.Route(g).receiver.reassembler.output;
            t'.read == t.read && t'.capacity == t.capacity
  {
    hide Sender.FillWindow, Sender.AckReceived, Sender.AcceptsAck, Receiver.SegmentReceived;
    ReceiveReader(c.receiver, g);
  }

  lemma RouteText(c: Connection, g: TCPSegment)
    requires c.Valid()
    ensures var t, t' := c.sender.stream, c.Route(g).sender.stream;
            t'.history == t.history && t'.ended == t.ended && t'.capacity == t.capacity
  {
    hide Sender.FillWindow, Sender.AckReceived, Connection.Route;
    RouteCases(c, g);
    SI.FillWindowFrame(c.sender);
    SI.AckReceivedFrame(c.sender, g.header.ackno, g.header.win);
  }

  /** In every run of an endpoint, whatever it receives, the bytes that wait to be sent are at most
      as many as its sending capacity, and the bytes that wait to be read at most as many as its
      receiving capacity. */
  lemma {:induction false} BuffersBounded(timeout: u16, recv: nat, send: nat, isn: u32, ops: seq<Op>)
    ensures var c := L.Run(NewConnection(timeout, recv, send, isn), ops).c;
            var outbound, inbound := c.sender.stream, c.receiver.reassembler.output;
            && outbound.capacity == send && inbound.capacity == recv
            && 0 <= |outbound.history| - outbound.read <= send
            && 0 <= |inbound.history| - inbound.read <= recv
  {
    hide Act;
    if ops != [] {
      BuffersBounded(timeout, recv, send, isn, ops[..|ops| - 1]);
      var c := L.Run(NewConnection(timeout, recv, send, isn), ops[..|ops| - 1]).c;
      Writes(c, ops[|ops| - 1]);
      Reads(c, ops[|ops| - 1]);
    }
  }
}
