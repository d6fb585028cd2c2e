/** The end of a connection over whole runs of one endpoint: when it lingers, and when it is over.
    Nothing is assumed of the peer. */
module Lingering {
  import opened Bytes
  import opened Segments
  import opened Senders
  import opened Receivers
  import opened Connections
  import opened Network

  /** An endpoint, the milliseconds since a segment last arrived or since the start, and whether its
      inbound stream was ever over while its own was not. */
  datatype Watched = Watched(c: Connection, quiet: nat, passive: bool)

  /** The inbound stream is over, the own one is not sent in full. */
  predicate EndedFirst(c: Connection) {
    c.receiver.FinRecv() && !c.sender.stream.Eof()
  }

  function Advance(w: Watched, op: Op): (w': Watched)
    requires w.c.Valid()
    ensures w'.c.Valid()
  {
    var c' := Act(w.c, op);
    Watched(c',
            match op
            case Deliver(_) => 0
            case Tick(ms) => w.quiet + ms
            case _ => w.quiet,
            w.passive || EndedFirst(c'))
  }

  function Run(c: Connection, ops: seq<Op>): (w: Watched)
    requires c.Valid()
    ensures w.c.Valid()
  {
    if ops == [] then Watched(c, 0, false) else Advance(Run(c, ops[..|ops| - 1]), ops[|ops| - 1])
  }

  /** What the endpoint knows of its past is what happened. */
  ghost predicate Inv(w: Watched) {
    && w.c.Valid()
    && w.c.now - w.c.lastReceived == w.quiet
    && (w.c.linger <==> !w.passive)
    && (EndedFirst(w.c) ==> w.passive)
    && (w.c.receiver.isn.None? ==> !w.c.receiver.FinRecv())
  }

  // ---- One operation ------------------------------------------------------------

  /** Both streams are through. */
  predicate Done(c: Connection) { c.receiver.FinRecv() && c.sender.FinAcked() }

  /** c' comes from c by the test at the end of an operation. */
  ghost predicate Concluded(c: Connection, c': Connection) {
    && c'.linger == (c.linger && !EndedFirst(c'))
    && c'.clear == (c.clear || (Done(c') && (!c'.linger || c'.now - c'.lastReceived >= 10 * c.timeout)))
    && c'.timeout == c.timeout
  }

  lemma GiveUpQuietly(c: Connection)
    requires c.Valid()
    ensures var c' := c.GiveUp();
            && c'.linger == c.linger && c'.clear == c.clear && c'.timeout == c.timeout
            && c'.now == c.now && c'.lastReceived == c.lastReceived
            && c'.receiver.FinRecv() == c.receiver.FinRecv() && c'.receiver.isn == c.receiver.isn
            && c'.sender.stream.Eof() == c.sender.stream.Eof() && c'.sender.FinAcked() == c.sender.FinAcked()
  {
    hide Connection.Stamp;
  }

  lemma FinishConcludes(c: Connection)
    requires c.Valid()
    ensures Concluded(c, c.Finish())
    ensures c.Finish().now == c.now && c.Finish().lastReceived == c.lastReceived
    ensures c.Finish().receiver.isn == c.receiver.isn && c.Finish().receiver.FinRecv() == c.receiver.FinRecv()
  {
    hide Connection.GiveUp;
    GiveUpQuietly(c.CollectOutput());
  }

  /** A receiver that has heard no SYN has received no end. */
  lemma UnheardUnended(r: Receiver, g: TCPSegment)
    requires r.Valid() && (r.isn.None? ==> !r.FinRecv())
    ensures var r' := r.SegmentReceived(g).0;
            r'.isn.None? ==> !r'.FinRecv()
  {
  }

  lemma RouteUnended(c: Connection, g: TCPSegment)
    requires c.Valid() && (c.receiver.isn.None? ==> !c.receiver.FinRecv())
    ensures var r := c.Route(g).receiver;
            r.isn.None? ==> !r.FinRecv()
  {
    hide Sender.FillWindow, Sender.AckReceived, Sender.AcceptsAck, Receiver.SegmentReceived;
    UnheardUnended(c.receiver, g);
  }

  /** Every operation but connecting and reading ends with the test. */
  lemma ActConcludes(c: Connection, op: Op)
    requires c.Valid() && (c.receiver.isn.None? ==> !c.receiver.FinRecv())
    ensures var c' := Act(c, op);
            && (!op.Connect? && !op.Read? ==> Concluded(c, c'))
            && (op.Connect? || op.Read? ==> c'.linger == c.linger && c'.clear == c.clear && c'.timeout == c.timeout)
            && c'.now == c.now + (if op.Tick? then op.ms else 0)
            && c'.lastReceived == (if op.Deliver? then c.now else c.lastReceived)
            && (c'.receiver.isn.None? ==> !c'.receiver.FinRecv())
  {
    hide Sender.FillWindow, Connection.Route, Connection.Finish, Sender.Tick, Concluded;
    match op
    case Connect =>
    case Write(data) =>
      FinishFrom(c, c.(sender := c.sender.(stream := c.sender.stream.Write(data)).FillWindow()));
    case EndInput =>
      FinishFrom(c, c.(sender := c.sender.(stream := c.sender.stream.EndInput()).FillWindow()));
    case Tick(ms) =>
      FinishFrom(c, c.(now := c.now + ms, sender := c.sender.Tick(ms)));
    case Read(len) =>
    case Deliver(g) =>
      var c0 := c.(lastReceived := c.now);
      RouteFlags(c0, g);
      RouteUnended(c0, g);
      FinishFrom(c, c0.Route(g));
  }

  lemma FinishFrom(c: Connection, c1: Connection)
    requires c1.Valid() && c1.linger == c.linger && c1.clear == c.clear && c1.timeout == c.timeout
    ensures Concluded(c, c1.Finish())
    ensures c1.Finish().now == c1.now && c1.Finish().lastReceived == c1.lastReceived
    ensures c1.Finish().receiver.isn == c1.receiver.isn && c1.Finish().receiver.FinRecv() == c1.receiver.FinRecv()
  {
    hide Connection.Finish;
    FinishConcludes(c1);
  }

  /** Connecting and reading end no stream. */
  lemma QuietOps(c: Connection, op: Op)
    requires c.Valid() && (c.receiver.isn.None? ==> !c.receiver.FinRecv()) && (op.Connect? || op.Read?)
    ensures EndedFirst(Act(c, op)) ==> EndedFirst(c)
  {
    hide Sender.FillWindow;
  }

  lemma AdvanceKeeps(w: Watched, op: Op)
    requires Inv(w)
    ensures Inv(Advance(w, op))
  {
    hide Act;
    ActConcludes(w.c, op);
    if op.Connect? || op.Read? {
      QuietOps(w.c, op);
    }
  }

  // ---- Runs ---------------------------------------------------------------------

  lemma {:induction false} RunKeeps(timeout: u16, recv: nat, send: nat, isn: u32, ops: seq<Op>)
    ensures var w := Run(NewConnection(timeout, recv, send, isn), ops);
            Inv(w) && w.c.timeout == timeout
  {
    hide Act;
    if ops != [] {
      RunKeeps(timeout, recv, send, isn, ops[..|ops| - 1]);
      var w, op := Run(NewConnection(timeout, recv, send, isn), ops[..|ops| - 1]), ops[|ops| - 1];
      AdvanceKeeps(w, op);
      ActConcludes(w.c, op);
    }
  }

  /** In every run, whatever arrives: an endpoint lingers unless its inbound stream was ever over
      before its own was sent in full. An operation other than connecting and reading makes it shut
      down cleanly exactly if both streams are through and it does not linger or ten timeouts have
      passed since a segment last arrived. So an arriving segment makes a lingering endpoint wait
      anew. */
  lemma ClosesOnTime(timeout: u16, recv: nat, send: nat, isn: u32, ops: seq<Op>, op: Op)
    ensures var w, w' := Run(NewConnection(timeout, recv, send, isn), ops),
                         Run(NewConnection(timeout, recv, send, isn), ops + [op]);
            && (w'.c.linger <==> !w'.passive)
            && (w'.c.clear <==>
                  || w.c.clear
                  || (!op.Connect? && !op.Read? && w'.c.receiver.FinRecv() && w'.c.sender.FinAcked()
                      && (w'.passive || w'.quiet >= 10 * timeout)))
            && (op.Deliver? && timeout > 0 && !w'.passive && !w.c.clear ==> !w'.c.clear)
  {
    hide Act;
    assert (ops + [op])[..|ops|] == ops;
    RunKeeps(timeout, recv, send, isn, ops);
    var w := Run(NewConnection(timeout, recv, send, isn), ops);
    AdvanceKeeps(w, op);
    ActConcludes(w.c, op);
  }
}
