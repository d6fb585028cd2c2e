/** The TCP connection object: a sender and a receiver, and the flags and clocks around them. */
module TcpConnections {
  import opened Bytes
  import opened ByteStreams
  import opened Segments
  import opened Senders
  import opened Receivers
  import opened Connections
  import opened StreamReassemblers
  import opened TcpReceivers
  import opened TcpSenders
  import R = Reassembly

  class TCPConnection {
    const rtTimeout: u16
    const receiver: TCPReceiver
    const sender: TCPSender
    var isUnclearShutdown: bool
    var isClearShutdown: bool
    var nowTime: nat
    var timeWhenLastSegmentReceived: nat
    var segmentsOut: seq<TCPSegment>
    var lingerAfterStreamsFinish: bool

    ghost function Repr(): set<object> {
      {this, receiver, receiver.reassembler, receiver.reassembler.output, sender, sender.stream, sender.timer}
    }

    ghost predicate Valid()
      reads Repr()
    {
      receiver.Valid() && sender.Valid() && sender.stream != receiver.reassembler.output
    }

    ghost function View(): (c: Connection)
      reads Repr()
      requires Valid()
      ensures c.Valid()
    {
      Connection(rtTimeout, receiver.View(), sender.View(), isUnclearShutdown, isClearShutdown,
                 nowTime, timeWhenLastSegmentReceived, segmentsOut, lingerAfterStreamsFinish)
    }

    constructor (rtTimeout: u16, recvCapacity: nat, sendCapacity: nat, isn: u32)
      ensures Valid() && fresh(Repr() - {this})
      ensures View() == NewConnection(rtTimeout, recvCapacity, sendCapacity, isn)
    {
      hide StreamReassembler.Valid, Concat;
      this.rtTimeout := rtTimeout;
      receiver := new TCPReceiver(recvCapacity);
      sender := new TCPSender(sendCapacity, rtTimeout, isn);
      isUnclearShutdown, isClearShutdown := false, false;
      nowTime, timeWhenLastSegmentReceived := 0, 0;
      segmentsOut := [];
      lingerAfterStreamsFinish := true;
    }

    predicate Listen()
      reads Repr()
      requires Valid()
    {
      receiver.Ackno().None? && sender.Closed()
    }

    predicate TimeWait()
      reads Repr()
    {
      receiver.reassembler.output.end && sender.FinAcked()
    }

    /** Fill in what the receiver contributes to an outgoing segment. */
    method SetSegment(seg: TCPSegment) returns (out: TCPSegment)
      requires Valid()
      ensures out == View().Stamp(seg)
    {
      out := seg;
      if isUnclearShutdown {
        out := out.(header := out.header.(rst := true));
      } else if !receiver.Ackno().None? {
        out := out.(header := out.header.(ack := true, ackno := receiver.Ackno().value));
        if receiver.WindowSize() >= 0xffff {
          out := out.(header := out.header.(win := 0xffff));
        } else {
          out := out.(header := out.header.(win := receiver.WindowSize()));
        }
      }
    }

    /** Move everything the sender has queued to the outbound queue. */
    method CollectOutput()
      requires Valid()
      modifies `segmentsOut, sender`segmentsOut
      ensures Valid() && View() == old(View()).CollectOutput()
    {
      while sender.segmentsOut != []
        invariant Valid() && View().CollectOutput() == old(View()).CollectOutput()
        decreases |sender.segmentsOut|
      {
        var seg := SetSegment(sender.segmentsOut[0]);
        CollectStep(View());
        segmentsOut := segmentsOut + [seg];
        sender.segmentsOut := sender.segmentsOut[1..];
      }
    }

    method UnclearShutdown()
      requires Valid()
      modifies Repr()
      ensures Valid() && View() == old(View()).UnclearShutdown()
    {
      ErrorKeeps(receiver.reassembler.Shape());
      sender.stream.SetError();
      receiver.reassembler.output.SetError();
      isUnclearShutdown := true;
    }

    method SendEmptySegment()
      requires Valid()
      modifies Repr()
      ensures Valid() && View() == old(View()).SendEmpty()
    {
      hide StreamReassembler.Valid, Concat, Connection.CollectOutput;
      sender.SendEmptySegment();
      CollectOutput();
    }

    /** Give up after too many retransmissions, stop lingering on a passive close, and notice when
        both streams are done. */
    method TestEnd()
      requires Valid()
      modifies Repr()
      ensures Valid() && View() == old(View()).TestEnd()
    {
      hide StreamReassembler.Valid, Concat, Connection.CollectOutput, Connection.SendEmpty;
      if sender.consecutiveRetransmissions > MAX_RETX_ATTEMPTS {
        UnclearShutdown();
        SendEmptySegment();
      }
      if !sender.stream.Eof() && receiver.reassembler.output.end {
        lingerAfterStreamsFinish := false;
      }
      if TimeWait() {
        isClearShutdown := isClearShutdown
                           || (!lingerAfterStreamsFinish
                               || nowTime - timeWhenLastSegmentReceived >= 10 * rtTimeout);
      }
    }

    method Finish()
      requires Valid()
      modifies Repr()
      ensures Valid() && View() == old(View()).Finish()
    {
      hide StreamReassembler.Valid, Concat, Connection.CollectOutput, Connection.TestEnd;
      CollectOutput();
      TestEnd();
    }

    /** Write to the outbound stream, and send it if possible. */
    method Write(data: seq<byte>) returns (accepted: nat)
      requires Valid()
      modifies Repr()
      ensures Valid() && View() == old(View()).Write(data)
      ensures accepted == |old(sender.stream.View()).Accepts(data)|
    {
      hide StreamReassembler.Valid, Concat, Connection.Finish, Sender.FillWindow;
      accepted := sender.stream.Write(data);
      sender.FillWindow();
      Finish();
    }

    method Tick(ms: nat)
      requires Valid()
      modifies Repr()
      ensures Valid() && View() == old(View()).Tick(ms)
    {
      hide StreamReassembler.Valid, Concat, Connection.Finish, Sender.Tick;
      nowTime := nowTime + ms;
      sender.Tick(ms);
      Finish();
    }

    method EndInputStream()
      requires Valid()
      modifies Repr()
      ensures Valid() && View() == old(View()).EndInput()
    {
      hide StreamReassembler.Valid, Concat, Connection.Finish, Sender.FillWindow;
      sender.stream.EndInput();
      sender.FillWindow();
      Finish();
    }

    method Connect()
      requires Valid()
      modifies Repr()
      ensures Valid() && View() == old(View()).Connect()
    {
      hide StreamReassembler.Valid, Concat, Connection.CollectOutput, Sender.FillWindow;
      if Listen() {
        sender.FillWindow();
        CollectOutput();
      }
    }

    /** The 64-bit stream counters of the receiver do not wrap around. */
    predicate CountersFit(seg: TCPSegment)
      reads Repr()
    {
      receiver.reassembler.capacity + receiver.reassembler.output.byteRead + |seg.payload| < TWO_64
    }

    /** The sender's part in an incoming segment: take the acknowledgment, and answer if needed. */
    method ProcessAck(seg: TCPSegment, refused: bool)
      requires Valid()
      modifies sender, sender.stream, sender.timer
      ensures Valid()
      ensures var s := old(sender.View());
              var s1 := if seg.header.ack then s.AckReceived(seg.header.ackno, seg.header.win) else s;
              var reply := refused || (seg.header.ack && !s.AcceptsAck(seg.header.ackno))
                           || seg.LengthInSequenceSpace() > 0;
              sender.View() == if reply && s1.queue == [] then s1.SendEmpty() else s1
    {
      hide StreamReassembler.Valid, Concat, Sender.AckReceived, Sender.AcceptsAck;
      var shouldSendEmpty := refused;
      if seg.header.ack {
        var plausible := sender.AckReceived(seg.header.ackno, seg.header.win);
        shouldSendEmpty := shouldSendEmpty || !plausible;
      }
      shouldSendEmpty := shouldSendEmpty || seg.LengthInSequenceSpace() > 0;
      if shouldSendEmpty && sender.segmentsOut == [] {
        sender.SendEmptySegment();
      }
    }

    /** A segment that is neither the first SYN nor a reset. */
    method RouteOther(seg: TCPSegment)
      requires Valid() && CountersFit(seg) && !Listen() && !seg.header.rst
      modifies Repr()
      ensures Valid() && View() == old(View()).Route(seg)
    {
      hide StreamReassembler.Valid, Concat, Sender.FillWindow, Sender.AckReceived, Sender.AcceptsAck, Sender.SendEmpty,
           Receiver.SegmentReceived;
      var ok := receiver.SegmentReceived(seg);
      if receiver.Ackno().None? && sender.SynSent() && !ok { return; }
      ProcessAck(seg, !ok);
    }

    method SegmentReceiveRoute(seg: TCPSegment)
      requires Valid() && CountersFit(seg)
      modifies Repr()
      ensures Valid() && View() == old(View()).Route(seg)
    {
      hide StreamReassembler.Valid, Concat, Sender.FillWindow, Sender.AckReceived, Sender.AcceptsAck, Sender.SendEmpty,
           Receiver.SegmentReceived;
      if Listen() {
        if !seg.header.syn { return; }
        var ok := receiver.SegmentReceived(seg);
        sender.FillWindow();
      } else if seg.header.rst {
        UnclearShutdown();
      } else {
        RouteOther(seg);
      }
    }

    /** A segment has arrived from the network. */
    method SegmentReceived(seg: TCPSegment)
      requires Valid() && CountersFit(seg)
      modifies Repr()
      ensures Valid() && View() == old(View()).SegmentReceived(seg)
    {
      hide StreamReassembler.Valid, Concat, Connection.Route, Connection.Finish;
      timeWhenLastSegmentReceived := nowTime;
      SegmentReceiveRoute(seg);
      Finish();
    }

    /** The application reads from the inbound stream. */
    method ReadInbound(len: nat) returns (ret: seq<byte>)
      requires Valid()
      modifies receiver.reassembler.output
      ensures Valid() && View() == old(View()).Read(len)
      ensures ret == old(receiver.reassembler.output.View()).Peek(len)
    {
      hide StreamReassembler.Valid, Concat;
      ret := receiver.reassembler.ReadOutput(len);
    }
  }

  lemma ErrorKeeps(m: R.Reassembler)
    requires R.Inv(m)
    ensures R.Inv(m.(output := m.output.SetError()))
  {
  }

  /** Stamping depends on the receiver and the reset flag alone. */
  lemma StampFrame(c: Connection, c': Connection, seg: TCPSegment)
    requires c.Valid() && c'.Valid() && c'.receiver == c.receiver && c'.unclear == c.unclear
    ensures c'.Stamp(seg) == c.Stamp(seg)
  {
  }

  lemma {:induction false} StampAllFrame(c: Connection, c': Connection, segs: seq<TCPSegment>)
    requires c.Valid() && c'.Valid() && c'.receiver == c.receiver && c'.unclear == c.unclear
    ensures c'.StampAll(segs) == c.StampAll(segs)
  {
    hide Connection.Stamp;
    if segs != [] {
      StampFrame(c, c', segs[0]);
      StampAllFrame(c, c', segs[1..]);
    }
  }

  lemma AppendStep<T>(a: seq<T>, x: T, b: seq<T>)
    ensures (a + [x]) + b == a + ([x] + b)
  {
  }

  /** Collecting one segment and then the rest is collecting them all. */
  lemma CollectStep(c: Connection)
    requires c.Valid() && c.sender.queue != []
    ensures c.(out := c.out + [c.Stamp(c.sender.queue[0])],
               sender := c.sender.(queue := c.sender.queue[1..])).CollectOutput() == c.CollectOutput()
  {
    hide Connection.Stamp;
    var x, rest := c.Stamp(c.sender.queue[0]), c.sender.queue[1..];
    var c' := c.(out := c.out + [x], sender := c.sender.(queue := rest));
    StampAllFrame(c, c', rest);
    AppendStep(c.out, x, c.StampAll(rest));
  }
}
