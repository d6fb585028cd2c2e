/** A complete endpoint of a TCP connection, as a value. */
module Connections {
  import opened Bytes
  import opened Segments
  import opened Senders
  import opened Receivers

  datatype Connection = Connection(
    timeout: u16, receiver: Receiver, sender: Sender,
    unclear: bool, clear: bool, now: nat, lastReceived: nat,
    out: seq<TCPSegment>, linger: bool)
  {
    predicate Valid() { receiver.Valid() && sender.Valid() }

    predicate Active() { !(unclear || clear) }

    // The states that steer the connection.
    predicate Listen() { receiver.Listen() && sender.Closed() }
    predicate SynSent() { receiver.Listen() && sender.SynSent() }
    predicate TimeWait() { receiver.FinRecv() && sender.FinAcked() }

    function Silence(): int { now - lastReceived }

    /** Fill in what the receiver contributes to an outgoing segment. */
    function Stamp(seg: TCPSegment): TCPSegment
      requires Valid()
    {
      if unclear then seg.(header := seg.header.(rst := true))
      else match receiver.AckNumber()
        case None => seg
        case Some(number) =>
          seg.(header := seg.header.(ack := true, ackno := number, win := receiver.Advertised()))
    }

    /** Move every segment queued by the sender to the network. */
    function CollectOutput(): (c: Connection)
      requires Valid()
      ensures c.Valid() && c.receiver == receiver && c.sender == sender.(queue := [])
    {
      this.(out := out + StampAll(sender.queue), sender := sender.(queue := []))
    }

    function StampAll(segs: seq<TCPSegment>): (r: seq<TCPSegment>)
      requires Valid()
      ensures |r| == |segs| && forall k :: 0 <= k < |r| ==> r[k] == Stamp(segs[k])
    {
      if segs == [] then [] else [Stamp(segs[0])] + StampAll(segs[1..])
    }

    function UnclearShutdown(): (c: Connection)
      requires Valid()
      ensures c.Valid()
    {
      this.(sender := sender.(stream := sender.stream.SetError()),
            receiver := receiver.(reassembler :=
              receiver.reassembler.(output := receiver.reassembler.output.SetError())),
            unclear := true)
    }

    function SendEmpty(): (c: Connection)
      requires Valid()
      ensures c.Valid()
    {
      this.(sender := sender.SendEmpty()).CollectOutput()
    }

    /** Give up after too many retransmissions. */
    function GiveUp(): (c: Connection)
      requires Valid()
      ensures c.Valid()
    {
      if sender.consecutive > MAX_RETX_ATTEMPTS then UnclearShutdown().SendEmpty() else this
    }

    /** Decide whether lingering is needed, and whether the connection is over. */
    function Conclude(): (c: Connection)
      requires Valid()
      ensures c.Valid()
    {
      var lingers := linger && !(!sender.stream.Eof() && receiver.FinRecv());
      this.(linger := lingers,
            clear := clear || (TimeWait() && (!lingers || Silence() >= 10 * timeout)))
    }

    function TestEnd(): (c: Connection)
      requires Valid()
      ensures c.Valid()
    {
      GiveUp().Conclude()
    }

    /** What every operation but connect ends with. */
    function Finish(): (c: Connection)
      requires Valid()
      ensures c.Valid()
    {
      CollectOutput().TestEnd()
    }

    function Route(seg: TCPSegment): (c: Connection)
      requires Valid()
      ensures c.Valid()
    {
      if Listen() then
        if !seg.header.syn then this
        else this.(receiver := receiver.SegmentReceived(seg).0, sender := sender.FillWindow())
      else if seg.header.rst then
        UnclearShutdown()
      else
        var (r, ok) := receiver.SegmentReceived(seg);
        var c := this.(receiver := r);
        if c.SynSent() && !ok then c
        else
          var s := if seg.header.ack then sender.AckReceived(seg.header.ackno, seg.header.win) else sender;
          var reply := !ok || (seg.header.ack && !sender.AcceptsAck(seg.header.ackno))
                       || seg.LengthInSequenceSpace() > 0;
          c.(sender := if reply && s.queue == [] then s.SendEmpty() else s)
    }

    function SegmentReceived(seg: TCPSegment): (c: Connection)
      requires Valid()
      ensures c.Valid()
    {
      this.(lastReceived := now).Route(seg).Finish()
    }

    function Write(data: seq<byte>): (c: Connection)
      requires Valid()
      ensures c.Valid()
    {
      this.(sender := sender.(stream := sender.stream.Write(data)).FillWindow()).Finish()
    }

    function Tick(ms: nat): (c: Connection)
      requires Valid()
      ensures c.Valid()
    {
      this.(now := now + ms, sender := sender.Tick(ms)).Finish()
    }

    function EndInput(): (c: Connection)
      requires Valid()
      ensures c.Valid()
    {
      this.(sender := sender.(stream := sender.stream.EndInput()).FillWindow()).Finish()
    }

    function Connect(): (c: Connection)
      requires Valid()
      ensures c.Valid()
    {
      if Listen() then this.(sender := sender.FillWindow()).CollectOutput() else this
    }

    /** The application reads from the inbound stream. */
    function Read(len: nat): (c: Connection)
      requires Valid()
      ensures c.Valid()
    {
      this.(receiver := receiver.Read(len))
    }
  }

  /** What an incoming segment can do to the sender: nothing; open or fill the window; mark an
      error; take the acknowledgment and perhaps queue an empty segment. */
  lemma RouteCases(c: Connection, g: TCPSegment)
    requires c.Valid()
    ensures var s, s' := c.sender, c.Route(g).sender;
            var s1 := if g.header.ack then s.AckReceived(g.header.ackno, g.header.win) else s;
            || s' == s || s' == s.FillWindow() || s' == s.(stream := s.stream.SetError())
            || s' == s1 || s' == s1.SendEmpty()
    ensures c.Route(g).unclear ==> c.unclear || g.header.rst
  {
    hide Sender.FillWindow, Sender.AckReceived, Sender.AcceptsAck, Sender.SendEmpty, Receiver.SegmentReceived;
  }

  /** The last phase of an operation empties the queue, may mark the streams as failed, and resets
      the connection after too many retransmissions; everything else it leaves to the flags. */
  lemma FinishFrame(c: Connection)
    requires c.Valid()
    ensures var c' := c.Finish();
            && c'.sender == c.sender.(queue := [], stream := c.sender.stream.(error := c'.sender.stream.error))
            && c'.receiver == c.receiver.(reassembler := c.receiver.reassembler.(output :=
                                c.receiver.reassembler.output.(error := c'.receiver.reassembler.output.error)))
            && c'.now == c.now && c'.lastReceived == c.lastReceived && c'.timeout == c.timeout
            && c'.unclear == (c.unclear || c.sender.consecutive > MAX_RETX_ATTEMPTS)
            && (!c'.unclear ==> c'.receiver == c.receiver)
  {
    hide Connection.Stamp;
  }

  function NewConnection(timeout: u16, recvCapacity: nat, sendCapacity: nat, isn: u32): (c: Connection)
    ensures c.Valid()
  {
    Connection(timeout, NewReceiver(recvCapacity), NewSender(sendCapacity, timeout, isn),
               false, false, 0, 0, [], true)
  }
}
