/** The TCP sender object and its retransmission timer. */
module TcpSenders {
  import opened Bytes
  import opened ByteStreams
  import opened Segments
  import opened Senders
  import opened WrappingIntegers

  class RetransmissionTimer {
    var remainingTime: u32
    var isExpired: bool
    var isStopped: bool

    function View(): Timer
      reads this
    {
      Timer(remainingTime, isExpired, isStopped)
    }

    constructor (initialTime: u32, setExpired: bool, setStopped: bool)
      ensures View() == Timer(initialTime, setExpired, setStopped)
    {
      remainingTime, isExpired, isStopped := initialTime, setExpired, setStopped;
    }

    method TimeExpired(timeToExpire: u32)
      modifies this
      ensures View() == old(View()).Elapse(timeToExpire)
    {
      if isStopped { return; }
      if timeToExpire >= remainingTime {
        isExpired := true;
      } else {
        remainingTime := remainingTime - timeToExpire;
      }
    }

    method SetNewTimer(initialTime: u32)
      modifies this
      ensures View() == old(View()).Start(initialTime)
    {
      remainingTime := initialTime;
      isExpired := false;
      isStopped := false;
    }

    method Stop()
      modifies this
      ensures View() == old(View()).Stop()
    {
      isStopped := true;
      isExpired := false;
      remainingTime := 0;
    }
  }

  lemma FillLoopStep(s: Sender, room: nat)
    requires s.Valid() && room > 0 && s.CanSend()
    ensures 0 < s.NextFlight(room).seg.LengthInSequenceSpace() <= room
    ensures s.FillLoop(room) == s.Emit(room).FillLoop(room - s.NextFlight(room).seg.LengthInSequenceSpace())
  {
    s.EmitUsesRoom(room);
  }

  lemma FillLoopStop(s: Sender, room: nat)
    requires s.Valid() && !(room > 0 && s.CanSend())
    ensures s.FillLoop(room) == s
  {
  }

  lemma TakeNothing(s: Stream)
    requires s.Valid()
    ensures s.Peek(0) == [] && s.Pop(0) == s
  {
  }

  class TCPSender {
    const initialIsn: u32
    const initialRetransmissionTimeout: u16
    const stream: ByteStream
    const timer: RetransmissionTimer
    var segmentsOut: seq<TCPSegment>
    var nextSeqno: nat
    var bytesInFlight: int
    var consecutiveRetransmissions: u32
    var ackno: nat
    var rto: u32
    var outstanding: seq<Flight>
    var windowSize: u16
    var syn: bool
    var fin: bool

    ghost predicate Valid()
      reads this, stream, timer
    {
      stream.Valid()
    }

    ghost function View(): (s: Sender)
      reads this, stream, timer
      requires Valid()
      ensures s.Valid()
    {
      Sender(initialIsn, initialRetransmissionTimeout, stream.View(), nextSeqno, bytesInFlight,
             consecutiveRetransmissions, ackno, rto, outstanding, timer.View(), windowSize, syn, fin, segmentsOut)
    }

    constructor (capacity: nat, retxTimeout: u16, isn: u32)
      ensures Valid() && fresh(stream) && fresh(timer)
      ensures View() == NewSender(capacity, retxTimeout, isn)
    {
      initialIsn := isn;
      initialRetransmissionTimeout := retxTimeout;
      stream := new ByteStream(capacity);
      timer := new RetransmissionTimer(0, false, true);
      segmentsOut := [];
      nextSeqno, bytesInFlight, consecutiveRetransmissions, ackno := 0, 0, 0, 0;
      rto := retxTimeout;
      outstanding := [];
      windowSize := 1;
      syn, fin := false, false;
    }

    predicate Closed()
      reads this
    {
      nextSeqno == 0
    }

    predicate SynSent()
      reads this
    {
      nextSeqno > 0 && nextSeqno == bytesInFlight
    }

    predicate SynAcked()
      reads this, stream
    {
      nextSeqno > bytesInFlight && !stream.Eof()
    }

    predicate FinToSend()
      reads this, stream
    {
      nextSeqno < stream.byteWritten + 2 && stream.Eof()
    }

    predicate FinAcked()
      reads this, stream
    {
      stream.Eof() && nextSeqno == stream.byteWritten + 2 && bytesInFlight == 0
    }

    /** Drop the segments in flight that are acknowledged in full. */
    method PopOutstandingSegment()
      requires Valid()
      modifies `outstanding, `bytesInFlight
      ensures Valid() && View() == old(View()).PopAcked()
    {
      while outstanding != []
        invariant Valid() && View().PopAcked() == old(View()).PopAcked()
        decreases |outstanding|
      {
        if outstanding[0].first + outstanding[0].seg.LengthInSequenceSpace() <= ackno {
          bytesInFlight := bytesInFlight - outstanding[0].seg.LengthInSequenceSpace();
          outstanding := outstanding[1..];
        } else {
          break;
        }
      }
    }

    /** Build the next segment: SYN, payload and FIN as far as the room in the window goes. */
    method BuildSegment(room: nat) returns (first: nat, seg: TCPSegment, used: nat)
      requires Valid() && room > 0
      modifies `syn, `fin, stream
      ensures Valid() && Flight(first, seg) == old(View()).NextFlight(room)
      ensures used == seg.LengthInSequenceSpace()
      ensures View() == old(View()).(syn := old(syn) || old(Closed()), fin := old(fin) || old(View()).Finishes(room),
                                     stream := old(stream.View()).Pop(old(View()).ChunkSize(room)))
    {
      hide Wrap, Concat, Stream.Peek, Stream.Pop;
      ghost var s := View();
      TakeNothing(s.stream);
      used := 0;
      first := One(syn) + stream.byteRead;
      var header := DEFAULT_HEADER;
      var payload: seq<byte> := [];
      if used + 1 <= room && Closed() {
        syn := true;
        header := header.(syn := true);
        used := used + 1;
      }
      header := header.(seqno := Wrap(first, initialIsn));
      if room > used {
        payload := stream.Read(Min(room - used, MAX_PAYLOAD_SIZE));
        used := used + |payload|;
      }
      assert stream.View() == s.stream.Pop(s.ChunkSize(room)) && payload == s.stream.Peek(s.ChunkSize(room));
      assert FinToSend() <==> s.(syn := syn, stream := stream.View()).FinToSend();
      if used + 1 <= room && FinToSend() {
        header := header.(fin := true);
        fin := true;
        used := used + 1;
      }
      seg := TCPSegment(header, payload);
    }

    /** Queue a new segment and keep track of it. */
    method SendSegment(first: nat, seg: TCPSegment)
      requires Valid()
      modifies this, timer
      ensures Valid()
      ensures View() == old(View()).(
                queue := old(segmentsOut) + [seg],
                outstanding := InsertFlight(old(outstanding), Flight(first, seg)),
                inFlight := old(bytesInFlight) + seg.LengthInSequenceSpace(),
                next := first + seg.LengthInSequenceSpace(),
                timer := if old(timer.isStopped) then old(timer.View()).Start(old(rto)) else old(timer.View()))
    {
      segmentsOut := segmentsOut + [seg];
      outstanding := InsertFlight(outstanding, Flight(first, seg));
      bytesInFlight := bytesInFlight + seg.LengthInSequenceSpace();
      nextSeqno := first + seg.LengthInSequenceSpace();
      if timer.isStopped {
        timer.SetNewTimer(rto);
      }
    }

    /** One round of fill_window: build a segment and send it. */
    method SendNext(room: nat) returns (used: nat)
      requires Valid() && room > 0
      modifies this, stream, timer
      ensures Valid() && View() == old(View()).Emit(room)
      ensures used == old(View()).NextFlight(room).seg.LengthInSequenceSpace()
    {
      hide Sender.NextFlight, Sender.Finishes, Sender.ChunkSize, InsertFlight, Concat, TCPSegment.LengthInSequenceSpace;
      var first, seg;
      first, seg, used := BuildSegment(room);
      SendSegment(first, seg);
    }

    /** Send as much as the window admits. */
    method FillWindow()
      requires Valid()
      modifies this, stream, timer
      ensures Valid() && View() == old(View()).FillWindow()
    {
      hide Sender.FillLoop, Sender.Emit, Sender.NextFlight, Concat, TCPSegment.LengthInSequenceSpace;
      var room: nat := windowSize;
      if room == 0 { room := 1; }
      if ackno + room <= nextSeqno { return; }
      room := ackno + room - nextSeqno;
      while room > 0 && (Closed() || ((SynSent() || SynAcked()) && !stream.BufferEmpty()) || FinToSend())
        invariant Valid() && View().FillLoop(room) == old(View()).FillWindow()
        decreases room
      {
        FillLoopStep(View(), room);
        var used := SendNext(room);
        room := room - used;
      }
      FillLoopStop(View(), room);
    }

    /** A new acknowledgment was received; the result says whether it was plausible. */
    method AckReceived(number: u32, window: u16) returns (ok: bool)
      requires Valid()
      modifies this, stream, timer
      ensures Valid() && View() == old(View()).AckReceived(number, window)
      ensures ok == old(View()).AcceptsAck(number)
    {
      hide Sender.FillWindow, Sender.PopAcked, Unwrap, Concat;
      var newAckno := Unwrap(number, initialIsn, ackno);
      if newAckno > nextSeqno { return false; }
      windowSize := window;
      if newAckno <= ackno { return true; }
      rto := initialRetransmissionTimeout;
      consecutiveRetransmissions := 0;
      ackno := newAckno;
      PopOutstandingSegment();
      FillWindow();
      if outstanding != [] {
        timer.SetNewTimer(rto);
      } else {
        timer.Stop();
      }
      return true;
    }

    /** The timer has expired: back off and resend the oldest segment. */
    method Retransmit()
      requires Valid() && outstanding != []
      modifies this, timer
      ensures Valid() && View() == old(View()).Expire()
    {
      if windowSize > 0 {
        consecutiveRetransmissions := (consecutiveRetransmissions + 1) % TWO_32;
        rto := rto * 2 % TWO_32;
      }
      if consecutiveRetransmissions <= MAX_RETX_ATTEMPTS {
        segmentsOut := segmentsOut + [outstanding[0].seg];
      }
      timer.SetNewTimer(rto);
    }

    /** Time has passed. */
    method Tick(ms: nat)
      requires Valid()
      modifies this, timer
      ensures Valid() && View() == old(View()).Tick(ms)
    {
      hide Sender.Expire;
      timer.TimeExpired(ms % TWO_32);
      if timer.isExpired && !timer.isStopped && outstanding != [] {
        Retransmit();
      }
    }

    method SendEmptySegment()
      requires Valid()
      modifies `segmentsOut
      ensures Valid() && View() == old(View()).SendEmpty()
    {
      segmentsOut := segmentsOut + [TCPSegment(DEFAULT_HEADER.(seqno := Wrap(nextSeqno, initialIsn)), [])];
    }
  }
}
