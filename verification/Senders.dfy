/** The TCP sender and its retransmission timer, as values. */
module Senders {
  import opened Bytes
  import opened ByteStreams
  import opened Segments
  import opened WrappingIntegers

  datatype Timer = Timer(remaining: u32, expired: bool, stopped: bool) {
    function Elapse(time: u32): Timer {
      if stopped then this
      else if time >= remaining then this.(expired := true)
      else this.(remaining := remaining - time)
    }

    predicate IsExpired() { expired && !stopped }

    function Start(time: u32): Timer { Timer(time, false, false) }

    function Stop(): Timer { Timer(0, false, true) }
  }

  /** A segment in flight and the absolute sequence number of its first position. */
  datatype Flight = Flight(first: nat, seg: TCPSegment) {
    function End(): nat { first + seg.LengthInSequenceSpace() }
  }

  /** Insertion into an ordered set keyed by first; a key already present is left alone. */
  function InsertFlight(fs: seq<Flight>, f: Flight): seq<Flight> {
    if fs == [] || f.first < fs[0].first then [f] + fs
    else if f.first == fs[0].first then fs
    else [fs[0]] + InsertFlight(fs[1..], f)
  }

  datatype Sender = Sender(
    isn: u32, initialTimeout: u16, stream: Stream,
    next: nat, inFlight: int, consecutive: u32, ackno: nat, rto: u32,
    outstanding: seq<Flight>, timer: Timer, window: u16,
    syn: bool, fin: bool, queue: seq<TCPSegment>)
  {
    predicate Valid() { stream.Valid() }

    // The states of the sender.
    predicate Closed() { next == 0 }
    predicate SynSent() { next > 0 && next == inFlight }
    predicate SynAcked() { next > inFlight && !stream.Eof() }
    predicate FinToSend() { next < |stream.history| + 2 && stream.Eof() }
    predicate FinSent() { stream.Eof() && next == |stream.history| + 2 && inFlight > 0 }
    predicate FinAcked() { stream.Eof() && next == |stream.history| + 2 && inFlight == 0 }

    /** The part of the loop condition of fill_window that is not about the window. */
    predicate CanSend() {
      Closed() || ((SynSent() || SynAcked()) && !stream.BufferEmpty()) || FinToSend()
    }

    /** How much of the stream the next segment takes, given the room in the window. */
    function ChunkSize(room: nat): nat {
      if room > One(Closed()) then Min(room - One(Closed()), MAX_PAYLOAD_SIZE) else 0
    }

    /** Whether the next segment carries FIN. */
    predicate Finishes(room: nat)
      requires Valid()
    {
      var taken := stream.Pop(ChunkSize(room));
      One(Closed()) + |stream.Peek(ChunkSize(room))| + 1 <= room
      && this.(syn := syn || Closed(), stream := taken).FinToSend()
    }

    function NextFlight(room: nat): Flight
      requires Valid()
    {
      var first := One(syn) + stream.read;
      Flight(first, TCPSegment(
        DEFAULT_HEADER.(seqno := Wrap(first, isn), syn := Closed(), fin := Finishes(room)),
        stream.Peek(ChunkSize(room))))
    }

    /** One iteration of fill_window. */
    function Emit(room: nat): (s: Sender)
      requires Valid()
      ensures s.Valid()
    {
      var f := NextFlight(room);
      this.(syn := syn || Closed(),
            stream := stream.Pop(ChunkSize(room)),
            fin := fin || Finishes(room),
            queue := queue + [f.seg],
            outstanding := InsertFlight(outstanding, f),
            inFlight := inFlight + f.seg.LengthInSequenceSpace(),
            next := f.End(),
            timer := if timer.stopped then timer.Start(rto) else timer)
    }

    /** Every iteration uses up room, whatever the state. */
    lemma EmitUsesRoom(room: nat)
      requires Valid() && room > 0 && CanSend()
      ensures 0 < NextFlight(room).seg.LengthInSequenceSpace() <= room
    {
    }

    function FillLoop(room: nat): (s: Sender)
      requires Valid()
      ensures s.Valid()
      decreases room
    {
      if room > 0 && CanSend() then
        EmitUsesRoom(room);
        Emit(room).FillLoop(room - NextFlight(room).seg.LengthInSequenceSpace())
      else this
    }

    /** A zero window is treated as a window of one. */
    function Edge(): nat { ackno + Max(1, window) }

    function FillWindow(): (s: Sender)
      requires Valid()
      ensures s.Valid()
    {
      if Edge() <= next then this else FillLoop(Edge() - next)
    }

    function PopAcked(): (s: Sender)
      ensures s.stream == stream
      decreases |outstanding|
    {
      if outstanding != [] && outstanding[0].End() <= ackno then
        this.(inFlight := inFlight - outstanding[0].seg.LengthInSequenceSpace(),
              outstanding := outstanding[1..]).PopAcked()
      else this
    }

    predicate AcceptsAck(number: u32) {
      Unwrap(number, isn, ackno) <= next
    }

    function AckReceived(number: u32, win: u16): (s: Sender)
      requires Valid()
      ensures s.Valid()
    {
      var arrived := Unwrap(number, isn, ackno);
      if arrived > next then this
      else if arrived <= ackno then this.(window := win)
      else
        var s := this.(window := win, rto := initialTimeout, consecutive := 0, ackno := arrived)
                 .PopAcked().FillWindow();
        s.(timer := if s.outstanding != [] then s.timer.Start(s.rto) else s.timer.Stop())
    }

    function Tick(ms: nat): (s: Sender)
      requires Valid()
      ensures s.Valid()
    {
      var s := this.(timer := timer.Elapse(ms % TWO_32));
      if s.timer.IsExpired() && outstanding != [] then s.Expire() else s
    }

    /** The timer has expired: back off and resend the oldest segment. */
    function Expire(): (s: Sender)
      requires outstanding != []
      ensures s.stream == stream
    {
      var backoff := window > 0;
      var times: u32 := (consecutive + One(backoff)) % TWO_32;
      var timeout: u32 := if backoff then rto * 2 % TWO_32 else rto;
      this.(consecutive := times, rto := timeout,
            queue := if times <= MAX_RETX_ATTEMPTS then queue + [outstanding[0].seg] else queue,
            timer := timer.Start(timeout))
    }

    function SendEmpty(): (s: Sender)
      ensures s.stream == stream
    {
      this.(queue := queue + [TCPSegment(DEFAULT_HEADER.(seqno := Wrap(next, isn)), [])])
    }
  }

  function NewSender(capacity: nat, timeout: u16, isn: u32): Sender {
    Sender(isn, timeout, NewStream(capacity), 0, 0, 0, 0, timeout, [], Timer(0, false, true), 1, false, false, [])
  }
}
