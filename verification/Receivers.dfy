/** The TCP receiver as a value. */
module Receivers {
  import opened Bytes
  import opened Reassembly
  import opened Segments
  import opened WrappingIntegers

  datatype Receiver = Receiver(isn: Option<u32>, reassembler: Reassembler) {
    predicate Valid() { reassembler.Valid() }

    /** The absolute sequence number of the first position not yet received. */
    function Ackno(): nat {
      reassembler.assembled + One(isn.Some?) + One(reassembler.Empty())
    }

    function AckNumber(): Option<u32> {
      if isn.Some? then Some(Wrap(Ackno(), isn.value)) else None
    }

    function WindowSize(): int { reassembler.output.RemainingCapacity() }

    /** The window field of an outgoing segment. */
    function Advertised(): u16
      requires Valid()
    {
      if WindowSize() >= 0xffff then 0xffff else WindowSize()
    }

    predicate Listen() { AckNumber().None? }
    predicate SynRecv() { AckNumber().Some? && !reassembler.output.ended }
    predicate FinRecv() { reassembler.output.ended }

    /** The absolute sequence number of a segment, guessed around the current ackno. */
    function Position(seg: TCPSegment): nat
      requires isn.Some?
    {
      Unwrap(seg.header.seqno, isn.value, Ackno())
    }

    /** The stream index of its first payload byte, in 64-bit arithmetic. */
    function Index(seg: TCPSegment): nat
      requires isn.Some?
    {
      (Position(seg) - One(!seg.header.syn)) % TWO_64
    }

    /** The new state, and whether the segment was acceptable. */
    function SegmentReceived(seg: TCPSegment): (res: (Receiver, bool))
      requires Valid()
      ensures res.0.Valid()
    {
      if seg.header.syn then
        if !Listen() then (this, false)
        else
          var r := this.(isn := Some(seg.header.seqno));
          if seg.LengthInSequenceSpace() == 1 then (r, true) else r.Accept(seg)
      else
        Accept(seg)
    }

    function Accept(seg: TCPSegment): (res: (Receiver, bool))
      requires Valid()
      ensures res.0.Valid()
    {
      if Listen() then (this, false)
      else if seg.header.fin && FinRecv() then (this, false)
      else if SynRecv() then
        if InWindow(seg) then
          (this.(reassembler := reassembler.Push(seg.payload, Index(seg), seg.header.fin)), true)
        else (this, false)
      else (this, true)
    }

    /** Not wholly before the ackno, and not beyond the window; a bare acknowledgment is let
        through when the window is zero. */
    predicate InWindow(seg: TCPSegment)
      requires isn.Some?
    {
      && Position(seg) + |seg.payload| + One(seg.header.syn) >= Ackno()
      && (Position(seg) < Ackno() + WindowSize() || (WindowSize() == 0 && seg.LengthInSequenceSpace() == 0))
    }

    /** The application reads from the inbound stream. */
    function Read(len: nat): (r: Receiver)
      requires Valid()
      ensures r.Valid()
    {
      this.(reassembler := reassembler.Read(len))
    }
  }

  function NewReceiver(capacity: nat): Receiver {
    Receiver(None, NewReassembler(capacity))
  }
}
