/** The TCP receiver object. */
module TcpReceivers {
  import opened Bytes
  import R = Reassembly
  import opened StreamReassemblers
  import opened Receivers
  import opened Segments
  import opened WrappingIntegers

  class TCPReceiver {
    const reassembler: StreamReassembler
    var isn: Option<u32>

    ghost predicate Valid()
      reads this, reassembler, reassembler.output
    {
      reassembler.Valid()
    }

    ghost function View(): (r: Receiver)
      reads this, reassembler, reassembler.output
      requires Valid()
      ensures r.Valid()
    {
      Receiver(isn, reassembler.View())
    }

    constructor (capacity: nat)
      ensures Valid() && fresh(reassembler) && fresh(reassembler.output)
      ensures View() == NewReceiver(capacity)
    {
      reassembler := new StreamReassembler(capacity);
      isn := None;
    }

    function AbsoluteAckno(): (n: nat)
      reads this, reassembler, reassembler.output
      requires Valid()
      ensures n == View().Ackno()
    {
      reassembler.assembledBytes + One(isn.Some?) + One(reassembler.Empty())
    }

    function Ackno(): (n: Option<u32>)
      reads this, reassembler, reassembler.output
      requires Valid()
      ensures n == View().AckNumber()
    {
      if isn.Some? then Some(Wrap(AbsoluteAckno(), isn.value)) else None
    }

    function WindowSize(): (n: int)
      reads this, reassembler, reassembler.output
      requires Valid()
      ensures n == View().WindowSize() >= 0
    {
      reassembler.output.RemainingCapacity()
    }

    /** Handle an inbound segment; the result says whether it was acceptable. */
    method SegmentReceived(seg: TCPSegment) returns (ok: bool)
      requires Valid()
      requires reassembler.capacity + reassembler.output.byteRead + |seg.payload| < TWO_64
      modifies this, reassembler, reassembler.output
      ensures Valid() && (View(), ok) == old(View()).SegmentReceived(seg)
    {
      hide R.Reassembler.Push, R.Inv;
      if seg.header.syn {
        if !Ackno().None? { return false; }
        isn := Some(seg.header.seqno);
        if seg.LengthInSequenceSpace() == 1 { return true; }
      }
      if Ackno().None? { return false; }
      if seg.header.fin && reassembler.output.end { return false; }
      if !reassembler.output.end {
        var absSeqno := Unwrap(seg.header.seqno, isn.value, AbsoluteAckno());
        var index := (absSeqno - One(!seg.header.syn)) % TWO_64;
        if absSeqno + |seg.payload| + One(seg.header.syn) < AbsoluteAckno() { return false; }
        if absSeqno >= AbsoluteAckno() + WindowSize() {
          if !(WindowSize() == 0 && seg.LengthInSequenceSpace() == 0) { return false; }
        }
        reassembler.PushSubstring(seg.payload, index, seg.header.fin);
      }
      return true;
    }
  }
}
