/** TCP segments (section 3.1 of RFC 793), as the protocol and the codec see them. */
module Segments {
  import opened Bytes

  const MAX_PAYLOAD_SIZE: nat := 1452
  const MAX_RETX_ATTEMPTS: nat := 8

  datatype TCPHeader = TCPHeader(
    sport: u16, dport: u16, seqno: u32, ackno: u32, doff: byte,
    urg: bool, ack: bool, psh: bool, rst: bool, syn: bool, fin: bool,
    win: u16, cksum: u16, uptr: u16)

  datatype TCPSegment = TCPSegment(header: TCPHeader, payload: seq<byte>) {
    function LengthInSequenceSpace(): nat {
      |payload| + One(header.syn) + One(header.fin)
    }
  }

  const DEFAULT_HEADER: TCPHeader :=
    TCPHeader(0, 0, 0, 0, 5, false, false, false, false, false, false, 0, 0, 0)
}
