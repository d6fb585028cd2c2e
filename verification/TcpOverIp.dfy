/** Segments in datagrams: what an endpoint puts on the wire, and what its peer makes of it. */
module TcpOverIp {
  import opened Bytes
  import opened Segments
  import opened NetParsers
  import opened Ipv4Codec
  import T = TcpCodec
  import opened Connections
  import opened Reassembly
  import opened Receivers
  import opened Senders
  import SI = SenderInvariants
  import N = Network
  import WrappingIntegers

  datatype Address = Address(ip: u32, port: u16)

  const BLANK: TCPSegment := TCPSegment(Segments.DEFAULT_HEADER, [])
  const EMPTY: IPv4Datagram := IPv4Datagram(Ipv4Codec.DEFAULT_HEADER, [])

  /** The addresses a connection uses, and whether it still waits to learn them. */
  datatype Adapter = Adapter(source: Address, destination: Address, listening: bool) {
    function WithPorts(seg: TCPSegment): TCPSegment {
      seg.(header := seg.header.(sport := source.port, dport := destination.port))
    }

    /** The datagram's header; its length field has 16 bits. */
    function HeaderFor(seg: TCPSegment): IPv4Header {
      Ipv4Codec.DEFAULT_HEADER.(
        src := source.ip, dst := destination.ip,
        len := (4 * Ipv4Codec.DEFAULT_HEADER.hlen + 4 * seg.header.doff + |seg.payload|) % TWO_16)
    }

    function Wrap(seg: TCPSegment): IPv4Datagram
      requires seg.header.doff >= 5
    {
      var h := HeaderFor(seg);
      IPv4Datagram(h, T.SegmentBytes(WithPorts(seg), h.PseudoChecksum()))
    }

    /** The adapter afterwards, and the segment if it is one for this connection. */
    function Unwrap(d: IPv4Datagram): (Adapter, Option<TCPSegment>) {
      if !listening && (d.header.dst != source.ip || d.header.src != destination.ip) then (this, None)
      else if d.header.proto != PROTO_TCP then (this, None)
      else
        var (seg, r) := T.ParseSegment(BLANK, d.payload, d.header.PseudoChecksum());
        if r != NoError || seg.header.dport != source.port then (this, None)
        else if listening then
          if seg.header.syn && !seg.header.rst then
            (Adapter(Address(d.header.dst, source.port), Address(d.header.src, seg.header.sport), false), Some(seg))
          else (this, None)
        else if seg.header.sport != destination.port then (this, None)
        else (this, Some(seg))
    }

    /** Read one buffer from the network device. */
    function Read(buffer: seq<byte>): (Adapter, Option<TCPSegment>) {
      var (d, r) := ParseDatagram(EMPTY, buffer);
      if r != NoError then (this, None) else Unwrap(d)
    }

    /** Whether a segment that a sends is one for this adapter. */
    predicate For(a: Adapter, seg: TCPSegment) {
      if listening then source.port == a.destination.port && seg.header.syn && !seg.header.rst
      else source == a.destination && destination == a.source
    }
  }

  /** Short enough for the wire. The 20 bytes of the IP header do not matter: a length field that
      has wrapped around is subtracted from again. */
  predicate Fits(seg: TCPSegment) {
    5 <= seg.header.doff <= 15 && 4 * seg.header.doff + |seg.payload| < TWO_16
  }

  /** The segment as it arrives: with the sender's ports and a checksum. */
  function Arrived(a: Adapter, seg: TCPSegment): TCPSegment
    requires seg.header.doff >= 5
  {
    var g := a.WithPorts(seg);
    g.(header := T.Sealed(g, a.HeaderFor(seg).PseudoChecksum()))
  }

  lemma SegmentSize(seg: TCPSegment, pseudo: u32)
    requires seg.header.doff >= 5
    ensures |T.SegmentBytes(seg, pseudo)| == 4 * seg.header.doff + |seg.payload|
  {
    hide T.Sealed;
    assert T.Sealed(seg, pseudo).doff == seg.header.doff by { Kept(seg, pseudo); }
  }

  lemma Kept(seg: TCPSegment, pseudo: u32)
    requires seg.header.doff >= 5
    ensures T.Sealed(seg, pseudo) == seg.header.(cksum := T.Sealed(seg, pseudo).cksum)
  {
  }

  /** Exactly when the datagram for a segment can be serialized. */
  lemma WritableIff(a: Adapter, seg: TCPSegment)
    requires seg.header.doff >= 5
    ensures a.Wrap(seg).Writable() <==> 4 * seg.header.doff + |seg.payload| < TWO_16
  {
    hide T.SegmentBytes, IPv4Header.PseudoChecksum;
    SegmentSize(a.WithPorts(seg), a.HeaderFor(seg).PseudoChecksum());
  }

  /** The datagram that carries a segment survives the wire, its checksum aside. */
  lemma DatagramSurvives(a: Adapter, seg: TCPSegment)
    requires Fits(seg)
    ensures a.Wrap(seg).Writable()
    ensures ParseDatagram(EMPTY, DatagramBytes(a.Wrap(seg)))
            == (a.Wrap(seg).(header := Sealed(a.HeaderFor(seg))), NoError)
  {
    hide ParseDatagram, DatagramBytes, T.SegmentBytes, Check, HeaderBytes, IPv4Datagram.Writable;
    WritableIff(a, seg);
    DatagramRoundTripIff(EMPTY, a.Wrap(seg));
  }

  /** What is written by one adapter and read by another is the same segment if the other is the
      peer, and nothing if it is not. A listening peer learns the addresses it was reached at. */
  lemma DeliveredIff(a: Adapter, b: Adapter, seg: TCPSegment)
    requires Fits(seg)
    ensures b.Read(DatagramBytes(a.Wrap(seg)))
            == if b.For(a, seg) then (Adapter(a.destination, a.source, false), Some(Arrived(a, seg)))
               else (b, None)
  {
    hide ParseDatagram, DatagramBytes, T.SegmentBytes, T.ParseSegment, Check, T.Check, T.Carryable, HeaderBytes;
    var h := a.HeaderFor(seg);
    var g := a.WithPorts(seg);
    DatagramSurvives(a, seg);
    T.ShortIsCarryable(g, h.PseudoChecksum());
    T.SegmentRoundTripIff(BLANK, g, h.PseudoChecksum());
    Kept(g, h.PseudoChecksum());
  }

  /** Where an IPv4 header ends, as far as the datagram parser is concerned. */
  function BodyOf(b: seq<byte>): seq<byte>
    requires |b| >= Ipv4Codec.LENGTH
  {
    b[if WellFormed(b) then 4 * (b[0] % 16) else Ipv4Codec.LENGTH..]
  }

  /** The datagram in a buffer is one that the parsers accept, for the protocol TCP. */
  predicate Readable(b: seq<byte>) {
    && |b| >= Ipv4Codec.LENGTH && |BodyOf(b)| == Ipv4Codec.HeaderIn(b).PayloadLength() && b[9] == 6
    && var body := BodyOf(b);
       && |body| >= T.LENGTH && (body[12] / 16 < 5 || 4 * (body[12] / 16) <= |body|)
       && T.Check(body, Ipv4Codec.HeaderIn(b).PseudoChecksum()) == 0
  }

  /** The addresses in its headers are the right ones. */
  predicate Addressed(a: Adapter, b: seq<byte>)
    requires Readable(b)
  {
    var h, g := Ipv4Codec.HeaderIn(b), T.HeaderIn(BodyOf(b));
    && g.dport == a.source.port
    && if a.listening then g.syn && !g.rst
       else h.dst == a.source.ip && h.src == a.destination.ip && g.sport == a.destination.port
  }

  lemma EmptyLength()
    ensures EMPTY.header.PayloadLength() == TWO_16 - 20
  {
  }

  /** A well-formed datagram has the payload its header says. */
  lemma WellFormedLength(b: seq<byte>)
    requires |b| >= Ipv4Codec.LENGTH && WellFormed(b)
    ensures |BodyOf(b)| == Ipv4Codec.HeaderIn(b).PayloadLength()
  {
  }

  /** Exactly which buffers from the network device become which segment: readable ones for the
      protocol TCP whose addresses and ports, at their places in the buffer, are those of the
      connection, or, while it listens, that carry a SYN and no reset to its port. Everything else
      is dropped, and changes nothing. */
  lemma ReadIff(a: Adapter, b: seq<byte>)
    ensures a.Read(b).1.Some? <==> Readable(b) && Addressed(a, b)
    ensures a.Read(b).1.None? ==> a.Read(b).0 == a
    ensures a.Read(b).1.Some? ==>
              var h, g := Ipv4Codec.HeaderIn(b), T.HeaderIn(BodyOf(b));
              && a.Read(b).1.value == TCPSegment(g, BodyOf(b)[Max(T.LENGTH, 4 * (BodyOf(b)[12] / 16))..])
              && a.Read(b).0 == Adapter(Address(h.dst, a.source.port), Address(h.src, g.sport), false)
  {
    hide ParseDatagram, T.ParseSegment, T.Check, Ipv4Codec.HeaderIn, T.HeaderIn, IPv4Header.PayloadLength,
         IPv4Header.PseudoChecksum, Word;
    DatagramAcceptedIff(EMPTY, b);
    EmptyLength();
    if |b| >= Ipv4Codec.LENGTH {
      HeaderInAt(b);
      var body := BodyOf(b);
      T.SegmentAcceptedIff(BLANK, body, Ipv4Codec.HeaderIn(b).PseudoChecksum());
      if WellFormed(b) {
        WellFormedLength(b);
      }
    }
  }

  lemma HeaderInAt(b: seq<byte>)
    requires |b| >= Ipv4Codec.LENGTH
    ensures var h := Ipv4Codec.HeaderIn(b);
            && h.proto == b[9]
            && h.PayloadLength() == (Word(b[2], b[3]) - 4 * (b[0] % 16)) % TWO_16
  {
  }

  /** Every datagram that is written says so on the wire: version 4 with a header of five words, the
      protocol TCP, not to be fragmented, with 128 hops to live, from the one address to the other. */
  lemma WrittenLayout(a: Adapter, seg: TCPSegment)
    requires seg.header.doff >= 5
    ensures var b := DatagramBytes(a.Wrap(seg));
            && |b| >= 20 && b[0] == 0x45 && b[6] / 0x20 % 4 == 2 && b[8] == 128 && b[9] == 6
            && Ipv4Codec.HeaderIn(b).src == a.source.ip && Ipv4Codec.HeaderIn(b).dst == a.destination.ip
  {
    hide HeaderBytes, Check, T.SegmentBytes, Word, DoubleWord;
    var d := a.Wrap(seg);
    HeaderLayout(Sealed(d.header), d.payload);
  }

  /** Segments that differ in ports and checksum only. */
  predicate Alike(g: TCPSegment, g': TCPSegment) {
    g' == g.(header := g.header.(sport := g'.header.sport, dport := g'.header.dport, cksum := g'.header.cksum))
  }

  lemma SameToReceiver(r: Receiver, g: TCPSegment, g': TCPSegment)
    requires r.Valid() && Alike(g, g')
    ensures r.SegmentReceived(g) == r.SegmentReceived(g')
  {
    hide Reassembler.Push, WrappingIntegers.Unwrap;
  }

  lemma SameToConnection(c: Connection, g: TCPSegment, g': TCPSegment)
    requires c.Valid() && Alike(g, g')
    ensures c.SegmentReceived(g) == c.SegmentReceived(g')
  {
    hide Receiver.SegmentReceived, Sender.FillWindow, Sender.AckReceived, Sender.AcceptsAck, Sender.SendEmpty,
         Connection.Finish, Connection.UnclearShutdown;
    SameToReceiver(c.receiver, g, g');
  }

  /** A connection cannot tell a segment that crossed the wire from the one that was sent. */
  lemma WireTransparent(c: Connection, a: Adapter, seg: TCPSegment)
    requires c.Valid() && seg.header.doff >= 5
    ensures c.SegmentReceived(Arrived(a, seg)) == c.SegmentReceived(seg)
  {
    hide T.Sealed, Connection.SegmentReceived;
    Kept(a.WithPorts(seg), a.HeaderFor(seg).PseudoChecksum());
    SameToConnection(c, seg, Arrived(a, seg));
  }

  lemma SentFits(n: N.Net, g: TCPSegment)
    requires N.Inv(n) && g in n.sent
    ensures Fits(g) && n.peer.Valid()
  {
    hide SI.Inv, SI.CoreInv, SI.NoStall, N.LingerInv;
    assert SI.Genuine(n.me.sender, g);
  }

  /** In every reachable state of two connections, every segment one of them ever sent can be
      written to the wire by its adapter, is read back by the peer's, and does there what the
      network model says: the peer goes on as if it had been handed the segment itself. */
  lemma NetworkIsFaithful(n: N.Net, g: TCPSegment, a: Adapter, b: Adapter)
    requires N.Inv(n) && g in n.sent
    requires b.For(a, g)
    ensures Fits(g) && a.Wrap(g).Writable()
    ensures var got := b.Read(DatagramBytes(a.Wrap(g))).1;
            got.Some? && n.peer.SegmentReceived(got.value) == N.Act(n.peer, N.Deliver(g))
  {
    hide N.Inv, DatagramBytes, Adapter.Read, Adapter.Wrap, Arrived, Connection.SegmentReceived;
    SentFits(n, g);
    DatagramSurvives(a, g);
    DeliveredIff(a, b, g);
    WireTransparent(n.peer, a, g);
  }

  class TCPOverIPv4Adapter {
    var source: Address
    var destination: Address
    var listening: bool

    function View(): Adapter
      reads this
    {
      Adapter(source, destination, listening)
    }

    constructor (source: Address, destination: Address, listening: bool)
      ensures View() == Adapter(source, destination, listening)
    {
      this.source, this.destination, this.listening := source, destination, listening;
    }

    method UnwrapTcpInIp(d: IPv4Datagram) returns (r: Option<TCPSegment>)
      modifies this
      ensures (View(), r) == old(View()).Unwrap(d)
    {
      hide T.ParseSegment, IPv4Header.PseudoChecksum;
      if !listening && d.header.dst != source.ip {
        return None;
      }
      if !listening && d.header.src != destination.ip {
        return None;
      }
      if d.header.proto != PROTO_TCP {
        return None;
      }
      var seg, result := T.ParseTcpSegment(BLANK, d.payload, d.header.PseudoChecksum());
      if result != NoError {
        return None;
      }
      if seg.header.dport != source.port {
        return None;
      }
      if listening {
        if seg.header.syn && !seg.header.rst {
          source := Address(d.header.dst, source.port);
          destination := Address(d.header.src, seg.header.sport);
          listening := false;
        } else {
          return None;
        }
      }
      if seg.header.sport != destination.port {
        return None;
      }
      return Some(seg);
    }

    /** The segment with its ports set, and the datagram; none if the header cannot be written. */
    method WrapTcpInIp(seg: TCPSegment) returns (out: TCPSegment, r: Option<IPv4Datagram>)
      ensures out == View().WithPorts(seg)
      ensures r == if seg.header.doff < 5 then None else Some(View().Wrap(seg))
    {
      hide T.SegmentBytes, IPv4Header.PseudoChecksum;
      out := seg.(header := seg.header.(sport := source.port, dport := destination.port));
      var h := Ipv4Codec.DEFAULT_HEADER.(src := source.ip, dst := destination.ip);
      h := h.(len := (h.hlen * 4 + out.header.doff * 4 + |out.payload|) % TWO_16);
      var bytes := T.SerializeTcpSegment(out, h.PseudoChecksum());
      if bytes == None {
        return out, None;
      }
      r := Some(IPv4Datagram(h, bytes.value));
    }

    method Read(buffer: seq<byte>) returns (r: Option<TCPSegment>)
      modifies this
      ensures (View(), r) == old(View()).Read(buffer)
    {
      hide Adapter.Unwrap, ParseDatagram;
      var d, result := ParseIpv4Datagram(EMPTY, buffer);
      if result != NoError {
        return None;
      }
      r := UnwrapTcpInIp(d);
    }

    method Write(seg: TCPSegment) returns (out: TCPSegment, r: Option<seq<byte>>)
      ensures out == View().WithPorts(seg)
      ensures r == if seg.header.doff >= 5 && View().Wrap(seg).Writable()
                   then Some(DatagramBytes(View().Wrap(seg))) else None
    {
      hide Adapter.Wrap, DatagramBytes, IPv4Datagram.Writable;
      var d;
      out, d := WrapTcpInIp(seg);
      if d == None {
        return out, None;
      }
      r := SerializeIpv4Datagram(d.value);
    }
  }
}
