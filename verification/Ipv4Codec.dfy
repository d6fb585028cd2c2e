/** The IPv4 header and datagram on the wire (section 3.1 of RFC 791). */
module Ipv4Codec {
  import opened Bytes
  import opened Checksums
  import opened NetParsers

  const LENGTH: nat := 20
  const DEFAULT_TTL: byte := 128
  const PROTO_TCP: byte := 6

  datatype IPv4Header = IPv4Header(
    ver: byte, hlen: byte, tos: byte, len: u16, id: u16, df: bool, mf: bool, offset: u16,
    ttl: byte, proto: byte, cksum: u16, src: u32, dst: u32)
  {
    /** A 16-bit difference: it wraps when the lengths do not fit. */
    function PayloadLength(): u16 { (len - 4 * hlen) % TWO_16 }

    /** What the addresses, the protocol and the length add to the TCP checksum. */
    function PseudoChecksum(): (sum: u32)
      ensures sum <= 6 * 0xffff
    {
      src / TWO_16 + src % TWO_16 + dst / TWO_16 + dst % TWO_16 + proto + PayloadLength()
    }

    predicate Writable() { ver == 4 && hlen >= 5 }
  }

  datatype IPv4Datagram = IPv4Datagram(header: IPv4Header, payload: seq<byte>) {
    predicate Writable() { |payload| == header.PayloadLength() && header.Writable() }
  }

  const DEFAULT_HEADER: IPv4Header :=
    IPv4Header(4, 5, 0, 0, 0, true, false, 0, DEFAULT_TTL, PROTO_TCP, 0, 0, 0)

  /** The pseudo-header's sum is the sum of the 16-bit words of the pseudo-header: the addresses,
      a zero byte, the protocol and the length (section 3.1 of RFC 793). */
  lemma PseudoIsWordSum(h: IPv4Header)
    ensures h.PseudoChecksum() ==
            WordSum(ToBytes(4, h.src) + (ToBytes(4, h.dst) + ([0, h.proto] + ToBytes(2, h.PayloadLength()))))
  {
    hide WordSum, IPv4Header.PayloadLength;
    var len := ToBytes(2, h.PayloadLength());
    FourBytesSum(h.src, ToBytes(4, h.dst) + ([0, h.proto] + len));
    FourBytesSum(h.dst, [0, h.proto] + len);
    OneWordSum(0, h.proto, len);
    TwoBytes(h.PayloadLength());
    OneWordSum(h.PayloadLength() / 0x100, h.PayloadLength() % 0x100, []);
    assert len + [] == len;
    assert WordSum([]) == 0 by { NoWordSum(); }
  }

  lemma NoWordSum()
    ensures WordSum([]) == 0
  {
  }

  lemma OneWordSum(hi: byte, lo: byte, rest: seq<byte>)
    ensures WordSum([hi, lo] + rest) == 0x100 * hi + lo + WordSum(rest)
  {
    assert ([hi, lo] + rest)[2..] == rest;
  }

  lemma FourBytesSum(v: u32, rest: seq<byte>)
    ensures WordSum(ToBytes(4, v) + rest) == v / TWO_16 + v % TWO_16 + WordSum(rest)
  {
    hide WordSum;
    var a, b, c, d := v / 0x100_0000, v / 0x1_0000 % 0x100, v / 0x100 % 0x100, v % 0x100;
    FourBytes(v);
    assert ToBytes(4, v) + rest == [a, b] + ([c, d] + rest);
    OneWordSum(a, b, [c, d] + rest);
    OneWordSum(c, d, rest);
  }

  lemma FourBytes(v: u32)
    ensures ToBytes(4, v) == [v / 0x100_0000, v / 0x1_0000 % 0x100, v / 0x100 % 0x100, v % 0x100]
  {
    assert ToBytes(4, v) == ToBytes(3, v / 0x100) + [v % 0x100];
    assert ToBytes(3, v / 0x100) == ToBytes(2, v / 0x1_0000) + [v / 0x100 % 0x100];
    TwoBytes(v / 0x1_0000);
  }

  // ---- Serializing --------------------------------------------------------------

  function FirstByte(h: IPv4Header): byte { h.ver * 16 % 0x100 + h.hlen % 16 }

  function FragmentWord(h: IPv4Header): u16 {
    0x4000 * One(h.df) + 0x2000 * One(h.mf) + h.offset % 0x2000
  }

  /** The fields in front of the checksum, in wire order. */
  function Front(h: IPv4Header): (s: seq<byte>)
    ensures |s| == 10
  {
    ToBytes(1, FirstByte(h)) + (ToBytes(1, h.tos) + (ToBytes(2, h.len) + (ToBytes(2, h.id)
    + (ToBytes(2, FragmentWord(h)) + (ToBytes(1, h.ttl) + ToBytes(1, h.proto))))))
  }

  /** The addresses, and zeros up to the advertised header length. */
  function Back(h: IPv4Header): (s: seq<byte>)
    requires h.hlen >= 5
    ensures |s| == 4 * h.hlen - 12
  {
    ToBytes(4, h.src) + (ToBytes(4, h.dst) + seq(4 * h.hlen - LENGTH, i => 0))
  }

  function HeaderBytes(h: IPv4Header): (s: seq<byte>)
    requires h.hlen >= 5
    ensures |s| == 4 * h.hlen
  {
    Front(h) + ToBytes(2, h.cksum) + Back(h)
  }

  function Check(bytes: seq<byte>): u16 { Checksum(0, false).Add(bytes).Value() }

  /** The header that is sent: the datagram's own with a fresh checksum. */
  function Sealed(h: IPv4Header): IPv4Header
    requires h.hlen >= 5
  {
    h.(cksum := Check(HeaderBytes(h.(cksum := 0))))
  }

  function DatagramBytes(d: IPv4Datagram): (s: seq<byte>)
    requires d.header.hlen >= 5
    ensures |s| == 4 * d.header.hlen + |d.payload|
  {
    HeaderBytes(Sealed(d.header)) + d.payload
  }

  // ---- Parsing ------------------------------------------------------------------

  function ParseFields(p: Parser): (IPv4Header, Parser) {
    Widths();
    var (first, p1) := p.Int(1);
    var (tos, p2) := p1.Int(1);
    var (len, p3) := p2.Int(2);
    var (id, p4) := p3.Int(2);
    var (fo, p5) := p4.Int(2);
    var (ttl, p6) := p5.Int(1);
    var (proto, p7) := p6.Int(1);
    var (cksum, p8) := p7.Int(2);
    var (src, p9) := p8.Int(4);
    var (dst, p10) := p9.Int(4);
    (IPv4Header(first / 16, first % 16, tos, len, id, Bit(fo, 0x4000), Bit(fo, 0x2000), fo % 0x2000,
                ttl, proto, cksum, src, dst), p10)
  }

  /** The header, the parser behind it, and the result that the datagram parser ignores. */
  function ParseHeader(was: IPv4Header, p: Parser): (IPv4Header, Parser, ParseResult) {
    var size := |p.buffer|;
    if size < LENGTH then (was, p, PacketTooShort)
    else
      var (h, p10) := ParseFields(p);
      if size < 4 * h.hlen then (h, p10, PacketTooShort)
      else if h.ver != 4 then (h, p10, WrongIPVersion)
      else if h.hlen < 5 then (h, p10, HeaderTooShort)
      else if size != h.len then (h, p10, TruncatedPacket)
      else
        var q := p10.RemovePrefix(h.hlen * 4 - LENGTH);
        if q.error != NoError then (h, q, q.error)
        else (h, q, if Check(p.buffer[..4 * h.hlen]) != 0 then BadChecksum else NoError)
  }

  /** The new value of a datagram that parses a buffer, and the result it reports. */
  function ParseDatagram(was: IPv4Datagram, buffer: seq<byte>): (IPv4Datagram, ParseResult) {
    var (h, p, _) := ParseHeader(was.header, Parser(buffer, NoError));
    (IPv4Datagram(h, p.buffer),
     if |p.buffer| != h.PayloadLength() then PacketTooShort else p.error)
  }

  // ---- Parsing undoes serializing -----------------------------------------------

  lemma FirstByteParts(h: IPv4Header)
    requires h.ver == 4
    ensures FirstByte(h) / 16 == 4 && FirstByte(h) % 16 == h.hlen % 16
  {
  }

  lemma FragmentParts(h: IPv4Header)
    ensures var fo := FragmentWord(h);
            Bit(fo, 0x4000) == h.df && Bit(fo, 0x2000) == h.mf && fo % 0x2000 == h.offset % 0x2000
  {
  }

  /** The front of a header followed by more, as a chain that is read from the left. */
  lemma FrontChain(h: IPv4Header, rest: seq<byte>)
    ensures Front(h) + rest ==
            ToBytes(1, FirstByte(h)) + (ToBytes(1, h.tos) + (ToBytes(2, h.len) + (ToBytes(2, h.id)
            + (ToBytes(2, FragmentWord(h)) + (ToBytes(1, h.ttl) + (ToBytes(1, h.proto) + rest))))))
  {
    hide ToBytes;
    var f6 := ToBytes(1, h.ttl) + ToBytes(1, h.proto);
    var f5 := ToBytes(2, FragmentWord(h)) + f6;
    var f4 := ToBytes(2, h.id) + f5;
    var f3 := ToBytes(2, h.len) + f4;
    var f2 := ToBytes(1, h.tos) + f3;
    Assoc(ToBytes(1, FirstByte(h)), f2, rest);
    Assoc(ToBytes(1, h.tos), f3, rest);
    Assoc(ToBytes(2, h.len), f4, rest);
    Assoc(ToBytes(2, h.id), f5, rest);
    Assoc(ToBytes(2, FragmentWord(h)), f6, rest);
    Assoc(ToBytes(1, h.ttl), ToBytes(1, h.proto), rest);
  }

  /** What the wire can carry of a header: four bits of length, thirteen of offset. */
  function Carried(h: IPv4Header): IPv4Header {
    h.(hlen := h.hlen % 16, offset := h.offset % 0x2000)
  }

  lemma ParseFieldsBack(h: IPv4Header, rest: seq<byte>)
    requires h.ver == 4
    ensures var bytes := Front(h) + (ToBytes(2, h.cksum) + (ToBytes(4, h.src) + (ToBytes(4, h.dst) + rest)));
            ParseFields(Parser(bytes, NoError)) == (Carried(h), Parser(rest, NoError))
  {
    hide ToBytes, Power256, Front, FirstByte, FragmentWord, Parser.Int, Bit;
    Widths();
    FirstByteParts(h);
    FragmentParts(h);
    var t9 := ToBytes(4, h.dst) + rest;
    var t8 := ToBytes(4, h.src) + t9;
    var t7 := ToBytes(2, h.cksum) + t8;
    var t6 := ToBytes(1, h.proto) + t7;
    var t5 := ToBytes(1, h.ttl) + t6;
    var t4 := ToBytes(2, FragmentWord(h)) + t5;
    var t3 := ToBytes(2, h.id) + t4;
    var t2 := ToBytes(2, h.len) + t3;
    var t1 := ToBytes(1, h.tos) + t2;
    FrontChain(h, t7);
    IntOfBytes(1, FirstByte(h), t1);
    IntOfBytes(1, h.tos, t2);
    IntOfBytes(2, h.len, t3);
    IntOfBytes(2, h.id, t4);
    IntOfBytes(2, FragmentWord(h), t5);
    IntOfBytes(1, h.ttl, t6);
    IntOfBytes(1, h.proto, t7);
    IntOfBytes(2, h.cksum, t8);
    IntOfBytes(4, h.src, t9);
    IntOfBytes(4, h.dst, rest);
  }

  /** The fields of a serialized header, and what is left behind them. */
  lemma FieldsOfBytes(h: IPv4Header, rest: seq<byte>)
    requires h.Writable()
    ensures ParseFields(Parser(HeaderBytes(h) + rest, NoError))
            == (Carried(h), Parser(seq(4 * h.hlen - LENGTH, i => 0 as byte) + rest, NoError))
  {
    hide ToBytes, Front, ParseFields;
    var pad := seq(4 * h.hlen - LENGTH, i => 0 as byte);
    var ck, src, dst := ToBytes(2, h.cksum), ToBytes(4, h.src), ToBytes(4, h.dst);
    Assoc(Front(h) + ck, src + (dst + pad), rest);
    Assoc(Front(h), ck, src + (dst + pad) + rest);
    Assoc(src, dst + pad, rest);
    Assoc(dst, pad, rest);
    ParseFieldsBack(h, pad + rest);
  }

  /** A serialized header verifies to zero. */
  lemma SerializedVerifies(h: IPv4Header)
    requires h.hlen >= 5
    ensures Check(HeaderBytes(Sealed(h))) == 0
  {
    hide Checksum.Add, Checksum.Value, Storable, ToBytes;
    var zero := h.(cksum := 0);
    var out := Sealed(h);
    TwoBytes(0);
    TwoBytes(out.cksum);
    assert Front(out) == Front(zero) && Back(out) == Back(zero);
    ShortIsStorable(0, Front(zero), Back(zero));
    StoredChecksumVerifiesIff(0, Front(zero), out.cksum / 0x100, out.cksum % 0x100, Back(zero));
  }

  /** The header parser finds no fault with a datagram whose length field is its length. */
  lemma HeaderAccepted(was: IPv4Header, d: IPv4Datagram)
    requires d.header.Writable() && d.header.hlen <= 15
    requires d.header.len == 4 * d.header.hlen + |d.payload|
    ensures ParseHeader(was, Parser(DatagramBytes(d), NoError))
            == (Carried(Sealed(d.header)), Parser(d.payload, NoError), NoError)
  {
    hide HeaderBytes, Check, ParseFields;
    var h := Sealed(d.header);
    var pad := seq(4 * h.hlen - LENGTH, i => 0 as byte);
    FieldsOfBytes(h, d.payload);
    SerializedVerifies(d.header);
    assert (pad + d.payload)[|pad|..] == d.payload;
    assert DatagramBytes(d)[..4 * h.hlen] == HeaderBytes(h);
  }

  lemma DatagramBack(was: IPv4Datagram, d: IPv4Datagram)
    requires d.header.Writable() && d.header.hlen <= 15
    requires d.header.len == 4 * d.header.hlen + |d.payload|
    ensures ParseDatagram(was, DatagramBytes(d)) == (IPv4Datagram(Carried(Sealed(d.header)), d.payload), NoError)
  {
    hide DatagramBytes, Check, ParseHeader;
    HeaderAccepted(was.header, d);
  }

  /** Whatever the lengths are, the header comes back as the wire can carry it. */
  lemma HeaderBack(was: IPv4Datagram, d: IPv4Datagram)
    requires d.header.Writable()
    ensures ParseDatagram(was, DatagramBytes(d)).0.header == Carried(Sealed(d.header))
  {
    hide HeaderBytes, Check, ParseFields, Parser.RemovePrefix;
    FieldsOfBytes(Sealed(d.header), d.payload);
  }

  /** A datagram too long for its length field keeps its payload only when there are no options
      to skip: the header parser stops before it gets to them. */
  lemma TooLong(was: IPv4Datagram, d: IPv4Datagram)
    requires d.Writable() && d.header.hlen <= 15
    requires d.header.len != 4 * d.header.hlen + |d.payload|
    ensures d.header.hlen == 5 ==>
              ParseDatagram(was, DatagramBytes(d)) == (IPv4Datagram(Carried(Sealed(d.header)), d.payload), NoError)
    ensures d.header.hlen > 5 ==> ParseDatagram(was, DatagramBytes(d)).1 == PacketTooShort
  {
    hide HeaderBytes, Check, ParseFields;
    FieldsOfBytes(Sealed(d.header), d.payload);
    assert d.header.hlen == 5 ==> seq(4 * d.header.hlen - LENGTH, i => 0 as byte) + d.payload == d.payload;
  }

  /** Parsing undoes serializing, checksum apart, for exactly these datagrams: the header length
      fits in four bits, the fragment offset in thirteen, and either there are no options or the
      length field is the length. */
  lemma DatagramRoundTripIff(was: IPv4Datagram, d: IPv4Datagram)
    requires d.Writable()
    ensures ParseDatagram(was, DatagramBytes(d)) == (d.(header := Sealed(d.header)), NoError)
            <==> d.header.hlen <= 15 && d.header.offset < 0x2000
                 && (d.header.hlen == 5 || d.header.len == 4 * d.header.hlen + |d.payload|)
  {
    hide DatagramBytes, HeaderBytes, Check, ParseDatagram, IPv4Header.PayloadLength;
    HeaderBack(was, d);
    if d.header.hlen <= 15 {
      if d.header.len == 4 * d.header.hlen + |d.payload| {
        DatagramBack(was, d);
      } else {
        TooLong(was, d);
      }
    }
  }

  // ---- What is accepted ---------------------------------------------------------

  /** The header that stands in a buffer, byte by byte. */
  function HeaderIn(b: seq<byte>): IPv4Header
    requires |b| >= LENGTH
  {
    IPv4Header(b[0] / 16, b[0] % 16, b[1], Word(b[2], b[3]), Word(b[4], b[5]),
               Bit(b[6], 0x40), Bit(b[6], 0x20), Word(b[6] % 0x20, b[7]), b[8], b[9], Word(b[10], b[11]),
               DoubleWord(b[12], b[13], b[14], b[15]), DoubleWord(b[16], b[17], b[18], b[19]))
  }

  lemma FragmentBits(hi: byte, lo: byte)
    ensures var fo := Word(hi, lo);
            Bit(fo, 0x4000) == Bit(hi, 0x40) && Bit(fo, 0x2000) == Bit(hi, 0x20) && fo % 0x2000 == Word(hi % 0x20, lo)
  {
  }

  /** The fixed part of a header takes 20 bytes, and every field is read from its place. */
  lemma FieldsConsume(buffer: seq<byte>)
    requires |buffer| >= LENGTH
    ensures ParseFields(Parser(buffer, NoError)) == (HeaderIn(buffer), Parser(buffer[LENGTH..], NoError))
  {
    hide Parser.Int, Bit, BigEndian, Power256, Word;
    Widths();
    var p := Parser(buffer, NoError);
    var p1 := p.Int(1).1;
    var p2 := p1.Int(1).1;
    var p3 := p2.Int(2).1;
    var p4 := p3.Int(2).1;
    var p5 := p4.Int(2).1;
    var p6 := p5.Int(1).1;
    var p7 := p6.Int(1).1;
    var p8 := p7.Int(2).1;
    var p9 := p8.Int(4).1;
    IntConsumes(p, 1);
    IntConsumes(p1, 1);
    IntConsumes(p2, 2);
    IntConsumes(p3, 2);
    IntConsumes(p4, 2);
    IntConsumes(p5, 1);
    IntConsumes(p6, 1);
    IntConsumes(p7, 2);
    IntConsumes(p8, 4);
    IntConsumes(p9, 4);
    OneByte(buffer);
    OneByte(p1.buffer);
    OneWord(p2.buffer);
    OneWord(p3.buffer);
    OneWord(p4.buffer);
    OneByte(p5.buffer);
    OneByte(p6.buffer);
    OneWord(p7.buffer);
    OneDoubleWord(p8.buffer);
    OneDoubleWord(p9.buffer);
    FragmentBits(buffer[6], buffer[7]);
  }

  /** A serialized header has every field in its place. */
  lemma HeaderLayout(h: IPv4Header, rest: seq<byte>)
    requires h.Writable()
    ensures HeaderIn(HeaderBytes(h) + rest) == Carried(h)
  {
    hide HeaderBytes, ParseFields, HeaderIn;
    FieldsConsume(HeaderBytes(h) + rest);
    FieldsOfBytes(h, rest);
  }

  /** The header's claims about the datagram's form, all but the checksum. */
  predicate WellFormed(buffer: seq<byte>)
    requires |buffer| >= LENGTH
  {
    && buffer[0] / 16 == 4 && 5 <= buffer[0] % 16
    && 4 * (buffer[0] % 16) <= |buffer| == Word(buffer[2], buffer[3])
  }

  /** The header parser's own verdict checks everything. */
  lemma HeaderAcceptedIff(was: IPv4Header, buffer: seq<byte>)
    ensures ParseHeader(was, Parser(buffer, NoError)).2 == NoError
            <==> |buffer| >= LENGTH && WellFormed(buffer) && Check(buffer[..4 * (buffer[0] % 16)]) == 0
  {
    hide Check, ParseFields;
    if |buffer| >= LENGTH {
      FieldsConsume(buffer);
    }
  }

  /** Exactly when the header parser reports which fault, on the bytes of the buffer. The faults are
      looked for in this order: a buffer shorter than the header, another version, a header length
      below five words, a length field that is not the length, a bad checksum. */
  lemma HeaderResultIff(was: IPv4Header, b: seq<byte>)
    ensures var r := ParseHeader(was, Parser(b, NoError)).2;
            && (r == PacketTooShort <==> |b| < 20 || |b| < 4 * (b[0] % 16))
            && (r == WrongIPVersion <==> |b| >= 20 && |b| >= 4 * (b[0] % 16) && b[0] / 16 != 4)
            && (r == HeaderTooShort <==> |b| >= 20 && |b| >= 4 * (b[0] % 16) && b[0] / 16 == 4 && b[0] % 16 < 5)
            && (r == TruncatedPacket <==>
                  |b| >= 20 && |b| >= 4 * (b[0] % 16) && b[0] / 16 == 4 && b[0] % 16 >= 5 && |b| != Word(b[2], b[3]))
            && (r == BadChecksum <==> |b| >= 20 && WellFormed(b) && Check(b[..4 * (b[0] % 16)]) != 0)
            && r != Unsupported
  {
    hide Check, ParseFields;
    if |b| >= LENGTH {
      FieldsConsume(b);
    }
  }

  /** Where the header parser leaves off, and what it has read. */
  lemma HeaderLeaves(was: IPv4Header, buffer: seq<byte>)
    requires |buffer| >= LENGTH
    ensures var (h, p, _) := ParseHeader(was, Parser(buffer, NoError));
            && p == Parser(buffer[if WellFormed(buffer) then 4 * (buffer[0] % 16) else LENGTH..], NoError)
            && h == HeaderIn(buffer)
  {
    hide Check, ParseFields, Word, Parser.RemovePrefix;
    FieldsConsume(buffer);
    if WellFormed(buffer) {
      RemoveOptions(buffer, 4 * (buffer[0] % 16));
    }
  }

  lemma RemoveOptions(buffer: seq<byte>, size: nat)
    requires LENGTH <= size <= |buffer|
    ensures Parser(buffer[LENGTH..], NoError).RemovePrefix(size - LENGTH) == Parser(buffer[size..], NoError)
  {
  }

  lemma ShortBuffer(was: IPv4Header, buffer: seq<byte>)
    requires |buffer| < LENGTH
    ensures ParseHeader(was, Parser(buffer, NoError)) == (was, Parser(buffer, NoError), PacketTooShort)
  {
  }

  /** The datagram parser's verdict, which does not use the header parser's. A buffer that is not
      well formed is accepted when what follows the first 20 bytes has the length that the header
      fields work out to; one too short for a header is measured against the old header. */
  lemma DatagramAcceptedIff(was: IPv4Datagram, buffer: seq<byte>)
    ensures |buffer| >= LENGTH ==> ParseDatagram(was, buffer).0.header == HeaderIn(buffer)
    ensures ParseDatagram(was, buffer).1 == NoError
            <==> if |buffer| < LENGTH then |buffer| == was.header.PayloadLength()
                 else WellFormed(buffer)
                      || |buffer| - LENGTH == (Word(buffer[2], buffer[3]) - 4 * (buffer[0] % 16)) % TWO_16
    ensures ParseDatagram(was, buffer).1 in {NoError, PacketTooShort}
    ensures |buffer| >= LENGTH ==>
              ParseDatagram(was, buffer).0.payload
              == buffer[if WellFormed(buffer) then 4 * (buffer[0] % 16) else LENGTH..]
  {
    hide ParseHeader, Word;
    if |buffer| >= LENGTH {
      HeaderLeaves(was.header, buffer);
    } else {
      ShortBuffer(was.header, buffer);
    }
  }

  /** Whatever stands in the checksum field, the datagram parser's verdict is the same. */
  lemma ChecksumIgnored(was: IPv4Datagram, buffer: seq<byte>, hi: byte, lo: byte)
    requires |buffer| >= LENGTH
    ensures ParseDatagram(was, buffer[10 := hi][11 := lo]).1 == ParseDatagram(was, buffer).1
    ensures ParseDatagram(was, buffer[10 := hi][11 := lo]).0.payload == ParseDatagram(was, buffer).0.payload
  {
    hide ParseDatagram;
    var other := buffer[10 := hi][11 := lo];
    DatagramAcceptedIff(was, buffer);
    DatagramAcceptedIff(was, other);
    assert forall k :: 12 <= k <= |buffer| ==> other[k..] == buffer[k..];
  }

  // ---- The steps the program takes ----------------------------------------------

  method ParseIpv4Header(was: IPv4Header, p: NetParser) returns (h: IPv4Header, r: ParseResult)
    modifies p
    ensures (h, p.View(), r) == ParseHeader(was, old(p.View()))
  {
    hide Parser.Int, Bit, Parser.RemovePrefix, Checksum.Add, Checksum.Value;
    var original := p.buffer;
    var size := |p.buffer|;
    if size < LENGTH {
      return was, PacketTooShort;
    }
    var first := p.U8();
    var tos := p.U8();
    var len := p.U16();
    var id := p.U16();
    var fo := p.U16();
    var ttl := p.U8();
    var proto := p.U8();
    var cksum := p.U16();
    var src := p.U32();
    var dst := p.U32();
    h := IPv4Header(first / 16, first % 16, tos, len, id, Bit(fo, 0x4000), Bit(fo, 0x2000), fo % 0x2000,
                    ttl, proto, cksum, src, dst);
    if size < 4 * h.hlen {
      return h, PacketTooShort;
    }
    if h.ver != 4 {
      return h, WrongIPVersion;
    }
    if h.hlen < 5 {
      return h, HeaderTooShort;
    }
    if size != h.len {
      return h, TruncatedPacket;
    }
    p.RemovePrefix(h.hlen * 4 - LENGTH);
    if p.error != NoError {
      return h, p.error;
    }
    var check := new InternetChecksum(0);
    check.Add(original[..4 * h.hlen]);
    var v := check.Value();
    r := if v != 0 then BadChecksum else NoError;
  }

  /** None when the header cannot be written. */
  method SerializeIpv4Header(h: IPv4Header) returns (r: Option<seq<byte>>)
    ensures r == if h.Writable() then Some(HeaderBytes(h)) else None
  {
    hide ToBytes;
    if h.ver != 4 || 4 * h.hlen < LENGTH {
      return None;
    }
    var s := UnparseInt([], 1, FirstByte(h));
    s := UnparseInt(s, 1, h.tos);
    s := UnparseInt(s, 2, h.len);
    s := UnparseInt(s, 2, h.id);
    s := UnparseInt(s, 2, FragmentWord(h));
    s := UnparseInt(s, 1, h.ttl);
    s := UnparseInt(s, 1, h.proto);
    assert s == Front(h) by {
      FrontChain(h, []);
    }
    s := UnparseInt(s, 2, h.cksum);
    ghost var front := s;
    s := UnparseInt(s, 4, h.src);
    s := UnparseInt(s, 4, h.dst);
    var pad := seq(4 * h.hlen - |s|, i => 0);
    Assoc(front + ToBytes(4, h.src), ToBytes(4, h.dst), pad);
    Assoc(front, ToBytes(4, h.src), ToBytes(4, h.dst) + pad);
    r := Some(s + pad);
  }

  method ParseIpv4Datagram(was: IPv4Datagram, buffer: seq<byte>) returns (d: IPv4Datagram, r: ParseResult)
    ensures (d, r) == ParseDatagram(was, buffer)
  {
    hide ParseHeader;
    var p := new NetParser(buffer);
    var h, _ := ParseIpv4Header(was.header, p);
    d := IPv4Datagram(h, p.buffer);
    if |d.payload| != d.header.PayloadLength() {
      return d, PacketTooShort;
    }
    r := p.error;
  }

  method SerializeIpv4Datagram(d: IPv4Datagram) returns (r: Option<seq<byte>>)
    ensures r == if d.Writable() then Some(DatagramBytes(d)) else None
  {
    hide HeaderBytes, Checksum.Add, Checksum.Value;
    if |d.payload| != d.header.PayloadLength() {
      return None;
    }
    var out := d.header.(cksum := 0);
    var bytes := SerializeIpv4Header(out);
    if bytes == None {
      return None;
    }
    var check := new InternetChecksum(0);
    check.Add(bytes.value);
    var v := check.Value();
    out := out.(cksum := v);
    bytes := SerializeIpv4Header(out);
    r := Some(bytes.value + d.payload);
  }
}
