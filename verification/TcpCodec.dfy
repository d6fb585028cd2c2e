/** The TCP header and segment on the wire (section 3.1 of RFC 793). */
module TcpCodec {
  import opened Bytes
  import opened Checksums
  import opened NetParsers
  import opened Segments

  const LENGTH: nat := 20

  // ---- Serializing --------------------------------------------------------------

  function FlagByte(h: TCPHeader): byte {
    0x20 * One(h.urg) + 0x10 * One(h.ack) + 0x08 * One(h.psh) + 0x04 * One(h.rst) + 0x02 * One(h.syn) + One(h.fin)
  }

  /** The fields in front of the checksum, in wire order. */
  function Front(h: TCPHeader): (s: seq<byte>)
    ensures |s| == 16
  {
    ToBytes(2, h.sport) + (ToBytes(2, h.dport) + (ToBytes(4, h.seqno) + (ToBytes(4, h.ackno)
    + (ToBytes(1, h.doff * 16 % 0x100) + (ToBytes(1, FlagByte(h)) + ToBytes(2, h.win))))))
  }

  /** The urgent pointer, and zeros up to the advertised header length. */
  function Back(h: TCPHeader): (s: seq<byte>)
    requires h.doff >= 5
    ensures |s| == 4 * h.doff - 18
  {
    ToBytes(2, h.uptr) + seq(4 * h.doff - LENGTH, i => 0)
  }

  function HeaderBytes(h: TCPHeader): (s: seq<byte>)
    requires h.doff >= 5
    ensures |s| == 4 * h.doff
  {
    Front(h) + ToBytes(2, h.cksum) + Back(h)
  }

  // ---- Parsing ------------------------------------------------------------------

  /** The header fields and the state of the parser after the fixed part. */
  function ParseFields(p: Parser): (TCPHeader, Parser) {
    Widths();
    var (sport, p1) := p.Int(2);
    var (dport, p2) := p1.Int(2);
    var (seqno, p3) := p2.Int(4);
    var (ackno, p4) := p3.Int(4);
    var (offset, p5) := p4.Int(1);
    var (fl, p6) := p5.Int(1);
    var (win, p7) := p6.Int(2);
    var (cksum, p8) := p7.Int(2);
    var (uptr, p9) := p8.Int(2);
    (TCPHeader(sport, dport, seqno, ackno, offset / 16,
               Bit(fl, 0x20), Bit(fl, 0x10), Bit(fl, 0x08), Bit(fl, 0x04), Bit(fl, 0x02), Bit(fl, 0x01),
               win, cksum, uptr), p9)
  }

  /** The header, the parser behind it, and the result that the segment parser ignores. */
  function ParseHeader(p: Parser): (TCPHeader, Parser, ParseResult) {
    var (h, p9) := ParseFields(p);
    if h.doff < 5 then (h, p9, HeaderTooShort)
    else
      var q := p9.RemovePrefix(h.doff * 4 - LENGTH);
      (h, q, q.error)
  }

  lemma FlagBits(h: TCPHeader)
    ensures var fl := FlagByte(h);
            && Bit(fl, 0x20) == h.urg && Bit(fl, 0x10) == h.ack && Bit(fl, 0x08) == h.psh
            && Bit(fl, 0x04) == h.rst && Bit(fl, 0x02) == h.syn && Bit(fl, 0x01) == h.fin
  {
  }

  /** The front of a header followed by more, as a chain that is read from the left. */
  lemma FrontChain(h: TCPHeader, rest: seq<byte>)
    ensures Front(h) + rest ==
            ToBytes(2, h.sport) + (ToBytes(2, h.dport) + (ToBytes(4, h.seqno) + (ToBytes(4, h.ackno)
            + (ToBytes(1, h.doff * 16 % 0x100) + (ToBytes(1, FlagByte(h)) + (ToBytes(2, h.win) + rest))))))
  {
    hide ToBytes;
    var f6 := ToBytes(1, FlagByte(h)) + ToBytes(2, h.win);
    var f5 := ToBytes(1, h.doff * 16 % 0x100) + f6;
    var f4 := ToBytes(4, h.ackno) + f5;
    var f3 := ToBytes(4, h.seqno) + f4;
    var f2 := ToBytes(2, h.dport) + f3;
    Assoc(ToBytes(2, h.sport), f2, rest);
    Assoc(ToBytes(2, h.dport), f3, rest);
    Assoc(ToBytes(4, h.seqno), f4, rest);
    Assoc(ToBytes(4, h.ackno), f5, rest);
    Assoc(ToBytes(1, h.doff * 16 % 0x100), f6, rest);
    Assoc(ToBytes(1, FlagByte(h)), ToBytes(2, h.win), rest);
  }

  /** Reading back the fields of a serialized header. */
  lemma ParseFieldsBack(h: TCPHeader, rest: seq<byte>)
    requires h.doff <= 15
    ensures ParseFields(Parser(Front(h) + (ToBytes(2, h.cksum) + (ToBytes(2, h.uptr) + rest)), NoError))
            == (h, Parser(rest, NoError))
  {
    hide ToBytes, Power256, Front, FlagByte, Parser.Int, Bit;
    Widths();
    FlagBits(h);
    var t8 := ToBytes(2, h.uptr) + rest;
    var t7 := ToBytes(2, h.cksum) + t8;
    var t6 := ToBytes(2, h.win) + t7;
    var t5 := ToBytes(1, FlagByte(h)) + t6;
    var t4 := ToBytes(1, h.doff * 16 % 0x100) + t5;
    var t3 := ToBytes(4, h.ackno) + t4;
    var t2 := ToBytes(4, h.seqno) + t3;
    var t1 := ToBytes(2, h.dport) + t2;
    FrontChain(h, t7);
    IntOfBytes(2, h.sport, t1);
    IntOfBytes(2, h.dport, t2);
    IntOfBytes(4, h.seqno, t3);
    IntOfBytes(4, h.ackno, t4);
    IntOfBytes(1, h.doff * 16 % 0x100, t5);
    IntOfBytes(1, FlagByte(h), t6);
    IntOfBytes(2, h.win, t7);
    IntOfBytes(2, h.cksum, t8);
    IntOfBytes(2, h.uptr, rest);
  }

  /** A parsed header never claims more than 60 bytes. */
  lemma ParsedOffset(p: Parser)
    ensures ParseFields(p).0.doff <= 15
  {
  }

  /** Parsing a serialized header gives the header back and leaves what followed it. */
  lemma ParseHeaderBack(h: TCPHeader, rest: seq<byte>)
    requires 5 <= h.doff <= 15
    ensures ParseHeader(Parser(HeaderBytes(h) + rest, NoError)) == (h, Parser(rest, NoError), NoError)
  {
    hide ToBytes, Front, ParseFields;
    var pad := seq(4 * h.doff - LENGTH, i => 0);
    var ck, up := ToBytes(2, h.cksum), ToBytes(2, h.uptr);
    Assoc(Front(h) + ck, up + pad, rest);
    Assoc(Front(h), ck, up + pad + rest);
    Assoc(up, pad, rest);
    ParseFieldsBack(h, pad + rest);
    assert (pad + rest)[|pad|..] == rest;
  }

  // ---- The segment --------------------------------------------------------------

  function Check(bytes: seq<byte>, pseudo: u32): u16 {
    Checksum(pseudo, false).Add(bytes).Value()
  }

  /** The header that is sent: the segment's own with a fresh checksum. */
  function Sealed(seg: TCPSegment, pseudo: u32): TCPHeader
    requires seg.header.doff >= 5
  {
    var h := seg.header.(cksum := 0);
    h.(cksum := Check(HeaderBytes(h) + seg.payload, pseudo))
  }

  function SegmentBytes(seg: TCPSegment, pseudo: u32): seq<byte>
    requires seg.header.doff >= 5
  {
    HeaderBytes(Sealed(seg, pseudo)) + seg.payload
  }

  /** The new value of a segment that parses a buffer, and the result it reports. */
  function ParseSegment(was: TCPSegment, buffer: seq<byte>, pseudo: u32): (TCPSegment, ParseResult) {
    if Check(buffer, pseudo) != 0 then (was, BadChecksum)
    else
      var (h, p, _) := ParseHeader(Parser(buffer, NoError));
      (TCPSegment(h, p.buffer), p.error)
  }

  /** Where the checksum sits in a serialized segment. */
  lemma ChecksumField(h: TCPHeader, payload: seq<byte>)
    requires h.doff >= 5
    ensures HeaderBytes(h) + payload == Front(h) + [h.cksum / 0x100, h.cksum % 0x100] + (Back(h) + payload)
  {
    hide Front, Back, ToBytes;
    TwoBytes(h.cksum);
    Assoc(Front(h) + ToBytes(2, h.cksum), Back(h), payload);
  }

  /** The 32-bit sum of the segment and its checksum does not overflow. */
  predicate Carryable(seg: TCPSegment, pseudo: u32)
    requires seg.header.doff >= 5
  {
    Storable(pseudo, HeaderBytes(seg.header.(cksum := 0)) + seg.payload)
  }

  /** A serialized segment verifies to zero, unless the 32-bit sum overflows. */
  lemma SerializedVerifiesIff(seg: TCPSegment, pseudo: u32)
    requires seg.header.doff >= 5
    ensures Check(SegmentBytes(seg, pseudo), pseudo) == 0 <==> Carryable(seg, pseudo)
  {
    hide Checksum.Add, Checksum.Value, Storable, ToBytes;
    var h := seg.header.(cksum := 0);
    var ck := Check(HeaderBytes(h) + seg.payload, pseudo);
    var out := h.(cksum := ck);
    ChecksumField(h, seg.payload);
    ChecksumField(out, seg.payload);
    assert Front(out) == Front(h) && Back(out) == Back(h);
    StoredChecksumVerifiesIff(pseudo, Front(h), ck / 0x100, ck % 0x100, Back(h) + seg.payload);
  }

  /** It does not for anything that fits in an IPv4 datagram. */
  lemma ShortIsCarryable(seg: TCPSegment, pseudo: u32)
    requires seg.header.doff >= 5
    requires pseudo + 0xff00 * (4 * seg.header.doff + |seg.payload|) < TWO_32
    ensures Carryable(seg, pseudo)
  {
    hide Storable, ToBytes;
    var h := seg.header.(cksum := 0);
    ChecksumField(h, seg.payload);
    ShortIsStorable(pseudo, Front(h), Back(h) + seg.payload);
  }

  /** Parsing undoes serializing, checksum apart, for exactly the segments whose header length fits
      in the four bits of the data offset and whose sum does not overflow. */
  lemma SegmentRoundTripIff(was: TCPSegment, seg: TCPSegment, pseudo: u32)
    requires seg.header.doff >= 5
    ensures ParseSegment(was, SegmentBytes(seg, pseudo), pseudo)
            == (seg.(header := Sealed(seg, pseudo)), NoError)
            <==> seg.header.doff <= 15 && Carryable(seg, pseudo)
  {
    hide Check, HeaderBytes, ParseFields, Carryable;
    SerializedVerifiesIff(seg, pseudo);
    if seg.header.doff <= 15 {
      ParseHeaderBack(Sealed(seg, pseudo), seg.payload);
    } else {
      ParsedOffset(Parser(SegmentBytes(seg, pseudo), NoError));
    }
  }

  // ---- What is accepted ---------------------------------------------------------

  /** The header that stands in a buffer, byte by byte. */
  function HeaderIn(b: seq<byte>): TCPHeader
    requires |b| >= LENGTH
  {
    TCPHeader(Word(b[0], b[1]), Word(b[2], b[3]), DoubleWord(b[4], b[5], b[6], b[7]),
              DoubleWord(b[8], b[9], b[10], b[11]), b[12] / 16,
              Bit(b[13], 0x20), Bit(b[13], 0x10), Bit(b[13], 0x08),
              Bit(b[13], 0x04), Bit(b[13], 0x02), Bit(b[13], 0x01),
              Word(b[14], b[15]), Word(b[16], b[17]), Word(b[18], b[19]))
  }

  /** The fixed part of a header takes 20 bytes, and every field is read from its place. */
  lemma FieldsConsume(buffer: seq<byte>)
    requires |buffer| >= LENGTH
    ensures ParseFields(Parser(buffer, NoError)) == (HeaderIn(buffer), Parser(buffer[LENGTH..], NoError))
  {
    hide Parser.Int, Bit, BigEndian, Power256, Word, DoubleWord;
    Widths();
    var p := Parser(buffer, NoError);
    var p1 := p.Int(2).1;
    var p2 := p1.Int(2).1;
    var p3 := p2.Int(4).1;
    var p4 := p3.Int(4).1;
    var p5 := p4.Int(1).1;
    var p6 := p5.Int(1).1;
    var p7 := p6.Int(2).1;
    var p8 := p7.Int(2).1;
    IntConsumes(p, 2);
    IntConsumes(p1, 2);
    IntConsumes(p2, 4);
    IntConsumes(p3, 4);
    IntConsumes(p4, 1);
    IntConsumes(p5, 1);
    IntConsumes(p6, 2);
    IntConsumes(p7, 2);
    IntConsumes(p8, 2);
    OneWord(buffer);
    OneWord(p1.buffer);
    OneDoubleWord(p2.buffer);
    OneDoubleWord(p3.buffer);
    OneByte(p4.buffer);
    OneByte(p5.buffer);
    OneWord(p6.buffer);
    OneWord(p7.buffer);
    OneWord(p8.buffer);
  }

  /** With fewer bytes the parser reports an error; the data offset counts as zero if it is not there. */
  lemma FieldsMissing(buffer: seq<byte>)
    requires |buffer| < LENGTH
    ensures var (h, q) := ParseFields(Parser(buffer, NoError));
            q.error == PacketTooShort && h.doff == if |buffer| > 12 then buffer[12] / 16 else 0
  {
    hide Parser.Int, Bit, BigEndian, Power256;
    Widths();
    var p := Parser(buffer, NoError);
    var p1 := p.Int(2).1;
    var p2 := p1.Int(2).1;
    var p3 := p2.Int(4).1;
    var p4 := p3.Int(4).1;
    var p5 := p4.Int(1).1;
    var p6 := p5.Int(1).1;
    var p7 := p6.Int(2).1;
    var p8 := p7.Int(2).1;
    IntConsumes(p, 2);
    IntConsumes(p1, 2);
    IntConsumes(p2, 4);
    IntConsumes(p3, 4);
    IntConsumes(p4, 1);
    IntConsumes(p5, 1);
    IntConsumes(p6, 2);
    IntConsumes(p7, 2);
    IntConsumes(p8, 2);
    if |buffer| > 12 {
      OneByte(p4.buffer);
    }
  }

  /** A serialized header has every field in its place. */
  lemma HeaderLayout(h: TCPHeader, rest: seq<byte>)
    requires 5 <= h.doff <= 15
    ensures HeaderIn(HeaderBytes(h) + rest) == h
  {
    hide HeaderBytes, ParseFields, HeaderIn;
    FieldsConsume(HeaderBytes(h) + rest);
    ParseHeaderBack(h, rest);
  }

  /** Exactly when the header parser reports which fault, on the bytes of the buffer. */
  lemma HeaderResultIff(b: seq<byte>)
    ensures var r := ParseHeader(Parser(b, NoError)).2;
            && (r == HeaderTooShort <==> |b| < 13 || b[12] / 16 < 5)
            && (r == PacketTooShort <==> |b| >= 13 && b[12] / 16 >= 5 && |b| < 4 * (b[12] / 16))
            && r in {NoError, HeaderTooShort, PacketTooShort}
  {
    hide ParseFields, Bit, Word, DoubleWord;
    if |b| >= LENGTH {
      FieldsConsume(b);
    } else {
      FieldsMissing(b);
    }
  }

  /** Exactly which buffers a segment accepts. A header that calls itself shorter than 20 bytes
      is accepted, because the header's own result is not looked at. */
  lemma SegmentAcceptedIff(was: TCPSegment, buffer: seq<byte>, pseudo: u32)
    ensures ParseSegment(was, buffer, pseudo).1 == NoError
            <==> Check(buffer, pseudo) == 0 && |buffer| >= LENGTH
                 && (buffer[12] / 16 < 5 || 4 * (buffer[12] / 16) <= |buffer|)
    ensures ParseSegment(was, buffer, pseudo).1 == NoError ==>
              ParseSegment(was, buffer, pseudo).0
              == TCPSegment(HeaderIn(buffer), buffer[Max(LENGTH, 4 * (buffer[12] / 16))..])
    ensures ParseSegment(was, buffer, pseudo).1 != NoError ==>
              ParseSegment(was, buffer, pseudo).1 in {BadChecksum, PacketTooShort}
  {
    hide Check, ParseFields, Bit, Word, DoubleWord;
    if |buffer| >= LENGTH {
      FieldsConsume(buffer);
    } else {
      FieldsMissing(buffer);
    }
  }

  /** A segment whose data offset is zero: the header is refused, the segment is not. */
  lemma ShortHeaderAccepted(was: TCPSegment)
    ensures var buffer := seq(14, i => 0 as byte) + [0xff, 0xff] + seq(4, i => 0 as byte);
            && ParseSegment(was, buffer, 0).1 == NoError
            && ParseHeader(Parser(buffer, NoError)).2 == HeaderTooShort
  {
    hide Checksum.Add, Checksum.Value, ParseHeader, ParseSegment, HeaderIn, Fold;
    var a, b := seq(14, i => 0 as byte), seq(4, i => 0 as byte);
    var buffer := a + [0xff, 0xff] + b;
    FieldSum(a, 0xff, 0xff, b);
    SumOfZeros(a, false);
    SumOfZeros(b, false);
    ByteSumIsWordSum(buffer);
    VerifiesIff(0, buffer);
    HeaderResultIff(buffer);
    SegmentAcceptedIff(was, buffer, 0);
  }

  lemma {:induction false} SumOfZeros(s: seq<byte>, parity: bool)
    requires forall i :: 0 <= i < |s| ==> s[i] == 0
    ensures ByteSum(s, parity) == 0
  {
    if s != [] {
      SumOfZeros(s[1..], !parity);
    }
  }

  // ---- The steps the program takes ----------------------------------------------

  method ParseTcpHeader(p: NetParser) returns (h: TCPHeader, r: ParseResult)
    modifies p
    ensures (h, p.View(), r) == ParseHeader(old(p.View()))
  {
    hide Parser.Int, Bit;
    var sport := p.U16();
    var dport := p.U16();
    var seqno := p.U32();
    var ackno := p.U32();
    var offset := p.U8();
    var fl := p.U8();
    var win := p.U16();
    var cksum := p.U16();
    var uptr := p.U16();
    h := TCPHeader(sport, dport, seqno, ackno, offset / 16,
                   Bit(fl, 0x20), Bit(fl, 0x10), Bit(fl, 0x08), Bit(fl, 0x04), Bit(fl, 0x02), Bit(fl, 0x01),
                   win, cksum, uptr);
    if h.doff < 5 {
      return h, HeaderTooShort;
    }
    p.RemovePrefix(h.doff * 4 - LENGTH);
    r := p.error;
  }

  /** None when the header is too short to be written. */
  method SerializeTcpHeader(h: TCPHeader) returns (r: Option<seq<byte>>)
    ensures r == if h.doff < 5 then None else Some(HeaderBytes(h))
  {
    hide ToBytes;
    if h.doff < 5 {
      return None;
    }
    var s := UnparseInt([], 2, h.sport);
    s := UnparseInt(s, 2, h.dport);
    s := UnparseInt(s, 4, h.seqno);
    s := UnparseInt(s, 4, h.ackno);
    s := UnparseInt(s, 1, h.doff * 16 % 0x100);
    s := UnparseInt(s, 1, FlagByte(h));
    s := UnparseInt(s, 2, h.win);
    assert s == Front(h) by {
      FrontChain(h, []);
    }
    s := UnparseInt(s, 2, h.cksum);
    s := UnparseInt(s, 2, h.uptr);
    ghost var front := Front(h) + ToBytes(2, h.cksum);
    var pad := seq(4 * h.doff - |s|, i => 0);
    Assoc(front, ToBytes(2, h.uptr), pad);
    r := Some(s + pad);
  }

  method ParseTcpSegment(was: TCPSegment, buffer: seq<byte>, pseudo: u32) returns (seg: TCPSegment, r: ParseResult)
    ensures (seg, r) == ParseSegment(was, buffer, pseudo)
  {
    hide ParseHeader;
    var check := new InternetChecksum(pseudo);
    check.Add(buffer);
    var v := check.Value();
    if v != 0 {
      return was, BadChecksum;
    }
    var p := new NetParser(buffer);
    var h, _ := ParseTcpHeader(p);
    return TCPSegment(h, p.buffer), p.error;
  }

  method SerializeTcpSegment(seg: TCPSegment, pseudo: u32) returns (r: Option<seq<byte>>)
    ensures r == if seg.header.doff < 5 then None else Some(SegmentBytes(seg, pseudo))
  {
    hide HeaderBytes, Checksum.Add, Checksum.Value;
    var out := seg.header.(cksum := 0);
    var check := new InternetChecksum(pseudo);
    var bytes := SerializeTcpHeader(out);
    if bytes == None {
      return None;
    }
    check.Add(bytes.value);
    check.Add(seg.payload);
    AddSplit(Checksum(pseudo, false), bytes.value, seg.payload);
    var v := check.Value();
    out := out.(cksum := v);
    bytes := SerializeTcpHeader(out);
    r := Some(bytes.value + seg.payload);
  }
}
