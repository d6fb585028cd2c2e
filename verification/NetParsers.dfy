/** Reading and writing integers in network byte order. */
module NetParsers {
  import opened Bytes

  datatype ParseResult =
    | NoError | BadChecksum | PacketTooShort | WrongIPVersion | HeaderTooShort | TruncatedPacket | Unsupported

  function Power256(n: nat): (p: nat)
    ensures p > 0
  {
    if n == 0 then 1 else 0x100 * Power256(n - 1)
  }

  /** The number a sequence of bytes denotes, most significant byte first. */
  function BigEndian(bytes: seq<byte>): (v: nat)
    ensures v < Power256(|bytes|)
  {
    if bytes == [] then 0
    else 0x100 * BigEndian(bytes[..|bytes| - 1]) + bytes[|bytes| - 1]
  }

  /** The len bytes of a number, most significant byte first. */
  function ToBytes(len: nat, v: nat): (bytes: seq<byte>)
    ensures |bytes| == len
  {
    if len == 0 then [] else ToBytes(len - 1, v / 0x100) + [v % 0x100]
  }

  /** Parsing undoes unparsing for every number that fits. */
  lemma {:induction false} BigEndianToBytes(len: nat, v: nat)
    requires v < Power256(len)
    ensures BigEndian(ToBytes(len, v)) == v
  {
    if len > 0 {
      BigEndianToBytes(len - 1, v / 0x100);
      assert ToBytes(len, v)[..len - 1] == ToBytes(len - 1, v / 0x100);
    }
  }

  /** Unparsing undoes parsing for every sequence of bytes. */
  lemma {:induction false} ToBytesBigEndian(bytes: seq<byte>)
    ensures ToBytes(|bytes|, BigEndian(bytes)) == bytes
  {
    if bytes != [] {
      var init := bytes[..|bytes| - 1];
      ToBytesBigEndian(init);
      assert BigEndian(bytes) / 0x100 == BigEndian(init);
      assert bytes == init + [bytes[|bytes| - 1]];
    }
  }

  /** A parser: what is left of the buffer, and the first error. */
  datatype Parser = Parser(buffer: seq<byte>, error: ParseResult) {
    function CheckSize(size: nat): Parser {
      if size > |buffer| then this.(error := PacketTooShort) else this
    }

    /** The next integer of len bytes; zero once there has been an error. */
    function Int(len: nat): (res: (nat, Parser))
      ensures res.0 < Power256(len)
    {
      var p := CheckSize(len);
      if p.error != NoError then (0, p)
      else (BigEndian(buffer[..len]), p.(buffer := buffer[len..]))
    }

    function RemovePrefix(n: nat): Parser {
      var p := CheckSize(n);
      if p.error != NoError then p else p.(buffer := buffer[n..])
    }
  }

  /** Reading back a number that was just written in front of rest. */
  lemma IntOfBytes(len: nat, v: nat, rest: seq<byte>)
    requires v < Power256(len)
    ensures Parser(ToBytes(len, v) + rest, NoError).Int(len) == (v, Parser(rest, NoError))
  {
    BigEndianToBytes(len, v);
    assert (ToBytes(len, v) + rest)[..len] == ToBytes(len, v);
    assert (ToBytes(len, v) + rest)[len..] == rest;
  }

  /** Whether the bit of a mask is set. */
  predicate Bit(v: nat, mask: nat)
    requires mask > 0
  {
    v / mask % 2 == 1
  }

  lemma IntConsumes(p: Parser, len: nat)
    ensures var (v, q) := p.Int(len);
            && (p.error == NoError && |p.buffer| >= len ==>
                  q == Parser(p.buffer[len..], NoError) && v == BigEndian(p.buffer[..len]))
            && (p.error == NoError && |p.buffer| < len ==> q.error == PacketTooShort && v == 0)
            && (p.error == PacketTooShort ==> q.error == PacketTooShort && v == 0)
  {
  }

  lemma OneByte(b: seq<byte>)
    requires b != []
    ensures BigEndian(b[..1]) == b[0]
  {
    assert BigEndian(b[..1][..0]) == 0;
  }

  /** The 16-bit number in two bytes. */
  function Word(hi: int, lo: int): int { 0x100 * hi + lo }

  lemma OneWord(b: seq<byte>)
    requires |b| >= 2
    ensures BigEndian(b[..2]) == Word(b[0], b[1])
  {
    assert b[..2][..1] == b[..1];
    OneByte(b);
  }

  /** The 32-bit number in four bytes. */
  function DoubleWord(a: int, b: int, c: int, d: int): int { 0x1_0000 * Word(a, b) + Word(c, d) }

  lemma OneDoubleWord(b: seq<byte>)
    requires |b| >= 4
    ensures BigEndian(b[..4]) == DoubleWord(b[0], b[1], b[2], b[3])
  {
    assert b[..4][..3] == b[..3] && b[..3][..2] == b[..2];
    OneWord(b);
  }

  lemma TwoBytes(v: u16)
    ensures ToBytes(2, v) == [v / 0x100, v % 0x100]
  {
    assert ToBytes(1, v / 0x100) == ToBytes(0, v / 0x100 / 0x100) + [v / 0x100 % 0x100];
  }

  lemma Assoc(a: seq<byte>, b: seq<byte>, c: seq<byte>)
    ensures (a + b) + c == a + (b + c)
  {
  }

  lemma Widths()
    ensures Power256(1) == 0x100 && Power256(2) == 0x1_0000 && Power256(4) == TWO_32
  {
  }

  class NetParser {
    var buffer: seq<byte>
    var error: ParseResult

    function View(): Parser
      reads this
    {
      Parser(buffer, error)
    }

    constructor (buffer: seq<byte>)
      ensures View() == Parser(buffer, NoError)
    {
      this.buffer := buffer;
      error := NoError;
    }

    method CheckSize(size: nat)
      modifies this
      ensures View() == old(View()).CheckSize(size)
    {
      if size > |buffer| {
        error := PacketTooShort;
      }
    }

    method ParseInt(len: nat) returns (ret: nat)
      modifies this
      ensures (ret, View()) == old(View()).Int(len)
    {
      CheckSize(len);
      if error != NoError { return 0; }
      ret := 0;
      var i := 0;
      while i < len
        invariant 0 <= i <= len
        invariant ret == BigEndian(buffer[..i])
      {
        ret := ret * 0x100 + buffer[i];
        assert buffer[..i + 1][..i] == buffer[..i];
        i := i + 1;
      }
      buffer := buffer[len..];
    }

    method U32() returns (v: u32)
      modifies this
      ensures (v, View()) == old(View()).Int(4)
    {
      Widths();
      v := ParseInt(4);
    }

    method U16() returns (v: u16)
      modifies this
      ensures (v, View()) == old(View()).Int(2)
    {
      Widths();
      v := ParseInt(2);
    }

    method U8() returns (v: byte)
      modifies this
      ensures (v, View()) == old(View()).Int(1)
    {
      Widths();
      v := ParseInt(1);
    }

    method RemovePrefix(n: nat)
      modifies this
      ensures View() == old(View()).RemovePrefix(n)
    {
      CheckSize(n);
      if error != NoError { return; }
      buffer := buffer[n..];
    }
  }

  /** The byte of v that is i places from the most significant one of len. */
  function ByteAt(len: nat, v: nat, i: nat): byte
    requires i < len
  {
    v / Power256(len - i - 1) % 0x100
  }

  lemma {:induction false} ToBytesAt(len: nat, v: nat, i: nat)
    requires i < len
    ensures ToBytes(len, v)[i] == ByteAt(len, v, i)
  {
    if i < len - 1 {
      ToBytesAt(len - 1, v / 0x100, i);
      DivDiv(v, Power256(len - i - 2));
    }
  }

  lemma DivUnique(a: nat, b: nat, q: nat)
    requires b > 0 && q * b <= a < q * b + b
    ensures a / b == q
  {
    var d := a / b;
    assert d * b <= a < d * b + b;
    NextMultiple(d, q, b);
    NextMultiple(q, d, b);
  }

  lemma {:induction false} NextMultiple(d: nat, q: nat, b: nat)
    ensures d < q ==> d * b + b <= q * b
    decreases q
  {
    if d + 1 < q {
      NextMultiple(d, q - 1, b);
      assert q * b == (q - 1) * b + b;
    } else if d + 1 == q {
      assert q * b == d * b + b;
    }
  }

  lemma DivDiv(v: nat, p: nat)
    requires p > 0
    ensures v / 0x100 / p == v / (0x100 * p)
  {
    var a := v / 0x100;
    var q := a / p;
    assert q * p <= a < q * p + p;
    var qp := q * p;
    assert 0x100 * qp <= v < 0x100 * qp + 0x100 * p;
    assert q * (0x100 * p) == 0x100 * qp;
    DivUnique(v, 0x100 * p, q);
  }

  /** Append an integer of len bytes to a string. */
  method UnparseInt(s: seq<byte>, len: nat, val: nat) returns (r: seq<byte>)
    ensures r == s + ToBytes(len, val)
  {
    r := s;
    var i := 0;
    while i < len
      invariant 0 <= i <= len
      invariant r == s + ToBytes(len, val)[..i]
    {
      ToBytesAt(len, val, i);
      r := r + [val / Power256(len - i - 1) % 0x100];
      i := i + 1;
    }
  }
}
