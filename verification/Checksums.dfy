/** The Internet checksum (section 1 of RFC 1071). */
module Checksums {
  import opened Bytes

  /** What a run of bytes contributes to the sum; parity says whether the first one is the low
      half of a 16-bit word. */
  function ByteSum(data: seq<byte>, parity: bool): nat {
    if data == [] then 0 else Weighted(data[0], parity) + ByteSum(data[1..], !parity)
  }

  function Weighted(b: int, parity: bool): int {
    if parity then b else 0x100 * b
  }

  predicate Odd(n: nat) { n % 2 == 1 }

  /** The running state of a checksum. */
  datatype Checksum = Checksum(sum: u32, parity: bool) {
    function Add(data: seq<byte>): Checksum {
      Checksum((sum + ByteSum(data, parity)) % TWO_32, parity != Odd(|data|))
    }

    function Value(): u16 { 0xffff - Fold(sum) }
  }

  /** End-around carry until 16 bits are left. */
  function Fold(sum: nat): (f: u16) {
    if sum > 0xffff then Fold(sum / 0x1_0000 + sum % 0x1_0000) else sum
  }

  lemma MultipleMod(k: int)
    ensures k * 0xffff % 0xffff == 0
  {
  }

  lemma ShiftMod(k: int, x: int)
    ensures (k * 0xffff + x) % 0xffff == x % 0xffff
  {
  }

  /** Folding is reduction modulo 2^16 - 1, except that only zero folds to zero. */
  lemma {:induction false} FoldIsModular(sum: nat)
    ensures Fold(sum) % 0xffff == sum % 0xffff
    ensures Fold(sum) == 0 <==> sum == 0
    decreases sum
  {
    if sum > 0xffff {
      var hi, lo := sum / 0x1_0000, sum % 0x1_0000;
      FoldIsModular(hi + lo);
      ShiftMod(hi, hi + lo);
    }
  }

  lemma FoldFull(sum: nat)
    ensures Fold(sum) == 0xffff <==> sum > 0 && sum % 0xffff == 0
  {
    hide Fold;
    FoldIsModular(sum);
  }

  lemma {:induction false} ByteSumAppend(a: seq<byte>, b: seq<byte>, parity: bool)
    ensures ByteSum(a + b, parity) == ByteSum(a, parity) + ByteSum(b, parity != Odd(|a|))
  {
    if a == [] {
      assert a + b == b;
    } else {
      ByteSumAppend(a[1..], b, !parity);
      assert (a + b)[1..] == a[1..] + b;
    }
  }

  lemma {:induction false} ByteSumBound(data: seq<byte>, parity: bool)
    ensures ByteSum(data, parity) <= 0xff00 * |data|
  {
    if data != [] {
      ByteSumBound(data[1..], !parity);
    }
  }

  lemma AddModTwice(s: nat, a: nat, b: nat)
    ensures ((s + a) % TWO_32 + b) % TWO_32 == (s + a + b) % TWO_32
  {
  }

  /** However the data is cut into pieces, adding the pieces in turn gives the same checksum. */
  lemma AddSplit(c: Checksum, a: seq<byte>, b: seq<byte>)
    ensures c.Add(a).Add(b) == c.Add(a + b)
  {
    ByteSumAppend(a, b, c.parity);
    AddModTwice(c.sum, ByteSum(a, c.parity), ByteSum(b, c.parity != Odd(|a|)));
  }

  // ---- Words --------------------------------------------------------------------

  /** The sum of the 16-bit words of the data in network order, an odd last byte padded with zero. */
  function WordSum(data: seq<byte>): nat {
    if data == [] then 0
    else if |data| == 1 then 0x100 * data[0]
    else 0x100 * data[0] + data[1] + WordSum(data[2..])
  }

  /** Adding byte by byte with alternating weight is adding 16-bit words. */
  lemma {:induction false} ByteSumIsWordSum(data: seq<byte>)
    ensures ByteSum(data, false) == WordSum(data)
    decreases |data|
  {
    if |data| > 1 {
      ByteSumIsWordSum(data[2..]);
      assert data[1..][1..] == data[2..];
    }
  }

  /** A sum that folds to all ones. */
  predicate Balanced(sum: nat) { sum > 0 && sum % 0xffff == 0 }

  /** A buffer verifies exactly when its 32-bit sum is a positive multiple of 2^16 - 1. */
  lemma VerifiesIff(initial: u32, data: seq<byte>)
    ensures Checksum(initial, false).Add(data).Value() == 0
            <==> Balanced((initial + WordSum(data)) % TWO_32)
  {
    hide Fold, ByteSum, WordSum;
    ByteSumIsWordSum(data);
    FoldFull((initial + WordSum(data)) % TWO_32);
  }

  lemma Cancels(x: nat, f: nat)
    requires x % 0xffff == f % 0xffff && f <= 0xffff
    ensures (x + (0xffff - f)) % 0xffff == 0
  {
    var k := x / 0xffff - f / 0xffff + 1;
    assert x + (0xffff - f) == k * 0xffff;
    MultipleMod(k);
  }

  /** A sum of 2^32 or more loses its carry, which is worth one. */
  lemma LostCarry(t: nat)
    requires TWO_32 <= t < TWO_32 + 0xffff && t % 0xffff == 0
    ensures !Balanced(t % TWO_32)
  {
  }

  /** The checksum of a buffer can be added to its sum without losing a carry. */
  predicate Storable(initial: u32, data: seq<byte>) {
    var c := Checksum(initial, false).Add(data);
    c.sum + c.Value() < TWO_32
  }

  /** Storing the checksum of the data with a zero field into that field makes it verify, unless
      the 32-bit sum overflows on the way. */
  lemma StoredChecksumVerifiesIff(initial: u32, before: seq<byte>, hi: byte, lo: byte, after: seq<byte>)
    requires |before| % 2 == 0
    requires 0x100 * hi + lo == Checksum(initial, false).Add(before + [0, 0] + after).Value()
    ensures Checksum(initial, false).Add(before + [hi, lo] + after).Value() == 0
            <==> Storable(initial, before + [0, 0] + after)
  {
    hide Fold, ByteSum;
    FieldSum(before, 0, 0, after);
    FieldSum(before, hi, lo, after);
    var total := initial + ByteSum(before + [0, 0] + after, false);
    var z, ck := total % TWO_32, 0x100 * hi + lo;
    AddModTwice(total, 0, ck);
    FoldIsModular(z);
    Cancels(z, Fold(z));
    if z + ck >= TWO_32 {
      LostCarry(z + ck);
    }
    FoldFull((z + ck) % TWO_32);
  }

  /** Everything that fits in an IPv4 datagram is short enough. */
  lemma ShortIsStorable(initial: u32, before: seq<byte>, after: seq<byte>)
    requires |before| % 2 == 0 && initial + 0xff00 * (|before| + 2 + |after|) < TWO_32
    ensures Storable(initial, before + [0, 0] + after)
  {
    hide Fold, ByteSum;
    FieldSum(before, 0, 0, after);
    ByteSumBound(before, false);
    ByteSumBound(after, false);
  }

  lemma FieldSum(before: seq<byte>, hi: byte, lo: byte, after: seq<byte>)
    requires |before| % 2 == 0
    ensures ByteSum(before + [hi, lo] + after, false) ==
            ByteSum(before, false) + 0x100 * hi + lo + ByteSum(after, false)
  {
    ByteSumAppend(before + [hi, lo], after, false);
    ByteSumAppend(before, [hi, lo], false);
    assert [hi, lo][1..] == [lo] && [lo][1..] == [];
    assert ByteSum([hi, lo], false) == 0x100 * hi + ByteSum([lo], true);
  }

  /** When a buffer verifies and one of its 16-bit words is replaced, the change goes unnoticed in
      exactly one case: zero and all ones, the two forms of zero, trade places (and the sum neither
      vanishes nor overflows 32 bits). */
  lemma WordChangeUnnoticedIff(initial: u32, before: seq<byte>, hi: byte, lo: byte, hi': byte, lo': byte,
                               after: seq<byte>)
    requires |before| % 2 == 0
    requires Checksum(initial, false).Add(before + [hi, lo] + after).Value() == 0
    ensures var sum := Checksum(initial, false).Add(before + [hi, lo] + after).sum;
            Checksum(initial, false).Add(before + [hi', lo'] + after).Value() == 0
            <==> || (hi == hi' && lo == lo')
                 || (hi == lo == 0 && hi' == lo' == 0xff && sum + 0xffff < TWO_32)
                 || (hi == lo == 0xff && hi' == lo' == 0 && sum > 0xffff)
  {
    hide Fold, Checksum.Value, Balanced, RestSum;
    var rest, w, w' := RestSum(initial, before, after), 0x100 * hi + lo, 0x100 * hi' + lo';
    SumWithWord(initial, before, hi, lo, after);
    SumWithWord(initial, before, hi', lo', after);
    WordDifference(hi, lo, hi', lo');
    OtherWord(rest, w, w');
  }

  /** The sum of everything around a word. */
  function RestSum(initial: nat, before: seq<byte>, after: seq<byte>): nat {
    initial + WordSum(before) + WordSum(after)
  }

  lemma SumWithWord(initial: u32, before: seq<byte>, hi: byte, lo: byte, after: seq<byte>)
    requires |before| % 2 == 0
    ensures var c := Checksum(initial, false).Add(before + [hi, lo] + after);
            && c.sum == (RestSum(initial, before, after) + (0x100 * hi + lo)) % TWO_32
            && (c.Value() == 0 <==> Balanced(c.sum))
  {
    hide Fold, ByteSum, WordSum, Balanced;
    var data := before + [hi, lo] + after;
    VerifiesIff(initial, data);
    ByteSumIsWordSum(data);
    ByteSumIsWordSum(before);
    ByteSumIsWordSum(after);
    FieldSum(before, hi, lo, after);
  }

  lemma OtherWord(rest: nat, w: int, w': int)
    requires 0 <= w <= 0xffff && 0 <= w' <= 0xffff && Balanced((rest + w) % TWO_32)
    ensures var sum := (rest + w) % TWO_32;
            Balanced((rest + w') % TWO_32)
            <==> w' == w || (w' - w == 0xffff && sum + 0xffff < TWO_32) || (w' - w == -0xffff && sum > 0xffff)
  {
    var sum, d := (rest + w) % TWO_32, w' - w;
    ShiftSum(rest + w, d);
    SameResidue(sum, d);
    if sum + d >= TWO_32 {
      AcrossTop(sum, d);
    }
  }

  /** A multiple of 2^16 - 1 that is not zero is at least that large, so a change of one word
      cannot make it negative. */
  lemma ShiftSum(x: nat, d: int)
    requires -0xffff <= d <= 0xffff && Balanced(x % TWO_32) && x + d >= 0
    ensures x % TWO_32 + d >= 0
    ensures (x + d) % TWO_32 == if x % TWO_32 + d < TWO_32 then x % TWO_32 + d else x % TWO_32 + d - TWO_32
  {
    var k, r := x / TWO_32, x % TWO_32;
    assert x == k * TWO_32 + r;
    if r + d < TWO_32 {
      Remainder(k, r + d);
    } else {
      Remainder(k + 1, r + d - TWO_32);
    }
  }

  lemma Remainder(k: nat, r: nat)
    requires r < TWO_32
    ensures (k * TWO_32 + r) % TWO_32 == r
  {
  }

  lemma AcrossTop(sum: u32, d: int)
    requires sum % 0xffff == 0 && 0 <= d <= 0xffff && sum + d >= TWO_32
    ensures !Balanced(sum + d - TWO_32)
  {
  }

  lemma WordDifference(hi: byte, lo: byte, hi': byte, lo': byte)
    ensures var d := 0x100 * hi' + lo' - (0x100 * hi + lo);
            && -0xffff <= d <= 0xffff
            && (d == 0 <==> hi == hi' && lo == lo')
            && (d == 0xffff <==> hi == lo == 0 && hi' == lo' == 0xff)
            && (d == -0xffff <==> hi == lo == 0xff && hi' == lo' == 0)
  {
  }

  lemma SameResidue(x: nat, d: int)
    requires x % 0xffff == 0 && -0xffff <= d <= 0xffff
    ensures (x + d) % 0xffff == 0 <==> d in {-0xffff, 0, 0xffff}
  {
  }

  class InternetChecksum {
    var sum: u32
    var parity: bool

    function View(): Checksum
      reads this
    {
      Checksum(sum, parity)
    }

    constructor (initialSum: u32)
      ensures View() == Checksum(initialSum, false)
    {
      sum := initialSum;
      parity := false;
    }

    method Add(data: seq<byte>)
      modifies this
      ensures View() == old(View()).Add(data)
    {
      var i := 0;
      while i < |data|
        invariant 0 <= i <= |data|
        invariant View().Add(data[i..]) == old(View()).Add(data)
      {
        AddStep(View(), data[i..]);
        assert data[i..][1..] == data[i + 1..];
        var val: int := data[i];
        if !parity {
          val := 0x100 * val;
        }
        sum := (sum + val) % TWO_32;
        parity := !parity;
        i := i + 1;
      }
    }

    method Value() returns (v: u16)
      ensures v == View().Value()
    {
      var ret := sum;
      while ret > 0xffff
        invariant Fold(ret) == Fold(sum)
        decreases ret
      {
        ret := ret / 0x1_0000 + ret % 0x1_0000;
      }
      v := 0xffff - ret;
    }
  }

  lemma AddStep(c: Checksum, data: seq<byte>)
    requires data != []
    ensures Checksum((c.sum + Weighted(data[0], c.parity)) % TWO_32, !c.parity).Add(data[1..])
            == c.Add(data)
  {
    AddModTwice(c.sum, Weighted(data[0], c.parity), ByteSum(data[1..], !c.parity));
  }
}
