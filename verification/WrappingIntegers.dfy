/** 32-bit sequence numbers and their absolute 64-bit counterparts. */
module WrappingIntegers {
  import opened Bytes

  /** Subtraction of two wrapping integers: how many steps lead from b up to a. */
  function Offset(a: u32, b: u32): u32 {
    (a - b) % TWO_32
  }

  function Wrap(n: nat, isn: u32): u32 {
    (isn + n % TWO_32) % TWO_32
  }

  function Unwrap(n: u32, isn: u32, checkpoint: nat): nat {
    var here: u32 := checkpoint % TWO_32;
    var index := Offset(n, isn);
    if index == here then
      checkpoint
    else if Offset(here, index) < Offset(index, here) && checkpoint >= Offset(here, index) then
      checkpoint - Offset(here, index)
    else
      (checkpoint + Offset(index, here)) % TWO_64
  }

  /** v is a 64-bit position whose low 32 bits, counted from isn, are n. */
  ghost predicate WrapsTo(v: int, n: u32, isn: u32) {
    0 <= v < TWO_64 && Wrap(v, isn) == n
  }

  ghost function Distance(a: int, b: int): nat {
    if a < b then b - a else a - b
  }

  /** v is at least as close to the checkpoint as every other position that wraps to n; ties go up. */
  ghost predicate Nearest(v: int, n: u32, isn: u32, checkpoint: nat) {
    && WrapsTo(v, n, isn)
    && forall w: int :: WrapsTo(w, n, isn) ==>
         Distance(v, checkpoint) < Distance(w, checkpoint)
         || (Distance(v, checkpoint) == Distance(w, checkpoint) && w <= v)
  }

  lemma OffsetIs(a: u32, b: u32)
    ensures Offset(a, b) == if a >= b then a - b else a - b + TWO_32
  {
  }

  /** Wrapping and then measuring from the initial number keeps the low 32 bits. */
  lemma WrapOffset(v: nat, isn: u32)
    ensures Offset(Wrap(v, isn), isn) == v % TWO_32
  {
    OffsetIs(Wrap(v, isn), isn);
  }

  lemma WrapZero(isn: u32)
    ensures Wrap(0, isn) == isn
  {
  }

  lemma WrapsToIff(v: int, n: u32, isn: u32)
    requires 0 <= v < TWO_64
    ensures WrapsTo(v, n, isn) <==> v % TWO_32 == Offset(n, isn)
  {
    WrapOffset(v, isn);
    OffsetIs(n, isn);
    OffsetIs(Wrap(v, isn), isn);
  }

  lemma ModShift(x: int, k: int)
    ensures (x + k * TWO_32) % TWO_32 == x % TWO_32
  {
  }

  /** The low 32 bits of a position reached from c by d steps, wherever the 64-bit sum ends up. */
  lemma StepMod(c: nat, d: int)
    requires 0 <= c + d && -TWO_32 < d < TWO_32
    ensures (c + d) % TWO_32 == (c % TWO_32 + d) % TWO_32
    ensures ((c + d) % TWO_64) % TWO_32 == (c + d) % TWO_32
  {
    assert c == c / TWO_32 * TWO_32 + c % TWO_32;
    ModShift(c % TWO_32 + d, c / TWO_32);
    var k := (c + d) / TWO_64;
    assert (c + d) % TWO_64 == c + d - k * TWO_64;
    ModShift(c + d, -k * TWO_32);
  }

  lemma StepUp(c: nat, index: u32)
    ensures ((c + Offset(index, c % TWO_32)) % TWO_64) % TWO_32 == index
    ensures (c + Offset(index, c % TWO_32)) % TWO_32 == index
  {
    OffsetIs(index, c % TWO_32);
    StepMod(c, Offset(index, c % TWO_32));
  }

  lemma StepDown(c: nat, index: u32)
    requires c >= Offset(c % TWO_32, index)
    ensures (c - Offset(c % TWO_32, index)) % TWO_32 == index
  {
    var down: int := Offset(c % TWO_32, index);
    OffsetIs(c % TWO_32, index);
    StepMod(c, -down);
  }

  /** The result always names the right 32-bit number, even when the 64-bit sum wraps around. */
  lemma UnwrapWraps(n: u32, isn: u32, checkpoint: nat)
    requires checkpoint < TWO_64
    ensures WrapsTo(Unwrap(n, isn, checkpoint), n, isn)
  {
    var here: u32 := checkpoint % TWO_32;
    var index := Offset(n, isn);
    if index != here {
      if Offset(here, index) < Offset(index, here) && checkpoint >= Offset(here, index) {
        StepDown(checkpoint, index);
      } else {
        StepUp(checkpoint, index);
      }
    }
    WrapsToIff(Unwrap(n, isn, checkpoint), n, isn);
  }

  /** Two positions that wrap to the same number are equal or at least 2^32 apart. */
  lemma WrapsToApart(v: int, w: int, n: u32, isn: u32)
    requires WrapsTo(v, n, isn) && WrapsTo(w, n, isn)
    ensures v == w || v + TWO_32 <= w || w + TWO_32 <= v
  {
    WrapsToIff(v, n, isn);
    WrapsToIff(w, n, isn);
    assert v % TWO_32 == w % TWO_32;
  }

  /** The guard under which the 64-bit addition in Unwrap cannot wrap around. */
  predicate NoOverflow(n: u32, isn: u32, checkpoint: nat) {
    var up := Offset(Offset(n, isn), checkpoint % TWO_32);
    checkpoint + up < TWO_64 || TWO_31 < up
  }

  lemma UnwrapIsNearest(n: u32, isn: u32, checkpoint: nat)
    requires checkpoint < TWO_64 && NoOverflow(n, isn, checkpoint)
    ensures Nearest(Unwrap(n, isn, checkpoint), n, isn, checkpoint)
  {
    var v := Unwrap(n, isn, checkpoint);
    var here: u32 := checkpoint % TWO_32;
    OffsetIs(here, Offset(n, isn));
    OffsetIs(Offset(n, isn), here);
    UnwrapWraps(n, isn, checkpoint);
    forall w: int | WrapsTo(w, n, isn)
      ensures Distance(v, checkpoint) < Distance(w, checkpoint)
              || (Distance(v, checkpoint) == Distance(w, checkpoint) && w <= v)
    {
      WrapsToApart(v, w, n, isn);
    }
  }

  /** When the addition does wrap around, the position one lap below is strictly closer. */
  lemma UnwrapOverflows(n: u32, isn: u32, checkpoint: nat)
    requires checkpoint < TWO_64 && !NoOverflow(n, isn, checkpoint)
    ensures !Nearest(Unwrap(n, isn, checkpoint), n, isn, checkpoint)
  {
    var here: u32 := checkpoint % TWO_32;
    var index := Offset(n, isn);
    OffsetIs(here, index);
    OffsetIs(index, here);
    StepDown(checkpoint, index);
    var w := checkpoint - Offset(here, index);
    WrapsToIff(w, n, isn);
    assert WrapsTo(w, n, isn);
    assert Distance(w, checkpoint) < Distance(Unwrap(n, isn, checkpoint), checkpoint);
  }

  /** Unwrap picks the nearest position exactly when its addition stays within 64 bits. */
  lemma UnwrapNearestIff(n: u32, isn: u32, checkpoint: nat)
    requires checkpoint < TWO_64
    ensures Nearest(Unwrap(n, isn, checkpoint), n, isn, checkpoint) <==> NoOverflow(n, isn, checkpoint)
  {
    if NoOverflow(n, isn, checkpoint) {
      UnwrapIsNearest(n, isn, checkpoint);
    } else {
      UnwrapOverflows(n, isn, checkpoint);
    }
  }

  lemma OffsetOfStep(c: nat, d: nat)
    requires d < TWO_32
    ensures Offset((c + d) % TWO_32, c % TWO_32) == d
  {
    StepMod(c, d);
    OffsetIs((c + d) % TWO_32, c % TWO_32);
  }

  /** Unwrap undoes Wrap for every position within 2^31 of the checkpoint. */
  lemma UnwrapWrap(v: nat, isn: u32, checkpoint: nat)
    requires v < TWO_64
    requires checkpoint - TWO_31 < v <= checkpoint + TWO_31
    ensures Unwrap(Wrap(v, isn), isn, checkpoint) == v
  {
    WrapOffset(v, isn);
    var index: u32, here: u32 := v % TWO_32, checkpoint % TWO_32;
    OffsetIs(index, here);
    OffsetIs(here, index);
    if checkpoint <= v {
      OffsetOfStep(checkpoint, v - checkpoint);
    } else {
      OffsetOfStep(v, checkpoint - v);
    }
  }
}
