/** The stream reassembler as a value: a set of accepted indices, the pending
    substrings, and the output stream, with the invariants of every run. */
module Reassembly {
  import opened Bytes
  import opened ByteStreams

  /** A pending substring and the stream index of its first byte. */
  datatype Entry = Entry(data: seq<byte>, index: nat) {
    function End(): nat { index + |data| }
  }

  /** Insert into a list sorted by index; at an index already present the longer substring stays. */
  function InsertEntry(es: seq<Entry>, e: Entry): seq<Entry> {
    if es == [] || e.index < es[0].index then [e] + es
    else if e.index == es[0].index then
      if |e.data| > |es[0].data| then [e] + es[1..] else es
    else [es[0]] + InsertEntry(es[1..], e)
  }

  datatype Reassembler = Reassembler(
    output: Stream, assembled: nat, accepted: set<nat>, entries: seq<Entry>, eof: bool)
  {
    predicate Valid() { output.Valid() }

    /** The first index that is refused. */
    function Limit(): nat { output.capacity + output.read }

    function UnassembledBytes(): int { |accepted| - assembled }

    predicate Empty() { |accepted| == assembled && eof }

    /** The part of a substring at index that is not cut off. */
    function Clip(data: seq<byte>, index: nat): seq<byte> {
      if index + |data| <= Limit() then data
      else if index <= Limit() then data[..Limit() - index]
      else []
    }

    function CloseIfEmpty(): (m: Reassembler)
      requires Valid()
      ensures m.Valid()
    {
      if Empty() then this.(output := output.EndInput()) else this
    }

    /** Move every pending substring that starts within the assembled prefix to the output. */
    function Drain(): (m: Reassembler)
      requires Valid()
      ensures m.Valid()
      decreases |entries|
    {
      if entries == [] || entries[0].index > assembled then this
      else DrainOne().Drain()
    }

    function DrainOne(): (m: Reassembler)
      requires Valid() && entries != [] && entries[0].index <= assembled
      ensures m.Valid() && m.entries == entries[1..]
    {
      var e := entries[0];
      if e.End() > assembled then
        this.(output := output.Write(e.data[assembled - e.index..]), assembled := e.End(), entries := entries[1..])
      else
        this.(entries := entries[1..])
    }

    function Push(data: seq<byte>, index: nat, last: bool): (m: Reassembler)
      requires Valid()
      ensures m.Valid()
    {
      if index >= Limit() then this
      else
        var kept := Clip(data, index);
        var m := this.(eof := eof || (last && index + |data| <= Limit()));
        if index + |kept| <= assembled then m.CloseIfEmpty()
        else m.Store(kept, index).Drain().CloseIfEmpty()
    }

    function Store(kept: seq<byte>, index: nat): (m: Reassembler)
      requires Valid()
      ensures m.Valid()
    {
      this.(accepted := accepted + Range(index, index + |kept|),
            entries := InsertEntry(entries, Entry(kept, index)))
    }

    /** The application reads from the output stream. */
    function Read(len: nat): (m: Reassembler)
      requires Valid()
      ensures m.Valid()
    {
      this.(output := output.Pop(len))
    }
  }

  function NewReassembler(capacity: nat): Reassembler {
    Reassembler(NewStream(capacity), 0, {}, [], false)
  }

  // ---- Representation invariant -------------------------------------------------

  /** All indices held by some pending substring. */
  function Span(es: seq<Entry>): set<nat> {
    if es == [] then {} else Range(es[0].index, es[0].End()) + Span(es[1..])
  }

  ghost predicate Sorted(es: seq<Entry>) {
    forall i, j :: 0 <= i < j < |es| ==> es[i].index < es[j].index
  }

  /** Holds between any two iterations of the assembly loop. */
  ghost predicate Loose(m: Reassembler) {
    && m.Valid()
    && m.assembled == |m.output.history|
    && Sorted(m.entries)
    && m.accepted == Range(0, m.assembled) + Span(m.entries)
    && (forall i :: i in m.accepted ==> i < m.Limit())
  }

  /** Holds between any two operations: the assembled prefix is maximal. */
  ghost predicate Inv(m: Reassembler) {
    && Loose(m)
    && m.assembled !in m.accepted
    && (m.entries != [] ==> m.assembled < m.entries[0].index)
    && (m.Empty() ==> m.output.ended)
  }

  lemma {:induction false} SpanOfInsert(es: seq<Entry>, e: Entry)
    ensures Span(InsertEntry(es, e)) == Span(es) + Range(e.index, e.End())
  {
    if es == [] || e.index < es[0].index {
      assert ([e] + es)[1..] == es;
    } else if e.index == es[0].index {
      assert ([e] + es[1..])[1..] == es[1..];
    } else {
      SpanOfInsert(es[1..], e);
      assert ([es[0]] + InsertEntry(es[1..], e))[1..] == InsertEntry(es[1..], e);
    }
  }

  lemma {:induction false} SortedInsert(es: seq<Entry>, e: Entry)
    requires Sorted(es)
    ensures Sorted(InsertEntry(es, e))
    ensures forall x :: x in InsertEntry(es, e) ==> x == e || x in es
    ensures InsertEntry(es, e) != []
  {
    if es != [] && e.index > es[0].index {
      SortedInsert(es[1..], e);
      var t := InsertEntry(es[1..], e);
      forall j | 0 <= j < |t|
        ensures es[0].index < t[j].index
      {
        assert t[j] in t;
      }
      forall i, j | 0 <= i < j < |[es[0]] + t|
        ensures ([es[0]] + t)[i].index < ([es[0]] + t)[j].index
      {
        if i > 0 {
          assert t[i - 1].index < t[j - 1].index;
        }
      }
    }
  }

  lemma {:induction false} SpanAbove(es: seq<Entry>, lo: nat)
    requires Sorted(es) && (es != [] ==> lo < es[0].index)
    ensures forall i :: i in Span(es) ==> lo < i
  {
    if es != [] {
      SpanAbove(es[1..], lo);
    }
  }

  lemma DrainOneKeeps(m: Reassembler)
    requires Loose(m) && m.entries != [] && m.entries[0].index <= m.assembled
    ensures Loose(m.DrainOne())
    ensures m.DrainOne().accepted == m.accepted && m.DrainOne().Limit() == m.Limit()
    ensures m.output.history <= m.DrainOne().output.history
    // The write into the output stream is never truncated.
    ensures m.entries[0].End() > m.assembled ==>
              m.output.Accepts(m.entries[0].data[m.assembled - m.entries[0].index..])
              == m.entries[0].data[m.assembled - m.entries[0].index..]
  {
    var e := m.entries[0];
    if e.End() > m.assembled {
      assert e.End() - 1 in Range(e.index, e.End());
      assert e.End() - 1 in m.accepted;
      assert e.End() <= m.Limit();
      assert m.output.RemainingCapacity() == m.Limit() - m.assembled;
    }
    var m' := m.DrainOne();
    assert m'.accepted == Range(0, m'.assembled) + Span(m'.entries);
  }

  lemma {:induction false} DrainKeeps(m: Reassembler)
    requires Loose(m)
    ensures Loose(m.Drain())
    ensures m.Drain().accepted == m.accepted && m.Drain().eof == m.eof
    ensures m.Drain().output == m.output.(history := m.Drain().output.history)
    ensures m.output.history <= m.Drain().output.history
    ensures m.Drain().entries != [] ==> m.Drain().assembled < m.Drain().entries[0].index
    ensures m.Drain().assembled !in m.accepted
    decreases |m.entries|
  {
    if m.entries == [] || m.entries[0].index > m.assembled {
      SpanAbove(m.entries, m.assembled);
    } else {
      DrainOneKeeps(m);
      DrainKeeps(m.DrainOne());
    }
  }

  lemma StoreKeeps(m: Reassembler, kept: seq<byte>, index: nat)
    requires Loose(m) && index + |kept| <= m.Limit()
    ensures Loose(m.Store(kept, index))
  {
    SpanOfInsert(m.entries, Entry(kept, index));
    SortedInsert(m.entries, Entry(kept, index));
  }

  /** What a push adds to the accepted set. */
  function Added(m: Reassembler, data: seq<byte>, index: nat): set<nat> {
    if index >= m.Limit() then {} else Range(index, index + |m.Clip(data, index)|)
  }

  /** The reader's side of the output stream is untouched. */
  predicate SameReader(m: Reassembler, m': Reassembler) {
    && m'.output.capacity == m.output.capacity && m'.output.read == m.output.read
    && m'.output.error == m.output.error && (m.output.ended ==> m'.output.ended)
  }

  lemma SettleKeeps(m: Reassembler)
    requires Loose(m)
    ensures Inv(m.Drain().CloseIfEmpty())
    ensures m.Drain().CloseIfEmpty().accepted == m.accepted
    ensures m.output.history <= m.Drain().CloseIfEmpty().output.history
    ensures SameReader(m, m.Drain().CloseIfEmpty())
  {
    DrainKeeps(m);
  }

  lemma CloseKeeps(m: Reassembler, last: bool)
    requires Inv(m)
    ensures Inv(m.(eof := last).CloseIfEmpty())
  {
  }

  /** Every push keeps the invariant, and accepts exactly its indices below the limit. */
  lemma PushKeeps(m: Reassembler, data: seq<byte>, index: nat, last: bool)
    requires Inv(m)
    ensures Inv(m.Push(data, index, last))
    ensures m.Push(data, index, last).accepted == m.accepted + Added(m, data, index)
    ensures m.output.history <= m.Push(data, index, last).output.history
    ensures SameReader(m, m.Push(data, index, last))
  {
    if index < m.Limit() {
      var kept := m.Clip(data, index);
      var m1 := m.(eof := m.eof || (last && index + |data| <= m.Limit()));
      if index + |kept| > m.assembled {
        StoreKeeps(m1, kept, index);
        SettleKeeps(m1.Store(kept, index));
      } else {
        CloseKeeps(m, m1.eof);
        assert m.accepted + Added(m, data, index) == m.accepted;
      }
    }
  }

  lemma ReadKeeps(m: Reassembler, len: nat)
    requires Inv(m)
    ensures Inv(m.Read(len))
  {
  }

  /** What the invariant means: the assembled prefix ends at the least index not accepted,
      and pending plus buffered bytes fit the capacity. */
  lemma AssembledIsLeastMissing(m: Reassembler)
    requires Inv(m)
    ensures m.assembled !in m.accepted
    ensures forall i: nat :: i !in m.accepted ==> m.assembled <= i
    ensures 0 <= m.UnassembledBytes()
    ensures m.UnassembledBytes() == |m.accepted - Range(0, m.assembled)|
    ensures m.UnassembledBytes() + m.output.Buffered() <= m.output.capacity
    ensures m.UnassembledBytes() == 0 <==> m.accepted == Range(0, m.assembled)
  {
    RangeSize(0, m.assembled);
    RangeSize(0, m.Limit());
    SubsetSize(Range(0, m.assembled), m.accepted);
    SubsetSize(m.accepted, Range(0, m.Limit()));
    SizeOfRest(m.accepted, Range(0, m.assembled));
  }

  lemma SizeOfRest(a: set<nat>, b: set<nat>)
    requires b <= a
    ensures |a - b| == |a| - |b|
  {
    assert a == b + (a - b);
  }
}
