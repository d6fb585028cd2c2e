/** Whole runs of the reassembler fed with excerpts of one stream: what it outputs,
    when it ends, and why the order of arrival does not matter. */
module ReassemblyRuns {
  import opened Bytes
  import opened Reassembly

  /** data is what the stream holds from index on; the empty string is an excerpt anywhere. */
  ghost predicate Excerpt(data: seq<byte>, index: nat, stream: seq<byte>) {
    data == [] || (index + |data| <= |stream| && data == stream[index..index + |data|])
  }

  /** Everything the reassembler holds or has output comes from the stream. */
  ghost predicate Consistent(m: Reassembler, stream: seq<byte>) {
    && m.output.history <= stream
    && (forall k :: 0 <= k < |m.entries| ==> Excerpt(m.entries[k].data, m.entries[k].index, stream))
    && (forall i :: i in m.accepted ==> i < |stream|)
  }

  lemma ConsistentGrows(m: Reassembler, stream: seq<byte>, more: seq<byte>)
    requires Consistent(m, stream) && stream <= more
    ensures Consistent(m, more)
  {
    forall k | 0 <= k < |m.entries|
      ensures Excerpt(m.entries[k].data, m.entries[k].index, more)
    {
      ExcerptGrows(m.entries[k].data, m.entries[k].index, stream, more);
    }
  }

  lemma ExcerptGrows(data: seq<byte>, index: nat, stream: seq<byte>, more: seq<byte>)
    requires Excerpt(data, index, stream) && stream <= more
    ensures Excerpt(data, index, more)
  {
    if data != [] {
      assert more[index..index + |data|] == stream[index..index + |data|];
    }
  }

  lemma DrainOneConsistent(m: Reassembler, stream: seq<byte>)
    requires Loose(m) && Consistent(m, stream)
    requires m.entries != [] && m.entries[0].index <= m.assembled
    ensures Consistent(m.DrainOne(), stream)
  {
    DrainOneKeeps(m);
    var e := m.entries[0];
    if e.End() > m.assembled {
      var out := m.DrainOne().output.history;
      assert out == m.output.history + e.data[m.assembled - e.index..];
      assert out == stream[..e.End()];
    }
  }

  lemma {:induction false} DrainConsistent(m: Reassembler, stream: seq<byte>)
    requires Loose(m) && Consistent(m, stream)
    ensures Consistent(m.Drain(), stream)
    decreases |m.entries|
  {
    if !(m.entries == [] || m.entries[0].index > m.assembled) {
      DrainOneConsistent(m, stream);
      DrainOneKeeps(m);
      DrainConsistent(m.DrainOne(), stream);
    }
  }

  lemma StoreConsistent(m: Reassembler, kept: seq<byte>, index: nat, stream: seq<byte>)
    requires Loose(m) && Consistent(m, stream) && Excerpt(kept, index, stream)
    ensures Consistent(m.Store(kept, index), stream)
  {
    var e := Entry(kept, index);
    SortedInsert(m.entries, e);
    var es := InsertEntry(m.entries, e);
    forall k | 0 <= k < |es|
      ensures Excerpt(es[k].data, es[k].index, stream)
    {
      assert es[k] in es;
    }
  }

  lemma ClipIsExcerpt(m: Reassembler, data: seq<byte>, index: nat, stream: seq<byte>)
    requires Excerpt(data, index, stream)
    ensures Excerpt(m.Clip(data, index), index, stream)
  {
  }

  lemma StoredConsistent(m: Reassembler, kept: seq<byte>, index: nat, stream: seq<byte>)
    requires Loose(m) && Consistent(m, stream) && Excerpt(kept, index, stream) && index + |kept| <= m.Limit()
    ensures Consistent(m.Store(kept, index).Drain().CloseIfEmpty(), stream)
  {
    StoreKeeps(m, kept, index);
    StoreConsistent(m, kept, index, stream);
    DrainConsistent(m.Store(kept, index), stream);
  }

  /** Pushing an excerpt of the stream keeps everything held consistent with it. */
  lemma PushConsistent(m: Reassembler, data: seq<byte>, index: nat, last: bool, stream: seq<byte>)
    requires Inv(m) && Consistent(m, stream) && Excerpt(data, index, stream)
    ensures Consistent(m.Push(data, index, last), stream)
  {
    hide Reassembler.Store, Reassembler.Drain, Excerpt, Sorted, Span;
    if index < m.Limit() {
      ClipIsExcerpt(m, data, index, stream);
      var kept := m.Clip(data, index);
      var m1 := m.(eof := m.eof || (last && index + |data| <= m.Limit()));
      if index + |kept| > m.assembled {
        StoredConsistent(m1, kept, index, stream);
      }
    }
  }

  // ---- End of stream ------------------------------------------------------------

  /** An honest substring of the stream; the one marked last ends where the stream ends. */
  ghost predicate Honest(data: seq<byte>, index: nat, last: bool, stream: seq<byte>) {
    Excerpt(data, index, stream) && (last ==> index + |data| == |stream|)
  }

  /** The end has been announced only if the byte before it was accepted. */
  predicate EofSafe(m: Reassembler, length: nat) {
    m.eof ==> length == 0 || length - 1 in m.accepted
  }

  /** An empty last substring taken before the byte that precedes it. */
  predicate Premature(m: Reassembler, data: seq<byte>, index: nat, last: bool) {
    last && data == [] && 0 < index < m.Limit() && index - 1 !in m.accepted
  }

  /** In a safe state the reassembler counts as empty exactly when the whole stream is out. */
  lemma SafeEmptyIff(m: Reassembler, stream: seq<byte>)
    requires Inv(m) && Consistent(m, stream) && EofSafe(m, |stream|)
    ensures m.Empty() <==> m.eof && m.output.history == stream
  {
    AssembledIsLeastMissing(m);
    RangeSize(0, |stream|);
    SubsetSize(m.accepted, Range(0, |stream|));
  }

  /** Among honest pushes into a safe state, exactly the premature ones make it unsafe. */
  lemma PushSafeIff(m: Reassembler, data: seq<byte>, index: nat, last: bool, stream: seq<byte>)
    requires Inv(m) && EofSafe(m, |stream|) && Honest(data, index, last, stream)
    ensures EofSafe(m.Push(data, index, last), |stream|) <==> !Premature(m, data, index, last)
  {
    hide Inv, Reassembler.Push, SameReader;
    PushKeeps(m, data, index, last);
    PushEof(m, data, index, last);
  }

  lemma PushEof(m: Reassembler, data: seq<byte>, index: nat, last: bool)
    requires Inv(m)
    ensures m.Push(data, index, last).eof == (m.eof || (last && index < m.Limit() && index + |data| <= m.Limit()))
  {
    hide Reassembler.Drain, InsertEntry, Sorted, Span;
    if index < m.Limit() {
      var kept := m.Clip(data, index);
      var m1 := m.(eof := m.eof || (last && index + |data| <= m.Limit()));
      if index + |kept| > m.assembled {
        StoreKeeps(m1, kept, index);
        DrainKeeps(m1.Store(kept, index));
      }
    }
  }

  /** One past the largest accepted index. */
  ghost function Top(a: set<nat>): (t: nat)
    ensures forall i :: i in a ==> i < t
    ensures t > 0 ==> t - 1 in a
  {
    if a == {} then 0
    else
      var x :| x in a;
      assert forall i :: i in a ==> i == x || i in a - {x};
      Max(x + 1, Top(a - {x}))
  }

  /** Pushing everything up to the largest accepted index fills every gap below it. */
  lemma GapsFilled(m: Reassembler, stream: seq<byte>)
    requires Inv(m) && Consistent(m, stream)
    ensures Top(m.accepted) <= |stream| && Top(m.accepted) <= m.Limit()
    ensures m.accepted + Added(m, stream[..Top(m.accepted)], 0) == Range(0, Top(m.accepted))
  {
    hide Sorted, Span, Excerpt;
    var data := stream[..Top(m.accepted)];
    assert m.Clip(data, 0) == data;
  }

  /** A state without gaps in which the end has been announced has ended its output. */
  lemma EndedAt(m: Reassembler, stream: seq<byte>, top: nat)
    requires Inv(m) && Consistent(m, stream) && m.eof && m.accepted == Range(0, top) && top < |stream|
    ensures m.output.ended && m.output.history < stream
  {
    hide Sorted, Span, Excerpt;
    AssembledIsLeastMissing(m);
    RangeSize(0, top);
    assert top !in m.accepted;
    assert m.assembled == top;
  }

  /** Every unsafe state is one honest push away from an output that ended too early. */
  lemma UnsafeEndsEarly(m: Reassembler, stream: seq<byte>)
    requires Inv(m) && Consistent(m, stream) && !EofSafe(m, |stream|)
    ensures Honest(stream[..Top(m.accepted)], 0, false, stream)
    ensures var m' := m.Push(stream[..Top(m.accepted)], 0, false);
            m'.output.ended && m'.output.history < stream
  {
    assert m.Valid();
    hide Inv, Consistent, Reassembler.Push, Added, SameReader;
    var top := Top(m.accepted);
    GapsFilled(m, stream);
    var data := stream[..top];
    assert Excerpt(data, 0, stream);
    PushKeeps(m, data, 0, false);
    PushConsistent(m, data, 0, false, stream);
    PushEof(m, data, 0, false);
    EndedAt(m.Push(data, 0, false), stream, top);
  }

  // ---- Runs ---------------------------------------------------------------------

  datatype Event = Push(data: seq<byte>, index: nat, last: bool) | Read(len: nat)

  function Apply(m: Reassembler, ev: Event): (m': Reassembler)
    requires m.Valid()
    ensures m'.Valid()
  {
    match ev
    case Push(data, index, last) => m.Push(data, index, last)
    case Read(len) => m.Read(len)
  }

  function Run(m: Reassembler, evs: seq<Event>): (m': Reassembler)
    requires m.Valid()
    ensures m'.Valid()
  {
    if evs == [] then m else Apply(Run(m, evs[..|evs| - 1]), evs[|evs| - 1])
  }

  /** Event k of the run pushes index i, which is below the limit at that time. */
  ghost predicate TakenBy(capacity: nat, evs: seq<Event>, k: nat, i: nat)
    requires k < |evs|
  {
    && evs[k].Push? && evs[k].index <= i < evs[k].index + |evs[k].data|
    && i < Run(NewReassembler(capacity), evs[..k]).Limit()
  }

  ghost predicate TakenInRun(capacity: nat, evs: seq<Event>, i: nat) {
    exists k :: 0 <= k < |evs| && TakenBy(capacity, evs, k, i)
  }

  lemma TakenSplit(capacity: nat, evs: seq<Event>, i: nat)
    requires evs != []
    ensures TakenInRun(capacity, evs, i) <==>
            TakenInRun(capacity, evs[..|evs| - 1], i) || TakenBy(capacity, evs, |evs| - 1, i)
  {
    hide Run;
    var prior := evs[..|evs| - 1];
    assert forall k :: 0 <= k < |prior| ==> prior[..k] == evs[..k] && prior[k] == evs[k];
    if TakenInRun(capacity, prior, i) {
      var k :| 0 <= k < |prior| && TakenBy(capacity, prior, k, i);
      assert TakenBy(capacity, evs, k, i);
    }
    if TakenInRun(capacity, evs, i) {
      var k :| 0 <= k < |evs| && TakenBy(capacity, evs, k, i);
      if k < |prior| {
        assert TakenBy(capacity, prior, k, i);
      }
    }
  }

  /** After any mix of pushes and reads, whatever is pushed, the invariant holds, and accepted are
      exactly the indices that some push carried while they were below the limit. */
  lemma {:induction false} RunAccepts(capacity: nat, evs: seq<Event>, i: nat)
    ensures Inv(Run(NewReassembler(capacity), evs))
    ensures i in Run(NewReassembler(capacity), evs).accepted <==> TakenInRun(capacity, evs, i)
  {
    if evs != [] {
      var prior := evs[..|evs| - 1];
      RunAccepts(capacity, prior, i);
      TakenSplit(capacity, evs, i);
      var m := Run(NewReassembler(capacity), prior);
      LastStep(m, evs[|evs| - 1], i);
    }
  }

  lemma LastStep(m: Reassembler, ev: Event, i: nat)
    requires Inv(m)
    ensures Inv(Apply(m, ev))
    ensures i in Apply(m, ev).accepted <==>
            i in m.accepted || (ev.Push? && ev.index <= i < ev.index + |ev.data| && i < m.Limit())
  {
    hide Inv, Reassembler.Push;
    match ev
    case Push(data, index, last) =>
      PushKeeps(m, data, index, last);
    case Read(len) =>
      ReadKeeps(m, len);
  }

  ghost predicate AllHonest(evs: seq<Event>, stream: seq<byte>) {
    forall k :: 0 <= k < |evs| && evs[k].Push? ==> Honest(evs[k].data, evs[k].index, evs[k].last, stream)
  }

  /** After any mix of pushes and reads, whatever the order, overlap or repetition, the
      invariant holds and the output is a prefix of the stream. */
  lemma {:induction false} RunDelivers(capacity: nat, evs: seq<Event>, stream: seq<byte>)
    requires AllHonest(evs, stream)
    ensures Inv(Run(NewReassembler(capacity), evs))
    ensures Consistent(Run(NewReassembler(capacity), evs), stream)
  {
    if evs != [] {
      var prior := evs[..|evs| - 1];
      RunDelivers(capacity, prior, stream);
      var m := Run(NewReassembler(capacity), prior);
      match evs[|evs| - 1] {
        case Push(data, index, last) =>
          PushKeeps(m, data, index, last);
          PushConsistent(m, data, index, last, stream);
        case Read(len) =>
          ReadKeeps(m, len);
      }
    }
  }

  /** No push of the run was premature when it arrived. */
  ghost predicate NeverPremature(capacity: nat, evs: seq<Event>) {
    forall k :: 0 <= k < |evs| && evs[k].Push? ==>
      !Premature(Run(NewReassembler(capacity), evs[..k]), evs[k].data, evs[k].index, evs[k].last)
  }

  /** In a run without premature pushes the output has ended exactly when the last substring
      was accepted in full and the whole stream has been written out. */
  lemma {:induction false} RunEndsExactly(capacity: nat, evs: seq<Event>, stream: seq<byte>)
    requires AllHonest(evs, stream) && NeverPremature(capacity, evs)
    ensures var m := Run(NewReassembler(capacity), evs);
            && EofSafe(m, |stream|)
            && (m.output.ended <==> m.eof && m.output.history == stream)
  {
    if evs != [] {
      var prior := evs[..|evs| - 1];
      forall k | 0 <= k < |prior| && prior[k].Push?
        ensures !Premature(Run(NewReassembler(capacity), prior[..k]), prior[k].data, prior[k].index, prior[k].last)
      {
        assert evs[k].Push? && prior[..k] == evs[..k];
      }
      RunEndsExactly(capacity, prior, stream);
      RunDelivers(capacity, prior, stream);
      RunDelivers(capacity, evs, stream);
      var m := Run(NewReassembler(capacity), prior);
      match evs[|evs| - 1] {
        case Push(data, index, last) =>
          PushSafeIff(m, data, index, last, stream);
          PushEndedBy(m, data, index, last);
          PushKeeps(m, data, index, last);
          PushEof(m, data, index, last);
          SafeEmptyIff(m.Push(data, index, last), stream);
        case Read(len) =>
      }
    }
  }

  /** The output ends in a push only because the reassembler became empty. */
  lemma PushEndedBy(m: Reassembler, data: seq<byte>, index: nat, last: bool)
    requires Inv(m)
    ensures m.Push(data, index, last).output.ended ==> m.output.ended || m.Push(data, index, last).Empty()
  {
    hide Reassembler.Drain, InsertEntry, Sorted, Span;
    if index < m.Limit() {
      var kept := m.Clip(data, index);
      var m1 := m.(eof := m.eof || (last && index + |data| <= m.Limit()));
      if index + |kept| > m.assembled {
        StoreKeeps(m1, kept, index);
        DrainKeeps(m1.Store(kept, index));
      }
    }
  }

  /** Without the hypothesis the end can come early: an empty last substring on a fresh object. */
  lemma PrematureEndExample()
    ensures var stream: seq<byte> := [1, 2, 3, 4, 5];
            var evs := [Push([], 5, true)];
            && AllHonest(evs, stream)
            && Run(NewReassembler(10), evs).output.ended
            && Run(NewReassembler(10), evs).output.history == []
  {
    var m := NewReassembler(10);
    assert Run(m, [Push([], 5, true)][..0]) == m;
    PushKeeps(m, [], 5, true);
    PushEof(m, [], 5, true);
    var m' := m.Push([], 5, true);
    assert m'.accepted == {};
    AssembledIsLeastMissing(m');
  }

  // ---- Order of arrival ---------------------------------------------------------

  /** Index i is carried by some push of the run. */
  ghost predicate Carries(evs: seq<Event>, i: nat) {
    exists k :: 0 <= k < |evs| && evs[k].Push? && evs[k].index <= i < evs[k].index + |evs[k].data|
  }

  lemma CarriesSplit(evs: seq<Event>, i: nat)
    requires evs != [] && evs[|evs| - 1].Push?
    ensures Carries(evs, i) <==>
            Carries(evs[..|evs| - 1], i)
            || evs[|evs| - 1].index <= i < evs[|evs| - 1].index + |evs[|evs| - 1].data|
  {
    var prior := evs[..|evs| - 1];
    if Carries(prior, i) {
      var k :| 0 <= k < |prior| && prior[k].Push? && prior[k].index <= i < prior[k].index + |prior[k].data|;
      assert evs[k] == prior[k];
    }
    if Carries(evs, i) {
      var k :| 0 <= k < |evs| && evs[k].Push? && evs[k].index <= i < evs[k].index + |evs[k].data|;
      if k < |prior| {
        assert prior[k] == evs[k];
      }
    }
  }

  lemma {:induction false} AcceptedByRun(capacity: nat, evs: seq<Event>, i: nat)
    requires forall k :: 0 <= k < |evs| ==> evs[k].Push?
    ensures var m := Run(NewReassembler(capacity), evs);
            && Inv(m) && m.Limit() == capacity
            && (i in m.accepted <==> i < capacity && Carries(evs, i))
  {
    if evs != [] {
      var prior, ev := evs[..|evs| - 1], evs[|evs| - 1];
      AcceptedByRun(capacity, prior, i);
      var m := Run(NewReassembler(capacity), prior);
      PushKeeps(m, ev.data, ev.index, ev.last);
      assert Run(NewReassembler(capacity), evs) == m.Push(ev.data, ev.index, ev.last);
      CarriesSplit(evs, i);
    }
  }

  /** Some push of the run is marked last and fits below the limit. */
  ghost predicate Announces(evs: seq<Event>, limit: nat) {
    exists k :: 0 <= k < |evs| && AnnouncedBy(evs[k], limit)
  }

  predicate AnnouncedBy(ev: Event, limit: nat) {
    ev.Push? && ev.last && ev.index < limit && ev.index + |ev.data| <= limit
  }

  lemma AnnouncesSplit(evs: seq<Event>, limit: nat)
    requires evs != []
    ensures Announces(evs, limit) <==> Announces(evs[..|evs| - 1], limit) || AnnouncedBy(evs[|evs| - 1], limit)
  {
    var prior := evs[..|evs| - 1];
    if Announces(prior, limit) {
      var k :| 0 <= k < |prior| && AnnouncedBy(prior[k], limit);
      assert AnnouncedBy(evs[k], limit);
    }
    if Announces(evs, limit) {
      var k :| 0 <= k < |evs| && AnnouncedBy(evs[k], limit);
      if k < |prior| {
        assert AnnouncedBy(prior[k], limit);
      }
    }
  }

  lemma {:induction false} EofByRun(capacity: nat, evs: seq<Event>)
    requires forall k :: 0 <= k < |evs| ==> evs[k].Push?
    ensures Run(NewReassembler(capacity), evs).eof <==> Announces(evs, capacity)
  {
    if evs != [] {
      var prior, ev := evs[..|evs| - 1], evs[|evs| - 1];
      EofByRun(capacity, prior);
      AcceptedByRun(capacity, prior, 0);
      var m := Run(NewReassembler(capacity), prior);
      assert Run(NewReassembler(capacity), evs) == m.Push(ev.data, ev.index, ev.last);
      PushEof(m, ev.data, ev.index, ev.last);
      AnnouncesSplit(evs, capacity);
    }
  }

  lemma AnnouncesSame(xs: seq<Event>, ys: seq<Event>, limit: nat)
    requires forall k :: 0 <= k < |xs| ==> xs[k] in ys
    ensures Announces(xs, limit) ==> Announces(ys, limit)
  {
    if Announces(xs, limit) {
      var k :| 0 <= k < |xs| && AnnouncedBy(xs[k], limit);
      var j :| 0 <= j < |ys| && ys[j] == xs[k];
    }
  }

  /** Two runs that push the same substrings, in any order and any number of times each,
      produce the same output; without premature pushes it has also ended in both or in neither. */
  lemma OrderDoesNotMatter(capacity: nat, xs: seq<Event>, ys: seq<Event>, stream: seq<byte>)
    requires forall k :: 0 <= k < |xs| ==> xs[k].Push? && xs[k] in ys
    requires forall k :: 0 <= k < |ys| ==> ys[k].Push? && ys[k] in xs
    requires AllHonest(xs, stream) && AllHonest(ys, stream)
    ensures Run(NewReassembler(capacity), xs).output.history == Run(NewReassembler(capacity), ys).output.history
    ensures Run(NewReassembler(capacity), xs).UnassembledBytes() == Run(NewReassembler(capacity), ys).UnassembledBytes()
    ensures NeverPremature(capacity, xs) && NeverPremature(capacity, ys) ==>
              Run(NewReassembler(capacity), xs).output.ended == Run(NewReassembler(capacity), ys).output.ended
  {
    hide Inv, Consistent, Carries, Run, Honest, NeverPremature, Announces;
    var mx, my := Run(NewReassembler(capacity), xs), Run(NewReassembler(capacity), ys);
    RunDelivers(capacity, xs, stream);
    RunDelivers(capacity, ys, stream);
    forall i: nat
      ensures i in mx.accepted <==> i in my.accepted
    {
      AcceptedByRun(capacity, xs, i);
      AcceptedByRun(capacity, ys, i);
      CarriesSame(xs, ys, i);
      CarriesSame(ys, xs, i);
    }
    assert mx.accepted == my.accepted;
    SameAccepted(mx, my, stream);
    if NeverPremature(capacity, xs) && NeverPremature(capacity, ys) {
      RunEndsExactly(capacity, xs, stream);
      RunEndsExactly(capacity, ys, stream);
      EofByRun(capacity, xs);
      EofByRun(capacity, ys);
      AnnouncesSame(xs, ys, capacity);
      AnnouncesSame(ys, xs, capacity);
    }
  }

  lemma SameAccepted(m: Reassembler, m': Reassembler, stream: seq<byte>)
    requires Inv(m) && Inv(m') && m.accepted == m'.accepted
    requires Consistent(m, stream) && Consistent(m', stream)
    ensures m.assembled == m'.assembled && m.output.history == m'.output.history
  {
    hide Sorted, Span, Excerpt;
    AssembledIsLeastMissing(m);
    AssembledIsLeastMissing(m');
  }

  lemma CarriesSame(xs: seq<Event>, ys: seq<Event>, i: nat)
    requires forall k :: 0 <= k < |xs| ==> xs[k] in ys
    ensures Carries(xs, i) ==> Carries(ys, i)
  {
    if Carries(xs, i) {
      var k :| 0 <= k < |xs| && xs[k].Push? && xs[k].index <= i < xs[k].index + |xs[k].data|;
      var j :| 0 <= j < |ys| && ys[j] == xs[k];
    }
  }
}
