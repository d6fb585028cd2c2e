/** A receiver that knows the end of its stream without the last byte can always be led to end it
    short, by nothing but segments the sender still has in flight. */
module Truncation {
  import opened Bytes
  import opened Segments
  import opened Senders
  import opened Receivers
  import opened Directions
  import opened Network
  import opened Handshake
  import opened Laws
  import opened Copies
  import opened Cuts
  import opened Endings
  import opened Recovery
  import opened Completion
  import SI = SenderInvariants
  import R = Reassembly
  import RR = ReassemblyRuns

  // ---- One direction ------------------------------------------------------------

  /** A segment before the last byte leaves an unsafe receiver unsafe. */
  lemma StaysUnsafe(s: Sender, r: Receiver, g: TCPSegment, a: nat)
    requires Follows(s, r) && SI.Counted(s) && Short(s) && SI.SegmentAt(s, g, a)
    requires !RR.EofSafe(r.reassembler, |s.stream.history|) && 0 < a && a + |g.payload| <= |s.stream.history|
    ensures !RR.EofSafe(r.SegmentReceived(g).0.reassembler, |s.stream.history|)
  {
    hide R.Reassembler.Push, RR.Consistent, SI.SegmentAt, SI.Counted, Receiver.SegmentReceived, R.Sorted, R.Span;
    ReceivePushes(s, r, g, a);
    R.PushKeeps(r.reassembler, g.payload, a - 1, g.header.fin);
    RR.PushEof(r.reassembler, g.payload, a - 1, g.header.fin);
  }

  lemma UnsafeEndIsShort(s: Sender, r: Receiver)
    requires Follows(s, r) && r.FinRecv() && !RR.EofSafe(r.reassembler, |s.stream.history|)
    ensures CutShort(s, r)
  {
  }

  /** An unsafe receiver that misses nothing before the piece with the last byte has ended. */
  lemma NoGapEnds(s: Sender, r: Receiver, f: Flight)
    requires Follows(s, r) && !RR.EofSafe(r.reassembler, |s.stream.history|) && Prefixed(f, r)
    requires Start(f) <= r.reassembler.assembled && |s.stream.history| <= Start(f) + |f.seg.payload|
    ensures r.FinRecv()
  {
    hide RR.Excerpt, R.Sorted, R.Span;
    var m := r.reassembler;
    assert m.accepted == Range(0, m.assembled) by {
      forall j | j in m.accepted
        ensures j < m.assembled
      {
        assert j != m.assembled;
      }
    }
    assert m.assembled < |s.stream.history|;
    RR.EndedAt(m, s.stream.history, m.assembled);
  }

  lemma UnsafeHasRoom(s: Sender, r: Receiver)
    requires Follows(s, r) && Limited(s, r) && !r.FinRecv() && !RR.EofSafe(r.reassembler, |s.stream.history|)
    ensures r.isn.Some? && r.SynRecv() && r.WindowSize() > 0 && r.Ackno() == r.reassembler.assembled + 1
    ensures r.reassembler.assembled < |s.stream.history|
  {
    hide R.Sorted, R.Span;
  }

  /** The piece that holds the first byte such a receiver misses is in flight, and lies before the
      one with the last byte. */
  lemma FirstMissing(s: Sender, r: Receiver, k: nat) returns (j: nat)
    requires Follows(s, r) && SI.CoreInv(s) && s.ackno <= r.Ackno()
    requires r.Ackno() == r.reassembler.assembled + 1
    requires k < |s.outstanding| && 0 < s.outstanding[k].first && r.reassembler.assembled < Start(s.outstanding[k])
    ensures j < k && s.outstanding[j].first <= r.Ackno() < s.outstanding[j].End() <= s.outstanding[k].first
  {
    hide Follows, SI.FlightsGenuine;
    var lo := s.next - s.inFlight;
    SI.TilesOrdered(s.outstanding, lo, s.next);
    j := TileAt(s.outstanding, lo, s.next, r.Ackno());
    if k < j {
      TilesApart(s.outstanding, lo, s.next, k, j);
    } else if j < k {
      TilesApart(s.outstanding, lo, s.next, j, k);
    }
  }

  /** Such a piece makes the receiver move on, without giving it the last byte. */
  lemma FillsGap(s: Sender, r: Receiver, g: TCPSegment, a: nat)
    requires Follows(s, r) && SI.Counted(s) && Short(s) && SI.SegmentAt(s, g, a)
    requires r.isn.Some? && r.SynRecv() && r.WindowSize() > 0 && !RR.EofSafe(r.reassembler, |s.stream.history|)
    requires 0 < a <= r.Ackno() < a + g.LengthInSequenceSpace() <= |s.stream.history|
    ensures g.payload != [] && r.SegmentReceived(g).0.Ackno() > r.Ackno()
    ensures !RR.EofSafe(r.SegmentReceived(g).0.reassembler, |s.stream.history|)
  {
    hide R.Inv, RR.Consistent, Receiver.Accept, RR.EofSafe, RR.Excerpt;
    NextBound(s);
    AcceptAdvances(s, r, g, a);
    StaysUnsafe(s, r, g, a);
  }

  // ---- The connections ----------------------------------------------------------

  lemma LastFlightReaches(s: Sender, f: Flight)
    requires SI.CoreInv(s) && f in s.outstanding && 0 < f.first <= |s.stream.history| < f.End()
    requires s.next == |s.stream.history| + 2
    ensures |s.stream.history| <= Start(f) + |f.seg.payload|
  {
    assert SI.SegmentAt(s, f.seg, f.first);
  }

  lemma FlightPositive(s: Sender, j: nat)
    requires SI.CoreInv(s) && Opening(s) && s.next > 1 && j < |s.outstanding|
    ensures s.outstanding[j].first > 0
  {
    SI.TilesOrdered(s.outstanding, s.next - s.inFlight, s.next);
    if j > 0 {
      TilesApart(s.outstanding, s.next - s.inFlight, s.next, 0, j);
    }
  }

  lemma GapFiller(n: Net) returns (j: nat)
    requires Able(n) && CleanCut(n) && !PeerSafe(n) && !n.peer.receiver.FinRecv()
    ensures var s, r := n.me.sender, n.peer.receiver;
            && j < |s.outstanding| && 0 < s.outstanding[j].first <= r.Ackno()
            && r.Ackno() < s.outstanding[j].End() <= |Written(n.me)|
            && r.isn.Some? && r.SynRecv() && r.WindowSize() > 0 && n.peer.sender.next > 0
  {
    var s, r := n.me.sender, n.peer.receiver;
    var k := LastFlight(n);
    assert Opening(s) && SI.CoreInv(s) && Follows(s, r) && Limited(s, r) && s.ackno <= r.Ackno();
    assert s.outstanding[k] in s.outstanding;
    assert Prefixed(s.outstanding[k], r);
    hide Able, CleanCut, SI.CoreInv, Follows, Limited, Prefixed, RR.EofSafe;
    LastFlightReaches(s, s.outstanding[k]);
    UnsafeHasRoom(s, r);
    if Start(s.outstanding[k]) <= r.reassembler.assembled {
      NoGapEnds(s, r, s.outstanding[k]);
    }
    j := FirstMissing(s, r, k);
    FlightPositive(s, j);
  }

  /** The two endpoints are in order, their streams are cut cleanly, and mine can still end short. */
  ghost predicate AtRisk(n: Net) {
    Able(n) && CleanCut(n) && CleanCut(n.Swap()) && !PeerSafe(n)
  }

  /** The network has a copy of it, which is no premature FIN. */
  lemma GapCopy(n: Net) returns (g: TCPSegment)
    requires Able(n) && CleanCut(n) && !PeerSafe(n) && !n.peer.receiver.FinRecv()
    ensures g in n.sent && !g.header.rst && g.payload != [] && n.peer.sender.next > 0
    ensures var r := n.peer.receiver.SegmentReceived(g).0;
            r.Ackno() > n.peer.receiver.Ackno() && !RR.EofSafe(r.reassembler, |Written(n.me)|)
  {
    var s, r := n.me.sender, n.peer.receiver;
    var j := GapFiller(n);
    var f := s.outstanding[j];
    assert Follows(s, r) && SI.Counted(s) && Short(s) && SI.SegmentAt(s, f.seg, f.first) && r.Valid();
    assert Copied(f.seg, n.sent);
    g :| g in n.sent && Resends(g, f.seg);
    assert !g.header.rst;
    assert SI.SegmentAt(s, g, f.first);
    hide Able, CleanCut, Follows, SI.Counted, SI.SegmentAt, Receiver.SegmentReceived, RR.EofSafe;
    FillsGap(s, r, g, f.first);
  }

  /** One event brings the peer nearer to the early end. */
  lemma OneNearer(n: Net) returns (ev: Event)
    requires AtRisk(n) && Valid(n) && !n.peer.receiver.FinRecv()
    ensures Enabled(Face(n, ev.mine), ev.op) && Careful(Face(n, ev.mine), ev.op)
    ensures AtRisk(Happen(n, ev)) && Happen(n, ev).me == n.me
    ensures Happen(n, ev).peer.receiver.Ackno() > n.peer.receiver.Ackno()
  {
    assert Inv(n);
    hide Able, CleanCut, Act, Receiver.SegmentReceived, Inv, RR.EofSafe;
    var g := GapCopy(n);
    ev := Event(false, Deliver(g));
    LeadsOne(n, ev);
    HappenCleanCut(n, ev);
    DeliverReceives(n.peer, g);
  }

  lemma AcknoLeft(n: Net)
    requires Able(n)
    ensures n.peer.receiver.Ackno() <= |Written(n.me)| + 2
  {
    hide Handshaken, BothLimited, BothKept, SI.Tiles, SI.FlightsGenuine, SI.Genuine, SI.NoStall;
    AcknoSent(n.me.sender, n.peer.receiver);
  }

  /** Gap by gap the peer is led to end my stream short. */
  lemma {:induction false} EndShort(n: Net) returns (evs: seq<Event>)
    requires AtRisk(n)
    ensures Valid(n) && Legal(n, evs) && Throughout(n, evs, Careful) && EndedShort(Run(n, evs))
    decreases |Written(n.me)| + 2 - n.peer.receiver.Ackno()
  {
    AbleSwap(n);
    AcknoLeft(n);
    if n.peer.receiver.FinRecv() {
      UnsafeEndIsShort(n.me.sender, n.peer.receiver);
      evs := [];
    } else {
      hide AtRisk, CutShort, Happen, Enabled, Careful, Throughout;
      var ev := OneNearer(n);
      var n1 := Happen(n, ev);
      assert AtRisk(n1) ==> Able(n1);
      AcknoLeft(n1);
      var rest := EndShort(n1);
      RunOne(n, ev, Enabled);
      RunOne(n, ev, Careful);
      RunAppend(n, [ev], rest, Enabled);
      RunAppend(n, [ev], rest, Careful);
      evs := [ev] + rest;
    }
  }

  lemma StepKeepsSafe(n: Net, ev: Event)
    requires Inv(n) && Valid(n) && PeerSafe(n)
    requires Enabled(Face(n, ev.mine), ev.op) && Careful(Face(n, ev.mine), ev.op)
    ensures Inv(Happen(n, ev)) && PeerSafe(Happen(n, ev))
  {
    hide Inv, Enabled, Careful, Act, RR.EofSafe;
    InvSwap(n);
    StepKeeps(Face(n, ev.mine), ev.op);
    InvSwap(Step(Face(n, ev.mine), ev.op));
    if ev.mine {
      StepPeerSafe(n, ev.op);
    } else {
      StepMineSafe(n.Swap(), ev.op);
    }
  }

  lemma {:induction false} SafeStays(n: Net, evs: seq<Event>)
    requires Inv(n) && Valid(n) && PeerSafe(n) && Legal(n, evs) && Throughout(n, evs, Careful)
    ensures Inv(Run(n, evs)) && PeerSafe(Run(n, evs))
  {
    hide Inv, Enabled, Careful, Happen, PeerSafe;
    if evs != [] {
      SafeStays(n, evs[..|evs| - 1]);
      StepKeepsSafe(Run(n, evs[..|evs| - 1]), evs[|evs| - 1]);
    }
  }

  /** Some continuation without premature FINs ends my stream short at the peer. */
  ghost predicate CanEndShort(n: Net)
    requires Valid(n)
  {
    exists more :: Legal(n, more) && Throughout(n, more, Careful) && EndedShort(Run(n, more))
  }

  lemma SafeCannot(n: Net)
    requires Inv(n) && Valid(n) && CanEndShort(n)
    ensures !PeerSafe(n)
  {
    hide Inv, Throughout, Run, RR.EofSafe;
    var more :| Legal(n, more) && Throughout(n, more, Careful) && EndedShort(Run(n, more));
    if PeerSafe(n) {
      SafeStays(n, more);
      SafeEnd(Run(n, more));
    }
  }

  /** In every run, as long as neither endpoint has been reset, some continuation that delivers no
      premature FIN any more ends my stream short, if and only if the peer knows its end without
      having its last byte. */
  lemma CanEndShortIff(n: Net, evs: seq<Event>)
    requires Fresh(n) && Valid(n) && Legal(n, evs)
    requires !Run(n, evs).me.unclear && !Run(n, evs).peer.unclear
    ensures CanEndShort(Run(n, evs)) <==> !PeerSafe(Run(n, evs))
  {
    RunAble(n, evs);
    RunCleanCut(n, evs);
    hide Run, Fresh, Throughout, CleanCut, PeerSafe, Inv, Handshaken, BothLimited, BothKept, CutShort;
    var n0 := Run(n, evs);
    if PeerSafe(n0) {
      if CanEndShort(n0) {
        SafeCannot(n0);
      }
    } else {
      var more := EndShort(n0);
    }
  }
}
