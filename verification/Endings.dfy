/** What follows once a receiver has ended, and once it knows where its stream ends. */
module Endings {
  import opened Bytes
  import opened Segments
  import opened Senders
  import opened Receivers
  import opened Directions
  import opened Network
  import opened Laws
  import SI = SenderInvariants
  import R = Reassembly
  import RR = ReassemblyRuns

  // ---- After the end ------------------------------------------------------------

  lemma EndedIgnores(r: Receiver, g: TCPSegment)
    requires r.Valid() && r.isn.Some? && r.FinRecv()
    ensures r.SegmentReceived(g).0 == r
  {
  }

  lemma EndedIsHeard(s: Sender, r: Receiver)
    requires Follows(s, r) && r.FinRecv()
    ensures r.isn.Some? && r.Ackno() == |r.reassembler.output.history| + 2
  {
  }

  lemma SameAssembled(r: Receiver, r': Receiver, s: Sender)
    requires Follows(s, r) && Follows(s, r') && Later(r, r') && SameReceived(r, r')
    ensures r'.reassembler.output.history == r.reassembler.output.history
  {
  }

  /** No operation changes what an endpoint has delivered once its inbound stream has ended. */
  lemma EndedStays(n: Net, op: Op)
    requires Inv(n) && Enabled(n, op) && n.me.receiver.FinRecv()
    ensures Step(n, op).me.receiver.FinRecv() && Delivered(Step(n, op).me) == Delivered(n.me)
  {
    ActSound(n, op);
    hide SI.CoreInv, SI.Genuine, SI.NoStall, SI.Grows, Act, Receiver.SegmentReceived, Follows, SameReceived, LingerInv;
    EndedIsHeard(n.peer.sender, n.me.receiver);
    ReceivedBy(n.me, op);
    if op.Deliver? {
      EndedIgnores(n.me.receiver, op.seg);
    }
    SameAssembled(n.me.receiver, Act(n.me, op).receiver, n.peer.sender);
  }

  /** My stream has ended short at the peer, and I have its last acknowledgment. */
  predicate Stuck(n: Net) {
    EndedShort(n) && n.me.sender.ackno == n.peer.receiver.Ackno()
  }

  lemma GrownIsLonger(s: Sender, s': Sender, r: Receiver)
    requires Follows(s, r) && SI.Grows(s, s') && CutShort(s, r)
    ensures CutShort(s', r)
  {
  }

  /** Whichever endpoint acts, my stream stays ended short. */
  lemma StepStaysShort(n: Net, ev: Event)
    requires Inv(n) && Valid(n) && Enabled(Face(n, ev.mine), ev.op) && EndedShort(n)
    ensures EndedShort(Happen(n, ev)) && Delivered(Happen(n, ev).peer) == Delivered(n.peer)
  {
    InvSwap(n);
    if ev.mine {
      StepKeeps(n, ev.op);
      assert Follows(n.me.sender, n.peer.receiver);
      hide Inv, Act, Enabled, Follows;
      GrownIsLonger(n.me.sender, Step(n, ev.op).me.sender, n.peer.receiver);
    } else {
      hide Inv, Act, Enabled, Follows;
      EndedStays(n.Swap(), ev.op);
    }
  }

  /** Once my stream has ended short it stays so in every continuation, and nothing more of it is
      ever delivered. */
  lemma {:induction false} StaysShort(n: Net, evs: seq<Event>)
    requires Inv(n) && Valid(n) && Legal(n, evs) && EndedShort(n)
    ensures Inv(Run(n, evs)) && EndedShort(Run(n, evs)) && Delivered(Run(n, evs).peer) == Delivered(n.peer)
  {
    hide Inv, Enabled, Step, CutShort;
    if evs != [] {
      StaysShort(n, evs[..|evs| - 1]);
      var n0, ev := Run(n, evs[..|evs| - 1]), evs[|evs| - 1];
      StepStaysShort(n0, ev);
      InvSwap(n0);
      StepKeeps(Face(n0, ev.mine), ev.op);
      InvSwap(Step(Face(n0, ev.mine), ev.op));
    }
  }

  lemma AckedAtMost(n: Net)
    requires Inv(n)
    ensures n.me.sender.next - n.me.sender.inFlight <= n.me.sender.ackno <= n.peer.receiver.Ackno()
    ensures n.peer.receiver.FinRecv() ==> n.peer.receiver.Ackno() == |Delivered(n.peer)| + 2
  {
    hide SI.Tiles, SI.FlightsGenuine, SI.Genuine, SI.NoStall;
  }

  /** A stuck sender never moves on. */
  lemma StuckForever(n: Net, evs: seq<Event>)
    requires Inv(n) && Valid(n) && Legal(n, evs) && Stuck(n)
    ensures Run(n, evs).me.sender.ackno <= n.me.sender.ackno
  {
    hide Inv, Run, Legal;
    AckedAtMost(n);
    StaysShort(n, evs);
    AckedAtMost(Run(n, evs));
  }

  lemma StepStaysLost(n: Net, ev: Event, i: nat)
    requires Inv(n) && Valid(n) && Enabled(Face(n, ev.mine), ev.op) && Lost(n, i)
    ensures Inv(Happen(n, ev)) && Lost(Happen(n, ev), i)
  {
    InvLostIff(n, i);
    InvSwap(n);
    StepKeeps(Face(n, ev.mine), ev.op);
    InvSwap(Step(Face(n, ev.mine), ev.op));
    hide Inv, Enabled, Act, InFlight;
    StepStaysShort(n, ev);
    var n' := Happen(n, ev);
    AckedAtMost(n');
    InvLostIff(n', i);
  }

  /** A byte that is lost stays lost. */
  lemma {:induction false} LostForever(n: Net, evs: seq<Event>, i: nat)
    requires Inv(n) && Valid(n) && Legal(n, evs) && Lost(n, i)
    ensures Inv(Run(n, evs)) && Lost(Run(n, evs), i)
  {
    hide Inv, Enabled, Happen, Lost;
    if evs != [] {
      LostForever(n, evs[..|evs| - 1], i);
      StepStaysLost(Run(n, evs[..|evs| - 1]), evs[|evs| - 1], i);
    }
  }

  // ---- Where the stream ends ----------------------------------------------------

  /** A receiver that knows the end of the stream has room up to there. */
  predicate Limited(s: Sender, r: Receiver) {
    r.reassembler.eof ==> |s.stream.history| <= r.reassembler.Limit()
  }

  lemma PushLimited(m: R.Reassembler, data: seq<byte>, index: nat, last: bool, stream: seq<byte>)
    requires R.Inv(m) && (last ==> RR.Honest(data, index, last, stream))
    requires m.eof ==> |stream| <= m.Limit()
    ensures m.Push(data, index, last).eof ==> |stream| <= m.Push(data, index, last).Limit()
    ensures m.Push(data, index, last).Limit() == m.Limit()
  {
    hide R.Reassembler.Push, R.Inv;
    R.PushKeeps(m, data, index, last);
    RR.PushEof(m, data, index, last);
  }

  lemma ReceiveLimited(s: Sender, r: Receiver, g: TCPSegment)
    requires Follows(s, r) && SI.Counted(s) && Short(s) && SI.Genuine(s, g) && Limited(s, r)
    ensures Limited(s, r.SegmentReceived(g).0)
    ensures r.SegmentReceived(g).0.reassembler.Limit() == r.reassembler.Limit()
  {
    hide R.Reassembler.Push, RR.Consistent, R.Inv, Receiver.InWindow, Receiver.Index, Receiver.Position;
    var a: nat :| SI.SegmentAt(s, g, a);
    SegmentHonest(s, g, a);
    if g.header.syn && r.Listen() {
      SynFollows(s, r, g, a);
      var r1 := r.(isn := Some(g.header.seqno));
      PositionExact(s, r1, g, a);
      PushLimited(r.reassembler, g.payload, a - One(a > 0), g.header.fin, s.stream.history);
    } else if !g.header.syn && !r.Listen() {
      PositionExact(s, r, g, a);
      PushLimited(r.reassembler, g.payload, a - One(a > 0), g.header.fin, s.stream.history);
    }
  }

  /** The limit of a later state is not smaller. */
  lemma LimitGrows(r: Receiver, r': Receiver)
    requires Later(r, r')
    ensures r.reassembler.Limit() <= r'.reassembler.Limit()
  {
  }

  lemma SenderLimited(s: Sender, s': Sender, r: Receiver)
    requires Follows(s, r) && SI.Grows(s, s') && Limited(s, r)
    ensures Limited(s', r)
  {
  }

  ghost predicate BothLimited(n: Net) {
    Limited(n.me.sender, n.peer.receiver) && Limited(n.peer.sender, n.me.receiver)
  }

  lemma StepLimited(n: Net, op: Op)
    requires Inv(n) && Enabled(n, op) && BothLimited(n)
    ensures BothLimited(Step(n, op))
  {
    ActSound(n, op);
    hide SI.Tiles, SI.FlightsGenuine, SI.Genuine, SI.NoStall, SI.Grows, Act, Receiver.SegmentReceived, Follows, Later,
         LingerInv;
    SenderLimited(n.me.sender, Act(n.me, op).sender, n.peer.receiver);
    ReceivedBy(n.me, op);
    LimitGrows(n.me.receiver, Act(n.me, op).receiver);
    if op.Deliver? {
      ReceiveLimited(n.peer.sender, n.me.receiver, op.seg);
    }
  }

  /** In every run, a receiver that knows the end of its stream has room up to there. */
  lemma {:induction false} RunLimited(n: Net, evs: seq<Event>)
    requires Fresh(n) && Valid(n) && Legal(n, evs)
    ensures BothLimited(Run(n, evs))
  {
    hide Inv, Enabled, Step, Limited;
    if evs == [] {
      FreshLimited(n);
    } else {
      RunLimited(n, evs[..|evs| - 1]);
      RunKeeps(n, evs[..|evs| - 1]);
      var n0, ev := Run(n, evs[..|evs| - 1]), evs[|evs| - 1];
      InvSwap(n0);
      StepLimited(Face(n0, ev.mine), ev.op);
    }
  }

  lemma FreshLimited(n: Net)
    requires Fresh(n)
    ensures BothLimited(n)
  {
  }

  // ---- Mending an early end -----------------------------------------------------

  /** As long as the peer has not ended, the last byte of my stream is in flight until it has it. */
  lemma LastByteInFlight(s: Sender, r: Receiver) returns (k: nat)
    requires Follows(s, r) && SI.CoreInv(s) && s.ackno <= r.Ackno() && !r.FinRecv()
    requires !RR.EofSafe(r.reassembler, |s.stream.history|)
    ensures k < |s.outstanding| && s.outstanding[k].first <= |s.stream.history| < s.outstanding[k].End()
    ensures s.next == |s.stream.history| + 2
  {
    hide RR.Excerpt, R.Sorted, R.Span, SI.FlightsGenuine;
    k := TileAt(s.outstanding, s.next - s.inFlight, s.next, |s.stream.history|);
  }

  /** Taking the segment that holds the last byte makes a receiver safe again. */
  lemma LastByteMends(s: Sender, r: Receiver, g: TCPSegment, a: nat)
    requires Follows(s, r) && SI.CoreInv(s) && Short(s) && SI.SegmentAt(s, g, a) && Limited(s, r)
    requires !r.FinRecv() && !RR.EofSafe(r.reassembler, |s.stream.history|)
    requires 0 < a <= |s.stream.history| < a + g.LengthInSequenceSpace() && s.next == |s.stream.history| + 2
    ensures g.payload != [] && !g.header.syn
    ensures RR.EofSafe(r.SegmentReceived(g).0.reassembler, |s.stream.history|)
  {
    hide Receiver.SegmentReceived, RR.Excerpt, R.Sorted, R.Span, SI.Tiles, SI.FlightsGenuine;
    ReceiveTakes(s, r, g, a);
    assert |s.stream.history| - 1 in Range(a - 1, Min(a - 1 + |g.payload|, r.reassembler.Limit()));
  }
}
