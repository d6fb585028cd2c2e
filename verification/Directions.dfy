/** One direction of a connection: a sender, and the receiver at the other end. */
module Directions {
  import opened Bytes
  import opened Reassembly
  import opened ReassemblyRuns
  import opened Segments
  import opened Senders
  import SI = SenderInvariants
  import opened Receivers
  import opened WrappingIntegers

  /** The streams of this proof are short enough for 32-bit numbers to be unambiguous. */
  predicate Short(s: Sender) {
    |s.stream.history| + 2 <= TWO_31
  }

  /** Everything the receiver holds was sent by this sender. */
  ghost predicate Follows(s: Sender, r: Receiver) {
    && Inv(r.reassembler)
    && Consistent(r.reassembler, s.stream.history)
    && (r.reassembler.output.ended <==> r.reassembler.Empty())
    && (r.isn.None? ==> r.reassembler.accepted == {} && !r.reassembler.eof && r.reassembler.assembled == 0)
    && (r.isn.Some? ==> r.isn.value == s.isn && s.syn)
    && (forall i :: i in r.reassembler.accepted ==> i < s.stream.read)
    && (r.reassembler.eof ==> s.fin)
  }

  lemma FollowsGrows(s: Sender, s': Sender, r: Receiver)
    requires Follows(s, r) && SI.Counted(s) && SI.Counted(s') && SI.Grows(s, s')
    ensures Follows(s', r)
  {
    ConsistentGrows(r.reassembler, s.stream.history, s'.stream.history);
  }

  /** The receiver never acknowledges what was not sent. */
  lemma AcknoSent(s: Sender, r: Receiver)
    requires Follows(s, r) && SI.Counted(s)
    ensures r.Ackno() <= s.next
    ensures r.reassembler.assembled <= s.stream.read
  {
    var m := r.reassembler;
    if m.assembled > 0 {
      assert m.assembled - 1 in m.accepted;
    }
  }

  lemma NextBound(s: Sender)
    requires SI.Counted(s) && Short(s)
    ensures s.next <= TWO_31
    ensures s.fin ==> s.next == |s.stream.history| + 2
  {
  }

  /** For a segment of this sender, the receiver's guess of its position is right. */
  lemma PositionExact(s: Sender, r: Receiver, g: TCPSegment, a: nat)
    requires Follows(s, r) && SI.Counted(s) && Short(s) && SI.SegmentAt(s, g, a)
    requires r.isn == Some(s.isn) && (a > 0 || r.Ackno() < TWO_31)
    ensures r.Position(g) == a && (a > 0 || g.header.syn)
    ensures r.Index(g) == a - One(a > 0)
  {
    AcknoSent(s, r);
    NextBound(s);
    UnwrapWrap(a, s.isn, r.Ackno());
  }

  /** A segment of this sender is an honest substring of its stream. */
  lemma SegmentHonest(s: Sender, g: TCPSegment, a: nat)
    requires SI.Counted(s) && SI.SegmentAt(s, g, a)
    ensures Excerpt(g.payload, a - One(a > 0), s.stream.history)
    ensures g.header.fin ==> Honest(g.payload, a - One(a > 0), true, s.stream.history)
    ensures g.payload != [] ==> a - One(a > 0) + |g.payload| <= s.stream.read
  {
  }

  lemma PushFollows(s: Sender, r: Receiver, g: TCPSegment, a: nat)
    requires Follows(s, r) && SI.Counted(s) && SI.SegmentAt(s, g, a) && r.SynRecv()
    ensures var r' := r.(reassembler := r.reassembler.Push(g.payload, a - One(a > 0), g.header.fin));
            Follows(s, r') && r.Ackno() <= r'.Ackno() && Later(r, r')
  {
    hide Reassembler.Push, Excerpt, Sorted, Span;
    var m, index := r.reassembler, a - One(a > 0);
    SegmentHonest(s, g, a);
    PushKeeps(m, g.payload, index, g.header.fin);
    PushConsistent(m, g.payload, index, g.header.fin, s.stream.history);
    PushEof(m, g.payload, index, g.header.fin);
    PushEndedBy(m, g.payload, index, g.header.fin);
  }

  /** r' is a later state of r: it has received and read at least as much. */
  ghost predicate Later(r: Receiver, r': Receiver) {
    && r.Valid() && r'.Valid()
    && (r.isn.Some? ==> r'.isn == r.isn)
    && r.Ackno() <= r'.Ackno()
    && r.reassembler.output.history <= r'.reassembler.output.history
    && r.reassembler.output.read <= r'.reassembler.output.read
    && r.reassembler.output.capacity == r'.reassembler.output.capacity
    && (r.FinRecv() ==> r'.FinRecv())
    && (r.reassembler.output.error ==> r'.reassembler.output.error)
  }

  lemma AcceptCases(r: Receiver, g: TCPSegment)
    requires r.Valid()
    ensures r.Accept(g).0 == r
            || (r.SynRecv() && r.Accept(g).0 ==
                r.(reassembler := r.reassembler.Push(g.payload, r.Index(g), g.header.fin)))
  {
  }

  lemma AcceptFollows(s: Sender, r: Receiver, g: TCPSegment, a: nat)
    requires Follows(s, r) && SI.Counted(s) && Short(s) && SI.SegmentAt(s, g, a)
    requires r.isn.Some? && (a > 0 || r.Ackno() < TWO_31)
    ensures Follows(s, r.Accept(g).0) && Later(r, r.Accept(g).0)
  {
    hide Receiver.Accept, Receiver.Index, Receiver.Position, Reassembler.Push, Consistent, SI.SegmentAt, SI.Counted;
    AcceptCases(r, g);
    if r.Accept(g).0 != r {
      PositionExact(s, r, g, a);
      PushFollows(s, r, g, a);
    }
  }

  /** The state right after a SYN has set the initial sequence number. */
  lemma SynFollows(s: Sender, r: Receiver, g: TCPSegment, a: nat)
    requires Follows(s, r) && SI.Counted(s) && SI.SegmentAt(s, g, a)
    requires g.header.syn && r.Listen()
    ensures var r' := r.(isn := Some(g.header.seqno));
            Follows(s, r') && Later(r, r') && r'.Ackno() == 1
  {
    WrapZero(s.isn);
  }

  /** Receiving a segment of the sender keeps the direction invariant. */
  lemma ReceiveFollows(s: Sender, r: Receiver, g: TCPSegment)
    requires Follows(s, r) && SI.Counted(s) && Short(s) && SI.Genuine(s, g)
    ensures Follows(s, r.SegmentReceived(g).0)
    ensures Later(r, r.SegmentReceived(g).0)
  {
    var a: nat :| SI.SegmentAt(s, g, a);
    if g.header.syn && r.Listen() {
      SynFollows(s, r, g, a);
      AcceptFollows(s, r.(isn := Some(g.header.seqno)), g, a);
    } else if !g.header.syn && !r.Listen() {
      AcceptFollows(s, r, g, a);
    }
  }

  /** From r to r' exactly the bytes of g that lie before the end of the buffer were taken, and the
      end of the stream if it lies there too; first is the index of the first byte. */
  predicate Took(r: Receiver, r': Receiver, g: TCPSegment, first: nat) {
    var m, m' := r.reassembler, r'.reassembler;
    && m'.accepted == m.accepted + Range(first, Min(first + |g.payload|, m.Limit()))
    && m'.eof == (m.eof || (g.header.fin && first < m.Limit() && first + |g.payload| <= m.Limit()))
  }

  lemma PushTook(r: Receiver, g: TCPSegment, first: nat)
    requires Inv(r.reassembler)
    ensures Took(r, r.(reassembler := r.reassembler.Push(g.payload, first, g.header.fin)), g, first)
  {
    hide Inv, Reassembler.Push, SameReader;
    PushKeeps(r.reassembler, g.payload, first, g.header.fin);
    PushEof(r.reassembler, g.payload, first, g.header.fin);
  }

  /** A segment that a receiver in the middle of the stream refuses has nothing new for it. */
  lemma RefusedIsNothing(s: Sender, r: Receiver, g: TCPSegment, a: nat)
    requires Follows(s, r) && SI.Counted(s) && SI.SegmentAt(s, g, a) && r.SynRecv() && a > 0
    requires a + |g.payload| < r.Ackno() || a >= r.Ackno() + r.WindowSize()
    ensures Took(r, r, g, a - 1)
  {
    hide Sorted, Span;
    SegmentHonest(s, g, a);
  }

  lemma SynTakes(s: Sender, r: Receiver, g: TCPSegment)
    requires Follows(s, r) && SI.Counted(s) && Short(s) && SI.SegmentAt(s, g, 0) && r.isn.None? && !r.FinRecv()
    ensures Took(r, r.SegmentReceived(g).0, g, 0) && r.SegmentReceived(g).0.isn == Some(s.isn)
  {
    hide Inv, Consistent, Reassembler.Push, Sorted, Span;
    SynFollows(s, r, g, 0);
    PositionExact(s, r.(isn := Some(g.header.seqno)), g, 0);
    WrapZero(s.isn);
    PushTook(r, g, 0);
  }

  lemma TextTakes(s: Sender, r: Receiver, g: TCPSegment, a: nat)
    requires Follows(s, r) && SI.Counted(s) && Short(s) && SI.SegmentAt(s, g, a) && r.SynRecv() && a > 0
    ensures Took(r, r.SegmentReceived(g).0, g, a - 1) && r.SegmentReceived(g).0.isn == Some(s.isn)
  {
    hide Inv, Consistent, Reassembler.Push, Took;
    PositionExact(s, r, g, a);
    if r.InWindow(g) {
      PushTook(r, g, a - 1);
    } else {
      RefusedIsNothing(s, r, g, a);
    }
  }

  lemma NothingTaken(r: Receiver, g: TCPSegment)
    requires r.Valid() && ((r.isn.None? <==> !g.header.syn) || r.FinRecv()) && (r.isn.None? ==> !r.FinRecv())
    ensures r.SegmentReceived(g).0 == r
  {
  }

  /** Of a segment at position a the receiver takes exactly the bytes that lie before the end of its
      buffer, and its end if that lies there too; but nothing of a second SYN, of anything before
      the SYN, or of anything after its stream has ended. */
  lemma ReceiveTakes(s: Sender, r: Receiver, g: TCPSegment, a: nat)
    requires Follows(s, r) && SI.Counted(s) && Short(s) && SI.SegmentAt(s, g, a)
    ensures var r' := r.SegmentReceived(g).0;
            if (r.isn.None? <==> a == 0) && !r.FinRecv() then
              Took(r, r', g, a - One(a > 0)) && r'.isn == Some(s.isn)
            else r' == r
  {
    hide Receiver.SegmentReceived, Consistent, Reassembler.Push, Sorted, Span, Took, SI.Counted;
    if (r.isn.Some? <==> a == 0) || r.FinRecv() {
      NothingTaken(r, g);
    } else if a == 0 {
      SynTakes(s, r, g);
    } else {
      TextTakes(s, r, g, a);
    }
  }

  lemma ReadFollows(s: Sender, r: Receiver, len: nat)
    requires Follows(s, r)
    ensures Follows(s, r.Read(len)) && Later(r, r.Read(len)) && r.Read(len).Ackno() == r.Ackno()
  {
    ReadKeeps(r.reassembler, len);
  }

  // ---- Acknowledgments ----------------------------------------------------------

  /** The receiver's right window edge as it is advertised. */
  function RightEdge(r: Receiver): nat
    requires r.Valid()
  {
    r.Ackno() + r.Advertised()
  }

  /** The acknowledgment in g is one the receiver has given: number k, and a window within
      its present right edge. */
  ghost predicate AckAt(s: Sender, r: Receiver, g: TCPSegment, k: nat)
    requires r.Valid()
  {
    1 <= k <= r.Ackno() && g.header.ackno == Wrap(k, s.isn) && k + g.header.win <= RightEdge(r)
  }

  ghost predicate Acks(s: Sender, r: Receiver, g: TCPSegment)
    requires r.Valid()
  {
    g.header.ack ==> exists k: nat :: AckAt(s, r, g, k)
  }

  /** The advertised right edge never retreats (section 3.7 of RFC 793). */
  lemma EdgeNeverRetreats(s: Sender, r: Receiver, s': Sender, r': Receiver)
    requires Follows(s, r) && Follows(s', r') && Later(r, r')
    ensures RightEdge(r) <= RightEdge(r')
  {
  }

  lemma AcksStay(s: Sender, s': Sender, r: Receiver, r': Receiver, g: TCPSegment)
    requires Follows(s, r) && Follows(s', r') && Later(r, r') && s'.isn == s.isn && Acks(s, r, g)
    ensures Acks(s', r', g)
  {
    if g.header.ack {
      EdgeNeverRetreats(s, r, s', r');
      var k: nat :| AckAt(s, r, g, k);
      assert AckAt(s', r', g, k);
    }
  }

  /** The sender reads a genuine acknowledgment as the number the receiver meant. */
  lemma AckExact(s: Sender, r: Receiver, g: TCPSegment, k: nat)
    requires SI.CoreInv(s) && Short(s) && Follows(s, r) && AckAt(s, r, g, k)
    ensures Unwrap(g.header.ackno, s.isn, s.ackno) == k <= s.next
  {
    AcknoSent(s, r);
    NextBound(s);
    UnwrapWrap(k, s.isn, s.ackno);
  }

  /** An acknowledgment of the peer moves the sender no further than the peer has received. */
  lemma AckWithinReceived(s: Sender, r: Receiver, g: TCPSegment)
    requires SI.Inv(s) && Short(s) && Follows(s, r) && s.ackno <= r.Ackno()
    requires g.header.ack && Acks(s, r, g)
    ensures s.AckReceived(g.header.ackno, g.header.win).ackno <= r.Ackno()
    ensures s.AcceptsAck(g.header.ackno)
  {
    hide Sender.AckReceived;
    var k: nat :| AckAt(s, r, g, k);
    AckExact(s, r, g, k);
    SI.AckReceivedKeeps(s, g.header.ackno, g.header.win);
  }
}
