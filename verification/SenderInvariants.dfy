/** What holds of the TCP sender in every reachable state. */
module SenderInvariants {
  import opened Bytes
  import opened Segments
  import opened WrappingIntegers
  import opened Senders
  import opened ReassemblyRuns

  /** Segment g is exactly what this sender has placed at absolute sequence number a. */
  ghost predicate SegmentAt(s: Sender, g: TCPSegment, a: nat) {
    && g.header.seqno == Wrap(a, s.isn)
    && (g.header.syn <==> a == 0)
    && Excerpt(g.payload, a - One(a > 0), s.stream.history)
    && |g.payload| <= MAX_PAYLOAD_SIZE && g.header.doff == DEFAULT_HEADER.doff
    && a + g.LengthInSequenceSpace() <= s.next
    && (g.header.fin ==> s.fin && a + g.LengthInSequenceSpace() == s.next)
  }

  /** As the sender made it: neither an acknowledgment nor a reset yet. */
  predicate Unstamped(g: TCPSegment) {
    !g.header.ack && !g.header.rst
  }

  ghost predicate Genuine(s: Sender, g: TCPSegment) {
    exists a: nat :: SegmentAt(s, g, a)
  }

  /** The flights are non-empty and lie end to end from lo to hi. */
  ghost predicate Tiles(fs: seq<Flight>, lo: int, hi: nat) {
    if fs == [] then lo == hi
    else fs[0].first == lo && fs[0].first < fs[0].End() && Tiles(fs[1..], fs[0].End(), hi)
  }

  ghost predicate FlightsGenuine(s: Sender) {
    forall k :: 0 <= k < |s.outstanding| ==>
      SegmentAt(s, s.outstanding[k].seg, s.outstanding[k].first) && Unstamped(s.outstanding[k].seg)
  }

  /** The counters agree with the stream and the flags. */
  ghost predicate Counted(s: Sender) {
    && s.Valid()
    && s.next == One(s.syn) + s.stream.read + One(s.fin)
    && (s.syn <==> s.next > 0)
    && (s.fin ==> s.syn && s.stream.Eof())
    && (s.consecutive > 0 ==> s.syn)
  }

  /** Holds also between the update of the ackno and the removal of acknowledged flights. */
  ghost predicate LooseInv(s: Sender) {
    && Counted(s)
    && 0 <= s.inFlight <= s.next
    && Tiles(s.outstanding, s.next - s.inFlight, s.next)
    && FlightsGenuine(s)
    && s.next - s.inFlight <= s.ackno <= s.next
  }

  ghost predicate CoreInv(s: Sender) {
    && LooseInv(s)
    && (s.outstanding != [] ==> s.ackno < s.outstanding[0].End())
  }

  /** The retransmission timer runs exactly while segments are in flight. */
  predicate Armed(s: Sender) {
    s.timer.stopped <==> s.outstanding == []
  }

  ghost predicate Inv(s: Sender) {
    CoreInv(s) && Armed(s)
  }

  lemma CoreValid(s: Sender)
    requires CoreInv(s)
    ensures s.Valid()
  {
  }

  /** If the SYN is out and a byte or the FIN is still unsent, something is in flight. */
  ghost predicate NoStall(s: Sender) {
    s.next > 0 && (!s.stream.BufferEmpty() || (s.stream.ended && !s.fin)) ==> s.outstanding != []
  }

  /** s' is a later state of s: what was sent stays sent. */
  ghost predicate Grows(s: Sender, s': Sender) {
    && s'.isn == s.isn
    && s.stream.history <= s'.stream.history
    && s.stream.read <= s'.stream.read
    && s.next <= s'.next
    && s.ackno <= s'.ackno
    && s.next - s.inFlight <= s'.next - s'.inFlight
    && (s.stream.error ==> s'.stream.error)
    && (s.stream.ended ==> s'.stream.ended)
    && (s.stream.Eof() ==> s'.stream.Eof())
    && (s.fin ==> s'.fin && s'.next == s.next && s'.stream.history == s.stream.history)
  }

  /** Every segment queued since s is genuine and not yet stamped with an acknowledgment. */
  ghost predicate QueuesGenuine(s: Sender, s': Sender) {
    && s.queue <= s'.queue
    && forall k :: |s.queue| <= k < |s'.queue| ==> Genuine(s', s'.queue[k]) && Unstamped(s'.queue[k])
  }

  lemma SegmentStays(s: Sender, s': Sender, g: TCPSegment, a: nat)
    requires SegmentAt(s, g, a) && Grows(s, s')
    ensures SegmentAt(s', g, a)
  {
    ExcerptGrows(g.payload, a - One(a > 0), s.stream.history, s'.stream.history);
  }

  lemma GenuineStays(s: Sender, s': Sender, g: TCPSegment)
    requires Genuine(s, g) && Grows(s, s')
    ensures Genuine(s', g)
  {
    var a: nat :| SegmentAt(s, g, a);
    SegmentStays(s, s', g, a);
  }

  /** s' follows from s by steps that keep what was sent and queue only genuine segments. */
  ghost predicate Progress(s: Sender, s': Sender) {
    Grows(s, s') && QueuesGenuine(s, s')
  }

  lemma Chain(s: Sender, s1: Sender, s2: Sender)
    requires Progress(s, s1) && Progress(s1, s2)
    ensures Progress(s, s2)
  {
    forall k | |s.queue| <= k < |s2.queue|
      ensures Genuine(s2, s2.queue[k]) && Unstamped(s2.queue[k])
    {
      if k < |s1.queue| {
        GenuineStays(s1, s2, s1.queue[k]);
      }
    }
  }

  // ---- The tiling ---------------------------------------------------------------

  lemma {:induction false} TilesOrdered(fs: seq<Flight>, lo: int, hi: nat)
    requires Tiles(fs, lo, hi)
    ensures lo <= hi && (fs != [] ==> lo < hi)
    ensures forall k :: 0 <= k < |fs| ==> lo <= fs[k].first < fs[k].End() <= hi
  {
    if fs != [] {
      TilesOrdered(fs[1..], fs[0].End(), hi);
      forall k | 0 <= k < |fs|
        ensures lo <= fs[k].first < fs[k].End() <= hi
      {
        if k > 0 {
          assert fs[k] == fs[1..][k - 1];
        }
      }
    }
  }

  lemma {:induction false} TilesAppend(fs: seq<Flight>, lo: int, hi: nat, f: Flight)
    requires Tiles(fs, lo, hi) && f.first == hi && f.first < f.End()
    ensures InsertFlight(fs, f) == fs + [f]
    ensures Tiles(fs + [f], lo, f.End())
  {
    if fs == [] {
      assert [f][1..] == [];
    } else {
      TilesOrdered(fs, lo, hi);
      TilesAppend(fs[1..], fs[0].End(), hi, f);
      assert (fs + [f])[1..] == fs[1..] + [f];
    }
  }

  // ---- fill_window --------------------------------------------------------------

  lemma EmitCounts(s: Sender, room: nat)
    requires Counted(s) && room > 0 && s.CanSend() && 0 <= s.inFlight <= s.next
    ensures s.NextFlight(room).first == s.next
    ensures Counted(s.Emit(room))
    ensures Grows(s, s.Emit(room))
    ensures SegmentAt(s.Emit(room), s.NextFlight(room).seg, s.next)
  {
    hide SegmentAt, Grows;
    s.EmitUsesRoom(room);
    EmitGrows(s, room);
    EmitPlaces(s, room);
  }

  lemma EmitGrows(s: Sender, room: nat)
    requires Counted(s) && room > 0 && s.CanSend() && 0 <= s.inFlight <= s.next
    ensures Grows(s, s.Emit(room))
  {
    s.EmitUsesRoom(room);
  }

  lemma EmitPlaces(s: Sender, room: nat)
    requires Counted(s) && room > 0 && s.CanSend() && 0 <= s.inFlight <= s.next
    ensures SegmentAt(s.Emit(room), s.NextFlight(room).seg, s.next)
  {
    s.EmitUsesRoom(room);
  }

  lemma EmitKeeps(s: Sender, room: nat)
    requires CoreInv(s) && room > 0 && s.CanSend()
    ensures CoreInv(s.Emit(room))
    ensures Armed(s) ==> Armed(s.Emit(room))
    ensures s.Emit(room).next == s.next + s.NextFlight(room).seg.LengthInSequenceSpace()
    ensures Progress(s, s.Emit(room))
  {
    s.EmitUsesRoom(room);
    EmitCounts(s, room);
    var f, s' := s.NextFlight(room), s.Emit(room);
    TilesAppend(s.outstanding, s.next - s.inFlight, s.next, f);
    forall k | 0 <= k < |s'.outstanding|
      ensures SegmentAt(s', s'.outstanding[k].seg, s'.outstanding[k].first) && Unstamped(s'.outstanding[k].seg)
    {
      if k < |s.outstanding| {
        SegmentStays(s, s', s.outstanding[k].seg, s.outstanding[k].first);
      }
    }
    TilesOrdered(s.outstanding, s.next - s.inFlight, s.next);
  }

  lemma ProgressRefl(s: Sender)
    ensures Progress(s, s)
  {
  }

  lemma {:induction false} FillLoopKeeps(s: Sender, room: nat)
    requires CoreInv(s)
    ensures CoreInv(s.FillLoop(room))
    ensures Armed(s) ==> Armed(s.FillLoop(room))
    ensures Progress(s, s.FillLoop(room))
    ensures s.FillLoop(room).next <= s.next + room
    ensures s.FillLoop(room).next == s.next + room || !s.FillLoop(room).CanSend()
    decreases room
  {
    hide CoreInv, Armed, Progress, Sender.Emit, Sender.NextFlight, Sender.CanSend;
    CoreValid(s);
    ProgressRefl(s);
    if room > 0 && s.CanSend() {
      s.EmitUsesRoom(room);
      EmitKeeps(s, room);
      var s1, rest := s.Emit(room), room - s.NextFlight(room).seg.LengthInSequenceSpace();
      FillLoopKeeps(s1, rest);
      Chain(s, s1, s1.FillLoop(rest));
    }
  }

  lemma {:induction false} FillLoopFrame(s: Sender, room: nat)
    requires s.Valid()
    ensures var s' := s.FillLoop(room);
            && s'.ackno == s.ackno && s'.window == s.window && s'.rto == s.rto
            && s'.consecutive == s.consecutive && s'.initialTimeout == s.initialTimeout
            && s'.timer == (if s.timer.stopped && s'.queue != s.queue then s.timer.Start(s.rto) else s.timer)
            && s.queue <= s'.queue
            && s'.stream == s.stream.(read := s'.stream.read)
    decreases room
  {
    if room > 0 && s.CanSend() {
      s.EmitUsesRoom(room);
      FillLoopFrame(s.Emit(room), room - s.NextFlight(room).seg.LengthInSequenceSpace());
    }
  }

  lemma FillWindowFrame(s: Sender)
    requires s.Valid()
    ensures var s' := s.FillWindow();
            && s'.ackno == s.ackno && s'.window == s.window && s'.rto == s.rto
            && s'.consecutive == s.consecutive && s'.initialTimeout == s.initialTimeout
            && s'.timer == (if s.timer.stopped && s'.queue != s.queue then s.timer.Start(s.rto) else s.timer)
            && s'.stream == s.stream.(read := s'.stream.read)
  {
    hide Sender.FillLoop;
    if s.Edge() > s.next {
      FillLoopFrame(s, s.Edge() - s.next);
    }
  }

  /** What fill_window has achieved when it returns s', started in s. */
  ghost predicate Filled(s: Sender, s': Sender) {
    && CoreInv(s') && (Armed(s) ==> Armed(s')) && Progress(s, s')
    && s'.next <= Max(s.next, s.Edge())
    && (s.Edge() <= s'.next || !s'.CanSend())
    && NoStall(s')
  }

  lemma FilledBy(s: Sender, s': Sender)
    requires CoreInv(s') && (Armed(s) ==> Armed(s')) && Progress(s, s')
    requires s'.ackno == s.ackno && s'.next <= Max(s.next, s.Edge())
    requires s.Edge() <= s'.next || !s'.CanSend()
    ensures Filled(s, s')
  {
  }

  /** fill_window keeps the invariant, never passes the edge of the window, and stops only
      when the window is used up or nothing is left to send; so the sender does not stall. */
  lemma FillWindowKeeps(s: Sender)
    requires CoreInv(s)
    ensures Filled(s, s.FillWindow())
  {
    hide Sender.FillLoop;
    if s.Edge() > s.next {
      FillLoopKeeps(s, s.Edge() - s.next);
      FillWindowFrame(s);
    }
    FilledBy(s, s.FillWindow());
  }

  /** Filling the window opens a closed sender. */
  lemma FillOpens(s: Sender)
    requires CoreInv(s)
    ensures s.FillWindow().next > 0
  {
    hide CoreInv, NoStall, Progress, Sender.FillWindow;
    CoreValid(s);
    FillWindowKeeps(s);
  }

  // ---- ack_received and tick ----------------------------------------------------

  lemma {:induction false} PopAckedKeeps(s: Sender)
    requires LooseInv(s)
    ensures var s' := s.PopAcked();
            && LooseInv(s') && s.next - s.inFlight <= s'.next - s'.inFlight
            && (s'.outstanding != [] ==> s'.ackno < s'.outstanding[0].End())
            && s' == s.(inFlight := s'.inFlight, outstanding := s'.outstanding)
            && |s'.outstanding| <= |s.outstanding|
    decreases |s.outstanding|
  {
    if s.outstanding != [] && s.outstanding[0].End() <= s.ackno {
      var s1 := s.(inFlight := s.inFlight - s.outstanding[0].seg.LengthInSequenceSpace(),
                   outstanding := s.outstanding[1..]);
      TilesOrdered(s.outstanding, s.next - s.inFlight, s.next);
      forall k | 0 <= k < |s1.outstanding|
        ensures SegmentAt(s1, s1.outstanding[k].seg, s1.outstanding[k].first) && Unstamped(s1.outstanding[k].seg)
      {
        assert s1.outstanding[k] == s.outstanding[k + 1];
      }
      PopAckedKeeps(s1);
    }
  }

  lemma AckMoves(s: Sender, s1: Sender)
    requires CoreInv(s) && s.ackno < s1.ackno <= s.next
    requires s1 == s.(window := s1.window, rto := s1.rto, consecutive := 0, ackno := s1.ackno)
    ensures LooseInv(s1) && Grows(s, s1) && s1.queue == s.queue
  {
  }

  lemma PopAckedGrows(s: Sender, s1: Sender)
    requires LooseInv(s1) && Grows(s, s1) && s1.queue == s.queue
    ensures CoreInv(s1.PopAcked()) && Progress(s, s1.PopAcked()) && s1.PopAcked().ackno == s1.ackno
  {
    hide Sender.PopAcked, Tiles, FlightsGenuine, Counted;
    PopAckedKeeps(s1);
  }

  lemma AckReceivedKeeps(s: Sender, number: u32, win: u16)
    requires Inv(s)
    ensures Inv(s.AckReceived(number, win))
    ensures Progress(s, s.AckReceived(number, win))
    ensures NoStall(s) ==> NoStall(s.AckReceived(number, win))
    ensures s.AckReceived(number, win).ackno ==
            if s.AcceptsAck(number) then Max(s.ackno, Unwrap(number, s.isn, s.ackno)) else s.ackno
  {
    CoreValid(s);
    hide Sender.FillWindow, Sender.PopAcked, CoreInv, LooseInv, Armed, NoStall, Progress, Grows;
    var arrived := Unwrap(number, s.isn, s.ackno);
    if s.ackno < arrived <= s.next {
      var s1 := s.(window := win, rto := s.initialTimeout, consecutive := 0, ackno := arrived);
      AckMoves(s, s1);
      PopAckedGrows(s, s1);
      AckedThenFilled(s1.PopAcked());
      Chain(s, s1.PopAcked(), s.AckReceived(number, win));
    } else if arrived <= s.ackno {
      WindowOnly(s, s.(window := win));
    } else {
      ProgressRefl(s);
    }
  }

  lemma WindowOnly(s: Sender, s': Sender)
    requires Inv(s) && s' == s.(window := s'.window)
    ensures Inv(s') && Progress(s, s') && (NoStall(s) <==> NoStall(s'))
  {
    TimerOnly(s, s');
  }

  lemma AckedThenFilled(s: Sender)
    requires CoreInv(s)
    ensures var f := s.FillWindow();
            var s' := f.(timer := if f.outstanding != [] then f.timer.Start(f.rto) else f.timer.Stop());
            && Inv(s') && Progress(s, s') && NoStall(s') && s'.ackno == s.ackno
  {
    FillWindowKeeps(s);
    FillWindowFrame(s);
    var f := s.FillWindow();
    var s' := f.(timer := if f.outstanding != [] then f.timer.Start(f.rto) else f.timer.Stop());
    TimerOnly(f, s');
    Chain(s, f, s');
  }

  lemma AckReceivedFrame(s: Sender, number: u32, win: u16)
    requires s.Valid()
    ensures var s' := s.AckReceived(number, win);
            && s'.stream == s.stream.(read := s'.stream.read) && s'.initialTimeout == s.initialTimeout
            && s'.window == (if s.AcceptsAck(number) then win else s.window)
            && if s'.ackno > s.ackno then
                 && s'.rto == s.initialTimeout && s'.consecutive == 0
                 && s'.timer == (if s'.outstanding == [] then s.timer.Stop() else s.timer.Start(s'.rto))
               else
                 s' == s.(window := s'.window)
  {
    hide Sender.FillWindow, Sender.PopAcked;
    var arrived := Unwrap(number, s.isn, s.ackno);
    if s.ackno < arrived <= s.next {
      var s1 := s.(window := win, rto := s.initialTimeout, consecutive := 0, ackno := arrived);
      PopAckedFrame(s1);
      FillWindowFrame(s1.PopAcked());
    }
  }

  lemma {:induction false} PopAckedFrame(s: Sender)
    ensures s.PopAcked() == s.(inFlight := s.PopAcked().inFlight, outstanding := s.PopAcked().outstanding)
    decreases |s.outstanding|
  {
    if s.outstanding != [] && s.outstanding[0].End() <= s.ackno {
      PopAckedFrame(s.(inFlight := s.inFlight - s.outstanding[0].seg.LengthInSequenceSpace(),
                       outstanding := s.outstanding[1..]));
    }
  }

  /** Two states that differ only in timer, window and backoff send the same segments. */
  lemma TimerOnly(s: Sender, s': Sender)
    requires CoreInv(s)
    requires s' == s.(timer := s'.timer, window := s'.window, rto := s'.rto, consecutive := s'.consecutive)
    requires s'.consecutive > 0 ==> s.syn
    ensures CoreInv(s') && Progress(s, s') && (NoStall(s) <==> NoStall(s'))
  {
    forall k | 0 <= k < |s'.outstanding|
      ensures SegmentAt(s', s'.outstanding[k].seg, s'.outstanding[k].first) && Unstamped(s'.outstanding[k].seg)
    {
      SegmentStays(s, s', s.outstanding[k].seg, s.outstanding[k].first);
    }
  }

  lemma TickKeeps(s: Sender, ms: nat)
    requires Inv(s)
    ensures Inv(s.Tick(ms))
    ensures Progress(s, s.Tick(ms))
    ensures NoStall(s) ==> NoStall(s.Tick(ms))
    ensures s.Tick(ms).ackno == s.ackno && s.Tick(ms).window == s.window
  {
    CoreValid(s);
    hide CoreInv, NoStall, Progress, Sender.Expire;
    var s1 := s.(timer := s.timer.Elapse(ms % TWO_32));
    TimerOnly(s, s1);
    if s1.timer.IsExpired() && s.outstanding != [] {
      ExpireKeeps(s1);
      Chain(s, s1, s1.Expire());
    }
  }

  lemma ExpireKeeps(s: Sender)
    requires CoreInv(s) && s.outstanding != []
    ensures Inv(s.Expire()) && Progress(s, s.Expire()) && (NoStall(s) <==> NoStall(s.Expire()))
    ensures s.Expire().ackno == s.ackno && s.Expire().window == s.window
  {
    hide NoStall;
    var s2 := s.Expire();
    var s3 := s2.(queue := s.queue);
    TilesOrdered(s.outstanding, s.next - s.inFlight, s.next);
    TimerOnly(s, s3);
    QueueOnly(s3, s2);
  }

  /** Queueing an outstanding segment again. */
  lemma QueueOnly(s: Sender, s': Sender)
    requires CoreInv(s) && s.outstanding != [] && s' == s.(queue := s'.queue)
    requires s'.queue == s.queue || s'.queue == s.queue + [s.outstanding[0].seg]
    ensures CoreInv(s') && Progress(s, s') && (NoStall(s) <==> NoStall(s'))
  {
    forall k | 0 <= k < |s'.outstanding|
      ensures SegmentAt(s', s'.outstanding[k].seg, s'.outstanding[k].first) && Unstamped(s'.outstanding[k].seg)
    {
      SegmentStays(s, s', s.outstanding[k].seg, s.outstanding[k].first);
    }
  }

  lemma TickFrame(s: Sender, ms: nat)
    requires s.Valid()
    ensures s.Tick(ms).stream == s.stream && s.Tick(ms).initialTimeout == s.initialTimeout
  {
  }

  lemma SendEmptyKeeps(s: Sender)
    requires Inv(s) && s.next > 0
    ensures Inv(s.SendEmpty())
    ensures Progress(s, s.SendEmpty())
  {
    var g := TCPSegment(DEFAULT_HEADER.(seqno := Wrap(s.next, s.isn)), []);
    assert SegmentAt(s.SendEmpty(), g, s.next);
  }

  lemma WriteKeeps(s: Sender, data: seq<byte>)
    requires Inv(s) && !s.stream.ended
    ensures Inv(s.(stream := s.stream.Write(data)))
    ensures Grows(s, s.(stream := s.stream.Write(data)))
  {
    var s' := s.(stream := s.stream.Write(data));
    forall k | 0 <= k < |s'.outstanding|
      ensures SegmentAt(s', s'.outstanding[k].seg, s'.outstanding[k].first) && Unstamped(s'.outstanding[k].seg)
    {
      SegmentStays(s, s', s.outstanding[k].seg, s.outstanding[k].first);
    }
  }

  lemma EndInputKeeps(s: Sender)
    requires Inv(s)
    ensures Inv(s.(stream := s.stream.EndInput()))
    ensures Grows(s, s.(stream := s.stream.EndInput()))
  {
  }
}
