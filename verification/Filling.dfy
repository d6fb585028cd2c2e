/** What fill_window puts on the wire: the next part of the stream, cut into segments. */
module Filling {
  import opened Bytes
  import opened Segments
  import opened Senders
  import SI = SenderInvariants

  function SegmentsOf(fs: seq<Flight>): seq<TCPSegment> {
    if fs == [] then [] else [fs[0].seg] + SegmentsOf(fs[1..])
  }

  /** The payloads of a run of flights, end to end. */
  function Payload(fs: seq<Flight>): seq<byte> {
    if fs == [] then [] else fs[0].seg.payload + Payload(fs[1..])
  }

  /** Flights fs lead from s to s': they tile the new positions, carry exactly the bytes taken
      from the stream, are queued once each, and only the last one can carry the FIN. */
  ghost predicate Sends(s: Sender, s': Sender, fs: seq<Flight>) {
    && s'.outstanding == s.outstanding + fs
    && s'.queue == s.queue + SegmentsOf(fs)
    && SI.Tiles(fs, s.next, s'.next)
    && s.stream.read <= s'.stream.read <= |s.stream.history|
    && Payload(fs) == s.stream.history[s.stream.read..s'.stream.read]
    && s'.stream == s.stream.(read := s'.stream.read)
    && (forall k :: 0 <= k < |fs| ==> |fs[k].seg.payload| <= MAX_PAYLOAD_SIZE)
    && (forall k :: 0 <= k < |fs| ==> (fs[k].seg.header.syn <==> fs[k].first == 0))
    && (forall k :: 0 <= k < |fs| ==> (fs[k].seg.header.fin <==> k == |fs| - 1 && s'.fin && !s.fin))
    && (s'.fin && !s.fin ==> fs != [] && s'.stream.Eof())
  }

  lemma TilesOne(f: Flight, lo: int, hi: nat)
    ensures SI.Tiles([f], lo, hi) <==> f.first == lo && f.first < f.End() == hi
  {
    assert [f][1..] == [];
    assert SI.Tiles([f][1..], f.End(), hi) <==> f.End() == hi;
  }

  lemma SegmentsCons(f: Flight, fs: seq<Flight>)
    ensures SegmentsOf([f] + fs) == [f.seg] + SegmentsOf(fs)
    ensures Payload([f] + fs) == f.seg.payload + Payload(fs)
    ensures SegmentsOf([f]) == [f.seg] && Payload([f]) == f.seg.payload
    ensures ([f] + fs)[1..] == fs
  {
    assert ([f] + fs)[1..] == fs && [f][1..] == [];
  }

  lemma SendsNothing(s: Sender)
    requires s.Valid()
    ensures Sends(s, s, [])
  {
    assert s.stream.history[s.stream.read..s.stream.read] == [];
  }

  /** A finished sender has nothing to send. */
  lemma FinishedIsSilent(s: Sender)
    requires SI.Counted(s) && s.fin
    ensures !s.CanSend()
  {
  }

  lemma EmitSends(s: Sender, room: nat)
    requires SI.CoreInv(s) && room > 0 && s.CanSend()
    ensures Sends(s, s.Emit(room), [s.NextFlight(room)])
    ensures !s.fin
  {
    hide SI.FlightsGenuine, SI.Grows;
    s.EmitUsesRoom(room);
    SI.EmitCounts(s, room);
    SI.TilesAppend(s.outstanding, s.next - s.inFlight, s.next, s.NextFlight(room));
    if s.fin {
      FinishedIsSilent(s);
    }
    SegmentsCons(s.NextFlight(room), []);
    TilesOne(s.NextFlight(room), s.next, s.Emit(room).next);
  }

  lemma SendsThen(s: Sender, s1: Sender, f: Flight, s2: Sender, fs: seq<Flight>)
    requires Sends(s, s1, [f]) && Sends(s1, s2, fs) && !s.fin && (s1.fin ==> s2 == s1 && fs == [])
    requires SI.Grows(s1, s2)
    ensures Sends(s, s2, [f] + fs)
  {
    hide SegmentsOf, Payload;
    var all := [f] + fs;
    SegmentsCons(f, fs);
    TilesOne(f, s.next, s1.next);
    assert s.outstanding + [f] + fs == s.outstanding + all;
    assert s.queue + [f.seg] + SegmentsOf(fs) == s.queue + ([f.seg] + SegmentsOf(fs));
    var h := s.stream.history;
    assert h[s.stream.read..s2.stream.read] == h[s.stream.read..s1.stream.read] + h[s1.stream.read..s2.stream.read];
  }

  /** Every segment but the last is full, and every one but the first carries text. */
  ghost predicate Packed(fs: seq<Flight>) {
    && (forall k :: 0 <= k < |fs| - 1 ==> |fs[k].seg.payload| == MAX_PAYLOAD_SIZE)
    && (forall k :: 0 < k < |fs| ==> fs[k].seg.payload != [])
  }

  /** If one segment is not the last, it is full, and the next one carries text. */
  lemma EmitFull(s: Sender, room: nat)
    requires SI.CoreInv(s) && room > 0 && s.CanSend()
    ensures 0 < s.NextFlight(room).seg.LengthInSequenceSpace() <= room
    ensures var s1, rest := s.Emit(room), room - s.NextFlight(room).seg.LengthInSequenceSpace();
            rest > 0 && s1.CanSend() ==>
              |s.NextFlight(room).seg.payload| == MAX_PAYLOAD_SIZE && s1.NextFlight(rest).seg.payload != []
  {
    hide SI.Tiles, SI.FlightsGenuine, InsertFlight;
    s.EmitUsesRoom(room);
  }

  lemma PackedThen(f: Flight, fs: seq<Flight>)
    requires Packed(fs)
    requires fs != [] ==> |f.seg.payload| == MAX_PAYLOAD_SIZE && fs[0].seg.payload != []
    ensures Packed([f] + fs)
  {
  }

  lemma {:induction false} FillLoopSends(s: Sender, room: nat) returns (fs: seq<Flight>)
    requires SI.CoreInv(s)
    ensures Sends(s, s.FillLoop(room), fs) && Packed(fs)
    ensures fs != [] ==> room > 0 && s.CanSend() && fs[0] == s.NextFlight(room)
    decreases room
  {
    hide SI.CoreInv, SI.Grows, SI.Progress, Sends, Packed, Sender.Emit, Sender.NextFlight, Sender.CanSend;
    SI.CoreValid(s);
    if room > 0 && s.CanSend() {
      s.EmitUsesRoom(room);
      SI.EmitKeeps(s, room);
      EmitSends(s, room);
      var s1, rest := s.Emit(room), room - s.NextFlight(room).seg.LengthInSequenceSpace();
      fs := FillLoopSends(s1, rest);
      SI.FillLoopKeeps(s1, rest);
      FinishedFills(s1, rest, fs);
      ProgressGrows(s1, s1.FillLoop(rest));
      SendsThen(s, s1, s.NextFlight(room), s1.FillLoop(rest), fs);
      EmitFull(s, room);
      PackedThen(s.NextFlight(room), fs);
      fs := [s.NextFlight(room)] + fs;
    } else {
      SendsNothing(s);
      fs := [];
      assert Packed([]) by { NothingPacked(); }
    }
  }

  lemma NothingPacked()
    ensures Packed([])
  {
  }

  lemma ProgressGrows(s: Sender, s': Sender)
    requires SI.Progress(s, s')
    ensures SI.Grows(s, s')
  {
  }

  lemma FinishedFills(s: Sender, room: nat, fs: seq<Flight>)
    requires SI.CoreInv(s) && Sends(s, s.FillLoop(room), fs)
    ensures s.fin ==> s.FillLoop(room) == s && fs == []
  {
    if s.fin {
      FinishedIsSilent(s);
      assert |s.outstanding + fs| == |s.outstanding|;
    }
  }

  /** fill_window sends the next part of the stream, cut into non-empty segments of bounded size
      that follow one another, all but the last of them full; the SYN comes first, the FIN last and
      only once everything is sent, and together with the last of the text if that goes now. */
  lemma FillWindowSends(s: Sender) returns (fs: seq<Flight>)
    requires SI.CoreInv(s)
    ensures Sends(s, s.FillWindow(), fs) && Packed(fs)
  {
    hide Sends, Sender.FillLoop;
    if s.Edge() <= s.next {
      SendsNothing(s);
      fs := [];
    } else {
      fs := FillLoopSends(s, s.Edge() - s.next);
    }
  }
}
