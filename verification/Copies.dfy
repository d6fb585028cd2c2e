/** Whatever is in flight has been sent, so the network can still deliver it; and what else holds
    of an endpoint between operations as long as it has not been reset. */
module Copies {
  import opened Bytes
  import opened Segments
  import opened Senders
  import opened Receivers
  import opened Connections
  import opened Network
  import opened Filling
  import opened Laws
  import SI = SenderInvariants
  import WrappingIntegers

  // ---- The sender ---------------------------------------------------------------

  /** Segment g is empty or is in flight. */
  ghost predicate Carried(g: TCPSegment, fs: seq<Flight>) {
    g.payload == [] || exists f :: f in fs && f.seg == g
  }

  /** On the way from s to s' every new flight was queued, unstamped, and nothing else but empty
      segments and segments in flight. */
  ghost predicate Accounts(s: Sender, s': Sender) {
    && s.queue <= s'.queue
    && (forall k :: |s.queue| <= k < |s'.queue| ==> SI.Unstamped(s'.queue[k]) && Carried(s'.queue[k], s'.outstanding))
    && (forall f :: f in s'.outstanding ==> f in s.outstanding || (f.seg in s'.queue && f.first >= s.next))
    && s.next <= s'.next
  }

  lemma AccountsThen(s: Sender, s1: Sender, s2: Sender)
    requires Accounts(s, s1) && Accounts(s1, s2) && s1.queue == s.queue
    ensures Accounts(s, s2)
  {
    hide Carried;
    forall f | f in s2.outstanding
      ensures f in s.outstanding || (f.seg in s2.queue && f.first >= s.next)
    {
      if f in s1.outstanding && f.seg in s1.queue {
        var k :| 0 <= k < |s1.queue| && s1.queue[k] == f.seg;
        assert s2.queue[k] == f.seg;
      }
    }
  }

  lemma {:induction false} InSegments(fs: seq<Flight>, f: Flight)
    requires f in fs
    ensures f.seg in SegmentsOf(fs)
  {
    if f != fs[0] {
      InSegments(fs[1..], f);
    }
  }

  lemma {:induction false} FromSegments(fs: seq<Flight>, k: nat)
    requires k < |SegmentsOf(fs)|
    ensures exists f :: f in fs && f.seg == SegmentsOf(fs)[k]
  {
    if k == 0 {
      assert fs[0] in fs;
    } else {
      FromSegments(fs[1..], k - 1);
      var f :| f in fs[1..] && f.seg == SegmentsOf(fs[1..])[k - 1];
      assert f in fs;
    }
  }

  lemma FillAccounts(s: Sender)
    requires SI.CoreInv(s)
    ensures Accounts(s, s.FillWindow())
  {
    SI.CoreValid(s);
    hide SI.CoreInv, SI.Grows, SI.Genuine, SI.NoStall, Sender.FillWindow;
    SI.FillWindowKeeps(s);
    var fs := FillWindowSends(s);
    var s' := s.FillWindow();
    SI.TilesOrdered(fs, s.next, s'.next);
    forall f | f in s'.outstanding
      ensures f in s.outstanding || (f.seg in s'.queue && f.first >= s.next)
    {
      if f !in s.outstanding {
        assert f in fs;
        InSegments(fs, f);
      }
    }
    forall k | |s.queue| <= k < |s'.queue|
      ensures Carried(s'.queue[k], s'.outstanding)
    {
      FromSegments(fs, k - |s.queue|);
      var f :| f in fs && f.seg == s'.queue[k];
      assert f in s'.outstanding;
    }
  }

  lemma {:induction false} PopAckedPart(s: Sender, f: Flight)
    requires f in s.PopAcked().outstanding
    ensures f in s.outstanding
    decreases |s.outstanding|
  {
    if s.outstanding != [] && s.outstanding[0].End() <= s.ackno {
      PopAckedPart(s.(inFlight := s.inFlight - s.outstanding[0].seg.LengthInSequenceSpace(),
                      outstanding := s.outstanding[1..]), f);
    }
  }

  lemma AckAccounts(s: Sender, number: u32, win: u16)
    requires SI.Inv(s)
    ensures Accounts(s, s.AckReceived(number, win))
  {
    SI.CoreValid(s);
    hide SI.CoreInv, SI.LooseInv, SI.Grows, Sender.FillWindow, Sender.PopAcked;
    var arrived := WrappingIntegers.Unwrap(number, s.isn, s.ackno);
    if s.ackno < arrived <= s.next {
      var s1 := s.(window := win, rto := s.initialTimeout, consecutive := 0, ackno := arrived);
      SI.AckMoves(s, s1);
      SI.PopAckedGrows(s, s1);
      SI.PopAckedFrame(s1);
      forall f | f in s1.PopAcked().outstanding
        ensures f in s.outstanding
      {
        PopAckedPart(s1, f);
      }
      assert Accounts(s, s1.PopAcked());
      FillAccounts(s1.PopAcked());
      AccountsThen(s, s1.PopAcked(), s1.PopAcked().FillWindow());
    }
  }

  lemma TickAccounts(s: Sender, ms: nat)
    requires SI.Inv(s)
    ensures Accounts(s, s.Tick(ms))
  {
    hide SI.Grows, SI.Genuine, SI.NoStall, SI.SegmentAt, SI.Tiles;
    SI.TickKeeps(s, ms);
  }

  lemma RouteAccounts(c: Connection, g: TCPSegment)
    requires c.Valid() && SI.Inv(c.sender)
    ensures Accounts(c.sender, c.Route(g).sender)
  {
    hide SI.CoreInv, Sender.FillWindow, Sender.AckReceived, Connection.Route;
    RouteCases(c, g);
    FillAccounts(c.sender);
    AckAccounts(c.sender, g.header.ackno, g.header.win);
  }

  // ---- The endpoint -------------------------------------------------------------

  ghost predicate Copied(f: TCPSegment, segs: set<TCPSegment>) {
    exists g :: g in segs && Resends(g, f)
  }

  /** An endpoint and everything it has sent. While it has not been reset it has sent no reset,
      it has not retransmitted too often, and every flight has a copy among what it sent. */
  ghost predicate Kept(c: Connection, sent: set<TCPSegment>) {
    && c.lastReceived <= c.now
    && (c.sender.stream.ended ==> c.sender.next > 0)
    && (!c.unclear ==>
          && c.sender.consecutive <= MAX_RETX_ATTEMPTS
          && (forall g :: g in sent ==> !g.header.rst)
          && (forall f :: f in c.sender.outstanding ==> Copied(f.seg, sent)))
  }

  /** Sending off the stamped queue gives every new flight a copy. */
  lemma SentOff(c: Connection, c1: Connection, sent: set<TCPSegment>)
    requires c1.Valid() && !c1.unclear && c.sender.queue == [] && Accounts(c.sender, c1.sender)
    requires !c.unclear && Kept(c, sent)
    ensures var out := sent + (set g | g in c1.StampAll(c1.sender.queue));
            && (forall g :: g in out ==> !g.header.rst)
            && (forall f :: f in c1.sender.outstanding ==> Copied(f.seg, out))
  {
    hide Connection.Stamp, Resends;
    var queue := c1.sender.queue;
    var stamped := c1.StampAll(queue);
    var out := sent + (set g | g in stamped);
    forall g | g in out
      ensures !g.header.rst
    {
      if g !in sent {
        var k :| 0 <= k < |stamped| && stamped[k] == g;
        StampPlain(c1, queue[k]);
      }
    }
    forall f | f in c1.sender.outstanding
      ensures Copied(f.seg, out)
    {
      if f in c.sender.outstanding {
        var g :| g in sent && Resends(g, f.seg);
        assert g in out;
      } else {
        var k :| 0 <= k < |queue| && queue[k] == f.seg;
        StampResends(c1, queue[k]);
        assert stamped[k] in out;
      }
    }
  }

  lemma FinishOut(c: Connection)
    requires c.Valid() && c.out == [] && c.sender.consecutive <= MAX_RETX_ATTEMPTS
    ensures c.Finish().out == c.StampAll(c.sender.queue) && c.Finish().sender.outstanding == c.sender.outstanding
  {
    hide Connection.Stamp;
  }

  /** What every operation but connect and read does. */
  lemma FinishKept(c: Connection, c1: Connection, sent: set<TCPSegment>)
    requires c1.Valid() && c.sender.queue == [] && c1.out == [] && Accounts(c.sender, c1.sender)
    requires Kept(c, sent) && (c.unclear ==> c1.unclear)
    requires c1.lastReceived <= c1.now && (c1.sender.stream.ended ==> c1.sender.next > 0)
    ensures Kept(c1.Finish(), sent + (set g | g in c1.Finish().out))
  {
    hide Connection.Finish, Accounts;
    FinishFrame(c1);
    if !c1.Finish().unclear {
      FinishOut(c1);
      SentOff(c, c1, sent);
    }
  }

  /** Filling the window opens a connection that is not open yet. */
  lemma FillKept(c: Connection, s: Sender, sent: set<TCPSegment>)
    requires c.Valid() && c.sender.queue == [] && c.out == [] && Kept(c, sent)
    requires SI.CoreInv(s) && s == c.sender.(stream := s.stream)
    ensures var c' := c.(sender := s.FillWindow()).Finish();
            Kept(c', sent + (set g | g in c'.out))
  {
    SI.CoreValid(s);
    hide SI.CoreInv, Sender.FillWindow, Connection.Finish;
    FillAccounts(s);
    SI.FillOpens(s);
    FinishKept(c, c.(sender := s.FillWindow()), sent);
  }

  lemma ConnectKept(c: Connection, sent: set<TCPSegment>)
    requires c.Valid() && SI.CoreInv(c.sender) && c.sender.queue == [] && c.out == [] && Kept(c, sent)
    ensures var c' := c.Connect();
            Kept(c', sent + (set g | g in c'.out))
  {
    hide SI.CoreInv, Sender.FillWindow, Connection.Stamp, Resends;
    if c.Listen() {
      FillAccounts(c.sender);
      SI.FillOpens(c.sender);
      SI.FillWindowFrame(c.sender);
      var c1 := c.(sender := c.sender.FillWindow());
      if !c.unclear {
        SentOff(c, c1, sent);
      }
      assert c1.CollectOutput().out == c1.StampAll(c1.sender.queue);
    } else {
      assert sent + (set g | g in c.out) == sent;
    }
  }

  lemma TickEnded(c: Connection, ms: nat)
    requires c.Valid()
    ensures c.sender.Tick(ms).next == c.sender.next && c.sender.Tick(ms).stream == c.sender.stream
  {
  }

  lemma RouteFrame(c: Connection, g: TCPSegment)
    requires c.Valid() && SI.Inv(c.sender)
    ensures var s, s' := c.sender, c.Route(g).sender;
            s'.stream.ended == s.stream.ended && s.next <= s'.next
    ensures c.Route(g).out == c.out && (c.unclear ==> c.Route(g).unclear)
    ensures c.Route(g).now == c.now && c.Route(g).lastReceived == c.lastReceived
  {
    SI.CoreValid(c.sender);
    RouteOut(c, g);
    hide SI.CoreInv, SI.NoStall, Sender.FillWindow, Sender.AckReceived, Connection.Route;
    RouteFlags(c, g);
    RouteCases(c, g);
    SI.FillWindowKeeps(c.sender);
    SI.FillWindowFrame(c.sender);
    SI.AckReceivedKeeps(c.sender, g.header.ackno, g.header.win);
    SI.AckReceivedFrame(c.sender, g.header.ackno, g.header.win);
  }

  lemma RouteOut(c: Connection, g: TCPSegment)
    requires c.Valid()
    ensures c.Route(g).out == c.out
  {
    hide Sender.FillWindow, Sender.AckReceived, Receiver.SegmentReceived;
  }

  lemma TickKept(c: Connection, ms: nat, sent: set<TCPSegment>)
    requires c.Valid() && SI.Inv(c.sender) && c.sender.queue == [] && c.out == [] && Kept(c, sent)
    ensures Kept(c.Tick(ms), sent + (set g | g in c.Tick(ms).out))
  {
    hide SI.CoreInv, Accounts, Connection.Finish, Sender.Tick;
    TickAccounts(c.sender, ms);
    TickEnded(c, ms);
    FinishKept(c, c.(now := c.now + ms, sender := c.sender.Tick(ms)), sent);
  }

  lemma DeliverKept(c: Connection, g: TCPSegment, sent: set<TCPSegment>)
    requires c.Valid() && SI.Inv(c.sender) && c.sender.queue == [] && c.out == [] && Kept(c, sent)
    ensures Kept(c.SegmentReceived(g), sent + (set x | x in c.SegmentReceived(g).out))
  {
    hide SI.CoreInv, Accounts, Connection.Route, Connection.Finish;
    var c0 := c.(lastReceived := c.now);
    RouteAccounts(c0, g);
    RouteFrame(c0, g);
    FinishKept(c, c0.Route(g), sent);
  }

  /** Every operation keeps this. */
  lemma ActKept(n: Net, op: Op)
    requires Inv(n) && Enabled(n, op) && Kept(n.me, n.sent)
    ensures Kept(Step(n, op).me, Step(n, op).sent)
  {
    var c, sent := n.me, n.sent;
    assert c.Valid() && SI.Inv(c.sender) && c.sender.queue == [] && c.out == [];
    hide Inv, SI.CoreInv, Kept, Sender.FillWindow, Connection.SegmentReceived, Connection.Finish, Connection.Connect,
         Connection.Tick;
    match op
    case Connect =>
      ConnectKept(c, sent);
      OutIrrelevant(c.Connect(), Step(n, op).sent);
    case Write(data) =>
      SI.WriteKeeps(c.sender, data);
      FillKept(c, c.sender.(stream := c.sender.stream.Write(data)), sent);
      OutIrrelevant(Act(c, op), Step(n, op).sent);
    case EndInput =>
      SI.EndInputKeeps(c.sender);
      FillKept(c, c.sender.(stream := c.sender.stream.EndInput()), sent);
      OutIrrelevant(Act(c, op), Step(n, op).sent);
    case Tick(ms) =>
      TickKept(c, ms, sent);
      OutIrrelevant(Act(c, op), Step(n, op).sent);
    case Read(len) =>
      assert sent + (set g | g in Act(c, op).out) == sent;
      ReadKept(c, len, sent);
    case Deliver(g) =>
      DeliverKept(c, g, sent);
      OutIrrelevant(Act(c, op), Step(n, op).sent);
  }

  lemma OutIrrelevant(c: Connection, sent: set<TCPSegment>)
    requires Kept(c, sent)
    ensures Kept(c.(out := []), sent)
  {
  }

  lemma ReadKept(c: Connection, len: nat, sent: set<TCPSegment>)
    requires c.Valid() && Kept(c, sent)
    ensures Kept(c.Read(len).(out := []), sent)
  {
  }

  // ---- Runs ---------------------------------------------------------------------

  ghost predicate BothKept(n: Net) {
    Kept(n.me, n.sent) && Kept(n.peer, n.heard)
  }

  lemma StepKept(n: Net, op: Op)
    requires Inv(n) && Enabled(n, op) && BothKept(n)
    ensures BothKept(Step(n, op))
  {
    hide Inv, Enabled, Kept, Act;
    ActKept(n, op);
  }

  lemma {:induction false} RunKept(n: Net, evs: seq<Event>)
    requires Fresh(n) && Valid(n) && Legal(n, evs)
    ensures BothKept(Run(n, evs))
  {
    hide Inv, Enabled, Step, Kept;
    if evs == [] {
      FreshKept(n.me);
      FreshKept(n.peer);
    } else {
      RunKept(n, evs[..|evs| - 1]);
      RunKeeps(n, evs[..|evs| - 1]);
      var n0, ev := Run(n, evs[..|evs| - 1]), evs[|evs| - 1];
      InvSwap(n0);
      StepKept(Face(n0, ev.mine), ev.op);
    }
  }

  lemma FreshKept(c: Connection)
    requires NewEndpoint(c)
    ensures Kept(c, {})
  {
  }

  /** In every run, an endpoint that has not been reset answers the passing of time so: when the
      timer of something in flight goes off, it sends the segment that holds the oldest
      unacknowledged position again, and that alone; only after eight retransmissions into an open
      window it sends a single empty reset instead. Otherwise it sends nothing. */
  lemma RetransmitsOldest(n: Net, evs: seq<Event>, ms: nat)
    requires Fresh(n) && Valid(n) && Legal(n, evs) && !Run(n, evs).me.unclear
    ensures var n' := Run(n, evs);
            var s, c := n'.me.sender, Act(n'.me, Tick(ms));
            && |c.out| == One(Due(s, ms))
            && (c.unclear <==> Due(s, ms) && LastChance(s))
            && (Due(s, ms) && !c.unclear ==>
                  && Resends(c.out[0], s.outstanding[0].seg) && !c.out[0].header.rst
                  && s.outstanding[0].first <= s.ackno < s.outstanding[0].End())
            && (c.unclear ==> c.out[0].header.rst && c.out[0].LengthInSequenceSpace() == 0)
  {
    hide Run, Inv, Resends, Due, LastChance, Act, Fresh, Legal;
    RunKeeps(n, evs);
    RunKept(n, evs);
    TickSends(Run(n, evs), ms);
  }
}
