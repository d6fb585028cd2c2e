/** The retransmission timer over whole runs of one endpoint (section 5 of RFC 6298): exponential
    backoff, and how long an endpoint waits before it gives up. Nothing is assumed of the peer. */
module Timing {
  import opened Bytes
  import opened Segments
  import opened Senders
  import SI = SenderInvariants
  import opened Connections
  import opened Network
  import opened WrappingIntegers

  function Pow2(n: nat): (p: nat)
    ensures p > 0
  {
    if n == 0 then 1 else 2 * Pow2(n - 1)
  }

  /** The timeout after n doublings, and the sum of the n timeouts before it. */
  function Backoff(timeout: nat, n: nat): nat { timeout * Pow2(n) }
  function Waited(timeout: nat, n: nat): nat { timeout * (Pow2(n) - 1) }

  /** Two clocks. The first one counts the milliseconds since data was last newly acknowledged or
      something came into flight with nothing there before. The second one starts again with every
      retransmission, too, and counts of each tick what its 32-bit parameter carries. */
  datatype Clocks = Clocks(since: nat, armed: nat)

  /** An endpoint and its clocks. */
  datatype Clocked = Clocked(c: Connection, t: Clocks)

  /** The clocks start again when s has become s'. */
  predicate Restarts(s: Sender, s': Sender) {
    s'.ackno > s.ackno || (s.outstanding == [] && s'.outstanding != [])
  }

  function Next(t: Clocks, restarts: bool): Clocks {
    if restarts then Clocks(0, 0) else t
  }

  function Advance(k: Clocked, op: Op): (k': Clocked)
    requires k.c.Valid()
    ensures k'.c.Valid()
  {
    var c' := Act(k.c, op);
    var ms := if op.Tick? then op.ms else 0;
    var resent := op.Tick? && |c'.out| > |k.c.out|;
    var t := Clocks(k.t.since + ms, if resent then 0 else k.t.armed + ms % TWO_32);
    Clocked(c', Next(t, Restarts(k.c.sender, c'.sender)))
  }

  function Run(c: Connection, ops: seq<Op>): (k: Clocked)
    requires c.Valid()
    ensures k.c.Valid()
  {
    if ops == [] then Clocked(c, Clocks(0, 0)) else Advance(Run(c, ops[..|ops| - 1]), ops[|ops| - 1])
  }

  /** The largest number of doublings of a 16-bit timeout that fits 32 bits. */
  const EXACT: nat := 16

  /** What the sender's timer and backoff say about the time that has passed. */
  ghost predicate Timed(s: Sender, t: Clocks) {
    && SI.Armed(s)
    && s.rto == Backoff(s.initialTimeout, s.consecutive) % TWO_32
    && (s.timer.stopped ==> s.consecutive == 0)
    && (!s.timer.stopped ==> !s.timer.expired && s.timer.remaining + t.armed == s.rto)
    && (!s.timer.stopped && s.rto > 0 ==> t.armed < s.rto)
    && (!s.timer.stopped && s.consecutive <= EXACT ==> Waited(s.initialTimeout, s.consecutive) + t.armed <= t.since)
    && (s.consecutive > MAX_RETX_ATTEMPTS ==> Waited(s.initialTimeout, MAX_RETX_ATTEMPTS + 1) <= t.since)
  }

  /** What the timing depends on is the same in both states. */
  predicate SameTiming(s: Sender, s': Sender) {
    && s'.timer == s.timer && s'.rto == s.rto && s'.consecutive == s.consecutive
    && s'.initialTimeout == s.initialTimeout && s'.ackno == s.ackno
    && (s'.outstanding == [] <==> s.outstanding == [])
  }

  lemma Pow2Bound(timeout: u16, n: nat)
    requires n <= EXACT
    ensures Backoff(timeout, n) < TWO_32
  {
    hide Pow2;
    Pow2Grows(n, 16);
    SixteenDoublings();
    MulBound(timeout, Pow2(n), 65536);
  }

  lemma SixteenDoublings()
    ensures Pow2(16) == 65536 && Pow2(9) == 512
  {
  }

  lemma MulBound(a: nat, b: nat, c: nat)
    requires b <= c
    ensures a * b <= a * c
  {
  }

  lemma {:induction false} Pow2Grows(m: nat, n: nat)
    requires m <= n
    ensures Pow2(m) <= Pow2(n)
    decreases n - m
  {
    if m < n {
      Pow2Grows(m, n - 1);
    }
  }

  lemma DoubleMod(timeout: u16, n: nat)
    ensures Backoff(timeout, n) % TWO_32 * 2 % TWO_32 == Backoff(timeout, n + 1) % TWO_32
  {
    var x := timeout * Pow2(n);
    assert timeout * Pow2(n + 1) == 2 * x;
    var q := x / TWO_32;
    assert x % TWO_32 == x - q * TWO_32;
    assert x % TWO_32 * 2 == 2 * x - 2 * q * TWO_32;
    ModShift(2 * x, -2 * q);
  }

  // ---- One operation ------------------------------------------------------------

  lemma {:induction false} FillLoopArmed(s: Sender, room: nat)
    requires s.Valid() && SI.Armed(s)
    ensures SI.Armed(s.FillLoop(room))
    ensures s.outstanding != [] ==> s.FillLoop(room).outstanding != []
    decreases room
  {
    if room > 0 && s.CanSend() {
      s.EmitUsesRoom(room);
      FillLoopArmed(s.Emit(room), room - s.NextFlight(room).seg.LengthInSequenceSpace());
    }
  }

  /** fill_window leaves the timing alone, or starts a stopped timer. */
  lemma FillTimed(s: Sender, t: Clocks)
    requires s.Valid() && Timed(s, t)
    ensures Timed(s.FillWindow(), Next(t, Restarts(s, s.FillWindow())))
    ensures s.FillWindow().ackno == s.ackno && s.FillWindow().initialTimeout == s.initialTimeout
    ensures !s.timer.stopped ==> SameTiming(s, s.FillWindow())
    ensures s.timer.stopped && s.FillWindow().timer.stopped ==> SameTiming(s, s.FillWindow())
  {
    hide Sender.FillLoop;
    SI.FillWindowFrame(s);
    if s.Edge() > s.next {
      FillLoopArmed(s, s.Edge() - s.next);
    }
  }

  lemma AckTimed(s: Sender, number: u32, win: u16, t: Clocks)
    requires s.Valid() && Timed(s, t)
    ensures var s' := s.AckReceived(number, win);
            && s'.ackno >= s.ackno && s'.initialTimeout == s.initialTimeout
            && (s'.ackno > s.ackno ==> Timed(s', Clocks(0, 0)))
            && (s'.ackno == s.ackno ==> SameTiming(s, s'))
  {
    hide Sender.AckReceived;
    SI.AckReceivedFrame(s, number, win);
    AckMonotone(s, number, win);
    assert Pow2(0) == 1;
  }

  lemma AckMonotone(s: Sender, number: u32, win: u16)
    requires s.Valid()
    ensures s.AckReceived(number, win).ackno >= s.ackno
  {
    hide Sender.FillWindow, Sender.PopAcked;
    var arrived := Unwrap(number, s.isn, s.ackno);
    if s.ackno < arrived <= s.next {
      var s1 := s.(window := win, rto := s.initialTimeout, consecutive := 0, ackno := arrived);
      SI.PopAckedFrame(s1);
      SI.FillWindowFrame(s1.PopAcked());
    }
  }

  lemma ExpireSteps(s: Sender)
    requires s.outstanding != [] && s.consecutive <= EXACT
    ensures var s' := s.Expire();
            && s'.outstanding == s.outstanding && s'.initialTimeout == s.initialTimeout
            && s'.consecutive == s.consecutive + One(s.window > 0)
            && s'.rto == (if s.window > 0 then s.rto * 2 % TWO_32 else s.rto)
            && s'.timer == Timer(s'.rto, false, false)
  {
  }

  lemma ExpireTimed(s: Sender, t: Clocks)
    requires s.outstanding != [] && SI.Armed(s) && s.consecutive <= EXACT
    requires s.rto == Backoff(s.initialTimeout, s.consecutive) % TWO_32
    requires Waited(s.initialTimeout, s.consecutive) + s.rto <= t.since
    requires s.consecutive > MAX_RETX_ATTEMPTS ==> Waited(s.initialTimeout, MAX_RETX_ATTEMPTS + 1) <= t.since
    ensures Timed(s.Expire(), Clocks(t.since, 0))
  {
    hide Backoff, Waited, Sender.Expire;
    DoubleMod(s.initialTimeout, s.consecutive);
    Pow2Bound(s.initialTimeout, s.consecutive);
    BackoffSum(s.initialTimeout, s.consecutive);
    ExpireSteps(s);
  }

  /** The timeouts of n retransmissions add up to 2^n - 1 initial timeouts. */
  lemma BackoffSum(timeout: nat, n: nat)
    ensures Waited(timeout, n) + Backoff(timeout, n) == Waited(timeout, n + 1)
  {
  }

  lemma ExpireFrame(s: Sender)
    requires s.outstanding != [] && s.consecutive <= EXACT
    ensures var s' := s.Expire();
            && s'.ackno == s.ackno && s'.initialTimeout == s.initialTimeout && s'.outstanding == s.outstanding
            && s'.consecutive == s.consecutive + One(s.window > 0)
            && |s'.queue| == |s.queue| + One(s'.consecutive <= MAX_RETX_ATTEMPTS)
  {
  }

  /** The second clock has reached the timeout. */
  predicate Elapsed(s: Sender, ms: nat, t: Clocks) {
    s.outstanding != [] && t.armed + ms % TWO_32 >= s.rto
  }

  /** A tick retransmits exactly when the second clock reaches the timeout. */
  lemma TickTimed(s: Sender, ms: nat, t: Clocks)
    requires s.Valid() && Timed(s, t) && s.consecutive <= EXACT
    ensures var s', due := s.Tick(ms), Elapsed(s, ms, t);
            && Timed(s', Clocks(t.since + ms, if due then 0 else t.armed + ms % TWO_32))
            && s'.consecutive == s.consecutive + One(due && s.window > 0)
            && |s'.queue| == |s.queue| + One(due && s'.consecutive <= MAX_RETX_ATTEMPTS)
            && s'.ackno == s.ackno && s'.initialTimeout == s.initialTimeout && s'.outstanding == s.outstanding
  {
    hide Sender.Expire;
    var s1 := s.(timer := s.timer.Elapse(ms % TWO_32));
    assert ms % TWO_32 <= ms;
    if Elapsed(s, ms, t) {
      ExpireTimed(s1, Clocks(t.since + ms, t.armed));
      ExpireFrame(s1);
    }
  }

  // ---- Runs ---------------------------------------------------------------------

  /** The timing of an endpoint between operations until it is reset; it resets itself when it
      gives up. */
  ghost predicate Inv(k: Clocked) {
    && k.c.Valid()
    && (!k.c.unclear ==>
          Timed(k.c.sender, k.t) && k.c.sender.consecutive <= MAX_RETX_ATTEMPTS && k.c.sender.queue == [])
  }

  /** How s' may follow s in an operation that lets no time pass, and when the clock restarts. */
  ghost predicate Stepped(s: Sender, s': Sender, t: Clocks) {
    && s'.initialTimeout == s.initialTimeout && s'.ackno >= s.ackno
    && Timed(s', Next(t, Restarts(s, s')))
    && s'.consecutive <= s.consecutive
  }

  lemma SameStepped(s: Sender, s': Sender, t: Clocks)
    requires Timed(s, t) && SameTiming(s, s')
    ensures Stepped(s, s', t)
  {
  }

  lemma SteppedThenSame(s: Sender, s1: Sender, s2: Sender, t: Clocks)
    requires Stepped(s, s1, t) && SameTiming(s1, s2)
    ensures Stepped(s, s2, t)
  {
  }

  lemma FillStepped(s: Sender, t: Clocks)
    requires s.Valid() && Timed(s, t)
    ensures Stepped(s, s.FillWindow(), t)
  {
    hide Sender.FillWindow, Pow2;
    FillTimed(s, t);
    SI.FillWindowFrame(s);
  }

  lemma AckStepped(s: Sender, number: u32, win: u16, t: Clocks)
    requires s.Valid() && Timed(s, t)
    ensures Stepped(s, s.AckReceived(number, win), t)
  {
    hide Sender.AckReceived, Pow2;
    AckTimed(s, number, win, t);
    SI.AckReceivedFrame(s, number, win);
  }

  lemma RouteStepped(c: Connection, g: TCPSegment, t: Clocks)
    requires c.Valid() && Timed(c.sender, t)
    ensures Stepped(c.sender, c.Route(g).sender, t)
    ensures c.Route(g).unclear ==> c.unclear || g.header.rst
  {
    hide Sender.FillWindow, Sender.AckReceived, Connection.Route, Timed, Stepped;
    var s, s' := c.sender, c.Route(g).sender;
    RouteCases(c, g);
    FillStepped(s, t);
    if SameTiming(s, s') {
      SameStepped(s, s', t);
    } else if s' != s.FillWindow() {
      AckStepped(s, g.header.ackno, g.header.win, t);
      SteppedThenSame(s, s.AckReceived(g.header.ackno, g.header.win), s', t);
    }
  }

  lemma FinishStepped(c: Connection, c1: Connection, t: Clocks)
    requires c1.Valid() && Stepped(c.sender, c1.sender, t)
    requires !c.unclear ==> c.sender.consecutive <= MAX_RETX_ATTEMPTS
    requires c.unclear ==> c1.unclear
    ensures Stepped(c.sender, c1.Finish().sender, t)
    ensures c1.Finish().unclear <==> c1.unclear
    ensures !c1.Finish().unclear ==> c1.Finish().sender.consecutive <= MAX_RETX_ATTEMPTS
    ensures c1.Finish().sender.queue == []
  {
    hide Timed, Connection.Finish;
    FinishFrame(c1);
    SteppedThenSame(c.sender, c1.sender, c1.Finish().sender, t);
  }

  /** Every operation keeps the timing invariant; a reset that is not the peer's doing comes
      only after the timeouts of nine transmissions have passed. */
  lemma AdvanceKeeps(k: Clocked, op: Op)
    requires Inv(k) && !k.c.unclear
    ensures Inv(Advance(k, op))
    ensures Advance(k, op).c.sender.initialTimeout == k.c.sender.initialTimeout
    ensures Advance(k, op).c.unclear ==>
              || (op.Deliver? && op.seg.header.rst)
              || (op.Tick? && 511 * k.c.sender.initialTimeout <= Advance(k, op).t.since)
  {
    hide Sender.FillWindow, Connection.Route, Connection.Finish, Sender.Tick, Timed;
    var c, t := k.c, k.t;
    match op
    case Connect =>
      FillStepped(c.sender, t);
      if c.Listen() {
        SteppedThenSame(c.sender, c.sender.FillWindow(), c.Connect().sender, t);
      } else {
        SameStepped(c.sender, c.sender, t);
      }
    case Write(data) =>
      var s := c.sender.(stream := c.sender.stream.Write(data));
      StreamTimed(c.sender, s, t);
      FillStepped(s, t);
      FinishStepped(c, c.(sender := s.FillWindow()), t);
    case EndInput =>
      var s := c.sender.(stream := c.sender.stream.EndInput());
      StreamTimed(c.sender, s, t);
      FillStepped(s, t);
      FinishStepped(c, c.(sender := s.FillWindow()), t);
    case Read(len) =>
      SameStepped(c.sender, c.sender, t);
    case Deliver(seg) =>
      var c1 := c.(lastReceived := c.now);
      RouteStepped(c1, seg, t);
      RouteFlags(c1, seg);
      FinishStepped(c, c1.Route(seg), t);
    case Tick(ms) =>
      AdvanceTick(k, ms);
  }

  lemma StreamTimed(s: Sender, s': Sender, t: Clocks)
    requires Timed(s, t) && s' == s.(stream := s'.stream)
    ensures Timed(s', t)
  {
  }

  /** How many segments the last phase of an operation hands to the network. */
  lemma FinishCount(c: Connection)
    requires c.Valid()
    ensures |c.Finish().out| == |c.out| + |c.sender.queue| + One(c.sender.consecutive > MAX_RETX_ATTEMPTS)
  {
    hide Connection.Stamp;
  }

  lemma AdvanceTick(k: Clocked, ms: nat)
    requires Inv(k) && !k.c.unclear
    ensures Inv(Advance(k, Tick(ms)))
    ensures Advance(k, Tick(ms)).c.sender.initialTimeout == k.c.sender.initialTimeout
    ensures Advance(k, Tick(ms)).c.unclear ==>
              511 * k.c.sender.initialTimeout <= Advance(k, Tick(ms)).t.since
    ensures var s, c' := k.c.sender, Advance(k, Tick(ms)).c;
            && |c'.out| == |k.c.out| + One(Elapsed(s, ms, k.t))
            && c'.sender.consecutive == s.consecutive + One(Elapsed(s, ms, k.t) && s.window > 0)
  {
    hide Sender.Tick, Connection.Finish, Backoff, Waited;
    var c1 := k.c.(now := k.c.now + ms, sender := k.c.sender.Tick(ms));
    TickTimed(k.c.sender, ms, k.t);
    FinishFrame(c1);
    FinishCount(c1);
    NineTimeouts(k.c.sender.initialTimeout);
  }

  lemma NineTimeouts(timeout: nat)
    ensures Waited(timeout, MAX_RETX_ATTEMPTS + 1) == 511 * timeout
  {
    SixteenDoublings();
  }

  lemma StaysReset(k: Clocked, op: Op)
    requires k.c.Valid()
    ensures k.c.unclear ==> Advance(k, op).c.unclear
  {
    hide Act;
    ActFlags(k.c, op);
  }

  lemma {:induction false} RunKeeps(timeout: u16, recv: nat, send: nat, isn: u32, ops: seq<Op>)
    ensures Inv(Run(NewConnection(timeout, recv, send, isn), ops))
    ensures var c := Run(NewConnection(timeout, recv, send, isn), ops).c;
            !c.unclear ==> c.sender.initialTimeout == timeout
  {
    hide Advance;
    if ops == [] {
      assert Pow2(0) == 1;
    } else {
      RunKeeps(timeout, recv, send, isn, ops[..|ops| - 1]);
      var k, op := Run(NewConnection(timeout, recv, send, isn), ops[..|ops| - 1]), ops[|ops| - 1];
      StaysReset(k, op);
      if !k.c.unclear {
        AdvanceKeeps(k, op);
      }
    }
  }

  /** In every run, whatever arrives, an endpoint that was not reset has doubled its timeout once
      per retransmission in a row, without overflow, and has retransmitted at most eight times. */
  lemma BackoffIsExponential(timeout: u16, recv: nat, send: nat, isn: u32, ops: seq<Op>)
    ensures var c := Run(NewConnection(timeout, recv, send, isn), ops).c;
            !c.unclear ==>
              && c.sender.consecutive <= MAX_RETX_ATTEMPTS
              && c.sender.rto == timeout * Pow2(c.sender.consecutive)
              && (c.sender.timer.stopped <==> c.sender.outstanding == [])
  {
    hide Run, Pow2;
    RunKeeps(timeout, recv, send, isn, ops);
    var c := Run(NewConnection(timeout, recv, send, isn), ops).c;
    if !c.unclear {
      Pow2Bound(timeout, c.sender.consecutive);
    }
  }

  /** In every run, whatever arrives, an endpoint that was not reset and has something in flight
      has not waited longer than its timeout, and a tick makes it send exactly one segment if that
      completes the timeout and nothing otherwise. The timeout is the initial one, doubled once per
      retransmission in a row; retransmissions into a closed window do not count. */
  lemma RetransmitsOnTime(timeout: u16, recv: nat, send: nat, isn: u32, ops: seq<Op>, ms: nat)
    ensures var k := Run(NewConnection(timeout, recv, send, isn), ops);
            var s, c' := k.c.sender, Act(k.c, Tick(ms));
            var deadline := timeout * Pow2(s.consecutive);
            var due := s.outstanding != [] && k.t.armed + ms % TWO_32 >= deadline;
            !k.c.unclear ==>
              && (s.outstanding != [] ==> k.t.armed <= deadline && (timeout > 0 ==> k.t.armed < deadline))
              && |c'.out| == |k.c.out| + One(due)
              && c'.sender.consecutive == s.consecutive + One(due && s.window > 0)
  {
    hide Run, Pow2, Act;
    RunKeeps(timeout, recv, send, isn, ops);
    var k := Run(NewConnection(timeout, recv, send, isn), ops);
    if !k.c.unclear {
      Pow2Bound(timeout, k.c.sender.consecutive);
      AdvanceTick(k, ms);
    }
  }

  /** In every run, an endpoint resets itself only in a tick, after at least 2^9 - 1 initial
      timeouts without newly acknowledged data since the timer was started. */
  lemma GivesUpLate(timeout: u16, recv: nat, send: nat, isn: u32, ops: seq<Op>, op: Op)
    ensures var k := Run(NewConnection(timeout, recv, send, isn), ops);
            var k' := Run(NewConnection(timeout, recv, send, isn), ops + [op]);
            !k.c.unclear && k'.c.unclear ==>
              (op.Deliver? && op.seg.header.rst) || (op.Tick? && 511 * timeout <= k'.t.since)
  {
    hide Advance, Inv;
    assert (ops + [op])[..|ops|] == ops;
    RunKeeps(timeout, recv, send, isn, ops);
    if !Run(NewConnection(timeout, recv, send, isn), ops).c.unclear {
      AdvanceKeeps(Run(NewConnection(timeout, recv, send, isn), ops), op);
    }
  }
}
