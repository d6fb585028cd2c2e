/** The summary of an endpoint as a TCP state, and how it compares with the state diagram of
    RFC 793 (section 3.2, figure 6). */
module TcpStates {
  import opened Senders
  import opened Receivers
  import opened Directions
  import opened Connections
  import opened Network
  import opened Handshake
  import opened Laws
  import SI = SenderInvariants

  datatype SenderState = SenderClosed | SynSent | SynAcked | FinSent | FinAcked | SenderError
  datatype ReceiverState = ReceiverListen | SynRecv | FinRecv | ReceiverError

  function SenderSummary(s: Sender): SenderState {
    if s.stream.error then SenderError
    else if s.next == 0 then SenderClosed
    else if s.next == s.inFlight then SynSent
    else if !s.stream.Eof() then SynAcked
    else if s.next < |s.stream.history| + 2 then SynAcked
    else if s.inFlight != 0 then FinSent
    else FinAcked
  }

  function ReceiverSummary(r: Receiver): ReceiverState {
    if r.reassembler.output.error then ReceiverError
    else if r.AckNumber().None? then ReceiverListen
    else if r.reassembler.output.ended then FinRecv
    else SynRecv
  }

  datatype TCPState = TCPState(sender: SenderState, receiver: ReceiverState, active: bool, linger: bool)

  function StateOf(c: Connection): TCPState {
    TCPState(SenderSummary(c.sender), ReceiverSummary(c.receiver), c.Active(), if c.Active() then c.linger else false)
  }

  datatype Name =
    | LISTEN | SYN_RCVD | SYN_SENT | ESTABLISHED | CLOSE_WAIT | LAST_ACK
    | CLOSING | FIN_WAIT_1 | FIN_WAIT_2 | TIME_WAIT | CLOSED | RESET

  /** The official states in terms of the summary. */
  function Official(name: Name): TCPState {
    match name
    case LISTEN => TCPState(SenderClosed, ReceiverListen, true, true)
    case SYN_RCVD => TCPState(SynSent, SynRecv, true, true)
    case SYN_SENT => TCPState(SynSent, ReceiverListen, true, true)
    case ESTABLISHED => TCPState(SynAcked, SynRecv, true, true)
    case CLOSE_WAIT => TCPState(SynAcked, FinRecv, true, false)
    case LAST_ACK => TCPState(FinSent, FinRecv, true, false)
    case CLOSING => TCPState(FinSent, FinRecv, true, true)
    case FIN_WAIT_1 => TCPState(FinSent, SynRecv, true, true)
    case FIN_WAIT_2 => TCPState(FinAcked, SynRecv, true, true)
    case TIME_WAIT => TCPState(FinAcked, FinRecv, true, true)
    case RESET => TCPState(SenderError, ReceiverError, false, false)
    case CLOSED => TCPState(FinAcked, FinRecv, false, false)
  }

  /** The endpoint has a state the diagram knows. */
  ghost predicate HasName(c: Connection) {
    exists name :: StateOf(c) == Official(name)
  }

  /** The one combination the table lacks: the peer's FIN has arrived while the local stream is
      finished but its own FIN still waits for the window. */
  predicate FinBlocked(c: Connection) {
    c.Active() && c.linger && c.receiver.FinRecv() && c.sender.stream.Eof() && !c.sender.fin
  }

  lemma NamesDiffer(a: Name, b: Name)
    requires Official(a) == Official(b)
    ensures a == b
  {
  }

  /** The name of an endpoint by cases. */
  function NameOf(c: Connection): Name {
    if c.unclear then RESET
    else if c.clear then CLOSED
    else match (ReceiverSummary(c.receiver), SenderSummary(c.sender))
      case (ReceiverListen, SenderClosed) => LISTEN
      case (ReceiverListen, _) => SYN_SENT
      case (SynRecv, SynSent) => SYN_RCVD
      case (SynRecv, FinSent) => FIN_WAIT_1
      case (SynRecv, FinAcked) => FIN_WAIT_2
      case (SynRecv, _) => ESTABLISHED
      case (_, FinSent) => if c.linger then CLOSING else LAST_ACK
      case (_, FinAcked) => TIME_WAIT
      case (_, _) => CLOSE_WAIT
  }

  lemma SynHeardIff(s: Sender)
    requires SI.CoreInv(s) && Opening(s)
    ensures s.next > 0 && s.ackno == 0 ==> s.next == s.inFlight
    ensures s.ackno > 0 ==> s.next != s.inFlight
  {
  }

  lemma Named(n: Net)
    requires Inv(n) && Handshaken(n) && !FinBlocked(n.me)
    ensures StateOf(n.me) == Official(NameOf(n.me))
  {
    hide SI.Tiles, SI.FlightsGenuine, SI.Genuine, SI.NoStall, Follows;
    SynHeardIff(n.me.sender);
  }

  lemma BlockedUnnamed(n: Net)
    requires Inv(n) && Handshaken(n) && FinBlocked(n.me)
    ensures StateOf(n.me) == TCPState(SynAcked, FinRecv, true, true) && !HasName(n.me)
  {
    hide SI.Tiles, SI.FlightsGenuine, SI.Genuine, SI.NoStall, Follows;
    SynHeardIff(n.me.sender);
  }

  lemma FreshHandshaken(n: Net)
    requires Fresh(n)
    ensures Handshaken(n)
  {
  }

  lemma {:induction false} RunHandshaken(n: Net, evs: seq<Event>)
    requires Fresh(n) && Valid(n) && Legal(n, evs)
    ensures Handshaken(Run(n, evs))
  {
    hide Inv, Enabled, Step, Opened, Settled;
    if evs == [] {
      FreshHandshaken(n);
    } else {
      RunHandshaken(n, evs[..|evs| - 1]);
      Laws.RunKeeps(n, evs[..|evs| - 1]);
      var n0, ev := Run(n, evs[..|evs| - 1]), evs[|evs| - 1];
      InvSwap(n0);
      StepHandshaken(Face(n0, ev.mine), ev.op);
    }
  }

  /** In every run, an endpoint is in one of the official states unless its FIN is blocked by a
      full window when the peer's FIN arrives; then it is in none. */
  lemma OfficialStateIff(n: Net, evs: seq<Event>)
    requires Fresh(n) && Valid(n) && Legal(n, evs)
    ensures HasName(Run(n, evs).me) <==> !FinBlocked(Run(n, evs).me)
  {
    hide Run, Inv, StateOf;
    RunHandshaken(n, evs);
    Laws.RunKeeps(n, evs);
    var n' := Run(n, evs);
    if FinBlocked(n'.me) {
      BlockedUnnamed(n');
    } else {
      Named(n');
    }
  }

  /** What the state diagram means by a name, in terms of what was sent and received. */
  predicate Means(name: Name, c: Connection) {
    var s, heard, ended := c.sender, c.receiver.isn.Some?, c.receiver.FinRecv();
    match name
    // Nothing sent, nothing received.
    case LISTEN => c.Active() && s.next == 0 && !heard
    // The own SYN is out, the peer's has not come.
    case SYN_SENT => c.Active() && s.next > 0 && !heard
    // Both SYNs are out, the own one is not acknowledged.
    case SYN_RCVD => c.Active() && heard && !ended && s.ackno == 0
    // Both are acknowledged, and there is no FIN in either direction.
    case ESTABLISHED => c.Active() && heard && !ended && s.ackno > 0 && !s.fin
    // The peer's FIN has come; the own one is not out; it came first.
    case CLOSE_WAIT => c.Active() && ended && !s.fin && !c.linger
    // The own FIN is out and not acknowledged, and the peer's has come first, has come, or has not.
    case LAST_ACK => c.Active() && ended && s.fin && s.ackno < s.next && !c.linger
    case CLOSING => c.Active() && ended && s.fin && s.ackno < s.next && c.linger
    case FIN_WAIT_1 => c.Active() && !ended && s.fin && s.ackno < s.next
    // It is acknowledged, and the peer's has come or has not.
    case TIME_WAIT => c.Active() && ended && s.fin && s.ackno == s.next
    case FIN_WAIT_2 => c.Active() && !ended && s.fin && s.ackno == s.next
    // Both streams are through and the endpoint has shut down, or it has been reset.
    case CLOSED => c.clear && !c.unclear
    case RESET => c.unclear
  }

  lemma SummaryMeans(n: Net, name: Name)
    requires Inv(n) && Handshaken(n)
    ensures StateOf(n.me) == Official(name) <==> Means(name, n.me)
  {
    hide SI.Tiles, SI.FlightsGenuine, SI.Genuine, SI.NoStall, Follows, LingerInv;
    SynHeardIff(n.me.sender);
    FinAckedIff(n.me.sender);
  }

  /** In every run, each official name is the summary of exactly the endpoints that the state diagram
      means by it. */
  lemma NameMeans(n: Net, evs: seq<Event>, name: Name)
    requires Fresh(n) && Valid(n) && Legal(n, evs)
    ensures StateOf(Run(n, evs).me) == Official(name) <==> Means(name, Run(n, evs).me)
  {
    hide Run, Inv, StateOf, Means, Official;
    RunHandshaken(n, evs);
    Laws.RunKeeps(n, evs);
    SummaryMeans(Run(n, evs), name);
  }

  // ---- States only move forward -------------------------------------------------

  function SenderRank(s: SenderState): nat {
    match s
    case SenderClosed => 0
    case SynSent => 1
    case SynAcked => 2
    case FinSent => 3
    case FinAcked => 4
    case SenderError => 5
  }

  function ReceiverRank(r: ReceiverState): nat {
    match r
    case ReceiverListen => 0
    case SynRecv => 1
    case FinRecv => 2
    case ReceiverError => 3
  }

  lemma SenderForward(s: Sender, s': Sender)
    requires SI.CoreInv(s) && SI.CoreInv(s') && SI.Grows(s, s')
    ensures SenderRank(SenderSummary(s)) <= SenderRank(SenderSummary(s'))
  {
    hide SI.Tiles, SI.FlightsGenuine;
  }

  lemma ReceiverForward(r: Receiver, r': Receiver)
    requires Later(r, r')
    ensures ReceiverRank(ReceiverSummary(r)) <= ReceiverRank(ReceiverSummary(r'))
  {
  }

  /** In every run, no event takes the summary of an endpoint back, and an endpoint that is no
      longer active never becomes active again. */
  lemma StatesMoveForward(n: Net, evs: seq<Event>, ev: Event)
    requires Fresh(n) && Valid(n) && Legal(n, evs) && Enabled(Face(Run(n, evs), ev.mine), ev.op)
    ensures var c, c' := Run(n, evs).me, Happen(Run(n, evs), ev).me;
            && SenderRank(SenderSummary(c.sender)) <= SenderRank(SenderSummary(c'.sender))
            && ReceiverRank(ReceiverSummary(c.receiver)) <= ReceiverRank(ReceiverSummary(c'.receiver))
            && (!c.Active() ==> !c'.Active())
            && (!c.clear && c'.clear ==> c'.TimeWait() && (!c'.linger || c'.Silence() >= 10 * c'.timeout))
  {
    hide SI.Tiles, SI.FlightsGenuine, SI.Genuine, SI.NoStall, Follows, Run, Enabled, Step,
         SenderSummary, ReceiverSummary;
    Laws.RunKeeps(n, evs);
    var n0 := Face(Run(n, evs), ev.mine);
    InvSwap(Run(n, evs));
    StepKeeps(n0, ev.op);
    SenderForward(n0.me.sender, Step(n0, ev.op).me.sender);
    ReceiverForward(n0.me.receiver, Step(n0, ev.op).me.receiver);
  }
}
