/** The coordinator with its handlers cut at every lock they take: a datagram is authenticated,
    then bound, then guarded; a ticket request is authenticated, then looked up, then issued;
    and the sweeper may run in between.  What is left behind, exactly. */
module CoordinatorRaces {
  import opened GoStrings
  import opened GoTime
  import opened Ipv4Blocks
  import opened VirtualPool
  import opened LeaseRegistry
  import opened ProbeTickets
  import opened Coordinator
  import opened Buffers
  import R = Relay
  import F = RelayFrame
  import P = Packet
  import C = CoordinatorRuns

  /** The datagram the relay is handling: its sender is known, and maybe bound. */
  datatype Arrival = Arrival(frame: F.Frame, peer: Peer, input: R.Input, bound: bool)

  /** The coordinator, the datagram the relay is handling, the callers of the ticket handler
      that are known, and the pairs (source, target) that it has looked up. */
  datatype State = State(core: C.State, arriving: Option<Arrival>, callers: multiset<Str>, asking: multiset<(Str, Str)>)

  datatype Move =
    | Whole(move: C.Move)
    | Authenticate(input: R.Input)
    | Bind
    | Forward(list: seq<Peer>)
    | Authorize(header: Str)
    | LookUp(caller: Str, target: Str)
    | Mint(source: Str, node: Str, at: Time, token: Option<Str>)

  /** The packet reaches the guard on discovery traffic. */
  predicate Guarded(a: Arrival) {
    && a.frame.kind != F.Hello && |a.frame.payload| <= 65535 && P.IPv4Endpoints(a.frame.payload).Ok?
    && P.IPv4Endpoints(a.frame.payload).value.source == a.peer.virtualIP
    && R.IsDiscoveryPacket(a.frame.payload, P.IPv4Endpoints(a.frame.payload).value.destination)
  }

  function BoundRelay(r: R.RelayState, a: Arrival): R.RelayState {
    r.(endpoints := R.Bind(r.endpoints, a.peer.nodeID, a.input.src, a.input.now))
  }

  /** What is left to do for a bound datagram. */
  ghost function Forwarded(c: C.Config, s: C.State, a: Arrival, list: seq<Peer>): R.RelayState {
    if a.frame.kind == F.Hello then s.relay
    else R.Forward(c.options, s.leases, s.relay, a.peer, a.frame.payload, a.input, list).0
  }

  ghost predicate Step(c: C.Config, s: State, m: Move, s': State) {
    match m
    case Whole(move) =>
      !move.Datagram? && !move.IssueTicket? && C.Step(c, s.core, move, s'.core) && s' == s.(core := s'.core)
    case Authenticate(i) =>
      && s.arriving.None? && F.ParseFrame(i.bytes).Ok?
      && var f := F.ParseFrame(i.bytes).value;
         R.Sender(s.core.leases, f).Some? && s' == s.(arriving := Some(Arrival(f, R.Sender(s.core.leases, f).value, i, false)))
    case Bind =>
      && s.arriving.Some? && !s.arriving.value.bound
      && s' == s.(core := s.core.(relay := BoundRelay(s.core.relay, s.arriving.value)), arriving := Some(s.arriving.value.(bound := true)))
    case Forward(list) =>
      && s.arriving.Some? && s.arriving.value.bound && R.ListOf(s.core.leases, list)
      && s' == s.(core := s.core.(relay := Forwarded(c, s.core, s.arriving.value, list)), arriving := None)
    case Authorize(h) =>
      && Authenticated(s.core.leases, h).Some?
      && s' == s.(callers := s.callers + multiset{Authenticated(s.core.leases, h).value.nodeID})
    case LookUp(caller, target) =>
      && caller in s.callers && TrimSpace(target) != [] && TrimSpace(target) != caller && TrimSpace(target) in s.core.leases.peers
      && s' == s.(callers := s.callers - multiset{caller}, asking := s.asking + multiset{(caller, TrimSpace(target))})
    case Mint(source, node, at, token) =>
      && (source, node) in s.asking && (token.Some? ==> token.value !in s.core.tickets)
      && s' == s.(core := s.core.(tickets := IssueIn(s.core.tickets, c.ticketTTL, source, node, at, token)),
                  asking := s.asking - multiset{(source, node)})
  }

  function Start(c: C.Config): State {
    State(C.State(Leases(c.prefix, 2, map[]), R.RelayState(map[], map[]), map[], C.Resting), None, multiset{}, multiset{})
  }

  ghost predicate Run(c: C.Config, moves: seq<Move>, states: seq<State>) {
    && PoolPrefix(c.prefix) && |states| == |moves| + 1 && states[0] == Start(c)
    && forall k: nat | k < |moves| :: Follows(c, moves, states, k)
  }

  ghost predicate Follows(c: C.Config, moves: seq<Move>, states: seq<State>, k: nat)
    requires |states| == |moves| + 1 && k < |moves|
  {
    Step(c, states[k], moves[k], states[k + 1])
  }

  lemma StepAt(c: C.Config, moves: seq<Move>, states: seq<State>, k: nat)
    requires Run(c, moves, states) && k < |moves|
    ensures Step(c, states[k], moves[k], states[k + 1])
  {
    assert Follows(c, moves, states, k);
  }

  lemma NothingAtStart(c: C.Config, moves: seq<Move>, states: seq<State>)
    requires Run(c, moves, states)
    ensures states[0].core.relay == R.RelayState(map[], map[]) && states[0].core.tickets == map[]
  {
  }

  // ---- the relay's memory ------------------------------------------------------------------

  /** The relay remembers nodes in two maps, each under its own lock. */
  datatype Memory = Endpoints | Discovery

  function Remembered(s: State, kind: Memory): set<Str> {
    if kind.Endpoints? then s.core.relay.endpoints.Keys else s.core.relay.discovery.Keys
  }

  /** Nodes that may be remembered: leased, or still to be forgotten in this map. */
  function RelayNodes(s: State, kind: Memory): set<Str> {
    s.core.leases.peers.Keys + if kind.Endpoints? then C.EndpointsOwe(s.core.sweeper) else C.DiscoveryOwes(s.core.sweeper)
  }

  /** The step records the node: it binds its endpoint, or makes or uses its bucket. */
  predicate Records(s: State, m: Move, n: Str, kind: Memory) {
    && s.arriving.Some? && s.arriving.value.peer.nodeID == n
    && if kind.Endpoints? then m.Bind? else m.Forward? && Guarded(s.arriving.value)
  }

  predicate ForgetsNode(s: State, m: Move, n: Str, kind: Memory) {
    && m.Whole? && (if kind.Endpoints? then m.move.ForgetEndpoint? else m.move.ForgetDiscovery?)
    && s.core.sweeper.Clearing? && s.core.sweeper.todo != [] && s.core.sweeper.todo[0] == n
  }

  /** Step j records the node although its lease is gone and the map was cleaned up after it,
      and the node has not been forgotten there since. */
  predicate LateRecord(moves: seq<Move>, states: seq<State>, j: nat, k: nat, n: Str, kind: Memory)
    requires |states| == |moves| + 1
  {
    && j < k <= |moves| && Records(states[j], moves[j], n, kind) && n !in RelayNodes(states[j], kind)
    && forall m :: j < m < k ==> !ForgetsNode(states[m], moves[m], n, kind)
  }

  lemma ForwardRecords(c: C.Config, s: C.State, a: Arrival, list: seq<Peer>)
    ensures Forwarded(c, s, a, list).endpoints == s.relay.endpoints
    ensures Forwarded(c, s, a, list).discovery.Keys == s.relay.discovery.Keys + if Guarded(a) then {a.peer.nodeID} else {}
  {
  }

  lemma RecordStep(c: C.Config, s: State, m: Move, s': State, n: Str, kind: Memory)
    requires Step(c, s, m, s') && Records(s, m, n, kind)
    ensures n in Remembered(s', kind) && RelayNodes(s', kind) == RelayNodes(s, kind)
  {
    if m.Forward? { ForwardRecords(c, s.core, s.arriving.value, m.list); }
  }

  lemma MemoryStep(c: C.Config, s: State, m: Move, s': State, n: Str, kind: Memory)
    requires Step(c, s, m, s') && !Records(s, m, n, kind)
    ensures n in Remembered(s', kind) <==> n in Remembered(s, kind) && !ForgetsNode(s, m, n, kind)
  {
    if m.Forward? { ForwardRecords(c, s.core, s.arriving.value, m.list); }
  }

  lemma RelayNodesShrink(c: C.Config, s: State, m: Move, s': State, n: Str, kind: Memory)
    requires Step(c, s, m, s') && n in RelayNodes(s, kind) && n !in RelayNodes(s', kind)
    ensures ForgetsNode(s, m, n, kind)
  {
  }

  ghost predicate RecordedLate(moves: seq<Move>, states: seq<State>, k: nat, n: Str, kind: Memory)
    requires |states| == |moves| + 1
  {
    exists j: nat :: LateRecord(moves, states, j, k, n, kind)
  }

  lemma LateRecordExtends(moves: seq<Move>, states: seq<State>, j: nat, k: nat, n: Str, kind: Memory)
    requires |states| == |moves| + 1 && j < k < |moves|
    ensures LateRecord(moves, states, j, k + 1, n, kind) <==>
            LateRecord(moves, states, j, k, n, kind) && !ForgetsNode(states[k], moves[k], n, kind)
  {
  }

  lemma RecordedLateExtends(moves: seq<Move>, states: seq<State>, k: nat, n: Str, kind: Memory)
    requires |states| == |moves| + 1 && k < |moves| && !Records(states[k], moves[k], n, kind)
    ensures RecordedLate(moves, states, k + 1, n, kind) <==>
            RecordedLate(moves, states, k, n, kind) && !ForgetsNode(states[k], moves[k], n, kind)
  {
    if RecordedLate(moves, states, k + 1, n, kind) {
      var j: nat :| LateRecord(moves, states, j, k + 1, n, kind);
      LateRecordExtends(moves, states, j, k, n, kind);
    }
    if RecordedLate(moves, states, k, n, kind) {
      var j: nat :| LateRecord(moves, states, j, k, n, kind);
      LateRecordExtends(moves, states, j, k, n, kind);
    }
  }

  /** A node without a lease, and not still to be forgotten in this map, is remembered there
      exactly if it was recorded late. */
  ghost predicate LeftMatches(moves: seq<Move>, states: seq<State>, k: nat, n: Str, kind: Memory)
    requires |states| == |moves| + 1 && k <= |moves|
  {
    n !in RelayNodes(states[k], kind) ==> (n in Remembered(states[k], kind) <==> RecordedLate(moves, states, k, n, kind))
  }

  lemma NothingLeftAtStart(c: C.Config, moves: seq<Move>, states: seq<State>, n: Str, kind: Memory)
    requires Run(c, moves, states)
    ensures LeftMatches(moves, states, 0, n, kind)
  {
    NothingAtStart(c, moves, states);
  }

  lemma {:induction false} LeftMatchesInRuns(c: C.Config, moves: seq<Move>, states: seq<State>, k: nat, n: Str, kind: Memory)
    requires Run(c, moves, states) && k <= |moves|
    ensures LeftMatches(moves, states, k, n, kind)
  {
    if k == 0 {
      NothingLeftAtStart(c, moves, states, n, kind);
    } else {
      LeftMatchesInRuns(c, moves, states, k - 1, n, kind);
      StepAt(c, moves, states, k - 1);
      LeftNext(c, moves, states, k - 1, n, kind);
    }
  }

  lemma LeftNext(c: C.Config, moves: seq<Move>, states: seq<State>, k: nat, n: Str, kind: Memory)
    requires |states| == |moves| + 1 && k < |moves| && Step(c, states[k], moves[k], states[k + 1])
    requires LeftMatches(moves, states, k, n, kind)
    ensures LeftMatches(moves, states, k + 1, n, kind)
  {
    var s, m, s' := states[k], moves[k], states[k + 1];
    if Records(s, m, n, kind) {
      RecordStep(c, s, m, s', n, kind);
      assert n !in RelayNodes(s, kind) ==> LateRecord(moves, states, k, k + 1, n, kind);
    } else {
      MemoryStep(c, s, m, s', n, kind);
      RecordedLateExtends(moves, states, k, n, kind);
      if n in RelayNodes(s, kind) && n !in RelayNodes(s', kind) { RelayNodesShrink(c, s, m, s', n, kind); }
    }
  }

  /** A node without a lease, and not still to be forgotten, has an endpoint exactly if it was
      bound late, and discovery state exactly if it was guarded late. */
  lemma LeftIffRecordedLate(c: C.Config, moves: seq<Move>, states: seq<State>, k: nat, n: Str, kind: Memory)
    requires Run(c, moves, states) && k <= |moves| && n !in RelayNodes(states[k], kind)
    ensures n in Remembered(states[k], kind) <==> RecordedLate(moves, states, k, n, kind)
  {
    LeftMatchesInRuns(c, moves, states, k, n, kind);
  }

  // ---- tickets ------------------------------------------------------------------------------

  /** Nodes whose tickets are in order. */
  function TicketNodes(s: State): set<Str> {
    s.core.leases.peers.Keys + C.TicketsOwe(s.core.sweeper)
  }

  predicate Holds(s: State, t: ProbeTicket) {
    t.ticket in s.core.tickets && s.core.tickets[t.ticket] == t
  }

  predicate Mints(c: C.Config, m: Move, t: ProbeTicket) {
    m.Mint? && Minted(c.ticketTTL, m.source, m.node, m.at, m.token) == Issued(t)
  }

  /** The step takes the ticket out of the manager's map. */
  ghost predicate Drops(c: C.Config, s: State, m: Move, t: ProbeTicket) {
    match m
    case Whole(ForgetTickets) => s.core.sweeper.Clearing? && s.core.sweeper.todo != [] && Names(t, TrimSpace(s.core.sweeper.todo[0])) && TrimSpace(s.core.sweeper.todo[0]) != []
    case Whole(PruneTickets(at)) => !(at < t.expiresAt)
    case Whole(ListTickets(h, at)) => Authenticated(s.core.leases, h).Some? && !(at < t.expiresAt)
    case Mint(source, node, at, token) => Minted(c.ticketTTL, source, node, at, token).Issued? && !(at < t.expiresAt)
    case _ => false
  }

  /** Step j issues the ticket although its node's lease is gone and cleaned up after, and
      the ticket has not been dropped since. */
  ghost predicate LateMint(c: C.Config, moves: seq<Move>, states: seq<State>, j: nat, k: nat, t: ProbeTicket, n: Str)
    requires |states| == |moves| + 1
  {
    && j < k <= |moves| && Mints(c, moves[j], t) && Names(t, n) && n !in TicketNodes(states[j])
    && forall m :: j < m < k ==> !Drops(c, states[m], moves[m], t)
  }

  lemma MintStep(c: C.Config, s: State, m: Move, s': State, t: ProbeTicket)
    requires Step(c, s, m, s') && Mints(c, m, t)
    ensures Holds(s', t) && TicketNodes(s') == TicketNodes(s)
  {
  }

  lemma TicketStep(c: C.Config, s: State, m: Move, s': State, t: ProbeTicket)
    requires Step(c, s, m, s') && !Mints(c, m, t)
    ensures Holds(s', t) <==> Holds(s, t) && !Drops(c, s, m, t)
  {
    if m.Whole? { TicketWholeStep(c, s, m, s', t); } else if m.Mint? { TicketMintStep(c, s, m, s', t); }
  }

  lemma TicketWholeStep(c: C.Config, s: State, m: Move, s': State, t: ProbeTicket)
    requires Step(c, s, m, s') && m.Whole?
    ensures Holds(s', t) <==> Holds(s, t) && !Drops(c, s, m, t)
  {
  }

  lemma TicketMintStep(c: C.Config, s: State, m: Move, s': State, t: ProbeTicket)
    requires Step(c, s, m, s') && m.Mint? && !Mints(c, m, t)
    ensures Holds(s', t) <==> Holds(s, t) && !Drops(c, s, m, t)
  {
  }

  lemma TicketNodesShrink(c: C.Config, s: State, m: Move, s': State, t: ProbeTicket, n: Str)
    requires Step(c, s, m, s') && n in TicketNodes(s) && n !in TicketNodes(s') && Names(t, n) && n != [] && Trimmed(n)
    ensures Drops(c, s, m, t)
  {
    TrimSpaceTrims(n);
  }

  ghost predicate IssuedLate(c: C.Config, moves: seq<Move>, states: seq<State>, k: nat, t: ProbeTicket, n: Str)
    requires |states| == |moves| + 1
  {
    exists j: nat :: LateMint(c, moves, states, j, k, t, n)
  }

  lemma IssuedLateExtends(c: C.Config, moves: seq<Move>, states: seq<State>, k: nat, t: ProbeTicket, n: Str)
    requires |states| == |moves| + 1 && 0 < k <= |moves| && !Mints(c, moves[k - 1], t)
    ensures IssuedLate(c, moves, states, k, t, n) <==> IssuedLate(c, moves, states, k - 1, t, n) && !Drops(c, states[k - 1], moves[k - 1], t)
  {
    if j: nat :| LateMint(c, moves, states, j, k, t, n) { assert LateMint(c, moves, states, j, k - 1, t, n); }
    if IssuedLate(c, moves, states, k - 1, t, n) && !Drops(c, states[k - 1], moves[k - 1], t) {
      var j: nat :| LateMint(c, moves, states, j, k - 1, t, n);
      assert LateMint(c, moves, states, j, k, t, n);
    }
  }

  ghost predicate TicketMatches(c: C.Config, moves: seq<Move>, states: seq<State>, k: nat, t: ProbeTicket, n: Str)
    requires |states| == |moves| + 1 && k <= |moves|
  {
    n !in TicketNodes(states[k]) ==> (Holds(states[k], t) <==> IssuedLate(c, moves, states, k, t, n))
  }

  lemma NoTicketAtStart(c: C.Config, moves: seq<Move>, states: seq<State>, t: ProbeTicket, n: Str)
    requires Run(c, moves, states)
    ensures TicketMatches(c, moves, states, 0, t, n)
  {
    NothingAtStart(c, moves, states);
  }

  lemma {:induction false} TicketMatchesInRuns(c: C.Config, moves: seq<Move>, states: seq<State>, k: nat, t: ProbeTicket, n: Str)
    requires Run(c, moves, states) && k <= |moves| && Names(t, n) && n != [] && Trimmed(n)
    ensures TicketMatches(c, moves, states, k, t, n)
  {
    if k == 0 {
      NoTicketAtStart(c, moves, states, t, n);
    } else {
      TicketMatchesInRuns(c, moves, states, k - 1, t, n);
      StepAt(c, moves, states, k - 1);
      TicketLeftNext(c, moves, states, k - 1, t, n);
    }
  }

  lemma TicketLeftNext(c: C.Config, moves: seq<Move>, states: seq<State>, k: nat, t: ProbeTicket, n: Str)
    requires |states| == |moves| + 1 && k < |moves| && Step(c, states[k], moves[k], states[k + 1])
    requires TicketMatches(c, moves, states, k, t, n) && Names(t, n) && n != [] && Trimmed(n)
    ensures TicketMatches(c, moves, states, k + 1, t, n)
  {
    var s, m, s' := states[k], moves[k], states[k + 1];
    if Mints(c, m, t) {
      MintStep(c, s, m, s', t);
      assert n !in TicketNodes(s) ==> LateMint(c, moves, states, k, k + 1, t, n);
    } else {
      TicketStep(c, s, m, s', t);
      IssuedLateExtends(c, moves, states, k + 1, t, n);
      if n in TicketNodes(s) && n !in TicketNodes(s') { TicketNodesShrink(c, s, m, s', t, n); }
    }
  }

  /** A ticket names a node without a lease, and not on the sweeper's list, exactly if it was
      issued late. */
  lemma TicketLeftIffLateMint(c: C.Config, moves: seq<Move>, states: seq<State>, k: nat, t: ProbeTicket, n: Str)
    requires Run(c, moves, states) && k <= |moves| && n !in TicketNodes(states[k]) && Names(t, n) && n != [] && Trimmed(n)
    ensures Holds(states[k], t) <==> IssuedLate(c, moves, states, k, t, n)
  {
    TicketMatchesInRuns(c, moves, states, k, t, n);
  }

  // ---- the coordinator at rest -----------------------------------------------------------------

  /** Every ticket is kept under its token and names trimmed, non-empty IDs. */
  predicate TicketsFormed(m: Tickets) {
    forall k :: k in m ==> m[k].ticket == k && NodeID(m[k].sourceNode) && NodeID(m[k].targetNode)
  }

  predicate NodeID(n: Str) {
    n != [] && Trimmed(n)
  }

  lemma {:induction false} TicketsStayFormed(c: C.Config, moves: seq<Move>, states: seq<State>, k: nat)
    requires Run(c, moves, states) && k <= |moves|
    ensures TicketsFormed(states[k].core.tickets)
  {
    if k > 0 {
      TicketsStayFormed(c, moves, states, k - 1);
      StepAt(c, moves, states, k - 1);
      FormedStep(c, states[k - 1], moves[k - 1], states[k]);
    }
  }

  lemma FormedStep(c: C.Config, s: State, m: Move, s': State)
    requires Step(c, s, m, s') && TicketsFormed(s.core.tickets)
    ensures TicketsFormed(s'.core.tickets)
  {
    if m.Mint? {
      TrimSpaceTrims(m.source);
      TrimSpaceTrims(m.node);
    }
  }

  /** No node without a lease was bound, guarded or named in a ticket late, and is still there. */
  ghost predicate NothingLate(c: C.Config, moves: seq<Move>, states: seq<State>, k: nat)
    requires |states| == |moves| + 1 && k <= |moves|
  {
    && (forall n, kind | n !in states[k].core.leases.peers :: !RecordedLate(moves, states, k, n, kind))
    && (forall t, n | n !in states[k].core.leases.peers && NodeID(n) && Names(t, n) :: !IssuedLate(c, moves, states, k, t, n))
  }

  ghost predicate Clean(s: State) {
    C.Within(s.core.relay, s.core.leases.peers.Keys) && C.TicketsWithin(s.core.tickets, s.core.leases.peers.Keys)
  }

  /** Between sweeps, endpoints, discovery state and tickets name leased nodes only if and only
      if no part of a handler ran late: for a node whose lease was gone and cleaned up after. */
  lemma CleanIffNothingLate(c: C.Config, moves: seq<Move>, states: seq<State>, k: nat)
    requires Run(c, moves, states) && k <= |moves| && states[k].core.sweeper.Resting?
    ensures Clean(states[k]) <==> NothingLate(c, moves, states, k)
  {
    var s, leased := states[k], states[k].core.leases.peers;
    TicketsStayFormed(c, moves, states, k);
    forall n, kind | n !in leased ensures n in Remembered(s, kind) <==> RecordedLate(moves, states, k, n, kind) {
      LeftIffRecordedLate(c, moves, states, k, n, kind);
    }
    forall t, n | n !in leased && NodeID(n) && Names(t, n) ensures Holds(s, t) <==> IssuedLate(c, moves, states, k, t, n) {
      TicketLeftIffLateMint(c, moves, states, k, t, n);
    }
    CleanMeans(s);
  }

  lemma CleanMeans(s: State)
    requires TicketsFormed(s.core.tickets)
    ensures Clean(s) <==>
            && (forall n, kind | n !in s.core.leases.peers :: n !in Remembered(s, kind))
            && (forall t, n | n !in s.core.leases.peers && NodeID(n) && Names(t, n) :: !Holds(s, t))
  {
    forall k | k in s.core.tickets ensures Holds(s, s.core.tickets[k]) {}
    forall n ensures n in Remembered(s, Endpoints) <==> n in s.core.relay.endpoints {}
    forall n ensures n in Remembered(s, Discovery) <==> n in s.core.relay.discovery {}
  }

  // ---- such runs exist -----------------------------------------------------------------------

  /** A run that ends in this state. */
  ghost predicate Reaches(c: C.Config, moves: seq<Move>, s: State) {
    exists states :: Run(c, moves, states) && states[|moves|] == s
  }

  lemma Reach(c: C.Config, moves: seq<Move>, s: State, m: Move, s': State)
    requires Reaches(c, moves, s) && Step(c, s, m, s')
    ensures Reaches(c, moves + [m], s')
  {
    var states :| Run(c, moves, states) && states[|moves|] == s;
    var more := states + [s'];
    forall k: nat | k < |moves + [m]| ensures Follows(c, moves + [m], more, k) {
      if k < |moves| { StepAt(c, moves, states, k); }
    }
    assert Run(c, moves + [m], more) && more[|moves + [m]|] == s';
  }

  lemma ReachStart(c: C.Config)
    requires PoolPrefix(c.prefix)
    ensures Reaches(c, [], Start(c))
  {
    assert Run(c, [], [Start(c)]);
  }

  /** A node registers and the relay authenticates a frame from it. */
  function Arriving(n: Str, token: Str, i: R.Input, at: Time): seq<Move> {
    [] + [Whole(C.Register(n, at, Some(token)))] + [Authenticate(i)]
  }

  /** A whole sweep that expires one node. */
  function Sweeping(n: Str, expiry: Time): seq<Move> {
    [Whole(C.Expire(expiry, [n])), Whole(C.ForgetEndpoint), Whole(C.ForgetDiscovery), Whole(C.ForgetTickets), Whole(C.PruneTickets(expiry))]
  }

  lemma FirstLease(prefix: Block, n: Str, token: Str, at: Time) returns (l: Leases, peer: Peer)
    requires PoolPrefix(prefix) && NodeID(n)
    ensures 2 <= Last(prefix.bits)
    ensures l == RegisterIn(Leases(prefix, 2, map[]), n, at, Some(token)).0 && LeasesValid(l)
    ensures l.peers == map[n := peer] && peer == Peer(n, AddOffset(prefix.addr, 2), token, at)
    ensures ByToken(l, token) == Some(peer)
  {
    LastIsBroadcast(prefix.bits);
    TrimSpaceTrims(n);
    var start := Leases(prefix, 2, map[]);
    RegisterKeepsValid(start, n, at, Some(token));
    l := RegisterIn(start, n, at, Some(token)).0;
    peer := l.peers[n];
    assert TokenInUse(l, token);
  }

  lemma ReachArrival(c: C.Config, n: Str, i: R.Input, f: F.Frame, at: Time) returns (l: Leases, s: State)
    requires PoolPrefix(c.prefix) && NodeID(n) && F.Sendable(f) && f.kind != F.Deliver && i.bytes == F.Bytes(f)
    ensures Reaches(c, Arriving(n, f.token, i, at), s)
    ensures l.peers == map[n := Peer(n, AddOffset(c.prefix.addr, 2), f.token, at)]
    ensures s == Start(c).(core := Start(c).core.(leases := l), arriving := Some(Arrival(f, l.peers[n], i, false)))
  {
    var peer;
    l, peer := FirstLease(c.prefix, n, f.token, at);
    F.ParseUndoesMarshal(f);
    var s1 := Start(c).(core := Start(c).core.(leases := l));
    s := s1.(arriving := Some(Arrival(f, peer, i, false)));
    ReachStart(c);
    Reach(c, [], Start(c), Whole(C.Register(n, at, Some(f.token))), s1);
    Reach(c, [] + [Whole(C.Register(n, at, Some(f.token)))], s1, Authenticate(i), s);
  }

  /** The coordinator after that sweep. */
  function Swept(c: C.Config, s: State, n: Str, expiry: Time): State {
    s.(core := s.core.(leases := ExpireIn(s.core.leases, expiry - c.leaseTTL), relay := RelayWithout(s.core.relay, {n})))
  }

  lemma SweepSteps(c: C.Config, s: State, n: Str, expiry: Time) returns (s1: State, s2: State, s3: State, s4: State)
    requires s.core.sweeper.Resting? && s.core.tickets == map[] && NodeID(n)
    requires ExpiredNodes(s.core.leases, expiry - c.leaseTTL) == {n}
    ensures Step(c, s, Whole(C.Expire(expiry, [n])), s1) && Step(c, s1, Whole(C.ForgetEndpoint), s2)
    ensures Step(c, s2, Whole(C.ForgetDiscovery), s3) && Step(c, s3, Whole(C.ForgetTickets), s4)
    ensures Step(c, s4, Whole(C.PruneTickets(expiry)), Swept(c, s, n, expiry))
  {
    var r := s.core.relay;
    s1 := s.(core := s.core.(leases := ExpireIn(s.core.leases, expiry - c.leaseTTL), sweeper := C.Clearing([n], C.AtEndpoint)));
    s2 := s1.(core := s1.core.(relay := r.(endpoints := r.endpoints - {n}), sweeper := C.Clearing([n], C.AtDiscovery)));
    s3 := s2.(core := s2.core.(relay := RelayWithout(r, {n}), sweeper := C.Clearing([n], C.AtTickets)));
    s4 := s3.(core := s3.core.(sweeper := C.Clearing([], C.AtEndpoint)));
    assert [n][1..] == [];
    assert ForgetIn(map[], n) == map[] && PruneIn(map[], expiry) == map[];
  }

  lemma ReachSwept(c: C.Config, moves: seq<Move>, s: State, n: Str, expiry: Time)
    requires Reaches(c, moves, s) && s.core.sweeper.Resting? && s.core.tickets == map[] && NodeID(n)
    requires ExpiredNodes(s.core.leases, expiry - c.leaseTTL) == {n}
    ensures Reaches(c, moves + Sweeping(n, expiry), Swept(c, s, n, expiry))
  {
    var s1, s2, s3, s4 := SweepSteps(c, s, n, expiry);
    var m := Sweeping(n, expiry);
    Reach(c, moves, s, m[0], s1);
    Reach(c, moves + [m[0]], s1, m[1], s2);
    Reach(c, moves + [m[0]] + [m[1]], s2, m[2], s3);
    Reach(c, moves + [m[0]] + [m[1]] + [m[2]], s3, m[3], s4);
    Reach(c, moves + [m[0]] + [m[1]] + [m[2]] + [m[3]], s4, m[4], Swept(c, s, n, expiry));
    assert moves + m == moves + [m[0]] + [m[1]] + [m[2]] + [m[3]] + [m[4]];
  }

  lemma OnlyLeaseExpires(l: Leases, n: Str, peer: Peer, cutoff: Time)
    requires l.peers == map[n := peer] && peer.lastSeen <= cutoff
    ensures ExpiredNodes(l, cutoff) == {n} && ExpireIn(l, cutoff).peers == map[] && R.ListOf(ExpireIn(l, cutoff), [])
  {
    assert ExpireIn(l, cutoff).peers.Keys == {};
  }

  function AfterBind(s: State): State
    requires s.arriving.Some?
  {
    s.(core := s.core.(relay := BoundRelay(s.core.relay, s.arriving.value)), arriving := Some(s.arriving.value.(bound := true)))
  }

  ghost function AfterForward(c: C.Config, s: State): State
    requires s.arriving.Some?
  {
    s.(core := s.core.(relay := Forwarded(c, s.core, s.arriving.value, [])), arriving := None)
  }

  lemma ReachBound(c: C.Config, moves: seq<Move>, s: State)
    requires Reaches(c, moves, s) && s.arriving.Some? && !s.arriving.value.bound
    ensures Reaches(c, moves + [Bind], AfterBind(s))
  {
    Reach(c, moves, s, Bind, AfterBind(s));
  }

  /** The last step of a handler when nobody holds a lease any more. */
  lemma ReachForwarded(c: C.Config, moves: seq<Move>, s: State)
    requires Reaches(c, moves, s) && s.arriving.Some? && s.arriving.value.bound && R.ListOf(s.core.leases, [])
    ensures Reaches(c, moves + [Forward([])], AfterForward(c, s))
    ensures AfterForward(c, s).core.relay.endpoints == s.core.relay.endpoints
    ensures AfterForward(c, s).core.leases == s.core.leases && AfterForward(c, s).core.sweeper == s.core.sweeper
    ensures Guarded(s.arriving.value) ==> s.arriving.value.peer.nodeID in AfterForward(c, s).core.relay.discovery
  {
    ForwardRecords(c, s.core, s.arriving.value, []);
    Reach(c, moves, s, Forward([]), AfterForward(c, s));
  }

  /** A run that leaves the endpoint of a node without a lease behind: the sweep falls between
      authenticating and binding. */
  lemma RaceLeavesEndpoint(c: C.Config, n: Str, i: R.Input, f: F.Frame, at: Time, expiry: Time) returns (s: State)
    requires PoolPrefix(c.prefix) && NodeID(n) && F.Sendable(f) && f.kind != F.Deliver && i.bytes == F.Bytes(f)
    requires expiry - at >= c.leaseTTL
    ensures Reaches(c, Arriving(n, f.token, i, at) + Sweeping(n, expiry) + [Bind] + [Forward([])], s)
    ensures s.core.sweeper.Resting? && n !in s.core.leases.peers && n in s.core.relay.endpoints
  {
    var l, s1 := ReachArrival(c, n, i, f, at);
    OnlyLeaseExpires(l, n, l.peers[n], expiry - c.leaseTTL);
    var moves := Arriving(n, f.token, i, at);
    ReachSwept(c, moves, s1, n, expiry);
    var s2 := Swept(c, s1, n, expiry);
    ReachBound(c, moves + Sweeping(n, expiry), s2);
    ReachForwarded(c, moves + Sweeping(n, expiry) + [Bind], AfterBind(s2));
    s := AfterForward(c, AfterBind(s2));
  }

  /** A run in which nothing is bound late and still discovery state of a node without lease
      or endpoint is left behind: the sweep falls between binding and guarding. */
  lemma RaceLeavesDiscovery(c: C.Config, n: Str, i: R.Input, f: F.Frame, at: Time, expiry: Time) returns (s: State)
    requires PoolPrefix(c.prefix) && NodeID(n) && F.Sendable(f) && i.bytes == F.Bytes(f) && expiry - at >= c.leaseTTL
    requires f.kind == F.Packet && Guarded(Arrival(f, Peer(n, AddOffset(c.prefix.addr, 2), f.token, at), i, true))
    ensures Reaches(c, Arriving(n, f.token, i, at) + [Bind] + Sweeping(n, expiry) + [Forward([])], s)
    ensures s.core.sweeper.Resting? && n !in s.core.leases.peers && n !in s.core.relay.endpoints && n in s.core.relay.discovery
  {
    var l, s1 := ReachArrival(c, n, i, f, at);
    OnlyLeaseExpires(l, n, l.peers[n], expiry - c.leaseTTL);
    var moves := Arriving(n, f.token, i, at);
    ReachBound(c, moves, s1);
    var s2 := AfterBind(s1);
    ReachSwept(c, moves + [Bind], s2, n, expiry);
    var s3 := Swept(c, s2, n, expiry);
    ReachForwarded(c, moves + [Bind] + Sweeping(n, expiry), s3);
    s := AfterForward(c, s3);
  }

  /** The run needs a discovery packet from the node's address, and there is one. */
  lemma MdnsIsGuarded(f: F.Frame, peer: Peer, i: R.Input, bound: bool)
    requires f.kind == F.Packet && f.payload == MdnsPacket(peer.virtualIP)
    ensures Guarded(Arrival(f, peer, i, bound))
  {
    MdnsIsDiscovery(peer.virtualIP);
  }

  /** An empty mDNS packet: an IPv4 header of 20 bytes and a UDP header. */
  function MdnsPacket(source: Addr): Str {
    MdnsHead() + (Be32(source) + Be32(R.MDNS)) + MdnsTail()
  }

  function MdnsHead(): (s: Str)
    ensures |s| == 12
  {
    [0x45, 0, 0, 28, 0, 0, 0, 0, 1, 17, 0, 0]
  }

  function MdnsTail(): (s: Str)
    ensures |s| == 8
  {
    Be16(5353) + Be16(5353) + [0, 8, 0, 0]
  }

  lemma MdnsSlices(source: Addr)
    ensures var b := MdnsPacket(source);
            && |b| == 28 && b[..12] == MdnsHead() && b[12..16] == Be32(source) && b[16..20] == Be32(R.MDNS) && b[20..] == MdnsTail()
  {
    var b, mid := MdnsPacket(source), Be32(source) + Be32(R.MDNS);
    assert b[12..20] == mid;
    assert b[12..16] == b[12..20][..4] && b[16..20] == b[12..20][4..];
  }

  lemma MdnsIsDiscovery(source: Addr)
    ensures |MdnsPacket(source)| == 28 && P.IPv4Endpoints(MdnsPacket(source)) == P.Ok(P.Endpoints(source, R.MDNS))
    ensures R.IsDiscoveryPacket(MdnsPacket(source), R.MDNS)
  {
    var b, h := MdnsPacket(source), MdnsHead();
    MdnsSlices(source);
    assert b[0] == b[..12][0] == 0x45 && b[9] == b[..12][9] == 17 && b[6..8] == b[..12][6..8] == [0, 0];
    assert b[20..22] == MdnsTail()[..2] == Be16(5353) && b[22..24] == MdnsTail()[2..4] == Be16(5353);
    assert P.Headed(b, 20) && P.UDPHeaded(b, 20) && P.PortsAt(b, 20, P.Ports(5353, 5353));
    P.EndpointsIffHeaded(b, P.Endpoints(source, R.MDNS));
    P.PortsIffUDP(b, P.Ports(5353, 5353));
  }
}
