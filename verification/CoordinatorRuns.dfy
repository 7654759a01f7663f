/** Whole runs of the coordinator: what the relay and the ticket manager remember names only
    nodes that are leased or that the sweeper is about to clean up after. */
module CoordinatorRuns {
  import opened FiniteSets
  import opened GoStrings
  import opened GoTime
  import opened Ipv4Blocks
  import opened VirtualPool
  import opened LeaseRegistry
  import opened ProbeTickets
  import opened Coordinator
  import R = Relay
  import D = Discovery
  import F = RelayFrame

  /** Where the sweeper is: the expired nodes it has still to clean up after, and what of the
      first of them is to be forgotten next. */
  datatype Sweeper = Resting | Clearing(todo: seq<Str>, stage: Stage)

  /** `ForgetPeer` takes one lock for the endpoint and another for the discovery state. */
  datatype Stage = AtEndpoint | AtDiscovery | AtTickets

  datatype State = State(leases: Leases, relay: R.RelayState, tickets: Tickets, sweeper: Sweeper)

  datatype Config = Config(prefix: Block, options: D.Options, leaseTTL: int, ticketTTL: int)

  /** Each handler and each datagram is one step; a sweep is many, with other steps between,
      and cleans up after the expired nodes in any order. */
  datatype Move =
    | Register(nodeID: Str, at: Time, token: Option<Str>)
    | Heartbeat(header: Str, at: Time)
    | Datagram(input: R.Input, list: seq<Peer>)
    | IssueTicket(header: Str, target: Str, at: Time, token: Option<Str>)
    | ListTickets(header: Str, at: Time)
    | Expire(at: Time, queue: seq<Str>)
    | ForgetEndpoint
    | ForgetDiscovery
    | ForgetTickets
    | PruneTickets(at: Time)

  ghost predicate Step(c: Config, s: State, m: Move, s': State) {
    match m
    case Register(n, at, token) =>
      && PoolPrefix(s.leases.prefix) && 2 <= s.leases.next <= Last(s.leases.prefix.bits)
      && (token.Some? ==> !TokenInUse(s.leases, token.value))
      && s' == s.(leases := RegisterIn(s.leases, n, at, token).0)
    case Heartbeat(h, at) =>
      s' == if Authenticated(s.leases, h).Some? then s.(leases := TouchIn(s.leases, BearerToken(h), at)) else s
    case Datagram(i, list) =>
      R.ListOf(s.leases, list) && s' == s.(relay := R.Handle(c.options, s.leases, s.relay, i, list).0)
    case IssueTicket(h, target, at, token) =>
      s' == s.(tickets := IssueProbeTicketIn(s.leases, s.tickets, c.ticketTTL, h, target, at, token).0)
    case ListTickets(h, at) =>
      s' == if Authenticated(s.leases, h).Some? then s.(tickets := PruneIn(s.tickets, at)) else s
    case Expire(at, queue) =>
      && s.sweeper.Resting? && Elements(queue) == ExpiredNodes(s.leases, at - c.leaseTTL)
      && s' == s.(leases := ExpireIn(s.leases, at - c.leaseTTL), sweeper := Clearing(queue, AtEndpoint))
    case ForgetEndpoint =>
      && AtStage(s.sweeper, AtEndpoint)
      && s' == s.(relay := s.relay.(endpoints := s.relay.endpoints - {s.sweeper.todo[0]}), sweeper := s.sweeper.(stage := AtDiscovery))
    case ForgetDiscovery =>
      && AtStage(s.sweeper, AtDiscovery)
      && s' == s.(relay := s.relay.(discovery := s.relay.discovery - {s.sweeper.todo[0]}), sweeper := s.sweeper.(stage := AtTickets))
    case ForgetTickets =>
      && AtStage(s.sweeper, AtTickets)
      && s' == s.(tickets := ForgetIn(s.tickets, s.sweeper.todo[0]), sweeper := Clearing(s.sweeper.todo[1..], AtEndpoint))
    case PruneTickets(at) =>
      && s.sweeper.Clearing? && s.sweeper.todo == []
      && s' == s.(tickets := PruneIn(s.tickets, at), sweeper := Resting)
  }

  predicate AtStage(s: Sweeper, stage: Stage) {
    s.Clearing? && s.todo != [] && s.stage == stage
  }

  function Queue(expired: seq<Peer>): seq<Str> {
    seq(|expired|, i requires 0 <= i < |expired| => expired[i].nodeID)
  }

  ghost predicate Run(c: Config, moves: seq<Move>, states: seq<State>) {
    && PoolPrefix(c.prefix) && |states| == |moves| + 1
    && states[0] == State(Leases(c.prefix, 2, map[]), R.RelayState(map[], map[]), map[], Resting)
    && forall k :: 0 <= k < |moves| ==> Step(c, states[k], moves[k], states[k + 1])
  }

  // ---- the invariant ----------------------------------------------------------------

  predicate Within(r: R.RelayState, nodes: set<Str>) {
    r.endpoints.Keys <= nodes && r.discovery.Keys <= nodes
  }

  predicate TicketsWithin(m: Tickets, nodes: set<Str>) {
    forall k :: k in m ==> m[k].sourceNode in nodes && m[k].targetNode in nodes
  }

  /** Nodes whose endpoints are still to be forgotten. */
  function EndpointsOwe(s: Sweeper): set<Str> {
    match s
    case Resting => {}
    case Clearing(todo, stage) => Elements(if stage.AtEndpoint? || todo == [] then todo else todo[1..])
  }

  /** Nodes whose discovery state is still to be forgotten. */
  function DiscoveryOwes(s: Sweeper): set<Str> {
    match s
    case Resting => {}
    case Clearing(todo, stage) => Elements(if !stage.AtTickets? || todo == [] then todo else todo[1..])
  }

  /** Nodes whose tickets are still to be forgotten. */
  function TicketsOwe(s: Sweeper): set<Str> {
    if s.Resting? then {} else Elements(s.todo)
  }

  /** Memory of nodes is confined to those leased or still on the sweeper's list. */
  ghost predicate Covered(s: State) {
    && s.relay.endpoints.Keys <= s.leases.peers.Keys + EndpointsOwe(s.sweeper)
    && s.relay.discovery.Keys <= s.leases.peers.Keys + DiscoveryOwes(s.sweeper)
    && TicketsWithin(s.tickets, s.leases.peers.Keys + TicketsOwe(s.sweeper))
  }

  ghost predicate Sound(s: State) {
    && LeasesValid(s.leases) && Covered(s)
    && forall n :: n in TicketsOwe(s.sweeper) ==> n != [] && Trimmed(n)
  }

  // ---- the steps that add ----------------------------------------------------------------

  lemma FanOutNames(o: D.Options, l: Leases, s: R.RelayState, peer: Peer, payload: Str, i: R.Input, list: seq<Peer>)
    ensures R.Forward(o, l, s, peer, payload, i, list).0.discovery.Keys <= s.discovery.Keys + {peer.nodeID}
    ensures R.Forward(o, l, s, peer, payload, i, list).0.endpoints == s.endpoints
  {
  }

  /** A datagram makes the relay remember its authenticated sender at most. */
  lemma DatagramNames(o: D.Options, l: Leases, s: R.RelayState, i: R.Input, list: seq<Peer>)
    requires LeasesValid(l)
    ensures var s' := R.Handle(o, l, s, i, list).0;
            s'.endpoints.Keys <= s.endpoints.Keys + l.peers.Keys && s'.discovery.Keys <= s.discovery.Keys + l.peers.Keys
  {
    if F.ParseFrame(i.bytes).Ok? && ByToken(l, F.ParseFrame(i.bytes).value.token).Some? {
      var f := F.ParseFrame(i.bytes).value;
      var peer := ByToken(l, f.token).value;
      FanOutNames(o, l, s.(endpoints := R.Bind(s.endpoints, peer.nodeID, i.src, i.now)), peer, f.payload, i, list);
    }
  }

  lemma IssueNames(l: Leases, m: Tickets, ttl: int, h: Str, target: Str, at: Time, token: Option<Str>, nodes: set<Str>)
    requires LeasesValid(l) && TicketsWithin(m, nodes) && l.peers.Keys <= nodes
    ensures TicketsWithin(IssueProbeTicketIn(l, m, ttl, h, target, at, token).0, nodes)
  {
    var r := IssueProbeTicketIn(l, m, ttl, h, target, at, token);
    if r.1.Created? {
      var source := Authenticated(l, h).value;
      TrimSpaceTrims(source.nodeID);
      TrimSpaceTrims(target);
      TrimSpaceTrims(TrimSpace(target));
      assert source.nodeID in l.peers;
    }
  }

  // ---- every step keeps it ---------------------------------------------------------------------

  lemma RegisterStep(c: Config, s: State, m: Move, s': State)
    requires Sound(s) && m.Register? && Step(c, s, m, s')
    ensures Sound(s')
  {
    RegisterKeepsValid(s.leases, m.nodeID, m.at, m.token);
    RegisterKeepsNodes(s.leases, m.nodeID, m.at, m.token);
  }

  lemma RegisterKeepsNodes(l: Leases, nodeID: Str, at: Time, token: Option<Str>)
    requires LeasesValid(l)
    ensures l.peers.Keys <= RegisterIn(l, nodeID, at, token).0.peers.Keys
  {
  }

  lemma HeartbeatStep(c: Config, s: State, m: Move, s': State)
    requires Sound(s) && m.Heartbeat? && Step(c, s, m, s')
    ensures Sound(s')
  {
    TouchKeepsValid(s.leases, BearerToken(m.header), m.at);
    TouchKeepsNodes(s.leases, BearerToken(m.header), m.at);
  }

  lemma TouchKeepsNodes(l: Leases, token: Str, at: Time)
    requires LeasesValid(l)
    ensures TouchIn(l, token, at).peers.Keys == l.peers.Keys
  {
  }

  lemma DatagramStep(c: Config, s: State, m: Move, s': State)
    requires Sound(s) && m.Datagram? && Step(c, s, m, s')
    ensures Sound(s')
  {
    DatagramNames(c.options, s.leases, s.relay, m.input, m.list);
  }

  lemma IssueTicketStep(c: Config, s: State, m: Move, s': State)
    requires Sound(s) && m.IssueTicket? && Step(c, s, m, s')
    ensures Sound(s')
  {
    IssueNames(s.leases, s.tickets, c.ticketTTL, m.header, m.target, m.at, m.token, s.leases.peers.Keys + TicketsOwe(s.sweeper));
  }

  /** What `ExpireBefore` lists is such a queue. */
  lemma QueueElements(l: Leases, expired: seq<Peer>, nodes: set<Str>)
    requires LeasesValid(l) && nodes <= l.peers.Keys && Listing(expired, l.peers, nodes)
    ensures Elements(Queue(expired)) == nodes
  {
    ListingNodes(l, expired, nodes);
    forall n | n in NodesOf(expired) ensures n in Queue(expired) {
      var i :| 0 <= i < |expired| && expired[i].nodeID == n;
      assert Queue(expired)[i] == n;
    }
  }

  /** So the registry's call is an Expire step. */
  lemma ExpireBeforeIsExpire(c: Config, s: State, at: Time, expired: seq<Peer>)
    requires LeasesValid(s.leases) && s.sweeper.Resting?
    requires Listing(expired, s.leases.peers, ExpiredNodes(s.leases, at - c.leaseTTL))
    ensures Step(c, s, Expire(at, Queue(expired)),
                 s.(leases := ExpireIn(s.leases, at - c.leaseTTL), sweeper := Clearing(Queue(expired), AtEndpoint)))
  {
    QueueElements(s.leases, expired, ExpiredNodes(s.leases, at - c.leaseTTL));
  }

  lemma ExpireSplits(l: Leases, cutoff: Time)
    requires LeasesValid(l)
    ensures l.peers.Keys == ExpireIn(l, cutoff).peers.Keys + ExpiredNodes(l, cutoff)
    ensures forall n :: n in ExpiredNodes(l, cutoff) ==> n != [] && Trimmed(n)
  {
  }

  /** Expiry moves nodes from the leases to the sweeper's list. */
  lemma ExpireOwes(s: State, cutoff: Time, s': State)
    requires LeasesValid(s.leases) && s'.leases == ExpireIn(s.leases, cutoff)
    requires s'.sweeper.Clearing? && s'.sweeper.stage.AtEndpoint? && Elements(s'.sweeper.todo) == ExpiredNodes(s.leases, cutoff)
    ensures s.leases.peers.Keys <= s'.leases.peers.Keys + EndpointsOwe(s'.sweeper)
    ensures s.leases.peers.Keys <= s'.leases.peers.Keys + DiscoveryOwes(s'.sweeper)
    ensures s.leases.peers.Keys <= s'.leases.peers.Keys + TicketsOwe(s'.sweeper)
    ensures forall n :: n in TicketsOwe(s'.sweeper) ==> n != [] && Trimmed(n)
  {
    ExpireSplits(s.leases, cutoff);
  }

  lemma SameMemory(s: State, s': State)
    requires Covered(s) && s.sweeper.Resting? && s'.relay == s.relay && s'.tickets == s.tickets
    requires s.leases.peers.Keys <= s'.leases.peers.Keys + EndpointsOwe(s'.sweeper)
    requires s.leases.peers.Keys <= s'.leases.peers.Keys + DiscoveryOwes(s'.sweeper)
    requires s.leases.peers.Keys <= s'.leases.peers.Keys + TicketsOwe(s'.sweeper)
    ensures Covered(s')
  {
  }

  lemma ForgetEndpointStep(c: Config, s: State, m: Move, s': State)
    requires Sound(s) && m.ForgetEndpoint? && Step(c, s, m, s')
    ensures Sound(s')
  {
    HeadAndTail(s.sweeper.todo);
  }

  lemma ForgetDiscoveryStep(c: Config, s: State, m: Move, s': State)
    requires Sound(s) && m.ForgetDiscovery? && Step(c, s, m, s')
    ensures Sound(s')
  {
    HeadAndTail(s.sweeper.todo);
  }

  lemma ForgetTicketsStep(c: Config, s: State, m: Move, s': State)
    requires Sound(s) && m.ForgetTickets? && Step(c, s, m, s')
    ensures Sound(s')
  {
    HeadAndTail(s.sweeper.todo);
    ForgetIsWithout(s.tickets, s.sweeper.todo[0]);
  }

  lemma PruneStep(c: Config, s: State, m: Move, s': State)
    requires Sound(s) && (m.ListTickets? || m.PruneTickets?) && Step(c, s, m, s')
    ensures Sound(s')
  {
  }

  lemma ExpireStep(c: Config, s: State, m: Move, s': State)
    requires Sound(s) && m.Expire? && Step(c, s, m, s')
    ensures Sound(s')
  {
    var cutoff := m.at - c.leaseTTL;
    ExpireKeepsValid(s.leases, cutoff);
    ExpireOwes(s, cutoff, s');
    SameMemory(s, s');
  }

  lemma StepStaysSound(c: Config, s: State, m: Move, s': State)
    requires Sound(s) && Step(c, s, m, s')
    ensures Sound(s')
  {
    match m
    case Register(_, _, _) => RegisterStep(c, s, m, s');
    case Heartbeat(_, _) => HeartbeatStep(c, s, m, s');
    case Datagram(_, _) => DatagramStep(c, s, m, s');
    case IssueTicket(_, _, _, _) => IssueTicketStep(c, s, m, s');
    case Expire(_, _) => ExpireStep(c, s, m, s');
    case ForgetEndpoint => ForgetEndpointStep(c, s, m, s');
    case ForgetDiscovery => ForgetDiscoveryStep(c, s, m, s');
    case ForgetTickets => ForgetTicketsStep(c, s, m, s');
    case ListTickets(_, _) => PruneStep(c, s, m, s');
    case PruneTickets(_) => PruneStep(c, s, m, s');
  }

  lemma {:induction false} RunsStaySound(c: Config, moves: seq<Move>, states: seq<State>, k: nat)
    requires Run(c, moves, states) && k <= |moves|
    ensures Sound(states[k])
  {
    if k == 0 {
      LastIsBroadcast(c.prefix.bits);
    } else {
      RunsStaySound(c, moves, states, k - 1);
      StepStaysSound(c, states[k - 1], moves[k - 1], states[k]);
    }
  }

  /** In every run relay endpoints, discovery state and tickets name only nodes that are
      leased or still on the sweeper's list; between sweeps, leased nodes only. */
  lemma OnlyLeasedNodesAfterSweep(c: Config, moves: seq<Move>, states: seq<State>, k: nat)
    requires Run(c, moves, states) && k <= |moves|
    ensures Covered(states[k])
    ensures states[k].sweeper.Resting? ==>
              Within(states[k].relay, states[k].leases.peers.Keys) && TicketsWithin(states[k].tickets, states[k].leases.peers.Keys)
  {
    RunsStaySound(c, moves, states, k);
    var nodes := states[k].leases.peers.Keys;
    assert nodes + {} == nodes;
  }

  /** What one whole sweep leaves behind. */
  function Swept(c: Config, s: State, at: Time, later: Time): State {
    var gone := ExpiredNodes(s.leases, at - c.leaseTTL);
    State(ExpireIn(s.leases, at - c.leaseTTL), RelayWithout(s.relay, gone), PruneIn(WithoutNodes(s.tickets, gone), later), Resting)
  }

  lemma SweptIsCovered(c: Config, s: State, at: Time, later: Time)
    requires LeasesValid(s.leases) && Covered(s) && s.sweeper.Resting?
    ensures Covered(Swept(c, s, at, later))
  {
    ExpireSplits(s.leases, at - c.leaseTTL);
    assert s.leases.peers.Keys + {} == s.leases.peers.Keys;
  }

  /** The datagram handler has to be one step.  If a sweep falls between authenticating a
      Hello and binding its source, the endpoint of a node without a lease is left behind
      exactly if the sweep expires the sender. */
  lemma BindAfterCleanupLeavesEndpoint(c: Config, s: State, header: Str, at: Time, src: Str, later: Time)
    requires LeasesValid(s.leases) && Covered(s) && s.sweeper.Resting? && Authenticated(s.leases, header).Some?
    ensures var sender, swept := Authenticated(s.leases, header).value, Swept(c, s, at, later);
            Covered(swept.(relay := swept.relay.(endpoints := R.Bind(swept.relay.endpoints, sender.nodeID, src, later))))
            <==> !ExpiredAt(sender, at - c.leaseTTL)
  {
    var node, swept := Authenticated(s.leases, header).value.nodeID, Swept(c, s, at, later);
    SweptIsCovered(c, s, at, later);
    assert node in s.leases.peers;
    assert R.Bind(swept.relay.endpoints, node, src, later).Keys == swept.relay.endpoints.Keys + {node};
    assert swept.leases.peers.Keys + {} == swept.leases.peers.Keys;
  }

  /** So has the ticket handler.  If a sweep falls between its look-ups and the issue, a
      ticket that names a node without a lease is left behind exactly if the sweep expires
      one of the pair. */
  lemma IssueAfterCleanupLeavesTicket(
      c: Config, s: State, source: Str, target: Str, at: Time, later: Time, token: Option<Str>)
    requires LeasesValid(s.leases) && Covered(s) && s.sweeper.Resting? && source in s.leases.peers && target in s.leases.peers
    requires Minted(c.ticketTTL, source, target, later, token).Issued?
    ensures var swept := Swept(c, s, at, later);
            Covered(swept.(tickets := IssueIn(swept.tickets, c.ticketTTL, source, target, later, token)))
            <==> !ExpiredAt(s.leases.peers[source], at - c.leaseTTL) && !ExpiredAt(s.leases.peers[target], at - c.leaseTTL)
  {
    SweptIsCovered(c, s, at, later);
    IssueCoveredIff(Swept(c, s, at, later), c.ticketTTL, source, target, later, token);
  }

  /** An issue leaves the tickets in order exactly if both nodes are. */
  lemma IssueCoveredIff(s: State, ttl: int, source: Str, target: Str, at: Time, token: Option<Str>)
    requires Covered(s) && s.sweeper.Resting? && Trimmed(source) && Trimmed(target) && Minted(ttl, source, target, at, token).Issued?
    ensures Covered(s.(tickets := IssueIn(s.tickets, ttl, source, target, at, token))) <==>
            source in s.leases.peers && target in s.leases.peers
  {
    TrimSpaceTrims(source);
    TrimSpaceTrims(target);
    var t := Minted(ttl, source, target, at, token).ticket;
    assert IssueIn(s.tickets, ttl, source, target, at, token)[t.ticket] == t;
  }
}
