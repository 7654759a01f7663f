/** The coordinator (cmd/server/main.go): its HTTP handlers over the registry, the relay and
    the ticket manager, and the sweeper that cleans up after expired leases. */
module Coordinator {
  import opened GoStrings
  import opened GoTime
  import opened Sorting
  import opened Ipv4Blocks
  import opened VirtualPool
  import opened LeaseRegistry
  import opened ProbeTickets
  import R = Relay
  import D = Discovery
  import P = P2PClient

  /** "Bearer " */
  const BEARER: Str := [66, 101, 97, 114, 101, 114, 32]

  /** `bearerToken` */
  function BearerToken(header: Str): Str {
    if BEARER <= header then TrimSpace(header[|BEARER|..]) else []
  }

  /** `authenticatedPeer` */
  ghost function Authenticated(l: Leases, header: Str): Option<Peer> {
    if BearerToken(header) == [] then None else ByToken(l, BearerToken(header))
  }

  datatype IssueReply =
    | Created(ticket: ProbeTicket)
    | Unauthorized
    | TargetRequired
    | OwnTarget
    | TargetNotFound
    | Refused(reason: IssueResult)

  /** `issueProbeTicket`: a leased node asks for a ticket to another leased node. */
  ghost function IssueProbeTicketIn(l: Leases, m: Tickets, ttl: int, header: Str, target: Str, now: Time, token: Option<Str>)
    : (Tickets, IssueReply)
  {
    match Authenticated(l, header)
    case None => (m, Unauthorized)
    case Some(source) => IssueToIn(l.peers, m, ttl, source, TrimSpace(target), now, token)
  }

  /** "Bearer ", then whatever `strings.TrimSpace` takes away, then the token. */
  predicate Bears(header: Str, token: Str) {
    |header| >= 7 && header[..7] == [66, 101, 97, 114, 101, 114, 32] && TrimSpace(header[7..]) == token != []
  }

  /** A request is authenticated exactly as the holder of the token its header bears. */
  lemma AuthenticatedIff(l: Leases, header: Str, peer: Peer)
    requires LeasesValid(l)
    ensures Authenticated(l, header) == Some(peer) <==>
            peer.nodeID in l.peers && l.peers[peer.nodeID] == peer && Bears(header, peer.sessionToken)
  {
    if peer.nodeID in l.peers && l.peers[peer.nodeID] == peer { HolderFound(l, peer.nodeID); }
  }

  /** So the header the client sends authenticates it. */
  lemma OwnHeaderAuthenticates(l: Leases, node: Str)
    requires LeasesValid(l) && node in l.peers && l.peers[node].sessionToken != [] && Trimmed(l.peers[node].sessionToken)
    ensures Authenticated(l, [66, 101, 97, 114, 101, 114, 32] + l.peers[node].sessionToken) == Some(l.peers[node])
  {
    var token := l.peers[node].sessionToken;
    TrimSpaceTrims(token);
    assert ([66, 101, 97, 114, 101, 114, 32] + token)[7..] == token;
    AuthenticatedIff(l, [66, 101, 97, 114, 101, 114, 32] + token, l.peers[node]);
  }

  /** A ticket is created exactly for an authenticated caller, another leased node and a token
      drawn; otherwise the answer says which was missing first, and nothing changes. */
  lemma CreatedIff(l: Leases, m: Tickets, ttl: int, header: Str, target: Str, now: Time, token: Option<Str>)
    requires LeasesValid(l)
    ensures var (m', r) := IssueProbeTicketIn(l, m, ttl, header, target, now, token);
            var node := TrimSpace(target);
            match Authenticated(l, header)
            case None => r == Unauthorized && m' == m
            case Some(caller) =>
              && (r.Created? <==> node in l.peers && node != caller.nodeID && token.Some?)
              && (r == TargetRequired <==> node == [])
              && (r == OwnTarget <==> node == caller.nodeID)
              && (r == TargetNotFound <==> node != [] && node !in l.peers)
              && (r == Refused(IssueResult.TokenFailed) <==> node in l.peers && node != caller.nodeID && token.None?)
              && (!r.Created? ==> m' == m)
  {
    TrimSpaceTrims(target);
    TrimSpaceTrims(TrimSpace(target));
    if Authenticated(l, header).Some? {
      AuthenticatedIff(l, header, Authenticated(l, header).value);
      TrimSpaceTrims(Authenticated(l, header).value.nodeID);
    }
  }

  function IssueToIn(peers: map<Str, Peer>, m: Tickets, ttl: int, source: Peer, node: Str, now: Time, token: Option<Str>)
    : (Tickets, IssueReply)
  {
    if node == [] then (m, TargetRequired)
    else if node == source.nodeID then (m, OwnTarget)
    else if node !in peers then (m, TargetNotFound)
    else match Minted(ttl, source.nodeID, node, now, token)
      case Issued(t) => (IssueIn(m, ttl, source.nodeID, node, now, token), Created(t))
      case other => (m, Refused(other))
  }

  /** What the listing shows: each leased node with an endpoint, by node ID. */
  ghost predicate CandidatesOf(out: seq<P.Candidate>, l: Leases, endpoints: R.Endpoints) {
    && (forall d :: d in out <==> d.nodeID in endpoints && d.nodeID in l.peers && d == CandidateOf(l, endpoints, d.nodeID))
    && (forall i, j :: 0 <= i < j < |out| ==> LexLess(out[i].nodeID, out[j].nodeID))
  }

  function CandidateOf(l: Leases, endpoints: R.Endpoints, n: Str): P.Candidate
    requires n in endpoints && n in l.peers
  {
    P.Candidate(l.peers[n].nodeID, Some(l.peers[n].virtualIP), endpoints[n].addr, endpoints[n].observedAt)
  }

  /** The ticket leads from the caller to another leased node, lives for the TTL and is held. */
  ghost predicate CreatedFor(l: Leases, m: Tickets, ttl: int, header: Str, target: Str, now: Time, t: ProbeTicket) {
    && Authenticated(l, header).Some? && t.sourceNode == Authenticated(l, header).value.nodeID
    && t.sourceNode in l.peers && t.sourceNode != t.targetNode
    && t.targetNode == TrimSpace(target) && t.targetNode in l.peers
    && t.expiresAt == now + ttl && t in m.Values
  }

  lemma CreatedTicket(l: Leases, m: Tickets, ttl: int, header: Str, target: Str, now: Time, token: Option<Str>)
    requires LeasesValid(l) && IssueProbeTicketIn(l, m, ttl, header, target, now, token).1.Created?
    ensures var (m', r) := IssueProbeTicketIn(l, m, ttl, header, target, now, token);
            CreatedFor(l, m', ttl, header, target, now, r.ticket)
  {
    var source := Authenticated(l, header).value;
    TrimSpaceTrims(source.nodeID);
    TrimSpaceTrims(target);
    TrimSpaceTrims(TrimSpace(target));
    var (m', r) := IssueProbeTicketIn(l, m, ttl, header, target, now, token);
    assert m'[r.ticket.ticket] == r.ticket;
  }

  function WithoutNodes(m: Tickets, nodes: set<Str>): Tickets {
    map t | t in m && m[t].sourceNode !in nodes && m[t].targetNode !in nodes :: m[t]
  }

  function RelayWithout(r: R.RelayState, nodes: set<Str>): R.RelayState {
    R.RelayState(r.endpoints - nodes, r.discovery - nodes)
  }

  lemma ForgetIsWithout(m: Tickets, node: Str)
    requires node != [] && Trimmed(node)
    ensures ForgetIn(m, node) == WithoutNodes(m, {node})
  {
    TrimSpaceTrims(node);
  }

  lemma WithoutMore(r: R.RelayState, m: Tickets, nodes: set<Str>, node: Str)
    ensures RelayWithout(RelayWithout(r, nodes), {node}) == RelayWithout(r, nodes + {node})
    ensures WithoutNodes(WithoutNodes(m, nodes), {node}) == WithoutNodes(m, nodes + {node})
  {
    assert r.endpoints - nodes - {node} == r.endpoints - (nodes + {node});
    assert r.discovery - nodes - {node} == r.discovery - (nodes + {node});
  }

  lemma NothingWithout(r: R.RelayState, m: Tickets)
    ensures RelayWithout(r, NodesOf([])) == r && WithoutNodes(m, NodesOf([])) == m
  {
    assert r.endpoints - {} == r.endpoints && r.discovery - {} == r.discovery;
  }

  function NodesOf(peers: seq<Peer>): set<Str> {
    set p | p in peers :: p.nodeID
  }

  function Shown(p: Peer, c: R.ObservedCandidate): P.Candidate {
    P.Candidate(p.nodeID, Some(p.virtualIP), c.endpoint.addr, c.endpoint.observedAt)
  }

  predicate ShowsOne(d: P.Candidate, c: R.ObservedCandidate, peers: map<Str, Peer>) {
    c.node in peers && d == Shown(peers[c.node], c)
  }

  /** The leased ones of these observations, in their order. */
  ghost predicate Joined(list: seq<P.Candidate>, observed: seq<R.ObservedCandidate>, peers: map<Str, Peer>) {
    && (forall d :: d in list <==> exists c :: c in observed && ShowsOne(d, c, peers))
    && (forall i, j :: 0 <= i < j < |list| ==> LexLess(list[i].nodeID, list[j].nodeID))
  }

  lemma JoinNext(list: seq<P.Candidate>, observed: seq<R.ObservedCandidate>, i: nat, peers: map<Str, Peer>)
    requires i < |observed| && Joined(list, observed[..i], peers) && StrictlySortedBy(R.ObservedLess, observed)
    requires forall n :: n in peers ==> peers[n].nodeID == n
    ensures var n := observed[i].node;
            Joined(if n in peers then list + [Shown(peers[n], observed[i])] else list, observed[..i + 1], peers)
  {
    var c := observed[i];
    forall x ensures x in observed[..i + 1] <==> x in observed[..i] || x == c {
      assert observed[..i + 1] == observed[..i] + [c];
    }
    forall j | 0 <= j < |list| ensures LexLess(list[j].nodeID, c.node) {
      assert list[j] in list;
      var x :| x in observed[..i] && ShowsOne(list[j], x, peers);
      var k :| 0 <= k < i && observed[k] == x;
      assert R.ObservedLess(observed[k], observed[i]);
    }
    var more := if c.node in peers then list + [Shown(peers[c.node], c)] else list;
    forall d ensures d in more <==> d in list || ShowsOne(d, c, peers) {}
  }

  lemma JoinIsCandidates(list: seq<P.Candidate>, observed: seq<R.ObservedCandidate>, l: Leases, endpoints: R.Endpoints)
    requires LeasesValid(l) && R.ObservedIn(observed, endpoints) && Joined(list, observed, l.peers)
    ensures CandidatesOf(list, l, endpoints)
  {
    forall d: P.Candidate | d.nodeID in endpoints && d.nodeID in l.peers && d == CandidateOf(l, endpoints, d.nodeID) ensures d in list {
      var c := R.ObservedCandidate(d.nodeID, endpoints[d.nodeID]);
      assert c in observed && ShowsOne(d, c, l.peers);
    }
  }

  /** The listing names leased nodes only, so clients see trimmed, non-empty IDs. */
  lemma CandidatesAreLeased(out: seq<P.Candidate>, l: Leases, endpoints: R.Endpoints)
    requires LeasesValid(l) && CandidatesOf(out, l, endpoints)
    ensures forall d :: d in out ==> d.nodeID in l.peers && d.nodeID in endpoints
    ensures forall d :: d in out ==> d.nodeID != [] && Trimmed(d.nodeID) && d.virtualIP == Some(l.peers[d.nodeID].virtualIP)
    ensures forall d :: d in out ==> d.endpoint == endpoints[d.nodeID].addr && d.observedAt == endpoints[d.nodeID].observedAt
    ensures forall n :: n in l.peers && n in endpoints ==> exists d :: d in out && d.nodeID == n
  {
    forall n | n in l.peers && n in endpoints ensures exists d :: d in out && d.nodeID == n {
      assert CandidateOf(l, endpoints, n) in out;
    }
  }

  class Api {
    const registry: Registry
    const relay: R.Relay
    const tickets: TicketManager
    const leaseTTL: int

    ghost predicate Valid()
      reads this, registry, registry.allocator, relay, relay.guard, tickets
    {
      relay.registry == registry && relay.Valid() && tickets.Valid()
    }

    constructor (prefix: Block, o: D.Options, ticketTTL: int, leaseTTL: int)
      requires Ipv4Blocks.Valid(prefix) && prefix.bits <= 30
      ensures Valid() && fresh(registry) && fresh(relay) && fresh(tickets) && this.leaseTTL == leaseTTL
      ensures registry.View() == Leases(Masked(prefix), 2, map[]) && relay.View() == R.RelayState(map[], map[])
      ensures tickets.tickets == map[]
    {
      var allocator := new Allocator(prefix);
      var leases := new Registry(allocator);
      registry := leases;
      relay := new R.Relay(leases, o);
      tickets := new TicketManager(ticketTTL);
      this.leaseTTL := leaseTTL;
    }

    method AuthenticatedPeer(header: Str) returns (peer: Option<Peer>)
      requires Valid()
      ensures peer == Authenticated(registry.View(), header)
    {
      var token := BearerToken(header);
      if token == [] { return None; }
      peer := registry.GetByToken(token);
    }

    /** `heartbeat`: a valid session refreshes its own lease and nothing else. */
    method Heartbeat(header: Str, now: Time) returns (ok: bool)
      requires Valid()
      modifies registry
      ensures Valid() && ok == old(Authenticated(registry.View(), header)).Some?
      ensures registry.View() == if ok then TouchIn(old(registry.View()), BearerToken(header), now) else old(registry.View())
    {
      var peer := AuthenticatedPeer(header);
      if peer.None? { return false; }
      var touched := registry.TouchByToken(BearerToken(header), now);
      ok := touched.Some?;
    }

    method ListCandidates(header: Str) returns (out: Option<seq<P.Candidate>>)
      requires Valid()
      ensures out.Some? <==> Authenticated(registry.View(), header).Some?
      ensures out.Some? ==> CandidatesOf(out.value, registry.View(), relay.endpoints)
    {
      var peer := AuthenticatedPeer(header);
      if peer.None? { return None; }
      var observed := relay.Candidates();
      var list := Join(observed);
      JoinIsCandidates(list, observed, registry.View(), relay.endpoints);
      out := Some(list);
    }

    method Join(observed: seq<R.ObservedCandidate>) returns (list: seq<P.Candidate>)
      requires Valid() && StrictlySortedBy(R.ObservedLess, observed)
      ensures Joined(list, observed, registry.peers)
    {
      list := [];
      for i := 0 to |observed|
        invariant Joined(list, observed[..i], registry.peers)
      {
        JoinNext(list, observed, i, registry.peers);
        var c := observed[i];
        var found := registry.Get(c.node);
        if found.Some? { list := list + [Shown(found.value, c)]; }
      }
      assert observed[..|observed|] == observed;
    }

    method IssueProbeTicket(header: Str, target: Str, now: Time, token: Option<Str>) returns (r: IssueReply)
      requires Valid()
      modifies tickets
      ensures Valid()
      ensures (tickets.tickets, r) == IssueProbeTicketIn(registry.View(), old(tickets.tickets), tickets.ttl, header, target, now, token)
      ensures r.Created? ==> CreatedFor(registry.View(), tickets.tickets, tickets.ttl, header, target, now, r.ticket)
    {
      ghost var l, held := registry.View(), tickets.tickets;
      r := IssueFrom(header, target, now, token);
      if r.Created? { CreatedTicket(l, held, tickets.ttl, header, target, now, token); }
    }

    method IssueFrom(header: Str, target: Str, now: Time, token: Option<Str>) returns (r: IssueReply)
      requires Valid()
      modifies tickets
      ensures Valid()
      ensures (tickets.tickets, r) == IssueProbeTicketIn(registry.View(), old(tickets.tickets), tickets.ttl, header, target, now, token)
    {
      var source := AuthenticatedPeer(header);
      if source.None? { return Unauthorized; }
      r := IssueTo(source.value, TrimSpace(target), now, token);
    }

    /** The handler once the caller is known. */
    method IssueTo(source: Peer, node: Str, now: Time, token: Option<Str>) returns (r: IssueReply)
      requires tickets.Valid()
      modifies tickets
      ensures tickets.Valid()
      ensures (tickets.tickets, r) == IssueToIn(registry.peers, old(tickets.tickets), tickets.ttl, source, node, now, token)
    {
      if node == [] { return TargetRequired; }
      if node == source.nodeID { return OwnTarget; }
      var found := registry.Get(node);
      if found.None? { return TargetNotFound; }
      var issued := tickets.Issue(source.nodeID, node, now, token);
      r := if issued.Issued? then Created(issued.ticket) else Refused(issued);
    }

    method ListProbeTickets(header: Str, now: Time) returns (out: Option<seq<ProbeTicket>>)
      requires Valid()
      modifies tickets
      ensures Valid() && out.Some? == Authenticated(registry.View(), header).Some?
      ensures out.None? ==> tickets.tickets == old(tickets.tickets)
      ensures out.Some? ==> tickets.tickets == PruneIn(old(tickets.tickets), now)
      ensures out.Some? ==> ListingFor(out.value, old(tickets.tickets), Authenticated(registry.View(), header).value.nodeID, now)
    {
      var peer := AuthenticatedPeer(header);
      if peer.None? { return None; }
      TrimSpaceTrims(peer.value.nodeID);
      var list := tickets.ListForNode(peer.value.nodeID, now);
      out := Some(list);
    }

    /** One turn of `runLeaseSweeper`: expired leases go, and with them every endpoint,
        discovery state and ticket that names their nodes. */
    method SweepLeases(now: Time, later: Time)
      requires Valid()
      modifies registry, registry.allocator, relay, relay.guard, tickets
      ensures Valid()
      ensures var gone := ExpiredNodes(old(registry.View()), now - leaseTTL);
              && registry.View() == Without(old(registry.View()), gone)
              && relay.View() == RelayWithout(old(relay.View()), gone)
              && tickets.tickets == PruneIn(WithoutNodes(old(tickets.tickets), gone), later)
    {
      ghost var gone := ExpiredNodes(registry.View(), now - leaseTTL);
      var expired := ExpireLeases(now - leaseTTL);
      CleanUp(expired, gone, later);
    }

    method ExpireLeases(cutoff: Time) returns (expired: seq<Peer>)
      requires Valid()
      modifies registry, registry.allocator
      ensures registry.Valid() && registry.View() == Without(old(registry.View()), ExpiredNodes(old(registry.View()), cutoff))
      ensures relay.View() == old(relay.View())
      ensures NodesOf(expired) == ExpiredNodes(old(registry.View()), cutoff)
      ensures forall p :: p in expired ==> p.nodeID != [] && Trimmed(p.nodeID)
    {
      ghost var before := registry.View();
      expired := registry.ExpireBefore(cutoff);
      ListingNodes(before, expired, ExpiredNodes(before, cutoff));
    }

    method CleanUp(expired: seq<Peer>, ghost gone: set<Str>, later: Time)
      requires NodesOf(expired) == gone && relay.guard.Valid() && tickets.Valid() && forall p :: p in expired ==> p.nodeID != [] && Trimmed(p.nodeID)
      modifies relay, relay.guard, tickets
      ensures relay.guard.Valid() && tickets.Valid()
      ensures relay.View() == RelayWithout(old(relay.View()), gone)
      ensures tickets.tickets == PruneIn(WithoutNodes(old(tickets.tickets), gone), later)
    {
      ghost var before, held := relay.View(), tickets.tickets;
      NothingWithout(before, held);
      for i := 0 to |expired|
        invariant relay.guard.Valid() && tickets.Valid()
        invariant relay.View() == RelayWithout(before, NodesOf(expired[..i]))
        invariant tickets.tickets == WithoutNodes(held, NodesOf(expired[..i]))
      {
        NodesNext(expired, i);
        WithoutMore(before, held, NodesOf(expired[..i]), expired[i].nodeID);
        ForgetOne(expired[i].nodeID);
      }
      assert expired[..|expired|] == expired;
      tickets.Prune(later);
    }

    method ForgetOne(node: Str)
      requires relay.guard.Valid() && tickets.Valid() && node != [] && Trimmed(node)
      modifies relay, relay.guard, tickets
      ensures relay.guard.Valid() && tickets.Valid()
      ensures relay.View() == RelayWithout(old(relay.View()), {node})
      ensures tickets.tickets == WithoutNodes(old(tickets.tickets), {node})
    {
      ForgetIsWithout(tickets.tickets, node);
      relay.ForgetPeer(node);
      tickets.ForgetNode(node);
    }
  }

  lemma NodesNext(peers: seq<Peer>, i: nat)
    requires i < |peers|
    ensures NodesOf(peers[..i + 1]) == NodesOf(peers[..i]) + {peers[i].nodeID}
  {
    assert peers[..i + 1] == peers[..i] + [peers[i]];
  }

  lemma ListingNodes(l: Leases, list: seq<Peer>, nodes: set<Str>)
    requires LeasesValid(l) && nodes <= l.peers.Keys && Listing(list, l.peers, nodes)
    ensures NodesOf(list) == nodes && forall p :: p in list ==> p.nodeID != [] && Trimmed(p.nodeID)
  {
    forall n | n in nodes ensures n in NodesOf(list) {
      assert l.peers[n] in list && l.peers[n].nodeID == n;
    }
  }
}
