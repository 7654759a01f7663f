/** The UDP relay (internal/transport/relay.go): source binding, delivery and fan-out. */
module Relay {
  import opened GoStrings
  import opened GoTime
  import opened Sorting
  import opened Ipv4Blocks
  import opened LeaseRegistry
  import D = Discovery
  import F = RelayFrame
  import P = Packet

  datatype Endpoint = Endpoint(addr: Str, observedAt: Time)

  /** One datagram written to the socket: for which node, to which address. */
  datatype Send = Send(node: Str, addr: Str, bytes: Str)

  datatype Outcome =
    | Handled | BadFrame | Unauthorized | TooLong | BadPacket | SourceMismatch | RateLimited
    | NoSuchPeer | NoEndpoint | WriteFailed

  type Endpoints = map<Str, Endpoint>

  datatype ObservedCandidate = ObservedCandidate(node: Str, endpoint: Endpoint)

  predicate ObservedLess(x: ObservedCandidate, y: ObservedCandidate) {
    LexLess(x.node, y.node)
  }

  /** Every bound endpoint once, by node ID. */
  ghost predicate ObservedIn(out: seq<ObservedCandidate>, endpoints: Endpoints) {
    && StrictlySortedBy(ObservedLess, out)
    && forall x :: x in out <==> x.node in endpoints && endpoints[x.node] == x.endpoint
  }

  lemma SortedObserved(out: seq<ObservedCandidate>, endpoints: Endpoints)
    requires forall x :: x in out <==> x.node in endpoints && endpoints[x.node] == x.endpoint
    requires forall i, j :: 0 <= i < j < |out| ==> out[i].node != out[j].node
    ensures ObservedIn(Sort(ObservedLess, out), endpoints)
  {
    LexIsStrictWeakOrder();
    assert StrictWeakOrder(ObservedLess);
    forall i, j | 0 <= i < j < |out| ensures ObservedLess(out[i], out[j]) || ObservedLess(out[j], out[i]) {
      LexTotal(out[i].node, out[j].node);
    }
    SortStrict(ObservedLess, out);
    SortElements(ObservedLess, out);
  }

  datatype RelayState = RelayState(endpoints: Endpoints, discovery: D.Peers)

  /** 224.0.0.251 and 239.255.255.250 */
  const MDNS: Addr := 0xE000_00FB
  const SSDP: Addr := 0xEFFF_FFFA

  function IsDiscoveryPacket(payload: Str, destination: Addr): bool {
    match P.IPv4UDPPorts(payload)
    case Err(_) => false
    case Ok(ports) =>
      if destination == MDNS then ports.destination == 5353
      else if destination == SSDP then ports.destination == 1900
      else false
  }

  /** The Deliver datagram of a payload. */
  function DeliverBytes(payload: Str): Str {
    F.Bytes(F.Frame(F.Deliver, [], payload))
  }

  /** `deliver`: `writes` says which addresses the socket accepts a write to. */
  function DeliverTo(endpoints: Endpoints, node: Str, payload: Str, writes: Str -> bool): (seq<Send>, Outcome) {
    if node !in endpoints then ([], NoEndpoint)
    else if writes(endpoints[node].addr) then ([Send(node, endpoints[node].addr, DeliverBytes(payload))], Handled)
    else ([], WriteFailed)
  }

  /** `broadcast` over the registry's listing. */
  function Broadcast(endpoints: Endpoints, source: Str, payload: Str, writes: Str -> bool, list: seq<Peer>): (seq<Send>, Outcome) {
    if list == [] then ([], Handled)
    else if list[0].nodeID == source || list[0].nodeID !in endpoints then
      Broadcast(endpoints, source, payload, writes, list[1..])
    else
      var (sent, r) := DeliverTo(endpoints, list[0].nodeID, payload, writes);
      if r != Handled then (sent, r)
      else
        var (more, r') := Broadcast(endpoints, source, payload, writes, list[1..]);
        (sent + more, r')
  }

  function Bind(endpoints: Endpoints, node: Str, src: Str, now: Time): Endpoints {
    endpoints[node := Endpoint(src, now)]
  }

  /** What the relay hears from outside: the datagram, its source, the two clock readings,
      the digest of the payload and the socket's answers. */
  datatype Input = Input(bytes: Str, src: Str, now: Time, instant: D.Instant, sha256: Str -> Str, writes: Str -> bool)

  /** Discovery traffic: guarded, then broadcast. */
  ghost function FanOut(o: D.Options, s: RelayState, source: Str, payload: Str, i: Input, list: seq<Peer>)
    : (RelayState, seq<Send>, Outcome)
  {
    var (d, v) := D.GuardIn(o, s.discovery, source, i.sha256(payload), i.instant);
    var s' := s.(discovery := d);
    match v
    case RateLimited => (s', [], RateLimited)
    case Duplicate => (s', [], Handled)
    case Admitted =>
      var (sent, r) := Broadcast(s.endpoints, source, payload, i.writes, list);
      (s', sent, r)
  }

  /** The packet stage, for an authenticated sender already bound. */
  ghost function Forward(o: D.Options, l: Leases, s: RelayState, peer: Peer, payload: Str, i: Input, list: seq<Peer>)
    : (RelayState, seq<Send>, Outcome)
  {
    if |payload| > 65535 then (s, [], TooLong)
    else match P.IPv4Endpoints(payload)
      case Err(_) => (s, [], BadPacket)
      case Ok(ends) =>
        if ends.source != peer.virtualIP then (s, [], SourceMismatch)
        else if IsDiscoveryPacket(payload, ends.destination) then FanOut(o, s, peer.nodeID, payload, i, list)
        else
          var (sent, r) := DeliverByAddress(l, s.endpoints, ends.destination, payload, i.writes);
          (s, sent, r)
  }

  ghost function DeliverByAddress(l: Leases, endpoints: Endpoints, destination: Addr, payload: Str, writes: Str -> bool)
    : (seq<Send>, Outcome)
  {
    match ByAddress(l, destination)
    case None => ([], NoSuchPeer)
    case Some(dest) => DeliverTo(endpoints, dest.nodeID, payload, writes)
  }

  /** `handleDatagram` */
  ghost function Handle(o: D.Options, l: Leases, s: RelayState, i: Input, list: seq<Peer>): (RelayState, seq<Send>, Outcome) {
    match F.ParseFrame(i.bytes)
    case Err(_) => (s, [], BadFrame)
    case Ok(f) => HandleParsed(o, l, s, f, i, list)
  }

  ghost function HandleParsed(o: D.Options, l: Leases, s: RelayState, f: F.Frame, i: Input, list: seq<Peer>)
    : (RelayState, seq<Send>, Outcome)
  {
    match Sender(l, f)
    case None => (s, [], Unauthorized)
    case Some(peer) => HandleFor(o, l, s, f, peer, i, list)
  }

  /** The holder of the frame's token, if a client may send such a frame. */
  ghost function Sender(l: Leases, f: F.Frame): Option<Peer> {
    if f.kind == F.Deliver then None else ByToken(l, f.token)
  }

  /** What follows once the sender is known. */
  ghost function HandleFor(o: D.Options, l: Leases, s: RelayState, f: F.Frame, peer: Peer, i: Input, list: seq<Peer>)
    : (RelayState, seq<Send>, Outcome)
  {
    var bound := s.(endpoints := Bind(s.endpoints, peer.nodeID, i.src, i.now));
    if f.kind == F.Hello then (bound, [], Handled) else Forward(o, l, bound, peer, f.payload, i, list)
  }

  lemma SenderDecides(o: D.Options, l: Leases, s: RelayState, f: F.Frame, i: Input, list: seq<Peer>)
    ensures Sender(l, f).None? ==> HandleParsed(o, l, s, f, i, list) == (s, [], Unauthorized)
    ensures Sender(l, f).Some? ==> HandleParsed(o, l, s, f, i, list) == HandleFor(o, l, s, f, Sender(l, f).value, i, list)
  {
  }

  ghost predicate ListOf(l: Leases, list: seq<Peer>) {
    Listing(list, l.peers, l.peers.Keys)
  }

  lemma ListIsUnique(l: Leases, a: seq<Peer>, b: seq<Peer>)
    requires ListOf(l, a) && ListOf(l, b)
    ensures a == b
  {
    PeerOrder();
    assert forall p :: p in a <==> p in b;
    StrictlySortedUnique(PeerLess, a, b);
  }

  // ---- the object -----------------------------------------------------------------

  class Relay {
    const registry: Registry
    const guard: D.Guard
    var endpoints: Endpoints

    ghost predicate Valid()
      reads this, registry, registry.allocator, guard
    {
      registry.Valid() && guard.Valid()
    }

    ghost function View(): RelayState
      reads this, guard, guard.discovery.Values
    {
      RelayState(endpoints, guard.View())
    }

    constructor (r: Registry, o: D.Options)
      requires r.Valid()
      ensures Valid() && registry == r && fresh(guard) && guard.options == D.Normalize(o)
      ensures View() == RelayState(map[], map[])
    {
      registry := r;
      guard := new D.Guard(o);
      endpoints := map[];
    }

    method HandleDatagram(i: Input) returns (sent: seq<Send>, r: Outcome)
      requires Valid()
      modifies this, guard, guard.discovery.Values
      ensures Valid() && fresh(guard.discovery.Values - old(guard.discovery.Values))
      ensures exists list :: ListOf(registry.View(), list)
      ensures forall list | ListOf(registry.View(), list) :: (View(), sent, r) == Handle(guard.options, registry.View(), old(View()), i, list)
    {
      var list := registry.List();
      forall other | ListOf(registry.View(), other) ensures other == list { ListIsUnique(registry.View(), list, other); }
      sent, r := HandleWith(i, list);
      assert ListOf(registry.View(), list);
    }

    method HandleWith(i: Input, list: seq<Peer>) returns (sent: seq<Send>, r: Outcome)
      requires Valid()
      modifies this, guard, guard.discovery.Values
      ensures guard.Valid() && fresh(guard.discovery.Values - old(guard.discovery.Values))
      ensures (View(), sent, r) == Handle(guard.options, registry.View(), old(View()), i, list)
    {
      var parsed := F.ParseFrame(i.bytes);
      if parsed.Err? { return [], BadFrame; }
      SenderDecides(guard.options, registry.View(), View(), parsed.value, i, list);
      sent, r := HandleFrame(parsed.value, i, list);
    }

    method HandleFrame(f: F.Frame, i: Input, list: seq<Peer>) returns (sent: seq<Send>, r: Outcome)
      requires Valid()
      modifies this, guard, guard.discovery.Values
      ensures guard.Valid() && fresh(guard.discovery.Values - old(guard.discovery.Values))
      ensures Sender(registry.View(), f).None? ==> View() == old(View()) && sent == [] && r == Unauthorized
      ensures Sender(registry.View(), f).Some? ==>
                (View(), sent, r) == HandleFor(guard.options, registry.View(), old(View()), f, Sender(registry.View(), f).value, i, list)
    {
      var peer := Authenticate(f);
      if peer.None? { return [], Unauthorized; }
      sent, r := HandleKnown(peer.value, f, i, list);
    }

    method Authenticate(f: F.Frame) returns (peer: Option<Peer>)
      requires Valid()
      ensures peer == Sender(registry.View(), f)
    {
      if f.kind == F.Deliver { return None; }
      peer := registry.GetByToken(f.token);
    }

    method HandleKnown(peer: Peer, f: F.Frame, i: Input, list: seq<Peer>) returns (sent: seq<Send>, r: Outcome)
      requires Valid()
      modifies this, guard, guard.discovery.Values
      ensures guard.Valid() && fresh(guard.discovery.Values - old(guard.discovery.Values))
      ensures (View(), sent, r) == HandleFor(guard.options, registry.View(), old(View()), f, peer, i, list)
    {
      ghost var before := View();
      BindPeer(peer.nodeID, i.src, i.now);
      assert View() == before.(endpoints := Bind(before.endpoints, peer.nodeID, i.src, i.now));
      if f.kind == F.Hello { return [], Handled; }
      sent, r := ForwardPacket(peer, f.payload, i, list);
    }

    method ForwardPacket(peer: Peer, payload: Str, i: Input, list: seq<Peer>) returns (sent: seq<Send>, r: Outcome)
      requires Valid()
      modifies guard, guard.discovery.Values
      ensures guard.Valid() && fresh(guard.discovery.Values - old(guard.discovery.Values))
      ensures (View(), sent, r) == Forward(guard.options, registry.View(), old(View()), peer, payload, i, list)
    {
      if |payload| > 65535 { return [], TooLong; }
      var ends := P.IPv4Endpoints(payload);
      if ends.Err? { return [], BadPacket; }
      if ends.value.source != peer.virtualIP { return [], SourceMismatch; }
      if IsDiscoveryPacket(payload, ends.value.destination) {
        sent, r := FanOutPacket(peer.nodeID, payload, i, list);
        return;
      }
      sent, r := DeliverPacket(ends.value.destination, payload, i.writes);
    }

    method DeliverPacket(destination: Addr, payload: Str, writes: Str -> bool) returns (sent: seq<Send>, r: Outcome)
      requires registry.Valid()
      ensures (sent, r) == DeliverByAddress(registry.View(), endpoints, destination, payload, writes)
    {
      var dest := registry.GetByVirtualIP(destination);
      if dest.None? { return [], NoSuchPeer; }
      var (s, o) := DeliverTo(endpoints, dest.value.nodeID, payload, writes);
      sent, r := s, o;
    }

    method BindPeer(node: Str, src: Str, now: Time)
      modifies this
      ensures View() == old(View()).(endpoints := Bind(old(endpoints), node, src, now))
    {
      endpoints := endpoints[node := Endpoint(src, now)];
    }

    method FanOutPacket(source: Str, payload: Str, i: Input, list: seq<Peer>) returns (sent: seq<Send>, r: Outcome)
      requires guard.Valid()
      modifies guard, guard.discovery.Values
      ensures guard.Valid() && fresh(guard.discovery.Values - old(guard.discovery.Values))
      ensures (View(), sent, r) == FanOut(guard.options, old(View()), source, payload, i, list)
    {
      var v := guard.GuardDiscovery(source, i.sha256(payload), i.instant);
      if v == D.RateLimited { return [], RateLimited; }
      if v == D.Duplicate { return [], Handled; }
      sent, r := BroadcastPacket(source, payload, i.writes, list);
    }

    method BroadcastPacket(source: Str, payload: Str, writes: Str -> bool, list: seq<Peer>) returns (sent: seq<Send>, r: Outcome)
      ensures sent == Broadcast(endpoints, source, payload, writes, list).0
      ensures r == Broadcast(endpoints, source, payload, writes, list).1
    {
      sent := [];
      var k := 0;
      while k < |list|
        invariant 0 <= k <= |list|
        invariant var all, rest := Broadcast(endpoints, source, payload, writes, list), Broadcast(endpoints, source, payload, writes, list[k..]);
                  all.0 == sent + rest.0 && all.1 == rest.1
      {
        assert list[k..][1..] == list[k + 1..];
        var node := list[k].nodeID;
        k := k + 1;
        if node == source || node !in endpoints { continue; }
        var (one, o) := DeliverTo(endpoints, node, payload, writes);
        sent := sent + one;
        if o != Handled { return sent, o; }
      }
      assert list[k..] == [];
      r := Handled;
    }

    method Candidates() returns (out: seq<ObservedCandidate>)
      ensures ObservedIn(out, endpoints)
    {
      out := [];
      var todo := endpoints.Keys;
      while todo != {}
        invariant todo <= endpoints.Keys
        invariant forall x :: x in out <==> x.node in endpoints && x.node !in todo && endpoints[x.node] == x.endpoint
        invariant forall i, j :: 0 <= i < j < |out| ==> out[i].node != out[j].node
        decreases todo
      {
        var node :| node in todo;
        forall i | 0 <= i < |out| ensures out[i].node != node { assert out[i] in out; }
        todo := todo - {node};
        out := out + [ObservedCandidate(node, endpoints[node])];
      }
      SortedObserved(out, endpoints);
      out := Sort(ObservedLess, out);
    }

    method ForgetPeer(node: Str)
      requires guard.Valid()
      modifies this, guard
      ensures guard.Valid() && guard.discovery.Values <= old(guard.discovery.Values)
      ensures View() == RelayState(old(endpoints) - {node}, old(guard.View()) - {node})
    {
      endpoints := endpoints - {node};
      guard.Forget(node);
    }
  }

  // ---- where every delivered datagram comes from and goes to ---------------------------------

  /** The datagram is an authenticated packet frame: its token's holder sent an IPv4 packet
      whose source is the holder's leased address. */
  ghost predicate AuthenticPacket(l: Leases, bytes: Str, peer: Peer, payload: Str) {
    && F.ParseFrame(bytes).Ok? && F.ParseFrame(bytes).value.kind == F.Packet
    && ByToken(l, F.ParseFrame(bytes).value.token) == Some(peer)
    && F.ParseFrame(bytes).value.payload == payload
    && P.IPv4Endpoints(payload).Ok? && P.IPv4Endpoints(payload).value.source == peer.virtualIP
  }

  lemma BroadcastSends(endpoints: Endpoints, source: Str, payload: Str, writes: Str -> bool, list: seq<Peer>)
    ensures var (sent, r) := Broadcast(endpoints, source, payload, writes, list);
            forall x | x in sent :: x.node != source && x.node in endpoints
              && x == Send(x.node, endpoints[x.node].addr, DeliverBytes(payload)) && exists p :: p in list && p.nodeID == x.node
  {
    if list != [] {
      BroadcastSends(endpoints, source, payload, writes, list[1..]);
      var (more, r) := Broadcast(endpoints, source, payload, writes, list[1..]);
      forall x | x in more ensures exists p :: p in list && p.nodeID == x.node {
        var p :| p in list[1..] && p.nodeID == x.node;
        assert p in list;
      }
    }
  }

  /** The send is explained by this sender and packet: it reads back byte for byte as the
      packet, and goes to the endpoint bound to its node: the holder of the destination
      address, or another registered peer if the packet is discovery traffic. */
  ghost predicate Explains(l: Leases, endpoints: Endpoints, bytes: Str, x: Send, peer: Peer, payload: Str) {
    && AuthenticPacket(l, bytes, peer, payload)
    && F.ParseFrame(x.bytes) == F.Ok(F.Frame(F.Deliver, [], payload))
    && x.node in l.peers && x.node in endpoints && x.addr == endpoints[x.node].addr
    && var dst := P.IPv4Endpoints(payload).value.destination;
       if IsDiscoveryPacket(payload, dst) then x.node != peer.nodeID else l.peers[x.node].virtualIP == dst
  }

  ghost predicate Explained(l: Leases, endpoints: Endpoints, bytes: Str, x: Send) {
    exists peer, payload :: Explains(l, endpoints, bytes, x, peer, payload)
  }

  lemma FanOutSends(o: D.Options, s: RelayState, source: Str, payload: Str, i: Input, list: seq<Peer>, x: Send)
    requires x in FanOut(o, s, source, payload, i, list).1
    ensures x.node != source && x.node in s.endpoints && x == Send(x.node, s.endpoints[x.node].addr, DeliverBytes(payload))
    ensures exists p :: p in list && p.nodeID == x.node
    ensures FanOut(o, s, source, payload, i, list).0.endpoints == s.endpoints
  {
    BroadcastSends(s.endpoints, source, payload, i.writes, list);
  }

  lemma ForwardSends(o: D.Options, l: Leases, s: RelayState, peer: Peer, payload: Str, i: Input, list: seq<Peer>, x: Send)
    requires LeasesValid(l) && ListOf(l, list) && x in Forward(o, l, s, peer, payload, i, list).1
    ensures Forward(o, l, s, peer, payload, i, list).0.endpoints == s.endpoints
    ensures x == Send(x.node, x.addr, DeliverBytes(payload))
    ensures x.node in l.peers && x.node in s.endpoints && x.addr == s.endpoints[x.node].addr
    ensures P.IPv4Endpoints(payload).Ok? && P.IPv4Endpoints(payload).value.source == peer.virtualIP
    ensures var dst := P.IPv4Endpoints(payload).value.destination;
            if IsDiscoveryPacket(payload, dst) then x.node != peer.nodeID else l.peers[x.node].virtualIP == dst
  {
    var dst := P.IPv4Endpoints(payload).value.destination;
    if IsDiscoveryPacket(payload, dst) { FanOutSends(o, s, peer.nodeID, payload, i, list, x); }
  }

  /** Every Deliver datagram a step sends is explained by an authenticated sender's packet. */
  lemma Provenance(o: D.Options, l: Leases, s: RelayState, i: Input, list: seq<Peer>, x: Send)
      returns (peer: Peer, payload: Str)
    requires LeasesValid(l) && ListOf(l, list) && x in Handle(o, l, s, i, list).1
    ensures Explains(l, Handle(o, l, s, i, list).0.endpoints, i.bytes, x, peer, payload)
  {
    var f := F.ParseFrame(i.bytes).value;
    peer, payload := ByToken(l, f.token).value, f.payload;
    F.ParseUndoesMarshal(F.Frame(F.Deliver, [], payload));
    var bound := s.(endpoints := Bind(s.endpoints, peer.nodeID, i.src, i.now));
    ForwardSends(o, l, bound, peer, payload, i, list, x);
  }

  ghost predicate SentTo(sent: seq<Send>, node: Str) {
    exists x :: x in sent && x.node == node
  }

  /** With a working socket, fan-out reaches every listed peer with an endpoint but the
      source, each once and in node order. */
  lemma {:induction false} BroadcastReachesEach(
      endpoints: Endpoints, source: Str, payload: Str, writes: Str -> bool, list: seq<Peer>)
    requires StrictlySortedBy(PeerLess, list) && forall n :: n in endpoints ==> writes(endpoints[n].addr)
    ensures var (sent, r) := Broadcast(endpoints, source, payload, writes, list);
            && r == Handled
            && (forall p :: p in list && p.nodeID != source && p.nodeID in endpoints ==> SentTo(sent, p.nodeID))
            && (forall j, k :: 0 <= j < k < |sent| ==> LexLess(sent[j].node, sent[k].node))
  {
    if list != [] {
      var rest := list[1..];
      BroadcastReachesEach(endpoints, source, payload, writes, rest);
      BroadcastSends(endpoints, source, payload, writes, rest);
      var (more, r) := Broadcast(endpoints, source, payload, writes, rest);
      var n := list[0].nodeID;
      var sent := Broadcast(endpoints, source, payload, writes, list).0;
      forall j | 0 <= j < |more| ensures LexLess(n, more[j].node) {
        assert more[j] in more;
        var p :| p in rest && p.nodeID == more[j].node;
      }
      forall p | p in list && p.nodeID != source && p.nodeID in endpoints ensures SentTo(sent, p.nodeID) {
        if p in rest {
          assert SentTo(more, p.nodeID);
          var x :| x in more && x.node == p.nodeID;
          assert x in sent;
        } else {
          assert p == list[0] && sent[0].node == n;
        }
      }
    }
  }

  lemma HandleAdmitted(o: D.Options, l: Leases, s: RelayState, i: Input, list: seq<Peer>, peer: Peer, payload: Str)
    requires AuthenticPacket(l, i.bytes, peer, payload) && |payload| <= 65535
    requires IsDiscoveryPacket(payload, P.IPv4Endpoints(payload).value.destination)
    requires D.GuardIn(o, s.discovery, peer.nodeID, i.sha256(payload), i.instant).1 == D.Admitted
    ensures var bound := Bind(s.endpoints, peer.nodeID, i.src, i.now);
            var (s', sent, r) := Handle(o, l, s, i, list);
            && s'.endpoints == bound
            && sent == Broadcast(bound, peer.nodeID, payload, i.writes, list).0
            && r == Broadcast(bound, peer.nodeID, payload, i.writes, list).1
  {
  }

  /** With a working socket, an admitted discovery packet goes exactly once to every other
      registered peer that has an endpoint. */
  lemma AdmittedReachesEachOnce(o: D.Options, l: Leases, s: RelayState, i: Input, list: seq<Peer>, peer: Peer, payload: Str)
    requires LeasesValid(l) && ListOf(l, list) && AuthenticPacket(l, i.bytes, peer, payload) && |payload| <= 65535
    requires IsDiscoveryPacket(payload, P.IPv4Endpoints(payload).value.destination)
    requires D.GuardIn(o, s.discovery, peer.nodeID, i.sha256(payload), i.instant).1 == D.Admitted
    requires forall a :: i.writes(a)
    ensures var (s', sent, r) := Handle(o, l, s, i, list);
            && r == Handled
            && (forall n :: SentTo(sent, n) <==> n in l.peers && n != peer.nodeID && n in s'.endpoints)
            && (forall j, k :: 0 <= j < k < |sent| ==> sent[j].node != sent[k].node)
  {
    var bound := Bind(s.endpoints, peer.nodeID, i.src, i.now);
    HandleAdmitted(o, l, s, i, list, peer, payload);
    BroadcastReachesEach(bound, peer.nodeID, payload, i.writes, list);
    BroadcastSends(bound, peer.nodeID, payload, i.writes, list);
    var sent := Broadcast(bound, peer.nodeID, payload, i.writes, list).0;
    forall n | n in l.peers && n != peer.nodeID && n in bound ensures SentTo(sent, n) {
      assert l.peers[n] in list;
    }
    forall j, k | 0 <= j < k < |sent| ensures sent[j].node != sent[k].node { LexTotal(sent[j].node, sent[k].node); }
  }

  // ---- endpoints over whole runs -----------------------------------------------------------------

  /** A datagram with the leases of that moment, or a peer forgotten. */
  datatype Event = Datagram(leases: Leases, input: Input, list: seq<Peer>) | Forget(node: Str)

  ghost predicate Step(o: D.Options, s: RelayState, e: Event, s': RelayState, sent: seq<Send>) {
    match e
    case Datagram(l, i, list) => LeasesValid(l) && ListOf(l, list) && (s', sent) == (Handle(o, l, s, i, list).0, Handle(o, l, s, i, list).1)
    case Forget(n) => s' == RelayState(s.endpoints - {n}, s.discovery - {n}) && sent == []
  }

  ghost predicate Run(o: D.Options, events: seq<Event>, states: seq<RelayState>, sends: seq<seq<Send>>) {
    && |states| == |events| + 1 && |sends| == |events| && states[0] == RelayState(map[], map[])
    && forall k: nat | k < |events| :: Follows(o, events, states, sends, k)
  }

  ghost predicate Follows(o: D.Options, events: seq<Event>, states: seq<RelayState>, sends: seq<seq<Send>>, k: nat)
    requires |states| == |events| + 1 && |sends| == |events| && k < |events|
  {
    Step(o, states[k], events[k], states[k + 1], sends[k])
  }

  lemma StepAt(o: D.Options, events: seq<Event>, states: seq<RelayState>, sends: seq<seq<Send>>, k: nat)
    requires Run(o, events, states, sends) && k < |events|
    ensures Step(o, states[k], events[k], states[k + 1], sends[k])
  {
    assert Follows(o, events, states, sends, k);
  }

  /** The event is an authenticated Hello or Packet frame of the node. */
  ghost predicate Binds(e: Event, node: Str) {
    && e.Datagram? && F.ParseFrame(e.input.bytes).Ok? && F.ParseFrame(e.input.bytes).value.kind != F.Deliver
    && ByToken(e.leases, F.ParseFrame(e.input.bytes).value.token).Some?
    && ByToken(e.leases, F.ParseFrame(e.input.bytes).value.token).value.nodeID == node
  }

  function BoundBy(e: Event): Endpoint
    requires e.Datagram?
  {
    Endpoint(e.input.src, e.input.now)
  }

  /** Event j is the node's last authenticated frame before event k, and the node has not
      been forgotten since. */
  ghost predicate LastBind(events: seq<Event>, j: nat, k: nat, node: Str) {
    && j < k <= |events| && Binds(events[j], node)
    && forall m :: j < m < k ==> !Binds(events[m], node) && events[m] != Forget(node)
  }

  lemma HandleEndpoints(o: D.Options, l: Leases, s: RelayState, i: Input, list: seq<Peer>, node: Str)
    ensures var s' := Handle(o, l, s, i, list).0;
            if Binds(Datagram(l, i, list), node) then node in s'.endpoints && s'.endpoints[node] == Endpoint(i.src, i.now)
            else (node in s'.endpoints <==> node in s.endpoints) && (node in s.endpoints ==> s'.endpoints[node] == s.endpoints[node])
  {
  }

  /** The endpoint is bound exactly if there is a last bind, and then it is from there. */
  ghost predicate FromLastBind(events: seq<Event>, k: nat, node: Str, endpoints: Endpoints) {
    && (node in endpoints ==> BoundFrom(events, k, node, endpoints[node]))
    && (HasLastBind(events, k, node) ==> node in endpoints)
  }

  ghost predicate HasLastBind(events: seq<Event>, k: nat, node: Str) {
    exists j: nat :: LastBind(events, j, k, node)
  }

  ghost predicate BoundFrom(events: seq<Event>, k: nat, node: Str, e: Endpoint) {
    exists j: nat :: LastBind(events, j, k, node) && e == BoundBy(events[j])
  }

  /** A bound endpoint is where the node's last authenticated frame came from. */
  lemma {:induction false} EndpointIsLastBind(
      o: D.Options, events: seq<Event>, states: seq<RelayState>, sends: seq<seq<Send>>, k: nat, node: Str)
    requires Run(o, events, states, sends) && k <= |events|
    ensures FromLastBind(events, k, node, states[k].endpoints)
  {
    if k > 0 {
      EndpointIsLastBind(o, events, states, sends, k - 1, node);
      StepAt(o, events, states, sends, k - 1);
      EndpointNext(o, events, k - 1, states[k - 1], states[k], sends[k - 1], node);
    }
  }

  lemma EndpointNext(o: D.Options, events: seq<Event>, k: nat, s: RelayState, s': RelayState, sent: seq<Send>, node: Str)
    requires k < |events| && Step(o, s, events[k], s', sent) && FromLastBind(events, k, node, s.endpoints)
    ensures FromLastBind(events, k + 1, node, s'.endpoints)
  {
    var e := events[k];
    if e.Datagram? { HandleEndpoints(o, e.leases, s, e.input, e.list, node); }
    if Binds(e, node) {
      assert LastBind(events, k, k + 1, node);
    } else if e != Forget(node) {
      LastBindsExtend(events, k, node, s.endpoints);
    }
  }

  lemma LastBindsExtend(events: seq<Event>, k: nat, node: Str, endpoints: Endpoints)
    requires k < |events| && !Binds(events[k], node) && events[k] != Forget(node) && FromLastBind(events, k, node, endpoints)
    ensures FromLastBind(events, k + 1, node, endpoints)
  {
    if HasLastBind(events, k + 1, node) {
      var j: nat :| LastBind(events, j, k + 1, node);
      assert LastBind(events, j, k, node);
    }
    if node in endpoints {
      var j: nat :| LastBind(events, j, k, node) && endpoints[node] == BoundBy(events[j]);
      assert LastBind(events, j, k + 1, node);
    }
  }

  /** Provenance over runs: every datagram ever sent went to the address from which the
      receiving node's last authenticated frame came. */
  lemma SentToLastBind(o: D.Options, events: seq<Event>, states: seq<RelayState>, sends: seq<seq<Send>>, k: nat, x: Send)
    requires Run(o, events, states, sends) && k < |events| && x in sends[k]
    ensures events[k].Datagram?
    ensures Explained(events[k].leases, states[k + 1].endpoints, events[k].input.bytes, x)
    ensures exists j: nat :: LastBind(events, j, k + 1, x.node) && x.addr == events[j].input.src
  {
    StepAt(o, events, states, sends, k);
    var e := events[k];
    var peer, payload := Provenance(o, e.leases, states[k], e.input, e.list, x);
    EndpointIsLastBind(o, events, states, sends, k + 1, x.node);
  }
}
