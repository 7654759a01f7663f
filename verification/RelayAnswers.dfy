/** What the relay does with every datagram, said of the bytes that come in and go out. */
module RelayAnswers {
  import opened GoStrings
  import opened Buffers
  import opened Ipv4Blocks
  import opened LeaseRegistry
  import opened Relay
  import D = Discovery
  import F = RelayFrame
  import P = Packet

  // ---- frames ---------------------------------------------------------------------------

  /** Version 1, a type, the token's length in two bytes, the token, the payload. */
  predicate FrameBytes(b: Str, kind: byte, token: Str, payload: Str) {
    |token| <= 512 && b == [1, kind, |token| / 256, |token| % 256] + token + payload
  }

  /** A datagram parses exactly if it has this form with type 1, 2 or 3, and no token in a
      Deliver frame. */
  lemma ParseIff(b: Str, f: F.Frame)
    ensures F.ParseFrame(b) == F.Ok(f) <==>
            match f.kind
            case Hello => FrameBytes(b, 1, f.token, f.payload)
            case Packet => FrameBytes(b, 2, f.token, f.payload)
            case Deliver => f.token == [] && FrameBytes(b, 3, [], f.payload)
  {
    if F.ParseFrame(b) == F.Ok(f) { F.ParseAcceptsOnlyMarshalled(b); }
    if F.Sendable(f) {
      F.ParseUndoesMarshal(f);
      assert |f.token| <= 512 ==> F.Bytes(f) == [1, F.TypeByte(f.kind), |f.token| / 256, |f.token| % 256] + f.token + f.payload;
    }
  }

  /** And why a datagram does not parse. */
  lemma ParseErrors(b: Str)
    ensures F.ParseFrame(b) == F.Err(F.TooShort) <==> |b| < 4
    ensures F.ParseFrame(b) == F.Err(F.BadVersion) <==> |b| >= 4 && b[0] != 1
    ensures F.ParseFrame(b) == F.Err(F.BadType) <==> |b| >= 4 && b[0] == 1 && !(1 <= b[1] <= 3)
    ensures F.ParseFrame(b) == F.Err(F.Malformed) <==> |b| >= 4 && b[0] == 1 && 1 <= b[1] <= 3 && BadLength(b)
  {
  }

  /** The token is longer than 512 bytes or than the datagram, or a Deliver frame has one. */
  predicate BadLength(b: Str)
    requires |b| >= 4
  {
    var n := FromBe16(b[2..4]);
    n > 512 || 4 + n > |b| || (b[1] == 3 && n != 0)
  }

  // ---- discovery traffic ----------------------------------------------------------------------

  /** Destination 224.0.0.251 with UDP port 5353, or 239.255.255.250 with UDP port 1900. */
  predicate DiscoveryBytes(b: Str, ihl: nat)
    requires |b| >= ihl + 8 && ihl >= 20
  {
    || (b[16..20] == [224, 0, 0, 251] && b[ihl + 2..ihl + 4] == [20, 233])
    || (b[16..20] == [239, 255, 255, 250] && b[ihl + 2..ihl + 4] == [7, 108])
  }

  /** An IPv4 header of this length, protocol 17, fragment offset 0, and 8 more bytes. */
  predicate PlainUDP(b: Str, ihl: nat) {
    && 20 <= ihl && ihl + 8 <= |b| && ihl % 4 == 0 && ihl <= 60 && b[0] == 64 + ihl / 4
    && b[9] == 17 && b[6] % 32 == 0 && b[7] == 0
  }

  lemma UDPIff(b: Str, ihl: nat)
    ensures PlainUDP(b, ihl) <==> P.UDPHeaded(b, ihl)
  {
    if |b| >= 20 {
      var hi: nat, lo: nat := b[6], b[7];
      assert FromBe16(b[6..8]) == hi * 256 + lo;
      assert (hi * 256 + lo) % 8192 == (hi % 32) * 256 + lo;
    }
  }

  lemma WordBytes(s: Str)
    requires |s| == 4
    ensures FromBe32(s) == MDNS <==> s == [224, 0, 0, 251]
    ensures FromBe32(s) == SSDP <==> s == [239, 255, 255, 250]
  {
    Be32RoundTrip(MDNS, s);
    Be32RoundTrip(SSDP, s);
  }

  lemma PortBytes(s: Str)
    requires |s| == 2
    ensures FromBe16(s) == 5353 <==> s == [20, 233]
    ensures FromBe16(s) == 1900 <==> s == [7, 108]
  {
    Be16RoundTrip(5353, s);
    Be16RoundTrip(1900, s);
  }

  lemma PortsOf(b: Str, ihl: nat)
    requires PlainUDP(b, ihl)
    ensures P.IPv4UDPPorts(b).Ok? && P.IPv4UDPPorts(b).value.destination == FromBe16(b[ihl + 2..ihl + 4])
  {
    UDPIff(b, ihl);
    P.HeaderLengthIff(b, ihl);
  }

  /** A packet is discovery traffic exactly if it is plain UDP to one of the two groups on its
      port: mDNS or SSDP. */
  lemma DiscoveryIff(b: Str)
    requires P.IPv4Endpoints(b).Ok?
    ensures IsDiscoveryPacket(b, P.IPv4Endpoints(b).value.destination) <==> exists ihl: nat :: PlainUDP(b, ihl) && DiscoveryBytes(b, ihl)
  {
    WordBytes(b[16..20]);
    if P.IPv4UDPPorts(b).Ok? {
      var ihl := P.HeaderLength(b).value;
      P.HeaderLengthIff(b, ihl);
      UDPIff(b, ihl);
      PortBytes(b[ihl + 2..ihl + 4]);
    }
    forall ihl: nat | PlainUDP(b, ihl) && DiscoveryBytes(b, ihl) ensures IsDiscoveryPacket(b, P.IPv4Endpoints(b).value.destination) {
      PortsOf(b, ihl);
      PortBytes(b[ihl + 2..ihl + 4]);
    }
  }

  // ---- unicast ----------------------------------------------------------------------------------

  /** An authentic packet of at most 65535 bytes that is no discovery traffic. */
  ghost predicate Unicast(l: Leases, i: Input, peer: Peer, payload: Str) {
    && AuthenticPacket(l, i.bytes, peer, payload) && |payload| <= 65535
    && !IsDiscoveryPacket(payload, P.IPv4Endpoints(payload).value.destination)
  }

  /** The node holds the destination address and has an endpoint. */
  predicate Receives(l: Leases, endpoints: Endpoints, payload: Str, n: Str)
    requires P.IPv4Endpoints(payload).Ok?
  {
    n in l.peers && l.peers[n].virtualIP == P.IPv4Endpoints(payload).value.destination && n in endpoints
  }

  lemma HandleUnicast(o: D.Options, l: Leases, s: RelayState, i: Input, list: seq<Peer>, peer: Peer, payload: Str)
    requires Unicast(l, i, peer, payload)
    ensures var bound := Bind(s.endpoints, peer.nodeID, i.src, i.now);
            var (sent, r) := DeliverByAddress(l, bound, P.IPv4Endpoints(payload).value.destination, payload, i.writes);
            Handle(o, l, s, i, list) == (RelayState(bound, s.discovery), sent, r)
  {
  }

  lemma HolderOf(l: Leases, n: Str)
    requires LeasesValid(l) && n in l.peers
    ensures ByAddress(l, l.peers[n].virtualIP) == Some(l.peers[n]) && l.peers[n].nodeID == n
  {
    HolderFound(l, n);
  }

  /** A unicast packet is sent to nobody but the holder of its destination, and to it exactly
      if it has an endpoint and the socket accepts the write: one Deliver frame with the very
      payload, to that endpoint.  The sender is bound, the guard is not asked. */
  lemma UnicastReachesHolder(o: D.Options, l: Leases, s: RelayState, i: Input, list: seq<Peer>, peer: Peer, payload: Str)
    requires LeasesValid(l) && Unicast(l, i, peer, payload)
    ensures var (s', sent, r) := Handle(o, l, s, i, list);
            && s'.endpoints == s.endpoints[peer.nodeID := Endpoint(i.src, i.now)] && s'.discovery == s.discovery
            && (forall n :: SentTo(sent, n) <==> Receives(l, s'.endpoints, payload, n) && i.writes(s'.endpoints[n].addr))
            && |sent| <= 1
            && (forall x :: x in sent ==> x.node in s'.endpoints && x.addr == s'.endpoints[x.node].addr && x.bytes == [1, 3, 0, 0] + payload)
  {
    HandleUnicast(o, l, s, i, list, peer, payload);
    forall n | n in l.peers ensures ByAddress(l, l.peers[n].virtualIP) == Some(l.peers[n]) && l.peers[n].nodeID == n { HolderOf(l, n); }
    assert DeliverBytes(payload) == [1, 3, 0, 0] + payload;
    var (s', sent, r) := Handle(o, l, s, i, list);
    forall n | Receives(l, s'.endpoints, payload, n) && i.writes(s'.endpoints[n].addr) ensures SentTo(sent, n) {
      assert sent[0].node == n;
    }
  }

  /** And the outcome says which of these it was. */
  lemma UnicastOutcome(o: D.Options, l: Leases, s: RelayState, i: Input, list: seq<Peer>, peer: Peer, payload: Str)
    requires LeasesValid(l) && Unicast(l, i, peer, payload)
    ensures var (s', sent, r) := Handle(o, l, s, i, list);
            && (r == Handled <==> |sent| == 1)
            && (r == NoSuchPeer <==> forall n :: n in l.peers ==> l.peers[n].virtualIP != P.IPv4Endpoints(payload).value.destination)
            && (r == WriteFailed <==> exists n :: Receives(l, s'.endpoints, payload, n) && !i.writes(s'.endpoints[n].addr))
            && (r == Handled || r == NoSuchPeer || r == NoEndpoint || r == WriteFailed)
  {
    HandleUnicast(o, l, s, i, list, peer, payload);
    forall n | n in l.peers ensures ByAddress(l, l.peers[n].virtualIP) == Some(l.peers[n]) && l.peers[n].nodeID == n { HolderOf(l, n); }
  }

  // ---- what is refused ---------------------------------------------------------------------------

  /** The datagram is a frame a client may send, under the token of a lease. */
  ghost predicate FromClient(l: Leases, b: Str, peer: Peer, f: F.Frame) {
    F.ParseFrame(b) == F.Ok(f) && f.kind != F.Deliver && ByToken(l, f.token) == Some(peer)
  }

  /** A datagram that is no frame, or not from a client with a lease, changes nothing and is
      sent to nobody. */
  lemma StrangersChangeNothing(o: D.Options, l: Leases, s: RelayState, i: Input, list: seq<Peer>)
    ensures var (s', sent, r) := Handle(o, l, s, i, list);
            && (r == BadFrame <==> F.ParseFrame(i.bytes).Err?)
            && (r == Unauthorized <==> F.ParseFrame(i.bytes).Ok? && forall peer, f :: !FromClient(l, i.bytes, peer, f))
            && (r == BadFrame || r == Unauthorized ==> s' == s && sent == [])
  {
    if F.ParseFrame(i.bytes).Ok? {
      var f := F.ParseFrame(i.bytes).value;
      SenderDecides(o, l, s, f, i, list);
      if Sender(l, f).Some? {
        assert FromClient(l, i.bytes, Sender(l, f).value, f);
        StagesNeverRefuse(o, l, s, f, i, list);
      }
    }
  }

  lemma StagesNeverRefuse(o: D.Options, l: Leases, s: RelayState, f: F.Frame, i: Input, list: seq<Peer>)
    requires Sender(l, f).Some?
    ensures HandleFor(o, l, s, f, Sender(l, f).value, i, list).2 != BadFrame
    ensures HandleFor(o, l, s, f, Sender(l, f).value, i, list).2 != Unauthorized
  {
    BroadcastOutcome(Bind(s.endpoints, Sender(l, f).value.nodeID, i.src, i.now), Sender(l, f).value.nodeID, f.payload, i.writes, list);
  }

  lemma {:induction false} BroadcastOutcome(endpoints: Endpoints, source: Str, payload: Str, writes: Str -> bool, list: seq<Peer>)
    ensures Broadcast(endpoints, source, payload, writes, list).1 == Handled || Broadcast(endpoints, source, payload, writes, list).1 == WriteFailed
  {
    if list != [] { BroadcastOutcome(endpoints, source, payload, writes, list[1..]); }
  }

  /** Every frame of a client binds it, and a Hello does nothing else. */
  lemma ClientFrameBinds(o: D.Options, l: Leases, s: RelayState, i: Input, list: seq<Peer>, peer: Peer, f: F.Frame)
    requires FromClient(l, i.bytes, peer, f)
    ensures Handle(o, l, s, i, list).0.endpoints == s.endpoints[peer.nodeID := Endpoint(i.src, i.now)]
    ensures f.kind == F.Hello ==> Handle(o, l, s, i, list) == (Handle(o, l, s, i, list).0.(discovery := s.discovery), [], Handled)
  {
    SenderDecides(o, l, s, f, i, list);
  }

  /** The packet names the sender's leased address as its source. */
  predicate FromLease(peer: Peer, payload: Str) {
    P.IPv4Endpoints(payload).Ok? && P.IPv4Endpoints(payload).value.source == peer.virtualIP
  }

  /** A packet that is too long, no IPv4 packet, or not from the leased address goes no further. */
  lemma BadPacketsGoNowhere(o: D.Options, l: Leases, s: RelayState, i: Input, list: seq<Peer>, peer: Peer, f: F.Frame)
    requires FromClient(l, i.bytes, peer, f) && f.kind == F.Packet
    ensures var (s', sent, r) := Handle(o, l, s, i, list);
            && (r == TooLong <==> |f.payload| > 65535)
            && (r == BadPacket <==> |f.payload| <= 65535 && P.IPv4Endpoints(f.payload).Err?)
            && (r == SourceMismatch <==> |f.payload| <= 65535 && P.IPv4Endpoints(f.payload).Ok? && !FromLease(peer, f.payload))
            && (r == TooLong || r == BadPacket || r == SourceMismatch ==> sent == [] && s'.discovery == s.discovery)
  {
    BroadcastOutcome(s.endpoints[peer.nodeID := Endpoint(i.src, i.now)], peer.nodeID, f.payload, i.writes, list);
    SenderDecides(o, l, s, f, i, list);
  }

  /** A discovery packet the guard does not admit is sent to nobody. */
  lemma NotAdmittedReachesNobody(o: D.Options, l: Leases, s: RelayState, i: Input, list: seq<Peer>, peer: Peer, payload: Str)
    requires AuthenticPacket(l, i.bytes, peer, payload) && |payload| <= 65535
    requires IsDiscoveryPacket(payload, P.IPv4Endpoints(payload).value.destination)
    ensures var (d, v) := D.GuardIn(o, s.discovery, peer.nodeID, i.sha256(payload), i.instant);
            var (s', sent, r) := Handle(o, l, s, i, list);
            && s'.discovery == d
            && (v != D.Admitted ==> sent == [])
            && (r == RateLimited <==> v == D.RateLimited)
            && (v == D.Duplicate ==> r == Handled)
  {
    BroadcastOutcome(s.endpoints[peer.nodeID := Endpoint(i.src, i.now)], peer.nodeID, payload, i.writes, list);
  }
}
