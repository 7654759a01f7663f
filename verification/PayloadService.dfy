/** Which payloads are sealed and which datagrams are delivered: sealing and opening with the
    coordinator's tickets, and `HandleDirectPayload` on every datagram. */
module PayloadService {
  import opened GoStrings
  import opened GoTime
  import opened Crypto
  import opened Ipv4Blocks
  import opened ProbeTickets
  import opened ProbeFrames
  import opened DirectPayload
  import opened P2PClient
  import C = ClientRuns
  import P = Packet
  import S = PathSelector

  // ---- sealing with a coordinator's ticket ------------------------------------------------

  /** What `Issue` makes is such a ticket. */
  lemma MintedIsIssued(ttl: int, source: Str, target: Str, now: Time, token: Str, t: ProbeTicket)
    requires Minted(ttl, source, target, now, Some(token)) == Issued(t) && C.HexKey(token) && ttl > 0 && now >= 0
    ensures C.IssuedTicket(t) && t.expiresAt == now + ttl && IsPair(t, TrimSpace(source), TrimSpace(target))
  {
    TrimSpaceTrims(source);
    TrimSpaceTrims(target);
    TrimSpaceTrims(t.sourceNode);
    TrimSpaceTrims(t.targetNode);
  }

  lemma IssuedSecret(t: ProbeTicket)
    requires C.IssuedTicket(t)
    ensures Secret(t).Some? && |Secret(t).value| == 32 && t.ticket == Hex(Secret(t).value)
  {
    var b :| |b| == KEY_SIZE && t.ticket == Hex(b);
    C.HexIsTrimmed(b);
    TrimSpaceTrims(Hex(b));
    UnhexHex(b);
  }

  /** With an issued ticket, between its two nodes in either direction, exactly the payloads of
      at most 65535 bytes can be sealed, and exactly until the ticket expires. */
  lemma SealSucceedsIff(t: ProbeTicket, a: Str, b: Str, payload: Str, now: Time)
    requires C.IssuedTicket(t) && IsPair(t, a, b) && |a| <= 65535 && |b| <= 65535
    ensures SealChecks(t, a, b, payload, now) ==
            if now >= t.expiresAt then Some(TicketExpired)
            else if |payload| > 65535 then Some(InvalidDirectPayload)
            else None
  {
    IssuedSecret(t);
  }

  /** Nothing can be sealed between nodes that are not the ticket's pair. */
  lemma SealNeedsPair(t: ProbeTicket, a: Str, b: Str, payload: Str, now: Time)
    requires C.IssuedTicket(t) && !IsPair(t, TrimSpace(a), TrimSpace(b))
    ensures SealChecks(t, a, b, payload, now) == Some(InvalidDirectPayload)
  {
  }

  /** So a runtime with a direct path and an issued ticket of the pair can send exactly the
      payloads of at most 65535 bytes, while the ticket lives, if it can draw a nonce. */
  lemma SealableIff(r: P2PRuntime, peer: Str, t: ProbeTicket, payload: Str, nonce: Option<Str>, now: Time)
    requires C.IssuedTicket(t) && IsPair(t, r.nodeID, peer) && |r.nodeID| <= 65535 && |peer| <= 65535
    ensures r.Sealable(Some(peer), Some(t), payload, nonce, now) <==>
            r.DirectNow(peer, now) && now < t.expiresAt && |payload| <= 65535 && nonce.Some?
  {
    SealSucceedsIff(t, r.nodeID, peer, payload, now);
  }

  /** What one node of an issued ticket seals the other opens to the same payload. */
  lemma SealedIsOpened(c: Primitives, t: ProbeTicket, a: Str, b: Str, payload: Str, nonce: Str, now: Time)
    requires Ideal(c) && C.IssuedTicket(t) && IsPair(t, a, b) && |a| <= 65535 && |b| <= 65535
    requires |payload| <= 65535 && |nonce| == 12 && now < t.expiresAt
    ensures Secret(t).Some? && OpenDirectPayload(c, SealedWire(c, t, a, b, payload, nonce), t, b, now) == Ok(Opened(a, b, payload))
    ensures SealChecks(t, a, b, payload, now) == None
  {
    SealSucceedsIff(t, a, b, payload, now);
    OpenUndoesSeal(c, t, a, b, payload, now, nonce, now);
  }

  /** The lengths in the header: two non-empty IDs, room for the tag, and together the whole
      datagram. */
  predicate GoodLengths(data: Str)
    requires |data| >= 60
  {
    var b0: nat, b1: nat, b2: nat, b3: nat := data[52], data[53], data[54], data[55];
    var c0: nat, c1: nat, c2: nat, c3: nat := data[56], data[57], data[58], data[59];
    var s, t, n := b0 * 256 + b1, b2 * 256 + b3, ((c0 * 256 + c1) * 256 + c2) * 256 + c3;
    s != 0 && t != 0 && n >= 16 && 60 + s + t + n == |data|
  }

  lemma LengthsRead(data: Str)
    requires |data| >= 60
    ensures Slice(data).Some? <==> GoodLengths(data)
  {
    assert data[56..60][..2] == data[56..58] && data[56..60][2..] == data[58..60];
  }

  /** Why a datagram is not opened, in this order: another prefix; too short; the ticket has
      expired; bad lengths; not for this node or not from its peer, or not under this key. */
  lemma OpenRefusals(c: Primitives, data: Str, t: ProbeTicket, me: Str, now: Time)
    requires |data| >= 8 && data[..8] == [0x58, 0x52, 0x4D, 0x50, 0x32, 0x50, 0x44, 0x31]
    ensures var r := OpenDirectPayload(c, data, t, me, now);
            && (r == Err(TicketExpired) <==> |data| >= 60 && t.expiresAt != 0 && t.expiresAt <= now)
            && (r == Err(InvalidDirectPayload) <==> |data| < 60 || ((t.expiresAt == 0 || now < t.expiresAt) && !GoodLengths(data)))
            && (r == Err(ProbeAuthFailed) ==> Secret(t).None?)
            && r != Err(NotDirectPayload)
  {
    if |data| >= 60 { LengthsRead(data); }
  }

  // ---- what is not a direct payload ------------------------------------------------------------

  /** A datagram is passed on exactly if it does not start with "XRMP2PD1"; then nothing
      changes. */
  lemma NotDirectIff(c: Primitives, s: Client, data: Str, source: Str, parses: bool, ip: Addr, now: Time)
    ensures var (s', r) := HandleDirectIn(c, s, data, source, parses, ip, now);
            && (r == NotDirect <==> |data| < 8 || data[..8] != [0x58, 0x52, 0x4D, 0x50, 0x32, 0x50, 0x44, 0x31])
            && (r == NotDirect ==> s' == s)
  {
  }

  // ---- what is delivered -----------------------------------------------------------------------------

  /** The datagram is the peer's seal of the payload for this node under a held, live ticket. */
  ghost predicate SealedForMe(c: Primitives, s: Client, data: Str, t: ProbeTicket, peer: Str, payload: Str, nonce: Str, now: Time) {
    var me := TrimSpace(s.nodeID);
    && Secret(t).Some? && Hex(c.sha256(Secret(t).value)) in s.tickets && s.tickets[Hex(c.sha256(Secret(t).value))] == t
    && (t.expiresAt == 0 || now < t.expiresAt) && IsPair(t, peer, me) && peer != [] && me != []
    && |peer| < 65536 && |me| < 65536 && |nonce| == 12 && data == SealedWire(c, t, peer, me, payload, nonce) && data != []
  }

  /** The packet runs from the candidate's address to this node's. */
  predicate RightAddresses(s: Client, peer: Str, payload: Str, ip: Addr) {
    && peer in s.candidates && P.IPv4Endpoints(payload).Ok?
    && s.candidates[peer].virtualIP == Some(P.IPv4Endpoints(payload).value.source)
    && P.IPv4Endpoints(payload).value.destination == ip
  }

  /** The key of ticket ID and nonce is not remembered. */
  predicate NotRemembered(s: Client, data: Str, now: Time)
    requires |data| >= 60
  {
    Hex(data[8..52]) in s.entries ==> s.entries[Hex(data[8..52])] <= now
  }

  lemma SealParts(c: Primitives, t: ProbeTicket, a: Str, b: Str, payload: Str, nonce: Str)
    requires Ideal(c) && Secret(t).Some? && a != [] && b != [] && |a| < 65536 && |b| < 65536 && |nonce| == 12
    requires SealedWire(c, t, a, b, payload, nonce) != []
    ensures var data, key := SealedWire(c, t, a, b, payload, nonce), Secret(t).value;
            && HasPrefix(data) && |data| >= 60
            && Slice(data) == Some(Header(c.sha256(key), nonce, a, b, c.seal(key, nonce, payload, Aad(c.sha256(key), a, b))))
            && TicketID(data) == Ok(Hex(c.sha256(key))) && data[40..52] == nonce
  {
    var key := Secret(t).value;
    var id := c.sha256(key);
    var cipher := c.seal(key, nonce, payload, Aad(id, a, b));
    WireSlices(id, nonce, a, b, cipher);
    SliceOfWire(id, nonce, a, b, cipher);
  }

  /** The checks before the replay cache pass exactly for such datagrams. */
  lemma AuthenticIff(c: Primitives, s: Client, data: Str, ip: Addr, now: Time, o: Opened)
    requires Ideal(c)
    ensures Authentic(c, s, data, ip, now) == Some(o) && TicketsKeyed(c, s) ==>
            |data| >= 60 && TicketID(data).Ok? && TicketID(data).value in s.tickets && o.targetNode == TrimSpace(s.nodeID)
            && SealedForMe(c, s, data, s.tickets[TicketID(data).value], o.sourceNode, o.payload, data[40..52], now)
            && RightAddresses(s, o.sourceNode, o.payload, ip)
  {
    if Authentic(c, s, data, ip, now) == Some(o) && TicketsKeyed(c, s) {
      OpenAcceptsOnlySeals(c, data, s.tickets[TicketID(data).value], s.nodeID, now);
      WireOfSlice(data);
    }
  }

  predicate TicketsKeyed(c: Primitives, s: Client) {
    forall id :: id in s.tickets ==> TicketIdentifier(c, s.tickets[id]) == Some(id)
  }

  lemma SealIsAuthentic(c: Primitives, s: Client, data: Str, t: ProbeTicket, peer: Str, payload: Str, nonce: Str, ip: Addr, now: Time)
    requires Ideal(c) && SealedForMe(c, s, data, t, peer, payload, nonce, now) && RightAddresses(s, peer, payload, ip)
    ensures Authentic(c, s, data, ip, now) == Some(Opened(peer, TrimSpace(s.nodeID), payload))
    ensures |data| >= 60 && ReplayKeyOf(data) == Hex(data[8..52]) && TicketID(data) == Ok(Hex(c.sha256(Secret(t).value)))
  {
    SealParts(c, t, peer, TrimSpace(s.nodeID), payload, nonce);
    P.EndpointsIffHeaded(payload, P.IPv4Endpoints(payload).value);
  }

  /** Delivery: a seal by another node of a held live ticket, for this node, whose candidate and
      addresses match and whose key is not remembered, is delivered, from any source address
      that parses.  The path to the peer is then direct, by that address, for 30 seconds, and
      the key is remembered until the ticket expires, or for 30 seconds if it does not. */
  lemma SealIsDelivered(
      c: Primitives, s: Client, data: Str, t: ProbeTicket, peer: Str, payload: Str, nonce: Str, source: Str, ip: Addr, now: Time)
    requires Ideal(c) && SealedForMe(c, s, data, t, peer, payload, nonce, now) && RightAddresses(s, peer, payload, ip)
    requires |data| >= 60 && NotRemembered(s, data, now) && TrimSpace(peer) == peer
    ensures var (s', r) := HandleDirectIn(c, s, data, source, true, ip, now);
            && r == Delivered(peer, payload)
            && s'.direct == s.direct[peer := S.DirectState(TrimSpace(source), now + 30_000_000_000)]
            && Hex(data[8..52]) in s'.entries
            && s'.entries[Hex(data[8..52])] == (if t.expiresAt == 0 then now + 30_000_000_000 else t.expiresAt)
            && s' == s.(direct := s'.direct, entries := s'.entries)
  {
    SealIsAuthentic(c, s, data, t, peer, payload, nonce, ip, now);
  }

  /** Nothing else is delivered. */
  lemma OnlySealsAreDelivered(
      c: Primitives, s: Client, data: Str, source: Str, parses: bool, ip: Addr, now: Time, peer: Str, payload: Str)
    requires Ideal(c) && TicketsKeyed(c, s) && HandleDirectIn(c, s, data, source, parses, ip, now).1 == Delivered(peer, payload)
    ensures |data| >= 60 && TicketID(data).Ok? && TicketID(data).value in s.tickets && parses && TrimSpace(peer) != []
    ensures SealedForMe(c, s, data, s.tickets[TicketID(data).value], peer, payload, data[40..52], now)
    ensures RightAddresses(s, peer, payload, ip) && NotRemembered(s, data, now)
  {
    AuthenticIff(c, s, data, ip, now, Authentic(c, s, data, ip, now).value);
  }

  /** A datagram refused before the replay cache changes nothing; one refused there leaves the
      paths alone. */
  lemma RefusalChangesNoPath(c: Primitives, s: Client, data: Str, source: Str, parses: bool, ip: Addr, now: Time)
    requires HandleDirectIn(c, s, data, source, parses, ip, now).1 == Refused
    ensures var s' := HandleDirectIn(c, s, data, source, parses, ip, now).0;
            && s' == s.(entries := s'.entries)
            && (Authentic(c, s, data, ip, now).None? ==> s' == s)
  {
  }
}
