/** Direct payload datagrams (internal/p2p/data.go, internal/p2p/data_meta.go). */
module DirectPayload {
  import opened GoStrings
  import opened GoTime
  import opened Buffers
  import opened Crypto
  import opened ProbeTickets
  import opened ProbeFrames

  datatype Error = NotDirectPayload | InvalidDirectPayload | AuthFail | TicketExpired | ProbeAuthFailed | RandFailed

  datatype Result<+T> = Ok(value: T) | Err(error: Error)

  datatype Opened = Opened(sourceNode: Str, targetNode: Str, payload: Str)

  /** "XRMP2PD1" */
  const PREFIX: Str := [0x58, 0x52, 0x4D, 0x50, 0x32, 0x50, 0x44, 0x31]

  const HEADER_LEN := 60

  // ---- the wire format ------------------------------------------------------------

  /** `directPayloadAAD` */
  function Aad(ticketID: Str, source: Str, target: Str): Str {
    PREFIX + ticketID + source + [0] + target + [0]
  }

  /** The datagram: prefix, ticket ID, nonce, three lengths, the two nodes, ciphertext. */
  function Wire(ticketID: Str, nonce: Str, source: Str, target: Str, cipher: Str): Str
    requires |source| < 0x1_0000 && |target| < 0x1_0000 && |cipher| < 0x1_0000_0000
  {
    PREFIX + ticketID + nonce + Be16(|source|) + Be16(|target|) + Be32(|cipher|) + source + target + cipher
  }

  // ---- sealing --------------------------------------------------------------------------

  /** The checks `SealDirectPayload` makes before it draws a nonce. */
  function SealChecks(ticket: ProbeTicket, sourceNode: Str, targetNode: Str, payload: Str, now: Time): Option<Error> {
    var s, t := TrimSpace(sourceNode), TrimSpace(targetNode);
    if s == [] || t == [] || s == t || !IsPair(ticket, s, t) then Some(InvalidDirectPayload)
    else if Expired(ticket, now) then Some(TicketExpired)
    else if |s| > 65535 || |t| > 65535 || |payload| > 65535 then Some(InvalidDirectPayload)
    else if Secret(ticket).None? then Some(ProbeAuthFailed)
    else None
  }

  /** The sealed datagram in the source's way: a buffer filled at moving offsets. */
  method SealDirectPayload(
      c: Primitives, ticket: ProbeTicket, sourceNode: Str, targetNode: Str, payload: Str, now: Time, nonce: Option<Str>)
      returns (r: Result<Str>)
    requires Ideal(c) && (nonce.Some? ==> |nonce.value| == 12)
    ensures r.Err? <==> SealChecks(ticket, sourceNode, targetNode, payload, now).Some? || nonce.None?
    ensures SealChecks(ticket, sourceNode, targetNode, payload, now).Some? ==>
              r == Err(SealChecks(ticket, sourceNode, targetNode, payload, now).value)
    ensures r.Ok? ==> r.value == SealedWire(c, ticket, TrimSpace(sourceNode), TrimSpace(targetNode), payload, nonce.value)
  {
    var s, t := TrimSpace(sourceNode), TrimSpace(targetNode);
    if s == [] || t == [] || s == t || !IsPair(ticket, s, t) { return Err(InvalidDirectPayload); }
    if Expired(ticket, now) { return Err(TicketExpired); }
    if |s| > 65535 || |t| > 65535 || |payload| > 65535 { return Err(InvalidDirectPayload); }
    var secret := Secret(ticket);
    if secret.None? { return Err(ProbeAuthFailed); }
    if nonce.None? { return Err(RandFailed); }
    var ticketID := c.sha256(secret.value);
    var ciphertext := c.seal(secret.value, nonce.value, payload, Aad(ticketID, s, t));
    var out := FillBuffer(ticketID, nonce.value, s, t, ciphertext);
    r := Ok(out[..]);
  }

  method FillBuffer(ticketID: Str, nonce: Str, s: Str, t: Str, ciphertext: Str) returns (out: array<byte>)
    requires |ticketID| == 32 && |nonce| == 12
    requires |s| < 0x1_0000 && |t| < 0x1_0000 && |ciphertext| < 0x1_0000_0000
    ensures out[..] == Wire(ticketID, nonce, s, t, ciphertext)
  {
    out := new byte[HEADER_LEN + |s| + |t| + |ciphertext|];
    CopyAt(out, 0, PREFIX);
    CopyAt(out, 8, ticketID);
    CopyAt(out, 40, nonce);
    assert out[..52] == PREFIX + ticketID + nonce;
    CopyAt(out, 52, Be16(|s|));
    CopyAt(out, 54, Be16(|t|));
    CopyAt(out, 56, Be32(|ciphertext|));
    assert out[..60] == PREFIX + ticketID + nonce + Be16(|s|) + Be16(|t|) + Be32(|ciphertext|);
    var offset := HEADER_LEN;
    CopyAt(out, offset, s);
    offset := offset + |s|;
    CopyAt(out, offset, t);
    offset := offset + |t|;
    CopyAt(out, offset, ciphertext);
  }

  /** The datagram that carries the payload under this nonce. */
  function SealedWire(c: Primitives, ticket: ProbeTicket, s: Str, t: Str, payload: Str, nonce: Str): Str
    requires Secret(ticket).Some? && |s| < 0x1_0000 && |t| < 0x1_0000
  {
    var key := Secret(ticket).value;
    var id := c.sha256(key);
    var cipher := c.seal(key, nonce, payload, Aad(id, s, t));
    if |cipher| < 0x1_0000_0000 then Wire(id, nonce, s, t, cipher) else []
  }

  // ---- opening ----------------------------------------------------------------------------

  datatype Header = Header(ticketID: Str, nonce: Str, source: Str, target: Str, cipher: Str)

  predicate HasPrefix(data: Str) {
    |data| >= 8 && data[..8] == PREFIX
  }

  /** The slicing of `OpenDirectPayload`, after its prefix and length checks. */
  function Slice(data: Str): Option<Header>
    requires |data| >= HEADER_LEN
  {
    var s, t, n := FromBe16(data[52..54]), FromBe16(data[54..56]), FromBe32(data[56..60]);
    if s == 0 || t == 0 || n < TAG_SIZE then None
    else if HEADER_LEN + s + t + n != |data| then None
    else Some(Header(data[8..40], data[40..52], data[60..60 + s], data[60 + s..60 + s + t], data[60 + s + t..]))
  }

  function OpenDirectPayload(c: Primitives, data: Str, ticket: ProbeTicket, expectedTarget: Str, now: Time): Result<Opened> {
    if !HasPrefix(data) then Err(NotDirectPayload)
    else if |data| < HEADER_LEN then Err(InvalidDirectPayload)
    else if Expired(ticket, now) then Err(TicketExpired)
    else
      match Slice(data)
      case None => Err(InvalidDirectPayload)
      case Some(h) =>
        if TrimSpace(expectedTarget) == [] || h.target != TrimSpace(expectedTarget) || !IsPair(ticket, h.source, h.target)
        then Err(AuthFail)
        else
          match Secret(ticket)
          case None => Err(ProbeAuthFailed)
          case Some(key) =>
            if h.ticketID != c.sha256(key) then Err(AuthFail)
            else
              match c.open(key, h.nonce, h.cipher, Aad(h.ticketID, h.source, h.target))
              case None => Err(AuthFail)
              case Some(p) => Ok(Opened(h.source, h.target, p))
  }

  /** `DirectPayloadTicketID` */
  function TicketID(data: Str): Result<Str> {
    if !HasPrefix(data) then Err(NotDirectPayload)
    else if |data| < HEADER_LEN then Err(InvalidDirectPayload)
    else Ok(Hex(data[8..40]))
  }

  /** `DirectPayloadReplayKey` */
  function ReplayKey(data: Str): Result<Str> {
    if !HasPrefix(data) then Err(NotDirectPayload)
    else if |data| < HEADER_LEN then Err(InvalidDirectPayload)
    else Ok(Hex(data[8..52]))
  }

  // ---- the codec both ways ---------------------------------------------------------------------

  lemma WireSlices(id: Str, nonce: Str, s: Str, t: Str, cipher: Str)
    requires |id| == 32 && |nonce| == 12
    requires |s| < 0x1_0000 && |t| < 0x1_0000 && |cipher| < 0x1_0000_0000
    ensures var data := Wire(id, nonce, s, t, cipher);
            && |data| == HEADER_LEN + |s| + |t| + |cipher| && HasPrefix(data)
            && data[8..40] == id && data[40..52] == nonce
            && data[52..54] == Be16(|s|) && data[54..56] == Be16(|t|) && data[56..60] == Be32(|cipher|)
            && data[60..60 + |s|] == s && data[60 + |s|..60 + |s| + |t|] == t && data[60 + |s| + |t|..] == cipher
  {
    var head := PREFIX + id + nonce + Be16(|s|) + Be16(|t|) + Be32(|cipher|);
    assert Wire(id, nonce, s, t, cipher) == head + s + t + cipher;
    assert |head| == 60;
    assert head[..8] == PREFIX && head[8..40] == id && head[40..52] == nonce;
    assert head[52..54] == Be16(|s|) && head[54..56] == Be16(|t|) && head[56..60] == Be32(|cipher|);
  }

  lemma SliceOfWire(id: Str, nonce: Str, s: Str, t: Str, cipher: Str)
    requires |id| == 32 && |nonce| == 12 && s != [] && t != []
    requires |s| < 0x1_0000 && |t| < 0x1_0000 && TAG_SIZE <= |cipher| < 0x1_0000_0000
    ensures var data := Wire(id, nonce, s, t, cipher);
            HasPrefix(data) && |data| >= HEADER_LEN && Slice(data) == Some(Header(id, nonce, s, t, cipher))
  {
    WireSlices(id, nonce, s, t, cipher);
    Be16RoundTrip(|s|, []);
    Be16RoundTrip(|t|, []);
    Be32RoundTrip(|cipher|, []);
  }

  lemma WireOfSlice(data: Str)
    requires HasPrefix(data) && |data| >= HEADER_LEN && Slice(data).Some?
    ensures var h := Slice(data).value;
            && |h.ticketID| == 32 && |h.nonce| == 12 && h.source != [] && h.target != []
            && |h.source| < 0x1_0000 && |h.target| < 0x1_0000 && TAG_SIZE <= |h.cipher| < 0x1_0000_0000
            && data == Wire(h.ticketID, h.nonce, h.source, h.target, h.cipher)
  {
    var h := Slice(data).value;
    Be16RoundTrip(0, data[52..54]);
    Be16RoundTrip(0, data[54..56]);
    Be32RoundTrip(0, data[56..60]);
    var head := PREFIX + h.ticketID + h.nonce + Be16(|h.source|) + Be16(|h.target|) + Be32(|h.cipher|);
    assert data[..60] == head by {
      assert data[..60] == data[..8] + data[8..40] + data[40..52] + data[52..54] + data[54..56] + data[56..60];
    }
    assert data == data[..60] + h.source + h.target + h.cipher;
  }

  /** Opening undoes sealing, in either direction of the pair, while the ticket lives. */
  lemma OpenUndoesSeal(
      c: Primitives, ticket: ProbeTicket, sourceNode: Str, targetNode: Str, payload: Str, sentAt: Time, nonce: Str, now: Time)
    requires Ideal(c) && |nonce| == 12
    requires SealChecks(ticket, sourceNode, targetNode, payload, sentAt).None? && !Expired(ticket, now)
    ensures var s, t := TrimSpace(sourceNode), TrimSpace(targetNode);
            OpenDirectPayload(c, SealedWire(c, ticket, s, t, payload, nonce), ticket, targetNode, now)
            == Ok(Opened(s, t, payload))
  {
    var s, t := TrimSpace(sourceNode), TrimSpace(targetNode);
    var key := Secret(ticket).value;
    var id := c.sha256(key);
    var cipher := c.seal(key, nonce, payload, Aad(id, s, t));
    SliceOfWire(id, nonce, s, t, cipher);
  }

  /** Whatever is accepted is exactly the seal of the fields returned, under its nonce, with
      a live ticket of the two nodes, addressed to the node that opened it. */
  lemma OpenAcceptsOnlySeals(c: Primitives, data: Str, ticket: ProbeTicket, me: Str, now: Time)
    requires Ideal(c) && OpenDirectPayload(c, data, ticket, me, now).Ok?
    ensures !Expired(ticket, now) && Secret(ticket).Some? && |data| >= HEADER_LEN
    ensures var o := OpenDirectPayload(c, data, ticket, me, now).value;
            && o.targetNode == TrimSpace(me) && IsPair(ticket, o.sourceNode, o.targetNode)
            && |o.sourceNode| < 0x1_0000 && |o.targetNode| < 0x1_0000
            && data == SealedWire(c, ticket, o.sourceNode, o.targetNode, o.payload, data[40..52])
    ensures TicketID(data) == Ok(TicketIdentifier(c, ticket).value)
  {
    WireOfSlice(data);
  }

  // ---- unambiguous authenticated encodings ---------------------------------------------------------

  lemma AadTail(id: Str, s: Str, t: Str)
    ensures Aad(id, s, t) == PREFIX + id + (s + [0] + (t + [0] + []))
    ensures Aad(id, s, t)[|PREFIX|..][..|id|] == id && Aad(id, s, t)[|PREFIX| + |id|..] == s + [0] + (t + [0] + [])
  {
  }

  /** The additional data of NUL-free node IDs names one ticket and one direction, whatever
      bytes other IDs may hold. */
  lemma AadInjective(id: Str, s: Str, t: Str, id': Str, s': Str, t': Str)
    requires |id| == |id'| && NulFree(s) && NulFree(t)
    requires Aad(id, s, t) == Aad(id', s', t')
    ensures id == id' && s == s' && t == t'
  {
    AadTail(id, s, t);
    AadTail(id', s', t');
    NulPairUnique(s, t, [], s', t', []);
  }

  /** Exactly then: it names one pair if and only if the pair's IDs hold no NUL. */
  lemma AadUnambiguousIff(id: Str, s: Str, t: Str)
    ensures (forall id', s', t' | |id'| == |id| && Aad(id', s', t') == Aad(id, s, t) :: id' == id && s' == s && t' == t)
            <==> NulFree(s) && NulFree(t)
  {
    if NulFree(s) && NulFree(t) {
      forall id', s', t' | |id'| == |id| && Aad(id', s', t') == Aad(id, s, t) ensures id' == id && s' == s && t' == t {
        AadInjective(id, s, t, id', s', t');
      }
    } else {
      var s', t' := NulPairSplits(s, t, []);
      AadTail(id, s, t);
      AadTail(id, s', t');
      assert |id| == |id| && Aad(id, s', t') == Aad(id, s, t);
    }
  }

  /** With a NUL in a node ID two different pairs share one additional data. */
  lemma AadAmbiguousWithNul(id: Str)
    ensures Aad(id, [97], [98, 0, 99]) == Aad(id, [97, 0, 98], [99])
  {
    assert Aad(id, [97], [98, 0, 99]) == PREFIX + id + [97, 0, 98, 0, 99, 0];
    assert Aad(id, [97, 0, 98], [99]) == PREFIX + id + [97, 0, 98, 0, 99, 0];
  }

  /** The replay key names the ticket and the nonce. */
  lemma ReplayKeyNames(d: Str, e: Str)
    requires ReplayKey(d).Ok? && ReplayKey(e).Ok?
    ensures ReplayKey(d) == ReplayKey(e) <==> d[8..40] == e[8..40] && d[40..52] == e[40..52]
    ensures ReplayKey(d) == ReplayKey(e) ==> TicketID(d) == TicketID(e)
  {
    assert d[8..52] == d[8..40] + d[40..52] && e[8..52] == e[8..40] + e[40..52];
    assert d[8..40] == d[8..52][..32] && d[40..52] == d[8..52][32..];
    assert e[8..40] == e[8..52][..32] && e[40..52] == e[8..52][32..];
    if ReplayKey(d) == ReplayKey(e) { HexInjective(d[8..52], e[8..52]); }
  }
}
