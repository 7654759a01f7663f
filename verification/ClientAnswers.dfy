/** What the client's runtime does with coordinator replies, probes and acks, said without the
    names of the functions that do it. */
module ClientAnswers {
  import opened GoStrings
  import opened GoTime
  import opened Crypto
  import opened ProbeTickets
  import opened ProbeFrames
  import opened P2PClient
  import C = ClientRuns
  import S = PathSelector
  import V = PayloadService

  // ---- candidates ---------------------------------------------------------------------

  /** Another node with an endpoint, observed at most 30 seconds ago and at most 5 ahead. */
  predicate Usable(node: Str, d: Candidate, now: Time) {
    && d.nodeID != [] && d.nodeID != node && TrimSpace(d.endpoint) != [] && d.observedAt != 0
    && now - d.observedAt <= 30_000_000_000 && d.observedAt - now <= 5_000_000_000
  }

  /** Place j holds the last usable candidate of the node. */
  predicate LastUsable(node: Str, list: seq<Candidate>, now: Time, j: nat, n: Str) {
    && j < |list| && list[j].nodeID == n && Usable(node, list[j], now)
    && forall k :: j < k < |list| ==> !(list[k].nodeID == n && Usable(node, list[k], now))
  }

  ghost predicate KeepsLast(node: Str, list: seq<Candidate>, now: Time, n: Str, m: map<Str, Candidate>) {
    && (n in m ==> HasLast(node, list, now, n))
    && (forall j: nat :: LastUsable(node, list, now, j, n) ==> n in m && m[n] == list[j])
  }

  ghost predicate HasLast(node: Str, list: seq<Candidate>, now: Time, n: Str) {
    exists j: nat :: LastUsable(node, list, now, j, n)
  }

  /** A listing leaves, for each node, its last usable candidate, and nothing else. */
  lemma {:induction false} CandidatesIff(node: Str, list: seq<Candidate>, now: Time, n: Str)
    ensures KeepsLast(node, list, now, n, Observed(node, list, now))
  {
    if list != [] {
      var init, last := list[..|list| - 1], list[|list| - 1];
      CandidatesIff(node, init, now, n);
      if Usable(node, last, now) && last.nodeID == n {
        LastUsableNext(node, list, now, |list| - 1, n);
      } else if HasLast(node, init, now, n) {
        var j: nat :| LastUsable(node, init, now, j, n);
        LastUsableNext(node, list, now, j, n);
      }
      forall j: nat | LastUsable(node, list, now, j, n) ensures n in Observed(node, list, now) && Observed(node, list, now)[n] == list[j] {
        LastUsableNext(node, list, now, j, n);
      }
    }
  }

  /** A refresh of the candidates forgets the old ones and changes nothing else. */
  lemma ListingReplaces(s: Client, list: seq<Candidate>, now: Time, n: Str)
    ensures KeepsLast(s.nodeID, list, now, n, ReplaceCandidatesIn(s, list, now).candidates)
    ensures ReplaceCandidatesIn(s, list, now) == s.(candidates := ReplaceCandidatesIn(s, list, now).candidates)
  {
    CandidatesIff(s.nodeID, list, now, n);
  }

  lemma LastUsableNext(node: Str, list: seq<Candidate>, now: Time, j: nat, n: Str)
    requires list != []
    ensures var init, last := list[..|list| - 1], list[|list| - 1];
            LastUsable(node, list, now, j, n) <==>
            (if Usable(node, last, now) && last.nodeID == n then j == |list| - 1 else LastUsable(node, init, now, j, n))
  {
    var init := list[..|list| - 1];
    assert forall k :: 0 <= k < |init| ==> init[k] == list[k];
  }

  // ---- tickets and pending probes --------------------------------------------------------

  predicate LiveTicket(t: ProbeTicket, now: Time) {
    t.expiresAt == 0 || now < t.expiresAt
  }

  /** The reply offers a live ticket of this node under the identifier. */
  ghost predicate Offered(c: Primitives, node: Str, list: seq<ProbeTicket>, now: Time, id: Str) {
    exists t :: t in list && (t.sourceNode == node || t.targetNode == node) && LiveTicket(t, now) && TicketIdentifier(c, t) == Some(id)
  }

  /** After a refresh the client holds what the reply offers and what it held that is live;
      a probe stays pending exactly for its first 10 seconds; nothing else changes. */
  lemma RefreshIff(c: Primitives, s: Client, list: seq<ProbeTicket>, now: Time, id: Str, n: Str)
    ensures var s' := ReplaceTicketsIn(c, s, list, now);
            && (id in s'.tickets <==> Offered(c, s.nodeID, list, now, id) || (id in s.tickets && LiveTicket(s.tickets[id], now)))
            && (id in s'.tickets && Offered(c, s.nodeID, list, now, id) ==> s'.tickets[id] in list)
            && (id in s'.tickets && !Offered(c, s.nodeID, list, now, id) ==> s'.tickets[id] == s.tickets[id])
            && (n in s'.pending <==> n in s.pending && now - s.pending[n].sentAt < 10_000_000_000)
            && (n in s'.pending ==> s'.pending[n] == s.pending[n])
            && s' == s.(tickets := s'.tickets, pending := s'.pending)
  {
    C.FetchedFromList(c, s.nodeID, list, now);
    var m := Fetched(c, s.nodeID, list, now);
    if id in m { assert m[id] in list; }
    if Offered(c, s.nodeID, list, now, id) {
      var t :| t in list && (t.sourceNode == s.nodeID || t.targetNode == s.nodeID) && LiveTicket(t, now) && TicketIdentifier(c, t) == Some(id);
      assert P2PClient.Usable(c, s.nodeID, t, now);
    }
  }

  /** An issued ticket is held under its identifier and its target is not asked for again for
      10 seconds; one without an identifier is not kept. */
  lemma IssuedIsHeld(c: Primitives, s: Client, target: Str, t: ProbeTicket, start: Time)
    ensures var s' := StoreIssued(c, s, target, t, start);
            match TicketIdentifier(c, t)
            case None => s' == s
            case Some(id) =>
              && s'.tickets == s.tickets[id := t] && s'.lastIssued == s.lastIssued[target := start]
              && s' == s.(tickets := s'.tickets, lastIssued := s'.lastIssued)
              && forall now :: IssuedLately(s'.lastIssued, target, now) <==> now - start < 10_000_000_000
  {
  }

  /** A round of requests stores what was answered and marks those targets; nothing held is
      lost from the map, and nothing else changes. */
  lemma {:induction false} StoredAll(c: Primitives, s: Client, asked: seq<Str>, coordinator: Str -> Option<ProbeTicket>, now: Time)
    ensures var s' := StoreAll(c, s, asked, coordinator, now);
            && s' == s.(tickets := s'.tickets, lastIssued := s'.lastIssued)
            && (forall n :: n in asked && Answered(c, coordinator, n) ==> Stored(c, s', coordinator(n).value, n, now))
            && (forall n | !(n in asked && Answered(c, coordinator, n)) ::
                  (n in s'.lastIssued <==> n in s.lastIssued) && (n in s.lastIssued ==> s'.lastIssued[n] == s.lastIssued[n]))
            && (forall id :: id in s.tickets ==> id in s'.tickets)
  {
    if asked != [] {
      var init, last := asked[..|asked| - 1], asked[|asked| - 1];
      StoredAll(c, s, init, coordinator, now);
      forall n ensures n in asked <==> n in init || n == last { assert asked == init + [last]; }
    }
  }

  ghost predicate Stored(c: Primitives, s: Client, t: ProbeTicket, target: Str, now: Time) {
    && TicketIdentifier(c, t).Some? && TicketIdentifier(c, t).value in s.tickets
    && target in s.lastIssued && s.lastIssued[target] == now
  }

  /** White space around a ticket's token does not matter to its secret. */
  lemma SecretIgnoresSpace(t: ProbeTicket, u: ProbeTicket)
    requires TrimSpace(t.ticket) == TrimSpace(u.ticket)
    ensures Secret(t) == Secret(u)
  {
  }

  // ---- probes ------------------------------------------------------------------------------------

  /** "xray-mesh-p2p/1", "probe" and "probe_ack" */
  const PROTOCOL_BYTES: Str := [0x78, 0x72, 0x61, 0x79, 0x2D, 0x6D, 0x65, 0x73, 0x68, 0x2D, 0x70, 0x32, 0x70, 0x2F, 0x31]
  const PROBE_BYTES: Str := [0x70, 0x72, 0x6F, 0x62, 0x65]
  const ACK_BYTES: Str := [0x70, 0x72, 0x6F, 0x62, 0x65, 0x5F, 0x61, 0x63, 0x6B]

  lemma HexFields(b: Str)
    ensures Unhex(Hex(b)) == Some(b) && TrimSpace(Hex(b)) == Hex(b)
  {
    UnhexHex(b);
    C.HexIsTrimmed(b);
    TrimSpaceTrims(Hex(b));
  }

  /** With an issued ticket and 16 random bytes a probe is made, from the ticket's source to
      its target, and signed with the ticket's key. */
  lemma ProbeIsMade(c: Primitives, t: ProbeTicket, r: Str)
    requires ShaIdeal(c) && HmacShape(c) && C.IssuedTicket(t) && |r| == 16
    ensures Secret(t).Some?
    ensures var key := Secret(t).value;
            var f := Frame(PROTOCOL_BYTES, PROBE_BYTES, Hex(c.sha256(key)), t.sourceNode, t.targetNode, Hex(r), []);
            NewProbe(c, t, Hex(r)) == Made(f.(mac := Hex(c.hmac(key, MacInput(f)))))
  {
    V.IssuedSecret(t);
    HexFields(r);
    HexFields(c.sha256(Secret(t).value));
  }

  /** Sending one registers it under its nonce exactly if the endpoint resolves and the socket
      accepts the write; a failed write leaves no probe under the nonce. */
  lemma SendProbeMeans(c: Primitives, s: Client, t: ProbeTicket, r: Str, resolves: bool, writes: bool, now: Time)
    requires ShaIdeal(c) && HmacShape(c) && C.IssuedTicket(t) && |r| == 16
    ensures NewProbe(c, t, Hex(r)).Made?
    ensures var probe := NewProbe(c, t, Hex(r)).frame;
            SendProbeIn(c, s, t, Some(Hex(r)), resolves, writes, now) ==
            if !resolves then (s, None)
            else if writes then (s.(pending := s.pending[Hex(r) := Pending(probe, t, t.targetNode, now)]), Some(probe))
            else (s.(pending := s.pending - {Hex(r)}), Some(probe))
  {
    ProbeIsMade(c, t, r);
  }

  /** An issued ticket's probe verifies exactly until the ticket expires. */
  lemma ProbeVerifiesIff(c: Primitives, t: ProbeTicket, r: Str, now: Time)
    requires ShaIdeal(c) && HmacShape(c) && C.IssuedTicket(t) && |r| == 16
    ensures NewProbe(c, t, Hex(r)).Made?
    ensures VerifyProbe(c, NewProbe(c, t, Hex(r)).frame, t, now) == if now < t.expiresAt then Valid else ExpiredTicket
  {
    ProbeIsMade(c, t, r);
    var f := NewProbe(c, t, Hex(r)).frame;
    SignedVerifies(c, f.(mac := []), Secret(t).value);
    HexFields(c.sha256(Secret(t).value));
    HexFields(r);
  }

  /** And nothing else verifies: a valid probe is the ticket's own, for some nonce. */
  lemma OnlyOwnProbesVerify(c: Primitives, f: Frame, t: ProbeTicket, now: Time)
    requires VerifyProbe(c, f, t, now) == Valid
    ensures LiveTicket(t, now) && Secret(t).Some?
    ensures f.protocol == PROTOCOL_BYTES && f.kind == PROBE_BYTES && f.sourceNode == t.sourceNode && f.targetNode == t.targetNode
    ensures f.ticketID == Hex(c.sha256(Secret(t).value)) && Unhex(f.mac) == Some(c.hmac(Secret(t).value, MacInput(f)))
    ensures Unhex(f.nonce).Some? && |Unhex(f.nonce).value| == 16
  {
  }

  /** Why a probe does not verify: its shape, the ticket's expiry, or its authenticity. */
  lemma ProbeVerdicts(c: Primitives, f: Frame, t: ProbeTicket, now: Time)
    ensures VerifyProbe(c, f, t, now) == InvalidFrame <==> !(SignedShape(f) && f.kind == PROBE_BYTES)
    ensures VerifyProbe(c, f, t, now) == ExpiredTicket <==>
            SignedShape(f) && f.kind == PROBE_BYTES && f.sourceNode == t.sourceNode && f.targetNode == t.targetNode && !LiveTicket(t, now)
  {
  }

  /** An ack is valid only if it is the answer to this very probe, under the ticket's key, while
      the ticket lives. */
  lemma OnlyOwnAcksVerify(c: Primitives, ack: Frame, probe: Frame, t: ProbeTicket, now: Time)
    requires VerifyAck(c, ack, probe, t, now) == Valid
    ensures VerifyProbe(c, probe, t, now) == Valid && LiveTicket(t, now) && Secret(t).Some?
    ensures ack == Frame(PROTOCOL_BYTES, ACK_BYTES, probe.ticketID, t.targetNode, t.sourceNode, probe.nonce, ack.mac)
    ensures Unhex(ack.mac) == Some(c.hmac(Secret(t).value, MacInput(ack)))
  {
  }

  // ---- answers and marks ----------------------------------------------------------------------------

  /** The target of a live ticket answers a probe made with it, by an ack in its own name that
      the prober accepts; its state does not change. */
  lemma ProbeIsAnswered(c: Primitives, s: Client, t: ProbeTicket, r: Str, source: Str, parses: bool, now: Time)
    requires ShaIdeal(c) && HmacShape(c) && C.IssuedTicket(t) && |r| == 16 && now < t.expiresAt && t.targetNode == s.nodeID
    requires TicketIdentifier(c, t).Some? && TicketIdentifier(c, t).value in s.tickets && s.tickets[TicketIdentifier(c, t).value] == t
    ensures NewProbe(c, t, Hex(r)).Made?
    ensures var probe := NewProbe(c, t, Hex(r)).frame;
            var (s', o) := HandleFrameIn(c, s, probe, source, parses, now);
            && s' == s && o.Replied? && o.ack.kind == ACK_BYTES && o.ack.nonce == Hex(r)
            && o.ack.sourceNode == s.nodeID && o.ack.targetNode == t.sourceNode
            && forall later :: VerifyAck(c, o.ack, probe, t, later) == if later < t.expiresAt then Valid else ExpiredTicket
  {
    ProbeIsMade(c, t, r);
    ProbeVerifiesIff(c, t, r, now);
    var probe := NewProbe(c, t, Hex(r)).frame;
    forall later ensures VerifyAck(c, NewAck(c, probe, t, now).frame, probe, t, later) == if later < t.expiresAt then Valid else ExpiredTicket {
      ProbeVerifiesIff(c, t, r, later);
      if later < t.expiresAt { ExchangeCompletes(c, t, Hex(r), now, later); }
    }
    ExchangeCompletes(c, t, Hex(r), now, now);
  }

  /** A node does not answer a probe for another node, or one that does not verify. */
  lemma OtherProbesAreDropped(c: Primitives, s: Client, f: Frame, source: Str, parses: bool, now: Time)
    requires f.kind == PROBE_BYTES
    requires f.targetNode != s.nodeID || (f.ticketID in s.tickets ==> VerifyProbe(c, f, s.tickets[f.ticketID], now) != Valid)
    ensures HandleFrameIn(c, s, f, source, parses, now) == (s, Dropped)
  {
  }

  /** The frame is an ack that the pending probe under its nonce accepts, under a held ticket
      ID. */
  predicate Completing(c: Primitives, s: Client, f: Frame, now: Time) {
    && f.kind == ACK_BYTES && f.ticketID in s.tickets && f.nonce in s.pending
    && VerifyAck(c, f, s.pending[f.nonce].probe, s.pending[f.nonce].ticket, now) == Valid
  }

  /** Such an ack takes away its own nonce and no other, and makes the path to the probe's
      target direct, by the address it came from, for 30 seconds.  Any other frame changes
      nothing. */
  lemma AckCompletesIff(c: Primitives, s: Client, f: Frame, source: Str, parses: bool, now: Time)
    ensures var (s', o) := HandleFrameIn(c, s, f, source, parses, now);
            if Completing(c, s, f, now) then
              var target := s.pending[f.nonce].target;
              && s'.pending == (map n | n in s.pending && n != f.nonce :: s.pending[n])
              && s'.direct == (if TrimSpace(target) != [] && parses
                               then s.direct[TrimSpace(target) := S.DirectState(TrimSpace(source), now + 30_000_000_000)] else s.direct)
              && s' == s.(pending := s'.pending, direct := s'.direct)
              && o == (if TrimSpace(target) != [] && parses then MarkedHealthy(target) else Dropped)
            else s' == s && !o.MarkedHealthy?
  {
  }
}
