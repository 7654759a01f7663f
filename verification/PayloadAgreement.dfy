/** Direct payloads between honest nodes over the same hostile network: what is delivered
    was sealed for the receiver by the peer it is ascribed to, and is delivered at most once
    as long as the receiver keeps running. */
module PayloadAgreement {
  import opened GoStrings
  import opened GoTime
  import opened Crypto
  import opened ProbeTickets
  import opened ProbeFrames
  import opened P2PClient
  import opened ProbeAgreement
  import opened Ipv4Blocks
  import C = ClientRuns
  import W = DirectPayload
  import P = Packet
  import L = LeaseRegistry
  import K = Coordinator

  // ---- the ideal seal -------------------------------------------------------------------

  /** At step j an honest node seals the payload between these (trimmed) IDs. */
  predicate SealsAt(w: World, j: nat, t: ProbeTicket, from: Str, to: Str, sealNonce: Str, payload: Str) {
    && Acts(w, j) && w.steps[j].event.Send? && w.steps[j].event.ticket == t
    && w.steps[j].event.sealNonce == sealNonce && w.steps[j].event.payload == payload
    && from == TrimSpace(Actor(w, j).nodeID) && to == TrimSpace(w.steps[j].event.peer)
  }

  /** Some honest node sealed this payload with this key, nonce and additional data before. */
  ghost predicate SealedBefore(w: World, k: nat, key: Str, sealNonce: Str, payload: Str, aad: Str) {
    exists j: nat, t, from, to :: j < k && SealsAt(w, j, t, from, to, sealNonce, payload)
      && Secret(t) == Some(key) && W.Aad(w.c.sha256(key), from, to) == aad
  }

  /** The datagram's fields open under the key. */
  predicate Opens(c: Primitives, data: Str, key: Str) {
    |data| >= W.HEADER_LEN && W.Slice(data).Some?
    && var h := W.Slice(data).value; c.open(key, h.nonce, h.cipher, W.Aad(h.ticketID, h.source, h.target)).Some?
  }

  function OpenedText(c: Primitives, data: Str, key: Str): Str
    requires Opens(c, data, key)
  {
    var h := W.Slice(data).value;
    c.open(key, h.nonce, h.cipher, W.Aad(h.ticketID, h.source, h.target)).value
  }

  /** Under the key of a ticket between honest nodes, what opens was sealed by one of them. */
  ghost predicate SealAuthentic(w: World) {
    forall k: nat, t | Acts(w, k) && w.steps[k].event.Direct? && HonestKey(w, t) && Opens(w.c, w.steps[k].event.data, Secret(t).value) ::
      SealedBefore(w, k, Secret(t).value, W.Slice(w.steps[k].event.data).value.nonce,
        OpenedText(w.c, w.steps[k].event.data, Secret(t).value), AadOf(w.steps[k].event.data))
  }

  function AadOf(data: Str): Str
    requires |data| >= W.HEADER_LEN && W.Slice(data).Some?
  {
    var h := W.Slice(data).value;
    W.Aad(h.ticketID, h.source, h.target)
  }

  predicate HonestKey(w: World, t: ProbeTicket) {
    t in w.issued && t.sourceNode in w.nodes && t.targetNode in w.nodes && Secret(t).Some?
  }

  // ---- payload agreement ------------------------------------------------------------------

  /** At step k node b hands a payload to its tunnel as coming from a. */
  predicate DeliversAt(w: World, k: nat, b: Str, a: Str, payload: Str) {
    && Acts(w, k) && w.steps[k].node == b && w.steps[k].event.Direct?
    && var e := w.steps[k].event;
       HandleDirectIn(w.c, w.states[k][b], e.data, e.source, e.parses, e.localIP, e.at).1 == Delivered(a, payload)
  }

  /** What the checks before delivery have seen. */
  lemma DeliveredMeans(c: Primitives, s: Client, data: Str, source: Str, parses: bool, ip: Addr, at: Time, a: Str, payload: Str)
    requires HandleDirectIn(c, s, data, source, parses, ip, at).1 == Delivered(a, payload)
    ensures W.TicketID(data).Ok? && W.TicketID(data).value in s.tickets
    ensures var t := s.tickets[W.TicketID(data).value];
            && W.OpenDirectPayload(c, data, t, s.nodeID, at) == W.Ok(W.Opened(a, TrimSpace(s.nodeID), payload))
            && IsPair(t, a, TrimSpace(s.nodeID)) && !Expired(t, at) && Secret(t).Some?
            && Opens(c, data, Secret(t).value) && OpenedText(c, data, Secret(t).value) == payload
            && AadOf(data) == W.Aad(c.sha256(Secret(t).value), a, TrimSpace(s.nodeID))
            && W.Slice(data).value.nonce == data[40..52]
    ensures P.IPv4Endpoints(payload).Ok? && P.IPv4Endpoints(payload).value.destination == ip
  {
  }

  /** The additional data of the two directions of a pair coincide. */
  predicate Reflects(a: Str, b: Str) {
    a + [0] + b == b + [0] + a
  }

  lemma AadReflectsIff(id: Str, a: Str, b: Str)
    ensures W.Aad(id, a, b) == W.Aad(id, b, a) <==> Reflects(a, b)
  {
    assert W.Aad(id, a, b) == W.PREFIX + id + (a + [0] + b) + [0] && W.Aad(id, b, a) == W.PREFIX + id + (b + [0] + a) + [0];
    var n := |W.PREFIX + id|;
    var m := n + |a| + 1 + |b|;
    assert W.Aad(id, a, b)[n..m] == a + [0] + b && W.Aad(id, b, a)[n..m] == b + [0] + a;
  }

  lemma NulFreeNeverReflects(a: Str, b: Str)
    requires NulFree(a) && NulFree(b) && a != b
    ensures !Reflects(a, b)
  {
    if Reflects(a, b) { NulEndsString(a, b, b, a); }
  }

  /** The node that sealed with a ticket of the pair a, b, both IDs without outer blanks. */
  lemma SealerOfPair(w: World, j: nat, t: ProbeTicket, from: Str, to: Str, sealNonce: Str, payload: Str, a: Str, b: Str)
    requires StepsFollow(w) && SealsAt(w, j, t, from, to, sealNonce, payload) && IsPair(t, a, b) && TrimSpace(b) == b
    ensures t in w.issued && !Expired(t, w.steps[j].event.at)
    ensures (from == a && to == b && w.steps[j].node == a) || (from == b && to == a && w.steps[j].node == b)
  {
    assert StepFollows(w, j);
    NodesSound(w, j, w.steps[j].node);
    TrimSpaceTrims(w.steps[j].event.peer);
  }

  /** The step seals with the ticket and nonce of this datagram. */
  predicate SealsWith(w: World, j: nat, data: Str) {
    && Acts(w, j) && w.steps[j].event.Send? && W.TicketID(data).Ok?
    && TicketIdentifier(w.c, w.steps[j].event.ticket) == Some(W.TicketID(data).value) && w.steps[j].event.sealNonce == data[40..52]
  }

  /** What honest b delivers as coming from honest a was sealed before under the same ticket,
      which lives at both moments: by a, for b; or by b for a, if the directions coincide. */
  lemma PayloadSealer(w: World, k: nat, b: Str, a: Str, payload: Str) returns (j: nat, t: ProbeTicket)
    requires ProbeAgreement.Run(w) && SealAuthentic(w) && DeliversAt(w, k, b, a, payload) && a in w.nodes && TrimSpace(b) == b
    ensures j < k && Acts(w, j) && t in w.issued && !Expired(t, w.steps[j].event.at) && !Expired(t, w.steps[k].event.at)
    ensures SealsWith(w, j, w.steps[k].event.data)
    ensures || (SealsAt(w, j, t, a, b, w.steps[k].event.data[40..52], payload) && w.steps[j].node == a)
            || (SealsAt(w, j, t, b, a, w.steps[k].event.data[40..52], payload) && w.steps[j].node == b && Reflects(a, b))
  {
    assert StepFollows(w, k);
    NodesSound(w, k, b);
    var e, s := w.steps[k].event, w.states[k][b];
    DeliveredMeans(w.c, s, e.data, e.source, e.parses, e.localIP, e.at, a, payload);
    t := s.tickets[W.TicketID(e.data).value];
    var key := Secret(t).value;
    assert HonestKey(w, t);
    var u, from, to;
    j, u, from, to :| j < k && SealsAt(w, j, u, from, to, e.data[40..52], payload)
      && Secret(u) == Some(key) && W.Aad(w.c.sha256(key), from, to) == AadOf(e.data);
    SealerIssued(w, j, u);
    CoordinatorTicketsSound(w.c, w.issued);
    assert C.SameIdentifier(w.c, t, u);
    SealerOfPair(w, j, t, from, to, e.data[40..52], payload, a, b);
    AadReflectsIff(w.c.sha256(key), a, b);
  }

  lemma SealerIssued(w: World, j: nat, t: ProbeTicket)
    requires StepsFollow(w) && Acts(w, j) && w.steps[j].event.Send? && w.steps[j].event.ticket == t
    ensures t in w.issued
  {
    assert StepFollows(w, j);
    NodesSound(w, j, w.steps[j].node);
  }

  // ---- no node sends to its own address --------------------------------------------------

  /** The node is told of this candidate at step j. */
  predicate Lists(w: World, j: nat, node: Str, d: Candidate) {
    j < |w.steps| && w.steps[j].Act? && w.steps[j].node == node && w.steps[j].event.Candidates? && d in w.steps[j].event.peers
  }

  /** The local address of a node, as `pump` passes it, is never the address of another node's
      candidate that it is told of. */
  ghost predicate AddressesApart(w: World) {
    forall j: nat, k: nat, node, d | Lists(w, j, node, d) && Acts(w, k) && w.steps[k].node == node && w.steps[k].event.Direct? ::
      d.nodeID == node || d.virtualIP != Some(w.steps[k].event.localIP)
  }

  /** The listing a node is told of is the coordinator's at a moment when the node holds the
      lease on this address. */
  ghost predicate ListedWhileLeased(peers: seq<Candidate>, node: Str, address: Addr) {
    exists l, endpoints :: L.LeasesValid(l) && node in l.peers && l.peers[node].virtualIP == address && K.CandidatesOf(peers, l, endpoints)
  }

  /** Every node has one address, which its listings and its deliveries go by. */
  ghost predicate KeepsAddress(w: World, addresses: map<Str, Addr>) {
    && w.nodes <= addresses.Keys
    && (forall k: nat | Acts(w, k) && w.steps[k].node in addresses && w.steps[k].event.Direct? ::
          w.steps[k].event.localIP == addresses[w.steps[k].node])
    && (forall j: nat | Acts(w, j) && w.steps[j].node in addresses && w.steps[j].event.Candidates? ::
          ListedWhileLeased(w.steps[j].event.peers, w.steps[j].node, addresses[w.steps[j].node]))
  }

  lemma ListedAddressIsOthers(peers: seq<Candidate>, node: Str, address: Addr, d: Candidate)
    requires ListedWhileLeased(peers, node, address) && d in peers
    ensures d.nodeID == node || d.virtualIP != Some(address)
  {
    var l, endpoints :| L.LeasesValid(l) && node in l.peers && l.peers[node].virtualIP == address && K.CandidatesOf(peers, l, endpoints);
    L.AddressHolderUnique(l, address);
  }

  /** Leases are one to one, so addresses are apart as long as each node keeps its own. */
  lemma LeasedAddressesApart(w: World, addresses: map<Str, Addr>)
    requires StepsFollow(w) && KeepsAddress(w, addresses)
    ensures AddressesApart(w)
  {
    forall j: nat, k: nat, node, d | Lists(w, j, node, d) && Acts(w, k) && w.steps[k].node == node && w.steps[k].event.Direct?
      ensures d.nodeID == node || d.virtualIP != Some(w.steps[k].event.localIP)
    {
      assert StepFollows(w, j) && StepFollows(w, k);
      ListedAddressIsOthers(w.steps[j].event.peers, node, addresses[node], d);
    }
  }

  predicate ListedIn(m: map<Str, Candidate>, node: Str, list: seq<Candidate>) {
    forall n :: n in m ==> m[n] in list && m[n].nodeID == n != node
  }

  lemma {:induction false} ObservedIsListed(node: Str, list: seq<Candidate>, now: Time)
    ensures ListedIn(Observed(node, list, now), node, list)
  {
    if list != [] {
      var init, last := list[..|list| - 1], list[|list| - 1];
      ObservedIsListed(node, init, now);
      forall d ensures d in list <==> d in init || d == last { assert list == init + [last]; }
    }
  }

  ghost predicate CandidatesListed(w: World, k: nat, node: Str) {
    && k < |w.states| && node in w.states[k]
    && forall n | n in w.states[k][node].candidates :: n != node && ListedBefore(w, k, node, n, w.states[k][node].candidates[n])
  }

  ghost predicate ListedBefore(w: World, k: nat, node: Str, n: Str, d: Candidate) {
    d.nodeID == n && exists j: nat :: j < k && Lists(w, j, node, d)
  }

  lemma CandidatesAfter(c: Primitives, s: Client, e: C.Event)
    ensures C.After(c, s, e).candidates == if e.Candidates? then Observed(s.nodeID, e.peers, e.at) else s.candidates
  {
    if e.Probe? || e.Datagram? || e.Direct? { C.StepFrame(c, s, e); }
  }

  /** In every run a node's candidates are other nodes it was told of. */
  lemma {:induction false} CandidatesAreListed(w: World, k: nat, node: Str)
    requires StepsFollow(w) && k <= |w.steps| && node in w.nodes
    ensures CandidatesListed(w, k, node)
  {
    if k > 0 {
      CandidatesAreListed(w, k - 1, node);
      NodesSound(w, k - 1, node);
      assert StepFollows(w, k - 1);
      CandidatesNext(w, k - 1, node);
    }
  }

  lemma CandidatesNext(w: World, k: nat, node: Str)
    requires k < |w.steps| && |w.states| == |w.steps| + 1 && StepFollows(w, k) && CandidatesListed(w, k, node) && w.states[k][node].nodeID == node
    ensures CandidatesListed(w, k + 1, node)
  {
    var step, s, s' := w.steps[k], w.states[k][node], w.states[k + 1][node];
    if step.node == node && step.Act? {
      CandidatesAfter(w.c, s, step.event);
      if step.event.Candidates? { ObservedIsListed(node, step.event.peers, step.event.at); }
    }
    forall n | n in s'.candidates ensures n != node && ListedBefore(w, k + 1, node, n, s'.candidates[n]) {
      if n in s.candidates && s.candidates[n] == s'.candidates[n] {
        var j: nat :| j < k && Lists(w, j, node, s.candidates[n]);
      } else {
        assert Lists(w, k, node, s'.candidates[n]);
      }
    }
  }

  /** What a node seals is not addressed to itself. */
  lemma SealNotToSelf(w: World, j: nat, k: nat, b: Str, payload: Str)
    requires StepsFollow(w) && AddressesApart(w)
    requires Acts(w, j) && w.steps[j].node == b && w.steps[j].event.Send? && w.steps[j].event.payload == payload
    requires Acts(w, k) && w.steps[k].node == b && w.steps[k].event.Direct?
    ensures P.IPv4Endpoints(payload).Ok? && P.IPv4Endpoints(payload).value.destination != w.steps[k].event.localIP
  {
    assert StepFollows(w, j);
    CandidatesAreListed(w, j, b);
    var peer := w.steps[j].event.peer;
    var d := w.states[j][b].candidates[peer];
    assert ListedBefore(w, j, b, peer, d);
    var i: nat :| i < j && Lists(w, i, b, d);
  }

  /** Agreement on payloads: what honest b delivers as coming from honest a was sealed by a,
      for b, earlier, under the same ticket and nonce, and the ticket lives at both moments.
      It holds for all node IDs, even where the two directions have one additional data: then
      the addresses tell them apart. */
  lemma PayloadAgreed(w: World, k: nat, b: Str, a: Str, payload: Str) returns (j: nat, t: ProbeTicket)
    requires ProbeAgreement.Run(w) && SealAuthentic(w) && AddressesApart(w)
    requires DeliversAt(w, k, b, a, payload) && a in w.nodes && TrimSpace(b) == b
    ensures j < k && Acts(w, j) && t in w.issued && !Expired(t, w.steps[j].event.at) && !Expired(t, w.steps[k].event.at)
    ensures SealsAt(w, j, t, a, b, w.steps[k].event.data[40..52], payload) && w.steps[j].node == a
    ensures SealsWith(w, j, w.steps[k].event.data)
  {
    j, t := PayloadSealer(w, k, b, a, payload);
    if w.steps[j].node == b {
      var e := w.steps[k].event;
      DeliveredMeans(w.c, w.states[k][b], e.data, e.source, e.parses, e.localIP, e.at, a, payload);
      SealNotToSelf(w, j, k, b, payload);
      assert false;
    }
  }

  /** The encoding alone does not tell them apart: where the directions coincide, b opens its
      own seal for a as a payload from a once the two IDs in the header are swapped. */
  lemma ReflectedSealOpens(c: Primitives, t: ProbeTicket, a: Str, b: Str, payload: Str, sealNonce: Str, now: Time)
    requires Ideal(c) && |sealNonce| == 12 && Reflects(a, b) && TrimSpace(b) == b
    requires W.SealChecks(t, b, a, payload, now).None? && TrimSpace(a) == a
    ensures var key := Secret(t).value;
            var id := c.sha256(key);
            W.OpenDirectPayload(c, W.Wire(id, sealNonce, a, b, c.seal(key, sealNonce, payload, W.Aad(id, b, a))), t, b, now)
            == W.Ok(W.Opened(a, b, payload))
  {
    var key := Secret(t).value;
    var id := c.sha256(key);
    AadReflectsIff(id, a, b);
    W.SliceOfWire(id, sealNonce, a, b, c.seal(key, sealNonce, payload, W.Aad(id, b, a)));
  }

  /** There are such IDs: "x" and "x", NUL, "x". */
  lemma SomeIDsReflect()
    ensures Reflects([120], [120, 0, 120]) && TrimSpace([120]) == [120] && TrimSpace([120, 0, 120]) == [120, 0, 120]
  {
    TrimSpaceTrims([120]);
    TrimSpaceTrims([120, 0, 120]);
  }

  // ---- at most once, unless the process starts again ----------------------------------------

  /** At step k node b delivers a datagram with this replay key. */
  predicate DeliversKeyAt(w: World, k: nat, b: Str, key: Str) {
    Acts(w, k) && w.steps[k].node == b && C.DeliversKey(w.c, w.states[k][b], w.steps[k].event, key)
  }

  predicate Remembers(w: World, q: nat, b: Str, key: Str, expiry: Time) {
    q < |w.states| && b in w.states[q] && key in w.states[q][b].entries && w.states[q][b].entries[key] == expiry
  }

  lemma DeliveryRemembered(w: World, k: nat, b: Str, key: Str)
    requires StepsFollow(w) && AllExpire(w.issued) && DeliversKeyAt(w, k, b, key)
    ensures W.TicketID(w.steps[k].event.data).Ok? && W.TicketID(w.steps[k].event.data).value in w.states[k][b].tickets
    ensures var t := w.states[k][b].tickets[W.TicketID(w.steps[k].event.data).value];
            t in w.issued && TicketIdentifier(w.c, t) == Some(W.TicketID(w.steps[k].event.data).value)
            && !Expired(t, w.steps[k].event.at) && Remembers(w, k + 1, b, key, t.expiresAt)
  {
    assert StepFollows(w, k);
    NodesSound(w, k, b);
    C.DeliveryIsAccepted(w.c, w.states[k][b], w.steps[k].event, key);
    C.StepIsCacheCall(w.c, w.states[k][b], w.steps[k].event);
  }

  lemma StillRemembered(c: Primitives, s: Client, e: C.Event, key: Str, expiry: Time)
    requires key in s.entries && s.entries[key] == expiry && e.at < expiry
    ensures key in C.After(c, s, e).entries && C.After(c, s, e).entries[key] == expiry
  {
    C.StepIsCacheCall(c, s, e);
  }

  lemma {:induction false} RememberedUntil(w: World, k: nat, q: nat, b: Str, key: Str, expiry: Time)
    requires StepsFollow(w) && k <= q <= |w.steps| && Remembers(w, k, b, key, expiry)
    requires forall r :: k <= r < q ==> w.steps[r] != Restart(b)
    requires forall r :: k <= r < q && w.steps[r].Act? ==> w.steps[r].event.at < expiry
    ensures Remembers(w, q, b, key, expiry)
    decreases q
  {
    if k < q {
      RememberedUntil(w, k, q - 1, b, key, expiry);
      assert StepFollows(w, q - 1);
      if w.steps[q - 1].Act? && w.steps[q - 1].node == b {
        StillRemembered(w.c, w.states[q - 1][b], w.steps[q - 1].event, key, expiry);
      }
    }
  }

  /** Both deliveries are under one ticket, live at both moments. */
  lemma SameTicket(w: World, k: nat, l: nat, b: Str, key: Str) returns (t: ProbeTicket)
    requires StepsFollow(w) && TicketsSound(w.c, w.issued) && AllExpire(w.issued)
    requires DeliversKeyAt(w, k, b, key) && DeliversKeyAt(w, l, b, key)
    ensures Remembers(w, k + 1, b, key, t.expiresAt) && w.steps[l].event.at < t.expiresAt
  {
    DeliveryRemembered(w, k, b, key);
    DeliveryRemembered(w, l, b, key);
    W.ReplayKeyNames(w.steps[k].event.data, w.steps[l].event.data);
    var id := W.TicketID(w.steps[k].event.data).value;
    t := w.states[k][b].tickets[id];
    assert C.SameIdentifier(w.c, t, w.states[l][b].tickets[id]);
  }

  lemma RememberedIsRefused(w: World, l: nat, b: Str, key: Str, expiry: Time)
    requires Remembers(w, l, b, key, expiry) && Acts(w, l) && w.steps[l].event.at < expiry
    ensures !DeliversKeyAt(w, l, b, key)
  {
    if DeliversKeyAt(w, l, b, key) { C.DeliveryIsAccepted(w.c, w.states[l][b], w.steps[l].event, key); }
  }

  lemma BeforeExpiry(w: World, k: nat, l: nat, expiry: Time)
    requires ClockRuns(w) && k < l < |w.steps| && w.steps[l].Act? && w.steps[l].event.at < expiry
    ensures forall r :: k <= r < l && w.steps[r].Act? ==> w.steps[r].event.at < expiry
  {
  }

  /** A node delivers one ticket and nonce twice only if its process starts again in between. */
  lemma TwoDeliveriesNeedRestart(w: World, k: nat, l: nat, b: Str, key: Str)
    requires StepsFollow(w) && ClockRuns(w) && ShaIdeal(w.c) && FromCoordinator(w.issued) && k < l
    requires DeliversKeyAt(w, k, b, key) && DeliversKeyAt(w, l, b, key)
    ensures exists r :: k < r < l && w.steps[r] == Restart(b)
  {
    CoordinatorTicketsSound(w.c, w.issued);
    var t := SameTicket(w, k, l, b, key);
    if forall r :: k < r < l ==> w.steps[r] != Restart(b) { StillRefused(w, k, l, b, key, t.expiresAt); }
  }

  lemma StillRefused(w: World, k: nat, l: nat, b: Str, key: Str, expiry: Time)
    requires StepsFollow(w) && ClockRuns(w) && k < l && Acts(w, l) && w.steps[l].event.at < expiry
    requires Remembers(w, k + 1, b, key, expiry) && forall r :: k < r < l ==> w.steps[r] != Restart(b)
    ensures !DeliversKeyAt(w, l, b, key)
  {
    BeforeExpiry(w, k, l, expiry);
    RememberedUntil(w, k + 1, l, b, key, expiry);
    RememberedIsRefused(w, l, b, key, expiry);
  }

  // ---- injective agreement ----------------------------------------------------------------------

  /** Two datagrams sealed by one step have one replay key. */
  lemma OneSealOneKey(w: World, i: nat, d: Str, e: Str)
    requires SealsWith(w, i, d) && SealsWith(w, i, e)
    ensures W.ReplayKey(d) == W.ReplayKey(e)
  {
    HexInjective(d[8..40], e[8..40]);
    W.ReplayKeyNames(d, e);
  }

  lemma DeliveryHasKey(w: World, k: nat, b: Str, a: Str, payload: Str)
    requires DeliversAt(w, k, b, a, payload)
    ensures W.ReplayKey(w.steps[k].event.data).Ok? && DeliversKeyAt(w, k, b, W.ReplayKey(w.steps[k].event.data).value)
  {
  }

  /** Agreement is one to one: two deliveries at b, with no restart of b in between, come from
      two different sends. */
  lemma PayloadsAgreedOnce(w: World, k: nat, l: nat, b: Str, a: Str, payload: Str, a': Str, payload': Str)
      returns (i: nat, j: nat, t: ProbeTicket, u: ProbeTicket)
    requires ProbeAgreement.Run(w) && SealAuthentic(w) && AddressesApart(w) && k < l && TrimSpace(b) == b
    requires DeliversAt(w, k, b, a, payload) && a in w.nodes && DeliversAt(w, l, b, a', payload') && a' in w.nodes
    requires forall r :: k < r < l ==> w.steps[r] != Restart(b)
    ensures i < k && j < l && i != j
    ensures SealsAt(w, i, t, a, b, w.steps[k].event.data[40..52], payload) && w.steps[i].node == a
    ensures SealsAt(w, j, u, a', b, w.steps[l].event.data[40..52], payload') && w.steps[j].node == a'
  {
    i, t := PayloadAgreed(w, k, b, a, payload);
    j, u := PayloadAgreed(w, l, b, a', payload');
    if i == j {
      OneSealOneKey(w, i, w.steps[k].event.data, w.steps[l].event.data);
      DeliveryHasKey(w, k, b, a, payload);
      DeliveryHasKey(w, l, b, a', payload');
      TwoDeliveriesNeedRestart(w, k, l, b, W.ReplayKey(w.steps[k].event.data).value);
      assert false;
    }
  }
}
