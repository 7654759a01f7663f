/** Whole runs of one client: at-most-once delivery of direct payloads, and direct paths
    only on fresh evidence.  The network may present any datagram at any time. */
module ClientRuns {
  import opened GoStrings
  import opened GoTime
  import opened Crypto
  import opened Ipv4Blocks
  import opened ProbeTickets
  import opened ProbeFrames
  import opened P2PClient
  import W = DirectPayload
  import S = PathSelector
  import R = ReplayCache

  /** One step of the runtime.  `SendDirectPayload` is a Select, then a Send of the sealed
      payload, then a Fail if the write failed. */
  datatype Event =
    | Tickets(list: seq<ProbeTicket>, at: Time)
    | Candidates(peers: seq<Candidate>, at: Time)
    | Issued(target: Str, ticket: ProbeTicket, at: Time)
    | Probe(ticket: ProbeTicket, nonce: Option<Str>, resolves: bool, writes: bool, at: Time)
    | Datagram(frame: Frame, source: Str, parses: bool, at: Time)
    | Direct(data: Str, source: Str, parses: bool, localIP: Addr, at: Time)
    | Select(peer: Str, at: Time)
    | Send(ticket: ProbeTicket, peer: Str, payload: Str, sealNonce: Str, at: Time)
    | Fail(peer: Str, at: Time)

  function After(c: Primitives, s: Client, e: Event): Client {
    match e
    case Tickets(list, at) => ReplaceTicketsIn(c, s, list, at)
    case Candidates(peers, at) => ReplaceCandidatesIn(s, peers, at)
    case Issued(target, t, at) => StoreIssued(c, s, target, t, at)
    case Probe(t, nonce, resolves, writes, at) => SendProbeIn(c, s, t, nonce, resolves, writes, at).0
    case Datagram(f, source, parses, at) => HandleFrameIn(c, s, f, source, parses, at).0
    case Direct(data, source, parses, ip, at) => HandleDirectIn(c, s, data, source, parses, ip, at).0
    case Select(peer, at) => s.(direct := S.SelectedIn(s.direct, peer, at))
    case Send(t, peer, payload, sealNonce, at) => s
    case Fail(peer, at) => s.(direct := S.FailedIn(s.direct, peer))
  }

  function Start(node: Str): Client {
    Client(node, map[], map[], map[], map[], map[], map[])
  }

  predicate Run(c: Primitives, node: Str, events: seq<Event>, states: seq<Client>) {
    && (forall i, j :: 0 <= i < j < |events| ==> events[i].at <= events[j].at)
    && |states| == |events| + 1 && states[0] == Start(node)
    && forall k :: 0 <= k < |events| ==> states[k + 1] == After(c, states[k], events[k])
  }

  /** The event hands the peer's payload to the tunnel device. */
  predicate Delivers(c: Primitives, s: Client, e: Event, peer: Str) {
    && e.Direct?
    && HandleDirectIn(c, s, e.data, e.source, e.parses, e.localIP, e.at).1.Delivered?
    && TrimSpace(HandleDirectIn(c, s, e.data, e.source, e.parses, e.localIP, e.at).1.peer) == peer
  }

  /** The event completes a probe of the peer. */
  predicate Completes(c: Primitives, s: Client, e: Event, peer: Str) {
    && e.Datagram?
    && HandleFrameIn(c, s, e.frame, e.source, e.parses, e.at).1.MarkedHealthy?
    && TrimSpace(HandleFrameIn(c, s, e.frame, e.source, e.parses, e.at).1.peer) == peer
  }

  // ---- the client's calls on its selector and replay cache ------------------------------

  function SelectorCall(c: Primitives, s: Client, e: Event): S.Call {
    match e
    case Datagram(f, source, parses, at) =>
      var r := HandleFrameIn(c, s, f, source, parses, at).1;
      if r.MarkedHealthy? then S.Healthy(r.peer, source, at) else S.Idle(at)
    case Direct(data, source, parses, ip, at) =>
      var r := HandleDirectIn(c, s, data, source, parses, ip, at).1;
      if r.Delivered? then S.Healthy(r.peer, source, at) else S.Idle(at)
    case Select(peer, at) => S.Select(peer, at)
    case Fail(peer, at) => S.Failed(peer, at)
    case _ => S.Idle(e.at)
  }

  function CacheCall(c: Primitives, s: Client, e: Event): R.Call {
    if e.Direct? && Authentic(c, s, e.data, e.localIP, e.at).Some?
    then R.Present(ReplayKeyOf(e.data), s.tickets[W.TicketID(e.data).value].expiresAt, e.at)
    else R.Idle(e.at)
  }

  /** Each call leaves everything but its own part of the state alone. */
  lemma StepFrame(c: Primitives, s: Client, e: Event)
    ensures e.Probe? ==> After(c, s, e) == s.(pending := After(c, s, e).pending)
    ensures e.Datagram? ==> After(c, s, e) == s.(pending := After(c, s, e).pending, direct := After(c, s, e).direct)
    ensures e.Direct? ==> After(c, s, e) == s.(entries := After(c, s, e).entries, direct := After(c, s, e).direct)
  {
  }

  lemma StepIsSelectorCall(c: Primitives, s: Client, e: Event)
    ensures After(c, s, e).direct == S.After(RELAY_TTL, s.direct, SelectorCall(c, s, e))
  {
    if !e.Datagram? && !e.Direct? { StepFrame(c, s, e); }
    else if e.Datagram? { FrameIsSelectorCall(c, s, e); }
    else { DirectIsSelectorCall(c, s, e); }
  }

  lemma FrameIsSelectorCall(c: Primitives, s: Client, e: Event)
    requires e.Datagram?
    ensures After(c, s, e).direct == S.After(RELAY_TTL, s.direct, SelectorCall(c, s, e))
  {
  }

  lemma DirectIsSelectorCall(c: Primitives, s: Client, e: Event)
    requires e.Direct?
    ensures After(c, s, e).direct == S.After(RELAY_TTL, s.direct, SelectorCall(c, s, e))
  {
  }

  lemma StepIsCacheCall(c: Primitives, s: Client, e: Event)
    ensures After(c, s, e).entries == R.After(s.entries, CacheCall(c, s, e))
  {
    if e.Direct? { DirectIsCacheCall(c, s, e); } else { StepFrame(c, s, e); }
  }

  lemma DirectIsCacheCall(c: Primitives, s: Client, e: Event)
    requires e.Direct?
    ensures After(c, s, e).entries == R.After(s.entries, CacheCall(c, s, e))
  {
  }

  lemma SelectorRun(c: Primitives, node: Str, events: seq<Event>, states: seq<Client>)
      returns (calls: seq<S.Call>, maps: seq<S.Paths>)
    requires Run(c, node, events, states)
    ensures S.Run(RELAY_TTL, calls, maps) && |calls| == |events|
    ensures forall k :: 0 <= k < |events| ==> calls[k] == SelectorCall(c, states[k], events[k])
    ensures forall k :: 0 <= k <= |events| ==> maps[k] == states[k].direct
  {
    calls := seq(|events|, k requires 0 <= k < |events| => SelectorCall(c, states[k], events[k]));
    maps := seq(|events| + 1, k requires 0 <= k <= |events| => states[k].direct);
    forall k | 0 <= k < |events| ensures maps[k + 1] == S.After(RELAY_TTL, maps[k], calls[k]) {
      StepIsSelectorCall(c, states[k], events[k]);
    }
  }

  lemma CacheRun(c: Primitives, node: Str, events: seq<Event>, states: seq<Client>)
      returns (calls: seq<R.Call>, maps: seq<R.Entries>)
    requires Run(c, node, events, states)
    ensures R.Run(calls, maps) && |calls| == |events|
    ensures forall k :: 0 <= k < |events| ==> calls[k] == CacheCall(c, states[k], events[k])
    ensures forall k :: 0 <= k <= |events| ==> maps[k] == states[k].entries
  {
    calls := seq(|events|, k requires 0 <= k < |events| => CacheCall(c, states[k], events[k]));
    maps := seq(|events| + 1, k requires 0 <= k <= |events| => states[k].entries);
    forall k | 0 <= k < |events| ensures maps[k + 1] == R.After(maps[k], calls[k]) {
      StepIsCacheCall(c, states[k], events[k]);
    }
  }

  // ---- the tickets a client holds --------------------------------------------------------

  /** The coordinator's answers mention the ticket. */
  predicate Mentions(e: Event, t: ProbeTicket) {
    (e.Tickets? && t in e.list) || (e.Issued? && t == e.ticket)
  }

  ghost predicate Heard(events: seq<Event>, k: nat, t: ProbeTicket)
    requires k <= |events|
  {
    exists i :: 0 <= i < k && Mentions(events[i], t)
  }

  /** Tickets are keyed by identifier and all come from the coordinator. */
  ghost predicate TicketsHeard(c: Primitives, events: seq<Event>, k: nat, s: Client)
    requires k <= |events|
  {
    forall id :: id in s.tickets ==> TicketIdentifier(c, s.tickets[id]) == Some(id) && Heard(events, k, s.tickets[id])
  }

  ghost predicate FromList(c: Primitives, node: Str, list: seq<ProbeTicket>, now: Time, m: map<Str, ProbeTicket>) {
    && (forall id :: id in m ==> m[id] in list && Usable(c, node, m[id], now) && TicketIdentifier(c, m[id]) == Some(id))
    && (forall t :: t in list && Usable(c, node, t, now) ==> TicketIdentifier(c, t).value in m)
  }

  /** A refresh takes over exactly the usable tickets of the reply. */
  lemma {:induction false} FetchedFromList(c: Primitives, node: Str, list: seq<ProbeTicket>, now: Time)
    ensures FromList(c, node, list, now, Fetched(c, node, list, now))
  {
    if list != [] {
      var init, last := list[..|list| - 1], list[|list| - 1];
      FetchedFromList(c, node, init, now);
      forall t ensures t in list <==> t in init || t == last { assert list == init + [last]; }
    }
  }

  /** A ticket held after a step was held before it, or the step's event mentions it. */
  lemma StepTickets(c: Primitives, s: Client, e: Event, id: Str)
    requires id in After(c, s, e).tickets
    ensures var t := After(c, s, e).tickets[id];
            (id in s.tickets && s.tickets[id] == t) || (Mentions(e, t) && TicketIdentifier(c, t) == Some(id))
  {
    var t := After(c, s, e).tickets[id];
    match e
    case Tickets(list, at) =>
      FetchedFromList(c, s.nodeID, list, at);
    case _ =>
  }

  lemma HeardNext(events: seq<Event>, k: nat, t: ProbeTicket)
    requires k < |events| && (Heard(events, k, t) || Mentions(events[k], t))
    ensures Heard(events, k + 1, t)
  {
  }

  lemma StepAt(c: Primitives, node: Str, events: seq<Event>, states: seq<Client>, k: nat)
    requires Run(c, node, events, states) && k < |events|
    ensures states[k + 1] == After(c, states[k], events[k])
  {
  }

  lemma {:induction false} HeldTicketsHeard(c: Primitives, node: Str, events: seq<Event>, states: seq<Client>, k: nat)
    requires Run(c, node, events, states) && k <= |events|
    ensures TicketsHeard(c, events, k, states[k])
  {
    if k > 0 {
      HeldTicketsHeard(c, node, events, states, k - 1);
      StepAt(c, node, events, states, k - 1);
      TicketsHeardNext(c, events, k - 1, states[k - 1], states[k]);
    }
  }

  lemma TicketsHeardNext(c: Primitives, events: seq<Event>, k: nat, s: Client, s': Client)
    requires k < |events| && s' == After(c, s, events[k]) && TicketsHeard(c, events, k, s)
    ensures TicketsHeard(c, events, k + 1, s')
  {
    forall id | id in s'.tickets ensures TicketIdentifier(c, s'.tickets[id]) == Some(id) && Heard(events, k + 1, s'.tickets[id]) {
      StepTickets(c, s, events[k], id);
      HeardNext(events, k, s'.tickets[id]);
    }
  }

  predicate SameIdentifier(c: Primitives, t: ProbeTicket, u: ProbeTicket) {
    TicketIdentifier(c, t).Some? && TicketIdentifier(c, t) == TicketIdentifier(c, u)
  }

  /** What the coordinator promises: every ticket expires, and one identifier has one expiry. */
  ghost predicate TicketsAgree(c: Primitives, events: seq<Event>) {
    && (forall t :: Heard(events, |events|, t) ==> !IsZero(t.expiresAt))
    && (forall t, u | Heard(events, |events|, t) && Heard(events, |events|, u) && SameIdentifier(c, t, u) :: t.expiresAt == u.expiresAt)
  }

  lemma HeardLater(events: seq<Event>, k: nat, t: ProbeTicket)
    requires k <= |events| && Heard(events, k, t)
    ensures Heard(events, |events|, t)
  {
  }

  // ---- at-most-once delivery -----------------------------------------------------------------

  predicate DeliversKey(c: Primitives, s: Client, e: Event, key: Str) {
    && e.Direct? && HandleDirectIn(c, s, e.data, e.source, e.parses, e.localIP, e.at).1.Delivered?
    && W.ReplayKey(e.data) == W.Ok(key)
  }

  lemma DeliveryIsAccepted(c: Primitives, s: Client, e: Event, key: Str)
    requires DeliversKey(c, s, e, key)
    ensures W.TicketID(e.data).Ok? && W.TicketID(e.data).value in s.tickets
    ensures !Expired(s.tickets[W.TicketID(e.data).value], e.at)
    ensures CacheCall(c, s, e) == R.Present(key, s.tickets[W.TicketID(e.data).value].expiresAt, e.at)
    ensures R.AcceptsIn(s.entries, key, e.at)
  {
  }

  /** A ticket identifier the client holds at two moments has one, non-zero expiry. */
  lemma HeldExpiry(c: Primitives, node: Str, events: seq<Event>, states: seq<Client>, i: nat, j: nat, id: Str)
    requires Run(c, node, events, states) && TicketsAgree(c, events) && i <= |events| && j <= |events|
    requires id in states[i].tickets && id in states[j].tickets
    ensures states[i].tickets[id].expiresAt == states[j].tickets[id].expiresAt != 0
  {
    HeldTicketsHeard(c, node, events, states, i);
    HeldTicketsHeard(c, node, events, states, j);
    HeardLater(events, i, states[i].tickets[id]);
    HeardLater(events, j, states[j].tickets[id]);
    assert SameIdentifier(c, states[i].tickets[id], states[j].tickets[id]);
  }

  /** If tickets agree, each (ticket, nonce) is delivered at most once. */
  lemma AtMostOnceIfAgreed(c: Primitives, node: Str, events: seq<Event>, states: seq<Client>, i: nat, j: nat, key: Str)
    requires Run(c, node, events, states) && TicketsAgree(c, events) && i < j < |events|
    requires DeliversKey(c, states[i], events[i], key)
    ensures !DeliversKey(c, states[j], events[j], key)
  {
    if DeliversKey(c, states[j], events[j], key) {
      DeliveryIsAccepted(c, states[i], events[i], key);
      DeliveryIsAccepted(c, states[j], events[j], key);
      W.ReplayKeyNames(events[i].data, events[j].data);
      HeldExpiry(c, node, events, states, i, j, W.TicketID(events[i].data).value);
      var calls, maps := CacheRun(c, node, events, states);
      R.AcceptedTwiceOnlyAfterExpiry(calls, maps, i, j);
      assert false;
    }
  }

  // ---- the coordinator keeps its promise -----------------------------------------------------------

  lemma {:induction false} HexIsTrimmed(b: Str)
    ensures Trimmed(Hex(b)) && (b != [] ==> !IsSpace(Hex(b)[0]))
  {
    if b != [] {
      HexIsTrimmed(b[1..]);
      assert |b| == 1 ==> Hex(b[1..]) == [];
    }
  }

  /** Tickets whose tokens are 32 random bytes in lower-case hexadecimal, and no two of
      which share a token, agree on everything as soon as their identifiers agree. */
  lemma CoordinatorTicketsAgree(c: Primitives, t: ProbeTicket, u: ProbeTicket, a: Str, b: Str)
    requires ShaIdeal(c) && |a| == KEY_SIZE && |b| == KEY_SIZE && t.ticket == Hex(a) && u.ticket == Hex(b)
    requires t.ticket == u.ticket ==> t == u
    requires TicketIdentifier(c, t) == TicketIdentifier(c, u)
    ensures t == u
  {
    HexIsTrimmed(a);
    HexIsTrimmed(b);
    TrimSpaceTrims(Hex(a));
    TrimSpaceTrims(Hex(b));
    UnhexHex(a);
    UnhexHex(b);
    IdentifierNamesSecret(c, t, u);
  }

  /** The client's tickets come from a coordinator: its manager held each of them at some
      moment of its run, under tokens that are 32 bytes in hexadecimal.  Coordinator time is
      after Go's zero time. */
  ghost predicate Served(events: seq<Event>, ttl: int, calls: seq<Call>, maps: seq<Tickets>) {
    && CoordinatorRun(ttl, calls, maps)
    && forall t :: Heard(events, |events|, t) ==> EverHeld(maps, t)
  }

  ghost predicate CoordinatorRun(ttl: int, calls: seq<Call>, maps: seq<Tickets>) {
    && ProbeTickets.Run(ttl, calls, maps) && ttl > 0
    && forall i :: 0 <= i < |calls| && calls[i].Issue? ==> calls[i].at >= 0 && (calls[i].token.Some? ==> HexKey(calls[i].token.value))
  }

  ghost predicate HexKey(token: Str) {
    exists b :: |b| == KEY_SIZE && token == Hex(b)
  }

  /** A ticket the coordinator issued, with a token of 32 bytes in hexadecimal, and the
      issuing time after Go's zero time. */
  ghost predicate IssuedTicket(t: ProbeTicket) {
    && HexKey(t.ticket) && TrimSpace(t.sourceNode) == t.sourceNode != [] && TrimSpace(t.targetNode) == t.targetNode != []
    && t.sourceNode != t.targetNode && 0 <= t.issuedAt < t.expiresAt
  }

  ghost predicate EverHeld(maps: seq<Tickets>, t: ProbeTicket) {
    exists k :: 0 <= k < |maps| && t in maps[k].Values
  }

  /** What a reply carries the manager held: the tickets of a listing before the call, and
      the ticket of an issue after it. */
  lemma AnswersEverHeld(ttl: int, calls: seq<Call>, maps: seq<Tickets>, k: nat, out: seq<ProbeTicket>, node: Str)
    requires ProbeTickets.Run(ttl, calls, maps) && k < |calls|
    ensures ListingFor(out, maps[k], node, calls[k].at) ==> forall t :: t in out ==> EverHeld(maps, t)
    ensures MintedBy(ttl, calls[k]).Some? ==> EverHeld(maps, MintedBy(ttl, calls[k]).value)
  {
    if ListingFor(out, maps[k], node, calls[k].at) { AnswersAreHeld(ttl, maps[k], [], [], node, calls[k].at, None, out); }
    if MintedBy(ttl, calls[k]).Some? {
      var t := MintedBy(ttl, calls[k]).value;
      assert Step(ttl, maps[k], calls[k], maps[k + 1]) && maps[k + 1][t.ticket] == t;
    }
  }

  lemma HeldTicketSound(ttl: int, calls: seq<Call>, maps: seq<Tickets>, t: ProbeTicket) returns (k: nat, b: Str)
    requires CoordinatorRun(ttl, calls, maps) && EverHeld(maps, t)
    ensures k <= |calls| && t in maps[k].Values && !IsZero(t.expiresAt)
    ensures |b| == KEY_SIZE && t.ticket == Hex(b)
  {
    k :| 0 <= k < |maps| && t in maps[k].Values;
    var i := HeldWasMinted(ttl, calls, maps, k, t);
    MintedShape(ttl, calls[i]);
    assert HexKey(t.ticket);
    b :| |b| == KEY_SIZE && t.ticket == Hex(b);
  }

  /** A coordinator's tickets always expire, and an identifier stands for one of them. */
  lemma ServedTicketsAgree(c: Primitives, events: seq<Event>, ttl: int, calls: seq<Call>, maps: seq<Tickets>)
    requires ShaIdeal(c) && Served(events, ttl, calls, maps)
    ensures TicketsAgree(c, events)
  {
    forall t | Heard(events, |events|, t) ensures !IsZero(t.expiresAt) {
      var k, b := HeldTicketSound(ttl, calls, maps, t);
    }
    forall t, u | Heard(events, |events|, t) && Heard(events, |events|, u) && SameIdentifier(c, t, u) ensures t.expiresAt == u.expiresAt {
      IdentifierNamesTicket(c, ttl, calls, maps, t, u);
    }
  }

  lemma IdentifierNamesTicket(c: Primitives, ttl: int, calls: seq<Call>, maps: seq<Tickets>, t: ProbeTicket, u: ProbeTicket)
    requires ShaIdeal(c) && CoordinatorRun(ttl, calls, maps) && EverHeld(maps, t) && EverHeld(maps, u) && SameIdentifier(c, t, u)
    ensures t == u
  {
    var j, a := HeldTicketSound(ttl, calls, maps, t);
    var k, b := HeldTicketSound(ttl, calls, maps, u);
    TokenNamesOneTicket(ttl, calls, maps, j, k, t, u);
    CoordinatorTicketsAgree(c, t, u, a, b);
  }

  /** In every run of a client whose tickets a coordinator served, each (ticket, nonce) is
      delivered at most once, although the replay cache forgets its entries. */
  lemma AtMostOnce(
      c: Primitives, node: Str, events: seq<Event>, states: seq<Client>, ttl: int, calls: seq<Call>, maps: seq<Tickets>,
      i: nat, j: nat, key: Str)
    requires ShaIdeal(c) && Run(c, node, events, states) && Served(events, ttl, calls, maps) && i < |events| && j < |events|
    requires DeliversKey(c, states[i], events[i], key) && DeliversKey(c, states[j], events[j], key)
    ensures i == j
  {
    ServedTicketsAgree(c, events, ttl, calls, maps);
    if i < j { AtMostOnceIfAgreed(c, node, events, states, i, j, key); }
    if j < i { AtMostOnceIfAgreed(c, node, events, states, j, i, key); }
  }

  // ---- direct paths need fresh evidence ----------------------------------------------------------------

  /** Evidence that the peer is reachable: an ack of an own pending probe, or an
      authenticated payload that is no replay. */
  predicate Evidence(c: Primitives, s: Client, e: Event, peer: Str) {
    Completes(c, s, e, peer) || Delivers(c, s, e, peer)
  }

  /** Event i is evidence, and no evidence or failure of the peer follows before k. */
  predicate LastEvidence(c: Primitives, events: seq<Event>, states: seq<Client>, i: nat, k: nat, peer: Str)
    requires |states| == |events| + 1
  {
    && i < k <= |events| && Evidence(c, states[i], events[i], peer)
    && forall j :: i < j < k ==> !Evidence(c, states[j], events[j], peer) && !(events[j].Fail? && TrimSpace(events[j].peer) == peer)
  }

  function SourceOf(e: Event): Str
    requires e.Datagram? || e.Direct?
  {
    e.source
  }

  lemma EvidenceIsMark(c: Primitives, s: Client, e: Event, peer: Str)
    ensures Evidence(c, s, e, peer) <==> SelectorCall(c, s, e).Healthy? && S.Marks(SelectorCall(c, s, e), peer)
    ensures Evidence(c, s, e, peer) ==>
              TrimSpace(SelectorCall(c, s, e).endpoint) == TrimSpace(SourceOf(e)) && SelectorCall(c, s, e).at == e.at
    ensures S.Marks(SelectorCall(c, s, e), peer) <==>
              Evidence(c, s, e, peer) || (e.Fail? && TrimSpace(e.peer) == peer)
  {
  }

  /** The selector says direct exactly when the last word on the peer is evidence that came
      from that very endpoint less than the TTL ago. */
  lemma DirectIffFreshEvidence(
      c: Primitives, node: Str, events: seq<Event>, states: seq<Client>, k: nat, peer: Str, now: Time, endpoint: Str)
    requires Run(c, node, events, states) && k <= |events| && (k > 0 ==> events[k - 1].at <= now) && TrimSpace(peer) != []
    ensures S.SelectIn(states[k].direct, peer, now) == S.Direct(endpoint) <==>
            exists i: nat :: LastEvidence(c, events, states, i, k, TrimSpace(peer))
                             && TrimSpace(SourceOf(events[i])) == endpoint && now - events[i].at < RELAY_TTL
  {
    var calls, maps := SelectorRun(c, node, events, states);
    assert k > 0 ==> calls[k - 1].at == events[k - 1].at;
    S.DirectIffFreshMark(RELAY_TTL, calls, maps, k, peer, now, endpoint);
    forall i: nat | i < k
      ensures LastEvidence(c, events, states, i, k, TrimSpace(peer)) <==> S.LastMarkHealthy(calls, i, k, TrimSpace(peer))
    {
      EvidenceAgrees(c, events, states, calls, i, k, TrimSpace(peer));
    }
    forall i: nat | i < k { EvidenceIsMark(c, states[i], events[i], TrimSpace(peer)); }
  }

  lemma EvidenceAgrees(
      c: Primitives, events: seq<Event>, states: seq<Client>, calls: seq<S.Call>, i: nat, k: nat, peer: Str)
    requires |states| == |events| + 1 && |calls| == |events| && i < k <= |events|
    requires forall j :: 0 <= j < |events| ==> calls[j] == SelectorCall(c, states[j], events[j])
    ensures LastEvidence(c, events, states, i, k, peer) <==> S.LastMarkHealthy(calls, i, k, peer)
  {
    forall j | i <= j < k
      ensures Evidence(c, states[j], events[j], peer) <==> calls[j].Healthy? && S.Marks(calls[j], peer)
      ensures S.Marks(calls[j], peer) <==>
                Evidence(c, states[j], events[j], peer) || (events[j].Fail? && TrimSpace(events[j].peer) == peer)
    {
      EvidenceIsMark(c, states[j], events[j], peer);
    }
  }

  /** An ack that completes a probe answers an own pending nonce with a MAC under that
      probe's live ticket, and uses the nonce up. */
  lemma CompletionAnswersOwnProbe(c: Primitives, s: Client, f: Frame, source: Str, parses: bool, now: Time, peer: Str)
    requires HandleFrameIn(c, s, f, source, parses, now).1 == MarkedHealthy(peer)
    ensures f.nonce in s.pending && f.nonce !in HandleFrameIn(c, s, f, source, parses, now).0.pending
    ensures var p := s.pending[f.nonce];
            && p.target == peer && !Expired(p.ticket, now) && Secret(p.ticket).Some?
            && f.kind == ACK && f.sourceNode == p.probe.targetNode && f.targetNode == p.probe.sourceNode
            && Unhex(f.mac) == Some(c.hmac(Secret(p.ticket).value, MacInput(f)))
  {
  }

  /** A frame whose MAC is not that of its own fields under the pending probe's ticket
      neither uses a probe up nor changes a path: it changes nothing. */
  lemma ForgedAckChangesNothing(c: Primitives, s: Client, f: Frame, source: Str, parses: bool, now: Time)
    requires f.kind != PROBE && f.nonce in s.pending
    requires Secret(s.pending[f.nonce].ticket).Some? ==>
               Unhex(f.mac) != Some(c.hmac(Secret(s.pending[f.nonce].ticket).value, MacInput(f)))
    ensures HandleFrameIn(c, s, f, source, parses, now) == (s, Dropped)
  {
  }
}
