/** The client's P2P runtime (cmd/client/p2p_runtime.go, cmd/client/direct_runtime.go):
    tickets, candidates, pending probes, direct paths and the replay cache of one node. */
module P2PClient {
  import opened GoStrings
  import opened GoTime
  import opened Crypto
  import opened Ipv4Blocks
  import opened ProbeTickets
  import opened ProbeFrames
  import W = DirectPayload
  import S = PathSelector
  import R = ReplayCache
  import P = Packet

  const RELAY_TTL := 30 * SECOND
  const CANDIDATE_MAX_AGE := 30 * SECOND
  const CANDIDATE_MAX_LEAD := 5 * SECOND
  const PENDING_TTL := 10 * SECOND
  const TICKET_RETRY := 10 * SECOND

  /** A peer endpoint the coordinator observed; virtualIP is None if its text is no address. */
  datatype Candidate = Candidate(nodeID: Str, virtualIP: Option<Addr>, endpoint: Str, observedAt: Time)

  datatype Pending = Pending(probe: Frame, ticket: ProbeTicket, target: Str, sentAt: Time)

  /** The runtime's state as a value.  Tickets are keyed by identifier, probes by nonce. */
  datatype Client = Client(
    nodeID: Str,
    tickets: map<Str, ProbeTicket>,
    candidates: map<Str, Candidate>,
    pending: map<Str, Pending>,
    lastIssued: map<Str, Time>,
    direct: S.Paths,
    entries: R.Entries)

  // ---- refreshing tickets and candidates ------------------------------------------

  predicate Usable(c: Primitives, node: Str, t: ProbeTicket, now: Time) {
    Names(t, node) && !Expired(t, now) && TicketIdentifier(c, t).Some?
  }

  /** The usable tickets of a coordinator reply, by identifier. */
  function Fetched(c: Primitives, node: Str, list: seq<ProbeTicket>, now: Time): map<Str, ProbeTicket> {
    if list == [] then map[]
    else
      var rest, t := Fetched(c, node, list[..|list| - 1], now), list[|list| - 1];
      if Usable(c, node, t, now) then rest[TicketIdentifier(c, t).value := t] else rest
  }

  /** `replaceTickets`: the reply, plus live tickets it does not mention; old probes lapse. */
  function ReplaceTicketsIn(c: Primitives, s: Client, list: seq<ProbeTicket>, now: Time): Client {
    var next := Fetched(c, s.nodeID, list, now);
    s.(tickets := map id | id in next.Keys + s.tickets.Keys && (id in next || !Expired(s.tickets[id], now))
                    :: if id in next then next[id] else s.tickets[id],
       pending := map n | n in s.pending && now - s.pending[n].sentAt < PENDING_TTL :: s.pending[n])
  }

  predicate Acceptable(node: Str, d: Candidate, now: Time) {
    && d.nodeID != [] && d.nodeID != node && TrimSpace(d.endpoint) != []
    && !IsZero(d.observedAt) && now - d.observedAt <= CANDIDATE_MAX_AGE && d.observedAt <= now + CANDIDATE_MAX_LEAD
  }

  function Observed(node: Str, list: seq<Candidate>, now: Time): map<Str, Candidate> {
    if list == [] then map[]
    else
      var rest, d := Observed(node, list[..|list| - 1], now), list[|list| - 1];
      if Acceptable(node, d, now) then rest[d.nodeID := d] else rest
  }

  function ReplaceCandidatesIn(s: Client, list: seq<Candidate>, now: Time): Client {
    s.(candidates := Observed(s.nodeID, list, now))
  }

  // ---- issuing tickets ------------------------------------------------------------------

  predicate HasLiveSourceTicket(tickets: map<Str, ProbeTicket>, source: Str, target: Str, now: Time) {
    exists id :: id in tickets && tickets[id].sourceNode == source && tickets[id].targetNode == target && !Expired(tickets[id], now)
  }

  /** The client asks the coordinator for a ticket to this target. */
  predicate Needs(s: Client, target: Str, now: Time) {
    && LexLess(s.nodeID, target)
    && !HasLiveSourceTicket(s.tickets, s.nodeID, target, now)
    && !(target in s.lastIssued && now - s.lastIssued[target] < TICKET_RETRY)
  }

  /** No held ticket leads from source to target and has no expiry or one to come. */
  predicate NoLiveTicket(tickets: map<Str, ProbeTicket>, source: Str, target: Str, now: Time) {
    forall id :: id in tickets && tickets[id].sourceNode == source && tickets[id].targetNode == target ==>
      tickets[id].expiresAt != 0 && tickets[id].expiresAt <= now
  }

  /** A ticket was issued for the target less than 10 seconds ago. */
  predicate IssuedLately(lastIssued: map<Str, Time>, target: Str, now: Time) {
    target in lastIssued && now - lastIssued[target] < 10_000_000_000
  }

  /** The node is above this one, which holds no live ticket to it and was issued none lately. */
  predicate MustAsk(s: Client, n: Str, now: Time) {
    LexLess(s.nodeID, n) && NoLiveTicket(s.tickets, s.nodeID, n, now) && !IssuedLately(s.lastIssued, n, now)
  }

  lemma NeedsIff(s: Client, n: Str, now: Time)
    ensures Needs(s, n, now) <==> MustAsk(s, n, now)
  {
  }

  function StoreIssued(c: Primitives, s: Client, target: Str, ticket: ProbeTicket, now: Time): Client {
    match TicketIdentifier(c, ticket)
    case None => s
    case Some(id) => s.(tickets := s.tickets[id := ticket], lastIssued := s.lastIssued[target := now])
  }

  predicate Answered(c: Primitives, coordinator: Str -> Option<ProbeTicket>, target: Str) {
    coordinator(target).Some? && TicketIdentifier(c, coordinator(target).value).Some?
  }

  function StoreAll(c: Primitives, s: Client, asked: seq<Str>, coordinator: Str -> Option<ProbeTicket>, now: Time): Client {
    if asked == [] then s
    else
      var m, target := StoreAll(c, s, asked[..|asked| - 1], coordinator, now), asked[|asked| - 1];
      if coordinator(target).Some? then StoreIssued(c, m, target, coordinator(target).value, now) else m
  }

  // ---- probes ---------------------------------------------------------------------------------

  /** `sendProbe`.  The nonce comes from the random source; whether the endpoint resolves and
      the socket accepts the write is the environment's answer. */
  function SendProbeIn(c: Primitives, s: Client, ticket: ProbeTicket, nonce: Option<Str>, resolves: bool, writes: bool, now: Time)
    : (Client, Option<Frame>)
  {
    if nonce.None? then (s, None)
    else match NewProbe(c, ticket, nonce.value)
      case Failed(_) => (s, None)
      case Made(probe) =>
        if !resolves then (s, None)
        else if !writes then (s.(pending := s.pending - {probe.nonce}), Some(probe))
        else (s.(pending := s.pending[probe.nonce := Pending(probe, ticket, ticket.targetNode, now)]), Some(probe))
  }

  datatype ProbeOutcome = Replied(ack: Frame) | MarkedHealthy(peer: Str) | Dropped

  /** `HandleDatagram` on a frame that parsed.  `parses` is ParseAddrPort's verdict on the source. */
  function HandleFrameIn(c: Primitives, s: Client, f: Frame, source: Str, parses: bool, now: Time): (Client, ProbeOutcome) {
    if !SignedShape(f) || f.ticketID !in s.tickets then (s, Dropped)
    else if f.kind == PROBE then
      if f.targetNode != s.nodeID then (s, Dropped)
      else match NewAck(c, f, s.tickets[f.ticketID], now)
        case Failed(_) => (s, Dropped)
        case Made(ack) => (s, Replied(ack))
    else if f.nonce !in s.pending then (s, Dropped)
    else
      var p := s.pending[f.nonce];
      if VerifyAck(c, f, p.probe, p.ticket, now) != Valid then (s, Dropped)
      else
        var s' := s.(pending := s.pending - {f.nonce}, direct := S.HealthyIn(s.direct, RELAY_TTL, p.target, source, parses, now));
        (s', if TrimSpace(p.target) != [] && parses then MarkedHealthy(p.target) else Dropped)
  }

  // ---- direct payloads ------------------------------------------------------------------------------

  datatype DirectOutcome = NotDirect | Delivered(peer: Str, payload: Str) | Refused

  /** The checks of `HandleDirectPayload` up to the replay cache: the sender and the packet. */
  function Authentic(c: Primitives, s: Client, data: Str, localIP: Addr, now: Time): Option<W.Opened> {
    match W.TicketID(data)
    case Err(_) => None
    case Ok(id) =>
      if id !in s.tickets then None
      else match W.OpenDirectPayload(c, data, s.tickets[id], s.nodeID, now)
        case Err(_) => None
        case Ok(o) =>
          if o.sourceNode !in s.candidates then None
          else match (s.candidates[o.sourceNode].virtualIP, P.IPv4Endpoints(o.payload))
            case (Some(ip), Ok(ends)) => if ends.source == ip && ends.destination == localIP then Some(o) else None
            case _ => None
  }

  function HandleDirectIn(c: Primitives, s: Client, data: Str, source: Str, parses: bool, localIP: Addr, now: Time)
    : (Client, DirectOutcome)
  {
    if W.TicketID(data) == W.Err(W.NotDirectPayload) then (s, NotDirect)
    else match Authentic(c, s, data, localIP, now)
      case None => (s, Refused)
      case Some(o) =>
        var key, expiry := ReplayKeyOf(data), s.tickets[W.TicketID(data).value].expiresAt;
        var s' := s.(entries := R.AfterAccept(s.entries, key, expiry, now));
        if !R.AcceptsIn(s.entries, key, now) then (s', Refused)
        else
          (s'.(direct := S.HealthyIn(s.direct, RELAY_TTL, o.sourceNode, source, parses, now)),
           if TrimSpace(o.sourceNode) != [] && parses then Delivered(o.sourceNode, o.payload) else Refused)
  }

  function ReplayKeyOf(data: Str): Str
    requires W.TicketID(data).Ok?
  {
    W.ReplayKey(data).value
  }

  /** The ticket `liveTicketForPeer` may choose. */
  predicate LiveTicketFor(s: Client, t: ProbeTicket, peer: Str, now: Time) {
    t in s.tickets.Values && !Expired(t, now) && IsPair(t, s.nodeID, peer)
  }

  /** The datagram is the seal of the payload to the peer under some live ticket of the pair. */
  ghost predicate SealedForPeer(c: Primitives, s: Client, wire: Str, peer: Str, payload: Str, nonce: Str, now: Time) {
    var me, to := TrimSpace(s.nodeID), TrimSpace(peer);
    && |me| < 0x1_0000 && |to| < 0x1_0000
    && exists t :: LiveTicketFor(s, t, peer, now) && Secret(t).Some? && wire == W.SealedWire(c, t, me, to, payload, nonce)
  }

  // ---- the object -------------------------------------------------------------------------------------

  class P2PRuntime {
    const nodeID: Str
    const selector: S.Selector
    const replay: R.DirectReplayCache
    var tickets: map<Str, ProbeTicket>
    var candidates: map<Str, Candidate>
    var pending: map<Str, Pending>
    var lastIssued: map<Str, Time>

    ghost predicate Valid()
      reads this, selector
    {
      && selector.directTTL == RELAY_TTL
      && (forall n :: n in candidates ==> candidates[n].nodeID == n)
    }

    ghost function View(): Client
      reads this, selector, replay
    {
      Client(nodeID, tickets, candidates, pending, lastIssued, selector.direct, replay.entries)
    }

    constructor (node: Str)
      ensures Valid() && fresh(selector) && fresh(replay)
      ensures View() == Client(node, map[], map[], map[], map[], map[], map[])
    {
      nodeID := node;
      selector := new S.Selector(30 * SECOND);
      replay := new R.DirectReplayCache();
      tickets, candidates, pending, lastIssued := map[], map[], map[], map[];
    }

    method ReplaceTickets(c: Primitives, list: seq<ProbeTicket>, now: Time)
      requires Valid()
      modifies this
      ensures Valid() && View() == ReplaceTicketsIn(c, old(View()), list, now)
    {
      var next: map<Str, ProbeTicket> := map[];
      for i := 0 to |list|
        invariant next == Fetched(c, nodeID, list[..i], now)
      {
        assert list[..i + 1][..i] == list[..i];
        var t := list[i];
        if Usable(c, nodeID, t, now) { next := next[TicketIdentifier(c, t).value := t]; }
      }
      assert list[..|list|] == list;
      var merged := MergeLive(next, now);
      tickets := merged;
      DropLapsed(now);
    }

    method MergeLive(fetched: map<Str, ProbeTicket>, now: Time) returns (next: map<Str, ProbeTicket>)
      ensures next == map id | id in fetched.Keys + tickets.Keys && (id in fetched || !Expired(tickets[id], now))
                        :: if id in fetched then fetched[id] else tickets[id]
    {
      next := fetched;
      var todo := tickets.Keys;
      while todo != {}
        invariant todo <= tickets.Keys
        invariant next == map id | id in fetched.Keys + tickets.Keys
                            && (id in fetched || (id !in todo && !Expired(tickets[id], now)))
                            :: if id in fetched then fetched[id] else tickets[id]
        decreases todo
      {
        var id :| id in todo;
        todo := todo - {id};
        if id !in next && !Expired(tickets[id], now) { next := next[id := tickets[id]]; }
      }
    }

    method DropLapsed(now: Time)
      modifies this`pending
      ensures pending == map n | n in old(pending) && now - old(pending)[n].sentAt < PENDING_TTL :: old(pending)[n]
    {
      ghost var before := pending;
      var todo := pending.Keys;
      while todo != {}
        invariant todo <= pending.Keys
        invariant pending == map n | n in before && (n in todo || now - before[n].sentAt < PENDING_TTL) :: before[n]
        decreases todo
      {
        var n :| n in todo;
        todo := todo - {n};
        if now - pending[n].sentAt >= PENDING_TTL { pending := pending - {n}; }
      }
    }

    method ReplaceCandidates(list: seq<Candidate>, now: Time)
      requires Valid()
      modifies this
      ensures Valid() && View() == ReplaceCandidatesIn(old(View()), list, now)
    {
      var next: map<Str, Candidate> := map[];
      for i := 0 to |list|
        invariant next == Observed(nodeID, list[..i], now)
        invariant forall n :: n in next ==> next[n].nodeID == n
      {
        assert list[..i + 1][..i] == list[..i];
        if Acceptable(nodeID, list[i], now) { next := next[list[i].nodeID := list[i]]; }
      }
      assert list[..|list|] == list;
      candidates := next;
    }

    method HasLive(target: Str, now: Time) returns (r: bool)
      ensures r == HasLiveSourceTicket(tickets, nodeID, target, now)
    {
      var todo := tickets.Keys;
      while todo != {}
        invariant todo <= tickets.Keys
        invariant forall id :: id in tickets && id !in todo ==>
          !(tickets[id].sourceNode == nodeID && tickets[id].targetNode == target && !Expired(tickets[id], now))
        decreases todo
      {
        var id :| id in todo;
        if tickets[id].sourceNode == nodeID && tickets[id].targetNode == target && !Expired(tickets[id], now) { return true; }
        todo := todo - {id};
      }
      r := false;
    }

    /** The targets whose check passes on the state at the start of the round. */
    method Wanted(now: Time) returns (wanted: set<Str>)
      requires Valid()
      ensures wanted == set n | n in candidates && Needs(View(), n, now)
    {
      wanted := {};
      var todo := candidates.Keys;
      while todo != {}
        invariant todo <= candidates.Keys
        invariant wanted == set n | n in candidates && n !in todo && Needs(View(), n, now)
        decreases todo
      {
        var n :| n in todo;
        todo := todo - {n};
        var live := HasLive(n, now);
        if LexLess(nodeID, n) && !live && !(n in lastIssued && now - lastIssued[n] < TICKET_RETRY) {
          wanted := wanted + {n};
        }
      }
    }

    /** `issueNeededTickets`: one request for each target that needs a ticket, in any order,
        until one fails.  The checks use the tickets and retry times of the start. */
    method IssueNeededTickets(c: Primitives, coordinator: Str -> Option<ProbeTicket>, now: Time)
        returns (asked: seq<Str>, ok: bool)
      requires Valid()
      modifies this
      ensures Valid() && View() == StoreAll(c, old(View()), asked, coordinator, now)
      ensures forall i :: 0 <= i < |asked| ==> asked[i] in old(candidates) && MustAsk(old(View()), asked[i], now)
      ensures forall i, j :: 0 <= i < j < |asked| ==> asked[i] != asked[j]
      ensures ok ==> forall n :: n in asked <==> n in old(candidates) && MustAsk(old(View()), n, now)
      ensures forall i :: 0 <= i < |asked| && !(i == |asked| - 1 && !ok) ==> Answered(c, coordinator, asked[i])
    {
      ghost var before := View();
      asked, ok := IssueWanted(c, coordinator, now);
      forall n ensures Needs(before, n, now) <==> MustAsk(before, n, now) { NeedsIff(before, n, now); }
    }

    method IssueWanted(c: Primitives, coordinator: Str -> Option<ProbeTicket>, now: Time)
        returns (asked: seq<Str>, ok: bool)
      requires Valid()
      modifies this
      ensures Valid() && View() == StoreAll(c, old(View()), asked, coordinator, now)
      ensures forall i :: 0 <= i < |asked| ==> asked[i] in old(candidates) && Needs(old(View()), asked[i], now)
      ensures forall i, j :: 0 <= i < j < |asked| ==> asked[i] != asked[j]
      ensures ok ==> forall n :: n in old(candidates) && Needs(old(View()), n, now) ==> n in asked
      ensures forall i :: 0 <= i < |asked| && !(i == |asked| - 1 && !ok) ==> Answered(c, coordinator, asked[i])
    {
      var todo := Wanted(now);
      ghost var wanted := todo;
      asked := [];
      while todo != {}
        invariant todo <= wanted && candidates == old(candidates)
        invariant forall n :: n in wanted <==> n in asked || n in todo
        invariant forall i :: 0 <= i < |asked| ==> asked[i] !in todo && Answered(c, coordinator, asked[i])
        invariant forall i, j :: 0 <= i < j < |asked| ==> asked[i] != asked[j]
        invariant View() == StoreAll(c, old(View()), asked, coordinator, now)
        decreases todo
      {
        var target :| target in todo;
        todo := todo - {target};
        assert (asked + [target])[..|asked|] == asked;
        asked := asked + [target];
        var reply := coordinator(target);
        if reply.None? { return asked, false; }
        var id := TicketIdentifier(c, reply.value);
        if id.None? { return asked, false; }
        Store(c, target, reply.value, now);
      }
      ok := true;
    }

    method Store(c: Primitives, target: Str, ticket: ProbeTicket, now: Time)
      requires TicketIdentifier(c, ticket).Some?
      modifies this`tickets, this`lastIssued
      ensures View() == StoreIssued(c, old(View()), target, ticket, now)
    {
      tickets := tickets[TicketIdentifier(c, ticket).value := ticket];
      lastIssued := lastIssued[target := now];
    }

    method SendProbe(c: Primitives, ticket: ProbeTicket, nonce: Option<Str>, resolves: bool, writes: bool, now: Time)
        returns (sent: Option<Frame>)
      requires Valid()
      modifies this
      ensures Valid()
      ensures (View(), sent) == SendProbeIn(c, old(View()), ticket, nonce, resolves, writes, now)
    {
      if nonce.None? { return None; }
      var made := NewProbe(c, ticket, nonce.value);
      if made.Failed? || !resolves { return None; }
      var probe := made.frame;
      pending := pending[probe.nonce := Pending(probe, ticket, ticket.targetNode, now)];
      if !writes { pending := pending - {probe.nonce}; }
      sent := Some(probe);
      assert !writes ==> pending == old(pending) - {probe.nonce};
    }

    /** The pairs `sendProbes` probes: own live source tickets whose target has a candidate. */
    method ProbeTargets(now: Time) returns (ids: set<Str>)
      ensures ids == set id | id in tickets && tickets[id].sourceNode == nodeID && !Expired(tickets[id], now)
                              && tickets[id].targetNode in candidates
    {
      ids := {};
      var todo := tickets.Keys;
      while todo != {}
        invariant todo <= tickets.Keys
        invariant ids == set id | id in tickets && id !in todo && tickets[id].sourceNode == nodeID
                                  && !Expired(tickets[id], now) && tickets[id].targetNode in candidates
        decreases todo
      {
        var id :| id in todo;
        todo := todo - {id};
        if tickets[id].sourceNode == nodeID && !Expired(tickets[id], now) && tickets[id].targetNode in candidates {
          ids := ids + {id};
        }
      }
    }

    method HandleDatagram(c: Primitives, f: Frame, source: Str, parses: bool, now: Time) returns (r: ProbeOutcome)
      requires Valid()
      modifies this, selector
      ensures Valid() && (View(), r) == HandleFrameIn(c, old(View()), f, source, parses, now)
    {
      if !SignedShape(f) || f.ticketID !in tickets { return Dropped; }
      var ticket := tickets[f.ticketID];
      if f.kind == PROBE {
        if f.targetNode != nodeID || VerifyProbe(c, f, ticket, now) != ProbeFrames.Valid { return Dropped; }
        var ack := NewAck(c, f, ticket, now);
        return Replied(ack.frame);
      }
      if f.nonce !in pending { return Dropped; }
      var p := pending[f.nonce];
      if VerifyAck(c, f, p.probe, p.ticket, now) != ProbeFrames.Valid { return Dropped; }
      pending := pending - {f.nonce};
      var ok := selector.MarkDirectHealthy(p.target, source, parses, now, now);
      r := if ok then MarkedHealthy(p.target) else Dropped;
    }

    /** The checks that come before the replay cache. */
    method Authenticate(c: Primitives, data: Str, localIP: Addr, now: Time) returns (o: Option<W.Opened>)
      ensures o == Authentic(c, View(), data, localIP, now)
    {
      var id := W.TicketID(data);
      if id.Err? || id.value !in tickets { return None; }
      var plain := W.OpenDirectPayload(c, data, tickets[id.value], nodeID, now);
      if plain.Err? { return None; }
      var peer := plain.value.sourceNode;
      if peer !in candidates || candidates[peer].virtualIP.None? { return None; }
      var ends := P.IPv4Endpoints(plain.value.payload);
      if ends.Err? { return None; }
      if ends.value.source != candidates[peer].virtualIP.value || ends.value.destination != localIP { return None; }
      o := Some(plain.value);
    }

    method HandleDirectPayload(c: Primitives, data: Str, source: Str, parses: bool, localIP: Addr, now: Time)
        returns (r: DirectOutcome)
      requires Valid()
      modifies selector, replay
      ensures Valid() && (View(), r) == HandleDirectIn(c, old(View()), data, source, parses, localIP, now)
      ensures r == NotDirect <==> |data| < 8 || data[..8] != [0x58, 0x52, 0x4D, 0x50, 0x32, 0x50, 0x44, 0x31]
    {
      var id := W.TicketID(data);
      if id == W.Err(W.NotDirectPayload) { return NotDirect; }
      var o := Authenticate(c, data, localIP, now);
      if o.None? { return Refused; }
      var accepted := replay.AcceptDirectReplayKey(ReplayKeyOf(data), tickets[id.value].expiresAt, now);
      if !accepted { return Refused; }
      var ok := selector.MarkDirectHealthy(o.value.sourceNode, source, parses, now, now);
      r := if ok then Delivered(o.value.sourceNode, o.value.payload) else Refused;
    }

    method CandidateForVirtualIP(ip: Addr) returns (d: Option<Candidate>)
      requires Valid()
      ensures d.Some? ==> d.value.nodeID in candidates && candidates[d.value.nodeID] == d.value && d.value.virtualIP == Some(ip)
      ensures d.None? ==> forall n :: n in candidates ==> candidates[n].virtualIP != Some(ip)
    {
      var todo := candidates.Keys;
      while todo != {}
        invariant todo <= candidates.Keys
        invariant forall n :: n in candidates && n !in todo ==> candidates[n].virtualIP != Some(ip)
        decreases todo
      {
        var n :| n in todo;
        if candidates[n].virtualIP == Some(ip) { return Some(candidates[n]); }
        todo := todo - {n};
      }
      d := None;
    }

    method LiveTicket(peer: Str, now: Time) returns (t: Option<ProbeTicket>)
      ensures t.Some? ==> LiveTicketFor(View(), t.value, peer, now)
      ensures t.None? ==> forall x :: !LiveTicketFor(View(), x, peer, now)
    {
      var todo := tickets.Keys;
      while todo != {}
        invariant todo <= tickets.Keys
        invariant forall id :: id in tickets && id !in todo ==> !LiveTicketFor(View(), tickets[id], peer, now)
        decreases todo
      {
        var id :| id in todo;
        if !Expired(tickets[id], now) && IsPair(tickets[id], nodeID, peer) { return Some(tickets[id]); }
        todo := todo - {id};
      }
      t := None;
    }

    /** `SendDirectPayload`: the sealed datagram and where it went, or None for the relay.  A
        datagram is sent exactly if some candidate has the address, its path is direct, a live
        ticket of the pair can seal the payload, and nonce, endpoint and socket work.  Only the
        selector changes: an expired path is dropped, and a failed resolution or write always
        marks the path failed. */
    method SendDirectPayload(c: Primitives, ip: Addr, payload: Str, nonce: Option<Str>, resolves: bool, writes: bool, now: Time)
        returns (sent: Option<(Str, Str)>, ghost peer: Option<Str>, ghost ticket: Option<ProbeTicket>)
      requires Valid() && Ideal(c) && (nonce.Some? ==> |nonce.value| == 12)
      modifies selector
      ensures Valid()
      ensures peer.Some? ==> peer.value in candidates && candidates[peer.value].virtualIP == Some(ip)
      ensures peer.None? ==> (forall n :: n in candidates ==> candidates[n].virtualIP != Some(ip))
      ensures ticket.Some? ==> peer.Some? && LiveTicketFor(View(), ticket.value, peer.value, now)
      ensures ticket.None? && peer.Some? && old(DirectNow(peer.value, now)) ==> forall t :: !LiveTicketFor(View(), t, peer.value, now)
      ensures sent.Some? <==> old(Sealable(peer, ticket, payload, nonce, now)) && resolves && writes
      ensures sent.Some? ==> S.SelectIn(old(selector.direct), peer.value, now) == S.Direct(sent.value.0)
      ensures sent.Some? ==> SealedForPeer(c, View(), sent.value.1, peer.value, payload, nonce.value, now)
      ensures selector.direct == if peer.None? then old(selector.direct)
                                 else if old(Sealable(peer, ticket, payload, nonce, now)) && !(resolves && writes)
                                 then S.FailedIn(S.SelectedIn(old(selector.direct), peer.value, now), peer.value)
                                 else S.SelectedIn(old(selector.direct), peer.value, now)
    {
      peer, ticket := None, None;
      var d := CandidateForVirtualIP(ip);
      if d.None? { return None, None, None; }
      peer := Some(d.value.nodeID);
      var selection := selector.Select(d.value.nodeID, now);
      if selection.Relay? || TrimSpace(selection.endpoint) == [] { return None, peer, None; }
      var live := LiveTicket(d.value.nodeID, now);
      ticket := live;
      if live.None? { return None, peer, None; }
      var wire := W.SealDirectPayload(c, live.value, nodeID, d.value.nodeID, payload, now, nonce);
      if wire.Err? { return None, peer, ticket; }
      if !resolves || !writes {
        selector.MarkDirectFailed(d.value.nodeID);
        return None, peer, ticket;
      }
      sent := Some((selection.endpoint, wire.value));
    }

    /** The selector sends traffic for the peer to a direct endpoint. */
    ghost predicate DirectNow(peer: Str, now: Time)
      reads selector
    {
      var choice := S.SelectIn(selector.direct, peer, now);
      choice.Direct? && TrimSpace(choice.endpoint) != []
    }

    /** Everything up to the sealed datagram succeeds. */
    ghost predicate Sealable(peer: Option<Str>, ticket: Option<ProbeTicket>, payload: Str, nonce: Option<Str>, now: Time)
      reads selector
    {
      && peer.Some? && DirectNow(peer.value, now) && ticket.Some? && nonce.Some?
      && W.SealChecks(ticket.value, nodeID, peer.value, payload, now).None?
    }
  }
}
