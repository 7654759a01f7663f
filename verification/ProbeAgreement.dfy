/** Several honest nodes and a network that copies, drops, delays, reorders and invents
    datagrams: probe/ack agreement over whole runs. */
module ProbeAgreement {
  import opened GoStrings
  import opened GoTime
  import opened Crypto
  import opened ProbeTickets
  import opened ProbeFrames
  import opened P2PClient
  import C = ClientRuns
  import W = DirectPayload
  import P = Packet

  /** A step of one honest node, or its process starting again with nothing in memory. */
  datatype Step = Act(node: Str, event: C.Event) | Restart(node: Str)

  type Net = map<Str, Client>

  /** Everything a run is about: the library, the honest nodes, the tickets the coordinator
      ever issues, the steps and the states between them. */
  datatype World = World(c: Primitives, nodes: set<Str>, issued: set<ProbeTicket>, steps: seq<Step>, states: seq<Net>)

  function Next(c: Primitives, net: Net, step: Step): Net
    requires step.node in net
  {
    match step
    case Act(n, e) => net[n := C.After(c, net[n], e)]
    case Restart(n) => net[n := C.Start(n)]
  }

  /** What the runtime and the coordinator put into a step: fetched tickets are issued ones,
      `sendProbes` takes own source tickets from the runtime's map, and `pump` has
      `SendDirectPayload` seal a packet for the candidate that holds the packet's destination
      address, with a live ticket of the pair. */
  predicate Feasible(issued: set<ProbeTicket>, s: Client, e: C.Event) {
    match e
    case Tickets(list, at) => forall t :: t in list ==> t in issued
    case Issued(target, t, at) => t in issued
    case Probe(t, nonce, resolves, writes, at) => t in s.tickets.Values && t.sourceNode == s.nodeID
    case Send(t, peer, payload, sealNonce, at) => 
      LiveTicketFor(s, t, peer, at) && W.SealChecks(t, s.nodeID, peer, payload, at).None? && AddressedTo(s, peer, payload)
    case _ => true
  }

  predicate AddressedTo(s: Client, peer: Str, payload: Str) {
    && peer in s.candidates && P.IPv4Endpoints(payload).Ok?
    && s.candidates[peer].virtualIP == Some(P.IPv4Endpoints(payload).value.destination)
  }

  predicate Acts(w: World, k: nat) {
    k < |w.steps| && k < |w.states| && w.steps[k].Act? && w.steps[k].node in w.states[k]
  }

  function Actor(w: World, k: nat): Client
    requires Acts(w, k)
  {
    w.states[k][w.steps[k].node]
  }

  predicate StepsFollow(w: World) {
    && |w.states| == |w.steps| + 1
    && w.states[0] == (map n | n in w.nodes :: C.Start(n))
    && forall k :: 0 <= k < |w.steps| ==> StepFollows(w, k)
  }

  predicate StepFollows(w: World, k: nat)
    requires k < |w.steps| && |w.states| == |w.steps| + 1
  {
    && w.steps[k].node in w.nodes && w.states[k].Keys == w.nodes
    && w.states[k + 1] == Next(w.c, w.states[k], w.steps[k])
    && (w.steps[k].Act? ==> Feasible(w.issued, w.states[k][w.steps[k].node], w.steps[k].event))
  }

  predicate ClockRuns(w: World) {
    forall i, j | 0 <= i < j < |w.steps| && w.steps[i].Act? && w.steps[j].Act? :: w.steps[i].event.at <= w.steps[j].event.at
  }

  /** A ticket's identifier stands for that ticket only. */
  predicate TicketsSound(c: Primitives, issued: set<ProbeTicket>) {
    forall t, u | t in issued && u in issued && C.SameIdentifier(c, t, u) :: t == u
  }

  predicate AllExpire(issued: set<ProbeTicket>) {
    forall t :: t in issued ==> !IsZero(t.expiresAt)
  }

  /** The tickets come from a coordinator: its manager held each at some moment of its run. */
  ghost predicate FromCoordinator(issued: set<ProbeTicket>) {
    exists ttl, calls, maps :: HeldIn(issued, ttl, calls, maps)
  }

  ghost predicate HeldIn(issued: set<ProbeTicket>, ttl: int, calls: seq<Call>, maps: seq<Tickets>) {
    C.CoordinatorRun(ttl, calls, maps) && forall t :: t in issued ==> C.EverHeld(maps, t)
  }

  lemma CoordinatorTicketsSound(c: Primitives, issued: set<ProbeTicket>)
    requires ShaIdeal(c) && FromCoordinator(issued)
    ensures TicketsSound(c, issued) && AllExpire(issued)
  {
    var ttl, calls, maps :| HeldIn(issued, ttl, calls, maps);
    forall t | t in issued ensures !IsZero(t.expiresAt) { var k, b := C.HeldTicketSound(ttl, calls, maps, t); }
    forall t, u | t in issued && u in issued && C.SameIdentifier(c, t, u) ensures t == u {
      C.IdentifierNamesTicket(c, ttl, calls, maps, t, u);
    }
  }

  lemma OneTicketFromCoordinator(t: ProbeTicket)
    requires C.IssuedTicket(t)
    ensures FromCoordinator({t})
  {
    var ttl := t.expiresAt - t.issuedAt;
    var calls: seq<Call> := [Call.Issue(t.sourceNode, t.targetNode, Some(t.ticket), t.issuedAt)];
    var maps: seq<Tickets> := [map[], map[t.ticket := t]];
    assert PruneIn(map[], t.issuedAt) == map[];
    assert ProbeTickets.Step(ttl, maps[0], calls[0], maps[1]);
    assert maps[1][t.ticket] == t;
    assert HeldIn({t}, ttl, calls, maps);
  }

  /** The step draws this nonce for a probe. */
  predicate Draws(step: Step, nonce: Str) {
    step.Act? && step.event.Probe? && step.event.nonce.Some? && TrimSpace(step.event.nonce.value) == nonce
  }

  ghost predicate FreshNonces(steps: seq<Step>) {
    forall i, j, n :: 0 <= i < j < |steps| && Draws(steps[i], n) ==> !Draws(steps[j], n)
  }

  // ---- the ideal MAC ------------------------------------------------------------------

  /** The node makes an authenticator of this frame under the ticket's key. */
  predicate Signs(c: Primitives, s: Client, e: C.Event, t: ProbeTicket, f: Frame) {
    || (e.Probe? && e.nonce.Some? && e.ticket == t && NewProbe(c, t, e.nonce.value) == Made(f))
    || (e.Datagram? && HandleFrameIn(c, s, e.frame, e.source, e.parses, e.at).1 == Replied(f)
        && e.frame.ticketID in s.tickets && s.tickets[e.frame.ticketID] == t)
  }

  predicate Authenticated(c: Primitives, f: Frame, key: Str) {
    Unhex(f.mac) == Some(c.hmac(key, MacInput(f)))
  }

  /** Some honest node authenticated the same bytes under the same key before step k. */
  ghost predicate SignedBefore(w: World, k: nat, key: Str, input: Str) {
    exists j, t, f :: 0 <= j < k && SignsAt(w, j, t, f) && Secret(t) == Some(key) && MacInput(f) == input
  }

  predicate SignsAt(w: World, j: nat, t: ProbeTicket, f: Frame) {
    Acts(w, j) && Signs(w.c, Actor(w, j), w.steps[j].event, t, f)
  }

  /** Under the key of a ticket between honest nodes, a frame that arrives with a good MAC
      was authenticated by one of them. */
  ghost predicate Unforgeable(w: World) {
    forall k: nat, t | Acts(w, k) && w.steps[k].event.Datagram? && t in w.issued
        && t.sourceNode in w.nodes && t.targetNode in w.nodes && Secret(t).Some?
        && Authenticated(w.c, w.steps[k].event.frame, Secret(t).value) ::
      SignedBefore(w, k, Secret(t).value, MacInput(w.steps[k].event.frame))
  }

  ghost predicate Run(w: World) {
    && ShaIdeal(w.c) && FromCoordinator(w.issued)
    && StepsFollow(w) && ClockRuns(w) && FreshNonces(w.steps) && Unforgeable(w)
  }

  // ---- what every node keeps ----------------------------------------------------------------

  /** Step i is the node's probe behind this pending entry. */
  predicate ProbedAt(c: Primitives, step: Step, node: Str, nonce: Str, p: Pending) {
    && Draws(step, nonce) && step.node == node && step.event.ticket == p.ticket
    && p.ticket.sourceNode == node && p.target == p.ticket.targetNode
    && NewProbe(c, p.ticket, step.event.nonce.value) == Made(p.probe)
  }

  predicate PendingThrough(w: World, i: nat, k: nat, node: Str, nonce: Str) {
    k < |w.states| && forall q :: i < q <= k ==> node in w.states[q] && nonce in w.states[q][node].pending
  }

  ghost predicate PendingBacked(w: World, k: nat, node: Str, nonce: Str, p: Pending) {
    p.ticket in w.issued && exists i :: 0 <= i < k <= |w.steps| && ProbedAt(w.c, w.steps[i], node, nonce, p) && PendingThrough(w, i, k, node, nonce)
  }

  predicate TicketsHeld(c: Primitives, issued: set<ProbeTicket>, s: Client) {
    forall id :: id in s.tickets ==> s.tickets[id] in issued && TicketIdentifier(c, s.tickets[id]) == Some(id)
  }

  ghost predicate NodeSound(w: World, k: nat, node: Str)
    requires k < |w.states|
  {
    && node in w.states[k] && w.states[k][node].nodeID == node
    && TicketsHeld(w.c, w.issued, w.states[k][node])
    && forall n :: n in w.states[k][node].pending ==> PendingBacked(w, k, node, n, w.states[k][node].pending[n])
  }

  lemma TicketsStayHeld(c: Primitives, issued: set<ProbeTicket>, s: Client, e: C.Event)
    requires TicketsHeld(c, issued, s) && Feasible(issued, s, e)
    ensures TicketsHeld(c, issued, C.After(c, s, e))
  {
    var s' := C.After(c, s, e);
    forall id | id in s'.tickets ensures s'.tickets[id] in issued && TicketIdentifier(c, s'.tickets[id]) == Some(id) {
      C.StepTickets(c, s, e, id);
    }
  }

  lemma SentPending(c: Primitives, s: Client, t: ProbeTicket, nonce: Option<Str>, resolves: bool, writes: bool, now: Time, n: Str)
    requires n in SendProbeIn(c, s, t, nonce, resolves, writes, now).0.pending
    ensures var p := SendProbeIn(c, s, t, nonce, resolves, writes, now).0.pending[n];
            || (n in s.pending && s.pending[n] == p)
            || (nonce.Some? && NewProbe(c, t, nonce.value) == Made(p.probe) && p.probe.nonce == n == TrimSpace(nonce.value)
                && p.ticket == t && p.target == t.targetNode)
  {
  }

  lemma ProbeStep(c: Primitives, s: Client, step: Step, nonce: Str)
    requires step.Act? && step.node == s.nodeID && step.event.Probe? && step.event.ticket.sourceNode == s.nodeID
    requires nonce in C.After(c, s, step.event).pending
    ensures var p := C.After(c, s, step.event).pending[nonce];
            (nonce in s.pending && s.pending[nonce] == p) || ProbedAt(c, step, s.nodeID, nonce, p)
  {
    var e := step.event;
    SentPending(c, s, e.ticket, e.nonce, e.resolves, e.writes, e.at, nonce);
  }

  lemma AckStep(c: Primitives, s: Client, e: C.Event, nonce: Str)
    requires e.Datagram? && nonce in C.After(c, s, e).pending
    ensures nonce in s.pending && s.pending[nonce] == C.After(c, s, e).pending[nonce]
  {
  }

  lemma RestStep(c: Primitives, s: Client, e: C.Event, nonce: Str)
    requires !e.Datagram? && !e.Probe? && nonce in C.After(c, s, e).pending
    ensures nonce in s.pending && s.pending[nonce] == C.After(c, s, e).pending[nonce]
  {
    if e.Direct? { C.StepFrame(c, s, e); }
  }

  /** A pending probe was pending before, or this step is the probe. */
  lemma PendingStep(c: Primitives, s: Client, step: Step, nonce: Str)
    requires step.Act? && step.node == s.nodeID
    requires step.event.Probe? ==> step.event.ticket.sourceNode == s.nodeID
    requires nonce in C.After(c, s, step.event).pending
    ensures var p := C.After(c, s, step.event).pending[nonce];
            (nonce in s.pending && s.pending[nonce] == p) || ProbedAt(c, step, s.nodeID, nonce, p)
  {
    if step.event.Probe? { ProbeStep(c, s, step, nonce); }
    else if step.event.Datagram? { AckStep(c, s, step.event, nonce); }
    else { RestStep(c, s, step.event, nonce); }
  }

  lemma NodeIDStays(c: Primitives, s: Client, e: C.Event)
    ensures C.After(c, s, e).nodeID == s.nodeID
  {
    C.StepFrame(c, s, e);
  }

  lemma {:induction false} NodesSound(w: World, k: nat, node: Str)
    requires StepsFollow(w) && k <= |w.steps| && node in w.nodes
    ensures NodeSound(w, k, node)
  {
    if k > 0 {
      NodesSound(w, k - 1, node);
      NodeStaysSound(w, k - 1, node);
    }
  }

  lemma NodeStaysSound(w: World, k: nat, node: Str)
    requires StepsFollow(w) && k < |w.steps| && node in w.nodes && NodeSound(w, k, node)
    ensures NodeSound(w, k + 1, node)
  {
    assert StepFollows(w, k);
    var step, s, s' := w.steps[k], w.states[k][node], w.states[k + 1][node];
    if step.node == node && step.Act? {
      NodeIDStays(w.c, s, step.event);
      TicketsStayHeld(w.c, w.issued, s, step.event);
    }
    forall n | n in s'.pending ensures PendingBacked(w, k + 1, node, n, s'.pending[n]) {
      if step.node == node && step.Act? { PendingStep(w.c, s, step, n); }
      BackedNext(w, k, node, n, s'.pending[n]);
    }
  }

  lemma BackedNext(w: World, k: nat, node: Str, nonce: Str, p: Pending)
    requires k < |w.steps| && k + 1 < |w.states| && node in w.states[k + 1] && nonce in w.states[k + 1][node].pending
    requires PendingBacked(w, k, node, nonce, p) || (p.ticket in w.issued && ProbedAt(w.c, w.steps[k], node, nonce, p))
    ensures PendingBacked(w, k + 1, node, nonce, p)
  {
    if PendingBacked(w, k, node, nonce, p) {
      var i :| 0 <= i < k && ProbedAt(w.c, w.steps[i], node, nonce, p) && PendingThrough(w, i, k, node, nonce);
      assert PendingThrough(w, i, k + 1, node, nonce);
    } else {
      assert PendingThrough(w, k, k + 1, node, nonce);
    }
  }

  // ---- who signed it ------------------------------------------------------------------------

  lemma ProbeFrame(c: Primitives, t: ProbeTicket, nonce: Str, f: Frame)
    requires NewProbe(c, t, nonce) == Made(f)
    ensures Shaped(f) && TicketIdentifier(c, t) == Some(f.ticketID) && f.kind == PROBE && f.nonce == TrimSpace(nonce)
    ensures f.sourceNode == t.sourceNode && f.targetNode == t.targetNode
  {
  }

  /** A node signs acks only in its own name. */
  lemma AckFrame(c: Primitives, s: Client, g: Frame, source: Str, parses: bool, now: Time, f: Frame)
    requires HandleFrameIn(c, s, g, source, parses, now).1 == Replied(f)
    ensures g.ticketID in s.tickets && VerifyProbe(c, g, s.tickets[g.ticketID], now) == Valid && g.targetNode == s.nodeID
    ensures Shaped(f) && TicketIdentifier(c, s.tickets[g.ticketID]) == Some(f.ticketID) && f.kind == ACK && f.nonce == g.nonce
    ensures f.sourceNode == s.nodeID && f.targetNode == g.sourceNode
  {
  }

  /** The frame is one the ticket's nodes make with it: a probe from source to target, or an
      ack from target to source. */
  predicate OfTicket(f: Frame, t: ProbeTicket) {
    || (f.kind == PROBE && f.sourceNode == t.sourceNode && f.targetNode == t.targetNode)
    || (f.kind == ACK && f.sourceNode == t.targetNode && f.targetNode == t.sourceNode)
  }

  lemma SignedFrame(w: World, j: nat, t: ProbeTicket, f: Frame)
    requires Run(w) && SignsAt(w, j, t, f)
    ensures t in w.issued && Secret(t).Some? && Shaped(f) && OfTicket(f, t) && f.ticketID == TicketIdentifier(w.c, t).value
    ensures w.steps[j].event.Probe? ==> f.kind == PROBE && f.sourceNode == w.steps[j].node && Draws(w.steps[j], f.nonce)
    ensures w.steps[j].event.Datagram? ==> f.kind == ACK && f.sourceNode == w.steps[j].node
  {
    assert StepFollows(w, j);
    var e := w.steps[j].event;
    NodesSound(w, j, w.steps[j].node);
    if e.Probe? { ProbeFrame(w.c, t, e.nonce.value, f); }
    else { AckFrame(w.c, Actor(w, j), e.frame, e.source, e.parses, e.at, f); }
  }

  /** Two frames made with one ticket have different MAC inputs, whatever bytes the node IDs
      hold: kind and ticket fix the nodes. */
  lemma TicketFramesDiffer(f: Frame, g: Frame, t: ProbeTicket)
    requires Shaped(f) && Shaped(g) && OfTicket(f, t) && OfTicket(g, t) && MacInput(f) == MacInput(g)
    ensures f.(mac := g.mac) == g
  {
    MacInputHead(f, g);
    NodeFieldsJoined(f);
    NodeFieldsJoined(g);
    SameTail(f.sourceNode + [0] + f.targetNode, f.nonce, g.sourceNode + [0] + g.targetNode, g.nonce);
  }

  /** A good MAC under an honest pair's ticket names the honest node that made it: the very
      same fields, under the same ticket. */
  lemma GoodMacHasSigner(w: World, k: nat, t: ProbeTicket) returns (j: nat, f: Frame)
    requires Run(w) && Acts(w, k) && w.steps[k].event.Datagram? && t in w.issued
    requires t.sourceNode in w.nodes && t.targetNode in w.nodes && Secret(t).Some?
    requires Authenticated(w.c, w.steps[k].event.frame, Secret(t).value)
    requires Shaped(w.steps[k].event.frame) && OfTicket(w.steps[k].event.frame, t)
    ensures j < k && SignsAt(w, j, t, f) && f.(mac := w.steps[k].event.frame.mac) == w.steps[k].event.frame
  {
    var g := w.steps[k].event.frame;
    var u;
    j, u, f :| 0 <= j < k && SignsAt(w, j, u, f) && Secret(u) == Secret(t) && MacInput(f) == MacInput(g);
    SignedFrame(w, j, u, f);
    CoordinatorTicketsSound(w.c, w.issued);
    assert C.SameIdentifier(w.c, t, u);
    TicketFramesDiffer(f, g, t);
  }

  // ---- agreement --------------------------------------------------------------------------------

  predicate MarksBy(w: World, k: nat, a: Str, b: Str, nonce: Str) {
    && Acts(w, k) && w.steps[k].node == a && w.steps[k].event.Datagram? && w.steps[k].event.frame.nonce == nonce
    && var e := w.steps[k].event;
       HandleFrameIn(w.c, w.states[k][a], e.frame, e.source, e.parses, e.at).1 == MarkedHealthy(b)
  }

  /** At step i node a draws the nonce for a probe of b under the ticket. */
  predicate ProbesWith(w: World, i: nat, a: Str, b: Str, nonce: Str, t: ProbeTicket) {
    && Acts(w, i) && w.steps[i].node == a && Draws(w.steps[i], nonce) && w.steps[i].event.ticket == t
    && t.sourceNode == a && t.targetNode == b && NewProbe(w.c, t, w.steps[i].event.nonce.value).Made?
  }

  /** At step j node b verifies a's probe with this nonce under the ticket, live then, and
      answers it. */
  predicate AnswersWith(w: World, j: nat, a: Str, b: Str, nonce: Str, t: ProbeTicket) {
    && Acts(w, j) && w.steps[j].node == b && w.steps[j].event.Datagram?
    && var e := w.steps[j].event;
       && e.frame.sourceNode == a && e.frame.targetNode == b && e.frame.nonce == nonce
       && VerifyProbe(w.c, e.frame, t, e.at) == Valid && !Expired(t, e.at)
       && HandleFrameIn(w.c, w.states[j][b], e.frame, e.source, e.parses, e.at).1.Replied?
  }

  lemma MarkHasPending(w: World, k: nat, a: Str, b: Str, nonce: Str) returns (i: nat, p: Pending)
    requires Run(w) && MarksBy(w, k, a, b, nonce)
    ensures i < k && a in w.states[k] && nonce in w.states[k][a].pending && p == w.states[k][a].pending[nonce]
    ensures ProbedAt(w.c, w.steps[i], a, nonce, p) && PendingThrough(w, i, k, a, nonce) && p.ticket in w.issued && p.target == b
  {
    assert StepFollows(w, k);
    NodesSound(w, k, a);
    var e := w.steps[k].event;
    C.CompletionAnswersOwnProbe(w.c, w.states[k][a], e.frame, e.source, e.parses, e.at, b);
    p := w.states[k][a].pending[nonce];
    i :| 0 <= i < k && ProbedAt(w.c, w.steps[i], a, nonce, p) && PendingThrough(w, i, k, a, nonce);
  }

  /** The answer behind a mark. */
  lemma MarkHasAnswer(w: World, k: nat, a: Str, b: Str, nonce: Str, t: ProbeTicket) returns (j: nat)
    requires Run(w) && MarksBy(w, k, a, b, nonce) && b in w.nodes && nonce in w.states[k][a].pending
    requires var p := w.states[k][a].pending[nonce];
             p.ticket == t && p.target == b && t in w.issued && t.sourceNode == a && t.targetNode == b
             && p.probe.sourceNode == a && p.probe.targetNode == b
    ensures j < k && AnswersWith(w, j, a, b, nonce, t)
  {
    assert StepFollows(w, k);
    var e := w.steps[k].event;
    C.CompletionAnswersOwnProbe(w.c, w.states[k][a], e.frame, e.source, e.parses, e.at, b);
    var f;
    j, f := GoodMacHasSigner(w, k, t);
    SignedFrame(w, j, t, f);
    assert f.kind == ACK;
    assert w.steps[j].event.Datagram? && w.steps[j].node == b;
  }

  /** The probe behind an answer. */
  lemma AnswerHasProbe(w: World, j: nat, a: Str, b: Str, nonce: Str, t: ProbeTicket) returns (i: nat)
    requires Run(w) && AnswersWith(w, j, a, b, nonce, t) && t in w.issued && a in w.nodes && b in w.nodes
    ensures i < j && ProbesWith(w, i, a, b, nonce, t)
  {
    var f;
    i, f := GoodMacHasSigner(w, j, t);
    SignedFrame(w, i, t, f);
    assert StepFollows(w, i);
    NodesSound(w, i, w.steps[i].node);
  }

  /** Agreement: when honest a marks honest b healthy on an ack for a nonce, a drew that nonce
      for a probe of b, and between then and the mark b verified that probe under the same
      ticket, live at the time; the ticket is still live at the mark. */
  lemma Agreement(w: World, k: nat, a: Str, b: Str, nonce: Str) returns (i: nat, j: nat, t: ProbeTicket)
    requires Run(w) && MarksBy(w, k, a, b, nonce) && b in w.nodes
    ensures i < j < k && t in w.issued && !Expired(t, w.steps[k].event.at)
    ensures ProbesWith(w, i, a, b, nonce, t) && AnswersWith(w, j, a, b, nonce, t)
    ensures w.steps[i].event.at <= w.steps[j].event.at <= w.steps[k].event.at
  {
    assert StepFollows(w, k);
    var q, p := MarkHasPending(w, k, a, b, nonce);
    t := p.ticket;
    var e := w.steps[k].event;
    C.CompletionAnswersOwnProbe(w.c, w.states[k][a], e.frame, e.source, e.parses, e.at, b);
    j := MarkHasAnswer(w, k, a, b, nonce, t);
    i := AnswerHasProbe(w, j, a, b, nonce, t);
  }

  /** In the whole system a nonce gives at most one mark. */
  lemma OneMarkPerNonce(w: World, k: nat, l: nat, a: Str, b: Str, a': Str, b': Str, nonce: Str)
    requires Run(w) && MarksBy(w, k, a, b, nonce) && MarksBy(w, l, a', b', nonce)
    ensures k == l
  {
    if k < l { NoLaterMark(w, k, l, a, b, a', b', nonce); }
    if l < k { NoLaterMark(w, l, k, a', b', a, b, nonce); }
  }

  /** A mark ends the probe it answers. */
  lemma MarkUsesNonce(w: World, k: nat, a: Str, b: Str, nonce: Str, i: nat, l: nat)
    requires Run(w) && MarksBy(w, k, a, b, nonce) && i <= k < l
    ensures !PendingThrough(w, i, l, a, nonce)
  {
    assert StepFollows(w, k);
    var e := w.steps[k].event;
    C.CompletionAnswersOwnProbe(w.c, w.states[k][a], e.frame, e.source, e.parses, e.at, b);
    assert w.states[k + 1][a] == C.After(w.c, w.states[k][a], e);
  }

  lemma DrawnOnce(steps: seq<Step>, i: nat, j: nat, nonce: Str)
    requires FreshNonces(steps) && i < |steps| && j < |steps| && Draws(steps[i], nonce) && Draws(steps[j], nonce)
    ensures i == j
  {
  }

  /** The step that drew the nonce of a mark. */
  lemma MarkDraw(w: World, k: nat, a: Str, b: Str, nonce: Str) returns (i: nat)
    requires Run(w) && MarksBy(w, k, a, b, nonce)
    ensures i < k < |w.steps| && Draws(w.steps[i], nonce) && w.steps[i].node == a && PendingThrough(w, i, k, a, nonce)
  {
    var p;
    i, p := MarkHasPending(w, k, a, b, nonce);
  }

  lemma NoLaterMark(w: World, k: nat, l: nat, a: Str, b: Str, a': Str, b': Str, nonce: Str)
    requires Run(w) && k < l && MarksBy(w, k, a, b, nonce)
    ensures !MarksBy(w, l, a', b', nonce)
  {
    if MarksBy(w, l, a', b', nonce) {
      var i := MarkDraw(w, k, a, b, nonce);
      var j := MarkDraw(w, l, a', b', nonce);
      DrawnOnce(w.steps, i, j, nonce);
      MarkUsesNonce(w, k, a, b, nonce, i, l);
      assert false;
    }
  }

  // ---- the honest exchange is such a run --------------------------------------------------------

  /** Node a gets the ticket it asked for, b fetches it, a probes, b answers, a hears the answer. */
  function ExchangeSteps(c: Primitives, t: ProbeTicket, nonce: Str, from: Str, at: seq<Time>): seq<Step>
    requires |at| == 5 && NewProbe(c, t, nonce).Made? && NewAck(c, NewProbe(c, t, nonce).frame, t, at[3]).Made?
  {
    var probe := NewProbe(c, t, nonce).frame;
    [Act(t.sourceNode, C.Issued(t.targetNode, t, at[0])),
     Act(t.targetNode, C.Tickets([t], at[1])),
     Act(t.sourceNode, C.Probe(t, Some(nonce), true, true, at[2])),
     Act(t.targetNode, C.Datagram(probe, from, true, at[3])),
     Act(t.sourceNode, C.Datagram(NewAck(c, probe, t, at[3]).frame, from, true, at[4]))]
  }

  function Play(c: Primitives, net: Net, steps: seq<Step>): (states: seq<Net>)
    requires forall k :: 0 <= k < |steps| ==> steps[k].node in net
    ensures |states| == |steps| + 1 && states[0] == net
    ensures forall k :: 0 <= k < |states| ==> states[k].Keys == net.Keys
    ensures forall k :: 0 <= k < |steps| ==> states[k + 1] == Next(c, states[k], steps[k])
  {
    if steps == [] then [net]
    else
      var init, last := steps[..|steps| - 1], steps[|steps| - 1];
      var states := Play(c, net, init);
      states + [Next(c, states[|init|], last)]
  }

  predicate Pairing(c: Primitives, t: ProbeTicket, nonce: Str, at: seq<Time>) {
    && NewProbe(c, t, nonce).Made? && |at| == 5
    && (forall i, j :: 0 <= i < j < 5 ==> at[i] <= at[j]) && forall i :: 0 <= i < 5 ==> !Expired(t, at[i])
  }

  function StartNet(t: ProbeTicket): Net {
    map[t.sourceNode := C.Start(t.sourceNode), t.targetNode := C.Start(t.targetNode)]
  }

  lemma FetchOne(c: Primitives, t: ProbeTicket, at: Time)
    requires TicketIdentifier(c, t).Some? && !Expired(t, at)
    ensures var id := TicketIdentifier(c, t).value;
            var m := C.After(c, C.Start(t.targetNode), C.Tickets([t], at)).tickets;
            id in m && m[id] == t
  {
    C.FetchedFromList(c, t.targetNode, [t], at);
    assert t in [t] && Usable(c, t.targetNode, t, at);
  }

  /** The answer to the probe, and the mark it leads to, on the two nodes' states. */
  lemma AnswerAndMark(c: Primitives, t: ProbeTicket, nonce: Str, at: seq<Time>, sa: Client, sb: Client, from: Str)
    requires HmacShape(c) && Pairing(c, t, nonce, at)
    requires var id := TicketIdentifier(c, t).value; id in sa.tickets && sa.tickets[id] == t && id in sb.tickets && sb.tickets[id] == t
    requires sb.nodeID == t.targetNode && NewProbe(c, t, nonce).frame.nonce in sa.pending
    requires sa.pending[NewProbe(c, t, nonce).frame.nonce] == Pending(NewProbe(c, t, nonce).frame, t, t.targetNode, at[2])
    ensures var probe := NewProbe(c, t, nonce).frame;
            && HandleFrameIn(c, sb, probe, from, true, at[3]).1.Replied?
            && NewAck(c, probe, t, at[3]) == Made(HandleFrameIn(c, sb, probe, from, true, at[3]).1.ack)
            && HandleFrameIn(c, sa, NewAck(c, probe, t, at[3]).frame, from, true, at[4]).1 == MarkedHealthy(t.targetNode)
  {
    ExchangeCompletes(c, t, nonce, at[3], at[4]);
    ProbeFrame(c, t, nonce, NewProbe(c, t, nonce).frame);
  }

  function Exchange(c: Primitives, t: ProbeTicket, nonce: Str, from: Str, at: seq<Time>): World
    requires Pairing(c, t, nonce, at) && NewAck(c, NewProbe(c, t, nonce).frame, t, at[3]).Made?
  {
    var steps := ExchangeSteps(c, t, nonce, from, at);
    World(c, {t.sourceNode, t.targetNode}, {t}, steps, Play(c, StartNet(t), steps))
  }

  /** The source's state before its probe, the target's before its answer, the source's after
      its probe. */
  lemma ExchangeStates(c: Primitives, t: ProbeTicket, nonce: Str, from: Str, at: seq<Time>)
    requires Pairing(c, t, nonce, at) && NewAck(c, NewProbe(c, t, nonce).frame, t, at[3]).Made?
    ensures var s := Exchange(c, t, nonce, from, at).states;
            && t.sourceNode in s[2] && s[2][t.sourceNode] == C.After(c, C.Start(t.sourceNode), C.Issued(t.targetNode, t, at[0]))
            && t.targetNode in s[3] && s[3][t.targetNode] == C.After(c, C.Start(t.targetNode), C.Tickets([t], at[1]))
            && t.sourceNode in s[4] && s[4][t.sourceNode] == C.After(c, s[2][t.sourceNode], C.Probe(t, Some(nonce), true, true, at[2]))
  {
    var a, b, s, steps := t.sourceNode, t.targetNode, Exchange(c, t, nonce, from, at).states, ExchangeSteps(c, t, nonce, from, at);
    ProbeFrame(c, t, nonce, NewProbe(c, t, nonce).frame);
    assert s[1] == s[0][a := C.After(c, s[0][a], steps[0].event)];
    assert s[2] == s[1][b := C.After(c, s[1][b], steps[1].event)];
    assert s[3] == s[2][a := C.After(c, s[2][a], steps[2].event)];
    assert s[4] == s[3][b := C.After(c, s[3][b], steps[3].event)];
  }

  lemma ExchangeFeasible(c: Primitives, t: ProbeTicket, nonce: Str, from: Str, at: seq<Time>)
    requires Pairing(c, t, nonce, at) && NewAck(c, NewProbe(c, t, nonce).frame, t, at[3]).Made?
    ensures var w := Exchange(c, t, nonce, from, at);
            t in w.states[2][t.sourceNode].tickets.Values && w.states[2][t.sourceNode].nodeID == t.sourceNode
  {
    var w := Exchange(c, t, nonce, from, at);
    ExchangeStates(c, t, nonce, from, at);
    ProbeFrame(c, t, nonce, NewProbe(c, t, nonce).frame);
    assert w.states[2][t.sourceNode].tickets[TicketIdentifier(c, t).value] == t;
  }

  lemma ExchangeFollows(c: Primitives, t: ProbeTicket, nonce: Str, from: Str, at: seq<Time>)
    requires Pairing(c, t, nonce, at) && NewAck(c, NewProbe(c, t, nonce).frame, t, at[3]).Made?
    ensures StepsFollow(Exchange(c, t, nonce, from, at))
  {
    var w := Exchange(c, t, nonce, from, at);
    ExchangeFeasible(c, t, nonce, from, at);
    forall k | 0 <= k < 5 ensures StepFollows(w, k) { PlayFollows(w, k); }
  }

  lemma PlayFollows(w: World, k: nat)
    requires k < |w.steps| && |w.states| == |w.steps| + 1 && w.steps[k].node in w.nodes && w.states[k].Keys == w.nodes
    requires w.states[k + 1] == Next(w.c, w.states[k], w.steps[k])
    requires w.steps[k].Act? ==> Feasible(w.issued, w.states[k][w.steps[k].node], w.steps[k].event)
    ensures StepFollows(w, k)
  {
  }

  lemma ExchangeStepsOrdered(c: Primitives, t: ProbeTicket, nonce: Str, from: Str, at: seq<Time>)
    requires Pairing(c, t, nonce, at) && NewAck(c, NewProbe(c, t, nonce).frame, t, at[3]).Made?
    ensures var steps := ExchangeSteps(c, t, nonce, from, at);
            forall k | 0 <= k < 5 :: steps[k].Act? && steps[k].event.at == at[k] && (steps[k].event.Probe? ==> k == 2)
  {
  }

  lemma ExchangeSound(c: Primitives, t: ProbeTicket, nonce: Str, from: Str, at: seq<Time>)
    requires Pairing(c, t, nonce, at) && NewAck(c, NewProbe(c, t, nonce).frame, t, at[3]).Made?
    ensures var w := Exchange(c, t, nonce, from, at); ClockRuns(w) && FreshNonces(w.steps)
  {
    ExchangeStepsOrdered(c, t, nonce, from, at);
    OneProbeSound(Exchange(c, t, nonce, from, at), t, at);
  }

  lemma OneProbeSound(w: World, t: ProbeTicket, at: seq<Time>)
    requires w.issued == {t} && |w.steps| == 5 == |at| && forall i, j :: 0 <= i < j < 5 ==> at[i] <= at[j]
    requires forall k | 0 <= k < 5 :: w.steps[k].Act? && w.steps[k].event.at == at[k] && (w.steps[k].event.Probe? ==> k == 2)
    ensures ClockRuns(w) && FreshNonces(w.steps)
  {
  }

  /** The exchange's last two steps: the answer, then the mark. */
  lemma ExchangeMarks(c: Primitives, t: ProbeTicket, nonce: Str, from: Str, at: seq<Time>)
    requires HmacShape(c) && Pairing(c, t, nonce, at) && NewAck(c, NewProbe(c, t, nonce).frame, t, at[3]).Made?
    ensures var w := Exchange(c, t, nonce, from, at);
            && MarksBy(w, 4, t.sourceNode, t.targetNode, TrimSpace(nonce))
            && SignsAt(w, 2, t, NewProbe(c, t, nonce).frame)
            && SignsAt(w, 3, t, NewAck(c, NewProbe(c, t, nonce).frame, t, at[3]).frame)
  {
    var w := Exchange(c, t, nonce, from, at);
    ExchangeStates(c, t, nonce, from, at);
    ProbeFrame(c, t, nonce, NewProbe(c, t, nonce).frame);
    FetchOne(c, t, at[1]);
    AnswerAndMark(c, t, nonce, at, w.states[4][t.sourceNode], w.states[3][t.targetNode], from);
  }

  lemma SentIsSigned(w: World, k: nat, t: ProbeTicket)
    requires 0 < k < |w.steps| && w.steps[k].Act? && w.steps[k].event.Datagram? && SignsAt(w, k - 1, t, w.steps[k].event.frame)
    requires Secret(t).Some?
    ensures SignedBefore(w, k, Secret(t).value, MacInput(w.steps[k].event.frame))
  {
  }

  /** A world with one ticket whose every datagram was signed in the step before. */
  lemma RelayedIsUnforgeable(w: World, t: ProbeTicket)
    requires w.issued == {t}
    requires forall k: nat | Acts(w, k) && w.steps[k].event.Datagram? :: 0 < k && SignsAt(w, k - 1, t, w.steps[k].event.frame)
    ensures Unforgeable(w)
  {
    forall k: nat, u | Acts(w, k) && w.steps[k].event.Datagram? && u in w.issued && Secret(u).Some?
      ensures SignedBefore(w, k, Secret(u).value, MacInput(w.steps[k].event.frame))
    {
      SentIsSigned(w, k, u);
    }
  }

  lemma ExchangeUnforgeable(c: Primitives, t: ProbeTicket, nonce: Str, from: Str, at: seq<Time>)
    requires HmacShape(c) && Pairing(c, t, nonce, at) && NewAck(c, NewProbe(c, t, nonce).frame, t, at[3]).Made?
    ensures Unforgeable(Exchange(c, t, nonce, from, at))
  {
    ExchangeMarks(c, t, nonce, from, at);
    RelayedIsUnforgeable(Exchange(c, t, nonce, from, at), t);
  }

  /** The five steps of an honest exchange are a run, and it ends in a mark: what is shown of
      all runs is shown of something. */
  lemma ExchangeIsRun(c: Primitives, t: ProbeTicket, nonce: Str, from: Str, at: seq<Time>) returns (w: World)
    requires ShaIdeal(c) && HmacShape(c) && C.IssuedTicket(t) && Pairing(c, t, nonce, at)
    ensures Run(w) && |w.steps| == 5 && MarksBy(w, 4, t.sourceNode, t.targetNode, TrimSpace(nonce))
  {
    ExchangeCompletes(c, t, nonce, at[3], at[4]);
    w := Exchange(c, t, nonce, from, at);
    OneTicketFromCoordinator(t);
    ExchangeFollows(c, t, nonce, from, at);
    ExchangeSound(c, t, nonce, from, at);
    ExchangeMarks(c, t, nonce, from, at);
    ExchangeUnforgeable(c, t, nonce, from, at);
  }
}
