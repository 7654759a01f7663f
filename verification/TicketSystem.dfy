/** All clients and the coordinator together: one live ticket per pair, although replies
    are lost, processes start again and the coordinator prunes and forgets
    (cmd/client/p2p_runtime.go 148-167 and 250-350). */
module TicketSystem {
  import opened GoStrings
  import opened GoTime
  import opened Crypto
  import opened ProbeTickets
  import opened ProbeFrames
  import opened P2PClient
  import C = ClientRuns

  /** Where a client is in its poll cycle.  While it waits for a reply it does nothing else
      with tickets; `remaining` are the targets it has still to ask for. */
  datatype Phase =
    | Idle
    | Listed(list: seq<ProbeTicket>)
    | Polled
    | Ready
    | Issuing(start: Time, remaining: set<Str>)
    | Waiting(start: Time, remaining: set<Str>, target: Str, reply: Option<ProbeTicket>)

  datatype Proc = Proc(client: Client, phase: Phase)

  /** The coordinator's map, the client processes, and every ticket ever minted. */
  datatype System = System(tickets: Tickets, procs: map<Str, Proc>, minted: set<ProbeTicket>)

  /** A step of the system.  `Abort` is a lost request or reply, an error status or a reply
      that does not parse: the cycle ends there.  A request that fails has been processed by
      then or never will be. */
  datatype Move =
    | List(node: Str, list: seq<ProbeTicket>, at: Time)
    | Replace(node: Str, at: Time)
    | Candidates(node: Str, peers: seq<Candidate>, at: Time)
    | Begin(node: Str, at: Time)
    | Issue(node: Str, target: Str, token: Option<Str>, at: Time)
    | Reply(node: Str, at: Time)
    | Finish(node: Str, at: Time)
    | Abort(node: Str, at: Time)
    | Restart(node: Str, at: Time)
    | Other(node: Str, event: C.Event, at: Time)
    | Forget(gone: Str, at: Time)
    | Prune(at: Time)

  predicate TicketFree(e: C.Event) {
    e.Probe? || e.Datagram? || e.Direct? || e.Select? || e.Send? || e.Fail?
  }

  /** The targets `issueNeededTickets` asks for. */
  function Wanted(s: Client, now: Time): set<Str> {
    set n | n in s.candidates && Needs(s, n, now)
  }

  function WithPhase(s: System, n: Str, phase: Phase): System
    requires n in s.procs
  {
    s.(procs := s.procs[n := s.procs[n].(phase := phase)])
  }

  function WithClient(s: System, n: Str, client: Client, phase: Phase): System {
    s.(procs := s.procs[n := Proc(client, phase)])
  }

  function MintedAt(ttl: int, m: Move): IssueResult
    requires m.Issue?
  {
    Minted(ttl, m.node, m.target, m.at, m.token)
  }

  ghost predicate Enabled(s: System, m: Move) {
    match m
    case Forget(_, _) => true
    case Prune(_) => true
    case _ =>
      && m.node in s.procs
      && var p := s.procs[m.node];
         match m
         case List(n, list, at) => p.phase.Idle? && ListingFor(list, s.tickets, n, at)
         case Replace(n, at) => p.phase.Listed?
         case Candidates(n, peers, at) => p.phase.Polled? && forall d :: d in peers ==> Trimmed(d.nodeID)
         case Begin(n, at) => p.phase.Ready?
         case Issue(n, target, token, at) => p.phase.Issuing? && target in p.phase.remaining
         case Reply(n, at) => p.phase.Waiting? && p.phase.reply.Some?
         case Finish(n, at) => p.phase.Issuing? && p.phase.remaining == {}
         case Other(n, e, at) => TicketFree(e)
         case _ => true
  }

  ghost function Next(c: Primitives, ttl: int, s: System, m: Move): System
    requires Enabled(s, m)
  {
    match m
    case List(n, list, at) => WithPhase(s.(tickets := PruneIn(s.tickets, at)), n, Listed(list))
    case Replace(n, at) => WithClient(s, n, ReplaceTicketsIn(c, s.procs[n].client, s.procs[n].phase.list, at), Polled)
    case Candidates(n, peers, at) => WithClient(s, n, ReplaceCandidatesIn(s.procs[n].client, peers, at), Ready)
    case Begin(n, at) => WithPhase(s, n, Issuing(at, Wanted(s.procs[n].client, at)))
    case Issue(n, target, token, at) =>
      var ph := s.procs[n].phase;
      var r := MintedAt(ttl, m);
      var reply := if r.Issued? then Some(r.ticket) else None;
      WithPhase(System(IssueIn(s.tickets, ttl, n, target, at, token), s.procs, s.minted + (if r.Issued? then {r.ticket} else {})),
                n, Waiting(ph.start, ph.remaining - {target}, target, reply))
    case Reply(n, at) =>
      var p := s.procs[n];
      WithClient(s, n, StoreIssued(c, p.client, p.phase.target, p.phase.reply.value, p.phase.start), Issuing(p.phase.start, p.phase.remaining))
    case Finish(n, at) => WithPhase(s, n, Idle)
    case Abort(n, at) => WithPhase(s, n, Idle)
    case Restart(n, at) => WithClient(s, n, C.Start(n), Idle)
    case Other(n, e, at) => WithClient(s, n, C.After(c, s.procs[n].client, e), s.procs[n].phase)
    case Forget(n, at) => s.(tickets := ForgetIn(s.tickets, n))
    case Prune(at) => s.(tickets := PruneIn(s.tickets, at))
  }

  /** 32 random bytes in hexadecimal, never drawn before; or the random source fails. */
  ghost predicate FreshToken(s: System, token: Option<Str>) {
    token.Some? ==> C.HexKey(token.value) && forall t :: t in s.minted ==> t.ticket != token.value
  }

  function Initial(nodes: set<Str>): System {
    System(map[], map n | n in nodes :: Proc(C.Start(n), Idle), {})
  }

  ghost predicate Run(c: Primitives, ttl: int, nodes: set<Str>, moves: seq<Move>, states: seq<System>) {
    && ShaIdeal(c) && (forall n :: n in nodes ==> n != [] && Trimmed(n))
    && (forall i, j :: 0 <= i < j < |moves| ==> moves[i].at <= moves[j].at)
    && |states| == |moves| + 1 && states[0] == Initial(nodes)
    && forall k :: 0 <= k < |moves| ==> Step(c, ttl, states[k], moves[k], states[k + 1])
  }

  ghost predicate Step(c: Primitives, ttl: int, s: System, m: Move, s': System) {
    Enabled(s, m) && (m.Issue? ==> FreshToken(s, m.token)) && s' == Next(c, ttl, s, m)
  }

  // ---- the invariant ------------------------------------------------------------------

  predicate Live(t: ProbeTicket, now: Time) {
    now < t.expiresAt
  }

  /** Two live tickets of the coordinator never serve one pair. */
  predicate OneLive(m: Tickets, now: Time) {
    forall a, b | a in m && b in m && Live(m[a], now) && Live(m[b], now) && IsPair(m[a], m[b].sourceNode, m[b].targetNode) :: a == b
  }

  ghost predicate MintedSound(minted: set<ProbeTicket>) {
    && (forall t :: t in minted ==> C.HexKey(t.ticket) && LexLess(t.sourceNode, t.targetNode))
    && (forall t, u :: t in minted && u in minted && t.ticket == u.ticket ==> t == u)
  }

  predicate Held(m: Tickets, minted: set<ProbeTicket>) {
    forall k :: k in m ==> m[k] in minted && m[k].ticket == k
  }

  predicate ClientHolds(c: Primitives, s: Client, minted: set<ProbeTicket>) {
    forall id :: id in s.tickets ==> s.tickets[id] in minted && TicketIdentifier(c, s.tickets[id]) == Some(id)
  }

  /** The coordinator's live tickets that the node sources. */
  predicate LiveFrom(m: Tickets, node: Str, t: ProbeTicket, now: Time) {
    t.ticket in m && m[t.ticket] == t && Live(t, now) && t.sourceNode == node
  }

  ghost predicate PhaseSound(m: Tickets, minted: set<ProbeTicket>, s: Client, phase: Phase, node: Str, now: Time) {
    match phase
    case Idle => true
    case Listed(list) => (forall t :: t in list ==> t in minted) && forall t :: LiveFrom(m, node, t, now) ==> t in list
    case Polled => forall t :: LiveFrom(m, node, t, now) ==> t in s.tickets.Values
    case Ready => CandidatesTrimmed(s) && forall t :: LiveFrom(m, node, t, now) ==> t in s.tickets.Values
    case Issuing(start, remaining) => Lacking(m, node, remaining, now)
    case Waiting(start, remaining, target, reply) => Lacking(m, node, remaining, now) && (reply.Some? ==> reply.value in minted)
  }

  predicate CandidatesTrimmed(s: Client) {
    forall n :: n in s.candidates ==> n != [] && Trimmed(n)
  }

  /** No live ticket leads from the node to any of the targets. */
  ghost predicate Lacking(m: Tickets, node: Str, targets: set<Str>, now: Time) {
    && (forall n :: n in targets ==> n != [] && Trimmed(n) && LexLess(node, n))
    && forall t :: LiveFrom(m, node, t, now) ==> t.targetNode !in targets
  }

  ghost predicate ProcSound(c: Primitives, m: Tickets, minted: set<ProbeTicket>, p: Proc, node: Str, now: Time) {
    && p.client.nodeID == node && node != [] && Trimmed(node)
    && ClientHolds(c, p.client, minted)
    && PhaseSound(m, minted, p.client, p.phase, node, now)
  }

  ghost predicate Sound(c: Primitives, s: System, now: Time) {
    && Held(s.tickets, s.minted) && MintedSound(s.minted) && OneLive(s.tickets, now)
    && forall n :: n in s.procs ==> ProcSound(c, s.tickets, s.minted, s.procs[n], n, now)
  }

  // ---- general steps ---------------------------------------------------------------------------

  /** m' holds only tickets that m holds. */
  predicate Fewer(m': Tickets, m: Tickets) {
    forall k :: k in m' ==> k in m && m'[k] == m[k]
  }

  /** Time passes and the coordinator prunes or forgets: nothing is lost that a client relies on. */
  lemma FewerStaysSound(c: Primitives, s: System, m: Tickets, now: Time, later: Time)
    requires Sound(c, s, now) && now <= later && Fewer(m, s.tickets)
    ensures Sound(c, s.(tickets := m), later)
  {
    forall t, n | LiveFrom(m, n, t, later) ensures LiveFrom(s.tickets, n, t, now) {}
    forall n | n in s.procs ensures ProcSound(c, m, s.minted, s.procs[n], n, later) {
      assert ProcSound(c, s.tickets, s.minted, s.procs[n], n, now);
    }
  }

  lemma ProcStaysSound(c: Primitives, s: System, n: Str, p: Proc, now: Time)
    requires Sound(c, s, now) && ProcSound(c, s.tickets, s.minted, p, n, now)
    ensures Sound(c, s.(procs := s.procs[n := p]), now)
  {
  }

  lemma PruneIsFewer(m: Tickets, now: Time)
    ensures Fewer(PruneIn(m, now), m)
  {
  }

  lemma ForgetIsFewer(m: Tickets, node: Str)
    ensures Fewer(ForgetIn(m, node), m)
  {
  }

  /** Tickets with 32-byte tokens have identifiers, and distinct ones distinct identifiers. */
  lemma MintedIdentifiers(c: Primitives, minted: set<ProbeTicket>)
    requires ShaIdeal(c) && MintedSound(minted)
    ensures forall t :: t in minted ==> TicketIdentifier(c, t).Some?
    ensures forall t, u :: t in minted && u in minted && TicketIdentifier(c, t) == TicketIdentifier(c, u) ==> t == u
  {
    forall t | t in minted ensures TicketIdentifier(c, t).Some? {
      var b :| |b| == KEY_SIZE && t.ticket == Hex(b);
      C.HexIsTrimmed(b);
      TrimSpaceTrims(Hex(b));
      UnhexHex(b);
    }
    forall t, u | t in minted && u in minted && TicketIdentifier(c, t) == TicketIdentifier(c, u) ensures t == u {
      var a :| |a| == KEY_SIZE && t.ticket == Hex(a);
      var b :| |b| == KEY_SIZE && u.ticket == Hex(b);
      C.CoordinatorTicketsAgree(c, t, u, a, b);
    }
  }

  // ---- the client's moves ---------------------------------------------------------------------

  lemma ListStep(c: Primitives, s: System, n: Str, list: seq<ProbeTicket>, now: Time)
    requires Sound(c, s, now) && n in s.procs && ListingFor(list, s.tickets, n, now)
    ensures Sound(c, WithPhase(s.(tickets := PruneIn(s.tickets, now)), n, Listed(list)), now)
  {
    var m := PruneIn(s.tickets, now);
    PruneIsFewer(s.tickets, now);
    FewerStaysSound(c, s, m, now, now);
    assert ProcSound(c, m, s.minted, s.procs[n], n, now);
    ProcStaysSound(c, s.(tickets := m), n, s.procs[n].(phase := Listed(list)), now);
  }

  /** Refreshing keeps every live ticket of the reply: fetching comes before issuing. */
  lemma ReplaceKeeps(c: Primitives, s: Client, minted: set<ProbeTicket>, list: seq<ProbeTicket>, now: Time)
    requires ShaIdeal(c) && MintedSound(minted) && ClientHolds(c, s, minted) && forall t :: t in list ==> t in minted
    ensures ClientHolds(c, ReplaceTicketsIn(c, s, list, now), minted)
    ensures forall t :: t in list && Live(t, now) && Names(t, s.nodeID) ==> t in ReplaceTicketsIn(c, s, list, now).tickets.Values
  {
    MintedIdentifiers(c, minted);
    C.FetchedFromList(c, s.nodeID, list, now);
    var m, s' := Fetched(c, s.nodeID, list, now), ReplaceTicketsIn(c, s, list, now);
    forall t | t in list && Live(t, now) && Names(t, s.nodeID) ensures t in s'.tickets.Values {
      var id := TicketIdentifier(c, t).value;
      assert Usable(c, s.nodeID, t, now) && m[id] == t && s'.tickets[id] == t;
    }
  }

  lemma ReplaceStep(c: Primitives, s: System, n: Str, now: Time)
    requires ShaIdeal(c) && Sound(c, s, now) && n in s.procs && s.procs[n].phase.Listed?
    ensures Sound(c, WithClient(s, n, ReplaceTicketsIn(c, s.procs[n].client, s.procs[n].phase.list, now), Polled), now)
  {
    var p := s.procs[n];
    assert ProcSound(c, s.tickets, s.minted, p, n, now);
    ReplaceKeeps(c, p.client, s.minted, p.phase.list, now);
    ProcStaysSound(c, s, n, Proc(ReplaceTicketsIn(c, p.client, p.phase.list, now), Polled), now);
  }

  lemma {:induction false} ObservedTrimmed(node: Str, peers: seq<Candidate>, now: Time)
    requires forall d :: d in peers ==> Trimmed(d.nodeID)
    ensures forall n :: n in Observed(node, peers, now) ==> n != [] && Trimmed(n)
  {
    if peers != [] { ObservedTrimmed(node, peers[..|peers| - 1], now); }
  }

  lemma CandidatesStep(c: Primitives, s: System, n: Str, peers: seq<Candidate>, now: Time)
    requires Sound(c, s, now) && n in s.procs && s.procs[n].phase.Polled? && forall d :: d in peers ==> Trimmed(d.nodeID)
    ensures Sound(c, WithClient(s, n, ReplaceCandidatesIn(s.procs[n].client, peers, now), Ready), now)
  {
    var p := s.procs[n];
    assert ProcSound(c, s.tickets, s.minted, p, n, now);
    ObservedTrimmed(p.client.nodeID, peers, now);
    ProcStaysSound(c, s, n, Proc(ReplaceCandidatesIn(p.client, peers, now), Ready), now);
  }

  /** A target that needs a ticket has none at the coordinator either. */
  lemma BeginStep(c: Primitives, s: System, n: Str, now: Time)
    requires Sound(c, s, now) && n in s.procs && s.procs[n].phase.Ready?
    ensures Sound(c, WithPhase(s, n, Issuing(now, Wanted(s.procs[n].client, now))), now)
  {
    var p := s.procs[n];
    assert ProcSound(c, s.tickets, s.minted, p, n, now);
    forall t | LiveFrom(s.tickets, n, t, now) ensures t.targetNode !in Wanted(p.client, now) {
      var id :| id in p.client.tickets && p.client.tickets[id] == t;
      assert HasLiveSourceTicket(p.client.tickets, n, t.targetNode, now);
    }
    ProcStaysSound(c, s, n, p.(phase := Issuing(now, Wanted(p.client, now))), now);
  }

  /** A cycle ends, for whatever reason; a process that starts again holds no ticket. */
  lemma IdleStep(c: Primitives, s: System, n: Str, client: Client, now: Time)
    requires Sound(c, s, now) && n in s.procs && (client == s.procs[n].client || client == C.Start(n))
    ensures Sound(c, WithClient(s, n, client, Idle), now)
  {
    assert ProcSound(c, s.tickets, s.minted, s.procs[n], n, now);
    ProcStaysSound(c, s, n, Proc(client, Idle), now);
  }

  lemma ReplyStep(c: Primitives, s: System, n: Str, now: Time)
    requires Sound(c, s, now) && n in s.procs && s.procs[n].phase.Waiting? && s.procs[n].phase.reply.Some?
    ensures var p := s.procs[n];
            Sound(c, WithClient(s, n, StoreIssued(c, p.client, p.phase.target, p.phase.reply.value, p.phase.start),
                                Issuing(p.phase.start, p.phase.remaining)), now)
  {
    var p := s.procs[n];
    assert ProcSound(c, s.tickets, s.minted, p, n, now);
    var client := StoreIssued(c, p.client, p.phase.target, p.phase.reply.value, p.phase.start);
    ProcStaysSound(c, s, n, Proc(client, Issuing(p.phase.start, p.phase.remaining)), now);
  }

  lemma OtherKeeps(c: Primitives, s: Client, e: C.Event)
    requires TicketFree(e)
    ensures var s' := C.After(c, s, e); s'.nodeID == s.nodeID && s'.tickets == s.tickets && s'.candidates == s.candidates
  {
    C.StepFrame(c, s, e);
  }

  lemma OtherStep(c: Primitives, s: System, n: Str, e: C.Event, now: Time)
    requires Sound(c, s, now) && n in s.procs && TicketFree(e)
    ensures Sound(c, WithClient(s, n, C.After(c, s.procs[n].client, e), s.procs[n].phase), now)
  {
    OtherKeeps(c, s.procs[n].client, e);
    assert ProcSound(c, s.tickets, s.minted, s.procs[n], n, now);
    ProcStaysSound(c, s, n, Proc(C.After(c, s.procs[n].client, e), s.procs[n].phase), now);
  }

  // ---- issuing ------------------------------------------------------------------------------------

  /** The new ticket is the only live one of its pair. */
  lemma MintKeepsOneLive(m: Tickets, minted: set<ProbeTicket>, t: ProbeTicket, now: Time)
    requires Held(m, minted) && MintedSound(minted) && OneLive(m, now)
    requires LexLess(t.sourceNode, t.targetNode)
    requires forall u :: LiveFrom(m, t.sourceNode, u, now) ==> u.targetNode != t.targetNode
    ensures OneLive(PruneIn(m, now)[t.ticket := t], now)
  {
    var m' := PruneIn(m, now)[t.ticket := t];
    forall a | a in m && Live(m[a], now) && IsPair(m[a], t.sourceNode, t.targetNode) ensures false {
      LexIsStrictWeakOrder();
      assert m[a].sourceNode == t.sourceNode;
      assert LiveFrom(m, t.sourceNode, m[a], now);
      assert false;
    }
  }

  lemma MintKeepsOthers(c: Primitives, s: System, t: ProbeTicket, n: Str, now: Time)
    requires Sound(c, s, now) && n in s.procs && n != t.sourceNode
    ensures ProcSound(c, PruneIn(s.tickets, now)[t.ticket := t], s.minted + {t}, s.procs[n], n, now)
  {
    assert ProcSound(c, s.tickets, s.minted, s.procs[n], n, now);
    var m' := PruneIn(s.tickets, now)[t.ticket := t];
    forall u | LiveFrom(m', n, u, now) ensures LiveFrom(s.tickets, n, u, now) {}
  }

  lemma MintKeepsOwn(c: Primitives, s: System, t: ProbeTicket, now: Time)
    requires Sound(c, s, now) && t.sourceNode in s.procs && s.procs[t.sourceNode].phase.Issuing?
    ensures var p := s.procs[t.sourceNode];
            ProcSound(c, PruneIn(s.tickets, now)[t.ticket := t], s.minted + {t},
                      p.(phase := Waiting(p.phase.start, p.phase.remaining - {t.targetNode}, t.targetNode, Some(t))), t.sourceNode, now)
  {
    var n := t.sourceNode;
    assert ProcSound(c, s.tickets, s.minted, s.procs[n], n, now);
    var m' := PruneIn(s.tickets, now)[t.ticket := t];
    forall u | LiveFrom(m', n, u, now) ensures u == t || LiveFrom(s.tickets, n, u, now) {}
  }

  lemma IssueStep(c: Primitives, ttl: int, s: System, m: Move, now: Time)
    requires Sound(c, s, now) && Enabled(s, m) && m.Issue? && m.at == now && FreshToken(s, m.token)
    ensures Sound(c, Next(c, ttl, s, m), now)
  {
    var n, p := m.node, s.procs[m.node];
    assert ProcSound(c, s.tickets, s.minted, p, n, now);
    TrimSpaceTrims(n);
    TrimSpaceTrims(m.target);
    if MintedAt(ttl, m).Issued? {
      var t := MintedAt(ttl, m).ticket;
      MintKeepsOneLive(s.tickets, s.minted, t, now);
      MintKeepsOwn(c, s, t, now);
      forall x | x in s.procs && x != n { MintKeepsOthers(c, s, t, x, now); }
    } else {
      ProcStaysSound(c, s, n, p.(phase := Waiting(p.phase.start, p.phase.remaining - {m.target}, m.target, None)), now);
    }
  }

  // ---- every run ------------------------------------------------------------------------------------

  /** The steps of a client's poll cycle. */
  lemma CycleStep(c: Primitives, ttl: int, s: System, m: Move, s': System)
    requires ShaIdeal(c) && Sound(c, s, m.at) && Step(c, ttl, s, m, s')
    requires m.List? || m.Replace? || m.Candidates? || m.Begin? || m.Issue? || m.Reply?
    ensures Sound(c, s', m.at)
  {
    match m
    case List(n, list, at) => ListStep(c, s, n, list, at);
    case Replace(n, at) => ReplaceStep(c, s, n, at);
    case Candidates(n, peers, at) => CandidatesStep(c, s, n, peers, at);
    case Begin(n, at) => BeginStep(c, s, n, at);
    case Issue(n, target, token, at) => IssueStep(c, ttl, s, m, at);
    case Reply(n, at) => ReplyStep(c, s, n, at);
  }

  lemma ShrinkStep(c: Primitives, ttl: int, s: System, m: Move, s': System)
    requires Sound(c, s, m.at) && Step(c, ttl, s, m, s') && (m.Forget? || m.Prune?)
    ensures Sound(c, s', m.at)
  {
    match m
    case Forget(n, at) =>
      ForgetIsFewer(s.tickets, n);
      FewerStaysSound(c, s, ForgetIn(s.tickets, n), at, at);
    case Prune(at) =>
      PruneIsFewer(s.tickets, at);
      FewerStaysSound(c, s, PruneIn(s.tickets, at), at, at);
  }

  lemma EndStep(c: Primitives, ttl: int, s: System, m: Move, s': System)
    requires Sound(c, s, m.at) && Step(c, ttl, s, m, s') && (m.Finish? || m.Abort? || m.Restart?)
    ensures Sound(c, s', m.at)
  {
    IdleStep(c, s, m.node, if m.Restart? then C.Start(m.node) else s.procs[m.node].client, m.at);
  }

  lemma StepStaysSound(c: Primitives, ttl: int, s: System, m: Move, s': System)
    requires ShaIdeal(c) && Sound(c, s, m.at) && Step(c, ttl, s, m, s')
    ensures Sound(c, s', m.at)
  {
    if m.Finish? || m.Abort? || m.Restart? { EndStep(c, ttl, s, m, s'); }
    else if m.Forget? || m.Prune? { ShrinkStep(c, ttl, s, m, s'); }
    else if m.Other? { OtherStep(c, s, m.node, m.event, m.at); }
    else { CycleStep(c, ttl, s, m, s'); }
  }

  lemma StepAt(c: Primitives, ttl: int, nodes: set<Str>, moves: seq<Move>, states: seq<System>, k: nat)
    requires Run(c, ttl, nodes, moves, states) && k < |moves|
    ensures ShaIdeal(c) && Step(c, ttl, states[k], moves[k], states[k + 1]) && (k > 0 ==> moves[k - 1].at <= moves[k].at)
  {
  }

  lemma SoundLater(c: Primitives, s: System, now: Time, later: Time)
    requires Sound(c, s, now) && now <= later
    ensures Sound(c, s, later)
  {
    FewerStaysSound(c, s, s.tickets, now, later);
    assert s.(tickets := s.tickets) == s;
  }

  lemma StartSound(c: Primitives, nodes: set<Str>, now: Time)
    requires forall n :: n in nodes ==> n != [] && Trimmed(n)
    ensures Sound(c, Initial(nodes), now)
  {
  }

  lemma {:induction false} RunsStaySound(c: Primitives, ttl: int, nodes: set<Str>, moves: seq<Move>, states: seq<System>, k: nat, now: Time)
    requires Run(c, ttl, nodes, moves, states) && k <= |moves| && (k > 0 ==> moves[k - 1].at <= now)
    ensures Sound(c, states[k], now)
  {
    if k == 0 {
      StartSound(c, nodes, now);
    } else {
      StepAt(c, ttl, nodes, moves, states, k - 1);
      RunsStaySound(c, ttl, nodes, moves, states, k - 1, moves[k - 1].at);
      StepStaysSound(c, ttl, states[k - 1], moves[k - 1], states[k]);
      SoundLater(c, states[k], moves[k - 1].at, now);
    }
  }

  /** In every run, at every moment, the coordinator holds at most one live ticket for each
      pair of nodes. */
  lemma OneLiveTicketPerPair(
      c: Primitives, ttl: int, nodes: set<Str>, moves: seq<Move>, states: seq<System>, k: nat, now: Time,
      t: ProbeTicket, u: ProbeTicket, a: Str, b: Str)
    requires Run(c, ttl, nodes, moves, states) && k <= |moves| && (k > 0 ==> moves[k - 1].at <= now)
    requires t in states[k].tickets.Values && u in states[k].tickets.Values && Live(t, now) && Live(u, now)
    requires IsPair(t, a, b) && IsPair(u, a, b)
    ensures t == u
  {
    RunsStaySound(c, ttl, nodes, moves, states, k, now);
  }

  /** Every ticket ever minted is sourced by the smaller node ID. */
  lemma SourceBelowTarget(c: Primitives, ttl: int, nodes: set<Str>, moves: seq<Move>, states: seq<System>, k: nat, t: ProbeTicket)
    requires Run(c, ttl, nodes, moves, states) && k <= |moves| && t in states[k].minted
    ensures LexLess(t.sourceNode, t.targetNode)
  {
    RunsStaySound(c, ttl, nodes, moves, states, k, if k > 0 then moves[k - 1].at else 0);
  }

  /** Exactly when: a map with at most one live ticket per pair keeps that property through
      an issue if and only if the pair has no live ticket yet. */
  lemma IssueKeepsOneLiveIff(m: Tickets, ttl: int, a: Str, b: Str, now: Time, token: Str)
    requires Keyed(m) && OneLive(m, now) && ttl > 0 && token !in m && Minted(ttl, a, b, now, Some(token)).Issued?
    ensures OneLive(IssueIn(m, ttl, a, b, now, Some(token)), now) <==>
            forall k | k in m && Live(m[k], now) :: !IsPair(m[k], TrimSpace(a), TrimSpace(b))
  {
    var m', t := IssueIn(m, ttl, a, b, now, Some(token)), Minted(ttl, a, b, now, Some(token)).ticket;
    assert token in m' && m'[token] == t && Live(t, now);
    if OneLive(m', now) {
      forall k | k in m && Live(m[k], now) ensures !IsPair(m[k], TrimSpace(a), TrimSpace(b)) {
        assert k in m' && m'[k] == m[k];
      }
    }
  }

  // ---- every cycle gets what it needs ------------------------------------------------------------

  /** The client holds a ticket from its node to the target that was live at this moment. */
  ghost predicate HoldsTicket(s: Client, node: Str, target: Str, start: Time) {
    exists id :: id in s.tickets && s.tickets[id].sourceNode == node && s.tickets[id].targetNode == target
      && (s.tickets[id].expiresAt == 0 || start < s.tickets[id].expiresAt)
  }

  predicate InCycle(p: Phase, start: Time) {
    (p.Issuing? || p.Waiting?) && p.start == start
  }

  /** The targets still to be served, the one whose reply is awaited among them. */
  function Unserved(p: Phase): set<Str>
    requires p.Issuing? || p.Waiting?
  {
    if p.Issuing? then p.remaining else p.remaining + {p.target}
  }

  /** Every candidate above the node that was not served lately before the cycle, whose client
      state was s0, is still to be served or has its ticket. */
  ghost predicate CycleServes(p: Proc, node: Str, start: Time, s0: Client) {
    && InCycle(p.phase, start)
    && (forall n | n in s0.candidates && LexLess(node, n) && !IssuedLately(s0.lastIssued, n, start) ::
          n in Unserved(p.phase) || HoldsTicket(p.client, node, n, start))
    && (p.phase.Waiting? && p.phase.reply.Some? ==>
          var t := p.phase.reply.value; t.sourceNode == node && t.targetNode == p.phase.target && start < t.expiresAt)
  }

  lemma BeginServes(c: Primitives, s: System, n: Str, start: Time)
    requires n in s.procs && s.procs[n].phase.Ready? && s.procs[n].client.nodeID == n
    ensures CycleServes(Proc(s.procs[n].client, Issuing(start, Wanted(s.procs[n].client, start))), n, start, s.procs[n].client)
  {
    var s0 := s.procs[n].client;
    forall x | x in s0.candidates && LexLess(n, x) && !IssuedLately(s0.lastIssued, x, start)
      ensures x in Wanted(s0, start) || HoldsTicket(s0, n, x, start)
    {
      NeedsIff(s0, x, start);
    }
  }

  /** A reply is stored and takes no other ticket away. */
  lemma StoreKeepsTickets(c: Primitives, minted: set<ProbeTicket>, s: Client, target: Str, t: ProbeTicket, start: Time)
    requires ShaIdeal(c) && MintedSound(minted) && ClientHolds(c, s, minted) && t in minted
    ensures forall k | k in s.tickets :: k in StoreIssued(c, s, target, t, start).tickets
              && StoreIssued(c, s, target, t, start).tickets[k] == s.tickets[k]
    ensures t in StoreIssued(c, s, target, t, start).tickets.Values
  {
    MintedIdentifiers(c, minted);
    assert StoreIssued(c, s, target, t, start).tickets == s.tickets[TicketIdentifier(c, t).value := t];
    assert StoreIssued(c, s, target, t, start).tickets[TicketIdentifier(c, t).value] == t;
  }

  lemma HoldsOn(s: Client, s': Client, node: Str, target: Str, start: Time)
    requires HoldsTicket(s, node, target, start)
    requires forall k | k in s.tickets :: k in s'.tickets && s'.tickets[k] == s.tickets[k]
    ensures HoldsTicket(s', node, target, start)
  {
    var k :| k in s.tickets && s.tickets[k].sourceNode == node && s.tickets[k].targetNode == target
      && (s.tickets[k].expiresAt == 0 || start < s.tickets[k].expiresAt);
    assert k in s'.tickets;
  }

  lemma HoldsIssued(s: Client, t: ProbeTicket, start: Time)
    requires t in s.tickets.Values && start < t.expiresAt
    ensures HoldsTicket(s, t.sourceNode, t.targetNode, start)
  {
  }

  lemma ReplyServes(c: Primitives, minted: set<ProbeTicket>, p: Proc, node: Str, start: Time, s0: Client)
    requires ShaIdeal(c) && MintedSound(minted) && ClientHolds(c, p.client, minted) && CycleServes(p, node, start, s0)
    requires p.phase.Waiting? && p.phase.reply.Some? && p.phase.reply.value in minted
    ensures CycleServes(Proc(StoreIssued(c, p.client, p.phase.target, p.phase.reply.value, start), Issuing(start, p.phase.remaining)), node, start, s0)
  {
    var t := p.phase.reply.value;
    var client := StoreIssued(c, p.client, p.phase.target, t, start);
    StoreKeepsTickets(c, minted, p.client, p.phase.target, t, start);
    HoldsIssued(client, t, start);
    forall n | n in s0.candidates && LexLess(node, n) && !IssuedLately(s0.lastIssued, n, start)
      ensures n in p.phase.remaining || HoldsTicket(client, node, n, start)
    {
      if HoldsTicket(p.client, node, n, start) { HoldsOn(p.client, client, node, n, start); }
    }
  }

  /** The node neither gives up nor starts again at this step, nor is the cycle over. */
  predicate Continues(m: Move, node: Str) {
    !(m.Abort? && m.node == node) && !(m.Restart? && m.node == node) && !(m.Finish? && m.node == node)
  }

  lemma IssueServes(c: Primitives, ttl: int, s: System, m: Move, start: Time, s0: Client)
    requires Enabled(s, m) && m.Issue? && ttl > 0 && start <= m.at && Sound(c, s, m.at) && CycleServes(s.procs[m.node], m.node, start, s0)
    ensures m.node in Next(c, ttl, s, m).procs && CycleServes(Next(c, ttl, s, m).procs[m.node], m.node, start, s0)
  {
    assert ProcSound(c, s.tickets, s.minted, s.procs[m.node], m.node, m.at);
    TrimSpaceTrims(m.node);
    TrimSpaceTrims(m.target);
    MintedIff(ttl, m.node, m.target, m.at, m.token);
  }

  lemma CycleStepServes(c: Primitives, ttl: int, s: System, m: Move, s': System, node: Str, start: Time, s0: Client)
    requires ShaIdeal(c) && ttl > 0 && Sound(c, s, m.at) && Step(c, ttl, s, m, s') && start <= m.at && Continues(m, node)
    requires node in s.procs && CycleServes(s.procs[node], node, start, s0)
    ensures node in s'.procs && CycleServes(s'.procs[node], node, start, s0)
  {
    assert ProcSound(c, s.tickets, s.minted, s.procs[node], node, m.at);
    if m.Issue? && m.node == node {
      IssueServes(c, ttl, s, m, start, s0);
    } else if m.Reply? && m.node == node {
      ReplyServes(c, s.minted, s.procs[node], node, start, s0);
    } else if m.Other? && m.node == node {
      OtherKeeps(c, s.procs[node].client, m.event);
    } else {
      OthersLeaveProc(c, ttl, s, m, s', node);
    }
  }

  lemma OthersLeaveProc(c: Primitives, ttl: int, s: System, m: Move, s': System, node: Str)
    requires Step(c, ttl, s, m, s') && node in s.procs && Continues(m, node) && (s.procs[node].phase.Issuing? || s.procs[node].phase.Waiting?)
    requires !((m.Issue? || m.Reply? || m.Other?) && m.node == node)
    ensures node in s'.procs && s'.procs[node] == s.procs[node]
  {
  }

  lemma {:induction false} CycleGoesOn(
      c: Primitives, ttl: int, nodes: set<Str>, moves: seq<Move>, states: seq<System>, i: nat, k: nat, node: Str)
    requires Run(c, ttl, nodes, moves, states) && ttl > 0 && i < k <= |moves| && moves[i].Begin? && moves[i].node == node
    requires forall m :: i < m < k ==> Continues(moves[m], node)
    ensures node in states[i].procs && node in states[k].procs
    ensures CycleServes(states[k].procs[node], node, moves[i].at, states[i].procs[node].client)
    decreases k
  {
    var start := moves[i].at;
    StepAt(c, ttl, nodes, moves, states, i);
    RunsStaySound(c, ttl, nodes, moves, states, i, start);
    assert ProcSound(c, states[i].tickets, states[i].minted, states[i].procs[node], node, start);
    if k == i + 1 {
      BeginServes(c, states[i], node, start);
    } else {
      CycleGoesOn(c, ttl, nodes, moves, states, i, k - 1, node);
      StepAt(c, ttl, nodes, moves, states, k - 1);
      RunsStaySound(c, ttl, nodes, moves, states, k - 1, moves[k - 1].at);
      CycleStepServes(c, ttl, states[k - 1], moves[k - 1], states[k], node, start, states[i].procs[node].client);
    }
  }

  /** A poll cycle that runs from its first look at the candidates to its end without giving up
      leaves the client with a ticket, live when the cycle began or issued since, for every
      candidate above it; except where one had been issued less than 10 seconds before. */
  lemma FinishedCycleHasTickets(
      c: Primitives, ttl: int, nodes: set<Str>, moves: seq<Move>, states: seq<System>, i: nat, k: nat, node: Str, target: Str)
    requires Run(c, ttl, nodes, moves, states) && ttl > 0 && i < k < |moves|
    requires moves[i].Begin? && moves[i].node == node && moves[k].Finish? && moves[k].node == node
    requires forall m :: i < m < k ==> Continues(moves[m], node)
    requires node in states[i].procs && target in states[i].procs[node].client.candidates && LexLess(node, target)
    requires !IssuedLately(states[i].procs[node].client.lastIssued, target, moves[i].at)
    ensures node in states[k + 1].procs && HoldsTicket(states[k + 1].procs[node].client, node, target, moves[i].at)
  {
    CycleGoesOn(c, ttl, nodes, moves, states, i, k, node);
    StepAt(c, ttl, nodes, moves, states, k);
  }

  /** The coordinator alone promises nothing of the kind: asked twice it holds two. */
  lemma CoordinatorAloneAllowsTwo(ttl: int, a: Str, b: Str, now: Time, x: Str, y: Str)
    requires ttl > 0 && x != y && Minted(ttl, a, b, now, Some(x)).Issued?
    ensures !OneLive(IssueIn(IssueIn(map[], ttl, a, b, now, Some(x)), ttl, a, b, now, Some(y)), now)
  {
    var m := IssueIn(IssueIn(map[], ttl, a, b, now, Some(x)), ttl, a, b, now, Some(y));
    assert x in m && y in m;
  }
}
