/** A run of honest nodes that delivers one datagram twice, because the receiver's process
    starts again in between. */
module RestartReplay {
  import opened GoStrings
  import opened GoTime
  import opened Crypto
  import opened ProbeTickets
  import opened ProbeFrames
  import opened P2PClient
  import opened ProbeAgreement
  import opened PayloadAgreement
  import opened Ipv4Blocks
  import C = ClientRuns
  import W = DirectPayload
  import P = Packet

  /** The pair, the packet and the moment of such a run. */
  datatype Replay = Replay(t: ProbeTicket, payload: Str, sealNonce: Str, virtualIP: Addr, localIP: Addr, from: Str, at: Time)

  predicate Replayable(r: Replay) {
    var a, b := r.t.sourceNode, r.t.targetNode;
    && r.virtualIP != r.localIP && W.SealChecks(r.t, a, b, r.payload, r.at).None? && |r.sealNonce| == 12
    && TrimSpace(a) == a && TrimSpace(b) == b && TrimSpace(r.from) != [] && !IsZero(r.at)
    && P.IPv4Endpoints(r.payload) == P.Ok(P.Endpoints(r.virtualIP, r.localIP))
  }

  function CandidateOf(r: Replay): Candidate {
    Candidate(r.t.sourceNode, Some(r.virtualIP), r.from, r.at)
  }

  /** The receiver, as the sender's candidate. */
  function ReceiverOf(r: Replay): Candidate {
    Candidate(r.t.targetNode, Some(r.localIP), r.from, r.at)
  }

  function DataOf(c: Primitives, r: Replay): Str
    requires Replayable(r)
  {
    W.SealedWire(c, r.t, r.t.sourceNode, r.t.targetNode, r.payload, r.sealNonce)
  }

  /** The receiver when the datagram arrives: it has just started, fetched its tickets and
      its candidates. */
  function Receiver(c: Primitives, r: Replay): Client {
    C.After(c, C.After(c, C.Start(r.t.targetNode), C.Tickets([r.t], r.at)), C.Candidates([CandidateOf(r)], r.at))
  }

  function ReplaySteps(c: Primitives, r: Replay): seq<Step>
    requires Replayable(r)
  {
    var a, b := r.t.sourceNode, r.t.targetNode;
    var arrive := [Act(b, C.Tickets([r.t], r.at)), Act(b, C.Candidates([CandidateOf(r)], r.at)),
                   Act(b, C.Direct(DataOf(c, r), r.from, true, r.localIP, r.at))];
    [Act(a, C.Issued(b, r.t, r.at)), Act(a, C.Candidates([ReceiverOf(r)], r.at)), Act(a, C.Send(r.t, b, r.payload, r.sealNonce, r.at))]
      + arrive + [Restart(b)] + arrive
  }

  function ReplayWorld(c: Primitives, r: Replay): World
    requires Replayable(r)
  {
    World(c, {r.t.sourceNode, r.t.targetNode}, {r.t}, ReplaySteps(c, r), Play(c, StartNet(r.t), ReplaySteps(c, r)))
  }

  /** The receiver delivers the datagram. */
  lemma ReceiverDelivers(c: Primitives, r: Replay)
    requires Ideal(c) && Replayable(r)
    ensures HandleDirectIn(c, Receiver(c, r), DataOf(c, r), r.from, true, r.localIP, r.at).1 == Delivered(r.t.sourceNode, r.payload)
    ensures W.ReplayKey(DataOf(c, r)).Ok?
  {
    var a, b := r.t.sourceNode, r.t.targetNode;
    FetchOne(c, r.t, r.at);
    W.OpenUndoesSeal(c, r.t, a, b, r.payload, r.at, r.sealNonce, r.at);
    W.OpenAcceptsOnlySeals(c, DataOf(c, r), r.t, b, r.at);
    OneObserved(b, CandidateOf(r), r.at);
  }

  /** The sender when it seals: it has been issued its ticket and told of the receiver. */
  function Sender(c: Primitives, r: Replay): Client {
    C.After(c, C.After(c, C.Start(r.t.sourceNode), C.Issued(r.t.targetNode, r.t, r.at)), C.Candidates([ReceiverOf(r)], r.at))
  }

  lemma SenderState(c: Primitives, r: Replay)
    requires Replayable(r)
    ensures var s := ReplayWorld(c, r).states;
            r.t.sourceNode in s[2] && s[2][r.t.sourceNode] == Sender(c, r) && s[3] == s[2]
  {
    var a, s, steps := r.t.sourceNode, ReplayWorld(c, r).states, ReplaySteps(c, r);
    assert s[1] == s[0][a := C.After(c, s[0][a], steps[0].event)];
    assert s[2] == s[1][a := C.After(c, s[1][a], steps[1].event)];
    assert s[3] == s[2][a := C.After(c, s[2][a], steps[2].event)];
  }

  lemma FirstArrival(c: Primitives, r: Replay)
    requires Replayable(r)
    ensures var s := ReplayWorld(c, r).states; r.t.targetNode in s[5] && s[5][r.t.targetNode] == Receiver(c, r)
  {
    var a, b, s, steps := r.t.sourceNode, r.t.targetNode, ReplayWorld(c, r).states, ReplaySteps(c, r);
    assert s[1] == s[0][a := C.After(c, s[0][a], steps[0].event)];
    assert s[2] == s[1][a := C.After(c, s[1][a], steps[1].event)];
    assert s[3] == s[2][a := C.After(c, s[2][a], steps[2].event)];
    assert s[4] == s[3][b := C.After(c, s[3][b], steps[3].event)];
    assert s[5] == s[4][b := C.After(c, s[4][b], steps[4].event)];
  }

  lemma SecondArrival(c: Primitives, r: Replay)
    requires Replayable(r)
    ensures var s := ReplayWorld(c, r).states; r.t.targetNode in s[9] && s[9][r.t.targetNode] == Receiver(c, r)
  {
    var b, s, steps := r.t.targetNode, ReplayWorld(c, r).states, ReplaySteps(c, r);
    assert s[7] == s[6][b := C.Start(b)];
    assert s[8] == s[7][b := C.After(c, s[7][b], steps[7].event)];
    assert s[9] == s[8][b := C.After(c, s[8][b], steps[8].event)];
  }

  lemma ReplayFollows(c: Primitives, r: Replay)
    requires Replayable(r)
    ensures StepsFollow(ReplayWorld(c, r))
  {
    var w := ReplayWorld(c, r);
    ReplayFeasible(c, r);
    forall k | 0 <= k < 10 ensures StepFollows(w, k) { PlayFollows(w, k); }
  }

  /** All but the sending of the payload is feasible whatever the state. */
  lemma ReplayStepsFeasible(c: Primitives, r: Replay, k: nat, s: Client)
    requires Replayable(r) && k < 10 && k != 2 && k != 6
    ensures ReplaySteps(c, r)[k].Act? && Feasible({r.t}, s, ReplaySteps(c, r)[k].event)
  {
  }

  lemma ReplayFeasible(c: Primitives, r: Replay)
    requires Replayable(r)
    ensures var w := ReplayWorld(c, r);
            |w.steps| == 10 && forall k | 0 <= k < 10 && w.steps[k].Act? :: Acts(w, k) && Feasible(w.issued, Actor(w, k), w.steps[k].event)
  {
    var w := ReplayWorld(c, r);
    SenderState(c, r);
    SenderMaySend(c, r);
    forall k | 0 <= k < 10 && w.steps[k].Act? ensures Acts(w, k) && Feasible(w.issued, Actor(w, k), w.steps[k].event) {
      if k != 2 { ReplayStepsFeasible(c, r, k, Actor(w, k)); }
    }
  }

  lemma OneObserved(node: Str, d: Candidate, now: Time)
    requires Acceptable(node, d, now)
    ensures Observed(node, [d], now) == map[d.nodeID := d]
  {
    assert [d][..0] == [];
  }

  /** The sender holds the ticket it seals with, and knows the receiver's address. */
  lemma SenderMaySend(c: Primitives, r: Replay)
    requires Replayable(r)
    ensures var s := Sender(c, r);
            s.nodeID == r.t.sourceNode && LiveTicketFor(s, r.t, r.t.targetNode, r.at) && AddressedTo(s, r.t.targetNode, r.payload)
  {
    assert Sender(c, r).tickets[TicketIdentifier(c, r.t).value] == r.t;
    OneObserved(r.t.sourceNode, ReceiverOf(r), r.at);
  }

  /** A world with one ticket whose only direct datagram was sealed in its third step. */
  lemma SealedIsAuthentic(w: World, t: ProbeTicket, data: Str, from: Str, to: Str, sealNonce: Str, payload: Str)
    requires w.issued == {t} && Secret(t).Some? && Opens(w.c, data, Secret(t).value)
    requires SealsAt(w, 2, t, from, to, sealNonce, payload)
    requires forall k: nat | Acts(w, k) && w.steps[k].event.Direct? :: 2 < k && w.steps[k].event.data == data
    requires W.Slice(data).value.nonce == sealNonce && OpenedText(w.c, data, Secret(t).value) == payload
    requires AadOf(data) == W.Aad(w.c.sha256(Secret(t).value), from, to)
    ensures SealAuthentic(w)
  {
  }

  /** What the datagram holds. */
  lemma DataOpens(c: Primitives, r: Replay)
    requires Ideal(c) && Replayable(r)
    ensures var data, key := DataOf(c, r), Secret(r.t).value;
            && Opens(c, data, key) && OpenedText(c, data, key) == r.payload && W.Slice(data).value.nonce == r.sealNonce
            && AadOf(data) == W.Aad(c.sha256(key), r.t.sourceNode, r.t.targetNode)
  {
    var key, a, b := Secret(r.t).value, r.t.sourceNode, r.t.targetNode;
    var id := c.sha256(key);
    W.SliceOfWire(id, r.sealNonce, a, b, c.seal(key, r.sealNonce, r.payload, W.Aad(id, a, b)));
  }

  /** Every step happens at one moment, none is a probe or an answer, and one datagram arrives. */
  lemma ReplayStepsPlain(c: Primitives, r: Replay)
    requires Replayable(r)
    ensures var steps := ReplaySteps(c, r);
            forall k: nat | k < |steps| && steps[k].Act? :: steps[k].event.at == r.at && !steps[k].event.Probe? && !steps[k].event.Datagram?
              && (steps[k].event.Direct? ==> k > 2 && steps[k].event.data == DataOf(c, r))
  {
  }

  lemma QuietWorld(w: World, t: ProbeTicket, at: Time)
    requires w.issued == {t}
    requires forall k: nat | k < |w.steps| && w.steps[k].Act? :: w.steps[k].event.at == at && !w.steps[k].event.Probe? && !w.steps[k].event.Datagram?
    ensures ClockRuns(w) && FreshNonces(w.steps) && Unforgeable(w)
  {
  }

  lemma ReplaySeals(c: Primitives, r: Replay)
    requires Replayable(r)
    ensures SealsAt(ReplayWorld(c, r), 2, r.t, r.t.sourceNode, r.t.targetNode, r.sealNonce, r.payload)
  {
    SenderState(c, r);
    SenderMaySend(c, r);
  }

  lemma ReplayAuthentic(c: Primitives, r: Replay)
    requires Ideal(c) && Replayable(r)
    ensures SealAuthentic(ReplayWorld(c, r))
  {
    DataOpens(c, r);
    ReplaySeals(c, r);
    ReplayStepsPlain(c, r);
    SealedIsAuthentic(ReplayWorld(c, r), r.t, DataOf(c, r), r.t.sourceNode, r.t.targetNode, r.sealNonce, r.payload);
  }

  lemma ReplaySound(c: Primitives, r: Replay)
    requires Replayable(r)
    ensures var w := ReplayWorld(c, r); ClockRuns(w) && FreshNonces(w.steps) && Unforgeable(w)
  {
    ReplayStepsPlain(c, r);
    QuietWorld(ReplayWorld(c, r), r.t, r.at);
  }

  lemma ArrivalDelivers(c: Primitives, r: Replay, w: World, k: nat)
    requires Ideal(c) && Replayable(r) && w.c == c && Acts(w, k) && Actor(w, k) == Receiver(c, r)
    requires w.steps[k] == Act(r.t.targetNode, C.Direct(DataOf(c, r), r.from, true, r.localIP, r.at))
    ensures DeliversAt(w, k, r.t.targetNode, r.t.sourceNode, r.payload)
    ensures W.ReplayKey(DataOf(c, r)).Ok? && DeliversKeyAt(w, k, r.t.targetNode, W.ReplayKey(DataOf(c, r)).value)
  {
    ReceiverDelivers(c, r);
  }

  lemma ReplayDelivers(c: Primitives, r: Replay, k: nat)
    requires Ideal(c) && Replayable(r) && (k == 5 || k == 9)
    ensures DeliversAt(ReplayWorld(c, r), k, r.t.targetNode, r.t.sourceNode, r.payload)
    ensures W.ReplayKey(DataOf(c, r)).Ok? && DeliversKeyAt(ReplayWorld(c, r), k, r.t.targetNode, W.ReplayKey(DataOf(c, r)).value)
  {
    if k == 5 { FirstArrival(c, r); } else { SecondArrival(c, r); }
    ArrivalDelivers(c, r, ReplayWorld(c, r), k);
  }

  lemma ReplayAddresses(c: Primitives, r: Replay)
    requires Replayable(r)
    ensures AddressesApart(ReplayWorld(c, r))
  {
    var w := ReplayWorld(c, r);
    forall j: nat, k: nat, node, d | Lists(w, j, node, d) && Acts(w, k) && w.steps[k].node == node && w.steps[k].event.Direct?
      ensures d.virtualIP != Some(w.steps[k].event.localIP)
    {
      assert node == r.t.targetNode && d == CandidateOf(r) && w.steps[k].event.localIP == r.localIP;
    }
  }

  /** A restart does let a datagram through again: in this run of honest nodes b delivers it,
      starts again, fetches the same ticket, and delivers the copy. */
  lemma RestartReplays(c: Primitives, r: Replay) returns (w: World, key: Str)
    requires Ideal(c) && C.IssuedTicket(r.t) && Replayable(r)
    ensures ProbeAgreement.Run(w) && SealAuthentic(w) && AddressesApart(w)
    ensures DeliversAt(w, 5, r.t.targetNode, r.t.sourceNode, r.payload) && DeliversAt(w, 9, r.t.targetNode, r.t.sourceNode, r.payload)
    ensures DeliversKeyAt(w, 5, r.t.targetNode, key) && DeliversKeyAt(w, 9, r.t.targetNode, key)
  {
    w := ReplayWorld(c, r);
    ReplayDelivers(c, r, 5);
    ReplayDelivers(c, r, 9);
    key := W.ReplayKey(DataOf(c, r)).value;
    OneTicketFromCoordinator(r.t);
    ReplayFollows(c, r);
    ReplaySound(c, r);
    ReplayAuthentic(c, r);
    ReplayAddresses(c, r);
  }
}
