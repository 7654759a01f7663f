/** The coordinator's ticket manager (internal/p2p/tickets.go): a map that forgets
    expired tickets only when it is used. */
module ProbeTickets {
  import opened GoStrings
  import opened GoTime
  import opened Sorting

  datatype ProbeTicket = ProbeTicket(ticket: Str, sourceNode: Str, targetNode: Str, issuedAt: Time, expiresAt: Time)

  datatype IssueResult = Issued(ticket: ProbeTicket) | NodeRequired | SelfPair | TokenFailed

  type Tickets = map<Str, ProbeTicket>

  predicate Names(t: ProbeTicket, node: Str) {
    t.sourceNode == node || t.targetNode == node
  }

  predicate IsPair(t: ProbeTicket, a: Str, b: Str) {
    (t.sourceNode == a && t.targetNode == b) || (t.sourceNode == b && t.targetNode == a)
  }

  // ---- the operations on values -------------------------------------------------

  function PruneIn(m: Tickets, now: Time): Tickets {
    map t | t in m && now < m[t].expiresAt :: m[t]
  }

  function ForgetIn(m: Tickets, nodeID: Str): Tickets {
    var node := TrimSpace(nodeID);
    if node == [] then m else map t | t in m && !Names(m[t], node) :: m[t]
  }

  /** The ticket an `Issue` call makes, if it makes one. */
  function Minted(ttl: int, source: Str, target: Str, now: Time, token: Option<Str>): IssueResult {
    var s, t := TrimSpace(source), TrimSpace(target);
    if s == [] || t == [] then NodeRequired
    else if s == t then SelfPair
    else if token.None? then TokenFailed
    else Issued(ProbeTicket(token.value, s, t, now, now + ttl))
  }

  function IssueIn(m: Tickets, ttl: int, source: Str, target: Str, now: Time, token: Option<Str>): Tickets {
    match Minted(ttl, source, target, now, token)
    case Issued(t) => PruneIn(m, now)[t.ticket := t]
    case _ => m
  }

  /** What `Issue` answers: a ticket exactly for two distinct, non-blank nodes and a token, from
      the one to the other, for the time to live; and which refusal, in that order. */
  lemma MintedIff(ttl: int, source: Str, target: Str, now: Time, token: Option<Str>)
    ensures var s, t, r := TrimSpace(source), TrimSpace(target), Minted(ttl, source, target, now, token);
            && (r.Issued? <==> s != [] && t != [] && s != t && token.Some?)
            && (r.Issued? ==> token.Some? && r.ticket == ProbeTicket(token.value, s, t, now, now + ttl))
            && (r == NodeRequired <==> s == [] || t == [])
            && (r == SelfPair <==> s == t != [])
            && (r == TokenFailed <==> s != [] && t != [] && s != t && token.None?)
  {
  }

  /** And what it keeps: the new ticket, and of the others those not yet expired; nothing is
      touched when it refuses. */
  lemma IssueKeeps(m: Tickets, ttl: int, source: Str, target: Str, now: Time, token: Option<Str>, k: Str)
    requires Keyed(m)
    ensures var m', r := IssueIn(m, ttl, source, target, now, token), Minted(ttl, source, target, now, token);
            if !r.Issued? then m' == m
            else if k == r.ticket.ticket then k in m' && m'[k] == r.ticket
            else (k in m' <==> k in m && now < m[k].expiresAt) && (k in m' ==> m'[k] == m[k])
  {
  }

  function VerifyIn(m: Tickets, token: Str, nodeA: Str, nodeB: Str, now: Time): bool {
    var k, a, b := TrimSpace(token), TrimSpace(nodeA), TrimSpace(nodeB);
    Presentable(token, nodeA, nodeB) && k in PruneIn(m, now) && IsPair(m[k], a, b)
  }

  /** The checks `Verify` makes before it looks: a token and two distinct nodes. */
  predicate Presentable(token: Str, nodeA: Str, nodeB: Str) {
    TrimSpace(token) != [] && TrimSpace(nodeA) != [] && TrimSpace(nodeB) != [] && TrimSpace(nodeA) != TrimSpace(nodeB)
  }

  predicate Keyed(m: Tickets) {
    forall t :: t in m ==> m[t].ticket == t
  }

  predicate TicketLess(x: ProbeTicket, y: ProbeTicket) {
    if x.expiresAt == y.expiresAt then LexLess(x.ticket, y.ticket) else x.expiresAt < y.expiresAt
  }

  lemma TicketOrder()
    ensures StrictWeakOrder(TicketLess)
  {
    LexIsStrictWeakOrder();
  }

  /** The live tickets naming the node, each once, by expiry and then token. */
  ghost predicate ListingFor(out: seq<ProbeTicket>, m: Tickets, node: Str, now: Time) {
    && StrictlySortedBy(TicketLess, out)
    && forall t :: t in out <==> t.ticket in m && m[t.ticket] == t && now < t.expiresAt && Names(t, node)
  }

  // ---- the object -----------------------------------------------------------------------

  class TicketManager {
    const ttl: int
    var tickets: Tickets

    ghost predicate Valid()
      reads this
    {
      Keyed(tickets)
    }

    /** `NewTicketManager`: a non-positive TTL means 30 seconds. */
    constructor (ttl: int)
      ensures Valid() && tickets == map[] && this.ttl == (if ttl <= 0 then 30 * SECOND else ttl) > 0
    {
      this.ttl := if ttl <= 0 then 30 * SECOND else ttl;
      tickets := map[];
    }

    method PruneLocked(now: Time)
      modifies this
      ensures tickets == PruneIn(old(tickets), now)
    {
      ghost var before := tickets;
      var todo := tickets.Keys;
      while todo != {}
        invariant todo <= tickets.Keys
        invariant tickets == map t | t in before && (t in todo || now < before[t].expiresAt) :: before[t]
        decreases todo
      {
        var token :| token in todo;
        todo := todo - {token};
        if !(now < tickets[token].expiresAt) { tickets := tickets - {token}; }
      }
    }

    method Issue(source: Str, target: Str, now: Time, token: Option<Str>) returns (r: IssueResult)
      requires Valid()
      modifies this
      ensures Valid() && r == Minted(ttl, source, target, now, token)
      ensures tickets == IssueIn(old(tickets), ttl, source, target, now, token)
    {
      var s, t := TrimSpace(source), TrimSpace(target);
      if s == [] || t == [] { return NodeRequired; }
      if s == t { return SelfPair; }
      if token.None? { return TokenFailed; }
      var ticket := ProbeTicket(token.value, s, t, now, now + ttl);
      PruneLocked(now);
      tickets := tickets[token.value := ticket];
      r := Issued(ticket);
    }

    method ListForNode(nodeID: Str, now: Time) returns (out: seq<ProbeTicket>)
      requires Valid()
      modifies this
      ensures Valid() && tickets == if TrimSpace(nodeID) == [] then old(tickets) else PruneIn(old(tickets), now)
      ensures TrimSpace(nodeID) == [] ==> out == []
      ensures TrimSpace(nodeID) != [] ==> ListingFor(out, old(tickets), TrimSpace(nodeID), now)
    {
      var node := TrimSpace(nodeID);
      if node == [] { return []; }
      PruneLocked(now);
      var live := tickets;
      out := [];
      var todo := live.Keys;
      while todo != {}
        invariant tickets == live && todo <= live.Keys && Picked(out, live, live.Keys - todo, node)
        decreases todo
      {
        var token :| token in todo;
        PickOne(out, live, live.Keys - todo, node, token);
        assert live.Keys - (todo - {token}) == live.Keys - todo + {token};
        todo := todo - {token};
        if Names(live[token], node) { out := out + [live[token]]; }
      }
      assert live.Keys - todo == live.Keys;
      SortedPicks(out, live, node);
      out := Sort(TicketLess, out);
    }

    method Verify(token: Str, nodeA: Str, nodeB: Str, now: Time) returns (ok: bool)
      modifies this
      ensures ok == VerifyIn(old(tickets), token, nodeA, nodeB, now)
      ensures tickets == if Presentable(token, nodeA, nodeB) then PruneIn(old(tickets), now) else old(tickets)
    {
      var k, a, b := TrimSpace(token), TrimSpace(nodeA), TrimSpace(nodeB);
      if k == [] || a == [] || b == [] || a == b { return false; }
      PruneLocked(now);
      if k !in tickets { return false; }
      ok := IsPair(tickets[k], a, b);
    }

    method ForgetNode(nodeID: Str)
      modifies this
      ensures tickets == ForgetIn(old(tickets), nodeID)
    {
      var node := TrimSpace(nodeID);
      if node == [] { return; }
      ghost var before := tickets;
      var todo := tickets.Keys;
      while todo != {}
        invariant todo <= tickets.Keys
        invariant tickets == map t | t in before && (t in todo || !Names(before[t], node)) :: before[t]
        decreases todo
      {
        var token :| token in todo;
        todo := todo - {token};
        if Names(tickets[token], node) { tickets := tickets - {token}; }
      }
    }

    method Prune(now: Time)
      modifies this
      ensures tickets == PruneIn(old(tickets), now)
    {
      PruneLocked(now);
    }
  }

  /** A list built by visiting each of `done` once. */
  ghost predicate Picked(out: seq<ProbeTicket>, m: Tickets, done: set<Str>, node: Str) {
    && done <= m.Keys
    && (forall t :: t in out <==> t.ticket in done && m[t.ticket] == t && Names(t, node))
    && (forall i, j :: 0 <= i < j < |out| ==> out[i].ticket != out[j].ticket)
  }

  lemma PickOne(out: seq<ProbeTicket>, m: Tickets, done: set<Str>, node: Str, token: Str)
    requires Keyed(m) && Picked(out, m, done, node) && token in m && token !in done
    ensures Picked(if Names(m[token], node) then out + [m[token]] else out, m, done + {token}, node)
  {
    var t := m[token];
    forall i | 0 <= i < |out| ensures out[i].ticket != token { assert out[i] in out; }
    forall x ensures x in out + [t] <==> x in out || x == t {}
  }

  lemma SortedPicks(out: seq<ProbeTicket>, m: Tickets, node: Str)
    requires Picked(out, m, m.Keys, node)
    ensures StrictlySortedBy(TicketLess, Sort(TicketLess, out))
    ensures forall t :: t in Sort(TicketLess, out) <==> t.ticket in m && m[t.ticket] == t && Names(t, node)
  {
    TicketOrder();
    forall i, j | 0 <= i < j < |out| ensures TicketLess(out[i], out[j]) || TicketLess(out[j], out[i]) {
      LexTotal(out[i].ticket, out[j].ticket);
    }
    SortStrict(TicketLess, out);
    SortElements(TicketLess, out);
  }

  // ---- whole runs: lazy expiry against the history of calls ----------------------------------

  datatype Call =
    | Issue(source: Str, target: Str, token: Option<Str>, at: Time)
    | List(node: Str, at: Time)
    | Verify(presented: Str, nodeA: Str, nodeB: Str, at: Time)
    | Forget(node: Str, at: Time)
    | Prune(at: Time)

  /** m' is the map after the call.  Whether a call prunes is left open: the theorem
      below holds whatever pruning happens. */
  predicate Step(ttl: int, m: Tickets, call: Call, m': Tickets) {
    match call
    case Issue(s, t, token, at) => m' == IssueIn(m, ttl, s, t, at, token)
    case Forget(n, at) => m' == ForgetIn(m, n)
    case _ => m' == m || m' == PruneIn(m, call.at)
  }

  function MintedBy(ttl: int, call: Call): Option<ProbeTicket> {
    if call.Issue? && Minted(ttl, call.source, call.target, call.at, call.token).Issued?
    then Some(Minted(ttl, call.source, call.target, call.at, call.token).ticket) else None
  }

  predicate FreshTokens(ttl: int, calls: seq<Call>) {
    forall i, j :: 0 <= i < j < |calls| && MintedBy(ttl, calls[i]).Some? && MintedBy(ttl, calls[j]).Some? ==>
      MintedBy(ttl, calls[i]).value.ticket != MintedBy(ttl, calls[j]).value.ticket
  }

  predicate Run(ttl: int, calls: seq<Call>, maps: seq<Tickets>) {
    && FreshTokens(ttl, calls) && (forall i, j :: 0 <= i < j < |calls| ==> calls[i].at <= calls[j].at)
    && |maps| == |calls| + 1 && maps[0] == map[]
    && forall k :: 0 <= k < |calls| ==> Step(ttl, maps[k], calls[k], maps[k + 1])
  }

  /** Call i issued the ticket and neither of its nodes was forgotten before call k. */
  predicate Outstanding(ttl: int, calls: seq<Call>, i: nat, k: nat, t: ProbeTicket) {
    && i < k <= |calls| && MintedBy(ttl, calls[i]) == Some(t)
    && forall f :: i < f < k && calls[f].Forget? ==> !Names(t, TrimSpace(calls[f].node))
  }

  /** The history's live tickets. */
  ghost predicate LiveInHistory(ttl: int, calls: seq<Call>, k: nat, t: ProbeTicket, now: Time) {
    now < t.expiresAt && exists i: nat :: Outstanding(ttl, calls, i, k, t)
  }

  lemma MintedShape(ttl: int, call: Call)
    requires MintedBy(ttl, call).Some?
    ensures var t := MintedBy(ttl, call).value;
            && t.sourceNode != [] && t.targetNode != [] && t.sourceNode != t.targetNode
            && t.expiresAt == call.at + ttl && Some(t.ticket) == call.token
  {
  }

  ghost predicate Backed(ttl: int, calls: seq<Call>, k: nat, t: ProbeTicket) {
    exists i: nat :: Outstanding(ttl, calls, i, k, t)
  }

  /** Every entry was issued and is not forgotten; every issued, unforgotten ticket that was
      live at the last call is still held. */
  ghost predicate Mirrors(ttl: int, calls: seq<Call>, k: nat, m: Tickets) {
    && Keyed(m)
    && (forall token :: token in m ==> Backed(ttl, calls, k, m[token]))
    && (forall i: nat, t :: Outstanding(ttl, calls, i, k, t) && LiveAtLast(calls, k, t) ==> t in m.Values && m[t.ticket] == t)
  }

  predicate LiveAtLast(calls: seq<Call>, k: nat, t: ProbeTicket) {
    0 < k <= |calls| ==> calls[k - 1].at < t.expiresAt
  }

  lemma {:induction false} MapMirrorsHistory(ttl: int, calls: seq<Call>, maps: seq<Tickets>, k: nat)
    requires Run(ttl, calls, maps) && k <= |calls|
    ensures Mirrors(ttl, calls, k, maps[k])
  {
    if k > 0 {
      MapMirrorsHistory(ttl, calls, maps, k - 1);
      assert Step(ttl, maps[k - 1], calls[k - 1], maps[k]);
      EntriesBacked(ttl, calls, maps[k - 1], maps[k], k);
      HistoryHeld(ttl, calls, maps[k - 1], maps[k], k);
    }
  }

  lemma EntriesBacked(ttl: int, calls: seq<Call>, m: Tickets, m': Tickets, k: nat)
    requires 0 < k <= |calls| && Step(ttl, m, calls[k - 1], m') && Mirrors(ttl, calls, k - 1, m)
    ensures Keyed(m') && forall token :: token in m' ==> Backed(ttl, calls, k, m'[token])
  {
    var call := calls[k - 1];
    forall token | token in m' ensures m'[token].ticket == token && Backed(ttl, calls, k, m'[token]) {
      if MintedBy(ttl, call) == Some(m'[token]) {
        assert Outstanding(ttl, calls, k - 1, k, m'[token]);
      } else {
        assert token in m && m'[token] == m[token];
        StillBacked(ttl, calls, m, m', k, token);
      }
    }
  }

  lemma StillBacked(ttl: int, calls: seq<Call>, m: Tickets, m': Tickets, k: nat, token: Str)
    requires 0 < k <= |calls| && Step(ttl, m, calls[k - 1], m')
    requires token in m && token in m' && m'[token] == m[token] && Backed(ttl, calls, k - 1, m[token])
    ensures Backed(ttl, calls, k, m'[token])
  {
    var i: nat :| Outstanding(ttl, calls, i, k - 1, m[token]);
    MintedShape(ttl, calls[i]);
    assert Outstanding(ttl, calls, i, k, m[token]);
  }

  lemma HistoryHeld(ttl: int, calls: seq<Call>, m: Tickets, m': Tickets, k: nat)
    requires 0 < k <= |calls| && Step(ttl, m, calls[k - 1], m') && Mirrors(ttl, calls, k - 1, m)
    requires FreshTokens(ttl, calls) && forall x, y :: 0 <= x < y < |calls| ==> calls[x].at <= calls[y].at
    ensures forall i: nat, t :: Outstanding(ttl, calls, i, k, t) && LiveAtLast(calls, k, t) ==> t in m'.Values && m'[t.ticket] == t
  {
    forall i: nat, t | Outstanding(ttl, calls, i, k, t) && LiveAtLast(calls, k, t) ensures t in m'.Values && m'[t.ticket] == t {
      if i < k - 1 {
        assert Outstanding(ttl, calls, i, k - 1, t) && LiveAtLast(calls, k - 1, t);
      }
      assert t.ticket in m' && m'[t.ticket] == t;
    }
  }

  /** What the map holds that is live is exactly what the history makes live. */
  lemma LiveIffHistory(ttl: int, calls: seq<Call>, maps: seq<Tickets>, k: nat, t: ProbeTicket, now: Time)
    requires Run(ttl, calls, maps) && k <= |calls| && (k > 0 ==> calls[k - 1].at <= now)
    ensures (t.ticket in maps[k] && maps[k][t.ticket] == t && now < t.expiresAt) <==>
            LiveInHistory(ttl, calls, k, t, now)
  {
    MapMirrorsHistory(ttl, calls, maps, k);
  }

  /** `Verify` accepts a token for a pair exactly when it was issued for that pair less
      than the TTL ago and neither node has been forgotten since. */
  lemma VerifyIffHistory(ttl: int, calls: seq<Call>, maps: seq<Tickets>, k: nat, token: Str, a: Str, b: Str, now: Time)
    requires Run(ttl, calls, maps) && k <= |calls| && (k > 0 ==> calls[k - 1].at <= now)
    requires forall i :: 0 <= i < |calls| && calls[i].Issue? ==> calls[i].token != Some([])
    ensures VerifyIn(maps[k], token, a, b, now) <==>
            exists t :: LiveInHistory(ttl, calls, k, t, now)
                        && t.ticket == TrimSpace(token) && IsPair(t, TrimSpace(a), TrimSpace(b))
  {
    MapMirrorsHistory(ttl, calls, maps, k);
    var m, key := maps[k], TrimSpace(token);
    if key in m { LiveIffHistory(ttl, calls, maps, k, m[key], now); }
    forall t | LiveInHistory(ttl, calls, k, t, now) && t.ticket == key && IsPair(t, TrimSpace(a), TrimSpace(b))
      ensures VerifyIn(m, token, a, b, now)
    {
      LiveIffHistory(ttl, calls, maps, k, t, now);
      var i: nat :| Outstanding(ttl, calls, i, k, t);
      MintedShape(ttl, calls[i]);
    }
  }

  /** A listing is exactly the history's live tickets of the node. */
  lemma ListingIffHistory(ttl: int, calls: seq<Call>, maps: seq<Tickets>, k: nat, out: seq<ProbeTicket>, node: Str, now: Time)
    requires Run(ttl, calls, maps) && k <= |calls| && (k > 0 ==> calls[k - 1].at <= now)
    requires ListingFor(out, maps[k], node, now)
    ensures forall t :: t in out <==> LiveInHistory(ttl, calls, k, t, now) && Names(t, node)
  {
    forall t ensures t in out <==> LiveInHistory(ttl, calls, k, t, now) && Names(t, node) {
      LiveIffHistory(ttl, calls, maps, k, t, now);
    }
  }

  /** Every ticket the map ever holds was made by some call of the run. */
  lemma HeldWasMinted(ttl: int, calls: seq<Call>, maps: seq<Tickets>, k: nat, t: ProbeTicket) returns (i: nat)
    requires Run(ttl, calls, maps) && k <= |calls| && t in maps[k].Values
    ensures i < |calls| && MintedBy(ttl, calls[i]) == Some(t) && t.ticket in maps[k] && maps[k][t.ticket] == t
  {
    MapMirrorsHistory(ttl, calls, maps, k);
    var token :| token in maps[k] && maps[k][token] == t;
    i :| Outstanding(ttl, calls, i, k, t);
  }

  /** A token stands for one ticket for ever: if the manager holds a token at two moments of
      a run, it holds the same pair of nodes and the same expiry under it. */
  lemma TokenNamesOneTicket(ttl: int, calls: seq<Call>, maps: seq<Tickets>, j: nat, k: nat, t: ProbeTicket, u: ProbeTicket)
    requires Run(ttl, calls, maps) && j <= |calls| && k <= |calls|
    requires t in maps[j].Values && u in maps[k].Values
    ensures t.ticket == u.ticket <==> t == u
  {
    var x := HeldWasMinted(ttl, calls, maps, j, t);
    var y := HeldWasMinted(ttl, calls, maps, k, u);
    MintedShape(ttl, calls[x]);
    MintedShape(ttl, calls[y]);
  }

  /** What a reply of the coordinator can contain: a ticket just issued or listed is held
      after the call. */
  lemma AnswersAreHeld(ttl: int, m: Tickets, source: Str, target: Str, node: Str, now: Time, token: Option<Str>, out: seq<ProbeTicket>)
    requires ListingFor(out, m, node, now)
    ensures forall t :: t in out ==> t in m.Values && t in PruneIn(m, now).Values
    ensures forall t :: Minted(ttl, source, target, now, token) == Issued(t) ==> t in IssueIn(m, ttl, source, target, now, token).Values
  {
    forall t | t in out ensures t in m.Values && t in PruneIn(m, now).Values { assert m[t.ticket] == t && PruneIn(m, now)[t.ticket] == t; }
    forall t | Minted(ttl, source, target, now, token) == Issued(t) ensures t in IssueIn(m, ttl, source, target, now, token).Values {
      assert IssueIn(m, ttl, source, target, now, token)[t.ticket] == t;
    }
  }
}
