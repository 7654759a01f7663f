/** Authenticated probe and ack frames (internal/p2p/probe.go). */
module ProbeFrames {
  import opened GoStrings
  import opened GoTime
  import opened Crypto
  import opened ProbeTickets

  datatype Frame = Frame(protocol: Str, kind: Str, ticketID: Str, sourceNode: Str, targetNode: Str, nonce: Str, mac: Str)

  datatype Verdict = Valid | InvalidFrame | ExpiredTicket | AuthFailed

  datatype Made = Made(frame: Frame) | Failed(verdict: Verdict)

  /** "xray-mesh-p2p/1" */
  const PROTOCOL: Str := [120, 114, 97, 121, 45, 109, 101, 115, 104, 45, 112, 50, 112, 47, 49]
  /** "probe" */
  const PROBE: Str := [112, 114, 111, 98, 101]
  /** "probe_ack" */
  const ACK: Str := [112, 114, 111, 98, 101, 95, 97, 99, 107]

  /** `probeTicketSecret` */
  function Secret(ticket: ProbeTicket): Option<Str> {
    match Unhex(TrimSpace(ticket.ticket))
    case Some(b) => if |b| == KEY_SIZE then Some(b) else None
    case None => None
  }

  /** `TicketIdentifier` */
  function TicketIdentifier(c: Primitives, ticket: ProbeTicket): Option<Str> {
    match Secret(ticket)
    case Some(key) => Some(Hex(c.sha256(key)))
    case None => None
  }

  predicate Expired(ticket: ProbeTicket, now: Time) {
    !IsZero(ticket.expiresAt) && !(now < ticket.expiresAt)
  }

  predicate HexOf(s: Str, n: nat) {
    Unhex(s).Some? && |Unhex(s).value| == n
  }

  /** `validateProbeShape` */
  predicate Shaped(f: Frame) {
    && f.protocol == PROTOCOL && (f.kind == PROBE || f.kind == ACK)
    && TrimSpace(f.sourceNode) != [] && TrimSpace(f.targetNode) != [] && f.sourceNode != f.targetNode
    && HexOf(f.ticketID, 32) && HexOf(f.nonce, 16)
  }

  /** `validateSignedProbeShape` */
  predicate SignedShape(f: Frame) {
    Shaped(f) && HexOf(f.mac, 32)
  }

  /** The bytes `signProbeFrame` feeds to the MAC: six fields, each ended by a NUL. */
  function MacInput(f: Frame): Str {
    f.protocol + [0] + (f.kind + [0] + (f.ticketID + [0] + (f.sourceNode + [0] + (f.targetNode + [0] + (f.nonce + [0] + [])))))
  }

  function Signed(c: Primitives, f: Frame, key: Str): Frame {
    f.(mac := Hex(c.hmac(key, MacInput(f))))
  }

  /** `newProbeWithNonce` */
  function NewProbe(c: Primitives, ticket: ProbeTicket, nonce: Str): Made {
    match Secret(ticket)
    case None => Failed(AuthFailed)
    case Some(key) =>
      var f := Frame(PROTOCOL, PROBE, Hex(c.sha256(key)), ticket.sourceNode, ticket.targetNode, TrimSpace(nonce), []);
      if Shaped(f) then Made(Signed(c, f, key)) else Failed(InvalidFrame)
  }

  /** `verifyProbeAuth` */
  function VerifyAuth(c: Primitives, f: Frame, ticket: ProbeTicket, now: Time): Verdict {
    if Expired(ticket, now) then ExpiredTicket
    else match Secret(ticket)
      case None => AuthFailed
      case Some(key) =>
        if f.ticketID != Hex(c.sha256(key)) then AuthFailed
        else if Unhex(f.mac) != Some(c.hmac(key, MacInput(f))) then AuthFailed
        else Valid
  }

  function VerifyProbe(c: Primitives, f: Frame, ticket: ProbeTicket, now: Time): Verdict {
    if !SignedShape(f) || f.kind != PROBE then InvalidFrame
    else if f.sourceNode != ticket.sourceNode || f.targetNode != ticket.targetNode then AuthFailed
    else VerifyAuth(c, f, ticket, now)
  }

  /** `NewProbeAck` */
  function NewAck(c: Primitives, probe: Frame, ticket: ProbeTicket, now: Time): Made {
    var v := VerifyProbe(c, probe, ticket, now);
    if v != Valid then Failed(v)
    else
      var f := Frame(PROTOCOL, ACK, probe.ticketID, probe.targetNode, probe.sourceNode, probe.nonce, []);
      Made(Signed(c, f, Secret(ticket).value))
  }

  function VerifyAck(c: Primitives, ack: Frame, probe: Frame, ticket: ProbeTicket, now: Time): Verdict {
    var v := VerifyProbe(c, probe, ticket, now);
    if v != Valid then v
    else if !SignedShape(ack) then InvalidFrame
    else if ack.kind != ACK || ack.sourceNode != probe.targetNode || ack.targetNode != probe.sourceNode
            || ack.nonce != probe.nonce || ack.ticketID != probe.ticketID then AuthFailed
    else VerifyAuth(c, ack, ticket, now)
  }

  // ---- probe, ack, verify: the exchange completes -----------------------------------

  lemma SignedVerifies(c: Primitives, f: Frame, key: Str)
    requires HmacShape(c) && Shaped(f)
    ensures SignedShape(Signed(c, f, key)) && MacInput(Signed(c, f, key)) == MacInput(f)
    ensures Unhex(Signed(c, f, key).mac) == Some(c.hmac(key, MacInput(f)))
  {
    UnhexHex(c.hmac(key, MacInput(f)));
  }

  /** A probe made from a ticket is accepted by the other node, whose ack the prober accepts,
      for as long as the ticket lives. */
  lemma ExchangeCompletes(c: Primitives, ticket: ProbeTicket, nonce: Str, t1: Time, t2: Time)
    requires HmacShape(c) && NewProbe(c, ticket, nonce).Made? && !Expired(ticket, t1) && !Expired(ticket, t2)
    ensures var probe := NewProbe(c, ticket, nonce).frame;
            && VerifyProbe(c, probe, ticket, t1) == Valid
            && NewAck(c, probe, ticket, t1).Made?
            && VerifyAck(c, NewAck(c, probe, ticket, t1).frame, probe, ticket, t2) == Valid
  {
    var key := Secret(ticket).value;
    var f := Frame(PROTOCOL, PROBE, Hex(c.sha256(key)), ticket.sourceNode, ticket.targetNode, TrimSpace(nonce), []);
    SignedVerifies(c, f, key);
    var probe := Signed(c, f, key);
    var g := Frame(PROTOCOL, ACK, probe.ticketID, probe.targetNode, probe.sourceNode, probe.nonce, []);
    SignedVerifies(c, g, key);
  }

  // ---- the MAC input is unambiguous ------------------------------------------------------

  predicate NulFree(s: Str) {
    forall i :: 0 <= i < |s| ==> s[i] != 0
  }

  lemma StartsWithNul(a: Str, x: Str)
    requires NulFree(a)
    ensures (a + [0] + x)[0] == 0 <==> a == []
  {
  }

  /** A NUL-free string ends at the first NUL after it. */
  lemma {:induction false} NulEndsString(a: Str, b: Str, x: Str, y: Str)
    requires NulFree(a) && NulFree(b) && a + [0] + x == b + [0] + y
    ensures a == b && x == y
  {
    var l, r := a + [0] + x, b + [0] + y;
    StartsWithNul(a, x);
    StartsWithNul(b, y);
    if a == [] {
      assert x == l[1..] && y == r[1..];
    } else {
      assert l[0] == a[0] && r[0] == b[0];
      assert l[1..] == a[1..] + [0] + x && r[1..] == b[1..] + [0] + y;
      NulEndsString(a[1..], b[1..], x, y);
      assert a == [a[0]] + a[1..] && b == [b[0]] + b[1..];
    }
  }

  lemma {:induction false} HexIsNulFree(s: Str)
    requires Unhex(s).Some?
    ensures NulFree(s)
  {
    if |s| >= 2 {
      HexIsNulFree(s[2..]);
      forall i | 0 <= i < |s| ensures s[i] != 0 { if i >= 2 { assert s[i] == s[2..][i - 2]; } }
    }
  }

  predicate NodesNulFree(f: Frame) {
    NulFree(f.sourceNode) && NulFree(f.targetNode)
  }

  lemma ShapedIsNulFree(f: Frame)
    requires Shaped(f)
    ensures NulFree(f.protocol) && NulFree(f.kind) && NulFree(f.ticketID) && NulFree(f.nonce)
  {
    HexIsNulFree(f.ticketID);
    HexIsNulFree(f.nonce);
  }

  lemma NulAfter(a: Str, x: Str)
    ensures (a + [0] + x)[|a|] == 0 && (a + [0] + x)[..|a|] == a && (a + [0] + x)[|a| + 1..] == x
  {
  }

  /** A NUL-free string that is followed by a NUL ends at the first NUL. */
  lemma FirstNulLeast(a: Str, b: Str, x: Str, y: Str)
    requires NulFree(a) && a + [0] + x == b + [0] + y
    ensures |a| <= |b| && b[..|a|] == a
  {
    NulAfter(a, x);
    NulAfter(b, y);
    assert forall i :: 0 <= i < |a| ==> (a + [0] + x)[i] == a[i] != 0;
    assert b[..|a|] == (b + [0] + y)[..|a|];
  }

  lemma FirstNulSplits(a: Str, b: Str, x: Str, y: Str)
    requires NulFree(a) && a + [0] + x == b + [0] + y && a != b
    ensures |a| < |b| && x == b[|a| + 1..] + [0] + y
  {
    FirstNulLeast(a, b, x, y);
    assert b[..|b|] == b;
    NulAfter(a, x);
    assert (b + [0] + y)[|a| + 1..] == b[|a| + 1..] + [0] + y;
  }

  /** Two NUL-free strings, each ended by a NUL, can be read in no other way. */
  lemma NulPairUnique(s: Str, t: Str, rest: Str, s': Str, t': Str, rest': Str)
    requires NulFree(s) && NulFree(t) && |rest| == |rest'|
    requires s + [0] + (t + [0] + rest) == s' + [0] + (t' + [0] + rest')
    ensures s == s' && t == t' && rest == rest'
  {
    var x, y := t + [0] + rest, t' + [0] + rest';
    if s != s' {
      FirstNulSplits(s, s', x, y);
      FirstNulLeast(t, s'[|s| + 1..], rest, y);
      assert false;
    }
    NulAfter(s, x);
    NulAfter(s', y);
    NulAfter(t, rest);
    NulAfter(t', rest');
  }

  /** With a NUL in either of them there is a second reading. */
  lemma NulPairSplits(s: Str, t: Str, rest: Str) returns (s': Str, t': Str)
    requires !NulFree(s) || !NulFree(t)
    ensures (s', t') != (s, t) && s' + [0] + (t' + [0] + rest) == s + [0] + (t + [0] + rest)
  {
    if !NulFree(s) {
      var i :| 0 <= i < |s| && s[i] == 0;
      s', t' := s[..i], s[i + 1..] + [0] + t;
      assert s == s[..i] + [0] + s[i + 1..];
    } else {
      var i :| 0 <= i < |t| && t[i] == 0;
      s', t' := s + [0] + t[..i], t[i + 1..];
      assert t == t[..i] + [0] + t[i + 1..];
    }
  }

  lemma {:induction false} UnhexLength(s: Str)
    requires Unhex(s).Some?
    ensures |s| == 2 * |Unhex(s).value|
  {
    if |s| >= 2 { UnhexLength(s[2..]); }
  }

  /** The node fields of a MAC input, and what follows them. */
  function NodeFields(f: Frame): Str {
    f.sourceNode + [0] + (f.targetNode + [0] + (f.nonce + [0] + []))
  }

  lemma MacInputHead(f: Frame, g: Frame)
    requires Shaped(f) && Shaped(g) && MacInput(f) == MacInput(g)
    ensures f.protocol == g.protocol && f.kind == g.kind && f.ticketID == g.ticketID && |f.nonce| == |g.nonce|
    ensures NodeFields(f) == NodeFields(g)
  {
    ShapedIsNulFree(f);
    ShapedIsNulFree(g);
    UnhexLength(f.nonce);
    UnhexLength(g.nonce);
    var f4, g4 := f.ticketID + [0] + NodeFields(f), g.ticketID + [0] + NodeFields(g);
    NulEndsString(f.protocol, g.protocol, f.kind + [0] + f4, g.kind + [0] + g4);
    NulEndsString(f.kind, g.kind, f4, g4);
    NulEndsString(f.ticketID, g.ticketID, NodeFields(f), NodeFields(g));
  }

  /** The MAC input of a frame with NUL-free node IDs stands for no other frame. */
  lemma MacInputInjective(f: Frame, g: Frame)
    requires Shaped(f) && Shaped(g) && NodesNulFree(f)
    requires MacInput(f) == MacInput(g)
    ensures f.(mac := g.mac) == g
  {
    MacInputHead(f, g);
    var x, y := f.nonce + [0] + [], g.nonce + [0] + [];
    NulPairUnique(f.sourceNode, f.targetNode, x, g.sourceNode, g.targetNode, y);
    assert f.nonce == x[..|f.nonce|] && g.nonce == y[..|g.nonce|];
  }

  /** Exactly then: the node fields can be read in one way if and only if they hold no NUL. */
  lemma MacInputUnambiguousIff(f: Frame)
    ensures (forall s, t :: MacInput(f.(sourceNode := s, targetNode := t)) == MacInput(f) ==> s == f.sourceNode && t == f.targetNode)
            <==> NodesNulFree(f)
  {
    var rest, head := f.nonce + [0] + [], f.protocol + [0] + (f.kind + [0] + (f.ticketID + [0] + []));
    if NodesNulFree(f) {
      forall s, t | MacInput(f.(sourceNode := s, targetNode := t)) == MacInput(f) ensures s == f.sourceNode && t == f.targetNode {
        var g := f.(sourceNode := s, targetNode := t);
        assert MacInput(f) == head + NodeFields(f) && MacInput(g) == head + NodeFields(g);
        assert NodeFields(f) == MacInput(f)[|head|..] && NodeFields(g) == MacInput(g)[|head|..];
        NulPairUnique(f.sourceNode, f.targetNode, rest, s, t, rest);
      }
    } else {
      var s, t := NulPairSplits(f.sourceNode, f.targetNode, rest);
      assert MacInput(f.(sourceNode := s, targetNode := t)) == MacInput(f);
    }
  }

  /** Two strings that can be the nodes of a frame: not blank, not the same. */
  predicate Nodes(s: Str, t: Str) {
    TrimSpace(s) != [] && TrimSpace(t) != [] && s != t
  }

  /** No NUL but the one between them cuts the two IDs into another pair of nodes. */
  predicate OneReading(s: Str, t: Str) {
    var w := s + [0] + t;
    forall p | 0 <= p < |w| && w[p] == 0 && p != |s| :: !Nodes(w[..p], w[p + 1..])
  }

  lemma OneReadingNamesFrame(f: Frame, g: Frame)
    requires Shaped(f) && OneReading(f.sourceNode, f.targetNode) && Shaped(g) && MacInput(g) == MacInput(f)
    ensures f.(mac := g.mac) == g
  {
    MacInputHead(f, g);
    SameNodeFields(f, g);
  }

  lemma OtherFrame(f: Frame, p: nat)
    requires Shaped(f)
    requires var w := f.sourceNode + [0] + f.targetNode;
             p < |w| && w[p] == 0 && p != |f.sourceNode| && Nodes(w[..p], w[p + 1..])
    ensures var w := f.sourceNode + [0] + f.targetNode;
            var g := f.(sourceNode := w[..p], targetNode := w[p + 1..]);
            Shaped(g) && MacInput(g) == MacInput(f) && g.sourceNode != f.sourceNode
  {
    var w := f.sourceNode + [0] + f.targetNode;
    var g := f.(sourceNode := w[..p], targetNode := w[p + 1..]);
    var rest := f.nonce + [0] + [];
    assert w == w[..p] + [0] + w[p + 1..];
    assert NodeFields(f) == w + [0] + rest;
    assert NodeFields(g) == w[..p] + [0] + w[p + 1..] + [0] + rest;
    assert NodeFields(g) == NodeFields(f);
    assert |g.sourceNode| == p;
  }

  lemma OtherReadingOtherFrame(f: Frame) returns (g: Frame)
    requires Shaped(f) && !OneReading(f.sourceNode, f.targetNode)
    ensures Shaped(g) && MacInput(g) == MacInput(f) && g.sourceNode != f.sourceNode
  {
    var w := f.sourceNode + [0] + f.targetNode;
    var p :| 0 <= p < |w| && w[p] == 0 && p != |f.sourceNode| && Nodes(w[..p], w[p + 1..]);
    OtherFrame(f, p);
    g := f.(sourceNode := w[..p], targetNode := w[p + 1..]);
  }

  /** No other well-formed frame has this frame's MAC input. */
  ghost predicate NamesFrame(f: Frame) {
    forall g | Shaped(g) && MacInput(g) == MacInput(f) :: f.(mac := g.mac) == g
  }

  /** Among well-formed frames the condition is weaker, and this is exactly it: an ID may
      hold a NUL as long as cutting there leaves no pair of nodes. */
  lemma MacInputNamesFrameIff(f: Frame)
    requires Shaped(f)
    ensures NamesFrame(f) <==> OneReading(f.sourceNode, f.targetNode)
  {
    if OneReading(f.sourceNode, f.targetNode) {
      forall g | Shaped(g) && MacInput(g) == MacInput(f) ensures f.(mac := g.mac) == g { OneReadingNamesFrame(f, g); }
    } else {
      var g := OtherReadingOtherFrame(f);
    }
  }

  /** Both frames' node IDs, joined, and their nonces are the same. */
  lemma SameTail(w: Str, n: Str, v: Str, m: Str)
    requires w + [0] + (n + [0] + []) == v + [0] + (m + [0] + []) && |n| == |m|
    ensures w == v && n == m
  {
    var x, y := n + [0] + [], m + [0] + [];
    NulAfter(w, x);
    NulAfter(v, y);
    assert n == x[..|n|] && m == y[..|m|];
  }

  lemma NodeFieldsJoined(f: Frame)
    ensures NodeFields(f) == (f.sourceNode + [0] + f.targetNode) + [0] + (f.nonce + [0] + [])
  {
  }

  lemma SameNodeFields(f: Frame, g: Frame)
    requires Shaped(g) && NodeFields(f) == NodeFields(g) && |f.nonce| == |g.nonce| && OneReading(f.sourceNode, f.targetNode)
    ensures f.sourceNode == g.sourceNode && f.targetNode == g.targetNode && f.nonce == g.nonce
  {
    NodeFieldsJoined(f);
    NodeFieldsJoined(g);
    SameTail(f.sourceNode + [0] + f.targetNode, f.nonce, g.sourceNode + [0] + g.targetNode, g.nonce);
    NulAfter(f.sourceNode, f.targetNode);
    NulAfter(g.sourceNode, g.targetNode);
  }

  /** With a NUL in a node ID one MAC is good for two different pairs of nodes. */
  lemma MacInputAmbiguousWithNul(f: Frame)
    ensures MacInput(f.(sourceNode := [97], targetNode := [98, 0, 99])) ==
            MacInput(f.(sourceNode := [97, 0, 98], targetNode := [99]))
  {
    var rest := f.nonce + [0] + [];
    assert [97] + [0] + ([98, 0, 99] + [0] + rest) == [97, 0, 98] + [0] + ([99] + [0] + rest);
  }

  /** Tickets with different secrets have different identifiers. */
  lemma IdentifierNamesSecret(c: Primitives, t: ProbeTicket, u: ProbeTicket)
    requires ShaIdeal(c) && TicketIdentifier(c, t).Some? && TicketIdentifier(c, t) == TicketIdentifier(c, u)
    ensures Secret(t) == Secret(u)
  {
    HexInjective(c.sha256(Secret(t).value), c.sha256(Secret(u).value));
  }
}
