/** Properties of the lease registry over whole runs: any sequence of registrations,
    heartbeats and sweeps, with a random source that may fail but never repeats. */
module LeaseRuns {
  import opened GoStrings
  import opened GoTime
  import opened Ipv4Blocks
  import opened VirtualPool
  import opened LeaseRegistry

  /** One call on the registry.  A sweep at time T expires before T - ttl
      (cmd/server/main.go:142). */
  datatype Op =
    | Register(nodeID: Str, at: Time, token: Option<Str>)
    | Touch(session: Str, at: Time)
    | Sweep(at: Time)

  datatype Config = Config(prefix: Block, ttl: int)

  predicate Draws(op: Op, token: Str) {
    op.Register? && op.token == Some(token)
  }

  predicate FreshTokens(ops: seq<Op>) {
    forall i, j :: 0 <= i < j < |ops| && ops[i].Register? && ops[i].token.Some? ==> !Draws(ops[j], ops[i].token.value)
  }

  ghost predicate Drawn(ops: seq<Op>, token: Str) {
    exists i :: 0 <= i < |ops| && Draws(ops[i], token)
  }

  ghost function Apply(c: Config, l: Leases, op: Op): Leases
    requires PoolPrefix(l.prefix) && 2 <= l.next <= Last(l.prefix.bits)
  {
    match op
    case Register(n, at, token) => RegisterIn(l, n, at, token).0
    case Touch(session, at) => TouchIn(l, session, at)
    case Sweep(at) => ExpireIn(l, at - c.ttl)
  }

  ghost predicate FromDrawn(l: Leases, ops: seq<Op>) {
    forall n :: n in l.peers ==> Drawn(ops, l.peers[n].sessionToken)
  }

  /** m is the set of leases after the call. */
  ghost predicate Step(c: Config, l: Leases, op: Op, m: Leases) {
    && PoolPrefix(l.prefix) && 2 <= l.next <= Last(l.prefix.bits)
    && m == Apply(c, l, op)
  }

  /** states[k] are the leases before call number k. */
  ghost predicate Run(c: Config, ops: seq<Op>, states: seq<Leases>) {
    && PoolPrefix(c.prefix) && FreshTokens(ops)
    && |states| == |ops| + 1 && states[0] == Leases(c.prefix, 2, map[])
    && forall k: nat | k < |ops| :: Follows(c, ops, states, k)
  }

  ghost predicate Follows(c: Config, ops: seq<Op>, states: seq<Leases>, k: nat)
    requires |states| == |ops| + 1 && k < |ops|
  {
    Step(c, states[k], ops[k], states[k + 1])
  }

  lemma StepAt(c: Config, ops: seq<Op>, states: seq<Leases>, k: nat)
    requires Run(c, ops, states) && k < |ops|
    ensures Step(c, states[k], ops[k], states[k + 1])
  {
    assert Follows(c, ops, states, k);
  }

  // ---- one step ------------------------------------------------------------------

  /** A lease after a step was there before, with the same address and token, or was
      made by this step with a token it drew. */
  lemma StepTokens(c: Config, l: Leases, op: Op, m: Leases, n: Str)
    requires LeasesValid(l) && Step(c, l, op, m) && n in m.peers
    ensures || (n in l.peers && l.peers[n].sessionToken == m.peers[n].sessionToken
                && l.peers[n].virtualIP == m.peers[n].virtualIP)
            || (n !in l.peers && Draws(op, m.peers[n].sessionToken))
  {
  }

  lemma RegisterIsValid(c: Config, l: Leases, op: Op)
    requires LeasesValid(l) && PoolPrefix(l.prefix) && 2 <= l.next <= Last(l.prefix.bits) && op.Register?
    requires op.token.Some? ==> !TokenInUse(l, op.token.value)
    ensures LeasesValid(Apply(c, l, op)) && Apply(c, l, op).prefix == l.prefix
  {
    RegisterKeepsValid(l, op.nodeID, op.at, op.token);
  }

  lemma TouchIsValid(c: Config, l: Leases, op: Op)
    requires LeasesValid(l) && PoolPrefix(l.prefix) && 2 <= l.next <= Last(l.prefix.bits) && op.Touch?
    ensures LeasesValid(Apply(c, l, op)) && Apply(c, l, op).prefix == l.prefix
  {
    TouchKeepsValid(l, op.session, op.at);
  }

  lemma SweepApplies(c: Config, l: Leases, op: Op)
    requires PoolPrefix(l.prefix) && 2 <= l.next <= Last(l.prefix.bits) && op.Sweep?
    ensures Apply(c, l, op) == Without(l, ExpiredNodes(l, op.at - c.ttl))
  {
  }

  lemma SweepIsValid(c: Config, l: Leases, op: Op)
    requires LeasesValid(l) && PoolPrefix(l.prefix) && 2 <= l.next <= Last(l.prefix.bits) && op.Sweep?
    ensures LeasesValid(Apply(c, l, op)) && Apply(c, l, op).prefix == l.prefix
  {
    SweepApplies(c, l, op);
    RemoveKeepsValid(l, ExpiredNodes(l, op.at - c.ttl));
  }

  lemma ApplyIsValid(c: Config, l: Leases, op: Op)
    requires LeasesValid(l) && PoolPrefix(l.prefix) && 2 <= l.next <= Last(l.prefix.bits)
    requires op.Register? && op.token.Some? ==> !TokenInUse(l, op.token.value)
    ensures LeasesValid(Apply(c, l, op)) && Apply(c, l, op).prefix == l.prefix
  {
    if op.Register? { RegisterIsValid(c, l, op); }
    else if op.Touch? { TouchIsValid(c, l, op); }
    else { SweepIsValid(c, l, op); }
  }

  ghost predicate Holds(l: Leases, node: Str, token: Str) {
    node in l.peers && l.peers[node].sessionToken == token
  }

  lemma ByTokenIs(l: Leases, node: Str, token: Str)
    requires LeasesValid(l) && Holds(l, node, token)
    ensures ByToken(l, token) == Some(l.peers[node])
  {
    assert TokenInUse(l, token);
  }

  /** The call refreshes the lease of this node. */
  predicate Refreshes(op: Op, node: Str, token: Str) {
    (op.Register? && TrimSpace(op.nodeID) == node) || (op.Touch? && op.session == token)
  }

  /** A sweep at time T removes a node if and only if T - LastSeen >= ttl; nothing else does. */
  lemma StepOfHolder(c: Config, l: Leases, op: Op, m: Leases, node: Str, token: Str)
    requires LeasesValid(l) && Step(c, l, op, m) && Holds(l, node, token)
    ensures Refreshes(op, node, token) ==> Holds(m, node, token) && m.peers[node].lastSeen == op.at
    ensures !Refreshes(op, node, token) && node in m.peers ==> m.peers[node] == l.peers[node]
    ensures node !in m.peers <==> op.Sweep? && op.at - l.peers[node].lastSeen >= c.ttl
  {
    ByTokenIs(l, node, token);
    match op
    case Register(n, at, t) =>
    case Touch(session, at) =>
      if TokenInUse(l, session) {
        var p := ByToken(l, session).value;
        assert p.nodeID == node ==> session == token;
      }
    case Sweep(at) =>
  }

  lemma StepOfAbsent(c: Config, l: Leases, op: Op, m: Leases, node: Str)
    requires LeasesValid(l) && Step(c, l, op, m) && node !in l.peers
    requires !(op.Register? && TrimSpace(op.nodeID) == node)
    ensures node !in m.peers
  {
  }

  // ---- every reachable set of leases is one-to-one --------------------------------------

  lemma {:induction false} ReachableLeasesValid(c: Config, ops: seq<Op>, states: seq<Leases>, k: nat)
    requires Run(c, ops, states) && k <= |ops|
    ensures LeasesValid(states[k]) && states[k].prefix == c.prefix
    ensures FromDrawn(states[k], ops[..k])
  {
    if k == 0 {
      LastIsBroadcast(c.prefix.bits);
    } else {
      ReachableLeasesValid(c, ops, states, k - 1);
      StepAt(c, ops, states, k - 1);
      StepKeepsReachable(c, ops, k - 1, states[k - 1], states[k]);
    }
  }

  lemma StepKeepsReachable(c: Config, ops: seq<Op>, k: nat, l: Leases, m: Leases)
    requires FreshTokens(ops) && k < |ops| && Step(c, l, ops[k], m) && LeasesValid(l) && FromDrawn(l, ops[..k])
    ensures LeasesValid(m) && m.prefix == l.prefix && FromDrawn(m, ops[..k + 1])
  {
    if ops[k].Register? && ops[k].token.Some? { DrawnOnce(ops, k); }
    ApplyIsValid(c, l, ops[k]);
    forall n | n in m.peers ensures Drawn(ops[..k + 1], m.peers[n].sessionToken) {
      StepTokens(c, l, ops[k], m, n);
      DrawnMore(ops, k, m.peers[n].sessionToken);
    }
  }

  lemma DrawnMore(ops: seq<Op>, k: nat, token: Str)
    requires k < |ops|
    ensures Drawn(ops[..k], token) || Draws(ops[k], token) ==> Drawn(ops[..k + 1], token)
  {
    if d :| 0 <= d < k && Draws(ops[..k][d], token) { assert ops[..k + 1][d] == ops[d]; }
    assert ops[..k + 1][k] == ops[k];
  }

  lemma DrawnOnce(ops: seq<Op>, k: nat)
    requires FreshTokens(ops) && k < |ops| && ops[k].Register? && ops[k].token.Some?
    ensures !Drawn(ops[..k], ops[k].token.value)
  {
    forall d | 0 <= d < k ensures !Draws(ops[..k][d], ops[k].token.value) { assert ops[..k][d] == ops[d]; }
  }

  lemma StepTokensAt(c: Config, ops: seq<Op>, states: seq<Leases>, k: nat, n: Str)
    requires Run(c, ops, states) && k < |ops| && n in states[k + 1].peers
    ensures || (n in states[k].peers && states[k].peers[n].sessionToken == states[k + 1].peers[n].sessionToken
                && states[k].peers[n].virtualIP == states[k + 1].peers[n].virtualIP)
            || (n !in states[k].peers && Draws(ops[k], states[k + 1].peers[n].sessionToken))
  {
    ReachableLeasesValid(c, ops, states, k);
    StepAt(c, ops, states, k);
    StepTokens(c, states[k], ops[k], states[k + 1], n);
  }

  // ---- identity is stable ----------------------------------------------------------------

  /** A node's address and token do not change while its lease lives. */
  lemma {:induction false} LiveNodeKeepsIdentity(c: Config, ops: seq<Op>, states: seq<Leases>, i: nat, j: nat, node: Str)
    requires Run(c, ops, states) && i <= j <= |ops|
    requires forall k :: i <= k <= j ==> node in states[k].peers
    ensures states[i].peers[node].virtualIP == states[j].peers[node].virtualIP
    ensures states[i].peers[node].sessionToken == states[j].peers[node].sessionToken
    decreases j
  {
    if i < j {
      LiveNodeKeepsIdentity(c, ops, states, i, j - 1, node);
      StepTokensAt(c, ops, states, j - 1, node);
    }
  }

  /** Once a token is no lease's token, it authenticates no request ever again. */
  lemma {:induction false} SpentTokenStaysSpent(c: Config, ops: seq<Op>, states: seq<Leases>, i: nat, j: nat, token: Str)
    requires Run(c, ops, states) && i <= j <= |ops|
    requires Drawn(ops[..i], token) && !TokenInUse(states[i], token)
    ensures ByToken(states[j], token) == None
    decreases j
  {
    if i < j {
      SpentTokenStaysSpent(c, ops, states, i, j - 1, token);
      var d :| 0 <= d < i && Draws(ops[..i][d], token);
      assert ops[d] == ops[..i][d] && !Draws(ops[j - 1], token);
      forall n | n in states[j].peers ensures states[j].peers[n].sessionToken != token {
        StepTokensAt(c, ops, states, j - 1, n);
      }
    }
  }

  // ---- lease timing -----------------------------------------------------------------------

  predicate ClockRuns(ops: seq<Op>) {
    forall i, j :: 0 <= i <= j < |ops| ==> ops[i].at <= ops[j].at
  }

  /** Every sweep after step i comes less than ttl after some refresh of the node. */
  predicate RefreshedInTime(c: Config, ops: seq<Op>, i: nat, node: Str, token: Str) {
    forall k :: i < k < |ops| && ops[k].Sweep? ==> RefreshedBefore(c, ops, i, k, node, token)
  }

  predicate RefreshedBefore(c: Config, ops: seq<Op>, i: nat, k: nat, node: Str, token: Str)
    requires k < |ops|
  {
    exists r :: i <= r < k && Refreshes(ops[r], node, token) && ops[k].at - ops[r].at < c.ttl
  }

  /** The node holds its lease and no refresh so far is later than what the lease shows. */
  ghost predicate Kept(ops: seq<Op>, i: nat, k: nat, node: Str, token: Str, l: Leases)
    requires k <= |ops|
  {
    Holds(l, node, token) && forall r :: i <= r < k && Refreshes(ops[r], node, token) ==> ops[r].at <= l.peers[node].lastSeen
  }

  /** A node whose refresh gaps stay below the TTL keeps its lease, under the same token,
      for the rest of the run. */
  lemma {:induction false} RefreshedNodeKeepsLease(
      c: Config, ops: seq<Op>, states: seq<Leases>, i: nat, j: nat, node: Str, token: Str)
    requires Run(c, ops, states) && ClockRuns(ops) && i < j <= |ops|
    requires Refreshes(ops[i], node, token) && Holds(states[i + 1], node, token)
    requires states[i + 1].peers[node].lastSeen == ops[i].at
    requires RefreshedInTime(c, ops, i, node, token)
    ensures Kept(ops, i, j, node, token, states[j])
    decreases j
  {
    if i + 1 < j {
      RefreshedNodeKeepsLease(c, ops, states, i, j - 1, node, token);
      KeptNext(c, ops, states, i, j - 1, node, token);
    }
  }

  lemma KeptNext(c: Config, ops: seq<Op>, states: seq<Leases>, i: nat, k: nat, node: Str, token: Str)
    requires Run(c, ops, states) && ClockRuns(ops) && i <= k < |ops| && Kept(ops, i, k, node, token, states[k])
    requires ops[k].Sweep? ==> RefreshedBefore(c, ops, i, k, node, token)
    ensures Kept(ops, i, k + 1, node, token, states[k + 1])
  {
    if ops[k].Sweep? { SweepSpares(c, ops, i, k, node, token, states[k].peers[node].lastSeen); }
    RefreshTurn(c, ops, states, k, node, token);
  }

  lemma SweepSpares(c: Config, ops: seq<Op>, i: nat, k: nat, node: Str, token: Str, lastSeen: Time)
    requires k < |ops| && RefreshedBefore(c, ops, i, k, node, token)
    requires forall r :: i <= r < k && Refreshes(ops[r], node, token) ==> ops[r].at <= lastSeen
    ensures ops[k].at - lastSeen < c.ttl
  {
  }

  lemma RefreshTurn(c: Config, ops: seq<Op>, states: seq<Leases>, k: nat, node: Str, token: Str)
    requires Run(c, ops, states) && k < |ops| && Holds(states[k], node, token)
    requires ops[k].Sweep? ==> ops[k].at - states[k].peers[node].lastSeen < c.ttl
    ensures Holds(states[k + 1], node, token)
    ensures states[k + 1].peers[node].lastSeen ==
              if Refreshes(ops[k], node, token) then ops[k].at else states[k].peers[node].lastSeen
  {
    ReachableLeasesValid(c, ops, states, k);
    StepAt(c, ops, states, k);
    StepOfHolder(c, states[k], ops[k], states[k + 1], node, token);
  }

  lemma {:induction false} SilentNodeUnchanged(
      c: Config, ops: seq<Op>, states: seq<Leases>, r: nat, k: nat, node: Str, token: Str)
    requires Run(c, ops, states) && r < k <= |ops| && Holds(states[r + 1], node, token)
    requires forall q :: r < q < k ==> !Refreshes(ops[q], node, token)
    ensures node in states[k].peers ==> states[k].peers[node] == states[r + 1].peers[node]
    decreases k
  {
    if r + 1 < k {
      SilentNodeUnchanged(c, ops, states, r, k - 1, node, token);
      ReachableLeasesValid(c, ops, states, k - 1);
      StepAt(c, ops, states, k - 1);
      if node in states[k - 1].peers {
        StepOfHolder(c, states[k - 1], ops[k - 1], states[k], node, token);
      } else {
        StepOfAbsent(c, states[k - 1], ops[k - 1], states[k], node);
      }
    }
  }

  /** After its last refresh at step r, a node is gone once a sweep comes ttl later. */
  lemma SilentNodeExpires(c: Config, ops: seq<Op>, states: seq<Leases>, r: nat, k: nat, node: Str, token: Str)
    requires Run(c, ops, states) && r < k < |ops| && Holds(states[r + 1], node, token)
    requires states[r + 1].peers[node].lastSeen == ops[r].at
    requires forall q :: r < q <= k ==> !Refreshes(ops[q], node, token)
    requires ops[k].Sweep? && ops[k].at - ops[r].at >= c.ttl
    ensures node !in states[k + 1].peers
  {
    SilentNodeUnchanged(c, ops, states, r, k, node, token);
    ReachableLeasesValid(c, ops, states, k);
    StepAt(c, ops, states, k);
    if node in states[k].peers {
      StepOfHolder(c, states[k], ops[k], states[k + 1], node, token);
    } else {
      StepOfAbsent(c, states[k], ops[k], states[k + 1], node);
    }
  }

  // ---- the sweeper's ticks ----------------------------------------------------------------

  /** `runLeaseSweeper`'s interval. */
  function TickInterval(heartbeat: int, ttl: int): int
    requires ttl >= 0
  {
    var third := ttl / 3;
    if third > 0 && third < heartbeat then third else heartbeat
  }

  /** The heartbeat interval, or the longest time of which three fit into the TTL if that is
      shorter and not nothing. */
  lemma TickIntervalIs(heartbeat: int, ttl: int, third: int)
    requires ttl >= 0 && 3 * third <= ttl < 3 * third + 3
    ensures TickInterval(heartbeat, ttl) == if 0 < third < heartbeat then third else heartbeat
  {
  }

  lemma {:induction false} TickWithin(start: Time, interval: int, deadline: Time) returns (k: nat)
    requires interval > 0 && start < deadline
    ensures k >= 1 && deadline <= start + k * interval < deadline + interval
    decreases deadline - start
  {
    if deadline <= start + interval {
      k := 1;
    } else {
      k := TickWithin(start + interval, interval, deadline);
      assert (k + 1) * interval == k * interval + interval;
      k := k + 1;
    }
  }

  /** The sweeper's k-th tick. */
  function Tick(start: Time, interval: int, k: nat): Time {
    start + k * interval
  }

  /** With the coordinator's settings some tick falls at least a TTL after a moment and at
      most 4/3 of the TTL after it. */
  lemma TickAfterTTL(start: Time, heartbeat: int, ttl: int, lastSeen: Time) returns (k: nat)
    requires SECOND <= heartbeat < ttl && start < lastSeen + ttl
    ensures k >= 1 && Tick(start, TickInterval(heartbeat, ttl), k) - lastSeen >= ttl
    ensures 3 * (Tick(start, TickInterval(heartbeat, ttl), k) - lastSeen) <= 4 * ttl
  {
    k := TickWithin(start, TickInterval(heartbeat, ttl), lastSeen + ttl);
  }

  predicate SweptAt(ops: seq<Op>, at: Time) {
    exists q :: 0 <= q < |ops| && ops[q] == Sweep(at)
  }

  /** Every tick up to the last call is a sweep of the run. */
  ghost predicate TicksSwept(ops: seq<Op>, start: Time, interval: int) {
    forall k: nat | k >= 1 && ops != [] && Tick(start, interval, k) <= ops[|ops| - 1].at :: SweptAt(ops, Tick(start, interval, k))
  }

  lemma {:induction false} AbsentStaysAbsent(
      c: Config, ops: seq<Op>, states: seq<Leases>, i: nat, j: nat, node: Str, token: Str)
    requires Run(c, ops, states) && i <= j <= |ops| && node !in states[i].peers
    requires forall q :: i <= q < j ==> !Refreshes(ops[q], node, token)
    ensures node !in states[j].peers
    decreases j
  {
    if i < j {
      AbsentStaysAbsent(c, ops, states, i, j - 1, node, token);
      ReachableLeasesValid(c, ops, states, j - 1);
      StepAt(c, ops, states, j - 1);
      StepOfAbsent(c, states[j - 1], ops[j - 1], states[j], node);
    }
  }

  lemma LaterCall(ops: seq<Op>, i: nat, j: nat)
    requires ClockRuns(ops) && i < |ops| && j < |ops| && ops[i].at < ops[j].at
    ensures i < j
  {
  }

  /** In every run swept at the sweeper's ticks, a node silent since step r holds no lease
      once 4/3 of the TTL has passed. */
  lemma SilentNodeGoneByFourThirds(
      c: Config, ops: seq<Op>, states: seq<Leases>, r: nat, node: Str, token: Str, start: Time, heartbeat: int)
    requires Run(c, ops, states) && ClockRuns(ops) && SECOND <= heartbeat < c.ttl
    requires r < |ops| && Holds(states[r + 1], node, token) && states[r + 1].peers[node].lastSeen == ops[r].at
    requires forall q :: r < q < |ops| ==> !Refreshes(ops[q], node, token)
    requires start < ops[r].at + c.ttl && TicksSwept(ops, start, TickInterval(heartbeat, c.ttl))
    requires 3 * (ops[|ops| - 1].at - ops[r].at) >= 4 * c.ttl
    ensures node !in states[|ops|].peers
  {
    var k := TickAfterTTL(start, heartbeat, c.ttl, ops[r].at);
    var tick := Tick(start, TickInterval(heartbeat, c.ttl), k);
    var q :| 0 <= q < |ops| && ops[q] == Sweep(tick);
    LaterCall(ops, r, q);
    SilentNodeExpires(c, ops, states, r, q, node, token);
    AbsentStaysAbsent(c, ops, states, q + 1, |ops|, node, token);
  }
}
