/** The coordinator's lease registry (internal/mesh/registry.go): five maps in two
    objects that must describe one set of leases. */
module LeaseRegistry {
  import opened FiniteSets
  import opened GoStrings
  import opened GoTime
  import opened Ipv4Blocks
  import opened VirtualPool
  import opened Sorting

  datatype Peer = Peer(nodeID: Str, virtualIP: Addr, sessionToken: Str, lastSeen: Time)

  datatype RegisterResult = Registered(peer: Peer) | InvalidNodeID | PoolExhausted | TokenFailed

  // ---- the set of leases as a value ----------------------------------------------

  datatype Leases = Leases(prefix: Block, next: nat, peers: map<Str, Peer>)

  function PoolOf(l: Leases): Pool {
    Pool(l.prefix, l.next, map n | n in l.peers :: l.peers[n].virtualIP)
  }

  /** One lease per node, one address and one token per lease. */
  ghost predicate LeasesValid(l: Leases) {
    && PoolValid(PoolOf(l))
    && (forall n :: n in l.peers ==> l.peers[n].nodeID == n && n != [] && Trimmed(n))
    && (forall m, n :: m in l.peers && n in l.peers && l.peers[m].sessionToken == l.peers[n].sessionToken ==> m == n)
  }

  ghost predicate TokenInUse(l: Leases, token: Str) {
    exists n :: n in l.peers && l.peers[n].sessionToken == token
  }

  ghost predicate AddressInUse(l: Leases, ip: Addr) {
    exists n :: n in l.peers && l.peers[n].virtualIP == ip
  }

  ghost function ByToken(l: Leases, token: Str): Option<Peer> {
    if TokenInUse(l, token) then var n :| n in l.peers && l.peers[n].sessionToken == token; Some(l.peers[n]) else None
  }

  ghost function ByAddress(l: Leases, ip: Addr): Option<Peer> {
    if AddressInUse(l, ip) then var n :| n in l.peers && l.peers[n].virtualIP == ip; Some(l.peers[n]) else None
  }

  /** `registerAt`.  `token` is what the random source returns, None if it fails; the
      cursor stays advanced when the allocation is undone. */
  function RegisterIn(l: Leases, nodeID: Str, seenAt: Time, token: Option<Str>): (Leases, RegisterResult)
    requires PoolPrefix(l.prefix) && 2 <= l.next <= Last(l.prefix.bits)
  {
    var node := TrimSpace(nodeID);
    if node == [] then (l, InvalidNodeID)
    else if node in l.peers then
      var peer := l.peers[node].(lastSeen := seenAt);
      (l.(peers := l.peers[node := peer]), Registered(peer))
    else NewLeaseIn(l, node, seenAt, token)
  }

  function NewLeaseIn(l: Leases, node: Str, seenAt: Time, token: Option<Str>): (Leases, RegisterResult)
    requires PoolPrefix(l.prefix) && 2 <= l.next <= Last(l.prefix.bits)
  {
    var (pool, ip) := AllocateIn(PoolOf(l), node);
    match (ip, token)
    case (None, _) => (l, PoolExhausted)
    case (Some(_), None) => (l.(next := pool.next), TokenFailed)
    case (Some(a), Some(t)) =>
      var peer := Peer(node, a, t, seenAt);
      (l.(next := pool.next, peers := l.peers[node := peer]), Registered(peer))
  }

  ghost function TouchIn(l: Leases, token: Str, seenAt: Time): Leases {
    match ByToken(l, token)
    case None => l
    case Some(p) => l.(peers := l.peers[p.nodeID := p.(lastSeen := seenAt)])
  }

  predicate ExpiredAt(p: Peer, cutoff: Time) {
    p.lastSeen <= cutoff
  }

  function ExpireIn(l: Leases, cutoff: Time): Leases {
    l.(peers := l.peers - ExpiredNodes(l, cutoff))
  }

  // ---- the effect of one change on the derived maps ------------------------------

  lemma PoolOfAdd(l: Leases, next: nat, node: Str, peer: Peer)
    requires node !in l.peers
    ensures PoolOf(Leases(l.prefix, next, l.peers[node := peer])) ==
            Pool(l.prefix, next, PoolOf(l).byNode[node := peer.virtualIP])
  {
  }

  lemma PoolOfRefresh(l: Leases, node: Str, seenAt: Time)
    requires node in l.peers
    ensures PoolOf(l.(peers := l.peers[node := l.peers[node].(lastSeen := seenAt)])) == PoolOf(l)
  {
  }

  lemma PoolOfRemove(l: Leases, nodes: set<Str>)
    ensures PoolOf(l.(peers := l.peers - nodes)) == PoolOf(l).(byNode := PoolOf(l).byNode - nodes)
  {
  }

  lemma AddKeepsValid(l: Leases, next: nat, node: Str, peer: Peer)
    requires LeasesValid(l) && node !in l.peers && peer.nodeID == node && node != [] && Trimmed(node)
    requires PoolValid(Pool(l.prefix, next, PoolOf(l).byNode[node := peer.virtualIP]))
    requires !TokenInUse(l, peer.sessionToken)
    ensures LeasesValid(Leases(l.prefix, next, l.peers[node := peer]))
  {
    PoolOfAdd(l, next, node, peer);
  }

  lemma RefreshKeepsValid(l: Leases, node: Str, seenAt: Time)
    requires LeasesValid(l) && node in l.peers
    ensures LeasesValid(l.(peers := l.peers[node := l.peers[node].(lastSeen := seenAt)]))
  {
    PoolOfRefresh(l, node, seenAt);
  }

  lemma RemoveKeepsValid(l: Leases, nodes: set<Str>)
    requires LeasesValid(l)
    ensures LeasesValid(l.(peers := l.peers - nodes))
  {
    PoolOfRemove(l, nodes);
  }

  lemma CursorKeepsValid(l: Leases, node: Str)
    requires LeasesValid(l) && node !in l.peers
    ensures LeasesValid(l.(next := AllocateIn(PoolOf(l), node).0.next))
  {
    AllocateKeepsValid(PoolOf(l), node);
    var m := l.(next := AllocateIn(PoolOf(l), node).0.next);
    assert PoolOf(m).byNode == PoolOf(l).byNode;
  }

  lemma NewLeaseKeepsValid(l: Leases, node: Str, seenAt: Time, token: Option<Str>)
    requires LeasesValid(l) && (token.Some? ==> !TokenInUse(l, token.value))
    requires node !in l.peers && node != [] && Trimmed(node)
    ensures LeasesValid(NewLeaseIn(l, node, seenAt, token).0)
  {
    var (pool, ip) := AllocateIn(PoolOf(l), node);
    if ip.Some? && token.Some? {
      AllocateKeepsValid(PoolOf(l), node);
      AddKeepsValid(l, pool.next, node, Peer(node, ip.value, token.value, seenAt));
    } else {
      CursorKeepsValid(l, node);
    }
  }

  lemma RegisterKeepsValid(l: Leases, nodeID: Str, seenAt: Time, token: Option<Str>)
    requires LeasesValid(l) && (token.Some? ==> !TokenInUse(l, token.value))
    ensures LeasesValid(RegisterIn(l, nodeID, seenAt, token).0)
  {
    var node := TrimSpace(nodeID);
    TrimSpaceTrims(nodeID);
    if node != [] && node in l.peers {
      RefreshKeepsValid(l, node, seenAt);
    } else if node != [] {
      NewLeaseKeepsValid(l, node, seenAt, token);
    }
  }

  /** What a caller of `registerAt` is told, l being the leases before and m those after. */
  ghost predicate RegisterAnswered(l: Leases, m: Leases, node: Str, seenAt: Time, token: Option<Str>, r: RegisterResult)
    requires PoolPrefix(l.prefix)
  {
    && (r.Registered? ==> AnswersLease(l, m, node, seenAt, token, r.peer))
    && (!r.Registered? ==> m.peers == l.peers)
    && (r == InvalidNodeID <==> node == [])
    && (r == PoolExhausted <==> node != [] && node !in l.peers && |l.peers| == Hosts(l.prefix))
    && (r == TokenFailed <==> node != [] && node !in l.peers && |l.peers| < Hosts(l.prefix) && token == None)
  }

  /** The peer in the answer is the one stored: its token authenticates it, its address finds
      it.  A node with a lease keeps address and token; a new one has the token drawn. */
  ghost predicate AnswersLease(l: Leases, m: Leases, node: Str, seenAt: Time, token: Option<Str>, peer: Peer) {
    && peer.nodeID == node && peer.lastSeen == seenAt && m.peers == l.peers[node := peer]
    && ByToken(m, peer.sessionToken) == Some(peer) && ByAddress(m, peer.virtualIP) == Some(peer)
    && if node in l.peers then peer.virtualIP == l.peers[node].virtualIP && peer.sessionToken == l.peers[node].sessionToken
       else token == Some(peer.sessionToken) && !AddressInUse(l, peer.virtualIP)
  }

  lemma HolderFound(l: Leases, node: Str)
    requires LeasesValid(l) && node in l.peers
    ensures ByToken(l, l.peers[node].sessionToken) == Some(l.peers[node]) && ByAddress(l, l.peers[node].virtualIP) == Some(l.peers[node])
  {
    assert TokenInUse(l, l.peers[node].sessionToken) && AddressInUse(l, l.peers[node].virtualIP);
    AddressHolderUnique(l, l.peers[node].virtualIP);
  }

  lemma PoolIsFull(l: Leases, node: Str)
    requires LeasesValid(l) && node !in l.peers
    ensures AllocateIn(PoolOf(l), node).1.None? <==> |l.peers| == Hosts(l.prefix)
    ensures |l.peers| <= Hosts(l.prefix)
    ensures AllocateIn(PoolOf(l), node).1.Some? ==> !AddressInUse(l, AllocateIn(PoolOf(l), node).1.value)
  {
    assert PoolOf(l).byNode.Keys == l.peers.Keys;
    ExhaustedIffFull(PoolOf(l), node);
    HostRangeSize(PoolOf(l));
    SubsetSize(Leased(PoolOf(l)), HostRange(l.prefix));
    if AllocateIn(PoolOf(l), node).1.Some? {
      AllocatedIsFresh(PoolOf(l), node);
      forall n | n in l.peers ensures l.peers[n].virtualIP in Leased(PoolOf(l)) { assert PoolOf(l).byNode[n] == l.peers[n].virtualIP; }
    }
  }

  lemma RegisterAnswers(l: Leases, nodeID: Str, seenAt: Time, token: Option<Str>)
    requires LeasesValid(l) && (token.Some? ==> !TokenInUse(l, token.value))
    ensures RegisterAnswered(l, RegisterIn(l, nodeID, seenAt, token).0, TrimSpace(nodeID), seenAt, token, RegisterIn(l, nodeID, seenAt, token).1)
  {
    var node := TrimSpace(nodeID);
    var (m, r) := RegisterIn(l, nodeID, seenAt, token);
    RegisterKeepsValid(l, nodeID, seenAt, token);
    if node != [] && node !in l.peers { PoolIsFull(l, node); }
    if r.Registered? { HolderFound(m, node); }
  }

  lemma TouchKeepsValid(l: Leases, token: Str, seenAt: Time)
    requires LeasesValid(l)
    ensures LeasesValid(TouchIn(l, token, seenAt))
  {
    match ByToken(l, token)
    case None =>
    case Some(p) => RefreshKeepsValid(l, p.nodeID, seenAt);
  }

  function ExpiredNodes(l: Leases, cutoff: Time): set<Str> {
    set n | n in l.peers && ExpiredAt(l.peers[n], cutoff)
  }

  lemma ExpireKeepsValid(l: Leases, cutoff: Time)
    requires LeasesValid(l)
    ensures LeasesValid(ExpireIn(l, cutoff))
  {
    RemoveKeepsValid(l, ExpiredNodes(l, cutoff));
  }

  function Without(l: Leases, nodes: set<Str>): Leases {
    l.(peers := l.peers - nodes)
  }

  lemma NothingGone(l: Leases)
    ensures Without(l, {}) == l
  {
    assert l.peers - {} == l.peers;
  }

  /** The state of the expiry loop: `gone` are the expired among the nodes visited. */
  ghost predicate Sweeping(before: Leases, cutoff: Time, todo: set<Str>, gone: set<Str>, expired: seq<Peer>) {
    && todo <= before.peers.Keys
    && gone == ExpiredNodes(before, cutoff) - todo
    && Gathered(expired, before.peers, gone)
  }

  lemma SweepTurn(before: Leases, cutoff: Time, todo: set<Str>, gone: set<Str>, expired: seq<Peer>, nodeID: Str)
    requires LeasesValid(before) && Sweeping(before, cutoff, todo, gone, expired) && nodeID in todo
    ensures nodeID in Without(before, gone).peers && Without(before, gone).peers[nodeID] == before.peers[nodeID]
    ensures var now := ExpiredAt(before.peers[nodeID], cutoff);
            if now then
              && Sweeping(before, cutoff, todo - {nodeID}, gone + {nodeID}, expired + [before.peers[nodeID]])
              && Without(Without(before, gone), {nodeID}) == Without(before, gone + {nodeID})
            else Sweeping(before, cutoff, todo - {nodeID}, gone, expired)
  {
    var now := ExpiredAt(before.peers[nodeID], cutoff);
    if now {
      GatherOne(expired, before.peers, gone, nodeID);
      assert Without(before, gone).peers - {nodeID} == before.peers - (gone + {nodeID});
    }
    assert ExpiredNodes(before, cutoff) - (todo - {nodeID}) == if now then gone + {nodeID} else gone;
  }

  /** byIP and byToken are exactly the inverses of the leases. */
  ghost predicate Inverses(peers: map<Str, Peer>, byIP: map<Addr, Str>, byToken: map<Str, Str>) {
    && (forall n :: n in peers ==> peers[n].virtualIP in byIP && byIP[peers[n].virtualIP] == n)
    && (forall n :: n in peers ==> peers[n].sessionToken in byToken && byToken[peers[n].sessionToken] == n)
    && (forall ip :: ip in byIP ==> byIP[ip] in peers && peers[byIP[ip]].virtualIP == ip)
    && (forall t :: t in byToken ==> byToken[t] in peers && peers[byToken[t]].sessionToken == t)
  }

  lemma AddInverse(peers: map<Str, Peer>, byIP: map<Addr, Str>, byToken: map<Str, Str>, node: Str, peer: Peer)
    requires Inverses(peers, byIP, byToken) && node !in peers
    requires forall n :: n in peers ==> peers[n].virtualIP != peer.virtualIP && peers[n].sessionToken != peer.sessionToken
    ensures Inverses(peers[node := peer], byIP[peer.virtualIP := node], byToken[peer.sessionToken := node])
  {
  }

  lemma DropInverse(peers: map<Str, Peer>, byIP: map<Addr, Str>, byToken: map<Str, Str>, node: Str)
    requires Inverses(peers, byIP, byToken) && node in peers
    ensures Inverses(peers - {node}, byIP - {peers[node].virtualIP}, byToken - {peers[node].sessionToken})
  {
  }

  lemma RefreshInverse(peers: map<Str, Peer>, byIP: map<Addr, Str>, byToken: map<Str, Str>, node: Str, seenAt: Time)
    requires Inverses(peers, byIP, byToken) && node in peers
    ensures Inverses(peers[node := peers[node].(lastSeen := seenAt)], byIP, byToken)
  {
  }

  predicate PeerLess(p: Peer, q: Peer) {
    LexLess(p.nodeID, q.nodeID)
  }

  lemma PeerOrder()
    ensures StrictWeakOrder(PeerLess)
  {
    LexIsStrictWeakOrder();
  }

  /** The named peers in node-ID order: each exactly once. */
  ghost predicate Listing(out: seq<Peer>, peers: map<Str, Peer>, nodes: set<Str>)
    requires nodes <= peers.Keys
  {
    && StrictlySortedBy(PeerLess, out)
    && forall p :: p in out <==> exists n :: n in nodes && p == peers[n]
  }

  lemma SortedListing(out: seq<Peer>, peers: map<Str, Peer>, nodes: set<Str>)
    requires nodes <= peers.Keys && forall n :: n in peers ==> peers[n].nodeID == n
    requires forall p :: p in out <==> exists n :: n in nodes && p == peers[n]
    requires forall i, j :: 0 <= i < j < |out| ==> out[i].nodeID != out[j].nodeID
    ensures Listing(Sort(PeerLess, out), peers, nodes)
  {
    PeerOrder();
    forall i, j | 0 <= i < j < |out| ensures PeerLess(out[i], out[j]) || PeerLess(out[j], out[i]) {
      LexTotal(out[i].nodeID, out[j].nodeID);
    }
    SortStrict(PeerLess, out);
    SortElements(PeerLess, out);
  }

  // ---- the object ---------------------------------------------------------------------

  /** `NewRegistry`: fails exactly when the allocator refuses the prefix. */
  method NewRegistry(prefix: Option<Block>) returns (r: Option<Registry>)
    requires prefix.Some? ==> Ipv4Blocks.Valid(prefix.value)
    ensures r.Some? <==> prefix.Some? && prefix.value.bits <= 30
    ensures r.Some? ==> r.value.Valid() && r.value.View() == Leases(Masked(prefix.value), 2, map[])
  {
    var allocator := NewAllocator(prefix);
    if allocator.None? { return None; }
    var registry := new Registry(allocator.value);
    r := Some(registry);
  }

  class Registry {
    const allocator: Allocator
    var peers: map<Str, Peer>
    var byIP: map<Addr, Str>
    var byToken: map<Str, Str>

    ghost function View(): Leases
      reads this, allocator
    {
      Leases(allocator.prefix, allocator.next, peers)
    }

    /** The three maps here and the two of the allocator agree. */
    ghost predicate Valid()
      reads this, allocator
    {
      && allocator.Valid()
      && LeasesValid(View())
      && allocator.View() == PoolOf(View())
      && Inverses(peers, byIP, byToken)
    }

    constructor (a: Allocator)
      requires a.Valid() && a.View().next == 2 && a.byNode == map[]
      ensures Valid() && allocator == a && View() == Leases(a.prefix, 2, map[])
    {
      allocator := a;
      peers := map[];
      byIP := map[];
      byToken := map[];
      new;
      assert PoolOf(View()) == allocator.View();
    }

    method RegisterAt(nodeID: Str, seenAt: Time, token: Option<Str>) returns (r: RegisterResult)
      requires Valid() && (token.Some? ==> !TokenInUse(View(), token.value))
      modifies this, allocator
      ensures Valid()
      ensures (View(), r) == RegisterIn(old(View()), nodeID, seenAt, token)
      ensures RegisterAnswered(old(View()), View(), TrimSpace(nodeID), seenAt, token, r)
    {
      RegisterAnswers(View(), nodeID, seenAt, token);
      r := Register(nodeID, seenAt, token);
    }

    method Register(nodeID: Str, seenAt: Time, token: Option<Str>) returns (r: RegisterResult)
      requires Valid() && (token.Some? ==> !TokenInUse(View(), token.value))
      modifies this, allocator
      ensures Valid()
      ensures (View(), r) == RegisterIn(old(View()), nodeID, seenAt, token)
    {
      var node := TrimSpace(nodeID);
      if node == [] { return InvalidNodeID; }
      if node in peers {
        RefreshKeepsValid(View(), node, seenAt);
        PoolOfRefresh(View(), node, seenAt);
        RefreshInverse(peers, byIP, byToken, node, seenAt);
        var existing := peers[node].(lastSeen := seenAt);
        peers := peers[node := existing];
        return Registered(existing);
      }
      TrimSpaceTrims(nodeID);
      r := RegisterNew(node, seenAt, token);
    }

    /** The part of `registerAt` for a node that holds no lease. */
    method RegisterNew(node: Str, seenAt: Time, token: Option<Str>) returns (r: RegisterResult)
      requires Valid() && (token.Some? ==> !TokenInUse(View(), token.value))
      requires node != [] && Trimmed(node) && node !in peers
      modifies this, allocator
      ensures Valid()
      ensures (View(), r) == NewLeaseIn(old(View()), node, seenAt, token)
    {
      NewLeaseKeepsValid(View(), node, seenAt, token);
      ghost var l := View();
      AllocationOutcome(l, node);
      var ip := allocator.Allocate(node);
      if ip.None? { return PoolExhausted; }
      if token.None? {
        Undo(l, node);
        return TokenFailed;
      }
      FreshAddress(l, node);
      Store(l, Peer(node, ip.value, token.value, seenAt));
      r := Registered(Peer(node, ip.value, token.value, seenAt));
    }

    static lemma AllocationOutcome(l: Leases, node: Str)
      requires LeasesValid(l) && node !in l.peers
      ensures var (pool, ip) := AllocateIn(PoolOf(l), node);
              && (ip.None? ==> pool == PoolOf(l))
              && (ip.Some? ==> pool == Pool(l.prefix, pool.next, PoolOf(l).byNode[node := ip.value]))
              && (ip.Some? ==> pool.byNode - {node} == PoolOf(l).byNode)
    {
      assert node !in PoolOf(l).byNode;
    }

    /** Give back an address the allocator has just handed out; its cursor stays where it is. */
    method Undo(ghost l: Leases, node: Str)
      requires node !in l.peers && peers == l.peers && allocator.prefix == l.prefix
      requires Inverses(peers, byIP, byToken) && allocator.Valid() && node in allocator.byNode
      requires allocator.byNode - {node} == PoolOf(l).byNode
      requires LeasesValid(l.(next := allocator.next))
      modifies allocator
      ensures Valid() && View() == l.(next := old(allocator.next))
    {
      var released := allocator.Release(node);
      assert PoolOf(View()) == allocator.View();
    }

    /** Record a lease whose address the allocator has just handed out. */
    method Store(ghost l: Leases, peer: Peer)
      requires LeasesValid(l) && peer.nodeID !in l.peers && peers == l.peers && allocator.prefix == l.prefix
      requires Inverses(peers, byIP, byToken) && allocator.Valid()
      requires allocator.View() == Pool(l.prefix, allocator.next, PoolOf(l).byNode[peer.nodeID := peer.virtualIP])
      requires LeasesValid(Leases(l.prefix, allocator.next, l.peers[peer.nodeID := peer]))
      requires forall n :: n in peers ==> peers[n].virtualIP != peer.virtualIP && peers[n].sessionToken != peer.sessionToken
      modifies this
      ensures Valid() && View() == Leases(l.prefix, allocator.next, l.peers[peer.nodeID := peer])
    {
      AddInverse(peers, byIP, byToken, peer.nodeID, peer);
      PoolOfAdd(l, allocator.next, peer.nodeID, peer);
      peers := peers[peer.nodeID := peer];
      byIP := byIP[peer.virtualIP := peer.nodeID];
      byToken := byToken[peer.sessionToken := peer.nodeID];
      assert View() == Leases(l.prefix, allocator.next, l.peers[peer.nodeID := peer]);
    }

    static lemma FreshAddress(l: Leases, node: Str)
      requires LeasesValid(l) && node !in l.peers && AllocateIn(PoolOf(l), node).1.Some?
      ensures forall n :: n in l.peers ==> l.peers[n].virtualIP != AllocateIn(PoolOf(l), node).1.value
    {
      AllocatedIsFresh(PoolOf(l), node);
      forall n | n in l.peers ensures l.peers[n].virtualIP in Leased(PoolOf(l)) {
        assert PoolOf(l).byNode[n] == l.peers[n].virtualIP;
      }
    }

    method Get(nodeID: Str) returns (r: Option<Peer>)
      ensures r == if nodeID in peers then Some(peers[nodeID]) else None
    {
      r := if nodeID in peers then Some(peers[nodeID]) else None;
    }

    method GetByVirtualIP(ip: Addr) returns (r: Option<Peer>)
      requires Valid()
      ensures r == ByAddress(View(), ip)
      ensures r.Some? ==> r.value.virtualIP == ip && r.value.nodeID in peers && peers[r.value.nodeID] == r.value
    {
      AddressHolderUnique(View(), ip);
      if ip !in byIP { return None; }
      var nodeID := byIP[ip];
      r := if nodeID in peers then Some(peers[nodeID]) else None;
    }

    method GetByToken(token: Str) returns (r: Option<Peer>)
      requires Valid()
      ensures r == ByToken(View(), token)
      ensures r.Some? ==> r.value.sessionToken == token && r.value.nodeID in peers && peers[r.value.nodeID] == r.value
    {
      if token !in byToken { return None; }
      var nodeID := byToken[token];
      r := if nodeID in peers then Some(peers[nodeID]) else None;
    }

    method TouchByToken(token: Str, seenAt: Time) returns (r: Option<Peer>)
      requires Valid()
      modifies this
      ensures Valid() && View() == TouchIn(old(View()), token, seenAt)
      ensures r == ByToken(View(), token) && (r.Some? <==> old(TokenInUse(View(), token)))
    {
      TouchKeepsValid(View(), token, seenAt);
      if token !in byToken { return None; }
      var nodeID := byToken[token];
      var peer := peers[nodeID].(lastSeen := seenAt);
      PoolOfRefresh(View(), nodeID, seenAt);
      RefreshInverse(peers, byIP, byToken, nodeID, seenAt);
      peers := peers[nodeID := peer];
      assert peers[nodeID].sessionToken == token;
      r := Some(peer);
    }

    /** Drop one lease from all five maps. */
    method Remove(nodeID: Str)
      requires Valid() && nodeID in peers
      modifies this, allocator
      ensures Valid() && View() == old(View()).(peers := old(peers) - {nodeID})
    {
      RemoveKeepsValid(View(), {nodeID});
      PoolOfRemove(View(), {nodeID});
      DropInverse(peers, byIP, byToken, nodeID);
      var peer := peers[nodeID];
      peers := peers - {nodeID};
      byIP := byIP - {peer.virtualIP};
      byToken := byToken - {peer.sessionToken};
      var released := allocator.Release(nodeID);
    }

    /** One turn of the expiry loop. */
    method ExpireOne(nodeID: Str, cutoff: Time) returns (gone: bool)
      requires Valid() && nodeID in peers
      modifies this, allocator
      ensures Valid() && gone == ExpiredAt(old(peers)[nodeID], cutoff)
      ensures View() == if gone then Without(old(View()), {nodeID}) else old(View())
    {
      gone := ExpiredAt(peers[nodeID], cutoff);
      if gone { Remove(nodeID); }
    }

    method ExpireBefore(cutoff: Time) returns (expired: seq<Peer>)
      requires Valid()
      modifies this, allocator
      ensures Valid() && View() == ExpireIn(old(View()), cutoff)
      ensures Listing(expired, old(peers), ExpiredNodes(old(View()), cutoff))
    {
      expired := RemoveExpired(cutoff);
      SortedListing(expired, old(peers), ExpiredNodes(old(View()), cutoff));
      expired := Sort(PeerLess, expired);
    }

    method RemoveExpired(cutoff: Time) returns (expired: seq<Peer>)
      requires Valid()
      modifies this, allocator
      ensures Valid() && View() == ExpireIn(old(View()), cutoff)
      ensures Gathered(expired, old(peers), ExpiredNodes(old(View()), cutoff))
    {
      ghost var before := View();
      expired := [];
      var todo := peers.Keys;
      ghost var gone: set<Str> := {};
      NothingGone(before);
      while todo != {}
        invariant Valid() && View() == Without(before, gone)
        invariant Sweeping(before, cutoff, todo, gone, expired)
        decreases todo
      {
        var nodeID :| nodeID in todo;
        var peer := peers[nodeID];
        SweepTurn(before, cutoff, todo, gone, expired, nodeID);
        var expiredNow := ExpireOne(nodeID, cutoff);
        todo := todo - {nodeID};
        if expiredNow {
          expired := expired + [peer];
          gone := gone + {nodeID};
        }
      }
    }

    method List() returns (out: seq<Peer>)
      requires Valid()
      ensures Listing(out, peers, peers.Keys)
    {
      out := [];
      var todo := peers.Keys;
      ghost var done: set<Str> := {};
      while todo != {}
        invariant todo <= peers.Keys && done == peers.Keys - todo
        invariant Gathered(out, peers, done)
        decreases todo
      {
        var nodeID :| nodeID in todo;
        todo := todo - {nodeID};
        GatherOne(out, peers, done, nodeID);
        out := out + [peers[nodeID]];
        done := done + {nodeID};
      }
      assert done == peers.Keys;
      SortedListing(out, peers, peers.Keys);
      out := Sort(PeerLess, out);
    }
  }

  /** A list built by visiting each of `nodes` once. */
  ghost predicate Gathered(out: seq<Peer>, peers: map<Str, Peer>, nodes: set<Str>) {
    && nodes <= peers.Keys
    && (forall p :: p in out <==> exists n :: n in nodes && p == peers[n])
    && (forall i, j :: 0 <= i < j < |out| ==> out[i].nodeID != out[j].nodeID)
  }

  lemma GatherOne(out: seq<Peer>, peers: map<Str, Peer>, nodes: set<Str>, node: Str)
    requires Gathered(out, peers, nodes) && node in peers && node !in nodes
    requires forall n :: n in peers ==> peers[n].nodeID == n
    ensures Gathered(out + [peers[node]], peers, nodes + {node})
  {
    var more := out + [peers[node]];
    forall i | 0 <= i < |out| ensures out[i].nodeID != node { assert out[i] in out; }
    forall p ensures p in more <==> exists n :: n in nodes + {node} && p == peers[n] {
      assert p in more <==> p in out || p == peers[node];
    }
  }

  lemma AddressHolderUnique(l: Leases, ip: Addr)
    requires LeasesValid(l)
    ensures forall m, n :: m in l.peers && n in l.peers && l.peers[m].virtualIP == ip && l.peers[n].virtualIP == ip ==> m == n
  {
    forall m, n | m in l.peers && n in l.peers && l.peers[m].virtualIP == ip && l.peers[n].virtualIP == ip ensures m == n {
      assert PoolOf(l).byNode[m] == PoolOf(l).byNode[n];
    }
  }
}
