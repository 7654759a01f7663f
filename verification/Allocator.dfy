/** The virtual address pool (internal/mesh/allocator.go). */
module VirtualPool {
  import opened FiniteSets
  import opened GoStrings
  import opened Ipv4Blocks

  /** `uint32(1) << hostBits`: a shift by the word size gives zero. */
  function Capacity(bits: nat): Addr
    requires bits <= 30
  {
    Size(bits) % WORD
  }

  /** `capacity-1` in 32-bit arithmetic. */
  function Last(bits: nat): Addr
    requires bits <= 30
  {
    (Capacity(bits) - 1) % WORD
  }

  /** `addIPv4` */
  function AddOffset(base: Addr, offset: Addr): Addr {
    (base + offset) % WORD
  }

  // ---- the pool as a value ------------------------------------------------------

  datatype Pool = Pool(prefix: Block, next: nat, byNode: map<Str, Addr>)

  function Leased(pool: Pool): set<Addr> {
    set n | n in pool.byNode :: pool.byNode[n]
  }

  predicate PoolPrefix(prefix: Block) {
    IsMasked(prefix) && prefix.bits <= 30
  }

  /** Every leased offset is a host offset below the cursor, and no two nodes share one. */
  ghost predicate PoolValid(pool: Pool) {
    && PoolPrefix(pool.prefix)
    && 2 <= pool.next <= Last(pool.prefix.bits)
    && (forall n :: n in pool.byNode ==> pool.prefix.addr + 2 <= pool.byNode[n] < pool.prefix.addr + pool.next)
    && (forall m, n :: m in pool.byNode && n in pool.byNode && pool.byNode[m] == pool.byNode[n] ==> m == n)
  }

  /** The least free offset from `offset` on, or `limit` if there is none. */
  function FirstFree(leased: set<Addr>, base: Addr, offset: nat, limit: Addr): (r: nat)
    requires offset <= limit
    ensures offset <= r <= limit
    ensures forall k: Addr :: offset <= k < r ==> AddOffset(base, k) in leased
    ensures r < limit ==> AddOffset(base, r) !in leased
    decreases limit - offset
  {
    if offset == limit || AddOffset(base, offset) !in leased then offset
    else FirstFree(leased, base, offset + 1, limit)
  }

  /** The offset a node that holds no lease is given: the cursor while it is below the
      broadcast offset, afterwards the least free offset; None if there is none. */
  function NextOffset(pool: Pool): (r: Option<nat>)
    requires PoolPrefix(pool.prefix) && 2 <= pool.next <= Last(pool.prefix.bits)
    ensures r.Some? ==> 2 <= r.value < Last(pool.prefix.bits)
  {
    var last := Last(pool.prefix.bits);
    if pool.next < last then Some(pool.next)
    else
      var k := FirstFree(Leased(pool), pool.prefix.addr, 2, last);
      if k < last then Some(k) else None
  }

  function AllocateIn(pool: Pool, node: Str): (Pool, Option<Addr>)
    requires PoolPrefix(pool.prefix) && 2 <= pool.next <= Last(pool.prefix.bits)
  {
    if node in pool.byNode then (pool, Some(pool.byNode[node]))
    else match NextOffset(pool)
      case None => (pool, None)
      case Some(k) =>
        var ip := AddOffset(pool.prefix.addr, k);
        (Pool(pool.prefix, if k < pool.next then pool.next else k + 1, pool.byNode[node := ip]), Some(ip))
  }

  function ReleaseIn(pool: Pool, node: Str): Pool {
    pool.(byNode := pool.byNode - {node})
  }

  // ---- arithmetic of the host range ------------------------------------------------

  lemma {:induction false} SizeAtLeastFour(b: nat)
    requires b <= 30
    ensures 4 <= Size(b)
    decreases 30 - b
  {
    if b < 30 { SizeAtLeastFour(b + 1); } else { assert Size(32) == 1; }
  }

  lemma {:induction false} SizeBelowWord(b: nat)
    requires 1 <= b <= 32
    ensures Size(b) < WORD
    decreases b
  {
    if b == 1 { SizeOfAll(); } else { SizeBelowWord(b - 1); }
  }

  /** At /0 the shift gives capacity 0, and capacity-1 wraps to the last address. */
  lemma CapacityWrapsAtZero()
    ensures Capacity(0) == 0 && Last(0) == 0xFFFF_FFFF && Size(0) == WORD
  {
    SizeOfAll();
  }

  lemma WrapTwice(size: nat)
    requires 1 <= size <= WORD
    ensures (size % WORD - 1) % WORD == size - 1
  {
    if size < WORD { assert size % WORD == size; }
  }

  /** capacity-1 is the broadcast offset for every length, /0 included. */
  lemma LastIsBroadcast(bits: nat)
    requires bits <= 30
    ensures Last(bits) == Size(bits) - 1 >= 3
  {
    SizeAtLeastFour(bits);
    var size := Size(bits);
    assert size <= WORD by {
      if bits == 0 { SizeOfAll(); } else { SizeBelowWord(bits); }
    }
    WrapTwice(size);
  }

  /** Adding a host offset to the base never wraps and stays inside the prefix. */
  lemma OffsetStaysInside(prefix: Block, k: nat)
    requires PoolPrefix(prefix) && k <= Last(prefix.bits)
    ensures AddOffset(prefix.addr, k) == prefix.addr + k < WORD
    ensures Contains(prefix, AddOffset(prefix.addr, k))
  {
    LastIsBroadcast(prefix.bits);
    IndexOfWord(prefix.addr, prefix.bits);
    BlockIsInterval(prefix.addr + k, Index(prefix.addr, prefix.bits), prefix.bits);
  }

  // ---- what allocation guarantees -----------------------------------------------------

  lemma LeasedBelowCursor(pool: Pool)
    requires PoolValid(pool)
    ensures forall a :: a in Leased(pool) ==> pool.prefix.addr + 2 <= a < pool.prefix.addr + pool.next
  {
  }

  /** What changes: a node with a lease is told its address and nothing changes; a new lease
      is added, and the cursor moves past it, never back; a release takes one lease away. */
  lemma AllocateChanges(pool: Pool, node: Str)
    requires PoolValid(pool)
    ensures var (after, ip) := AllocateIn(pool, node);
            && after.prefix == pool.prefix
            && (node in pool.byNode ==> after == pool && ip == Some(pool.byNode[node]))
            && (ip.None? ==> after == pool)
            && (ip.Some? ==> after.byNode == pool.byNode[node := ip.value])
            && (node !in pool.byNode && ip.Some? ==>
                  after.next == if ip.value < pool.prefix.addr + pool.next then pool.next else ip.value - pool.prefix.addr + 1)
    ensures ReleaseIn(pool, node).next == pool.next && ReleaseIn(pool, node).byNode == map n | n in pool.byNode && n != node :: pool.byNode[n]
  {
    if node !in pool.byNode && NextOffset(pool).Some? { OffsetStaysInside(pool.prefix, NextOffset(pool).value); }
  }

  lemma AllocateKeepsValid(pool: Pool, node: Str)
    requires PoolValid(pool)
    ensures PoolValid(AllocateIn(pool, node).0)
  {
    if node !in pool.byNode && NextOffset(pool).Some? {
      OffsetStaysInside(pool.prefix, NextOffset(pool).value);
      LeasedBelowCursor(pool);
      assert forall n :: n in pool.byNode ==> pool.byNode[n] in Leased(pool);
    }
  }

  /** A new lease is a host address of the prefix that no node held: neither network,
      gateway nor broadcast; the least one once the cursor is used up. */
  lemma AllocatedIsFresh(pool: Pool, node: Str)
    requires PoolValid(pool) && node !in pool.byNode && AllocateIn(pool, node).1.Some?
    ensures var ip := AllocateIn(pool, node).1.value;
            && ip !in Leased(pool) && Contains(pool.prefix, ip)
            && pool.prefix.addr + 2 <= ip < pool.prefix.addr + Size(pool.prefix.bits) - 1
            && (pool.next < Last(pool.prefix.bits) ==> ip == pool.prefix.addr + pool.next)
            && (pool.next == Last(pool.prefix.bits) ==>
                  forall a: Addr :: pool.prefix.addr + 2 <= a < ip ==> a in Leased(pool))
  {
    var k := NextOffset(pool).value;
    LastIsBroadcast(pool.prefix.bits);
    OffsetStaysInside(pool.prefix, k);
    var ip := AddOffset(pool.prefix.addr, k);
    LeasedBelowCursor(pool);
    if pool.next == Last(pool.prefix.bits) {
      forall a: Addr | pool.prefix.addr + 2 <= a < ip ensures a in Leased(pool) {
        var j: Addr := a - pool.prefix.addr;
        OffsetStaysInside(pool.prefix, j);
        assert AddOffset(pool.prefix.addr, j) == a;
      }
    }
  }

  lemma {:induction false} LeasedCount(pool: Pool)
    requires forall m, n :: m in pool.byNode && n in pool.byNode && pool.byNode[m] == pool.byNode[n] ==> m == n
    ensures |Leased(pool)| == |pool.byNode|
    decreases |pool.byNode|
  {
    if pool.byNode == map[] {
      assert Leased(pool) == {};
    } else {
      var n :| n in pool.byNode;
      var rest := pool.(byNode := pool.byNode - {n});
      assert rest.byNode.Keys == pool.byNode.Keys - {n};
      LeasedCount(rest);
      assert Leased(pool) == Leased(rest) + {pool.byNode[n]} by {
        forall a | a in Leased(pool) ensures a in Leased(rest) + {pool.byNode[n]} {
          var m :| m in pool.byNode && pool.byNode[m] == a;
          if m != n { assert m in rest.byNode; }
        }
      }
    }
  }

  function Hosts(prefix: Block): nat
    requires PoolPrefix(prefix)
  {
    SizeAtLeastFour(prefix.bits);
    Size(prefix.bits) - 3
  }

  ghost function HostRange(prefix: Block): set<nat>
    requires PoolPrefix(prefix)
  {
    Interval(prefix.addr + 2, prefix.addr + Last(prefix.bits))
  }

  lemma HostRangeIs(prefix: Block)
    requires PoolPrefix(prefix)
    ensures |HostRange(prefix)| == Hosts(prefix)
    ensures forall a :: a in HostRange(prefix) <==> prefix.addr + 2 <= a < prefix.addr + Last(prefix.bits)
  {
    LastIsBroadcast(prefix.bits);
    IntervalSize(prefix.addr + 2, prefix.addr + Last(prefix.bits));
  }

  lemma LeasedInHostRange(pool: Pool)
    requires PoolValid(pool)
    ensures Leased(pool) <= HostRange(pool.prefix)
  {
    HostRangeIs(pool.prefix);
    LeasedBelowCursor(pool);
  }

  lemma HostRangeSize(pool: Pool)
    requires PoolValid(pool)
    ensures |HostRange(pool.prefix)| == Hosts(pool.prefix)
    ensures forall a :: a in HostRange(pool.prefix) <==>
              pool.prefix.addr + 2 <= a < pool.prefix.addr + Last(pool.prefix.bits)
    ensures Leased(pool) <= HostRange(pool.prefix) && |Leased(pool)| == |pool.byNode|
  {
    HostRangeIs(pool.prefix);
    LeasedInHostRange(pool);
    LeasedCount(pool);
  }

  lemma RefusedMeansFull(pool: Pool, node: Str)
    requires PoolValid(pool) && node !in pool.byNode && AllocateIn(pool, node).1.None?
    ensures Leased(pool) == HostRange(pool.prefix)
  {
    HostRangeSize(pool);
    var p := pool.prefix;
    forall a | a in HostRange(p) ensures a in Leased(pool) {
      OffsetStaysInside(p, a - p.addr);
      assert AddOffset(p.addr, a - p.addr) == a;
    }
  }

  /** Exhaustion is exact: a new node is refused if and only if all 2^(32-bits) - 3 host
      addresses are leased. */
  lemma ExhaustedIffFull(pool: Pool, node: Str)
    requires PoolValid(pool) && node !in pool.byNode
    ensures AllocateIn(pool, node).1.None? <==> |pool.byNode| == Hosts(pool.prefix)
  {
    HostRangeSize(pool);
    if AllocateIn(pool, node).1.None? {
      RefusedMeansFull(pool, node);
    } else {
      AllocatedIsFresh(pool, node);
      LastIsBroadcast(pool.prefix.bits);
      ProperSubsetSmaller(Leased(pool), HostRange(pool.prefix), AllocateIn(pool, node).1.value);
    }
  }

  lemma ReleaseKeepsValid(pool: Pool, node: Str)
    requires PoolValid(pool)
    ensures PoolValid(ReleaseIn(pool, node))
  {
  }

  ghost predicate Inverse(byNode: map<Str, Addr>, used: map<Addr, Str>) {
    && (forall n :: n in byNode ==> byNode[n] in used && used[byNode[n]] == n)
    && (forall a :: a in used ==> used[a] in byNode && byNode[used[a]] == a)
  }

  lemma InverseAdd(byNode: map<Str, Addr>, used: map<Addr, Str>, node: Str, ip: Addr)
    requires Inverse(byNode, used) && node !in byNode && ip !in used
    ensures Inverse(byNode[node := ip], used[ip := node])
  {
  }

  lemma InverseDrop(byNode: map<Str, Addr>, used: map<Addr, Str>, node: Str)
    requires Inverse(byNode, used) && node in byNode
    ensures Inverse(byNode - {node}, used - {byNode[node]})
  {
  }

  // ---- the object -----------------------------------------------------------------------

  /** `NewAllocator`: refuses what is no IPv4 prefix and prefixes longer than 30 bits. */
  method NewAllocator(prefix: Option<Block>) returns (r: Option<Allocator>)
    requires prefix.Some? ==> Ipv4Blocks.Valid(prefix.value)
    ensures r.Some? <==> prefix.Some? && prefix.value.bits <= 30
    ensures r.Some? ==> fresh(r.value) && r.value.Valid() && r.value.View() == Pool(Masked(prefix.value), 2, map[])
  {
    if prefix.None? || prefix.value.bits > 30 { return None; }
    var a := new Allocator(prefix.value);
    r := Some(a);
  }

  class Allocator {
    const prefix: Block
    var next: Addr
    var byNode: map<Str, Addr>
    var used: map<Addr, Str>

    ghost predicate Valid()
      reads this
    {
      && PoolValid(View())
      && Inverse(byNode, used)
    }

    ghost function View(): Pool
      reads this
    {
      Pool(prefix, next, byNode)
    }

    constructor (p: Block)
      requires Ipv4Blocks.Valid(p) && p.bits <= 30
      ensures Valid() && View() == Pool(Masked(p), 2, map[])
    {
      MaskedIsMasked(p);
      LastIsBroadcast(p.bits);
      prefix := Masked(p);
      next := 2;
      byNode := map[];
      used := map[];
    }

    lemma UsedIsLeased()
      requires Valid()
      ensures forall a :: a in used <==> a in Leased(View())
    {
      forall a | a in Leased(View()) ensures a in used {
        var n :| n in byNode && byNode[n] == a;
      }
      forall a | a in used ensures a in Leased(View()) {
        assert byNode[used[a]] == a;
      }
    }

    lemma CursorIsFree()
      requires Valid()
      ensures next < Last(prefix.bits) ==> AddOffset(prefix.addr, next) !in used
    {
      OffsetStaysInside(prefix, next);
      UsedIsLeased();
      LeasedBelowCursor(View());
    }

    /** The scanning loop of both phases: the first offset from start on that is free. */
    method Scan(start: Addr, limit: Addr) returns (r: Option<Addr>)
      ensures r.Some? ==> start <= r.value < limit && AddOffset(prefix.addr, r.value) !in used
      ensures forall k: Addr :: start <= k < (if r.Some? then r.value else limit) ==> AddOffset(prefix.addr, k) in used
    {
      var offset := start;
      while offset < limit
        invariant start <= offset && (offset <= limit || offset == start)
        invariant forall k: Addr :: start <= k < offset ==> AddOffset(prefix.addr, k) in used
      {
        if AddOffset(prefix.addr, offset) !in used { return Some(offset); }
        offset := offset + 1;
      }
      r := None;
    }

    /** Record one lease. */
    method Lease(node: Str, offset: Addr) returns (ip: Addr)
      requires Valid() && node !in byNode && AddOffset(prefix.addr, offset) !in used
      requires NextOffset(View()) == Some(offset)
      modifies this
      ensures Valid() && (View(), Some(ip)) == AllocateIn(old(View()), node)
    {
      AllocateKeepsValid(View(), node);
      InverseAdd(byNode, used, node, AddOffset(prefix.addr, offset));
      ip := AddOffset(prefix.addr, offset);
      byNode, used := byNode[node := ip], used[ip := node];
      if next <= offset { next := offset + 1; }
    }

    method Allocate(node: Str) returns (r: Option<Addr>)
      requires Valid()
      modifies this
      ensures Valid()
      ensures (View(), r) == AllocateIn(old(View()), node)
    {
      if node in byNode { return Some(byNode[node]); }
      var last := Last(prefix.bits);
      CursorIsFree();
      var offset := Scan(next, last);
      if offset.None? {
        // A released address may be below the cursor.
        UsedIsLeased();
        offset := Scan(2, if next < last then next else last);
      }
      if offset.None? { return None; }
      var ip := Lease(node, offset.value);
      r := Some(ip);
    }

    method Release(node: Str) returns (r: Option<Addr>)
      requires Valid()
      modifies this
      ensures Valid() && View() == ReleaseIn(old(View()), node)
      ensures r == if node in old(byNode) then Some(old(byNode)[node]) else None
    {
      ReleaseKeepsValid(View(), node);
      if node !in byNode {
        assert byNode - {node} == byNode;
        return None;
      }
      InverseDrop(byNode, used, node);
      var ip := byNode[node];
      byNode, used := byNode - {node}, used - {ip};
      r := Some(ip);
    }
  }
}
