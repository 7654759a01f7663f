/** IPv4 addresses as 32-bit numbers and the aligned blocks that CIDR notation
    (section 3.1 of RFC 4632) names.  A shift by 32-b is written as repeated
    halving, so every fact below is linear arithmetic. */
module Ipv4Blocks {

  const WORD: int := 0x1_0000_0000

  type Addr = a: int | 0 <= a < 0x1_0000_0000

  /** A valid IPv4 prefix: an address and a length, as `netip.Prefix` keeps them
      (the address need not be masked). */
  datatype Block = Block(addr: Addr, bits: nat)

  predicate Valid(p: Block) {
    p.bits <= 32
  }

  /** The number of addresses in a block of length b. */
  function Size(b: nat): (n: nat)
    requires b <= 32
    ensures n > 0
    decreases 32 - b
  {
    if b == 32 then 1 else 2 * Size(b + 1)
  }

  /** x >> (32-b): the number of the block of length b that holds x. */
  function Index(x: nat, b: nat): nat
    requires b <= 32
    decreases 32 - b
  {
    if b == 32 then x else Index(x, b + 1) / 2
  }

  /** i << (32-b): the first address of block number i of length b. */
  function First(i: nat, b: nat): nat
    requires b <= 32
    decreases 32 - b
  {
    if b == 32 then i else First(2 * i, b + 1)
  }

  /** `netip.Prefix.Contains`: the top p.bits bits agree. */
  predicate Contains(p: Block, x: nat)
    requires Valid(p)
  {
    Index(x, p.bits) == Index(p.addr, p.bits)
  }

  /** `netip.Prefix.Overlaps`: the two prefixes agree on the shorter length. */
  predicate Overlaps(p: Block, q: Block)
    requires Valid(p) && Valid(q)
  {
    var min := if p.bits < q.bits then p.bits else q.bits;
    Index(p.addr, min) == Index(q.addr, min)
  }

  /** `netip.Prefix.Masked`: the host bits cleared. */
  function Masked(p: Block): (m: Block)
    requires Valid(p)
  {
    FirstOfIndex(p.addr, p.bits);
    Block(First(Index(p.addr, p.bits), p.bits), p.bits)
  }

  predicate IsMasked(p: Block) {
    Valid(p) && p.addr == First(Index(p.addr, p.bits), p.bits)
  }

  /** Bitwise OR of two numbers, bit by bit from the lowest. */
  function Or(x: nat, y: nat): nat
    decreases x + y
  {
    if x == 0 && y == 0 then 0
    else 2 * Or(x / 2, y / 2) + (if x % 2 == 1 || y % 2 == 1 then 1 else 0)
  }

  // ---- shifting up and down ------------------------------------------------

  lemma {:induction false} IndexOfFirst(i: nat, b: nat)
    requires b <= 32
    ensures Index(First(i, b), b) == i
    decreases 32 - b
  {
    if b < 32 { IndexOfFirst(2 * i, b + 1); }
  }

  /** Shifting down and up again loses less than one block. */
  lemma {:induction false} FirstOfIndex(x: nat, b: nat)
    requires b <= 32
    ensures First(Index(x, b), b) <= x < First(Index(x, b), b) + Size(b)
    decreases 32 - b
  {
    if b < 32 {
      FirstOfIndex(x, b + 1);
      var j := Index(x, b + 1);
      if j % 2 == 1 { FirstNext(j - 1, b + 1); }
    }
  }

  lemma {:induction false} FirstNext(i: nat, b: nat)
    requires b <= 32
    ensures First(i + 1, b) == First(i, b) + Size(b)
    decreases 32 - b
  {
    if b < 32 {
      FirstNext(2 * i, b + 1);
      FirstNext(2 * i + 1, b + 1);
    }
  }

  lemma {:induction false} FirstMonotone(i: nat, j: nat, b: nat)
    requires b <= 32 && i <= j
    ensures First(i, b) <= First(j, b)
    decreases 32 - b
  {
    if b < 32 { FirstMonotone(2 * i, 2 * j, b + 1); }
  }

  /** A block is the interval of Size(b) addresses that starts at its first one. */
  lemma BlockIsInterval(x: nat, i: nat, b: nat)
    requires b <= 32
    ensures Index(x, b) == i <==> First(i, b) <= x < First(i, b) + Size(b)
  {
    FirstOfIndex(x, b);
    var j := Index(x, b);
    if j < i {
      FirstNext(j, b);
      FirstMonotone(j + 1, i, b);
    } else if i < j {
      FirstNext(i, b);
      FirstMonotone(i + 1, j, b);
    }
  }

  /** Two addresses that share a block share every larger one. */
  lemma {:induction false} CoarserIndex(x: nat, y: nat, b: nat, c: nat)
    requires b <= c <= 32 && Index(x, c) == Index(y, c)
    ensures Index(x, b) == Index(y, b)
    decreases c - b
  {
    if b < c { CoarserIndex(x, y, b + 1, c); }
  }

  lemma HalfOfBlock(i: nat, b: nat)
    requires 0 < b <= 32
    ensures First(i, b) + Size(b) <= First(i / 2, b - 1) + Size(b - 1)
  {
    var j := 2 * (i / 2);
    FirstNext(j, b);
    assert i == j || i == j + 1;
  }

  lemma {:induction false} IndexOfWord(x: nat, b: nat)
    requires b <= 32 && x < WORD
    ensures First(Index(x, b), b) + Size(b) <= WORD
    decreases b
  {
    if b > 0 {
      IndexOfWord(x, b - 1);
      HalfOfBlock(Index(x, b), b);
    } else {
      WholeSpace(x);
    }
  }

  lemma WholeSpace(x: nat)
    requires x < WORD
    ensures Index(x, 0) == 0 && First(0, 0) + Size(0) == WORD
  {
    SizeOfAll();
    FirstOfZero(0);
    BlockIsInterval(x, 0, 0);
  }

  lemma {:induction false} FirstOfZero(b: nat)
    requires b <= 32
    ensures First(0, b) == 0
    decreases 32 - b
  {
    if b < 32 { FirstOfZero(b + 1); }
  }

  lemma SizeOfAll()
    ensures Size(0) == WORD
  {
    assert Size(32) == 1;
    assert Size(28) == 16;
    assert Size(24) == 0x100;
    assert Size(20) == 0x1000;
    assert Size(16) == 0x1_0000;
    assert Size(12) == 0x10_0000;
    assert Size(8) == 0x100_0000;
    assert Size(4) == 0x1000_0000;
  }

  // ---- masking and nesting ---------------------------------------------------

  lemma MaskedIsMasked(p: Block)
    requires Valid(p)
    ensures IsMasked(Masked(p)) && Masked(p).bits == p.bits
    ensures Index(Masked(p).addr, p.bits) == Index(p.addr, p.bits)
    ensures forall x: nat :: Contains(Masked(p), x) <==> Contains(p, x)
  {
    IndexOfFirst(Index(p.addr, p.bits), p.bits);
  }

  /** The three cases of two masked blocks: the larger holds the smaller, or they
      have no address in common. */
  lemma Laminar(p: Block, q: Block, x: nat)
    requires Valid(p) && Valid(q) && p.bits <= q.bits
    requires Contains(q, x)
    ensures Overlaps(p, q) <==> Contains(p, x)
    ensures Overlaps(p, q) <==> Contains(p, q.addr)
  {
    CoarserIndex(x, q.addr, p.bits, q.bits);
  }

  // ---- the two halves of a block ------------------------------------------------

  function LowerHalf(p: Block): Block
    requires IsMasked(p) && p.bits < 32
  {
    Masked(Block(p.addr, p.bits + 1))
  }

  /** The source ORs bit 31-bits into the address; `1 << (31-bits)` is Size(bits+1). */
  function UpperHalf(p: Block): Block
    requires IsMasked(p) && p.bits < 32
  {
    OrSetsUpperHalf(p);
    Masked(Block(Or(p.addr, Size(p.bits + 1)), p.bits + 1))
  }

  lemma {:induction false} OrZero(x: nat)
    ensures Or(x, 0) == x
  {
    if x > 0 { OrZero(x / 2); }
  }

  lemma {:induction false} FirstDoubles(i: nat, b: nat)
    requires b < 32
    ensures First(i, b) == 2 * First(i, b + 1)
    decreases 32 - b
  {
    if b < 31 {
      FirstDoubles(2 * i, b + 1);
    } else {
      assert First(2 * i, 32) == 2 * i && First(i, 32) == i;
    }
  }

  lemma OrDoubles(x: nat, y: nat)
    ensures Or(2 * x, 2 * y) == 2 * Or(x, y)
  {
  }

  lemma OrLastBit(x: nat)
    ensures Or(2 * x, 1) == 2 * x + 1
  {
    OrZero(x);
    assert Or(2 * x, 1) == 2 * Or(x, 0) + 1;
  }

  /** On an aligned even block number, OR-ing the block size in is adding it. */
  lemma {:induction false} OrIsAdd(i: nat, b: nat)
    requires b <= 32
    ensures Or(First(2 * i, b), Size(b)) == First(2 * i + 1, b)
    decreases 32 - b
  {
    if b == 32 {
      OrLastBit(i);
    } else {
      OrIsAdd(i, b + 1);
      FirstDoubles(2 * i, b);
      FirstDoubles(2 * i + 1, b);
      OrDoubles(First(2 * i, b + 1), Size(b + 1));
    }
  }

  /** OR-ing bit 31-bits into a masked address stays a 32-bit word and gives the
      first address of the second half. */
  lemma OrSetsUpperHalf(p: Block)
    requires IsMasked(p) && p.bits < 32
    ensures Or(p.addr, Size(p.bits + 1)) == p.addr + Size(p.bits + 1) < WORD
    ensures Or(p.addr, Size(p.bits + 1)) == First(2 * Index(p.addr, p.bits) + 1, p.bits + 1)
  {
    var i := Index(p.addr, p.bits);
    OrIsAdd(i, p.bits + 1);
    UpperHalfStart(i, p.bits);
    IndexOfWord(p.addr, p.bits);
  }

  lemma UpperHalfStart(i: nat, b: nat)
    requires b < 32
    ensures First(i, b) == First(2 * i, b + 1)
    ensures First(2 * i + 1, b + 1) == First(i, b) + Size(b + 1) < First(i, b) + Size(b)
  {
    FirstNext(2 * i, b + 1);
  }

  lemma LowerHalfIs(p: Block)
    requires IsMasked(p) && p.bits < 32
    ensures IsMasked(LowerHalf(p)) && LowerHalf(p) == Block(p.addr, p.bits + 1)
    ensures Index(LowerHalf(p).addr, p.bits + 1) == 2 * Index(p.addr, p.bits)
  {
    MaskedIsMasked(Block(p.addr, p.bits + 1));
    IndexOfFirst(2 * Index(p.addr, p.bits), p.bits + 1);
  }

  lemma UpperHalfIs(p: Block)
    requires IsMasked(p) && p.bits < 32
    ensures IsMasked(UpperHalf(p)) && UpperHalf(p).addr == p.addr + Size(p.bits + 1) && UpperHalf(p).bits == p.bits + 1
    ensures Index(UpperHalf(p).addr, p.bits + 1) == 2 * Index(p.addr, p.bits) + 1
  {
    OrSetsUpperHalf(p);
    IndexOfFirst(2 * Index(p.addr, p.bits) + 1, p.bits + 1);
    MaskedIsMasked(Block(Or(p.addr, Size(p.bits + 1)), p.bits + 1));
  }

  /** The halves are masked, one bit longer, adjacent, and split the block. */
  lemma HalvesSplit(p: Block)
    requires IsMasked(p) && p.bits < 32
    ensures IsMasked(LowerHalf(p)) && LowerHalf(p).bits == p.bits + 1
    ensures IsMasked(UpperHalf(p)) && UpperHalf(p).bits == p.bits + 1
    ensures LowerHalf(p).addr == p.addr
    ensures UpperHalf(p).addr == p.addr + Size(p.bits + 1)
    ensures Index(LowerHalf(p).addr, p.bits + 1) == 2 * Index(p.addr, p.bits)
    ensures Index(UpperHalf(p).addr, p.bits + 1) == 2 * Index(p.addr, p.bits) + 1
    ensures forall x: nat :: Contains(p, x) <==> Contains(LowerHalf(p), x) || Contains(UpperHalf(p), x)
    ensures forall x: nat :: !(Contains(LowerHalf(p), x) && Contains(UpperHalf(p), x))
  {
    LowerHalfIs(p);
    UpperHalfIs(p);
  }

  // ---- the enclosing block one bit shorter ----------------------------------------

  function Parent(p: Block): Block
    requires Valid(p) && p.bits > 0
  {
    Masked(Block(p.addr, p.bits - 1))
  }

  lemma ParentHolds(p: Block)
    requires Valid(p) && p.bits > 0
    ensures IsMasked(Parent(p)) && Parent(p).bits == p.bits - 1
    ensures Contains(Parent(p), p.addr)
    ensures forall x: nat :: Contains(p, x) ==> Contains(Parent(p), x)
  {
    MaskedIsMasked(Block(p.addr, p.bits - 1));
  }

  /** The blocks that hold a masked block p are p and those that hold its parent. */
  lemma ParentIsLeast(p: Block, q: Block)
    requires IsMasked(p) && IsMasked(q) && q.bits < p.bits && Contains(q, p.addr)
    ensures forall x: nat :: Contains(Parent(p), x) ==> Contains(q, x)
  {
    ParentHolds(p);
    forall x: nat | Contains(Parent(p), x) ensures Contains(q, x) {
      CoarserIndex(x, p.addr, q.bits, p.bits - 1);
    }
  }

  lemma SameBlock(p: Block, q: Block)
    requires IsMasked(p) && IsMasked(q) && p.bits == q.bits && Contains(p, q.addr)
    ensures p == q
  {
  }

  lemma ContainsSelf(p: Block)
    requires Valid(p)
    ensures Contains(p, p.addr)
  {
  }
}
