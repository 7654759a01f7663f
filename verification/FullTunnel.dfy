/** The route generator of the full-tunnel profile: the IPv4 space minus a list of
    protected prefixes, by recursive halving (internal/xray/tun_profile.go). */
module FullTunnel {
  import opened FiniteSets
  import opened Ipv4Blocks
  import opened Sorting

  /** A `netip.Prefix`.  IPv6 prefixes are skipped by the generator, so their bits
      are not kept. */
  datatype Prefix = Invalid | V6 | V4(block: Block)

  datatype Result<T> = Ok(value: T) | InvalidPrefix

  predicate WellFormed(protected: seq<Prefix>) {
    forall i :: 0 <= i < |protected| && protected[i].V4? ==> Valid(protected[i].block)
  }

  // ---- the recursion -----------------------------------------------------------

  function SubtractPrefix(base: Block, cut: Block): seq<Block>
    requires IsMasked(base) && Valid(cut)
    decreases 32 - base.bits
  {
    if !Overlaps(base, cut) then [base]
    else if cut.bits <= base.bits && Contains(cut, base.addr) then []
    else if base.bits >= 32 then []
    else
      HalvesSplit(base);
      SubtractPrefix(LowerHalf(base), cut) + SubtractPrefix(UpperHalf(base), cut)
  }

  predicate AllMasked(s: seq<Block>) {
    forall i :: 0 <= i < |s| ==> IsMasked(s[i])
  }

  /** One pass of the outer loop: every route minus one cut. */
  function SubtractAll(routes: seq<Block>, cut: Block): seq<Block>
    requires AllMasked(routes) && Valid(cut)
  {
    if routes == [] then []
    else SubtractPrefix(routes[0], cut) + SubtractAll(routes[1..], cut)
  }

  /** The cuts of `protected` applied in turn, before the final sort. */
  function Carve(routes: seq<Block>, protected: seq<Prefix>): Result<seq<Block>>
    requires AllMasked(routes) && WellFormed(protected)
    decreases |protected|
  {
    if protected == [] then Ok(routes)
    else match protected[0]
      case Invalid => InvalidPrefix
      case V6 => Carve(routes, protected[1..])
      case V4(b) =>
        MaskedIsMasked(b);
        SubtractAllMasked(routes, Masked(b));
        Carve(SubtractAll(routes, Masked(b)), protected[1..])
  }

  // ---- what one subtraction yields ------------------------------------------------

  /** q is one of the largest blocks inside base that miss the cut. */
  predicate Remainder(base: Block, cut: Block, q: Block)
    requires IsMasked(base) && Valid(cut)
  {
    && IsMasked(q) && base.bits <= q.bits && Contains(base, q.addr)
    && !Overlaps(q, cut)
    && (q == base || (q.bits > 0 && Valid(Parent(q)) && Overlaps(Parent(q), cut)))
  }

  lemma OverlapsEnclosing(p: Block, q: Block, cut: Block)
    requires Valid(p) && Valid(q) && Valid(cut)
    requires p.bits <= q.bits && Contains(p, q.addr) && Overlaps(q, cut)
    ensures Overlaps(p, cut)
  {
    var m := if q.bits < cut.bits then q.bits else cut.bits;
    var n := if p.bits < cut.bits then p.bits else cut.bits;
    CoarserIndex(q.addr, cut.addr, n, m);
    CoarserIndex(p.addr, q.addr, n, p.bits);
  }

  /** The branch the source guards with base.Bits() >= 32 is never taken. */
  lemma DeadBranch(base: Block, cut: Block)
    requires Valid(base) && Valid(cut) && Overlaps(base, cut)
    requires !(cut.bits <= base.bits && Contains(cut, base.addr))
    ensures base.bits < cut.bits <= 32
  {
  }

  lemma RemainderInHalf(base: Block, cut: Block, half: Block, q: Block)
    requires IsMasked(base) && base.bits < 32 && Valid(cut)
    requires half == LowerHalf(base) || half == UpperHalf(base)
    requires Overlaps(base, cut) && base.bits < cut.bits
    requires IsMasked(half) && half.bits == base.bits + 1
    requires IsMasked(q) && half.bits <= q.bits && Contains(half, q.addr)
    ensures Remainder(base, cut, q) <==> Remainder(half, cut, q)
  {
    HalvesSplit(base);
    if q == half {
      ParentHolds(half);
      assert Contains(base, half.addr) by { ContainsSelf(half); }
      SameBlock(base, Parent(half)) by {
        CoarserIndex(half.addr, base.addr, base.bits, base.bits);
      }
    }
  }

  /** When the cut lies strictly inside, what remains is what remains of each half. */
  lemma RemainderSplits(base: Block, cut: Block, q: Block)
    requires IsMasked(base) && base.bits < 32 && Valid(cut)
    requires Overlaps(base, cut) && base.bits < cut.bits
    requires IsMasked(LowerHalf(base)) && IsMasked(UpperHalf(base))
    ensures Remainder(base, cut, q) <==> Remainder(LowerHalf(base), cut, q) || Remainder(UpperHalf(base), cut, q)
  {
    HalvesSplit(base);
    var lo, hi := LowerHalf(base), UpperHalf(base);
    if IsMasked(q) && lo.bits <= q.bits {
      if Contains(lo, q.addr) {
        RemainderInHalf(base, cut, lo, q);
      } else if Contains(hi, q.addr) {
        RemainderInHalf(base, cut, hi, q);
      }
    } else if IsMasked(q) && q.bits == base.bits && Contains(base, q.addr) {
      SameBlock(base, q);
    }
  }

  lemma NothingRemains(base: Block, cut: Block, q: Block)
    requires IsMasked(base) && Valid(cut) && cut.bits <= base.bits && Contains(cut, base.addr)
    ensures !Remainder(base, cut, q)
  {
    if IsMasked(q) && base.bits <= q.bits && Contains(base, q.addr) {
      CoarserIndex(q.addr, base.addr, cut.bits, base.bits);
    }
  }

  lemma AllRemains(base: Block, cut: Block, q: Block)
    requires IsMasked(base) && Valid(cut) && !Overlaps(base, cut) && Remainder(base, cut, q)
    ensures q == base
  {
    if q != base {
      RemainderParentInside(base, q);
      OverlapsEnclosing(base, Parent(q), cut);
    }
  }

  lemma {:induction false} SubtractMembers(base: Block, cut: Block)
    requires IsMasked(base) && Valid(cut)
    ensures forall q :: q in SubtractPrefix(base, cut) <==> Remainder(base, cut, q)
    decreases 32 - base.bits
  {
    if !Overlaps(base, cut) {
      forall q | Remainder(base, cut, q) ensures q == base { AllRemains(base, cut, q); }
    } else if cut.bits <= base.bits && Contains(cut, base.addr) {
      forall q ensures !Remainder(base, cut, q) { NothingRemains(base, cut, q); }
    } else {
      DeadBranch(base, cut);
      HalvesSplit(base);
      SubtractMembers(LowerHalf(base), cut);
      SubtractMembers(UpperHalf(base), cut);
      forall q ensures q in SubtractPrefix(base, cut) <==> Remainder(base, cut, q) {
        RemainderSplits(base, cut, q);
      }
    }
  }

  lemma RemainderParentInside(base: Block, q: Block)
    requires IsMasked(base) && IsMasked(q) && base.bits <= q.bits && Contains(base, q.addr) && q != base
    ensures q.bits > base.bits && Valid(Parent(q))
    ensures base.bits <= Parent(q).bits && Contains(base, Parent(q).addr)
  {
    if q.bits == base.bits { SameBlock(base, q); }
    ParentHolds(q);
    CoarserIndex(Parent(q).addr, q.addr, base.bits, q.bits - 1);
  }

  // ---- address order -----------------------------------------------------------------

  function End(p: Block): nat
    requires Valid(p)
  {
    p.addr + Size(p.bits)
  }

  /** Each block ends before the next begins. */
  predicate Ordered(s: seq<Block>) {
    && AllMasked(s)
    && forall i, j :: 0 <= i < j < |s| ==> End(s[i]) <= s[j].addr
  }

  predicate Between(s: seq<Block>, lo: nat, hi: nat)
    requires AllMasked(s)
  {
    forall i :: 0 <= i < |s| ==> lo <= s[i].addr && End(s[i]) <= hi
  }

  lemma OrderedConcat(s: seq<Block>, t: seq<Block>, lo: nat, mid: nat, hi: nat)
    requires Ordered(s) && Ordered(t) && Between(s, lo, mid) && Between(t, mid, hi) && lo <= mid <= hi
    ensures Ordered(s + t) && Between(s + t, lo, hi)
  {
  }

  lemma {:induction false} SubtractOrdered(base: Block, cut: Block)
    requires IsMasked(base) && Valid(cut)
    ensures Ordered(SubtractPrefix(base, cut))
    ensures Between(SubtractPrefix(base, cut), base.addr, End(base))
    decreases 32 - base.bits
  {
    if Overlaps(base, cut) && !(cut.bits <= base.bits && Contains(cut, base.addr)) && base.bits < 32 {
      HalvesSplit(base);
      var lo, hi := LowerHalf(base), UpperHalf(base);
      SubtractOrdered(lo, cut);
      SubtractOrdered(hi, cut);
      OrderedConcat(SubtractPrefix(lo, cut), SubtractPrefix(hi, cut), base.addr, hi.addr, End(base));
    }
  }

  lemma SubtractAllMasked(routes: seq<Block>, cut: Block)
    requires AllMasked(routes) && Valid(cut)
    ensures AllMasked(SubtractAll(routes, cut))
  {
    if routes != [] {
      SubtractOrdered(routes[0], cut);
      SubtractAllMasked(routes[1..], cut);
    }
  }

  lemma {:induction false} SubtractAllOrdered(routes: seq<Block>, cut: Block, lo: nat, hi: nat)
    requires Ordered(routes) && Valid(cut) && Between(routes, lo, hi)
    ensures Ordered(SubtractAll(routes, cut)) && Between(SubtractAll(routes, cut), lo, hi)
  {
    if routes != [] {
      var rest := routes[1..];
      SubtractOrdered(routes[0], cut);
      assert Between(rest, End(routes[0]), hi) by {
        forall i | 0 <= i < |rest| ensures End(routes[0]) <= rest[i].addr { assert rest[i] == routes[i + 1]; }
      }
      assert Ordered(rest) by {
        forall i, j | 0 <= i < j < |rest| ensures End(rest[i]) <= rest[j].addr {
          assert rest[i] == routes[i + 1] && rest[j] == routes[j + 1];
        }
      }
      SubtractAllOrdered(rest, cut, End(routes[0]), hi);
    }
  }

  lemma {:induction false} SubtractAllMembers(routes: seq<Block>, cut: Block, q: Block)
    requires AllMasked(routes) && Valid(cut)
    ensures q in SubtractAll(routes, cut) <==> exists base :: base in routes && Remainder(base, cut, q)
  {
    if routes != [] {
      SubtractMembers(routes[0], cut);
      SubtractAllMembers(routes[1..], cut, q);
      if base :| base in routes && Remainder(base, cut, q) {
        if base != routes[0] { assert base in routes[1..]; }
      }
    }
  }

  // ---- the set of free addresses and its maximal blocks ------------------------------------

  ghost predicate Inside(q: Block, free: iset<Addr>)
    requires Valid(q)
  {
    forall x: Addr :: Contains(q, x) ==> x in free
  }

  /** q lies in the set and the block one bit shorter does not. */
  ghost predicate Maximal(q: Block, free: iset<Addr>) {
    && IsMasked(q) && Inside(q, free)
    && (q.bits > 0 ==> Valid(Parent(q)) && !Inside(Parent(q), free))
  }

  /** The canonical cover of a set: exactly its maximal blocks, in address order. */
  ghost predicate CanonicalCover(routes: seq<Block>, free: iset<Addr>) {
    && Ordered(routes)
    && forall q :: q in routes <==> Maximal(q, free)
  }

  ghost function Addresses(p: Block): iset<Addr>
    requires Valid(p)
  {
    iset x: Addr | Contains(p, x)
  }

  /** Every block inside the set lies in a maximal one. */
  lemma {:induction false} Climb(q: Block, free: iset<Addr>) returns (base: Block)
    requires IsMasked(q) && Inside(q, free)
    ensures Maximal(base, free) && base.bits <= q.bits && Contains(base, q.addr)
    decreases q.bits
  {
    if Maximal(q, free) {
      base := q;
    } else {
      ParentHolds(q);
      base := Climb(Parent(q), free);
      CoarserIndex(q.addr, Parent(q).addr, base.bits, q.bits - 1);
    }
  }

  /** Two maximal blocks with an address in common are the same block. */
  lemma MaximalDisjoint(p: Block, q: Block, free: iset<Addr>, x: Addr)
    requires Maximal(p, free) && Maximal(q, free) && Contains(p, x) && Contains(q, x)
    ensures p == q
  {
    if p.bits == q.bits {
      SameBlock(p, q);
    } else {
      var a, b := if p.bits < q.bits then p else q, if p.bits < q.bits then q else p;
      Laminar(a, b, x);
      ParentIsLeast(b, a);
      assert Inside(Parent(b), free);
    }
  }

  lemma OverlapMeansShared(p: Block, q: Block)
    requires Valid(p) && Valid(q)
    ensures Overlaps(p, q) <==> exists x: Addr :: Contains(p, x) && Contains(q, x)
  {
    var a, b := if p.bits <= q.bits then p else q, if p.bits <= q.bits then q else p;
    Laminar(a, b, b.addr);
    if x: Addr :| Contains(p, x) && Contains(q, x) { Laminar(a, b, x); }
  }

  lemma RemainderIsMaximal(base: Block, cut: Block, q: Block, free: iset<Addr>)
    requires Maximal(base, free) && Valid(cut) && Remainder(base, cut, q)
    ensures Maximal(q, free - Addresses(cut))
  {
    OverlapMeansShared(q, cut);
    forall x: Addr | Contains(q, x) ensures x in free - Addresses(cut) {
      CoarserIndex(x, q.addr, base.bits, q.bits);
    }
    if q != base {
      OverlapMeansShared(Parent(q), cut);
    }
  }

  lemma MaximalIsRemainder(cut: Block, q: Block, free: iset<Addr>) returns (base: Block)
    requires Valid(cut) && Maximal(q, free - Addresses(cut))
    ensures Maximal(base, free) && Remainder(base, cut, q)
  {
    assert Inside(q, free);
    base := Climb(q, free);
    OverlapMeansShared(q, cut);
    if q != base {
      RemainderParentInside(base, q);
      ParentHolds(q);
      forall x: Addr | Contains(Parent(q), x) ensures x in free {
        CoarserIndex(x, Parent(q).addr, base.bits, Parent(q).bits);
      }
      OverlapMeansShared(Parent(q), cut);
    }
  }

  /** One cut turns the canonical cover of a set into that of the set minus the cut. */
  lemma SubtractKeepsCanonical(routes: seq<Block>, cut: Block, free: iset<Addr>)
    requires CanonicalCover(routes, free) && Valid(cut)
    ensures CanonicalCover(SubtractAll(routes, cut), free - Addresses(cut))
  {
    assert Between(routes, 0, WORD) by {
      forall i | 0 <= i < |routes| ensures End(routes[i]) <= WORD { IndexOfWord(routes[i].addr, routes[i].bits); }
    }
    SubtractAllOrdered(routes, cut, 0, WORD);
    forall q ensures q in SubtractAll(routes, cut) <==> Maximal(q, free - Addresses(cut)) {
      SubtractAllMembers(routes, cut, q);
      if q in SubtractAll(routes, cut) {
        var base :| base in routes && Remainder(base, cut, q);
        RemainderIsMaximal(base, cut, q, free);
      } else if Maximal(q, free - Addresses(cut)) {
        var base := MaximalIsRemainder(cut, q, free);
      }
    }
  }

  // ---- the whole list -----------------------------------------------------------------

  predicate Protects(protected: seq<Prefix>, x: Addr)
    requires WellFormed(protected)
  {
    exists i :: 0 <= i < |protected| && protected[i].V4? && Contains(protected[i].block, x)
  }

  predicate NoneInvalid(protected: seq<Prefix>) {
    forall i :: 0 <= i < |protected| ==> !protected[i].Invalid?
  }

  /** The addresses the tunnel should route: those no prefix protects. */
  ghost function Free(protected: seq<Prefix>): iset<Addr>
    requires WellFormed(protected)
  {
    iset x: Addr | !Protects(protected, x)
  }

  const EVERYTHING := [Block(0, 0)]

  lemma EverythingIsCanonical()
    ensures CanonicalCover(EVERYTHING, Free([]))
  {
    FirstOfZero(0);
    IndexOfFirst(0, 0);
    forall q | IsMasked(q) && q.bits == 0 ensures q == Block(0, 0) {
      IndexOfWord(q.addr, 0);
      SizeOfAll();
    }
    forall q | IsMasked(q) && q.bits > 0 ensures !Maximal(q, Free([])) {
      ParentHolds(q);
      assert Inside(Parent(q), Free([]));
    }
  }

  lemma {:induction false} CarveKeepsCanonical(routes: seq<Block>, protected: seq<Prefix>, free: iset<Addr>)
    requires CanonicalCover(routes, free) && WellFormed(protected)
    ensures Carve(routes, protected).Ok? <==> NoneInvalid(protected)
    ensures Carve(routes, protected).Ok? ==>
              CanonicalCover(Carve(routes, protected).value, free * Free(protected))
    decreases |protected|
  {
    if protected == [] {
      assert free * Free(protected) == free;
    } else {
      var rest := protected[1..];
      match protected[0]
      case Invalid =>
      case V6 =>
        CarveKeepsCanonical(routes, rest, free);
        FreeOfRest(protected);
        assert free * Free(rest) == free * Free(protected);
        ShiftNoneInvalid(protected);
      case V4(b) =>
        MaskedIsMasked(b);
        SubtractAllMasked(routes, Masked(b));
        SubtractKeepsCanonical(routes, Masked(b), free);
        CarveKeepsCanonical(SubtractAll(routes, Masked(b)), rest, free - Addresses(Masked(b)));
        FreeOfRest(protected);
        assert (free - Addresses(Masked(b))) * Free(rest) == free * Free(protected);
        ShiftNoneInvalid(protected);
    }
  }

  lemma ShiftNoneInvalid(protected: seq<Prefix>)
    requires protected != []
    ensures NoneInvalid(protected) <==> !protected[0].Invalid? && NoneInvalid(protected[1..])
  {
    var rest := protected[1..];
    assert forall i :: 0 < i < |protected| ==> protected[i] == rest[i - 1];
    assert forall i :: 0 <= i < |rest| ==> rest[i] == protected[i + 1];
  }

  lemma FreeOfRest(protected: seq<Prefix>)
    requires WellFormed(protected) && protected != []
    ensures WellFormed(protected[1..])
    ensures forall x: Addr :: Protects(protected, x) <==>
              (protected[0].V4? && Contains(protected[0].block, x)) || Protects(protected[1..], x)
  {
    var rest := protected[1..];
    forall x: Addr ensures Protects(protected, x) <==>
        (protected[0].V4? && Contains(protected[0].block, x)) || Protects(rest, x) {
      if i :| 0 <= i < |protected| && protected[i].V4? && Contains(protected[i].block, x) {
        if i > 0 { assert rest[i - 1] == protected[i]; }
      }
      if i :| 0 <= i < |rest| && rest[i].V4? && Contains(rest[i].block, x) {
        assert protected[i + 1] == rest[i];
      }
    }
  }

  // ---- the final sort ---------------------------------------------------------------------

  predicate RouteLess(p: Block, q: Block) {
    if p.addr != q.addr then p.addr < q.addr else p.bits < q.bits
  }

  lemma OrderedIsSorted(s: seq<Block>)
    requires Ordered(s)
    ensures StrictWeakOrder(RouteLess) && StrictlySortedBy(RouteLess, s)
  {
  }

  /** The final sort changes nothing, whatever sorting algorithm is used. */
  lemma SortLeavesRoutes(s: seq<Block>, sorted: seq<Block>)
    requires Ordered(s) && SortedBy(RouteLess, sorted) && multiset(sorted) == multiset(s)
    ensures sorted == s
  {
    OrderedIsSorted(s);
    SortIsIdentity(RouteLess, s, sorted);
  }

  // ---- the generator ------------------------------------------------------------------------

  method IPv4RoutesExcluding(protected: seq<Prefix>) returns (r: Result<seq<Block>>)
    requires WellFormed(protected)
    ensures r.Ok? <==> NoneInvalid(protected)
    ensures r.Ok? ==> CanonicalCover(r.value, Free(protected))
  {
    EverythingIsCanonical();
    CarveKeepsCanonical(EVERYTHING, protected, Free([]));
    assert Free([]) * Free(protected) == Free(protected);
    var routes := EVERYTHING;
    var k := 0;
    while k < |protected|
      invariant 0 <= k <= |protected| && AllMasked(routes)
      invariant Carve(routes, protected[k..]) == Carve(EVERYTHING, protected)
    {
      assert protected[k..][1..] == protected[k + 1..];
      var cut := protected[k];
      k := k + 1;
      match cut
      case Invalid => return InvalidPrefix;
      case V6 =>
      case V4(b) => routes := SubtractFromEach(routes, Masked(b));
    }
    OrderedIsSorted(routes);
    SortSorts(RouteLess, routes);
    SortKeepsElements(RouteLess, routes);
    SortLeavesRoutes(routes, Sort(RouteLess, routes));
    r := Ok(Sort(RouteLess, routes));
  }

  /** The inner loop: rebuild the list with one cut taken from every route. */
  method SubtractFromEach(routes: seq<Block>, cut: Block) returns (next: seq<Block>)
    requires AllMasked(routes) && Valid(cut)
    ensures next == SubtractAll(routes, cut) && AllMasked(next)
  {
    SubtractAllMasked(routes, cut);
    next := [];
    for i := 0 to |routes|
      invariant next + SubtractAll(routes[i..], cut) == SubtractAll(routes, cut)
    {
      assert routes[i..][1..] == routes[i + 1..];
      next := next + SubtractPrefix(routes[i], cut);
    }
    assert routes[|routes|..] == [];
  }

  // ---- what a canonical cover means -----------------------------------------------------------

  predicate Covers(routes: seq<Block>, x: Addr)
    requires forall i :: 0 <= i < |routes| ==> Valid(routes[i])
  {
    exists i :: 0 <= i < |routes| && Contains(routes[i], x)
  }

  lemma BlockOfOne(x: Addr)
    ensures IsMasked(Block(x, 32))
    ensures forall y: nat :: Contains(Block(x, 32), y) <==> y == x
  {
  }

  /** Exactness: an address is in exactly one route if it is free, in none otherwise. */
  lemma CoverIsExact(routes: seq<Block>, free: iset<Addr>, x: Addr)
    requires CanonicalCover(routes, free)
    ensures Covers(routes, x) <==> x in free
    ensures forall i, j | 0 <= i < |routes| && 0 <= j < |routes| ::
              Contains(routes[i], x) && Contains(routes[j], x) ==> i == j
  {
    if x in free {
      BlockOfOne(x);
      var base := Climb(Block(x, 32), free);
      var i :| 0 <= i < |routes| && routes[i] == base;
      assert Contains(routes[i], x);
    }
    if i :| 0 <= i < |routes| && Contains(routes[i], x) { assert routes[i] in routes; }
    forall i, j | 0 <= i < |routes| && 0 <= j < |routes| && Contains(routes[i], x) && Contains(routes[j], x)
      ensures i == j
    {
      BlockIsInterval(x, Index(routes[i].addr, routes[i].bits), routes[i].bits);
      BlockIsInterval(x, Index(routes[j].addr, routes[j].bits), routes[j].bits);
    }
  }

  /** Strictly increasing by address, so the comparison's tie-break is never used. */
  lemma StrictlyIncreasing(routes: seq<Block>, i: nat, j: nat)
    requires Ordered(routes) && i < j < |routes|
    ensures routes[i].addr < routes[j].addr
  {
  }

  /** A set has one canonical cover. */
  lemma CoverIsUnique(a: seq<Block>, b: seq<Block>, free: iset<Addr>)
    requires CanonicalCover(a, free) && CanonicalCover(b, free)
    ensures a == b
  {
    OrderedIsSorted(a);
    OrderedIsSorted(b);
    assert forall q :: q in a <==> q in b;
    StrictlySortedUnique(RouteLess, a, b);
  }

  lemma TailOrdered(a: seq<Block>)
    requires Ordered(a) && a != []
    ensures Ordered(a[1..]) && a[0] !in a[1..]
  {
    assert forall k :: 0 <= k < |a| - 1 ==> a[1..][k] == a[k + 1];
  }

  // ---- no shorter list covers the set -----------------------------------------------------------

  ghost function CoveringIndex(cover: seq<Block>, x: Addr): (k: nat)
    requires forall i :: 0 <= i < |cover| ==> Valid(cover[i])
    requires Covers(cover, x)
    ensures k < |cover| && Contains(cover[k], x)
  {
    var k :| 0 <= k < |cover| && Contains(cover[k], x); k
  }

  lemma Pigeonhole(s: seq<nat>, n: nat)
    requires forall i :: 0 <= i < |s| ==> s[i] < n
    requires forall i, j :: 0 <= i < j < |s| ==> s[i] != s[j]
    ensures |s| <= n
  {
    DistinctCount(s);
    IntervalSize(0, n);
    SubsetSize(Elements(s), Interval(0, n));
  }

  /** Minimality: any list of prefixes, in any order and with any overlaps, that covers
      exactly the same addresses is at least as long. */
  lemma CoverIsShortest(routes: seq<Block>, cover: seq<Block>, free: iset<Addr>)
    requires CanonicalCover(routes, free)
    requires forall i :: 0 <= i < |cover| ==> Valid(cover[i])
    requires forall x: Addr :: Covers(cover, x) <==> x in free
    ensures |routes| <= |cover|
  {
    forall i | 0 <= i < |routes| ensures Covers(cover, routes[i].addr) {
      assert routes[i] in routes;
      assert Contains(routes[i], routes[i].addr);
    }
    var picks := seq(|routes|, i requires 0 <= i < |routes| => CoveringIndex(cover, routes[i].addr));
    forall i, j | 0 <= i < j < |routes| ensures picks[i] != picks[j] {
      if picks[i] == picks[j] {
        var c := cover[picks[i]];
        MaskedIsMasked(c);
        assert Inside(Masked(c), free);
        var base := Climb(Masked(c), free);
        var x, y := routes[i].addr, routes[j].addr;
        CoarserIndex(x, Masked(c).addr, base.bits, c.bits);
        CoarserIndex(y, Masked(c).addr, base.bits, c.bits);
        MaximalDisjoint(base, routes[i], free, x);
        MaximalDisjoint(base, routes[j], free, y);
      }
    }
    Pigeonhole(picks, |cover|);
  }

  /** The result depends only on the union of the IPv4 prefixes: order, duplicates,
      nesting and host bits change nothing. */
  lemma SameUnionSameRoutes(p: seq<Prefix>, q: seq<Prefix>, a: seq<Block>, b: seq<Block>)
    requires WellFormed(p) && WellFormed(q)
    requires forall x: Addr :: Protects(p, x) <==> Protects(q, x)
    requires CanonicalCover(a, Free(p)) && CanonicalCover(b, Free(q))
    ensures a == b
  {
    assert Free(p) == Free(q);
    CoverIsUnique(a, b, Free(p));
  }

  // ---- sizes -------------------------------------------------------------------------------------

  function CountLength(s: seq<Block>, b: nat): nat {
    if s == [] then 0 else (if s[0].bits == b then 1 else 0) + CountLength(s[1..], b)
  }

  lemma {:induction false} CountLengthAppend(s: seq<Block>, t: seq<Block>, b: nat)
    ensures CountLength(s + t, b) == CountLength(s, b) + CountLength(t, b)
  {
    if s == [] {
      assert s + t == t;
    } else {
      assert (s + t)[1..] == s[1..] + t;
      CountLengthAppend(s[1..], t, b);
    }
  }

  /** The cut lies strictly inside the block. */
  predicate StrictlyInside(base: Block, cut: Block)
    requires Valid(base) && Valid(cut)
  {
    base.bits < cut.bits && Contains(base, cut.addr)
  }

  /** A cut strictly inside a block leaves one block of every length between. */
  lemma {:induction false} OneBlockPerLength(base: Block, cut: Block)
    requires IsMasked(base) && IsMasked(cut) && StrictlyInside(base, cut)
    ensures |SubtractPrefix(base, cut)| == cut.bits - base.bits
    ensures forall b: nat :: CountLength(SubtractPrefix(base, cut), b) == if base.bits < b <= cut.bits then 1 else 0
    decreases 32 - base.bits
  {
    HalvesSplit(base);
    var lo, hi := LowerHalf(base), UpperHalf(base);
    assert Contains(cut, cut.addr);
    var hit, miss := if Contains(lo, cut.addr) then lo else hi, if Contains(lo, cut.addr) then hi else lo;
    assert !Overlaps(miss, cut);
    assert SubtractPrefix(miss, cut) == [miss];
    if cut.bits == base.bits + 1 {
      SameBlock(hit, cut);
      assert SubtractPrefix(hit, cut) == [];
    } else {
      OneBlockPerLength(hit, cut);
    }
    forall b: nat ensures CountLength(SubtractPrefix(base, cut), b) == if base.bits < b <= cut.bits then 1 else 0 {
      CountLengthAppend(SubtractPrefix(lo, cut), SubtractPrefix(hi, cut), b);
      assert CountLength([miss], b) == (if miss.bits == b then 1 else 0) + CountLength([], b);
    }
  }

  lemma SubtractSize(base: Block, cut: Block)
    requires IsMasked(base) && IsMasked(cut)
    ensures |SubtractPrefix(base, cut)| <= if StrictlyInside(base, cut) then 32 else 1
  {
    if StrictlyInside(base, cut) {
      OneBlockPerLength(base, cut);
    } else if Overlaps(base, cut) {
      assert Contains(cut, base.addr);
    }
  }

  /** One cut adds at most 31 routes: at most one route holds it strictly. */
  lemma {:induction false} SubtractAllSize(routes: seq<Block>, cut: Block)
    requires Ordered(routes) && IsMasked(cut)
    ensures |SubtractAll(routes, cut)| <= |routes| + 31
    ensures (forall i :: 0 <= i < |routes| ==> !StrictlyInside(routes[i], cut)) ==>
              |SubtractAll(routes, cut)| <= |routes|
  {
    if routes != [] {
      var rest := routes[1..];
      TailOrdered(routes);
      SubtractSize(routes[0], cut);
      SubtractAllSize(rest, cut);
      if StrictlyInside(routes[0], cut) {
        forall i | 0 <= i < |rest| ensures !StrictlyInside(rest[i], cut) {
          assert rest[i] == routes[i + 1];
          var p, q := routes[0], rest[i];
          BlockIsInterval(cut.addr, Index(p.addr, p.bits), p.bits);
          BlockIsInterval(cut.addr, Index(q.addr, q.bits), q.bits);
        }
      } else {
        assert (forall i :: 0 <= i < |routes| ==> !StrictlyInside(routes[i], cut)) ==>
            (forall i :: 0 <= i < |rest| ==> !StrictlyInside(rest[i], cut)) by {
          assert forall i :: 0 <= i < |rest| ==> rest[i] == routes[i + 1];
        }
      }
    }
  }

  function CutCount(protected: seq<Prefix>): nat {
    if protected == [] then 0 else (if protected[0].V4? then 1 else 0) + CutCount(protected[1..])
  }

  lemma {:induction false} CarveSize(routes: seq<Block>, protected: seq<Prefix>)
    requires Ordered(routes) && WellFormed(protected)
    ensures Carve(routes, protected).Ok? ==> |Carve(routes, protected).value| <= |routes| + 31 * CutCount(protected)
    decreases |protected|
  {
    if protected != [] {
      match protected[0]
      case Invalid =>
      case V6 => CarveSize(routes, protected[1..]);
      case V4(b) =>
        MaskedIsMasked(b);
        SubtractAllSize(routes, Masked(b));
        assert Between(routes, 0, WORD) by {
          forall i | 0 <= i < |routes| ensures End(routes[i]) <= WORD { IndexOfWord(routes[i].addr, routes[i].bits); }
        }
        SubtractAllOrdered(routes, Masked(b), 0, WORD);
        CarveSize(SubtractAll(routes, Masked(b)), protected[1..]);
    }
  }

  /** At most 1 + 31k routes for k IPv4 cuts. */
  lemma RouteCountBound(protected: seq<Prefix>, routes: seq<Block>)
    requires WellFormed(protected) && NoneInvalid(protected) && CanonicalCover(routes, Free(protected))
    ensures |routes| <= 1 + 31 * CutCount(protected)
  {
    EverythingIsCanonical();
    CarveKeepsCanonical(EVERYTHING, protected, Free([]));
    assert Free([]) * Free(protected) == Free(protected);
    CoverIsUnique(routes, Carve(EVERYTHING, protected).value, Free(protected));
    CarveSize(EVERYTHING, protected);
  }

  // ---- the callers ----------------------------------------------------------------------------------

  /** The de-duplicating loop of `resolveProtectedPrefixes`: each masked prefix once, in the
      order of first occurrence. */
  method UniquePrefixes(result: seq<Block>) returns (unique: seq<Block>)
    requires AllValid(result)
    ensures Ordinary(unique) && Distinct(unique)
    ensures forall x: Addr :: Covers(unique, x) <==> Covers(result, x)
    ensures InFirstOrder(result, unique)
  {
    var seen: set<Block> := {};
    unique := [];
    for k := 0 to |result|
      invariant Kept(result, k, unique)
      invariant forall p :: p in seen <==> p in unique
    {
      KeptNext(result, k, unique);
      var prefix := Masked(result[k]);
      if prefix !in seen {
        seen := seen + {prefix};
        unique := unique + [prefix];
      }
    }
    KeptDistinct(result, |result|, unique);
    forall x: Addr ensures Covers(unique, x) <==> Covers(result, x) { UniqueCovers(result, unique, x); }
  }

  predicate AllValid(s: seq<Block>) {
    forall i :: 0 <= i < |s| ==> Valid(s[i])
  }

  predicate Distinct(s: seq<Block>) {
    forall i, j :: 0 <= i < j < |s| ==> s[i] != s[j]
  }

  /** Where the masked prefix first occurs; the length of the list if nowhere. */
  function FirstIndex(result: seq<Block>, p: Block): nat
    requires AllValid(result)
  {
    if result == [] || Masked(result[0]) == p then 0 else 1 + FirstIndex(result[1..], p)
  }

  lemma {:induction false} FirstIndexIs(result: seq<Block>, p: Block, k: nat)
    requires AllValid(result) && k <= |result|
    ensures FirstIndex(result, p) == k < |result| <==> k < |result| && Masked(result[k]) == p && forall i :: 0 <= i < k ==> Masked(result[i]) != p
  {
    if result != [] {
      var rest := result[1..];
      assert forall i :: 0 < i < |result| ==> result[i] == rest[i - 1];
      if k > 0 {
        FirstIndexIs(rest, p, k - 1);
        assert forall i :: 0 <= i < k - 1 ==> rest[i] == result[i + 1];
      }
    }
  }

  /** Every prefix occurs, and earlier ones occur first. */
  predicate InFirstOrder(result: seq<Block>, unique: seq<Block>)
    requires AllValid(result)
  {
    && (forall i :: 0 <= i < |unique| ==> FirstIndex(result, unique[i]) < |result|)
    && (forall i, j :: 0 <= i < j < |unique| ==> FirstIndex(result, unique[i]) < FirstIndex(result, unique[j]))
  }

  /** What the loop has made of the first k prefixes. */
  predicate Kept(result: seq<Block>, k: nat, unique: seq<Block>) {
    && AllValid(result) && k <= |result| && Ordinary(unique) && InFirstOrder(result, unique)
    && (forall i :: 0 <= i < |unique| ==> FirstIndex(result, unique[i]) < k)
    && (forall i :: 0 <= i < k ==> Masked(result[i]) in unique)
  }

  lemma KeptNext(result: seq<Block>, k: nat, unique: seq<Block>)
    requires k < |result| && Kept(result, k, unique)
    ensures var p := Masked(result[k]);
            Kept(result, k + 1, if p in unique then unique else unique + [p])
  {
    MaskedIsMasked(result[k]);
    if Masked(result[k]) !in unique { NewFirst(result, k, unique); }
  }

  lemma FirstHere(result: seq<Block>, k: nat)
    requires AllValid(result) && k < |result| && forall i :: 0 <= i < k ==> Masked(result[i]) != Masked(result[k])
    ensures FirstIndex(result, Masked(result[k])) == k
  {
    FirstIndexIs(result, Masked(result[k]), k);
  }

  lemma FirstOrderAppend(result: seq<Block>, unique: seq<Block>, p: Block)
    requires AllValid(result) && InFirstOrder(result, unique) && FirstIndex(result, p) < |result|
    requires forall i :: 0 <= i < |unique| ==> FirstIndex(result, unique[i]) < FirstIndex(result, p)
    ensures InFirstOrder(result, unique + [p])
  {
    var more := unique + [p];
    forall i, j | 0 <= i < j < |more| ensures FirstIndex(result, more[i]) < FirstIndex(result, more[j]) {
      assert more[i] == unique[i] && more[j] == if j < |unique| then unique[j] else p;
    }
  }

  /** A prefix not yet kept first occurs here, after all that are kept. */
  lemma NewFirst(result: seq<Block>, k: nat, unique: seq<Block>)
    requires k < |result| && Kept(result, k, unique) && Masked(result[k]) !in unique
    requires IsMasked(Masked(result[k])) && Valid(Masked(result[k]))
    ensures Kept(result, k + 1, unique + [Masked(result[k])])
  {
    FirstHere(result, k);
    FirstOrderAppend(result, unique, Masked(result[k]));
  }

  lemma KeptDistinct(result: seq<Block>, k: nat, unique: seq<Block>)
    requires Kept(result, k, unique)
    ensures Distinct(unique)
  {
  }

  predicate Ordinary(s: seq<Block>) {
    forall i :: 0 <= i < |s| ==> IsMasked(s[i]) && Valid(s[i])
  }

  lemma UniqueCovers(result: seq<Block>, unique: seq<Block>, x: Addr)
    requires Kept(result, |result|, unique)
    ensures Covers(unique, x) <==> Covers(result, x)
  {
    if i :| 0 <= i < |result| && Contains(result[i], x) {
      MaskedIsMasked(result[i]);
      var j :| 0 <= j < |unique| && unique[j] == Masked(result[i]);
    }
    if j :| 0 <= j < |unique| && Contains(unique[j], x) {
      var i := FirstIndex(result, unique[j]);
      FirstIndexIs(result, unique[j], i);
      MaskedIsMasked(result[i]);
    }
  }

  /** 172.30.255.1/30, the default gateway of the generated tunnel. */
  const DEFAULT_GATEWAY := V4(Block(0xAC1E_FF01, 30))

  /** The routes `BuildFullTunnelConfig` installs for a mesh prefix, the addresses of
      coordinator and relay, and a gateway prefix. */
  method FullTunnelRoutes(mesh: Block, hosts: seq<Addr>, gateway: Prefix) returns (routes: seq<Block>)
    requires Valid(mesh) && (gateway.V4? ==> Valid(gateway.block))
    ensures Ordered(routes)
    ensures var g := if gateway.Invalid? then V4(Block(0xAC1E_FF01, 30)) else gateway;
            forall x: Addr :: Covers(routes, x) <==>
              !Contains(mesh, x) && x !in hosts && !(g.V4? && Contains(g.block, x))
  {
    var result := [Masked(mesh)] + seq(|hosts|, i requires 0 <= i < |hosts| => Block(hosts[i], 32));
    MaskedIsMasked(mesh);
    var unique := UniquePrefixes(result);
    var g := if gateway.Invalid? then DEFAULT_GATEWAY else gateway;
    var cut := if g.V4? then V4(Masked(g.block)) else g;
    if g.V4? { MaskedIsMasked(g.block); }
    var protected := seq(|unique|, i requires 0 <= i < |unique| => V4(unique[i])) + [cut];
    var r := IPv4RoutesExcluding(protected);
    routes := r.value;
    forall x: Addr ensures Covers(routes, x) <==>
        !Contains(mesh, x) && x !in hosts && !(g.V4? && Contains(g.block, x)) {
      CoverIsExact(routes, Free(protected), x);
      assert Protects(protected, x) <==> Covers(unique, x) || (cut.V4? && Contains(cut.block, x)) by {
        ProtectsAppended(unique, cut, protected, x);
      }
      assert Covers(result, x) <==> Contains(mesh, x) || x in hosts by { ResultCovers(mesh, hosts, result, x); }
    }
  }

  lemma ProtectsAppended(unique: seq<Block>, cut: Prefix, protected: seq<Prefix>, x: Addr)
    requires Ordinary(unique) && WellFormed(protected)
    requires protected == seq(|unique|, i requires 0 <= i < |unique| => V4(unique[i])) + [cut]
    ensures cut.V4? ==> Valid(cut.block)
    ensures Protects(protected, x) <==> Covers(unique, x) || (cut.V4? && Contains(cut.block, x))
  {
    assert protected[|unique|] == cut;
    assert forall i :: 0 <= i < |unique| ==> protected[i] == V4(unique[i]);
    if i :| 0 <= i < |unique| && Contains(unique[i], x) { assert protected[i].V4? && Contains(protected[i].block, x); }
  }

  lemma ResultCovers(mesh: Block, hosts: seq<Addr>, result: seq<Block>, x: Addr)
    requires Valid(mesh)
    requires result == [Masked(mesh)] + seq(|hosts|, i requires 0 <= i < |hosts| => Block(hosts[i], 32))
    requires forall i :: 0 <= i < |result| ==> Valid(result[i])
    ensures Covers(result, x) <==> Contains(mesh, x) || x in hosts
  {
    MaskedIsMasked(mesh);
    BlockOfOne(x);
    assert forall i :: 0 <= i < |hosts| ==> result[i + 1] == Block(hosts[i], 32);
    if Contains(mesh, x) { assert Contains(result[0], x); }
    if x in hosts {
      var i :| 0 <= i < |hosts| && hosts[i] == x;
      assert Contains(result[i + 1], x);
    }
    if i :| 0 <= i < |result| && Contains(result[i], x) {
      if i > 0 { assert result[i] == Block(hosts[i - 1], 32); BlockOfOne(hosts[i - 1]); }
    }
  }
}
