/** kmalloc and kfree over slabs and pages: which blocks are live, where they lie, what a run conserves. */
module KmallocSpec {
  import opened Dyadic
  import Bits
  import opened BuddySpec
  import opened BuddyLaws
  import opened Kernel
  import opened SlabSpec

  /** A block handed to a client: block i of the class-c slab at page a, or 2^k whole pages at page a. */
  datatype Block = InSlab(a: nat, c: nat, i: nat) | Pages(a: nat, k: nat)

  function Addr(x: Block): nat {
    match x
    case InSlab(a, c, i) => a * PAGE_SIZE + i * BlockSize(c)
    case Pages(a, k) => a * PAGE_SIZE
  }

  /** real_size */
  function Size(x: Block): nat {
    match x
    case InSlab(a, c, i) => BlockSize(c)
    case Pages(a, k) => PAGE_SIZE * Pow2(k)
  }

  predicate Live(s: SlabSpec.State, x: Block) {
    match x
    case InSlab(a, c, i) => Outstanding(s, a, i) && s.slabs[a].cls == c
    case Pages(a, k) => Held(s.b, a, k) && a !in s.slabs
  }

  // ---------- effect of the slab operations on the live blocks ----------

  /** The live blocks of t are those of s and x. */
  ghost predicate Adds(s: SlabSpec.State, t: SlabSpec.State, x: Block) {
    !Live(s, x) && forall y :: Live(t, y) <==> Live(s, y) || y == x
  }

  ghost predicate SameLive(s: SlabSpec.State, t: SlabSpec.State) {
    forall y :: Live(t, y) <==> Live(s, y)
  }

  lemma HeldAcross(s: BuddySpec.State, t: BuddySpec.State, a: nat, k: nat, x: nat, j: nat)
    requires Handed(s, t, a, k)
    ensures Held(t, x, j) && !(a <= x < a + Pow2(k)) <==> Held(s, x, j)
    ensures Held(t, x, j) && a <= x < a + Pow2(k) ==> x == a && j == k
  {
  }

  lemma GrowLive(s: SlabSpec.State, c: nat, lo: nat, hi: nat)
    requires SInv(s, lo, hi) && c < CLASSES && Grow(s, c).Some?
    ensures SameLive(s, Grow(s, c).value)
  {
    var t := Grow(s, c).value;
    var r := Take(s.b, SLAB_ORDER);
    TakeKeeps(s.b, SLAB_ORDER, lo, hi);
    SlabsSurviveTake(s, r.s, r.a, SLAB_ORDER);
    FreshOk(c);
    hide Inv, Handed, Sorted, Fresh, SlabsOk;
    forall y ensures Live(t, y) <==> Live(s, y) {
      match y
      case InSlab(a, c', i) =>
      case Pages(a, k) => HeldAcross(s.b, t.b, r.a, SLAB_ORDER, a, k);
    }
  }

  lemma NewCurrentLive(s: SlabSpec.State, c: nat, lo: nat, hi: nat)
    requires c < CLASSES && |s.current| == CLASSES && SInv(s.(current := s.current[c := None]), lo, hi)
    ensures SameLive(s, NewCurrent(s, c))
  {
    hide Inv, Sorted, ChainOk, Grow;
    var s0 := s.(current := s.current[c := None]);
    assert FromPartial(s, c) == FromPartial(s0, c);
    FromPartialSorted(s0, c);
    var t := FromPartial(s, c);
    if t.current[c] == None && Grow(t, c).Some? {
      GrowLive(t, c, lo, hi);
    }
  }

  lemma TakeBlockLive(s: SlabSpec.State, c: nat, lo: nat, hi: nat)
    requires SInv(s, lo, hi) && c < CLASSES && s.current[c].Some?
    ensures s.current[c].value in s.slabs && s.slabs[s.current[c].value].free != []
    ensures var r := TakeBlock(s, c); Adds(s, r.s, InSlab(r.a, c, r.i))
  {
    CurrentFacts(s, c);
    var a := s.current[c].value;
    var l := s.slabs[a];
    assert ChainOk(l);
    PopChain(l);
    var t := s.(slabs := s.slabs[a := l.(free := l.free[1..])]);
    var x := InSlab(a, c, l.free[0]);
    hide Inv, Sorted, ChainOk, NewCurrent, SlabsOk, Blocks;
    assert l.free[0] in l.free;
    assert Adds(s, t, x);
    if l.free[1..] == [] {
      TakeBlockWeak(s, c, lo, hi);
      NewCurrentLive(t, c, lo, hi);
    }
  }

  /** The state between taking the last block and finding a new current slab. */
  lemma TakeBlockWeak(s: SlabSpec.State, c: nat, lo: nat, hi: nat)
    requires SInv(s, lo, hi) && c < CLASSES && s.current[c].Some?
    requires s.current[c].value in s.slabs && |s.slabs[s.current[c].value].free| == 1
    ensures var a := s.current[c].value; var l := s.slabs[a];
      SInv(s.(slabs := s.slabs[a := l.(free := l.free[1..])], current := s.current[c := None]), lo, hi)
  {
    CurrentFacts(s, c);
    hide Inv, Sorted;
    CurrentFullSorted(s, s.current[c].value);
    PopChain(s.slabs[s.current[c].value]);
  }

  /** __slab_alloc makes exactly one block live, or changes nothing. */
  lemma AllocLive(s: SlabSpec.State, c: nat, lo: nat, hi: nat)
    requires SInv(s, lo, hi) && c < CLASSES
    ensures match Alloc(s, c, lo, hi)
      case OutOfMemory(t) => t == s
      case Block(t, a, i) => Adds(s, t, InSlab(a, c, i))
  {
    hide Inv, SlabsOk, Sorted, NewCurrent, Live;
    if s.current[c].Some? {
      TakeBlockLive(s, c, lo, hi);
    } else if Grow(s, c).Some? {
      GrowLive(s, c, lo, hi);
      GrowKeeps(s, c, lo, hi);
      TakeBlockLive(Grow(s, c).value, c, lo, hi);
    }
  }

  lemma PutLive(s: SlabSpec.State, a: nat, i: nat)
    requires Outstanding(s, a, i)
    ensures Adds(PutBlock(s, a, i), s, InSlab(a, s.slabs[a].cls, i))
  {
  }

  lemma SameLiveLists(s: SlabSpec.State, t: SlabSpec.State)
    requires t.b == s.b && t.slabs == s.slabs
    ensures SameLive(s, t)
  {
  }

  /** A slab whose every block but i is free: giving it back ends block i and nothing else. */
  lemma WholeLive(s: SlabSpec.State, a: nat, i: nat, b': BuddySpec.State)
    requires Outstanding(s, a, i) && Held(s.b, a, SLAB_ORDER) && Handed(b', s.b, a, SLAB_ORDER)
    requires forall j: nat | 1 <= j < Blocks(s.slabs[a].cls) && j != i :: j in s.slabs[a].free
    ensures Adds(s.(b := b', slabs := s.slabs - {a}), s, InSlab(a, s.slabs[a].cls, i))
  {
    var t := s.(b := b', slabs := s.slabs - {a});
    forall y ensures Live(s, y) <==> Live(t, y) || y == InSlab(a, s.slabs[a].cls, i) {
      match y
      case InSlab(x, c, j) =>
      case Pages(x, k) => HeldAcross(b', s.b, a, SLAB_ORDER, x, k);
    }
  }

  /** __slab_free of a live block ends exactly that block. */
  lemma FreeBlockLive(s: SlabSpec.State, a: nat, i: nat, lo: nat, hi: nat)
    requires SInv(s, lo, hi) && Outstanding(s, a, i)
    ensures a in s.b.own && s.b.own[a].order <= TOP
    ensures Adds(FreeBlock(s, a, i), s, InSlab(a, s.slabs[a].cls, i))
  {
    hide Inv, Sorted, SlabsOk, ChainOk, Live, Pow2, BlockSize, Free;
    SlabFacts(s, a, lo, hi);
    var l := s.slabs[a];
    ClassSizes(l.cls);
    PushChain(l, i);
    var l' := l.(free := [i] + l.free);
    ChainBound(l');
    if |l.free| == Blocks(l.cls) - 2 {
      FreeKeeps(s.b, a, SLAB_ORDER, lo, hi);
      forall j: nat | 1 <= j < Blocks(l.cls) && j != i ensures j in l.free {
        assert j in l'.free;
      }
      WholeLive(s, a, i, Free(s.b, a));
      WholeShape(s, a, i);
      SameLiveLists(s.(b := Free(s.b, a), slabs := s.slabs - {a}), FreeBlock(s, a, i));
    } else {
      PutLive(s, a, i);
      SameLiveLists(PutBlock(s, a, i), FreeBlock(s, a, i));
    }
  }

  // ---------- where live blocks lie ----------

  ghost predicate Apart(x: Block, y: Block) {
    Addr(x) + Size(x) <= Addr(y) || Addr(y) + Size(y) <= Addr(x)
  }

  /** The pages a block lies in: whole pages, or the 32 pages of its slab. */
  function Home(x: Block): Chunk {
    match x
    case InSlab(a, c, i) => Chunk(a, SLAB_ORDER, true)
    case Pages(a, k) => Chunk(a, k, true)
  }

  /** Blocks 1..total-1 lie behind the first block and inside the 128 KB of the slab. */
  lemma BlockInside(c: nat, i: nat)
    requires c < CLASSES && 1 <= i < Blocks(c)
    ensures 64 <= i * BlockSize(c) && i * BlockSize(c) + BlockSize(c) <= 131072
  {
    ClassSizes(c);
    MulMonotone(BlockSize(c), i + 1, Blocks(c));
    MulMonotone(BlockSize(c), 1, i);
  }

  lemma BlockGap(b: nat, i: nat, j: nat)
    requires i < j
    ensures i * b + b <= j * b
  {
    MulMonotone(b, i + 1, j);
  }

  lemma InsideHome(s: SlabSpec.State, x: Block, lo: nat, hi: nat)
    requires SInv(s, lo, hi) && Live(s, x)
    ensures Held(s.b, Home(x).start, Home(x).order)
    ensures PAGE_SIZE * Home(x).start <= Addr(x) && Addr(x) + Size(x) <= PAGE_SIZE * (Home(x).start + Pow2(Home(x).order))
  {
    hide SInv, Blocks, BlockSize;
    match x
    case InSlab(a, c, i) =>
      SlabFacts(s, a, lo, hi);
      BlockInside(c, i);
    case Pages(a, k) =>
  }

  lemma ChunksApart(s: BuddySpec.State, a: nat, k: nat, b: nat, j: nat, lo: nat, hi: nat)
    requires Inv(s, lo, hi) && Held(s, a, k) && Held(s, b, j) && a != b
    ensures a + Pow2(k) <= b || b + Pow2(j) <= a
  {
    hide Inv;
    InvHeldPages(s, a, k, lo, hi);
    InvHeldPages(s, b, j, lo, hi);
  }

  /** Live blocks never overlap. */
  lemma LiveDisjoint(s: SlabSpec.State, x: Block, y: Block, lo: nat, hi: nat)
    requires SInv(s, lo, hi) && Live(s, x) && Live(s, y) && x != y
    ensures Apart(x, y)
  {
    hide Inv, SlabsOk, Sorted, Blocks, BlockSize;
    InsideHome(s, x, lo, hi);
    InsideHome(s, y, lo, hi);
    var h, g := Home(x), Home(y);
    if h.start != g.start {
      ChunksApart(s.b, h.start, h.order, g.start, g.order, lo, hi);
    } else {
      if x.i < y.i { BlockGap(BlockSize(x.c), x.i, y.i); } else { BlockGap(BlockSize(x.c), y.i, x.i); }
    }
  }

  /** Live blocks lie inside the region, are aligned to their size, and stay clear of every slab header. */
  lemma LivePlaced(s: SlabSpec.State, x: Block, lo: nat, hi: nat)
    requires SInv(s, lo, hi) && Live(s, x)
    ensures PAGE_SIZE * lo <= Addr(x) && Addr(x) + Size(x) <= PAGE_SIZE * hi
    ensures Size(x) > 0 && Addr(x) % Size(x) == 0
    ensures forall a | a in s.slabs :: Addr(x) + Size(x) <= PAGE_SIZE * a || Addr(x) >= PAGE_SIZE * a + 64
  {
    hide Inv, SlabsOk, Sorted, Blocks, BlockSize;
    InsideHome(s, x, lo, hi);
    InvHeldPages(s.b, Home(x).start, Home(x).order, lo, hi);
    AddrAligned(s, x, lo, hi);
    forall a | a in s.slabs ensures Addr(x) + Size(x) <= PAGE_SIZE * a || Addr(x) >= PAGE_SIZE * a + 64 {
      ClearOfHeader(s, x, a, lo, hi);
    }
  }

  /** The header takes 40 bytes of block 0. */
  lemma ClearOfHeader(s: SlabSpec.State, x: Block, a: nat, lo: nat, hi: nat)
    requires SInv(s, lo, hi) && Live(s, x) && a in s.slabs
    ensures Addr(x) + Size(x) <= PAGE_SIZE * a || Addr(x) >= PAGE_SIZE * a + 64
  {
    hide Inv, SlabsOk, Sorted, Blocks, BlockSize;
    SlabFacts(s, a, lo, hi);
    InsideHome(s, x, lo, hi);
    if a != Home(x).start {
      ChunksApart(s.b, Home(x).start, Home(x).order, a, SLAB_ORDER, lo, hi);
    } else {
      BlockInside(x.c, x.i);
    }
  }

  /** A live block never overlaps a block on a free chain, so what a client writes never reaches a chain. */
  lemma ClearOfFree(s: SlabSpec.State, x: Block, a: nat, i: nat, lo: nat, hi: nat)
    requires SInv(s, lo, hi) && Live(s, x) && a in s.slabs && i in s.slabs[a].free
    ensures var y := InSlab(a, s.slabs[a].cls, i); Apart(x, y)
  {
    hide Inv, SlabsOk, Sorted, Blocks, BlockSize;
    SlabFacts(s, a, lo, hi);
    InsideHome(s, x, lo, hi);
    var c := s.slabs[a].cls;
    assert 1 <= i < Blocks(c);
    BlockInside(c, i);
    if a != Home(x).start {
      ChunksApart(s.b, Home(x).start, Home(x).order, a, SLAB_ORDER, lo, hi);
    } else if x.i < i {
      BlockGap(BlockSize(c), x.i, i);
    } else {
      BlockGap(BlockSize(c), i, x.i);
    }
  }

  lemma AddrAligned(s: SlabSpec.State, x: Block, lo: nat, hi: nat)
    requires SInv(s, lo, hi) && Live(s, x)
    ensures Size(x) > 0 && Addr(x) % Size(x) == 0
  {
    hide Inv, SlabsOk, Sorted, Blocks;
    match x
    case InSlab(a, c, i) =>
      SlabFacts(s, a, lo, hi);
      SlabBaseAligned(a, c);
      MultipleSum(a * PAGE_SIZE, BlockSize(c), i);
    case Pages(a, k) =>
      InvHeldPages(s.b, a, k, lo, hi);
      MultipleScaled(a, Pow2(k));
  }

  lemma MultipleSum(x: nat, b: nat, i: nat)
    requires b > 0 && x % b == 0
    ensures (x + i * b) % b == 0
  {
    ModBounds(x, b);
    MulDistributes(b, x / b, i);
    DivModUnique(x + i * b, b, x / b + i, 0);
  }

  lemma MultipleScaled(a: nat, p: nat)
    requires p > 0 && a % p == 0
    ensures (a * PAGE_SIZE) % (PAGE_SIZE * p) == 0
  {
    ModBounds(a, p);
    var q := a / p;
    assert a * PAGE_SIZE == (PAGE_SIZE * p) * q;
    DivModUnique(a * PAGE_SIZE, PAGE_SIZE * p, q, 0);
  }

  lemma MulDistributes(s: nat, x: nat, y: nat)
    ensures s * (x + y) == s * x + y * s
  {
  }

  lemma BlocksPerPage(c: nat)
    requires c < CLASSES
    ensures BlockSize(c) * Pow2(6 - c) == PAGE_SIZE && BlockSize(c) == 64 * Pow2(c)
  {
    Bits.Pow2Add(c + 6, 6 - c);
    Bits.Pow2Add(6, c);
    assert Pow2(6) == 64;
    Bits.Shift4(8);
    assert Pow2(8) == 256;
  }

  /** Page boundaries are block boundaries, blocks being at most half a page. */
  lemma SlabBaseAligned(a: nat, c: nat)
    requires c < CLASSES
    ensures (a * PAGE_SIZE) % BlockSize(c) == 0
  {
    BlocksPerPage(c);
    hide BlockSize;
    MulSwap(a, BlockSize(c), Pow2(6 - c));
    DivModUnique(a * PAGE_SIZE, BlockSize(c), a * Pow2(6 - c), 0);
  }

  lemma MulSwap(a: nat, b: nat, m: nat)
    ensures a * (b * m) == b * (a * m)
  {
  }
}
