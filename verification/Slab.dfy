/** mm/slab.c and mm/kmalloc.c: headers, in-memory free chains, page->slab pointers and the operations on them. */
module Slab {
  import opened Dyadic
  import opened BuddySpec
  import opened BuddyLaws
  import B = Buddy
  import opened ListHeap
  import opened Kernel
  import opened SlabSpec
  import opened KmallocSpec
  import opened KmallocRuns

  const SLAB_BYTES: nat := 131072  // SLAB_SIZE
  const EINVAL: int := 22

  /** struct slab_header without its list node; the order field is cls + 6. */
  datatype Header = Header(cls: nat, nextFree: nat, freeCount: nat, totalCount: nat)

  /** Address of the j-th block of a free chain, or NULL behind its end. */
  function ChainPtr(a: nat, c: nat, free: seq<nat>, j: nat): nat {
    if j < |free| then Addr(InSlab(a, c, free[j])) else 0
  }

  /** Following the words in memory from `head` visits exactly the blocks of `free`, then NULL. */
  ghost predicate Chain(mem: map<nat, nat>, a: nat, c: nat, head: nat, free: seq<nat>) {
    && head == ChainPtr(a, c, free, 0)
    && forall j | 0 <= j < |free| :: LinkAt(mem, a, c, free, j)
  }

  ghost predicate LinkAt(mem: map<nat, nat>, a: nat, c: nat, free: seq<nat>, j: nat)
    requires j < |free|
  {
    var p := Addr(InSlab(a, c, free[j])); p in mem && mem[p] == ChainPtr(a, c, free, j + 1)
  }

  ghost predicate HeaderOk(h: Header, mem: map<nat, nat>, a: nat, l: SlabSpec.Slab) {
    && h.cls == l.cls && h.freeCount == |l.free| && h.totalCount == Blocks(l.cls)
    && Chain(mem, a, l.cls, h.nextFree, l.free)
  }

  ghost predicate HeadersOk(headers: map<nat, Header>, mem: map<nat, nat>, slabs: map<nat, SlabSpec.Slab>) {
    forall a | a in slabs :: a in headers && HeaderOk(headers[a], mem, a, slabs[a])
  }

  /** page->slab is the slab's address on exactly the 32 pages of each slab, and NULL elsewhere. */
  ghost predicate SlabPtrs(ps: seq<B.Page>, own: map<nat, Chunk>, slabs: map<nat, SlabSpec.Slab>, base: nat) {
    forall q: nat | q in own ::
      && base <= q < base + |ps|
      && ps[q - base].slab == if own[q].start in slabs then own[q].start * PAGE_SIZE else 0
  }

  // ---------- blocks do not alias ----------

  ghost predicate Placed(slabs: map<nat, SlabSpec.Slab>) {
    forall a | a in slabs :: Aligned(a, SLAB_ORDER) && ChainOk(slabs[a])
  }

  lemma SlabOfAddr(a: nat, c: nat, i: nat)
    requires Aligned(a, SLAB_ORDER) && c < CLASSES && 1 <= i < Blocks(c)
    ensures Addr(InSlab(a, c, i)) / SLAB_BYTES == a / 32 && a == 32 * (a / 32) && Addr(InSlab(a, c, i)) > 0
  {
    BlockInside(c, i);
    assert Pow2(5) == 32;
    assert a == 32 * (a / 32);
    DivModUnique(Addr(InSlab(a, c, i)), SLAB_BYTES, a / 32, i * BlockSize(c));
  }

  lemma AddrInjective(a: nat, c: nat, i: nat, b: nat, d: nat, j: nat)
    requires Aligned(a, SLAB_ORDER) && c < CLASSES && 1 <= i < Blocks(c)
    requires Aligned(b, SLAB_ORDER) && d < CLASSES && 1 <= j < Blocks(d)
    requires a != b || (c == d && i != j)
    ensures Addr(InSlab(a, c, i)) != Addr(InSlab(b, d, j))
  {
    if a != b {
      SlabOfAddr(a, c, i);
      SlabOfAddr(b, d, j);
    } else if i < j {
      BlockGap(BlockSize(c), i, j);
    } else {
      BlockGap(BlockSize(c), j, i);
    }
  }

  /** Writing the first word of a block leaves chains that do not pass through it alone. */
  lemma ChainFrame(mem: map<nat, nat>, a: nat, l: SlabSpec.Slab, head: nat, b: nat, d: nat, j: nat, v: nat)
    requires Chain(mem, a, l.cls, head, l.free) && Aligned(a, SLAB_ORDER) && ChainOk(l)
    requires Aligned(b, SLAB_ORDER) && d < CLASSES && 1 <= j < Blocks(d)
    requires a != b || (l.cls == d && j !in l.free)
    ensures Chain(mem[Addr(InSlab(b, d, j)) := v], a, l.cls, head, l.free)
  {
    var mem' := mem[Addr(InSlab(b, d, j)) := v];
    forall k | 0 <= k < |l.free| ensures LinkAt(mem', a, l.cls, l.free, k) {
      assert LinkAt(mem, a, l.cls, l.free, k);
      AddrInjective(a, l.cls, l.free[k], b, d, j);
    }
  }

  /** slab_get_free_block: the head of the chain is a real block and the rest is the chain of the rest. */
  lemma ChainPop(mem: map<nat, nat>, a: nat, l: SlabSpec.Slab, head: nat)
    requires Chain(mem, a, l.cls, head, l.free) && l.free != [] && Aligned(a, SLAB_ORDER) && ChainOk(l)
    ensures head in mem && head > 0 && head == Addr(InSlab(a, l.cls, l.free[0]))
    ensures Chain(mem, a, l.cls, mem[head], l.free[1..])
    ensures l.free[1..] == [] ==> mem[head] == 0
  {
    SlabOfAddr(a, l.cls, l.free[0]);
    assert LinkAt(mem, a, l.cls, l.free, 0);
    var f := l.free[1..];
    forall k | 0 <= k < |f| ensures LinkAt(mem, a, l.cls, f, k) {
      assert LinkAt(mem, a, l.cls, l.free, k + 1);
    }
  }

  /** slab_put_block: the freed block becomes the head. */
  lemma ChainPush(mem: map<nat, nat>, a: nat, l: SlabSpec.Slab, head: nat, i: nat)
    requires Chain(mem, a, l.cls, head, l.free) && Aligned(a, SLAB_ORDER) && ChainOk(l)
    requires 1 <= i < Blocks(l.cls) && i !in l.free
    ensures var p := Addr(InSlab(a, l.cls, i)); Chain(mem[p := head], a, l.cls, p, [i] + l.free)
  {
    var p := Addr(InSlab(a, l.cls, i));
    var mem', f := mem[p := head], [i] + l.free;
    ChainFrame(mem, a, l, head, a, l.cls, i, head);
    forall k | 0 <= k < |f| ensures LinkAt(mem', a, l.cls, f, k) {
      if k > 0 { assert LinkAt(mem', a, l.cls, l.free, k - 1); }
    }
  }

  /** A client's write inside a live block leaves every header and chain as it was. */
  lemma ClientWriteFrame(headers: map<nat, Header>, mem: map<nat, nat>, s: SlabSpec.State, x: Block, addr: nat, v: nat, lo: nat, hi: nat)
    requires SInv(s, lo, hi) && HeadersOk(headers, mem, s.slabs) && Live(s, x)
    requires Addr(x) <= addr < Addr(x) + Size(x)
    ensures HeadersOk(headers, mem[addr := v], s.slabs)
  {
    hide SInv, Live, Addr, Size, ChainOk;
    var mem' := mem[addr := v];
    forall a | a in s.slabs ensures a in headers && HeaderOk(headers[a], mem', a, s.slabs[a]) {
      var l := s.slabs[a];
      assert HeaderOk(headers[a], mem, a, l);
      forall j | 0 <= j < |l.free| ensures LinkAt(mem', a, l.cls, l.free, j) {
        assert LinkAt(mem, a, l.cls, l.free, j);
        ClearOfFree(s, x, a, l.free[j], lo, hi);
        BlockNotEmpty(InSlab(a, l.cls, l.free[j]));
      }
    }
  }

  lemma BlockNotEmpty(x: Block)
    ensures Size(x) > 0
  {
  }

  lemma GetHeader(headers: map<nat, Header>, mem: map<nat, nat>, slabs: map<nat, SlabSpec.Slab>, a: nat)
    requires HeadersOk(headers, mem, slabs) && Placed(slabs) && a in slabs && slabs[a].free != []
    ensures a in headers
    ensures var h := headers[a]; var l := slabs[a];
      && h.freeCount > 0 && h.nextFree > 0 && h.nextFree in mem && h.nextFree == Addr(InSlab(a, l.cls, l.free[0]))
      && (h.freeCount == 1 ==> mem[h.nextFree] == 0)
      && HeadersOk(headers[a := h.(freeCount := h.freeCount - 1, nextFree := mem[h.nextFree])], mem,
                   slabs[a := l.(free := l.free[1..])])
  {
    ChainPop(mem, a, slabs[a], headers[a].nextFree);
  }

  lemma PutHeader(headers: map<nat, Header>, mem: map<nat, nat>, slabs: map<nat, SlabSpec.Slab>, a: nat, i: nat)
    requires HeadersOk(headers, mem, slabs) && Placed(slabs) && a in slabs
    requires 1 <= i < Blocks(slabs[a].cls) && i !in slabs[a].free
    ensures a in headers
    ensures var h := headers[a]; var l := slabs[a]; var p := Addr(InSlab(a, l.cls, i));
      HeadersOk(headers[a := h.(freeCount := h.freeCount + 1, nextFree := p)], mem[p := h.nextFree],
                slabs[a := l.(free := [i] + l.free)])
  {
    var h, l := headers[a], slabs[a];
    var p := Addr(InSlab(a, l.cls, i));
    var headers', mem', slabs' := headers[a := h.(freeCount := h.freeCount + 1, nextFree := p)], mem[p := h.nextFree],
                                  slabs[a := l.(free := [i] + l.free)];
    ChainPush(mem, a, l, h.nextFree, i);
    hide Chain, Addr, Aligned, ChainOk;
    forall x | x in slabs' ensures x in headers' && HeaderOk(headers'[x], mem', x, slabs'[x]) {
      if x != a {
        assert HeaderOk(headers[x], mem, x, slabs[x]);
        PutFrame(headers[x], mem, slabs, x, a, i, h.nextFree);
      }
    }
  }

  lemma PutFrame(h: Header, mem: map<nat, nat>, slabs: map<nat, SlabSpec.Slab>, x: nat, a: nat, i: nat, v: nat)
    requires Placed(slabs) && x in slabs && a in slabs && x != a && 1 <= i < Blocks(slabs[a].cls)
    requires HeaderOk(h, mem, x, slabs[x])
    ensures HeaderOk(h, mem[Addr(InSlab(a, slabs[a].cls, i)) := v], x, slabs[x])
  {
    ChainFrame(mem, x, slabs[x], h.nextFree, a, slabs[a].cls, i, v);
  }

  // ---------- building a slab ----------

  lemma WriteFrame(headers: map<nat, Header>, mem: map<nat, nat>, slabs: map<nat, SlabSpec.Slab>, a: nat, c: nat, i: nat, v: nat)
    requires HeadersOk(headers, mem, slabs) && Placed(slabs) && a !in slabs && Aligned(a, SLAB_ORDER)
    requires c < CLASSES && 1 <= i < Blocks(c)
    ensures HeadersOk(headers, mem[Addr(InSlab(a, c, i)) := v], slabs)
  {
    var mem' := mem[Addr(InSlab(a, c, i)) := v];
    hide Chain, Addr;
    forall x | x in slabs ensures x in headers && HeaderOk(headers[x], mem', x, slabs[x]) {
      assert HeaderOk(headers[x], mem, x, slabs[x]);
      ChainFrame(mem, x, slabs[x], headers[x].nextFree, a, c, i, v);
    }
  }

  lemma NextBlock(a: nat, c: nat, i: nat)
    requires c < CLASSES && 1 <= i < Blocks(c)
    ensures Addr(InSlab(a, c, i)) + BlockSize(c) == Addr(InSlab(a, c, i + 1))
    ensures Addr(InSlab(a, c, i)) < a * PAGE_SIZE + SLAB_BYTES - BlockSize(c) <==> i < Blocks(c) - 1
  {
    ClassSizes(c);
    MulDistributes(BlockSize(c), i, 1);
    if i < Blocks(c) - 1 { BlockGap(BlockSize(c), i + 1, Blocks(c)); }
  }

  /** Blocks 1..n of slab a are linked in order. */
  ghost predicate LinkedUpTo(mem: map<nat, nat>, a: nat, c: nat, n: nat) {
    forall j: nat | 1 <= j < n :: NextOf(mem, a, c, j)
  }

  ghost predicate NextOf(mem: map<nat, nat>, a: nat, c: nat, j: nat) {
    var p := Addr(InSlab(a, c, j)); p in mem && mem[p] == Addr(InSlab(a, c, j + 1))
  }

  lemma LinkOneMore(mem: map<nat, nat>, a: nat, c: nat, n: nat)
    requires LinkedUpTo(mem, a, c, n) && Aligned(a, SLAB_ORDER) && c < CLASSES && 1 <= n < Blocks(c)
    ensures LinkedUpTo(mem[Addr(InSlab(a, c, n)) := Addr(InSlab(a, c, n + 1))], a, c, n + 1)
  {
    var mem' := mem[Addr(InSlab(a, c, n)) := Addr(InSlab(a, c, n + 1))];
    forall j: nat | 1 <= j < n + 1 ensures NextOf(mem', a, c, j) {
      if j < n {
        assert NextOf(mem, a, c, j);
        AddrInjective(a, c, j, a, c, n);
      }
    }
  }

  lemma FreshChain(mem: map<nat, nat>, a: nat, c: nat)
    requires Aligned(a, SLAB_ORDER) && c < CLASSES && Blocks(c) > 1 && LinkedUpTo(mem, a, c, Blocks(c) - 1)
    ensures Chain(mem[Addr(InSlab(a, c, Blocks(c) - 1)) := 0], a, c, Addr(InSlab(a, c, 1)), Fresh(c).free)
  {
    var n := Blocks(c) - 1;
    var mem' := mem[Addr(InSlab(a, c, n)) := 0];
    var f := Fresh(c).free;
    hide Addr;
    forall k | 0 <= k < |f| ensures LinkAt(mem', a, c, f, k) {
      if k < n - 1 {
        assert NextOf(mem, a, c, k + 1);
        AddrInjective(a, c, k + 1, a, c, n);
      }
    }
  }

  // ---------- page->slab ----------

  lemma StartsTaken(b: BuddySpec.State, slabs: map<nat, SlabSpec.Slab>, lo: nat, hi: nat, q: nat)
    requires Inv(b, lo, hi) && (forall a | a in slabs :: Held(b, a, SLAB_ORDER)) && q in b.own && b.own[q].start in slabs
    ensures b.own[q] == Chunk(b.own[q].start, SLAB_ORDER, true)
  {
    hide ListsAgree, NoPair;
    var c := b.own[q];
    assert Covers(c, q) && Covers(c, c.start);
  }

  /** Handing a chunk over in either direction does not move the slabs' pages. */
  lemma PtrsAcross(ps: seq<B.Page>, s: BuddySpec.State, t: BuddySpec.State, slabs: map<nat, SlabSpec.Slab>,
                   base: nat, lo: nat, hi: nat, a: nat, k: nat)
    requires Inv(s, lo, hi) && Inv(t, lo, hi) && Handed(s, t, a, k) && a !in slabs
    requires forall x | x in slabs :: Held(s, x, SLAB_ORDER) && Held(t, x, SLAB_ORDER)
    ensures SlabPtrs(ps, s.own, slabs, base) <==> SlabPtrs(ps, t.own, slabs, base)
  {
    hide Inv;
    assert s.own.Keys == t.own.Keys;
    forall q: nat | q in s.own
      ensures s.own[q].start in slabs <==> t.own[q].start in slabs
      ensures s.own[q].start in slabs ==> t.own[q].start == s.own[q].start
    {
      if s.own[q].start in slabs { StartsTaken(s, slabs, lo, hi, q); }
      if t.own[q].start in slabs { StartsTaken(t, slabs, lo, hi, q); }
    }
  }

  lemma PtrsSame(ps: seq<B.Page>, ps': seq<B.Page>, own: map<nat, Chunk>, slabs: map<nat, SlabSpec.Slab>, base: nat)
    requires SlabPtrs(ps, own, slabs, base) && |ps'| == |ps| && forall i | 0 <= i < |ps| :: ps'[i].slab == ps[i].slab
    ensures SlabPtrs(ps', own, slabs, base)
  {
  }

  /** Marking (v = the slab's address) or clearing (v = NULL) the 32 pages of the slab at a. */
  ghost predicate Marked(ps: seq<B.Page>, ps': seq<B.Page>, p: nat, v: nat) {
    && |ps'| == |ps|
    && forall i | 0 <= i < |ps| :: ps'[i] == if p <= i < p + 32 then ps[i].(slab := v) else ps[i]
  }

  lemma MarkPtrs(ps: seq<B.Page>, ps': seq<B.Page>, b: BuddySpec.State, slabs: map<nat, SlabSpec.Slab>, base: nat,
                 lo: nat, hi: nat, a: nat, l: SlabSpec.Slab)
    requires Inv(b, lo, hi) && Held(b, a, SLAB_ORDER) && base <= a && SlabPtrs(ps, b.own, slabs, base) && a !in slabs
    requires Marked(ps, ps', a - base, a * PAGE_SIZE)
    ensures SlabPtrs(ps', b.own, slabs[a := l], base)
  {
    PagesOfChunk(b, a, lo, hi);
    hide Inv;
  }

  lemma UnmarkPtrs(ps: seq<B.Page>, ps': seq<B.Page>, b: BuddySpec.State, slabs: map<nat, SlabSpec.Slab>, base: nat,
                   lo: nat, hi: nat, a: nat)
    requires Inv(b, lo, hi) && Held(b, a, SLAB_ORDER) && base <= a && SlabPtrs(ps, b.own, slabs, base)
    requires Marked(ps, ps', a - base, 0)
    ensures SlabPtrs(ps', b.own, slabs - {a}, base)
  {
    PagesOfChunk(b, a, lo, hi);
    hide Inv;
  }

  lemma PagesOfChunk(b: BuddySpec.State, a: nat, lo: nat, hi: nat)
    requires Inv(b, lo, hi) && Held(b, a, SLAB_ORDER)
    ensures forall q: nat | q in b.own :: b.own[q].start == a <==> a <= q < a + 32
    ensures Aligned(a, SLAB_ORDER) && lo <= a && a + 32 <= hi
  {
    InvHeldPages(b, a, SLAB_ORDER, lo, hi);
    assert Pow2(5) == 32;
    hide ListsAgree, NoPair;
    forall q: nat | q in b.own && b.own[q].start == a ensures a <= q < a + 32 {
      assert Covers(b.own[q], q) && Covers(b.own[q], a);
    }
  }

  lemma SlabsPlaced(s: SlabSpec.State, lo: nat, hi: nat)
    requires SlabsOk(s) && Inv(s.b, lo, hi)
    ensures Placed(s.slabs)
  {
    hide Inv, ChainOk;
    forall a | a in s.slabs ensures Aligned(a, SLAB_ORDER) {
      InvHeldPages(s.b, a, SLAB_ORDER, lo, hi);
    }
  }

  method SizeToSlabOrder(size: nat) returns (order: int)
    ensures size == 0 || size > BlockSize(5) ==> order == -1
    ensures 0 < size <= BlockSize(5) ==> 6 <= order <= 11 && order - 6 == ClassFrom(size, 0)
  {
    order := 6;
    if size <= 0 || size > Pow2(11) {
      order := -1;
    } else {
      while size > Pow2(order)
        invariant 6 <= order <= 11 && ClassFrom(size, 0) == ClassFrom(size, order - 6)
        decreases 11 - order
      {
        order := order + 1;
      }
    }
  }

  method SizeToPageOrder(size: nat) returns (order: int)
    ensures size == 0 || size > PAGE_SIZE * Pow2(TOP) ==> order == -1
    ensures 0 < size <= PAGE_SIZE * Pow2(TOP) ==> 0 <= order <= TOP && order == OrderFrom(size, 0)
  {
    order := 0;
    if size <= 0 || size > PAGE_SIZE * Pow2(TOP) {
      order := -1;
    } else {
      while size > PAGE_SIZE * Pow2(order)
        invariant 0 <= order <= TOP && OrderFrom(size, 0) == OrderFrom(size, order)
        decreases TOP - order
      {
        order := order + 1;
      }
    }
  }

  lemma PositiveBase(region: B.Region, p: nat)
    requires region.Ok() && region.startAddr > 0
    ensures region.PageToVirt(p) == (region.Base() + p) * PAGE_SIZE && region.PageToVirt(p) > 0
  {
  }

  lemma PtrPage(region: B.Region, ptr: nat)
    requires region.Ok()
    ensures var r := region.VirtToPage(ptr);
      if PAGE_SIZE * region.Base() <= ptr < PAGE_SIZE * region.End() then r == Some(ptr / PAGE_SIZE - region.Base()) else r == None
  {
  }

  /** page->slab tells the two kinds of live block apart, and names the slab. */
  lemma KfreeDispatch(ps: seq<B.Page>, s: SlabSpec.State, y: Block, lo: nat, hi: nat)
    requires SInv(s, lo, hi) && Live(s, y) && SlabPtrs(ps, s.b.own, s.slabs, lo) && lo > 0
    ensures var q := Addr(y) / PAGE_SIZE;
      && q in s.b.own && lo <= q < lo + |ps|
      && (y.InSlab? ==> ps[q - lo].slab != 0 && ps[q - lo].slab / PAGE_SIZE == y.a && s.b.own[q].start == y.a && Addr(y) % 64 == 0
                        && BlockAt(Addr(y) - y.a * PAGE_SIZE, y.c) == y.i && y.a * PAGE_SIZE <= Addr(y))
      && (y.Pages? ==> ps[q - lo].slab == 0 && q == y.a)
  {
    hide Inv, Sorted, SlabsOk;
    match y
    case InSlab(a, c, i) =>
      SlabFacts(s, a, lo, hi);
      BlockIndex(a, c, i);
      PagesOfChunk(s.b, a, lo, hi);
      InvHeldPages(s.b, a, SLAB_ORDER, lo, hi);
    case Pages(a, k) =>
      InvHeldPages(s.b, a, k, lo, hi);
  }

  /** addr is not on a page of a slab. */
  predicate NotSlabPage(s: SlabSpec.State, addr: nat) {
    addr / PAGE_SIZE !in s.b.own || s.b.own[addr / PAGE_SIZE].start !in s.slabs
  }

  /** What slab_free finds at the address of a live slab block. */
  lemma PageOfLive(region: B.Region, ps: seq<B.Page>, s: SlabSpec.State, y: Block)
    requires region.Ok() && |ps| == region.pageNum && y.InSlab?
    requires SInv(s, region.Base(), region.End()) && Live(s, y) && SlabPtrs(ps, s.b.own, s.slabs, region.Base())
    ensures Addr(y) > 0 && Addr(y) % 64 == 0 && Outstanding(s, y.a, y.i) && s.slabs[y.a].cls == y.c
    ensures Shaped(s) && y.a in s.b.own && s.b.own[y.a].order <= TOP && KmallocRuns.Kfree(s, Addr(y)) == FreeBlock(s, y.a, y.i)
    ensures var page := region.VirtToPage(Addr(y)); page.Some? && ps[page.value].slab != 0 && ps[page.value].slab / PAGE_SIZE == y.a
  {
    hide Inv, Sorted, SlabsOk, SlabPtrs, Blocks, BlockSize, Pow2, FreeBlock, KmallocRuns.Kfree, BlockAt;
    KfreeDispatch(ps, s, y, region.Base(), region.End());
    LiveNotZero(s, y, region.Base(), region.End());
    LivePlaced(s, y, region.Base(), region.End());
    KfreeSlab(s, y.a, y.c, y.i, region.Base(), region.End());
    PtrPage(region, Addr(y));
  }

  /** What it finds at an address that is on no page of a slab. */
  lemma PageOfOther(region: B.Region, ps: seq<B.Page>, s: SlabSpec.State, addr: nat)
    requires region.Ok() && |ps| == region.pageNum
    requires SInv(s, region.Base(), region.End()) && SlabPtrs(ps, s.b.own, s.slabs, region.Base()) && NotSlabPage(s, addr)
    ensures var page := region.VirtToPage(addr); page.Some? ==> ps[page.value].slab == 0
  {
    hide SlabsOk, Sorted, NoPair, ListsAgree;
    PtrPage(region, addr);
  }

  lemma SlabAddress(region: B.Region, a: nat)
    requires region.Ok() && region.Base() <= a < region.End()
    ensures region.VirtToPage(a * PAGE_SIZE) == Some(a - region.Base())
  {
    region.RoundTrip(a - region.Base());
  }

  lemma DropHeader(headers: map<nat, Header>, mem: map<nat, nat>, slabs: map<nat, SlabSpec.Slab>, a: nat)
    requires HeadersOk(headers, mem, slabs)
    ensures HeadersOk(headers, mem, slabs - {a})
  {
    hide HeaderOk;
  }

  /** What __slab_free relies on: a full slab is on no list and not current; a slab about to become
      whole that is not current is on its class's partial list. */
  lemma FreeFacts(s: SlabSpec.State, a: nat, i: nat, lo: nat, hi: nat)
    requires SInv(s, lo, hi) && Outstanding(s, a, i)
    ensures s.slabs[a].cls < CLASSES && Blocks(s.slabs[a].cls) >= 4
    ensures s.slabs[a].free == [] ==> !Listed(s.partial, a) && !IsCurrent(s, a)
    ensures s.slabs[a].free != [] && !IsCurrent(s, a) ==> a in s.partial[s.slabs[a].cls]
  {
    SlabFacts(s, a, lo, hi);
    ClassSizes(s.slabs[a].cls);
    hide Inv, SlabsOk, ChainOk, Blocks;
    if s.slabs[a].free == [] {
      forall c | 0 <= c < |s.partial| ensures a !in s.partial[c] {
      }
    }
  }

  /** The current slab, seen from SInv. */
  lemma CurrentHas(s: SlabSpec.State, c: nat, lo: nat, hi: nat)
    requires SInv(s, lo, hi) && c < CLASSES && s.current[c].Some?
    ensures var a := s.current[c].value; a in s.slabs && s.slabs[a].cls == c && s.slabs[a].free != []
  {
    CurrentFacts(s, c);
  }

  lemma HeaderCount(headers: map<nat, Header>, mem: map<nat, nat>, slabs: map<nat, SlabSpec.Slab>, a: nat)
    requires HeadersOk(headers, mem, slabs) && a in slabs
    ensures a in headers && headers[a].freeCount == |slabs[a].free|
    ensures headers[a].cls == slabs[a].cls && headers[a].totalCount == Blocks(slabs[a].cls)
  {
  }

  lemma PtrsKeys(ps: seq<B.Page>, own: map<nat, Chunk>, slabs: map<nat, SlabSpec.Slab>, slabs': map<nat, SlabSpec.Slab>, base: nat)
    requires SlabPtrs(ps, own, slabs, base) && slabs'.Keys == slabs.Keys
    ensures SlabPtrs(ps, own, slabs', base)
  {
    assert forall x :: x in slabs <==> x in slabs';
  }

  lemma NewHeader(headers: map<nat, Header>, mem: map<nat, nat>, slabs: map<nat, SlabSpec.Slab>, a: nat, h: Header)
    requires HeadersOk(headers, mem, slabs) && a !in slabs
    ensures HeadersOk(headers[a := h], mem, slabs)
  {
    hide HeaderOk;
  }

  lemma AddHeader(headers: map<nat, Header>, mem: map<nat, nat>, slabs: map<nat, SlabSpec.Slab>, a: nat, l: SlabSpec.Slab)
    requires HeadersOk(headers, mem, slabs) && a in headers && HeaderOk(headers[a], mem, a, l)
    ensures HeadersOk(headers, mem, slabs[a := l])
  {
    hide HeaderOk;
  }

  lemma FirstBlock(a: nat, c: nat)
    ensures Addr(InSlab(a, c, 1)) == a * PAGE_SIZE + BlockSize(c)
  {
  }

  lemma NoSlabs(s: SlabSpec.State)
    requires s.slabs == map[] && s.current == seq(CLASSES, _ => None) && s.partial == seq(CLASSES, _ => [])
    ensures SlabsOk(s) && Sorted(s)
  {
  }

  /** slab_pool_g together with the memory of the slabs and the buddy system below. */
  class Pool {
    const buddy: B.Allocator
    const heap: Heap                  // the partial lists
    var current: seq<Option<nat>>
    var headers: map<nat, Header>
    var mem: map<nat, nat>            // words of the slabs' blocks, by address
    ghost var slabs: map<nat, SlabSpec.Slab>

    ghost function St(): SlabSpec.State
      reads this, buddy, heap
    {
      SlabSpec.State(buddy.st, slabs, current, heap.lists)
    }

    ghost function Lo(): nat { buddy.Base() }

    ghost function Hi(): nat { buddy.End() }

    /** Memory agrees with the abstract state. */
    ghost predicate Core()
      reads this, heap, buddy, buddy.heap, buddy.pages
    {
      && heap != buddy.heap && buddy.Valid(-1) && heap.Valid()
      && |current| == |heap.lists| == CLASSES
      && Inv(buddy.st, Lo(), Hi()) && SlabsOk(St())
      && HeadersOk(headers, mem, slabs)
      && SlabPtrs(buddy.pages[..], buddy.st.own, slabs, Lo())
    }

    ghost predicate Valid()
      reads this, heap, buddy, buddy.heap, buddy.pages
    {
      Core() && SInv(St(), Lo(), Hi())
    }

    /** mm_init: init_buddy, then init_slab. */
    constructor (imgEnd: nat)
      requires BootSizing.Bootable(imgEnd)
      ensures Valid() && Honest(World(St(), map[]), Lo(), Hi())
      ensures slabs == map[] && (forall c | 0 <= c < CLASSES :: current[c] == None && heap.lists[c] == [])
      ensures BuddyRuns.Total(buddy.st.lists, 0) == Hi() - Lo()
      ensures Lo() == BootSizing.FirstPage(imgEnd) && Hi() == BootSizing.FirstPage(imgEnd) + BootSizing.PageNum(imgEnd)
    {
      buddy := new B.Allocator(imgEnd);
      heap := new Heap(CLASSES);
      current := seq(CLASSES, _ => None);
      headers := map[];
      mem := map[];
      slabs := map[];
      new;
      hide Inv, B.Rep, B.Counts, Rings, NoShare;
      NoSlabs(St());
      forall x ensures !Live(St(), x) {
        assert B.BuddyRuns.AllFree(buddy.st);
      }
    }

    /** The chain loop of alloc_slab_from_buddy. */
    method BuildChain(a: nat, c: nat)
      requires Aligned(a, SLAB_ORDER) && c < CLASSES && a !in slabs && Placed(slabs) && HeadersOk(headers, mem, slabs)
      modifies this`mem
      ensures HeadersOk(headers, mem, slabs)
      ensures Chain(mem, a, c, Addr(InSlab(a, c, 1)), Fresh(c).free)
    {
      hide HeadersOk, Placed, Chain, Aligned, Addr, Fresh, Pow2;
      ClassSizes(c);
      var size := BlockSize(c);
      var block := a * PAGE_SIZE + size;
      ghost var i := 1;
      assert block == Addr(InSlab(a, c, 1)) by { FirstBlock(a, c); }
      while block < a * PAGE_SIZE + SLAB_BYTES - size
        invariant 1 <= i < Blocks(c) && block == Addr(InSlab(a, c, i))
        invariant HeadersOk(headers, mem, slabs) && LinkedUpTo(mem, a, c, i)
        decreases Blocks(c) - i
      {
        NextBlock(a, c, i);
        WriteFrame(headers, mem, slabs, a, c, i, Addr(InSlab(a, c, i + 1)));
        LinkOneMore(mem, a, c, i);
        var next := block + size;
        mem := mem[block := next];
        block := next;
        i := i + 1;
      }
      NextBlock(a, c, i);
      WriteFrame(headers, mem, slabs, a, c, i, 0);
      FreshChain(mem, a, c);
      mem := mem[block := 0];
    }

    /** page->slab := v on the 32 pages from p. */
    method MarkPages(p: nat, v: nat)
      requires buddy.Valid(-1) && p + 32 <= buddy.pages.Length
      modifies buddy.pages
      ensures buddy.Valid(-1) && Marked(old(buddy.pages[..]), buddy.pages[..], p, v)
    {
      hide B.Repr, Heap.Valid, B.Region.Ok;
      ghost var ps := buddy.pages[..];
      for i := 0 to 32
        invariant forall j | 0 <= j < buddy.pages.Length ::
            buddy.pages[j] == if p <= j < p + i then ps[j].(slab := v) else ps[j]
      {
        buddy.pages[p + i] := buddy.pages[p + i].(slab := v);
      }
      B.ReprIgnoresSlab(ps, buddy.pages[..], buddy.nrFree, buddy.st, Lo(), Lo(), Hi());
    }

    /** The new slab's header, free chain and page->slab pointers. */
    method InitSlab(p: nat, a: nat, c: nat)
      requires Core() && c < CLASSES && a == Lo() + p && a !in slabs && Held(buddy.st, a, SLAB_ORDER)
      modifies this, buddy.pages
      ensures Core() && slabs == old(slabs)[a := Fresh(c)] && current == old(current)[c := Some(a)]
    {
      hide Inv, HeadersOk, SlabPtrs, Heap.Valid, Fresh, Placed, Chain, B.Repr, Marked;
      ghost var ps := buddy.pages[..];
      SlabsPlaced(St(), Lo(), Hi());
      PagesOfChunk(buddy.st, a, Lo(), Hi());
      ClassSizes(c);
      FreshOk(c);
      FirstBlock(a, c);
      NewHeader(headers, mem, slabs, a, Header(c, a * PAGE_SIZE + BlockSize(c), Blocks(c) - 1, Blocks(c)));
      headers := headers[a := Header(c, a * PAGE_SIZE + BlockSize(c), Blocks(c) - 1, Blocks(c))];
      current := current[c := Some(a)];
      BuildChain(a, c);
      MarkPages(p, a * PAGE_SIZE);
      MarkPtrs(ps, buddy.pages[..], buddy.st, slabs, Lo(), Lo(), Hi(), a, Fresh(c));
      AddHeader(headers, mem, slabs, a, Fresh(c));
      slabs := slabs[a := Fresh(c)];
    }

    /** alloc_slab_from_buddy, for a class without a current slab. */
    method AllocSlab(c: nat) returns (ok: bool)
      requires Valid() && c < CLASSES && current[c] == None
      modifies this, buddy, buddy.heap, buddy.pages
      ensures Valid() && heap.lists == old(heap.lists)
      ensures ok == Grow(old(St()), c).Some?
      ensures St() == if ok then Grow(old(St()), c).value else old(St())
      ensures ok ==> current[c].Some?
    {
      hide Inv, Sorted, HeadersOk, SlabPtrs, B.Allocator.Valid, Heap.Valid, Fresh;
      ghost var s, ps := St(), buddy.pages[..];
      SlabsPlaced(s, Lo(), Hi());
      TakeKeeps(s.b, SLAB_ORDER, Lo(), Hi());
      var r := buddy.GetPages(SLAB_ORDER);
      ghost var ps1 := buddy.pages[..];
      if r == None {
        PtrsSame(ps, ps1, s.b.own, slabs, Lo());
        return false;
      }
      var p := r.value;
      var a := buddy.region.Base() + p;
      SlabsSurviveTake(s, buddy.st, a, SLAB_ORDER);
      PtrsAcross(ps, s.b, buddy.st, slabs, Lo(), Lo(), Hi(), a, SLAB_ORDER);
      PtrsSame(ps, ps1, buddy.st.own, slabs, Lo());
      InitSlab(p, a, c);
      GrowKeeps(s, c, Lo(), Hi());
      return true;
    }

    /** slab_get_free_block */
    method GetFreeBlock(a: nat) returns (block: nat)
      requires Core() && a in slabs && slabs[a].free != []
      modifies this`headers, this`slabs
      ensures Core() && slabs == old(slabs)[a := old(slabs)[a].(free := old(slabs)[a].free[1..])]
      ensures block == Addr(InSlab(a, old(slabs)[a].cls, old(slabs)[a].free[0])) && block > 0
      ensures a in headers && headers[a].freeCount == |slabs[a].free|
      ensures headers[a].freeCount == 0 ==> headers[a].nextFree == 0
    {
      hide Inv, HeadersOk, SlabPtrs, Heap.Valid, Placed, B.Allocator.Valid, Addr;
      SlabsPlaced(St(), Lo(), Hi());
      GetHeader(headers, mem, slabs, a);
      var h := headers[a];
      HeaderCount(headers, mem, slabs, a);
      assert h.freeCount != 0 && h.nextFree != 0;  // both BUG_ONs
      block := h.nextFree;
      headers := headers[a := h.(freeCount := h.freeCount - 1, nextFree := mem[block])];
      ghost var l := slabs[a];
      PopChain(l);
      PtrsKeys(buddy.pages[..], buddy.st.own, slabs, slabs[a := l.(free := l.free[1..])], Lo());
      slabs := slabs[a := l.(free := l.free[1..])];
    }

    /** sc->current = get_from_partial_list(sc) */
    method PromotePartial(c: nat)
      requires Core() && c < CLASSES
      modifies this`current, heap
      ensures Core() && St() == FromPartial(old(St()), c)
    {
      hide Inv, HeadersOk, SlabPtrs, B.Allocator.Valid, Rings, NoShare;
      var empty := heap.Empty(c);
      if empty {
        current := current[c := None];
      } else {
        var a := heap.TakeFirst(c);
        current := current[c := Some(a)];
      }
    }

    /** set_new_current_slab */
    method SetNewCurrent(c: nat)
      requires Core() && c < CLASSES && SInv(St().(current := current[c := None]), Lo(), Hi())
      modifies this, heap, buddy, buddy.heap, buddy.pages
      ensures Valid() && St() == NewCurrent(old(St()), c)
    {
      hide Inv, HeadersOk, SlabPtrs, B.Allocator.Valid, Heap.Valid, Sorted, Grow;
      ghost var s := St();
      ghost var s0 := s.(current := s.current[c := None]);
      assert FromPartial(s, c) == FromPartial(s0, c);
      FromPartialSorted(s0, c);
      PromotePartial(c);
      if current[c] == None {
        var ok := AllocSlab(c);
      }
    }

    /** __slab_alloc; 0 is NULL. */
    method SlabAlloc(c: nat) returns (addr: nat)
      requires Valid() && c < CLASSES
      modifies this, heap, buddy, buddy.heap, buddy.pages
      ensures Valid()
      ensures match Alloc(old(St()), c, Lo(), Hi())
        case OutOfMemory(t) => addr == 0 && St() == t
        case Block(t, a, i) => St() == t && addr == Addr(InSlab(a, c, i)) && addr > 0
    {
      hide Inv, HeadersOk, SlabPtrs, B.Allocator.Valid, Heap.Valid, Sorted, Grow, NewCurrent, SlabsOk;
      AllocKeeps(St(), c, Lo(), Hi());
      if current[c] == None {
        var ok := AllocSlab(c);
        if !ok {
          return 0;
        }
      }
      ghost var s := St();
      CurrentHas(s, c, Lo(), Hi());
      var a := current[c].value;
      addr := GetFreeBlock(a);
      if headers[a].freeCount == 0 {
        assert headers[a].nextFree == 0;  // the BUG_ON
        TakeBlockWeak(s, c, Lo(), Hi());
        SetNewCurrent(c);
      }
    }

    /** slab_put_block: round the address down to its block and push it on the chain. */
    method PutFreeBlock(a: nat, block: nat, ghost i: nat)
      requires Core() && Outstanding(St(), a, i) && block == Addr(InSlab(a, slabs[a].cls, i))
      modifies this`headers, this`mem, this`slabs
      ensures Core() && slabs == old(slabs)[a := old(slabs)[a].(free := [i] + old(slabs)[a].free)]
    {
      hide Inv, HeadersOk, SlabPtrs, Heap.Valid, Placed, B.Allocator.Valid;
      SlabsPlaced(St(), Lo(), Hi());
      HeaderCount(headers, mem, slabs, a);
      PutHeader(headers, mem, slabs, a, i);
      var h := headers[a];
      BlockIndex(a, h.cls, i);
      var index := BlockAt(block - a * PAGE_SIZE, h.cls);
      var b := a * PAGE_SIZE + index * BlockSize(h.cls);
      mem := mem[b := h.nextFree];
      headers := headers[a := h.(nextFree := b, freeCount := h.freeCount + 1)];
      ghost var l := slabs[a];
      PushChain(l, i);
      PtrsKeys(buddy.pages[..], buddy.st.own, slabs, slabs[a := l.(free := [i] + l.free)], Lo());
      slabs := slabs[a := l.(free := [i] + l.free)];
    }

    /** put_slab_to_buddy; the caller still has to unlink the slab. */
    method PutSlabToBuddy(a: nat) returns (err: int)
      requires Core() && a in slabs && |slabs[a].free| == Blocks(slabs[a].cls) - 1
      modifies this`slabs, buddy, buddy.heap, buddy.pages
      ensures err == 0 && Core() && slabs == old(slabs) - {a} && a in old(buddy.st).own
      ensures old(buddy.st).own[a].order <= TOP && buddy.st == Free(old(buddy.st), a)
    {
      hide Inv, HeadersOk, SlabPtrs, Heap.Valid, B.Repr, Free, Blocks, Handed, Marked;
      ghost var s, ps := St(), buddy.pages[..];
      FreeKeeps(s.b, a, SLAB_ORDER, Lo(), Hi());
      PagesOfChunk(s.b, a, Lo(), Hi());
      HeaderCount(headers, mem, slabs, a);
      SlabAddress(buddy.region, a);
      var page := buddy.region.VirtToPage(a * PAGE_SIZE);
      if page == None {
        return -EINVAL;
      }
      if headers[a].freeCount != headers[a].totalCount - 1 {
        return -EINVAL;
      }
      var p := page.value;
      MarkPages(p, 0);
      UnmarkPtrs(ps, buddy.pages[..], s.b, slabs, Lo(), Lo(), Hi(), a);
      slabs := slabs - {a};
      ghost var ps1 := buddy.pages[..];
      buddy.FreePages(p);
      SlabsSurviveFree(s, buddy.st, a);
      PtrsAcross(ps1, buddy.st, s.b, slabs, Lo(), Lo(), Hi(), a, SLAB_ORDER);
      PtrsSame(ps1, buddy.pages[..], buddy.st.own, slabs, Lo());
      DropHeader(headers, mem, s.slabs, a);
      return 0;
    }

    /** __slab_free */
    method SlabFree(a: nat, block: nat, ghost i: nat) returns (err: int)
      requires Valid() && Outstanding(St(), a, i) && block == Addr(InSlab(a, slabs[a].cls, i))
      modifies this, heap, buddy, buddy.heap, buddy.pages
      ensures err == 0 && Valid() && a in old(buddy.st).own && old(buddy.st).own[a].order <= TOP
      ensures St() == FreeBlock(old(St()), a, i)
    {
      hide Inv, HeadersOk, SlabPtrs, Heap.Valid, B.Allocator.Valid, Sorted, SlabsOk, Free, Blocks, Addr;
      ghost var s := St();
      FreeBlockKeeps(s, a, i, Lo(), Hi());
      FreeFacts(s, a, i, Lo(), Hi());
      HeaderCount(headers, mem, slabs, a);
      err := 0;
      var c := headers[a].cls;
      PutFreeBlock(a, block, i);
      HeaderCount(headers, mem, slabs, a);
      if headers[a].freeCount == 1 {
        heap.Append(a, c);
        assert current[c] != Some(a);  // the BUG_ON
      } else if headers[a].freeCount == headers[a].totalCount - 1 {
        err := PutSlabToBuddy(a);
        if err == 0 {
          if current[c] == Some(a) {
            PromotePartial(c);
          } else {
            heap.Del(a, c, IndexOf(heap.lists[c], a));
          }
        }
      }
    }

    /** get_pages of kmalloc.c; 0 is NULL. */
    method GetPages(k: nat) returns (addr: nat)
      requires Valid() && k <= TOP
      modifies buddy, buddy.heap, buddy.pages
      ensures Valid()
      ensures match Take(old(buddy.st), k)
        case NoPage => addr == 0 && St() == old(St())
        case Got(t, a) => addr == a * PAGE_SIZE && addr > 0 && St() == old(St()).(b := t)
    {
      hide Inv, Sorted, HeadersOk, SlabPtrs, Heap.Valid, B.Repr, Handed, Take, Live;
      ghost var s, ps := St(), buddy.pages[..];
      TakeKeeps(s.b, k, Lo(), Hi());
      var r := buddy.GetPages(k);
      if r == None {
        PtrsSame(ps, buddy.pages[..], s.b.own, slabs, Lo());
        return 0;
      }
      ghost var a := Lo() + r.value;
      PagesGetKeeps(s, k, Lo(), Hi());
      SlabsSurviveTake(s, buddy.st, a, k);
      PtrsAcross(ps, s.b, buddy.st, slabs, Lo(), Lo(), Hi(), a, k);
      PtrsSame(ps, buddy.pages[..], buddy.st.own, slabs, Lo());
      PositiveBase(buddy.region, r.value);
      return buddy.region.PageToVirt(r.value);
    }

    /** free_pages of kmalloc.c: an address in the first page of a chunk x allocated directly, or one outside the region. */
    method FreePages(addr: nat, ghost x: Option<Block>)
      requires Valid()
      requires match x
        case None => addr < PAGE_SIZE * Lo() || addr >= PAGE_SIZE * Hi()
        case Some(y) => Live(St(), y) && y.Pages? && addr / PAGE_SIZE == y.a
      modifies buddy, buddy.heap, buddy.pages
      ensures Valid()
      ensures match x
        case None => St() == old(St())
        case Some(y) => y.k <= TOP && y.a in old(buddy.st).own && St() == old(St()).(b := Free(old(buddy.st), y.a))
    {
      hide Inv, Sorted, HeadersOk, SlabPtrs, Heap.Valid, B.Repr, Handed, Free;
      ghost var s, ps := St(), buddy.pages[..];
      PtrPage(buddy.region, addr);
      if x.Some? {
        FreeKeeps(s.b, x.value.a, x.value.k, Lo(), Hi());
        PagesPutKeeps(s, x.value.a, x.value.k, Lo(), Hi());
        InvHeldPages(s.b, x.value.a, x.value.k, Lo(), Hi());
      }
      var page := buddy.region.VirtToPage(addr);
      if page == None {
        return;
      }
      ghost var a, k := x.value.a, x.value.k;
      buddy.FreePages(page.value);
      PtrsAcross(ps, buddy.st, s.b, slabs, Lo(), Lo(), Hi(), a, k);
      PtrsSame(ps, buddy.pages[..], buddy.st.own, slabs, Lo());
    }

    /** kmalloc, with the real_size __kmalloc reports. */
    method Kmalloc(size: nat) returns (ptr: nat, realSize: nat)
      requires Valid()
      modifies this, heap, buddy, buddy.heap, buddy.pages
      ensures Valid()
      ensures match KmallocRuns.Kmalloc(old(St()), size, Lo(), Hi())
        case ZeroPtr => ptr == ZERO_PTR && St() == old(St())
        case Null => ptr == 0 && St() == old(St())
        case Ptr(t, x) => St() == t && ptr == Addr(x) && realSize == Size(x)
    {
      hide SInv, Core, Take, Alloc;
      realSize := 0;
      if size == 0 {
        return ZERO_PTR, 0;
      }
      if size <= BlockSize(5) {
        var order := SizeToSlabOrder(size);
        AllocLive(St(), order - 6, Lo(), Hi());
        realSize := Pow2(order);
        ptr := SlabAlloc(order - 6);
      } else if size <= PAGE_SIZE * Pow2(TOP) {
        var order := SizeToPageOrder(size);
        PagesResult(St(), order, Lo(), Hi());
        realSize := PAGE_SIZE * Pow2(order);
        ptr := GetPages(order);
      } else {
        ptr := 0;
      }
    }

    /** slab_free. `y` is the live block at addr; without one, addr is NULL, misaligned, outside the region or not on a
        slab page, and nothing happens. */
    method SlabFreeAt(addr: nat, ghost y: Option<Block>) returns (err: int)
      requires Valid()
      requires y.Some? ==> Live(St(), y.value) && y.value.InSlab? && addr == Addr(y.value)
      requires y.None? ==> addr == 0 || addr % 64 != 0 || NotSlabPage(St(), addr)
      modifies this, heap, buddy, buddy.heap, buddy.pages
      ensures Valid()
      ensures y.Some? ==> err == 0 && St() == KmallocRuns.Kfree(old(St()), addr)
      ensures y.None? ==> St() == old(St()) && err == if addr == 0 || addr % 64 != 0 then -EINVAL else 0
    {
      hide SInv, Inv, SlabsOk, HeadersOk, SlabPtrs, Heap.Valid, B.Repr, FreeBlock, Live, Outstanding, KmallocRuns.Kfree, Addr, NotSlabPage;
      ghost var s := St();
      err := 0;
      if y.Some? {
        PageOfLive(buddy.region, buddy.pages[..], s, y.value);
      } else if NotSlabPage(s, addr) {
        PageOfOther(buddy.region, buddy.pages[..], s, addr);
      }
      if addr == 0 {
        err := -EINVAL;
      }
      if err == 0 {
        if addr % 64 != 0 {
          err := -EINVAL;
        }
      }
      if err == 0 {
        var page := buddy.region.VirtToPage(addr);
        if page != None && buddy.pages[page.value].slab != 0 {
          var a := buddy.pages[page.value].slab / PAGE_SIZE;
          err := SlabFree(a, addr, y.value.i);
        }
      }
    }

    /** A client writes a word inside a block it holds: nothing of the allocator changes. */
    method ClientWrite(addr: nat, v: nat, ghost x: Block)
      requires Valid() && Live(St(), x) && Addr(x) <= addr && addr + 8 <= Addr(x) + Size(x)
      modifies this`mem
      ensures Valid() && St() == old(St()) && mem == old(mem)[addr := v]
    {
      hide Inv, Sorted, SlabsOk, HeadersOk, SlabPtrs, Heap.Valid, B.Allocator.Valid, Live, Addr, Size;
      ClientWriteFrame(headers, mem, St(), x, addr, v, Lo(), Hi());
      mem := mem[addr := v];
    }

    /** kfree: the caller passes NULL-like and foreign pointers, or the address of a live block x. */
    method Kfree(ptr: nat, ghost x: Option<Block>)
      requires Valid()
      requires match x
        case None => ptr == ZERO_PTR || ptr < PAGE_SIZE * Lo() || ptr >= PAGE_SIZE * Hi()
        case Some(y) => Live(St(), y) && ptr == Addr(y)
      modifies this, heap, buddy, buddy.heap, buddy.pages
      ensures Valid() && St() == KmallocRuns.Kfree(old(St()), ptr)
    {
      hide Inv, Sorted, HeadersOk, Heap.Valid, B.Repr, FreeBlock, Free, Blocks;
      ghost var s := St();
      if x.None? { KfreeForeign(s, ptr, Lo(), Hi()); } else { LiveNotZero(s, x.value, Lo(), Hi()); }
      if ptr == ZERO_PTR {
        return;
      }
      PtrPage(buddy.region, ptr);
      var page := buddy.region.VirtToPage(ptr);
      if page == None {
        assert x.None? by { if x.Some? { LivePlaced(s, x.value, Lo(), Hi()); } }
        return;
      }
      var p := page.value;
      ghost var y := x.value;
      KfreeDispatch(buddy.pages[..], s, y, Lo(), Hi());
      if buddy.pages[p].slab != 0 {
        var err := SlabFreeAt(ptr, Some(y));
      } else {
        FreePages(ptr, Some(y));
      }
    }
  }
}
