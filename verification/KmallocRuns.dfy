/** kmalloc and kfree as operations on addresses, over whole runs, with page accounting. */
module KmallocRuns {
  import opened Dyadic
  import opened BuddySpec
  import opened BuddyLaws
  import opened BuddyRuns
  import BootSizing
  import opened Kernel
  import opened SlabSpec
  import opened KmallocSpec

  const ZERO_PTR: nat := 0xFFFF_FFFF_FFFF_FFFF  // ZERO_SIZE_PTR

  /** size_to_slab_order, from class c on. */
  function ClassFrom(size: nat, c: nat): (r: nat)
    requires c < CLASSES && size <= BlockSize(5)
    ensures c <= r < CLASSES && size <= BlockSize(r) && (r > c ==> size > BlockSize(r - 1))
    decreases CLASSES - c
  {
    if size <= BlockSize(c) then c else ClassFrom(size, c + 1)
  }

  /** size_to_page_order, from order k on. */
  function OrderFrom(size: nat, k: nat): (r: nat)
    requires k <= TOP && size <= PAGE_SIZE * Pow2(TOP)
    ensures k <= r <= TOP && size <= PAGE_SIZE * Pow2(r) && (r > k ==> size > PAGE_SIZE * Pow2(r - 1))
    decreases TOP - k
  {
    if size <= PAGE_SIZE * Pow2(k) then k else OrderFrom(size, k + 1)
  }

  datatype MallocResult = ZeroPtr | Null | Ptr(s: SlabSpec.State, x: Block)

  ghost function Kmalloc(s: SlabSpec.State, size: nat, lo: nat, hi: nat): MallocResult
    requires SInv(s, lo, hi)
  {
    if size == 0 then ZeroPtr
    else if size <= BlockSize(5) then
      var c := ClassFrom(size, 0);
      match Alloc(s, c, lo, hi)
      case OutOfMemory(_) => Null
      case Block(t, a, i) => Ptr(t, InSlab(a, c, i))
    else if size <= PAGE_SIZE * Pow2(TOP) then
      var k := OrderFrom(size, 0);
      match Take(s.b, k)
      case NoPage => Null
      case Got(t, a) => Ptr(s.(b := t), Pages(a, k))
    else Null
  }

  /** (block - s) / slab_order_to_size(order) */
  function BlockAt(offset: nat, c: nat): nat {
    ModBounds(offset, BlockSize(c));
    offset / BlockSize(c)
  }

  predicate Shaped(s: SlabSpec.State) {
    |s.b.lists| == ORDERS && |s.current| == |s.partial| == CLASSES
  }

  /** kfree on a raw pointer: dispatch on the slab the page belongs to, recompute the block index. */
  function Kfree(s: SlabSpec.State, ptr: nat): SlabSpec.State
    requires Shaped(s)
  {
    var q := ptr / PAGE_SIZE;
    if ptr == ZERO_PTR || q !in s.b.own then s
    else
      var a := s.b.own[q].start;
      if a in s.slabs then
        if ptr % 64 == 0 && a * PAGE_SIZE <= ptr && s.slabs[a].cls < CLASSES && a in s.b.own && s.b.own[a].order <= TOP then
          FreeBlock(s, a, BlockAt(ptr - a * PAGE_SIZE, s.slabs[a].cls))
        else s
      else if s.b.own[q].order <= TOP then s.(b := Free(s.b, q))
      else s
  }

  lemma TakeLive(s: SlabSpec.State, t: BuddySpec.State, a: nat, k: nat)
    requires SlabsOk(s) && Handed(s.b, t, a, k) && Held(t, a, k)
    ensures Adds(s, s.(b := t), Pages(a, k))
  {
    SlabsSurviveTake(s, t, a, k);
    var s' := s.(b := t);
    forall y ensures Live(s', y) <==> Live(s, y) || y == Pages(a, k) {
      match y
      case InSlab(x, c, i) =>
      case Pages(x, j) => HeldAcross(s.b, t, a, k, x, j);
    }
  }

  lemma PagesGetKeeps(s: SlabSpec.State, k: nat, lo: nat, hi: nat)
    requires SInv(s, lo, hi) && Take(s.b, k).Got?
    ensures var r := Take(s.b, k); SInv(s.(b := r.s), lo, hi) && Adds(s, s.(b := r.s), Pages(r.a, k))
  {
    hide Inv, Sorted, Handed, Take;
    TakeKeeps(s.b, k, lo, hi);
    var r := Take(s.b, k);
    SlabsSurviveTake(s, r.s, r.a, k);
    SortedIgnoresBuddy(s, r.s);
    TakeLive(s, r.s, r.a, k);
  }

  lemma PagesPutKeeps(s: SlabSpec.State, a: nat, k: nat, lo: nat, hi: nat)
    requires SInv(s, lo, hi) && Live(s, Pages(a, k))
    ensures k <= TOP && a in s.b.own
    ensures var t := s.(b := Free(s.b, a)); SInv(t, lo, hi) && Adds(t, s, Pages(a, k))
  {
    hide Inv, Sorted, Handed, Free, Pow2;
    FreeKeeps(s.b, a, k, lo, hi);
    var b' := Free(s.b, a);
    SlabsSurvivePut(s, b', a, k);
    SortedIgnoresBuddy(s, b');
    TakeLive(s.(b := b'), s.b, a, k);
  }

  lemma SlabsSurvivePut(s: SlabSpec.State, t: BuddySpec.State, a: nat, k: nat)
    requires SlabsOk(s) && Handed(t, s.b, a, k) && a !in s.slabs
    ensures SlabsOk(s.(b := t))
  {
    forall x | x in s.slabs ensures Held(t, x, SLAB_ORDER) {
      assert Held(s.b, x, SLAB_ORDER);
    }
  }

  /** kmalloc: the block returned was not live, is the only new live one, is large enough and less than
      twice the request (or the 64-byte minimum); a NULL changes nothing. */
  lemma KmallocOk(s: SlabSpec.State, size: nat, lo: nat, hi: nat)
    requires SInv(s, lo, hi)
    ensures match Kmalloc(s, size, lo, hi)
      case ZeroPtr => size == 0
      case Null => size > 0
      case Ptr(t, x) => SInv(t, lo, hi) && Adds(s, t, x) && size <= Size(x) && (Size(x) < 2 * size || Size(x) == 64)
  {
    hide SInv, Adds, Alloc, Take;
    if size == 0 {
    } else if size <= BlockSize(5) {
      var c := ClassFrom(size, 0);
      assert Pow2(6) == 64;
      AllocKeeps(s, c, lo, hi);
      AllocLive(s, c, lo, hi);
    } else if size <= PAGE_SIZE * Pow2(TOP) {
      var k := OrderFrom(size, 0);
      assert Pow2(11) == 2048;
      PagesResult(s, k, lo, hi);
    }
  }

  lemma PagesResult(s: SlabSpec.State, k: nat, lo: nat, hi: nat)
    requires SInv(s, lo, hi)
    ensures |s.b.lists| == ORDERS
    ensures Take(s.b, k).Got? ==>
      var r := Take(s.b, k); SInv(s.(b := r.s), lo, hi) && Adds(s, s.(b := r.s), Pages(r.a, k))
  {
    hide Inv, Sorted, Adds, Take;
    if Take(s.b, k).Got? { PagesGetKeeps(s, k, lo, hi); }
  }

  /** kmalloc gives NULL only for a request above 4 MB, when the class has no current slab and the buddy
      system no 32 pages, or when no chunk of the order or above is free. */
  lemma KmallocNull(s: SlabSpec.State, size: nat, lo: nat, hi: nat)
    requires SInv(s, lo, hi) && size > 0
    ensures Kmalloc(s, size, lo, hi) == Null <==>
      || size > PAGE_SIZE * Pow2(TOP)
      || (size <= BlockSize(5) && s.current[ClassFrom(size, 0)] == None && forall j | SLAB_ORDER <= j < ORDERS :: s.b.lists[j] == [])
      || (BlockSize(5) < size <= PAGE_SIZE * Pow2(TOP) && forall j | OrderFrom(size, 0) <= j < ORDERS :: s.b.lists[j] == [])
  {
    hide Inv, SlabsOk, Sorted, Fresh, NewCurrent;
    assert Pow2(11) == 2048 && Pow2(10) == 1024;
    TakeTotal(s.b, SLAB_ORDER, lo, hi);
    if BlockSize(5) < size <= PAGE_SIZE * Pow2(TOP) {
      TakeTotal(s.b, OrderFrom(size, 0), lo, hi);
    }
  }

  /** Slab a serves class c and has a free block. */
  predicate HasFree(s: SlabSpec.State, c: nat, a: nat) {
    a in s.slabs && s.slabs[a].cls == c && s.slabs[a].free != []
  }

  /** A class without a current slab has free blocks left exactly when its partial list is not empty. */
  lemma FreeLeftIff(s: SlabSpec.State, c: nat, lo: nat, hi: nat)
    requires SInv(s, lo, hi) && c < CLASSES && s.current[c] == None
    ensures (exists a :: HasFree(s, c, a)) <==> s.partial[c] != []
  {
    hide Inv, SlabsOk, Blocks;
    if s.partial[c] != [] {
      assert s.partial[c][0] in s.partial[c];
      assert HasFree(s, c, s.partial[c][0]);
    }
  }

  /** kmalloc gives NULL with a block of the class free exactly when the class lost its current slab, its partial list has
      refilled, and no 32 pages are left in one piece. */
  lemma NullWithFreeIff(s: SlabSpec.State, size: nat, lo: nat, hi: nat)
    requires SInv(s, lo, hi) && 0 < size <= BlockSize(5)
    ensures var c := ClassFrom(size, 0);
      Kmalloc(s, size, lo, hi) == Null && (exists a :: HasFree(s, c, a)) <==>
        s.current[c] == None && s.partial[c] != [] && forall j | SLAB_ORDER <= j < ORDERS :: s.b.lists[j] == []
  {
    assert |s.b.lists| == ORDERS && |s.current| == |s.partial| == CLASSES;
    hide SInv, HasFree, Kmalloc;
    assert Pow2(11) == 2048 && Pow2(10) == 1024;
    KmallocNull(s, size, lo, hi);
    if s.current[ClassFrom(size, 0)] == None { FreeLeftIff(s, ClassFrom(size, 0), lo, hi); }
  }

  /** Dividing the offset of a block's address by the block size gives its index back. */
  lemma BlockIndex(a: nat, c: nat, i: nat)
    requires c < CLASSES && 1 <= i < Blocks(c)
    ensures var p := Addr(InSlab(a, c, i));
      p >= a * PAGE_SIZE && BlockAt(p - a * PAGE_SIZE, c) == i && p % 64 == 0 && a <= p / PAGE_SIZE < a + 32
  {
    hide Blocks, BlockSize;
    BlockInside(c, i);
    SixtyFour(c, i);
    BlockAtMultiple(c, i);
    OffsetPage(a, i * BlockSize(c));
  }

  lemma OffsetPage(a: nat, off: nat)
    requires off < 131072 && off % 64 == 0
    ensures (a * PAGE_SIZE + off) % 64 == 0 && a <= (a * PAGE_SIZE + off) / PAGE_SIZE < a + 32
  {
  }

  lemma BlockAtMultiple(c: nat, i: nat)
    ensures BlockAt(i * BlockSize(c), c) == i
  {
    DivModUnique(i * BlockSize(c), BlockSize(c), i, 0);
  }

  lemma SixtyFour(c: nat, i: nat)
    requires c < CLASSES
    ensures (i * BlockSize(c)) % 64 == 0
  {
    BlocksPerPage(c);
    hide BlockSize;
    MulSwap(i, 64, Pow2(c));
    DivModUnique(i * BlockSize(c), 64, i * Pow2(c), 0);
  }

  lemma KfreeSlab(s: SlabSpec.State, a: nat, c: nat, i: nat, lo: nat, hi: nat)
    requires SInv(s, lo, hi) && Live(s, InSlab(a, c, i)) && Addr(InSlab(a, c, i)) != ZERO_PTR
    ensures a in s.b.own && s.b.own[a].order <= TOP
    ensures Kfree(s, Addr(InSlab(a, c, i))) == FreeBlock(s, a, i)
  {
    hide Inv, SlabsOk, Sorted, FreeBlock, Blocks, BlockSize, BlockAt;
    SlabFacts(s, a, lo, hi);
    BlockIndex(a, c, i);
    InvHeldPages(s.b, a, SLAB_ORDER, lo, hi);
  }

  lemma KfreePages(s: SlabSpec.State, a: nat, k: nat, lo: nat, hi: nat)
    requires SInv(s, lo, hi) && Live(s, Pages(a, k)) && a * PAGE_SIZE != ZERO_PTR
    ensures a in s.b.own && k <= TOP && Kfree(s, a * PAGE_SIZE) == s.(b := Free(s.b, a))
  {
    hide Inv, SlabsOk, Sorted, Free;
    InvHeldPages(s.b, a, k, lo, hi);
    assert (a * PAGE_SIZE) / PAGE_SIZE == a;
  }

  /** kfree of a live block's address reaches the allocator it came from, and ends exactly that block. */
  lemma KfreeOk(s: SlabSpec.State, x: Block, lo: nat, hi: nat)
    requires SInv(s, lo, hi) && Live(s, x) && Addr(x) != ZERO_PTR
    ensures var t := Kfree(s, Addr(x)); SInv(t, lo, hi) && Adds(t, s, x)
  {
    hide Inv, SlabsOk, Sorted, FreeBlock, Free, Kfree, Adds, Blocks, BlockSize;
    match x
    case InSlab(a, c, i) =>
      KfreeSlab(s, a, c, i, lo, hi);
      FreeBlockKeeps(s, a, i, lo, hi);
      FreeBlockLive(s, a, i, lo, hi);
    case Pages(a, k) =>
      KfreePages(s, a, k, lo, hi);
      PagesPutKeeps(s, a, k, lo, hi);
  }

  /** Pointers outside the region, NULL and the zero-size pointer are ignored. */
  lemma KfreeForeign(s: SlabSpec.State, ptr: nat, lo: nat, hi: nat)
    requires SInv(s, lo, hi) && (ptr == ZERO_PTR || ptr < PAGE_SIZE * lo || ptr >= PAGE_SIZE * hi)
    ensures Kfree(s, ptr) == s
  {
    hide NoPair, ListsAgree, SlabsOk, Sorted;
    assert ptr / PAGE_SIZE in s.b.own ==> lo <= ptr / PAGE_SIZE < hi;
  }

  // ---------- runs ----------

  datatype Op = Malloc(size: nat) | FreeOp(x: Block)

  /** A client and the allocator: the ledger holds the blocks the client got and has not freed, with the size asked for. */
  datatype World = World(s: SlabSpec.State, ledger: map<Block, nat>)

  ghost function Step(w: World, op: Op, lo: nat, hi: nat): World
    requires SInv(w.s, lo, hi)
  {
    match op
    case Malloc(size) => (
      match Kmalloc(w.s, size, lo, hi)
      case ZeroPtr => w
      case Null => w
      case Ptr(t, x) => World(t, w.ledger[x := size]))
    case FreeOp(x) => World(Kfree(w.s, Addr(x)), w.ledger - {x})
  }

  /** Clients free only blocks they hold. */
  predicate Legal(w: World, op: Op) {
    op.FreeOp? ==> op.x in w.ledger
  }

  /** The ledger is exactly the set of live blocks, each at least as large as asked for. */
  ghost predicate Honest(w: World, lo: nat, hi: nat) {
    && SInv(w.s, lo, hi)
    && (forall x :: x in w.ledger <==> Live(w.s, x))
    && (forall x | x in w.ledger :: w.ledger[x] <= Size(x))
  }

  ghost predicate Reaches(w: World, ops: seq<Op>, v: World, lo: nat, hi: nat)
    decreases |ops|
  {
    if ops == [] then v == w
    else Legal(w, ops[0]) && SInv(w.s, lo, hi) && Reaches(Step(w, ops[0], lo, hi), ops[1..], v, lo, hi)
  }

  lemma StepHonest(w: World, op: Op, lo: nat, hi: nat)
    requires Honest(w, lo, hi) && Legal(w, op) && PAGE_SIZE * hi <= ZERO_PTR + 1
    ensures Honest(Step(w, op, lo, hi), lo, hi)
  {
    hide SInv, Live, Kmalloc, Kfree, Size, Addr;
    match op
    case Malloc(size) => KmallocOk(w.s, size, lo, hi);
    case FreeOp(x) =>
      LivePlaced(w.s, x, lo, hi);
      LiveNotZero(w.s, x, lo, hi);
      KfreeOk(w.s, x, lo, hi);
  }

  lemma LiveNotZero(s: SlabSpec.State, x: Block, lo: nat, hi: nat)
    requires SInv(s, lo, hi) && Live(s, x) && PAGE_SIZE * hi <= ZERO_PTR + 1
    ensures Addr(x) != ZERO_PTR
  {
    hide SInv, Live;
    LivePlaced(s, x, lo, hi);
    SizeBig(x);
  }

  lemma SizeBig(x: Block)
    ensures Size(x) >= 2
  {
  }

  /** Class c is about to lose its current slab: one free block left, no partial slab, no 32 pages to be had; and block i
      of its full slab f is out. */
  predicate AboutToLose(s: SlabSpec.State, c: nat, f: nat, i: nat) {
    && Shaped(s) && c < CLASSES && s.current[c].Some? && s.current[c].value in s.slabs
    && |s.slabs[s.current[c].value].free| == 1 && s.partial[c] == [] && Take(s.b, SLAB_ORDER) == NoPage
    && Outstanding(s, f, i) && s.slabs[f].cls == c && s.slabs[f].free == []
  }

  /** The state once that last block is taken. */
  function WithoutCurrent(s: SlabSpec.State, c: nat): SlabSpec.State
    requires c < |s.current| && s.current[c].Some? && s.current[c].value in s.slabs
  {
    var a := s.current[c].value;
    s.(slabs := s.slabs[a := s.slabs[a].(free := [])], current := s.current[c := None])
  }

  lemma LastBlockGone(s: SlabSpec.State, size: nat, f: nat, i: nat, lo: nat, hi: nat)
    requires SInv(s, lo, hi) && 0 < size <= BlockSize(5) && AboutToLose(s, ClassFrom(size, 0), f, i)
    ensures var t := WithoutCurrent(s, ClassFrom(size, 0)); var r := Kmalloc(s, size, lo, hi);
      r.Ptr? && r.s == t && Shaped(t) && Outstanding(t, f, i) && t.slabs[f].cls == ClassFrom(size, 0)
  {
    var c := ClassFrom(size, 0);
    hide Inv, SlabsOk, Sorted, Take, Blocks;
    assert s.slabs[s.current[c].value].free[1..] == [];
  }

  /** Freeing a block of a full slab puts the slab at the end of its partial list. */
  lemma FullFreed(t: SlabSpec.State, f: nat, i: nat, lo: nat, hi: nat)
    requires SInv(t, lo, hi) && Outstanding(t, f, i) && t.slabs[f].free == []
    ensures f in t.b.own && t.b.own[f].order <= TOP && t.slabs[f].cls < |t.partial| == |t.current| && |t.b.lists| == ORDERS
    ensures var u := FreeBlock(t, f, i); var c := t.slabs[f].cls;
      && f in u.slabs && u.slabs[f] == t.slabs[f].(free := [i]) && u.b == t.b
      && u.current == t.current && u.partial == t.partial[c := t.partial[c] + [f]]
  {
    SlabFacts(t, f, lo, hi);
    hide Inv, SlabsOk, Sorted, Blocks;
  }

  lemma NoChunks(s: SlabSpec.State, lo: nat, hi: nat)
    requires SInv(s, lo, hi) && Take(s.b, SLAB_ORDER) == NoPage
    ensures forall j | SLAB_ORDER <= j < ORDERS :: s.b.lists[j] == []
  {
    hide Take, SlabsOk, Sorted;
    TakeTotal(s.b, SLAB_ORDER, lo, hi);
  }

  /** How a class gets there: the last block is taken, then the block of the full slab is freed. The next request fails
      with that block free. */
  lemma NullWithFree(s: SlabSpec.State, size: nat, f: nat, i: nat, lo: nat, hi: nat)
    requires SInv(s, lo, hi) && 0 < size <= BlockSize(5) && AboutToLose(s, ClassFrom(size, 0), f, i)
    requires PAGE_SIZE * hi <= ZERO_PTR + 1
    ensures var c := ClassFrom(size, 0); var x := InSlab(f, c, i); var r := Kmalloc(s, size, lo, hi);
      && r.Ptr? && Shaped(r.s) && Live(r.s, x)
      && var u := Kfree(r.s, Addr(x));
      && SInv(u, lo, hi) && Kmalloc(u, size, lo, hi) == Null
      && HasFree(u, c, f) && u.slabs[f].free == [i] && u.partial == s.partial[c := [f]]
  {
    hide SInv, FreeBlock, Kfree, Addr, Take, Blocks, Kmalloc;
    var c := ClassFrom(size, 0);
    LastBlockGone(s, size, f, i, lo, hi);
    KmallocOk(s, size, lo, hi);
    var t := WithoutCurrent(s, c);
    LiveNotZero(t, InSlab(f, c, i), lo, hi);
    KfreeSlab(t, f, c, i, lo, hi);
    FreeBlockKeeps(t, f, i, lo, hi);
    FullFreed(t, f, i, lo, hi);
    NoChunks(s, lo, hi);
    KmallocNull(FreeBlock(t, f, i), size, lo, hi);
    assert t.partial[c] + [f] == [f];
  }

  /** Two slabs of 2 KB blocks in a region of 64 pages, the first full and the second but for one block. */
  function TwoSlabs(): SlabSpec.State {
    SlabSpec.State(
      BuddySpec.State(Fill(Chunk(32, SLAB_ORDER, true)) + Fill(Chunk(64, SLAB_ORDER, true)), seq(ORDERS, _ => [])),
      map[32 := Slab(5, []), 64 := Slab(5, [1])],
      seq(CLASSES, c => if c == 5 then Some(64) else None), seq(CLASSES, _ => []))
  }

  lemma TwoSlabsTiled()
    ensures Inv(TwoSlabs().b, 32, 96) && Held(TwoSlabs().b, 32, SLAB_ORDER) && Held(TwoSlabs().b, 64, SLAB_ORDER)
  {
    var b := TwoSlabs().b;
    assert Pow2(5) == 32 && Pow2(6) == 64;
    assert Tiling(b.own, 32, 96);
    assert forall a: nat, k: nat :: !FreeAt(b.own, a, k);
  }

  lemma TwoSlabsSorted()
    ensures Sorted(TwoSlabs()) && forall a | a in TwoSlabs().slabs :: a in {32, 64} && ChainOk(TwoSlabs().slabs[a])
  {
    var s := TwoSlabs();
    assert Pow2(5) == 32 && Pow2(6) == 64;
    hide Fill;
    assert forall c | 0 <= c < CLASSES :: s.partial[c] == [];
  }

  /** It is such a state. */
  lemma NullWithFreeExample()
    ensures SInv(TwoSlabs(), 32, 96) && AboutToLose(TwoSlabs(), 5, 32, 1)
  {
    TwoSlabsTiled();
    TwoSlabsSorted();
    assert Pow2(5) == 32 && Pow2(6) == 64;
    hide Inv, Sorted, ChainOk, Fill;
  }

  /** In every state a run of kmalloc and kfree reaches, the blocks the client holds are exactly the live ones. */
  lemma {:induction false} RunHonest(w: World, ops: seq<Op>, v: World, lo: nat, hi: nat)
    requires Honest(w, lo, hi) && Reaches(w, ops, v, lo, hi) && PAGE_SIZE * hi <= ZERO_PTR + 1
    ensures Honest(v, lo, hi)
    decreases |ops|
  {
    if ops != [] {
      StepHonest(w, ops[0], lo, hi);
      RunHonest(Step(w, ops[0], lo, hi), ops[1..], v, lo, hi);
    }
  }

  /** Where a held block may lie: inside the region, aligned to its size, clear of every slab header and of every free block. */
  ghost predicate WellPlaced(s: SlabSpec.State, x: Block, lo: nat, hi: nat) {
    && 0 < Size(x) && Addr(x) % Size(x) == 0 && PAGE_SIZE * lo <= Addr(x) && Addr(x) + Size(x) <= PAGE_SIZE * hi
    && (forall a | a in s.slabs :: Addr(x) + Size(x) <= PAGE_SIZE * a || Addr(x) >= PAGE_SIZE * a + 64)
    && (forall a, i | a in s.slabs && i in s.slabs[a].free :: Apart(x, InSlab(a, s.slabs[a].cls, i)))
  }

  lemma LiveWellPlaced(s: SlabSpec.State, x: Block, lo: nat, hi: nat)
    requires SInv(s, lo, hi) && Live(s, x)
    ensures WellPlaced(s, x, lo, hi)
  {
    hide SInv, Live, Apart, Size, Addr;
    LivePlaced(s, x, lo, hi);
    forall a, i | a in s.slabs && i in s.slabs[a].free ensures Apart(x, InSlab(a, s.slabs[a].cls, i)) {
      ClearOfFree(s, x, a, i, lo, hi);
    }
  }

  /** The safety statement of a whole run: held blocks are disjoint, large enough and well placed. */
  lemma RunSafe(w: World, ops: seq<Op>, v: World, lo: nat, hi: nat)
    requires Honest(w, lo, hi) && Reaches(w, ops, v, lo, hi) && PAGE_SIZE * hi <= ZERO_PTR + 1
    ensures forall x, y | x in v.ledger && y in v.ledger && x != y :: Apart(x, y)
    ensures forall x | x in v.ledger :: v.ledger[x] <= Size(x) && WellPlaced(v.s, x, lo, hi)
  {
    hide SInv, Live, Apart, Size, Addr, Reaches, WellPlaced;
    RunHonest(w, ops, v, lo, hi);
    forall x, y | x in v.ledger && y in v.ledger && x != y ensures Apart(x, y) {
      LiveDisjoint(v.s, x, y, lo, hi);
    }
    forall x | x in v.ledger ensures WellPlaced(v.s, x, lo, hi) {
      LiveWellPlaced(v.s, x, lo, hi);
    }
  }

  /** The same for the region init_buddy sets up: in addition no held block ever touches the kernel image or the
      page array, nor the memory behind the end of RAM. */
  lemma BootedRunSafe(imgEnd: nat, w: World, ops: seq<Op>, v: World)
    requires BootSizing.Bootable(imgEnd)
    requires var lo := BootSizing.FirstPage(imgEnd); var hi := lo + BootSizing.PageNum(imgEnd);
      Honest(w, lo, hi) && Reaches(w, ops, v, lo, hi)
    ensures var lo := BootSizing.FirstPage(imgEnd); var hi := lo + BootSizing.PageNum(imgEnd);
      && (forall x, y | x in v.ledger && y in v.ledger && x != y :: Apart(x, y))
      && (forall x | x in v.ledger :: v.ledger[x] <= Size(x) && WellPlaced(v.s, x, lo, hi))
    ensures forall x | x in v.ledger ::
      && KBASE + imgEnd <= BootSizing.ArrayStart(imgEnd) <= BootSizing.ArrayEnd(imgEnd) <= Addr(x)
      && Addr(x) + Size(x) <= KBASE + BootSizing.PHYS_MEM_END
  {
    hide SInv, Honest, Reaches, Apart, Size, Addr, BootSizing.FirstPage, BootSizing.PageNum, BootSizing.ArrayEnd, BootSizing.ArrayStart;
    BootSizing.Layout(imgEnd);
    RunSafe(w, ops, v, BootSizing.FirstPage(imgEnd), BootSizing.FirstPage(imgEnd) + BootSizing.PageNum(imgEnd));
  }

  // ---------- conservation and retention ----------

  ghost function PagesOf(b: BuddySpec.State, starts: set<nat>): set<nat> {
    set q | q in b.own && b.own[q].start in starts
  }

  /** Pages handed out directly, not through a slab. */
  ghost function DirectPages(s: SlabSpec.State): set<nat> {
    set q | q in s.b.own && s.b.own[q].taken && s.b.own[q].start !in s.slabs
  }

  lemma {:induction false} SlabPagesCount(b: BuddySpec.State, starts: set<nat>, lo: nat, hi: nat)
    requires Inv(b, lo, hi) && forall a | a in starts :: Held(b, a, SLAB_ORDER)
    ensures |PagesOf(b, starts)| == 32 * |starts|
    decreases starts
  {
    if starts == {} {
      assert PagesOf(b, starts) == {};
    } else {
      hide Inv;
      var a :| a in starts;
      var rest := starts - {a};
      SlabPagesCount(b, rest, lo, hi);
      OneSlabPages(b, a, lo, hi);
      assert starts == rest + {a};
      PagesOfUnion(b, rest, {a});
    }
  }

  lemma PagesOfUnion(b: BuddySpec.State, x: set<nat>, y: set<nat>)
    requires x !! y
    ensures |PagesOf(b, x + y)| == |PagesOf(b, x)| + |PagesOf(b, y)|
  {
    assert PagesOf(b, x + y) == PagesOf(b, x) + PagesOf(b, y);
    assert PagesOf(b, x) !! PagesOf(b, y);
  }

  lemma OneSlabPages(b: BuddySpec.State, a: nat, lo: nat, hi: nat)
    requires Inv(b, lo, hi) && Held(b, a, SLAB_ORDER)
    ensures |PagesOf(b, {a})| == 32
  {
    InvHeldPages(b, a, SLAB_ORDER, lo, hi);
    IntervalSize(a, 32);
    assert Pow2(5) == 32;
    forall q ensures q in PagesOf(b, {a}) <==> q in Interval(a, 32) {
      if q in b.own && b.own[q].start == a {
        assert Covers(b.own[q], q) && Covers(b.own[q], a);
      }
      if q in Interval(a, 32) { assert Between(q, a, 32); }
      if a <= q < a + 32 { assert Between(q, a, 32); }
    }
    assert PagesOf(b, {a}) == Interval(a, 32);
  }

  /** Free pages, 32 pages per slab and the directly allocated pages make up the region. */
  lemma Conservation(s: SlabSpec.State, lo: nat, hi: nat)
    requires SInv(s, lo, hi) && lo <= hi
    ensures Total(s.b.lists, 0) + 32 * |s.slabs| + |DirectPages(s)| == hi - lo
  {
    BuddyOk(s, lo, hi);
    hide *;
    TotalIsFreePages(s.b, lo, hi);
    SlabsCount(s, lo, hi);
    RegionSize(s.b, lo, hi);
    SlabPagesTaken(s, lo, hi);
    PagesPartition(s);
    PartsAddUp(FreeSet(s.b), PagesOf(s.b, s.slabs.Keys), DirectPages(s), s.b.own.Keys);
  }

  lemma BuddyOk(s: SlabSpec.State, lo: nat, hi: nat)
    requires SInv(s, lo, hi)
    ensures Inv(s.b, lo, hi)
  {
  }

  lemma PagesPartition(s: SlabSpec.State)
    requires forall q | q in s.b.own && s.b.own[q].start in s.slabs :: s.b.own[q].taken
    ensures var f, sp, dp := FreeSet(s.b), PagesOf(s.b, s.slabs.Keys), DirectPages(s);
      f + sp + dp == s.b.own.Keys && f !! sp && f !! dp && sp !! dp
  {
  }

  lemma PartsAddUp(a: set<nat>, b: set<nat>, c: set<nat>, u: set<nat>)
    requires a !! b && a !! c && b !! c && a + b + c == u
    ensures |a| + |b| + |c| == |u|
  {
    assert |a + b| == |a| + |b|;
    assert (a + b) !! c;
  }

  lemma SlabsCount(s: SlabSpec.State, lo: nat, hi: nat)
    requires SInv(s, lo, hi)
    ensures |PagesOf(s.b, s.slabs.Keys)| == 32 * |s.slabs|
  {
    hide Inv, Sorted;
    SlabPagesCount(s.b, s.slabs.Keys, lo, hi);
  }

  lemma SlabPagesTaken(s: SlabSpec.State, lo: nat, hi: nat)
    requires SInv(s, lo, hi)
    ensures forall q | q in s.b.own && s.b.own[q].start in s.slabs :: s.b.own[q].taken
  {
    forall q | q in s.b.own && s.b.own[q].start in s.slabs ensures s.b.own[q].taken {
      var c := s.b.own[q];
      SlabFacts(s, c.start, lo, hi);
      assert Covers(c, q) && Covers(c, c.start);
    }
  }

  ghost predicate NothingLive(s: SlabSpec.State) {
    forall x :: !Live(s, x)
  }

  /** No block of slab a is out. */
  ghost predicate Unused(s: SlabSpec.State, a: nat) {
    forall i: nat :: !Outstanding(s, a, i)
  }

  /** An unused slab has its whole chain and is the current slab of its class. */
  lemma UnusedIsCurrent(s: SlabSpec.State, a: nat, lo: nat, hi: nat)
    requires SInv(s, lo, hi) && a in s.slabs && Unused(s, a)
    ensures IsCurrent(s, a) && |s.slabs[a].free| == Blocks(s.slabs[a].cls) - 1
  {
    SlabFacts(s, a, lo, hi);
    var l := s.slabs[a];
    ClassSizes(l.cls);
    forall i: nat | 1 <= i < Blocks(l.cls) ensures i in l.free {
      assert !Outstanding(s, a, i);
    }
    WholeChain(l);
    hide Inv, SlabsOk;
  }

  /** Every slab that is not current has a block out, whatever else is live. */
  lemma OthersInUse(s: SlabSpec.State, a: nat, lo: nat, hi: nat)
    requires SInv(s, lo, hi) && a in s.slabs && !IsCurrent(s, a)
    ensures exists i: nat :: Outstanding(s, a, i)
  {
    hide SInv, IsCurrent, Outstanding;
    if Unused(s, a) { UnusedIsCurrent(s, a, lo, hi); }
  }

  /** No block of class c is live. */
  ghost predicate ClassEmpty(s: SlabSpec.State, c: nat) {
    forall b: nat, i: nat :: !Live(s, InSlab(b, c, i))
  }

  /** Once the blocks of one class are freed, that class holds at most its untouched current slab, whatever the other
      classes and the page allocations hold. */
  lemma EmptiedClass(s: SlabSpec.State, c: nat, a: nat, lo: nat, hi: nat)
    requires SInv(s, lo, hi) && c < CLASSES && ClassEmpty(s, c) && a in s.slabs && s.slabs[a].cls == c
    ensures s.current[c] == Some(a) && |s.slabs[a].free| == Blocks(c) - 1
  {
    forall i: nat ensures !Outstanding(s, a, i) {
      assert !Live(s, InSlab(a, c, i));
    }
    UnusedIsCurrent(s, a, lo, hi);
    hide Inv, SlabsOk, Sorted;
  }

  /** With nothing live, every slab is the untouched current slab of its class. */
  lemma OnlyCurrentsLeft(s: SlabSpec.State, a: nat, lo: nat, hi: nat)
    requires SInv(s, lo, hi) && NothingLive(s) && a in s.slabs
    ensures IsCurrent(s, a) && |s.slabs[a].free| == Blocks(s.slabs[a].cls) - 1
  {
    SlabFacts(s, a, lo, hi);
    hide Inv, SlabsOk, Sorted, Live;
    EmptiedClass(s, s.slabs[a].cls, a, lo, hi);
  }

  lemma WholeChain(l: Slab)
    requires ChainOk(l) && forall i: nat | 1 <= i < Blocks(l.cls) :: i in l.free
    ensures |l.free| == Blocks(l.cls) - 1
  {
    ClassSizes(l.cls);
    ChainBound(l);
    var n := Blocks(l.cls) - 1;
    DistinctSize(l.free);
    IntervalSize(1, n);
    assert Interval(1, n) <= Elements(l.free);
    SubsetSize(Interval(1, n), Elements(l.free));
  }

  ghost function Currents(s: SlabSpec.State, n: nat): set<nat>
    requires n <= |s.current|
  {
    set c | 0 <= c < n && s.current[c].Some? :: s.current[c].value
  }

  lemma {:induction false} CurrentsCount(s: SlabSpec.State, n: nat)
    requires n <= |s.current|
    ensures |Currents(s, n)| <= n
    decreases n
  {
    if n > 0 {
      CurrentsCount(s, n - 1);
      var extra := if s.current[n - 1].Some? then {s.current[n - 1].value} else {};
      assert Currents(s, n) == Currents(s, n - 1) + extra;
      assert |Currents(s, n)| <= |Currents(s, n - 1)| + |extra|;
    }
  }

  /** The slabs none of whose blocks is out. */
  ghost function UnusedSlabs(s: SlabSpec.State): set<nat> {
    set a | a in s.slabs && Unused(s, a)
  }

  /** In every state at most one unused slab per class is kept back. */
  lemma UnusedFew(s: SlabSpec.State, lo: nat, hi: nat)
    requires SInv(s, lo, hi)
    ensures |UnusedSlabs(s)| <= CLASSES
  {
    assert |s.current| == CLASSES;
    hide SInv, Unused;
    forall a | a in UnusedSlabs(s) ensures a in Currents(s, CLASSES) {
      UnusedIsCurrent(s, a, lo, hi);
    }
    CurrentsCount(s, CLASSES);
    SubsetSize(UnusedSlabs(s), Currents(s, CLASSES));
  }

  lemma NoDirectPages(s: SlabSpec.State, lo: nat, hi: nat)
    requires SInv(s, lo, hi) && NothingLive(s)
    ensures DirectPages(s) == {}
  {
    forall q | q in s.b.own && s.b.own[q].taken ensures s.b.own[q].start in s.slabs {
      var c := s.b.own[q];
      assert Covers(c, q) && Covers(c, c.start);
      assert !Live(s, Pages(c.start, c.order));
    }
  }

  /** Once everything is freed the free count is at most 6 * 32 pages short of the region. */
  lemma Retention(s: SlabSpec.State, lo: nat, hi: nat)
    requires SInv(s, lo, hi) && lo <= hi && NothingLive(s)
    ensures Total(s.b.lists, 0) + 32 * |s.slabs| == hi - lo && |s.slabs| <= CLASSES
  {
    hide SInv, Live, Outstanding;
    Conservation(s, lo, hi);
    NoDirectPages(s, lo, hi);
    UnusedFew(s, lo, hi);
    forall a | a in s.slabs ensures Unused(s, a) {
      AllUnused(s, a);
    }
    assert UnusedSlabs(s) == s.slabs.Keys;
  }

  lemma AllUnused(s: SlabSpec.State, a: nat)
    requires NothingLive(s) && a in s.slabs
    ensures Unused(s, a)
  {
    forall i: nat ensures !Outstanding(s, a, i) {
      assert !Live(s, InSlab(a, s.slabs[a].cls, i));
    }
  }

  // ---------- when pages are taken ----------

  /** kmalloc of a class that has a current slab takes pages from the buddy system only when that slab gave its last block
      and no partial slab could take its place; the block always comes from the current slab. */
  lemma PagesOnlyForLast(s: SlabSpec.State, size: nat, lo: nat, hi: nat)
    requires SInv(s, lo, hi) && 0 < size <= BlockSize(5) && s.current[ClassFrom(size, 0)].Some?
    ensures var c := ClassFrom(size, 0); var a := s.current[c].value; var r := Kmalloc(s, size, lo, hi);
      && r.Ptr? && a in s.slabs && r.x.InSlab? && r.x.a == a
      && (r.s.b != s.b ==> |s.slabs[a].free| == 1 && s.partial[c] == [])
  {
    AllocCurrent(s, ClassFrom(size, 0), lo, hi);
    hide SInv, Alloc;
  }
}
