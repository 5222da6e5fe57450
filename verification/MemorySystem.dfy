/**
  kmalloc, kfree and map_range over one buddy system: the page tables are blocks of the same allocator, and no run
  of the three ever lets a client's block overlap a table.
 */
module MemorySystem {
  import opened BuddySpec
  import opened BuddyLaws
  import opened Kernel
  import opened SlabSpec
  import opened KmallocSpec
  import KmallocRuns
  import opened PageTableSpec
  import opened PageTableLaws
  import opened PageTableRange

  /** A page of the region that holds a table, as the one-page block get_pages(0) handed out. */
  predicate TableBlock(mem: Mem, b: BuddySpec.State, x: Block) {
    x.Pages? && x.k == 0 && x.a in b.own && x.a >= KPAGES && x.a - KPAGES in mem
  }

  /** The live blocks are those of `mine` and the tables, and the two do not mix. */
  ghost predicate Split(s: SlabSpec.State, mem: Mem, mine: set<Block>) {
    && (forall x :: Live(s, x) <==> x in mine || TableBlock(mem, s.b, x))
    && (forall x | x in mine :: !TableBlock(mem, s.b, x))
  }

  // ---------- what mapping does to the blocks ----------

  lemma NewTableSplit(s: SlabSpec.State, t: SlabSpec.State, mem: Mem, mem': Mem, mine: set<Block>, a: nat)
    requires Split(s, mem, mine) && Adds(s, t, Pages(a, 0)) && a >= KPAGES && a in t.b.own
    requires s.b.own.Keys == t.b.own.Keys && mem'.Keys == mem.Keys + {a - KPAGES}
    ensures Split(t, mem', mine)
  {
    hide Live;
    assert forall x :: TableBlock(mem', t.b, x) <==> TableBlock(mem, s.b, x) || x == Pages(a, 0);
    assert forall x | x in mine :: Live(s, x);
  }

  lemma SameTablesSplit(s: SlabSpec.State, mem: Mem, mem': Mem, mine: set<Block>)
    requires Split(s, mem, mine) && mem'.Keys == mem.Keys
    ensures Split(s, mem', mine)
  {
    hide Live;
    assert forall x :: TableBlock(mem', s.b, x) <==> TableBlock(mem, s.b, x);
  }

  /** The state of the slab layer together with the tables. */
  ghost predicate Sound(s: SlabSpec.State, mem: Mem, mine: set<Block>, lo: nat, hi: nat) {
    SInv(s, lo, hi) && Split(s, mem, mine)
  }

  lemma SoundShape(s: SlabSpec.State, mem: Mem, mine: set<Block>, lo: nat, hi: nat)
    requires Sound(s, mem, mine, lo, hi)
    ensures |s.b.lists| == ORDERS && SInv(s, lo, hi)
  {
  }

  /** get_next_ptp with alloc. */
  lemma DescendSound(s: SlabSpec.State, mem: Mem, mine: set<Block>, lo: nat, hi: nat, t: nat, i: nat)
    requires Sound(s, mem, mine, lo, hi) && |s.b.lists| == ORDERS && t in mem && i < |mem[t]|
    ensures Descend(PT(s.b, mem), t, i).Down? ==>
      var d := Descend(PT(s.b, mem), t, i); Sound(s.(b := d.s.b), d.s.mem, mine, lo, hi)
  {
    hide SInv, Take, StepAt, Handed, TableEntry, SetEntry, Zeroes, Split, Adds;
    var d := Descend(PT(s.b, mem), t, i);
    if StepAt(mem, t, i).Missing? && d.Down? {
      var r := Take(s.b, 0);
      KmallocRuns.PagesGetKeeps(s, 0, lo, hi);
      TakenHere(s, lo, hi);
      assert d.s.mem.Keys == mem.Keys + {r.a - KPAGES};
      NewTableSplit(s, s.(b := r.s), mem, d.s.mem, mine, r.a);
    } else if d.Down? {
      assert s.(b := s.b) == s;
    }
  }

  lemma TakenHere(s: SlabSpec.State, lo: nat, hi: nat)
    requires SInv(s, lo, hi) && Take(s.b, 0).Got?
    ensures var r := Take(s.b, 0); r.a in r.s.own && r.s.own.Keys == s.b.own.Keys
  {
    hide Inv, SlabsOk, Sorted, Take;
    TakeKeeps(s.b, 0, lo, hi);
  }

  lemma DescendRows(s: Space, t: nat, i: nat)
    requires |s.b.lists| == ORDERS && Descend(s, t, i).Down?
    ensures t in s.mem && i < |s.mem[t]|
  {
    hide Take, StepAt;
  }

  /** Mapping one page. */
  lemma MapOneSound(s: SlabSpec.State, mem: Mem, mine: set<Block>, lo: nat, hi: nat, root: nat, v: nat, pfn: nat, f: Attr)
    requires Sound(s, mem, mine, lo, hi) && |s.b.lists| == ORDERS
    ensures MapOne(PT(s.b, mem), root, v, pfn, f).Mapped? ==>
      var t := MapOne(PT(s.b, mem), root, v, pfn, f).s; Sound(s.(b := t.b), t.mem, mine, lo, hi)
  {
    hide Sound, Descend, Index, Leaf, SetEntry;
    var s0 := PT(s.b, mem);
    var d1 := Descend(s0, root, Index(v, 0));
    if MapOne(s0, root, v, pfn, f).Mapped? {
      DescendRows(s0, root, Index(v, 0));
      DescendSound(s, mem, mine, lo, hi, root, Index(v, 0));
      var x1 := s.(b := d1.s.b);
      SoundShape(x1, d1.s.mem, mine, lo, hi);
      assert d1.s == PT(x1.b, d1.s.mem);
      var d2 := Descend(d1.s, d1.t, Index(v, 1));
      DescendRows(d1.s, d1.t, Index(v, 1));
      DescendSound(x1, d1.s.mem, mine, lo, hi, d1.t, Index(v, 1));
      var x2 := x1.(b := d2.s.b);
      SoundShape(x2, d2.s.mem, mine, lo, hi);
      assert d2.s == PT(x2.b, d2.s.mem);
      var d3 := Descend(d2.s, d2.t, Index(v, 2));
      DescendRows(d2.s, d2.t, Index(v, 2));
      DescendSound(x2, d2.s.mem, mine, lo, hi, d2.t, Index(v, 2));
      var x3 := x2.(b := d3.s.b);
      assert x3 == s.(b := d3.s.b);
      LeafSound(x3, d3.s.mem, mine, lo, hi, d3.t, v, Leaf(pfn, f));
    }
  }

  lemma LeafSound(s: SlabSpec.State, mem: Mem, mine: set<Block>, lo: nat, hi: nat, t: nat, v: nat, e: nat)
    requires Sound(s, mem, mine, lo, hi) && t in mem && |mem[t]| == ENTRIES
    ensures Sound(s, SetLeaf(mem, t, v, e), mine, lo, hi)
  {
    hide SInv, Split, Index, SetEntry;
    assert SetLeaf(mem, t, v, e).Keys == mem.Keys;
    SameTablesSplit(s, mem, SetLeaf(mem, t, v, e), mine);
  }

  /** Mapping a range: the slab layer is as before, and the new tables are the only new blocks. */
  lemma {:induction false} MapPagesSound(s: SlabSpec.State, mem: Mem, mine: set<Block>, lo: nat, hi: nat, root: nat, v: nat, pfn: nat, n: nat, f: Attr)
    requires Sound(s, mem, mine, lo, hi) && |s.b.lists| == ORDERS
    ensures MapPages(PT(s.b, mem), root, v, pfn, n, f).Mapped? ==>
      var t := MapPages(PT(s.b, mem), root, v, pfn, n, f).s; Sound(s.(b := t.b), t.mem, mine, lo, hi)
    decreases n
  {
    hide *;
    MapUnfold(PT(s.b, mem), root, v, pfn, n, f);
    if n == 0 {
      assert s.(b := s.b) == s;
    } else if MapOne(PT(s.b, mem), root, v, pfn, f).Mapped? {
      MapOneSound(s, mem, mine, lo, hi, root, v, pfn, f);
      var m := MapOne(PT(s.b, mem), root, v, pfn, f).s;
      var s1 := s.(b := m.b);
      SoundShape(s1, m.mem, mine, lo, hi);
      assert m == PT(s1.b, m.mem);
      MapPagesSound(s1, m.mem, mine, lo, hi, root, v + 1, pfn + 1, n - 1, f);
      if MapPages(m, root, v + 1, pfn + 1, n - 1, f).Mapped? {
        var t := MapPages(m, root, v + 1, pfn + 1, n - 1, f).s;
        assert s1.(b := t.b) == s.(b := t.b);
      }
    }
  }

  // ---------- what kmalloc and kfree do to the tables ----------

  lemma MallocSplit(s: SlabSpec.State, t: SlabSpec.State, mem: Mem, mine: set<Block>, x: Block)
    requires Split(s, mem, mine) && Adds(s, t, x) && s.b.own.Keys == t.b.own.Keys
    ensures Split(t, mem, mine + {x})
  {
    hide Live;
    assert forall y :: TableBlock(mem, t.b, y) <==> TableBlock(mem, s.b, y);
  }

  lemma FreeSplit(s: SlabSpec.State, t: SlabSpec.State, mem: Mem, mine: set<Block>, x: Block)
    requires Split(s, mem, mine) && Adds(t, s, x) && x in mine && s.b.own.Keys == t.b.own.Keys
    ensures Split(t, mem, mine - {x})
  {
    hide Live;
    assert forall y :: TableBlock(mem, t.b, y) <==> TableBlock(mem, s.b, y);
  }

  lemma SameRegion(s: SlabSpec.State, t: SlabSpec.State, lo: nat, hi: nat)
    requires SInv(s, lo, hi) && SInv(t, lo, hi)
    ensures s.b.own.Keys == t.b.own.Keys
  {
    hide SlabsOk, Sorted, ListsAgree, NoPair;
    assert forall q :: q in s.b.own <==> q in t.b.own;
  }

  /** While every table of the region is a live block, the tables stay taken. */
  lemma TablesStayBacked(s: SlabSpec.State, mem: Mem, mine: set<Block>, lo: nat, hi: nat)
    requires Sound(s, mem, mine, lo, hi)
    ensures Backed(mem, s.b)
  {
    hide SInv;
    forall t | t in mem && t + KPAGES in s.b.own ensures s.b.own[t + KPAGES].taken {
      assert TableBlock(mem, s.b, Pages(t + KPAGES, 0));
      assert Live(s, Pages(t + KPAGES, 0));
    }
  }

  // ---------- runs ----------

  /** The allocator, the tables, and the blocks clients hold with the size they asked for. */
  datatype Sys = Sys(s: SlabSpec.State, mem: Mem, ledger: map<Block, nat>)

  datatype Op = Malloc(size: nat) | FreeOp(x: Block) | Map(v: nat, pfn: nat, n: nat, f: Attr)

  ghost predicate Ok(y: Sys, root: nat, loc: map<nat, Loc>, lo: nat, hi: nat) {
    && Sound(y.s, y.mem, y.ledger.Keys, lo, hi) && PInv(PT(y.s.b, y.mem), root, loc, lo, hi)
    && (forall x | x in y.ledger :: y.ledger[x] <= Size(x))
  }

  /** Clients free only what they hold; attributes keep to their bits, and a mapping is no longer than the address space. */
  predicate Legal(y: Sys, op: Op) {
    match op
    case Malloc(_) => true
    case FreeOp(x) => x in y.ledger
    case Map(v, pfn, n, f) => AttrOk(f) && n <= PFN_FIELD
  }

  /** A mapping that cannot be completed stops the kernel: it has no next state. */
  ghost predicate StepTo(y: Sys, op: Op, z: Sys, root: nat, lo: nat, hi: nat)
    requires SInv(y.s, lo, hi)
  {
    match op
    case Malloc(size) => (
      match KmallocRuns.Kmalloc(y.s, size, lo, hi)
      case ZeroPtr => z == y
      case Null => z == y
      case Ptr(t, x) => z == Sys(t, y.mem, y.ledger[x := size]))
    case FreeOp(x) => z == Sys(KmallocRuns.Kfree(y.s, Addr(x)), y.mem, y.ledger - {x})
    case Map(v, pfn, n, f) =>
      var r := MapPages(PT(y.s.b, y.mem), root, v, pfn, n, f);
      r.Mapped? && z == Sys(y.s.(b := r.s.b), r.s.mem, y.ledger)
  }

  lemma OkShape(y: Sys, root: nat, loc: map<nat, Loc>, lo: nat, hi: nat)
    requires Ok(y, root, loc, lo, hi)
    ensures Sound(y.s, y.mem, y.ledger.Keys, lo, hi) && SInv(y.s, lo, hi) && |y.s.b.lists| == ORDERS
    ensures Split(y.s, y.mem, y.ledger.Keys) && PInv(PT(y.s.b, y.mem), root, loc, lo, hi)
    ensures forall x | x in y.ledger :: y.ledger[x] <= Size(x) && Live(y.s, x)
  {
    hide SInv, PInv, Size, Live;
    SoundShape(y.s, y.mem, y.ledger.Keys, lo, hi);
  }

  /** The address-space invariant depends on the buddy system only through its own invariant and the tables being taken. */
  lemma SpaceKept(b: BuddySpec.State, b': BuddySpec.State, mem: Mem, root: nat, loc: map<nat, Loc>, lo: nat, hi: nat)
    requires PInv(PT(b, mem), root, loc, lo, hi) && |b'.lists| == ORDERS && Inv(b', lo, hi) && Backed(mem, b')
    ensures PInv(PT(b', mem), root, loc, lo, hi)
  {
    hide Inv, Tree, Backed;
  }

  lemma BuddyInv(s: SlabSpec.State, lo: nat, hi: nat)
    requires SInv(s, lo, hi)
    ensures Inv(s.b, lo, hi) && |s.b.lists| == ORDERS
  {
  }

  lemma MallocOk(y: Sys, size: nat, z: Sys, root: nat, loc: map<nat, Loc>, lo: nat, hi: nat)
    requires Ok(y, root, loc, lo, hi) && SInv(y.s, lo, hi) && StepTo(y, Malloc(size), z, root, lo, hi)
    ensures Ok(z, root, loc, lo, hi)
  {
    hide SInv, PInv, Size, Live, KmallocRuns.Kmalloc, Split, Adds;
    OkShape(y, root, loc, lo, hi);
    KmallocRuns.KmallocOk(y.s, size, lo, hi);
    var r := KmallocRuns.Kmalloc(y.s, size, lo, hi);
    if r.Ptr? {
      SameRegion(y.s, r.s, lo, hi);
      MallocSplit(y.s, r.s, y.mem, y.ledger.Keys, r.x);
      assert y.ledger[r.x := size].Keys == y.ledger.Keys + {r.x};
      BuddyInv(r.s, lo, hi);
      TablesStayBacked(r.s, y.mem, z.ledger.Keys, lo, hi);
      SpaceKept(y.s.b, r.s.b, y.mem, root, loc, lo, hi);
    }
  }

  lemma FreeOk(y: Sys, x: Block, z: Sys, root: nat, loc: map<nat, Loc>, lo: nat, hi: nat)
    requires Ok(y, root, loc, lo, hi) && SInv(y.s, lo, hi) && x in y.ledger && StepTo(y, FreeOp(x), z, root, lo, hi)
    requires PAGE_SIZE * hi <= KmallocRuns.ZERO_PTR + 1
    ensures Ok(z, root, loc, lo, hi)
  {
    hide SInv, PInv, Size, Live, KmallocRuns.Kfree, Split, Adds, Addr;
    OkShape(y, root, loc, lo, hi);
    KmallocRuns.LiveNotZero(y.s, x, lo, hi);
    KmallocRuns.KfreeOk(y.s, x, lo, hi);
    SameRegion(y.s, z.s, lo, hi);
    FreeSplit(y.s, z.s, y.mem, y.ledger.Keys, x);
    assert (y.ledger - {x}).Keys == y.ledger.Keys - {x};
    BuddyInv(z.s, lo, hi);
    TablesStayBacked(z.s, y.mem, z.ledger.Keys, lo, hi);
    SpaceKept(y.s.b, z.s.b, y.mem, root, loc, lo, hi);
  }

  lemma MapOk(y: Sys, v: nat, pfn: nat, n: nat, f: Attr, z: Sys, root: nat, loc: map<nat, Loc>, lo: nat, hi: nat)
    returns (loc': map<nat, Loc>)
    requires Ok(y, root, loc, lo, hi) && SInv(y.s, lo, hi) && AttrOk(f) && n <= PFN_FIELD
    requires StepTo(y, Map(v, pfn, n, f), z, root, lo, hi)
    ensures Ok(z, root, loc', lo, hi)
  {
    hide SInv, PInv, Size, Live, MapPages, AttrOk, Sound;
    OkShape(y, root, loc, lo, hi);
    MapPagesSound(y.s, y.mem, y.ledger.Keys, lo, hi, root, v, pfn, n, f);
    loc' := MapPagesOk(PT(y.s.b, y.mem), root, loc, lo, hi, v, pfn, n, f);
    var t := MapPages(PT(y.s.b, y.mem), root, v, pfn, n, f).s;
    assert t == PT(z.s.b, z.mem);
  }

  lemma StepOk(y: Sys, op: Op, z: Sys, root: nat, loc: map<nat, Loc>, lo: nat, hi: nat) returns (loc': map<nat, Loc>)
    requires Ok(y, root, loc, lo, hi) && SInv(y.s, lo, hi) && Legal(y, op) && StepTo(y, op, z, root, lo, hi)
    requires PAGE_SIZE * hi <= KmallocRuns.ZERO_PTR + 1
    ensures Ok(z, root, loc', lo, hi)
  {
    hide Ok, StepTo, SInv, AttrOk;
    loc' := loc;
    match op
    case Malloc(size) => MallocOk(y, size, z, root, loc, lo, hi);
    case FreeOp(x) => FreeOk(y, x, z, root, loc, lo, hi);
    case Map(v, pfn, n, f) => loc' := MapOk(y, v, pfn, n, f, z, root, loc, lo, hi);
  }

  /** The states of a run. */
  ghost predicate Run(states: seq<Sys>, ops: seq<Op>, root: nat, lo: nat, hi: nat) {
    && |states| == |ops| + 1
    && forall k | 0 <= k < |ops| ::
         SInv(states[k].s, lo, hi) && Legal(states[k], ops[k]) && StepTo(states[k], ops[k], states[k + 1], root, lo, hi)
  }

  lemma {:induction false} RunOk(states: seq<Sys>, ops: seq<Op>, root: nat, loc: map<nat, Loc>, lo: nat, hi: nat, k: nat)
    returns (loc': map<nat, Loc>)
    requires Run(states, ops, root, lo, hi) && Ok(states[0], root, loc, lo, hi) && k < |states|
    requires PAGE_SIZE * hi <= KmallocRuns.ZERO_PTR + 1
    ensures Ok(states[k], root, loc', lo, hi)
    decreases k
  {
    hide Ok, StepTo, SInv, Legal;
    loc' := loc;
    if k > 0 {
      loc' := RunOk(states, ops, root, loc, lo, hi, k - 1);
      loc' := StepOk(states[k - 1], ops[k - 1], states[k], root, loc', lo, hi);
    }
  }

  /** In every state that any interleaving of kmalloc, kfree and map_range reaches: blocks held by clients are
      disjoint, large enough and well placed; none overlaps a page table of the region; and the tables are a
      well-formed tree whose pages the allocator counts as taken. */
  lemma SystemSafe(states: seq<Sys>, ops: seq<Op>, root: nat, loc: map<nat, Loc>, lo: nat, hi: nat, k: nat)
    returns (loc': map<nat, Loc>)
    requires Run(states, ops, root, lo, hi) && Ok(states[0], root, loc, lo, hi) && k < |states|
    requires PAGE_SIZE * hi <= KmallocRuns.ZERO_PTR + 1
    ensures var y := states[k];
      && (forall x, x' | x in y.ledger && x' in y.ledger && x != x' :: Apart(x, x'))
      && (forall x | x in y.ledger :: y.ledger[x] <= Size(x) && KmallocRuns.WellPlaced(y.s, x, lo, hi))
      && (forall x, t | x in y.ledger && t in y.mem && t + KPAGES in y.s.b.own :: Apart(x, Pages(t + KPAGES, 0)))
      && Tree(y.mem, root, loc') && Backed(y.mem, y.s.b)
  {
    hide Ok, Run, SInv, Live, Size, Apart, KmallocRuns.WellPlaced, PInv, Tree, Backed, Sound;
    loc' := RunOk(states, ops, root, loc, lo, hi, k);
    var y := states[k];
    OkShape(y, root, loc', lo, hi);
    SpaceParts(PT(y.s.b, y.mem), root, loc', lo, hi);
    forall x, x' | x in y.ledger && x' in y.ledger && x != x' ensures Apart(x, x') {
      LiveDisjoint(y.s, x, x', lo, hi);
    }
    forall x | x in y.ledger ensures KmallocRuns.WellPlaced(y.s, x, lo, hi) {
      KmallocRuns.LiveWellPlaced(y.s, x, lo, hi);
    }
    forall x, t | x in y.ledger && t in y.mem && t + KPAGES in y.s.b.own ensures Apart(x, Pages(t + KPAGES, 0)) {
      var p := Pages(t + KPAGES, 0);
      assert TableBlock(y.mem, y.s.b, p);
      assert Live(y.s, p) && x != p;
      LiveDisjoint(y.s, x, p, lo, hi);
    }
  }
}
