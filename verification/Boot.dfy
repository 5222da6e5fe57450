/** From power-on to main: the boot tables, the buddy system behind the image, and the kernel stack on top of both. */
module Boot {
  import opened Dyadic
  import Bits
  import opened BuddySpec
  import opened BuddyRuns
  import opened Kernel
  import opened PageTableSpec
  import opened PageTableRange
  import opened BootMap
  import BootSizing
  import SlabSpec
  import KmallocSpec
  import KmallocRuns
  import MemorySystem
  import opened PageTable

  const KSTACK_BASE: nat := 0xFFFF_FFFF_0000_0000
  const CPU_STACK_SIZE: nat := 4096
  const PLAT_CPU_NUM: nat := 4
  const DIRECT_SIZE: nat := 0x1_0000_0000  // 4 GB

  /** KSTACKx_ADDR */
  function StackAddr(cpu: nat): nat {
    cpu * 2 * CPU_STACK_SIZE + KSTACK_BASE
  }

  /** phys_to_virt(p) is p to the walker. */
  ghost predicate DirectAt(mem: Mem, root: nat, p: nat) {
    Query(mem, root, KBASE + p) == Some(p)
  }

  /** The whole direct map of the first 4 GB. */
  ghost predicate DirectMap(mem: Mem, root: nat) {
    forall p: nat | p < DIRECT_SIZE :: DirectAt(mem, root, p)
  }

  lemma BootHighTypes(mem: Mem, p0: nat, p1: nat, p2: nat)
    requires HighTables(mem, p0, p1, p2)
    ensures forall p: nat | p < DIRECT_SIZE :: HighTyped(mem, p0, p)
  {
    hide HighTables, HighTyped;
    forall p: nat | p < DIRECT_SIZE ensures HighTyped(mem, p0, p) {
      HighMemoryTypes(mem, p0, p1, p2, p);
    }
  }

  lemma BootLowTypes(mem: Mem, p0: nat, p1: nat, p2: nat)
    requires LowTables(mem, p0, p1, p2)
    ensures forall p: nat | p < SIZE_1G :: LowTyped(mem, p0, p)
  {
    hide LowTables, LowTyped;
    forall p: nat | p < SIZE_1G ensures LowTyped(mem, p0, p) {
      LowMemoryTypes(mem, p0, p1, p2, p);
    }
  }

  lemma BootDirectMap(mem: Mem, p0: nat, p1: nat, p2: nat)
    requires HighTables(mem, p0, p1, p2)
    ensures DirectMap(mem, p0)
  {
    hide HighTables, Query;
    forall p: nat | p < DIRECT_SIZE ensures DirectAt(mem, p0, p) {
      HighDirectMap(mem, p0, p1, p2, p);
    }
  }

  /** Address p is p to the walker. */
  ghost predicate IdentityAt(mem: Mem, root: nat, p: nat) {
    Query(mem, root, p) == Some(p)
  }

  lemma BootIdentityMap(mem: Mem, p0: nat, p1: nat, p2: nat)
    requires LowTables(mem, p0, p1, p2)
    ensures forall p: nat | p < SIZE_1G :: IdentityAt(mem, p0, p)
  {
    hide LowTables, Query;
    forall p: nat | p < SIZE_1G ensures IdentityAt(mem, p0, p) {
      LowIdentityMap(mem, p0, p1, p2, p);
    }
  }

  // ---------- the boot state is one the mapping loop can work on ----------

  /** The boot tables together with a buddy system whose region lies above them. */
  lemma BootSpace(b: BuddySpec.State, mem: Mem, p0: nat, p1: nat, p2: nat, lo: nat, hi: nat)
    requires |b.lists| == ORDERS && Inv(b, lo, hi) && KPAGES <= lo && hi <= KPAGES + PFN_FIELD
    requires HighTables(mem, p0, p1, p2) && mem.Keys == {p0, p1, p2}
    requires p0 + KPAGES < lo && p1 + KPAGES < lo && p2 + KPAGES < lo
    ensures PInv(PT(b, mem), p0, HighLoc(p0, p1, p2), lo, hi)
  {
    hide HighTables, Tree, HighLoc, ListsAgree, NoPair;
    HighTree(mem, p0, p1, p2);
    assert Backed(mem, b);
  }

  /** Pages of the kernel image lie below the region init_buddy sets up, and that region is inside the 48-bit space. */
  lemma ImageBelowRegion(imgEnd: nat, p: nat)
    requires BootSizing.Bootable(imgEnd) && p * PAGE_SIZE < imgEnd
    ensures p + KPAGES < BootSizing.FirstPage(imgEnd)
    ensures KPAGES <= BootSizing.FirstPage(imgEnd)
    ensures BootSizing.FirstPage(imgEnd) + BootSizing.PageNum(imgEnd) <= KPAGES + PFN_FIELD
  {
    hide BootSizing.FirstPage, BootSizing.PageNum, BootSizing.RegionStart, BootSizing.ArrayStart, BootSizing.ArrayEnd;
    BootSizing.Layout(imgEnd);
    PageBelow(p, imgEnd, BootSizing.FirstPage(imgEnd));
  }

  lemma PageBelow(p: nat, imgEnd: nat, first: nat)
    requires p * PAGE_SIZE < imgEnd && KBASE + imgEnd <= first * PAGE_SIZE
    ensures p + KPAGES < first
  {
  }

  lemma BootPagesFit(imgEnd: nat, p0: nat, p1: nat, p2: nat)
    requires BootSizing.Bootable(imgEnd)
    requires p0 * PAGE_SIZE < imgEnd && p1 * PAGE_SIZE < imgEnd && p2 * PAGE_SIZE < imgEnd
    ensures var lo := BootSizing.FirstPage(imgEnd); var hi := lo + BootSizing.PageNum(imgEnd);
      && p0 + KPAGES < lo && p1 + KPAGES < lo && p2 + KPAGES < lo && KPAGES <= lo && hi <= KPAGES + PFN_FIELD
    ensures p0 < PFN_FIELD && p1 < PFN_FIELD && p2 < PFN_FIELD
  {
    ImageBelowRegion(imgEnd, p0);
    ImageBelowRegion(imgEnd, p1);
    ImageBelowRegion(imgEnd, p2);
  }

  lemma BuddyParts(buddy: B.Allocator)
    requires buddy.Valid(-1)
    ensures |buddy.st.lists| == ORDERS && Inv(buddy.st, buddy.Base(), buddy.End())
  {
  }

  lemma NoTablesInRegion(s: SlabSpec.State, mem: Mem, lo: nat, hi: nat)
    requires Inv(s.b, lo, hi) && forall t | t in mem :: t + KPAGES < lo
    ensures forall x :: !MemorySystem.TableBlock(mem, s.b, x)
  {
    hide ListsAgree, NoPair;
  }

  /** mm_init: with nothing handed out yet, allocator and boot tables are a sound start for any run of kmalloc, kfree
      and map_range. */
  lemma SystemFromBoot(s: SlabSpec.State, mem: Mem, p0: nat, p1: nat, p2: nat, imgEnd: nat)
    requires BootSizing.Bootable(imgEnd)
    requires var lo := BootSizing.FirstPage(imgEnd);
      KmallocRuns.Honest(KmallocRuns.World(s, map[]), lo, lo + BootSizing.PageNum(imgEnd))
    requires HighTables(mem, p0, p1, p2) && mem.Keys == {p0, p1, p2}
    requires p0 * PAGE_SIZE < imgEnd && p1 * PAGE_SIZE < imgEnd && p2 * PAGE_SIZE < imgEnd
    ensures var lo := BootSizing.FirstPage(imgEnd);
      MemorySystem.Ok(MemorySystem.Sys(s, mem, map[]), p0, HighLoc(p0, p1, p2), lo, lo + BootSizing.PageNum(imgEnd))
  {
    var lo := BootSizing.FirstPage(imgEnd);
    var hi := lo + BootSizing.PageNum(imgEnd);
    hide BootSizing.FirstPage, BootSizing.PageNum, HighTables, PInv, Inv, SlabSpec.SInv, KmallocSpec.Live, HighLoc, MemorySystem.TableBlock;
    MemorySystem.BuddyInv(s, lo, hi);
    BootPagesFit(imgEnd, p0, p1, p2);
    BootSpace(s.b, mem, p0, p1, p2, lo, hi);
    NoTablesInRegion(s, mem, lo, hi);
  }

  /** From mm_init on: in every state that any interleaving of kmalloc, kfree and map_range reaches, held blocks are
      disjoint, well placed, and clear of the kernel image, of the page array and of every page table. */
  lemma BootedSystemSafe(imgEnd: nat, states: seq<MemorySystem.Sys>, ops: seq<MemorySystem.Op>, p0: nat, p1: nat, p2: nat, k: nat)
    returns (loc: map<nat, Loc>)
    requires BootSizing.Bootable(imgEnd)
    requires var lo := BootSizing.FirstPage(imgEnd); var hi := lo + BootSizing.PageNum(imgEnd);
      && MemorySystem.Run(states, ops, p0, lo, hi) && k < |states|
      && states[0].ledger == map[] && KmallocRuns.Honest(KmallocRuns.World(states[0].s, map[]), lo, hi)
    requires HighTables(states[0].mem, p0, p1, p2) && states[0].mem.Keys == {p0, p1, p2}
    requires p0 * PAGE_SIZE < imgEnd && p1 * PAGE_SIZE < imgEnd && p2 * PAGE_SIZE < imgEnd
    ensures var y := states[k]; var lo := BootSizing.FirstPage(imgEnd); var hi := lo + BootSizing.PageNum(imgEnd);
      && (forall x, x' | x in y.ledger && x' in y.ledger && x != x' :: KmallocSpec.Apart(x, x'))
      && (forall x | x in y.ledger :: y.ledger[x] <= KmallocSpec.Size(x) && KmallocRuns.WellPlaced(y.s, x, lo, hi))
      && (forall x, t | x in y.ledger && t in y.mem && t + KPAGES in y.s.b.own :: KmallocSpec.Apart(x, KmallocSpec.Pages(t + KPAGES, 0)))
      && Tree(y.mem, p0, loc) && Backed(y.mem, y.s.b)
    ensures forall x | x in states[k].ledger ::
      && KBASE + imgEnd <= BootSizing.ArrayStart(imgEnd) <= BootSizing.ArrayEnd(imgEnd) <= KmallocSpec.Addr(x)
      && KmallocSpec.Addr(x) + KmallocSpec.Size(x) <= KBASE + BootSizing.PHYS_MEM_END
  {
    hide HighTables, MemorySystem.Run, MemorySystem.Ok, KmallocRuns.Honest, KmallocSpec.Apart, KmallocSpec.Size, KmallocSpec.Addr, Tree, Backed, HighLoc,
      BootSizing.FirstPage, BootSizing.PageNum, BootSizing.ArrayStart, BootSizing.ArrayEnd;
    BootSizing.Layout(imgEnd);
    var lo := BootSizing.FirstPage(imgEnd);
    var hi := lo + BootSizing.PageNum(imgEnd);
    var y := states[0];
    assert y == MemorySystem.Sys(y.s, y.mem, map[]);
    SystemFromBoot(y.s, y.mem, p0, p1, p2, imgEnd);
    loc := MemorySystem.SystemSafe(states, ops, p0, HighLoc(p0, p1, p2), lo, hi, k);
  }

  // ---------- the kernel stack ----------

  /** The stack's addresses are not in the direct map. */
  lemma StackAside(cpu: nat, p: nat)
    requires cpu < PLAT_CPU_NUM && p < DIRECT_SIZE
    ensures !Hits(KBASE + p, StackAddr(cpu), CPU_STACK_SIZE)
  {
    var d := StackAddr(cpu) - (KBASE + p);
    assert CPU_STACK_SIZE <= d < ADDRESSES - CPU_STACK_SIZE;
    DivModUnique(-d, ADDRESSES, -1, ADDRESSES - d);
  }

  lemma StackIsOnePage(cpu: nat)
    ensures PageCount(CPU_STACK_SIZE) == 1 && StackAddr(cpu) % PAGE_SIZE == 0
    ensures StackAddr(cpu) / PAGE_SIZE == KSTACK_BASE / PAGE_SIZE + cpu * 2
  {
    DivModUnique(StackAddr(cpu), PAGE_SIZE, KSTACK_BASE / PAGE_SIZE + cpu * 2, 0);
  }

  /** Mapping a stack, in whatever state the tables are, keeps the direct map. */
  lemma StackKeepsDirectMap(mem: Mem, mem': Mem, root: nat, cpu: nat, pa: nat)
    requires DirectMap(mem, root) && cpu < PLAT_CPU_NUM
    requires RangeMapped(mem, mem', root, StackAddr(cpu), pa, CPU_STACK_SIZE)
    ensures DirectMap(mem', root)
  {
    hide Query, Hits, StackAddr, PageCount;
    StackIsOnePage(cpu);
    forall p: nat | p < DIRECT_SIZE ensures DirectAt(mem', root, p) {
      assert DirectAt(mem, root, p);
      StackAside(cpu, p);
    }
  }

  /** The stack lies in the last entry of the level-0 table, which boot leaves empty. */
  lemma StackIndex(cpu: nat)
    requires cpu < PLAT_CPU_NUM
    ensures Index(StackAddr(cpu) / PAGE_SIZE, 0) == 511
  {
    StackIsOnePage(cpu);
    var v := KSTACK_BASE / PAGE_SIZE + cpu * 2;
    assert v / 0x800_0000 == 0xF_FFFF_FFF0_0000 / 0x800_0000;
  }

  lemma StackUnmapped(mem: Mem, p0: nat, p1: nat, p2: nat, cpu: nat)
    requires HighTables(mem, p0, p1, p2) && cpu < PLAT_CPU_NUM
    ensures Walk(mem, p0, 0, StackAddr(cpu) / PAGE_SIZE) == NotMapped && Need(mem, p0, 0, StackAddr(cpu) / PAGE_SIZE) == 3
  {
    hide Index, TableDesc, HighL1Entry, L2Entry, StackAddr;
    StackIndex(cpu);
    assert mem[p0][511] == 0;
    ZeroInvalid();
  }

  lemma BlockedOne(mem: Mem, root: nat, v: nat)
    requires !Walk(mem, root, 0, v).BlockHit?
    ensures !SomeBlocked(mem, root, v, 1)
  {
    hide Walk;
    assert Blocked(mem, root, v, 0) <==> Walk(mem, root, 0, v).BlockHit?;
  }

  /** In the boot tables every stack needs three new tables. */
  lemma StackNeeds(mem: Mem, p0: nat, p1: nat, p2: nat, cpu: nat)
    requires HighTables(mem, p0, p1, p2) && mem.Keys == {p0, p1, p2} && cpu < PLAT_CPU_NUM
    ensures var v := StackAddr(cpu) / PAGE_SIZE; TablesNeeded(mem, p0, v, 1) == 3 && !SomeBlocked(mem, p0, v, 1)
  {
    hide HighTables, Need, TablesNeeded, SomeBlocked, Walk, StackAddr, Tree, HighLoc;
    var v := StackAddr(cpu) / PAGE_SIZE;
    HighTree(mem, p0, p1, p2);
    StackUnmapped(mem, p0, p1, p2, cpu);
    MissingTablesOne(mem, p0, HighLoc(p0, p1, p2), v);
    BlockedOne(mem, p0, v);
  }

  /** Boot, then the kernel stack: from the boot tables and any state of the buddy system above them, mapping a stack
      succeeds exactly when three pages are free; then the walker finds the stack's bytes in its frame and phys_to_virt(p)
      at p for every p below 4 GB, and every other address as the boot tables left it. */
  lemma StackOverBoot(b: BuddySpec.State, mem: Mem, p0: nat, p1: nat, p2: nat, lo: nat, hi: nat, cpu: nat, pa: nat, f: Attr)
    requires |b.lists| == ORDERS && Inv(b, lo, hi) && KPAGES <= lo && hi <= KPAGES + PFN_FIELD
    requires HighTables(mem, p0, p1, p2) && mem.Keys == {p0, p1, p2}
    requires p0 + KPAGES < lo && p1 + KPAGES < lo && p2 + KPAGES < lo
    requires cpu < PLAT_CPU_NUM && AttrOk(f)
    ensures
      var r := MapPages(PT(b, mem), p0, StackAddr(cpu) / PAGE_SIZE, pa / PAGE_SIZE, 1, f);
      && (r.Mapped? <==> Total(b.lists, 0) >= 3)
      && (r.Mapped? ==>
            && DirectMap(r.s.mem, p0) && Total(r.s.b.lists, 0) == Total(b.lists, 0) - 3
            && (forall j: nat | j < CPU_STACK_SIZE :: FrameByte(r.s.mem, p0, StackAddr(cpu), pa, j))
            && (forall x: nat | !Hits(x, StackAddr(cpu), CPU_STACK_SIZE) :: Query(r.s.mem, p0, x) == Query(mem, p0, x)))
  {
    hide Inv, HighTables, MapPages, FrameByte, Hits, Query, DirectMap, TablesNeeded, SomeBlocked, StackAddr, PageCount, FrameStart, PInv, AttrOk;
    BootSpace(b, mem, p0, p1, p2, lo, hi);
    StackIsOnePage(cpu);
    StackNeeds(mem, p0, p1, p2, cpu);
    BootDirectMap(mem, p0, p1, p2);
    MapRangeExact(PT(b, mem), p0, HighLoc(p0, p1, p2), lo, hi, StackAddr(cpu), pa, CPU_STACK_SIZE, f);
    var r := MapPages(PT(b, mem), p0, StackAddr(cpu) / PAGE_SIZE, pa / PAGE_SIZE, 1, f);
    if r.Mapped? {
      StackKeepsDirectMap(mem, r.s.mem, p0, cpu, pa);
    }
  }

  /** The page behind a stack, up to the next stack, is the guard page: level-0 entry 511 as well. */
  lemma GuardPage(cpu: nat, j: nat)
    requires cpu < PLAT_CPU_NUM && j < PAGE_SIZE
    ensures var x := StackAddr(cpu) + CPU_STACK_SIZE + j;
      && Index(x / PAGE_SIZE, 0) == 511 && !Hits(x, StackAddr(cpu), CPU_STACK_SIZE)
      && x < StackAddr(cpu + 1)
  {
    var x := StackAddr(cpu) + CPU_STACK_SIZE + j;
    var v := KSTACK_BASE / PAGE_SIZE + cpu * 2 + 1;
    DivModUnique(x, PAGE_SIZE, v, j);
    assert v / 0x800_0000 == 0xF_FFFF_FFF0_0000 / 0x800_0000;
    DivModUnique(x - StackAddr(cpu), ADDRESSES, 0, CPU_STACK_SIZE + j);
  }

  /** Running past the end of a stack faults: with the stack of a core mapped over the boot tables, the page behind it stays unmapped. */
  lemma StackGuarded(b: BuddySpec.State, mem: Mem, p0: nat, p1: nat, p2: nat, lo: nat, hi: nat, cpu: nat, pa: nat, f: Attr, j: nat)
    requires |b.lists| == ORDERS && Inv(b, lo, hi) && KPAGES <= lo && hi <= KPAGES + PFN_FIELD
    requires HighTables(mem, p0, p1, p2) && mem.Keys == {p0, p1, p2}
    requires p0 + KPAGES < lo && p1 + KPAGES < lo && p2 + KPAGES < lo
    requires cpu < PLAT_CPU_NUM && AttrOk(f) && Total(b.lists, 0) >= 3 && j < PAGE_SIZE
    ensures var r := MapPages(PT(b, mem), p0, StackAddr(cpu) / PAGE_SIZE, pa / PAGE_SIZE, 1, f);
      r.Mapped? && Query(r.s.mem, p0, StackAddr(cpu) + CPU_STACK_SIZE + j) == None
  {
    hide Inv, HighTables, MapPages, Hits, DirectMap, StackAddr, PInv, AttrOk, FrameByte, Walk, Index;
    StackOverBoot(b, mem, p0, p1, p2, lo, hi, cpu, pa, f);
    GuardPage(cpu, j);
    LastEntryEmpty(mem, p0, p1, p2, (StackAddr(cpu) + CPU_STACK_SIZE + j) / PAGE_SIZE);
  }

  lemma LastEntryEmpty(mem: Mem, p0: nat, p1: nat, p2: nat, v: nat)
    requires HighTables(mem, p0, p1, p2) && Index(v, 0) == 511
    ensures Walk(mem, p0, 0, v) == NotMapped
  {
    hide Index, TableDesc, HighL1Entry, L2Entry;
    assert mem[p0][511] == 0;
    ZeroInvalid();
  }

  /** A stack array that is 16-byte aligned but not page-aligned: at 0x90010 the stack's first address is translated to
      0x90000, the frame below the array's first 16 bytes. */
  lemma StackShiftExample(b: BuddySpec.State, mem: Mem, p0: nat, p1: nat, p2: nat, lo: nat, hi: nat, cpu: nat, f: Attr)
    requires |b.lists| == ORDERS && Inv(b, lo, hi) && KPAGES <= lo && hi <= KPAGES + PFN_FIELD && Total(b.lists, 0) >= 3
    requires HighTables(mem, p0, p1, p2) && mem.Keys == {p0, p1, p2}
    requires p0 + KPAGES < lo && p1 + KPAGES < lo && p2 + KPAGES < lo
    requires cpu < PLAT_CPU_NUM && AttrOk(f)
    ensures var r := MapPages(PT(b, mem), p0, StackAddr(cpu) / PAGE_SIZE, 0x90010 / PAGE_SIZE, 1, f);
      && r.Mapped? && Query(r.s.mem, p0, StackAddr(cpu)) == Some(0x90000)
      && !Translated(r.s.mem, p0, StackAddr(cpu), 0x90010, 0)
  {
    hide Inv, HighTables, MapPages, Hits, Query, DirectMap, StackAddr, PInv, AttrOk;
    StackOverBoot(b, mem, p0, p1, p2, lo, hi, cpu, 0x90010, f);
    assert FrameByte(MapPages(PT(b, mem), p0, StackAddr(cpu) / PAGE_SIZE, 0x90010 / PAGE_SIZE, 1, f).s.mem, p0, StackAddr(cpu), 0x90010, 0);
  }

  // ---------- the boot sequence ----------

  /** init_kernel_pt for the high half, read back as tables. */
  method BootTables(l0: array<nat>, l1: array<nat>, l2: array<nat>, p0: nat, p1: nat, p2: nat) returns (mem: Mem)
    requires l0.Length == l1.Length == l2.Length == ENTRIES && l0 != l1 && l0 != l2 && l1 != l2
    requires ZeroTable(l0[..]) && ZeroTable(l1[..])
    requires p0 != p1 && p0 != p2 && p1 != p2 && p1 < PFN_FIELD && p2 < PFN_FIELD
    modifies l0, l1, l2
    ensures HighTables(mem, p0, p1, p2) && mem.Keys == {p0, p1, p2}
    ensures forall p: nat | p < DIRECT_SIZE :: HighTyped(mem, p0, p)
  {
    hide TableDesc, HighL1Entry, L2Entry, ZeroTable, HighTyped;
    InitHigh(l0, l1, l2, p1, p2);
    mem := map[p0 := l0[..], p1 := l1[..], p2 := l2[..]];
    BootHighTypes(mem, p0, p1, p2);
  }

  /** init_kernel_pt for the low half, read back as tables: they map the first gigabyte to itself. */
  method BootLowTables(l0: array<nat>, l1: array<nat>, l2: array<nat>, p0: nat, p1: nat, p2: nat) returns (mem: Mem)
    requires l0.Length == l1.Length == l2.Length == ENTRIES && l0 != l1 && l0 != l2 && l1 != l2
    requires ZeroTable(l0[..]) && ZeroTable(l1[..])
    requires p0 != p1 && p0 != p2 && p1 != p2 && p1 < PFN_FIELD && p2 < PFN_FIELD
    modifies l0, l1, l2
    ensures LowTables(mem, p0, p1, p2) && mem.Keys == {p0, p1, p2}
    ensures forall p: nat | p < SIZE_1G :: IdentityAt(mem, p0, p) && LowTyped(mem, p0, p)
  {
    hide TableDesc, LowL2Entry, ZeroTable, Query, LowTyped;
    InitLow(l0, l1, l2, p1, p2);
    mem := map[p0 := l0[..], p1 := l1[..], p2 := l2[..]];
    BootIdentityMap(mem, p0, p1, p2);
    BootLowTypes(mem, p0, p1, p2);
  }

  /** init_kernel_pt for the high half, then init_buddy: the kernel's address space, ready for mapping. The boot arrays
      are zero-filled pages of the kernel image. */
  method BootKernel(imgEnd: nat, l0: array<nat>, l1: array<nat>, l2: array<nat>, p0: nat, p1: nat, p2: nat)
    returns (space: AddressSpace)
    requires BootSizing.Bootable(imgEnd)
    requires l0.Length == l1.Length == l2.Length == ENTRIES && l0 != l1 && l0 != l2 && l1 != l2
    requires ZeroTable(l0[..]) && ZeroTable(l1[..])
    requires p0 != p1 && p0 != p2 && p1 != p2
    requires p0 * PAGE_SIZE < imgEnd && p1 * PAGE_SIZE < imgEnd && p2 * PAGE_SIZE < imgEnd
    modifies l0, l1, l2
    ensures fresh(space) && fresh(space.buddy) && fresh(space.buddy.heap) && fresh(space.buddy.pages)
    ensures space.Valid() && space.root == p0 && DirectMap(space.mem, p0) && HighTables(space.mem, p0, p1, p2)
    ensures space.mem.Keys == {p0, p1, p2} && Total(space.buddy.st.lists, 0) == BootSizing.PageNum(imgEnd)
  {
    hide HighTables, BootSizing.FirstPage, BootSizing.PageNum, B.Allocator.Valid, DirectMap, ZeroTable, Total, PInv, Inv, HighLoc;
    BootPagesFit(imgEnd, p0, p1, p2);
    var mem := BootTables(l0, l1, l2, p0, p1, p2);
    var buddy := new B.Allocator(imgEnd);
    BuddyParts(buddy);
    BootSpace(buddy.st, mem, p0, p1, p2, buddy.Base(), buddy.End());
    BootDirectMap(mem, p0, p1, p2);
    space := new AddressSpace(buddy, p0, mem, HighLoc(p0, p1, p2));
  }

  /** VMR_READ | VMR_WRITE for the kernel: writable, and never executable. */
  lemma StackProtection(mem: Mem, mem': Mem, root: nat, v: nat)
    requires RangeProtected(mem, mem', root, v, 1, 3, true)
    ensures var h := Walk(mem', root, 0, v);
      h.Page? && Bits.Bit(h.e, 6) && !Bits.Bit(h.e, 7) && Bits.Bit(h.e, 53) && Bits.Bit(h.e, 54)
  {
    hide Walk, Bits.Bit;
    assert Protected(mem', root, v, 0, 3, true);
    assert Bits.Bit(3, 0) && Bits.Bit(3, 1) && !Bits.Bit(3, 2) by {
      Bits.TwelveBits(1, 1, 0, 0, 0, 0, 0, 0, 0, 0, 0, 0);
    }
  }

  /** The mapping of a stack in main: it succeeds exactly when the pages for its missing tables are free. */
  method MapKernelStack(space: AddressSpace, cpu: nat, pa: nat) returns (ok: bool)
    requires space.Valid() && DirectMap(space.mem, space.root) && cpu < PLAT_CPU_NUM
    modifies space`mem, space`loc, space.buddy, space.buddy.heap, space.buddy.pages
    ensures ok <==> Mappable(old(space.Sp()), space.root, StackAddr(cpu) / PAGE_SIZE, 1)
    ensures ok ==> space.Valid() && DirectMap(space.mem, space.root)
    ensures ok ==> RangeMapped(old(space.mem), space.mem, space.root, StackAddr(cpu), pa, CPU_STACK_SIZE)
    ensures ok ==> var h := Walk(space.mem, space.root, 0, StackAddr(cpu) / PAGE_SIZE);
      h.Page? && Bits.Bit(h.e, 6) && !Bits.Bit(h.e, 7) && Bits.Bit(h.e, 53) && Bits.Bit(h.e, 54)
  {
    hide AddressSpace.Valid, DirectMap, RangeMapped, RangeProtected, Mappable, FrameStart, PageCount, StackAddr;
    StackIsOnePage(cpu);
    ok := space.MapRangeKernel(StackAddr(cpu), pa, CPU_STACK_SIZE, 3);  // VMR_READ | VMR_WRITE
    if ok {
      StackKeepsDirectMap(old(space.mem), space.mem, space.root, cpu, pa);
      StackProtection(old(space.mem), space.mem, space.root, StackAddr(cpu) / PAGE_SIZE);
    }
  }
}
