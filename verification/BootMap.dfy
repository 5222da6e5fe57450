/** boot/raspi3/init/mmu.c: the direct map the boot code builds before the MMU is switched on. */
module BootMap {
  import opened Dyadic
  import opened Bits
  import opened Kernel
  import opened PageTableSpec

  const PERIPHERAL_BASE: nat := 0x3F00_0000
  const SHARED_PERIPHERAL_END: nat := 0x4000_0000
  const PHYSMEM_END: nat := 0xFFFF_FFFF
  const SIZE_2M: nat := 0x20_0000
  const SIZE_1G: nat := 0x4000_0000

  const UXN: nat := 0x40_0000_0000_0000              // bit 54
  const TABLE_BITS: nat := 0x803                     // NG | IS_TABLE | IS_VALID
  const NORMAL_BITS: nat := 0xF11                    // ACCESSED | NG | INNER_SHARABLE | NORMAL_MEMORY | IS_VALID
  const DEVICE_BITS: nat := 0xF01                    // the same with DEVICE_MEMORY
  const DEVICE_1G_BITS: nat := 0xC01                 // ACCESSED | NG | DEVICE_MEMORY | IS_VALID

  /** A block descriptor: address, attributes and UXN or-ed together. */
  function BlockDesc(addr: nat, bits: nat): nat {
    Or(UXN, Or(addr, bits))
  }

  function TableDesc(page: nat): nat {
    Or(page * PAGE_SIZE, TABLE_BITS)
  }

  lemma UxnIsPow2()
    ensures UXN == Pow2(54) && Pow2(12) == PAGE_SIZE
  {
    Shift16(0);
    Shift16(16);
    Shift16(32);
    Shift4(48);
    assert Pow2(54) == 4 * Pow2(52);
    Shift4(0);
    Shift4(4);
    Shift4(8);
  }

  lemma BlockDescSum(addr: nat, bits: nat)
    requires addr % PAGE_SIZE == 0 && addr / PAGE_SIZE < PFN_FIELD && bits < PAGE_SIZE
    ensures BlockDesc(addr, bits) == bits + (addr / PAGE_SIZE) * PAGE_SIZE + 64 * (PFN_FIELD * PAGE_SIZE)
  {
    hide Or;
    UxnIsPow2();
    OrIsPlus(addr, bits, 12);
    var x := addr + bits;
    DivModUnique(Pow2(54), Pow2(54), 1, 0);
    OrIsPlus(UXN, x, 54);
  }

  lemma BlockBits(e: nat)
    requires e % 4 == 1
    ensures IsValid(e) && !IsTable(e)
  {
  }

  /** The or-ed parts are disjoint, so the walker reads back the address and sees a valid block. */
  lemma BlockDescFields(addr: nat, bits: nat)
    requires addr % PAGE_SIZE == 0 && addr / PAGE_SIZE < PFN_FIELD && bits < PAGE_SIZE && bits % 4 == 1
    ensures var e := BlockDesc(addr, bits); IsValid(e) && !IsTable(e) && Next(e) == addr / PAGE_SIZE
  {
    BlockDescSum(addr, bits);
    hide BlockDesc, IsValid, IsTable, Next;
    Fields(bits, addr / PAGE_SIZE, 64);
    BlockBits(BlockDesc(addr, bits));
  }

  lemma TableDescFields(page: nat)
    requires page < PFN_FIELD
    ensures var e := TableDesc(page); IsValid(e) && IsTable(e) && Next(e) == page
  {
    UxnIsPow2();
    OrIsPlus(page * PAGE_SIZE, TABLE_BITS, 12);
    Fields(TABLE_BITS, page, 0);
    LowBits(TableDesc(page));
  }

  // ---------- what the loops leave behind ----------

  /** Entry i of the level-2 table, once all 512 are written. */
  function L2Entry(i: nat): nat {
    BlockDesc(i * SIZE_2M, if i < 504 then NORMAL_BITS else DEVICE_BITS)
  }

  /** Entry i of the low level-2 table: only the first 2 MB are normal memory. */
  function LowL2Entry(i: nat): nat {
    BlockDesc(i * SIZE_2M, if i < 1 then NORMAL_BITS else DEVICE_BITS)
  }

  function HighL1Entry(i: nat, l2: nat): nat {
    if i == 0 then TableDesc(l2) else if i < 4 then BlockDesc(i * SIZE_1G, DEVICE_1G_BITS) else 0
  }

  ghost predicate ZeroTable(a: seq<nat>) {
    |a| == ENTRIES && forall i | 0 <= i < ENTRIES :: a[i] == 0
  }

  /** init_kernel_pt, the high half: arrays are boot_ttbr1_l0, _l1 and _l2, p1 and p2 the pages of _l1 and _l2. */
  method InitHigh(l0: array<nat>, l1: array<nat>, l2: array<nat>, p1: nat, p2: nat)
    requires l0.Length == l1.Length == l2.Length == ENTRIES && l0 != l1 && l0 != l2 && l1 != l2
    requires ZeroTable(l0[..]) && ZeroTable(l1[..])
    modifies l0, l1, l2
    ensures forall i | 0 <= i < ENTRIES :: l0[i] == if i == 510 then TableDesc(p1) else 0
    ensures forall i | 0 <= i < ENTRIES :: l1[i] == HighL1Entry(i, p2)
    ensures forall i | 0 <= i < ENTRIES :: l2[i] == L2Entry(i)
  {
    hide BlockDesc, TableDesc;
    var vaddr := 0;
    l0[((vaddr + KBASE) / 0x80_0000_0000) % 512] := TableDesc(p1);
    l1[((vaddr + KBASE) / SIZE_1G) % 512] := TableDesc(p2);
    ghost var k := 0;
    while vaddr < PERIPHERAL_BASE
      invariant vaddr == k * SIZE_2M && 0 <= k <= 504
      invariant forall i | 0 <= i < k :: l2[i] == L2Entry(i)
      invariant l0[..] == old(l0[..])[510 := TableDesc(p1)] && l1[..] == old(l1[..])[0 := TableDesc(p2)]
    {
      assert ((vaddr + KBASE) / SIZE_2M) % 512 == k;
      l2[((vaddr + KBASE) / SIZE_2M) % 512] := BlockDesc(vaddr, NORMAL_BITS);
      vaddr := vaddr + SIZE_2M;
      k := k + 1;
    }
    while vaddr < SHARED_PERIPHERAL_END
      invariant vaddr == k * SIZE_2M && 504 <= k <= 512
      invariant forall i | 0 <= i < k :: l2[i] == L2Entry(i)
      invariant l0[..] == old(l0[..])[510 := TableDesc(p1)] && l1[..] == old(l1[..])[0 := TableDesc(p2)]
    {
      assert ((vaddr + KBASE) / SIZE_2M) % 512 == k;
      l2[((vaddr + KBASE) / SIZE_2M) % 512] := BlockDesc(vaddr, DEVICE_BITS);
      vaddr := vaddr + SIZE_2M;
      k := k + 1;
    }
    k := 1;
    while vaddr < PHYSMEM_END
      invariant vaddr == k * SIZE_1G && 1 <= k <= 4
      invariant forall i | 0 <= i < ENTRIES :: l1[i] == if i < k then HighL1Entry(i, p2) else 0
      invariant l0[..] == old(l0[..])[510 := TableDesc(p1)]
      invariant forall i | 0 <= i < ENTRIES :: l2[i] == L2Entry(i)
    {
      assert ((vaddr + KBASE) / SIZE_1G) % 512 == k;
      l1[((vaddr + KBASE) / SIZE_1G) % 512] := BlockDesc(vaddr, DEVICE_1G_BITS);
      vaddr := vaddr + SIZE_1G;
      k := k + 1;
    }
  }

  /** init_kernel_pt, the low half: the identity map used while the program counter is still low. */
  method InitLow(l0: array<nat>, l1: array<nat>, l2: array<nat>, p1: nat, p2: nat)
    requires l0.Length == l1.Length == l2.Length == ENTRIES && l0 != l1 && l0 != l2 && l1 != l2
    requires ZeroTable(l0[..]) && ZeroTable(l1[..])
    modifies l0, l1, l2
    ensures forall i | 0 <= i < ENTRIES :: l0[i] == if i == 0 then TableDesc(p1) else 0
    ensures forall i | 0 <= i < ENTRIES :: l1[i] == if i == 0 then TableDesc(p2) else 0
    ensures forall i | 0 <= i < ENTRIES :: l2[i] == LowL2Entry(i)
  {
    hide BlockDesc, TableDesc;
    var vaddr := 0;
    l0[(vaddr / 0x80_0000_0000) % 512] := TableDesc(p1);
    l1[(vaddr / SIZE_1G) % 512] := TableDesc(p2);
    ghost var k := 0;
    while vaddr < SIZE_2M
      invariant vaddr == k * SIZE_2M && 0 <= k <= 1
      invariant forall i | 0 <= i < k :: l2[i] == LowL2Entry(i)
      invariant l0[..] == old(l0[..])[0 := TableDesc(p1)] && l1[..] == old(l1[..])[0 := TableDesc(p2)]
    {
      l2[(vaddr / SIZE_2M) % 512] := BlockDesc(vaddr, NORMAL_BITS);
      vaddr := vaddr + SIZE_2M;
      k := k + 1;
    }
    while vaddr < SHARED_PERIPHERAL_END
      invariant vaddr == k * SIZE_2M && 1 <= k <= 512
      invariant forall i | 0 <= i < k :: l2[i] == LowL2Entry(i)
      invariant l0[..] == old(l0[..])[0 := TableDesc(p1)] && l1[..] == old(l1[..])[0 := TableDesc(p2)]
    {
      assert (vaddr / SIZE_2M) % 512 == k;
      l2[(vaddr / SIZE_2M) % 512] := BlockDesc(vaddr, DEVICE_BITS);
      vaddr := vaddr + SIZE_2M;
      k := k + 1;
    }
  }

  // ---------- what the walker sees ----------

  /** The boot tables at pages p0, p1, p2. */
  ghost predicate HighTables(mem: Mem, p0: nat, p1: nat, p2: nat) {
    && p0 in mem && p1 in mem && p2 in mem && p0 != p1 && p0 != p2 && p1 != p2 && p1 < PFN_FIELD && p2 < PFN_FIELD
    && |mem[p0]| == |mem[p1]| == |mem[p2]| == ENTRIES
    && (forall i | 0 <= i < ENTRIES :: mem[p0][i] == if i == 510 then TableDesc(p1) else 0)
    && (forall i | 0 <= i < ENTRIES :: mem[p1][i] == HighL1Entry(i, p2))
    && (forall i | 0 <= i < ENTRIES :: mem[p2][i] == L2Entry(i))
  }

  ghost predicate LowTables(mem: Mem, p0: nat, p1: nat, p2: nat) {
    && p0 in mem && p1 in mem && p2 in mem && p1 < PFN_FIELD && p2 < PFN_FIELD
    && |mem[p0]| == |mem[p1]| == |mem[p2]| == ENTRIES
    && (forall i | 0 <= i < ENTRIES :: mem[p0][i] == if i == 0 then TableDesc(p1) else 0)
    && (forall i | 0 <= i < ENTRIES :: mem[p1][i] == if i == 0 then TableDesc(p2) else 0)
    && (forall i | 0 <= i < ENTRIES :: mem[p2][i] == LowL2Entry(i))
  }

  /** Indices of the direct map's virtual page numbers. */
  lemma HighIndices(p: nat)
    requires p < 0x1_0000_0000
    ensures var v := (KBASE + p) / PAGE_SIZE;
      && Index(v, 0) == 510 && Index(v, 1) == p / SIZE_1G && (p < SIZE_1G ==> Index(v, 2) == p / SIZE_2M)
      && (KBASE + p) % SIZE_1G == p % SIZE_1G && (KBASE + p) % SIZE_2M == p % SIZE_2M
  {
    var k, x := KBASE / PAGE_SIZE, p / PAGE_SIZE;
    var v := k + x;
    assert (KBASE + p) / PAGE_SIZE == v;
    DivModUnique(v, 0x800_0000, k / 0x800_0000, x);
    DivModUnique(v, 0x4_0000, k / 0x4_0000 + x / 0x4_0000, x % 0x4_0000);
    DivModUnique(v, 0x200, k / 0x200 + x / 0x200, x % 0x200);
    Offsets(p);
  }

  lemma Offsets(p: nat)
    ensures (KBASE + p) % SIZE_1G == p % SIZE_1G && (KBASE + p) % SIZE_2M == p % SIZE_2M
  {
    DivModUnique(KBASE + p, SIZE_1G, KBASE / SIZE_1G + p / SIZE_1G, p % SIZE_1G);
    DivModUnique(KBASE + p, SIZE_2M, KBASE / SIZE_2M + p / SIZE_2M, p % SIZE_2M);
  }

  lemma BlockEntryStep(mem: Mem, t: nat, i: nat, addr: nat, bits: nat)
    requires t in mem && i < |mem[t]| && mem[t][i] == BlockDesc(addr, bits)
    requires addr % PAGE_SIZE == 0 && addr / PAGE_SIZE < PFN_FIELD && bits < PAGE_SIZE && bits % 4 == 1
    ensures StepAt(mem, t, i) == Block(BlockDesc(addr, bits))
  {
    BlockDescFields(addr, bits);
    hide BlockDesc;
  }

  lemma TableEntryStep(mem: Mem, t: nat, i: nat, page: nat)
    requires t in mem && i < |mem[t]| && mem[t][i] == TableDesc(page) && page < PFN_FIELD
    ensures StepAt(mem, t, i) == Table(page)
  {
    TableDescFields(page);
    hide TableDesc;
  }

  lemma WalkTable(mem: Mem, t: nat, level: nat, v: nat, n: nat)
    requires t in mem && |mem[t]| == ENTRIES && level < 3 && StepAt(mem, t, Index(v, level)) == Table(n)
    ensures Walk(mem, t, level, v) == Walk(mem, n, level + 1, v)
  {
  }

  lemma WalkBlock(mem: Mem, t: nat, level: nat, v: nat, e: nat)
    requires t in mem && |mem[t]| == ENTRIES && 0 < level < 3 && StepAt(mem, t, Index(v, level)) == Block(e)
    ensures Walk(mem, t, level, v) == BlockHit(level, e)
  {
  }

  /** The 2 MB blocks of a level-2 table that sits at index (i0, 0). */
  lemma WalkTwoMegabyte(mem: Mem, p0: nat, p1: nat, p2: nat, v: nat, i0: nat, j: nat, bits: nat)
    requires p0 in mem && p1 in mem && p2 in mem && |mem[p0]| == |mem[p1]| == |mem[p2]| == ENTRIES
    requires Index(v, 0) == i0 && Index(v, 1) == 0 && Index(v, 2) == j && p1 < PFN_FIELD && p2 < PFN_FIELD
    requires mem[p0][i0] == TableDesc(p1) && mem[p1][0] == TableDesc(p2) && mem[p2][j] == BlockDesc(j * SIZE_2M, bits)
    requires bits < PAGE_SIZE && bits % 4 == 1
    ensures Walk(mem, p0, 0, v) == BlockHit(2, BlockDesc(j * SIZE_2M, bits)) && Next(BlockDesc(j * SIZE_2M, bits)) == j * 512
  {
    hide StepAt, Index, BlockDesc, TableDesc, Walk, Next;
    TableEntryStep(mem, p0, i0, p1);
    TableEntryStep(mem, p1, 0, p2);
    assert (j * SIZE_2M) % PAGE_SIZE == 0 && (j * SIZE_2M) / PAGE_SIZE == j * 512;
    BlockEntryStep(mem, p2, j, j * SIZE_2M, bits);
    WalkTable(mem, p0, 0, v, p1);
    WalkTable(mem, p1, 1, v, p2);
    WalkBlock(mem, p2, 2, v, BlockDesc(j * SIZE_2M, bits));
    BlockDescFields(j * SIZE_2M, bits);
  }

  lemma WalkGigabyte(mem: Mem, p0: nat, p1: nat, v: nat, i: nat)
    requires p0 in mem && p1 in mem && |mem[p0]| == |mem[p1]| == ENTRIES
    requires Index(v, 0) == 510 && Index(v, 1) == i && i < 4 && p1 < PFN_FIELD
    requires mem[p0][510] == TableDesc(p1) && mem[p1][i] == BlockDesc(i * SIZE_1G, DEVICE_1G_BITS)
    ensures Walk(mem, p0, 0, v) == BlockHit(1, BlockDesc(i * SIZE_1G, DEVICE_1G_BITS)) && Next(BlockDesc(i * SIZE_1G, DEVICE_1G_BITS)) == i * 0x4_0000
  {
    hide StepAt, Index, BlockDesc, TableDesc, Walk, Next;
    TableEntryStep(mem, p0, 510, p1);
    assert (i * SIZE_1G) % PAGE_SIZE == 0 && (i * SIZE_1G) / PAGE_SIZE == i * 0x4_0000;
    BlockEntryStep(mem, p1, i, i * SIZE_1G, DEVICE_1G_BITS);
    WalkTable(mem, p0, 0, v, p1);
    WalkBlock(mem, p1, 1, v, BlockDesc(i * SIZE_1G, DEVICE_1G_BITS));
    BlockDescFields(i * SIZE_1G, DEVICE_1G_BITS);
  }

  /** Walking the high tables at phys_to_virt(p) yields p, through 2 MB and 1 GB blocks alike, for every p below 4 GB. */
  lemma HighDirectMap(mem: Mem, p0: nat, p1: nat, p2: nat, p: nat)
    requires HighTables(mem, p0, p1, p2) && p < 0x1_0000_0000
    ensures Query(mem, p0, KBASE + p) == Some(p)
  {
    hide Index, BlockDesc, TableDesc, Walk;
    HighIndices(p);
    var v := (KBASE + p) / PAGE_SIZE;
    var i := p / SIZE_1G;
    if i == 0 {
      var j := p / SIZE_2M;
      WalkTwoMegabyte(mem, p0, p1, p2, v, 510, j, if j < 504 then NORMAL_BITS else DEVICE_BITS);
    } else {
      WalkGigabyte(mem, p0, p1, v, i);
    }
  }

  lemma LowIndices(p: nat)
    requires p < SIZE_1G
    ensures Index(p / PAGE_SIZE, 0) == 0 && Index(p / PAGE_SIZE, 1) == 0 && Index(p / PAGE_SIZE, 2) == p / SIZE_2M < 512
  {
  }

  /** The low tables map every p below 1 GB to itself. */
  lemma LowIdentityMap(mem: Mem, p0: nat, p1: nat, p2: nat, p: nat)
    requires LowTables(mem, p0, p1, p2) && p < SIZE_1G
    ensures Query(mem, p0, p) == Some(p)
  {
    hide Index, BlockDesc, TableDesc, Walk;
    var v := p / PAGE_SIZE;
    var j := p / SIZE_2M;
    LowIndices(p);
    WalkTwoMegabyte(mem, p0, p1, p2, v, 0, j, if j < 1 then NORMAL_BITS else DEVICE_BITS);
  }

  /** The high tables map nothing else: page v is mapped only when it is one of the 2^20 pages from phys_to_virt(0). */
  lemma HighOnly(mem: Mem, p0: nat, p1: nat, p2: nat, v: nat)
    requires HighTables(mem, p0, p1, p2) && (v - KPAGES) % PFN_FIELD >= 0x10_0000
    ensures Walk(mem, p0, 0, v) == NotMapped
  {
    hide BlockDesc, TableDesc, L2Entry;
    PrefixValue(v);
    assert Prefix(v, 1) == Index(v, 0) && Prefix(v, 2) == Prefix(v, 1) * 512 + Index(v, 1);
    if Index(v, 0) == 510 && Index(v, 1) < 4 {
      InDirectMap(v, Index(v, 1) * 0x4_0000 + Index(v, 2) * 512 + Index(v, 3));
    }
    hide Index, Prefix, Walk, IsTable, Next;
    ZeroInvalid();
    if Index(v, 0) == 510 {
      TableEntryStep(mem, p0, 510, p1);
      WalkTable(mem, p0, 0, v, p1);
      WalkEmpty(mem, p1, 1, v);
    } else {
      WalkEmpty(mem, p0, 0, v);
    }
  }

  lemma InDirectMap(v: nat, r: nat)
    requires v % PFN_FIELD == 510 * 0x800_0000 + r && r < 0x10_0000
    ensures (v - KPAGES) % PFN_FIELD == r
  {
    DivModUnique(v - KPAGES, PFN_FIELD, v / PFN_FIELD - KPAGES / PFN_FIELD, r);
  }

  lemma WalkEmpty(mem: Mem, t: nat, level: nat, v: nat)
    requires t in mem && |mem[t]| == ENTRIES && level < 3 && !IsValid(mem[t][Index(v, level)])
    ensures Walk(mem, t, level, v) == NotMapped
  {
    hide Index;
  }

  /** The low tables map nothing but the first gigabyte. */
  lemma LowOnly(mem: Mem, p0: nat, p1: nat, p2: nat, v: nat)
    requires LowTables(mem, p0, p1, p2) && v % PFN_FIELD >= 0x4_0000
    ensures Walk(mem, p0, 0, v) == NotMapped
  {
    hide BlockDesc, TableDesc, LowL2Entry;
    PrefixValue(v);
    assert Prefix(v, 1) == Index(v, 0) && Prefix(v, 2) == Prefix(v, 1) * 512 + Index(v, 1);
    assert Index(v, 0) != 0 || Index(v, 1) != 0;
    hide Index, Prefix, Walk, IsTable, Next;
    ZeroInvalid();
    if Index(v, 0) == 0 {
      TableEntryStep(mem, p0, 0, p1);
      WalkTable(mem, p0, 0, v, p1);
      WalkEmpty(mem, p1, 1, v);
    } else {
      WalkEmpty(mem, p0, 0, v);
    }
  }

  // ---------- memory types ----------

  /** The attribute bits of a boot block: valid and not a table, memory type at bits 2 to 4, EL1 read-write, shareability
      at 8 and 9, access flag, not-global, EL0 execute-never at 54, and nothing else. */
  ghost predicate BlockAttributes(e: nat, normal: bool, shared: bool) {
    && Bit(e, 0) && !Bit(e, 1) && !Bit(e, 2) && !Bit(e, 3) && (Bit(e, 4) <==> normal) && !Bit(e, 5) && !Bit(e, 6) && !Bit(e, 7)
    && (Bit(e, 8) <==> shared) && (Bit(e, 9) <==> shared) && Bit(e, 10) && Bit(e, 11)
    && (forall k: nat | k >= 48 :: Bit(e, k) <==> k == 54)
  }

  lemma BlockDescBits(addr: nat, bits: nat, normal: bool, shared: bool)
    requires addr % PAGE_SIZE == 0 && addr / PAGE_SIZE < PFN_FIELD
    requires bits == Twelve(1, 0, 0, 0, One(normal), 0, 0, 0, One(shared), One(shared), 1, 1)
    ensures BlockAttributes(BlockDesc(addr, bits), normal, shared)
  {
    hide Bit, Twelve, BlockDesc;
    TwelveBits(1, 0, 0, 0, One(normal), 0, 0, 0, One(shared), One(shared), 1, 1);
    BlockDescSum(addr, bits);
    var e := BlockDesc(addr, bits);
    FieldBits(bits, addr / PAGE_SIZE, 64);
    forall k: nat | k >= 48 ensures Bit(e, k) <==> k == 54 {
      ExecuteNeverBits(0, 1, k - 48);
      assert Bit(e, 48 + (k - 48)) == Bit(64, k - 48);
    }
  }

  /** The walk of phys_to_virt(p) ends at a block of normal shared memory below the peripherals, of shared device memory up
      to 1 GB, and of device memory above. */
  ghost predicate HighTyped(mem: Mem, root: nat, p: nat) {
    var h := Walk(mem, root, 0, (KBASE + p) / PAGE_SIZE);
    h.BlockHit? && BlockAttributes(h.e, p < 0x3F00_0000, p < 0x4000_0000)
  }

  lemma HighMemoryTypes(mem: Mem, p0: nat, p1: nat, p2: nat, p: nat)
    requires HighTables(mem, p0, p1, p2) && p < 0x1_0000_0000
    ensures HighTyped(mem, p0, p)
  {
    hide Index, BlockDesc, TableDesc, Walk, BlockAttributes;
    HighIndices(p);
    var v := (KBASE + p) / PAGE_SIZE;
    var i := p / SIZE_1G;
    if i == 0 {
      var j := p / SIZE_2M;
      WalkTwoMegabyte(mem, p0, p1, p2, v, 510, j, if j < 504 then NORMAL_BITS else DEVICE_BITS);
      assert (j * SIZE_2M) % PAGE_SIZE == 0 && (j * SIZE_2M) / PAGE_SIZE == j * 512;
      BlockDescBits(j * SIZE_2M, if j < 504 then NORMAL_BITS else DEVICE_BITS, j < 504, true);
    } else {
      WalkGigabyte(mem, p0, p1, v, i);
      assert (i * SIZE_1G) % PAGE_SIZE == 0 && (i * SIZE_1G) / PAGE_SIZE == i * 0x4_0000;
      BlockDescBits(i * SIZE_1G, DEVICE_1G_BITS, false, false);
    }
  }

  /** In the low tables the first 2 MB are normal memory and the rest of the first gigabyte is device memory. */
  ghost predicate LowTyped(mem: Mem, root: nat, p: nat) {
    var h := Walk(mem, root, 0, p / PAGE_SIZE);
    h.BlockHit? && BlockAttributes(h.e, p < 0x20_0000, true)
  }

  lemma LowMemoryTypes(mem: Mem, p0: nat, p1: nat, p2: nat, p: nat)
    requires LowTables(mem, p0, p1, p2) && p < SIZE_1G
    ensures LowTyped(mem, p0, p)
  {
    hide Index, BlockDesc, TableDesc, Walk, BlockAttributes;
    var v := p / PAGE_SIZE;
    var j := p / SIZE_2M;
    LowIndices(p);
    WalkTwoMegabyte(mem, p0, p1, p2, v, 0, j, if j < 1 then NORMAL_BITS else DEVICE_BITS);
    assert (j * SIZE_2M) % PAGE_SIZE == 0 && (j * SIZE_2M) / PAGE_SIZE == j * 512;
    BlockDescBits(j * SIZE_2M, if j < 1 then NORMAL_BITS else DEVICE_BITS, j < 1, true);
  }

  /** The boot table descriptors: valid, table and not-global. */
  lemma TableDescBits(page: nat)
    requires page < PFN_FIELD
    ensures forall k: nat | k < 12 || k >= 48 :: Bit(TableDesc(page), k) <==> k in {0, 1, 11}
  {
    hide Bit, Or;
    UxnIsPow2();
    OrIsPlus(page * PAGE_SIZE, TABLE_BITS, 12);
    FieldBits(TABLE_BITS, page, 0);
    TwelveBits(1, 1, 0, 0, 0, 0, 0, 0, 0, 0, 0, 1);
    var e := TableDesc(page);
    forall k: nat | k >= 48 ensures !Bit(e, k) {
      ExecuteNeverBits(0, 0, k - 48);
      assert Bit(e, 48 + (k - 48)) == Bit(0, k - 48);
    }
  }

  /** What each boot table serves. */
  function HighLoc(p0: nat, p1: nat, p2: nat): map<nat, Loc> {
    map[p0 := Loc(0, 0), p1 := Loc(1, 510), p2 := Loc(2, 510 * 512)]
  }

  /** The boot tables are a tree, so the mapping loop can work on them. */
  lemma HighTree(mem: Mem, p0: nat, p1: nat, p2: nat)
    requires HighTables(mem, p0, p1, p2) && mem.Keys == {p0, p1, p2}
    ensures Tree(mem, p0, HighLoc(p0, p1, p2))
  {
    var loc := HighLoc(p0, p1, p2);
    hide BlockDesc, TableDesc, IsTable, Next, IsValid;
    assert !IsValid(0) by { ZeroInvalid(); }
    forall t, i | t in mem && 0 <= i < ENTRIES ensures EntryOk(mem, loc, t, i) {
      if t == p0 {
        TableDescFields(p1);
      } else if t == p1 {
        TableDescFields(p2);
        if 0 < i < 4 {
          assert (i * SIZE_1G) % PAGE_SIZE == 0 && (i * SIZE_1G) / PAGE_SIZE == i * 0x4_0000;
          BlockDescFields(i * SIZE_1G, DEVICE_1G_BITS);
        }
      } else {
        assert (i * SIZE_2M) % PAGE_SIZE == 0 && (i * SIZE_2M) / PAGE_SIZE == i * 512;
        BlockDescFields(i * SIZE_2M, if i < 504 then NORMAL_BITS else DEVICE_BITS);
      }
    }
  }

  lemma ZeroInvalid()
    ensures !IsValid(0)
  {
  }
}
