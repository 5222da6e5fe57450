/** arch/aarch64/mm/page_table.c: the walker, the table allocator and the mapping loop. */
module PageTable {
  import opened Dyadic
  import Bits
  import opened BuddySpec
  import opened BuddyLaws
  import opened BuddyRuns
  import B = Buddy
  import opened Kernel
  import opened PageTableSpec
  import opened PageTableLaws
  import opened PageTableRange
  import opened ListHeap

  const ENOMEM: int := 12
  const NORMAL_PTP: int := 0
  const BLOCK_PTP: int := 1

  // ---------- attributes ----------

  /** set_pte_flags: AP, AF, nG, SH and the memory type below the page number, PXN and UXN above it. */
  function PteAttr(flags: nat, kernel: bool): Attr {
    var read, write, exec, device, nocache := Bits.Bit(flags, 0), Bits.Bit(flags, 1), Bits.Bit(flags, 2), Bits.Bit(flags, 3), Bits.Bit(flags, 4);
    var ap := if read && !write then 3 else if write then 1 else 0;
    var sh := if device then 0 else 3;
    var attr := if device then 0 else if nocache then 3 else 4;
    var pxn := if kernel && exec then 0 else 1;
    var uxn := if !kernel && exec then 0 else 1;
    Attr(attr * 4 + ap * 64 + sh * 256 + 1024 + 2048, pxn * 32 + uxn * 64)
  }

  lemma PteAttrOk(flags: nat, kernel: bool)
    ensures AttrOk(PteAttr(flags, kernel))
  {
  }

  /** The bits of a page descriptor that stand for the requested protection (VMSAv8-64 stage 1 attributes), and no others:
      access at bits 6 and 7, execute-never at 53 (EL1) and 54 (EL0), memory type at 2 to 4, shareability at 8 and 9,
      access flag at 10, not-global at 11. */
  ghost predicate PageBits(e: nat, flags: nat, kernel: bool) {
    var read, write, exec, device, nocache := Bits.Bit(flags, 0), Bits.Bit(flags, 1), Bits.Bit(flags, 2), Bits.Bit(flags, 3), Bits.Bit(flags, 4);
    && Bits.Bit(e, 0) && Bits.Bit(e, 1) && !Bits.Bit(e, 5) && Bits.Bit(e, 10) && Bits.Bit(e, 11)
    && (Bits.Bit(e, 6) <==> read || write) && (Bits.Bit(e, 7) <==> read && !write)
    && (Bits.Bit(e, 53) <==> !kernel || !exec) && (Bits.Bit(e, 54) <==> kernel || !exec)
    && (Bits.Bit(e, 8) <==> !device) && (Bits.Bit(e, 9) <==> !device)
    && (Bits.Bit(e, 2) <==> nocache && !device) && (Bits.Bit(e, 3) <==> nocache && !device)
    && (Bits.Bit(e, 4) <==> !nocache && !device)
    && (forall k: nat | k >= 48 && Bits.Bit(e, k) :: k == 53 || k == 54)
  }

  /** The attributes digit by digit. */
  lemma AttrDigits(flags: nat, kernel: bool)
    ensures var read, write, exec, device, nocache := Bits.Bit(flags, 0), Bits.Bit(flags, 1), Bits.Bit(flags, 2), Bits.Bit(flags, 3), Bits.Bit(flags, 4);
      var c, w, s := Bits.One(nocache && !device), Bits.One(!nocache && !device), Bits.One(!device);
      && 3 + PteAttr(flags, kernel).low == Bits.Twelve(1, 1, c, c, w, 0, Bits.One(read || write), Bits.One(read && !write), s, s, 1, 1)
      && PteAttr(flags, kernel).high == 32 * Bits.One(!kernel || !exec) + 64 * Bits.One(kernel || !exec)
  {
    hide Bits.Bit;
  }

  lemma LeafBits(pfn: nat, flags: nat, kernel: bool)
    ensures PageBits(Leaf(pfn, PteAttr(flags, kernel)), flags, kernel)
  {
    hide Bits.Bit, PteAttr, Bits.Twelve;
    AttrDigits(flags, kernel);
    var read, write, exec, device, nocache := Bits.Bit(flags, 0), Bits.Bit(flags, 1), Bits.Bit(flags, 2), Bits.Bit(flags, 3), Bits.Bit(flags, 4);
    var c, w, s, pxn, uxn := Bits.One(nocache && !device), Bits.One(!nocache && !device), Bits.One(!device), Bits.One(!kernel || !exec), Bits.One(kernel || !exec);
    Bits.TwelveBits(1, 1, c, c, w, 0, Bits.One(read || write), Bits.One(read && !write), s, s, 1, 1);
    FieldBits(3 + PteAttr(flags, kernel).low, pfn % PFN_FIELD, 32 * pxn + 64 * uxn);
    var e := Leaf(pfn, PteAttr(flags, kernel));
    Bits.ExecuteNeverBits(pxn, uxn, 5);
    Bits.ExecuteNeverBits(pxn, uxn, 6);
    assert Bits.Bit(e, 48 + 5) <==> pxn == 1;
    assert Bits.Bit(e, 48 + 6) <==> uxn == 1;
    forall k: nat | k >= 48 && Bits.Bit(e, k) ensures k == 53 || k == 54 {
      Bits.ExecuteNeverBits(pxn, uxn, k - 48);
      assert Bits.Bit(e, 48 + (k - 48));
    }
  }

  /** The walk of page v + k ends at a page descriptor with the requested protection. */
  ghost predicate Protected(mem: Mem, root: nat, v: nat, k: nat, flags: nat, kernel: bool) {
    var h := Walk(mem, root, 0, v + k);
    h.Page? && PageBits(h.e, flags, kernel)
  }

  /** From mem to mem' the n pages from v got the requested protection, and every other page kept its descriptor. */
  ghost predicate RangeProtected(mem: Mem, mem': Mem, root: nat, v: nat, n: nat, flags: nat, kernel: bool) {
    && (forall k: nat | k < n :: Protected(mem', root, v, k, flags, kernel))
    && (forall w: nat | !InRange(w, v, n) :: Walk(mem', root, 0, w) == Walk(mem, root, 0, w))
  }

  lemma MappedIsProtected(s: Space, t: Space, root: nat, v: nat, pfn: nat, n: nat, flags: nat, kernel: bool)
    requires MappedRange(s, t, root, v, pfn, n, PteAttr(flags, kernel))
    ensures RangeProtected(s.mem, t.mem, root, v, n, flags, kernel)
  {
    hide Walk, InRange, PteAttr, PageBits, Leaf, Accounted;
    forall k: nat | k < n ensures Protected(t.mem, root, v, k, flags, kernel) {
      assert MapsTo(t.mem, root, v, pfn, PteAttr(flags, kernel), k);
      LeafBits(pfn + k, flags, kernel);
    }
  }

  lemma Protects(s: Space, root: nat, v: nat, pfn: nat, n: nat, flags: nat, kernel: bool)
    requires |s.b.lists| == ORDERS
    ensures var r := MapPages(s, root, v, pfn, n, PteAttr(flags, kernel));
      r.Mapped? && MappedRange(s, r.s, root, v, pfn, n, PteAttr(flags, kernel)) ==> RangeProtected(s.mem, r.s.mem, root, v, n, flags, kernel)
  {
    hide MapPages, MappedRange, RangeProtected, PteAttr;
    var r := MapPages(s, root, v, pfn, n, PteAttr(flags, kernel));
    if r.Mapped? && MappedRange(s, r.s, root, v, pfn, n, PteAttr(flags, kernel)) {
      MappedIsProtected(s, r.s, root, v, pfn, n, flags, kernel);
    }
  }

  // ---------- following a path that exists ----------

  /** With the tables in place, mapping a page is writing its leaf. */
  lemma PathMapOne(s: Space, root: nat, v: nat, pfn: nat, f: Attr, t1: nat, t2: nat, t3: nat)
    requires |s.b.lists| == ORDERS && PathTo(s.mem, root, v, t1, t2, t3)
    ensures MapOne(s, root, v, pfn, f) == Mapped(PT(s.b, SetLeaf(s.mem, t3, v, Leaf(pfn, f))))
  {
    hide IsValid, IsTable, Next, Index, SetLeaf, Leaf;
    assert Descend(s, root, Index(v, 0)) == Down(s, t1);
    assert Descend(s, t1, Index(v, 1)) == Down(s, t2);
    assert Descend(s, t2, Index(v, 2)) == Down(s, t3);
  }

  /** The next page of the same level-3 table has the same path. */
  lemma NextPage(v: nat)
    requires Index(v, 3) < 511
    ensures Index(v + 1, 0) == Index(v, 0) && Index(v + 1, 1) == Index(v, 1) && Index(v + 1, 2) == Index(v, 2)
    ensures Index(v + 1, 3) == Index(v, 3) + 1 && Prefix(v + 1, 3) == Prefix(v, 3)
  {
    assert (v + 1) / 512 == v / 512;
    assert (v + 1) / 0x4_0000 == ((v + 1) / 512) / 512 && v / 0x4_0000 == (v / 512) / 512;
    assert (v + 1) / 0x800_0000 == ((v + 1) / 0x4_0000) / 512 && v / 0x800_0000 == (v / 0x4_0000) / 512;
    assert Prefix(v + 1, 1) == Prefix(v, 1);
    assert Prefix(v + 1, 2) == Prefix(v, 2);
  }

  /** The path of page v exists, and its level-3 table is t3. */
  ghost predicate Ready(s: Space, root: nat, loc: map<nat, Loc>, v: nat, t1: nat, t2: nat, t3: nat) {
    && PathTo(s.mem, root, v, t1, t2, t3) && t1 in loc && t2 in loc && t3 in loc
    && loc[t1].level == 1 && loc[t2].level == 2 && loc[t3] == Loc(3, Prefix(v, 3))
  }

  lemma MapNone(s: Space, root: nat, v: nat, pfn: nat, f: Attr)
    requires |s.b.lists| == ORDERS
    ensures MapPages(s, root, v, pfn, 0, f) == Mapped(s)
  {
  }

  /** Once the path is there, the rest of the mapping starts from the new tables. */
  lemma WalkAllocDone(s: Space, s1: Space, s2: Space, s3: Space, root: nat, l0: map<nat, Loc>, l1: map<nat, Loc>, l2: map<nat, Loc>, l3: map<nat, Loc>,
                      lo: nat, hi: nat, v: nat, pfn: nat, n: nat, f: Attr, t1: nat, t2: nat, t3: nat)
    requires PInv(s, root, l0, lo, hi) && n > 0 && |s1.b.lists| == |s2.b.lists| == ORDERS == |s.b.lists|
    requires Descend(s, root, Index(v, 0)) == Down(s1, t1) && DescentOk(s, root, l0, l1, lo, hi, root, 0, v, Down(s1, t1))
    requires Descend(s1, t1, Index(v, 1)) == Down(s2, t2) && DescentOk(s1, root, l1, l2, lo, hi, t1, 1, v, Down(s2, t2))
    requires Descend(s2, t2, Index(v, 2)) == Down(s3, t3) && DescentOk(s2, root, l2, l3, lo, hi, t2, 2, v, Down(s3, t3))
    ensures PInv(s3, root, l3, lo, hi) && |s3.b.lists| == ORDERS && Ready(s3, root, l3, v, t1, t2, t3)
    ensures MapPages(s3, root, v, pfn, n, f) == MapPages(s, root, v, pfn, n, f)
  {
    hide PInv, DescentOk, Descend, PathTo, Index, Prefix, SetLeaf, Leaf;
    ThreeDown(s, root, l0, l1, l2, l3, lo, hi, v, Down(s1, t1), Down(s2, t2), Down(s3, t3));
    SpaceShape(s3, root, l3, lo, hi);
    PathMapOne(s3, root, v, pfn, f, t1, t2, t3);
    PathRow(s3.mem, root, v, t1, t2, t3);
  }

  lemma PathRow(mem: Mem, root: nat, v: nat, t1: nat, t2: nat, t3: nat)
    requires PathTo(mem, root, v, t1, t2, t3)
    ensures t3 in mem && |mem[t3]| == ENTRIES
  {
  }

  /** One leaf of the inner loop. */
  lemma LeafStep(s: Space, root: nat, loc: map<nat, Loc>, lo: nat, hi: nat, v: nat, pfn: nat, n: nat, f: Attr, t1: nat, t2: nat, t3: nat)
    requires PInv(s, root, loc, lo, hi) && AttrOk(f) && n > 0 && Ready(s, root, loc, v, t1, t2, t3)
    ensures |s.b.lists| == ORDERS && t3 in s.mem && |s.mem[t3]| == ENTRIES
    ensures var t := PT(s.b, SetLeaf(s.mem, t3, v, Leaf(pfn, f)));
      && PInv(t, root, loc, lo, hi) && |t.mem| == |s.mem|
      && MapPages(s, root, v, pfn, n, f) == MapPages(t, root, v + 1, pfn + 1, n - 1, f)
      && (Index(v, 3) < 511 ==> Ready(t, root, loc, v + 1, t1, t2, t3) && Index(v + 1, 3) == Index(v, 3) + 1)
  {
    hide PInv, PathTo, Index, Prefix, SetLeaf, Leaf, AttrOk, MappedOne, Walk, Total;
    SpaceShape(s, root, loc, lo, hi);
    PathRow(s.mem, root, v, t1, t2, t3);
    PathMapOne(s, root, v, pfn, f, t1, t2, t3);
    LeafOk(s, s, root, loc, lo, hi, v, pfn, f, t1, t2, t3);
    SetLeafSize(s.mem, t3, v, Leaf(pfn, f));
    if Index(v, 3) < 511 {
      NextPage(v);
      SamePath(SetLeaf(s.mem, t3, v, Leaf(pfn, f)), root, v, v + 1, t1, t2, t3);
    }
  }

  lemma SetLeafSize(mem: Mem, t: nat, v: nat, e: nat)
    requires t in mem && |mem[t]| == ENTRIES
    ensures |SetLeaf(mem, t, v, e)| == |mem|
  {
    assert SetLeaf(mem, t, v, e).Keys == mem.Keys;
  }

  lemma SamePath(mem: Mem, root: nat, v: nat, w: nat, t1: nat, t2: nat, t3: nat)
    requires PathTo(mem, root, v, t1, t2, t3)
    requires Index(w, 0) == Index(v, 0) && Index(w, 1) == Index(v, 1) && Index(w, 2) == Index(v, 2)
    ensures PathTo(mem, root, w, t1, t2, t3)
  {
  }

  /** Following a table entry stays inside the tree; a level-0 entry is never a block. */
  lemma StepStays(s: Space, root: nat, loc: map<nat, Loc>, lo: nat, hi: nat, t: nat, v: nat)
    requires PInv(s, root, loc, lo, hi) && t in s.mem && t in loc && loc[t].level < 3
    ensures |s.mem[t]| == ENTRIES
    ensures match StepAt(s.mem, t, Index(v, loc[t].level))
      case Missing => true
      case Table(n) => n in s.mem && n in loc && loc[n].level == loc[t].level + 1
      case Block(n) => loc[t].level > 0
  {
    hide Index, IsValid, IsTable, Next, Inv;
    assert EntryOk(s.mem, loc, t, Index(v, loc[t].level));
  }

  lemma NewTableShape(s: Space, root: nat, loc: map<nat, Loc>, lo: nat, hi: nat, t: nat, i: nat)
    requires PInv(s, root, loc, lo, hi) && t in s.mem && i < ENTRIES && |s.mem[t]| == ENTRIES && StepAt(s.mem, t, i).Missing?
    ensures |s.b.lists| == ORDERS
    ensures match Take(s.b, 0)
      case NoPage => Descend(s, t, i) == Halted
      case Got(b', a) =>
        && a >= KPAGES && a - KPAGES !in s.mem
        && Descend(s, t, i) == Down(PT(b', s.mem[a - KPAGES := Zeroes()][t := SetEntry(s.mem[t], i, TableEntry(a - KPAGES))]), a - KPAGES)
        && |Descend(s, t, i).s.mem| == |s.mem| + 1
  {
    hide Inv, Tree, Handed, SetEntry, Zeroes, TableEntry, IsValid, IsTable, Next;
    TakeKeeps(s.b, 0, lo, hi);
    var r := Take(s.b, 0);
    if r.Got? {
      InvHeldPages(r.s, r.a, 0, lo, hi);
      assert Pow2(0) == 1;
      FreshTable(s, r.s, r.a);
      hide Take;
      assert Descend(s, t, i).s.mem.Keys == s.mem.Keys + {r.a - KPAGES};
    }
  }

  lemma ZeroesAreZero()
    ensures |Zeroes()| == ENTRIES && forall j | 0 <= j < ENTRIES :: Zeroes()[j] == 0
  {
  }

  /** The tables of one address space, in the memory of the buddy system. */
  class AddressSpace {
    const buddy: B.Allocator
    const root: nat          // physical page of the level-0 table
    var mem: Mem
    ghost var loc: map<nat, Loc>

    ghost function Sp(): Space
      reads this, buddy
    {
      PT(buddy.st, mem)
    }

    ghost predicate Valid()
      reads this, buddy, buddy.heap, buddy.pages
    {
      buddy.Valid(-1) && PInv(Sp(), root, loc, buddy.Base(), buddy.End())
    }

    constructor (buddy: B.Allocator, root: nat, mem: Mem, ghost loc: map<nat, Loc>)
      requires buddy.Valid(-1) && PInv(PT(buddy.st, mem), root, loc, buddy.Base(), buddy.End())
      ensures Valid() && this.buddy == buddy && this.root == root && this.mem == mem && this.loc == loc
    {
      this.buddy, this.root, this.mem, this.loc := buddy, root, mem, loc;
    }

    /** get_next_ptp without alloc. */
    method NextPtp(t: nat, level: nat, va: nat) returns (ret: int, next: nat)
      requires Valid() && t in mem && level <= 3
      ensures |mem[t]| == ENTRIES
      ensures match StepAt(mem, t, Index(va / PAGE_SIZE, level))
        case Missing => ret == -ENOMEM
        case Table(n) => ret == NORMAL_PTP && next == n
        case Block(e) => ret == BLOCK_PTP && next == Next(e)
    {
      TreeRowOf(Sp(), root, loc, buddy.Base(), buddy.End(), t);
      var e := mem[t][Index(va / PAGE_SIZE, level)];
      next := 0;
      if !IsValid(e) {
        ret := -ENOMEM;
      } else {
        next := Next(e);
        ret := if IsTable(e) then NORMAL_PTP else BLOCK_PTP;
      }
    }

    /** The allocating branch of get_next_ptp: a zeroed page from get_pages(0), linked under entry i of t. */
    method NewTable(t: nat, i: nat) returns (ok: bool, n: nat)
      requires Valid() && t in mem && i < ENTRIES && |mem[t]| == ENTRIES && StepAt(mem, t, i).Missing?
      modifies this`mem, buddy, buddy.heap, buddy.pages
      ensures buddy.Valid(-1)
      ensures match Descend(old(Sp()), t, i)
        case Halted => !ok && Sp() == old(Sp())
        case Down(s1, t1) => ok && n == t1 && Sp() == s1 && |s1.mem| == |old(mem)| + 1
      ensures ok ==> n !in old(mem) && n in mem && |mem[n]| == ENTRIES && forall j | 0 <= j < ENTRIES :: mem[n][j] == 0
    {
      hide PInv, B.Repr, Heap.Valid, SetEntry, Zeroes, TableEntry, StepAt, Descend, Take;
      ghost var s := Sp();
      NewTableShape(s, root, loc, buddy.Base(), buddy.End(), t, i);
      ZeroesAreZero();
      var r := buddy.GetPages(0);
      if r == None {
        return false, 0;
      }
      var a := buddy.region.Base() + r.value;
      n := a - KPAGES;
      mem := mem[n := Zeroes()];
      mem := mem[t := SetEntry(mem[t], i, TableEntry(n))];
      ok := true;
    }

    /** get_next_ptp with alloc. */
    method NextPtpAlloc(t: nat, level: nat, va: nat, rss: Option<int>) returns (ret: int, next: nat, rss': Option<int>)
      requires Valid() && t in mem && level < 3 && t in loc && loc[t] == Loc(level, Prefix(va / PAGE_SIZE, level))
      modifies this`mem, this`loc, buddy, buddy.heap, buddy.pages
      ensures buddy.Valid(-1) && t in old(mem) && |old(mem)[t]| == ENTRIES
      ensures match Descend(old(Sp()), t, Index(va / PAGE_SIZE, level))
        case Halted => ret == if IsValid(old(mem)[t][Index(va / PAGE_SIZE, level)]) then BLOCK_PTP else -ENOMEM
        case Down(s1, n) =>
          && ret == 0 && next == n && Sp() == s1 && Valid()
          && DescentOk(old(Sp()), root, old(loc), loc, buddy.Base(), buddy.End(), t, level, va / PAGE_SIZE, Down(s1, n))
          && rss' == if rss == None then None else Some(rss.value + PAGE_SIZE * (|s1.mem| - |old(mem)|))
    {
      ghost var s := Sp();
      ghost var lo, hi := buddy.Base(), buddy.End();
      TreeRowOf(s, root, loc, lo, hi, t);
      hide PInv, B.Allocator.Valid, DescentOk, Index, Prefix, Next, Take;
      var i := Index(va / PAGE_SIZE, level);
      SpaceShape(s, root, loc, lo, hi);
      rss' := rss;
      var e := mem[t][i];
      if !IsValid(e) {
        var ok;
        ok, next := NewTable(t, i);
        if !ok {
          return -ENOMEM, 0, rss;
        }
        if rss.Some? {
          rss' := Some(rss.value + PAGE_SIZE);
        }
      } else {
        next := Next(e);
        if !IsTable(e) {
          return BLOCK_PTP, next, rss;
        }
      }
      ret := NORMAL_PTP;
      ghost var l := DescendOk(s, root, loc, lo, hi, t, level, va / PAGE_SIZE);
      DescentFacts(s, root, loc, l, lo, hi, t, level, va / PAGE_SIZE, Down(Sp(), next));
      loc := l;
    }

    /** query_in_pgtbl */
    method QueryPtp(va: nat) returns (r: Option<nat>)
      requires Valid()
      ensures r == Query(mem, root, va)
    {
      hide B.Allocator.Valid, Inv, Backed, Index, IsValid, IsTable, Next;
      ghost var lo, hi := buddy.Base(), buddy.End();
      RootFacts(Sp(), root, loc, lo, hi);
      var ret, l1 := NextPtp(root, 0, va);
      if ret < 0 {
        return None;
      }
      StepStays(Sp(), root, loc, lo, hi, root, va / PAGE_SIZE);
      var ret1, l2 := NextPtp(l1, 1, va);
      if ret1 < 0 {
        return None;
      } else if ret1 == BLOCK_PTP {
        return Some(l2 * PAGE_SIZE + va % 0x4000_0000);
      }
      StepStays(Sp(), root, loc, lo, hi, l1, va / PAGE_SIZE);
      var ret2, l3 := NextPtp(l2, 2, va);
      if ret2 < 0 {
        return None;
      } else if ret2 == BLOCK_PTP {
        return Some(l3 * PAGE_SIZE + va % 0x20_0000);
      }
      StepStays(Sp(), root, loc, lo, hi, l2, va / PAGE_SIZE);
      var ret3, page := NextPtp(l3, 3, va);
      if ret3 < 0 {
        return None;
      }
      return Some(page * PAGE_SIZE + va % PAGE_SIZE);
    }

    /** The three allocating steps at the head of the mapping loop. */
    method WalkAlloc(va: nat, ghost pa: nat, ghost total: nat, ghost f: Attr, rss: Option<int>)
      returns (ok: bool, t3: nat, rss': Option<int>, ghost t1: nat, ghost t2: nat)
      requires Valid() && total > 0
      modifies this`mem, this`loc, buddy, buddy.heap, buddy.pages
      ensures |old(buddy.st).lists| == ORDERS
      ensures !ok ==> MapPages(old(Sp()), root, va / PAGE_SIZE, pa / PAGE_SIZE, total, f) == Stuck
      ensures ok ==>
        && Valid() && Ready(Sp(), root, loc, va / PAGE_SIZE, t1, t2, t3) && |buddy.st.lists| == ORDERS
        && MapPages(Sp(), root, va / PAGE_SIZE, pa / PAGE_SIZE, total, f) == MapPages(old(Sp()), root, va / PAGE_SIZE, pa / PAGE_SIZE, total, f)
        && rss' == if rss == None then None else Some(rss.value + PAGE_SIZE * (|mem| - |old(mem)|))
    {
      hide B.Allocator.Valid, Inv, Tree, Backed, DescentOk, Descend, Index, Prefix, Ready, SetLeaf, Leaf;
      ghost var s, l0 := Sp(), loc;
      ghost var lo, hi, v := buddy.Base(), buddy.End(), va / PAGE_SIZE;
      RootFacts(s, root, loc, lo, hi);
      PrefixZero(v);
      ok, t3, rss', t1, t2 := false, 0, rss, 0, 0;
      var ret, n1, r1 := NextPtpAlloc(root, 0, va, rss);
      if ret != 0 {
        return;
      }
      ghost var s1, l1 := Sp(), loc;
      DescentFacts(s, root, l0, l1, lo, hi, root, 0, v, Down(s1, n1));
      var ret2, n2, r2 := NextPtpAlloc(n1, 1, va, r1);
      if ret2 != 0 {
        return;
      }
      ghost var s2, l2 := Sp(), loc;
      DescentFacts(s1, root, l1, l2, lo, hi, n1, 1, v, Down(s2, n2));
      var ret3, n3, r3 := NextPtpAlloc(n2, 2, va, r2);
      if ret3 != 0 {
        return;
      }
      ok, t3, rss', t1, t2 := true, n3, r3, n1, n2;
      WalkAllocDone(s, s1, s2, Sp(), root, l0, l1, l2, loc, lo, hi, v, pa / PAGE_SIZE, total, f, n1, n2, n3);
    }

    /** The inner loop: fill the level-3 table from the entry of va on, until it or the range ends. */
    method FillTable(va0: nat, pa0: nat, total0: nat, f: Attr, rss0: Option<int>, ghost t1: nat, ghost t2: nat, t3: nat)
      returns (va: nat, pa: nat, total: nat, rss: Option<int>)
      requires Valid() && AttrOk(f) && total0 > 0 && va0 % PAGE_SIZE == 0 && Ready(Sp(), root, loc, va0 / PAGE_SIZE, t1, t2, t3)
      modifies this`mem
      ensures Valid() && |buddy.st.lists| == ORDERS && total < total0 && va % PAGE_SIZE == 0 && |mem| == |old(mem)|
      ensures MapPages(Sp(), root, va / PAGE_SIZE, pa / PAGE_SIZE, total, f) == MapPages(old(Sp()), root, va0 / PAGE_SIZE, pa0 / PAGE_SIZE, total0, f)
      ensures rss == if rss0 == None then None else Some(rss0.value + PAGE_SIZE * (total0 - total))
    {
      hide B.Allocator.Valid, PInv, Index, Ready, SetLeaf, Leaf, MapPages, AttrOk;
      ghost var lo, hi := buddy.Base(), buddy.End();
      SpaceShape(Sp(), root, loc, lo, hi);
      va, pa, total, rss := va0, pa0, total0, rss0;
      ghost var goal := MapPages(Sp(), root, va0 / PAGE_SIZE, pa0 / PAGE_SIZE, total0, f);
      var i := Index(va / PAGE_SIZE, 3);
      while true
        invariant Valid() && 0 < total <= total0 && va % PAGE_SIZE == 0 && i == Index(va / PAGE_SIZE, 3)
        invariant Ready(Sp(), root, loc, va / PAGE_SIZE, t1, t2, t3)
        invariant goal == MapPages(Sp(), root, va / PAGE_SIZE, pa / PAGE_SIZE, total, f)
        invariant |mem| == |old(mem)| && rss == if rss0 == None then None else Some(rss0.value + PAGE_SIZE * (total0 - total))
        decreases total
      {
        LeafStep(Sp(), root, loc, lo, hi, va / PAGE_SIZE, pa / PAGE_SIZE, total, f, t1, t2, t3);
        mem := SetLeaf(mem, t3, va / PAGE_SIZE, Leaf(pa / PAGE_SIZE, f));
        va := va + PAGE_SIZE;
        pa := pa + PAGE_SIZE;
        if rss.Some? {
          rss := Some(rss.value + PAGE_SIZE);
        }
        total := total - 1;
        if total == 0 {
          break;
        }
        i := i + 1;
        if i >= ENTRIES {
          break;
        }
      }
    }

    /** map_range_in_pgtbl_common; ok is false where a BUG_ON stops the kernel. */
    method MapRange(va0: nat, pa0: nat, len: nat, f: Attr, rss0: Option<int>) returns (ok: bool, rss: Option<int>)
      requires Valid() && AttrOk(f)
      modifies this`mem, this`loc, buddy, buddy.heap, buddy.pages
      ensures |old(buddy.st).lists| == ORDERS
      ensures va0 % PAGE_SIZE != 0 ==> !ok
      ensures va0 % PAGE_SIZE == 0 ==>
        match MapPages(old(Sp()), root, va0 / PAGE_SIZE, pa0 / PAGE_SIZE, PageCount(len), f)
        case Stuck => !ok
        case Mapped(t) => ok && Valid() && Sp() == t && rss == if rss0 == None then None else Some(rss0.value + PAGE_SIZE * (PageCount(len) + |t.mem| - |old(mem)|))
    {
      hide PInv, B.Allocator.Valid, MapPages, MapOne, Leaf, AttrOk;
      ghost var s0 := Sp();
      SpaceShape(s0, root, loc, buddy.Base(), buddy.End());
      rss := rss0;
      ok := false;
      if va0 % PAGE_SIZE != 0 {
        return;
      }
      var total: nat := PageCount(len);
      var va: nat, pa: nat := va0, pa0;
      ghost var goal := MapPages(s0, root, va0 / PAGE_SIZE, pa0 / PAGE_SIZE, total, f);
      while total > 0
        invariant Valid() && va % PAGE_SIZE == 0 && |buddy.st.lists| == ORDERS
        invariant goal == MapPages(Sp(), root, va / PAGE_SIZE, pa / PAGE_SIZE, total, f)
        invariant total <= PageCount(len) && rss == if rss0 == None then None else Some(rss0.value + PAGE_SIZE * (PageCount(len) - total + |mem| - |s0.mem|))
        decreases total
      {
        var t3;
        ghost var t1, t2;
        ok, t3, rss, t1, t2 := WalkAlloc(va, pa, total, f, rss);
        if !ok {
          return;
        }
        va, pa, total, rss := FillTable(va, pa, total, f, rss, t1, t2, t3);
      }
      ok := true;
      MapNone(Sp(), root, va / PAGE_SIZE, pa / PAGE_SIZE, f);
    }

    /** map_range_in_pgtbl_user: exactly when it succeeds, and what it then does to every
        address and to *rss. */
    method MapRangeUser(va: nat, pa: nat, len: nat, flags: nat, rss0: Option<int>) returns (ok: bool, rss: Option<int>)
      requires Valid() && len <= ADDRESSES
      modifies this`mem, this`loc, buddy, buddy.heap, buddy.pages
      ensures ok <==> va % PAGE_SIZE == 0 && Mappable(old(Sp()), root, va / PAGE_SIZE, PageCount(len))
      ensures ok ==> Valid() && RangeMapped(old(mem), mem, root, va, pa, len)
      ensures ok ==> RangeProtected(old(mem), mem, root, va / PAGE_SIZE, PageCount(len), flags, false)
      ensures ok && rss0 == None ==> rss == None
      ensures ok && rss0.Some? ==>
        rss == Some(rss0.value + PAGE_SIZE * (PageCount(len) + TablesNeeded(old(mem), root, va / PAGE_SIZE, PageCount(len))))
    {
      hide PInv, B.Allocator.Valid, MapPages, PteAttr, AttrOk, RangeMapped, RangeProtected, MappedRange, SomeBlocked, TablesNeeded, Total;
      PteAttrOk(flags, false);
      if va % PAGE_SIZE == 0 {
        MapRangeExact(Sp(), root, loc, buddy.Base(), buddy.End(), va, pa, len, PteAttr(flags, false));
        Protects(Sp(), root, va / PAGE_SIZE, pa / PAGE_SIZE, PageCount(len), flags, false);
      }
      ok, rss := MapRange(va, pa, len, PteAttr(flags, false), rss0);
    }

    /** map_range_in_pgtbl_kernel: the same without a counter. */
    method MapRangeKernel(va: nat, pa: nat, len: nat, flags: nat) returns (ok: bool)
      requires Valid() && len <= ADDRESSES
      modifies this`mem, this`loc, buddy, buddy.heap, buddy.pages
      ensures ok <==> va % PAGE_SIZE == 0 && Mappable(old(Sp()), root, va / PAGE_SIZE, PageCount(len))
      ensures ok ==> Valid() && RangeMapped(old(mem), mem, root, va, pa, len)
      ensures ok ==> RangeProtected(old(mem), mem, root, va / PAGE_SIZE, PageCount(len), flags, true)
    {
      hide PInv, B.Allocator.Valid, MapPages, PteAttr, AttrOk, RangeMapped, RangeProtected, MappedRange, SomeBlocked, TablesNeeded, Total;
      PteAttrOk(flags, true);
      if va % PAGE_SIZE == 0 {
        MapRangeExact(Sp(), root, loc, buddy.Base(), buddy.End(), va, pa, len, PteAttr(flags, true));
        Protects(Sp(), root, va / PAGE_SIZE, pa / PAGE_SIZE, PageCount(len), flags, true);
      }
      var rss;
      ok, rss := MapRange(va, pa, len, PteAttr(flags, true), None);
    }
  }
}
