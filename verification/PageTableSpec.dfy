/**
  Four-level translation tables (VMSAv8-64, 4 KB granule) as a value: table pages by physical
  page number, the walk, and mapping one page at a time.
 */
module PageTableSpec {
  import opened Dyadic
  import opened Bits
  import opened BuddySpec
  import opened Kernel

  const ENTRIES: nat := 512          // PTP_ENTRIES
  const PFN_FIELD: nat := 0x10_0000_0000  // bits 12..47: 2^36 page numbers

  // ---------- descriptors ----------

  predicate IsValid(e: nat) { e % 2 == 1 }

  predicate IsTable(e: nat) { (e / 2) % 2 == 1 }

  /** table.next_table_addr, and the page number GET_PADDR_IN_PTE yields for a leaf. */
  function Next(e: nat): nat { (e / PAGE_SIZE) % PFN_FIELD }

  /** What get_next_ptp writes for a new table. */
  function TableEntry(pfn: nat): nat { 3 + (pfn % PFN_FIELD) * PAGE_SIZE }

  /** Attribute bits that set_pte_flags puts around the page number: low = bits 2..11, high = bits 48 up. */
  datatype Attr = Attr(low: nat, high: nat)

  predicate AttrOk(f: Attr) { f.low % 4 == 0 && f.low < PAGE_SIZE }

  function Leaf(pfn: nat, f: Attr): nat {
    3 + f.low + (pfn % PFN_FIELD) * PAGE_SIZE + f.high * (PFN_FIELD * PAGE_SIZE)
  }

  /** The three parts of a descriptor do not overlap. */
  lemma Fields(low: nat, p: nat, high: nat)
    requires low < PAGE_SIZE && p < PFN_FIELD
    ensures var e := low + p * PAGE_SIZE + high * (PFN_FIELD * PAGE_SIZE);
      Next(e) == p && e % 4 == low % 4
  {
    var m := p + high * PFN_FIELD;
    var e := low + p * PAGE_SIZE + high * (PFN_FIELD * PAGE_SIZE);
    assert e == PAGE_SIZE * m + low;
    DivModUnique(e, PAGE_SIZE, m, low);
    DivModUnique(m, PFN_FIELD, high, p);
    LowTwo(e, m, low);
  }

  /** Each attribute bit of a descriptor is the bit of its field. */
  lemma FieldBits(low: nat, p: nat, high: nat)
    requires low < PAGE_SIZE && p < PFN_FIELD
    ensures var e := low + p * PAGE_SIZE + high * (PFN_FIELD * PAGE_SIZE);
      (forall k | 0 <= k < 12 :: Bit(e, k) == Bit(low, k)) && (forall k: nat :: Bit(e, 48 + k) == Bit(high, k))
  {
    var e := low + p * PAGE_SIZE + high * (PFN_FIELD * PAGE_SIZE);
    FieldPowers();
    forall k | 0 <= k < 12 ensures Bit(e, k) == Bit(low, k) {
      BitBelow(low, p + high * PFN_FIELD, 12, k);
    }
    forall k: nat ensures Bit(e, 48 + k) == Bit(high, k) {
      BitAbove(low + p * PAGE_SIZE, high, 48, k);
    }
  }

  lemma FieldPowers()
    ensures Pow2(12) == PAGE_SIZE && Pow2(48) == PFN_FIELD * PAGE_SIZE
  {
    Shift4(0);
    Shift4(4);
    Shift4(8);
    Shift16(0);
    Shift16(16);
    Shift16(32);
  }

  lemma LowTwo(e: nat, m: nat, low: nat)
    requires e == PAGE_SIZE * m + low
    ensures e % 4 == low % 4
  {
    DivModUnique(e, 4, 1024 * m + low / 4, low % 4);
  }

  lemma LowBits(e: nat)
    requires e % 4 == 3
    ensures IsValid(e) && IsTable(e)
  {
  }

  lemma TableFields(pfn: nat)
    ensures IsValid(TableEntry(pfn)) && IsTable(TableEntry(pfn)) && Next(TableEntry(pfn)) == pfn % PFN_FIELD
  {
    Fields(3, pfn % PFN_FIELD, 0);
    LowBits(TableEntry(pfn));
  }

  /** A new table's descriptor has no attribute bits besides valid and table. */
  lemma TableBits(pfn: nat)
    ensures forall k: nat | k < 12 || k >= 48 :: Bit(TableEntry(pfn), k) <==> k < 2
  {
    hide Bit;
    FieldBits(3, pfn % PFN_FIELD, 0);
    TwelveBits(1, 1, 0, 0, 0, 0, 0, 0, 0, 0, 0, 0);
    hide TableEntry;
    forall k: nat | k >= 48 ensures !Bit(TableEntry(pfn), k) {
      ExecuteNeverBits(0, 0, k - 48);
      assert Bit(TableEntry(pfn), 48 + (k - 48)) == Bit(0, k - 48);
    }
  }

  lemma LeafFields(pfn: nat, f: Attr)
    requires AttrOk(f)
    ensures IsValid(Leaf(pfn, f)) && IsTable(Leaf(pfn, f)) && Next(Leaf(pfn, f)) == pfn % PFN_FIELD
  {
    Fields(3 + f.low, pfn % PFN_FIELD, f.high);
    LowBits(Leaf(pfn, f));
  }

  // ---------- the walk ----------

  /** GET_Lx_INDEX on a page number. */
  function Index(v: nat, level: nat): (i: nat)
    ensures i < ENTRIES
  {
    if level == 0 then (v / 0x800_0000) % 512
    else if level == 1 then (v / 0x4_0000) % 512
    else if level == 2 then (v / 0x200) % 512
    else v % 512
  }

  /** Which addresses a table serves: its level and the indices on the way to it. */
  datatype Loc = Loc(level: nat, prefix: nat)

  function Prefix(v: nat, level: nat): nat {
    if level == 0 then 0 else Prefix(v, level - 1) * 512 + Index(v, level - 1)
  }

  type Mem = map<nat, seq<nat>>

  datatype Step = Missing | Table(t: nat) | Block(e: nat)

  /** One non-allocating get_next_ptp; a block is given as its descriptor. */
  function StepAt(mem: Mem, t: nat, i: nat): Step
    requires t in mem && i < |mem[t]|
  {
    var e := mem[t][i];
    if !IsValid(e) then Missing else if IsTable(e) then Table(Next(e)) else Block(e)
  }

  /** Where a walk ends, with the descriptor it ends at. */
  datatype Hit = NotMapped | Page(e: nat) | BlockHit(level: nat, e: nat)

  /** The walk of query_in_pgtbl from table t of the given level. */
  function Walk(mem: Mem, t: nat, level: nat, v: nat): Hit
    decreases 3 - level
  {
    if t !in mem || |mem[t]| != ENTRIES then NotMapped
    else if level >= 3 then
      var e := mem[t][Index(v, 3)];
      if IsValid(e) then Page(e) else NotMapped
    else match StepAt(mem, t, Index(v, level))
      case Missing => NotMapped
      case Block(e) => if level == 0 then Walk(mem, Next(e), 1, v) else BlockHit(level, e)
      case Table(n) => Walk(mem, n, level + 1, v)
  }

  /** query_in_pgtbl: the physical address, or None for -ENOMEM. */
  function Query(mem: Mem, root: nat, va: nat): Option<nat> {
    match Walk(mem, root, 0, va / PAGE_SIZE)
    case NotMapped => None
    case Page(e) => Some(Next(e) * PAGE_SIZE + va % PAGE_SIZE)
    case BlockHit(l, e) => Some(Next(e) * PAGE_SIZE + if l == 1 then va % 0x4000_0000 else va % 0x20_0000)
  }

  // ---------- well-formed tables ----------

  /** Tables form a tree: each table serves one prefix, and a table entry leads to the table of the longer prefix. */
  ghost predicate Tree(mem: Mem, root: nat, loc: map<nat, Loc>) {
    && root in mem && loc.Keys == mem.Keys && loc[root] == Loc(0, 0)
    && (forall t | t in mem :: |mem[t]| == ENTRIES && loc[t].level <= 3)
    && (forall t, i | t in mem && 0 <= i < ENTRIES :: EntryOk(mem, loc, t, i))
  }

  ghost predicate EntryOk(mem: Mem, loc: map<nat, Loc>, t: nat, i: nat)
    requires t in mem && t in loc && |mem[t]| == ENTRIES && i < ENTRIES
  {
    var e := mem[t][i];
    IsValid(e) && loc[t].level < 3 ==>
      && (loc[t].level == 0 ==> IsTable(e))
      && (IsTable(e) ==> Next(e) in mem && Next(e) in loc && loc[Next(e)] == Loc(loc[t].level + 1, loc[t].prefix * 512 + i))
  }

  /** Table pages inside the managed region are pages the buddy system has handed out. */
  ghost predicate Backed(mem: Mem, b: BuddySpec.State) {
    forall t | t in mem && t + KPAGES in b.own :: b.own[t + KPAGES].taken
  }

  // ---------- mapping ----------

  datatype Space = PT(b: BuddySpec.State, mem: Mem)

  /** BUG_ON(ret != 0) stops the kernel: out of pages, or a block descriptor on the path. */
  datatype Descent = Halted | Down(s: Space, t: nat)

  function SetEntry(row: seq<nat>, i: nat, e: nat): seq<nat>
    requires i < |row|
  {
    row[..i] + [e] + row[i + 1..]
  }

  function Zeroes(): seq<nat> { seq(ENTRIES, _ => 0) }

  /** get_next_ptp with alloc: follow the entry, or hang a zeroed page under it. */
  function Descend(s: Space, t: nat, i: nat): Descent
    requires |s.b.lists| == ORDERS
  {
    if t !in s.mem || i >= |s.mem[t]| then Halted
    else match StepAt(s.mem, t, i)
      case Table(n) => Down(s, n)
      case Block(_) => Halted
      case Missing =>
        match Take(s.b, 0)
        case NoPage => Halted
        case Got(b', a) =>
          if a < KPAGES || a - KPAGES >= PFN_FIELD then Halted
          else
            var n := a - KPAGES;
            Down(PT(b', s.mem[n := Zeroes()][t := SetEntry(s.mem[t], i, TableEntry(n))]), n)
  }

  datatype MapResult = Stuck | Mapped(s: Space)

  function SetLeaf(mem: Mem, t: nat, v: nat, e: nat): Mem
    requires t in mem && |mem[t]| == ENTRIES
  {
    mem[t := SetEntry(mem[t], Index(v, 3), e)]
  }

  /** Map page v to frame pfn. */
  function MapOne(s: Space, root: nat, v: nat, pfn: nat, f: Attr): (r: MapResult)
    requires |s.b.lists| == ORDERS
    ensures r.Mapped? ==> |r.s.b.lists| == ORDERS
  {
    match Descend(s, root, Index(v, 0))
    case Halted => Stuck
    case Down(s1, t1) =>
      match Descend(s1, t1, Index(v, 1))
      case Halted => Stuck
      case Down(s2, t2) =>
        match Descend(s2, t2, Index(v, 2))
        case Halted => Stuck
        case Down(s3, t3) =>
          if t3 in s3.mem && |s3.mem[t3]| == ENTRIES then Mapped(PT(s3.b, SetLeaf(s3.mem, t3, v, Leaf(pfn, f)))) else Stuck
  }

  /** Map n consecutive pages, one at a time. */
  function MapPages(s: Space, root: nat, v: nat, pfn: nat, n: nat, f: Attr): MapResult
    requires |s.b.lists| == ORDERS
    decreases n
  {
    if n == 0 then Mapped(s)
    else match MapOne(s, root, v, pfn, f)
      case Stuck => Stuck
      case Mapped(t) => MapPages(t, root, v + 1, pfn + 1, n - 1, f)
  }

  ghost predicate PInv(s: Space, root: nat, loc: map<nat, Loc>, lo: nat, hi: nat) {
    && |s.b.lists| == ORDERS && Inv(s.b, lo, hi)
    && KPAGES <= lo && hi <= KPAGES + PFN_FIELD
    && Tree(s.mem, root, loc) && Backed(s.mem, s.b)
  }

  // ---------- what a walk sees ----------

  /** The table entry (t, i) lies on the path of page v. */
  ghost predicate OnPath(loc: map<nat, Loc>, t: nat, i: nat, v: nat) {
    t in loc && loc[t].level <= 3 && loc[t].prefix == Prefix(v, loc[t].level) && i == Index(v, loc[t].level)
  }

  lemma SetEntryAt(row: seq<nat>, i: nat, e: nat, j: nat)
    requires i < |row| && j < |row|
    ensures |SetEntry(row, i, e)| == |row| && SetEntry(row, i, e)[j] == if j == i then e else row[j]
  {
  }

  /** Prefix and last index determine the page number within the 48-bit space. */
  lemma PrefixInjective(v: nat, w: nat)
    requires Prefix(v, 3) == Prefix(w, 3) && Index(v, 3) == Index(w, 3)
    ensures v % PFN_FIELD == w % PFN_FIELD
  {
    PrefixValue(v);
    PrefixValue(w);
  }

  lemma PrefixValue(v: nat)
    ensures Prefix(v, 3) * 512 + Index(v, 3) == v % PFN_FIELD
  {
    assert Prefix(v, 1) == Index(v, 0);
    assert Prefix(v, 2) == Index(v, 0) * 512 + Index(v, 1);
    assert Prefix(v, 3) == (Index(v, 0) * 512 + Index(v, 1)) * 512 + Index(v, 2);
    var a := v / 512;
    var b := a / 512;
    var c := b / 512;
    assert v / 0x4_0000 == b && v / 0x800_0000 == c;
    assert v == 512 * (512 * (512 * c + b % 512) + a % 512) + v % 512;
    assert c == 512 * (c / 512) + c % 512;
    DivModUnique(v, PFN_FIELD, c / 512, 512 * (512 * (512 * (c % 512) + b % 512) + a % 512) + v % 512);
  }

  /** A walk that never meets a changed entry gives the same answer. */
  lemma {:induction false} WalkFrame(mem: Mem, mem': Mem, root: nat, loc: map<nat, Loc>, t: nat, level: nat, v: nat, ct: nat, ci: nat)
    requires Tree(mem, root, loc) && t in mem && level <= 3 && loc[t] == Loc(level, Prefix(v, level))
    requires forall x | x in mem :: x in mem' && |mem'[x]| == ENTRIES
    requires forall x, j | x in mem && 0 <= j < ENTRIES && !(x == ct && j == ci) :: mem'[x][j] == mem[x][j]
    requires !OnPath(loc, ct, ci, v)
    ensures Walk(mem', t, level, v) == Walk(mem, t, level, v)
    decreases 3 - level
  {
    var i := Index(v, level);
    assert mem'[t][i] == mem[t][i];
    assert EntryOk(mem, loc, t, i);
    if level < 3 && StepAt(mem, t, i).Table? {
      WalkFrame(mem, mem', root, loc, Next(mem[t][i]), level + 1, v, ct, ci);
    }
  }
}
