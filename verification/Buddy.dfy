/** mm/buddy.c: the page array, the linked free lists and the operations on them. */
module Buddy {
  import opened Dyadic
  import opened Bits
  import opened BuddySpec
  import opened BuddyLaws
  import opened Kernel
  import opened ListHeap
  import BuddyRuns
  import BootSizing

  /** struct page, without the list node (which lives in the list heap). */
  datatype Page = Page(inUse: int, order: int, slab: nat)

  /** What a descriptor must say: `inUse` (the C field `allocated`) is 1 exactly on heads of taken chunks (the chunk in
      the hands of a running operation excepted), `order` is right on every head. */
  predicate PageOk(p: Page, c: Chunk, q: nat, hand: int) {
    && p.inUse == (if c.start == q && c.taken && q != hand then 1 else 0)
    && (c.start == q ==> p.order == c.order)
  }

  ghost predicate Rep(ps: seq<Page>, own: map<nat, Chunk>, base: nat, hand: int) {
    forall q: nat | q in own :: base <= q < base + |ps| && PageOk(ps[q - base], own[q], q, hand)
  }

  /** Every page of [a, a + 2^k) belongs to the chunk c. */
  ghost predicate Filled(s: State, a: nat, k: nat, c: Chunk) {
    forall q: nat | a <= q < a + Pow2(k) :: q in s.own && s.own[q] == c
  }

  /** Rewriting descriptors and chunks inside [a, a + n) only has to be checked inside. */
  lemma RepLocal(ps: seq<Page>, own: map<nat, Chunk>, hand: int, ps': seq<Page>, own': map<nat, Chunk>, hand': int,
                 base: nat, a: nat, n: nat)
    requires Rep(ps, own, base, hand) && own'.Keys == own.Keys && |ps'| == |ps|
    requires forall q: nat | q in own && !(a <= q < a + n) :: own'[q] == own[q]
    requires forall i | 0 <= i < |ps| && !(a <= base + i < a + n) :: ps'[i] == ps[i]
    requires (hand < 0 || a <= hand < a + n) && (hand' < 0 || a <= hand' < a + n)
    requires forall q: nat | q in own && a <= q < a + n :: PageOk(ps'[q - base], own'[q], q, hand')
    ensures Rep(ps', own', base, hand')
  {
    forall q: nat | q in own'
      ensures base <= q < base + |ps'| && PageOk(ps'[q - base], own'[q], q, hand')
    {
      assert PageOk(ps[q - base], own[q], q, hand);
    }
  }

  lemma RepPop(ps: seq<Page>, s: State, base: nat, k: nat)
    requires k < |s.lists| && s.lists[k] != [] && Rep(ps, s.own, base, -1)
    requires Filled(s, s.lists[k][0], k, Chunk(s.lists[k][0], k, false))
    ensures Rep(ps, Pop(s, k).own, base, s.lists[k][0])
  {
    var a := s.lists[k][0];
    RepLocal(ps, s.own, -1, ps, Pop(s, k).own, a, base, a, Pow2(k));
  }

  lemma RepPush(ps: seq<Page>, s: State, base: nat, a: nat, k: nat)
    requires k < |s.lists| && Rep(ps, s.own, base, a) && Filled(s, a, k, Chunk(a, k, true))
    ensures Rep(ps, Push(s, a, k).own, base, -1)
  {
    RepLocal(ps, s.own, a, ps, Push(s, a, k).own, -1, base, a, Pow2(k));
  }

  function SetOrder(ps: seq<Page>, p: int, k: nat): (r: seq<Page>)
    requires 0 <= p < |ps|
    ensures |r| == |ps|
  {
    ps[p := ps[p].(order := k)]
  }

  lemma RepCut(ps: seq<Page>, own: map<nat, Chunk>, own': map<nat, Chunk>, base: nat, a: nat, k: nat, n: nat)
    requires Rep(ps, own, base, a) && own'.Keys == own.Keys && n > 0
    requires forall q: nat | a <= q < a + 2 * n :: q in own && own[q] == Chunk(a, k + 1, true)
    requires forall q: nat | q in own ::
        own'[q] == if a <= q < a + n then Chunk(a, k, true)
                   else if a + n <= q < a + 2 * n then Chunk(a + n, k, false)
                   else own[q]
    ensures base <= a && a + n - base < |ps|
    ensures Rep(SetOrder(SetOrder(ps, a - base, k), a + n - base, k), own', base, a)
  {
    assert a in own && a + n in own;
    var p, u := a - base, a + n - base;
    var ps' := SetOrder(SetOrder(ps, p, k), u, k);
    forall q: nat | q in own && a <= q < a + 2 * n ensures PageOk(ps'[q - base], own'[q], q, a) {
      assert PageOk(ps[q - base], own[q], q, a);
    }
    RepLocal(ps, own, a, ps', own', a, base, a, 2 * n);
  }

  lemma RepGlue(ps: seq<Page>, own: map<nat, Chunk>, own': map<nat, Chunk>, base: nat, a: nat, b: nat, m: nat, k: nat, n: nat)
    requires Rep(ps, own, base, a) && own'.Keys == own.Keys && n > 0
    requires m <= a && a + n <= m + 2 * n && m <= b && b + n <= m + 2 * n && (a == m || b == m) && a != b
    requires a + n <= b || b + n <= a
    requires forall q: nat | a <= q < a + n :: q in own && own[q] == Chunk(a, k, true)
    requires forall q: nat | b <= q < b + n :: q in own && own[q] == Chunk(b, k, false)
    requires forall q: nat | q in own :: own'[q] == if m <= q < m + 2 * n then Chunk(m, k + 1, true) else own[q]
    ensures base <= m < base + |ps| && Rep(SetOrder(ps, m - base, k + 1), own', base, m)
  {
    assert m in own;
    var ps' := SetOrder(ps, m - base, k + 1);
    forall q: nat | q in own && m <= q < m + 2 * n ensures PageOk(ps'[q - base], own'[q], q, m) {
      assert PageOk(ps[q - base], own[q], q, a);
    }
    RepLocal(ps, own, a, ps', own', m, base, m, 2 * n);
  }

  /** Where a chunk, its buddy and their union lie. */
  lemma JoinSpan(a: nat, k: nat)
    requires Aligned(a, k)
    ensures var b, m, n := BuddyOf(a, k), Floor(a, k + 1), Pow2(k);
      && b >= 0 && a != b && m <= a && a + n <= m + 2 * n && m <= b && b + n <= m + 2 * n && (a == m || b == m)
      && (a + n <= b || b + n <= a)
  {
    BuddyFacts(a, k);
  }

  lemma JoinOwn(s: State, a: nat, k: nat) returns (own': map<nat, Chunk>)
    requires |s.lists| == ORDERS && Aligned(a, k) && BuddyListed(s, a, k)
    requires Filled(s, a, k, Chunk(a, k, true)) && Filled(s, BuddyOf(a, k), k, Chunk(BuddyOf(a, k), k, false))
    ensures own' == Join(s, a, k).own && own'.Keys == s.own.Keys
    ensures var m := Floor(a, k + 1);
      forall q: nat | q in s.own :: own'[q] == if m <= q < m + 2 * Pow2(k) then Chunk(m, k + 1, true) else s.own[q]
  {
    hide Aligned, Remove, Floor, BuddyOf;
    JoinSpan(a, k);
    own' := Join(s, a, k).own;
    assert own'.Keys == s.own.Keys;
  }

  lemma RepJoin(ps: seq<Page>, s: State, base: nat, a: nat, k: nat)
    requires |s.lists| == ORDERS && Aligned(a, k) && BuddyListed(s, a, k) && Rep(ps, s.own, base, a)
    requires Filled(s, a, k, Chunk(a, k, true)) && Filled(s, BuddyOf(a, k), k, Chunk(BuddyOf(a, k), k, false))
    ensures var m := Floor(a, k + 1);
      && base <= m < base + |ps|
      && Rep(SetOrder(ps, m - base, k + 1), Join(s, a, k).own, base, m)
  {
    hide Aligned, Rep, SetOrder, Join, BuddyOf, Floor;
    JoinSpan(a, k);
    var own' := JoinOwn(s, a, k);
    RepGlue(ps, s.own, own', base, a, BuddyOf(a, k), Floor(a, k + 1), k, Pow2(k));
  }

  lemma RepExtend(ps: seq<Page>, s: State, base: nat, a: nat, k: nat)
    requires Rep(ps, s.own, base, -1) && BuddyRuns.AllFree(s) && k < |s.lists|
    requires base <= a && a + Pow2(k) <= base + |ps| && forall q: nat | a <= q < a + Pow2(k) :: q !in s.own
    requires forall i | 0 <= i < |ps| :: ps[i].inUse == 0
    ensures Rep(ps[a - base := Page(0, k, 0)], Push(s, a, k).own, base, -1)
  {
  }

  lemma ExtendAllFree(s: State, a: nat, k: nat)
    requires BuddyRuns.AllFree(s) && k < |s.lists|
    ensures BuddyRuns.AllFree(Push(s, a, k))
  {
  }

  lemma OutsideNotListed(s: State, a: nat, lo: nat, hi: nat)
    requires Inv(s, lo, hi) && !(lo <= a < hi)
    ensures !Listed(s.lists, a)
  {
    forall j | 0 <= j < |s.lists| ensures a !in s.lists[j] {
      assert a in s.lists[j] <==> FreeAt(s.own, a, j);
    }
  }

  lemma PageOfAligned(r: nat)
    requires Aligned(r, 22)
    ensures r % PAGE_SIZE == 0 && Aligned(r / PAGE_SIZE, TOP)
  {
    BootSizing.Pow2Page();
    var q := r / Pow2(22);
    assert r == PAGE_SIZE * (1024 * q);
  }

  lemma LowerHalfBuddy(x: nat, k: nat)
    requires Aligned(x, k + 1) && x >= Pow2(k)
    ensures BuddyOf(x - Pow2(k), k) == x - 2 * Pow2(k)
  {
    HalvesAligned(x, k);
    AlignedShift(x, k);
    if Aligned(x - Pow2(k), k + 1) {
      AlignedGap(x - Pow2(k), x, k + 1);
      assert false;
    }
  }

  /** The region: where it starts and how many pages it has. */
  datatype Region = Region(startAddr: nat, pageNum: nat) {
    function Base(): nat { startAddr / PAGE_SIZE }

    function End(): nat { Base() + pageNum }

    /** What the boot code provides: a non-NULL page-aligned start and an end on a top-order boundary, below 2^64. */
    ghost predicate Ok() {
      0 < startAddr && startAddr % PAGE_SIZE == 0 && Aligned(End(), TOP) && PAGE_SIZE * End() <= WORD
    }

    function PageToVirt(p: nat): nat { startAddr + p * PAGE_SIZE }

    function VirtToPage(ptr: nat): (r: Option<nat>)
      ensures r.Some? ==> r.value < pageNum
    {
      var pfn := (ptr - startAddr) / PAGE_SIZE;
      if ptr < startAddr || ptr >= startAddr + pageNum * PAGE_SIZE || pfn >= pageNum then None else Some(pfn)
    }

    /** virt_to_page of the region start rounded up to the largest chunk size. */
    method FirstAligned() returns (p: nat)
      requires Ok() && pageNum >= 1024
      ensures p < pageNum && Aligned(Base() + p, TOP) && p < Pow2(TOP)
    {
      BootSizing.Pow2Page();
      hide Pow2, Aligned, RoundUp;
      assert startAddr + Pow2(22) - 1 < WORD;
      RoundUpIsCeiling(startAddr, 22);
      var r := RoundUp(startAddr, Pow2(22));
      PageOfAligned(r);
      p := VirtToPage(r).value;
    }

    lemma RoundTrip(p: nat)
      requires p < pageNum
      ensures VirtToPage(PageToVirt(p)) == Some(p)
    {
    }

    /** virt_to_page(ROUND_DOWN(page_to_virt(p), chunk size)) finds the start of the enclosing
        order-j block, or nothing when that lies below the region. */
    lemma EnclosingBlock(p: nat, j: nat)
      requires Ok() && p < pageNum && j <= TOP
      ensures Pow2(12 + j) <= WORD
      ensures var m := Floor(Base() + p, j);
        VirtToPage(RoundDown(PageToVirt(p), Pow2(12 + j))) == if m < Base() then None else Some(m - Base())
    {
      var x := Base() + p;
      assert PageToVirt(p) == PAGE_SIZE * x;
      RoundDownIsFloor(PAGE_SIZE * x, 12 + j);
      AddressFloor(x, j);
      var m := Floor(x, j);
      if m >= Base() {
        RoundTrip(m - Base());
      }
    }
  }

  /** The region init_buddy sets up meets Region.Ok and holds a top-aligned page. */
  lemma RegionOk(imgEnd: nat, region: Region)
    requires BootSizing.Bootable(imgEnd)
    requires region == Region(BootSizing.RegionStart(imgEnd), BootSizing.PageNum(imgEnd))
    ensures region.Ok() && region.pageNum >= 1024 && region.Base() == BootSizing.FirstPage(imgEnd)
  {
    hide Region.Ok, Aligned, BootSizing.FreeStart, BootSizing.AvailStart;
    BootSizing.ArrayFitsIff(imgEnd);
    RegionOkAt(BootSizing.FreeStart(imgEnd), region.pageNum);
  }

  /** What Bootable asks for is what the code needs: populate_page finds its first aligned page, and the page array
      ends where the region begins or before. */
  lemma BootableIff(imgEnd: nat)
    requires imgEnd <= BootSizing.PHYS_MEM_END && BootSizing.AvailStart(imgEnd) <= BootSizing.PHYS_MEM_END
    ensures BootSizing.FreeStart(imgEnd) <= BootSizing.PHYS_MEM_END && Pow2(22) <= WORD
    ensures var region := Region(BootSizing.RegionStart(imgEnd), BootSizing.PageNum(imgEnd));
      BootSizing.Bootable(imgEnd) <==>
        && region.VirtToPage(RoundUp(region.startAddr, Pow2(22))) != None
        && BootSizing.ArrayEnd(imgEnd) <= region.startAddr
  {
    hide BootSizing.FreeStart, BootSizing.AvailStart, BootSizing.AvailPages, RoundUp;
    BootSizing.Pow2Page();
    BootSizing.ArrayFitsIff(imgEnd);
    FirstAlignedIff(BootSizing.FreeStart(imgEnd), BootSizing.PageNum(imgEnd));
  }

  /** A region that ends with the memory has a page on a 4 MB boundary exactly when it has 1024 pages. */
  lemma FirstAlignedIff(f: nat, n: nat)
    requires BootSizing.PHYS_MEM_END - f == n * PAGE_SIZE
    ensures Pow2(22) <= WORD
    ensures Region(KBASE + f, n).VirtToPage(RoundUp(KBASE + f, Pow2(22))) != None <==> n >= 1024
  {
    BootSizing.Pow2Page();
    var r := RoundUp(KBASE + f, Pow2(22));
    RoundUpIsCeiling(KBASE + f, 22);
    hide RoundUp;
    var e := KBASE + BootSizing.PHYS_MEM_END;
    assert e % 0x40_0000 == 0;
  }

  lemma RegionOkAt(f: nat, n: nat)
    requires BootSizing.PHYS_MEM_END - f == n * PAGE_SIZE && n >= 1024
    ensures Region(KBASE + f, n).Ok()
  {
    BootSizing.Pow2Page();
    var e := (KBASE + BootSizing.PHYS_MEM_END) / PAGE_SIZE;
    assert KBASE + f == PAGE_SIZE * (e - n);
    assert e % 1024 == 0;
  }

  lemma HeldNotListed(s: State, a: nat, k: nat)
    requires ListsAgree(s) && Held(s, a, k)
    ensures !Listed(s.lists, a)
  {
    forall j | 0 <= j < |s.lists| ensures a !in s.lists[j] {
      assert a in s.lists[j] <==> FreeAt(s.own, a, j);
    }
  }

  /** The lower end of the enclosing order-j block, computed on byte addresses. */
  lemma AddressFloor(x: nat, j: nat)
    ensures Floor(PAGE_SIZE * x, 12 + j) == PAGE_SIZE * Floor(x, j)
  {
    var s := Pow2(j);
    Pow2Add(12, j);
    BootSizing.Pow2Page();
    ModBounds(x, s);
    assert PAGE_SIZE * x == (PAGE_SIZE * s) * (x / s) + PAGE_SIZE * (x % s) by {
      assert PAGE_SIZE * (s * (x / s)) == (PAGE_SIZE * s) * (x / s);
    }
    MulMonotone(PAGE_SIZE, x % s + 1, s);
    DivModUnique(PAGE_SIZE * x, PAGE_SIZE * s, x / s, PAGE_SIZE * (x % s));
  }

  /** The buddy of a held chunk is the head of some chunk. */
  lemma BuddyIsHead(s: State, a: nat, k: nat, lo: nat, hi: nat)
    requires Inv(s, lo, hi) && Held(s, a, k) && k < TOP && BuddyOf(a, k) in s.own
    ensures s.own[BuddyOf(a, k)].start == BuddyOf(a, k)
  {
    HeldPages(s, a, k, lo, hi);
    var b := BuddyOf(a, k);
    var c := s.own[b];
    BuddyFacts(a, k);
    if c.order > k {
      Nested(Floor(a, k + 1), k + 1, c.start, c.order);
      assert Covers(c, a);
      assert false;
    }
    HeadOfAligned(s, b, k, lo, hi);
  }

  /** The region ends on a top-order boundary, so an upper buddy is never past the end. */
  lemma UpperBuddyInside(a: nat, k: nat, hi: nat)
    requires k < TOP && Aligned(hi, TOP) && Aligned(a, k + 1) && a < hi
    ensures a + Pow2(k + 1) <= hi
  {
    AlignedLower(hi, k + 1, TOP);
    AlignedGap(a, hi, k + 1);
  }

  /** The constant-time merge test agrees with the scan of the free list. */
  lemma MergeTest(ps: seq<Page>, s: State, base: nat, a: nat, k: nat, lo: nat, hi: nat)
    requires Inv(s, lo, hi) && Held(s, a, k) && k < TOP && Rep(ps, s.own, base, a)
    requires BuddyOf(a, k) in s.own
    ensures base <= BuddyOf(a, k) < base + |ps|
    ensures var p := ps[BuddyOf(a, k) - base];
      !(p.inUse == 1 || p.order != k) <==> BuddyOf(a, k) in s.lists[k]
  {
    var b := BuddyOf(a, k);
    BuddyIsHead(s, a, k, lo, hi);
    HeldPages(s, a, k, lo, hi);
    BuddyFacts(a, k);
    assert b in s.lists[k] <==> FreeAt(s.own, b, k);
  }

  /** nr_free of every order is the length of its list. */
  predicate Counts(nr: seq<nat>, lists: seq<seq<nat>>) {
    |nr| == |lists| && forall k | 0 <= k < |lists| :: nr[k] == |lists[k]|
  }

  /** The page array and the counters stand for the state s of the region [lo, hi). */
  ghost predicate Repr(ps: seq<Page>, nr: seq<nat>, s: State, base: nat, lo: nat, hi: nat, hand: int) {
    |s.lists| == ORDERS == |nr| && Inv(s, lo, hi) && Counts(nr, s.lists) && Rep(ps, s.own, base, hand)
  }

  lemma FrontFree(s: State, k: nat, lo: nat, hi: nat)
    requires Inv(s, lo, hi) && k < ORDERS && s.lists[k] != []
    ensures FreeAt(s.own, s.lists[k][0], k)
  {
    hide NoPair, Tiling;
    assert s.lists[k][0] in s.lists[k] <==> FreeAt(s.own, s.lists[k][0], k);
  }

  lemma ReprShape(ps: seq<Page>, nr: seq<nat>, s: State, base: nat, hi: nat)
    requires Repr(ps, nr, s, base, base, hi, -1)
    ensures |s.lists| == ORDERS == |nr|
  {
  }

  lemma AboveBase(a: nat, k: nat, lo: nat, hi: nat)
    requires lo <= a && a + Pow2(k) <= hi
    ensures lo <= a < hi
  {
  }

  lemma PopCounts(nr: seq<nat>, s: State, k: nat)
    requires Counts(nr, s.lists) && k < |nr| && s.lists[k] != []
    ensures nr[k] > 0 && Counts(nr[k := nr[k] - 1], Pop(s, k).lists) && |Pop(s, k).lists| == |s.lists|
    ensures Pop(s, k).lists == s.lists[k := s.lists[k][1..]]
  {
  }

  lemma PushCounts(nr: seq<nat>, s: State, a: nat, k: nat)
    requires Counts(nr, s.lists) && k < |nr|
    ensures Counts(nr[k := nr[k] + 1], Push(s, a, k).lists) && |Push(s, a, k).lists| == |s.lists|
  {
  }

  lemma PushLists(s: State, a: nat, k: nat)
    requires k < |s.lists|
    ensures Push(s, a, k).lists == s.lists[k := [a] + s.lists[k]]
  {
  }

  lemma JoinCounts(nr: seq<nat>, s: State, a: nat, k: nat, lo: nat, hi: nat)
    requires Inv(s, lo, hi) && |s.lists| == ORDERS && Counts(nr, s.lists) && BuddyListed(s, a, k)
    ensures k < |nr| && nr[k] > 0 && Counts(nr[k := nr[k] - 1], Join(s, a, k).lists) && |Join(s, a, k).lists| == |s.lists|
    ensures Join(s, a, k).lists == s.lists[k := Remove(s.lists[k], BuddyOf(a, k))]
  {
    hide Tiling, NoPair, Remove;
    RemoveFacts(s.lists[k], BuddyOf(a, k));
  }

  lemma ListedFree(s: State, a: nat, k: nat, lo: nat, hi: nat)
    requires Inv(s, lo, hi) && |s.lists| == ORDERS && BuddyListed(s, a, k)
    ensures FreeAt(s.own, BuddyOf(a, k), k)
  {
    hide Tiling, NoPair;
    assert BuddyOf(a, k) in s.lists[k] <==> FreeAt(s.own, BuddyOf(a, k), k);
  }

  lemma InvHeldNotListed(s: State, a: nat, k: nat, lo: nat, hi: nat)
    requires Inv(s, lo, hi) && Held(s, a, k)
    ensures !Listed(s.lists, a)
  {
    hide Tiling, NoPair;
    HeldNotListed(s, a, k);
  }

  lemma ReprPop(ps: seq<Page>, nr: seq<nat>, s: State, base: nat, hi: nat, k: nat)
    requires Repr(ps, nr, s, base, base, hi, -1) && k < ORDERS && s.lists[k] != []
    ensures |nr| == ORDERS == |Pop(s, k).lists| && nr[k] > 0 && base <= s.lists[k][0] < hi
    ensures Repr(ps, nr[k := nr[k] - 1], Pop(s, k), base, base, hi, s.lists[k][0])
    ensures Held(Pop(s, k), s.lists[k][0], k)
    ensures Pop(s, k).lists == s.lists[k := s.lists[k][1..]]
  {
    hide Inv, Rep, Counts, Pop, Aligned, Pow2;
    var a := s.lists[k][0];
    FrontFree(s, k, base, hi);
    InvHeldPages(s, a, k, base, hi);
    RepPop(ps, s, base, k);
    PopKeeps(s, k, base, hi);
    PopCounts(nr, s, k);
    AboveBase(a, k, base, hi);
  }

  lemma ReprPush(ps: seq<Page>, nr: seq<nat>, s: State, base: nat, hi: nat, a: nat, k: nat)
    requires Repr(ps, nr, s, base, base, hi, a) && Held(s, a, k)
    requires k < TOP ==> !FreeAt(s.own, BuddyOf(a, k), k)
    ensures k < ORDERS == |nr| == |s.lists| && !Listed(s.lists, a)
    ensures Repr(ps, nr[k := nr[k] + 1], Push(s, a, k), base, base, hi, -1)
  {
    hide Inv, Rep, Counts, Push, Aligned, Pow2, BuddyOf, Listed;
    InvHeldPages(s, a, k, base, hi);
    InvHeldNotListed(s, a, k, base, hi);
    RepPush(ps, s, base, a, k);
    PushKeeps(s, a, k, base, hi);
    PushCounts(nr, s, a, k);
  }

  lemma ReprExtend(ps: seq<Page>, nr: seq<nat>, s: State, base: nat, a: nat, k: nat, lo: nat, hi: nat, lo': nat, hi': nat)
    requires Repr(ps, nr, s, base, lo, hi, -1) && BuddyRuns.AllFree(s) && k <= TOP && Aligned(a, k)
    requires base <= lo' && lo <= hi && hi' <= base + |ps| && forall i | 0 <= i < |ps| :: ps[i].inUse == 0
    requires (a == hi && lo' == lo && hi' == hi + Pow2(k)) || (a + Pow2(k) == lo && lo' == a && hi' == hi)
    requires k < TOP ==> BuddyOf(a, k) < lo' || BuddyOf(a, k) >= hi'
    ensures |nr| == ORDERS == |s.lists| && !Listed(s.lists, a)
    ensures Repr(ps[a - base := Page(0, k, 0)], nr[k := nr[k] + 1], Push(s, a, k), base, lo', hi', -1)
  {
    hide NoPair, ListsAgree, Aligned, BuddyOf;
    OutsideNotListed(s, a, lo, hi);
    RepExtend(ps, s, base, a, k);
    ExtendKeeps(s, a, k, lo, hi, lo', hi');
  }

  lemma ReprHalve(ps: seq<Page>, nr: seq<nat>, s: State, base: nat, hi: nat, a: nat, k: nat)
    requires Repr(ps, nr, s, base, base, hi, a) && Held(s, a, k + 1)
    ensures k < TOP && |nr| == ORDERS == |s.lists| && !Listed(s.lists, a + Pow2(k))
    ensures base <= a && a + Pow2(k) - base < |ps|
    ensures Repr(SetOrder(SetOrder(ps, a - base, k), a + Pow2(k) - base, k), nr[k := nr[k] + 1], Halve(s, a, k),
                 base, base, hi, a)
    ensures Held(Halve(s, a, k), a, k)
  {
    hide Inv, Rep, Counts, Halve, Aligned, Listed, SetOrder;
    InvHeldPages(s, a, k + 1, base, hi);
    HalveKeeps(s, a, k, base, hi);
    UpperNotListed(s, a, k, base, hi);
    var own' := HalveOwn(s, a, k);
    RepCut(ps, s.own, own', base, a, k, Pow2(k));
    HalveCounts(nr, s, a, k);
  }

  lemma HalveCounts(nr: seq<nat>, s: State, a: nat, k: nat)
    requires Counts(nr, s.lists) && k < |nr|
    ensures Counts(nr[k := nr[k] + 1], Halve(s, a, k).lists) && |Halve(s, a, k).lists| == |s.lists|
  {
  }

  lemma UpperNotListed(s: State, a: nat, k: nat, lo: nat, hi: nat)
    requires Inv(s, lo, hi) && Held(s, a, k + 1)
    ensures !Listed(s.lists, a + Pow2(k))
  {
    HeldPages(s, a, k + 1, lo, hi);
    var u := a + Pow2(k);
    forall j | 0 <= j < |s.lists| ensures u !in s.lists[j] {
      assert u in s.lists[j] <==> FreeAt(s.own, u, j);
    }
  }

  lemma ReprJoin(ps: seq<Page>, nr: seq<nat>, s: State, base: nat, hi: nat, a: nat, k: nat)
    requires Repr(ps, nr, s, base, base, hi, a) && Held(s, a, k) && BuddyListed(s, a, k)
    ensures |nr| == ORDERS && nr[k] > 0 && base <= Floor(a, k + 1) < base + |ps|
    ensures Join(s, a, k).lists == s.lists[k := Remove(s.lists[k], BuddyOf(a, k))]
    ensures Repr(SetOrder(ps, Floor(a, k + 1) - base, k + 1), nr[k := nr[k] - 1], Join(s, a, k),
                 base, base, hi, Floor(a, k + 1))
    ensures Held(Join(s, a, k), Floor(a, k + 1), k + 1)
  {
    hide Inv, Rep, Counts, Join, Remove, SetOrder, Aligned, Floor, BuddyOf, Pow2;
    var b := BuddyOf(a, k);
    ListedFree(s, a, k, base, hi);
    InvHeldPages(s, a, k, base, hi);
    InvHeldPages(s, b, k, base, hi);
    JoinKeeps(s, a, k, base, hi);
    JoinCounts(nr, s, a, k, base, hi);
    RepJoin(ps, s, base, a, k);
  }

  /** Handing the chunk out: BUG_ON(allocated == 1) and BUG_ON(order != k) cannot fire, and the mark is set. */
  lemma ReprMark(ps: seq<Page>, nr: seq<nat>, s: State, base: nat, hi: nat, a: nat, k: nat)
    requires Repr(ps, nr, s, base, base, hi, a) && Held(s, a, k)
    ensures base <= a < base + |ps| && ps[a - base].inUse == 0 && ps[a - base].order == k
    ensures Repr(ps[a - base := ps[a - base].(inUse := 1)], nr, s, base, base, hi, -1)
  {
  }

  lemma ReprUnmark(ps: seq<Page>, nr: seq<nat>, s: State, base: nat, hi: nat, a: nat, k: nat)
    requires Repr(ps, nr, s, base, base, hi, -1) && Held(s, a, k)
    ensures base <= a < base + |ps| && ps[a - base].order == k
    ensures Repr(ps[a - base := ps[a - base].(inUse := 0)], nr, s, base, base, hi, a)
  {
  }

  /** The buddy system never looks at page->slab. */
  lemma ReprIgnoresSlab(ps: seq<Page>, ps': seq<Page>, nr: seq<nat>, s: State, base: nat, lo: nat, hi: nat)
    requires Repr(ps, nr, s, base, lo, hi, -1) && |ps'| == |ps|
    requires forall i | 0 <= i < |ps| :: ps'[i].inUse == ps[i].inUse && ps'[i].order == ps[i].order
    ensures Repr(ps', nr, s, base, lo, hi, -1)
  {
    hide Inv, Counts;
  }

  /** Where the buddy and the lower end of the pair lie. */
  lemma BuddyPlace(a: nat, k: nat, hi: nat)
    requires k < TOP && Aligned(hi, TOP) && Aligned(a, k) && a < hi
    ensures var b, m := BuddyOf(a, k), Floor(a, k + 1);
      (m == a && b == a + Pow2(k) && b < hi) || (m == b == a - Pow2(k) && m < a)
  {
    BuddyFacts(a, k);
    if Aligned(a, k + 1) {
      UpperBuddyInside(a, k, hi);
    }
  }

  /** What merge_chunk computes on addresses is the buddy, or NULL when that is below the region. */
  lemma BuddyAddress(region: Region, p: nat, k: nat)
    requires region.Ok() && p < region.pageNum && k < TOP && Aligned(region.Base() + p, k)
    ensures Pow2(12 + k + 1) <= WORD
    ensures
      var a := region.Base() + p;
      var cm := region.VirtToPage(RoundDown(region.PageToVirt(p), Pow2(12 + k + 1)));
      var cb := if cm == Some(p) then Some(p + Pow2(k)) else cm;
      if BuddyOf(a, k) < region.Base() then cb == None
      else
        && cb == Some(BuddyOf(a, k) - region.Base()) && cb.value < region.pageNum
        && region.Base() <= Floor(a, k + 1) && cm == Some(Floor(a, k + 1) - region.Base())
  {
    hide Aligned, BuddyOf, Floor, RoundDown, Region.VirtToPage, Region.PageToVirt;
    region.EnclosingBlock(p, k + 1);
    assert 12 + (k + 1) == 12 + k + 1;
    BuddyPlace(region.Base() + p, k, region.End());
    hide Region.Ok, Pow2;
  }

  /** Before populate_page: an empty stretch with empty lists. */
  lemma NothingYet(ps: seq<Page>, nr: seq<nat>, s: State, base: nat, x: nat)
    requires s == State(map[], seq(ORDERS, _ => [])) && nr == seq(ORDERS, _ => 0)
    ensures Repr(ps, nr, s, base, x, x, -1) && BuddyRuns.AllFree(s)
  {
  }

  /** What a freshly populated region's lists look like. */
  lemma AllFreeLists(ps: seq<Page>, nr: seq<nat>, s: State, region: Region)
    requires region.Ok() && Repr(ps, nr, s, region.Base(), region.Base(), region.End(), -1) && BuddyRuns.AllFree(s)
    ensures |s.lists| == ORDERS && forall k | 0 <= k < TOP :: |s.lists[k]| <= 1
    ensures BuddyRuns.Total(s.lists, 0) == region.pageNum
  {
    hide Inv, Rep, Counts, Aligned, BuddyRuns.AllFree, BuddyRuns.Total;
    BuddyRuns.AllFreeTotal(s, region.Base(), region.End());
    forall k | 0 <= k < TOP ensures |s.lists[k]| <= 1 {
      BuddyRuns.OneChunkPerOrder(s, k, region.Base(), region.End());
    }
  }

  /** At the head of merge_chunk: the descriptor's order is the chunk's, and an empty list means no listed buddy. */
  lemma MergeStart(ps: seq<Page>, nr: seq<nat>, s: State, base: nat, hi: nat, a: nat, k: nat)
    requires Repr(ps, nr, s, base, base, hi, a) && Held(s, a, k)
    ensures k <= TOP && |s.lists| == ORDERS == |nr| && Aligned(a, k)
    ensures base <= a < base + |ps| && ps[a - base].order == k
    ensures nr[k] == 0 || k == TOP ==> !BuddyListed(s, a, k)
    ensures !BuddyListed(s, a, k) && k < TOP ==> !FreeAt(s.own, BuddyOf(a, k), k)
  {
    HeldPages(s, a, k, base, hi);
    if !BuddyListed(s, a, k) && k < TOP { NotListedNotFree(s, a, k); }
  }

  lemma ListedBuddy(s: State, a: nat, k: nat)
    requires |s.lists| == ORDERS && BuddyListed(s, a, k)
    ensures k < ORDERS && BuddyOf(a, k) in s.lists[k]
  {
  }

  lemma MergeTestAt(ps: seq<Page>, nr: seq<nat>, s: State, region: Region, a: nat, k: nat)
    requires region.Ok() && Repr(ps, nr, s, region.Base(), region.Base(), region.End(), a)
    requires Held(s, a, k) && k < TOP && |ps| == region.pageNum
    ensures |s.lists| == ORDERS
    ensures BuddyOf(a, k) < region.Base() ==> !BuddyListed(s, a, k)
    ensures region.Base() <= BuddyOf(a, k) < region.End() ==>
      var p := ps[BuddyOf(a, k) - region.Base()];
      !(p.inUse == 1 || p.order != k) <==> BuddyListed(s, a, k)
  {
    var b := BuddyOf(a, k);
    if region.Base() <= b < region.End() {
      MergeTest(ps, s, region.Base(), a, k, region.Base(), region.End());
    } else if b >= 0 {
      assert b in s.lists[k] <==> FreeAt(s.own, b, k);
    }
  }

  /** A list in falling order, all below the bound: populate_page puts each chunk in front of the ones before it. */
  ghost predicate Falling(xs: seq<nat>, bound: int) {
    (forall i, j | 0 <= i < j < |xs| :: xs[i] > xs[j]) && forall i | 0 <= i < |xs| :: xs[i] < bound
  }

  class Allocator {
    const region: Region
    const pages: array<Page>
    const heap: Heap
    var nrFree: seq<nat>
    ghost var st: State

    ghost function Base(): nat { region.Base() }

    ghost function End(): nat { region.End() }

    /** The concrete fields stand for `st`; `hand` is the head of the chunk an operation is working on, or -1. */
    ghost predicate Valid(hand: int)
      reads this, pages, heap
    {
      && region.Ok() && pages.Length == region.pageNum
      && heap.Valid() && heap.lists == st.lists
      && Repr(pages[..], nrFree, st, Base(), Base(), End(), hand)
    }

    ghost predicate SlabKept(old_: seq<Page>)
      reads pages
    {
      |old_| == pages.Length && forall i | 0 <= i < pages.Length :: pages[i].slab == old_[i].slab
    }

    /** During populate_page: [lo, hi) is tiled by free chunks and every descriptor is clean. */
    ghost predicate Partial(lo: nat, hi: nat)
      reads this, pages, heap
    {
      && region.Ok() && pages.Length == region.pageNum && Base() <= lo <= hi <= End()
      && heap.Valid() && heap.lists == st.lists
      && Repr(pages[..], nrFree, st, Base(), lo, hi, -1) && BuddyRuns.AllFree(st)
      && (forall i | 0 <= i < pages.Length :: pages[i].inUse == 0 && pages[i].slab == 0)
    }

    /** One chunk of populate_page, at either end of what is already filled. */
    method FillChunk(p: nat, k: nat, ghost lo: nat, ghost hi: nat, ghost lo': nat, ghost hi': nat)
      requires Partial(lo, hi) && k <= TOP && Aligned(Base() + p, k) && Base() <= lo' && hi' <= End()
      requires (Base() + p == hi && lo' == lo && hi' == hi + Pow2(k))
            || (Base() + p + Pow2(k) == lo && lo' == Base() + p && hi' == hi)
      requires k < TOP ==> BuddyOf(Base() + p, k) < lo' || BuddyOf(Base() + p, k) >= hi'
      modifies this, heap, pages
      ensures Partial(lo', hi')
      ensures k < |old(st).lists| && st.lists == old(st).lists[k := [Base() + p] + old(st).lists[k]]
    {
      hide Repr, Heap.Valid, Region.Ok, BuddyRuns.AllFree, Aligned, BuddyOf, Pow2, Push, Listed;
      ghost var a := Base() + p;
      ghost var ps := pages[..];
      ReprExtend(ps, nrFree, st, Base(), a, k, lo, hi, lo', hi');
      PushLists(st, a, k);
      ExtendAllFree(st, a, k);
      pages[p] := Page(0, k, 0);
      nrFree := nrFree[k := nrFree[k] + 1];
      heap.Add(region.Base() + p, k);
      st := Push(st, a, k);
      assert pages[..] == ps[p := Page(0, k, 0)] && heap.lists == st.lists;
    }

    /** The lists set up by init_buddy, filled upwards from the first top-aligned page to the end
        and then downwards to the start (populate_page). */
    constructor (imgEnd: nat)
      requires BootSizing.Bootable(imgEnd)
      ensures Valid(-1) && BuddyRuns.AllFree(st) && fresh(heap) && fresh(pages)
      ensures region == Region(BootSizing.RegionStart(imgEnd), BootSizing.PageNum(imgEnd))
      ensures Base() == BootSizing.FirstPage(imgEnd) && End() == BootSizing.FirstPage(imgEnd) + BootSizing.PageNum(imgEnd)
      ensures forall k | 0 <= k < TOP :: |st.lists| == ORDERS && |st.lists[k]| <= 1
      ensures |st.lists| == ORDERS && Falling(st.lists[TOP], End())
      ensures BuddyRuns.Total(st.lists, 0) == region.pageNum
      ensures forall i | 0 <= i < pages.Length :: pages[i].slab == 0
    {
      var n := BootSizing.PageNum(imgEnd);
      region := Region(BootSizing.RegionStart(imgEnd), n);
      pages := new Page[n](_ => Page(0, 0, 0));
      heap := new Heap(ORDERS);
      nrFree := seq(ORDERS, _ => 0);
      st := State(map[], seq(ORDERS, _ => []));
      new;
      hide Repr, Heap.Valid, Region.Ok, BuddyRuns.AllFree, Aligned, BootSizing.FreeStart, BootSizing.RegionStart;
      RegionOk(imgEnd, region);
      var p0 := region.FirstAligned();
      NothingYet(pages[..], nrFree, st, Base(), Base() + p0);
      FillUp(p0);
      FillDown(p0);
      AllFreeLists(pages[..], nrFree, st, region);
    }

    /** Forward loop of populate_page. */
    method FillUp(p0: nat)
      requires p0 <= region.pageNum && Partial(Base() + p0, Base() + p0) && Aligned(Base() + p0, TOP)
      requires |st.lists| == ORDERS && st.lists[TOP] == []
      modifies this, heap, pages
      ensures Partial(Base() + p0, End())
      ensures |st.lists| == ORDERS && Falling(st.lists[TOP], End())
    {
      hide Partial, Aligned, BuddyOf;
      var p: nat := p0;
      ghost var lo := Base() + p0;
      for order := ORDERS downto 0
        invariant p <= region.pageNum && Partial(lo, Base() + p)
        invariant |st.lists| == ORDERS && Falling(st.lists[TOP], Base() + p)
        invariant if order == ORDERS then Aligned(Base() + p, TOP)
                  else Aligned(Base() + p, order) && region.pageNum - p < Pow2(order)
      {
        var count := Pow2(order);
        if order < TOP { HalvesAligned(Base() + p, order); }
        while p + count <= region.pageNum
          invariant p <= region.pageNum && Partial(lo, Base() + p) && Aligned(Base() + p, order)
          invariant |st.lists| == ORDERS && Falling(st.lists[TOP], Base() + p)
          invariant order < TOP ==> region.pageNum - p < 2 * count
          invariant order < TOP && p + count <= region.pageNum ==> Aligned(Base() + p, order + 1)
        {
          AlignedShift(Base() + p, order);
          if order < TOP { UpperHalfBuddy(Base() + p, order); }
          FillChunk(p, order, lo, Base() + p, lo, Base() + p + count);
          p := p + count;
        }
      }
    }

    /** Backward loop of populate_page. */
    method FillDown(p0: nat)
      requires p0 <= region.pageNum && Partial(Base() + p0, End()) && Aligned(Base() + p0, TOP) && p0 < Pow2(TOP)
      requires |st.lists| == ORDERS
      modifies this, heap, pages
      ensures Partial(Base(), End())
      ensures |st.lists| == ORDERS && st.lists[TOP] == old(st).lists[TOP]
    {
      hide Partial, Aligned;
      var p: nat := p0;
      for order := TOP downto 0
        invariant p <= region.pageNum && Partial(Base() + p, End())
        invariant |st.lists| == ORDERS && st.lists[TOP] == old(st).lists[TOP]
        invariant Aligned(Base() + p, order) && p < Pow2(order)
      {
        p := FillDownOrder(p, order);
      }
    }

    /** Its inner loop, for one order. */
    method FillDownOrder(p0: nat, order: nat) returns (p: nat)
      requires p0 <= region.pageNum && Partial(Base() + p0, End()) && order < TOP
      requires Aligned(Base() + p0, order + 1) && p0 < Pow2(order + 1) && |st.lists| == ORDERS
      modifies this, heap, pages
      ensures |st.lists| == ORDERS && st.lists[TOP] == old(st).lists[TOP]
      ensures p <= region.pageNum && Partial(Base() + p, End()) && Aligned(Base() + p, order) && p < Pow2(order)
    {
      hide Partial, Aligned, BuddyOf;
      p := p0;
      var count := Pow2(order);
      HalvesAligned(Base() + p, order);
      while p >= count
        invariant p < 2 * count && p <= region.pageNum && Partial(Base() + p, End())
        invariant |st.lists| == ORDERS && st.lists[TOP] == old(st).lists[TOP]
        invariant Aligned(Base() + p, order) && (p >= count ==> Aligned(Base() + p, order + 1))
      {
        AlignedShift(Base() + p, order);
        LowerHalfBuddy(Base() + p, order);
        FillChunk(p - count, order, Base() + p, End(), Base() + p - count, End());
        p := p - count;
      }
    }

    /** list_del of the first chunk of list k. */
    method PopFront(k: nat) returns (p: nat)
      requires Valid(-1) && k < ORDERS && st.lists[k] != []
      modifies this, heap
      ensures st == Pop(old(st), k) && p == old(st).lists[k][0] - Base() && p < pages.Length
      ensures Valid(Base() + p) && Held(st, Base() + p, k)
    {
      hide Repr, Heap.Valid, Region.Ok, Pop, Pow2, Listed, Held, Aligned;
      ReprShape(pages[..], nrFree, st, Base(), End());
      ghost var a := st.lists[k][0];
      ghost var ps := pages[..];
      ReprPop(ps, nrFree, st, Base(), End(), k);
      var x := heap.TakeFirst(k);
      nrFree := nrFree[k := nrFree[k] - 1];
      st := Pop(st, k);
      p := x - region.Base();
      assert pages[..] == ps && heap.lists == st.lists;
    }

    /** list_add of the held chunk to list k. */
    method PushFront(p: nat, k: nat)
      requires p < pages.Length && Valid(Base() + p) && Held(st, Base() + p, k)
      requires k < TOP ==> !FreeAt(st.own, BuddyOf(Base() + p, k), k)
      modifies this, heap
      ensures k < ORDERS && st == Push(old(st), Base() + p, k) && Valid(-1)
    {
      hide Repr, Heap.Valid, Region.Ok, Pow2, Push, Listed, BuddyOf;
      ghost var a := Base() + p;
      ghost var ps := pages[..];
      ReprPush(ps, nrFree, st, Base(), End(), a, k);
      PushLists(st, a, k);
      heap.Add(region.Base() + p, k);
      nrFree := nrFree[k := nrFree[k] + 1];
      st := Push(st, a, k);
      assert pages[..] == ps && heap.lists == st.lists;
    }

    /** split_chunk: a chunk of order - 1, cut from one of `order`; the other half goes on its list. */
    method SplitChunk(order: int) returns (r: Option<nat>)
      requires Valid(-1)
      modifies this, heap, pages
      ensures order < 1 || order >= ORDERS ==> r == None && st == old(st) && Valid(-1)
      ensures 1 <= order < ORDERS ==>
        match Take(old(st), order)
        case NoPage => r == None && st == old(st) && Valid(-1)
        case Got(s1, a) =>
          && st == Halve(s1, a, order - 1) && Valid(a) && Held(st, a, order - 1)
          && r == Some(a - Base()) && r.value < pages.Length
      ensures SlabKept(old(pages[..]))
      decreases ORDERS - order
    {
      hide Inv, Rep, Heap.Valid, Region.Ok, Pop, Halve;
      if order < 1 || order >= ORDERS {
        return None;
      }
      var p: nat;
      if nrFree[order] == 0 {
        var c := SplitChunk(order + 1);
        if c == None {
          return None;
        }
        p := c.value;
      } else {
        p := PopFront(order);
      }
      var k := order - 1;
      CutChunk(p, k);
      return Some(p);
    }

    method CutChunk(p: nat, k: nat)
      requires p < pages.Length && Valid(Base() + p) && Held(st, Base() + p, k + 1)
      modifies this, heap, pages
      ensures k < ORDERS && st == Halve(old(st), Base() + p, k) && Valid(Base() + p) && Held(st, Base() + p, k)
      ensures SlabKept(old(pages[..]))
    {
      hide Repr, Heap.Valid, Region.Ok;
      ghost var ps := pages[..];
      ghost var a := Base() + p;
      ReprHalve(ps, nrFree, st, Base(), End(), a, k);
      var u := p + Pow2(k);
      pages[p] := pages[p].(order := k);
      pages[u] := pages[u].(order := k);
      heap.Add(region.Base() + u, k);
      nrFree := nrFree[k := nrFree[k] + 1];
      st := Halve(st, a, k);
      assert pages[..] == SetOrder(SetOrder(ps, p, k), u, k) && heap.lists == st.lists;
    }

    /** buddy_get_pages */
    method GetPages(order: nat) returns (r: Option<nat>)
      requires Valid(-1) && order < ORDERS
      modifies this, heap, pages
      ensures Valid(-1)
      ensures match Take(old(st), order)
        case NoPage => r == None && st == old(st)
        case Got(t, a) => st == t && r == Some(a - Base()) && r.value < pages.Length && Held(st, a, order)
      ensures SlabKept(old(pages[..]))
    {
      hide Inv, Rep, Heap.Valid, Region.Ok, Pop, Halve;
      var p: nat;
      if nrFree[order] == 0 {
        var c := SplitChunk(order + 1);
        if c == None {
          return None;
        }
        p := c.value;
      } else {
        p := PopFront(order);
      }
      ghost var ps := pages[..];
      ReprMark(ps, nrFree, st, Base(), End(), Base() + p, order);
      assert pages[p].inUse != 1 && pages[p].order == order;  // the error branch and both BUG_ONs
      pages[p] := pages[p].(inUse := 1);
      assert pages[..] == ps[p := ps[p].(inUse := 1)];
      return Some(p);
    }

    /** The test of merge_chunk: is the buddy there, not allocated and of the same order? `lower` is
        where the merged chunk would start. */
    method FindBuddy(p: nat, order: nat) returns (found: bool, lower: nat, buddy: nat)
      requires p < pages.Length && Valid(Base() + p) && Held(st, Base() + p, order) && order < TOP
      ensures found <==> BuddyListed(st, Base() + p, order)
      ensures found ==> Base() + buddy == BuddyOf(Base() + p, order) && Base() + lower == Floor(Base() + p, order + 1)
      ensures found ==> lower < pages.Length
    {
      hide Repr, Heap.Valid, Region.Ok, Floor, BuddyOf, BuddyListed, Aligned, RoundDown, Pow2;
      ghost var a := Base() + p;
      MergeStart(pages[..], nrFree, st, Base(), End(), a, order);
      BuddyAddress(region, p, order);
      MergeTestAt(pages[..], nrFree, st, region, a, order);
      var cm := region.VirtToPage(RoundDown(region.PageToVirt(p), Pow2(12 + order + 1)));
      var cb := if cm == Some(p) then Some(p + Pow2(order)) else cm;
      if cb == None || pages[cb.value].inUse == 1 || pages[cb.value].order != order {
        return false, 0, 0;
      }
      return true, cm.value, cb.value;
    }

    /** Unlink the buddy and make one chunk of the two. */
    method JoinBuddy(p: nat, order: nat, lower: nat, buddy: nat)
      requires p < pages.Length && Valid(Base() + p) && Held(st, Base() + p, order)
      requires order < TOP && BuddyListed(st, Base() + p, order) && Base() + buddy == BuddyOf(Base() + p, order)
      requires lower < pages.Length && Base() + lower == Floor(Base() + p, order + 1)
      modifies this, heap, pages
      ensures st == Join(old(st), Base() + p, order) && Valid(Base() + lower) && Held(st, Base() + lower, order + 1)
      ensures SlabKept(old(pages[..]))
    {
      hide Inv, Rep, Counts, Heap.Valid, Region.Ok, Join, Floor, BuddyOf, Aligned;
      ghost var ps := pages[..];
      ghost var a := Base() + p;
      var b := region.Base() + buddy;
      ReprJoin(ps, nrFree, st, Base(), End(), a, order);
      heap.Del(b, order, IndexOf(st.lists[order], b));
      nrFree := nrFree[order := nrFree[order] - 1];
      pages[lower] := pages[lower].(order := order + 1);
      st := Join(st, a, order);
      assert pages[..] == SetOrder(ps, lower, order + 1) && heap.lists == st.lists;
    }

    /** merge_chunk */
    method MergeChunk(p: nat) returns (r: nat)
      requires p < pages.Length && Valid(Base() + p) && Held(st, Base() + p, st.own[Base() + p].order)
      modifies this, heap, pages
      ensures old(st).own[Base() + p].order <= TOP
      ensures var m := Merge(old(st), Base() + p, old(st).own[Base() + p].order);
        && st == m.s && Valid(m.a) && Held(st, m.a, m.k) && r == m.a - Base() && r < pages.Length
        && !BuddyListed(st, m.a, m.k)
      ensures SlabKept(old(pages[..]))
      decreases TOP - st.own[Base() + p].order
    {
      hide Repr, Heap.Valid, Region.Ok, Join, Floor, BuddyOf, BuddyListed, Pow2, Aligned, FreeAt;
      ghost var a := Base() + p;
      MergeStart(pages[..], nrFree, st, Base(), End(), a, st.own[a].order);
      var order := pages[p].order;
      if nrFree[order] == 0 || order == TOP {
        return p;
      }
      var found, lower, buddy := FindBuddy(p, order);
      if !found {
        return p;
      }
      var listed := heap.Contains(region.Base() + buddy, order);
      assert listed by { ListedBuddy(st, a, order); }  // the BUG_ON on page_in_list
      JoinBuddy(p, order, lower, buddy);
      r := MergeChunk(lower);
    }

    /** buddy_free_pages: the caller hands back a chunk it holds. */
    method FreePages(p: nat)
      requires Valid(-1) && p < pages.Length && Held(st, Base() + p, st.own[Base() + p].order)
      modifies this, heap, pages
      ensures Valid(-1) && old(st).own[Base() + p].order <= TOP && st == Free(old(st), Base() + p)
      ensures SlabKept(old(pages[..]))
    {
      hide Inv, Rep, Heap.Valid, Region.Ok, Merge, Push;
      ghost var ps := pages[..];
      ghost var a := Base() + p;
      ReprUnmark(ps, nrFree, st, Base(), End(), a, st.own[a].order);
      pages[p] := pages[p].(inUse := 0);
      assert pages[..] == ps[p := ps[p].(inUse := 0)];
      var m := MergeChunk(p);
      ghost var r := Merge(old(st), a, old(st).own[a].order);
      MergeStart(pages[..], nrFree, st, Base(), End(), r.a, r.k);
      PushFront(m, pages[m].order);
    }
  }
}
