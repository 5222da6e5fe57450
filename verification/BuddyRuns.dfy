/** Page accounting, and safety over whole runs of gets and frees. */
module BuddyRuns {
  import opened Dyadic
  import opened BuddySpec
  import opened BuddyLaws

  /** get_free_pages_nums_from_buddy over the orders from i up. */
  function Total(lists: seq<seq<nat>>, i: nat): nat
    decreases |lists| - i
  {
    if i >= |lists| then 0 else |lists[i]| * Pow2(i) + Total(lists, i + 1)
  }

  ghost function FreeSet(s: State): set<nat> {
    set q | q in s.own && !s.own[q].taken
  }

  predicate Between(q: nat, a: nat, n: nat) {
    a <= q < a + n
  }

  function Interval(a: nat, n: nat): set<nat> {
    set q: nat | a <= q < a + n && Between(q, a, n)
  }

  lemma {:induction false} IntervalSize(a: nat, n: nat)
    ensures |Interval(a, n)| == n
    decreases n
  {
    if n > 0 {
      IntervalSize(a, n - 1);
      assert Interval(a, n) == Interval(a, n - 1) + {a + n - 1};
    } else {
      assert Interval(a, 0) == {};
    }
  }

  lemma {:induction false} SubsetSize<T>(f: set<T>, g: set<T>)
    requires f <= g
    ensures |f| <= |g| && (|f| == |g| ==> f == g)
    decreases f
  {
    if f != {} {
      var x :| x in f;
      SubsetSize(f - {x}, g - {x});
      assert f == (f - {x}) + {x} && g == (g - {x}) + {x};
    } else if g != {} {
      var y :| y in g;
      assert |g| == |g - {y}| + 1;
    }
  }

  lemma {:induction false} TotalTail(lists: seq<seq<nat>>, k: nat, xs: seq<nat>, i: nat)
    requires i <= |lists| && k < |lists| && |xs| + 1 == |lists[k]|
    ensures Total(lists[k := xs], i) + (if i <= k then Pow2(k) else 0) == Total(lists, i)
    decreases |lists| - i
  {
    if i < |lists| {
      TotalTail(lists, k, xs, i + 1);
      if i == k {
        assert (|xs| + 1) * Pow2(k) == |xs| * Pow2(k) + Pow2(k);
      }
    }
  }

  lemma {:induction false} TotalEmpty(lists: seq<seq<nat>>, i: nat)
    requires i <= |lists| && forall k | 0 <= k < |lists| :: lists[k] == []
    ensures Total(lists, i) == 0
    decreases |lists| - i
  {
    if i < |lists| { TotalEmpty(lists, i + 1); }
  }

  lemma HandedPages(s: State, t: State, a: nat, k: nat)
    requires Handed(s, t, a, k) && forall q: nat | a <= q < a + Pow2(k) :: q in s.own
    ensures |FreeSet(t)| + Pow2(k) == |FreeSet(s)|
  {
    IntervalSize(a, Pow2(k));
    assert FreeSet(s) == FreeSet(t) + Interval(a, Pow2(k));
    assert FreeSet(t) !! Interval(a, Pow2(k));
  }

  lemma NoListsNoPages(s: State, lo: nat, hi: nat)
    requires Inv(s, lo, hi) && forall k | 0 <= k < ORDERS :: s.lists[k] == []
    ensures FreeSet(s) == {}
  {
    forall q | q in s.own && !s.own[q].taken ensures false {
      var c := s.own[q];
      assert Covers(c, q) && Covers(c, c.start);
      assert FreeAt(s.own, c.start, c.order);
    }
  }

  /** The nr_free counters add up to exactly the number of free pages. */
  lemma {:induction false} TotalIsFreePages(s: State, lo: nat, hi: nat)
    requires Inv(s, lo, hi)
    ensures Total(s.lists, 0) == |FreeSet(s)|
    decreases Total(s.lists, 0)
  {
    if k :| 0 <= k < ORDERS && s.lists[k] != [] {
      PopKeeps(s, k, lo, hi);
      TotalTail(s.lists, k, s.lists[k][1..], 0);
      TotalIsFreePages(Pop(s, k), lo, hi);
      assert FreeAt(s.own, s.lists[k][0], k);
      HeldPages(s, s.lists[k][0], k, lo, hi);
      HandedPages(s, Pop(s, k), s.lists[k][0], k);
    } else {
      TotalEmpty(s.lists, 0);
      NoListsNoPages(s, lo, hi);
    }
  }

  /** Whatever hands chunk (a, k) over moves exactly 2^k pages out of the free count. */
  lemma HandedTotal(s: State, t: State, a: nat, k: nat, lo: nat, hi: nat)
    requires Inv(s, lo, hi) && Inv(t, lo, hi) && Handed(s, t, a, k) && Held(t, a, k)
    ensures Total(t.lists, 0) + Pow2(k) == Total(s.lists, 0)
  {
    TotalIsFreePages(s, lo, hi);
    TotalIsFreePages(t, lo, hi);
    HeldPages(t, a, k, lo, hi);
    HandedPages(s, t, a, k);
  }

  /** buddy_get_pages(k): NULL iff no order >= k has a chunk; else the free count drops by 2^k. */
  lemma TakeTotal(s: State, k: nat, lo: nat, hi: nat)
    requires Inv(s, lo, hi) && k <= ORDERS
    ensures match Take(s, k)
      case NoPage => forall j | k <= j < ORDERS :: s.lists[j] == []
      case Got(t, a) => (exists j :: k <= j < ORDERS && s.lists[j] != []) && Total(t.lists, 0) + Pow2(k) == Total(s.lists, 0)
  {
    TakeKeeps(s, k, lo, hi);
    TakeLists(s, k);
    match Take(s, k)
    case NoPage =>
    case Got(t, a) => HandedTotal(s, t, a, k, lo, hi);
  }

  // ---------- runs ----------

  datatype Op = Get(k: nat) | Put(a: nat)

  /** Callers free only chunks they hold. */
  predicate Legal(s: State, op: Op) {
    op.Put? ==> op.a in s.own && s.own[op.a].start == op.a && s.own[op.a].taken
  }

  function Step(s: State, op: Op): (t: State)
    requires |s.lists| == ORDERS && Legal(s, op)
    ensures |t.lists| == ORDERS
  {
    match op
    case Get(k) => (match Take(s, k) case NoPage => s case Got(t, a) => t)
    case Put(a) => if s.own[a].order <= TOP then Free(s, a) else s
  }

  /** t is reachable from s by a sequence of legal operations. */
  ghost predicate Reaches(s: State, ops: seq<Op>, t: State)
    requires |s.lists| == ORDERS
    decreases |ops|
  {
    if ops == [] then s == t else Legal(s, ops[0]) && Reaches(Step(s, ops[0]), ops[1..], t)
  }

  lemma StepKeeps(s: State, op: Op, lo: nat, hi: nat)
    requires Inv(s, lo, hi) && Legal(s, op)
    ensures Inv(Step(s, op), lo, hi)
  {
    match op
    case Get(k) => TakeKeeps(s, k, lo, hi);
    case Put(a) => FreeKeeps(s, a, s.own[a].order, lo, hi);
  }

  /** The invariant holds in every reachable state. */
  lemma {:induction false} RunKeeps(s: State, ops: seq<Op>, t: State, lo: nat, hi: nat)
    requires Inv(s, lo, hi) && Reaches(s, ops, t)
    ensures Inv(t, lo, hi)
    decreases |ops|
  {
    if ops != [] {
      StepKeeps(s, ops[0], lo, hi);
      RunKeeps(Step(s, ops[0]), ops[1..], t, lo, hi);
    }
  }

  /** In a reachable state chunks are pairwise disjoint and cover the region, in the plain sense. */
  lemma TilingMeansPartition(s: State, lo: nat, hi: nat)
    requires Tiling(s.own, lo, hi)
    ensures forall p: nat | lo <= p < hi :: p in s.own && Covers(s.own[p], p)
    ensures forall p, q: nat | p in s.own && q in s.own && s.own[p] != s.own[q] ::
        s.own[p].start + Pow2(s.own[p].order) <= s.own[q].start || s.own[q].start + Pow2(s.own[q].order) <= s.own[p].start
    ensures forall p | p in s.own :: lo <= s.own[p].start && s.own[p].start + Pow2(s.own[p].order) <= hi
  {
    forall p, q: nat | p in s.own && q in s.own && s.own[p] != s.own[q]
      ensures s.own[p].start + Pow2(s.own[p].order) <= s.own[q].start || s.own[q].start + Pow2(s.own[q].order) <= s.own[p].start
    {
      var c, d := s.own[p], s.own[q];
      var m := if c.start <= d.start then d.start else c.start;
      if Covers(c, m) && Covers(d, m) {
        assert false;
      }
    }
    forall p | p in s.own
      ensures lo <= s.own[p].start && s.own[p].start + Pow2(s.own[p].order) <= hi
    {
      var c := s.own[p];
      assert Covers(c, c.start) && Covers(c, c.start + Pow2(c.order) - 1);
    }
  }

  ghost predicate AllFree(s: State) {
    forall q | q in s.own :: !s.own[q].taken
  }

  /** Once everything is freed again, in whatever order, the free chunks are those of the start. */
  lemma AllFreedRestores(s: State, ops: seq<Op>, t: State, lo: nat, hi: nat)
    requires Inv(s, lo, hi) && Reaches(s, ops, t) && AllFree(s) && AllFree(t)
    ensures t.own == s.own && |t.lists| == ORDERS
    ensures forall k | 0 <= k < ORDERS :: multiset(t.lists[k]) == multiset(s.lists[k])
  {
    RunKeeps(s, ops, t, lo, hi);
    assert s.own.Keys == t.own.Keys;
    FreeChunksUnique(s, t, lo, hi);
  }

  // ---------- the lists of a region that is all free ----------

  lemma RegionSize(b: State, lo: nat, hi: nat)
    requires Inv(b, lo, hi) && lo <= hi
    ensures |b.own.Keys| == hi - lo
  {
    hide ListsAgree, NoPair;
    IntervalSize(lo, hi - lo);
    forall q: nat ensures q in b.own <==> q in Interval(lo, hi - lo) {
      assert Between(q, lo, hi - lo) <==> lo <= q < hi;
    }
    assert b.own.Keys == Interval(lo, hi - lo);
  }

  /** With every page free the counters add up to the region. */
  lemma AllFreeTotal(s: State, lo: nat, hi: nat)
    requires Inv(s, lo, hi) && lo <= hi && AllFree(s)
    ensures Total(s.lists, 0) == hi - lo
  {
    TotalIsFreePages(s, lo, hi);
    RegionSize(s, lo, hi);
    hide Inv;
    assert FreeSet(s) == s.own.Keys;
  }

  /** In an all-free region that ends on a top-order boundary, a free chunk below the top order is the upper half of
      a block that sticks out below the region. */
  lemma OnlyAtTheLowEnd(s: State, a: nat, k: nat, lo: nat, hi: nat)
    requires Inv(s, lo, hi) && AllFree(s) && Aligned(hi, TOP) && k < TOP && FreeAt(s.own, a, k)
    ensures a >= Pow2(k) && a - Pow2(k) < lo <= a && Aligned(a - Pow2(k), k + 1)
  {
    InvHeldPages(s, a, k, lo, hi);
    var m := Floor(a, k + 1);
    FloorAligned(a, k + 1);
    if m >= lo {
      AlignedLower(hi, k + 1, TOP);
      AlignedGap(m, hi, k + 1);
      FreeIntervalIsOneChunk(s, m, k + 1, lo, hi);
      var c := s.own[m];
      Nested(m, k + 1, c.start, c.order);
      assert Covers(c, a);
      assert false;
    }
    OddHalf(a, k);
  }

  /** populate_page leaves at most one chunk of every order below the top. */
  lemma OneChunkPerOrder(s: State, k: nat, lo: nat, hi: nat)
    requires Inv(s, lo, hi) && AllFree(s) && Aligned(hi, TOP) && k < TOP
    ensures |s.lists| == ORDERS && |s.lists[k]| <= 1
  {
    if |s.lists[k]| >= 2 {
      var a, b := s.lists[k][0], s.lists[k][1];
      assert a in s.lists[k] && b in s.lists[k];
      assert FreeAt(s.own, a, k) && FreeAt(s.own, b, k) && a != b;
      hide Inv;
      OnlyAtTheLowEnd(s, a, k, lo, hi);
      OnlyAtTheLowEnd(s, b, k, lo, hi);
      if a < b { AlignedGap(a - Pow2(k), b - Pow2(k), k + 1); } else { AlignedGap(b - Pow2(k), a - Pow2(k), k + 1); }
      assert false;
    }
  }
}
