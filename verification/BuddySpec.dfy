/**
  The buddy system as a value: a tiling of the managed pages by chunks and one free
  list per order. Pages are absolute page numbers (virtual address / 4096), because
  chunk alignment is decided on addresses and not on indices into the page array.
 */
module BuddySpec {
  import opened Dyadic

  const ORDERS: nat := 11  // BUDDY_MAX_ORDER
  const TOP: nat := 10

  /** A chunk of 2^order pages; `taken` when it is handed out (or in the hands of an operation). */
  datatype Chunk = Chunk(start: nat, order: nat, taken: bool)

  /** `own` says which chunk each page belongs to; `lists[k]` is the free list of order k. */
  datatype State = State(own: map<nat, Chunk>, lists: seq<seq<nat>>)

  datatype GetResult = NoPage | Got(s: State, a: nat)

  datatype MergeResult = Merged(s: State, a: nat, k: nat)

  predicate Covers(c: Chunk, q: nat) {
    c.start <= q < c.start + Pow2(c.order)
  }

  predicate FreeAt(own: map<nat, Chunk>, a: int, k: nat) {
    a >= 0 && a in own && own[a] == Chunk(a, k, false)
  }

  predicate Held(s: State, a: nat, k: nat) {
    a in s.own && s.own[a] == Chunk(a, k, true)
  }

  /** Every page of [lo, hi) lies in exactly one chunk, and chunks are aligned to their size. */
  ghost predicate Tiling(own: map<nat, Chunk>, lo: nat, hi: nat) {
    && (forall q: nat :: q in own <==> lo <= q < hi)
    && (forall q | q in own :: own[q].order <= TOP && Aligned(own[q].start, own[q].order) && Covers(own[q], q))
    && (forall q, r: nat {:trigger Covers(own[q], r)} | q in own && Covers(own[q], r) :: r in own && own[r] == own[q])
  }

  ghost predicate Distinct(xs: seq<nat>) {
    forall i, j | 0 <= i < j < |xs| :: xs[i] != xs[j]
  }

  /** Each list holds exactly the free chunks of its order, once each. */
  ghost predicate ListsAgree(s: State) {
    && |s.lists| == ORDERS
    && (forall k | 0 <= k < ORDERS :: Distinct(s.lists[k]))
    && (forall k, a: nat | 0 <= k < ORDERS :: a in s.lists[k] <==> FreeAt(s.own, a, k))
  }

  predicate Mergeable(own: map<nat, Chunk>, a: nat, k: nat) {
    k < TOP && FreeAt(own, a, k) && FreeAt(own, BuddyOf(a, k), k)
  }

  ghost predicate NoPair(own: map<nat, Chunk>) {
    forall a: nat, k: nat :: !Mergeable(own, a, k)
  }

  ghost predicate Inv(s: State, lo: nat, hi: nat) {
    |s.lists| == ORDERS && Tiling(s.own, lo, hi) && ListsAgree(s) && NoPair(s.own)
  }

  // ---------- the primitive moves ----------

  function Fill(c: Chunk): (m: map<nat, Chunk>)
    ensures forall q: nat :: q in m <==> Covers(c, q)
    ensures forall q: nat | q in m :: m[q] == c
  {
    map q: nat | c.start <= q < c.start + Pow2(c.order) && Covers(c, q) :: c
  }

  function Paint(own: map<nat, Chunk>, c: Chunk): map<nat, Chunk> {
    own + Fill(c)
  }

  function IndexOf(xs: seq<nat>, x: nat): (i: nat)
    requires x in xs
    ensures i < |xs| && xs[i] == x && x !in xs[..i]
  {
    if xs[0] == x then 0 else 1 + IndexOf(xs[1..], x)
  }

  function Remove(xs: seq<nat>, x: nat): seq<nat>
    requires x in xs
  {
    var i := IndexOf(xs, x);
    xs[..i] + xs[i + 1..]
  }

  function Pop(s: State, k: nat): State
    requires k < |s.lists| && s.lists[k] != []
  {
    State(Paint(s.own, Chunk(s.lists[k][0], k, true)), s.lists[k := s.lists[k][1..]])
  }

  function Push(s: State, a: nat, k: nat): State
    requires k < |s.lists|
  {
    State(Paint(s.own, Chunk(a, k, false)), s.lists[k := [a] + s.lists[k]])
  }

  /** Cut the held order-(k+1) chunk at `a`: keep the lower half, put the upper half on list k. */
  function Halve(s: State, a: nat, k: nat): State
    requires k < |s.lists|
  {
    Push(State(Paint(s.own, Chunk(a, k, true)), s.lists), a + Pow2(k), k)
  }

  /** Take the free buddy of the held chunk off its list and hold the union. */
  function Join(s: State, a: nat, k: nat): State
    requires k < |s.lists| && BuddyOf(a, k) >= 0 && BuddyOf(a, k) in s.lists[k]
  {
    State(Paint(s.own, Chunk(Floor(a, k + 1), k + 1, true)), s.lists[k := Remove(s.lists[k], BuddyOf(a, k))])
  }

  // ---------- the operations ----------

  /** A chunk of order k, from list k or by halving one of the next order. */
  function Take(s: State, k: nat): (r: GetResult)
    requires |s.lists| == ORDERS
    ensures r.Got? ==> |r.s.lists| == ORDERS
    decreases ORDERS - k
  {
    if k >= ORDERS then NoPage
    else if s.lists[k] != [] then Got(Pop(s, k), s.lists[k][0])
    else match Take(s, k + 1)
      case NoPage => NoPage
      case Got(s1, a) => Got(Halve(s1, a, k), a)
  }

  predicate BuddyListed(s: State, a: nat, k: nat)
    requires |s.lists| == ORDERS
  {
    k < TOP && BuddyOf(a, k) >= 0 && BuddyOf(a, k) in s.lists[k]
  }

  /** Join with the buddy for as long as the buddy is on its free list. */
  function Merge(s: State, a: nat, k: nat): (r: MergeResult)
    requires |s.lists| == ORDERS && k <= TOP
    ensures |r.s.lists| == ORDERS && k <= r.k <= TOP
    decreases TOP - k
  {
    if BuddyListed(s, a, k) then Merge(Join(s, a, k), Floor(a, k + 1), k + 1)
    else Merged(s, a, k)
  }

  function Free(s: State, a: nat): (r: State)
    requires |s.lists| == ORDERS && a in s.own && s.own[a].order <= TOP
    ensures |r.lists| == ORDERS
  {
    var m := Merge(s, a, s.own[a].order);
    Push(m.s, m.a, m.k)
  }

  // ---------- preservation ----------

  predicate Within(c: Chunk, p: Chunk) {
    p.start <= c.start && c.start + Pow2(c.order) <= p.start + Pow2(p.order)
  }

  /** Replacing the chunks inside an interval that is a union of chunks leaves a tiling. */
  lemma Retile(own: map<nat, Chunk>, own': map<nat, Chunk>, p: Chunk, lo: nat, hi: nat)
    requires Tiling(own, lo, hi) && own'.Keys == own.Keys
    requires forall q: nat | q in own && Covers(p, q) :: Within(own[q], p)
    requires forall q: nat | q in own && !Covers(p, q) :: own'[q] == own[q]
    requires forall q: nat | q in own && Covers(p, q) ::
        own'[q].order <= TOP && Aligned(own'[q].start, own'[q].order) && Covers(own'[q], q) && Within(own'[q], p)
    requires forall q, r: nat {:trigger Covers(own'[q], r)} | q in own && Covers(p, q) && Covers(own'[q], r) :: r in own && own'[r] == own'[q]
    ensures Tiling(own', lo, hi)
  {
    forall q, r: nat | q in own' && Covers(own'[q], r)
      ensures r in own' && own'[r] == own'[q]
    {
      if !Covers(p, q) {
        assert own[r] == own[q];
        assert !Covers(p, r);
      }
    }
  }

  lemma HeldPages(s: State, a: nat, k: nat, lo: nat, hi: nat)
    requires Tiling(s.own, lo, hi) && (Held(s, a, k) || FreeAt(s.own, a, k))
    ensures k <= TOP && Aligned(a, k) && lo <= a && a + Pow2(k) <= hi
    ensures forall q: nat | a <= q < a + Pow2(k) :: q in s.own && s.own[q] == s.own[a]
  {
    assert Covers(s.own[a], a);
    forall q: nat | a <= q < a + Pow2(k)
      ensures q in s.own && s.own[q] == s.own[a]
    {
      assert Covers(s.own[a], q);
    }
    var last := a + Pow2(k) - 1;
    assert last in s.own;
  }

  lemma InvHeldPages(s: State, a: nat, k: nat, lo: nat, hi: nat)
    requires Inv(s, lo, hi) && (Held(s, a, k) || FreeAt(s.own, a, k))
    ensures k <= TOP && Aligned(a, k) && lo <= a && a + Pow2(k) <= hi
    ensures forall q: nat | a <= q < a + Pow2(k) :: q in s.own && s.own[q] == s.own[a]
  {
    HeldPages(s, a, k, lo, hi);
  }

  lemma PopKeeps(s: State, k: nat, lo: nat, hi: nat)
    requires Inv(s, lo, hi) && k < ORDERS && s.lists[k] != []
    ensures Inv(Pop(s, k), lo, hi) && Held(Pop(s, k), s.lists[k][0], k)
  {
    hide Tiling, Aligned, BuddyOf;
    var a := s.lists[k][0];
    assert FreeAt(s.own, a, k);
    HeldPages(s, a, k, lo, hi);
    var c := Chunk(a, k, true);
    var t := Pop(s, k);
    Retile(s.own, t.own, c, lo, hi);
    forall j, b: nat | 0 <= j < ORDERS
      ensures b in t.lists[j] <==> FreeAt(t.own, b, j)
    {
      assert b in s.lists[j] <==> FreeAt(s.own, b, j);
    }
    forall b: nat, j: nat ensures !Mergeable(t.own, b, j) {
      assert !Mergeable(s.own, b, j);
    }
  }

  lemma PushTiles(s: State, a: nat, k: nat, lo: nat, hi: nat)
    requires Tiling(s.own, lo, hi) && ListsAgree(s) && Held(s, a, k)
    ensures k < ORDERS && Tiling(Push(s, a, k).own, lo, hi) && ListsAgree(Push(s, a, k))
  {
    hide Tiling, Aligned;
    HeldPages(s, a, k, lo, hi);
    var t := Push(s, a, k);
    Retile(s.own, t.own, Chunk(a, k, false), lo, hi);
    assert a !in s.lists[k];
    forall j, b: nat | 0 <= j < ORDERS
      ensures b in t.lists[j] <==> FreeAt(t.own, b, j)
    {
      assert b in s.lists[j] <==> FreeAt(s.own, b, j);
    }
  }

  lemma PushKeeps(s: State, a: nat, k: nat, lo: nat, hi: nat)
    requires Inv(s, lo, hi) && Held(s, a, k)
    requires k < TOP ==> !FreeAt(s.own, BuddyOf(a, k), k)
    ensures k < ORDERS && Inv(Push(s, a, k), lo, hi)
  {
    hide Tiling, Aligned, ListsAgree;
    HeldPages(s, a, k, lo, hi);
    PushTiles(s, a, k, lo, hi);
    var t := Push(s, a, k);
    forall b: nat, j: nat ensures !Mergeable(t.own, b, j) {
      assert !Mergeable(s.own, b, j);
      if Mergeable(t.own, b, j) {
        HeldPages(t, b, j, lo, hi);
        BuddyFacts(b, j);
        assert false;
      }
    }
  }

  /** Two half-size chunks in place of one. */
  lemma CutTiles(own: map<nat, Chunk>, own': map<nat, Chunk>, p: Chunk, c: Chunk, d: Chunk, lo: nat, hi: nat)
    requires Tiling(own, lo, hi) && own'.Keys == own.Keys && p.order <= TOP
    requires forall q: nat | Covers(p, q) :: q in own && own[q] == p
    requires c.order == d.order && c.order + 1 == p.order
    requires c.start == p.start && d.start == p.start + Pow2(c.order)
    requires Aligned(c.start, c.order) && Aligned(d.start, d.order)
    requires forall q: nat | q in own && !Covers(p, q) :: own'[q] == own[q]
    requires forall q: nat | q in own && Covers(p, q) :: own'[q] == if q < d.start then c else d
    ensures Tiling(own', lo, hi)
  {
    Retile(own, own', p, lo, hi);
  }

  lemma HalveOwn(s: State, a: nat, k: nat) returns (own': map<nat, Chunk>)
    requires k < |s.lists|
    requires forall q: nat | a <= q < a + Pow2(k + 1) :: q in s.own
    ensures own' == Halve(s, a, k).own && own'.Keys == s.own.Keys
    ensures forall q: nat | q in s.own ::
        own'[q] == if a <= q < a + Pow2(k) then Chunk(a, k, true)
                   else if a + Pow2(k) <= q < a + Pow2(k + 1) then Chunk(a + Pow2(k), k, false)
                   else s.own[q]
  {
    own' := Halve(s, a, k).own;
  }

  lemma HalveTiles(s: State, a: nat, k: nat, lo: nat, hi: nat)
    requires Tiling(s.own, lo, hi) && Held(s, a, k + 1) && k < |s.lists|
    ensures Tiling(Halve(s, a, k).own, lo, hi)
  {
    hide Tiling, Halve;
    HeldPages(s, a, k + 1, lo, hi);
    HalvesAligned(a, k);
    var p := Chunk(a, k + 1, true);
    assert forall q: nat | Covers(p, q) :: q in s.own && s.own[q] == p;
    var own' := HalveOwn(s, a, k);
    CutTiles(s.own, own', p, Chunk(a, k, true), Chunk(a + Pow2(k), k, false), lo, hi);
  }

  lemma HalveLists(s: State, a: nat, k: nat, lo: nat, hi: nat)
    requires Tiling(s.own, lo, hi) && ListsAgree(s) && Held(s, a, k + 1)
    ensures k < TOP && ListsAgree(Halve(s, a, k))
  {
    hide Tiling, Aligned;
    HeldPages(s, a, k + 1, lo, hi);
    var t := Halve(s, a, k);
    assert !FreeAt(s.own, a + Pow2(k), k);
    forall j, b: nat | 0 <= j < ORDERS
      ensures b in t.lists[j] <==> FreeAt(t.own, b, j)
    {
      assert b in s.lists[j] <==> FreeAt(s.own, b, j);
    }
  }

  lemma HalveKeeps(s: State, a: nat, k: nat, lo: nat, hi: nat)
    requires Inv(s, lo, hi) && Held(s, a, k + 1)
    ensures k < TOP && Inv(Halve(s, a, k), lo, hi) && Held(Halve(s, a, k), a, k)
  {
    HeldPages(s, a, k + 1, lo, hi);
    HalveTiles(s, a, k, lo, hi);
    HalveLists(s, a, k, lo, hi);
    var t := Halve(s, a, k);
    forall b: nat, j: nat ensures !Mergeable(t.own, b, j) {
      if Mergeable(t.own, b, j) {
        HeldPages(t, b, j, lo, hi);
        HalveNoNewPair(s, a, k, b, j);
        assert false;
      }
    }
  }

  lemma HalveNoNewPair(s: State, a: nat, k: nat, b: nat, j: nat)
    requires k < |s.lists| && Aligned(a, k + 1) && Aligned(b, j)
    requires Mergeable(Halve(s, a, k).own, b, j)
    ensures Mergeable(s.own, b, j)
  {
    var c := BuddyOf(b, j);
    BuddyFacts(b, j);
    UpperHalfBuddy(a, k);
    HalveFree(s, a, k, b, j);
    HalveFree(s, a, k, c, j);
    assert BuddyOf(c, j) == b;
    assert !(b == a + Pow2(k) && j == k);
    assert !(c == a + Pow2(k) && j == k);
  }

  lemma HalveFree(s: State, a: nat, k: nat, b: nat, j: nat)
    requires k < |s.lists| && FreeAt(Halve(s, a, k).own, b, j)
    ensures FreeAt(s.own, b, j) || (b == a + Pow2(k) && j == k)
    ensures b != a
  {
  }

  /** ys is xs without one occurrence of x, the rest in order. */
  ghost predicate Removed(xs: seq<nat>, ys: seq<nat>, x: nat) {
    exists i: nat :: i < |xs| && xs[i] == x && ys == xs[..i] + xs[i + 1..]
  }

  lemma RemoveIs(xs: seq<nat>, x: nat)
    requires x in xs
    ensures Removed(xs, Remove(xs, x), x)
  {
    var i := IndexOf(xs, x);
    assert xs[i] == x;
  }

  lemma RemoveFacts(xs: seq<nat>, x: nat)
    requires x in xs && Distinct(xs)
    ensures Distinct(Remove(xs, x)) && |Remove(xs, x)| == |xs| - 1
    ensures forall y: nat :: y in Remove(xs, x) <==> y in xs && y != x
  {
    var i := IndexOf(xs, x);
    assert xs == xs[..i] + [x] + xs[i + 1..];
  }

  lemma JoinTiles(s: State, a: nat, k: nat, lo: nat, hi: nat)
    requires Inv(s, lo, hi) && Held(s, a, k) && BuddyListed(s, a, k)
    ensures Tiling(Join(s, a, k).own, lo, hi) && Held(Join(s, a, k), Floor(a, k + 1), k + 1)
  {
    hide Tiling, Remove, Aligned, NoPair;
    var b := BuddyOf(a, k);
    assert FreeAt(s.own, b, k);
    HeldPages(s, a, k, lo, hi);
    HeldPages(s, b, k, lo, hi);
    BuddyFacts(a, k);
    Retile(s.own, Join(s, a, k).own, Chunk(Floor(a, k + 1), k + 1, true), lo, hi);
  }

  lemma JoinKeeps(s: State, a: nat, k: nat, lo: nat, hi: nat)
    requires Inv(s, lo, hi) && Held(s, a, k) && BuddyListed(s, a, k)
    ensures Inv(Join(s, a, k), lo, hi) && Held(Join(s, a, k), Floor(a, k + 1), k + 1)
  {
    JoinTiles(s, a, k, lo, hi);
    hide Tiling, Remove, Aligned;
    var b := BuddyOf(a, k);
    assert FreeAt(s.own, b, k);
    HeldPages(s, a, k, lo, hi);
    HeldPages(s, b, k, lo, hi);
    BuddyFacts(a, k);
    RemoveFacts(s.lists[k], b);
    var t := Join(s, a, k);
    forall j, c: nat | 0 <= j < ORDERS
      ensures c in t.lists[j] <==> FreeAt(t.own, c, j)
    {
      assert c in s.lists[j] <==> FreeAt(s.own, c, j);
    }
    forall c: nat, j: nat ensures !Mergeable(t.own, c, j) {
      assert !Mergeable(s.own, c, j);
    }
  }

  // ---------- growing the region, for populate_page ----------

  /** A chunk put at one end of the tiled region tiles the larger region. */
  lemma ExtendTiles(own: map<nat, Chunk>, own': map<nat, Chunk>, c: Chunk, lo: nat, hi: nat, lo': nat, hi': nat)
    requires Tiling(own, lo, hi) && lo <= hi && c.order <= TOP && Aligned(c.start, c.order)
    requires (c.start == hi && lo' == lo && hi' == hi + Pow2(c.order))
          || (c.start + Pow2(c.order) == lo && lo' == c.start && hi' == hi)
    requires forall q: nat :: q in own' <==> q in own || Covers(c, q)
    requires forall q: nat | q in own' :: own'[q] == if Covers(c, q) then c else own[q]
    ensures Tiling(own', lo', hi')
  {
    forall q, r: nat | q in own' && Covers(own'[q], r)
      ensures r in own' && own'[r] == own'[q]
    {
      if !Covers(c, q) {
        assert own[r] == own[q];
      }
    }
  }

  lemma ExtendLists(s: State, a: nat, k: nat)
    requires ListsAgree(s) && k <= TOP
    requires forall q: nat | a <= q < a + Pow2(k) :: q !in s.own
    ensures ListsAgree(Push(s, a, k))
  {
    var t := Push(s, a, k);
    assert a !in s.own;
    assert a in s.lists[k] <==> FreeAt(s.own, a, k);
    forall j, b: nat | 0 <= j < ORDERS
      ensures b in t.lists[j] <==> FreeAt(t.own, b, j)
    {
      assert b in s.lists[j] <==> FreeAt(s.own, b, j);
    }
  }

  lemma ExtendNoPair(s: State, t: State, a: nat, k: nat, lo: nat, hi: nat)
    requires NoPair(s.own) && Tiling(t.own, lo, hi)
    requires forall b: nat, j: nat | FreeAt(t.own, b, j) :: FreeAt(s.own, b, j) || (b == a && j == k)
    requires k < TOP ==> !FreeAt(t.own, BuddyOf(a, k), k)
    ensures NoPair(t.own)
  {
    forall b: nat, j: nat ensures !Mergeable(t.own, b, j) {
      assert !Mergeable(s.own, b, j);
      if Mergeable(t.own, b, j) {
        HeldPages(t, b, j, lo, hi);
        BuddyFacts(b, j);
        assert false;
      }
    }
  }

  lemma ExtendKeeps(s: State, a: nat, k: nat, lo: nat, hi: nat, lo': nat, hi': nat)
    requires Inv(s, lo, hi) && lo <= hi && k <= TOP && Aligned(a, k)
    requires (a == hi && lo' == lo && hi' == hi + Pow2(k)) || (a + Pow2(k) == lo && lo' == a && hi' == hi)
    requires k < TOP ==> BuddyOf(a, k) < lo' || BuddyOf(a, k) >= hi'
    ensures Inv(Push(s, a, k), lo', hi')
  {
    hide NoPair, Aligned, ListsAgree;
    var t, c := Push(s, a, k), Chunk(a, k, false);
    ExtendTiles(s.own, t.own, c, lo, hi, lo', hi');
    ExtendLists(s, a, k);
    ExtendNoPair(s, t, a, k, lo', hi');
  }
}
